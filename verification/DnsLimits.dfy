/** How far the codec reaches: what an accepted message can contain, what compression can cost, and
    why 32 labels is the limit of the round trip. */
module DnsLimits {
  import opened Bytes
  import opened DnsHops
  import opened DnsName
  import opened WireList
  import opened DnsMessage
  import opened DnsRoundTrip

  // ---- Any bytes -------------------------------------------------------------------------------

  predicate NameBounded(n: Name) { Normal(n) && NameSize(n) <= 255 }

  predicate QuestionBounded(q: Question) { NameBounded(q.name) && q.rrclass < 0x8000 }

  predicate RecordBounded(r: Record) {
    NameBounded(r.name) && NameBounded(r.target) && r.rrclass < 0x8000 && |r.rdata| < 0x1_0000 &&
    (r.rtype == PTR || r.rtype == SRV ==> r.rdata == []) && (r.rtype != PTR && r.rtype != SRV ==> r.target == []) &&
    (r.rtype != SRV ==> r.priority == r.weight == r.port == 0)
  }

  lemma {:induction false} ReadNameBounded(d: seq<byte>, p: nat)
    ensures ReadName(d, p).Some? ==> NameBounded(ReadName(d, p).value.name)
  {
    if ReadName(d, p).Some? { WalkIsBounded(d, p, 0, 0); }
  }

  lemma {:induction false} ReadQuestionBounded(d: seq<byte>, p: nat)
    ensures ReadQuestion(d, p).Some? ==> QuestionBounded(ReadQuestion(d, p).value.value)
  {
    ReadNameBounded(d, p);
  }

  predicate HeadBounded(base: Record) {
    NameBounded(base.name) && base.rrclass < 0x8000 && base.target == [] && base.rdata == [] &&
    base.priority == base.weight == base.port == 0
  }

  lemma {:induction false} ReadRdataBounded(d: seq<byte>, base: Record, start: nat, end: nat)
    requires start <= end <= |d| && end - start < 0x1_0000 && HeadBounded(base)
    ensures ReadRdata(d, base, start, end).Some? ==> RecordBounded(ReadRdata(d, base, start, end).value.value)
  {
    ReadNameBounded(d, start);
    ReadNameBounded(d, start + 6);
  }

  /** What readRecord has once the fixed fields are read. */
  function Head(d: seq<byte>, name: Name, h: nat): Record
    requires h + 10 <= |d|
  {
    Record(name, Be16(d, h), Low15(Be16(d, h + 2)), Be16(d, h + 2) >= 0x8000, Be32(d, h + 4), [], 0, 0, 0, [])
  }

  lemma {:induction false} ReadRecordParts(d: seq<byte>, p: nat)
    requires ReadRecord(d, p).Some?
    ensures var n := ReadName(d, p);
      n.Some? && n.value.next + 10 <= |d| &&
      var start := n.value.next + 10; var end := start + Be16(d, n.value.next + 8);
      end <= |d| && ReadRecord(d, p) == ReadRdata(d, Head(d, n.value.name, n.value.next), start, end)
  {
  }

  lemma {:induction false} ReadRecordBounded(d: seq<byte>, p: nat)
    ensures ReadRecord(d, p).Some? ==> RecordBounded(ReadRecord(d, p).value.value)
  {
    if ReadRecord(d, p).Some? {
      ReadRecordParts(d, p);
      ReadNameBounded(d, p);
      var n := ReadName(d, p).value;
      ReadRdataBounded(d, Head(d, n.name, n.next), n.next + 10, n.next + 10 + Be16(d, n.next + 8));
    }
  }

  ghost predicate Yields<T(!new)>(get: (seq<byte>, nat) -> Option<Read<T>>, ok: T -> bool, d: seq<byte>) {
    forall p: nat {:trigger get(d, p)} :: get(d, p).Some? ==> ok(get(d, p).value.value) && p < get(d, p).value.next <= |d|
  }

  lemma {:induction false} ReadAllYields<T(!new)>(get: (seq<byte>, nat) -> Option<Read<T>>, ok: T -> bool, d: seq<byte>, p: nat,
                                                  count: nat)
    requires Yields(get, ok, d) && p <= |d|
    ensures var r := ReadAll(get, d, p, count); r.Some? ==> All(ok, r.value.value) && p <= r.value.next <= |d|
    decreases count
  {
    if count > 0 && get(d, p).Some? { ReadAllYields(get, ok, d, get(d, p).value.next, count - 1); }
  }

  lemma {:induction false} QuestionsYield(d: seq<byte>)
    ensures Yields(ReadQuestion, QuestionBounded, d)
  {
    forall p: nat | ReadQuestion(d, p).Some?
      ensures QuestionBounded(ReadQuestion(d, p).value.value) && p < ReadQuestion(d, p).value.next <= |d|
    {
      ReadQuestionBounded(d, p);
    }
  }

  lemma {:induction false} RecordsYield(d: seq<byte>)
    ensures Yields(ReadRecord, RecordBounded, d)
  {
    forall p: nat | ReadRecord(d, p).Some?
      ensures RecordBounded(ReadRecord(d, p).value.value) && p < ReadRecord(d, p).value.next <= |d|
    {
      ReadRecordBounded(d, p);
    }
  }

  lemma {:induction false} SectionBounded(d: seq<byte>, p: nat, count: nat)
    requires p <= |d|
    ensures var r := ReadRecords(d, p, count); r.Some? ==> All(RecordBounded, r.value.value) && p <= r.value.next <= |d|
  {
    RecordsYield(d);
    ReadAllYields(ReadRecord, RecordBounded, d, p, count);
  }

  lemma {:induction false} QuestionSectionBounded(d: seq<byte>, p: nat, count: nat)
    requires p <= |d|
    ensures var r := ReadQuestions(d, p, count); r.Some? ==> All(QuestionBounded, r.value.value) && p <= r.value.next <= |d|
  {
    QuestionsYield(d);
    ReadAllYields(ReadQuestion, QuestionBounded, d, p, count);
  }

  predicate MessageBounded(m: Message) {
    All(QuestionBounded, m.questions) && All(RecordBounded, m.answers) && All(RecordBounded, m.authorities) &&
    All(RecordBounded, m.additionals)
  }

  /** Whatever the bytes, every name in an accepted message has labels of 1 to 63 octets, 255 in all,
      every record has only the fields of its type, and the cursor never leaves the data. */
  lemma {:induction false} ParsedIsBounded(d: seq<byte>)
    requires Parse(d).Some?
    ensures MessageBounded(Parse(d).value)
  {
    QuestionSectionBounded(d, 12, Be16(d, 4));
    var q := ReadQuestions(d, 12, Be16(d, 4)).value.next;
    SectionBounded(d, q, Be16(d, 6));
    var an := ReadRecords(d, q, Be16(d, 6)).value.next;
    SectionBounded(d, an, Be16(d, 8));
    SectionBounded(d, ReadRecords(d, an, Be16(d, 8)).value.next, Be16(d, 10));
  }

  // ---- Compression never costs -----------------------------------------------------------------

  function PlainQuestion(q: Question): nat { |PlainName(q.name, false)| + 4 }

  function PlainRdata(r: Record): nat {
    if r.rtype == PTR then |PlainName(r.target, false)|
    else if r.rtype == SRV then 6 + |PlainName(r.target, false)|
    else |r.rdata|
  }

  function PlainRecord(r: Record): nat { |PlainName(r.name, false)| + 10 + PlainRdata(r) }

  function Total<T>(size: T -> nat, xs: seq<T>): nat { if xs == [] then 0 else size(xs[0]) + Total(size, xs[1..]) }

  ghost predicate Shorter<T(!new)>(put: (nat, Table, T) -> Encoded, size: T -> nat) {
    forall p, t, x {:trigger put(p, t, x)} :: |put(p, t, x).bytes| <= size(x)
  }

  lemma {:induction false} AllShorter<T(!new)>(put: (nat, Table, T) -> Encoded, size: T -> nat, base: nat, table: Table, xs: seq<T>)
    requires Shorter(put, size)
    ensures |PutAll(put, base, table, xs).bytes| <= Total(size, xs)
    decreases |xs|
  {
    if xs != [] {
      var first := put(base, table, xs[0]);
      AllShorter(put, size, base + |first.bytes|, first.table, xs[1..]);
    }
  }

  lemma {:induction false} QuestionsShorter()
    ensures Shorter(EncodeQuestion, PlainQuestion)
  {
    forall p: nat, t: Table, q: Question ensures |EncodeQuestion(p, t, q).bytes| <= PlainQuestion(q) { NeverLonger(p, t, q.name); }
  }

  lemma {:induction false} RecordsShorter()
    ensures Shorter(EncodeRecord, PlainRecord)
  {
    forall p: nat, t: Table, r: Record ensures |EncodeRecord(p, t, r).bytes| <= PlainRecord(r) { RecordShorter(p, t, r); }
  }

  lemma {:induction false} QuestionsTotal(qs: seq<Question>)
    ensures |EncodeQuestions(12, map[], qs).bytes| <= Total(PlainQuestion, qs)
  {
    QuestionsShorter();
    AllShorter(EncodeQuestion, PlainQuestion, 12, map[], qs);
  }

  lemma {:induction false} RecordsTotal(base: nat, table: Table, rs: seq<Record>)
    ensures |EncodeRecords(base, table, rs).bytes| <= Total(PlainRecord, rs)
  {
    RecordsShorter();
    AllShorter(EncodeRecord, PlainRecord, base, table, rs);
  }

  /** A message is never longer than without compression. */
  lemma {:induction false} CompressionNeverCosts(m: Message)
    ensures |Serialize(m)| <= 12 + Total(PlainQuestion, m.questions) +
            Total(PlainRecord, AllRecords(m))
  {
    var q := EncodeQuestions(12, map[], m.questions);
    QuestionsTotal(m.questions);
    RecordsTotal(12 + |q.bytes|, q.table, AllRecords(m));
  }

  lemma {:induction false} RecordShorter(p: nat, t: Table, r: Record)
    ensures |EncodeRecord(p, t, r).bytes| <= PlainRecord(r)
  {
    var n := EncodeName(p, t, r.name);
    NeverLonger(p, t, r.name);
    NeverLonger(p + |n.bytes| + 10, n.table, r.target);
    NeverLonger(p + |n.bytes| + 16, n.table, r.target);
  }

  // ---- What survives ---------------------------------------------------------------------------

  lemma {:induction false} ParsedCounts(d: seq<byte>)
    requires Parse(d).Some?
    ensures CountsFit(Parse(d).value)
  {
  }

  lemma {:induction false} ArrivedRdataFits(got: seq<Record>, rs: seq<Record>)
    requires Pairwise(Arrives, got, rs) && All(RecordBounded, got)
    ensures All(RdataFits, rs)
  {
    forall i | 0 <= i < |rs| ensures RdataFits(rs[i]) { assert Arrives(got[i], rs[i]) && RecordBounded(got[i]); }
  }

  lemma {:induction false} ArrivedFits(d: seq<byte>, m: Message)
    requires Parse(d).Some? && MessageArrives(Parse(d).value, m)
    ensures CountsFit(m) && RdataAllFits(m)
  {
    var a := Parse(d).value;
    ParsedCounts(d);
    ParsedIsBounded(d);
    ArrivedRdataFits(a.answers, m.answers);
    ArrivedRdataFits(a.authorities, m.authorities);
    ArrivedRdataFits(a.additionals, m.additionals);
  }

  /** Main result: a message comes back as it was written if and only if every section and every raw rdata
      fits 16 bits and no name, as the table stands when it is written, needs more than 32 pointers or 255
      octets. */
  lemma {:induction false} SurvivesExactly(m: Message)
    ensures var d := Serialize(m);
      Parse(d).Some? && MessageArrives(Parse(d).value, m) <==> CountsFit(m) && RdataAllFits(m) && NamesReadable(m)
  {
    if Parse(Serialize(m)).Some? && MessageArrives(Parse(Serialize(m)).value, m) { ArrivedFits(Serialize(m), m); }
    if CountsFit(m) && RdataAllFits(m) { ParsesExactly(m); }
  }

  // ---- The limit of 32 labels ------------------------------------------------------------------

  function Ask(n: Name): Question { Question(n, PTR, CLASS_IN, false) }

  /** Questions for every suffix of a name, shortest first. */
  function Suffixes(n: Name): seq<Question> { if n == [] then [] else Suffixes(n[1..]) + [Ask(n)] }

  /** The suffixes, then the name once more. */
  function ChainMessage(n: Name): Message { Message(0, 0, Suffixes(n) + [Ask(n)], [], [], []) }

  /** After the questions for all suffixes: each was written as one label and a pointer to the one before. */
  ghost predicate Chained(s: Spot, n: Name) {
    (forall k :: k in s.table || k in s.depths ==> |k| <= |Key(n)|) &&
    if n == [] then s.table == map[] && s.depths == map[]
    else Key(n) in s.table && Key(n) in s.depths && s.depths[Key(n)] == |n| - 1
  }

  lemma {:induction false} NormalKey(n: Name)
    requires Normal(n)
    ensures |Key(n)| == NameSize(n) && |n| <= NameSize(n)
  {
    if n != [] { NormalKey(n[1..]); }
  }

  lemma {:induction false} KnownRest(base: nat, table: Table, n: Name)
    requires Normal(n) && |n| > 1 && Key(n) !in table && Key(n[1..]) in table && base < POINTER_LIMIT
    ensures EncodeName(base, table, n) ==
      Encoded(Literal(n[0]) + Put16((0xC000 + table[Key(n[1..])]) % 0x1_0000), table[Key(n) := base])
  {
    NormalKey(n);
    NormalKey(n[1..]);
    FreshSuffix(base, table, n);
  }

  lemma {:induction false} OnlyLabel(base: nat, n: Name)
    requires Normal(n) && |n| == 1 && base < POINTER_LIMIT
    ensures EncodeName(base, map[], n) == Encoded(Literal(n[0]) + [0], map[Key(n) := base])
  {
    FreshSuffix(base, map[], n);
    assert EncodeName(base + 1 + |n[0]|, map[Key(n) := base], []) == Encoded([0], map[Key(n) := base]);
  }

  lemma {:induction false} KnownDepths(base: nat, depths: Depths, n: Name)
    requires Normal(n) && n != [] && Key(n) !in depths && base < POINTER_LIMIT
    requires if |n| == 1 then depths == map[] else Key(n[1..]) in depths && depths[Key(n[1..])] == |n| - 2
    ensures Follow(depths, n) == |n| - 1 && Learn(base, depths, n) == depths[Key(n) := |n| - 1]
  {
    NormalKey(n);
    NormalKey(n[1..]);
  }

  lemma {:induction false} OneMoreLink(s: Spot, n: Name)
    requires Normal(n) && n != [] && s.base < POINTER_LIMIT && Chained(s, n[1..])
    ensures var to := After(EncodeQuestion, QUESTIONS, s, Ask(n)); Chained(to, n) && to.base <= s.base + 7 + |n[0]|
    ensures Follow(s.depths, n) == |n| - 1
  {
    NormalKey(n);
    NormalKey(n[1..]);
    KnownDepths(s.base, s.depths, n);
    if |n| == 1 { OnlyLabel(s.base, n); } else { KnownRest(s.base, s.table, n); }
  }

  lemma {:induction false} AskedLast(s: Spot, qs: seq<Question>, q: Question)
    ensures AfterAll(EncodeQuestion, QUESTIONS, s, qs + [q]) ==
            After(EncodeQuestion, QUESTIONS, AfterAll(EncodeQuestion, QUESTIONS, s, qs), q)
    ensures AllReadable(EncodeQuestion, QUESTIONS, s, qs + [q]) <==>
            AllReadable(EncodeQuestion, QUESTIONS, s, qs) &&
            QuestionReadable(AfterAll(EncodeQuestion, QUESTIONS, s, qs), q)
    decreases |qs|
  {
    if qs == [] {
      assert [] + [q] == [q] && [q][1..] == [];
    } else {
      assert (qs + [q])[1..] == qs[1..] + [q];
      AskedLast(After(EncodeQuestion, QUESTIONS, s, qs[0]), qs[1..], q);
    }
  }

  /** Each suffix needs one pointer less than it has labels. */
  lemma {:induction false} SuffixesChain(n: Name)
    requires NameBounded(n)
    ensures var s := AfterAll(EncodeQuestion, QUESTIONS, START, Suffixes(n));
      Chained(s, n) && s.base <= 12 + 6 * |n| + NameSize(n)
    ensures AllReadable(EncodeQuestion, QUESTIONS, START, Suffixes(n)) <==> |n| <= MAX_JUMPS + 1
  {
    if n != [] {
      var s := AfterAll(EncodeQuestion, QUESTIONS, START, Suffixes(n[1..]));
      SuffixesChain(n[1..]);
      NormalKey(n);
      OneMoreLink(s, n);
      AskedLast(START, Suffixes(n[1..]), Ask(n));
      NormIsNormal(n);
    }
  }

  lemma {:induction false} ChainReadable(n: Name)
    requires NameBounded(n)
    ensures NamesReadable(ChainMessage(n)) <==> |n| <= MAX_JUMPS
  {
    SuffixesChain(n);
    AskedLast(START, Suffixes(n), Ask(n));
    NormIsNormal(n);
    NormalKey(n);
    assert AllRecords(ChainMessage(n)) == [];
  }

  lemma {:induction false} SuffixCount(n: Name)
    ensures |Suffixes(n)| == |n|
  {
    if n != [] { SuffixCount(n[1..]); }
  }

  /** 32 labels is exactly the limit: a name the wire can carry survives next to its own suffixes if
      and only if it has no more. */
  lemma {:induction false} LabelLimitIsTight(n: Name)
    requires NameBounded(n)
    ensures Parse(Serialize(ChainMessage(n))).Some? <==> |n| <= 32
  {
    SuffixCount(n);
    NormalKey(n);
    ChainReadable(n);
    ParsesExactly(ChainMessage(n));
  }

  function Repeated(l: Label, times: nat): Name { if times == 0 then [] else [l] + Repeated(l, times - 1) }

  lemma {:induction false} RepeatedBounded(l: Label, times: nat)
    requires |l| == 1
    ensures Normal(Repeated(l, times)) && |Repeated(l, times)| == times && NameSize(Repeated(l, times)) == 2 * times
  {
    if times > 0 {
      RepeatedBounded(l, times - 1);
      assert Repeated(l, times)[1..] == Repeated(l, times - 1);
    }
  }

  /** A message the writer produces and the reader rejects: 33 times the label "a". */
  lemma {:induction false} DeepNameIsLost()
    ensures Parse(Serialize(ChainMessage(Repeated([97], 33)))).None?
  {
    RepeatedBounded([97], 33);
    LabelLimitIsTight(Repeated([97], 33));
  }

  // ---- Comparing names -------------------------------------------------------------------------

  lemma {:induction false} FoldParts(l: Label, i: nat)
    requires i < |l|
    ensures Fold(l)[i] == Lower(l[i])
  {
    if i > 0 { FoldParts(l[1..], i - 1); }
  }

  lemma {:induction false} SameLabel(a: Label, b: Label)
    ensures Fold(a) == Fold(b) <==> |a| == |b| && forall i :: 0 <= i < |a| ==> Lower(a[i]) == Lower(b[i])
  {
    if |a| == |b| {
      forall i | 0 <= i < |a| ensures Fold(a)[i] == Lower(a[i]) && Fold(b)[i] == Lower(b[i]) {
        FoldParts(a, i);
        FoldParts(b, i);
      }
    }
  }

  lemma {:induction false} FoldNameAt(n: Name)
    ensures |FoldName(n)| == |n| && forall i :: 0 <= i < |n| ==> FoldName(n)[i] == Fold(n[i])
  {
    if n != [] { FoldNameAt(n[1..]); }
  }

  lemma {:induction false} SameLabels(a: Name, b: Name)
    ensures SameName(a, b) <==> |a| == |b| && forall i :: 0 <= i < |a| ==> Fold(a[i]) == Fold(b[i])
  {
    FoldNameAt(a);
    FoldNameAt(b);
    if |a| == |b| && forall i :: 0 <= i < |a| ==> Fold(a[i]) == Fold(b[i]) { assert FoldName(a) == FoldName(b); }
  }

  method CompareLabels(a: Label, b: Label) returns (same: bool)
    ensures same == (Fold(a) == Fold(b))
  {
    SameLabel(a, b);
    if |a| != |b| { return false; }
    for i := 0 to |a|
      invariant forall k :: 0 <= k < i ==> Lower(a[k]) == Lower(b[k])
    {
      if Lower(a[i]) != Lower(b[i]) { return false; }
    }
    return true;
  }

  method CompareNames(a: Name, b: Name) returns (same: bool)
    ensures same == SameName(a, b)
  {
    SameLabels(a, b);
    if |a| != |b| { return false; }
    for i := 0 to |a|
      invariant forall k :: 0 <= k < i ==> Fold(a[k]) == Fold(b[k])
    {
      var equal := CompareLabels(a[i], b[i]);
      if !equal { return false; }
    }
    return true;
  }
}
