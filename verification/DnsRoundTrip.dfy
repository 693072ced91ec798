/** parse undoes serialize exactly when no name asks too much of the reader. */
module DnsRoundTrip {
  import opened Bytes
  import opened DnsHops
  import opened DnsName
  import opened WireList
  import opened DnsMessage

  lemma {:induction false} QuestionTail(d: seq<byte>, base: nat, n: Encoded, q: Question)
    requires NameRead(d, base, n, q.name)
    requires At(d, base + |n.bytes|, Put16(q.qtype) + Put16(ClassField(q.rrclass, q.unicastResponse)))
    ensures var r := ReadQuestion(d, base);
      r.Some? && r.value.next == base + |n.bytes| + 4 && SameQuestion(r.value.value, WireQuestion(q))
  {
    var cls := ClassField(q.rrclass, q.unicastResponse);
    var p := base + |n.bytes|;
    AtSplit(d, p, Put16(q.qtype), Put16(cls));
    ReadBack16(d, p, q.qtype);
    ReadBack16(d, p + 2, cls);
  }

  lemma {:induction false} AfterQuestion(s: Spot, q: Question, n: Encoded)
    requires n == EncodeName(s.base, s.table, q.name)
    ensures After(EncodeQuestion, QUESTIONS, s, q) == Spot(s.base + |n.bytes| + 4, n.table, Learn(s.base, s.depths, q.name))
  {
  }

  /** What reading the question written at `s` gives, `to` being where the writer went on. */
  ghost predicate QuestionSettled(d: seq<byte>, s: Spot, q: Question, to: Spot) {
    var x := ReadQuestion(d, s.base);
    if Readable(s.depths, q.name) then SpotOk(d, to) && x.Some? && x.value.next == to.base && QuestionArrives(x.value.value, q)
    else x.None?
  }

  lemma {:induction false} QuestionReadBack(d: seq<byte>, s: Spot, q: Question, n: Encoded)
    requires n == EncodeName(s.base, s.table, q.name) && SpotOk(d, s)
    requires At(d, s.base, n.bytes + (Put16(q.qtype) + Put16(ClassField(q.rrclass, q.unicastResponse))))
    ensures QuestionSettled(d, s, q, Spot(s.base + |n.bytes| + 4, n.table, Learn(s.base, s.depths, q.name)))
  {
    AtSplit(d, s.base, n.bytes, Put16(q.qtype) + Put16(ClassField(q.rrclass, q.unicastResponse)));
    NameRoundTrip(d, s.base, s.table, s.depths, q.name);
    if Readable(s.depths, q.name) {
      QuestionTail(d, s.base, n, q);
      TableExtends(d, d, n.table, s.base + |n.bytes|, s.base + |n.bytes| + 4);
    }
  }

  lemma {:induction false} QuestionRoundTrip(d: seq<byte>, s: Spot, q: Question)
    requires SpotOk(d, s) && At(d, s.base, EncodeQuestion(s.base, s.table, q).bytes)
    ensures ItemRead(EncodeQuestion, ReadQuestion, QuestionArrives, QUESTIONS, d, s, q)
  {
    var n := EncodeName(s.base, s.table, q.name);
    AfterQuestion(s, q, n);
    QuestionReadBack(d, s, q, n);
  }

  lemma {:induction false} FixedFieldsReadBack(d: seq<byte>, p: nat, r: Record)
    requires At(d, p, FixedFields(r))
    ensures Be16(d, p) == r.rtype && Be16(d, p + 2) == ClassField(r.rrclass, r.cacheFlush) && Be32(d, p + 4) == r.ttl
  {
    var t, c := Put16(r.rtype), Put16(ClassField(r.rrclass, r.cacheFlush));
    AtSplit(d, p, t + c, Put32(r.ttl));
    AtSplit(d, p, t, c);
    ReadBack16(d, p, r.rtype);
    ReadBack16(d, p + 2, ClassField(r.rrclass, r.cacheFlush));
    ReadBack32(d, p + 4, r.ttl);
  }

  /** The record as it stands just before its rdata is read. */
  function Bare(name: Name, r: Record): Record {
    var c := ClassField(r.rrclass, r.cacheFlush);
    Record(name, r.rtype, Low15(c), c >= 0x8000, r.ttl, [], 0, 0, 0, [])
  }

  /** Reading `body` as the rdata of a record called `name` completes `r`. */
  ghost predicate RdataRead(d: seq<byte>, start: nat, body: seq<byte>, r: Record, name: Name) {
    start + |body| <= |d| &&
    var x := ReadRdata(d, Bare(name, r), start, start + |body|);
    x.Some? && Arrives(x.value.value, r)
  }

  /** Whatever RDLENGTH says. */
  ghost predicate RdataUnread(d: seq<byte>, start: nat, r: Record, name: Name) {
    forall end: nat :: start <= end <= |d| ==> ReadRdata(d, Bare(name, r), start, end).None?
  }

  lemma {:induction false} PriorityWeightPort(d: seq<byte>, start: nat, r: Record, rest: seq<byte>)
    requires At(d, start, Put16(r.priority) + Put16(r.weight) + Put16(r.port) + rest)
    ensures Be16(d, start) == r.priority && Be16(d, start + 2) == r.weight && Be16(d, start + 4) == r.port
    ensures At(d, start + 6, rest)
  {
    var a, b, c := Put16(r.priority), Put16(r.weight), Put16(r.port);
    AtSplit(d, start, a + b + c, rest);
    AtSplit(d, start, a + b, c);
    AtSplit(d, start, a, b);
    ReadBack16(d, start, r.priority);
    ReadBack16(d, start + 2, r.weight);
    ReadBack16(d, start + 4, r.port);
  }

  lemma {:induction false} SrvReads(d: seq<byte>, start: nat, r: Record, name: Name, n: Encoded, fields: seq<byte>)
    requires r.rtype == SRV && |fields| == 6 && start + 6 + |n.bytes| <= |d| && n.bytes != [] && SameName(name, Norm(r.name))
    requires Be16(d, start) == r.priority && Be16(d, start + 2) == r.weight && Be16(d, start + 4) == r.port
    requires NameRead(d, start + 6, n, r.target)
    ensures RdataRead(d, start, fields + n.bytes, r, name)
  {
  }

  lemma {:induction false} TargetUnread(d: seq<byte>, start: nat, r: Record, name: Name)
    requires HasTarget(r) && ReadName(d, if r.rtype == SRV then start + 6 else start).None?
    ensures RdataUnread(d, start, r, name)
  {
  }

  /** Both ways the rdata of `r` can be read back from `body` at `s`, and the writer's spot after it. */
  ghost predicate RdataSettled(d: seq<byte>, s: Spot, r: Record, name: Name, body: Encoded) {
    SpotOk(d, Spot(s.base + |body.bytes|, body.table, LearnRdata(s, r))) &&
    if RdataReadable(s, r) then RdataRead(d, s.base, body.bytes, r, name) else RdataUnread(d, s.base, r, name)
  }

  lemma {:induction false} PtrRdata(d: seq<byte>, s: Spot, r: Record, name: Name, body: Encoded)
    requires SpotOk(d, s) && SameName(name, Norm(r.name)) && r.rtype == PTR
    requires body == EncodeName(s.base, s.table, r.target) && At(d, s.base, body.bytes)
    ensures RdataSettled(d, s, r, name, body)
  {
    NameRoundTrip(d, s.base, s.table, s.depths, r.target);
    if !RdataReadable(s, r) { TargetUnread(d, s.base, r, name); }
  }

  lemma {:induction false} SrvRdata(d: seq<byte>, s: Spot, r: Record, name: Name, n: Encoded, fields: seq<byte>)
    requires SpotOk(d, s) && SameName(name, Norm(r.name)) && r.rtype == SRV && n == EncodeName(s.base + 6, s.table, r.target)
    requires |fields| == 6 && At(d, s.base + 6, n.bytes)
    requires Be16(d, s.base) == r.priority && Be16(d, s.base + 2) == r.weight && Be16(d, s.base + 4) == r.port
    ensures RdataSettled(d, s, r, name, Encoded(fields + n.bytes, n.table))
  {
    TableExtends(d, d, s.table, s.base, s.base + 6);
    NameRoundTrip(d, s.base + 6, s.table, s.depths, r.target);
    if RdataReadable(s, r) { SrvReads(d, s.base, r, name, n, fields); } else { TargetUnread(d, s.base, r, name); }
    assert |fields + n.bytes| == 6 + |n.bytes|;
  }

  lemma {:induction false} SrvRoundTrip(d: seq<byte>, s: Spot, r: Record, name: Name)
    requires SpotOk(d, s) && SameName(name, Norm(r.name)) && r.rtype == SRV &&
      At(d, s.base, EncodeRdata(s.base, s.table, r).bytes)
    ensures RdataSettled(d, s, r, name, EncodeRdata(s.base, s.table, r))
  {
    var n := EncodeName(s.base + 6, s.table, r.target);
    PriorityWeightPort(d, s.base, r, n.bytes);
    SrvRdata(d, s, r, name, n, Put16(r.priority) + Put16(r.weight) + Put16(r.port));
  }

  lemma {:induction false} RawRdata(d: seq<byte>, s: Spot, r: Record, name: Name)
    requires SpotOk(d, s) && SameName(name, Norm(r.name)) && !HasTarget(r) && At(d, s.base, r.rdata)
    ensures RdataSettled(d, s, r, name, Encoded(r.rdata, s.table))
  {
    AtSlice(d, s.base, r.rdata);
    TableExtends(d, d, s.table, s.base, s.base + |r.rdata|);
  }

  lemma {:induction false} RdataRoundTrip(d: seq<byte>, s: Spot, r: Record, name: Name, body: Encoded)
    requires SpotOk(d, s) && SameName(name, Norm(r.name))
    requires body == EncodeRdata(s.base, s.table, r) && At(d, s.base, body.bytes)
    ensures RdataSettled(d, s, r, name, body)
  {
    if r.rtype == PTR {
      PtrRdata(d, s, r, name, body);
    } else if r.rtype == SRV {
      SrvRoundTrip(d, s, r, name);
    } else {
      RawRdata(d, s, r, name);
    }
  }

  lemma {:induction false} RdataLength(s: Spot, r: Record)
    requires RdataFits(r) && RdataReadable(s, r)
    ensures |EncodeRdata(s.base, s.table, r).bytes| < 0x1_0000
  {
    NeverLonger(s.base, s.table, r.target);
    NeverLonger(s.base + 6, s.table, r.target);
    PlainNameSize(r.target, false);
    KeyFacts(r.target);
  }

  lemma {:induction false} ClipNothing(n: nat)
    requires n < 0x1_0000
    ensures Clip16(n) == n
  {
  }

  /** Name, fixed fields, length and rdata of a record, where they stand. */
  ghost predicate RecordLaidOut(d: seq<byte>, base: nat, name: seq<byte>, r: Record, len: uint16, body: seq<byte>) {
    var h := base + |name|;
    h + 10 <= |d| && Be16(d, h) == r.rtype && Be16(d, h + 2) == ClassField(r.rrclass, r.cacheFlush) && Be32(d, h + 4) == r.ttl &&
    Be16(d, h + 8) == len && At(d, base, name) && At(d, h + 10, body)
  }

  lemma {:induction false} RecordLayout(d: seq<byte>, base: nat, name: seq<byte>, r: Record, len: uint16, body: seq<byte>)
    requires At(d, base, name + (FixedFields(r) + Put16(len) + body))
    ensures RecordLaidOut(d, base, name, r, len, body)
  {
    AtSplit(d, base, name, FixedFields(r) + Put16(len) + body);
    AtSplit(d, base + |name|, FixedFields(r) + Put16(len), body);
    AtSplit(d, base + |name|, FixedFields(r), Put16(len));
    FixedFieldsReadBack(d, base + |name|, r);
    ReadBack16(d, base + |name| + 8, len);
  }

  lemma {:induction false} HeadReadsBack(d: seq<byte>, base: nat, name: seq<byte>, r: Record, len: uint16, body: seq<byte>)
    requires RecordLaidOut(d, base, name, r, len, body) && ReadName(d, base).Some? &&
      ReadName(d, base).value.next == base + |name|
    ensures var start := base + |name| + 10;
      ReadRecord(d, base) == if start + len > |d| then None
                             else ReadRdata(d, Bare(ReadName(d, base).value.name, r), start, start + len)
  {
  }

  /** What comes of reading a record after which the writer went on at `to`. */
  ghost predicate Outcome(d: seq<byte>, x: Option<Read<Record>>, readable: bool, to: Spot, r: Record) {
    if readable then SpotOk(d, to) && x.Some? && x.value.next == to.base && Arrives(x.value.value, r) else x.None?
  }

  /** The rdata of a record whose name has been read. */
  lemma {:induction false} RecordTail(d: seq<byte>, base: nat, name: seq<byte>, r: Record, len: uint16, s: Spot, body: Encoded)
    requires SpotOk(d, s) && RdataFits(r) && s.base == base + |name| + 10 && body == EncodeRdata(s.base, s.table, r)
    requires RecordLaidOut(d, base, name, r, len, body.bytes) && (|body.bytes| < 0x1_0000 ==> len == |body.bytes|)
    requires ReadName(d, base).Some? && ReadName(d, base).value.next == base + |name| &&
      SameName(ReadName(d, base).value.name, Norm(r.name))
    ensures Outcome(d, ReadRecord(d, base), RdataReadable(s, r), Spot(s.base + |body.bytes|, body.table, LearnRdata(s, r)), r)
  {
    HeadReadsBack(d, base, name, r, len, body.bytes);
    RdataRoundTrip(d, s, r, ReadName(d, base).value.name, body);
    if RdataReadable(s, r) { RdataLength(s, r); }
  }

  lemma {:induction false} NameFirst(base: nat, table: Table, r: Record, n: Encoded)
    requires n == EncodeName(base, table, r.name)
    ensures EncodeRecord(base, table, r) == FinishRecord(base, n, r)
  {
  }

  lemma {:induction false} RecordBytes(base: nat, r: Record, n: Encoded, body: Encoded)
    requires body == EncodeRdata(base + |n.bytes| + 10, n.table, r)
    ensures FinishRecord(base, n, r) == Encoded(RecordOctets(n.bytes, r, body.bytes), body.table)
  {
  }

  lemma {:induction false} RecordStands(d: seq<byte>, base: nat, r: Record, name: seq<byte>, body: seq<byte>) returns (len: uint16)
    requires At(d, base, RecordOctets(name, r, body))
    ensures At(d, base, name) && RecordLaidOut(d, base, name, r, len, body)
    ensures |body| < 0x1_0000 ==> len == |body|
  {
    len := Clip16(|body|);
    if |body| < 0x1_0000 { ClipNothing(|body|); }
    RecordLayout(d, base, name, r, len, body);
  }

  lemma {:induction false} AfterRecord(s: Spot, r: Record, t: Spot, body: Encoded)
    requires t == RdataSpot(s, r) && body == EncodeRdata(t.base, t.table, r)
    ensures After(EncodeRecord, RECORDS, s, r) == Spot(t.base + |body.bytes|, body.table, LearnRdata(t, r))
  {
  }

  /** What reading the record written at `s` gives, `to` being where the writer went on. */
  ghost predicate RecordSettled(d: seq<byte>, s: Spot, r: Record, to: Spot) {
    Outcome(d, ReadRecord(d, s.base), RecordReadable(s, r), to, r)
  }

  /** The rdata after a readable name; `t` is where it starts. */
  lemma {:induction false} RecordNamed(d: seq<byte>, base: nat, r: Record, n: Encoded, t: Spot, len: uint16, body: Encoded)
    requires t.base == base + |n.bytes| + 10 && t.table == n.table && body == EncodeRdata(t.base, t.table, r)
    requires RdataFits(r) && RecordLaidOut(d, base, n.bytes, r, len, body.bytes) &&
      (|body.bytes| < 0x1_0000 ==> len == |body.bytes|)
    requires TableOk(d, n.table, base + |n.bytes|) && DepthsOk(d, n.table, t.depths) && NameRead(d, base, n, r.name)
    ensures Outcome(d, ReadRecord(d, base), RdataReadable(t, r), Spot(t.base + |body.bytes|, body.table, LearnRdata(t, r)), r)
  {
    TableExtends(d, d, n.table, base + |n.bytes|, t.base);
    RecordTail(d, base, n.bytes, r, len, t, body);
  }

  lemma {:induction false} SettledByRdata(d: seq<byte>, s: Spot, r: Record, to: Spot)
    requires Readable(s.depths, r.name) && Outcome(d, ReadRecord(d, s.base), RdataReadable(RdataSpot(s, r), r), to, r)
    ensures RecordSettled(d, s, r, to)
  {
  }

  lemma {:induction false} RecordUnread(d: seq<byte>, s: Spot, r: Record, to: Spot)
    requires ReadName(d, s.base).None? && !Readable(s.depths, r.name)
    ensures RecordSettled(d, s, r, to)
  {
  }

  /** What is known once the name has been read or refused. */
  lemma {:induction false} NameSettled(d: seq<byte>, s: Spot, r: Record, n: Encoded, t: Spot)
    requires SpotOk(d, s) && n == EncodeName(s.base, s.table, r.name) && At(d, s.base, n.bytes) && t == RdataSpot(s, r)
    ensures t.base == s.base + |n.bytes| + 10 && t.table == n.table
    ensures TableOk(d, n.table, s.base + |n.bytes|) && DepthsOk(d, n.table, t.depths)
    ensures if Readable(s.depths, r.name) then NameRead(d, s.base, n, r.name) else ReadName(d, s.base).None?
  {
    NameRoundTrip(d, s.base, s.table, s.depths, r.name);
  }

  lemma {:induction false} RecordReadsBack(d: seq<byte>, s: Spot, r: Record, to: Spot)
    requires SpotOk(d, s) && RdataFits(r) && At(d, s.base, EncodeRecord(s.base, s.table, r).bytes)
    requires to == After(EncodeRecord, RECORDS, s, r)
    ensures RecordSettled(d, s, r, to)
  {
    var n, t := EncodeName(s.base, s.table, r.name), RdataSpot(s, r);
    var body := EncodeRdata(t.base, t.table, r);
    AfterRecord(s, r, t, body);
    NameFirst(s.base, s.table, r, n);
    RecordBytes(s.base, r, n, body);
    var len := RecordStands(d, s.base, r, n.bytes, body.bytes);
    NameSettled(d, s, r, n, t);
    if Readable(s.depths, r.name) {
      RecordNamed(d, s.base, r, n, t, len, body);
      SettledByRdata(d, s, r, to);
    } else {
      RecordUnread(d, s, r, to);
    }
  }

  lemma {:induction false} RecordRoundTrip(d: seq<byte>, s: Spot, r: Record)
    requires SpotOk(d, s) && RdataFits(r) && At(d, s.base, EncodeRecord(s.base, s.table, r).bytes)
    ensures ItemRead(EncodeRecord, ReadRecord, Arrives, RECORDS, d, s, r)
  {
    RecordReadsBack(d, s, r, After(EncodeRecord, RECORDS, s, r));
  }

  lemma {:induction false} RecordsLossless(d: seq<byte>)
    ensures Lossless(EncodeRecord, ReadRecord, Arrives, RECORDS, RdataFits, d)
  {
    forall s: Spot, r: Record | RdataFits(r) && SpotOk(d, s) && At(d, s.base, EncodeRecord(s.base, s.table, r).bytes)
      ensures ItemRead(EncodeRecord, ReadRecord, Arrives, RECORDS, d, s, r)
    {
      RecordRoundTrip(d, s, r);
    }
  }

  predicate AnyQuestion(q: Question) { true }

  lemma {:induction false} QuestionsLossless(d: seq<byte>)
    ensures Lossless(EncodeQuestion, ReadQuestion, QuestionArrives, QUESTIONS, AnyQuestion, d)
  {
    forall s: Spot, q: Question | SpotOk(d, s) && At(d, s.base, EncodeQuestion(s.base, s.table, q).bytes)
      ensures ItemRead(EncodeQuestion, ReadQuestion, QuestionArrives, QUESTIONS, d, s, q)
    {
      QuestionRoundTrip(d, s, q);
    }
  }

  lemma {:induction false} HeaderReadsBack(d: seq<byte>, m: Message)
    requires At(d, 0, Header(m)) && CountsFit(m)
    ensures Be16(d, 0) == m.id && Be16(d, 2) == m.flags && Be16(d, 4) == |m.questions|
    ensures Be16(d, 6) == |m.answers| && Be16(d, 8) == |m.authorities| && Be16(d, 10) == |m.additionals|
  {
    var h := Header(m);
    forall i | 0 <= i < 12 ensures d[i] == h[i] { AtByte(d, 0, h, i); }
  }

  lemma {:induction false} MessageLayout(m: Message)
    ensures var d := Serialize(m);
      var q := EncodeQuestions(12, map[], m.questions);
      At(d, 0, Header(m)) && At(d, 12, q.bytes) &&
        At(d, 12 + |q.bytes|, EncodeRecords(12 + |q.bytes|, q.table, AllRecords(m)).bytes)
  {
    var d := Serialize(m);
    var q := EncodeQuestions(12, map[], m.questions);
    var r := EncodeRecords(12 + |q.bytes|, q.table, AllRecords(m));
    assert At(d, 0, d);
    AtSplit(d, 0, Header(m), q.bytes + r.bytes);
    AtSplit(d, 12, q.bytes, r.bytes);
  }

  lemma {:induction false} SplitPairwise<T>(same: (T, T) -> bool, a: seq<T>, b: seq<T>, a': seq<T>, b': seq<T>)
    requires Pairwise(same, a + b, a' + b') && |a| == |a'|
    ensures Pairwise(same, a, a') && Pairwise(same, b, b')
  {
    forall i | 0 <= i < |a| ensures same(a[i], a'[i]) { assert (a + b)[i] == a[i] && (a' + b')[i] == a'[i]; }
    forall i | 0 <= i < |b| ensures same(b[i], b'[i]) {
      assert (a + b)[|a| + i] == b[i] && (a' + b')[|a| + i] == b'[i];
      assert |a + b| == |a' + b'|;
    }
  }

  lemma {:induction false} ParseIs(d: seq<byte>, m: Message, q: Read<seq<Question>>, t: Option<Three<Record>>)
    requires At(d, 0, Header(m)) && CountsFit(m) && ReadQuestions(d, 12, |m.questions|) == Some(q)
    requires t == ReadThree(ReadRecord, d, q.next, |m.answers|, |m.authorities|, |m.additionals|)
    ensures Parse(d) ==
            if t.None? then None
            else Some(Message(m.id, m.flags, q.value, t.value.first, t.value.second, t.value.third))
  {
    HeaderReadsBack(d, m);
  }

  /** What parse makes of the sections, given the header. */
  lemma {:induction false} ParseInThree(d: seq<byte>, m: Message, p: nat)
    requires At(d, 0, Header(m)) && CountsFit(m)
    requires var q := ReadQuestions(d, 12, |m.questions|); q.Some? && q.value.next == p
    ensures var a := Parse(d); var all := ReadRecords(d, p, |AllRecords(m)|);
      (a.Some? <==> all.Some?) &&
      (a.Some? ==> a.value.id == m.id && a.value.flags == m.flags &&
                   a.value.questions == ReadQuestions(d, 12, |m.questions|).value.value &&
                     all.value.value == AllRecords(a.value) &&
                   |a.value.answers| == |m.answers| && |a.value.authorities| == |m.authorities| &&
                   |a.value.additionals| == |m.additionals|)
  {
    var i, j, k := |m.answers|, |m.authorities|, |m.additionals|;
    var q, t := ReadQuestions(d, 12, |m.questions|).value, ReadThree(ReadRecord, d, p, i, j, k);
    ParseIs(d, m, q, t);
    ReadThreeIsOne(ReadRecord, d, p, i, j, k);
    assert |AllRecords(m)| == i + j + k;
  }

  lemma {:induction false} ParseSections(d: seq<byte>, m: Message, p: nat)
    requires At(d, 0, Header(m)) && CountsFit(m)
    requires var q := ReadQuestions(d, 12, |m.questions|);
      q.Some? && q.value.next == p && Pairwise(QuestionArrives, q.value.value, m.questions)
    requires var all := ReadRecords(d, p, |AllRecords(m)|); all.Some? ==> Pairwise(Arrives, all.value.value, AllRecords(m))
    ensures if ReadRecords(d, p, |AllRecords(m)|).None? then Parse(d).None?
            else Parse(d).Some? && MessageArrives(Parse(d).value, m)
  {
    ParseInThree(d, m, p);
    if Parse(d).Some? { SectionsArrive(Parse(d).value, m); }
  }

  lemma {:induction false} SectionsArrive(a: Message, m: Message)
    requires Pairwise(Arrives, AllRecords(a), AllRecords(m)) && |a.answers| == |m.answers| && |a.authorities| == |m.authorities|
    ensures Pairwise(Arrives, a.answers, m.answers) && Pairwise(Arrives, a.authorities, m.authorities) &&
            Pairwise(Arrives, a.additionals, m.additionals)
  {
    SplitPairwise(Arrives, a.answers + a.authorities, a.additionals, m.answers + m.authorities, m.additionals);
    SplitPairwise(Arrives, a.answers, a.authorities, m.answers, m.authorities);
  }

  predicate RdataAllFits(m: Message) { All(RdataFits, AllRecords(m)) }

  lemma {:induction false} LaidOutParses(d: seq<byte>, m: Message, s: Spot)
    requires CountsFit(m) && RdataAllFits(m) && s == AfterAll(EncodeQuestion, QUESTIONS, START, m.questions) &&
      At(d, 0, Header(m))
    requires At(d, 12, EncodeQuestions(12, map[], m.questions).bytes) &&
      At(d, s.base, EncodeRecords(s.base, s.table, AllRecords(m)).bytes)
    ensures if NamesReadable(m) then Parse(d).Some? && MessageArrives(Parse(d).value, m) else Parse(d).None?
  {
    QuestionsLossless(d);
    RecordsLossless(d);
    HeaderReadsBack(d, m);
    ListRoundTrip(EncodeQuestion, ReadQuestion, QuestionArrives, QUESTIONS, AnyQuestion, d, START, m.questions);
    if AllReadable(EncodeQuestion, QUESTIONS, START, m.questions) {
      ListRoundTrip(EncodeRecord, ReadRecord, Arrives, RECORDS, RdataFits, d, s, AllRecords(m));
      ParseSections(d, m, s.base);
    }
  }

  /** Main result: a message survives serialize and parse, field by field with names equal up to ASCII
      case, exactly when each of its names needs at most 32 pointers and 255 octets. Otherwise the reader
      rejects it as a whole. */
  lemma {:induction false} ParsesExactly(m: Message)
    requires CountsFit(m) && RdataAllFits(m)
    ensures var d := Serialize(m);
      if NamesReadable(m) then Parse(d).Some? && MessageArrives(Parse(d).value, m) else Parse(d).None?
  {
    MessageLayout(m);
    AfterAllSpot(EncodeQuestion, QUESTIONS, START, m.questions);
    LaidOutParses(Serialize(m), m, AfterAll(EncodeQuestion, QUESTIONS, START, m.questions));
  }

  lemma {:induction false} QuestionsStayReadable()
    ensures StaysReadable(EncodeQuestion, QUESTIONS, QuestionFits)
  {
    forall s: Spot, q: Question | QuestionFits(q) && DepthsFew(s.depths)
      ensures QUESTIONS.readable(s, q) && DepthsFew(After(EncodeQuestion, QUESTIONS, s, q).depths)
    {
      FitsReadable(s.depths, q.name);
      LearnFew(s.base, s.depths, q.name);
    }
  }

  lemma {:induction false} RecordStaysReadable(s: Spot, r: Record)
    requires RecordFits(r) && DepthsFew(s.depths)
    ensures RecordReadable(s, r) && DepthsFew(LearnRecord(s, r))
  {
    var t := RdataSpot(s, r);
    FitsReadable(s.depths, r.name);
    LearnFew(s.base, s.depths, r.name);
    if HasTarget(r) {
      FitsReadable(t.depths, r.target);
      LearnFew(t.base, t.depths, r.target);
      LearnFew(t.base + 6, t.depths, r.target);
    }
  }

  lemma {:induction false} RecordsStayReadable()
    ensures StaysReadable(EncodeRecord, RECORDS, RecordFits)
  {
    forall s: Spot, r: Record | RecordFits(r) && DepthsFew(s.depths)
      ensures RECORDS.readable(s, r) && DepthsFew(After(EncodeRecord, RECORDS, s, r).depths)
    {
      RecordStaysReadable(s, r);
    }
  }

  /** Names of at most 32 labels can always be read. */
  lemma {:induction false} FitsAreReadable(m: Message)
    requires MessageFits(m)
    ensures NamesReadable(m) && RdataAllFits(m)
  {
    QuestionsStayReadable();
    RecordsStayReadable();
    var s := AfterAll(EncodeQuestion, QUESTIONS, START, m.questions);
    FewReadable(EncodeQuestion, QUESTIONS, QuestionFits, START, m.questions);
    FewReadable(EncodeRecord, RECORDS, RecordFits, s, AllRecords(m));
  }

  /** Every message whose names need at most 32 labels survives serialize and parse. */
  lemma {:induction false} RoundTrip(m: Message)
    requires MessageFits(m)
    ensures Parse(Serialize(m)).Some? && MessageArrives(Parse(Serialize(m)).value, m)
  {
    FitsAreReadable(m);
    ParsesExactly(m);
  }
}
