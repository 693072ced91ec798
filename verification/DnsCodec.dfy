/** The codec as the program runs it: a Writer that appends and patches, and a cursor-driven parser. */
module DnsCodec {
  import opened Bytes
  import opened DnsName
  import opened WireList
  import opened DnsMessage

  // ---- The compression table across one record -------------------------------------------------

  lemma {:induction false} RdataKeepsTable(d: seq<byte>, start: nat, table: Table, r: Record)
    requires TableOk(d, table, start) && At(d, start, EncodeRdata(start, table, r).bytes)
    ensures var e := EncodeRdata(start, table, r); TableOk(d, e.table, start + |e.bytes|)
  {
    if r.rtype == PTR {
      EncodeNameTableOk(d, start, table, r.target);
    } else if r.rtype == SRV {
      var fields := Put16(r.priority) + Put16(r.weight) + Put16(r.port);
      AtSplit(d, start, fields, EncodeName(start + 6, table, r.target).bytes);
      TableExtends(d, d, table, start, start + 6);
      EncodeNameTableOk(d, start + 6, table, r.target);
    } else {
      TableExtends(d, d, table, start, start + |r.rdata|);
    }
  }

  /** Whatever ten bytes stand between the name and the rdata. */
  lemma {:induction false} PartsKeepTable(d: seq<byte>, base: nat, table: Table, r: Record, n: Encoded, head: seq<byte>,
                                          body: Encoded)
    requires TableOk(d, table, base) && At(d, base, n.bytes + (head + body.bytes)) && |head| == 10
    requires n == EncodeName(base, table, r.name) && body == EncodeRdata(base + |n.bytes| + 10, n.table, r)
    ensures TableOk(d, body.table, base + |n.bytes + (head + body.bytes)|)
  {
    var h := base + |n.bytes|;
    AtSplit(d, base, n.bytes, head + body.bytes);
    AtSplit(d, h, head, body.bytes);
    EncodeNameTableOk(d, base, table, r.name);
    TableExtends(d, d, n.table, h, h + 10);
    RdataKeepsTable(d, h + 10, n.table, r);
  }

  lemma {:induction false} RecordHead(base: nat, table: Table, r: Record, n: Encoded, body: Encoded) returns (head: seq<byte>)
    requires n == EncodeName(base, table, r.name) && body == EncodeRdata(base + |n.bytes| + 10, n.table, r)
    ensures |head| == 10 && EncodeRecord(base, table, r) == Encoded(n.bytes + (head + body.bytes), body.table)
  {
    head := FixedFields(r) + Put16(Clip16(|body.bytes|));
  }

  /** Patching RDLENGTH after the names were registered does not disturb them: the bytes a name
      needs are the same whatever stands in the length field. */
  lemma {:induction false} RecordKeepsTable(d: seq<byte>, base: nat, table: Table, r: Record)
    requires TableOk(d, table, base) && At(d, base, EncodeRecord(base, table, r).bytes)
    ensures var e := EncodeRecord(base, table, r); TableOk(d, e.table, base + |e.bytes|)
  {
    var n := EncodeName(base, table, r.name);
    var body := EncodeRdata(base + |n.bytes| + 10, n.table, r);
    var head := RecordHead(base, table, r, n, body);
    PartsKeepTable(d, base, table, r, n, head, body);
  }

  lemma {:induction false} AtEnd(d: seq<byte>, chunk: seq<byte>)
    ensures At(d + chunk, |d|, chunk)
  {
  }

  /** What is out plus what the labels left would add is the whole encoding. */
  ghost predicate Pending(goal: seq<byte>, table: Table, out: seq<byte>, offsets: Table, rest: Name) {
    var r := EncodeName(|out|, offsets, rest);
    goal == out + r.bytes && table == r.table
  }

  lemma {:induction false} PendingFresh(goal: seq<byte>, table: Table, out: seq<byte>, offsets: Table, rest: Name)
    requires rest != [] && rest[0] != [] && Key(rest) !in offsets && Pending(goal, table, out, offsets, rest)
    ensures Pending(goal, table, out + Literal(Cut(rest[0])), Register(offsets, Key(rest), |out|), rest[1..])
  {
    FreshSuffix(|out|, offsets, rest);
    var l := Cut(rest[0]);
    Regroup(out, Literal(l), EncodeName(|out| + 1 + |l|, Register(offsets, Key(rest), |out|), rest[1..]).bytes);
  }

  lemma {:induction false} WrittenKeepsTable(out0: seq<byte>, out: seq<byte>, table: Table, r: Record)
    requires TableOk(out0, table, |out0|) && out == out0 + EncodeRecord(|out0|, table, r).bytes
    ensures TableOk(out, EncodeRecord(|out0|, table, r).table, |out|)
  {
    AtEnd(out0, EncodeRecord(|out0|, table, r).bytes);
    TableExtends(out0, out, table, |out0|, |out0|);
    RecordKeepsTable(out, |out0|, table, r);
  }

  lemma {:induction false} NameKeepsTable(out0: seq<byte>, out: seq<byte>, table: Table, n: Name)
    requires TableOk(out0, table, |out0|) && out == out0 + EncodeName(|out0|, table, n).bytes
    ensures TableOk(out, EncodeName(|out0|, table, n).table, |out|)
  {
    AtEnd(out0, EncodeName(|out0|, table, n).bytes);
    TableExtends(out0, out, table, |out0|, |out0|);
    EncodeNameTableOk(out, |out0|, table, n);
  }

  /** Overwrites the two length bytes at `at`. */
  function Patch(out: seq<byte>, at: nat, len: nat): seq<byte>
    requires at + 1 < |out|
  {
    out[at := len / 0x100 % 0x100][at + 1 := len % 0x100]
  }

  class Writer {
    var out: seq<byte>
    var offsets: Table

    /** Every remembered offset is below 0x3FFF and spells the name it stands for. */
    ghost predicate Valid()
      reads this
    {
      TableOk(out, offsets, |out|)
    }

    constructor ()
      ensures Valid() && out == [] && offsets == map[]
    {
      out, offsets := [], map[];
    }

    method Put(bytes: seq<byte>)
      requires Valid()
      modifies this
      ensures Valid() && out == old(out) + bytes && offsets == old(offsets)
    {
      TableExtends(out, out + bytes, offsets, |out|, |out + bytes|);
      out := out + bytes;
    }

    method SuffixKey(n: Name, from: nat) returns (key: seq<byte>)
      requires from <= |n|
      ensures key == Key(n[from..])
    {
      key := [];
      var i := from;
      while i < |n|
        invariant from <= i <= |n|
        invariant key + Key(n[i..]) == Key(n[from..])
      {
        assert n[i..][1..] == n[i + 1..];
        if n[i] != [] {
          var l := Cut(n[i]);
          assert (key + [|l|] + Fold(l)) + Key(n[i + 1..]) == key + Key(n[i..]);
          key := key + [|l|] + Fold(l);
        }
        i := i + 1;
      }
    }

    /** A label that is not in the table yet is registered and written out. */
    method FreshLabel(n: Name, key: seq<byte>, ghost goal: seq<byte>, ghost table: Table)
      requires n != [] && n[0] != [] && key == Key(n) && key !in offsets && Pending(goal, table, out, offsets, n)
      modifies this
      ensures Pending(goal, table, out, offsets, n[1..])
    {
      PendingFresh(goal, table, out, offsets, n);
      var l := Cut(n[0]);
      offsets := Register(offsets, key, |out|);
      out := out + Literal(l);
    }

    /** Appends a name, replacing the longest suffix already written by a pointer to it. */
    method Name(n: Name)
      requires Valid()
      modifies this
      ensures var e := EncodeName(|old(out)|, old(offsets), n); out == old(out) + e.bytes && offsets == e.table
      ensures Valid()
    {
      ghost var out0, table, whole := out, offsets, EncodeName(|out|, offsets, n);
      ghost var goal := out0 + whole.bytes;
      var i, done := 0, false;
      while i < |n| && !done
        invariant 0 <= i <= |n|
        invariant if done then out == goal && offsets == whole.table
                  else Pending(goal, whole.table, out, offsets, n[i..])
      {
        assert n[i..][1..] == n[i + 1..];
        if n[i] != [] {
          var key := SuffixKey(n, i);
          if key in offsets {
            out, done := out + Put16((0xC000 + offsets[key]) % 0x1_0000), true;
          } else {
            FreshLabel(n[i..], key, goal, whole.table);
          }
        }
        i := i + 1;
      }
      if !done { out := out + [0]; }
      NameKeepsTable(out0, out, table, n);
    }

    method Rdata(r: DnsMessage.Record)
      requires Valid()
      modifies this
      ensures var e := EncodeRdata(|old(out)|, old(offsets), r); out == old(out) + e.bytes && offsets == e.table
      ensures Valid()
    {
      if r.rtype == PTR {
        Name(r.target);
      } else if r.rtype == SRV {
        var fields := Put16(r.priority) + Put16(r.weight) + Put16(r.port);
        Regroup(out, fields, EncodeName(|out| + 6, offsets, r.target).bytes);
        Put(fields);
        Name(r.target);
      } else {
        Put(r.rdata);
      }
    }

    /** Everything before the rdata, with a zero RDLENGTH. */
    method Head(r: DnsMessage.Record)
      requires Valid()
      modifies this
      ensures var n := EncodeName(|old(out)|, old(offsets), r.name);
        out == old(out) + n.bytes + FixedFields(r) + Put16(0) && offsets == n.table
      ensures Valid()
    {
      Name(r.name);
      Put(FixedFields(r));
      Put(Put16(0));
    }

    /** Appends a record and patches its RDLENGTH once the rdata is out. */
    method Record(r: DnsMessage.Record)
      requires Valid()
      modifies this
      ensures var e := EncodeRecord(|old(out)|, old(offsets), r); out == old(out) + e.bytes && offsets == e.table
      ensures Valid()
    {
      ghost var out0, table := out, offsets;
      Head(r);
      var lenAt := |out| - 2;
      ghost var start, n, body := out, EncodeName(|out0|, table, r.name), EncodeRdata(|out|, offsets, r);
      RecordParts(out0, table, r, n, body);
      Rdata(r);
      assert out == start + body.bytes && offsets == body.table;
      out := Patch(out, lenAt, |out| - lenAt - 2);
      WrittenKeepsTable(out0, out, table, r);
    }
  }

  /** The draft with its zero length, patched, and the table are those of the record. */
  lemma {:induction false} RecordParts(out: seq<byte>, table: Table, r: Record, n: Encoded, body: Encoded)
    requires n == EncodeName(|out|, table, r.name) && body == EncodeRdata(|out| + |n.bytes| + 10, n.table, r)
    ensures var start := out + n.bytes + FixedFields(r) + Put16(0); var e := EncodeRecord(|out|, table, r);
      Patch(start + body.bytes, |start| - 2, |body.bytes|) == out + e.bytes && body.table == e.table
  {
    PatchedRecord(out, table, r, n, body.bytes);
  }

  lemma {:induction false} Patched(before: seq<byte>, body: seq<byte>)
    ensures var len := |body|;
      Patch(before + Put16(0) + body, |before|, len) == before + Put16(Clip16(len)) + body
  {
    var p, q := Patch(before + Put16(0) + body, |before|, |body|), before + Put16(Clip16(|body|)) + body;
    LengthBytes(|body|);
    forall i | 0 <= i < |q| ensures p[i] == q[i] {}
  }

  lemma {:induction false} Base256(v: nat, high: nat, low: byte)
    requires v == high * 0x100 + low
    ensures v / 0x100 == high && v % 0x100 == low
  {
  }

  lemma {:induction false} LengthBytes(len: nat)
    ensures Put16(Clip16(len)) == [len / 0x100 % 0x100, len % 0x100]
  {
    var clipped := Clip16(len);
    var high, low, past := clipped / 0x100, clipped % 0x100, len / 0x1_0000;
    Base256(clipped, high, low);
    Base256(len, past * 0x100 + high, low);
    Base256(past * 0x100 + high, past, high);
  }

  lemma {:induction false} RegroupRecord(out: seq<byte>, n: seq<byte>, fixed: seq<byte>, len: seq<byte>, body: seq<byte>)
    ensures out + n + fixed + len + body == out + (n + (fixed + len + body))
  {
  }

  /** Writing a zero length and patching it leaves exactly the bytes of the record. */
  lemma {:induction false} PatchedRecord(out: seq<byte>, table: Table, r: Record, n: Encoded, body: seq<byte>)
    requires n == EncodeName(|out|, table, r.name) && body == EncodeRdata(|out| + |n.bytes| + 10, n.table, r).bytes
    ensures var before := out + n.bytes + FixedFields(r);
      Patch(before + Put16(0) + body, |before|, |body|) == out + EncodeRecord(|out|, table, r).bytes
  {
    Patched(out + n.bytes + FixedFields(r), body);
    RegroupRecord(out, n.bytes, FixedFields(r), Put16(Clip16(|body|)), body);
  }

  // ---- Reading ---------------------------------------------------------------------------------

  /** What readName returns if the rest of the name, from the cursor on, reads as `rest`. */
  function Resume(got: Name, jumped: bool, end: nat, rest: Option<Walked>): Option<Walked> {
    if rest.None? then None else Some(Walked(got + rest.value.name, if jumped then end else rest.value.next))
  }

  lemma {:induction false} ResumeNone(rest: Option<Walked>)
    ensures forall end :: Resume([], false, end, rest) == rest
  {
    if rest.Some? { assert [] + rest.value.name == rest.value.name; }
  }

  lemma {:induction false} ResumeOne(got: Name, jumped: bool, end: nat, l: Label, rest: Option<Walked>)
    ensures Resume(got, jumped, end, if rest.None? then None else Some(Walked([l] + rest.value.name, rest.value.next))) ==
            Resume(got + [l], jumped, end, rest)
  {
    if rest.Some? { assert got + ([l] + rest.value.name) == got + [l] + rest.value.name; }
  }

  /** Reading on after the label at `p`. */
  lemma {:induction false} PastLabel(d: seq<byte>, p: nat, jumps: nat, total: nat, got: Name, jumped: bool, end: nat)
    requires p < |d| && 0 < d[p] < 0x40 && p + 1 + d[p] <= |d| && jumps <= MAX_JUMPS && total + d[p] + 1 <= MAX_NAME
    ensures var q := p + 1 + d[p];
      Resume(got, jumped, end, Walk(d, p, jumps, total)) ==
      Resume(got + [d[p + 1..q]], jumped, end, Walk(d, q, jumps, total + d[p] + 1))
  {
    var q := p + 1 + d[p];
    ResumeOne(got, jumped, end, d[p + 1..q], Walk(d, q, jumps, total + d[p] + 1));
  }

  /** Reading on where the pointer at `p` leads; only the first one moves the caller's cursor. */
  lemma {:induction false} PastPointer(d: seq<byte>, p: nat, jumps: nat, total: nat, got: Name, jumped: bool, end: nat)
    requires p + 1 < |d| && d[p] >= 0xC0 && jumps + 1 <= MAX_JUMPS && total <= MAX_NAME
    ensures Resume(got, jumped, end, Walk(d, p, jumps, total)) ==
            Resume(got, true, if jumped then end else p + 2, Walk(d, Target(d, p), jumps + 1, total))
  {
  }

  /** readName: one cursor, a jump budget and a size budget. */
  method ReadNameAt(d: seq<byte>, pos: nat) returns (r: Option<Walked>)
    ensures r == ReadName(d, pos)
  {
    var got: Name := [];
    var p: nat, jumped: bool, jumps: nat, total: nat, end: nat := pos, false, 0, 0, pos;
    ResumeNone(Walk(d, p, jumps, total));
    ghost var goal := ReadName(d, pos);
    while true
      invariant jumps <= MAX_JUMPS && total <= MAX_NAME
      invariant goal == Resume(got, jumped, end, Walk(d, p, jumps, total))
      decreases MAX_JUMPS - jumps, |d| - p
    {
      if p >= |d| { return None; }
      var len := d[p];
      if len >= 0xC0 {
        if p + 1 >= |d| || jumps + 1 > MAX_JUMPS { return None; }
        PastPointer(d, p, jumps, total, got, jumped, end);
        jumps := jumps + 1;
        if !jumped { end := p + 2; }
        jumped := true;
        p := Target(d, p);
      } else if len >= 0x40 {
        return None;
      } else if len == 0 {
        if !jumped { end := p + 1; }
        assert got + [] == got;
        return Some(Walked(got, end));
      } else {
        if p + 1 + len > |d| || total + len + 1 > MAX_NAME { return None; }
        PastLabel(d, p, jumps, total, got, jumped, end);
        total := total + len + 1;
        got := got + [d[p + 1..p + 1 + len]];
        p := p + 1 + len;
      }
    }
  }

  method ReadRecordAt(d: seq<byte>, pos: nat) returns (r: Option<Read<Record>>)
    ensures r == ReadRecord(d, pos)
  {
    var n := ReadNameAt(d, pos);
    if n.None? || n.value.next + 10 > |d| { return None; }
    var h := n.value.next;
    var cls := Be16(d, h + 2);
    var rec := Record(n.value.name, Be16(d, h), Low15(cls), cls >= 0x8000, Be32(d, h + 4), [], 0, 0, 0, []);
    var p, end := h + 10, h + 10 + Be16(d, h + 8);
    if end > |d| { return None; }
    if rec.rtype == PTR {
      var t := ReadNameAt(d, p);
      if t.None? || t.value.next > end { return None; }
      rec := rec.(target := t.value.name);
    } else if rec.rtype == SRV {
      if end - p < 7 { return None; }
      rec := rec.(priority := Be16(d, p), weight := Be16(d, p + 2), port := Be16(d, p + 4));
      var t := ReadNameAt(d, p + 6);
      if t.None? || t.value.next > end { return None; }
      rec := rec.(target := t.value.name);
    } else {
      rec := rec.(rdata := d[p..end]);
    }
    return Some(Read(rec, end));
  }

  method ReadQuestionAt(d: seq<byte>, pos: nat) returns (r: Option<Read<Question>>)
    ensures r == ReadQuestion(d, pos)
  {
    var n := ReadNameAt(d, pos);
    if n.None? || n.value.next + 4 > |d| { return None; }
    var p := n.value.next;
    var cls := Be16(d, p + 2);
    return Some(Read(Question(n.value.name, Be16(d, p), Low15(cls), cls >= 0x8000), p + 4));
  }

  /** The list so far, completed by what the remaining items read as. */
  function Collected<T>(got: seq<T>, rest: Option<Read<seq<T>>>): Option<Read<seq<T>>> {
    if rest.None? then None else Some(Read(got + rest.value.value, rest.value.next))
  }

  /** One turn of the loop; `goal` is what the whole list reads as. */
  method NextRecord(d: seq<byte>, p: nat, got: seq<Record>, ghost left: nat, ghost goal: Option<Read<seq<Record>>>)
    returns (x: Option<Read<Record>>)
    requires left > 0 && goal == Collected(got, ReadAll(ReadRecord, d, p, left))
    ensures goal == if x.None? then None else Collected(got + [x.value.value], ReadAll(ReadRecord, d, x.value.next, left - 1))
  {
    CollectNext(ReadRecord, d, p, left, got);
    x := ReadRecordAt(d, p);
  }

  method ReadSection(d: seq<byte>, pos: nat, count: nat) returns (r: Option<Read<seq<Record>>>)
    ensures r == ReadRecords(d, pos, count)
  {
    var got: seq<Record>, p: nat := [], pos;
    ghost var goal := ReadRecords(d, pos, count);
    ghost var left := count;
    CollectNone(goal);
    for i := 0 to count
      invariant left == count - i && goal == Collected(got, ReadAll(ReadRecord, d, p, left))
    {
      var x := NextRecord(d, p, got, left, goal);
      if x.None? { return None; }
      got, p, left := got + [x.value.value], x.value.next, left - 1;
    }
    CollectAll(ReadRecord, d, p, got);
    return Some(Read(got, p));
  }

  /** The same for a question. */
  method NextQuestion(d: seq<byte>, p: nat, got: seq<Question>, ghost left: nat, ghost goal: Option<Read<seq<Question>>>)
    returns (x: Option<Read<Question>>)
    requires left > 0 && goal == Collected(got, ReadAll(ReadQuestion, d, p, left))
    ensures goal == if x.None? then None else Collected(got + [x.value.value], ReadAll(ReadQuestion, d, x.value.next, left - 1))
  {
    CollectNext(ReadQuestion, d, p, left, got);
    x := ReadQuestionAt(d, p);
  }

  method ReadQuestionList(d: seq<byte>, pos: nat, count: nat) returns (r: Option<Read<seq<Question>>>)
    ensures r == ReadQuestions(d, pos, count)
  {
    var got: seq<Question>, p: nat := [], pos;
    ghost var goal := ReadQuestions(d, pos, count);
    ghost var left := count;
    CollectNone(goal);
    for i := 0 to count
      invariant left == count - i && goal == Collected(got, ReadAll(ReadQuestion, d, p, left))
    {
      var x := NextQuestion(d, p, got, left, goal);
      if x.None? { return None; }
      got, p, left := got + [x.value.value], x.value.next, left - 1;
    }
    CollectAll(ReadQuestion, d, p, got);
    return Some(Read(got, p));
  }

  lemma {:induction false} CollectNext<T>(get: (seq<byte>, nat) -> Option<Read<T>>, d: seq<byte>, p: nat, count: nat, got: seq<T>)
    requires count > 0
    ensures var x := get(d, p);
      Collected(got, ReadAll(get, d, p, count)) ==
      if x.None? then None else Collected(got + [x.value.value], ReadAll(get, d, x.value.next, count - 1))
  {
    var x := get(d, p);
    if x.Some? { CollectOne(got, x.value.value, ReadAll(get, d, x.value.next, count - 1)); }
  }

  lemma {:induction false} CollectAll<T>(get: (seq<byte>, nat) -> Option<Read<T>>, d: seq<byte>, p: nat, got: seq<T>)
    ensures Collected(got, ReadAll(get, d, p, 0)) == Some(Read(got, p))
  {
    assert got + [] == got;
  }

  lemma {:induction false} CollectNone<T>(rest: Option<Read<seq<T>>>)
    ensures Collected([], rest) == rest
  {
    if rest.Some? { assert [] + rest.value.value == rest.value.value; }
  }

  lemma {:induction false} CollectOne<T>(got: seq<T>, x: T, rest: Option<Read<seq<T>>>)
    ensures Collected(got, if rest.None? then None else Some(Read([x] + rest.value.value, rest.value.next))) ==
            Collected(got + [x], rest)
  {
    if rest.Some? { assert got + ([x] + rest.value.value) == got + [x] + rest.value.value; }
  }

  method ParseMessage(d: seq<byte>) returns (r: Option<Message>)
    ensures r == Parse(d)
  {
    if |d| < 12 { return None; }
    var qs := ReadQuestionList(d, 12, Be16(d, 4));
    if qs.None? { return None; }
    var an := ReadSection(d, qs.value.next, Be16(d, 6));
    if an.None? { return None; }
    var ns := ReadSection(d, an.value.next, Be16(d, 8));
    if ns.None? { return None; }
    var ar := ReadSection(d, ns.value.next, Be16(d, 10));
    if ar.None? { return None; }
    return Some(Message(Be16(d, 0), Be16(d, 2), qs.value.value, an.value.value, ns.value.value, ar.value.value));
  }

  // ---- Serialize -------------------------------------------------------------------------------

  method WriteQuestions(w: Writer, qs: seq<Question>)
    requires w.Valid()
    modifies w
    ensures w.Valid()
    ensures var e := EncodeQuestions(|old(w.out)|, old(w.offsets), qs); w.out == old(w.out) + e.bytes && w.offsets == e.table
  {
    ghost var out0, e := w.out, EncodeQuestions(|w.out|, w.offsets, qs);
    for i := 0 to |qs|
      invariant w.Valid()
      invariant ListPending(EncodeQuestion, out0 + e.bytes, e.table, w.out, w.offsets, qs[i..])
    {
      NextItem(EncodeQuestion, out0 + e.bytes, e.table, w.out, w.offsets, qs[i..]);
      assert qs[i..][1..] == qs[i + 1..];
      var q := qs[i];
      ghost var name := EncodeName(|w.out|, w.offsets, q.name).bytes;
      var fields := Put16(q.qtype) + Put16(ClassField(q.rrclass, q.unicastResponse));
      Regroup(w.out, name, fields);
      w.Name(q.name);
      w.Put(fields);
    }
  }

  method WriteRecords(w: Writer, rs: seq<Record>)
    requires w.Valid()
    modifies w
    ensures w.Valid()
    ensures var e := EncodeRecords(|old(w.out)|, old(w.offsets), rs); w.out == old(w.out) + e.bytes && w.offsets == e.table
  {
    ghost var out0, e := w.out, EncodeRecords(|w.out|, w.offsets, rs);
    for i := 0 to |rs|
      invariant w.Valid()
      invariant ListPending(EncodeRecord, out0 + e.bytes, e.table, w.out, w.offsets, rs[i..])
    {
      NextItem(EncodeRecord, out0 + e.bytes, e.table, w.out, w.offsets, rs[i..]);
      assert rs[i..][1..] == rs[i + 1..];
      w.Record(rs[i]);
    }
  }

  ghost predicate ListPending<T>(put: (nat, Table, T) -> Encoded, goal: seq<byte>, table: Table, out: seq<byte>, offsets: Table,
                                 rest: seq<T>)
  {
    var r := PutAll(put, |out|, offsets, rest);
    goal == out + r.bytes && table == r.table
  }

  lemma {:induction false} NextItem<T>(put: (nat, Table, T) -> Encoded, goal: seq<byte>, table: Table, out: seq<byte>,
                                       offsets: Table, rest: seq<T>)
    requires rest != [] && ListPending(put, goal, table, out, offsets, rest)
    ensures var e := put(|out|, offsets, rest[0]); ListPending(put, goal, table, out + e.bytes, e.table, rest[1..])
  {
    var e := put(|out|, offsets, rest[0]);
    Regroup(out, e.bytes, PutAll(put, |out + e.bytes|, e.table, rest[1..]).bytes);
  }

  lemma {:induction false} AppendGoal<T>(put: (nat, Table, T) -> Encoded, out: seq<byte>, table: Table, a: seq<T>, b: seq<T>)
    ensures var e := PutAll(put, |out|, table, a);
      var f := PutAll(put, |out + e.bytes|, e.table, b);
      out + PutAll(put, |out|, table, a + b).bytes == out + e.bytes + f.bytes && PutAll(put, |out|, table, a + b).table == f.table
  {
    PutAllAppend(put, |out|, table, a, b);
    var e := PutAll(put, |out|, table, a);
    Regroup(out, e.bytes, PutAll(put, |out + e.bytes|, e.table, b).bytes);
  }

  method WriteSections(w: Writer, a: seq<Record>, b: seq<Record>, c: seq<Record>)
    requires w.Valid()
    modifies w
    ensures w.Valid()
    ensures w.out == old(w.out) + EncodeRecords(|old(w.out)|, old(w.offsets), a + b + c).bytes
  {
    AppendGoal(EncodeRecord, w.out, w.offsets, a, b);
    AppendGoal(EncodeRecord, w.out, w.offsets, a + b, c);
    WriteRecords(w, a);
    WriteRecords(w, b);
    WriteRecords(w, c);
  }

  lemma {:induction false} SerializeForm(m: Message, head: seq<byte>, q: Encoded, records: seq<byte>)
    requires head == Header(m) && q == EncodeQuestions(12, map[], m.questions)
    requires records == EncodeRecords(12 + |q.bytes|, q.table, AllRecords(m)).bytes
    ensures Serialize(m) == (head + q.bytes) + records
  {
    Regroup(head, q.bytes, records);
  }

  method SerializeMessage(m: Message) returns (out: seq<byte>)
    ensures out == Serialize(m)
  {
    var w := new Writer();
    var head := Header(m);
    w.Put(head);
    ghost var q := EncodeQuestions(12, map[], m.questions);
    WriteQuestions(w, m.questions);
    assert w.out == head + q.bytes && w.offsets == q.table;
    WriteSections(w, m.answers, m.authorities, m.additionals);
    out := w.out;
    SerializeForm(m, head, q, EncodeRecords(12 + |q.bytes|, q.table, AllRecords(m)).bytes);
  }
}
