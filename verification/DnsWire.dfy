/** The octets of a message where sections 4.1 of RFC 1035 and RFC 2782 put them. The round trips show that
    reading undoes writing; this shows that what is written is DNS. */
module DnsWire {
  import opened Bytes
  import opened DnsName
  import opened DnsMessage

  /** Section 4.1.1: ID, flags and the four counts. */
  lemma {:induction false} HeaderOnWire(m: Message)
    ensures var d := Serialize(m);
      |d| >= 12 && Be16(d, 0) == m.id && Be16(d, 2) == m.flags && Be16(d, 4) == |m.questions| % 65536 &&
      Be16(d, 6) == |m.answers| % 65536 && Be16(d, 8) == |m.authorities| % 65536 && Be16(d, 10) == |m.additionals| % 65536
  {
    var d, h := Serialize(m), Header(m);
    assert forall i :: 0 <= i < 12 ==> d[i] == h[i];
  }

  /** Section 4.1: the sections follow in this order, with nothing between them. */
  lemma {:induction false} SectionsOnWire(m: Message)
    ensures var questions := EncodeQuestions(12, map[], m.questions);
      Serialize(m)[12..] == questions.bytes +
        EncodeRecords(12 + |questions.bytes|, questions.table, m.answers + m.authorities + m.additionals).bytes
  {
  }

  /** Section 4.1.2: after the name, type and class, whose highest bit asks for a unicast reply. */
  lemma {:induction false} QuestionOnWire(base: nat, table: Table, q: Question)
    requires q.rrclass < 0x8000
    ensures var name, d := EncodeName(base, table, q.name).bytes, EncodeQuestion(base, table, q).bytes;
      |d| == |name| + 4 && d[..|name|] == name && Be16(d, |name|) == q.qtype &&
      Be16(d, |name| + 2) == q.rrclass + if q.unicastResponse then 0x8000 else 0
  {
    var name, d := EncodeName(base, table, q.name).bytes, EncodeQuestion(base, table, q).bytes;
    var tail := Put16(q.qtype) + Put16(ClassField(q.rrclass, q.unicastResponse));
    assert d == name + tail && d[|name|..] == tail;
    assert forall i :: 0 <= i < 4 ==> d[|name| + i] == tail[i];
  }

  lemma {:induction false} FixedOnWire(d: seq<byte>, p: nat, r: Record, size: uint16)
    requires At(d, p, FixedFields(r) + Put16(size)) && r.rrclass < 0x8000
    ensures p + 10 <= |d| && Be16(d, p) == r.rtype && Be16(d, p + 2) == r.rrclass + (if r.cacheFlush then 0x8000 else 0) &&
            Be32(d, p + 4) == r.ttl && Be16(d, p + 8) == size
  {
    var fixed := FixedFields(r);
    AtSplit(d, p, fixed, Put16(size));
    AtSplit(d, p, Put16(r.rtype) + Put16(ClassField(r.rrclass, r.cacheFlush)), Put32(r.ttl));
    AtSplit(d, p, Put16(r.rtype), Put16(ClassField(r.rrclass, r.cacheFlush)));
    ReadBack16(d, p, r.rtype);
    ReadBack16(d, p + 2, ClassField(r.rrclass, r.cacheFlush));
    ReadBack32(d, p + 4, r.ttl);
    ReadBack16(d, p + 8, size);
  }

  /** A name for PTR; priority, weight, port and a name for SRV; else what the record holds. */
  lemma {:induction false} RdataOnWire(base: nat, table: Table, r: Record)
    ensures var d := EncodeRdata(base, table, r).bytes;
      if r.rtype == 12 then d == EncodeName(base, table, r.target).bytes
      else if r.rtype == 33 then
        |d| >= 6 && Be16(d, 0) == r.priority && Be16(d, 2) == r.weight && Be16(d, 4) == r.port &&
        d[6..] == EncodeName(base + 6, table, r.target).bytes
      else d == r.rdata
  {
    if r.rtype == SRV {
      var d, numbers := EncodeRdata(base, table, r).bytes, Put16(r.priority) + Put16(r.weight) + Put16(r.port);
      assert forall i :: 0 <= i < 6 ==> d[i] == numbers[i];
    }
  }

  lemma {:induction false} ThreeParts(a: seq<byte>, b: seq<byte>, c: seq<byte>)
    ensures var d := a + (b + c); d[..|a|] == a && At(d, |a|, b) && d[|a| + |b|..] == c
  {
  }

  lemma {:induction false} RecordParts(r: Record, name: seq<byte>, body: seq<byte>, d: seq<byte>)
    requires r.rrclass < 0x8000 && d == RecordOctets(name, r, body)
    ensures var n := |name|;
      |d| == n + 10 + |body| && d[..n] == name && Be16(d, n) == r.rtype &&
      Be16(d, n + 2) == r.rrclass + (if r.cacheFlush then 0x8000 else 0) && Be32(d, n + 4) == r.ttl &&
      Be16(d, n + 8) == |body| % 65536 && d[n + 10..] == body
  {
    var fixed := FixedFields(r) + Put16(Clip16(|body|));
    ThreeParts(name, fixed, body);
    FixedOnWire(d, |name|, r, Clip16(|body|));
  }

  /** Section 4.1.3: after the name, type, class with the flush bit, lifetime and length, then as many octets of
      rdata, numbers and names in it at the places they really have. */
  lemma {:induction false} RecordOnWire(base: nat, table: Table, r: Record, name: Encoded, body: Encoded,
                                        d: seq<byte>)
    requires r.rrclass < 0x8000 && name == EncodeName(base, table, r.name)
    requires body == EncodeRdata(base + |name.bytes| + 10, name.table, r) && d == EncodeRecord(base, table, r).bytes
    ensures var n := |name.bytes|;
      |d| == n + 10 + |body.bytes| && d[..n] == name.bytes && Be16(d, n) == r.rtype &&
      Be16(d, n + 2) == r.rrclass + (if r.cacheFlush then 0x8000 else 0) && Be32(d, n + 4) == r.ttl &&
      Be16(d, n + 8) == |body.bytes| % 65536 && d[n + 10..] == body.bytes
  {
    RecordParts(r, name.bytes, body.bytes, d);
  }

  /** Section 4.1.4: what starts a name is one zero octet, a pointer of fourteen bits to where the same name
      stands, or a length octet with that many octets behind it and the rest of the name after them. */
  lemma {:induction false} NameOnWire(base: nat, table: Table, n: Name)
    requires Normal(n) && forall k :: k in table ==> table[k] < 0x3FFF
    ensures var d := EncodeName(base, table, n).bytes;
      if n == [] then d == [0]
      else if Key(n) in table then |d| == 2 && Be16(d, 0) == 0xC000 + table[Key(n)]
      else
        |d| > 1 + |n[0]| && d[0] == |n[0]| && d[1..1 + |n[0]|] == n[0] &&
        d[1 + |n[0]|..] == EncodeName(base + 1 + |n[0]|, if base < 0x3FFF then table[Key(n) := base] else table, n[1..]).bytes
  {
    if n != [] {
      if Key(n) !in table {
        FreshSuffix(base, table, n);
        var rest := EncodeName(base + 1 + |n[0]|, Register(table, Key(n), base), n[1..]).bytes;
        var d := EncodeName(base, table, n).bytes;
        assert d == Literal(n[0]) + rest;
        assert d[1 + |n[0]|..] == rest;
      }
    }
  }
}
