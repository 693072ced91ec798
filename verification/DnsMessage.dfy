/** DNS messages: what serialize writes, what parse reads, and that the one undoes the other. */
module DnsMessage {
  import opened Bytes
  import opened DnsHops
  import opened DnsName
  import opened WireList

  const PTR: uint16 := 12
  const TXT: uint16 := 16
  const SRV: uint16 := 33
  const A: uint16 := 1
  const NSEC: uint16 := 47
  const ANY: uint16 := 255
  const CLASS_IN: uint16 := 1
  const CLASS_ANY: uint16 := 255

  datatype Question = Question(name: Name, qtype: uint16, rrclass: uint16, unicastResponse: bool)

  datatype Record = Record(name: Name, rtype: uint16, rrclass: uint16, cacheFlush: bool, ttl: uint32,
                           target: Name, priority: uint16, weight: uint16, port: uint16, rdata: seq<byte>)

  datatype Message = Message(id: uint16, flags: uint16, questions: seq<Question>, answers: seq<Record>,
                             authorities: seq<Record>, additionals: seq<Record>)

  /** `rrclass | (flag ? 0x8000 : 0)`. */
  function ClassField(rrclass: uint16, flag: bool): uint16 {
    if flag && rrclass < 0x8000 then rrclass + 0x8000 else rrclass
  }

  /** `field & 0x7FFF`. */
  function Low15(field: uint16): uint16 { if field >= 0x8000 then field - 0x8000 else field }

  function Clip16(n: nat): uint16 { n % 0x1_0000 }

  // ---- Writing ---------------------------------------------------------------------------------

  function EncodeQuestion(base: nat, table: Table, q: Question): Encoded {
    var n := EncodeName(base, table, q.name);
    Encoded(n.bytes + (Put16(q.qtype) + Put16(ClassField(q.rrclass, q.unicastResponse))), n.table)
  }

  function FixedFields(r: Record): (b: seq<byte>)
    ensures |b| == 8
  {
    Put16(r.rtype) + Put16(ClassField(r.rrclass, r.cacheFlush)) + Put32(r.ttl)
  }

  function EncodeRdata(base: nat, table: Table, r: Record): Encoded {
    if r.rtype == PTR then EncodeName(base, table, r.target)
    else if r.rtype == SRV then
      var n := EncodeName(base + 6, table, r.target);
      Encoded(Put16(r.priority) + Put16(r.weight) + Put16(r.port) + n.bytes, n.table)
    else Encoded(r.rdata, table)
  }

  /** A record from its name and its rdata: ten bytes in between, with the length at their end. */
  function RecordOctets(name: seq<byte>, r: Record, body: seq<byte>): seq<byte> {
    name + (FixedFields(r) + Put16(Clip16(|body|)) + body)
  }

  /** The record once its name is out. */
  function FinishRecord(base: nat, n: Encoded, r: Record): Encoded {
    var body := EncodeRdata(base + |n.bytes| + 10, n.table, r);
    Encoded(RecordOctets(n.bytes, r, body.bytes), body.table)
  }

  function EncodeRecord(base: nat, table: Table, r: Record): Encoded {
    FinishRecord(base, EncodeName(base, table, r.name), r)
  }

  function EncodeQuestions(base: nat, table: Table, qs: seq<Question>): Encoded {
    PutAll(EncodeQuestion, base, table, qs)
  }

  function EncodeRecords(base: nat, table: Table, rs: seq<Record>): Encoded {
    PutAll(EncodeRecord, base, table, rs)
  }

  function Header(m: Message): (b: seq<byte>)
    ensures |b| == 12
  {
    Put16(m.id) + Put16(m.flags) + Put16(Clip16(|m.questions|)) + Put16(Clip16(|m.answers|)) +
    Put16(Clip16(|m.authorities|)) + Put16(Clip16(|m.additionals|))
  }

  function Serialize(m: Message): seq<byte> {
    var q := EncodeQuestions(12, map[], m.questions);
    Header(m) + (q.bytes + EncodeRecords(12 + |q.bytes|, q.table, AllRecords(m)).bytes)
  }

  // ---- Reading ---------------------------------------------------------------------------------

  function ReadQuestion(d: seq<byte>, p: nat): (r: Option<Read<Question>>)
    ensures r.Some? ==> p < r.value.next <= |d|
  {
    var n := ReadName(d, p);
    if n.None? || n.value.next + 4 > |d| then None
    else
      var q := n.value.next;
      var cls := Be16(d, q + 2);
      Some(Read(Question(n.value.name, Be16(d, q), Low15(cls), cls >= 0x8000), q + 4))
  }

  function ReadRecord(d: seq<byte>, p: nat): (r: Option<Read<Record>>)
    ensures r.Some? ==> p < r.value.next <= |d|
  {
    var n := ReadName(d, p);
    if n.None? || n.value.next + 10 > |d| then None
    else
      var h := n.value.next;
      var cls := Be16(d, h + 2);
      var rdlen := Be16(d, h + 8);
      var start, end := h + 10, h + 10 + rdlen;
      var base := Record(n.value.name, Be16(d, h), Low15(cls), cls >= 0x8000, Be32(d, h + 4), [], 0, 0, 0, []);
      if end > |d| then None else ReadRdata(d, base, start, end)
  }

  function ReadRdata(d: seq<byte>, base: Record, start: nat, end: nat): (r: Option<Read<Record>>)
    requires start <= end <= |d|
    ensures r.Some? ==> r.value.next == end
  {
    if base.rtype == PTR then
      var t := ReadName(d, start);
      if t.None? || t.value.next > end then None else Some(Read(base.(target := t.value.name), end))
    else if base.rtype == SRV then
      if end - start < 7 then None
      else
        var t := ReadName(d, start + 6);
        if t.None? || t.value.next > end then None
        else Some(Read(base.(priority := Be16(d, start), weight := Be16(d, start + 2), port := Be16(d, start + 4),
                             target := t.value.name), end))
    else Some(Read(base.(rdata := d[start..end]), end))
  }

  function ReadQuestions(d: seq<byte>, p: nat, count: nat): Option<Read<seq<Question>>> { ReadAll(ReadQuestion, d, p, count) }

  function ReadRecords(d: seq<byte>, p: nat, count: nat): Option<Read<seq<Record>>> { ReadAll(ReadRecord, d, p, count) }

  function Parse(d: seq<byte>): Option<Message> {
    if |d| < 12 then None
    else
      match ReadQuestions(d, 12, Be16(d, 4))
      case None => None
      case Some(q) =>
        match ReadThree(ReadRecord, d, q.next, Be16(d, 6), Be16(d, 8), Be16(d, 10))
        case None => None
        case Some(r) => Some(Message(Be16(d, 0), Be16(d, 2), q.value, r.first, r.second, r.third))
  }

  // ---- What survives the trip ------------------------------------------------------------------

  /** The part of a record that reaches the wire, names normalised. */
  function WireRecord(r: Record): Record {
    var c := ClassField(r.rrclass, r.cacheFlush);
    Record(Norm(r.name), r.rtype, Low15(c), c >= 0x8000, r.ttl, if HasTarget(r) then Norm(r.target) else [],
           if r.rtype == SRV then r.priority else 0, if r.rtype == SRV then r.weight else 0,
           if r.rtype == SRV then r.port else 0, if HasTarget(r) then [] else r.rdata)
  }

  function WireQuestion(q: Question): Question {
    var c := ClassField(q.rrclass, q.unicastResponse);
    Question(Norm(q.name), q.qtype, Low15(c), c >= 0x8000)
  }

  /** PTR and SRV records carry a name. */
  predicate HasTarget(r: Record) { r.rtype == PTR || r.rtype == SRV }

  predicate RdataFits(r: Record) { HasTarget(r) || |r.rdata| < 0x1_0000 }

  predicate RecordFits(r: Record) { Fits(r.name) && (HasTarget(r) ==> Fits(r.target)) && RdataFits(r) }

  /** Equal but for the letter case of names. */
  predicate SameQuestion(a: Question, b: Question) { SameName(a.name, b.name) && a.(name := []) == b.(name := []) }

  predicate SameRecord(a: Record, b: Record) {
    SameName(a.name, b.name) && SameName(a.target, b.target) &&
    a.(name := [], target := []) == b.(name := [], target := [])
  }

  /** `a` is what a reader gets for `r`, `q`, `m`. */
  predicate Arrives(a: Record, r: Record) { SameRecord(a, WireRecord(r)) }

  predicate QuestionArrives(a: Question, q: Question) { SameQuestion(a, WireQuestion(q)) }

  predicate QuestionFits(q: Question) { Fits(q.name) }

  predicate MessageArrives(a: Message, m: Message) {
    a.id == m.id && a.flags == m.flags && Pairwise(QuestionArrives, a.questions, m.questions) &&
    Pairwise(Arrives, a.answers, m.answers) && Pairwise(Arrives, a.authorities, m.authorities) &&
    Pairwise(Arrives, a.additionals, m.additionals)
  }

  predicate CountsFit(m: Message) {
    |m.questions| < 0x1_0000 && |m.answers| < 0x1_0000 && |m.authorities| < 0x1_0000 && |m.additionals| < 0x1_0000
  }

  /** All records in the order they are written. */
  function AllRecords(m: Message): seq<Record> { m.answers + m.authorities + m.additionals }

  predicate MessageFits(m: Message) {
    CountsFit(m) && All(QuestionFits, m.questions) && All(RecordFits, m.answers) && All(RecordFits, m.authorities) &&
    All(RecordFits, m.additionals)
  }

  // ---- Which names can be read back ------------------------------------------------------------

  predicate QuestionReadable(s: Spot, q: Question) { Readable(s.depths, q.name) }

  function LearnQuestion(s: Spot, q: Question): Depths { Learn(s.base, s.depths, q.name) }

  const QUESTIONS := Reach(QuestionReadable, LearnQuestion)

  /** Where the rdata of a record starts. */
  function RdataSpot(s: Spot, r: Record): Spot {
    var n := EncodeName(s.base, s.table, r.name);
    Spot(s.base + |n.bytes| + 10, n.table, Learn(s.base, s.depths, r.name))
  }

  predicate RdataReadable(s: Spot, r: Record) { HasTarget(r) ==> Readable(s.depths, r.target) }

  function LearnRdata(s: Spot, r: Record): Depths {
    if r.rtype == PTR then Learn(s.base, s.depths, r.target)
    else if r.rtype == SRV then Learn(s.base + 6, s.depths, r.target)
    else s.depths
  }

  predicate RecordReadable(s: Spot, r: Record) { Readable(s.depths, r.name) && RdataReadable(RdataSpot(s, r), r) }

  function LearnRecord(s: Spot, r: Record): Depths { LearnRdata(RdataSpot(s, r), r) }

  const RECORDS := Reach(RecordReadable, LearnRecord)

  /** No name of the message needs more than 32 pointers or 255 octets, counted as the message is written. */
  predicate NamesReadable(m: Message) {
    AllReadable(EncodeQuestion, QUESTIONS, START, m.questions) &&
    AllReadable(EncodeRecord, RECORDS, AfterAll(EncodeQuestion, QUESTIONS, START, m.questions), AllRecords(m))
  }
}
