/** Sending and walking RTCP as the program does it: bytes appended, length fields patched afterwards,
    a compound packet walked in a loop. */
module CastReporter {
  import opened Bytes
  import opened CastNack
  import opened CastRtcp

  const NACK_INTERVAL_MS := 30
  const REPORT_INTERVAL_MS := 500

  /** Fills in the length field of the sub-packet that starts at `start` and runs to the end. */
  method FinishPacket(b: seq<byte>, start: nat) returns (r: seq<byte>)
    requires start + 4 <= |b|
    ensures |r| == |b| && forall i :: 0 <= i < |b| && i !in {start + 2, start + 3} ==> r[i] == b[i]
    ensures Be16(r, start + 2) == ((|b| - start) / 4 - 1) % 0x1_0000
  {
    var words := ((|b| - start) / 4 - 1) % 0x1_0000;
    r := b[start + 2 := words / 0x100];
    r := r[start + 3 := words % 0x100];
  }

  /** One sub-packet after those already in `b`. */
  method AppendPacket(b: seq<byte>, first: byte, kind: byte, body: seq<byte>) returns (r: seq<byte>)
    requires |body| < 0x4_0000
    ensures r == b + SubPacket(first, kind, body)
  {
    var start := |b|;
    var draft := b + [first, kind, 0, 0] + body;
    r := FinishPacket(draft, start);
    SameField(Be16(r, start + 2), |body| / 4, r[start + 2], r[start + 3]);
    var whole := b + SubPacket(first, kind, body);
    forall i | 0 <= i < |r| ensures r[i] == whole[i] {}
  }

  lemma {:induction false} SameField(v: uint16, words: nat, high: byte, low: byte)
    requires v == high * 0x100 + low && v == words % 0x1_0000 && words < 0x1_0000
    ensures Put16(words) == [high, low]
  {
    assert words == high * 0x100 + low;
    assert words / 0x100 == high && words % 0x100 == low;
  }

  method WriteLosses(ls: seq<Loss>) returns (b: seq<byte>)
    ensures b == PutLosses(ls)
  {
    b := [];
    var i := 0;
    while i < |ls|
      invariant i <= |ls| && b + PutLosses(ls[i..]) == PutLosses(ls)
    {
      assert ls[i..][1..] == ls[i + 1..];
      b := b + [ls[i].frame] + Put16(ls[i].packet) + [ls[i].bits];
      i := i + 1;
    }
    assert PutLosses(ls[i..]) == [];
  }

  function SrInfoAt(lastSr: Option<(uint32, nat)>, now: nat): Option<SrInfo> {
    match lastSr
    case None => None
    case Some((middle, arrival)) => Some(SrInfo(middle, DelaySince(if now < arrival then 0 else now - arrival)))
  }

  /** Sooner while packets are missing. */
  function NextDue(s: S.Stream, now: nat): int
    requires S.StreamOk(s)
  {
    now + 1000 * if LossList(s) == [] then REPORT_INTERVAL_MS else NACK_INTERVAL_MS
  }

  /** The report on a stream, sub-packet after sub-packet, and whether it asks for nothing. */
  method BuildReport(s: S.Stream, rx: uint32, tx: uint32, sr: Option<SrInfo>, ntp: uint64, count: byte)
    returns (b: seq<byte>, complete: bool)
    requires S.StreamOk(s)
    ensures b == Compound(ReportOf(s, rx, tx, sr, ntp, count)) && complete == (LossList(s) == [])
  {
    var losses := CollectLosses(s);
    ghost var r := ReportOf(s, rx, tx, sr, ntp, count);
    var words := [rx];
    if sr.Some? { words := words + [tx, 0, S.ExtendedSeq(s), 0, sr.value.middle, sr.value.delay]; }
    assert words == ReportWords(r);
    b := AppendPacket([], if sr.Some? then 0x81 else 0x80, RECEIVER_REPORT, Words(words));
    b := AppendPacket(b, 0x80, EXTENDED_REPORT, Words([rx, 0x04000002]) + Put64(ntp));
    if s.pliPending { b := AppendPacket(b, 0x81, PAYLOAD_FEEDBACK, Words([rx, tx])); }
    var feedback := FeedbackBytes(s, rx, tx, count, losses, r);
    b := AppendPacket(b, 0x8F, PAYLOAD_FEEDBACK, feedback);
    JoinParts(r, ReceiverReport(r), ExtendedReport(r), Feedback(r));
    complete := losses == [];
  }

  method FeedbackBytes(s: S.Stream, rx: uint32, tx: uint32, count: byte, losses: seq<Loss>, ghost r: Report)
    returns (b: seq<byte>)
    requires S.StreamOk(s) && losses == LossList(s) && ReportOk(r) && r.losses == losses
    requires r.rx == rx && r.tx == tx && r.checkpoint8 == s.checkpoint % 0x100 && r.count == count
    requires r.targetDelay == Max(s.targetDelayMs, 1) % 0x1_0000 && r.acks == PackAcks(s)
    ensures b == FeedbackBody(r)
  {
    var acks := CollectAcks(s);
    SameAcks(s, acks);
    var list := WriteLosses(losses);
    b := Words([rx, tx, CAST_FOUR_CC]) +
      ([s.checkpoint % 0x100, |losses|] + Put16(Max(s.targetDelayMs, 1) % 0x1_0000) +
      (list + (Put32(CST2_FOUR_CC) + ([count, 2] + acks))));
  }

  lemma {:induction false} SameAcks(s: S.Stream, acks: seq<byte>)
    requires |acks| == 2 && Unpack(acks[0], 8) + Unpack(acks[1], 8) == AckFlags(s)
    ensures acks == PackAcks(s)
  {
    assert AckFlags(s)[..8] == Unpack(acks[0], 8) && AckFlags(s)[8..] == Unpack(acks[1], 8);
    PackUnpack(acks[0], 8);
    PackUnpack(acks[1], 8);
  }

  lemma {:induction false} JoinParts(r: Report, rr: seq<byte>, xr: seq<byte>, fb: seq<byte>)
    requires ReportOk(r) && rr == ReceiverReport(r) && xr == ExtendedReport(r) && fb == Feedback(r)
    ensures Compound(r) == (if r.pli then ([] + rr + xr + PictureLoss(r)) + fb else ([] + rr + xr) + fb)
  {
    Join3(rr, xr, fb);
    Join4(rr, xr, PictureLoss(r), fb);
    assert Parts(r) == if r.pli then [rr, xr, PictureLoss(r), fb] else [rr, xr, fb];
  }

  lemma {:induction false} Join3(a: seq<byte>, b: seq<byte>, c: seq<byte>)
    ensures Concat([a, b, c]) == ([] + a + b) + c
  {
    assert Concat([c]) == c + Concat([]);
    assert Concat([b, c]) == b + Concat([c]);
    assert Concat([a, b, c]) == a + Concat([b, c]);
  }

  lemma {:induction false} Join4(a: seq<byte>, b: seq<byte>, c: seq<byte>, d: seq<byte>)
    ensures Concat([a, b, c, d]) == ([] + a + b + c) + d
  {
    Join3(b, c, d);
    assert Concat([a, b, c, d]) == a + Concat([b, c, d]);
  }

  // ---- Receiving -------------------------------------------------------------------------------

  /** The stream a sender report is about and the middle 32 bits of its timestamp. */
  datatype SenderReport = SenderReport(ssrc: uint32, middle: uint32)

  function ReportIn(p: seq<byte>): seq<SenderReport> {
    if |p| >= 28 && p[1] == SENDER_REPORT then [SenderReport(Be32(p, 4), Be32(p, 10))] else []
  }

  function Gather(report: seq<byte> -> seq<SenderReport>, parts: seq<seq<byte>>): seq<SenderReport> {
    if parts == [] then [] else report(parts[0]) + Gather(report, parts[1..])
  }

  function SenderReports(parts: seq<seq<byte>>): seq<SenderReport> { Gather(ReportIn, parts) }

  lemma {:induction false} MiddleBits(d: seq<byte>, p: nat)
    requires p + 8 <= |d|
    ensures Be64(d, p) / 0x1_0000 % 0x1_0000_0000 == Be32(d, p + 2)
  {
    Middle(Be16(d, p), Be16(d, p + 2), Be16(d, p + 4), Be16(d, p + 6));
  }

  lemma {:induction false} Middle(a: uint16, b: uint16, c: uint16, d: uint16)
    ensures ((a * 0x1_0000 + b) * 0x1_0000_0000 + (c * 0x1_0000 + d)) / 0x1_0000 % 0x1_0000_0000 == b * 0x1_0000 + c
  {
    assert (a * 0x1_0000 + b) * 0x1_0000_0000 + (c * 0x1_0000 + d) == (a * 0x1_0000_0000 + (b * 0x1_0000 + c)) * 0x1_0000 + d;
  }

  /** The sender report in the sub-packet at `off`, as the loop reads it out of the datagram. */
  function ReportAt(d: seq<byte>, off: nat, len: nat): seq<SenderReport> {
    if len >= 28 && off + len <= |d| && d[off + 1] == SENDER_REPORT
    then [SenderReport(Be32(d, off + 4), Be64(d, off + 8) / 0x1_0000 % 0x1_0000_0000)]
    else []
  }

  datatype Scanned = Scanned(found: seq<SenderReport>, end: nat)

  /** What `report` finds in each sub-packet, and where the walk ends. */
  function Scan(report: (seq<byte>, nat, nat) -> seq<SenderReport>, d: seq<byte>, off: nat): Scanned
    decreases |d| - off
  {
    match PacketLength(d, off)
    case None => Scanned([], off)
    case Some(len) =>
      var rest := Scan(report, d, off + len);
      Scanned(report(d, off, len) + rest.found, rest.end)
  }

  lemma {:induction false} ReportInPacket(d: seq<byte>, off: nat, len: nat)
    requires 4 <= len && off + len <= |d|
    ensures ReportIn(d[off..off + len]) == ReportAt(d, off, len)
  {
    var p := d[off..off + len];
    assert p[1] == d[off + 1];
    if len >= 28 {
      MiddleBits(d, off + 8);
      assert Be32(p, 4) == Be32(d, off + 4) && Be32(p, 10) == Be32(d, off + 10);
    }
  }

  /** Looking into the datagram and looking into its pieces find the same. */
  ghost predicate Agree(at: (seq<byte>, nat, nat) -> seq<SenderReport>, report: seq<byte> -> seq<SenderReport>, d: seq<byte>) {
    forall off: nat, len: nat {:trigger at(d, off, len)} ::
      4 <= len && off + len <= |d| ==> at(d, off, len) == report(d[off..off + len])
  }

  lemma {:induction false} ScanIsWalk(at: (seq<byte>, nat, nat) -> seq<SenderReport>, report: seq<byte> -> seq<SenderReport>,
                                      d: seq<byte>, off: nat)
    requires off <= |d| && Agree(at, report, d)
    ensures Scan(at, d, off) == Scanned(Gather(report, Walk(d, off).parts), Walk(d, off).end)
    decreases |d| - off
  {
    var len := PacketLength(d, off);
    if len.Some? {
      ScanIsWalk(at, report, d, off + len.value);
      var p, rest := d[off..off + len.value], Walk(d, off + len.value).parts;
      assert ([p] + rest)[1..] == rest;
    }
  }

  lemma {:induction false} ReportsAgree(d: seq<byte>)
    ensures Agree(ReportAt, ReportIn, d)
  {
    forall off: nat, len: nat | 4 <= len && off + len <= |d| ensures ReportAt(d, off, len) == ReportIn(d[off..off + len]) {
      ReportInPacket(d, off, len);
    }
  }

  /** The walking loop, whatever is looked for in a sub-packet. */
  method WalkPackets(report: (seq<byte>, nat, nat) -> seq<SenderReport>, d: seq<byte>)
    returns (found: seq<SenderReport>, end: nat)
    ensures Scanned(found, end) == Scan(report, d, 0)
  {
    found, end := [], 0;
    var len := PacketLength(d, end);
    while len.Some?
      invariant end <= |d| && len == PacketLength(d, end)
      invariant Scan(report, d, 0) == Scanned(found + Scan(report, d, end).found, Scan(report, d, end).end)
      decreases |d| - end
    {
      Regroup(found, report(d, end, len.value), Scan(report, d, end + len.value).found);
      found := found + report(d, end, len.value);
      end := end + len.value;
      len := PacketLength(d, end);
    }
    assert found + [] == found;
  }

  /** The sender reports in a compound packet, in order, and where the walk ends. */
  method FindReports(d: seq<byte>) returns (found: seq<SenderReport>, end: nat)
    ensures end == Walk(d, 0).end && found == SenderReports(Walk(d, 0).parts)
  {
    ReportsAgree(d);
    ScanIsWalk(ReportAt, ReportIn, d, 0);
    found, end := WalkPackets(ReportAt, d);
  }
}
