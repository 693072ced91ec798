/** The compound RTCP packet a Cast receiver sends, and the loop that walks one. */
module CastRtcp {
  import opened Bytes
  import opened CastNack
  import S = CastStream

  const SENDER_REPORT := 200
  const RECEIVER_REPORT := 201
  const PAYLOAD_FEEDBACK := 206
  const EXTENDED_REPORT := 207
  const CAST_FOUR_CC := 0x43415354
  const CST2_FOUR_CC := 0x43535432
  const NTP_MAX := 0xFFFF_FFFF_FFFF_FFFF

  /** What a report says about the last sender report. */
  datatype SrInfo = SrInfo(middle: uint32, delay: uint32)

  datatype Report = Report(rx: uint32, tx: uint32, sr: Option<SrInfo>, extendedSeq: uint32, ntp: uint64, pli: bool,
                           checkpoint8: byte, targetDelay: uint16, losses: seq<Loss>, count: byte, acks: seq<byte>)

  predicate ReportOk(r: Report) {
    |r.losses| <= MAX_LOSSES && |r.acks| == 2 && (r.sr.None? ==> r.extendedSeq == 0)
  }

  // ---- Building --------------------------------------------------------------------------------

  /** One sub-packet: its length field is the size of the body in words of four bytes. */
  function SubPacket(first: byte, kind: byte, body: seq<byte>): seq<byte>
    requires |body| < 0x4_0000
  {
    [first, kind] + Put16(|body| / 4) + body
  }

  function Words(ws: seq<uint32>): (b: seq<byte>)
    ensures |b| == 4 * |ws|
  {
    if ws == [] then [] else Put32(ws[0]) + Words(ws[1..])
  }

  function ReportWords(r: Report): (ws: seq<uint32>)
    ensures |ws| == if r.sr.Some? then 7 else 1
  {
    match r.sr
    case None => [r.rx]
    case Some(sr) => [r.rx, r.tx, 0, r.extendedSeq, 0, sr.middle, sr.delay]
  }

  function ReceiverReport(r: Report): seq<byte> {
    SubPacket(if r.sr.Some? then 0x81 else 0x80, RECEIVER_REPORT, Words(ReportWords(r)))
  }

  function ExtendedReport(r: Report): seq<byte> {
    SubPacket(0x80, EXTENDED_REPORT, Words([r.rx, 0x04000002]) + Put64(r.ntp))
  }

  function PictureLoss(r: Report): seq<byte> {
    SubPacket(0x81, PAYLOAD_FEEDBACK, Words([r.rx, r.tx]))
  }

  function PutLoss(l: Loss): (b: seq<byte>)
    ensures |b| == 4
  {
    [l.frame] + Put16(l.packet) + [l.bits]
  }

  function PutLosses(ls: seq<Loss>): (b: seq<byte>)
    ensures |b| == 4 * |ls|
  {
    if ls == [] then [] else PutLoss(ls[0]) + PutLosses(ls[1..])
  }

  function Tail(r: Report): (b: seq<byte>)
    requires |r.acks| == 2
    ensures |b| == 8
  {
    Put32(CST2_FOUR_CC) + ([r.count, 2] + r.acks)
  }

  function Counts(r: Report): (b: seq<byte>)
    requires ReportOk(r)
    ensures |b| == 4
  {
    [r.checkpoint8, |r.losses|] + Put16(r.targetDelay)
  }

  function FeedbackBody(r: Report): (b: seq<byte>)
    requires ReportOk(r)
    ensures |b| == 24 + 4 * |r.losses|
  {
    Words([r.rx, r.tx, CAST_FOUR_CC]) + (Counts(r) + (PutLosses(r.losses) + Tail(r)))
  }

  function Feedback(r: Report): seq<byte>
    requires ReportOk(r)
  {
    SubPacket(0x8F, PAYLOAD_FEEDBACK, FeedbackBody(r))
  }

  function Parts(r: Report): seq<seq<byte>>
    requires ReportOk(r)
  {
    [ReceiverReport(r), ExtendedReport(r)] + (if r.pli then [PictureLoss(r)] else []) + [Feedback(r)]
  }

  function Compound(r: Report): seq<byte>
    requires ReportOk(r)
  {
    Concat(Parts(r))
  }

  // ---- Walking ---------------------------------------------------------------------------------

  datatype Walked = Walked(parts: seq<seq<byte>>, end: nat)

  /** Length of the sub-packet that starts at `off`, if one does. */
  function PacketLength(d: seq<byte>, off: nat): (len: Option<nat>)
    ensures len.Some? ==> 4 <= len.value && off + len.value <= |d|
  {
    if off + 4 > |d| then None
    else
      var len := (Be16(d, off + 2) + 1) * 4;
      if d[off] / 0x40 != 2 || off + len > |d| then None else Some(len)
  }

  /** Sub-packets by their length fields, as far as they are well formed. */
  function Walk(d: seq<byte>, off: nat): (w: Walked)
    requires off <= |d|
    ensures off <= w.end <= |d|
    decreases |d| - off
  {
    match PacketLength(d, off)
    case None => Walked([], off)
    case Some(len) =>
      var rest := Walk(d, off + len);
      Walked([d[off..off + len]] + rest.parts, rest.end)
  }

  predicate WellFormed(p: seq<byte>) { |p| >= 4 && p[0] / 0x40 == 2 && |p| == (Be16(p, 2) + 1) * 4 }

  lemma {:induction false} SubPacketWellFormed(first: byte, kind: byte, body: seq<byte>)
    requires |body| < 0x4_0000 && |body| % 4 == 0 && 0x80 <= first < 0xC0
    ensures WellFormed(SubPacket(first, kind, body))
  {
    var p := SubPacket(first, kind, body);
    var head, length := [first, kind], Put16(|body| / 4);
    assert p == head + length + body;
    assert p[2] == length[0] && p[3] == length[1];
    assert Be16(p, 2) == |body| / 4;
  }

  lemma {:induction false} FrontPacket(d: seq<byte>, off: nat, p: seq<byte>, rest: seq<byte>)
    requires off <= |d| && d[off..] == p + rest && WellFormed(p)
    ensures PacketLength(d, off) == Some(|p|)
    ensures d[off..off + |p|] == p && d[off + |p|..] == rest
  {
    assert d[off] == d[off..][0] == p[0];
    assert d[off + 2] == d[off..][2] == p[2] && d[off + 3] == d[off..][3] == p[3];
    assert d[off..off + |p|] == d[off..][..|p|] == p;
    assert d[off + |p|..] == d[off..][|p|..] == rest;
  }

  lemma {:induction false} WalkOne(d: seq<byte>, off: nat, p: seq<byte>, rest: Walked)
    requires off <= |d| && PacketLength(d, off) == Some(|p|) && d[off..off + |p|] == p && rest == Walk(d, off + |p|)
    ensures Walk(d, off) == Walked([p] + rest.parts, rest.end)
  {
  }

  lemma {:induction false} WalkNothing(d: seq<byte>)
    ensures Walk(d, |d|) == Walked([], |d|)
  {
  }

  predicate AllWellFormed(parts: seq<seq<byte>>) { forall i :: 0 <= i < |parts| ==> WellFormed(parts[i]) }

  lemma {:induction false} WalkFinds(d: seq<byte>, off: nat, parts: seq<seq<byte>>)
    requires off <= |d| && d[off..] == Concat(parts) && AllWellFormed(parts)
    ensures Walk(d, off) == Walked(parts, |d|)
    decreases |parts|
  {
    if parts == [] {
      WalkNothing(d);
    } else {
      var p := parts[0];
      FrontPacket(d, off, p, Concat(parts[1..]));
      WalkFinds(d, off + |p|, parts[1..]);
      WalkOne(d, off, p, Walked(parts[1..], |d|));
      assert parts == [p] + parts[1..];
    }
  }

  lemma {:induction false} PartsWellFormed(r: Report)
    requires ReportOk(r)
    ensures AllWellFormed(Parts(r))
  {
    SubPacketWellFormed(if r.sr.Some? then 0x81 else 0x80, RECEIVER_REPORT, Words(ReportWords(r)));
    SubPacketWellFormed(0x80, EXTENDED_REPORT, Words([r.rx, 0x04000002]) + Put64(r.ntp));
    SubPacketWellFormed(0x81, PAYLOAD_FEEDBACK, Words([r.rx, r.tx]));
    SubPacketWellFormed(0x8F, PAYLOAD_FEEDBACK, FeedbackBody(r));
  }

  /** The receiver's own walking loop visits exactly the sub-packets that went in and ends at the last
      byte. */
  lemma {:induction false} WalkCompound(r: Report)
    requires ReportOk(r)
    ensures Walk(Compound(r), 0) == Walked(Parts(r), |Compound(r)|)
    ensures |Parts(r)| == if r.pli then 4 else 3
  {
    PartsWellFormed(r);
    assert Compound(r)[0..] == Compound(r);
    WalkFinds(Compound(r), 0, Parts(r));
  }

  // ---- Decoding --------------------------------------------------------------------------------

  function ReadLosses(p: seq<byte>, at: nat, n: nat): seq<Loss>
    requires at + 4 * n <= |p|
    decreases n
  {
    if n == 0 then [] else [Loss(p[at], Be16(p, at + 1), p[at + 3])] + ReadLosses(p, at + 4, n - 1)
  }

  /** What a sender reads out of the sub-packets. */
  function ReadReport(parts: seq<seq<byte>>): Option<Report> {
    if |parts| !in {3, 4} then None
    else
      var rr, xr, fb := parts[0], parts[1], parts[|parts| - 1];
      if |rr| < 8 || |xr| < 20 || |fb| < 28 || (rr[0] % 0x20 == 1 && |rr| < 32) || |fb| != 28 + 4 * fb[17] as int then None
      else
        var sr := if rr[0] % 0x20 == 1 then Some(SrInfo(Be32(rr, 24), Be32(rr, 28))) else None;
        var after := 20 + 4 * fb[17] as int;
        Some(Report(Be32(fb, 4), Be32(fb, 8), sr, if sr.Some? then Be32(rr, 16) else 0, Be64(xr, 12), |parts| == 4, fb[16],
                    Be16(fb, 18), ReadLosses(fb, 20, fb[17]), fb[after + 4], [fb[after + 6], fb[after + 7]]))
  }

  lemma {:induction false} ReadsWord(d: seq<byte>, p: nat, ws: seq<uint32>, i: nat)
    requires At(d, p, Words(ws)) && i < |ws|
    ensures p + 4 * i + 4 <= |d| && Be32(d, p + 4 * i) == ws[i]
    decreases i
  {
    AtSplit(d, p, Put32(ws[0]), Words(ws[1..]));
    if i == 0 { ReadBack32(d, p, ws[0]); } else { ReadsWord(d, p + 4, ws[1..], i - 1); }
  }

  lemma {:induction false} Body(first: byte, kind: byte, body: seq<byte>)
    requires |body| < 0x4_0000
    ensures var p := SubPacket(first, kind, body); |p| == 4 + |body| && p[0] == first && At(p, 4, body)
  {
  }

  lemma {:induction false} ReadsReceiverReport(r: Report)
    ensures var p := ReceiverReport(r);
      |p| == (if r.sr.Some? then 32 else 8) && (p[0] % 0x20 == 1 <==> r.sr.Some?) &&
      (r.sr.Some? ==> Be32(p, 16) == r.extendedSeq && Be32(p, 24) == r.sr.value.middle && Be32(p, 28) == r.sr.value.delay)
  {
    var ws := ReportWords(r);
    Body(if r.sr.Some? then 0x81 else 0x80, RECEIVER_REPORT, Words(ws));
    if r.sr.Some? {
      ReadsWord(ReceiverReport(r), 4, ws, 3);
      ReadsWord(ReceiverReport(r), 4, ws, 5);
      ReadsWord(ReceiverReport(r), 4, ws, 6);
    }
  }

  lemma {:induction false} ReadsExtendedReport(r: Report)
    ensures var p := ExtendedReport(r); |p| == 20 && Be64(p, 12) == r.ntp
  {
    var ws := Words([r.rx, 0x04000002]);
    Body(0x80, EXTENDED_REPORT, ws + Put64(r.ntp));
    AtSplit(ExtendedReport(r), 4, ws, Put64(r.ntp));
    ReadBack64(ExtendedReport(r), 12, r.ntp);
  }

  lemma {:induction false} ReadsLoss(p: seq<byte>, at: nat, l: Loss)
    requires At(p, at, PutLoss(l))
    ensures at + 4 <= |p| && Loss(p[at], Be16(p, at + 1), p[at + 3]) == l
  {
    AtSplit(p, at, [l.frame] + Put16(l.packet), [l.bits]);
    AtSplit(p, at, [l.frame], Put16(l.packet));
    AtByte(p, at, [l.frame], 0);
    AtByte(p, at + 3, [l.bits], 0);
    ReadBack16(p, at + 1, l.packet);
  }

  lemma {:induction false} ReadsLosses(p: seq<byte>, at: nat, ls: seq<Loss>)
    requires At(p, at, PutLosses(ls))
    ensures at + 4 * |ls| <= |p| && ReadLosses(p, at, |ls|) == ls
    decreases |ls|
  {
    if ls != [] {
      AtSplit(p, at, PutLoss(ls[0]), PutLosses(ls[1..]));
      ReadsLoss(p, at, ls[0]);
      ReadsLosses(p, at + 4, ls[1..]);
    }
  }

  lemma {:induction false} ReadsTail(p: seq<byte>, at: nat, r: Report)
    requires |r.acks| == 2 && At(p, at, Tail(r))
    ensures at + 8 <= |p| && p[at + 4] == r.count && [p[at + 6], p[at + 7]] == r.acks
  {
    AtSplit(p, at, Put32(CST2_FOUR_CC), [r.count, 2] + r.acks);
    AtByte(p, at + 4, [r.count, 2] + r.acks, 0);
    AtByte(p, at + 4, [r.count, 2] + r.acks, 2);
    AtByte(p, at + 4, [r.count, 2] + r.acks, 3);
  }

  lemma {:induction false} ReadsCounts(p: seq<byte>, at: nat, r: Report)
    requires ReportOk(r) && At(p, at, Counts(r))
    ensures at + 4 <= |p| && p[at] == r.checkpoint8 && p[at + 1] == |r.losses| && Be16(p, at + 2) == r.targetDelay
  {
    var head := [r.checkpoint8, |r.losses|];
    AtSplit(p, at, head, Put16(r.targetDelay));
    AtByte(p, at, head, 0);
    AtByte(p, at, head, 1);
    ReadBack16(p, at + 2, r.targetDelay);
  }

  lemma {:induction false} ReadsFeedback(r: Report, p: seq<byte>)
    requires ReportOk(r) && At(p, 4, FeedbackBody(r))
    ensures var n := |r.losses|;
      |p| >= 28 + 4 * n && Be32(p, 4) == r.rx && Be32(p, 8) == r.tx && p[16] == r.checkpoint8 && p[17] == n &&
      Be16(p, 18) == r.targetDelay && ReadLosses(p, 20, n) == r.losses && p[24 + 4 * n] == r.count &&
      [p[26 + 4 * n], p[27 + 4 * n]] == r.acks
  {
    var ws, tail := [r.rx, r.tx, CAST_FOUR_CC], PutLosses(r.losses) + Tail(r);
    AtSplit(p, 4, Words(ws), Counts(r) + tail);
    ReadsWord(p, 4, ws, 0);
    ReadsWord(p, 4, ws, 1);
    AtSplit(p, 16, Counts(r), tail);
    ReadsCounts(p, 16, r);
    AtSplit(p, 20, PutLosses(r.losses), Tail(r));
    ReadsLosses(p, 20, r.losses);
    ReadsTail(p, 20 + 4 * |r.losses|, r);
  }

  lemma {:induction false} ReadsParts(r: Report, rr: seq<byte>, xr: seq<byte>, fb: seq<byte>, parts: seq<seq<byte>>)
    requires ReportOk(r) && |parts| == (if r.pli then 4 else 3) && parts[0] == rr && parts[1] == xr && parts[|parts| - 1] == fb
    requires |rr| == (if r.sr.Some? then 32 else 8) && (rr[0] % 0x20 == 1 <==> r.sr.Some?)
    requires r.sr.Some? ==>
      Be32(rr, 16) == r.extendedSeq && Be32(rr, 24) == r.sr.value.middle && Be32(rr, 28) == r.sr.value.delay
    requires |xr| == 20 && Be64(xr, 12) == r.ntp && |fb| == 28 + 4 * |r.losses| && At(fb, 4, FeedbackBody(r))
    ensures ReadReport(parts) == Some(r)
  {
    ReadsFeedback(r, fb);
  }

  /** Every field of a report comes back: PLI exactly when asked for, a report block exactly when a
      sender report has been seen, the checkpoint byte, the loss list and the 16 ACK bits. */
  lemma {:induction false} CompoundRoundTrip(r: Report)
    requires ReportOk(r)
    ensures var w := Walk(Compound(r), 0); w.end == |Compound(r)| && ReadReport(w.parts) == Some(r)
  {
    WalkCompound(r);
    ReadsReceiverReport(r);
    ReadsExtendedReport(r);
    Body(0x8F, PAYLOAD_FEEDBACK, FeedbackBody(r));
    ReadsParts(r, ReceiverReport(r), ExtendedReport(r), Feedback(r), Parts(r));
  }

  // ---- From the stream state -------------------------------------------------------------------

  /** Microseconds in 1/65536 s, as 32 bits. */
  function DelaySince(micros: nat): uint32 { micros * 0x1_0000 % 0x1_0000_0000_0000_0000 / 1_000_000 % 0x1_0000_0000 }

  function PackAcks(s: S.Stream): (acks: seq<byte>)
    ensures |acks| == 2
  {
    PackEight(AckFlags(s)[..8]);
    PackEight(AckFlags(s)[8..]);
    [Pack(AckFlags(s)[..8]), Pack(AckFlags(s)[8..])]
  }

  function ReportOf(s: S.Stream, rx: uint32, tx: uint32, sr: Option<SrInfo>, ntp: uint64, count: byte): Report
    requires S.StreamOk(s)
  {
    Report(rx, tx, sr, if sr.Some? then S.ExtendedSeq(s) else 0, ntp, s.pliPending, s.checkpoint % 0x100,
           Max(s.targetDelayMs, 1) % 0x1_0000, LossList(s), count, PackAcks(s))
  }

  /** The last frame number up to `newest` with these low 8 bits. */
  function UpTo(newest: int, low: byte): int { newest - (newest - low) % 0x100 }

  /** The sender recovers the checkpoint from its byte exactly if fewer than 256 of the frames it has sent
      are beyond it. */
  lemma {:induction false} CheckpointExact(newest: int, checkpoint: int)
    ensures UpTo(newest, checkpoint % 0x100) == checkpoint <==> newest - 0x100 < checkpoint <= newest
  {
    var q, low := checkpoint / 0x100, checkpoint % 0x100;
    assert checkpoint == q * 0x100 + low;
    var k, r := (newest - low) / 0x100, (newest - low) % 0x100;
    assert newest - low == k * 0x100 + r;
    assert UpTo(newest, low) == k * 0x100 + low;
  }

  /** What the sender of the stream learns from the bytes of one report, `newest` being the last frame it has
      sent: the frames it may forget, the packets to send again and the frames beyond the checkpoint that
      arrived whole. */
  lemma {:induction false} ReportTellsTheTruth(s: S.Stream, rx: uint32, tx: uint32, sr: Option<SrInfo>, ntp: uint64, count: byte,
                                               newest: int)
    requires S.StreamOk(s)
    ensures var read := ReadReport(Walk(Compound(ReportOf(s, rx, tx, sr, ntp, count)), 0).parts);
      read.Some? && read.value.checkpoint8 == s.checkpoint % 0x100 && read.value.pli == s.pliPending &&
      (UpTo(newest, read.value.checkpoint8) == s.checkpoint <==> newest - 0x100 < s.checkpoint <= newest) &&
      (forall m :: m in ExpandAll(s.checkpoint, read.value.losses) ==> IsMissing(s, m)) &&
      (|read.value.losses| < 255 ==>
        forall m :: IsMissing(s, m) ==> m in ExpandAll(s.checkpoint, read.value.losses)) &&
      Unpack(read.value.acks[0], 8) + Unpack(read.value.acks[1], 8) == AckFlags(s)
  {
    var r := ReportOf(s, rx, tx, sr, ntp, count);
    CompoundRoundTrip(r);
    CheckpointExact(newest, s.checkpoint);
    LossListExact(s);
    UnpackPack(AckFlags(s)[..8]);
    UnpackPack(AckFlags(s)[8..]);
    assert AckFlags(s)[..8] + AckFlags(s)[8..] == AckFlags(s);
  }

  /** From the bytes alone, then: with fewer than 256 frames outstanding, what the sender works out is true. */
  lemma {:induction false} SenderLearnsTheTruth(s: S.Stream, rx: uint32, tx: uint32, sr: Option<SrInfo>, ntp: uint64, count: byte,
                                                newest: int)
    requires S.StreamOk(s) && newest - 0x100 < s.checkpoint <= newest
    ensures var read := ReadReport(Walk(Compound(ReportOf(s, rx, tx, sr, ntp, count)), 0).parts);
      read.Some? &&
      var checkpoint := UpTo(newest, read.value.checkpoint8); var named := ExpandAll(checkpoint, read.value.losses);
      checkpoint == s.checkpoint && (forall m :: m in named ==> IsMissing(s, m)) &&
      (|read.value.losses| < 255 ==> forall m :: IsMissing(s, m) ==> m in named)
  {
    ReportTellsTheTruth(s, rx, tx, sr, ntp, count, newest);
  }

  // ---- Timestamps ------------------------------------------------------------------------------

  function ClockNtp(secs: nat, micros: nat): uint64
    requires micros < 1_000_000
  {
    ((secs + 2208988800) % 0x1_0000_0000) * 0x1_0000_0000 + micros * 0x1_0000_0000 / 1_000_000
  }

  function NextNtp(last: uint64, now: uint64): uint64 {
    if now <= last then (last + 1) % 0x1_0000_0000_0000_0000 else now
  }

  /** The timestamps of successive reports. */
  function Stamps(last: uint64, readings: seq<uint64>): (ts: seq<uint64>)
    ensures |ts| == |readings|
    decreases |readings|
  {
    if readings == [] then [] else [NextNtp(last, readings[0])] + Stamps(NextNtp(last, readings[0]), readings[1..])
  }

  predicate Rising(ts: seq<uint64>) { forall i :: 0 < i < |ts| ==> ts[i - 1] < ts[i] }

  /** No stamp but the last has used up all 64 bits. */
  predicate Unspent(ts: seq<uint64>) { forall i :: 0 <= i < |ts| - 1 ==> ts[i] != NTP_MAX }

  lemma {:induction false} RiseUntilSpent(last: uint64, readings: seq<uint64>)
    requires Unspent([last] + Stamps(last, readings))
    ensures Rising([last] + Stamps(last, readings))
    decreases |readings|
  {
    var ts := [last] + Stamps(last, readings);
    if readings != [] {
      var next := NextNtp(last, readings[0]);
      var us := [next] + Stamps(next, readings[1..]);
      assert ts == [last] + us;
      forall i | 0 <= i < |us| - 1 ensures us[i] != NTP_MAX { assert us[i] == ts[i + 1]; }
      RiseUntilSpent(next, readings[1..]);
      assert ts[0] != NTP_MAX;
      forall i | 0 < i < |ts| ensures ts[i - 1] < ts[i] { if i > 1 { assert us[i - 2] < us[i - 1]; } }
    }
  }

  /** A clock reading as a 64-bit time stamp: seconds since 1900 in the high half, the fraction of a second,
      rounded down, in the low half; and a stamp is the reading unless that would not be later than the last. */
  lemma {:induction false} StampReadsClock(last: uint64, secs: nat, micros: nat)
    requires micros < 1_000_000
    ensures var ntp := ClockNtp(secs, micros);
      ntp / 0x1_0000_0000 == (secs + 2208988800) % 0x1_0000_0000 &&
      ntp % 0x1_0000_0000 * 1_000_000 <= micros * 0x1_0000_0000 < (ntp % 0x1_0000_0000 + 1) * 1_000_000 &&
      (ntp > last ==> NextNtp(last, ntp) == ntp) &&
      (ntp <= last && last < NTP_MAX ==> NextNtp(last, ntp) == last + 1)
  {
    var high, low := (secs + 2208988800) % 0x1_0000_0000, micros * 0x1_0000_0000 / 1_000_000;
    assert low < 0x1_0000_0000;
    assert ClockNtp(secs, micros) == high * 0x1_0000_0000 + low;
  }

  /** Whatever the clock does, timestamps increase until all 64 bits are used up. */
  lemma {:induction false} StampsRise(last: uint64, readings: seq<uint64>)
    ensures Rising([last] + Stamps(last, readings)) <==> Unspent([last] + Stamps(last, readings))
  {
    var ts := [last] + Stamps(last, readings);
    if Unspent(ts) { RiseUntilSpent(last, readings); }
    if Rising(ts) {
      forall i | 0 <= i < |ts| - 1 ensures ts[i] != NTP_MAX { assert ts[i + 1 - 1] < ts[i + 1]; }
    }
  }
}
