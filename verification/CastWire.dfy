/** Packets and reports octet by octet: what the receiver takes from which place of an RTP packet, and what
    stands where in the RTCP reports it sends. */
module CastWire {
  import opened Bytes
  import opened CastPacket
  import opened CastNack
  import opened CastRtcp
  import opened CastReporter
  import opened CastHost

  // ---- RTP -------------------------------------------------------------------------------------

  /** The Cast header after the twelve octets of RTP. */
  lemma {:induction false} RtpFromWire(d: seq<byte>)
    requires |d| >= 18
    ensures ParseRtp(d).Some? ==>
      var p := ParseRtp(d).value;
      (p.keyFrame <==> d[12] / 128 == 1) && p.frameId8 == d[13] && p.packetId == Be16(d, 14) && p.maxPacketId == Be16(d, 16) &&
      (d[12] % 64 == 0 ==> p.chunk == d[if d[12] / 64 % 2 == 1 && |d| > 18 then 19 else 18..])
    ensures d[12] % 64 == 0 && (d[12] / 64 % 2 == 1 ==> |d| > 18) ==>
      (ParseRtp(d).Some? <==> Be16(d, 14) <= Be16(d, 16) < 65535)
  {
  }

  /** An extension: six bits of type, ten bits of length, then as many octets. */
  lemma {:induction false} ExtensionFromWire(d: seq<byte>, off: nat, count: nat)
    requires count > 0
    ensures SkipExtensions(d, off, count) ==
            if off + 2 > |d| then None else SkipExtensions(d, off + 2 + (d[off] as int % 4 * 256 + d[off + 1]), count - 1)
  {
  }

  // ---- Decryption ------------------------------------------------------------------------------

  /** Bit `k` of a number. */
  function Bit(a: nat, k: nat): nat { if k == 0 then a % 2 else Bit(a / 2, k - 1) }

  lemma {:induction false} XorBitAt(a: nat, b: nat, n: nat, k: nat)
    requires k < n
    ensures Bit(XorBits(a, b, n), k) == if Bit(a, k) == Bit(b, k) then 0 else 1
    decreases k
  {
    var y := XorBits(a / 2, b / 2, n - 1);
    XorBit(a, b, y);
    if k > 0 { XorBitAt(a / 2, b / 2, n - 1, k - 1); }
  }

  /** Exclusive or, bit by bit. */
  lemma {:induction false} XorIsBitwise(a: byte, b: byte, k: nat)
    requires k < 8
    ensures Bit(XorByte(a, b), k) == if Bit(a, k) == Bit(b, k) then 0 else 1
  {
    XorBitAt(a, b, 8, k);
  }

  lemma {:induction false} XorAllAt(a: seq<byte>, b: seq<byte>, i: nat)
    requires |a| == |b| && i < |a|
    ensures XorAll(a, b)[i] == XorByte(a[i], b[i])
  {
    if i > 0 { XorAllAt(a[1..], b[1..], i - 1); }
  }

  /** The initialisation vector is the mask with the frame number, most significant octet first, combined into
      octets 8 to 11. */
  lemma {:induction false} IvOctets(mask: seq<byte>, id: int, i: nat)
    requires |mask| == 16 && i < 16
    ensures |FrameIv(mask, id)| == 16
    ensures FrameIv(mask, id)[i] == XorByte(mask[i], if i == 8 then id / 0x100_0000 % 0x100
                                                     else if i == 9 then id / 0x1_0000 % 0x100
                                                     else if i == 10 then id / 0x100 % 0x100
                                                     else if i == 11 then id % 0x100
                                                     else 0)
  {
    var number := [0, 0, 0, 0, 0, 0, 0, 0] + Put32(id % 0x1_0000_0000) + [0, 0, 0, 0];
    XorAllAt(mask, number, i);
    NumberOctets(id);
  }

  lemma {:induction false} OctetsOf(a: byte, b: byte, c: byte, d: byte)
    ensures Put32(((a * 256 + b) * 256 + c) * 256 + d) == [a, b, c, d]
  {
    var r: uint32 := ((a * 256 + b) * 256 + c) * 256 + d;
    assert r / 0x1_0000 == a * 256 + b && r % 0x1_0000 == c * 256 + d;
  }

  lemma {:induction false} TwoOctetsOff(n: int, q: int, r: int)
    requires n == q * 0x1_0000 + r && 0 <= r < 0x1_0000
    ensures n / 0x1_0000 == q && n % 0x1_0000 == r
  {
  }

  lemma {:induction false} ThreeOctetsOff(n: int, q: int, r: int)
    requires n == q * 0x100_0000 + r && 0 <= r < 0x100_0000
    ensures n / 0x100_0000 == q && n % 0x100_0000 == r
  {
  }

  lemma {:induction false} FourOctetsOff(n: int, q: int, r: int)
    requires n == q * 0x1_0000_0000 + r && 0 <= r < 0x1_0000_0000
    ensures n / 0x1_0000_0000 == q && n % 0x1_0000_0000 == r
  {
  }

  lemma {:induction false} NumberOctets(id: int)
    ensures Put32(id % 0x1_0000_0000) == [id / 0x100_0000 % 0x100, id / 0x1_0000 % 0x100, id / 0x100 % 0x100, id % 0x100]
  {
    var d, u := id % 256, id / 256;
    var c, v := u % 256, u / 256;
    var b, w := v % 256, v / 256;
    var a, q := w % 256, w / 256;
    assert id == u * 256 + d && u == v * 256 + c && v == w * 256 + b && w == q * 256 + a;
    TwoOctetsOff(id, v, c * 256 + d);
    ThreeOctetsOff(id, w, (b * 256 + c) * 256 + d);
    FourOctetsOff(id, q, ((a * 256 + b) * 256 + c) * 256 + d);
    OctetsOf(a, b, c, d);
  }

  /** Octet `i` of a frame is combined with octet `i` of the keystream. */
  lemma {:induction false} CryptFromAt(c: Cipher, iv: seq<byte>, data: seq<byte>, from: nat, i: nat)
    requires i < |data|
    ensures |CryptFrom(c, iv, data, from)| == |data|
    ensures CryptFrom(c, iv, data, from)[i] == XorByte(data[i], c.stream(iv, from + i))
    decreases |data|
  {
    CryptLength(c, iv, data, from);
    if i > 0 { CryptFromAt(c, iv, data[1..], from + 1, i - 1); }
  }

  lemma {:induction false} CryptLength(c: Cipher, iv: seq<byte>, data: seq<byte>, from: nat)
    ensures |CryptFrom(c, iv, data, from)| == |data|
    decreases |data|
  {
    if data != [] { CryptLength(c, iv, data[1..], from + 1); }
  }

  lemma {:induction false} CryptOctets(c: Cipher, id: int, data: seq<byte>, i: nat)
    requires |c.mask| == 16 && i < |data|
    ensures |Crypt(c, id, data)| == |data| && Crypt(c, id, data)[i] == XorByte(data[i], c.stream(FrameIv(c.mask, id), i))
  {
    CryptFromAt(c, FrameIv(c.mask, id), data, 0, i);
  }

  // ---- RTCP ------------------------------------------------------------------------------------

  /** Sub-packet header: version 2 and a count, type, and length in words less one. */
  predicate PacketAt(d: seq<byte>, p: nat, first: byte, kind: byte, words: nat) {
    p + 4 + 4 * words <= |d| && d[p] == first && d[p + 1] == kind && Be16(d, p + 2) == words
  }

  predicate NumAt(d: seq<byte>, p: nat, v: int) { p + 4 <= |d| && Be32(d, p) == v }

  /** The part on reception; it has a block about the sender exactly if one of its reports has been seen. */
  predicate ReceiverReportAt(d: seq<byte>, p: nat, r: Report) {
    match r.sr
    case None => PacketAt(d, p, 0x80, 201, 1) && NumAt(d, p + 4, r.rx)
    case Some(sr) =>
      PacketAt(d, p, 0x81, 201, 7) && NumAt(d, p + 4, r.rx) && NumAt(d, p + 8, r.tx) && NumAt(d, p + 12, 0) &&
      NumAt(d, p + 16, r.extendedSeq) && NumAt(d, p + 20, 0) && NumAt(d, p + 24, sr.middle) && NumAt(d, p + 28, sr.delay)
  }

  /** An extended report with one reference time block. */
  predicate ReferenceTimeAt(d: seq<byte>, p: nat, r: Report) {
    PacketAt(d, p, 0x80, 207, 4) && NumAt(d, p + 4, r.rx) && d[p + 8] == 4 && d[p + 9] == 0 && Be16(d, p + 10) == 2 &&
    NumAt(d, p + 12, r.ntp / 0x1_0000_0000) && NumAt(d, p + 16, r.ntp % 0x1_0000_0000)
  }

  predicate PictureLossAt(d: seq<byte>, p: nat, r: Report) {
    PacketAt(d, p, 0x81, 206, 2) && NumAt(d, p + 4, r.rx) && NumAt(d, p + 8, r.tx)
  }

  predicate LossAt(d: seq<byte>, p: nat, l: Loss) {
    p + 4 <= |d| && d[p] == l.frame && Be16(d, p + 1) == l.packet && d[p + 3] == l.bits
  }

  /** Cast feedback: "CAST", the checkpoint byte, the number of losses, the delay, the losses of four octets
      each, "CST2", the count and two octets of acknowledgements. */
  predicate FeedbackAt(d: seq<byte>, p: nat, r: Report) {
    var n := |r.losses|;
    PacketAt(d, p, 0x8F, 206, 6 + n) && NumAt(d, p + 4, r.rx) && NumAt(d, p + 8, r.tx) && NumAt(d, p + 12, 0x43415354) &&
    d[p + 16] == r.checkpoint8 && d[p + 17] as int == n && Be16(d, p + 18) == r.targetDelay &&
    (forall i :: 0 <= i < n ==> LossAt(d, p + 20 + 4 * i, r.losses[i])) &&
    NumAt(d, p + 20 + 4 * n, 0x43535432) && d[p + 24 + 4 * n] == r.count && d[p + 25 + 4 * n] == 2 &&
    d[p + 26 + 4 * n..p + 28 + 4 * n] == r.acks
  }

  lemma {:induction false} SubPacketAt(d: seq<byte>, p: nat, first: byte, kind: byte, body: seq<byte>)
    requires |body| < 0x4_0000 && |body| % 4 == 0 && At(d, p, SubPacket(first, kind, body))
    ensures PacketAt(d, p, first, kind, |body| / 4) && At(d, p + 4, body)
  {
    AtSplit(d, p, [first, kind] + Put16(|body| / 4), body);
    AtSplit(d, p, [first, kind], Put16(|body| / 4));
    AtByte(d, p, [first, kind], 0);
    AtByte(d, p, [first, kind], 1);
    ReadBack16(d, p + 2, |body| / 4);
  }

  lemma {:induction false} WordAt(d: seq<byte>, p: nat, ws: seq<uint32>, i: nat)
    requires At(d, p, Words(ws)) && i < |ws|
    ensures NumAt(d, p + 4 * i, ws[i])
  {
    ReadsWord(d, p, ws, i);
  }

  lemma {:induction false} ReceiverReportStands(d: seq<byte>, p: nat, r: Report)
    requires At(d, p, ReceiverReport(r))
    ensures ReceiverReportAt(d, p, r)
  {
    var ws := ReportWords(r);
    SubPacketAt(d, p, if r.sr.Some? then 0x81 else 0x80, 201, Words(ws));
    WordAt(d, p + 4, ws, 0);
    if r.sr.Some? {
      WordAt(d, p + 4, ws, 1);
      WordAt(d, p + 4, ws, 2);
      WordAt(d, p + 4, ws, 3);
      WordAt(d, p + 4, ws, 4);
      WordAt(d, p + 4, ws, 5);
      WordAt(d, p + 4, ws, 6);
    }
  }

  lemma {:induction false} ReferenceTimeStands(d: seq<byte>, p: nat, r: Report)
    requires At(d, p, ExtendedReport(r))
    ensures ReferenceTimeAt(d, p, r)
  {
    var ws: seq<uint32> := [r.rx, 0x04000002];
    SubPacketAt(d, p, 0x80, 207, Words(ws) + Put64(r.ntp));
    AtSplit(d, p + 4, Words(ws), Put64(r.ntp));
    WordAt(d, p + 4, ws, 0);
    WordAt(d, p + 4, ws, 1);
    var high, low := Put32(r.ntp / 0x1_0000_0000), Put32(r.ntp % 0x1_0000_0000);
    AtSplit(d, p + 12, high, low);
    ReadBack32(d, p + 12, r.ntp / 0x1_0000_0000);
    ReadBack32(d, p + 16, r.ntp % 0x1_0000_0000);
  }

  lemma {:induction false} PictureLossStands(d: seq<byte>, p: nat, r: Report)
    requires At(d, p, PictureLoss(r))
    ensures PictureLossAt(d, p, r)
  {
    var ws: seq<uint32> := [r.rx, r.tx];
    SubPacketAt(d, p, 0x81, 206, Words(ws));
    WordAt(d, p + 4, ws, 0);
    WordAt(d, p + 4, ws, 1);
  }

  lemma {:induction false} LossesStand(d: seq<byte>, p: nat, ls: seq<Loss>, i: nat)
    requires At(d, p, PutLosses(ls)) && i < |ls|
    ensures LossAt(d, p + 4 * i, ls[i])
    decreases i
  {
    AtSplit(d, p, PutLoss(ls[0]), PutLosses(ls[1..]));
    if i == 0 { ReadsLoss(d, p, ls[0]); } else { LossesStand(d, p + 4, ls[1..], i - 1); }
  }

  lemma {:induction false} TailStands(d: seq<byte>, p: nat, r: Report)
    requires |r.acks| == 2 && At(d, p, Tail(r))
    ensures NumAt(d, p, 0x43535432) && p + 8 <= |d| && d[p + 4] == r.count && d[p + 5] == 2 && d[p + 6..p + 8] == r.acks
  {
    var rest := [r.count, 2] + r.acks;
    AtSplit(d, p, Put32(CST2_FOUR_CC), rest);
    ReadBack32(d, p, CST2_FOUR_CC);
    AtSlice(d, p + 4, rest);
    assert d[p + 4] == rest[0] && d[p + 5] == rest[1] && d[p + 6] == rest[2] && d[p + 7] == rest[3];
  }

  lemma {:induction false} FeedbackStands(d: seq<byte>, p: nat, r: Report)
    requires ReportOk(r) && At(d, p, Feedback(r))
    ensures FeedbackAt(d, p, r)
  {
    var ws: seq<uint32>, after := [r.rx, r.tx, CAST_FOUR_CC], PutLosses(r.losses) + Tail(r);
    SubPacketAt(d, p, 0x8F, 206, FeedbackBody(r));
    AtSplit(d, p + 4, Words(ws), Counts(r) + after);
    WordAt(d, p + 4, ws, 0);
    WordAt(d, p + 4, ws, 1);
    WordAt(d, p + 4, ws, 2);
    AtSplit(d, p + 16, Counts(r), after);
    ReadsCounts(d, p + 16, r);
    AtSplit(d, p + 20, PutLosses(r.losses), Tail(r));
    forall i | 0 <= i < |r.losses| ensures LossAt(d, p + 20 + 4 * i, r.losses[i]) { LossesStand(d, p + 20, r.losses, i); }
    TailStands(d, p + 20 + 4 * |r.losses|, r);
  }

  lemma {:induction false} PartSizes(r: Report)
    requires ReportOk(r)
    ensures |ReceiverReport(r)| == (if r.sr.Some? then 32 else 8) && |ExtendedReport(r)| == 20 && |PictureLoss(r)| == 12
    ensures |Feedback(r)| == 28 + 4 * |r.losses|
  {
  }

  /** `d` is the parts of the report, `lost` being nothing or the picture loss indication. */
  lemma {:induction false} PartsStand(d: seq<byte>, r: Report, lost: seq<byte>)
    requires ReportOk(r) && (r.pli ==> lost == PictureLoss(r))
    requires d == ReceiverReport(r) + ExtendedReport(r) + lost + Feedback(r)
    ensures var a := if r.sr.Some? then 32 else 8;
      |d| == a + 48 + |lost| + 4 * |r.losses| && ReceiverReportAt(d, 0, r) && ReferenceTimeAt(d, a, r) &&
      (r.pli ==> PictureLossAt(d, a + 20, r)) && FeedbackAt(d, a + 20 + |lost|, r)
  {
    var a := if r.sr.Some? then 32 else 8;
    PartSizes(r);
    FourStand(ReceiverReport(r), ExtendedReport(r), lost, Feedback(r));
    ReceiverReportStands(d, 0, r);
    ReferenceTimeStands(d, a, r);
    if r.pli { PictureLossStands(d, a + 20, r); }
    FeedbackStands(d, a + 20 + |lost|, r);
  }

  lemma {:induction false} CompoundIs(r: Report)
    requires ReportOk(r)
    ensures Compound(r) == ReceiverReport(r) + ExtendedReport(r) + (if r.pli then PictureLoss(r) else []) + Feedback(r)
  {
    JoinParts(r, ReceiverReport(r), ExtendedReport(r), Feedback(r));
    assert [] + ReceiverReport(r) == ReceiverReport(r);
    assert ReceiverReport(r) + ExtendedReport(r) + [] == ReceiverReport(r) + ExtendedReport(r);
  }

  /** A report from its first octet to its last. */
  lemma {:induction false} ReportOnWire(r: Report)
    requires ReportOk(r)
    ensures var d, a := Compound(r), if r.sr.Some? then 32 else 8;
      var b := if r.pli then a + 32 else a + 20;
      |d| == b + 28 + 4 * |r.losses| && ReceiverReportAt(d, 0, r) && ReferenceTimeAt(d, a, r) &&
      (r.pli ==> PictureLossAt(d, a + 20, r)) && FeedbackAt(d, b, r)
  {
    CompoundIs(r);
    PartSizes(r);
    PartsStand(Compound(r), r, if r.pli then PictureLoss(r) else []);
  }

  lemma {:induction false} FourStand(a: seq<byte>, b: seq<byte>, c: seq<byte>, e: seq<byte>)
    ensures var d := a + b + c + e; At(d, 0, a) && At(d, |a|, b) && At(d, |a| + |b|, c) && At(d, |a| + |b| + |c|, e)
  {
  }

  /** The time since the last sender report, in units of 1/65536 s. */
  lemma {:induction false} DelayIs(middle: uint32, arrival: nat, now: nat)
    requires now >= arrival
    ensures SrInfoAt(Some((middle, arrival)), now) ==
            Some(SrInfo(middle, (now - arrival) * 65536 % 0x1_0000_0000_0000_0000 / 1_000_000 % 0x1_0000_0000))
  {
  }

  /** What the report on a stream is made from. */
  lemma {:induction false} ReportIsOn(s: S.Stream, rx: uint32, tx: uint32, sr: Option<SrInfo>, ntp: uint64, count: byte,
                                      r: Report)
    requires S.StreamOk(s) && r == ReportOf(s, rx, tx, sr, ntp, count)
    ensures r.rx == rx && r.tx == tx && r.sr == sr && r.ntp == ntp && r.pli == s.pliPending && r.count == count
    ensures r.checkpoint8 == s.checkpoint % 256
    ensures r.targetDelay == if s.targetDelayMs < 1 then 1 else s.targetDelayMs % 65536
    ensures sr.Some? ==> r.extendedSeq == s.seqCycles % 65536 * 65536 + s.maxSeq
  {
  }

  lemma {:induction false} MiddleOf(p: seq<byte>)
    requires |p| >= 16
    ensures Be32(p, 10) == Be32(p, 8) % 65536 * 65536 + Be32(p, 12) / 65536
  {
    LowHalf(Be16(p, 8), Be16(p, 10));
    LowHalf(Be16(p, 12), Be16(p, 14));
  }

  lemma {:induction false} LowHalf(a: uint16, b: uint16)
    ensures (a * 65536 + b) % 65536 == b && (a * 65536 + b) / 65536 == a
  {
  }

  /** What is noted of a sender report: its source, and of its time stamp the low half of the seconds and the
      high half of the fraction. */
  lemma {:induction false} SenderReportFromWire(p: seq<byte>)
    requires |p| >= 16
    ensures ReportIn(p) ==
            if |p| >= 28 && p[1] == 200 then [SenderReport(Be32(p, 4), Be32(p, 8) % 65536 * 65536 + Be32(p, 12) / 65536)] else []
  {
    MiddleOf(p);
  }

  // ---- One port for both -----------------------------------------------------------------------

  /** No datagram passes for both kinds. */
  lemma {:induction false} KindsAreApart(d: seq<byte>)
    ensures !(LooksLikeRtp(d) && LooksLikeRtcp(d))
  {
  }

  /** RTP of version 2 without padding, extension or sources, and with one of the payload types of Cast, marked or
      not, is taken for RTP if it is long enough; what has a type of RTCP, for RTCP. */
  lemma {:induction false} KindsByOctets(d: seq<byte>)
    requires |d| >= 18
    ensures LooksLikeRtp(d) <==> d[0] == 128 && (96 <= d[1] <= 104 || d[1] == 127 || 224 <= d[1] <= 232 || d[1] == 255)
    ensures LooksLikeRtcp(d) <==> 128 <= d[0] < 160 && 200 <= d[1] <= 207
  {
  }

  /** A report of ours would be taken for RTCP. */
  lemma {:induction false} ReportLooksLikeRtcp(r: Report)
    requires ReportOk(r)
    ensures LooksLikeRtcp(Compound(r))
  {
    ReportOnWire(r);
  }
}
