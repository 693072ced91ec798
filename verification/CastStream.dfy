/** One Cast stream's reassembly state and what packets and timer ticks do to it. */
module CastStream {
  import opened Bytes
  import opened CastPacket

  const MAX_FRAMES_AHEAD := 120
  const MIN_STALL_MS := 250

  /** A frame whose packets are still coming in. */
  datatype Pending = Pending(maxPacketId: nat, chunks: seq<seq<byte>>, have: seq<bool>, received: nat, keyFrame: bool)

  datatype Frame = Frame(id: int, data: seq<byte>, keyFrame: bool)

  datatype Stream = Stream(video: bool, targetDelayMs: int, cipher: Cipher, highest: int, checkpoint: int,
                           frames: map<int, Pending>, stalledSince: Option<int>, haveSeq: bool, maxSeq: uint16,
                           seqCycles: uint32, pliPending: bool, delivered: seq<Frame>)

  function NewStream(video: bool, targetDelayMs: int, cipher: Cipher): Stream {
    Stream(video, targetDelayMs, cipher, 0, -1, map[], None, false, 0, 0, false, [])
  }

  predicate Complete(f: Pending) { f.received == f.maxPacketId + 1 }

  function FreshPending(maxPacketId: nat): Pending {
    Pending(maxPacketId, seq(maxPacketId + 1, i => []), seq(maxPacketId + 1, i => false), 0, false)
  }

  // ---- Sequence numbers ------------------------------------------------------------------------

  function TrackSeq(s: Stream, seqNo: uint16): Stream {
    if !s.haveSeq then s.(haveSeq := true, maxSeq := seqNo)
    else if (seqNo - s.maxSeq) % 0x1_0000 < 0x8000 then
      s.(seqCycles := if seqNo < s.maxSeq then (s.seqCycles + 1) % 0x1_0000_0000 else s.seqCycles, maxSeq := seqNo)
    else s
  }

  /** The 32-bit field of a receiver report. */
  function ExtendedSeq(s: Stream): uint32 { s.seqCycles % 0x1_0000 * 0x1_0000 + s.maxSeq }

  // ---- Packets ---------------------------------------------------------------------------------

  /** Stores one packet in its frame; a duplicate only refreshes the key flag. */
  function Store(f: Pending, p: Rtp): Pending
    requires p.packetId < |f.have| == |f.chunks|
  {
    var g := if p.packetId == 0 then f.(keyFrame := p.keyFrame) else f;
    if f.have[p.packetId] then g
    else g.(have := f.have[p.packetId := true], chunks := f.chunks[p.packetId := p.chunk], received := f.received + 1)
  }

  predicate Ready(s: Stream) { s.checkpoint + 1 in s.frames && Complete(s.frames[s.checkpoint + 1]) }

  /** Hands over frame checkpoint + 1. */
  function DeliverOne(s: Stream): Stream
    requires Ready(s) && |s.cipher.mask| == 16
  {
    var id := s.checkpoint + 1;
    var f := s.frames[id];
    s.(delivered := s.delivered + [Frame(id, Crypt(s.cipher, id, Concat(f.chunks)), f.keyFrame)],
       pliPending := s.pliPending && !f.keyFrame, checkpoint := id, frames := s.frames - {id}, stalledSince := None)
  }

  /** deliverReadyFrames: as many consecutive complete frames as there are. */
  function DeliverReady(s: Stream): Stream
    requires |s.cipher.mask| == 16
    decreases |s.frames|
  {
    if Ready(s) then
      assert |(s.frames - {s.checkpoint + 1}).Keys| < |s.frames.Keys| by {
        assert (s.frames - {s.checkpoint + 1}).Keys == s.frames.Keys - {s.checkpoint + 1};
      }
      DeliverReady(DeliverOne(s))
    else s
  }

  predicate InWindow(s: Stream, id: int) { s.checkpoint < id <= s.checkpoint + MAX_FRAMES_AHEAD }

  /** The state once a packet is in, before any delivery. */
  function Stored(s: Stream, f: Pending, p: Rtp, id: int): Stream
    requires p.packetId < |f.have| == |f.chunks|
  {
    s.(highest := Max(s.highest, id), frames := s.frames[id := Store(f, p)])
  }

  /** A packet whose frame is in the window. */
  function AcceptPacket(s: Stream, p: Rtp, id: int): Stream
    requires |s.cipher.mask| == 16 && p.packetId <= p.maxPacketId
    requires forall k :: k in s.frames ==> |s.frames[k].have| == |s.frames[k].chunks| == s.frames[k].maxPacketId + 1
  {
    var f := if id in s.frames then s.frames[id] else FreshPending(p.maxPacketId);
    if f.maxPacketId != p.maxPacketId then s.(highest := Max(s.highest, id))
    else
      var s2 := Stored(s, f, p, id);
      if !f.have[p.packetId] && Complete(s2.frames[id]) && id == s.checkpoint + 1 then DeliverReady(s2) else s2
  }

  function HandlePacket(s: Stream, p: Rtp): Stream
    requires StreamOk(s) && p.packetId <= p.maxPacketId
  {
    var id := ExpandFrameId(s.highest, p.frameId8);
    if InWindow(s, id) then AcceptPacket(s, p, id) else s
  }

  function HandleRtp(s: Stream, d: seq<byte>): Stream
    requires StreamOk(s) && |d| >= RTP_MIN_SIZE
  {
    var s1 := TrackSeq(s, Be16(d, 2));
    match ParseRtp(d)
    case None => s1
    case Some(p) => HandlePacket(s1, p)
  }

  // ---- Stalls ----------------------------------------------------------------------------------

  predicate Blocked(s: Stream) { s.frames != map[] && !Ready(s) && s.highest > s.checkpoint + 1 }

  /** Audio may resume at any complete frame, video only at a key frame. */
  predicate Resumable(s: Stream, id: int) {
    id in s.frames && Complete(s.frames[id]) && (!s.video || s.frames[id].keyFrame)
  }

  predicate FirstResumable(s: Stream, id: int) {
    Resumable(s, id) && forall k :: k in s.frames && k < id ==> !Resumable(s, k)
  }

  /** In microseconds, as all times here are. */
  function StallLimit(s: Stream): int { 1000 * Max(s.targetDelayMs, MIN_STALL_MS) }

  /** The lowest resumable frame from `from` up to the last one received, if any. */
  function FindResume(s: Stream, from: int): Option<int>
    decreases s.highest - from
  {
    if from > s.highest then None else if Resumable(s, from) then Some(from) else FindResume(s, from + 1)
  }

  function DropBelow(s: Stream, id: int): Stream {
    s.(frames := map k | k in s.frames && k >= id :: s.frames[k], checkpoint := id - 1)
  }

  /** skipStalledFrames. */
  function SkipStalled(s: Stream, now: int): Stream
    requires |s.cipher.mask| == 16
  {
    if !Blocked(s) then s.(stalledSince := None)
    else if s.stalledSince.None? then s.(stalledSince := Some(now))
    else if now - s.stalledSince.value < StallLimit(s) then s
    else
      match FindResume(s, s.checkpoint + 1)
      case Some(id) => DeliverReady(DropBelow(s, id))
      case None => if s.video then s.(pliPending := true) else s
  }

  // ---- The invariant ---------------------------------------------------------------------------

  function CountTrue(bs: seq<bool>): nat { if bs == [] then 0 else (if bs[0] then 1 else 0) + CountTrue(bs[1..]) }

  predicate PendingOk(f: Pending) {
    f.maxPacketId < 0xFFFF && |f.have| == |f.chunks| == f.maxPacketId + 1 && f.received == CountTrue(f.have)
  }

  predicate StreamOk(s: Stream) {
    |s.cipher.mask| == 16 && -1 <= s.checkpoint <= s.highest <= s.checkpoint + MAX_FRAMES_AHEAD && 0 <= s.highest &&
    (forall k :: k in s.frames ==> InWindow(s, k) && k <= s.highest && PendingOk(s.frames[k])) && !Ready(s)
  }

  lemma {:induction false} CountBounds(bs: seq<bool>)
    ensures CountTrue(bs) <= |bs|
    ensures CountTrue(bs) == |bs| ==> forall i :: 0 <= i < |bs| ==> bs[i]
  {
    if bs != [] {
      CountBounds(bs[1..]);
      if CountTrue(bs) == |bs| {
        forall i | 0 <= i < |bs| ensures bs[i] { if i > 0 { assert bs[i] == bs[1..][i - 1]; } }
      }
    }
  }

  lemma {:induction false} AllTrueCount(bs: seq<bool>)
    requires forall i :: 0 <= i < |bs| ==> bs[i]
    ensures CountTrue(bs) == |bs|
  {
    if bs != [] { AllTrueCount(bs[1..]); }
  }

  lemma {:induction false} CountSet(bs: seq<bool>, i: nat)
    requires i < |bs| && !bs[i]
    ensures CountTrue(bs[i := true]) == CountTrue(bs) + 1
  {
    if i == 0 {
      assert bs[i := true][1..] == bs[1..];
    } else {
      assert bs[i := true][1..] == bs[1..][i - 1 := true];
      CountSet(bs[1..], i - 1);
    }
  }

  lemma {:induction false} CountNone(n: nat)
    ensures CountTrue(seq(n, i => false)) == 0
  {
    if n > 0 {
      CountNone(n - 1);
      assert seq(n, i => false)[1..] == seq(n - 1, i => false);
    }
  }

  lemma {:induction false} StoreKeeps(f: Pending, p: Rtp)
    requires PendingOk(f) && p.packetId <= f.maxPacketId
    ensures PendingOk(Store(f, p))
  {
    if !f.have[p.packetId] { CountSet(f.have, p.packetId); }
  }

  /** Invariant of the delivery loop: everything but "nothing is ready". */
  predicate AlmostOk(s: Stream) {
    |s.cipher.mask| == 16 && -1 <= s.checkpoint <= s.highest <= s.checkpoint + MAX_FRAMES_AHEAD && 0 <= s.highest &&
    forall k :: k in s.frames ==> InWindow(s, k) && k <= s.highest && PendingOk(s.frames[k])
  }

  lemma {:induction false} DeliverOneKeeps(s: Stream)
    requires AlmostOk(s) && Ready(s)
    ensures AlmostOk(DeliverOne(s)) && |DeliverOne(s).frames| < |s.frames|
  {
    assert (s.frames - {s.checkpoint + 1}).Keys == s.frames.Keys - {s.checkpoint + 1};
    assert |(s.frames - {s.checkpoint + 1}).Keys| < |s.frames.Keys|;
  }

  lemma {:induction false} DeliverReadyKeeps(s: Stream)
    requires AlmostOk(s)
    ensures StreamOk(DeliverReady(s))
    decreases |s.frames|
  {
    if Ready(s) {
      DeliverOneKeeps(s);
      DeliverReadyKeeps(DeliverOne(s));
    }
  }

  /** One turn of the loop; when the stall clock is reset does not matter. */
  lemma {:induction false} DeliverTurn(s: Stream, late: Stream)
    requires AlmostOk(s) && Ready(s) && (late == s || late == s.(stalledSince := None))
    ensures DeliverReady(late) == DeliverReady(DeliverOne(s)) && AlmostOk(DeliverOne(s))
    ensures |DeliverOne(s).frames| < |s.frames|
  {
    DeliverOneKeeps(s);
    assert DeliverOne(late) == DeliverOne(s);
  }

  lemma {:induction false} StoredKeeps(s: Stream, f: Pending, p: Rtp, id: int)
    requires StreamOk(s) && InWindow(s, id) && PendingOk(f) && p.packetId <= p.maxPacketId == f.maxPacketId
    ensures AlmostOk(Stored(s, f, p, id))
  {
    StoreKeeps(f, p);
  }

  lemma {:induction false} AcceptKeeps(s: Stream, p: Rtp, id: int)
    requires StreamOk(s) && InWindow(s, id) && p.packetId <= p.maxPacketId < 0xFFFF
    ensures StreamOk(AcceptPacket(s, p, id))
  {
    var f := if id in s.frames then s.frames[id] else FreshPending(p.maxPacketId);
    CountNone(p.maxPacketId + 1);
    if f.maxPacketId == p.maxPacketId {
      StoredKeeps(s, f, p, id);
      DeliverReadyKeeps(Stored(s, f, p, id));
    }
  }

  lemma {:induction false} HandlePacketKeeps(s: Stream, p: Rtp)
    requires StreamOk(s) && p.packetId <= p.maxPacketId < 0xFFFF
    ensures StreamOk(HandlePacket(s, p))
  {
    var id := ExpandFrameId(s.highest, p.frameId8);
    if InWindow(s, id) { AcceptKeeps(s, p, id); }
  }

  /** No packet, however malformed, breaks the window. */
  lemma {:induction false} HandleRtpKeeps(s: Stream, d: seq<byte>)
    requires StreamOk(s) && |d| >= RTP_MIN_SIZE
    ensures StreamOk(HandleRtp(s, d))
  {
    var parsed := ParseRtp(d);
    if parsed.Some? { HandlePacketKeeps(TrackSeq(s, Be16(d, 2)), parsed.value); }
  }

  lemma {:induction false} FindResumeExact(s: Stream, from: int)
    ensures match FindResume(s, from)
      case Some(id) => from <= id <= s.highest && Resumable(s, id) && forall k :: from <= k < id ==> !Resumable(s, k)
      case None => forall k :: from <= k <= s.highest ==> !Resumable(s, k)
    decreases s.highest - from
  {
    if from <= s.highest && !Resumable(s, from) { FindResumeExact(s, from + 1); }
  }

  lemma {:induction false} DropKeeps(s: Stream, id: int)
    requires StreamOk(s) && s.checkpoint < id <= s.highest && Resumable(s, id)
    ensures AlmostOk(DropBelow(s, id)) && Ready(DropBelow(s, id))
  {
    var u := DropBelow(s, id);
    assert id <= s.checkpoint + MAX_FRAMES_AHEAD && u.frames[id] == s.frames[id];
    forall k | k in u.frames ensures InWindow(u, k) && k <= u.highest && PendingOk(u.frames[k]) {
      assert k in s.frames && InWindow(s, k);
    }
  }

  lemma {:induction false} SkipKeeps(s: Stream, now: int)
    requires StreamOk(s)
    ensures StreamOk(SkipStalled(s, now))
  {
    FindResumeExact(s, s.checkpoint + 1);
    var found := FindResume(s, s.checkpoint + 1);
    if found.Some? {
      DropKeeps(s, found.value);
      DeliverReadyKeeps(DropBelow(s, found.value));
    }
  }
}
