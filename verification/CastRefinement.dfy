/** End to end: what a Cast receiver hands over, against what the sender encrypted, over whole runs of
    an arbitrary network. */
module CastRefinement {
  import opened Bytes
  import opened CastPacket
  import opened CastStream

  // ---- Steps and runs --------------------------------------------------------------------------

  /** A datagram, the 10 ms tick, or the application asking for a key frame, each at its time. */
  datatype Event = Datagram(time: int, data: seq<byte>) | Tick(time: int) | KeyFrameWanted(time: int)

  predicate EventOk(e: Event) { e.Datagram? ==> |e.data| >= RTP_MIN_SIZE }

  predicate EventsOk(es: seq<Event>) { forall i :: 0 <= i < |es| ==> EventOk(es[i]) }

  function Step(s: Stream, e: Event): Stream
    requires StreamOk(s) && EventOk(e)
  {
    match e
    case Datagram(_, data) => HandleRtp(s, data)
    case Tick(now) => SkipStalled(s, now)
    case KeyFrameWanted(_) => if s.video then s.(pliPending := true) else s
  }

  lemma {:induction false} StepKeeps(s: Stream, e: Event)
    requires StreamOk(s) && EventOk(e)
    ensures StreamOk(Step(s, e))
  {
    match e
    case Datagram(_, data) => HandleRtpKeeps(s, data);
    case Tick(now) => SkipKeeps(s, now);
    case KeyFrameWanted(_) =>
  }

  /** The state after `es`, applied from the front. */
  function Run(s: Stream, es: seq<Event>): (r: Stream)
    requires StreamOk(s) && EventsOk(es)
    ensures StreamOk(r)
    decreases |es|
  {
    if es == [] then s
    else
      var s1 := Run(s, es[..|es| - 1]);
      StepKeeps(s1, es[|es| - 1]);
      Step(s1, es[|es| - 1])
  }

  /** The step jumps over frames that never completed. */
  predicate Skips(s: Stream, e: Event)
    requires StreamOk(s)
  {
    e.Tick? && Blocked(s) && s.stalledSince.Some? && e.time - s.stalledSince.value >= StallLimit(s) &&
    FindResume(s, s.checkpoint + 1).Some?
  }

  // ---- What one step delivers ------------------------------------------------------------------

  /** `t` delivers, after `s`, exactly the frames from + 1, from + 2, ... up to its checkpoint. */
  ghost predicate Delivers(s: Stream, from: int, t: Stream) {
    from <= t.checkpoint && |t.delivered| == |s.delivered| + (t.checkpoint - from) &&
    (forall i :: 0 <= i < |s.delivered| ==> t.delivered[i] == s.delivered[i]) &&
    (forall i :: |s.delivered| <= i < |t.delivered| ==> t.delivered[i].id == from + 1 + (i - |s.delivered|)) &&
    (t.checkpoint > from ==> t.stalledSince == None) &&
    t.cipher == s.cipher && t.video == s.video && t.targetDelayMs == s.targetDelayMs
  }

  lemma {:induction false} ReadyDelivers(s: Stream)
    requires AlmostOk(s)
    ensures Delivers(s, s.checkpoint, DeliverReady(s)) && DeliverReady(s).highest == s.highest
    ensures Ready(s) ==> DeliverReady(s).checkpoint > s.checkpoint
    ensures Ready(s) ==> DeliverReady(s).delivered[|s.delivered|].keyFrame == s.frames[s.checkpoint + 1].keyFrame
    ensures !Ready(s) ==> DeliverReady(s) == s
    decreases |s.frames|
  {
    if Ready(s) {
      DeliverOneKeeps(s);
      ReadyDelivers(DeliverOne(s));
    }
  }

  lemma {:induction false} StoredDelivers(s: Stream, p: Rtp, id: int, f: Pending)
    requires StreamOk(s) && InWindow(s, id) && PendingOk(f) && p.packetId <= p.maxPacketId == f.maxPacketId
    ensures var s2 := Stored(s, f, p, id);
      AlmostOk(s2) && Delivers(s, s.checkpoint, s2) && Delivers(s, s.checkpoint, DeliverReady(s2)) &&
      DeliverReady(s2).stalledSince in {s.stalledSince, None}
  {
    StoredKeeps(s, f, p, id);
    ReadyDelivers(Stored(s, f, p, id));
  }

  lemma {:induction false} PacketDelivers(s: Stream, p: Rtp)
    requires StreamOk(s) && p.packetId <= p.maxPacketId < 0xFFFF
    ensures Delivers(s, s.checkpoint, HandlePacket(s, p))
    ensures HandlePacket(s, p).stalledSince in {s.stalledSince, None}
  {
    var id := ExpandFrameId(s.highest, p.frameId8);
    if InWindow(s, id) {
      var f := if id in s.frames then s.frames[id] else FreshPending(p.maxPacketId);
      CountNone(p.maxPacketId + 1);
      if f.maxPacketId == p.maxPacketId { StoredDelivers(s, p, id, f); }
    }
  }

  lemma {:induction false} DatagramDelivers(s: Stream, data: seq<byte>)
    requires StreamOk(s) && |data| >= RTP_MIN_SIZE
    ensures Delivers(s, s.checkpoint, HandleRtp(s, data))
    ensures HandleRtp(s, data).stalledSince in {s.stalledSince, None}
  {
    var parsed := ParseRtp(data);
    if parsed.Some? { PacketDelivers(TrackSeq(s, Be16(data, 2)), parsed.value); }
  }

  /** A skip lands on the lowest frame the receiver holds that can be resumed at: for audio the first
      complete one, for video the first complete key frame. */
  lemma {:induction false} SkipDelivers(s: Stream, e: Event)
    requires StreamOk(s) && EventOk(e) && Skips(s, e)
    ensures var id := FindResume(s, s.checkpoint + 1).value; var t := Step(s, e);
      FirstResumable(s, id) && id > s.checkpoint && Delivers(s, id - 1, t) && t.checkpoint >= id &&
      t.delivered[|s.delivered|].keyFrame == s.frames[id].keyFrame
  {
    var id := FindResume(s, s.checkpoint + 1).value;
    FindResumeExact(s, s.checkpoint + 1);
    DropKeeps(s, id);
    ReadyDelivers(DropBelow(s, id));
  }

  lemma {:induction false} PlainStepDelivers(s: Stream, e: Event)
    requires StreamOk(s) && EventOk(e) && !Skips(s, e)
    ensures Delivers(s, s.checkpoint, Step(s, e))
  {
    if e.Datagram? { DatagramDelivers(s, e.data); }
  }

  // ---- Order, gaps and completeness of the output ----------------------------------------------

  predicate Increasing(fs: seq<Frame>) { forall i, j :: 0 <= i < j < |fs| ==> fs[i].id < fs[j].id }

  /** Between consecutive frames nothing is missing unless the later one is a key frame; likewise
      before the first. */
  predicate NoBrokenGap(fs: seq<Frame>) {
    forall i :: 0 <= i < |fs| ==> fs[i].id == (if i == 0 then 0 else fs[i - 1].id + 1) || fs[i].keyFrame
  }

  predicate OutputOk(s: Stream) {
    Increasing(s.delivered) && s.checkpoint == (if s.delivered == [] then -1 else s.delivered[|s.delivered| - 1].id) &&
    (s.video ==> NoBrokenGap(s.delivered))
  }

  lemma {:induction false} ExtendOutput(s: Stream, from: int, t: Stream)
    requires OutputOk(s) && Delivers(s, from, t) && s.checkpoint <= from && (t.checkpoint == from ==> from == s.checkpoint)
    requires s.video && from > s.checkpoint ==> t.delivered[|s.delivered|].keyFrame
    ensures OutputOk(t)
  {
    forall i, j | 0 <= i < j < |t.delivered| ensures t.delivered[i].id < t.delivered[j].id {
      if i < |s.delivered| {
        assert s.delivered[i].id <= s.checkpoint;
      }
    }
  }

  lemma {:induction false} StepOutput(s: Stream, e: Event)
    requires StreamOk(s) && EventOk(e) && OutputOk(s)
    ensures OutputOk(Step(s, e))
  {
    if Skips(s, e) {
      SkipDelivers(s, e);
      ExtendOutput(s, FindResume(s, s.checkpoint + 1).value - 1, Step(s, e));
    } else {
      PlainStepDelivers(s, e);
      ExtendOutput(s, s.checkpoint, Step(s, e));
    }
  }

  /** Whatever arrives: delivered IDs strictly increase up to the checkpoint, a video stream never
      resumes at anything but a key frame, and no complete frame is left waiting at the front. */
  lemma {:induction false} OutputIsOrdered(video: bool, delay: int, c: Cipher, es: seq<Event>)
    requires |c.mask| == 16 && EventsOk(es)
    ensures var s := Run(NewStream(video, delay, c), es);
      StreamOk(s) && OutputOk(s) && s.video == video && s.cipher == c && s.targetDelayMs == delay
    decreases |es|
  {
    if es != [] {
      var before, e := es[..|es| - 1], es[|es| - 1];
      OutputIsOrdered(video, delay, c, before);
      var s := Run(NewStream(video, delay, c), before);
      StepOutput(s, e);
      if Skips(s, e) { SkipDelivers(s, e); } else { PlainStepDelivers(s, e); }
    }
  }

  predicate NeverSkips(s: Stream, es: seq<Event>)
    requires StreamOk(s) && EventsOk(es)
  {
    forall i :: 0 <= i < |es| ==> !Skips(Run(s, es[..i]), es[i])
  }

  /** The output is frames 0 to checkpoint, all of them. */
  predicate Gapless(s: Stream) {
    |s.delivered| == s.checkpoint + 1 && forall i :: 0 <= i < |s.delivered| ==> s.delivered[i].id == i
  }

  lemma {:induction false} StaysGapless(s: Stream, t: Stream)
    requires Gapless(s) && Delivers(s, s.checkpoint, t)
    ensures Gapless(t)
  {
  }

  lemma {:induction false} NeverSkipped(s: Stream, es: seq<Event>)
    requires StreamOk(s) && EventsOk(es) && es != [] && NeverSkips(s, es)
    ensures var before := es[..|es| - 1]; NeverSkips(s, before) && !Skips(Run(s, before), es[|es| - 1])
  {
    var before := es[..|es| - 1];
    forall i | 0 <= i < |before| ensures !Skips(Run(s, before[..i]), before[i]) { assert before[..i] == es[..i]; }
  }

  /** Without a skip the output is gapless. */
  lemma {:induction false} NothingMissing(s: Stream, es: seq<Event>)
    requires StreamOk(s) && Gapless(s) && EventsOk(es) && NeverSkips(s, es)
    ensures Gapless(Run(s, es))
    decreases |es|
  {
    if es != [] {
      var before, e := es[..|es| - 1], es[|es| - 1];
      NeverSkipped(s, es);
      NothingMissing(s, before);
      PlainStepDelivers(Run(s, before), e);
      StaysGapless(Run(s, before), Step(Run(s, before), e));
    }
  }

  // ---- When frames are skipped -----------------------------------------------------------------

  predicate InTimeOrder(es: seq<Event>) { forall i, j :: 0 <= i < j < |es| ==> es[i].time <= es[j].time }

  /** The checkpoint has stood still since `t`. */
  predicate StillSince(s: Stream, es: seq<Event>, t: int)
    requires StreamOk(s) && EventsOk(es)
  {
    forall i :: 0 <= i < |es| && es[i].time > t ==> Run(s, es[..i]).checkpoint == Run(s, es).checkpoint
  }

  lemma {:induction false} StillLonger(s: Stream, es: seq<Event>, t: int)
    requires StreamOk(s) && EventsOk(es) && es != [] && StillSince(s, es[..|es| - 1], t)
    requires Run(s, es).checkpoint == Run(s, es[..|es| - 1]).checkpoint
    ensures StillSince(s, es, t)
  {
    var before := es[..|es| - 1];
    forall i | 0 <= i < |es| && es[i].time > t ensures Run(s, es[..i]).checkpoint == Run(s, es).checkpoint {
      if i < |before| { assert es[..i] == before[..i] && es[i] == before[i]; }
    }
  }

  lemma {:induction false} StallClock(s: Stream, es: seq<Event>)
    requires StreamOk(s) && EventsOk(es) && InTimeOrder(es) && s.stalledSince.None?
    ensures Run(s, es).stalledSince.Some? ==> StillSince(s, es, Run(s, es).stalledSince.value)
    decreases |es|
  {
    if es != [] && Run(s, es).stalledSince.Some? {
      var before, e := es[..|es| - 1], es[|es| - 1];
      var u, r := Run(s, before), Run(s, es);
      StallClock(s, before);
      ClockStep(u, e);
      if u.stalledSince == r.stalledSince { StillLonger(s, es, r.stalledSince.value); }
    }
  }

  /** While the stall clock runs the checkpoint stands; it starts at the time of the step. */
  lemma {:induction false} ClockStep(s: Stream, e: Event)
    requires StreamOk(s) && EventOk(e) && Step(s, e).stalledSince.Some?
    ensures Step(s, e).checkpoint == s.checkpoint
    ensures Step(s, e).stalledSince == if s.stalledSince.Some? then s.stalledSince else Some(e.time)
  {
    if Skips(s, e) { SkipDelivers(s, e); } else { PlainStepDelivers(s, e); }
    if e.Datagram? { DatagramDelivers(s, e.data); }
  }

  /** Frames are given up only when the checkpoint has not moved for max(targetDelayMs, 250) ms. */
  lemma {:induction false} SkipsOnlyAfterStall(video: bool, delay: int, c: Cipher, es: seq<Event>, e: Event)
    requires |c.mask| == 16 && EventsOk(es) && EventOk(e) && InTimeOrder(es)
    requires Skips(Run(NewStream(video, delay, c), es), e)
    ensures StillSince(NewStream(video, delay, c), es, e.time - 1000 * Max(delay, 250))
  {
    var start := NewStream(video, delay, c);
    OutputIsOrdered(video, delay, c, es);
    StallClock(start, es);
  }

  // ---- Key frame requests ----------------------------------------------------------------------

  /** A key frame has been delivered since the first `from` frames. */
  predicate KeyFrameSince(fs: seq<Frame>, from: nat) { exists i :: from <= i < |fs| && fs[i].keyFrame }

  lemma {:induction false} ReadyPli(s: Stream)
    requires AlmostOk(s)
    ensures var t := DeliverReady(s);
      |t.delivered| >= |s.delivered| && (t.pliPending <==> s.pliPending && !KeyFrameSince(t.delivered, |s.delivered|))
    decreases |s.frames|
  {
    if Ready(s) {
      var u := DeliverOne(s);
      DeliverOneKeeps(s);
      ReadyPli(u);
      ReadyDelivers(u);
      var fs := DeliverReady(u).delivered;
      assert fs[|s.delivered|] == u.delivered[|s.delivered|];
    }
  }

  /** The step asks for a key frame: the application wants one, or video stalls with none to resume at. */
  predicate AsksForKeyFrame(s: Stream, e: Event)
    requires StreamOk(s)
  {
    s.video &&
    (e.KeyFrameWanted? ||
     (e.Tick? && Blocked(s) && s.stalledSince.Some? && e.time - s.stalledSince.value >= StallLimit(s) && !Skips(s, e)))
  }

  lemma {:induction false} PacketPli(s: Stream, p: Rtp)
    requires StreamOk(s) && p.packetId <= p.maxPacketId < 0xFFFF
    ensures var t := HandlePacket(s, p); t.pliPending <==> s.pliPending && !KeyFrameSince(t.delivered, |s.delivered|)
  {
    var id := ExpandFrameId(s.highest, p.frameId8);
    if InWindow(s, id) {
      var f := if id in s.frames then s.frames[id] else FreshPending(p.maxPacketId);
      CountNone(p.maxPacketId + 1);
      if f.maxPacketId == p.maxPacketId {
        StoredKeeps(s, f, p, id);
        ReadyPli(Stored(s, f, p, id));
      }
    }
  }

  /** A request stands until the next key frame is delivered, and no longer. */
  lemma {:induction false} PliStep(s: Stream, e: Event)
    requires StreamOk(s) && EventOk(e)
    ensures var t := Step(s, e);
      t.pliPending <==> (s.pliPending || AsksForKeyFrame(s, e)) && !KeyFrameSince(t.delivered, |s.delivered|)
  {
    match e
    case Datagram(_, data) =>
      var parsed := ParseRtp(data);
      if parsed.Some? { PacketPli(TrackSeq(s, Be16(data, 2)), parsed.value); }
    case Tick(now) =>
      FindResumeExact(s, s.checkpoint + 1);
      if Skips(s, e) {
        var id := FindResume(s, s.checkpoint + 1).value;
        DropKeeps(s, id);
        ReadyPli(DropBelow(s, id));
      }
    case KeyFrameWanted(_) =>
  }

  /** Over any run a request is pending exactly until a key frame has been delivered after it. */
  lemma {:induction false} PliUntilKeyFrame(s: Stream, es: seq<Event>, i: nat)
    requires StreamOk(s) && EventsOk(es) && i <= |es| && Run(s, es[..i]).pliPending
    ensures var from := |Run(s, es[..i]).delivered|;
      |Run(s, es).delivered| >= from && (Run(s, es).pliPending || KeyFrameSince(Run(s, es).delivered, from))
    decreases |es|
  {
    if i == |es| {
      assert es[..i] == es;
    } else {
      var before, e := es[..|es| - 1], es[|es| - 1];
      assert before[..i] == es[..i];
      PliUntilKeyFrame(s, before, i);
      var u := Run(s, before);
      PliStep(u, e);
      if Skips(u, e) { SkipDelivers(u, e); } else { PlainStepDelivers(u, e); }
      KeyFrameStays(u.delivered, Run(s, es).delivered, |Run(s, es[..i]).delivered|);
    }
  }

  lemma {:induction false} KeyFrameStays(fs: seq<Frame>, gs: seq<Frame>, from: nat)
    requires from <= |fs| <= |gs| && forall i :: 0 <= i < |fs| ==> gs[i] == fs[i]
    ensures KeyFrameSince(fs, from) || KeyFrameSince(gs, |fs|) ==> KeyFrameSince(gs, from)
  {
    if KeyFrameSince(fs, from) {
      var i :| from <= i < |fs| && fs[i].keyFrame;
      assert gs[i].keyFrame;
    }
  }

  // ---- The sender ------------------------------------------------------------------------------

  /** A frame as the sender has it: plaintext, key flag, and the ciphertext cut into packets. */
  datatype Sent = Sent(plain: seq<byte>, keyFrame: bool, packets: seq<seq<byte>>)

  predicate SenderOk(c: Cipher, sender: seq<Sent>) {
    |c.mask| == 16 && forall i :: 0 <= i < |sender| ==> SentOk(c, i, sender[i])
  }

  predicate SentOk(c: Cipher, id: int, x: Sent)
    requires |c.mask| == 16
  {
    1 <= |x.packets| <= 0xFFFF && Concat(x.packets) == Crypt(c, id, x.plain)
  }

  /** `p` is one of the packets of frame `id`. */
  predicate FromSender(sender: seq<Sent>, id: int, p: Rtp) {
    0 <= id < |sender| && p.frameId8 == id % 0x100 && p.packetId < |sender[id].packets| == p.maxPacketId + 1 &&
    p.chunk == sender[id].packets[p.packetId] && (p.packetId == 0 ==> p.keyFrame == sender[id].keyFrame)
  }

  /** A packet of some frame near the newest one seen. */
  ghost predicate HonestPacket(sender: seq<Sent>, highest: int, p: Rtp) {
    exists id :: highest - 128 <= id <= highest + 127 && FromSender(sender, id, p)
  }

  ghost predicate HonestDatagram(sender: seq<Sent>, s: Stream, data: seq<byte>)
    requires |data| >= RTP_MIN_SIZE
  {
    ParseRtp(data).None? || HonestPacket(sender, s.highest, ParseRtp(data).value)
  }

  ghost predicate HonestEvent(sender: seq<Sent>, s: Stream, e: Event)
    requires EventOk(e)
  {
    e.Datagram? ==> HonestDatagram(sender, s, e.data)
  }

  /** Packets may be lost, repeated and reordered in any way, as long as each is within the window. */
  ghost predicate HonestRun(sender: seq<Sent>, s: Stream, es: seq<Event>)
    requires StreamOk(s) && EventsOk(es)
  {
    forall i :: 0 <= i < |es| ==> HonestEvent(sender, Run(s, es[..i]), es[i])
  }

  /** What is buffered of a frame is what the sender sent of it. */
  predicate PartOf(f: Pending, x: Sent) {
    |f.have| == |f.chunks| == |x.packets| == f.maxPacketId + 1 &&
    (forall i :: 0 <= i < |x.packets| && f.have[i] ==> f.chunks[i] == x.packets[i]) &&
    (f.have[0] ==> f.keyFrame == x.keyFrame)
  }

  predicate BufferFaithful(sender: seq<Sent>, s: Stream) {
    forall k :: k in s.frames ==> 0 <= k < |sender| && PartOf(s.frames[k], sender[k])
  }

  predicate IsSentFrame(sender: seq<Sent>, f: Frame) {
    0 <= f.id < |sender| && f.data == sender[f.id].plain && f.keyFrame == sender[f.id].keyFrame
  }

  predicate OutputFaithful(sender: seq<Sent>, s: Stream) {
    forall i :: 0 <= i < |s.delivered| ==> IsSentFrame(sender, s.delivered[i])
  }

  predicate Faithful(sender: seq<Sent>, s: Stream) { BufferFaithful(sender, s) && OutputFaithful(sender, s) }

  lemma {:induction false} StorePart(f: Pending, p: Rtp, x: Sent)
    requires PartOf(f, x) && p.packetId < |x.packets| && p.chunk == x.packets[p.packetId]
    requires p.packetId == 0 ==> p.keyFrame == x.keyFrame
    ensures PartOf(Store(f, p), x)
  {
  }

  lemma {:induction false} CompleteIsWhole(f: Pending, x: Sent)
    requires PendingOk(f) && PartOf(f, x) && Complete(f)
    ensures f.chunks == x.packets && f.keyFrame == x.keyFrame
  {
    CountBounds(f.have);
    assert forall i :: 0 <= i < |f.have| ==> f.have[i];
  }

  lemma {:induction false} DeliverOneFaithful(sender: seq<Sent>, s: Stream)
    requires SenderOk(s.cipher, sender) && AlmostOk(s) && Ready(s) && Faithful(sender, s)
    ensures Faithful(sender, DeliverOne(s))
  {
    var id := s.checkpoint + 1;
    CompleteIsWhole(s.frames[id], sender[id]);
    assert SentOk(s.cipher, id, sender[id]);
    CryptTwice(s.cipher, id, sender[id].plain);
  }

  lemma {:induction false} DeliverReadyFaithful(sender: seq<Sent>, s: Stream)
    requires SenderOk(s.cipher, sender) && AlmostOk(s) && Faithful(sender, s)
    ensures Faithful(sender, DeliverReady(s))
    decreases |s.frames|
  {
    if Ready(s) {
      DeliverOneKeeps(s);
      DeliverOneFaithful(sender, s);
      DeliverReadyFaithful(sender, DeliverOne(s));
    }
  }

  lemma {:induction false} AcceptFaithful(sender: seq<Sent>, s: Stream, p: Rtp, id: int)
    requires SenderOk(s.cipher, sender) && StreamOk(s) && Faithful(sender, s)
    requires InWindow(s, id) && p.packetId <= p.maxPacketId < 0xFFFF && FromSender(sender, id, p)
    ensures Faithful(sender, AcceptPacket(s, p, id))
  {
    var f := if id in s.frames then s.frames[id] else FreshPending(p.maxPacketId);
    CountNone(p.maxPacketId + 1);
    StorePart(f, p, sender[id]);
    StoredKeeps(s, f, p, id);
    assert Faithful(sender, Stored(s, f, p, id));
    DeliverReadyFaithful(sender, Stored(s, f, p, id));
  }

  lemma {:induction false} PacketFaithful(sender: seq<Sent>, s: Stream, p: Rtp)
    requires SenderOk(s.cipher, sender) && StreamOk(s) && Faithful(sender, s) && p.packetId <= p.maxPacketId < 0xFFFF
    requires HonestPacket(sender, s.highest, p)
    ensures Faithful(sender, HandlePacket(s, p))
  {
    var id :| s.highest - 128 <= id <= s.highest + 127 && FromSender(sender, id, p);
    ExpandExact(s.highest, id);
    if InWindow(s, id) { AcceptFaithful(sender, s, p, id); }
  }

  lemma {:induction false} TrackedFaithful(sender: seq<Sent>, s: Stream, seqNo: uint16)
    requires StreamOk(s) && Faithful(sender, s)
    ensures var t := TrackSeq(s, seqNo);
      StreamOk(t) && Faithful(sender, t) && t.cipher == s.cipher && t.highest == s.highest
  {
  }

  lemma {:induction false} DatagramFaithful(sender: seq<Sent>, s: Stream, data: seq<byte>)
    requires SenderOk(s.cipher, sender) && StreamOk(s) && Faithful(sender, s) && |data| >= RTP_MIN_SIZE
    requires HonestDatagram(sender, s, data)
    ensures Faithful(sender, HandleRtp(s, data))
  {
    var parsed := ParseRtp(data);
    if parsed.Some? {
      var t := TrackSeq(s, Be16(data, 2));
      TrackedFaithful(sender, s, Be16(data, 2));
      PacketFaithful(sender, t, parsed.value);
    }
  }

  lemma {:induction false} DropFaithful(sender: seq<Sent>, s: Stream, id: int)
    requires Faithful(sender, s)
    ensures Faithful(sender, DropBelow(s, id))
  {
    var u := DropBelow(s, id);
    forall k | k in u.frames ensures 0 <= k < |sender| && PartOf(u.frames[k], sender[k]) { assert k in s.frames; }
  }

  lemma {:induction false} ResumeFaithful(sender: seq<Sent>, s: Stream, id: int)
    requires SenderOk(s.cipher, sender) && StreamOk(s) && Faithful(sender, s)
    requires s.checkpoint < id <= s.highest && Resumable(s, id)
    ensures Faithful(sender, DeliverReady(DropBelow(s, id)))
  {
    DropKeeps(s, id);
    DropFaithful(sender, s, id);
    DeliverReadyFaithful(sender, DropBelow(s, id));
  }

  /** A tick resumes at the frame found or leaves buffer and output alone. */
  lemma {:induction false} SkipOutcomes(s: Stream, now: int, found: Option<int>)
    requires StreamOk(s) && found == FindResume(s, s.checkpoint + 1)
    ensures var t := SkipStalled(s, now);
      (found.Some? && t == DeliverReady(DropBelow(s, found.value))) || (t.frames == s.frames && t.delivered == s.delivered)
  {
  }

  lemma {:induction false} SkipFaithful(sender: seq<Sent>, s: Stream, now: int)
    requires SenderOk(s.cipher, sender) && StreamOk(s) && Faithful(sender, s)
    ensures Faithful(sender, SkipStalled(s, now))
  {
    FindResumeExact(s, s.checkpoint + 1);
    var found := FindResume(s, s.checkpoint + 1);
    if found.Some? { ResumeFaithful(sender, s, found.value); }
    SkipOutcomes(s, now, found);
  }

  lemma {:induction false} StepFaithful(sender: seq<Sent>, s: Stream, e: Event)
    requires SenderOk(s.cipher, sender) && StreamOk(s) && Faithful(sender, s) && EventOk(e) && HonestEvent(sender, s, e)
    ensures Faithful(sender, Step(s, e))
  {
    match e
    case Datagram(_, data) => DatagramFaithful(sender, s, data);
    case Tick(now) => SkipFaithful(sender, s, now);
    case KeyFrameWanted(_) =>
  }

  lemma {:induction false} HonestSoFar(sender: seq<Sent>, s: Stream, es: seq<Event>)
    requires StreamOk(s) && EventsOk(es) && es != [] && HonestRun(sender, s, es)
    ensures var before := es[..|es| - 1]; HonestRun(sender, s, before) && HonestEvent(sender, Run(s, before), es[|es| - 1])
  {
    var before := es[..|es| - 1];
    forall i | 0 <= i < |before| ensures HonestEvent(sender, Run(s, before[..i]), before[i]) { assert before[..i] == es[..i]; }
  }

  /** Under any loss, repetition and reordering every buffered packet is the sender's packet of that
      frame and every delivered frame is the sender's plaintext and key flag. */
  lemma {:induction false} EndToEnd(video: bool, delay: int, c: Cipher, sender: seq<Sent>, es: seq<Event>)
    requires SenderOk(c, sender) && EventsOk(es) && HonestRun(sender, NewStream(video, delay, c), es)
    ensures Faithful(sender, Run(NewStream(video, delay, c), es))
    decreases |es|
  {
    if es != [] {
      var start := NewStream(video, delay, c);
      var before, e := es[..|es| - 1], es[|es| - 1];
      HonestSoFar(sender, start, es);
      EndToEnd(video, delay, c, sender, before);
      OutputIsOrdered(video, delay, c, before);
      StepFaithful(sender, Run(start, before), e);
    }
  }

  /** The packets an honest sender builds are honest datagrams. */
  lemma {:induction false} BuiltIsHonest(sender: seq<Sent>, s: Stream, id: int, p: Rtp, prefix: seq<byte>, refId: Option<byte>,
                                         es: seq<Extension>)
    requires |prefix| == 12 && |es| < 0x40 && ExtensionsOk(es) && p.maxPacketId < 0xFFFF
    requires FromSender(sender, id, p) && s.highest - 128 <= id <= s.highest + 127
    ensures HonestDatagram(sender, s, BuildRtp(prefix, p, refId, es))
  {
    ParseBuilt(prefix, p, refId, es);
  }

  /** Without a skip the output is exactly the sender's first checkpoint + 1 frames. */
  lemma {:induction false} LosslessWithoutSkips(video: bool, delay: int, c: Cipher, sender: seq<Sent>, es: seq<Event>)
    requires SenderOk(c, sender) && EventsOk(es) && HonestRun(sender, NewStream(video, delay, c), es)
    requires NeverSkips(NewStream(video, delay, c), es)
    ensures var s := Run(NewStream(video, delay, c), es);
      s.checkpoint < |sender| &&
      s.delivered == seq(s.checkpoint + 1, i requires 0 <= i < s.checkpoint + 1 => Frame(i, sender[i].plain, sender[i].keyFrame))
  {
    EndToEnd(video, delay, c, sender, es);
    NothingMissing(NewStream(video, delay, c), es);
    var s := Run(NewStream(video, delay, c), es);
    assert forall i :: 0 <= i < |s.delivered| ==> IsSentFrame(sender, s.delivered[i]) && s.delivered[i].id == i;
    if s.checkpoint >= 0 { assert IsSentFrame(sender, s.delivered[s.checkpoint]); }
  }

  // ---- Sequence numbers ------------------------------------------------------------------------

  /** True packet numbers as they arrive, each close enough to the largest so far. */
  predicate Trackable(ns: seq<nat>) {
    forall i :: 0 < i < |ns| ==> Largest(ns[..i]) - 0x8000 <= ns[i] <= Largest(ns[..i]) + 0x7FFF
  }

  function Largest(ns: seq<nat>): nat
    requires ns != []
  {
    if |ns| == 1 then ns[0] else Max(ns[|ns| - 1], Largest(ns[..|ns| - 1]))
  }

  function TrackAll(s: Stream, ns: seq<nat>): Stream
    decreases |ns|
  {
    if ns == [] then s else TrackSeq(TrackAll(s, ns[..|ns| - 1]), ns[|ns| - 1] % 0x1_0000)
  }

  /** Forward by less than half the range: at most one wrap. */
  lemma {:induction false} Forward(m: nat, n: nat)
    requires m <= n <= m + 0x7FFF
    ensures (n % 0x1_0000 - m % 0x1_0000) % 0x1_0000 < 0x8000
    ensures n / 0x1_0000 == m / 0x1_0000 + if n % 0x1_0000 < m % 0x1_0000 then 1 else 0
  {
    var a, b := m / 0x1_0000, n / 0x1_0000;
    assert m == a * 0x1_0000 + m % 0x1_0000 && n == b * 0x1_0000 + n % 0x1_0000;
    assert b == a || b == a + 1;
  }

  lemma {:induction false} Backward(m: nat, n: nat)
    requires m - 0x8000 <= n < m
    ensures (n % 0x1_0000 - m % 0x1_0000) % 0x1_0000 >= 0x8000
  {
    var a, b := m / 0x1_0000, n / 0x1_0000;
    assert m == a * 0x1_0000 + m % 0x1_0000 && n == b * 0x1_0000 + n % 0x1_0000;
    assert b == a || b == a - 1;
  }

  lemma {:induction false} NextCycle(c: nat)
    ensures (c % 0x1_0000_0000 + 1) % 0x1_0000_0000 == (c + 1) % 0x1_0000_0000
  {
  }

  lemma {:induction false} TrackOne(s: Stream, m: nat, n: nat)
    requires s.haveSeq && s.maxSeq == m % 0x1_0000 && s.seqCycles == m / 0x1_0000 % 0x1_0000_0000
    requires m - 0x8000 <= n <= m + 0x7FFF
    ensures var t := TrackSeq(s, n % 0x1_0000); var top := Max(m, n);
      t.haveSeq && t.maxSeq == top % 0x1_0000 && t.seqCycles == top / 0x1_0000 % 0x1_0000_0000
  {
    NextCycle(m / 0x1_0000);
    if n < m { Backward(m, n); } else { Forward(m, n); }
  }

  lemma {:induction false} TrackMany(s: Stream, ns: seq<nat>)
    requires ns != [] && ns[0] < 0x1_0000 && Trackable(ns) && !s.haveSeq && s.seqCycles == 0
    ensures var t := TrackAll(s, ns); var top := Largest(ns);
      t.haveSeq && t.maxSeq == top % 0x1_0000 && t.seqCycles == top / 0x1_0000 % 0x1_0000_0000
    decreases |ns|
  {
    var before := ns[..|ns| - 1];
    if |ns| == 1 {
      assert TrackAll(s, before) == s;
    } else {
      forall i | 0 < i < |before| ensures Largest(before[..i]) - 0x8000 <= before[i] <= Largest(before[..i]) + 0x7FFF {
        assert before[..i] == ns[..i];
      }
      TrackMany(s, before);
      assert ns[..|ns| - 1] == before;
      TrackOne(TrackAll(s, before), Largest(before), ns[|ns| - 1]);
    }
  }

  lemma {:induction false} Remainder(m: nat, q: nat, x: nat)
    requires m == q * 0x1_0000_0000 + x && x < 0x1_0000_0000
    ensures m % 0x1_0000_0000 == x
  {
  }

  lemma {:induction false} LowCycles(c: nat)
    ensures c % 0x1_0000_0000 % 0x1_0000 == c % 0x1_0000
  {
    var q, r := c / 0x1_0000_0000, c % 0x1_0000_0000;
    assert c == (q * 0x1_0000) * 0x1_0000 + r;
  }

  lemma {:induction false} JoinCycles(m: nat)
    ensures m / 0x1_0000 % 0x1_0000_0000 % 0x1_0000 * 0x1_0000 + m % 0x1_0000 == m % 0x1_0000_0000
  {
    var c, r := m / 0x1_0000, m % 0x1_0000;
    var q, b := c / 0x1_0000, c % 0x1_0000;
    LowCycles(c);
    assert m == (q * 0x1_0000 + b) * 0x1_0000 + r;
    Remainder(m, q, b * 0x1_0000 + r);
  }

  lemma {:induction false} TrackAllExact(s: Stream, ns: seq<nat>)
    requires ns != [] && ns[0] < 0x1_0000 && Trackable(ns) && !s.haveSeq && s.seqCycles == 0
    ensures ExtendedSeq(TrackAll(s, ns)) == Largest(ns) % 0x1_0000_0000
  {
    TrackMany(s, ns);
    JoinCycles(Largest(ns));
  }

  predicate SameTracker(a: Stream, b: Stream) { a.haveSeq == b.haveSeq && a.maxSeq == b.maxSeq && a.seqCycles == b.seqCycles }

  lemma {:induction false} ReadyKeepsTracker(s: Stream)
    requires AlmostOk(s)
    ensures SameTracker(DeliverReady(s), s)
    decreases |s.frames|
  {
    if Ready(s) {
      DeliverOneKeeps(s);
      ReadyKeepsTracker(DeliverOne(s));
    }
  }

  lemma {:induction false} PacketKeepsTracker(s: Stream, p: Rtp)
    requires StreamOk(s) && p.packetId <= p.maxPacketId < 0xFFFF
    ensures SameTracker(HandlePacket(s, p), s)
  {
    var id := ExpandFrameId(s.highest, p.frameId8);
    if InWindow(s, id) {
      var f := if id in s.frames then s.frames[id] else FreshPending(p.maxPacketId);
      CountNone(p.maxPacketId + 1);
      if f.maxPacketId == p.maxPacketId {
        StoredKeeps(s, f, p, id);
        ReadyKeepsTracker(Stored(s, f, p, id));
      }
    }
  }

  lemma {:induction false} SkipKeepsTracker(s: Stream, now: int)
    requires StreamOk(s)
    ensures SameTracker(SkipStalled(s, now), s)
  {
    FindResumeExact(s, s.checkpoint + 1);
    var found := FindResume(s, s.checkpoint + 1);
    if found.Some? {
      DropKeeps(s, found.value);
      ReadyKeepsTracker(DropBelow(s, found.value));
    }
  }

  /** Only a datagram moves the tracker, by its own sequence number, whatever else it does. */
  lemma {:induction false} StepTracks(s: Stream, e: Event)
    requires StreamOk(s) && EventOk(e)
    ensures SameTracker(Step(s, e), if e.Datagram? then TrackSeq(s, Be16(e.data, 2)) else s)
  {
    match e
    case Datagram(_, data) =>
      var parsed := ParseRtp(data);
      if parsed.Some? { PacketKeepsTracker(TrackSeq(s, Be16(data, 2)), parsed.value); }
    case Tick(now) => SkipKeepsTracker(s, now);
    case KeyFrameWanted(_) =>
  }

  /** The sequence numbers of the datagrams, in order of arrival. */
  function Arrived(es: seq<Event>): seq<uint16>
    requires EventsOk(es)
    decreases |es|
  {
    if es == [] then []
    else
      var before, e := es[..|es| - 1], es[|es| - 1];
      Arrived(before) + if e.Datagram? then [Be16(e.data, 2)] else []
  }

  /** `ns` are the true numbers of the datagrams whose low 16 bits arrived. */
  predicate TrueNumbers(ns: seq<nat>, seqNos: seq<uint16>) {
    |ns| == |seqNos| && forall i :: 0 <= i < |ns| ==> ns[i] % 0x1_0000 == seqNos[i]
  }

  lemma {:induction false} SameStep(a: Stream, b: Stream, seqNo: uint16)
    requires SameTracker(a, b)
    ensures SameTracker(TrackSeq(a, seqNo), TrackSeq(b, seqNo))
  {
  }

  /** The true numbers before the last event. */
  lemma {:induction false} NumbersBefore(es: seq<Event>, ns: seq<nat>) returns (earlier: seq<nat>)
    requires EventsOk(es) && es != [] && TrueNumbers(ns, Arrived(es))
    ensures TrueNumbers(earlier, Arrived(es[..|es| - 1]))
    ensures var e := es[|es| - 1];
      if e.Datagram? then ns != [] && earlier == ns[..|ns| - 1] && ns[|ns| - 1] % 0x1_0000 == Be16(e.data, 2) else earlier == ns
  {
    earlier := if es[|es| - 1].Datagram? then ns[..|ns| - 1] else ns;
    var before := Arrived(es[..|es| - 1]);
    forall i | 0 <= i < |earlier| ensures earlier[i] % 0x1_0000 == before[i] { assert Arrived(es)[i] == before[i]; }
    if es[|es| - 1].Datagram? { assert Arrived(es)[|before|] == Be16(es[|es| - 1].data, 2); }
  }

  lemma {:induction false} RunTracks(s: Stream, es: seq<Event>, ns: seq<nat>)
    requires StreamOk(s) && EventsOk(es) && TrueNumbers(ns, Arrived(es))
    ensures SameTracker(Run(s, es), TrackAll(s, ns))
    decreases |es|
  {
    if es != [] {
      var before, e := es[..|es| - 1], es[|es| - 1];
      var earlier := NumbersBefore(es, ns);
      RunTracks(s, before, earlier);
      StepTracks(Run(s, before), e);
      if e.Datagram? { SameStep(Run(s, before), TrackAll(s, earlier), Be16(e.data, 2)); }
    }
  }

  /** Over any run the extended sequence number reported is the largest true number received, mod 2^32. */
  lemma {:induction false} ExtendedSeqExact(video: bool, delay: int, c: Cipher, es: seq<Event>, ns: seq<nat>)
    requires |c.mask| == 16 && EventsOk(es) && TrueNumbers(ns, Arrived(es)) && ns != [] && ns[0] < 0x1_0000 && Trackable(ns)
    ensures ExtendedSeq(Run(NewStream(video, delay, c), es)) == Largest(ns) % 0x1_0000_0000
  {
    RunTracks(NewStream(video, delay, c), es, ns);
    TrackAllExact(NewStream(video, delay, c), ns);
  }
}
