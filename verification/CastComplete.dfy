/** Nothing that arrives in time is lost: each packet inside the window is kept until its frame goes out, and
    a frame all of whose packets have arrived does go out. */
module CastComplete {
  import opened Bytes
  import opened CastPacket
  import opened CastStream
  import opened CastRefinement

  /** Packet `k` of frame `id` is in the buffer, or the checkpoint has passed the frame. */
  predicate Kept(s: Stream, id: int, k: nat) {
    id <= s.checkpoint || (id in s.frames && k < |s.frames[id].have| && s.frames[id].have[k])
  }

  /** `id` is the frame a packet with these low eight bits is about. */
  predicate Means(s: Stream, id: int, frameId8: byte) {
    id % 0x100 == frameId8 && s.highest - 128 <= id <= s.highest + 127
  }

  /** Beyond the checkpoint by at most 120 frames. */
  predicate Near(s: Stream, id: int) { s.checkpoint < id <= s.checkpoint + 120 }

  // ---- One step --------------------------------------------------------------------------------

  lemma {:induction false} ReadyKeepsAll(s: Stream, id: int, k: nat)
    requires AlmostOk(s) && Kept(s, id, k)
    ensures Kept(DeliverReady(s), id, k) && DeliverReady(s).highest == s.highest
    decreases |s.frames|
  {
    if Ready(s) {
      DeliverOneKeeps(s);
      assert Kept(DeliverOne(s), id, k);
      ReadyKeepsAll(DeliverOne(s), id, k);
    }
  }

  lemma {:induction false} StoredKeepsAll(s: Stream, f: Pending, p: Rtp, at: int, id: int, k: nat)
    requires StreamOk(s) && InWindow(s, at) && PendingOk(f) && p.packetId <= p.maxPacketId == f.maxPacketId
    requires at in s.frames ==> f == s.frames[at]
    requires Kept(s, id, k) || (id == at && k == p.packetId)
    ensures Kept(Stored(s, f, p, at), id, k) && Kept(DeliverReady(Stored(s, f, p, at)), id, k)
    ensures DeliverReady(Stored(s, f, p, at)).highest == Max(s.highest, at)
  {
    var t := Stored(s, f, p, at);
    StoredKeeps(s, f, p, at);
    assert Kept(t, id, k);
    ReadyKeepsAll(t, id, k);
  }

  lemma {:induction false} PacketKept(s: Stream, p: Rtp, at: int, id: int, k: nat)
    requires StreamOk(s) && p.packetId <= p.maxPacketId < 0xFFFF && Means(s, at, p.frameId8) && Near(s, at)
    requires at in s.frames ==> s.frames[at].maxPacketId == p.maxPacketId
    requires Kept(s, id, k) || (id == at && k == p.packetId)
    ensures Kept(HandlePacket(s, p), id, k) && HandlePacket(s, p).highest == Max(s.highest, at)
  {
    ExpandExact(s.highest, at);
    var f := if at in s.frames then s.frames[at] else FreshPending(p.maxPacketId);
    CountNone(p.maxPacketId + 1);
    StoredKeepsAll(s, f, p, at, id, k);
  }

  /** A packet in the window that agrees with what is known of its frame is in the buffer afterwards, or its
      frame has been delivered, whatever arrived before. */
  lemma {:induction false} PacketIsTaken(s: Stream, e: Event, p: Rtp, id: int)
    requires StreamOk(s) && e.Datagram? && EventOk(e) && ParseRtp(e.data) == Some(p)
    requires Means(s, id, p.frameId8) && Near(s, id) && (id in s.frames ==> s.frames[id].maxPacketId == p.maxPacketId)
    ensures Kept(Step(s, e), id, p.packetId) && Step(s, e).highest == Max(s.highest, id)
  {
    var u := TrackSeq(s, Be16(e.data, 2));
    PacketKept(u, p, id, id, p.packetId);
  }

  /** Whatever else is dropped: outside the window a packet changes nothing but the sequence numbers. */
  lemma {:induction false} OutsideChangesNothing(s: Stream, e: Event, p: Rtp, id: int)
    requires StreamOk(s) && e.Datagram? && EventOk(e) && ParseRtp(e.data) == Some(p)
    requires Means(s, id, p.frameId8) && !Near(s, id)
    ensures var t := Step(s, e); t == s.(haveSeq := t.haveSeq, maxSeq := t.maxSeq, seqCycles := t.seqCycles)
  {
    ExpandExact(s.highest, id);
  }

  lemma {:induction false} DatagramKeepsAll(s: Stream, data: seq<byte>, id: int, k: nat)
    requires StreamOk(s) && |data| >= RTP_MIN_SIZE && Kept(s, id, k)
    ensures Kept(HandleRtp(s, data), id, k)
  {
    var parsed, u := ParseRtp(data), TrackSeq(s, Be16(data, 2));
    if parsed.Some? {
      var p := parsed.value;
      var at := ExpandFrameId(u.highest, p.frameId8);
      if InWindow(u, at) {
        var f := if at in u.frames then u.frames[at] else FreshPending(p.maxPacketId);
        CountNone(p.maxPacketId + 1);
        if f.maxPacketId == p.maxPacketId { StoredKeepsAll(u, f, p, at, id, k); }
      }
    }
  }

  lemma {:induction false} DropKeepsAll(s: Stream, at: int, id: int, k: nat)
    requires StreamOk(s) && s.checkpoint < at <= s.highest && Resumable(s, at) && Kept(s, id, k)
    ensures Kept(DeliverReady(DropBelow(s, at)), id, k)
  {
    DropKeeps(s, at);
    assert Kept(DropBelow(s, at), id, k);
    ReadyKeepsAll(DropBelow(s, at), id, k);
  }

  /** What is kept stays kept, over any step. */
  lemma {:induction false} StepKeepsAll(s: Stream, e: Event, id: int, k: nat)
    requires StreamOk(s) && EventOk(e) && Kept(s, id, k)
    ensures Kept(Step(s, e), id, k)
  {
    match e
    case Datagram(_, data) => DatagramKeepsAll(s, data, id, k);
    case Tick(now) =>
      FindResumeExact(s, s.checkpoint + 1);
      var found := FindResume(s, s.checkpoint + 1);
      if found.Some? { DropKeepsAll(s, found.value, id, k); }
      SkipOutcomes(s, now, found);
      if !Skips(s, e) { assert SkipStalled(s, now).checkpoint == s.checkpoint; }
    case KeyFrameWanted(_) =>
  }

  // ---- Whole runs ------------------------------------------------------------------------------

  /** Event `i` brings packet `k` of the sender's frame `id`, no more than 120 frames beyond the checkpoint. */
  predicate Brings(sender: seq<Sent>, s: Stream, es: seq<Event>, i: nat, id: nat, k: nat)
    requires StreamOk(s) && EventsOk(es) && i < |es|
  {
    es[i].Datagram? && ParseRtp(es[i].data).Some? &&
    var p, u := ParseRtp(es[i].data).value, Run(s, es[..i]);
    FromSender(sender, id, p) && p.packetId == k && Means(u, id, p.frameId8) && id <= u.checkpoint + 120
  }

  ghost predicate Arrives(sender: seq<Sent>, s: Stream, es: seq<Event>, id: nat, k: nat)
    requires StreamOk(s) && EventsOk(es)
  {
    exists i :: 0 <= i < |es| && Brings(sender, s, es, i, id, k)
  }

  /** Every packet of frames 0 to n arrives at least once, in whatever order. */
  ghost predicate AllArrive(sender: seq<Sent>, s: Stream, es: seq<Event>, n: nat)
    requires StreamOk(s) && EventsOk(es) && n < |sender|
  {
    forall id: nat, k: nat :: id <= n && k < |sender[id].packets| ==> Arrives(sender, s, es, id, k)
  }

  lemma {:induction false} KeptFromThen(s: Stream, es: seq<Event>, i: nat, id: int, k: nat)
    requires StreamOk(s) && EventsOk(es) && i <= |es| && Kept(Run(s, es[..i]), id, k)
    ensures Kept(Run(s, es), id, k)
    decreases |es|
  {
    if i == |es| {
      assert es[..i] == es;
    } else {
      var before := es[..|es| - 1];
      assert before[..i] == es[..i];
      KeptFromThen(s, before, i, id, k);
      StepKeepsAll(Run(s, before), es[|es| - 1], id, k);
    }
  }

  lemma {:induction false} HonestPrefix(sender: seq<Sent>, s: Stream, es: seq<Event>, n: nat)
    requires StreamOk(s) && EventsOk(es) && n <= |es| && HonestRun(sender, s, es)
    ensures HonestRun(sender, s, es[..n])
  {
    forall i | 0 <= i < n ensures HonestEvent(sender, Run(s, es[..n][..i]), es[..n][i]) { assert es[..n][..i] == es[..i]; }
  }

  lemma {:induction false} BroughtIsKept(video: bool, delay: int, c: Cipher, sender: seq<Sent>, es: seq<Event>, i: nat, id: nat,
                                         k: nat)
    requires SenderOk(c, sender) && EventsOk(es) && HonestRun(sender, NewStream(video, delay, c), es)
    requires i < |es| && Brings(sender, NewStream(video, delay, c), es, i, id, k)
    ensures Kept(Run(NewStream(video, delay, c), es), id, k)
  {
    var s := NewStream(video, delay, c);
    var u, p := Run(s, es[..i]), ParseRtp(es[i].data).value;
    HonestPrefix(sender, s, es, i);
    EndToEnd(video, delay, c, sender, es[..i]);
    assert EventOk(es[i]);
    if id > u.checkpoint {
      if id in u.frames { assert PartOf(u.frames[id], sender[id]); }
      PacketIsTaken(u, es[i], p, id);
    } else {
      StepKeepsAll(u, es[i], id, k);
    }
    assert es[..i + 1][..|es[..i + 1]| - 1] == es[..i];
    KeptFromThen(s, es, i + 1, id, k);
  }

  /** The front frame cannot be whole and still waiting. */
  lemma {:induction false} FrontNotWhole(sender: seq<Sent>, s: Stream, id: int)
    requires StreamOk(s) && BufferFaithful(sender, s) && id == s.checkpoint + 1 && 0 <= id < |sender| && |sender[id].packets| > 0
    ensures exists k: nat :: k < |sender[id].packets| && !Kept(s, id, k)
  {
    if forall k: nat :: k < |sender[id].packets| ==> Kept(s, id, k) {
      assert Kept(s, id, 0);
      var f := s.frames[id];
      assert PartOf(f, sender[id]) && PendingOk(f);
      forall i | 0 <= i < |f.have| ensures f.have[i] { assert Kept(s, id, i); }
      AllTrueCount(f.have);
    }
  }

  /** Under any reordering and repetition: once every packet of frames 0 to n has arrived inside the window,
      the checkpoint has reached n. */
  lemma {:induction false} CheckpointReaches(video: bool, delay: int, c: Cipher, sender: seq<Sent>, es: seq<Event>, n: nat)
    requires SenderOk(c, sender) && EventsOk(es) && HonestRun(sender, NewStream(video, delay, c), es)
    requires n < |sender| && AllArrive(sender, NewStream(video, delay, c), es, n)
    ensures Run(NewStream(video, delay, c), es).checkpoint >= n
  {
    var s := NewStream(video, delay, c);
    var t := Run(s, es);
    if t.checkpoint < n {
      var id := t.checkpoint + 1;
      EndToEnd(video, delay, c, sender, es);
      assert SentOk(c, id, sender[id]);
      FrontNotWhole(sender, t, id);
      var k: nat :| k < |sender[id].packets| && !Kept(t, id, k);
      assert Arrives(sender, s, es, id, k);
      var i :| 0 <= i < |es| && Brings(sender, s, es, i, id, k);
      BroughtIsKept(video, delay, c, sender, es, i, id, k);
    }
  }

  /** So without a skip those frames have been handed over, first to last, as the sender had them. */
  lemma {:induction false} ReassemblyIsComplete(video: bool, delay: int, c: Cipher, sender: seq<Sent>, es: seq<Event>, n: nat)
    requires SenderOk(c, sender) && EventsOk(es) && HonestRun(sender, NewStream(video, delay, c), es)
    requires n < |sender| && AllArrive(sender, NewStream(video, delay, c), es, n)
    requires NeverSkips(NewStream(video, delay, c), es)
    ensures var got := Run(NewStream(video, delay, c), es).delivered;
      |got| > n && forall id :: 0 <= id <= n ==> got[id] == Frame(id, sender[id].plain, sender[id].keyFrame)
  {
    CheckpointReaches(video, delay, c, sender, es, n);
    LosslessWithoutSkips(video, delay, c, sender, es);
  }
}
