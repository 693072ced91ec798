/** A stalled stream gets going again: as long as there is a frame to resume at, the checkpoint moves within
    the stall limit and two ticks. */
module CastProgress {
  import opened Bytes
  import opened CastPacket
  import opened CastStream
  import opened CastRefinement

  /** Some frame is there to resume at. */
  predicate CanResume(s: Stream) { exists id :: id in s.frames && Resumable(s, id) }

  /** As long as the checkpoint has not moved there is a frame to resume at. */
  ghost predicate AlwaysWaiting(s: Stream, es: seq<Event>)
    requires StreamOk(s) && EventsOk(es)
  {
    forall i :: 0 <= i <= |es| ==> WaitsAt(s, es, i)
  }

  predicate WaitsAt(s: Stream, es: seq<Event>, i: nat)
    requires StreamOk(s) && EventsOk(es) && i <= |es|
  {
    Run(s, es[..i]).checkpoint == s.checkpoint ==> CanResume(Run(s, es[..i]))
  }

  lemma {:induction false} WaitingIsBlocked(s: Stream)
    requires StreamOk(s) && CanResume(s)
    ensures Blocked(s) && FindResume(s, s.checkpoint + 1).Some?
  {
    FindResumeExact(s, s.checkpoint + 1);
    var id :| id in s.frames && Resumable(s, id);
    assert InWindow(s, id) && id <= s.highest;
  }

  lemma {:induction false} CheckpointGrows(s: Stream, e: Event)
    requires StreamOk(s) && EventOk(e)
    ensures Step(s, e).checkpoint >= s.checkpoint && StallLimit(Step(s, e)) == StallLimit(s)
  {
    if Skips(s, e) { SkipDelivers(s, e); } else { PlainStepDelivers(s, e); }
  }

  lemma {:induction false} RunGrows(s: Stream, es: seq<Event>, i: nat)
    requires StreamOk(s) && EventsOk(es) && i <= |es|
    ensures Run(s, es).checkpoint >= Run(s, es[..i]).checkpoint && StallLimit(Run(s, es)) == StallLimit(Run(s, es[..i]))
    decreases |es|
  {
    if i == |es| {
      assert es[..i] == es;
    } else {
      var before := es[..|es| - 1];
      assert before[..i] == es[..i];
      RunGrows(s, before, i);
      CheckpointGrows(Run(s, before), es[|es| - 1]);
    }
  }

  /** The stall clock of a waiting stream keeps running, and a tick starts it. */
  lemma {:induction false} ClockGoesOn(s: Stream, e: Event)
    requires StreamOk(s) && EventOk(e) && CanResume(s) && Step(s, e).checkpoint == s.checkpoint
    ensures s.stalledSince.Some? ==> Step(s, e).stalledSince == s.stalledSince
    ensures e.Tick? && s.stalledSince.None? ==> Step(s, e).stalledSince == Some(e.time)
  {
    WaitingIsBlocked(s);
    if Skips(s, e) { SkipDelivers(s, e); }
    if e.Datagram? { DatagramKeepsClock(s, e.data); }
  }

  lemma {:induction false} ReadyStopsClock(s: Stream)
    requires AlmostOk(s)
    ensures DeliverReady(s).checkpoint == s.checkpoint ==> DeliverReady(s) == s
  {
    ReadyDelivers(s);
  }

  lemma {:induction false} PacketKeepsClock(s: Stream, p: Rtp)
    requires StreamOk(s) && p.packetId <= p.maxPacketId < 0xFFFF && HandlePacket(s, p).checkpoint == s.checkpoint
    ensures HandlePacket(s, p).stalledSince == s.stalledSince
  {
    var id := ExpandFrameId(s.highest, p.frameId8);
    if InWindow(s, id) {
      var f := if id in s.frames then s.frames[id] else FreshPending(p.maxPacketId);
      CountNone(p.maxPacketId + 1);
      if f.maxPacketId == p.maxPacketId {
        StoredKeeps(s, f, p, id);
        ReadyStopsClock(Stored(s, f, p, id));
      }
    }
  }

  lemma {:induction false} DatagramKeepsClock(s: Stream, data: seq<byte>)
    requires StreamOk(s) && |data| >= RTP_MIN_SIZE && HandleRtp(s, data).checkpoint == s.checkpoint
    ensures HandleRtp(s, data).stalledSince == s.stalledSince
  {
    var parsed, u := ParseRtp(data), TrackSeq(s, Be16(data, 2));
    if parsed.Some? {
      TrackedOk(s, Be16(data, 2));
      PacketKeepsClock(u, parsed.value);
    }
  }

  lemma {:induction false} TrackedOk(s: Stream, seqNo: uint16)
    requires StreamOk(s)
    ensures StreamOk(TrackSeq(s, seqNo))
    ensures var u := TrackSeq(s, seqNo);
      u.checkpoint == s.checkpoint && u.stalledSince == s.stalledSince &&
      u.frames == s.frames && u.video == s.video && u.highest == s.highest && u.delivered == s.delivered
  {
  }

  /** The clock runs, since `t` at the latest. */
  predicate ClockBy(s: Stream, t: int) { s.stalledSince.Some? && s.stalledSince.value <= t }

  lemma {:induction false} ClockStays(s: Stream, e: Event, t: int)
    requires StreamOk(s) && EventOk(e) && CanResume(s) && Step(s, e).checkpoint == s.checkpoint
    requires ClockBy(s, t) || (e.Tick? && e.time == t && s.stalledSince.None?)
    ensures ClockBy(Step(s, e), t)
  {
    ClockGoesOn(s, e);
  }

  /** From the tick at `k` on the clock shows that tick's time or an earlier one. */
  lemma {:induction false} ClockSince(s: Stream, es: seq<Event>, k: nat, now: int)
    requires StreamOk(s) && EventsOk(es) && InTimeOrder(es) && AlwaysWaiting(s, es) && k < |es| && es[k].Tick?
    requires (s.stalledSince.Some? ==> s.stalledSince.value <= now) && now <= es[0].time
    requires Run(s, es).checkpoint == s.checkpoint
    ensures ClockBy(Run(s, es), es[k].time)
    decreases |es|
  {
    var n := |es| - 1;
    var before, e := es[..n], es[n];
    Unmoved(s, es, n);
    if k < n {
      assert before[0] == es[0] && before[k] == es[k];
      ClockSince(s, before, k, now);
    } else {
      ClockNotAhead(s, before, e.time);
    }
    ClockStays(Run(s, before), e, es[k].time);
  }

  lemma {:induction false} WaitingSoFar(s: Stream, es: seq<Event>, n: nat)
    requires StreamOk(s) && EventsOk(es) && AlwaysWaiting(s, es) && n <= |es|
    ensures AlwaysWaiting(s, es[..n])
  {
    forall i | 0 <= i <= n ensures WaitsAt(s, es[..n], i) {
      assert es[..n][..i] == es[..i] && WaitsAt(s, es, i);
    }
  }

  /** What holds of a run that has not moved holds of its beginning. */
  lemma {:induction false} Unmoved(s: Stream, es: seq<Event>, n: nat)
    requires StreamOk(s) && EventsOk(es) && AlwaysWaiting(s, es) && n <= |es| && Run(s, es).checkpoint == s.checkpoint
    ensures Run(s, es[..n]).checkpoint == s.checkpoint && AlwaysWaiting(s, es[..n]) && CanResume(Run(s, es[..n]))
  {
    RunGrows(s, es, n);
    RunGrows(s, es[..n], 0);
    assert es[..n][..0] == [];
    WaitingSoFar(s, es, n);
    assert WaitsAt(s, es, n);
  }

  lemma {:induction false} ClockNotAhead(s: Stream, es: seq<Event>, now: int)
    requires StreamOk(s) && EventsOk(es) && (s.stalledSince.Some? ==> s.stalledSince.value <= now)
    requires forall i :: 0 <= i < |es| ==> es[i].time <= now
    ensures Run(s, es).stalledSince.Some? ==> Run(s, es).stalledSince.value <= now
    decreases |es|
  {
    if es != [] {
      var before, e := es[..|es| - 1], es[|es| - 1];
      ClockNotAhead(s, before, now);
      if Run(s, es).stalledSince.Some? { ClockStep(Run(s, before), e); }
    }
  }

  /** Two ticks the stall limit apart: at the second at the latest the checkpoint has moved. */
  lemma {:induction false} SecondTickMoves(s: Stream, es: seq<Event>, k: nat, now: int)
    requires StreamOk(s) && EventsOk(es) && InTimeOrder(es) && AlwaysWaiting(s, es) && es != []
    requires (s.stalledSince.Some? ==> s.stalledSince.value <= now) && now <= es[0].time
    requires k < |es| - 1 && es[k].Tick? && es[|es| - 1].Tick? && es[|es| - 1].time - es[k].time >= StallLimit(s)
    ensures Run(s, es).checkpoint > s.checkpoint
  {
    var n := |es| - 1;
    var before := es[..n];
    RunGrows(s, es, 0);
    assert es[..0] == [];
    if Run(s, es).checkpoint == s.checkpoint {
      Unmoved(s, es, n);
      assert before[0] == es[0] && before[k] == es[k];
      ClockSince(s, before, k, now);
      RunGrows(s, before, 0);
      assert before[..0] == [];
      LateTickMoves(Run(s, before), es[n], es[k].time);
    }
  }

  lemma {:induction false} LateTickMoves(s: Stream, e: Event, t: int)
    requires StreamOk(s) && e.Tick? && CanResume(s) && ClockBy(s, t) && e.time - t >= StallLimit(s)
    ensures Step(s, e).checkpoint > s.checkpoint
  {
    WaitingIsBlocked(s);
    SkipDelivers(s, e);
  }

  /** A tick comes no later than `gap` after `t`. */
  predicate TickIn(es: seq<Event>, t: int, gap: nat) { exists k :: 0 <= k < |es| && es[k].Tick? && t <= es[k].time <= t + gap }

  /** The checkpoint moves by the given time. */
  ghost predicate MovesBy(s: Stream, es: seq<Event>, due: int)
    requires StreamOk(s) && EventsOk(es)
  {
    exists n :: 0 <= n < |es| && es[n].time <= due && Run(s, es[..n + 1]).checkpoint > s.checkpoint
  }

  /** With ticks at most `gap` apart, a stream with a frame to resume at stands still for no longer than the
      stall limit and two gaps, whatever else arrives. */
  lemma {:induction false} StallEnds(s: Stream, es: seq<Event>, now: int, gap: nat)
    requires StreamOk(s) && EventsOk(es) && InTimeOrder(es) && AlwaysWaiting(s, es)
    requires s.stalledSince.Some? ==> s.stalledSince.value <= now
    requires forall i :: 0 <= i < |es| ==> now <= es[i].time
    requires forall t :: now <= t <= now + gap + StallLimit(s) ==> TickIn(es, t, gap)
    ensures MovesBy(s, es, now + StallLimit(s) + 2 * gap)
  {
    var k, n := TwoTicks(es, now, gap, StallLimit(s));
    MovedAt(s, es, k, n, now);
  }

  lemma {:induction false} MovedAt(s: Stream, es: seq<Event>, k: nat, n: nat, now: int)
    requires StreamOk(s) && EventsOk(es) && InTimeOrder(es) && AlwaysWaiting(s, es) && k < n < |es|
    requires (s.stalledSince.Some? ==> s.stalledSince.value <= now) && now <= es[0].time
    requires es[k].Tick? && es[n].Tick? && es[n].time - es[k].time >= StallLimit(s)
    ensures Run(s, es[..n + 1]).checkpoint > s.checkpoint
  {
    var upTo := es[..n + 1];
    assert upTo[k] == es[k] && upTo[n] == es[n] && upTo[0] == es[0];
    WaitingSoFar(s, es, n + 1);
    SecondTickMoves(s, upTo, k, now);
  }

  lemma {:induction false} TwoTicks(es: seq<Event>, now: int, gap: nat, limit: nat) returns (k: nat, n: nat)
    requires InTimeOrder(es) && limit > 0 && forall t :: now <= t <= now + gap + limit ==> TickIn(es, t, gap)
    ensures k < n < |es| && es[k].Tick? && es[n].Tick? && es[n].time - es[k].time >= limit
    ensures es[n].time <= now + limit + 2 * gap
  {
    assert TickIn(es, now, gap);
    k :| 0 <= k < |es| && es[k].Tick? && now <= es[k].time <= now + gap;
    var t := es[k].time + limit;
    assert TickIn(es, t, gap);
    n :| 0 <= n < |es| && es[n].Tick? && t <= es[n].time <= t + gap;
  }

  // ---- Once there is a frame to resume at ------------------------------------------------------

  lemma {:induction false} StoredStays(sender: seq<Sent>, s: Stream, f: Pending, p: Rtp, id: int, k: int)
    requires StreamOk(s) && InWindow(s, id) && PendingOk(f) && p.packetId <= p.maxPacketId == f.maxPacketId < 0xFFFF
    requires if id in s.frames then f == s.frames[id] else f == FreshPending(p.maxPacketId)
    requires k in s.frames && Resumable(s, k)
    requires !s.video || (FromSender(sender, id, p) && Faithful(sender, s))
    ensures k in Stored(s, f, p, id).frames && Resumable(Stored(s, f, p, id), k)
  {
    if k == id { CompleteHasAll(f); }
  }

  lemma {:induction false} CompleteHasAll(f: Pending)
    requires PendingOk(f) && Complete(f)
    ensures forall i :: 0 <= i < |f.have| ==> f.have[i]
  {
    CountBounds(f.have);
  }

  /** Delivery either moves the checkpoint or changes nothing. */
  lemma {:induction false} PacketStays(sender: seq<Sent>, s: Stream, p: Rtp, k: int)
    requires StreamOk(s) && p.packetId <= p.maxPacketId < 0xFFFF && k in s.frames && Resumable(s, k)
    requires !s.video || (HonestPacket(sender, s.highest, p) && Faithful(sender, s))
    requires HandlePacket(s, p).checkpoint == s.checkpoint
    ensures k in HandlePacket(s, p).frames && Resumable(HandlePacket(s, p), k)
  {
    var id := ExpandFrameId(s.highest, p.frameId8);
    if InWindow(s, id) {
      var f := if id in s.frames then s.frames[id] else FreshPending(p.maxPacketId);
      CountNone(p.maxPacketId + 1);
      if f.maxPacketId == p.maxPacketId {
        if s.video {
          var sentAs :| s.highest - 128 <= sentAs <= s.highest + 127 && FromSender(sender, sentAs, p);
          ExpandExact(s.highest, sentAs);
        }
        StoredStays(sender, s, f, p, id, k);
        StoredKeeps(s, f, p, id);
        ReadyStopsClock(Stored(s, f, p, id));
      }
    }
  }

  /** A frame to resume at stays one until the checkpoint moves; for video that takes an honest sender, as
      a repeated first packet may say otherwise about the key frame. */
  lemma {:induction false} ResumableStays(sender: seq<Sent>, s: Stream, e: Event)
    requires StreamOk(s) && EventOk(e) && CanResume(s) && Step(s, e).checkpoint == s.checkpoint
    requires s.video ==> Faithful(sender, s) && HonestEvent(sender, s, e)
    ensures CanResume(Step(s, e))
  {
    var k :| k in s.frames && Resumable(s, k);
    match e
    case Datagram(_, data) => DatagramStays(sender, s, data, k);
    case Tick(now) => TickStays(s, e, k);
    case KeyFrameWanted(_) => assert Resumable(Step(s, e), k);
  }

  lemma {:induction false} DatagramStays(sender: seq<Sent>, s: Stream, data: seq<byte>, k: int)
    requires StreamOk(s) && |data| >= RTP_MIN_SIZE && k in s.frames && Resumable(s, k)
    requires s.video ==> Faithful(sender, s) && HonestDatagram(sender, s, data)
    requires HandleRtp(s, data).checkpoint == s.checkpoint
    ensures k in HandleRtp(s, data).frames && Resumable(HandleRtp(s, data), k)
  {
    var parsed, u := ParseRtp(data), TrackSeq(s, Be16(data, 2));
    TrackedOk(s, Be16(data, 2));
    assert Resumable(u, k);
    if parsed.Some? { PacketStays(sender, u, parsed.value, k); }
  }

  lemma {:induction false} TickStays(s: Stream, e: Event, k: int)
    requires StreamOk(s) && e.Tick? && CanResume(s) && k in s.frames && Resumable(s, k) && Step(s, e).checkpoint == s.checkpoint
    ensures k in Step(s, e).frames && Resumable(Step(s, e), k)
  {
    WaitingIsBlocked(s);
    if Skips(s, e) { SkipDelivers(s, e); }
  }

  /** So a stream that has one is always waiting. */
  lemma {:induction false} OnceWaitingAlwaysWaiting(sender: seq<Sent>, s: Stream, es: seq<Event>)
    requires StreamOk(s) && EventsOk(es) && CanResume(s)
    requires s.video ==> SenderOk(s.cipher, sender) && Faithful(sender, s) && HonestRun(sender, s, es)
    ensures AlwaysWaiting(s, es)
    decreases |es|
  {
    if es == [] {
      assert es[..0] == [];
    } else {
      var n := |es| - 1;
      var before := es[..n];
      if s.video { HonestSoFar(sender, s, es); }
      OnceWaitingAlwaysWaiting(sender, s, before);
      forall i | 0 <= i <= |es| ensures WaitsAt(s, es, i) {
        if i <= n {
          assert es[..i] == before[..i] && WaitsAt(s, before, i);
        } else {
          assert es[..i] == es;
          if Run(s, es).checkpoint == s.checkpoint { LastStays(sender, s, es); }
        }
      }
    }
  }

  lemma {:induction false} LastStays(sender: seq<Sent>, s: Stream, es: seq<Event>)
    requires StreamOk(s) && EventsOk(es) && es != [] && AlwaysWaiting(s, es[..|es| - 1]) && Run(s, es).checkpoint == s.checkpoint
    requires s.video ==> SenderOk(s.cipher, sender) && Faithful(sender, s) && HonestRun(sender, s, es)
    ensures CanResume(Run(s, es))
  {
    var before, e := es[..|es| - 1], es[|es| - 1];
    RunGrows(s, es, |es| - 1);
    RunGrows(s, before, 0);
    assert before[..0] == [] && before[..|before|] == before && WaitsAt(s, before, |before|);
    if s.video {
      HonestSoFar(sender, s, es);
      RunFaithful(sender, s, before);
    }
    SameKind(s, before);
    ResumableStays(sender, Run(s, before), e);
  }

  lemma {:induction false} SameKind(s: Stream, es: seq<Event>)
    requires StreamOk(s) && EventsOk(es)
    ensures Run(s, es).video == s.video && Run(s, es).cipher == s.cipher
    decreases |es|
  {
    if es != [] {
      var before, e := es[..|es| - 1], es[|es| - 1];
      SameKind(s, before);
      var u := Run(s, before);
      if Skips(u, e) { SkipDelivers(u, e); } else { PlainStepDelivers(u, e); }
    }
  }

  lemma {:induction false} RunFaithful(sender: seq<Sent>, s: Stream, es: seq<Event>)
    requires StreamOk(s) && EventsOk(es) && SenderOk(s.cipher, sender) && Faithful(sender, s) && HonestRun(sender, s, es)
    ensures Faithful(sender, Run(s, es))
    decreases |es|
  {
    if es != [] {
      HonestSoFar(sender, s, es);
      RunFaithful(sender, s, es[..|es| - 1]);
      SameKind(s, es[..|es| - 1]);
      StepFaithful(sender, Run(s, es[..|es| - 1]), es[|es| - 1]);
    }
  }

  /** So a stream that stands before an incomplete frame with one to resume at buffered behind it moves on
      within the stall limit and two ticks. */
  lemma {:induction false} StalledStreamMoves(sender: seq<Sent>, s: Stream, es: seq<Event>, now: int, gap: nat)
    requires StreamOk(s) && EventsOk(es) && InTimeOrder(es) && CanResume(s)
    requires s.video ==> SenderOk(s.cipher, sender) && Faithful(sender, s) && HonestRun(sender, s, es)
    requires s.stalledSince.Some? ==> s.stalledSince.value <= now
    requires forall i :: 0 <= i < |es| ==> now <= es[i].time
    requires forall t :: now <= t <= now + gap + StallLimit(s) ==> TickIn(es, t, gap)
    ensures MovesBy(s, es, now + 1000 * Max(s.targetDelayMs, 250) + 2 * gap)
  {
    OnceWaitingAlwaysWaiting(sender, s, es);
    StallEnds(s, es, now, gap);
  }

  // ---- When a stall asks for a key frame -------------------------------------------------------

  /** All packets are there, and it is a key frame. */
  predicate WholeKeyFrame(f: Pending) { f.keyFrame && forall i :: 0 <= i < |f.have| ==> f.have[i] }

  lemma {:induction false} WholeIsComplete(f: Pending)
    requires PendingOk(f)
    ensures Complete(f) <==> forall i :: 0 <= i < |f.have| ==> f.have[i]
  {
    CountBounds(f.have);
    if forall i :: 0 <= i < |f.have| ==> f.have[i] { AllTrueCount(f.have); }
  }

  /** A tick asks for a key frame exactly if video has frames waiting behind the next one, has stood for the
      stall limit, and none of the frames it holds is a whole key frame. */
  lemma {:induction false} StallAsksExactly(s: Stream, now: int)
    requires StreamOk(s) && s.video && !s.pliPending
    ensures Step(s, Tick(now)).pliPending <==>
            s.frames != map[] && s.highest > s.checkpoint + 1 && s.stalledSince.Some? &&
            now - s.stalledSince.value >= 1000 * Max(s.targetDelayMs, 250) &&
            forall id :: id in s.frames ==> !WholeKeyFrame(s.frames[id])
  {
    PliStep(s, Tick(now));
    FindResumeExact(s, s.checkpoint + 1);
    forall id | id in s.frames ensures Resumable(s, id) <==> WholeKeyFrame(s.frames[id]) {
      WholeIsComplete(s.frames[id]);
      assert InWindow(s, id);
    }
    var found := FindResume(s, s.checkpoint + 1);
    if found.Some? {
      assert WholeKeyFrame(s.frames[found.value]);
    } else {
      forall id | id in s.frames ensures !WholeKeyFrame(s.frames[id]) { assert !Resumable(s, id); }
    }
  }
}
