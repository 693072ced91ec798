/** Left alone, every name goes live by a deadline that can be read off the state. */
module MdnsProgress {
  import opened Bytes
  import opened MdnsRecords
  import opened MdnsProbe

  /** The latest moment a group can still be unannounced if ticks come at most `gap` ms apart. */
  function Deadline(g: Group, gap: nat): int { g.nextProbeAt + (PROBE_COUNT - g.probesSent) * (PROBE_INTERVAL + gap) }

  /** Timer ticks after `prev`, each at most `gap` ms after the one before. */
  predicate Regular(prev: int, ticks: seq<int>, gap: nat)
    decreases |ticks|
  {
    ticks == [] || (prev < ticks[0] <= prev + gap && Regular(ticks[0], ticks[1..], gap))
  }

  function TickAll(st: Responder, ticks: seq<int>): Responder
    decreases |ticks|
  {
    if ticks == [] then st else TickAll(Tick(st, ticks[0]), ticks[1..])
  }

  /** After a tick at `prev` a group is announced, or its next step is still to come, or it has
      probed three times and only waits for the host. */
  predicate OnTime(g: Group, prev: int, hostLive: bool) {
    g.announced || (g.probesSent <= PROBE_COUNT && (prev <= g.nextProbeAt || (g.probesSent == PROBE_COUNT && !hostLive)))
  }

  lemma {:induction false} TickMeetsDeadline(g: Group, prev: int, wasLive: bool, now: int, live: bool, gap: nat)
    requires OnTime(g, prev, wasLive) && prev < now <= prev + gap && (wasLive ==> live)
    ensures var g' := TickGroup(g, now, live);
      OnTime(g', now, live) && (g.announced ==> g'.announced) && (g'.announced || Deadline(g', gap) <= Deadline(g, gap)) &&
      (live && !g'.announced ==> now < Deadline(g', gap))
  {
    if !g.announced {
      var left, pace := PROBE_COUNT - g.probesSent, PROBE_INTERVAL + gap;
      assert left * pace == (left - 1) * pace + pace;
      assert left * pace >= 0;
    }
  }

  ghost predicate AllOnTime(st: Responder, prev: int) {
    OnTime(st.host, prev, true) && forall i :: 0 <= i < |st.services| ==> OnTime(st.services[i].group, prev, st.host.announced)
  }

  /** Nothing is due later than `due`. */
  ghost predicate DueBy(st: Responder, gap: nat, due: int) {
    (st.host.announced || Deadline(st.host, gap) <= due) &&
    forall i :: 0 <= i < |st.services| ==> st.services[i].group.announced || Deadline(st.services[i].group, gap) <= due
  }

  lemma {:induction false} TickAllOnTime(st: Responder, prev: int, now: int, gap: nat, due: int)
    requires AllOnTime(st, prev) && DueBy(st, gap, due) && prev < now <= prev + gap
    ensures var st' := Tick(st, now); AllOnTime(st', now) && DueBy(st', gap, due) && (due <= now ==> !Probing(st'))
  {
    var host := TickGroup(st.host, now, true);
    TickMeetsDeadline(st.host, prev, true, now, true, gap);
    TickServicesIds(st.services, now, host.announced);
    var ss := TickServices(st.services, now, host.announced);
    forall i | 0 <= i < |ss|
      ensures OnTime(ss[i].group, now, host.announced) && (ss[i].group.announced || Deadline(ss[i].group, gap) <= due)
      ensures due <= now ==> ss[i].group.announced
    {
      TickMeetsDeadline(st.services[i].group, prev, st.host.announced, now, host.announced, gap);
    }
  }

  lemma {:induction false} TicksMeetDeadline(st: Responder, prev: int, ticks: seq<int>, gap: nat, due: int)
    requires AllOnTime(st, prev) && DueBy(st, gap, due) && Regular(prev, ticks, gap)
    requires ticks != [] && due <= ticks[|ticks| - 1]
    ensures !Probing(TickAll(st, ticks))
    decreases |ticks|
  {
    TickAllOnTime(st, prev, ticks[0], gap, due);
    if |ticks| > 1 {
      TicksMeetDeadline(Tick(st, ticks[0]), ticks[0], ticks[1..], gap, due);
    }
  }

  /** No group waits for a moment later than `latest`. */
  ghost predicate NextBy(st: Responder, latest: int) {
    (st.host.announced || st.host.nextProbeAt <= latest) &&
    forall i :: 0 <= i < |st.services| ==> st.services[i].group.announced || st.services[i].group.nextProbeAt <= latest
  }

  /** By when every name is live if the first tick is at `first`. */
  function AllLiveBy(latest: int, first: int, gap: nat): int {
    Max(latest, first + PROBE_INTERVAL) + PROBE_COUNT * (PROBE_INTERVAL + gap)
  }

  lemma {:induction false} FirstTickOfGroup(g: Group, now: int, live: bool, gap: nat, latest: int)
    requires g.announced || (g.probesSent <= PROBE_COUNT && g.nextProbeAt <= latest)
    ensures var g' := TickGroup(g, now, live);
      OnTime(g', now, live) && (g'.announced || Deadline(g', gap) <= AllLiveBy(latest, now, gap))
  {
    var g', pace := TickGroup(g, now, live), PROBE_INTERVAL + gap;
    if !g'.announced {
      assert (PROBE_COUNT - g'.probesSent) * pace <= PROBE_COUNT * pace;
    }
  }

  /** The first tick of any run puts every group on time. */
  lemma {:induction false} FirstTick(r: Run, now: int, gap: nat, latest: int)
    requires RunOk(r) && NextBy(r.st, latest)
    ensures AllOnTime(Tick(r.st, now), now) && DueBy(Tick(r.st, now), gap, AllLiveBy(latest, now, gap))
  {
    var st := r.st;
    var host := TickGroup(st.host, now, true);
    FirstTickOfGroup(st.host, now, true, gap, latest);
    TickServicesIds(st.services, now, host.announced);
    var ss := TickServices(st.services, now, host.announced);
    forall i | 0 <= i < |ss|
      ensures OnTime(ss[i].group, now, host.announced)
      ensures ss[i].group.announced || Deadline(ss[i].group, gap) <= AllLiveBy(latest, now, gap)
    {
      assert ServiceOk(st.services[i], r.log);
      FirstTickOfGroup(st.services[i].group, now, host.announced, gap, latest);
    }
  }

  /** Main result: in whatever state a run has brought the responder, if nothing disturbs it any more
      and its timer fires at most `gap` ms apart, every name is live by a moment that can be read off
      that state. */
  lemma {:induction false} EveryNameGoesLive(r: Run, ticks: seq<int>, gap: nat, latest: int)
    requires RunOk(r) && NextBy(r.st, latest) && ticks != [] && Regular(ticks[0], ticks[1..], gap)
    requires AllLiveBy(latest, ticks[0], gap) <= ticks[|ticks| - 1]
    ensures !Probing(TickAll(r.st, ticks))
  {
    assert PROBE_COUNT * (PROBE_INTERVAL + gap) > 0;
    FirstTick(r, ticks[0], gap, latest);
    assert |ticks| > 1;
    TicksMeetDeadline(Tick(r.st, ticks[0]), ticks[0], ticks[1..], gap, AllLiveBy(latest, ticks[0], gap));
  }
}
