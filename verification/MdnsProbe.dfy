/** Probing, announcing and conflict handling (sections 8 and 9 of RFC 6762) as pure steps, and what
    every run of them guarantees. */
module MdnsProbe {
  import opened Bytes
  import opened DnsName
  import opened DnsMessage
  import opened TieBreak
  import opened MdnsRecords

  const PROBE_COUNT := 3
  const PROBE_INTERVAL := 250
  const TICK := 25
  const RETRY_AFTER_LOSS := 1000

  datatype GroupId = HostGroup | ServiceGroup(id: nat)

  /** What a responder has done to a group, in order. */
  datatype Entry = Began(group: GroupId, at: int) | Probed(group: GroupId, at: int, name: Name)
                 | WentLive(group: GroupId, at: int, name: Name, hostLive: bool)
                 | Disturbed(group: GroupId, at: int)

  // ---- Steps on one group ----------------------------------------------------------------------

  function BeginProbing(g: Group, now: int, delay: int): Group {
    Group(0, false, now + delay, g.generation + 1)
  }

  function TickGroup(g: Group, now: int, canAnnounce: bool): Group {
    if g.announced || now < g.nextProbeAt then g
    else if g.probesSent < PROBE_COUNT then g.(probesSent := g.probesSent + 1, nextProbeAt := now + PROBE_INTERVAL)
    else if canAnnounce then g.(announced := true)
    else g
  }

  function TickEntries(g: Group, id: GroupId, name: Name, now: int, canAnnounce: bool, hostLive: bool): seq<Entry> {
    if g.announced || now < g.nextProbeAt then []
    else if g.probesSent < PROBE_COUNT then [Probed(id, now, name)]
    else if canAnnounce then [WentLive(id, now, name, hostLive)]
    else []
  }

  // ---- Steps of the responder ------------------------------------------------------------------

  datatype Run = Run(st: Responder, log: seq<Entry>)

  function MapServices(f: Service -> Service, ss: seq<Service>): seq<Service> {
    if ss == [] then [] else [f(ss[0])] + MapServices(f, ss[1..])
  }

  function Flat<T>(f: Service -> seq<T>, ss: seq<Service>): seq<T> {
    if ss == [] then [] else f(ss[0]) + Flat(f, ss[1..])
  }

  lemma {:induction false} MapServicesAt(f: Service -> Service, ss: seq<Service>)
    ensures |MapServices(f, ss)| == |ss| && forall i :: 0 <= i < |ss| ==> MapServices(f, ss)[i] == f(ss[i])
  {
    if ss != [] { MapServicesAt(f, ss[1..]); }
  }

  function TickService(s: Service, now: int, hostLive: bool): Service { s.(group := TickGroup(s.group, now, hostLive)) }

  function ServiceEntries(s: Service, now: int, hostLive: bool): seq<Entry> {
    TickEntries(s.group, ServiceGroup(s.id), InstanceName(s), now, hostLive, hostLive)
  }

  function TickServices(ss: seq<Service>, now: int, hostLive: bool): seq<Service> {
    MapServices(s => TickService(s, now, hostLive), ss)
  }

  function TickServiceEntries(ss: seq<Service>, now: int, hostLive: bool): seq<Entry> {
    Flat((s: Service) => ServiceEntries(s, now, hostLive), ss)
  }

  predicate Probing(st: Responder) {
    !st.host.announced || exists i :: 0 <= i < |st.services| && !st.services[i].group.announced
  }

  /** probeTick: the host first, then every service, which may only go live once the host is. */
  function Tick(st: Responder, now: int): Responder {
    var host := TickGroup(st.host, now, true);
    st.(host := host, services := TickServices(st.services, now, host.announced), timerActive := st.timerActive && Probing(st))
  }

  function TickLog(st: Responder, now: int): seq<Entry> {
    var host := TickGroup(st.host, now, true);
    TickEntries(st.host, HostGroup, HostFqdn(st), now, true, host.announced) +
    TickServiceEntries(st.services, now, host.announced)
  }

  function Start(st: Responder, now: int, delay: int): Responder {
    st.(host := BeginProbing(st.host, now, delay), timerActive := true)
  }

  function AddService(st: Responder, stype: Name, name: seq<byte>, port: uint16, txt: seq<TxtEntry>, now: int,
                      delay: int): Responder {
    var s := Service(st.nextId, stype, name, 1, port, txt, BeginProbing(Group(0, false, 0, 0), now, delay));
    st.(services := st.services + [s], nextId := st.nextId + 1, timerActive := true)
  }

  /** Another host turned out to use our name: the suffix moves on unless we were announced, and either way
      the host group starts over at once and the timer runs. */
  function HostConflict(st: Responder, now: int): Responder {
    st.(host := BeginProbing(st.host, now, 0), timerActive := true,
        hostSuffix := if st.host.announced then st.hostSuffix else st.hostSuffix + 1)
  }

  function ServiceConflict(s: Service, now: int): Service {
    s.(group := BeginProbing(s.group, now, 0), suffix := if s.group.announced then s.suffix else s.suffix + 1)
  }

  /** Another prober's records for the same name beat ours: wait a second and start over. */
  predicate LosesTie(g: Group, ours: seq<Record>, theirs: seq<Record>) {
    !g.announced && theirs != [] && Compare(ours, theirs) < 0
  }

  /** The authority records of a probe that speak about `name`. */
  function Named(rs: seq<Record>, name: Name): seq<Record> {
    if rs == [] then [] else (if SameName(rs[0].name, name) then [rs[0]] else []) + Named(rs[1..], name)
  }

  predicate HostTie(st: Responder, q: Message, iface: Option<nat>) {
    LosesTie(st.host, HostProbeRecords(st, iface), Named(q.authorities, HostFqdn(st)))
  }

  predicate ServiceTie(st: Responder, s: Service, q: Message) {
    LosesTie(s.group, ServiceProbeRecords(st, s), Named(q.authorities, InstanceName(s)))
  }

  /** One more announcement goes out, so older scheduled copies fall silent. */
  function Bump(g: Group): Group { if g.announced then g.(generation := g.generation + 1) else g }

  function Defer(g: Group, now: int): Group { BeginProbing(g, now, RETRY_AFTER_LOSS) }

  function Rename(s: Service, name: seq<byte>, now: int, delay: int): Service {
    s.(baseName := name, suffix := 1, group := BeginProbing(s.group, now, delay))
  }

  // ---- Runs ------------------------------------------------------------------------------------

  /** One step of a responder. Delays are whatever the random generator yields. */
  datatype Action =
    | DoTick
    | DoAdd(stype: Name, name: seq<byte>, port: uint16, txt: seq<TxtEntry>, delay: nat)
    | DoRename(index: nat, name: seq<byte>, delay: nat)
    | DoTxt(index: nat, txt: seq<TxtEntry>)
    | DoHostConflict
    | DoServiceConflict(index: nat)
    | DoHostDefer
    | DoServiceDefer(index: nat)
    | DoShutdown

  predicate Enabled(st: Responder, a: Action) {
    match a
    case DoRename(i, _, _) => i < |st.services|
    case DoTxt(i, _) => i < |st.services|
    case DoServiceConflict(i) => i < |st.services|
    case DoServiceDefer(i) => i < |st.services| && !st.services[i].group.announced
    case DoHostDefer => !st.host.announced
    case _ => true
  }

  function SetService(st: Responder, i: nat, s: Service): Responder
    requires i < |st.services|
  {
    st.(services := st.services[i := s], timerActive := true)
  }

  function Act(r: Run, a: Action, now: int): Run
    requires Enabled(r.st, a)
  {
    var st := r.st;
    match a
    case DoTick => Run(Tick(st, now), r.log + TickLog(st, now))
    case DoAdd(stype, name, port, txt, delay) =>
      Run(AddService(st, stype, name, port, txt, now, delay), r.log + [Began(ServiceGroup(st.nextId), now)])
    case DoRename(i, name, delay) =>
      Run(SetService(st, i, Rename(st.services[i], name, now, delay)), r.log + [Began(ServiceGroup(st.services[i].id), now)])
    case DoTxt(i, txt) => Run(st.(services := st.services[i := st.services[i].(txt := txt, group := Bump(st.services[i].group))]), r.log)
    case DoHostConflict => Run(HostConflict(st, now), r.log + [Disturbed(HostGroup, now), Began(HostGroup, now)])
    case DoServiceConflict(i) =>
      var id := ServiceGroup(st.services[i].id);
      Run(SetService(st, i, ServiceConflict(st.services[i], now)), r.log + [Disturbed(id, now), Began(id, now)])
    case DoHostDefer =>
      Run(st.(host := Defer(st.host, now), timerActive := true), r.log + [Disturbed(HostGroup, now), Began(HostGroup, now)])
    case DoServiceDefer(i) =>
      var id, s := ServiceGroup(st.services[i].id), st.services[i];
      Run(SetService(st, i, s.(group := Defer(s.group, now))), r.log + [Disturbed(id, now), Began(id, now)])
    case DoShutdown => Run(st.(services := []), r.log)
  }

  /** Everything logged about `id` since its probing last began. */
  function Since(log: seq<Entry>, id: GroupId): seq<Entry> {
    if log == [] then []
    else
      var before, e := Since(log[..|log| - 1], id), log[|log| - 1];
      if e.group != id then before else if e.Began? then [] else before + [e]
  }

  /** `n` probes for `name`, at least 250 ms apart. */
  predicate Probes(es: seq<Entry>, id: GroupId, name: Name, n: nat) {
    |es| == n &&
    (forall i :: 0 <= i < n ==> es[i].Probed? && es[i].group == id && es[i].name == name) &&
    (forall i :: 0 < i < n ==> es[i].at >= es[i - 1].at + 250)
  }

  /** Three probes for `name`, then going live, while the host was live. */
  predicate Live(es: seq<Entry>, id: GroupId, name: Name) {
    |es| == 4 && Probes(es[..3], id, name, 3) && es[3].WentLive? &&
    es[3].name == name && es[3].at >= es[2].at + 250 && es[3].hostLive
  }

  /** The log since a group last began probing is exactly its probes, and if it is announced also the
      moment it earned that. */
  predicate GroupOk(g: Group, id: GroupId, name: Name, log: seq<Entry>) {
    var es := Since(log, id);
    if g.announced then Live(es, id, name)
    else
      g.probesSent <= 3 && Probes(es, id, name, g.probesSent) &&
      (g.probesSent > 0 ==> g.nextProbeAt == es[g.probesSent - 1].at + 250)
  }

  predicate IdsOk(st: Responder) {
    (forall i :: 0 <= i < |st.services| ==> st.services[i].id < st.nextId) &&
    (forall i, j :: 0 <= i < j < |st.services| ==> st.services[i].id != st.services[j].id)
  }

  predicate ServiceOk(s: Service, log: seq<Entry>) { GroupOk(s.group, ServiceGroup(s.id), InstanceName(s), log) }

  /** The name only goes live after exactly three undisturbed probes for it, 250 ms apart, and 250 ms
      of silence after the last; a service only at a moment the host is live. */
  predicate Earned(log: seq<Entry>, k: nat)
    requires k < |log|
  {
    log[k].WentLive? ==>
      var e, es := log[k], Since(log[..k], log[k].group);
      Probes(es, e.group, e.name, 3) && e.at >= es[2].at + 250 && e.hostLive
  }

  ghost predicate AllEarned(log: seq<Entry>) { forall k :: 0 <= k < |log| ==> Earned(log, k) }

  ghost predicate RunOk(r: Run) {
    IdsOk(r.st) && (Probing(r.st) ==> r.st.timerActive) &&
    GroupOk(r.st.host, HostGroup, HostFqdn(r.st), r.log) &&
    (forall i :: 0 <= i < |r.st.services| ==> ServiceOk(r.st.services[i], r.log)) &&
    AllEarned(r.log)
  }

  // ---- The log ---------------------------------------------------------------------------------

  lemma {:induction false} SinceStep(log: seq<Entry>, e: Entry, id: GroupId)
    ensures Since(log + [e], id) == if e.group != id then Since(log, id) else if e.Began? then [] else Since(log, id) + [e]
  {
    assert (log + [e])[..|log|] == log;
  }

  lemma {:induction false} EarnedStep(log: seq<Entry>, e: Entry)
    requires AllEarned(log)
    requires e.WentLive? ==>
      var es := Since(log, e.group); Probes(es, e.group, e.name, PROBE_COUNT) && e.at >= es[2].at + PROBE_INTERVAL && e.hostLive
    ensures AllEarned(log + [e])
  {
    forall k | 0 <= k < |log + [e]| ensures Earned(log + [e], k) {
      assert (log + [e])[..k] == log[..k];
      if k < |log| { assert Earned(log, k); } else { assert log[..k] == log; }
    }
  }

  /** Entries about other groups leave a group's history alone. */
  lemma {:induction false} OtherGroup(g: Group, id: GroupId, name: Name, log: seq<Entry>, e: Entry)
    requires GroupOk(g, id, name, log) && e.group != id
    ensures GroupOk(g, id, name, log + [e])
  {
    SinceStep(log, e, id);
  }

  lemma {:induction false} FreshStart(g: Group, id: GroupId, name: Name, log: seq<Entry>, at: int)
    requires g.probesSent == 0 && !g.announced
    ensures GroupOk(g, id, name, log + [Began(id, at)])
  {
    SinceStep(log, Began(id, at), id);
  }

  /** A group that has sent its three probes and waited goes live. */
  lemma {:induction false} GoesLive(g: Group, id: GroupId, name: Name, log: seq<Entry>, now: int)
    requires GroupOk(g, id, name, log) && AllEarned(log) && !g.announced && g.probesSent == PROBE_COUNT && now >= g.nextProbeAt
    ensures var e := WentLive(id, now, name, true); GroupOk(g.(announced := true), id, name, log + [e]) && AllEarned(log + [e])
  {
    var e, es := WentLive(id, now, name, true), Since(log, id);
    SinceStep(log, e, id);
    EarnedStep(log, e);
    assert (es + [e])[..PROBE_COUNT] == es;
  }

  lemma {:induction false} ProbesGrow(es: seq<Entry>, id: GroupId, name: Name, n: nat, e: Entry)
    requires Probes(es, id, name, n) && e.Probed? && e.group == id && e.name == name &&
      (n > 0 ==> e.at >= es[n - 1].at + PROBE_INTERVAL)
    ensures Probes(es + [e], id, name, n + 1)
  {
    var more := es + [e];
    forall i | 0 < i < n + 1 ensures more[i].at >= more[i - 1].at + PROBE_INTERVAL {
      if i < n { assert more[i] == es[i] && more[i - 1] == es[i - 1]; }
    }
  }

  /** One more probe goes out. */
  lemma {:induction false} ProbesOnce(g: Group, id: GroupId, name: Name, log: seq<Entry>, now: int)
    requires GroupOk(g, id, name, log) && AllEarned(log) && !g.announced && g.probesSent < PROBE_COUNT && now >= g.nextProbeAt
    ensures var e := Probed(id, now, name);
      GroupOk(g.(probesSent := g.probesSent + 1, nextProbeAt := now + PROBE_INTERVAL), id, name, log + [e]) &&
        AllEarned(log + [e])
  {
    var e, es := Probed(id, now, name), Since(log, id);
    SinceStep(log, e, id);
    EarnedStep(log, e);
    ProbesGrow(es, id, name, g.probesSent, e);
    assert (es + [e])[g.probesSent] == e;
  }

  /** One group's share of a tick. */
  lemma {:induction false} TickGroupKeeps(g: Group, id: GroupId, name: Name, log: seq<Entry>, now: int, can: bool, hostLive: bool)
    requires GroupOk(g, id, name, log) && (can ==> hostLive)
    requires AllEarned(log)
    ensures var log' := log + TickEntries(g, id, name, now, can, hostLive);
      GroupOk(TickGroup(g, now, can), id, name, log') && AllEarned(log')
  {
    var es := TickEntries(g, id, name, now, can, hostLive);
    if es == [] {
      assert log + es == log;
    } else if g.probesSent < PROBE_COUNT {
      ProbesOnce(g, id, name, log, now);
    } else {
      GoesLive(g, id, name, log, now);
    }
  }

  predicate NoneAbout(es: seq<Entry>, id: GroupId) { forall i :: 0 <= i < |es| ==> es[i].group != id }

  lemma {:induction false} OtherEntries(g: Group, id: GroupId, name: Name, log: seq<Entry>, es: seq<Entry>)
    requires GroupOk(g, id, name, log) && NoneAbout(es, id)
    ensures GroupOk(g, id, name, log + es)
    decreases |es|
  {
    if es == [] {
      assert log + es == log;
    } else {
      OtherGroup(g, id, name, log, es[0]);
      OtherEntries(g, id, name, log + [es[0]], es[1..]);
      assert log + es == log + [es[0]] + es[1..];
    }
  }

  lemma {:induction false} TickEntriesAbout(ss: seq<Service>, now: int, hostLive: bool, id: GroupId)
    requires forall i :: 0 <= i < |ss| ==> ServiceGroup(ss[i].id) != id
    ensures NoneAbout(TickServiceEntries(ss, now, hostLive), id)
  {
    if ss != [] { TickEntriesAbout(ss[1..], now, hostLive, id); }
  }

  ghost predicate ServicesOk(ss: seq<Service>, log: seq<Entry>) {
    forall i :: 0 <= i < |ss| ==> ServiceOk(ss[i], log)
  }

  predicate DistinctIds(ss: seq<Service>) { forall i, j :: 0 <= i < j < |ss| ==> ss[i].id != ss[j].id }

  lemma {:induction false} ServicesUntouched(ss: seq<Service>, log: seq<Entry>, es: seq<Entry>)
    requires ServicesOk(ss, log) && forall i :: 0 <= i < |ss| ==> NoneAbout(es, ServiceGroup(ss[i].id))
    ensures ServicesOk(ss, log + es)
  {
    forall i | 0 <= i < |ss| ensures ServiceOk(ss[i], log + es) {
      OtherEntries(ss[i].group, ServiceGroup(ss[i].id), InstanceName(ss[i]), log, es);
    }
  }

  lemma {:induction false} TickServicesIds(ss: seq<Service>, now: int, hostLive: bool)
    ensures var ts := TickServices(ss, now, hostLive);
      |ts| == |ss| && forall i :: 0 <= i < |ss| ==> ts[i] == ss[i].(group := TickGroup(ss[i].group, now, hostLive))
  {
    MapServicesAt(s => TickService(s, now, hostLive), ss);
  }

  lemma {:induction false} ServicesCons(t: Service, ts: seq<Service>, log: seq<Entry>, more: seq<Entry>)
    requires ServiceOk(t, log) && NoneAbout(more, ServiceGroup(t.id)) && ServicesOk(ts, log + more)
    ensures ServicesOk([t] + ts, log + more)
  {
    OtherEntries(t.group, ServiceGroup(t.id), InstanceName(t), log, more);
    forall i | 0 <= i < |[t] + ts| ensures ServiceOk(([t] + ts)[i], log + more) {
      if i > 0 { assert ServiceOk(ts[i - 1], log + more); }
    }
  }

  lemma {:induction false} TickOneKeeps(s: Service, now: int, hostLive: bool, log: seq<Entry>)
    requires ServiceOk(s, log) && AllEarned(log)
    ensures var log' := log + TickEntries(s.group, ServiceGroup(s.id), InstanceName(s), now, hostLive, hostLive);
      ServiceOk(s.(group := TickGroup(s.group, now, hostLive)), log') && AllEarned(log')
  {
    TickGroupKeeps(s.group, ServiceGroup(s.id), InstanceName(s), log, now, hostLive, hostLive);
  }

  lemma {:induction false} TickServicesKeep(ss: seq<Service>, now: int, hostLive: bool, log: seq<Entry>)
    requires ServicesOk(ss, log) && DistinctIds(ss) && AllEarned(log)
    ensures ServicesOk(TickServices(ss, now, hostLive), log + TickServiceEntries(ss, now, hostLive))
    ensures AllEarned(log + TickServiceEntries(ss, now, hostLive))
    decreases |ss|, 0
  {
    if ss == [] {
      assert log + [] == log;
    } else {
      var s, rest := ss[0], ss[1..];
      var es := TickEntries(s.group, ServiceGroup(s.id), InstanceName(s), now, hostLive, hostLive);
      TickOneKeeps(s, now, hostLive, log);
      ServicesUntouched(rest, log, es);
      TickRestKeeps(s.(group := TickGroup(s.group, now, hostLive)), rest, now, hostLive, log + es);
      Regroup(log, es, TickServiceEntries(rest, now, hostLive));
    }
  }

  /** The service just stepped stays in order while the others take their turn. */
  lemma {:induction false} TickRestKeeps(t: Service, rest: seq<Service>, now: int, hostLive: bool, log: seq<Entry>)
    requires ServiceOk(t, log) && ServicesOk(rest, log) && DistinctIds(rest) && AllEarned(log)
    requires forall i :: 0 <= i < |rest| ==> rest[i].id != t.id
    ensures ServicesOk([t] + TickServices(rest, now, hostLive), log + TickServiceEntries(rest, now, hostLive))
    ensures AllEarned(log + TickServiceEntries(rest, now, hostLive))
    decreases |rest|, 1
  {
    TickServicesKeep(rest, now, hostLive, log);
    TickEntriesAbout(rest, now, hostLive, ServiceGroup(t.id));
    ServicesCons(t, TickServices(rest, now, hostLive), log, TickServiceEntries(rest, now, hostLive));
  }

  lemma {:induction false} TickStillProbing(ss: seq<Service>, now: int, hostLive: bool)
    requires forall i :: 0 <= i < |ss| ==> ss[i].group.announced
    ensures TickServices(ss, now, hostLive) == ss
  {
    if ss != [] {
      TickStillProbing(ss[1..], now, hostLive);
      assert ss == [ss[0]] + ss[1..] && ss[0].(group := ss[0].group) == ss[0];
    }
  }

  lemma {:induction false} TickKeepsLog(st: Responder, log: seq<Entry>, now: int)
    requires GroupOk(st.host, HostGroup, HostFqdn(st), log) && ServicesOk(st.services, log) &&
      DistinctIds(st.services) && AllEarned(log)
    ensures var host, log' := TickGroup(st.host, now, true), log + TickLog(st, now);
      GroupOk(host, HostGroup, HostFqdn(st), log') && ServicesOk(TickServices(st.services, now, host.announced), log') &&
        AllEarned(log')
  {
    var host := TickGroup(st.host, now, true);
    var es := TickEntries(st.host, HostGroup, HostFqdn(st), now, true, host.announced);
    TickHostKeeps(st.host, HostFqdn(st), log, now);
    TickEntriesOfOne(st.host, HostGroup, HostFqdn(st), now, true, host.announced);
    ServicesUntouched(st.services, log, es);
    TickAfterHost(st.services, host, HostFqdn(st), log + es, now);
    Regroup(log, es, TickServiceEntries(st.services, now, host.announced));
  }

  lemma {:induction false} TickEntriesOfOne(g: Group, id: GroupId, name: Name, now: int, can: bool, hostLive: bool)
    ensures forall e :: e in TickEntries(g, id, name, now, can, hostLive) ==> e.group == id
  {
  }

  lemma {:induction false} TickAfterHost(ss: seq<Service>, host: Group, name: Name, log: seq<Entry>, now: int)
    requires GroupOk(host, HostGroup, name, log) && ServicesOk(ss, log) && DistinctIds(ss) && AllEarned(log)
    ensures var log' := log + TickServiceEntries(ss, now, host.announced);
      GroupOk(host, HostGroup, name, log') && ServicesOk(TickServices(ss, now, host.announced), log') && AllEarned(log')
  {
    TickServicesKeep(ss, now, host.announced, log);
    TickEntriesAbout(ss, now, host.announced, HostGroup);
    OtherEntries(host, HostGroup, name, log, TickServiceEntries(ss, now, host.announced));
  }

  lemma {:induction false} TickKeeps(r: Run, now: int)
    requires RunOk(r)
    ensures RunOk(Act(r, DoTick, now))
  {
    var host := TickGroup(r.st.host, now, true);
    TickKeepsLog(r.st, r.log, now);
    TickServicesIds(r.st.services, now, host.announced);
    if !Probing(r.st) { TickStillProbing(r.st.services, now, host.announced); }
  }

  /** The host may always go live, and is live from the moment it does. */
  lemma {:induction false} TickHostKeeps(g: Group, name: Name, log: seq<Entry>, now: int)
    requires GroupOk(g, HostGroup, name, log) && AllEarned(log)
    ensures var host := TickGroup(g, now, true);
      var log' := log + TickEntries(g, HostGroup, name, now, true, host.announced);
      GroupOk(host, HostGroup, name, log') && AllEarned(log')
  {
    var host := TickGroup(g, now, true);
    if host.announced {
      TickGroupKeeps(g, HostGroup, name, log, now, true, true);
    } else {
      assert TickEntries(g, HostGroup, name, now, true, false) == TickEntries(g, HostGroup, name, now, false, false);
      TickGroupKeeps(g, HostGroup, name, log, now, false, false);
    }
  }

  /** Entries about one service leave the others in order. */
  lemma {:induction false} OthersKeep(ss: seq<Service>, i: nat, log: seq<Entry>, es: seq<Entry>)
    requires i < |ss| && forall j :: 0 <= j < |ss| ==> ServiceOk(ss[j], log) && (j != i ==> ss[j].id != ss[i].id)
    requires forall k :: 0 <= k < |es| ==> es[k].group == ServiceGroup(ss[i].id)
    ensures forall j :: 0 <= j < |ss| && j != i ==> ServiceOk(ss[j], log + es)
  {
    forall j | 0 <= j < |ss| && j != i ensures ServiceOk(ss[j], log + es) {
      OtherEntries(ss[j].group, ServiceGroup(ss[j].id), InstanceName(ss[j]), log, es);
    }
  }

  /** The restarted group itself. */
  lemma {:induction false} RestartedOk(g: Group, id: GroupId, name: Name, log: seq<Entry>, es: seq<Entry>, now: int)
    requires g.probesSent == 0 && !g.announced && (es == [Began(id, now)] || es == [Disturbed(id, now), Began(id, now)])
    ensures GroupOk(g, id, name, log + es)
  {
    var before := log + es[..|es| - 1];
    assert log + es == before + [Began(id, now)];
    FreshStart(g, id, name, before, now);
  }

  /** Restarting one service's probing, whatever else about it changes. */
  lemma {:induction false} RestartService(r: Run, i: nat, s: Service, es: seq<Entry>, now: int)
    requires RunOk(r) && i < |r.st.services| && s.id == r.st.services[i].id && s.group.probesSent == 0 && !s.group.announced
    requires es == [Began(ServiceGroup(s.id), now)] || es == [Disturbed(ServiceGroup(s.id), now), Began(ServiceGroup(s.id), now)]
    ensures RunOk(Run(SetService(r.st, i, s), r.log + es))
  {
    LogOnly(r.log, es);
    RestartedOk(s.group, ServiceGroup(s.id), InstanceName(s), r.log, es, now);
    OtherEntries(r.st.host, HostGroup, HostFqdn(r.st), r.log, es);
    OthersKeep(r.st.services, i, r.log, es);
  }

  lemma {:induction false} RestartHost(r: Run, st: Responder, es: seq<Entry>, now: int)
    requires RunOk(r) && st.services == r.st.services && st.nextId == r.st.nextId && st.timerActive &&
      st.host.probesSent == 0 && !st.host.announced
    requires es == [Disturbed(HostGroup, now), Began(HostGroup, now)]
    ensures RunOk(Run(st, r.log + es))
  {
    assert r.log + es == r.log + [es[0]] + [es[1]];
    LogOnly(r.log, es);
    FreshStart(st.host, HostGroup, HostFqdn(st), r.log + [es[0]], now);
    ServicesUntouched(st.services, r.log, es);
  }

  /** Entries that do not go live need no justification. */
  lemma {:induction false} LogOnly(log: seq<Entry>, es: seq<Entry>)
    requires AllEarned(log) && forall i :: 0 <= i < |es| ==> !es[i].WentLive?
    ensures AllEarned(log + es)
    decreases |es|
  {
    if es == [] {
      assert log + es == log;
    } else {
      EarnedStep(log, es[0]);
      LogOnly(log + [es[0]], es[1..]);
      assert log + es == log + [es[0]] + es[1..];
    }
  }

  lemma {:induction false} AddKeeps(r: Run, stype: Name, name: seq<byte>, port: uint16, txt: seq<TxtEntry>, delay: nat, now: int)
    requires RunOk(r)
    ensures RunOk(Act(r, DoAdd(stype, name, port, txt, delay), now))
  {
    var r', es := Act(r, DoAdd(stype, name, port, txt, delay), now), [Began(ServiceGroup(r.st.nextId), now)];
    var s := r'.st.services[|r.st.services|];
    LogOnly(r.log, es);
    OtherEntries(r.st.host, HostGroup, HostFqdn(r.st), r.log, es);
    ServicesUntouched(r.st.services, r.log, es);
    FreshStart(s.group, ServiceGroup(s.id), InstanceName(s), r.log, now);
    assert ServiceOk(s, r'.log);
  }

  lemma {:induction false} TxtKeeps(r: Run, i: nat, txt: seq<TxtEntry>)
    requires RunOk(r) && i < |r.st.services|
    ensures RunOk(Run(r.st.(services := r.st.services[i := r.st.services[i].(txt := txt, group := Bump(r.st.services[i].group))]), r.log))
  {
    var s, ss := r.st.services[i], r.st.services;
    var t := s.(txt := txt, group := Bump(s.group));
    assert ServiceOk(s, r.log) && InstanceName(t) == InstanceName(s);
    var after := ss[i := t];
    assert forall j :: 0 <= j < |ss| ==> after[j].group.announced == ss[j].group.announced;
  }

  lemma {:induction false} ShutdownKeeps(r: Run)
    requires RunOk(r)
    ensures RunOk(Run(r.st.(services := []), r.log))
  {
  }

  /** Every step of every kind keeps the run invariant. */
  lemma {:induction false} ActKeeps(r: Run, a: Action, now: int)
    requires RunOk(r) && Enabled(r.st, a)
    ensures RunOk(Act(r, a, now))
  {
    var st := r.st;
    match a
    case DoTick => TickKeeps(r, now);
    case DoAdd(stype, name, port, txt, delay) => AddKeeps(r, stype, name, port, txt, delay, now);
    case DoRename(i, name, delay) =>
      RestartService(r, i, Rename(st.services[i], name, now, delay), [Began(ServiceGroup(st.services[i].id), now)], now);
    case DoTxt(i, txt) => TxtKeeps(r, i, txt);
    case DoHostConflict => RestartHost(r, HostConflict(st, now), [Disturbed(HostGroup, now), Began(HostGroup, now)], now);
    case DoServiceConflict(i) =>
      var id := ServiceGroup(st.services[i].id);
      RestartService(r, i, ServiceConflict(st.services[i], now), [Disturbed(id, now), Began(id, now)], now);
    case DoHostDefer =>
      RestartHost(r, st.(host := Defer(st.host, now), timerActive := true), [Disturbed(HostGroup, now), Began(HostGroup, now)], now);
    case DoServiceDefer(i) =>
      var id, s := ServiceGroup(st.services[i].id), st.services[i];
      RestartService(r, i, s.(group := Defer(s.group, now)), [Disturbed(id, now), Began(id, now)], now);
    case DoShutdown => ShutdownKeeps(r);
  }

  datatype Timed = Timed(action: Action, at: int)

  ghost predicate Possible(r: Run, steps: seq<Timed>)
    decreases |steps|
  {
    steps == [] || (Enabled(r.st, steps[0].action) && Possible(Act(r, steps[0].action, steps[0].at), steps[1..]))
  }

  function Play(r: Run, steps: seq<Timed>): Run
    requires Possible(r, steps)
    decreases |steps|
  {
    if steps == [] then r else Play(Act(r, steps[0].action, steps[0].at), steps[1..])
  }

  function Initial(base: Label, ifaces: seq<seq<uint32>>, now: int, delay: nat): Run {
    Run(Start(Responder(base, 1, Group(0, false, 0, 0), [], 1, ifaces, false), now, delay), [Began(HostGroup, now)])
  }

  /** Main result: in every run, whenever a name goes live it has been probed for exactly three times
      since probing for it last began, undisturbed, with the intervals section 8.1 of RFC 6762 asks
      for, and services only while the host is live; and the probe timer runs while anything is
      unannounced. */
  lemma {:induction false} ProbingIsSafe(base: Label, ifaces: seq<seq<uint32>>, now: int, delay: nat, steps: seq<Timed>)
    requires Possible(Initial(base, ifaces, now, delay), steps)
    ensures RunOk(Play(Initial(base, ifaces, now, delay), steps))
  {
    var r := Initial(base, ifaces, now, delay);
    FreshStart(r.st.host, HostGroup, HostFqdn(r.st), [], now);
    assert [] + [Began(HostGroup, now)] == r.log;
    PlayKeeps(r, steps);
  }

  lemma {:induction false} PlayKeeps(r: Run, steps: seq<Timed>)
    requires RunOk(r) && Possible(r, steps)
    ensures RunOk(Play(r, steps))
    decreases |steps|
  {
    if steps != [] {
      ActKeeps(r, steps[0].action, steps[0].at);
      PlayKeeps(Act(r, steps[0].action, steps[0].at), steps[1..]);
    }
  }
}
