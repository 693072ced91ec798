/** The responder object: timers, API calls and received packets updating its fields in place and
    putting messages on the wire. */
module MdnsResponder {
  import opened Bytes
  import opened DnsName
  import opened DnsMessage
  import opened MdnsRecords
  import opened MdnsProbe
  import opened MdnsHandlers
  import opened MdnsQuery
  import opened MdnsAnnounce
  import opened MdnsReachable

  lemma {:induction false} FlatNext(goal: seq<Entry>, log: seq<Entry>, f: Service -> seq<Entry>, rest: seq<Service>)
    requires rest != [] && goal == log + Flat(f, rest)
    ensures goal == log + f(rest[0]) + Flat(f, rest[1..])
  {
    Regroup(log, f(rest[0]), Flat(f, rest[1..]));
  }

  lemma {:induction false} ThenGroups(a: Output, b: Output, c: Output)
    ensures Then(a, Then(b, c)) == Then(Then(a, b), c)
    ensures Then(a, NOTHING) == a
  {
    Regroup(a.sent, b.sent, c.sent);
    Regroup(a.due, b.due, c.due);
    assert a.sent + [] == a.sent && a.due + [] == a.due;
  }

  lemma {:induction false} OutputsNext(goal: Output, so: Output, f: Service -> Output, rest: seq<Service>)
    requires rest != [] && goal == Then(so, Outputs(f, rest))
    ensures goal == Then(Then(so, f(rest[0])), Outputs(f, rest[1..]))
  {
    ThenGroups(so, f(rest[0]), Outputs(f, rest[1..]));
  }

  lemma {:induction false} TickAsks(st: Responder, now: int)
    ensures AsksAsLogged(TickOutput(st, now).sent, TickLog(st, now), |st.ifaces|)
  {
    forall i: nat | i < |st.ifaces| ensures AskedNames(TickOutput(st, now).sent, i) == ProbedNames(TickLog(st, now)) {
      TickAsksWhatItLogs(st, now, i);
    }
  }

  lemma {:induction false} BeganGrows(os: seq<Outgoing>, es: seq<Entry>, id: GroupId, now: int, ifaces: nat)
    requires AsksAsLogged(os, es, ifaces)
    ensures AsksAsLogged(os, es + [Began(id, now)], ifaces)
  {
    assert [Began(id, now)][1..] == [] && os + [] == os;
    QuietGrows(os, es, [], [Began(id, now)], ifaces);
  }

  lemma {:induction false} RestartsGrow(os: seq<Outgoing>, es: seq<Entry>, st: Responder, m: Message, iface: Option<nat>,
                                        now: int,
                                        ifaces: nat)
    requires AsksAsLogged(os, es, ifaces)
    ensures AsksAsLogged(os, es + DeferLog(st, m, iface, now), ifaces) && AsksAsLogged(os, es + ResponseLog(st, m, now), ifaces)
  {
    RestartsProbeNothing(st, m, iface, now);
    assert os + [] == os;
    QuietGrows(os, es, [], DeferLog(st, m, iface, now), ifaces);
    QuietGrows(os, es, [], ResponseLog(st, m, now), ifaces);
  }

  class MdnsResponder {
    const hostLabel: Label
    var hostSuffix: nat
    var host: Group
    var services: seq<Service>
    var nextId: nat
    const ifaces: seq<seq<uint32>>
    var timerActive: bool
    /** The multicasts made, and the copies of announcements still to come. */
    var sent: seq<Outgoing>
    var due: seq<Due>
    /** When each name began probing, probed, was disturbed and went live. */
    ghost var log: seq<Entry>

    function View(): Responder
      reads this
    {
      Responder(hostLabel, hostSuffix, host, services, nextId, ifaces, timerActive)
    }

    function Wire(): Output
      reads this
    {
      Output(sent, due)
    }

    /** The object is in a state of a run, its log is that run's, and on every interface the probes sent
        so far are those in the log, one for one. */
    ghost predicate Valid()
      reads this
    {
      RunOk(Run(View(), log)) && AsksAsLogged(sent, log, |ifaces|)
    }

    constructor (hostLabel: Label, ifaces: seq<seq<uint32>>, now: int, delay: nat)
      ensures Valid() && Run(View(), log) == Initial(hostLabel, ifaces, now, delay) && Wire() == NOTHING
    {
      this.hostLabel, this.hostSuffix, this.services, this.nextId, this.ifaces := hostLabel, 1, [], 1, ifaces;
      this.host, this.timerActive := BeginProbing(Group(0, false, 0, 0), now, delay), true;
      this.sent, this.due, this.log := [], [], [Began(HostGroup, now)];
      new;
      ProbingIsSafe(hostLabel, ifaces, now, delay, []);
      NoProbes(log);
    }

    method Emit(o: Output)
      modifies `sent, `due
      ensures Wire() == Then(old(Wire()), o)
    {
      sent := sent + o.sent;
      due := due + o.due;
    }

    /** What the `i`-th service has to say goes out; `goal` is what will have gone out in the end. */
    method EmitNext(say: Service -> Output, all: seq<Service>, i: nat, ghost goal: Output)
      requires i < |all| && goal == Then(Wire(), Outputs(say, all[i..]))
      modifies `sent, `due
      ensures goal == Then(Wire(), Outputs(say, all[i + 1..]))
    {
      OutputsNext(goal, Wire(), say, all[i..]);
      assert all[i..][0] == all[i] && all[i..][1..] == all[i + 1..];
      Emit(say(all[i]));
    }

    /** One message for each interface, in a loop. */
    method Multicast(make: Option<nat> -> Message)
      modifies `sent
      ensures sent == old(sent) + OnEachInterface(View(), make)
    {
      var before, i := sent, 0;
      while i < |ifaces|
        invariant i <= |ifaces| && sent == before + OnEachInterface(View(), make)[..i]
      {
        sent := sent + [Outgoing(i, make(Some(i)))];
        i := i + 1;
      }
      assert OnEachInterface(View(), make)[..i] == OnEachInterface(View(), make);
    }

    /** Steps every service in turn, putting what it says on the wire and into the log. */
    method ForEachService(step: Service -> Service, say: Service -> Output, hit: Service -> bool,
                          ghost entries: Service -> seq<Entry>) returns (any: bool)
      modifies `services, `sent, `due, `log
      ensures services == MapServices(step, old(services)) && Wire() == Then(old(Wire()), Outputs(say, old(services)))
      ensures log == old(log) + Flat(entries, old(services))
      ensures any <==> exists j :: 0 <= j < |old(services)| && hit(old(services)[j])
    {
      var all := services;
      ghost var goal, wire := log + Flat(entries, all), Then(Wire(), Outputs(say, all));
      any := false;
      assert all[0..] == all;
      MapServicesAt(step, all);
      for i := 0 to |all|
        invariant |services| == |all| && forall j :: i <= j < |all| ==> services[j] == all[j]
        invariant forall j :: 0 <= j < i ==> services[j] == step(all[j])
        invariant goal == log + Flat(entries, all[i..]) && wire == Then(Wire(), Outputs(say, all[i..]))
        invariant any <==> exists j :: 0 <= j < i && hit(all[j])
      {
        FlatNext(goal, log, entries, all[i..]);
        assert all[i..][0] == all[i] && all[i..][1..] == all[i + 1..];
        any := any || hit(all[i]);
        log := log + entries(services[i]);
        EmitNext(say, all, i, wire);
        services := services[i := step(services[i])];
      }
      ThenGroups(Wire(), NOTHING, NOTHING);
      assert log + [] == log && all[|all|..] == [] && services == MapServices(step, all);
    }

    /** The host's share of a tick: a probe, or going live with all that follows. */
    method StepHost(now: int)
      modifies `host, `sent, `due
      ensures View() == old(View()).(host := TickGroup(old(host), now, true))
      ensures Wire() == Then(old(Wire()), HostTickOutput(old(View()), now))
    {
      var before := View();
      ghost var was := Wire();
      ThenGroups(was, NOTHING, NOTHING);
      if host.announced || now < host.nextProbeAt { return; }
      if host.probesSent < PROBE_COUNT {
        Multicast(iface => HostProbe(before, iface));
        assert due + [] == due;
        host := host.(probesSent := host.probesSent + 1, nextProbeAt := now + PROBE_INTERVAL);
      } else {
        host := host.(announced := true);
        AnnounceHostNow(now);
      }
    }

    /** The first copy goes out at once, two more are scheduled, and announced services follow. */
    method AnnounceHostNow(now: int)
      modifies `sent, `due
      ensures Wire() == Then(old(Wire()), AnnounceHost(View(), now))
    {
      var st := View();
      ghost var was := Wire();
      Multicast(iface => HostAnnouncement(st, iface));
      due := due + [Due(now + 1000, HostShot(host.generation)), Due(now + 3000, HostShot(host.generation))];
      ghost var first := Repeat(OnEachInterface(st, iface => HostAnnouncement(st, iface)), HostShot(host.generation), now);
      assert Wire() == Then(was, first);
      ghost var goal := Then(Wire(), Outputs(s => AnnounceIfLive(st, s, now), services));
      ThenGroups(was, first, Outputs(s => AnnounceIfLive(st, s, now), services));
      assert services[0..] == services;
      for i := 0 to |services|
        invariant View() == st && goal == Then(Wire(), Outputs(s => AnnounceIfLive(st, s, now), services[i..]))
      {
        EmitNext(s => AnnounceIfLive(st, s, now), services, i, goal);
      }
      ThenGroups(Wire(), NOTHING, NOTHING);
    }

    /** The services' share of a tick, `live` being the responder after the host's. */
    method StepServices(live: Responder, now: int) returns (more: bool)
      modifies `services, `sent, `due, `log
      ensures services == TickServices(old(services), now, live.host.announced)
      ensures Wire() == Then(old(Wire()), ServicesTickOutput(live, old(services), now))
      ensures log == old(log) + TickServiceEntries(old(services), now, live.host.announced)
      ensures more <==> exists j :: 0 <= j < |old(services)| && !old(services)[j].group.announced
    {
      more := ForEachService(s => TickService(s, now, live.host.announced), s => ServiceTickOutput(live, s, now),
                             (s: Service) => !s.group.announced, s => ServiceEntries(s, now, live.host.announced));
    }

    method StepAll(now: int)
      modifies this
      ensures View() == Tick(old(View()), now) && log == old(log) + TickLog(old(View()), now)
      ensures Wire() == Then(old(Wire()), TickOutput(old(View()), now))
    {
      var probing, before := !host.announced, View();
      StepHost(now);
      var live := View();
      ghost var entries := TickEntries(before.host, HostGroup, HostFqdn(before), now, true, host.announced);
      Regroup(log, entries, TickServiceEntries(services, now, host.announced));
      log := log + entries;
      ThenGroups(old(Wire()), HostTickOutput(before, now), ServicesTickOutput(live, services, now));
      var more := StepServices(live, now);
      if !probing && !more { timerActive := false; }
    }

    /** One firing of the probe timer. */
    method ProbeTick(now: int)
      requires Valid()
      modifies this
      ensures Valid() && View() == Tick(old(View()), now) && log == old(log) + TickLog(old(View()), now)
      ensures Wire() == Then(old(Wire()), TickOutput(old(View()), now))
    {
      ActKeeps(Run(View(), log), DoTick, now);
      TickAsks(View(), now);
      BothGrow(sent, log, TickOutput(View(), now).sent, TickLog(View(), now), |ifaces|);
      StepAll(now);
    }

    /** A scheduled copy comes up; it is silent if its name has moved on. */
    method FireShot(k: nat)
      requires Valid() && k < |due|
      modifies `sent, `due
      ensures Valid() && sent == old(sent) + Copies(View(), old(due)[k].shot) && due == old(due)[..k] + old(due)[k + 1..]
    {
      var shot := due[k].shot;
      CopiesAskNothing(View(), shot);
      QuietGrows(sent, log, Copies(View(), shot), [], |ifaces|);
      assert log + [] == log;
      due := due[..k] + due[k + 1..];
      sent := sent + Copies(View(), shot);
    }

    method Add(stype: Name, name: seq<byte>, port: uint16, txt: seq<TxtEntry>, now: int, delay: nat)
      requires Valid()
      modifies this
      ensures Valid() && View() == AddService(old(View()), stype, name, port, txt, now, delay) && Wire() == old(Wire())
      ensures log == old(log) + [Began(ServiceGroup(old(nextId)), now)]
    {
      ActKeeps(Run(View(), log), DoAdd(stype, name, port, txt, delay), now);
      BeganGrows(sent, log, ServiceGroup(nextId), now, |ifaces|);
      var s := Service(nextId, stype, name, 1, port, txt, BeginProbing(Group(0, false, 0, 0), now, delay));
      log := log + [Began(ServiceGroup(nextId), now)];
      services, nextId, timerActive := services + [s], nextId + 1, true;
    }

    /** The `i`-th service takes leave and starts over; `goal` is what will have been said in the end. */
    method RenameOne(say: Service -> Output, all: seq<Service>, i: nat, name: seq<byte>, now: int, delay: nat, ghost goal: Output)
      requires i < |all| == |services| && services[i] == all[i] && goal == Then(Wire(), Outputs(say, all[i..]))
      modifies `services, `timerActive, `sent, `due
      ensures goal == Then(Wire(), Outputs(say, all[i + 1..]))
      ensures services == old(services)[i := Rename(all[i], name, now, delay)] && timerActive
    {
      EmitNext(say, all, i, goal);
      services := services[i := Rename(services[i], name, now, delay)];
      timerActive := true;
    }

    /** The loop of renameAll. */
    method RenameEach(name: seq<byte>, now: int, delays: seq<nat>)
      requires |delays| == |services|
      modifies `services, `timerActive, `sent, `due
      ensures Wire() == Then(old(Wire()), Goodbyes(old(View())))
      ensures services == Renamed(old(services), name, now, delays) && timerActive == (old(timerActive) || old(services) != [])
    {
      var st, all := View(), services;
      ghost var wire, renamed := Then(Wire(), Goodbyes(st)), Renamed(all, name, now, delays);
      var say: Service -> Output := s => GoodbyeIfLive(st, s);
      RenamedAt(all, name, now, delays);
      assert all[0..] == all && Goodbyes(st) == Outputs(say, all);
      for i := 0 to |all|
        invariant |services| == |all| == |renamed| && forall j :: i <= j < |all| ==> services[j] == all[j]
        invariant forall j :: 0 <= j < i ==> services[j] == renamed[j]
        invariant timerActive == (st.timerActive || i > 0)
        invariant wire == Then(Wire(), Outputs(say, all[i..]))
      {
        RenameOne(say, all, i, name, now, delays[i], wire);
      }
      ThenGroups(Wire(), NOTHING, NOTHING);
      assert services == renamed;
    }

    /** Says goodbye for every announced service, gives all a new base name and starts them over. */
    method RenameAll(name: seq<byte>, now: int, delays: seq<nat>)
      requires Valid() && |delays| == |services|
      modifies this
      ensures Valid() && log == old(log) + RenameLog(old(services), now) && Wire() == Then(old(Wire()), Goodbyes(old(View())))
      ensures View() == old(View()).(services := Renamed(old(services), name, now, delays),
                                     timerActive := old(timerActive) || old(services) != [])
    {
      ghost var all := services;
      GoodbyesAskNothing(View());
      RenamingProbesNothing(all, now);
      QuietGrows(sent, log, Goodbyes(View()).sent, RenameLog(all, now), |ifaces|);
      RenameKeepsProbingSafe(Run(View(), log), name, delays, now);
      RenameEach(name, now, delays);
      log := log + RenameLog(all, now);
    }

    /** Sets the value in every service of the type; announced ones enter a new generation and say so. */
    method UpdateTxt(stype: Name, key: seq<byte>, value: seq<byte>, now: int)
      requires Valid()
      modifies this
      ensures Valid() && log == old(log)
      ensures View() == old(View()).(services := MapServices(s => WithTxt(s, stype, key, value), old(services)))
      ensures Wire() == Then(old(Wire()), TxtOutput(old(View()), stype, key, value, now))
    {
      var st := View();
      UpdateKeepsProbingSafe(Run(st, log), stype, key, value, now);
      TxtAsksNothing(st, stype, key, value, now);
      QuietGrows(sent, log, TxtOutput(st, stype, key, value, now).sent, [], |ifaces|);
      ghost var entries: Service -> seq<Entry> := s => [];
      var changed := ForEachService(s => WithTxt(s, stype, key, value), s => TxtOutputOf(st, s, stype, key, value, now),
                                    (s: Service) => s.stype == stype, entries);
      FlatNothing(entries, st.services);
      assert log == old(log) + [] == old(log);
    }

    /** Steps every service without a word on the wire. */
    method ChangeEachService(step: Service -> Service, hit: Service -> bool, ghost entries: Service -> seq<Entry>)
      returns (any: bool)
      modifies `services, `sent, `due, `log
      ensures services == MapServices(step, old(services)) && Wire() == old(Wire())
      ensures log == old(log) + Flat(entries, old(services))
      ensures any <==> exists j :: 0 <= j < |old(services)| && hit(old(services)[j])
    {
      var silent: Service -> Output := s => NOTHING;
      OutputsNothing(silent, services);
      ThenGroups(Wire(), NOTHING, NOTHING);
      any := ForEachService(step, silent, hit, entries);
    }

    method DeferHost(q: Message, iface: Option<nat>, now: int)
      modifies `host, `timerActive, `log
      ensures host == (if HostTie(old(View()), q, iface) then Defer(old(host), now) else old(host))
      ensures timerActive == (old(timerActive) || HostTie(old(View()), q, iface))
      ensures log == old(log) + HostDeferLog(old(View()), q, iface, now)
    {
      assert log + [] == log;
      if HostTie(View(), q, iface) {
        host, timerActive, log := Defer(host, now), true, log + Restart(HostGroup, now);
      }
    }

    /** `before` is the responder as it was when the query came in. */
    method DeferEach(before: Responder, q: Message, now: int)
      modifies `services, `timerActive, `sent, `due, `log
      ensures services == DeferServices(before, old(services), q, now) && Wire() == old(Wire())
      ensures timerActive == (old(timerActive) || AnyServiceTie(before, old(services), q))
      ensures log == old(log) + Flat(DeferEntries(before, q, now), old(services))
    {
      var lost := ChangeEachService(s => DeferIfLost(before, s, q, now), s => ServiceTie(before, s, q), DeferEntries(before, q, now));
      timerActive := timerActive || lost;
    }

    method DeferAll(q: Message, iface: Option<nat>, now: int)
      modifies this
      ensures View() == AfterProbe(old(View()), q, iface, now) && Wire() == old(Wire())
      ensures log == old(log) + DeferLog(old(View()), q, iface, now)
    {
      var before := View();
      Regroup(log, HostDeferLog(before, q, iface, now), Flat(DeferEntries(before, q, now), services));
      DeferHost(q, iface, now);
      DeferEach(before, q, now);
    }

    /** resolveSimultaneousProbe. */
    method ResolveProbe(q: Message, iface: Option<nat>, now: int)
      requires Valid() && q.authorities != []
      modifies this
      ensures Valid() && View() == AfterProbe(old(View()), q, iface, now) && Wire() == old(Wire())
      ensures log == old(log) + DeferLog(old(View()), q, iface, now)
    {
      PacketsKeepProbingSafe(Run(View(), log), q, iface, now);
      RestartsGrow(sent, log, View(), q, iface, now, |ifaces|);
      DeferAll(q, iface, now);
    }

    method HandleQuery(q: Message, iface: Option<nat>, fromUs: bool, legacy: bool, toUs: bool, now: int) returns (reply: Reply)
      requires Valid()
      modifies this
      ensures Valid() && Wire() == old(Wire())
      ensures View() == if fromUs then old(View()) else AfterQuery(old(View()), q, iface, now)
      ensures log == old(log) + if fromUs then [] else QueryLog(old(View()), q, iface, now)
      ensures reply == ReplyTo(View(), q, iface, legacy, toUs)
    {
      assert log + [] == log;
      if q.authorities != [] && !fromUs { ResolveProbe(q, iface, now); }
      reply := AnswerQuery(View(), q, iface, legacy, toUs);
    }

    /** Whether some record of the response contradicts our addresses. */
    method FindHostClash(m: Message) returns (clash: bool)
      ensures clash == HostClashes(View(), m)
    {
      var st, records := View(), m.answers + m.additionals;
      clash := false;
      for i := 0 to |records|
        invariant clash <==> exists r :: r in records[..i] && HostClash(st, r)
      {
        assert records[..i + 1] == records[..i] + [records[i]];
        clash := clash || HostClash(st, records[i]);
      }
      assert records[..|records|] == records;
    }

    /** While probing, the next name; once announced, the same one again. */
    method ConflictHost(m: Message, now: int)
      modifies `host, `hostSuffix, `timerActive, `log
      ensures var before := old(View()); var after := if HostClashes(before, m) then HostConflict(before, now) else before;
        host == after.host && hostSuffix == after.hostSuffix && timerActive == after.timerActive
      ensures log == old(log) + HostConflictLog(old(View()), m, now)
    {
      assert log + [] == log;
      var hostConflict := FindHostClash(m);
      if hostConflict {
        if !host.announced { hostSuffix := hostSuffix + 1; }
        host, timerActive, log := BeginProbing(host, now, 0), true, log + Restart(HostGroup, now);
      }
    }

    /** `before` is the responder as it was when the response came in. */
    method ReactEach(before: Responder, m: Message, now: int)
      modifies `services, `timerActive, `sent, `due, `log
      ensures services == ConflictServices(before, old(services), m, now) && Wire() == old(Wire())
      ensures timerActive == (old(timerActive) || AnyServiceClash(before, old(services), m))
      ensures log == old(log) + Flat(ConflictEntries(before, m, now), old(services))
    {
      var clashed := ChangeEachService(s => ReactToClash(before, s, m, now), s => ServiceClashes(before, s, m),
                                       ConflictEntries(before, m, now));
      timerActive := timerActive || clashed;
    }

    /** Finds every clash with the names as they were, then lets each name react once. */
    method ReactToAll(m: Message, now: int)
      modifies this
      ensures View() == AfterResponse(old(View()), m, now) && Wire() == old(Wire())
      ensures log == old(log) + ResponseLog(old(View()), m, now)
    {
      var before := View();
      Regroup(log, HostConflictLog(before, m, now), Flat(ConflictEntries(before, m, now), services));
      ConflictHost(m, now);
      ReactEach(before, m, now);
    }

    method HandleResponse(m: Message, fromUs: bool, now: int)
      requires Valid()
      modifies this
      ensures Valid() && Wire() == old(Wire())
      ensures View() == if fromUs then old(View()) else AfterResponse(old(View()), m, now)
      ensures log == old(log) + if fromUs then [] else ResponseLog(old(View()), m, now)
    {
      assert log + [] == log;
      if fromUs { return; }
      PacketsKeepProbingSafe(Run(View(), log), m, None, now);
      RestartsGrow(sent, log, View(), m, None, now, |ifaces|);
      ReactToAll(m, now);
    }

    method SayGoodbyes()
      modifies `sent, `due
      ensures Wire() == Then(old(Wire()), Goodbyes(View()))
    {
      var st := View();
      ghost var wire := Then(Wire(), Goodbyes(st));
      assert services[0..] == services;
      for i := 0 to |services|
        invariant View() == st && wire == Then(Wire(), Outputs(s => GoodbyeIfLive(st, s), services[i..]))
      {
        EmitNext(s => GoodbyeIfLive(st, s), services, i, wire);
      }
      ThenGroups(Wire(), NOTHING, NOTHING);
    }

    /** Goodbyes for every announced service, then all are forgotten. */
    method Shutdown(now: int)
      requires Valid()
      modifies this
      ensures Valid() && View() == old(View()).(services := []) && log == old(log)
      ensures Wire() == Then(old(Wire()), Goodbyes(old(View())))
    {
      ActKeeps(Run(View(), log), DoShutdown, now);
      GoodbyesAskNothing(View());
      QuietGrows(sent, log, Goodbyes(View()).sent, [], |ifaces|);
      assert log + [] == log;
      SayGoodbyes();
      services := [];
    }
  }

  lemma {:induction false} FlatNothing(f: Service -> seq<Entry>, ss: seq<Service>)
    requires forall s :: f(s) == []
    ensures Flat(f, ss) == []
  {
    if ss != [] { FlatNothing(f, ss[1..]); }
  }

  lemma {:induction false} OutputsNothing(f: Service -> Output, ss: seq<Service>)
    requires forall s :: f(s) == NOTHING
    ensures Outputs(f, ss) == NOTHING
  {
    if ss != [] { OutputsNothing(f, ss[1..]); }
  }
}
