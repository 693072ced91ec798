/** What goes out when a name goes live, and exactly when a scheduled copy of it stays silent. */
module MdnsSpoken {
  import opened Bytes
  import opened DnsName
  import opened DnsMessage
  import opened MdnsRecords
  import opened MdnsProbe
  import opened MdnsHandlers
  import opened MdnsAnnounce
  import opened MdnsResolve

  // ---- Going live ------------------------------------------------------------------------------

  /** An unsolicited answer that says all there is to know to reach the service over this interface. */
  ghost predicate Introduces(m: Message, st: Responder, s: Service, addrs: seq<uint32>) {
    m.flags == 0x8400 && m.questions == [] &&
    (exists r :: r in m.answers && PointsTo(r, s.stype, InstanceName(s), false)) &&
    (exists r :: r in m.answers && Locates(r, InstanceName(s), HostFqdn(st), s.port, false)) &&
    (exists r :: r in m.answers && Describes(r, InstanceName(s), s.txt, false)) &&
    HostSaid(m.additionals, HostFqdn(st), addrs)
  }

  /** The A records among `rs` are one for each address. */
  ghost predicate HostSaid(rs: seq<Record>, host: Name, addrs: seq<uint32>) {
    (forall x :: x in addrs ==> exists r :: r in rs && Addresses(r, host, x, false)) &&
    forall r :: r in rs && r.rtype == 1 ==> exists x :: x in addrs && Addresses(r, host, x, false)
  }

  lemma {:induction false} HostIsSaid(host: Name, addrs: seq<uint32>)
    ensures HostSaid(HostRecordsFor(host, addrs), host, addrs)
  {
    var rs := HostRecordsFor(host, addrs);
    HostRecordsExact(host, addrs);
    forall x | x in addrs ensures exists r :: r in rs && Addresses(r, host, x, false) {
      var i :| 0 <= i < |rs| && SameAs(rs[i], ARecord(host, x));
      AddressReads(x);
      assert rs[i] in rs && Addresses(rs[i], host, x, false);
    }
    forall r: Record | r in rs && r.rtype == 1 ensures exists x :: x in addrs && Addresses(r, host, x, false) {
      var x :| x in addrs && r == ARecord(host, x);
      AddressReads(x);
    }
  }

  lemma {:induction false} AnnouncementIntroduces(st: Responder, s: Service, k: nat)
    requires st.host.announced && k < |st.ifaces|
    ensures Introduces(ServiceAnnouncement(st, s, Some(k)), st, s, st.ifaces[k])
  {
    var m := ServiceAnnouncement(st, s, Some(k));
    assert m.answers[1] == InstancePtr(s) && m.answers[2] == SrvOf(st, s) && m.answers[3] == TxtOf(s);
    assert PointsTo(m.answers[1], s.stype, InstanceName(s), false);
    assert Locates(m.answers[2], InstanceName(s), HostFqdn(st), s.port, false);
    TxtReads(s);
    assert Describes(m.answers[3], InstanceName(s), s.txt, false);
    HostIsSaid(HostFqdn(st), st.ifaces[k]);
  }

  lemma {:induction false} OutputsHave(f: Service -> Output, ss: seq<Service>, i: nat)
    requires i < |ss|
    ensures forall o :: o in f(ss[i]).sent ==> o in Outputs(f, ss).sent
    ensures forall d :: d in f(ss[i]).due ==> d in Outputs(f, ss).due
  {
    if i > 0 { OutputsHave(f, ss[1..], i - 1); }
  }

  lemma {:induction false} OnEach(st: Responder, make: Option<nat> -> Message, k: nat)
    requires k < |st.ifaces|
    ensures Outgoing(k, make(Some(k))) in OnEachInterface(st, make)
  {
    assert OnEachInterface(st, make)[k] == Outgoing(k, make(Some(k)));
  }

  /** Going live, a service is introduced on every interface at once, and again one and three seconds later
      if it is still the same then. */
  lemma {:induction false} LiveServiceIsAnnounced(st: Responder, now: int, i: nat, k: nat)
    requires i < |st.services| && k < |st.ifaces| && i < |Tick(st, now).services|
    requires !st.services[i].group.announced && Tick(st, now).services[i].group.announced
    ensures var t, o, s := Tick(st, now), TickOutput(st, now), Tick(st, now).services[i];
      (exists m :: Outgoing(k, m) in o.sent && Introduces(m, t, s, st.ifaces[k])) &&
      Due(now + 1000, ServiceShot(s.id, s.group.generation)) in o.due &&
      Due(now + 3000, ServiceShot(s.id, s.group.generation)) in o.due
  {
    var live, s := st.(host := TickGroup(st.host, now, true)), st.services[i];
    MapServicesAt(x => TickService(x, now, live.host.announced), st.services);
    var f := (x: Service) => ServiceTickOutput(live, x, now);
    assert f(s) == AnnounceService(live, s, now);
    OutputsHave(f, st.services, i);
    OnEach(live, iface => ServiceAnnouncement(live, s, iface), k);
    var m := ServiceAnnouncement(live, s, Some(k));
    AnnouncementIntroduces(live, s, k);
    assert Outgoing(k, m) in TickOutput(st, now).sent;
    var t, u := Tick(st, now), Tick(st, now).services[i];
    assert InstanceName(u) == InstanceName(s) && HostFqdn(t) == HostFqdn(live);
    assert Introduces(m, t, u, st.ifaces[k]);
    assert f(s).due[0] in f(s).due && f(s).due[1] in f(s).due;
  }

  /** The same for the host. */
  lemma {:induction false} LiveHostIsAnnounced(st: Responder, now: int, k: nat)
    requires k < |st.ifaces| && !st.host.announced && Tick(st, now).host.announced
    ensures var t, o := Tick(st, now), TickOutput(st, now);
      (exists m :: Outgoing(k, m) in o.sent && m.flags == 0x8400 && m.questions == [] &&
                   HostSaid(m.answers, HostFqdn(st), st.ifaces[k])) &&
      Due(now + 1000, HostShot(t.host.generation)) in o.due && Due(now + 3000, HostShot(t.host.generation)) in o.due
  {
    var live := st.(host := TickGroup(st.host, now, true));
    OnEach(live, iface => HostAnnouncement(live, iface), k);
    var m := HostAnnouncement(live, Some(k));
    HostIsSaid(HostFqdn(st), st.ifaces[k]);
    var first := Repeat(OnEachInterface(live, iface => HostAnnouncement(live, iface)), HostShot(live.host.generation), now);
    assert first.due[0] in first.due && first.due[1] in first.due;
    assert Outgoing(k, m) in TickOutput(st, now).sent;
  }

  /** A changed value goes out at once, with the rest of what the service says, and twice more. */
  lemma {:induction false} UpdateIsAnnounced(st: Responder, stype: Name, key: seq<byte>, value: seq<byte>, now: int, i: nat,
                                             k: nat)
    requires i < |st.services| && k < |st.ifaces| && st.host.announced
    requires st.services[i].stype == stype && st.services[i].group.announced
    ensures var ts := MapServices(s => WithTxt(s, stype, key, value), st.services);
      var o := TxtOutput(st, stype, key, value, now);
      |ts| == |st.services| &&
      (exists m :: Outgoing(k, m) in o.sent && Introduces(m, st, ts[i], st.ifaces[k])) &&
      Due(now + 1000, ServiceShot(ts[i].id, ts[i].group.generation)) in o.due &&
      Due(now + 3000, ServiceShot(ts[i].id, ts[i].group.generation)) in o.due
  {
    MapServicesAt(s => WithTxt(s, stype, key, value), st.services);
    var u := WithTxt(st.services[i], stype, key, value);
    var f := (s: Service) => TxtOutputOf(st, s, stype, key, value, now);
    OutputsHave(f, st.services, i);
    OnEach(st, iface => ServiceAnnouncement(st, u, iface), k);
    AnnouncementIntroduces(st, u, k);
    assert Outgoing(k, ServiceAnnouncement(st, u, Some(k))) in TxtOutput(st, stype, key, value, now).sent;
    assert f(st.services[i]).due[0] in f(st.services[i]).due && f(st.services[i]).due[1] in f(st.services[i]).due;
  }

  // ---- Probes ----------------------------------------------------------------------------------

  /** A query of type ANY for the name alone, with multicast replies wanted. */
  predicate AsksOnly(m: Message, name: Name) {
    m.flags == 0 && m.questions == [Question(name, 255, 1, false)] && m.answers == [] && m.additionals == []
  }

  /** The probe says where the service would be and what it would be. */
  ghost predicate ClaimsService(m: Message, st: Responder, s: Service) {
    AsksOnly(m, InstanceName(s)) &&
    (exists r :: r in m.authorities && Locates(r.(cacheFlush := true), InstanceName(s), HostFqdn(st), s.port, false)) &&
    exists r :: r in m.authorities && Describes(r.(cacheFlush := true), InstanceName(s), s.txt, false)
  }

  predicate Claims(r: Record, host: Name, x: uint32) { Addresses(r.(cacheFlush := true), host, x, false) && !r.cacheFlush }

  /** The probe claims these addresses and nothing else. */
  ghost predicate ClaimsHost(m: Message, host: Name, addrs: seq<uint32>) {
    AsksOnly(m, host) && (forall x :: x in addrs ==> exists r :: r in m.authorities && Claims(r, host, x)) &&
    forall r :: r in m.authorities ==> exists x :: x in addrs && Claims(r, host, x)
  }

  /** A service's probe goes out on every interface with the place and description it claims. */
  lemma {:induction false} ServiceProbeClaims(st: Responder, now: int, i: nat, k: nat)
    requires i < |st.services| && k < |st.ifaces| && i < |Tick(st, now).services|
    requires Tick(st, now).services[i].group.probesSent > st.services[i].group.probesSent
    ensures exists m :: Outgoing(k, m) in TickOutput(st, now).sent && ClaimsService(m, st, st.services[i])
  {
    var live, s := st.(host := TickGroup(st.host, now, true)), st.services[i];
    MapServicesAt(x => TickService(x, now, live.host.announced), st.services);
    var f := (x: Service) => ServiceTickOutput(live, x, now);
    OutputsHave(f, st.services, i);
    OnEach(live, iface => ServiceProbe(live, s), k);
    var m := ServiceProbe(live, s);
    assert Outgoing(k, m) in f(s).sent;
    assert m.authorities[0].(cacheFlush := true) == SrvOf(live, s) && m.authorities[1].(cacheFlush := true) == TxtOf(s);
    TxtReads(s);
    assert Locates(m.authorities[0].(cacheFlush := true), InstanceName(s), HostFqdn(st), s.port, false);
    assert Describes(m.authorities[1].(cacheFlush := true), InstanceName(s), s.txt, false);
  }

  lemma {:induction false} OnlyAExact(rs: seq<Record>, r: Record)
    ensures r in OnlyA(rs) <==> exists x :: x in rs && x.rtype == A && r == x.(cacheFlush := false)
  {
    if rs != [] {
      OnlyAExact(rs[1..], r);
      if x :| x in rs && x.rtype == A && r == x.(cacheFlush := false) {
        if x != rs[0] { assert x in rs[1..]; }
      }
      if r in OnlyA(rs[1..]) {
        var x :| x in rs[1..] && x.rtype == A && r == x.(cacheFlush := false);
        assert x in rs;
      }
    }
  }

  lemma {:induction false} ProbeRecordsClaim(host: Name, addrs: seq<uint32>, rs: seq<Record>)
    requires HostSaid(rs, host, addrs)
    ensures forall x :: x in addrs ==> exists r :: r in OnlyA(rs) && Claims(r, host, x)
    ensures forall r :: r in OnlyA(rs) ==> exists x :: x in addrs && Claims(r, host, x)
  {
    forall x | x in addrs ensures exists r :: r in OnlyA(rs) && Claims(r, host, x) {
      var r :| r in rs && Addresses(r, host, x, false);
      OnlyAExact(rs, r.(cacheFlush := false));
      assert r.(cacheFlush := false).(cacheFlush := true) == r;
    }
    forall r | r in OnlyA(rs) ensures exists x :: x in addrs && Claims(r, host, x) {
      OnlyAExact(rs, r);
      var o :| o in rs && o.rtype == A && r == o.(cacheFlush := false);
      var x :| x in addrs && Addresses(o, host, x, false);
      assert r.(cacheFlush := true) == o;
    }
  }

  /** The host's probe claims exactly the addresses of the interface it goes out on. */
  lemma {:induction false} HostProbeClaims(st: Responder, now: int, k: nat)
    requires k < |st.ifaces| && Tick(st, now).host.probesSent > st.host.probesSent
    ensures exists m :: Outgoing(k, m) in TickOutput(st, now).sent && ClaimsHost(m, HostFqdn(st), st.ifaces[k])
  {
    var host, addrs := HostFqdn(st), st.ifaces[k];
    var m := HostProbe(st, Some(k));
    OnEach(st, iface => HostProbe(st, iface), k);
    HostIsSaid(host, addrs);
    ProbeRecordsClaim(host, addrs, HostRecordsFor(host, addrs));
    assert ClaimsHost(m, host, addrs);
    assert Outgoing(k, m) in HostTickOutput(st, now).sent;
  }

  // ---- Goodbyes and new names ------------------------------------------------------------------

  /** The service's pointer, place and description are withdrawn. */
  ghost predicate Withdraws(m: Message, st: Responder, s: Service) {
    m.flags == 0x8400 && m.questions == [] && (forall r :: r in m.answers ==> r.ttl == 0) &&
    (exists r :: r in m.answers && PointsTo(r.(ttl := 4500), s.stype, InstanceName(s), false)) &&
    (exists r :: r in m.answers && Locates(r.(ttl := 120), InstanceName(s), HostFqdn(st), s.port, false)) &&
    (exists r :: r in m.answers && Describes(r.(ttl := 4500), InstanceName(s), s.txt, false))
  }

  /** Every announced service says goodbye on every interface. */
  lemma {:induction false} EveryGoodbyeGoesOut(st: Responder, i: nat, k: nat)
    requires i < |st.services| && st.services[i].group.announced && k < |st.ifaces|
    ensures exists m :: Outgoing(k, m) in Goodbyes(st).sent && Withdraws(m, st, st.services[i])
  {
    var s := st.services[i];
    var m := Goodbye(st, s);
    OutputsHave(x => GoodbyeIfLive(st, x), st.services, i);
    OnEach(st, iface => Goodbye(st, s), k);
    assert m.answers[0].(ttl := 4500) == InstancePtr(s) && m.answers[1].(ttl := 120) == SrvOf(st, s);
    assert m.answers[2].(ttl := 4500) == TxtOf(s);
    TxtReads(s);
    assert PointsTo(m.answers[0].(ttl := 4500), s.stype, InstanceName(s), false);
    assert Locates(m.answers[1].(ttl := 120), InstanceName(s), HostFqdn(st), s.port, false);
    assert Describes(m.answers[2].(ttl := 4500), InstanceName(s), s.txt, false);
  }

  /** Renaming: every service keeps type, port and entries, takes the new name without a number, and starts
      claiming it after its delay. */
  lemma {:induction false} RenamedExact(ss: seq<Service>, name: seq<byte>, now: int, delays: seq<nat>, i: nat)
    requires |ss| == |delays| && i < |ss|
    ensures var ts := Renamed(ss, name, now, delays);
      |ts| == |ss| &&
      ts[i] == Service(ss[i].id, ss[i].stype, name, 1, ss[i].port, ss[i].txt,
                       Group(0, false, now + delays[i], ss[i].group.generation + 1)) &&
      (0 < |name| <= 63 ==> InstanceName(ts[i]) == [name] + ss[i].stype + [[108, 111, 99, 97, 108]])
  {
    RenamedAt(ss, name, now, delays);
    Regroup([name], ss[i].stype, [LOCAL]);
    assert name + [] == name;
  }

  // ---- Copies ----------------------------------------------------------------------------------

  /** Something was done on purpose to the service at `i`, or it had to start over. */
  predicate Touches(a: Action, i: nat) {
    a.DoShutdown? || ((a.DoRename? || a.DoTxt? || a.DoServiceConflict? || a.DoServiceDefer?) && a.index == i)
  }

  predicate Touched(steps: seq<Timed>, i: nat) { exists k :: 0 <= k < |steps| && Touches(steps[k].action, i) }

  /** No service goes by the number in this generation any more. */
  predicate Gone(st: Responder, id: nat, generation: nat) {
    id < st.nextId &&
    forall j :: 0 <= j < |st.services| && st.services[j].id == id ==> st.services[j].group.generation > generation
  }

  predicate OnlyOne(st: Responder, i: nat) {
    i < |st.services| && st.services[i].id < st.nextId &&
    forall j :: 0 <= j < |st.services| && j != i ==> st.services[j].id != st.services[i].id
  }

  lemma {:induction false} StaysGone(r: Run, a: Action, now: int, id: nat, generation: nat)
    requires Enabled(r.st, a) && Gone(r.st, id, generation)
    ensures Gone(Act(r, a, now).st, id, generation)
  {
    if a.DoTick? { MapServicesAt(s => TickService(s, now, TickGroup(r.st.host, now, true).announced), r.st.services); }
  }

  lemma {:induction false} TouchMakesGone(r: Run, a: Action, now: int, i: nat)
    requires Enabled(r.st, a) && OnlyOne(r.st, i) && r.st.services[i].group.announced && Touches(a, i)
    ensures Gone(Act(r, a, now).st, r.st.services[i].id, r.st.services[i].group.generation)
  {
  }

  lemma {:induction false} OthersLeaveAlone(r: Run, a: Action, now: int, i: nat)
    requires Enabled(r.st, a) && OnlyOne(r.st, i) && r.st.services[i].group.announced && !Touches(a, i)
    ensures OnlyOne(Act(r, a, now).st, i) && Act(r, a, now).st.services[i] == r.st.services[i]
  {
    if a.DoTick? { MapServicesAt(s => TickService(s, now, TickGroup(r.st.host, now, true).announced), r.st.services); }
  }

  lemma {:induction false} GoneOrSame(r: Run, steps: seq<Timed>, i: nat)
    requires Possible(r, steps) && OnlyOne(r.st, i) && r.st.services[i].group.announced
    ensures var s, t := r.st.services[i], Play(r, steps).st;
      if Touched(steps, i) then Gone(t, s.id, s.group.generation) else OnlyOne(t, i) && t.services[i] == s
    decreases |steps|
  {
    if steps != [] {
      var a, now, rest := steps[0].action, steps[0].at, steps[1..];
      assert Touched(steps, i) <==> Touches(a, i) || Touched(rest, i);
      if Touches(a, i) {
        TouchMakesGone(r, a, now, i);
        AllStayGone(Act(r, a, now), rest, r.st.services[i].id, r.st.services[i].group.generation);
      } else {
        OthersLeaveAlone(r, a, now, i);
        GoneOrSame(Act(r, a, now), rest, i);
      }
    }
  }

  lemma {:induction false} AllStayGone(r: Run, steps: seq<Timed>, id: nat, generation: nat)
    requires Possible(r, steps) && Gone(r.st, id, generation)
    ensures Gone(Play(r, steps).st, id, generation)
    decreases |steps|
  {
    if steps != [] {
      StaysGone(r, steps[0].action, steps[0].at, id, generation);
      AllStayGone(Act(r, steps[0].action, steps[0].at), steps[1..], id, generation);
    }
  }

  /** A scheduled copy of a service's announcement stays silent exactly if the service has been renamed,
      changed, withdrawn or made to start over since; otherwise it goes out on every interface. */
  lemma {:induction false} CopyIsSilentExactly(r: Run, steps: seq<Timed>, i: nat)
    requires Possible(r, steps) && IdsOk(r.st) && i < |r.st.services| && r.st.services[i].group.announced
    ensures var s, t := r.st.services[i], Play(r, steps).st;
      Copies(t, ServiceShot(s.id, s.group.generation)) ==
      if Touched(steps, i) then [] else OnEachInterface(t, iface => ServiceAnnouncement(t, s, iface))
  {
    var s, t := r.st.services[i], Play(r, steps).st;
    GoneOrSame(r, steps, i);
    FoundService(t.services, s.id);
    var f := FindService(t.services, s.id);
    if f.Some? {
      var j :| 0 <= j < |t.services| && t.services[j] == f.value;
      if !Touched(steps, i) { assert j == i; }
    }
  }

  predicate HostTouched(steps: seq<Timed>) {
    exists k :: 0 <= k < |steps| && (steps[k].action.DoHostConflict? || steps[k].action.DoHostDefer?)
  }

  lemma {:induction false} HostGoneOrSame(r: Run, steps: seq<Timed>)
    requires Possible(r, steps)
    ensures Play(r, steps).st.host.generation >= r.st.host.generation
    ensures r.st.host.announced && HostTouched(steps) ==> Play(r, steps).st.host.generation > r.st.host.generation
    ensures r.st.host.announced && !HostTouched(steps) ==> Play(r, steps).st.host == r.st.host
    decreases |steps|
  {
    if steps != [] {
      var a, rest := steps[0].action, steps[1..];
      assert HostTouched(steps) <==> a.DoHostConflict? || a.DoHostDefer? || HostTouched(rest);
      HostGoneOrSame(Act(r, a, steps[0].at), rest);
    }
  }

  /** The host's copy: exactly if its name met a conflict since. */
  lemma {:induction false} HostCopyIsSilentExactly(r: Run, steps: seq<Timed>)
    requires Possible(r, steps) && r.st.host.announced
    ensures var t := Play(r, steps).st;
      Copies(t, HostShot(r.st.host.generation)) ==
      if HostTouched(steps) then [] else OnEachInterface(t, iface => HostAnnouncement(t, iface))
  {
    HostGoneOrSame(r, steps);
  }
}
