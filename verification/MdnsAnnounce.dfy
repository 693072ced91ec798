/** Announcements and goodbyes: repeated copies that fall silent once what they say is out of date
    (sections 8.3, 8.4 and 10.1 of RFC 6762). */
module MdnsAnnounce {
  import opened Bytes
  import opened DnsName
  import opened DnsMessage
  import opened MdnsRecords
  import opened MdnsAnswer
  import opened MdnsProbe
  import opened MdnsHandlers

  /** A scheduled copy remembers the generation of the group it was scheduled for. */
  datatype Shot = HostShot(generation: nat) | ServiceShot(id: nat, generation: nat)

  function FindService(ss: seq<Service>, id: nat): Option<Service> {
    if ss == [] then None else if ss[0].id == id then Some(ss[0]) else FindService(ss[1..], id)
  }

  function Announcing(answers: seq<Record>, additionals: seq<Record>): Message {
    Message(0, RESPONSE_FLAGS, [], answers, [], additionals)
  }

  function ServiceRecordsOf(st: Responder, s: Service): seq<Record> { [EnumPtr(s), InstancePtr(s), SrvOf(st, s), TxtOf(s)] }

  function HostAnnouncement(st: Responder, iface: Option<nat>): Message { Announcing(HostRecords(st, iface), []) }

  function ServiceAnnouncement(st: Responder, s: Service, iface: Option<nat>): Message {
    Announcing(ServiceRecordsOf(st, s), if st.host.announced then HostRecords(st, iface) else [])
  }

  /** A goodbye: the service's own records with TTL 0. */
  function Goodbye(st: Responder, s: Service): Message {
    Announcing([InstancePtr(s).(ttl := 0), SrvOf(st, s).(ttl := 0), TxtOf(s).(ttl := 0)], [])
  }

  /** A multicast on one interface. */
  datatype Outgoing = Outgoing(iface: nat, message: Message)

  function OnEachInterface(st: Responder, make: Option<nat> -> Message): (os: seq<Outgoing>)
    ensures |os| == |st.ifaces|
  {
    seq(|st.ifaces|, i requires 0 <= i < |st.ifaces| => Outgoing(i, make(Some(i))))
  }

  /** What a scheduled copy sends when it is due. */
  function Copies(st: Responder, shot: Shot): seq<Outgoing> {
    match shot
    case HostShot(g) =>
      if !st.host.announced || st.host.generation != g then [] else OnEachInterface(st, iface => HostAnnouncement(st, iface))
    case ServiceShot(id, g) =>
      match FindService(st.services, id)
      case None => []
      case Some(s) =>
        if !s.group.announced || s.group.generation != g then []
        else OnEachInterface(st, iface => ServiceAnnouncement(st, s, iface))
  }

  // ---- What goes on the wire -------------------------------------------------------------------

  datatype Due = Due(at: int, shot: Shot)

  /** Multicasts made and copies scheduled. */
  datatype Output = Output(sent: seq<Outgoing>, due: seq<Due>)

  const NOTHING := Output([], [])

  function Then(a: Output, b: Output): Output { Output(a.sent + b.sent, a.due + b.due) }

  function Outputs(f: Service -> Output, ss: seq<Service>): Output {
    if ss == [] then NOTHING else Then(f(ss[0]), Outputs(f, ss[1..]))
  }

  /** Sent at once, and again after one and three seconds. */
  function Repeat(sent: seq<Outgoing>, shot: Shot, now: int): Output {
    Output(sent, [Due(now + 1000, shot), Due(now + 3000, shot)])
  }

  function AnnounceService(st: Responder, s: Service, now: int): Output {
    Repeat(OnEachInterface(st, iface => ServiceAnnouncement(st, s, iface)), ServiceShot(s.id, s.group.generation), now)
  }

  function AnnounceIfLive(st: Responder, s: Service, now: int): Output {
    if s.group.announced then AnnounceService(st, s, now) else NOTHING
  }

  /** The host first, then every announced service, whose SRV target has changed. */
  function AnnounceHost(st: Responder, now: int): Output {
    Then(Repeat(OnEachInterface(st, iface => HostAnnouncement(st, iface)), HostShot(st.host.generation), now),
         Outputs(s => AnnounceIfLive(st, s, now), st.services))
  }

  /** One question of type ANY for the name, with what we would publish under it as authority records. */
  function ProbeMessage(name: Name, records: seq<Record>): Message {
    Message(0, 0, [Question(name, ANY, CLASS_IN, false)], [], records, [])
  }

  function HostProbe(st: Responder, iface: Option<nat>): Message { ProbeMessage(HostFqdn(st), HostProbeRecords(st, iface)) }

  function ServiceProbe(st: Responder, s: Service): Message { ProbeMessage(InstanceName(s), ServiceProbeRecords(st, s)) }

  function HostTickOutput(st: Responder, now: int): Output {
    if st.host.announced || now < st.host.nextProbeAt then NOTHING
    else if st.host.probesSent < PROBE_COUNT then Output(OnEachInterface(st, iface => HostProbe(st, iface)), [])
    else AnnounceHost(st.(host := TickGroup(st.host, now, true)), now)
  }

  /** `st` is the responder after the host's share of the tick. */
  function ServiceTickOutput(st: Responder, s: Service, now: int): Output {
    if s.group.announced || now < s.group.nextProbeAt then NOTHING
    else if s.group.probesSent < PROBE_COUNT then Output(OnEachInterface(st, iface => ServiceProbe(st, s)), [])
    else if st.host.announced then AnnounceService(st, s, now)
    else NOTHING
  }

  function ServicesTickOutput(st: Responder, ss: seq<Service>, now: int): Output {
    Outputs(s => ServiceTickOutput(st, s, now), ss)
  }

  function TickOutput(st: Responder, now: int): Output {
    Then(HostTickOutput(st, now), ServicesTickOutput(st.(host := TickGroup(st.host, now, true)), st.services, now))
  }

  function GoodbyeIfLive(st: Responder, s: Service): Output {
    if s.group.announced then Output(OnEachInterface(st, iface => Goodbye(st, s)), []) else NOTHING
  }

  function Goodbyes(st: Responder): Output { Outputs(s => GoodbyeIfLive(st, s), st.services) }

  /** A service of the type whose announced TXT changed says so. */
  function TxtOutputOf(st: Responder, s: Service, stype: Name, key: seq<byte>, value: seq<byte>, now: int): Output {
    if s.stype == stype && s.group.announced then AnnounceService(st, WithTxt(s, stype, key, value), now) else NOTHING
  }

  function TxtOutput(st: Responder, stype: Name, key: seq<byte>, value: seq<byte>, now: int): Output {
    Outputs(s => TxtOutputOf(st, s, stype, key, value, now), st.services)
  }

  /** The message asks for exclusive use of the name. */
  predicate AsksFor(m: Message, name: Name) { m.flags == 0 && m.questions == [Question(name, ANY, CLASS_IN, false)] }

  predicate AskedOn(o: Output, iface: nat, name: Name) {
    exists k :: 0 <= k < |o.sent| && o.sent[k].iface == iface && AsksFor(o.sent[k].message, name)
  }

  predicate ProbedOnWire(o: Output, name: Name, ifaces: nat) { forall i :: 0 <= i < ifaces ==> AskedOn(o, i, name) }

  lemma {:induction false} OnWireEither(a: Output, b: Output, name: Name, ifaces: nat)
    requires ProbedOnWire(a, name, ifaces) || ProbedOnWire(b, name, ifaces)
    ensures ProbedOnWire(Then(a, b), name, ifaces)
  {
    var all := Then(a, b);
    forall i | 0 <= i < ifaces ensures AskedOn(all, i, name) {
      if ProbedOnWire(a, name, ifaces) {
        assert AskedOn(a, i, name);
        var k :| 0 <= k < |a.sent| && a.sent[k].iface == i && AsksFor(a.sent[k].message, name);
        assert all.sent[k] == a.sent[k];
      } else {
        assert AskedOn(b, i, name);
        var k :| 0 <= k < |b.sent| && b.sent[k].iface == i && AsksFor(b.sent[k].message, name);
        assert all.sent[|a.sent| + k] == b.sent[k];
      }
    }
  }

  lemma {:induction false} ProbeGoesOut(st: Responder, make: Option<nat> -> Message, name: Name)
    requires forall iface :: AsksFor(make(iface), name)
    ensures ProbedOnWire(Output(OnEachInterface(st, make), []), name, |st.ifaces|)
  {
    var o := Output(OnEachInterface(st, make), []);
    forall i | 0 <= i < |st.ifaces| ensures AskedOn(o, i, name) {
      assert o.sent[i].iface == i && AsksFor(o.sent[i].message, name);
    }
  }

  lemma {:induction false} OnWireAmong(f: Service -> Output, ss: seq<Service>, i: nat, name: Name, ifaces: nat)
    requires i < |ss| && ProbedOnWire(f(ss[i]), name, ifaces)
    ensures ProbedOnWire(Outputs(f, ss), name, ifaces)
  {
    if i > 0 { OnWireAmong(f, ss[1..], i - 1, name, ifaces); }
    OnWireEither(f(ss[0]), Outputs(f, ss[1..]), name, ifaces);
  }

  lemma {:induction false} FlatSource(f: Service -> seq<Entry>, ss: seq<Service>, e: Entry) returns (i: nat)
    requires e in Flat(f, ss)
    ensures i < |ss| && e in f(ss[i])
  {
    if e in f(ss[0]) {
      i := 0;
    } else {
      var k := FlatSource(f, ss[1..], e);
      i := k + 1;
    }
  }

  lemma {:induction false} HostProbeGoesOut(st: Responder, now: int, live: bool, e: Entry)
    requires e in TickEntries(st.host, HostGroup, HostFqdn(st), now, true, live) && e.Probed?
    ensures ProbedOnWire(HostTickOutput(st, now), e.name, |st.ifaces|)
  {
    ProbeGoesOut(st, iface => HostProbe(st, iface), e.name);
  }

  lemma {:induction false} ServiceProbeGoesOut(st: Responder, s: Service, now: int, e: Entry)
    requires e in ServiceEntries(s, now, st.host.announced) && e.Probed?
    ensures ProbedOnWire(ServiceTickOutput(st, s, now), e.name, |st.ifaces|)
  {
    ProbeGoesOut(st, iface => ServiceProbe(st, s), e.name);
  }

  lemma {:induction false} ServiceProbesGoOut(st: Responder, ss: seq<Service>, now: int, e: Entry)
    requires e in TickServiceEntries(ss, now, st.host.announced) && e.Probed?
    ensures ProbedOnWire(ServicesTickOutput(st, ss, now), e.name, |st.ifaces|)
  {
    var i := FlatSource(s => ServiceEntries(s, now, st.host.announced), ss, e);
    ServiceProbeGoesOut(st, ss[i], now, e);
    OnWireAmong(s => ServiceTickOutput(st, s, now), ss, i, e.name, |st.ifaces|);
  }

  /** Every probe the log counts is a question for that very name on every interface. */
  lemma {:induction false} LoggedProbesGoOut(st: Responder, now: int, e: Entry)
    requires e in TickLog(st, now) && e.Probed?
    ensures ProbedOnWire(TickOutput(st, now), e.name, |st.ifaces|)
  {
    var live := st.(host := TickGroup(st.host, now, true));
    if e in TickServiceEntries(st.services, now, live.host.announced) {
      ServiceProbesGoOut(live, st.services, now, e);
    } else {
      HostProbeGoesOut(st, now, live.host.announced, e);
    }
    OnWireEither(HostTickOutput(st, now), ServicesTickOutput(live, st.services, now), e.name, |st.ifaces|);
  }

  // ---- The wire and the log, probe for probe ---------------------------------------------------

  predicate IsProbe(m: Message) { |m.questions| == 1 && AsksFor(m, m.questions[0].name) }

  /** The names asked for on one interface, in order. */
  function AskedNames(os: seq<Outgoing>, iface: nat): seq<Name> {
    if os == [] then []
    else
      var m := os[0].message;
      (if os[0].iface == iface && IsProbe(m) then [m.questions[0].name] else []) + AskedNames(os[1..], iface)
  }

  /** The names of the probes in the log, in order. */
  function ProbedNames(es: seq<Entry>): seq<Name> {
    if es == [] then [] else (if es[0].Probed? then [es[0].name] else []) + ProbedNames(es[1..])
  }

  lemma {:induction false} AskedJoin(a: seq<Outgoing>, b: seq<Outgoing>, iface: nat)
    ensures AskedNames(a + b, iface) == AskedNames(a, iface) + AskedNames(b, iface)
  {
    if a == [] {
      assert a + b == b;
    } else {
      assert (a + b)[0] == a[0] && (a + b)[1..] == a[1..] + b;
      AskedJoin(a[1..], b, iface);
    }
  }

  lemma {:induction false} ProbedJoin(a: seq<Entry>, b: seq<Entry>)
    ensures ProbedNames(a + b) == ProbedNames(a) + ProbedNames(b)
  {
    if a == [] {
      assert a + b == b;
    } else {
      assert (a + b)[0] == a[0] && (a + b)[1..] == a[1..] + b;
      ProbedJoin(a[1..], b);
    }
  }

  /** One message per interface asks once on each. */
  lemma {:induction false} AskedFrom(os: seq<Outgoing>, name: Name, from: nat, iface: nat)
    requires from <= |os| && forall k :: 0 <= k < |os| ==> os[k].iface == k && AsksFor(os[k].message, name)
    ensures AskedNames(os[from..], iface) == if from <= iface < |os| then [name] else []
    decreases |os| - from
  {
    if from < |os| {
      AskedFrom(os, name, from + 1, iface);
      assert os[from..][0] == os[from] && os[from..][1..] == os[from + 1..];
    }
  }

  lemma {:induction false} AskedOnEach(st: Responder, make: Option<nat> -> Message, name: Name, iface: nat)
    requires iface < |st.ifaces| && forall i :: AsksFor(make(i), name)
    ensures AskedNames(OnEachInterface(st, make), iface) == [name]
  {
    var os := OnEachInterface(st, make);
    AskedFrom(os, name, 0, iface);
    assert os[0..] == os;
  }

  /** Announcements and goodbyes. */
  predicate NoQuestions(os: seq<Outgoing>) { forall k :: 0 <= k < |os| ==> os[k].message.questions == [] }

  lemma {:induction false} NothingAsked(os: seq<Outgoing>, iface: nat)
    requires NoQuestions(os)
    ensures AskedNames(os, iface) == []
  {
    if os != [] {
      assert os[0].message.questions == [] && forall k :: 0 <= k < |os[1..]| ==> os[1..][k] == os[k + 1];
      NothingAsked(os[1..], iface);
    }
  }

  lemma {:induction false} OutputsAskNothing(f: Service -> Output, ss: seq<Service>)
    requires forall s :: NoQuestions(f(s).sent)
    ensures NoQuestions(Outputs(f, ss).sent)
  {
    if ss != [] { OutputsAskNothing(f, ss[1..]); }
  }

  lemma {:induction false} AnnounceHostAsksNothing(st: Responder, now: int)
    ensures NoQuestions(AnnounceHost(st, now).sent)
  {
    OutputsAskNothing(s => AnnounceIfLive(st, s, now), st.services);
  }

  lemma {:induction false} GoodbyesAskNothing(st: Responder)
    ensures NoQuestions(Goodbyes(st).sent)
  {
    OutputsAskNothing(s => GoodbyeIfLive(st, s), st.services);
  }

  lemma {:induction false} TxtAsksNothing(st: Responder, stype: Name, key: seq<byte>, value: seq<byte>, now: int)
    ensures NoQuestions(TxtOutput(st, stype, key, value, now).sent)
  {
    OutputsAskNothing(s => TxtOutputOf(st, s, stype, key, value, now), st.services);
  }

  lemma {:induction false} HostTickAsks(st: Responder, now: int, iface: nat)
    requires iface < |st.ifaces|
    ensures var live := TickGroup(st.host, now, true).announced;
      AskedNames(HostTickOutput(st, now).sent, iface) ==
        ProbedNames(TickEntries(st.host, HostGroup, HostFqdn(st), now, true, live))
  {
    var g := st.host;
    if !g.announced && now >= g.nextProbeAt {
      if g.probesSent < PROBE_COUNT {
        AskedOnEach(st, i => HostProbe(st, i), HostFqdn(st), iface);
      } else {
        AnnounceHostAsksNothing(st.(host := TickGroup(g, now, true)), now);
        NothingAsked(HostTickOutput(st, now).sent, iface);
      }
    }
  }

  lemma {:induction false} ServiceTickAsks(st: Responder, s: Service, now: int, iface: nat)
    requires iface < |st.ifaces|
    ensures AskedNames(ServiceTickOutput(st, s, now).sent, iface) == ProbedNames(ServiceEntries(s, now, st.host.announced))
  {
    var g := s.group;
    if !g.announced && now >= g.nextProbeAt {
      if g.probesSent < PROBE_COUNT {
        AskedOnEach(st, i => ServiceProbe(st, s), InstanceName(s), iface);
      } else {
        NothingAsked(ServiceTickOutput(st, s, now).sent, iface);
      }
    }
  }

  lemma {:induction false} ServicesTickAsk(st: Responder, ss: seq<Service>, now: int, iface: nat)
    requires iface < |st.ifaces|
    ensures AskedNames(ServicesTickOutput(st, ss, now).sent, iface) == ProbedNames(TickServiceEntries(ss, now, st.host.announced))
  {
    if ss != [] {
      ServiceTickAsks(st, ss[0], now, iface);
      ServicesTickAsk(st, ss[1..], now, iface);
      AskedJoin(ServiceTickOutput(st, ss[0], now).sent, ServicesTickOutput(st, ss[1..], now).sent, iface);
      ProbedJoin(ServiceEntries(ss[0], now, st.host.announced), TickServiceEntries(ss[1..], now, st.host.announced));
    }
  }

  /** On every interface a tick asks for exactly the names whose probes it logs, in that order. */
  lemma {:induction false} TickAsksWhatItLogs(st: Responder, now: int, iface: nat)
    requires iface < |st.ifaces|
    ensures AskedNames(TickOutput(st, now).sent, iface) == ProbedNames(TickLog(st, now))
  {
    var live := st.(host := TickGroup(st.host, now, true));
    HostTickAsks(st, now, iface);
    ServicesTickAsk(live, st.services, now, iface);
    AskedJoin(HostTickOutput(st, now).sent, ServicesTickOutput(live, st.services, now).sent, iface);
    ProbedJoin(TickEntries(st.host, HostGroup, HostFqdn(st), now, true, live.host.announced),
               TickServiceEntries(st.services, now, live.host.announced));
  }

  /** The probes multicast on each interface are those in the log, one for one. */
  ghost predicate AsksAsLogged(os: seq<Outgoing>, es: seq<Entry>, ifaces: nat) {
    forall i: nat :: i < ifaces ==> AskedNames(os, i) == ProbedNames(es)
  }

  lemma {:induction false} BothGrow(os: seq<Outgoing>, es: seq<Entry>, more: seq<Outgoing>, later: seq<Entry>, ifaces: nat)
    requires AsksAsLogged(os, es, ifaces) && AsksAsLogged(more, later, ifaces)
    ensures AsksAsLogged(os + more, es + later, ifaces)
  {
    ProbedJoin(es, later);
    forall i: nat | i < ifaces ensures AskedNames(os + more, i) == ProbedNames(es + later) { AskedJoin(os, more, i); }
  }

  /** Whatever is said without questions leaves probes and log in step. */
  lemma {:induction false} QuietGrows(os: seq<Outgoing>, es: seq<Entry>, more: seq<Outgoing>, later: seq<Entry>, ifaces: nat)
    requires AsksAsLogged(os, es, ifaces) && NoQuestions(more) && ProbedNames(later) == []
    ensures AsksAsLogged(os + more, es + later, ifaces)
  {
    forall i: nat | i < ifaces ensures AskedNames(more, i) == ProbedNames(later) { NothingAsked(more, i); }
    BothGrow(os, es, more, later, ifaces);
  }

  lemma {:induction false} FlatNoProbes(f: Service -> seq<Entry>, ss: seq<Service>)
    requires forall s :: ProbedNames(f(s)) == []
    ensures ProbedNames(Flat(f, ss)) == []
  {
    if ss != [] {
      FlatNoProbes(f, ss[1..]);
      ProbedJoin(f(ss[0]), Flat(f, ss[1..]));
    }
  }

  lemma {:induction false} NoProbes(es: seq<Entry>)
    requires forall k :: 0 <= k < |es| ==> !es[k].Probed?
    ensures ProbedNames(es) == []
  {
    if es != [] { NoProbes(es[1..]); }
  }

  /** Starting over, for whatever reason, is not a probe. */
  lemma {:induction false} RestartsProbeNothing(st: Responder, m: Message, iface: Option<nat>, now: int)
    ensures ProbedNames(DeferLog(st, m, iface, now)) == [] && ProbedNames(ResponseLog(st, m, now)) == []
  {
    NoProbes(Restart(HostGroup, now));
    forall s: Service
      ensures ProbedNames(DeferEntries(st, m, now)(s)) == [] && ProbedNames(ConflictEntries(st, m, now)(s)) == []
    {
      NoProbes(Restart(ServiceGroup(s.id), now));
    }
    FlatNoProbes(DeferEntries(st, m, now), st.services);
    FlatNoProbes(ConflictEntries(st, m, now), st.services);
    ProbedJoin(HostDeferLog(st, m, iface, now), Flat(DeferEntries(st, m, now), st.services));
    ProbedJoin(HostConflictLog(st, m, now), Flat(ConflictEntries(st, m, now), st.services));
  }

  lemma {:induction false} RenamingProbesNothing(ss: seq<Service>, now: int)
    ensures ProbedNames(RenameLog(ss, now)) == []
  {
    var f := (s: Service) => [Began(ServiceGroup(s.id), now)];
    forall s ensures ProbedNames(f(s)) == [] { assert f(s)[1..] == []; }
    FlatNoProbes(f, ss);
  }

  lemma {:induction false} CopiesAskNothing(st: Responder, shot: Shot)
    ensures NoQuestions(Copies(st, shot))
  {
  }

  predicate OnKnown(os: seq<Outgoing>, ifaces: nat) { forall k :: 0 <= k < |os| ==> os[k].iface < ifaces }

  lemma {:induction false} OutputsOnKnown(f: Service -> Output, ss: seq<Service>, ifaces: nat)
    requires forall s :: OnKnown(f(s).sent, ifaces)
    ensures OnKnown(Outputs(f, ss).sent, ifaces)
  {
    if ss != [] { OutputsOnKnown(f, ss[1..], ifaces); }
  }

  lemma {:induction false} TickOnKnown(st: Responder, now: int)
    ensures OnKnown(TickOutput(st, now).sent, |st.ifaces|)
  {
    var live := st.(host := TickGroup(st.host, now, true));
    OutputsOnKnown(s => AnnounceIfLive(live, s, now), st.services, |st.ifaces|);
    OutputsOnKnown(s => ServiceTickOutput(live, s, now), st.services, |st.ifaces|);
  }

  /** Every probe on the wire is in the log. */
  lemma {:induction false} ProbesOnWireAreLogged(st: Responder, now: int, k: nat, name: Name)
    requires k < |TickOutput(st, now).sent| && AsksFor(TickOutput(st, now).sent[k].message, name)
    ensures exists e :: e in TickLog(st, now) && e.Probed? && e.name == name
  {
    var os := TickOutput(st, now).sent;
    TickOnKnown(st, now);
    TickAsksWhatItLogs(st, now, os[k].iface);
    AskedHas(os, k, name);
    ProbedHas(TickLog(st, now), name);
  }

  lemma {:induction false} AskedHas(os: seq<Outgoing>, k: nat, name: Name)
    requires k < |os| && AsksFor(os[k].message, name)
    ensures name in AskedNames(os, os[k].iface)
  {
    if k > 0 { AskedHas(os[1..], k - 1, name); }
  }

  lemma {:induction false} ProbedHas(es: seq<Entry>, name: Name)
    requires name in ProbedNames(es)
    ensures exists e :: e in es && e.Probed? && e.name == name
  {
    if es[0].Probed? && es[0].name == name {
      assert es[0] in es;
    } else {
      ProbedHas(es[1..], name);
      var e :| e in es[1..] && e.Probed? && e.name == name;
      assert e in es;
    }
  }

  // ---- Stale copies ----------------------------------------------------------------------------

  /** What an announcement says about a service, apart from the host it runs on. */
  predicate SaysSame(a: Service, b: Service) {
    a.id == b.id && a.stype == b.stype && a.baseName == b.baseName && a.suffix == b.suffix && a.port == b.port && a.txt == b.txt
  }

  /** The group has moved on, or is still announced with the same content. */
  predicate HostFresh(a: Responder, b: Responder, generation: nat) {
    a.ifaces == b.ifaces && a.hostLabel == b.hostLabel &&
    (b.host.generation > generation ||
     (b.host.generation == generation && b.host.announced && b.hostSuffix == a.hostSuffix))
  }

  predicate ServiceFresh(a: Service, b: Service, generation: nat) {
    a.id == b.id && (b.group.generation > generation ||
                     (b.group.generation == generation && b.group.announced && SaysSame(a, b)))
  }

  predicate ServicesFresh(a: Service, ss: seq<Service>, generation: nat) {
    forall i :: 0 <= i < |ss| && ss[i].id == a.id ==> ServiceFresh(a, ss[i], generation)
  }

  lemma {:induction false} TickFresh(a: Service, ss: seq<Service>, now: int, live: bool, generation: nat)
    requires ServicesFresh(a, ss, generation)
    ensures ServicesFresh(a, TickServices(ss, now, live), generation)
  {
    TickServicesIds(ss, now, live);
  }

  lemma {:induction false} SetFresh(a: Service, st: Responder, i: nat, s: Service, generation: nat)
    requires ServicesFresh(a, st.services, generation) && i < |st.services| && s.id == st.services[i].id
    requires s.group.generation > st.services[i].group.generation
    ensures ServicesFresh(a, st.services[i := s], generation)
  {
  }

  /** No step brings a group back to a generation it has left, or changes what is announced without
      leaving the generation. */
  lemma {:induction false} ActFresh(a: Service, r: Run, action: Action, now: int, generation: nat)
    requires ServicesFresh(a, r.st.services, generation) && Enabled(r.st, action) && a.id < r.st.nextId
    ensures var t := Act(r, action, now).st; ServicesFresh(a, t.services, generation) && a.id < t.nextId
  {
    match action
    case DoTick => TickFresh(a, r.st.services, now, TickGroup(r.st.host, now, true).announced, generation);
    case DoAdd(_, _, _, _, _) =>
    case DoRename(i, name, delay) => SetFresh(a, r.st, i, Rename(r.st.services[i], name, now, delay), generation);
    case DoTxt(_, _) =>
    case DoHostConflict =>
    case DoServiceConflict(i) => SetFresh(a, r.st, i, ServiceConflict(r.st.services[i], now), generation);
    case DoHostDefer =>
    case DoServiceDefer(i) => SetFresh(a, r.st, i, r.st.services[i].(group := Defer(r.st.services[i].group, now)), generation);
    case DoShutdown =>
  }

  lemma {:induction false} ActHostFresh(a: Responder, r: Run, action: Action, now: int, generation: nat)
    requires HostFresh(a, r.st, generation) && Enabled(r.st, action)
    ensures HostFresh(a, Act(r, action, now).st, generation)
  {
  }

  lemma {:induction false} PlayFresh(a: Service, r: Run, steps: seq<Timed>, generation: nat)
    requires ServicesFresh(a, r.st.services, generation) && a.id < r.st.nextId && Possible(r, steps)
    ensures ServicesFresh(a, Play(r, steps).st.services, generation)
    decreases |steps|
  {
    if steps != [] {
      ActFresh(a, r, steps[0].action, steps[0].at, generation);
      PlayFresh(a, Act(r, steps[0].action, steps[0].at), steps[1..], generation);
    }
  }

  lemma {:induction false} PlayHostFresh(a: Responder, r: Run, steps: seq<Timed>, generation: nat)
    requires HostFresh(a, r.st, generation) && Possible(r, steps)
    ensures HostFresh(a, Play(r, steps).st, generation)
    decreases |steps|
  {
    if steps != [] {
      ActHostFresh(a, r, steps[0].action, steps[0].at, generation);
      PlayHostFresh(a, Act(r, steps[0].action, steps[0].at), steps[1..], generation);
    }
  }

  lemma {:induction false} FoundService(ss: seq<Service>, id: nat)
    ensures var f := FindService(ss, id);
      if f.Some? then f.value in ss && f.value.id == id else forall i :: 0 <= i < |ss| ==> ss[i].id != id
  {
    if ss != [] && ss[0].id != id { FoundService(ss[1..], id); }
  }

  /** Whatever happens after a service's announcement is scheduled, a later copy is either silent or
      says exactly what was announced then; the host it names is the current one. */
  lemma {:induction false} ServiceCopiesAreFresh(r: Run, steps: seq<Timed>, s: Service)
    requires IdsOk(r.st) && s in r.st.services && s.group.announced && Possible(r, steps)
    ensures var t := Play(r, steps).st; var sent := Copies(t, ServiceShot(s.id, s.group.generation));
      sent == [] || sent == OnEachInterface(t, iface => ServiceAnnouncement(t, s, iface))
  {
    var t, g := Play(r, steps).st, s.group.generation;
    var k :| 0 <= k < |r.st.services| && r.st.services[k] == s;
    forall i | 0 <= i < |r.st.services| && r.st.services[i].id == s.id ensures ServiceFresh(s, r.st.services[i], g) {
      assert i == k;
    }
    PlayFresh(s, r, steps, g);
    FoundService(t.services, s.id);
  }

  /** The same for the host. */
  lemma {:induction false} HostCopiesAreFresh(r: Run, steps: seq<Timed>)
    requires r.st.host.announced && Possible(r, steps)
    ensures var sent := Copies(Play(r, steps).st, HostShot(r.st.host.generation));
      sent == [] || sent == OnEachInterface(r.st, iface => HostAnnouncement(r.st, iface))
  {
    PlayHostFresh(r.st, r, steps, r.st.host.generation);
  }

  /** A goodbye withdraws every record the announcement gave out except the pointer to the type, which
      other services share. */
  lemma {:induction false} GoodbyeWithdraws(st: Responder, s: Service)
    ensures forall r :: r in ServiceRecordsOf(st, s) && r != EnumPtr(s) ==> Contains(Goodbye(st, s).answers, r)
    ensures forall r :: r in Goodbye(st, s).answers ==> r.ttl == 0 && Contains(ServiceRecordsOf(st, s), r)
  {
    var gone, live := Goodbye(st, s).answers, ServiceRecordsOf(st, s);
    assert SameAs(gone[0], live[1]) && SameAs(gone[1], live[2]) && SameAs(gone[2], live[3]);
    assert SameAs(live[1], gone[0]) && SameAs(live[2], gone[1]) && SameAs(live[3], gone[2]);
  }
}
