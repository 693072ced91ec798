/** Two responders on one link: with bounded delivery and punctual timers they never both hold the
    same host name (sections 8.1, 8.2 and 9 of RFC 6762). */
module MdnsExclusion {
  import opened Bytes
  import opened DnsName
  import opened DnsMessage
  import opened TieBreak
  import opened MdnsRecords
  import opened MdnsAnswer
  import opened MdnsQuery
  import opened MdnsProbe
  import opened MdnsHandlers
  import opened MdnsAnnounce

  /** Every packet arrives within this many ms. */
  const DELIVERY := 124
  /** A due timer fires at most this late. */
  const LATENESS := 224

  const IFACE: Option<nat> := Some(0)

  datatype Node = Node(st: Responder, tickDue: int)

  datatype Packet = Packet(dst: bool, message: Message, sentAt: int)

  datatype Link = Link(now: int, left: Node, right: Node, flight: multiset<Packet>)

  function Get(l: Link, who: bool): Node { if who then l.left else l.right }

  /** A node after its responder moved to `st`; a timer just started is due one tick from now. */
  function Moved(n: Node, st: Responder, now: int): Node {
    Node(st, if !n.st.timerActive && st.timerActive then now + TICK else n.tickDue)
  }

  function Set(l: Link, who: bool, n: Node): Link { if who then l.(left := n) else l.(right := n) }

  function Send(l: Link, dst: bool, m: Message): Link { l.(flight := l.flight + multiset{Packet(dst, m, l.now)}) }

  function ProbeOf(st: Responder): Message { HostProbe(st, IFACE) }

  // ---- Steps -----------------------------------------------------------------------------------

  datatype Step =
    | Advance(to: int)
    | FireTimer(who: bool, due: int)
    | Deliver(packet: Packet)
    | Inject(dst: bool, message: Message)
    | Api(who: bool, action: Action)
    | Boot(who: bool, base: Label, delay: nat)

  predicate SendsProbe(g: Group, now: int) { !g.announced && now >= g.nextProbeAt && g.probesSent < PROBE_COUNT }

  function Receive(st: Responder, m: Message, now: int): Responder {
    if IsResponse(m) then AfterResponse(st, m, now) else AfterQuery(st, m, IFACE, now)
  }

  /** Types are written "_service._proto", so a type name is never two labels long. */
  predicate Typed(a: Action) { a.DoAdd? ==> |a.stype| >= 2 }

  predicate CanStep(l: Link, s: Step) {
    match s
    case Advance(t) =>
      l.now <= t && (forall p :: p in l.flight ==> t <= p.sentAt + DELIVERY) &&
      forall who :: Get(l, who).st.timerActive ==> t <= Get(l, who).tickDue + LATENESS
    case FireTimer(who, due) =>
      Get(l, who).st.timerActive && Get(l, who).tickDue <= l.now < due <= l.now + TICK
    case Deliver(p) => p in l.flight
    case Inject(_, _) => true
    case Boot(_, _, _) => true
    case Api(who, a) => !a.DoTick? && Typed(a) && Enabled(Get(l, who).st, a)
  }

  /** A response ready at once goes out at once; one that has to wait is an injected packet later. */
  function ReplyAtOnce(st: Responder, m: Message): Option<Message> {
    var reply := ReplyTo(st, m, IFACE, false, false);
    if !IsResponse(m) && reply.Scheduled? && reply.hi == 0 then Some(reply.message) else None
  }

  function Replied(l: Link, dst: bool, reply: Option<Message>): Link {
    if reply.Some? then Send(l, dst, reply.value) else l
  }

  /** A machine that starts, for the first time or again, at any moment and under any name. */
  function Started(base: Label, ifaces: seq<seq<uint32>>, now: int, delay: nat): Node {
    Node(Initial(base, ifaces, now, delay).st, now + TICK)
  }

  function Apply(l: Link, s: Step): Link
    requires CanStep(l, s)
  {
    match s
    case Advance(t) => l.(now := t)
    case FireTimer(who, due) =>
      var st := Get(l, who).st;
      var l' := Set(l, who, Node(Tick(st, l.now), due));
      if SendsProbe(st.host, l.now) then Send(l', !who, ProbeOf(st)) else l'
    case Deliver(p) =>
      var n := Get(l, p.dst);
      var st := Receive(n.st, p.message, l.now);
      Replied(Set(l.(flight := l.flight - multiset{p}), p.dst, Moved(n, st, l.now)), !p.dst, ReplyAtOnce(st, p.message))
    case Inject(dst, m) => Send(l, dst, m)
    case Api(who, a) =>
      var n := Get(l, who);
      Set(l, who, Moved(n, Act(Run(n.st, []), a, l.now).st, l.now))
    case Boot(who, base, delay) => Set(l, who, Started(base, Get(l, who).st.ifaces, l.now, delay))
  }

  // ---- What the argument needs to know about messages -------------------------------------------

  predicate SameHostName(a: Node, b: Node) { SameName(HostFqdn(a.st), HostFqdn(b.st)) }

  ghost predicate Configured(n: Node) {
    |n.st.ifaces| == 1 && n.st.ifaces[0] != [] && forall i :: 0 <= i < |n.st.services| ==> |n.st.services[i].stype| >= 2
  }

  ghost predicate DisjointAddresses(a: Node, b: Node) {
    |a.st.ifaces| == 1 && |b.st.ifaces| == 1 && forall x :: x in a.st.ifaces[0] ==> x !in b.st.ifaces[0]
  }

  predicate LosesTo(loser: Node, winner: Node) {
    Compare(HostProbeRecords(loser.st, IFACE), HostProbeRecords(winner.st, IFACE)) < 0
  }

  // ---- Facts about probes and answers ----------------------------------------------------------

  lemma {:induction false} SameNameLength(a: Name, b: Name)
    requires SameName(a, b)
    ensures |a| == |b|
  {
    FoldLength(a);
    FoldLength(b);
  }

  lemma {:induction false} FoldLength(n: Name)
    ensures |FoldName(n)| == |n|
  {
    if n != [] { FoldLength(n[1..]); }
  }

  ghost predicate IsHostA(r: Record, name: Name, addrs: seq<uint32>) { exists a :: a in addrs && r == ARecord(name, a) }

  ghost predicate IsProbeA(r: Record, name: Name, addrs: seq<uint32>) {
    exists a :: a in addrs && r == ARecord(name, a).(cacheFlush := false)
  }

  lemma {:induction false} HostARecordsAt(name: Name, addrs: seq<uint32>, r: Record)
    requires r in HostARecords(name, addrs)
    ensures IsHostA(r, name, addrs)
  {
    if r == ARecord(name, addrs[0]) {
      assert addrs[0] in addrs;
    } else {
      HostARecordsAt(name, addrs[1..], r);
      var a :| a in addrs[1..] && r == ARecord(name, a);
      assert a in addrs;
    }
  }

  /** The host's A records are its addresses, at least one of them. */
  lemma {:induction false} HostRecordsFacts(name: Name, addrs: seq<uint32>)
    requires addrs != []
    ensures var rs := Collect(r => true, HostARecords(name, addrs), []);
      rs != [] && forall r :: r in rs ==> IsHostA(r, name, addrs)
  {
    var pick := (r: Record) => true;
    var rs := Collect(pick, HostARecords(name, addrs), []);
    CollectSpec(pick, HostARecords(name, addrs), []);
    assert HostARecords(name, addrs)[0] in HostARecords(name, addrs) && pick(HostARecords(name, addrs)[0]);
    forall r | r in rs ensures IsHostA(r, name, addrs) { HostARecordsAt(name, addrs, r); }
  }

  lemma {:induction false} OnlyAOfAddresses(rs: seq<Record>, name: Name, addrs: seq<uint32>, tail: seq<Record>)
    requires forall r :: r in rs ==> IsHostA(r, name, addrs)
    requires OnlyA(tail) == []
    ensures var out := OnlyA(rs + tail); |out| == |rs| && forall r :: r in out ==> IsProbeA(r, name, addrs)
  {
    if rs == [] {
      assert rs + tail == tail;
    } else {
      assert (rs + tail)[1..] == rs[1..] + tail;
      OnlyAOfAddresses(rs[1..], name, addrs, tail);
      assert IsHostA(rs[0], name, addrs);
      var a :| a in addrs && rs[0] == ARecord(name, a);
      assert IsProbeA(rs[0].(cacheFlush := false), name, addrs);
    }
  }

  /** What a host puts in the authority section of its probes. */
  lemma {:induction false} ProbeRecordsFacts(n: Node)
    requires Configured(n)
    ensures var out := HostProbeRecords(n.st, IFACE);
      out != [] && forall r :: r in out ==> IsProbeA(r, HostFqdn(n.st), n.st.ifaces[0])
  {
    var name, addrs := HostFqdn(n.st), n.st.ifaces[0];
    HostRecordsFacts(name, addrs);
    OnlyAOfAddresses(Collect(r => true, HostARecords(name, addrs), []), name, addrs, [NsecRecord(name)]);
  }

  lemma {:induction false} NamedAll(rs: seq<Record>, name: Name)
    requires forall r :: r in rs ==> SameName(r.name, name)
    ensures Named(rs, name) == rs
  {
    if rs != [] { NamedAll(rs[1..], name); }
  }

  lemma {:induction false} SortKeysOf(rs: seq<Record>, k: seq<int>)
    requires k in SortKeys(rs)
    ensures exists r :: r in rs && SortKey(r) == k
  {
    if k != SortKey(rs[0]) { SortKeysOf(rs[1..], k); }
  }

  lemma {:induction false} AddressOfKey(host: Name, a: uint32, other: Name, b: uint32)
    requires SortKey(ARecord(host, a).(cacheFlush := false)) == SortKey(ARecord(other, b).(cacheFlush := false))
    ensures a == b
  {
    var x, y := SortKey(ARecord(host, a).(cacheFlush := false)), SortKey(ARecord(other, b).(cacheFlush := false));
    assert x[2..] == Put32(a) && y[2..] == Put32(b);
    ReadBack32(Put32(a), 0, a);
    ReadBack32(Put32(b), 0, b);
  }

  /** Different addresses never tie. */
  lemma {:induction false} NoTie(x: Node, y: Node)
    requires Configured(x) && Configured(y) && DisjointAddresses(x, y)
    ensures LosesTo(x, y) || LosesTo(y, x)
  {
    var ours, theirs := HostProbeRecords(x.st, IFACE), HostProbeRecords(y.st, IFACE);
    CompareAntisymmetric(ours, theirs);
    if Compare(ours, theirs) == 0 {
      CompareZero(ours, theirs);
      ProbeRecordsFacts(x);
      ProbeRecordsFacts(y);
      var k := SortKey(ours[0]);
      assert k in multiset(SortKeys(ours));
      assert k in SortKeys(theirs);
      SortKeysOf(theirs, k);
      var r :| r in theirs && SortKey(r) == k;
      assert IsProbeA(ours[0], HostFqdn(x.st), x.st.ifaces[0]) && IsProbeA(r, HostFqdn(y.st), y.st.ifaces[0]);
      var a :| a in x.st.ifaces[0] && ours[0] == ARecord(HostFqdn(x.st), a).(cacheFlush := false);
      var b :| b in y.st.ifaces[0] && r == ARecord(HostFqdn(y.st), b).(cacheFlush := false);
      AddressOfKey(HostFqdn(x.st), a, HostFqdn(y.st), b);
    }
  }

  // ---- Answers to probes -----------------------------------------------------------------------

  lemma {:induction false} ServiceRecordKind(st: Responder, s: Service, r: Record)
    requires BelongsTo(st, s, r) && |s.stype| >= 2
    ensures r.ttl != 0 && (r.rtype == PTR ==> |r.name| >= 3)
  {
    assert |TypeName(s)| >= 3 && |SERVICES_NAME| == 4;
  }

  lemma {:induction false} HostRecordKind(name: Name, addrs: seq<uint32>, r: Record)
    requires addrs != [] && r in HostRecordsFor(name, addrs)
    ensures r.ttl != 0 && r.rtype != PTR
  {
    HostRecordsFacts(name, addrs);
    if r != NsecRecord(name) { assert IsHostA(r, name, addrs); }
  }

  /** Records under a host name are never PTR records and never goodbyes. */
  lemma {:induction false} CurrentUnderHostName(n: Node, r: Record, name: Name)
    requires Configured(n) && r in CurrentRecords(n.st, IFACE) && SameName(r.name, name) && |name| == 2
    ensures r.rtype != PTR && r.ttl != 0
  {
    CurrentRecordOrigin(n.st, IFACE, r);
    SameNameLength(r.name, name);
    if OwnedByService(n.st, r) {
      var s :| s in n.st.services && BelongsTo(n.st, s, r);
      ServiceRecordKind(n.st, s, r);
    } else {
      HostRecordKind(HostFqdn(n.st), n.st.ifaces[0], r);
    }
  }

  lemma {:induction false} OwnAddressWanted(x: Node, y: Node) returns (r: Record)
    requires Configured(x) && x.st.host.announced && SameHostName(x, y)
    ensures var q, rs := ProbeOf(y.st), CurrentRecords(x.st, IFACE);
      IsHostA(r, HostFqdn(x.st), x.st.ifaces[0]) && r in rs && Wanted(q, q.questions, rs, HostFqdn(x.st), r)
  {
    var q, rs, host := ProbeOf(y.st), CurrentRecords(x.st, IFACE), HostFqdn(x.st);
    HostRecordsFacts(host, x.st.ifaces[0]);
    r := Collect(r => true, HostARecords(host, x.st.ifaces[0]), [])[0];
    assert r in HostRecords(x.st, IFACE);
    CurrentRecordsExact(x.st, IFACE);
    assert q.questions[0] in q.questions && WantedBy(q, q.questions[0], rs, host, r);
  }

  lemma {:induction false} AnswerIsQuiet(x: Node, y: Node, a: Record)
    requires Configured(x) && a in CurrentRecords(x.st, IFACE)
    requires Wanted(ProbeOf(y.st), ProbeOf(y.st).questions, CurrentRecords(x.st, IFACE), HostFqdn(x.st), a)
    ensures a.rtype != PTR && a.ttl != 0
  {
    CurrentUnderHostName(x, a, HostFqdn(y.st));
  }

  /** Quiet answers that include our own address clash at the prober. */
  lemma {:induction false} AddressClashes(x: Node, y: Node, answers: seq<Record>, r: Record)
    requires DisjointAddresses(x, y) && SameHostName(x, y) && IsHostA(r, HostFqdn(x.st), x.st.ifaces[0]) && Contains(answers, r)
    requires forall a :: a in answers ==> a.rtype != PTR && a.ttl != 0
    ensures !Shared(answers) && exists a :: a in answers && HostClash(y.st, a)
  {
    var i :| 0 <= i < |answers| && SameAs(answers[i], r);
    assert answers[i] in answers;
    AnswerClashes(x, y, answers, i, r);
  }

  lemma {:induction false} AnswersToProbe(x: Node, y: Node)
    requires Configured(x) && DisjointAddresses(x, y) && x.st.host.announced && SameHostName(x, y)
    ensures var answers := AnswersTo(x.st, ProbeOf(y.st), IFACE);
      !Shared(answers) && exists a :: a in answers && HostClash(y.st, a)
  {
    var answers := AnswersTo(x.st, ProbeOf(y.st), IFACE);
    AnswersExact(ProbeOf(y.st), CurrentRecords(x.st, IFACE), HostFqdn(x.st));
    forall a | a in answers ensures a.rtype != PTR && a.ttl != 0 { AnswerIsQuiet(x, y, a); }
    var r := OwnAddressWanted(x, y);
    AddressClashes(x, y, answers, r);
  }

  /** A probe whose answers are ours alone is answered at once and by multicast. */
  lemma {:induction false} AnsweredAtOnce(st: Responder, q: Message, answers: seq<Record>, extra: seq<Record>)
    requires answers == AnswersTo(st, q, IFACE) && extra == Additionals(answers, CurrentRecords(st, IFACE))
    requires answers != [] && !Shared(answers) && q.authorities != [] && q.flags == 0
    ensures ReplyTo(st, q, IFACE, false, false) == Scheduled(Message(0, RESPONSE_FLAGS, [], answers, [], extra), false, 0, 0)
  {
  }

  lemma {:induction false} ClashHeard(st: Responder, m: Message, a: Record)
    requires a in m.answers && HostClash(st, a)
    ensures HostClashes(st, m)
  {
    assert a in m.answers + m.additionals;
  }

  /** A probe for a name we hold is answered at once, by multicast, and the answer clashes at the
      prober. */
  lemma {:induction false} ProbeIsAnswered(x: Node, y: Node)
    requires Configured(x) && Configured(y) && DisjointAddresses(x, y) && x.st.host.announced && SameHostName(x, y)
    ensures var reply := ReplyTo(x.st, ProbeOf(y.st), IFACE, false, false);
      reply.Scheduled? && !reply.unicast && reply.hi == 0 && IsResponse(reply.message) && HostClashes(y.st, reply.message)
  {
    ProbeRecordsFacts(y);
    AnswersToProbe(x, y);
    var q, answers := ProbeOf(y.st), AnswersTo(x.st, ProbeOf(y.st), IFACE);
    var extra := Additionals(answers, CurrentRecords(x.st, IFACE));
    AnsweredAtOnce(x.st, q, answers, extra);
    var a :| a in answers && HostClash(y.st, a);
    ClashHeard(y.st, Message(0, RESPONSE_FLAGS, [], answers, [], extra), a);
  }

  lemma {:induction false} AnswerClashes(x: Node, y: Node, answers: seq<Record>, i: nat, r: Record)
    requires i < |answers| && SameAs(answers[i], r) && answers[i].ttl != 0 && SameHostName(x, y)
    requires DisjointAddresses(x, y) && IsHostA(r, HostFqdn(x.st), x.st.ifaces[0])
    ensures HostClash(y.st, answers[i])
  {
    var a :| a in x.st.ifaces[0] && r == ARecord(HostFqdn(x.st), a);
    ReadBack32(Put32(a), 0, a);
    assert y.st.ifaces[1..] == [] && AllAddresses([]) == [];
    assert AllAddresses(y.st.ifaces) == y.st.ifaces[0] + [];
  }

  // ---- The invariant ---------------------------------------------------------------------------

  /** The four things the timing argument uses about a node: its probe, who it shares a name with,
      whom it loses a tie-break to, and which messages make it give its name up. */
  datatype Rules = Rules(probe: Responder -> Message, same: (Responder, Responder) -> bool,
                         loses: (Responder, Responder) -> bool, clashes: (Responder, Message) -> bool)

  function HostRules(): Rules {
    Rules(ProbeOf, (a, b) => SameName(HostFqdn(a), HostFqdn(b)),
          (a, b) => Compare(HostProbeRecords(a, IFACE), HostProbeRecords(b, IFACE)) < 0,
          (st, m) => IsResponse(m) && HostClashes(st, m))
  }

  function Host(l: Link, who: bool): Group { Get(l, who).st.host }

  predicate Same(k: Rules, l: Link, who: bool) { k.same(Get(l, who).st, Get(l, !who).st) }

  /** The timer of an unannounced host runs, and fires soon after the next probe is due. */
  predicate TimerOk(n: Node, now: int) {
    var g := n.st.host;
    (n.st.timerActive ==> n.tickDue <= now + TICK && now <= n.tickDue + LATENESS) &&
    (!g.announced ==>
      n.st.timerActive && n.tickDue <= g.nextProbeAt + TICK && g.probesSent <= PROBE_COUNT &&
      (g.probesSent > 0 ==> g.nextProbeAt - PROBE_INTERVAL <= now))
  }

  /** The last probe of `from` is still on its way. */
  predicate ProbeInFlight(k: Rules, l: Link, from: bool) {
    Packet(!from, k.probe(Get(l, from).st), Host(l, from).nextProbeAt - PROBE_INTERVAL) in l.flight
  }

  /** The packet makes `who` give up its name before its next step is due. */
  predicate Kills(k: Rules, l: Link, who: bool, p: Packet) {
    p.dst == who && k.clashes(Get(l, who).st, p.message) && p.sentAt <= Host(l, who).nextProbeAt - PROBE_INTERVAL + DELIVERY
  }

  ghost predicate ConflictInFlight(k: Rules, l: Link, who: bool) { exists p :: p in l.flight && Kills(k, l, who, p) }

  /** Of two probers the loser lags: everything it has sent is later than the winner's last probe. */
  ghost predicate LoserLags(k: Rules, l: Link, w: bool) {
    !Host(l, w).announced && !Host(l, !w).announced && Same(k, l, w) && k.loses(Get(l, !w).st, Get(l, w).st) &&
    Host(l, w).probesSent > 0 ==>
      ProbeInFlight(k, l, w) ||
      Host(l, !w).nextProbeAt >= Host(l, w).nextProbeAt - PROBE_INTERVAL + Host(l, !w).probesSent * PROBE_INTERVAL
  }

  /** Against a live owner a prober's third probe is bound to be answered in time. */
  ghost predicate OwnerDefends(k: Rules, l: Link, x: bool) {
    Host(l, x).announced && !Host(l, !x).announced && Same(k, l, x) && Host(l, !x).probesSent == PROBE_COUNT ==>
      ProbeInFlight(k, l, !x) || ConflictInFlight(k, l, !x)
  }

  ghost predicate Exclusive(k: Rules, l: Link) { !(Host(l, true).announced && Host(l, false).announced && Same(k, l, true)) }

  ghost predicate FlightOk(l: Link) { forall p :: p in l.flight ==> p.sentAt <= l.now <= p.sentAt + DELIVERY }

  ghost predicate Inv(k: Rules, l: Link) {
    TimerOk(l.left, l.now) && TimerOk(l.right, l.now) && FlightOk(l) && Exclusive(k, l) &&
    (forall who :: LoserLags(k, l, who)) && (forall who :: OwnerDefends(k, l, who))
  }

  ghost predicate Symmetric(k: Rules) { forall a, b :: k.same(a, b) == k.same(b, a) }

  // ---- Every step keeps the invariant ----------------------------------------------------------

  lemma {:induction false} SendKeeps(k: Rules, l: Link, dst: bool, m: Message)
    requires Inv(k, l)
    ensures Inv(k, Send(l, dst, m))
  {
    var l' := Send(l, dst, m);
    forall who ensures OwnerDefends(k, l', who) && LoserLags(k, l', who) {
      assert OwnerDefends(k, l, who) && LoserLags(k, l, who);
      ConflictStays(k, l, l', !who);
    }
  }

  lemma {:induction false} ConflictStays(k: Rules, l: Link, l': Link, who: bool)
    requires l.flight <= l'.flight && Get(l, who).st == Get(l', who).st
    ensures ConflictInFlight(k, l, who) ==> ConflictInFlight(k, l', who)
  {
    if ConflictInFlight(k, l, who) {
      var p :| p in l.flight && Kills(k, l, who, p);
      assert Kills(k, l', who, p);
    }
  }

  lemma {:induction false} AdvanceKeeps(k: Rules, l: Link, t: int)
    requires Inv(k, l) && CanStep(l, Advance(t))
    ensures Inv(k, l.(now := t))
  {
    var l' := l.(now := t);
    assert Get(l, true) == l.left && Get(l, false) == l.right;
    forall who ensures OwnerDefends(k, l', who) && LoserLags(k, l', who) {
      assert OwnerDefends(k, l, who) && LoserLags(k, l, who);
      ConflictStays(k, l, l', !who);
    }
  }

  /** Starting over concedes everything the invariant could ask of a node. */
  lemma {:induction false} RestartKeeps(k: Rules, l: Link, who: bool, n: Node, flight: multiset<Packet>)
    requires Inv(k, l) && flight <= l.flight && Restarted(n.st, l.now) && TimerOk(n, l.now)
    ensures Inv(k, Set(l.(flight := flight), who, n))
  {
    var l' := Set(l.(flight := flight), who, n);
    assert TimerOk(Get(l, !who), l.now);
    assert forall p :: p in flight ==> p in l.flight;
    forall w ensures OwnerDefends(k, l', w) && LoserLags(k, l', w) {
      if w == who { } else { assert Get(l', w) == Get(l, w); }
    }
  }

  lemma {:induction false} QuietDefends(k: Rules, l: Link, who: bool, n: Node, flight: multiset<Packet>)
    requires OwnerDefends(k, l, !who) && n.st.host == Host(l, who) && SameRules(k, n.st, Get(l, who).st)
    requires forall p :: p in l.flight && p.dst != who ==> p in flight
    requires forall p :: p in l.flight && Kills(k, l, who, p) ==> p in flight
    ensures OwnerDefends(k, Set(l.(flight := flight), who, n), !who)
  {
    var l' := Set(l.(flight := flight), who, n);
    if ConflictInFlight(k, l, who) {
      var p :| p in l.flight && Kills(k, l, who, p);
      assert Kills(k, l', who, p);
    }
  }

  /** A node whose host does not change, and a packet to it that did not matter. */
  lemma {:induction false} QuietKeeps(k: Rules, l: Link, who: bool, n: Node, flight: multiset<Packet>)
    requires Inv(k, l) && flight <= l.flight && TimerOk(n, l.now) && n.st.host == Host(l, who)
    requires SameRules(k, n.st, Get(l, who).st)
    requires forall p :: p in l.flight && p.dst != who ==> p in flight
    requires ProbeInFlight(k, l, !who) && !Host(l, who).announced ==>
               (Packet(who, k.probe(Get(l, !who).st), Host(l, !who).nextProbeAt - PROBE_INTERVAL) in flight ||
                !(Same(k, l, !who) && !Host(l, !who).announced && k.loses(Get(l, who).st, Get(l, !who).st)))
    requires forall p :: p in l.flight && Kills(k, l, who, p) ==> p in flight
    ensures var l' := Set(l.(flight := flight), who, n);
      TimerOk(l'.left, l'.now) && TimerOk(l'.right, l'.now) && FlightOk(l') && Exclusive(k, l') &&
      (forall w :: LoserLags(k, l', w)) && OwnerDefends(k, l', !who)
  {
    var l' := Set(l.(flight := flight), who, n);
    assert TimerOk(Get(l, !who), l.now);
    assert forall p :: p in flight ==> p in l.flight;
    assert LoserLags(k, l, who) && LoserLags(k, l, !who) && OwnerDefends(k, l, !who);
    assert LoserLags(k, l', who);
    assert LoserLags(k, l', !who);
    QuietDefends(k, l, who, n, flight);
  }

  /** The rules see no difference between the two states. */
  ghost predicate SameRules(k: Rules, a: Responder, b: Responder) {
    k.probe(a) == k.probe(b) && (forall x :: k.same(a, x) == k.same(b, x) && k.same(x, a) == k.same(x, b)) &&
    (forall x :: k.loses(a, x) == k.loses(b, x) && k.loses(x, a) == k.loses(x, b)) &&
      forall m :: k.clashes(a, m) == k.clashes(b, m)
  }

  /** A node that stands still while its timer is set again. */
  lemma {:induction false} IdleKeeps(k: Rules, l: Link, who: bool, n: Node)
    requires Inv(k, l) && TimerOk(n, l.now) && n.st.host == Host(l, who) && SameRules(k, n.st, Get(l, who).st)
    ensures Inv(k, Set(l, who, n))
  {
    var l' := Set(l, who, n);
    assert l.(flight := l.flight) == l;
    assert LoserLags(k, l, !who) && OwnerDefends(k, l, who);
    QuietKeeps(k, l, who, n, l.flight);
    ConflictStays(k, l, l', !who);
    assert OwnerDefends(k, l', who);
  }

  /** Sending the next probe. */
  lemma {:induction false} ProbeKeeps(k: Rules, l: Link, who: bool, n: Node)
    requires Inv(k, l) && TimerOk(n, l.now) && SendsProbe(Host(l, who), l.now) &&
      n.st.host == TickGroup(Host(l, who), l.now, true)
    requires SameRules(k, n.st, Get(l, who).st)
    ensures Inv(k, Send(Set(l, who, n), !who, k.probe(n.st)))
  {
    var l' := Send(Set(l, who, n), !who, k.probe(n.st));
    assert TimerOk(Get(l, !who), l.now);
    assert LoserLags(k, l, who) && LoserLags(k, l, !who) && OwnerDefends(k, l, !who);
    assert ProbeInFlight(k, l', who);
    assert ProbeInFlight(k, l, !who) ==> ProbeInFlight(k, l', !who);
    assert LoserLags(k, l', who) && LoserLags(k, l', !who) && OwnerDefends(k, l', who) && OwnerDefends(k, l', !who);
  }

  predicate GoesLive(g: Group, now: int) { !g.announced && now >= g.nextProbeAt && g.probesSent == PROBE_COUNT }

  /** By the time a node may go live, everything its last probe set off has arrived. */
  lemma {:induction false} NothingPending(k: Rules, l: Link, who: bool)
    requires FlightOk(l) && GoesLive(Host(l, who), l.now)
    ensures !ProbeInFlight(k, l, who) && !ConflictInFlight(k, l, who)
  {
    forall p | p in l.flight ensures !Kills(k, l, who, p) { }
  }

  /** Whoever is about to go live has heard from any owner of the name by now. */
  lemma {:induction false} NobodyElseIsLive(k: Rules, l: Link, who: bool)
    requires Inv(k, l) && GoesLive(Host(l, who), l.now) && Same(k, l, !who)
    ensures !Host(l, !who).announced
  {
    NothingPending(k, l, who);
    assert OwnerDefends(k, l, !who);
  }

  /** ... and any rival still probing has either not sent its third probe or has it on its way. */
  lemma {:induction false} RivalIsBehind(k: Rules, l: Link, who: bool)
    requires Inv(k, l) && GoesLive(Host(l, who), l.now) && Same(k, l, who) && Same(k, l, !who) && !Host(l, !who).announced
    requires k.loses(Get(l, who).st, Get(l, !who).st) || k.loses(Get(l, !who).st, Get(l, who).st)
    ensures Host(l, !who).probesSent == PROBE_COUNT ==> ProbeInFlight(k, l, !who)
  {
    assert TimerOk(Get(l, !who), l.now) && TimerOk(Get(l, who), l.now);
    assert LoserLags(k, l, who) && LoserLags(k, l, !who);
  }

  lemma {:induction false} GoLiveKeeps(k: Rules, l: Link, who: bool, n: Node)
    requires Inv(k, l) && TimerOk(n, l.now) && GoesLive(Host(l, who), l.now) && n.st.host == TickGroup(Host(l, who), l.now, true)
    requires SameRules(k, n.st, Get(l, who).st) && Symmetric(k)
    requires k.loses(Get(l, who).st, Get(l, !who).st) || k.loses(Get(l, !who).st, Get(l, who).st)
    ensures Inv(k, Set(l, who, n))
  {
    var l' := Set(l, who, n);
    assert Same(k, l, who) == Same(k, l, !who);
    if Same(k, l, who) {
      NobodyElseIsLive(k, l, who);
      RivalIsBehind(k, l, who);
    }
    assert TimerOk(Get(l, !who), l.now);
    assert ProbeInFlight(k, l, !who) ==> ProbeInFlight(k, l', !who);
    assert LoserLags(k, l', who) && LoserLags(k, l', !who) && OwnerDefends(k, l', who) && OwnerDefends(k, l', !who);
    assert Same(k, l', who) == Same(k, l', !who) == Same(k, l, who);
  }

  /** The packet is our rival's probe for the name we share. */
  predicate RivalProbe(k: Rules, l: Link, p: Packet) {
    p.message == k.probe(Get(l, !p.dst).st) && Same(k, l, !p.dst)
  }

  /** A packet that does not shake the host leaves everything but the owner's defence as it was. */
  lemma {:induction false} HearQuietly(k: Rules, l: Link, p: Packet, n: Node)
    requires Inv(k, l) && p in l.flight && TimerOk(n, l.now) && n.st.host == Host(l, p.dst) &&
      SameRules(k, n.st, Get(l, p.dst).st)
    requires !k.clashes(Get(l, p.dst).st, p.message)
    requires RivalProbe(k, l, p) && !Host(l, p.dst).announced ==> !k.loses(Get(l, p.dst).st, Get(l, !p.dst).st)
    ensures var l' := Set(l.(flight := l.flight - multiset{p}), p.dst, n);
      TimerOk(l'.left, l'.now) && TimerOk(l'.right, l'.now) && FlightOk(l') && Exclusive(k, l') &&
      (forall w :: LoserLags(k, l', w)) && OwnerDefends(k, l', !p.dst)
  {
    var flight := l.flight - multiset{p};
    assert forall q :: q in l.flight && q != p ==> q in flight;
    QuietKeeps(k, l, p.dst, n, flight);
  }

  /** Everything the invariant asks but the defence of `x`. */
  ghost predicate AllBut(k: Rules, l: Link, x: bool) {
    TimerOk(l.left, l.now) && TimerOk(l.right, l.now) && FlightOk(l) && Exclusive(k, l) &&
    (forall w :: LoserLags(k, l, w)) && OwnerDefends(k, l, !x)
  }

  lemma {:induction false} SendKeepsAllBut(k: Rules, l: Link, x: bool, dst: bool, m: Message)
    requires AllBut(k, l, x)
    ensures AllBut(k, Send(l, dst, m), x)
  {
    var l' := Send(l, dst, m);
    assert forall w :: ProbeInFlight(k, l, w) ==> ProbeInFlight(k, l', w);
    forall w ensures LoserLags(k, l', w) { assert LoserLags(k, l, w); }
    ConflictStays(k, l, l', x);
  }

  lemma {:induction false} WholeInvariant(k: Rules, l: Link, x: bool)
    requires AllBut(k, l, x) && OwnerDefends(k, l, x)
    ensures Inv(k, l)
  {
    forall w ensures OwnerDefends(k, l, w) { if w != x { assert w == !x; } }
  }

  /** If the packet was a probe for our name, the reply defends it. */
  lemma {:induction false} HearKeeps(k: Rules, l: Link, p: Packet, n: Node, reply: Option<Message>)
    requires Inv(k, l) && p in l.flight && TimerOk(n, l.now) && n.st.host == Host(l, p.dst) &&
      SameRules(k, n.st, Get(l, p.dst).st)
    requires !k.clashes(Get(l, p.dst).st, p.message) && Symmetric(k)
    requires RivalProbe(k, l, p) && !Host(l, p.dst).announced ==> !k.loses(Get(l, p.dst).st, Get(l, !p.dst).st)
    requires RivalProbe(k, l, p) && Host(l, p.dst).announced ==> (reply.Some? && k.clashes(Get(l, !p.dst).st, reply.value))
    ensures Inv(k, Replied(Set(l.(flight := l.flight - multiset{p}), p.dst, n), !p.dst, reply))
  {
    var l' := Set(l.(flight := l.flight - multiset{p}), p.dst, n);
    HearQuietly(k, l, p, n);
    if reply.Some? { SendKeepsAllBut(k, l', p.dst, !p.dst, reply.value); }
    HeardDefends(k, l, p, n, reply);
    WholeInvariant(k, Replied(l', !p.dst, reply), p.dst);
  }

  /** `after` is `l` with `p` taken off the link and nothing else lost. */
  ghost predicate Taken(k: Rules, l: Link, p: Packet, after: Link) {
    Host(after, p.dst) == Host(l, p.dst) && Get(after, !p.dst) == Get(l, !p.dst) && Same(k, after, p.dst) == Same(k, l, p.dst) &&
    forall q :: q in l.flight && q != p ==> q in after.flight
  }

  lemma {:induction false} ConflictSurvives(k: Rules, l: Link, p: Packet, after: Link)
    requires Taken(k, l, p, after) && !k.clashes(Get(l, p.dst).st, p.message) && ConflictInFlight(k, l, !p.dst)
    ensures ConflictInFlight(k, after, !p.dst)
  {
    var c :| c in l.flight && Kills(k, l, !p.dst, c);
    assert c in after.flight && Kills(k, after, !p.dst, c);
  }

  /** The reply to the rival's last probe is a conflict that arrives in time. */
  lemma {:induction false} ReplyDefends(k: Rules, l: Link, p: Packet, m: Message, after: Link)
    requires FlightOk(l) && p in l.flight && Taken(k, l, p, after) && Packet(!p.dst, m, l.now) in after.flight
    requires k.clashes(Get(l, !p.dst).st, m) && p.sentAt == Host(l, !p.dst).nextProbeAt - PROBE_INTERVAL
    ensures ConflictInFlight(k, after, !p.dst)
  {
    assert Kills(k, after, !p.dst, Packet(!p.dst, m, l.now));
  }

  lemma {:induction false} DefendedAfter(k: Rules, l: Link, p: Packet, reply: Option<Message>, after: Link)
    requires Inv(k, l) && p in l.flight && Taken(k, l, p, after) && !k.clashes(Get(l, p.dst).st, p.message) && Symmetric(k)
    requires RivalProbe(k, l, p) && Host(l, p.dst).announced ==> (reply.Some? && k.clashes(Get(l, !p.dst).st, reply.value))
    requires reply.Some? ==> Packet(!p.dst, reply.value, l.now) in after.flight
    ensures OwnerDefends(k, after, p.dst)
  {
    var who := p.dst;
    assert OwnerDefends(k, l, who) && Same(k, l, who) == Same(k, l, !who);
    if Host(l, who).announced && !Host(l, !who).announced && Same(k, l, who) && Host(l, !who).probesSent == PROBE_COUNT {
      var last := Packet(who, k.probe(Get(l, !who).st), Host(l, !who).nextProbeAt - PROBE_INTERVAL);
      if ConflictInFlight(k, l, !who) {
        ConflictSurvives(k, l, p, after);
      } else if p == last {
        ReplyDefends(k, l, p, reply.value, after);
      } else {
        assert last in after.flight;
      }
    }
  }

  lemma {:induction false} HeardDefends(k: Rules, l: Link, p: Packet, n: Node, reply: Option<Message>)
    requires Inv(k, l) && p in l.flight && n.st.host == Host(l, p.dst) && SameRules(k, n.st, Get(l, p.dst).st) && Symmetric(k)
    requires !k.clashes(Get(l, p.dst).st, p.message)
    requires RivalProbe(k, l, p) && Host(l, p.dst).announced ==> (reply.Some? && k.clashes(Get(l, !p.dst).st, reply.value))
    ensures OwnerDefends(k, Replied(Set(l.(flight := l.flight - multiset{p}), p.dst, n), !p.dst, reply), p.dst)
  {
    var after := Replied(Set(l.(flight := l.flight - multiset{p}), p.dst, n), !p.dst, reply);
    assert Same(k, l, p.dst) == Same(k, l, !p.dst) == Same(k, after, p.dst);
    assert forall q :: q in l.flight && q != p ==> q in l.flight - multiset{p};
    DefendedAfter(k, l, p, reply, after);
  }

  // ---- The real handlers obey the rules --------------------------------------------------------

  lemma {:induction false} HostRulesSymmetric()
    ensures Symmetric(HostRules())
  {
  }

  lemma {:induction false} SameHostSameRules(a: Responder, b: Responder)
    requires a.hostLabel == b.hostLabel && a.hostSuffix == b.hostSuffix && a.ifaces == b.ifaces
    ensures SameRules(HostRules(), a, b)
  {
    assert HostProbeRecords(a, IFACE) == HostProbeRecords(b, IFACE);
    assert forall m :: HostClashes(a, m) == HostClashes(b, m) by {
      assert forall r :: HostClash(a, r) == HostClash(b, r);
    }
  }

  /** The message makes the host start over. */
  predicate Shakes(st: Responder, m: Message) {
    if IsResponse(m) then HostClashes(st, m) else m.authorities != [] && HostTie(st, m, IFACE)
  }

  predicate Steady(a: Responder, b: Responder) {
    a.host == b.host && a.hostLabel == b.hostLabel && a.hostSuffix == b.hostSuffix && a.ifaces == b.ifaces &&
    (a.timerActive ==> b.timerActive)
  }

  lemma {:induction false} ReceiveEffect(st: Responder, m: Message, now: int)
    ensures var st' := Receive(st, m, now);
      st'.ifaces == st.ifaces && (if Shakes(st, m) then Restarted(st', now) else Steady(st, st'))
  {
  }

  lemma {:induction false} ReceiveConfigured(n: Node, m: Message, now: int, due: int)
    requires Configured(n)
    ensures Configured(Node(Receive(n.st, m, now), due))
  {
    ServicesKeepTypes(n.st, n.st.services, m, now);
  }

  /** Moving to a restarted or steady state keeps the timer discipline. */
  lemma {:induction false} MovedTimer(n: Node, st: Responder, now: int)
    requires TimerOk(n, now) && (Restarted(st, now) || Steady(n.st, st))
    ensures TimerOk(Moved(n, st, now), now)
  {
  }

  /** A probe for our name that beats us shakes us. */
  lemma {:induction false} WinningProbeShakes(x: Node, y: Node)
    requires Configured(y) && !x.st.host.announced && SameHostName(y, x) && LosesTo(x, y)
    ensures Shakes(x.st, ProbeOf(y.st))
  {
    var rs := HostProbeRecords(y.st, IFACE);
    ProbeRecordsFacts(y);
    forall r | r in rs ensures SameName(r.name, HostFqdn(x.st)) { assert IsProbeA(r, HostFqdn(y.st), y.st.ifaces[0]); }
    NamedAll(rs, HostFqdn(x.st));
  }

  ghost predicate LinkOk(l: Link) {
    Inv(HostRules(), l) && Configured(l.left) && Configured(l.right) && DisjointAddresses(l.left, l.right)
  }

  lemma {:induction false} OwnerReplies(x: Node, y: Node)
    requires Configured(x) && Configured(y) && DisjointAddresses(x, y) && x.st.host.announced && SameHostName(x, y)
    ensures var reply := ReplyAtOnce(x.st, ProbeOf(y.st)); reply.Some? && HostRules().clashes(y.st, reply.value)
  {
    ProbeIsAnswered(x, y);
  }

  lemma {:induction false} HeardProbe(l: Link, p: Packet, n: Node)
    requires LinkOk(l) && !Shakes(Get(l, p.dst).st, p.message) && Steady(Get(l, p.dst).st, n.st) && Configured(n)
    requires RivalProbe(HostRules(), l, p)
    ensures if Host(l, p.dst).announced
            then var reply := ReplyAtOnce(n.st, p.message); reply.Some? && HostRules().clashes(Get(l, !p.dst).st, reply.value)
            else !HostRules().loses(Get(l, p.dst).st, Get(l, !p.dst).st)
  {
    var x, y := Get(l, p.dst), Get(l, !p.dst);
    if x.st.host.announced {
      OwnerReplies(n, y);
    } else if LosesTo(x, y) {
      WinningProbeShakes(x, y);
    }
  }

  lemma {:induction false} ShakenKeeps(l: Link, p: Packet)
    requires LinkOk(l) && p in l.flight && Shakes(Get(l, p.dst).st, p.message)
    ensures var n := Get(l, p.dst);
      var st := Receive(n.st, p.message, l.now);
      Inv(HostRules(), Replied(Set(l.(flight := l.flight - multiset{p}), p.dst, Moved(n, st, l.now)), !p.dst, ReplyAtOnce(st, p.message)))
  {
    var k, n := HostRules(), Get(l, p.dst);
    var st := Receive(n.st, p.message, l.now);
    ReceiveEffect(n.st, p.message, l.now);
    MovedTimer(n, st, l.now);
    RestartKeeps(k, l, p.dst, Moved(n, st, l.now), l.flight - multiset{p});
    var reply := ReplyAtOnce(st, p.message);
    if reply.Some? {
      SendKeeps(k, Set(l.(flight := l.flight - multiset{p}), p.dst, Moved(n, st, l.now)), !p.dst, reply.value);
    }
  }

  lemma {:induction false} HeardKeeps(l: Link, p: Packet)
    requires LinkOk(l) && p in l.flight && !Shakes(Get(l, p.dst).st, p.message)
    ensures var n := Get(l, p.dst);
      var st := Receive(n.st, p.message, l.now);
      Inv(HostRules(), Replied(Set(l.(flight := l.flight - multiset{p}), p.dst, Moved(n, st, l.now)), !p.dst, ReplyAtOnce(st, p.message)))
  {
    var k, n := HostRules(), Get(l, p.dst);
    var st := Receive(n.st, p.message, l.now);
    var n' := Moved(n, st, l.now);
    ReceiveEffect(n.st, p.message, l.now);
    ReceiveConfigured(n, p.message, l.now, n'.tickDue);
    MovedTimer(n, st, l.now);
    SameHostSameRules(st, n.st);
    HostRulesSymmetric();
    if RivalProbe(k, l, p) { HeardProbe(l, p, n'); }
    HearKeeps(k, l, p, n', ReplyAtOnce(st, p.message));
  }

  lemma {:induction false} DeliverKeeps(l: Link, p: Packet)
    requires LinkOk(l) && p in l.flight
    ensures LinkOk(Apply(l, Deliver(p)))
  {
    var n := Get(l, p.dst);
    if Shakes(n.st, p.message) { ShakenKeeps(l, p); } else { HeardKeeps(l, p); }
    ReceiveEffect(n.st, p.message, l.now);
    ReceiveConfigured(n, p.message, l.now, Moved(n, Receive(n.st, p.message, l.now), l.now).tickDue);
  }

  lemma {:induction false} TickTimer(n: Node, now: int, due: int)
    requires TimerOk(n, now) && n.st.timerActive && n.tickDue <= now < due <= now + TICK
    ensures TimerOk(Node(Tick(n.st, now), due), now)
  {
  }

  lemma {:induction false} TickConfigured(n: Node, now: int, due: int)
    requires Configured(n)
    ensures Configured(Node(Tick(n.st, now), due))
  {
    TickServicesIds(n.st.services, now, TickGroup(n.st.host, now, true).announced);
  }

  lemma {:induction false} TickKeepsInv(l: Link, who: bool, due: int)
    requires LinkOk(l) && CanStep(l, FireTimer(who, due))
    ensures Inv(HostRules(), Apply(l, FireTimer(who, due)))
  {
    var k, n := HostRules(), Get(l, who);
    var n' := Node(Tick(n.st, l.now), due);
    TickTimer(n, l.now, due);
    SameHostSameRules(n'.st, n.st);
    if SendsProbe(n.st.host, l.now) {
      ProbeKeeps(k, l, who, n');
    } else if GoesLive(n.st.host, l.now) {
      HostRulesSymmetric();
      NoTie(l.left, l.right);
      GoLiveKeeps(k, l, who, n');
    } else {
      IdleKeeps(k, l, who, n');
    }
  }

  lemma {:induction false} ActEffect(st: Responder, a: Action, now: int)
    requires Enabled(st, a) && !a.DoTick?
    ensures var st' := Act(Run(st, []), a, now).st; st'.ifaces == st.ifaces && (Restarted(st', now) || Steady(st, st'))
  {
  }

  lemma {:induction false} ActConfigured(n: Node, a: Action, now: int, due: int)
    requires Configured(n) && Enabled(n.st, a) && !a.DoTick? && Typed(a)
    ensures Configured(Node(Act(Run(n.st, []), a, now).st, due))
  {
  }

  lemma {:induction false} ApiKeepsInv(l: Link, who: bool, a: Action)
    requires LinkOk(l) && CanStep(l, Api(who, a))
    ensures Inv(HostRules(), Apply(l, Api(who, a)))
  {
    var k, n := HostRules(), Get(l, who);
    var st := Act(Run(n.st, []), a, l.now).st;
    ActEffect(n.st, a, l.now);
    MovedTimer(n, st, l.now);
    if Restarted(st, l.now) {
      assert l.(flight := l.flight) == l;
      RestartKeeps(k, l, who, Moved(n, st, l.now), l.flight);
    } else {
      SameHostSameRules(st, n.st);
      IdleKeeps(k, l, who, Moved(n, st, l.now));
    }
  }

  lemma {:induction false} BootKeeps(l: Link, who: bool, base: Label, delay: nat)
    requires LinkOk(l)
    ensures LinkOk(Apply(l, Boot(who, base, delay)))
  {
    var n := Started(base, Get(l, who).st.ifaces, l.now, delay);
    assert l.(flight := l.flight) == l;
    RestartKeeps(HostRules(), l, who, n, l.flight);
  }

  lemma {:induction false} StepKeeps(l: Link, s: Step)
    requires LinkOk(l) && CanStep(l, s)
    ensures LinkOk(Apply(l, s))
  {
    match s
    case Advance(t) => AdvanceKeeps(HostRules(), l, t);
    case FireTimer(who, due) =>
      TickKeepsInv(l, who, due);
      TickConfigured(Get(l, who), l.now, due);
    case Deliver(p) => DeliverKeeps(l, p);
    case Inject(dst, m) => SendKeeps(HostRules(), l, dst, m);
    case Api(who, a) =>
      ApiKeepsInv(l, who, a);
      var n := Get(l, who);
      ActEffect(n.st, a, l.now);
      ActConfigured(n, a, l.now, Moved(n, Act(Run(n.st, []), a, l.now).st, l.now).tickDue);
    case Boot(who, base, delay) => BootKeeps(l, who, base, delay);
  }

  // ---- Runs ------------------------------------------------------------------------------------

  ghost predicate Allowed(l: Link, steps: seq<Step>)
    decreases |steps|
  {
    steps == [] || (CanStep(l, steps[0]) && Allowed(Apply(l, steps[0]), steps[1..]))
  }

  function After(l: Link, steps: seq<Step>): Link
    requires Allowed(l, steps)
    decreases |steps|
  {
    if steps == [] then l else After(Apply(l, steps[0]), steps[1..])
  }

  /** Two responders just started, each on one interface. */
  function StartLink(now: int, base1: Label, addrs1: seq<uint32>, delay1: nat, base2: Label, addrs2: seq<uint32>,
                     delay2: nat): Link {
    Link(now, Started(base1, [addrs1], now, delay1), Started(base2, [addrs2], now, delay2), multiset{})
  }

  lemma {:induction false} AfterKeeps(l: Link, steps: seq<Step>)
    requires LinkOk(l) && Allowed(l, steps)
    ensures LinkOk(After(l, steps))
    decreases |steps|
  {
    if steps != [] {
      StepKeeps(l, steps[0]);
      AfterKeeps(Apply(l, steps[0]), steps[1..]);
    }
  }

  /** Main result: in every run of the two responders, with any third-party traffic on the link, they
      are never both announced under one host name. */
  lemma {:induction false} NeverBothHoldOneName(now: int, base1: Label, addrs1: seq<uint32>, delay1: nat,
                                                base2: Label, addrs2: seq<uint32>, delay2: nat, steps: seq<Step>)
    requires addrs1 != [] && addrs2 != [] && forall x :: x in addrs1 ==> x !in addrs2
    requires Allowed(StartLink(now, base1, addrs1, delay1, base2, addrs2, delay2), steps)
    ensures var l := After(StartLink(now, base1, addrs1, delay1, base2, addrs2, delay2), steps);
      !(l.left.st.host.announced && l.right.st.host.announced && SameHostName(l.left, l.right))
  {
    var l := StartLink(now, base1, addrs1, delay1, base2, addrs2, delay2);
    StartOk(HostRules(), l);
    AfterKeeps(l, steps);
    assert Exclusive(HostRules(), After(l, steps));
  }

  lemma {:induction false} StartOk(k: Rules, l: Link)
    requires TimerOk(l.left, l.now) && TimerOk(l.right, l.now) && l.flight == multiset{}
    requires forall who :: !Host(l, who).announced && Host(l, who).probesSent == 0
    ensures Inv(k, l)
  {
  }
}
