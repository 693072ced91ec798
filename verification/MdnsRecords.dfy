/** The responder's state and the records it would answer with. */
module MdnsRecords {
  import opened Bytes
  import opened DnsName
  import opened DnsMessage
  import opened TieBreak

  const HOST_TTL: uint32 := 120
  const OTHER_TTL: uint32 := 4500
  const LOCAL: Label := [108, 111, 99, 97, 108]
  const AIRSHOW: Label := [65, 105, 114, 83, 104, 111, 119]
  /** _services._dns-sd._udp.local */
  const SERVICES_NAME: Name := [[95, 115, 101, 114, 118, 105, 99, 101, 115], [95, 100, 110, 115, 45, 115, 100],
                                [95, 117, 100, 112], [108, 111, 99, 97, 108]]

  /** How far the claim to one name has got: probes sent, whether it is announced, when its next probe is due,
      and which round of claiming this is. */
  datatype Group = Group(probesSent: nat, announced: bool, nextProbeAt: int, generation: nat)

  datatype TxtEntry = TxtEntry(key: seq<byte>, value: seq<byte>)

  datatype Service = Service(id: nat, stype: Name, baseName: seq<byte>, suffix: nat, port: uint16, txt: seq<TxtEntry>,
                             group: Group)

  datatype Responder = Responder(hostLabel: Label, hostSuffix: nat, host: Group, services: seq<Service>, nextId: nat,
                                 ifaces: seq<seq<uint32>>, timerActive: bool)

  // ---- Names -----------------------------------------------------------------------------------

  function Decimal(n: nat): seq<byte> {
    if n < 10 then [48 + n] else Decimal(n / 10) + [48 + n % 10]
  }

  function HostName(base: Label, suffix: nat): Name {
    [if suffix == 1 then base else base + [45] + Decimal(suffix), LOCAL]
  }

  function HostFqdn(st: Responder): Name { HostName(st.hostLabel, st.hostSuffix) }

  function TypeName(s: Service): Name { s.stype + [LOCAL] }

  /** " (2)" and so on. */
  function SuffixText(suffix: nat): seq<byte> {
    if suffix == 1 then [] else [32, 40] + Decimal(suffix) + [41]
  }

  /** The longest cut of at most `n` bytes that does not split a UTF-8 character. */
  function CharBoundary(s: seq<byte>, n: nat): (k: nat)
    requires n < |s|
    ensures k <= n
  {
    if n > 0 && 0x80 <= s[n] < 0xC0 then CharBoundary(s, n - 1) else n
  }

  function FitUtf8(s: seq<byte>, maxBytes: nat): seq<byte> {
    if |s| <= maxBytes then s else s[..CharBoundary(s, maxBytes)]
  }

  function InstanceLabel(s: Service): Label {
    var suffix := SuffixText(s.suffix);
    FitUtf8(if s.baseName == [] then AIRSHOW else s.baseName, if |suffix| <= MAX_LABEL then MAX_LABEL - |suffix| else 0) + suffix
  }

  function InstanceName(s: Service): Name { [InstanceLabel(s)] + TypeName(s) }

  // ---- Records ---------------------------------------------------------------------------------

  function MakePtr(name: Name, target: Name, ttl: uint32): Record {
    Record(name, PTR, CLASS_IN, false, ttl, target, 0, 0, 0, [])
  }

  function EnumPtr(s: Service): Record { MakePtr(SERVICES_NAME, TypeName(s), OTHER_TTL) }

  function InstancePtr(s: Service): Record { MakePtr(TypeName(s), InstanceName(s), OTHER_TTL) }

  function SrvOf(st: Responder, s: Service): Record {
    Record(InstanceName(s), SRV, CLASS_IN, true, HOST_TTL, HostFqdn(st), 0, 0, s.port, [])
  }

  /** One length-prefixed "key=value" string per entry; over-long ones are dropped. */
  function TxtData(txt: seq<TxtEntry>): seq<byte> {
    if txt == [] then []
    else
      var e := txt[0].key + [61] + txt[0].value;
      (if |e| > 255 then [] else [|e|] + e) + TxtData(txt[1..])
  }

  function TxtOf(s: Service): Record {
    var data := TxtData(s.txt);
    Record(InstanceName(s), TXT, CLASS_IN, true, OTHER_TTL, [], 0, 0, 0, if data == [] then [0] else data)
  }

  function ARecord(host: Name, addr: uint32): Record {
    Record(host, A, CLASS_IN, true, HOST_TTL, [], 0, 0, 0, Put32(addr))
  }

  /** "A is the only type this name has": window 0, one octet, the bit of type 1. */
  function NsecRecord(host: Name): Record {
    Record(host, NSEC, CLASS_IN, true, HOST_TTL, [], 0, 0, 0, PlainName(host, false) + [0, 1, 0x40])
  }

  // ---- Identity --------------------------------------------------------------------------------

  datatype Identity = Identity(name: Name, rtype: uint16, rrclass: uint16, rdata: seq<byte>)

  /** What makes a record the record it is: not its lifetime, its flush bit or the letter case of its names. */
  function IdentityOf(r: Record): Identity { Identity(FoldName(r.name), r.rtype, r.rrclass, CanonicalRdata(r)) }

  predicate SameAs(a: Record, b: Record) { IdentityOf(a) == IdentityOf(b) }

  predicate Contains(rs: seq<Record>, r: Record) { exists i :: 0 <= i < |rs| && SameAs(rs[i], r) }

  predicate Distinct(rs: seq<Record>) { forall i, j :: 0 <= i < j < |rs| ==> !SameAs(rs[i], rs[j]) }

  // ---- Collecting ------------------------------------------------------------------------------

  /** Appends to `acc` every record of `rs` that `pick` wants and `acc` does not hold yet. */
  function Collect(pick: Record -> bool, rs: seq<Record>, acc: seq<Record>): seq<Record>
    decreases |rs|
  {
    if rs == [] then acc
    else Collect(pick, rs[1..], if pick(rs[0]) && !Contains(acc, rs[0]) then acc + [rs[0]] else acc)
  }

  /** `out` is `acc` plus exactly the picked records of `rs`, each identity once. */
  ghost predicate Collected(pick: Record -> bool, rs: seq<Record>, acc: seq<Record>, out: seq<Record>) {
    acc <= out &&
    (forall x :: x in out ==> x in acc || (x in rs && pick(x))) &&
    (forall x :: x in rs && pick(x) ==> Contains(out, x)) &&
    (Distinct(acc) ==> Distinct(out))
  }

  lemma {:induction false} ContainsGrows(a: seq<Record>, b: seq<Record>, x: Record)
    requires a <= b && Contains(a, x)
    ensures Contains(b, x)
  {
    var i :| 0 <= i < |a| && SameAs(a[i], x);
    assert b[i] == a[i];
  }

  lemma {:induction false} CollectSpec(pick: Record -> bool, rs: seq<Record>, acc: seq<Record>)
    ensures Collected(pick, rs, acc, Collect(pick, rs, acc))
    decreases |rs|
  {
    if rs != [] {
      var acc' := if pick(rs[0]) && !Contains(acc, rs[0]) then acc + [rs[0]] else acc;
      CollectSpec(pick, rs[1..], acc');
      var out := Collect(pick, rs, acc);
      if pick(rs[0]) {
        if acc' != acc { assert SameAs(acc'[|acc|], rs[0]); }
        ContainsGrows(acc', out, rs[0]);
      }
      forall x | x in rs && pick(x) ensures Contains(out, x) {
        if x != rs[0] { assert x in rs[1..]; }
      }
    }
  }

  // ---- What we answer for ----------------------------------------------------------------------

  function HostARecords(host: Name, addrs: seq<uint32>): seq<Record> {
    if addrs == [] then [] else [ARecord(host, addrs[0])] + HostARecords(host, addrs[1..])
  }

  function AllAddresses(ifaces: seq<seq<uint32>>): seq<uint32> {
    if ifaces == [] then [] else ifaces[0] + AllAddresses(ifaces[1..])
  }

  /** The addresses to name on one interface, or on all of them if it is not known. */
  function AddressesFor(st: Responder, iface: Option<nat>): seq<uint32> {
    if iface.Some? && iface.value < |st.ifaces| then st.ifaces[iface.value] else AllAddresses(st.ifaces)
  }

  function HostRecordsFor(name: Name, addrs: seq<uint32>): seq<Record> {
    Collect(r => true, HostARecords(name, addrs), []) + [NsecRecord(name)]
  }

  function HostRecords(st: Responder, iface: Option<nat>): seq<Record> { HostRecordsFor(HostFqdn(st), AddressesFor(st, iface)) }

  /** One announced service's four records; the type enumeration pointer is shared by all services
      of a type. */
  function Publish(st: Responder, s: Service, acc: seq<Record>): seq<Record> {
    if !s.group.announced then acc
    else (if Contains(acc, EnumPtr(s)) then acc else acc + [EnumPtr(s)]) + [InstancePtr(s), SrvOf(st, s), TxtOf(s)]
  }

  function ServiceRecords(st: Responder, services: seq<Service>, acc: seq<Record>): seq<Record>
    decreases |services|
  {
    if services == [] then acc else ServiceRecords(st, services[1..], Publish(st, services[0], acc))
  }

  function CurrentRecords(st: Responder, iface: Option<nat>): seq<Record> {
    ServiceRecords(st, st.services, if st.host.announced then HostRecords(st, iface) else [])
  }

  /** A records only, as carried in a probe's authority section. */
  function HostProbeRecords(st: Responder, iface: Option<nat>): seq<Record> { OnlyA(HostRecords(st, iface)) }

  function OnlyA(rs: seq<Record>): seq<Record> {
    if rs == [] then []
    else (if rs[0].rtype == A then [rs[0].(cacheFlush := false)] else []) + OnlyA(rs[1..])
  }

  function ServiceProbeRecords(st: Responder, s: Service): seq<Record> {
    [SrvOf(st, s).(cacheFlush := false), TxtOf(s).(cacheFlush := false)]
  }

  predicate BelongsTo(st: Responder, s: Service, r: Record) {
    s.group.announced && (r == EnumPtr(s) || r == InstancePtr(s) || r == SrvOf(st, s) || r == TxtOf(s))
  }

  ghost predicate Published(st: Responder, s: Service, out: seq<Record>) {
    s.group.announced ==> Contains(out, EnumPtr(s)) && InstancePtr(s) in out && SrvOf(st, s) in out && TxtOf(s) in out
  }

  lemma {:induction false} PublishSound(st: Responder, s: Service, acc: seq<Record>, r: Record)
    requires r in Publish(st, s, acc)
    ensures r in acc || BelongsTo(st, s, r)
  {
  }

  lemma {:induction false} AppendedThree(acc: seq<Record>, a: Record, b: Record, c: Record)
    ensures var out := acc + [a, b, c]; acc <= out && a in out && b in out && c in out
  {
    var out := acc + [a, b, c];
    assert out[|acc|] == a && out[|acc| + 1] == b && out[|acc| + 2] == c;
  }

  lemma {:induction false} AppendedOne(acc: seq<Record>, a: Record)
    ensures Contains(acc + [a], a)
  {
    assert SameAs((acc + [a])[|acc|], a);
  }

  lemma {:induction false} PublishFacts(st: Responder, s: Service, acc: seq<Record>)
    ensures acc <= Publish(st, s, acc) && Published(st, s, Publish(st, s, acc))
  {
    var acc1 := if Contains(acc, EnumPtr(s)) then acc else acc + [EnumPtr(s)];
    AppendedOne(acc, EnumPtr(s));
    AppendedThree(acc1, InstancePtr(s), SrvOf(st, s), TxtOf(s));
    ContainsGrows(acc1, acc1 + [InstancePtr(s), SrvOf(st, s), TxtOf(s)], EnumPtr(s));
  }

  lemma {:induction false} PublishedGrows(st: Responder, s: Service, a: seq<Record>, b: seq<Record>)
    requires a <= b && Published(st, s, a)
    ensures Published(st, s, b)
  {
    if s.group.announced { ContainsGrows(a, b, EnumPtr(s)); }
    assert forall r :: r in a ==> r in b;
  }

  lemma {:induction false} ServiceRecordsGrow(st: Responder, services: seq<Service>, acc: seq<Record>)
    ensures acc <= ServiceRecords(st, services, acc)
    decreases |services|
  {
    if services != [] {
      PublishFacts(st, services[0], acc);
      ServiceRecordsGrow(st, services[1..], Publish(st, services[0], acc));
    }
  }

  lemma {:induction false} ServiceRecordsSound(st: Responder, services: seq<Service>, acc: seq<Record>, r: Record)
    requires r in ServiceRecords(st, services, acc)
    ensures r in acc || exists s :: s in services && BelongsTo(st, s, r)
    decreases |services|
  {
    if services != [] {
      ServiceRecordsSound(st, services[1..], Publish(st, services[0], acc), r);
      if r !in acc && r in Publish(st, services[0], acc) { PublishSound(st, services[0], acc, r); }
    }
  }

  lemma {:induction false} ServiceRecordsComplete(st: Responder, services: seq<Service>, acc: seq<Record>, s: Service)
    requires s in services
    ensures Published(st, s, ServiceRecords(st, services, acc))
    decreases |services|
  {
    var acc' := Publish(st, services[0], acc);
    if s == services[0] {
      PublishFacts(st, s, acc);
      ServiceRecordsGrow(st, services[1..], acc');
      PublishedGrows(st, s, acc', ServiceRecords(st, services[1..], acc'));
    } else {
      ServiceRecordsComplete(st, services[1..], acc', s);
    }
  }

  ghost predicate OwnedByService(st: Responder, r: Record) { exists s :: s in st.services && BelongsTo(st, s, r) }

  lemma {:induction false} CurrentRecordOrigin(st: Responder, iface: Option<nat>, r: Record)
    requires r in CurrentRecords(st, iface)
    ensures (st.host.announced && r in HostRecords(st, iface)) || OwnedByService(st, r)
  {
    ServiceRecordsSound(st, st.services, if st.host.announced then HostRecords(st, iface) else [], r);
  }

  /** What is current is exactly what the announced groups own: no record of a group that is still
      probing, and every record of one that is not. */
  lemma {:induction false} CurrentRecordsExact(st: Responder, iface: Option<nat>)
    ensures var out := CurrentRecords(st, iface);
      (forall r :: r in out ==> (st.host.announced && r in HostRecords(st, iface)) || OwnedByService(st, r)) &&
      (st.host.announced ==> forall r :: r in HostRecords(st, iface) ==> r in out) &&
      (forall s :: s in st.services ==> Published(st, s, out))
  {
    var acc := if st.host.announced then HostRecords(st, iface) else [];
    var out := CurrentRecords(st, iface);
    ServiceRecordsGrow(st, st.services, acc);
    forall r | r in out
      ensures (st.host.announced && r in HostRecords(st, iface)) || OwnedByService(st, r)
    {
      CurrentRecordOrigin(st, iface, r);
    }
    forall s | s in st.services ensures Published(st, s, out) { ServiceRecordsComplete(st, st.services, acc, s); }
  }
}
