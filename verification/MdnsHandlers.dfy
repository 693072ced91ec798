/** What a received packet does to the groups: lost tie-breaks and conflicts. */
module MdnsHandlers {
  import opened Bytes
  import opened DnsName
  import opened DnsMessage
  import opened MdnsRecords
  import opened MdnsProbe

  function DeferIfLost(st: Responder, s: Service, q: Message, now: int): Service {
    if ServiceTie(st, s, q) then s.(group := Defer(s.group, now)) else s
  }

  function DeferServices(st: Responder, ss: seq<Service>, q: Message, now: int): seq<Service> {
    MapServices(s => DeferIfLost(st, s, q, now), ss)
  }

  predicate AnyServiceTie(st: Responder, ss: seq<Service>, q: Message) {
    exists i :: 0 <= i < |ss| && ServiceTie(st, ss[i], q)
  }

  /** resolveSimultaneousProbe, for a query that carries authority records. */
  function AfterProbe(st: Responder, q: Message, iface: Option<nat>, now: int): Responder {
    st.(host := if HostTie(st, q, iface) then Defer(st.host, now) else st.host,
        services := DeferServices(st, st.services, q, now),
        timerActive := st.timerActive || HostTie(st, q, iface) || AnyServiceTie(st, st.services, q))
  }

  function AfterQuery(st: Responder, q: Message, iface: Option<nat>, now: int): Responder {
    if q.authorities == [] then st else AfterProbe(st, q, iface, now)
  }

  /** Read as an IPv4 address, the record names one of ours. */
  predicate OwnARecord(st: Responder, r: Record) {
    |r.rdata| == 4 && Be32(r.rdata, 0) in AllAddresses(st.ifaces)
  }

  predicate HostClash(st: Responder, r: Record) {
    r.ttl != 0 && r.rtype == A && SameName(r.name, HostFqdn(st)) && !OwnARecord(st, r)
  }

  predicate ServiceClash(st: Responder, s: Service, r: Record) {
    r.ttl != 0 && SameName(r.name, InstanceName(s)) &&
    ((r.rtype == SRV && !SameAs(r, SrvOf(st, s))) || (r.rtype == TXT && !SameAs(r, TxtOf(s))))
  }

  predicate HostClashes(st: Responder, m: Message) { exists r :: r in m.answers + m.additionals && HostClash(st, r) }

  predicate ServiceClashes(st: Responder, s: Service, m: Message) {
    exists r :: r in m.answers + m.additionals && ServiceClash(st, s, r)
  }

  function ReactToClash(st: Responder, s: Service, m: Message, now: int): Service {
    if ServiceClashes(st, s, m) then ServiceConflict(s, now) else s
  }

  function ConflictServices(st: Responder, ss: seq<Service>, m: Message, now: int): seq<Service> {
    MapServices(s => ReactToClash(st, s, m, now), ss)
  }

  predicate AnyServiceClash(st: Responder, ss: seq<Service>, m: Message) {
    exists i :: 0 <= i < |ss| && ServiceClashes(st, ss[i], m)
  }

  /** handleResponse: every clash is found before any name changes, and each name reacts once. */
  function AfterResponse(st: Responder, m: Message, now: int): Responder {
    var st1 := if HostClashes(st, m) then HostConflict(st, now) else st;
    st1.(services := ConflictServices(st, st.services, m, now),
         timerActive := st1.timerActive || AnyServiceClash(st, st.services, m))
  }

  // ---- What the log says about it --------------------------------------------------------------

  function Restart(id: GroupId, now: int): seq<Entry> { [Disturbed(id, now), Began(id, now)] }

  function HostDeferLog(st: Responder, q: Message, iface: Option<nat>, now: int): seq<Entry> {
    if HostTie(st, q, iface) then Restart(HostGroup, now) else []
  }

  function DeferEntries(st: Responder, q: Message, now: int): Service -> seq<Entry> {
    s => if ServiceTie(st, s, q) then Restart(ServiceGroup(s.id), now) else []
  }

  function DeferLog(st: Responder, q: Message, iface: Option<nat>, now: int): seq<Entry> {
    HostDeferLog(st, q, iface, now) + Flat(DeferEntries(st, q, now), st.services)
  }

  function QueryLog(st: Responder, q: Message, iface: Option<nat>, now: int): seq<Entry> {
    if q.authorities == [] then [] else DeferLog(st, q, iface, now)
  }

  function HostConflictLog(st: Responder, m: Message, now: int): seq<Entry> {
    if HostClashes(st, m) then Restart(HostGroup, now) else []
  }

  function ConflictEntries(st: Responder, m: Message, now: int): Service -> seq<Entry> {
    s => if ServiceClashes(st, s, m) then Restart(ServiceGroup(s.id), now) else []
  }

  function ResponseLog(st: Responder, m: Message, now: int): seq<Entry> {
    HostConflictLog(st, m, now) + Flat(ConflictEntries(st, m, now), st.services)
  }

  // ---- API calls on all services ---------------------------------------------------------------

  function SetTxt(txt: seq<TxtEntry>, key: seq<byte>, value: seq<byte>): seq<TxtEntry> {
    if txt == [] then [TxtEntry(key, value)]
    else if txt[0].key == key then [TxtEntry(key, value)] + txt[1..]
    else [txt[0]] + SetTxt(txt[1..], key, value)
  }

  function WithTxt(s: Service, stype: Name, key: seq<byte>, value: seq<byte>): Service {
    if s.stype == stype then s.(txt := SetTxt(s.txt, key, value), group := Bump(s.group)) else s
  }

  /** What a reader finds under the key: the first entry for it. */
  function Value(txt: seq<TxtEntry>, key: seq<byte>): Option<seq<byte>> {
    if txt == [] then None else if txt[0].key == key then Some(txt[0].value) else Value(txt[1..], key)
  }

  predicate HasKey(txt: seq<TxtEntry>, key: seq<byte>) { exists i :: 0 <= i < |txt| && txt[i].key == key }

  /** `after` is `before` with one value changed in its place, or with the entry added at the end. */
  predicate OneEntrySet(before: seq<TxtEntry>, after: seq<TxtEntry>, key: seq<byte>, value: seq<byte>) {
    if HasKey(before, key) then
      exists i :: 0 <= i < |before| && before[i].key == key && after == before[i := TxtEntry(key, value)]
    else after == before + [TxtEntry(key, value)]
  }

  lemma {:induction false} SetTxtSets(txt: seq<TxtEntry>, key: seq<byte>, value: seq<byte>)
    ensures OneEntrySet(txt, SetTxt(txt, key, value), key, value)
    ensures forall k :: Value(SetTxt(txt, key, value), k) == if k == key then Some(value) else Value(txt, k)
  {
    if txt == [] {
      assert [TxtEntry(key, value)][1..] == [];
    } else if txt[0].key == key {
      assert SetTxt(txt, key, value) == txt[0 := TxtEntry(key, value)];
    } else {
      SetTxtSets(txt[1..], key, value);
      var rest := SetTxt(txt[1..], key, value);
      if HasKey(txt[1..], key) {
        var i :| 0 <= i < |txt[1..]| && txt[1..][i].key == key && rest == txt[1..][i := TxtEntry(key, value)];
        assert [txt[0]] + rest == txt[i + 1 := TxtEntry(key, value)] && txt[i + 1].key == key;
      } else {
        assert !HasKey(txt, key) by {
          if i :| 0 <= i < |txt| && txt[i].key == key { assert txt[1..][i - 1].key == key; }
        }
        assert [txt[0]] + (txt[1..] + [TxtEntry(key, value)]) == txt + [TxtEntry(key, value)];
      }
    }
  }

  /** Setting one key: afterwards services of the type have the value under it and every other entry as it
      was, in its place; an announced one enters a new generation; other services are not touched. */
  lemma {:induction false} UpdateTxtExact(ss: seq<Service>, stype: Name, key: seq<byte>, value: seq<byte>, i: nat)
    requires i < |ss|
    ensures var ts := MapServices(s => WithTxt(s, stype, key, value), ss);
      |ts| == |ss| &&
      if ss[i].stype == stype then
        ts[i] == ss[i].(txt := ts[i].txt, group := ts[i].group) && OneEntrySet(ss[i].txt, ts[i].txt, key, value) &&
        (forall k :: Value(ts[i].txt, k) == if k == key then Some(value) else Value(ss[i].txt, k)) &&
        ts[i].group == ss[i].group.(generation := ss[i].group.generation + if ss[i].group.announced then 1 else 0)
      else ts[i] == ss[i]
  {
    MapServicesAt(s => WithTxt(s, stype, key, value), ss);
    SetTxtSets(ss[i].txt, key, value);
  }

  function Renamed(ss: seq<Service>, name: seq<byte>, now: int, delays: seq<nat>): seq<Service>
    requires |ss| == |delays|
  {
    if ss == [] then [] else [Rename(ss[0], name, now, delays[0])] + Renamed(ss[1..], name, now, delays[1..])
  }

  lemma {:induction false} RenamedAt(ss: seq<Service>, name: seq<byte>, now: int, delays: seq<nat>)
    requires |ss| == |delays|
    ensures |Renamed(ss, name, now, delays)| == |ss|
    ensures forall i :: 0 <= i < |ss| ==> Renamed(ss, name, now, delays)[i] == Rename(ss[i], name, now, delays[i])
  {
    if ss != [] { RenamedAt(ss[1..], name, now, delays[1..]); }
  }

  function RenameLog(ss: seq<Service>, now: int): seq<Entry> { Flat((s: Service) => [Began(ServiceGroup(s.id), now)], ss) }

  // ---- Effects on the host group ---------------------------------------------------------------

  /** The host group began probing again. */
  predicate Restarted(st: Responder, now: int) {
    !st.host.announced && st.host.probesSent == 0 && st.host.nextProbeAt >= now && st.timerActive
  }

  lemma {:induction false} ServicesKeepTypes(st: Responder, ss: seq<Service>, m: Message, now: int)
    ensures var a, b := DeferServices(st, ss, m, now), ConflictServices(st, ss, m, now);
      |a| == |ss| == |b| && forall i :: 0 <= i < |ss| ==> a[i].stype == ss[i].stype == b[i].stype
  {
    MapServicesAt(s => DeferIfLost(st, s, m, now), ss);
    MapServicesAt(s => ReactToClash(st, s, m, now), ss);
  }
}
