/** Who gives way when two devices probe for one name: section 8.2 of RFC 6762 stated on the records
    themselves, and what the responder does about it. */
module MdnsDuel {
  import opened Bytes
  import opened DnsName
  import opened DnsMessage
  import opened TieBreak
  import opened MdnsRecords
  import opened MdnsProbe
  import opened MdnsHandlers

  // ---- The order of records --------------------------------------------------------------------

  /** `a` and `b` agree before octet `i`, and there `a` ends or has the smaller octet. */
  predicate OctetsBeforeAt(a: seq<int>, b: seq<int>, i: nat) {
    i <= |a| && i < |b| && a[..i] == b[..i] && (i == |a| || a[i] < b[i])
  }

  ghost predicate OctetsBefore(a: seq<int>, b: seq<int>) { exists i: nat :: OctetsBeforeAt(a, b, i) }

  /** By class, then type, then rdata. */
  ghost predicate RecordBefore(a: Record, b: Record) {
    a.rrclass < b.rrclass ||
    (a.rrclass == b.rrclass && (a.rtype < b.rtype ||
                                (a.rtype == b.rtype && OctetsBefore(CanonicalRdata(a), CanonicalRdata(b)))))
  }

  predicate Alike(a: Record, b: Record) {
    a.rrclass == b.rrclass && a.rtype == b.rtype && CanonicalRdata(a) == CanonicalRdata(b)
  }

  ghost predicate InOrder(rs: seq<Record>) { forall i, j :: 0 <= i < j < |rs| ==> !RecordBefore(rs[j], rs[i]) }

  /** The first pair that differs is the `i`-th, and ours is the earlier of the two or missing. */
  ghost predicate EarlierAt(ours: seq<Record>, theirs: seq<Record>, i: nat) {
    i <= |ours| && i < |theirs| && (forall j :: 0 <= j < i ==> Alike(ours[j], theirs[j])) &&
    (i == |ours| || RecordBefore(ours[i], theirs[i]))
  }

  ghost predicate Earlier(ours: seq<Record>, theirs: seq<Record>) { exists i: nat :: EarlierAt(ours, theirs, i) }

  /** The rdata that is compared, octet by octet: SRV numbers first, names as lower-case labels ended by 0. */
  lemma {:induction false} CanonicalOctets(r: Record)
    ensures var d := CanonicalRdata(r);
      if r.rtype == 12 then d == Key(r.target) + [0]
      else if r.rtype == 33 then
        |d| >= 7 && d[0] as int * 256 + d[1] == r.priority && d[2] as int * 256 + d[3] == r.weight &&
        d[4] as int * 256 + d[5] == r.port && d[6..] == Key(r.target) + [0]
      else d == r.rdata
  {
    PlainIsKey(r.target);
    if r.rtype == SRV {
      assert CanonicalRdata(r)[6..] == PlainName(r.target, true);
    }
  }

  lemma {:induction false} PlainIsKey(n: Name)
    ensures PlainName(n, true) == Key(n) + [0]
  {
    if n != [] {
      PlainIsKey(n[1..]);
      if n[0] != [] {
        var l := Cut(n[0]);
        assert Literal(Fold(l)) + (Key(n[1..]) + [0]) == ([|l|] + Fold(l) + Key(n[1..])) + [0];
      }
    }
  }

  lemma {:induction false} SixThenKey(a: seq<byte>, b: seq<byte>, k: seq<byte>, l: seq<byte>)
    requires |a| == |b| >= 7 && a[6..] == k + [0] && b[6..] == l + [0]
    ensures a == b <==> a[..6] == b[..6] && k == l
  {
    assert a == a[..6] + a[6..] && b == b[..6] + b[6..];
    assert k == a[6..][..|k|] && l == b[6..][..|l|];
  }

  /** Two SRV records say the same if numbers and, as far as the wire can carry it, target agree. */
  lemma {:induction false} SameSrvRdata(a: Record, b: Record)
    requires a.rtype == SRV && b.rtype == SRV
    ensures CanonicalRdata(a) == CanonicalRdata(b) <==>
            a.priority == b.priority && a.weight == b.weight && a.port == b.port && SameName(Norm(a.target), Norm(b.target))
  {
    var d, e := CanonicalRdata(a), CanonicalRdata(b);
    CanonicalOctets(a);
    CanonicalOctets(b);
    KeyInjective(a.target, b.target);
    if |d| == |e| {
      SixThenKey(d, e, Key(a.target), Key(b.target));
    } else {
      assert |Key(a.target)| != |Key(b.target)|;
    }
  }

  lemma {:induction false} SamePtrRdata(a: Record, b: Record)
    requires a.rtype == PTR && b.rtype == PTR
    ensures CanonicalRdata(a) == CanonicalRdata(b) <==> SameName(Norm(a.target), Norm(b.target))
  {
    var d, e := CanonicalRdata(a), CanonicalRdata(b);
    CanonicalOctets(a);
    CanonicalOctets(b);
    KeyInjective(a.target, b.target);
    assert Key(a.target) == d[..|d| - 1] && Key(b.target) == e[..|e| - 1];
  }

  lemma {:induction false} SamePtrTarget(a: Record, b: Record)
    requires a.rtype == PTR && b.rtype == PTR && CanonicalRdata(a) == CanonicalRdata(b) && Normal(a.target) && Normal(b.target)
    ensures SameName(a.target, b.target)
  {
    SamePtrRdata(a, b);
    NormIsNormal(a.target);
    NormIsNormal(b.target);
  }

  lemma {:induction false} LexIsBefore(a: seq<int>, b: seq<int>)
    ensures CompareKeys(a, b) < 0 <==> OctetsBefore(a, b)
  {
    if a == [] || b == [] {
      if b != [] { assert OctetsBeforeAt(a, b, 0); }
    } else if a[0] != b[0] {
      if a[0] < b[0] { assert OctetsBeforeAt(a, b, 0); }
      if OctetsBefore(a, b) {
        var i: nat :| OctetsBeforeAt(a, b, i);
      }
    } else {
      LexIsBefore(a[1..], b[1..]);
      SameHeadBefore(a, b);
    }
  }

  lemma {:induction false} SameHeadBefore(a: seq<int>, b: seq<int>)
    requires a != [] && b != [] && a[0] == b[0]
    ensures OctetsBefore(a, b) <==> OctetsBefore(a[1..], b[1..])
  {
    if OctetsBefore(a, b) {
      var i: nat :| OctetsBeforeAt(a, b, i);
      assert i > 0 && a[1..][..i - 1] == a[..i][1..] && b[1..][..i - 1] == b[..i][1..];
      assert OctetsBeforeAt(a[1..], b[1..], i - 1);
    }
    if OctetsBefore(a[1..], b[1..]) {
      var i: nat :| OctetsBeforeAt(a[1..], b[1..], i);
      assert a[..i + 1] == [a[0]] + a[1..][..i] && b[..i + 1] == [b[0]] + b[1..][..i];
      assert OctetsBeforeAt(a, b, i + 1);
    }
  }

  lemma {:induction false} KeysCompare(a: Record, b: Record)
    ensures CompareKeys(SortKey(a), SortKey(b)) < 0 <==> RecordBefore(a, b)
    ensures SortKey(a) == SortKey(b) <==> Alike(a, b)
  {
    var x, y := CanonicalRdata(a), CanonicalRdata(b);
    var k, l := SortKey(a), SortKey(b);
    assert k[0] == a.rrclass && l[0] == b.rrclass && k[1] == a.rtype && l[1] == b.rtype && k[2..] == x && l[2..] == y;
    LexIsBefore(x, y);
    assert k[1..][1..] == x && l[1..][1..] == y;
    assert CompareKeys(k[1..], l[1..]) == if a.rtype < b.rtype then -1 else if a.rtype > b.rtype then 1 else CompareKeys(x, y);
  }

  lemma {:induction false} KeysAt(rs: seq<Record>)
    ensures |SortKeys(rs)| == |rs| && forall i :: 0 <= i < |rs| ==> SortKeys(rs)[i] == SortKey(rs[i])
  {
    if rs != [] { KeysAt(rs[1..]); }
  }

  lemma {:induction false} OrderedKeys(rs: seq<Record>)
    requires InOrder(rs)
    ensures Sorted(SortKeys(rs))
  {
    CompareKeysIsOrder();
    KeysAt(rs);
    if |rs| > 1 {
      KeysCompare(rs[1], rs[0]);
      assert forall i :: 0 <= i < |rs[1..]| ==> rs[1..][i] == rs[i + 1];
      OrderedKeys(rs[1..]);
    }
  }

  lemma {:induction false} ArrangedKeys(rs: seq<Record>, a: seq<Record>)
    requires multiset(a) == multiset(rs) && InOrder(a)
    ensures Sort(SortKeys(rs)) == SortKeys(a)
  {
    SortKeysPermute(rs, a);
    SortSorts(SortKeys(rs));
    OrderedKeys(a);
    SortedUnique(Sort(SortKeys(rs)), SortKeys(a));
  }

  lemma {:induction false} LexOfKeys(a: seq<Record>, b: seq<Record>)
    ensures Lex(CompareKeys, SortKeys(a), SortKeys(b)) < 0 <==> Earlier(a, b)
  {
    CompareKeysIsOrder();
    if a == [] || b == [] {
      if b != [] { assert EarlierAt(a, b, 0); }
    } else {
      KeysCompare(a[0], b[0]);
      LexOfKeys(a[1..], b[1..]);
      if Alike(a[0], b[0]) {
        SameFirst(a, b);
      } else {
        if RecordBefore(a[0], b[0]) { assert EarlierAt(a, b, 0); }
      }
    }
  }

  lemma {:induction false} SameFirst(a: seq<Record>, b: seq<Record>)
    requires a != [] && b != [] && Alike(a[0], b[0]) && !RecordBefore(a[0], b[0])
    ensures Earlier(a, b) <==> Earlier(a[1..], b[1..])
  {
    if Earlier(a, b) {
      var i: nat :| EarlierAt(a, b, i);
      assert EarlierAt(a[1..], b[1..], i - 1);
    }
    if Earlier(a[1..], b[1..]) {
      var i: nat :| EarlierAt(a[1..], b[1..], i);
      forall j | 0 <= j < i + 1 ensures Alike(a[j], b[j]) {
        if j > 0 { assert a[j] == a[1..][j - 1] && b[j] == b[1..][j - 1]; }
      }
      assert EarlierAt(a, b, i + 1);
    }
  }

  /** We lose exactly if, both sets put in order, the first difference is that our record is the earlier one
      or that we have none left. */
  lemma {:induction false} EarlierSetLoses(ours: seq<Record>, theirs: seq<Record>, a: seq<Record>, b: seq<Record>)
    requires multiset(a) == multiset(ours) && multiset(b) == multiset(theirs) && InOrder(a) && InOrder(b)
    ensures Compare(ours, theirs) < 0 <==> Earlier(a, b)
  {
    ArrangedKeys(ours, a);
    ArrangedKeys(theirs, b);
    LexOfKeys(a, b);
  }

  // ---- What the responder does -----------------------------------------------------------------

  /** The claim starts over a second from now. */
  predicate WaitsASecond(before: Group, after: Group, now: int) {
    after == Group(0, false, now + 1000, before.generation + 1)
  }

  /** `b` is, in order, what the prober's packet says about the name. */
  ghost predicate ClaimOn(b: seq<Record>, name: Name, q: Message) {
    InOrder(b) && multiset(b) == multiset(Named(q.authorities, name))
  }

  lemma {:induction false} NamedExact(rs: seq<Record>, name: Name, r: Record)
    ensures multiset(Named(rs, name))[r] == if SameName(r.name, name) then multiset(rs)[r] else 0
  {
    if rs != [] {
      NamedExact(rs[1..], name, r);
      HeadTail(rs);
    }
  }

  /** The host: if it is still probing and its records are the earlier ones it waits a second and starts
      over; otherwise the packet does nothing to it. */
  lemma {:induction false} HostGivesWay(st: Responder, q: Message, iface: Option<nat>, now: int, a: seq<Record>, b: seq<Record>)
    requires InOrder(a) && multiset(a) == multiset(HostProbeRecords(st, iface)) && ClaimOn(b, HostFqdn(st), q)
    ensures var t := AfterQuery(st, q, iface, now);
      t.hostLabel == st.hostLabel && t.hostSuffix == st.hostSuffix &&
      if !st.host.announced && b != [] && Earlier(a, b) then WaitsASecond(st.host, t.host, now) && t.timerActive
      else t.host == st.host
  {
    var theirs := Named(q.authorities, HostFqdn(st));
    EarlierSetLoses(HostProbeRecords(st, iface), theirs, a, b);
    assert |b| == |multiset(b)| == |multiset(theirs)| == |theirs|;
    if q.authorities == [] { assert theirs == []; }
  }

  /** The same for each service. */
  lemma {:induction false} ServiceGivesWay(st: Responder, q: Message, iface: Option<nat>, now: int, i: nat, a: seq<Record>,
                                           b: seq<Record>)
    requires i < |st.services| && ClaimOn(b, InstanceName(st.services[i]), q)
    requires InOrder(a) && multiset(a) == multiset(ServiceProbeRecords(st, st.services[i]))
    ensures var s, t := st.services[i], AfterQuery(st, q, iface, now);
      |t.services| == |st.services| &&
      if !s.group.announced && b != [] && Earlier(a, b) then
        t.services[i] == s.(group := t.services[i].group) && WaitsASecond(s.group, t.services[i].group, now) && t.timerActive
      else t.services[i] == s
  {
    var s := st.services[i];
    var theirs := Named(q.authorities, InstanceName(s));
    EarlierSetLoses(ServiceProbeRecords(st, s), theirs, a, b);
    assert |b| == |multiset(b)| == |multiset(theirs)| == |theirs|;
    MapServicesAt(x => DeferIfLost(st, x, q, now), st.services);
    if q.authorities == [] {
      assert theirs == [];
    } else if ServiceTie(st, s, q) {
      assert AnyServiceTie(st, st.services, q);
    }
  }

  lemma {:induction false} OctetsAreDigits(x: uint32, y: uint32)
    ensures OctetsBefore(Put32(x), Put32(y)) <==> x < y
  {
    var a, b := Put32(x), Put32(y);
    assert At(a, 0, a) && At(b, 0, b);
    ReadBack32(a, 0, x);
    ReadBack32(b, 0, y);
    if OctetsBefore(a, b) {
      var i: nat :| OctetsBeforeAt(a, b, i);
      forall j | 0 <= j < i ensures a[j] == b[j] { assert a[..i][j] == b[..i][j]; }
    }
    if x < y {
      var i := if a[0] != b[0] then 0 else if a[1] != b[1] then 1 else if a[2] != b[2] then 2 else 3;
      assert OctetsBeforeAt(a, b, i);
    }
  }

  lemma {:induction false} OneProbeRecord(st: Responder, addr: uint32)
    requires st.ifaces == [[addr]]
    ensures HostProbeRecords(st, None) == [ARecord(HostFqdn(st), addr).(cacheFlush := false)]
  {
    var host := HostFqdn(st);
    var mine := ARecord(host, addr);
    assert AllAddresses(st.ifaces) == [addr] by { assert st.ifaces[1..] == []; }
    assert HostARecords(host, [addr]) == [mine] by { assert [addr][1..] == []; }
    var all := (x: Record) => true;
    assert Collect(all, [mine], []) == [mine] by {
      assert [mine][1..] == [] && [] + [mine] == [mine];
      assert Collect(all, [mine][1..], [mine]) == [mine];
    }
    assert HostRecordsFor(host, [addr]) == [mine, NsecRecord(host)];
    assert [mine, NsecRecord(host)][1..] == [NsecRecord(host)] && [NsecRecord(host)][1..] == [];
    assert OnlyA([NsecRecord(host)]) == [];
  }

  lemma {:induction false} OneEarlier(a: Record, b: Record)
    ensures InOrder([a]) && (Earlier([a], [b]) <==> RecordBefore(a, b))
  {
    if RecordBefore(a, b) { assert EarlierAt([a], [b], 0); }
    if Earlier([a], [b]) { var i: nat :| EarlierAt([a], [b], i); }
  }

  lemma {:induction false} AddressesCompare(a: Record, b: Record, x: uint32, y: uint32)
    requires a.rtype == b.rtype == A && a.rrclass == b.rrclass && a.rdata == Put32(x) && b.rdata == Put32(y)
    ensures RecordBefore(a, b) <==> x < y
  {
    OctetsAreDigits(x, y);
  }

  lemma {:induction false} FromOctets(d: seq<byte>)
    requires |d| == 4
    ensures d == Put32(Be32(d, 0))
  {
  }

  lemma {:induction false} OneNamed(r: Record, name: Name)
    requires SameName(r.name, name)
    ensures Named([r], name) == [r]
  {
    assert [r][1..] == [];
  }

  /** Two hosts with one address each: the one with the lower address waits. */
  lemma {:induction false} LowerAddressWaits(st: Responder, q: Message, now: int, ours: uint32, theirs: Record)
    requires !st.host.announced && st.ifaces == [[ours]] && q.authorities == [theirs]
    requires SameName(theirs.name, HostFqdn(st)) && theirs.rtype == 1 && theirs.rrclass == 1 && |theirs.rdata| == 4
    ensures var t := AfterQuery(st, q, None, now);
      if ours < Be32(theirs.rdata, 0) then WaitsASecond(st.host, t.host, now) else t.host == st.host
  {
    var mine, y := ARecord(HostFqdn(st), ours).(cacheFlush := false), Be32(theirs.rdata, 0);
    OneProbeRecord(st, ours);
    OneNamed(theirs, HostFqdn(st));
    FromOctets(theirs.rdata);
    OneEarlier(mine, theirs);
    OneEarlier(theirs, mine);
    AddressesCompare(mine, theirs, ours, y);
    HostGivesWay(st, q, None, now, [mine], [theirs]);
  }
}
