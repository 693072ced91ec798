/** Service resolution from end to end: what was given to addService is what a client that asks for the type
    gets to know. */
module MdnsResolve {
  import opened Bytes
  import opened DnsName
  import opened DnsMessage
  import opened MdnsRecords
  import opened MdnsAnswer
  import opened MdnsQuery
  import opened MdnsProbe
  import opened MdnsDuel
  import opened MdnsNames

  // ---- What a client reads ---------------------------------------------------------------------

  /** The "key=value" texts that fit a string of at most 255 bytes. */
  function Texts(txt: seq<TxtEntry>): seq<seq<byte>> {
    if txt == [] then []
    else
      var e := txt[0].key + [61] + txt[0].value;
      (if |e| <= 255 then [e] else []) + Texts(txt[1..])
  }

  /** Four octets, most significant first. */
  function ReadAddress(d: seq<byte>): int
    requires |d| == 4
  {
    ((d[0] as int * 256 + d[1]) * 256 + d[2]) * 256 + d[3]
  }

  /** Lifetime and flush bit, as other responders or as plain DNS clients get them. */
  predicate Lives(r: Record, ttl: int, plain: bool) {
    r.ttl == (if plain then 10 else ttl) && (r.cacheFlush <==> r.rtype != 12 && !plain)
  }

  predicate PointsTo(r: Record, stype: Name, instance: Name, plain: bool) {
    r.rtype == 12 && r.rrclass == 1 && SameName(r.name, stype + [[108, 111, 99, 97, 108]]) && SameName(r.target, instance) &&
    Lives(r, 4500, plain)
  }

  predicate Locates(r: Record, instance: Name, host: Name, port: uint16, plain: bool) {
    r.rtype == 33 && r.rrclass == 1 && SameName(r.name, instance) && r.priority == 0 && r.weight == 0 && r.port == port &&
    r.target == host && Lives(r, 120, plain)
  }

  predicate Describes(r: Record, instance: Name, txt: seq<TxtEntry>, plain: bool) {
    r.rtype == 16 && r.rrclass == 1 && SameName(r.name, instance) && Lives(r, 4500, plain) &&
    ReadStrings(r.rdata) == Some(if Texts(txt) == [] then [[]] else Texts(txt))
  }

  predicate Addresses(r: Record, host: Name, x: int, plain: bool) {
    r.rtype == 1 && r.rrclass == 1 && SameName(r.name, host) && |r.rdata| == 4 && ReadAddress(r.rdata) == x &&
    Lives(r, 120, plain)
  }

  /** The answers lead to the instance, and the whole message to its port, its entries and the addresses of
      its host, and to no other addresses. */
  ghost predicate Resolves(answers: seq<Record>, all: seq<Record>, stype: Name, instance: Name, host: Name, port: uint16,
                           txt: seq<TxtEntry>, addrs: seq<uint32>, plain: bool) {
    (exists r :: r in answers && PointsTo(r, stype, instance, plain)) &&
    (exists r :: r in all && Locates(r, instance, host, port, plain)) &&
    (exists r :: r in all && Describes(r, instance, txt, plain)) &&
    (forall x :: x in addrs ==> exists r :: r in all && Addresses(r, host, x, plain)) &&
    (forall r :: r in all && r.rtype == 1 ==> exists x :: x in addrs && Addresses(r, host, x, plain))
  }

  // ---- The records say what they are made from -------------------------------------------------

  lemma {:induction false} StringsOfTxt(txt: seq<TxtEntry>)
    ensures ReadStrings(TxtData(txt)) == Some(Texts(txt))
  {
    if txt != [] {
      StringsOfTxt(txt[1..]);
      var e, rest := txt[0].key + [61] + txt[0].value, TxtData(txt[1..]);
      if |e| <= 255 {
        var d := [|e|] + e + rest;
        assert d[0] as int == |e| && d[1..1 + |e|] == e && d[1 + |e|..] == rest;
      } else {
        assert [] + rest == rest && [] + Texts(txt[1..]) == Texts(txt[1..]);
      }
    }
  }

  lemma {:induction false} OneEmptyString(d: seq<byte>)
    requires d == [0]
    ensures ReadStrings(d) == Some([[]])
  {
    assert d[1..1] == [] && d[1..] == [];
    assert ReadStrings(d[1..]) == Some([]);
    assert [d[1..1]] + [] == [[]];
  }

  lemma {:induction false} TxtReads(s: Service)
    ensures ReadStrings(TxtOf(s).rdata) == Some(if Texts(s.txt) == [] then [[]] else Texts(s.txt))
  {
    StringsOfTxt(s.txt);
    var data := TxtData(s.txt);
    if data == [] { OneEmptyString(TxtOf(s).rdata); } else { assert ReadStrings(data).value != []; }
  }

  lemma {:induction false} AddressReads(x: uint32)
    ensures |Put32(x)| == 4 && ReadAddress(Put32(x)) == x
  {
    assert At(Put32(x), 0, Put32(x));
    ReadBack32(Put32(x), 0, x);
  }

  lemma {:induction false} HostARecordsExact(host: Name, addrs: seq<uint32>)
    ensures forall r :: r in HostARecords(host, addrs) ==> exists x :: x in addrs && r == ARecord(host, x)
    ensures forall x :: x in addrs ==> ARecord(host, x) in HostARecords(host, addrs)
  {
    if addrs != [] {
      HostARecordsExact(host, addrs[1..]);
      var rs, rest := HostARecords(host, addrs), HostARecords(host, addrs[1..]);
      forall r | r in rs ensures exists x :: x in addrs && r == ARecord(host, x) {
        if r == rs[0] {
          assert r == ARecord(host, addrs[0]);
        } else {
          assert r in rest;
          var x :| x in addrs[1..] && r == ARecord(host, x);
          assert x in addrs;
        }
      }
      forall x | x in addrs ensures ARecord(host, x) in rs {
        if x != addrs[0] { assert x in addrs[1..]; } else { assert rs[0] == ARecord(host, x); }
      }
    }
  }

  /** The host's records are one A record for each address, and the NSEC record. */
  lemma {:induction false} HostRecordsExact(host: Name, addrs: seq<uint32>)
    ensures var rs := HostRecordsFor(host, addrs);
      (forall r :: r in rs ==> r == NsecRecord(host) || exists x :: x in addrs && r == ARecord(host, x)) &&
      forall x :: x in addrs ==> Contains(rs, ARecord(host, x))
  {
    var made, all := HostARecords(host, addrs), (r: Record) => true;
    HostARecordsExact(host, addrs);
    CollectSpec(all, made, []);
    var kept, rs := Collect(all, made, []), HostRecordsFor(host, addrs);
    forall x | x in addrs ensures Contains(rs, ARecord(host, x)) { ContainsGrows(kept, rs, ARecord(host, x)); }
  }

  lemma {:induction false} AllAddressesExact(ifaces: seq<seq<uint32>>, x: uint32)
    ensures x in AllAddresses(ifaces) <==> exists i :: 0 <= i < |ifaces| && x in ifaces[i]
  {
    if ifaces != [] {
      AllAddressesExact(ifaces[1..], x);
      if i :| 0 <= i < |ifaces| && x in ifaces[i] {
        if i > 0 { assert x in ifaces[1..][i - 1]; }
      }
      if j :| 0 <= j < |ifaces[1..]| && x in ifaces[1..][j] { assert x in ifaces[j + 1]; }
    }
  }

  /** On a known interface its own addresses are named and no others, else those of all interfaces. */
  lemma {:induction false} AddressesNamed(st: Responder, iface: Option<nat>, x: uint32)
    ensures x in AddressesFor(st, iface) <==>
            if iface.Some? && iface.value < |st.ifaces| then x in st.ifaces[iface.value]
            else exists i :: 0 <= i < |st.ifaces| && x in st.ifaces[i]
  {
    AllAddressesExact(st.ifaces, x);
  }

  // ---- What is current -------------------------------------------------------------------------

  /** The names fit the wire: labels of 1 to 63 bytes. */
  predicate NamesFit(st: Responder) { forall s :: s in st.services ==> Normal(InstanceName(s)) }

  /** What a current record can be, by its type. */
  ghost predicate Known(st: Responder, addrs: seq<uint32>, r: Record) {
    r == NsecRecord(HostFqdn(st)) || (exists x :: x in addrs && r == ARecord(HostFqdn(st), x)) ||
    exists s :: s in st.services && (r == EnumPtr(s) || r == InstancePtr(s) || r == SrvOf(st, s) || r == TxtOf(s))
  }

  lemma {:induction false} CurrentIsKnown(st: Responder, iface: Option<nat>, r: Record)
    requires r in CurrentRecords(st, iface)
    ensures Known(st, AddressesFor(st, iface), r)
  {
    HostRecordsExact(HostFqdn(st), AddressesFor(st, iface));
    CurrentRecordOrigin(st, iface, r);
    if OwnedByService(st, r) { var s :| s in st.services && BelongsTo(st, s, r); }
  }

  lemma {:induction false} TypeFits(s: Service)
    requires Normal(InstanceName(s))
    ensures Normal(TypeName(s))
  {
    assert forall i :: 0 <= i < |TypeName(s)| ==> TypeName(s)[i] == InstanceName(s)[i + 1];
  }

  lemma {:induction false} KnownPtr(st: Responder, addrs: seq<uint32>, r: Record, s: Service)
    requires NamesFit(st) && Known(st, addrs, r) && s in st.services && SameAs(r, InstancePtr(s))
    ensures PointsTo(r, s.stype, InstanceName(s), false)
  {
    var o :| o in st.services && (r == EnumPtr(o) || r == InstancePtr(o));
    TypeFits(o);
    SamePtrTarget(r, InstancePtr(s));
  }

  lemma {:induction false} KnownSrv(st: Responder, addrs: seq<uint32>, r: Record, s: Service)
    requires Known(st, addrs, r) && SameAs(r, SrvOf(st, s))
    ensures Locates(r, InstanceName(s), HostFqdn(st), s.port, false)
  {
    SameSrvRdata(r, SrvOf(st, s));
  }

  lemma {:induction false} KnownTxt(st: Responder, addrs: seq<uint32>, r: Record, s: Service)
    requires Known(st, addrs, r) && SameAs(r, TxtOf(s))
    ensures Describes(r, InstanceName(s), s.txt, false)
  {
    TxtReads(s);
  }

  lemma {:induction false} KnownAddress(st: Responder, addrs: seq<uint32>, r: Record, x: uint32)
    requires Known(st, addrs, r) && SameAs(r, ARecord(HostFqdn(st), x))
    ensures Addresses(r, HostFqdn(st), x, false)
  {
    AddressReads(x);
  }

  // ---- The reply -------------------------------------------------------------------------------

  /** The querier lists the pointer itself, with at least half its lifetime left. */
  ghost predicate KnowsPointer(q: Message, s: Service) {
    exists k :: k in q.answers && SameAs(k, InstancePtr(s)) && k.ttl >= 2250
  }

  /** One of the questions is for the services of this type. */
  predicate AsksForType(q: Message, s: Service) {
    exists i :: 0 <= i < |q.questions| && SameName(q.questions[i].name, s.stype + [[108, 111, 99, 97, 108]]) &&
      q.questions[i].qtype in {12, 255} && q.questions[i].rrclass in {1, 255}
  }

  lemma {:induction false} PointerIsAnswered(q: Message, rs: seq<Record>, host: Name, s: Service)
    requires InstancePtr(s) in rs && AsksForType(q, s) && !KnowsPointer(q, s)
    ensures Contains(AnswerAll(q, q.questions, rs, host, []), InstancePtr(s))
  {
    AnswersExact(q, rs, host);
    var i :| 0 <= i < |q.questions| && SameName(q.questions[i].name, TypeName(s)) && q.questions[i].qtype in {12, 255} &&
      q.questions[i].rrclass in {1, 255};
    assert !IsKnownAnswer(q, InstancePtr(s));
    assert Direct(q, q.questions[i], InstancePtr(s)) && WantedBy(q, q.questions[i], rs, host, InstancePtr(s));
  }

  /** Some question is for the record, by name and type. */
  predicate AskedFor(q: Message, r: Record) {
    exists i :: 0 <= i < |q.questions| && SameName(r.name, q.questions[i].name) && q.questions[i].qtype in {r.rtype, 255} &&
      q.questions[i].rrclass in {1, 255}
  }

  lemma {:induction false} TtlByType(st: Responder, addrs: seq<uint32>, r: Record)
    requires Known(st, addrs, r)
    ensures r.ttl == if r.rtype == PTR || r.rtype == TXT then 4500 else 120
  {
  }

  /** The query lists the record with at least half its lifetime left. */
  ghost predicate Lists(q: Message, r: Record) { exists k :: k in q.answers && SameAs(k, r) && 2 * k.ttl >= r.ttl }

  lemma {:induction false} ListsIsKnown(q: Message, r: Record)
    requires r.ttl == 4500 || r.ttl == 120
    ensures Lists(q, r) <==> IsKnownAnswer(q, r)
  {
    if Lists(q, r) {
      var k :| k in q.answers && SameAs(k, r) && 2 * k.ttl >= r.ttl;
      var j :| 0 <= j < |q.answers| && q.answers[j] == k;
      assert SameAs(q.answers[j], r);
    }
  }

  lemma {:induction false} SameIsKnown(q: Message, a: Record, b: Record)
    requires SameAs(a, b) && a.ttl == b.ttl
    ensures IsKnownAnswer(q, a) <==> IsKnownAnswer(q, b)
  {
  }

  lemma {:induction false} AskedAndUnknown(q: Message, rs: seq<Record>, host: Name, r: Record)
    requires r in rs && AskedFor(q, r) && !IsKnownAnswer(q, r)
    ensures Contains(AnswerAll(q, q.questions, rs, host, []), r)
  {
    AnswersExact(q, rs, host);
    var i :| 0 <= i < |q.questions| && SameName(r.name, q.questions[i].name) && q.questions[i].qtype in {r.rtype, 255} &&
      q.questions[i].rrclass in {1, 255};
    assert Direct(q, q.questions[i], r) && WantedBy(q, q.questions[i], rs, host, r);
  }

  lemma {:induction false} AnsweredIsUnknown(q: Message, rs: seq<Record>, host: Name, x: Record)
    requires x in AnswerAll(q, q.questions, rs, host, []) && x.rtype != NSEC
    ensures x in rs && !IsKnownAnswer(q, x)
  {
    AnswersExact(q, rs, host);
    var question :| question in q.questions && WantedBy(q, question, rs, host, x);
  }

  lemma {:induction false} AnsweredMeansUnknown(q: Message, rs: seq<Record>, host: Name, r: Record)
    requires r.rtype != NSEC && forall x :: x in rs && SameAs(x, r) ==> x.ttl == r.ttl
    requires Contains(AnswerAll(q, q.questions, rs, host, []), r)
    ensures !IsKnownAnswer(q, r)
  {
    var out := AnswerAll(q, q.questions, rs, host, []);
    var i :| 0 <= i < |out| && SameAs(out[i], r);
    AnsweredIsUnknown(q, rs, host, out[i]);
    SameIsKnown(q, out[i], r);
  }

  /** Known-answer suppression, exactly: a current record that is asked for is answered unless the query
      itself lists it with at least half its lifetime left. */
  lemma {:induction false} KnownAnswersAreLeftOut(st: Responder, q: Message, iface: Option<nat>, r: Record)
    requires r in CurrentRecords(st, iface) && r.rtype != 47 && AskedFor(q, r)
    ensures Contains(AnswersTo(st, q, iface), r) <==> !Lists(q, r)
  {
    var rs, host := CurrentRecords(st, iface), HostFqdn(st);
    forall x | x in rs ensures x.ttl == if x.rtype == PTR || x.rtype == TXT then 4500 else 120 {
      CurrentIsKnown(st, iface, x);
      TtlByType(st, AddressesFor(st, iface), x);
    }
    ListsIsKnown(q, r);
    if !Lists(q, r) { AskedAndUnknown(q, rs, host, r); }
    if Contains(AnswerAll(q, q.questions, rs, host, []), r) { AnsweredMeansUnknown(q, rs, host, r); }
  }

  lemma {:induction false} FindPresent(answers: seq<Record>, extra: seq<Record>, r: Record) returns (x: Record)
    requires Present(answers, extra, r)
    ensures x in answers + extra && SameAs(x, r)
  {
    if Contains(answers, r) {
      var i :| 0 <= i < |answers| && SameAs(answers[i], r);
      x := answers[i];
    } else {
      var i :| 0 <= i < |extra| && SameAs(extra[i], r);
      x := extra[i];
    }
  }

  /** Everything said comes from the current records. */
  lemma {:induction false} AllCurrent(st: Responder, q: Message, iface: Option<nat>)
    ensures var rs, a := CurrentRecords(st, iface), AnswersTo(st, q, iface);
      forall r :: r in a + Additionals(a, rs) ==> r in rs
  {
    AnswersExact(q, CurrentRecords(st, iface), HostFqdn(st));
    AdditionalsComplete(AnswersTo(st, q, iface), CurrentRecords(st, iface));
  }

  /** What the additional records bring along with the pointer. */
  lemma {:induction false} PointerBrings(st: Responder, iface: Option<nat>, s: Service, a: seq<Record>, ptr: Record)
    requires st.host.announced && s in st.services && s.group.announced
    requires ptr in a && PointsTo(ptr, s.stype, InstanceName(s), false)
    ensures var rs := CurrentRecords(st, iface);
      Present(a, Additionals(a, rs), SrvOf(st, s)) && Present(a, Additionals(a, rs), TxtOf(s)) &&
      forall x :: x in HostRecords(st, iface) && Is(A, HostFqdn(st), x) ==> Present(a, Additionals(a, rs), x)
  {
    var rs := CurrentRecords(st, iface);
    CurrentRecordsExact(st, iface);
    AdditionalsComplete(a, rs);
    assert Published(st, s, rs);
    var srv, txt := SrvOf(st, s), TxtOf(s);
    assert srv in rs && Is(SRV, ptr.target, srv) && txt in rs && Is(TXT, ptr.target, txt);
  }

  lemma {:induction false} AddressIsThere(st: Responder, a: seq<Record>, extra: seq<Record>, iface: Option<nat>, addr: uint32)
    requires addr in AddressesFor(st, iface)
    requires forall r :: r in a + extra ==> Known(st, AddressesFor(st, iface), r)
    requires forall x :: x in HostRecords(st, iface) && Is(A, HostFqdn(st), x) ==> Present(a, extra, x)
    ensures exists r :: r in a + extra && Addresses(r, HostFqdn(st), addr, false)
  {
    var host, addrs := HostFqdn(st), AddressesFor(st, iface);
    var rs := HostRecords(st, iface);
    HostRecordsExact(host, addrs);
    assert Contains(rs, ARecord(host, addr));
    var i :| 0 <= i < |rs| && SameAs(rs[i], ARecord(host, addr));
    var r := FindPresent(a, extra, rs[i]);
    KnownAddress(st, addrs, r, addr);
  }

  lemma {:induction false} OnlyOurAddresses(st: Responder, addrs: seq<uint32>, r: Record)
    requires Known(st, addrs, r) && r.rtype == 1
    ensures exists x :: x in addrs && Addresses(r, HostFqdn(st), x, false)
  {
    var x :| x in addrs && r == ARecord(HostFqdn(st), x);
    KnownAddress(st, addrs, r, x);
  }

  lemma {:induction false} SrvIsThere(st: Responder, addrs: seq<uint32>, a: seq<Record>, extra: seq<Record>, s: Service)
    requires forall r :: r in a + extra ==> Known(st, addrs, r)
    requires Present(a, extra, SrvOf(st, s)) && Present(a, extra, TxtOf(s))
    ensures exists r :: r in a + extra && Locates(r, InstanceName(s), HostFqdn(st), s.port, false)
    ensures exists r :: r in a + extra && Describes(r, InstanceName(s), s.txt, false)
  {
    var x := FindPresent(a, extra, SrvOf(st, s));
    var y := FindPresent(a, extra, TxtOf(s));
    KnownSrv(st, addrs, x, s);
    KnownTxt(st, addrs, y, s);
  }

  /** What is asked of the state: the host and the service are live, with names the wire can carry. */
  predicate IsLive(st: Responder, s: Service) {
    st.host.announced && s in st.services && s.group.announced && NamesFit(st)
  }

  lemma {:induction false} AnswerResolves(st: Responder, q: Message, iface: Option<nat>, s: Service)
    requires IsLive(st, s) && AsksForType(q, s) && !KnowsPointer(q, s)
    ensures var a := AnswersTo(st, q, iface); var all := a + Additionals(a, CurrentRecords(st, iface));
      a != [] &&
      Resolves(a, all, s.stype, InstanceName(s), HostFqdn(st), s.port, s.txt, AddressesFor(st, iface), false)
  {
    var rs, host, addrs, a := CurrentRecords(st, iface), HostFqdn(st), AddressesFor(st, iface), AnswersTo(st, q, iface);
    var extra := Additionals(a, rs);
    AllCurrent(st, q, iface);
    forall r | r in a + extra ensures Known(st, addrs, r) { CurrentIsKnown(st, iface, r); }
    assert InstancePtr(s) in rs by {
      CurrentRecordsExact(st, iface);
      assert Published(st, s, rs);
    }
    PointerIsAnswered(q, rs, host, s);
    var k :| 0 <= k < |a| && SameAs(a[k], InstancePtr(s));
    assert a[k] in a + extra;
    KnownPtr(st, addrs, a[k], s);
    PointerBrings(st, iface, s, a, a[k]);
    SrvIsThere(st, addrs, a, extra, s);
    forall x | x in addrs ensures exists r :: r in a + extra && Addresses(r, host, x, false) {
      AddressIsThere(st, a, extra, iface, x);
    }
    forall r: Record | r in a + extra && r.rtype == 1 ensures exists x :: x in addrs && Addresses(r, host, x, false) {
      OnlyOurAddresses(st, addrs, r);
    }
  }

  // ---- The reply, and the whole way from addService --------------------------------------------

  /** A record as a plain DNS client gets it says the same. */
  lemma {:induction false} PlainSaysSame(r: Record, stype: Name, instance: Name, host: Name, port: uint16,
                                         txt: seq<TxtEntry>, x: int)
    ensures var l := LegacyRecord(r);
      l.rtype == r.rtype &&
      (PointsTo(r, stype, instance, false) ==> PointsTo(l, stype, instance, true)) &&
      (Locates(r, instance, host, port, false) ==> Locates(l, instance, host, port, true)) &&
      (Describes(r, instance, txt, false) ==> Describes(l, instance, txt, true)) &&
      (Addresses(r, host, x, false) ==> Addresses(l, host, x, true))
  {
  }

  lemma {:induction false} LegacyMembers(rs: seq<Record>)
    ensures forall r :: r in rs ==> LegacyRecord(r) in LegacyRecords(rs)
    ensures forall l :: l in LegacyRecords(rs) ==> exists r :: r in rs && l == LegacyRecord(r)
  {
    if rs != [] {
      LegacyMembers(rs[1..]);
      forall r | r in rs ensures LegacyRecord(r) in LegacyRecords(rs) {
        if r == rs[0] { assert LegacyRecords(rs)[0] == LegacyRecord(r); } else { assert r in rs[1..]; }
      }
      forall l | l in LegacyRecords(rs) ensures exists r :: r in rs && l == LegacyRecord(r) {
        if l == LegacyRecords(rs)[0] {
          assert rs[0] in rs;
        } else {
          assert l in LegacyRecords(rs[1..]);
          var r :| r in rs[1..] && l == LegacyRecord(r);
          assert r in rs;
        }
      }
    }
  }

  /** `ls` are the plain copies of `rs`. */
  ghost predicate Copied(rs: seq<Record>, ls: seq<Record>) {
    (forall r :: r in rs ==> LegacyRecord(r) in ls) && forall l :: l in ls ==> exists r :: r in rs && l == LegacyRecord(r)
  }

  lemma {:induction false} PlainLeads(rs: seq<Record>, ls: seq<Record>, stype: Name, instance: Name)
    requires Copied(rs, ls) && exists r :: r in rs && PointsTo(r, stype, instance, false)
    ensures exists l :: l in ls && PointsTo(l, stype, instance, true)
  {
    var r :| r in rs && PointsTo(r, stype, instance, false);
    PlainSaysSame(r, stype, instance, [], 0, [], 0);
    assert LegacyRecord(r) in ls;
  }

  lemma {:induction false} PlainLocates(rs: seq<Record>, ls: seq<Record>, instance: Name, host: Name, port: uint16)
    requires Copied(rs, ls) && exists r :: r in rs && Locates(r, instance, host, port, false)
    ensures exists l :: l in ls && Locates(l, instance, host, port, true)
  {
    var r :| r in rs && Locates(r, instance, host, port, false);
    PlainSaysSame(r, [], instance, host, port, [], 0);
    assert LegacyRecord(r) in ls;
  }

  lemma {:induction false} PlainDescribes(rs: seq<Record>, ls: seq<Record>, instance: Name, txt: seq<TxtEntry>)
    requires Copied(rs, ls) && exists r :: r in rs && Describes(r, instance, txt, false)
    ensures exists l :: l in ls && Describes(l, instance, txt, true)
  {
    var r :| r in rs && Describes(r, instance, txt, false);
    PlainSaysSame(r, [], instance, [], 0, txt, 0);
    assert LegacyRecord(r) in ls;
  }

  lemma {:induction false} PlainAddress(rs: seq<Record>, ls: seq<Record>, host: Name, x: uint32)
    requires Copied(rs, ls) && exists r :: r in rs && Addresses(r, host, x, false)
    ensures exists l :: l in ls && Addresses(l, host, x, true)
  {
    var r :| r in rs && Addresses(r, host, x, false);
    PlainSaysSame(r, [], [], host, 0, [], x);
    assert LegacyRecord(r) in ls;
  }

  lemma {:induction false} PlainOnly(rs: seq<Record>, ls: seq<Record>, host: Name, addrs: seq<uint32>, l: Record)
    requires Copied(rs, ls) && l in ls && l.rtype == 1
    requires forall r :: r in rs && r.rtype == 1 ==> exists x :: x in addrs && Addresses(r, host, x, false)
    ensures exists x :: x in addrs && Addresses(l, host, x, true)
  {
    var r :| r in rs && l == LegacyRecord(r);
    var x :| x in addrs && Addresses(r, host, x, false);
    PlainSaysSame(r, [], [], host, 0, [], x);
  }

  lemma {:induction false} AllCopied(a: seq<Record>, e: seq<Record>)
    ensures Copied(a, LegacyRecords(a)) && Copied(a + e, LegacyRecords(a) + LegacyRecords(e))
  {
    LegacyMembers(a);
    LegacyMembers(e);
  }

  lemma {:induction false} PlainResolves(a: seq<Record>, e: seq<Record>, stype: Name, instance: Name, host: Name, port: uint16,
                                         txt: seq<TxtEntry>, addrs: seq<uint32>)
    requires Resolves(a, a + e, stype, instance, host, port, txt, addrs, false)
    ensures Resolves(LegacyRecords(a), LegacyRecords(a) + LegacyRecords(e), stype, instance, host, port, txt, addrs, true)
  {
    var all, plain := a + e, LegacyRecords(a) + LegacyRecords(e);
    AllCopied(a, e);
    PlainLeads(a, LegacyRecords(a), stype, instance);
    PlainLocates(all, plain, instance, host, port);
    PlainDescribes(all, plain, instance, txt);
    forall x | x in addrs ensures exists r :: r in plain && Addresses(r, host, x, true) { PlainAddress(all, plain, host, x); }
    forall l: Record | l in plain && l.rtype == 1 ensures exists x :: x in addrs && Addresses(l, host, x, true) {
      PlainOnly(all, plain, host, addrs, l);
    }
  }

  /** The reply, to whomever it goes, tells how to reach the service. */
  ghost predicate TellsWhere(reply: Reply, stype: Name, instance: Name, host: Name, port: uint16, txt: seq<TxtEntry>,
                             addrs: seq<uint32>) {
    match reply
    case Silent => false
    case Legacy(m) =>
      m.flags == 0x8400 && Resolves(m.answers, m.answers + m.additionals, stype, instance, host, port, txt, addrs, true)
    case Scheduled(m, _, _, _) =>
      m.id == 0 && m.flags == 0x8400 && m.questions == [] &&
      Resolves(m.answers, m.answers + m.additionals, stype, instance, host, port, txt, addrs, false)
  }

  /** Asked for a type, a responder on which a service of that type is live says all there is to know to
      reach it: its instance, port, entries and the addresses of the interface. */
  lemma {:induction false} TypeQueryResolves(st: Responder, q: Message, iface: Option<nat>, legacy: bool, toUs: bool, s: Service)
    requires IsLive(st, s) && AsksForType(q, s) && !KnowsPointer(q, s)
    ensures TellsWhere(ReplyTo(st, q, iface, legacy, toUs), s.stype, InstanceName(s), HostFqdn(st), s.port, s.txt,
                       AddressesFor(st, iface))
  {
    AnswerResolves(st, q, iface, s);
    var a, e := AnswersTo(st, q, iface), Additionals(AnswersTo(st, q, iface), CurrentRecords(st, iface));
    PlainResolves(a, e, s.stype, InstanceName(s), HostFqdn(st), s.port, s.txt, AddressesFor(st, iface));
  }

  /** Where and when the reply goes: back to the asker alone only if it was no probe and either every question
      asks for that or the query came to us alone; at once if every answer is ours alone, within 20 to 120 ms if
      others may answer too, after 400 to 500 ms if more known answers are to come. */
  lemma {:induction false} ReplyIsRouted(st: Responder, q: Message, iface: Option<nat>, toUs: bool)
    requires ReplyTo(st, q, iface, false, toUs) != Silent
    ensures var r := ReplyTo(st, q, iface, false, toUs);
      r.Scheduled? &&
      (r.unicast <==> q.authorities == [] &&
                      (toUs || (q.questions != [] && forall x :: x in q.questions ==> x.unicastResponse))) &&
      (r.lo, r.hi) ==
      if q.flags / 512 % 2 == 1 then (400, 500)
      else if exists x :: x in r.message.answers && x.rtype == 12 then (20, 120)
      else (0, 0)
  {
    var answers := AnswersTo(st, q, iface);
    assert forall i :: 0 <= i < |q.questions| ==> q.questions[i] in q.questions;
    assert forall i :: 0 <= i < |answers| ==> answers[i] in answers;
  }

  /** Nobody renames or withdraws the service at `i`, or changes its entries. */
  predicate Untouched(steps: seq<Timed>, i: nat) {
    LeftAlone(steps, i) && forall k :: 0 <= k < |steps| && steps[k].action.DoTxt? ==> steps[k].action.index != i
  }

  /** Port and entries are as they were. */
  predicate SameOffer(a: Service, b: Service) {
    a.stype == b.stype && a.baseName == b.baseName && a.port == b.port && a.txt == b.txt
  }

  lemma {:induction false} ActKeepsOffer(r: Run, a: Action, now: int, i: nat)
    requires Enabled(r.st, a) && i < |r.st.services| && Untouched([Timed(a, now)], i)
    ensures var t := Act(r, a, now).st; i < |t.services| && SameOffer(r.st.services[i], t.services[i])
  {
    assert [Timed(a, now)][0].action == a;
    if a.DoTick? { MapServicesAt(s => TickService(s, now, TickGroup(r.st.host, now, true).announced), r.st.services); }
  }

  lemma {:induction false} PlayKeepsOffer(r: Run, steps: seq<Timed>, i: nat)
    requires Possible(r, steps) && i < |r.st.services| && Untouched(steps, i)
    ensures var t := Play(r, steps).st; i < |t.services| && SameOffer(r.st.services[i], t.services[i])
    decreases |steps|
  {
    if steps != [] {
      assert Untouched([steps[0]], i) && Untouched(steps[1..], i);
      ActKeepsOffer(r, steps[0].action, steps[0].at, i);
      PlayKeepsOffer(Act(r, steps[0].action, steps[0].at), steps[1..], i);
    }
  }

  /** From addService to the client: after any run in which the new service goes live and is not changed on
      purpose, whoever asks for its type learns the port, the entries and the addresses it was added with. */
  lemma {:induction false} AddedServiceResolves(r: Run, stype: Name, name: seq<byte>, port: uint16, txt: seq<TxtEntry>, now: int,
                                                delay: nat, steps: seq<Timed>, q: Message, iface: Option<nat>, legacy: bool,
                                                toUs: bool)
    requires var r1 := Act(r, DoAdd(stype, name, port, txt, delay), now);
      Possible(r1, steps) && Untouched(steps, |r.st.services|)
    requires var st := Play(Act(r, DoAdd(stype, name, port, txt, delay), now), steps).st;
      |r.st.services| < |st.services| && IsLive(st, st.services[|r.st.services|]) &&
      AsksForType(q, st.services[|r.st.services|]) && !KnowsPointer(q, st.services[|r.st.services|])
    ensures var st := Play(Act(r, DoAdd(stype, name, port, txt, delay), now), steps).st;
      var s := st.services[|r.st.services|];
      TellsWhere(ReplyTo(st, q, iface, legacy, toUs), stype, InstanceName(s), HostFqdn(st), port, txt, AddressesFor(st, iface)) &&
      (s.suffix == 1 && 0 < |name| <= 63 ==> InstanceName(s) == [name] + stype + [[108, 111, 99, 97, 108]])
  {
    var r1, i := Act(r, DoAdd(stype, name, port, txt, delay), now), |r.st.services|;
    PlayKeepsOffer(r1, steps, i);
    var st := Play(r1, steps).st;
    TypeQueryResolves(st, q, iface, legacy, toUs, st.services[i]);
    assert name + [] == name;
    Regroup([name], stype, [LOCAL]);
  }
}
