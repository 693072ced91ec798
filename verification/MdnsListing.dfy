/** Two more things a client can ask: which types of service there are, and for addresses the host does not
    have. */
module MdnsListing {
  import opened Bytes
  import opened DnsName
  import opened DnsMessage
  import opened MdnsRecords
  import opened MdnsAnswer
  import opened MdnsQuery
  import opened MdnsDuel
  import opened MdnsResolve

  // ---- What the host lacks ---------------------------------------------------------------------

  /** Bit `t` of a type bitmap, counted from the most significant bit of the first octet. */
  predicate HasType(bitmap: seq<byte>, t: nat) {
    t / 8 < |bitmap| && bitmap[t / 8] as int / [128, 64, 32, 16, 8, 4, 2, 1][t % 8] % 2 == 1
  }

  /** The record says that the name has A records and nothing else: the name itself, uncompressed, window 0, the
      length of the bitmap, and a bitmap with the bit of type 1 (section 4.1.2 of RFC 4034). */
  predicate OnlyAddresses(r: Record, host: Name) {
    var n := |PlainName(host, false)|;
    r.rtype == 47 && r.rrclass == 1 && SameName(r.name, host) && 2 + n <= |r.rdata| <= 34 + n &&
    r.rdata[..n] == PlainName(host, false) && r.rdata[n] == 0 && r.rdata[n + 1] as int == |r.rdata| - n - 2 &&
    HasOnlyTypeOne(r.rdata[n + 2..])
  }

  predicate HasOnlyTypeOne(bits: seq<byte>) { forall t :: 0 <= t < 256 ==> (HasType(bits, t) <==> t == 1) }

  lemma {:induction false} OnlyTypeOne(bits: seq<byte>, t: nat)
    requires bits == [0x40]
    ensures HasType(bits, t) <==> t == 1
  {
    if t < 8 {
      var weights := [128, 64, 32, 16, 8, 4, 2, 1];
      assert t % 8 == t && weights[t] == if t == 0 then 128 else if t == 1 then 64 else weights[t];
      assert t == 1 || 64 / weights[t] % 2 == 0;
    }
  }

  lemma {:induction false} NsecSaysOnlyAddresses(host: Name)
    ensures OnlyAddresses(NsecRecord(host), host)
  {
    var r, n := NsecRecord(host), |PlainName(host, false)|;
    var bits := r.rdata[n + 2..];
    assert bits == [0x40];
    forall t | 0 <= t < 256 ensures HasType(bits, t) <==> t == 1 { OnlyTypeOne(bits, t); }
  }

  lemma {:induction false} TypesWeHave(st: Responder, addrs: seq<uint32>, r: Record)
    requires Known(st, addrs, r)
    ensures r.rtype in {1, 12, 16, 33, 47}
    ensures r.rtype == 47 ==> r == NsecRecord(HostFqdn(st))
  {
  }

  lemma {:induction false} NsecIsWanted(q: Message, rs: seq<Record>, host: Name, nsec: Record, i: nat)
    requires i < |q.questions| && Asks(q.questions[i]) && SameName(q.questions[i].name, host)
    requires nsec in rs && nsec.rtype == NSEC && SameName(nsec.name, host)
    requires forall r :: r in rs ==> r.rtype != q.questions[i].qtype && q.questions[i].qtype != ANY
    ensures Contains(AnswerAll(q, q.questions, rs, host, []), nsec)
  {
    var n :| 0 <= n < |rs| && rs[n] == nsec;
    assert NameKnown(q.questions[i], rs) by { assert SameName(rs[n].name, q.questions[i].name); }
    assert !TypeKnown(q.questions[i], rs) by { assert forall k :: 0 <= k < |rs| ==> rs[k] in rs; }
    assert WantedBy(q, q.questions[i], rs, host, nsec);
    AnswersExact(q, rs, host);
  }

  lemma {:induction false} NsecIsCurrent(st: Responder, iface: Option<nat>)
    requires st.host.announced
    ensures NsecRecord(HostFqdn(st)) in CurrentRecords(st, iface)
  {
    var rs := HostRecords(st, iface);
    CurrentRecordsExact(st, iface);
    assert rs[|rs| - 1] == NsecRecord(HostFqdn(st));
  }

  /** A question for the host that is for no type we have, such as its IPv6 address, is answered at once: the name
      has A records only. */
  lemma {:induction false} MissingTypeIsAnswered(st: Responder, q: Message, iface: Option<nat>, i: nat)
    requires st.host.announced && i < |q.questions| && q.questions[i].rrclass in {1, 255}
    requires SameName(q.questions[i].name, HostFqdn(st)) && q.questions[i].qtype !in {1, 12, 16, 33, 47, 255}
    ensures exists r :: r in AnswersTo(st, q, iface) && OnlyAddresses(r, HostFqdn(st))
  {
    var rs, host := CurrentRecords(st, iface), HostFqdn(st);
    forall r | r in rs ensures r.rtype in {1, 12, 16, 33, 47} && (r.rtype == 47 ==> r == NsecRecord(host)) {
      CurrentIsKnown(st, iface, r);
      TypesWeHave(st, AddressesFor(st, iface), r);
    }
    NsecIsCurrent(st, iface);
    NsecIsWanted(q, rs, host, NsecRecord(host), i);
    var out := AnswersTo(st, q, iface);
    var k :| 0 <= k < |out| && SameAs(out[k], NsecRecord(host));
    AllCurrent(st, q, iface);
    assert out[k] in out + Additionals(out, rs);
    NsecSaysOnlyAddresses(host);
  }

  // ---- Types -----------------------------------------------------------------------------------

  /** The record points from the list of types to this one. */
  predicate ListsType(r: Record, stype: Name) {
    r.rtype == 12 && SameName(r.target, stype + [[108, 111, 99, 97, 108]]) &&
    SameName(r.name, [[95, 115, 101, 114, 118, 105, 99, 101, 115], [95, 100, 110, 115, 45, 115, 100], [95, 117, 100, 112],
                      [108, 111, 99, 97, 108]])
  }

  lemma {:induction false} NormalPointer(st: Responder, addrs: seq<uint32>, r: Record)
    requires NamesFit(st) && Known(st, addrs, r) && r.rtype == PTR
    ensures Normal(r.target)
  {
    var o :| o in st.services && (r == EnumPtr(o) || r == InstancePtr(o));
    TypeFits(o);
  }

  lemma {:induction false} KnownType(st: Responder, addrs: seq<uint32>, r: Record, s: Service)
    requires NamesFit(st) && Known(st, addrs, r) && s in st.services && SameAs(r, EnumPtr(s))
    ensures ListsType(r, s.stype)
  {
    NormalPointer(st, addrs, r);
    TypeFits(s);
    SamePtrTarget(r, EnumPtr(s));
  }

  lemma {:induction false} SameQuestion(q: Message, a: Record, b: Record)
    requires SameAs(a, b) && a.ttl == b.ttl
    ensures (Lists(q, a) <==> Lists(q, b)) && (AskedFor(q, a) <==> AskedFor(q, b))
  {
  }

  /** A record of ours that is asked for and not known already is among the answers, if only in another copy. */
  lemma {:induction false} AnsweredAs(st: Responder, q: Message, iface: Option<nat>, r: Record) returns (x: Record)
    requires Contains(CurrentRecords(st, iface), r) && r.rtype == PTR && r.ttl == 4500 && AskedFor(q, r) && !Lists(q, r)
    ensures x in AnswersTo(st, q, iface) && SameAs(x, r) && Known(st, AddressesFor(st, iface), x)
  {
    var rs, out := CurrentRecords(st, iface), AnswersTo(st, q, iface);
    var n :| 0 <= n < |rs| && SameAs(rs[n], r);
    CurrentIsKnown(st, iface, rs[n]);
    TtlByType(st, AddressesFor(st, iface), rs[n]);
    SameQuestion(q, rs[n], r);
    KnownAnswersAreLeftOut(st, q, iface, rs[n]);
    var k :| 0 <= k < |out| && SameAs(out[k], rs[n]);
    x := out[k];
    AllCurrent(st, q, iface);
    assert x in out + Additionals(out, rs);
    CurrentIsKnown(st, iface, x);
  }

  /** Asked which types there are, the responder names the type of every live service. */
  lemma {:induction false} TypesAreListed(st: Responder, q: Message, iface: Option<nat>, s: Service)
    requires s in st.services && s.group.announced && NamesFit(st) && AskedFor(q, EnumPtr(s)) && !Lists(q, EnumPtr(s))
    ensures exists r :: r in AnswersTo(st, q, iface) && ListsType(r, s.stype)
  {
    CurrentRecordsExact(st, iface);
    assert Published(st, s, CurrentRecords(st, iface));
    var x := AnsweredAs(st, q, iface, EnumPtr(s));
    KnownType(st, AddressesFor(st, iface), x, s);
  }
}
