/** Names that turn out to be taken: when they are given up, when they are kept, and that a name once given
    up is not taken again. */
module MdnsNames {
  import opened Bytes
  import opened DnsName
  import opened DnsMessage
  import opened MdnsRecords
  import opened MdnsProbe
  import opened MdnsHandlers
  import opened MdnsDuel

  // ---- Names with different numbers ------------------------------------------------------------

  predicate Digits(d: seq<byte>) { d != [] && forall i :: 0 <= i < |d| ==> 48 <= d[i] <= 57 }

  lemma {:induction false} DecimalDigits(n: nat)
    ensures Digits(Decimal(n))
    decreases n
  {
    if n >= 10 { DecimalDigits(n / 10); }
  }

  lemma {:induction false} DecimalInjective(m: nat, n: nat)
    requires Decimal(m) == Decimal(n)
    ensures m == n
    decreases m
  {
    var a, b := Decimal(m), Decimal(n);
    assert a[|a| - 1] == 48 + m % 10 && b[|b| - 1] == 48 + n % 10;
    DecimalDigits(m / 10);
    DecimalDigits(n / 10);
    if m >= 10 {
      assert a[..|a| - 1] == Decimal(m / 10);
      assert n >= 10 && b[..|b| - 1] == Decimal(n / 10);
      DecimalInjective(m / 10, n / 10);
    }
  }

  lemma {:induction false} FoldAt(l: Label, i: nat)
    requires i < |l|
    ensures Fold(l)[i] == Lower(l[i])
  {
    if i > 0 { FoldAt(l[1..], i - 1); }
  }

  /** Labels equal but for letter case. */
  predicate SameLabel(a: Label, b: Label) { |a| == |b| && forall i :: 0 <= i < |a| ==> Lower(a[i]) == Lower(b[i]) }

  lemma {:induction false} FoldExact(a: Label, b: Label)
    ensures Fold(a) == Fold(b) <==> SameLabel(a, b)
  {
    if |a| == |b| {
      forall i | 0 <= i < |a| ensures Fold(a)[i] == Lower(a[i]) && Fold(b)[i] == Lower(b[i]) {
        FoldAt(a, i);
        FoldAt(b, i);
      }
    } else {
      assert |Fold(a)| != |Fold(b)|;
    }
  }

  lemma {:induction false} FirstLabelDecides(a: Label, b: Label, rest: Name)
    ensures SameName([a] + rest, [b] + rest) <==> SameLabel(a, b)
  {
    FoldExact(a, b);
    assert ([a] + rest)[1..] == rest && ([b] + rest)[1..] == rest;
    assert FoldName([a] + rest)[0] == Fold(a) && FoldName([b] + rest)[0] == Fold(b);
  }

  /** Different numbers make different host names. */
  lemma {:induction false} HostNamesDiffer(base: Label, m: nat, n: nat)
    ensures SameName(HostName(base, m), HostName(base, n)) <==> m == n
  {
    var a, b := HostName(base, m)[0], HostName(base, n)[0];
    assert HostName(base, m) == [a] + [LOCAL] && HostName(base, n) == [b] + [LOCAL];
    FirstLabelDecides(a, b, [LOCAL]);
    DecimalDigits(m);
    DecimalDigits(n);
    if SameLabel(a, b) && m != n {
      assert m != 1 && n != 1;
      var d, e := Decimal(m), Decimal(n);
      forall i | 0 <= i < |d| ensures d[i] == e[i] {
        assert a[|base| + 1 + i] == d[i] && b[|base| + 1 + i] == e[i];
      }
      DecimalInjective(m, n);
    }
  }

  // ---- Instance names --------------------------------------------------------------------------

  function Numbered(s: Service, n: nat): Name { InstanceName(s.(suffix := n)) }

  /** The name asked for, as far as it goes into a label of its own. */
  function WholeLabel(s: Service): seq<byte> { FitUtf8(if s.baseName == [] then AIRSHOW else s.baseName, 63) }

  /** The name asked for fills a whole label and already ends in the text put behind it for number `n`. */
  predicate EndsInNumber(s: Service, n: nat) {
    var whole, tail := WholeLabel(s), [32, 40] + Decimal(n) + [41];
    n != 1 && |whole| == 63 && |tail| <= 63 && whole[63 - |tail|..] == tail
  }

  lemma {:induction false} TailsDiffer(x: seq<byte>, y: seq<byte>, m: nat, n: nat)
    requires m != 1 && n != 1 && SameLabel(x + SuffixText(m), y + SuffixText(n)) && |SuffixText(m)| <= |SuffixText(n)|
    ensures m == n
  {
    var a, b, d, e := x + SuffixText(m), y + SuffixText(n), Decimal(m), Decimal(n);
    DecimalDigits(m);
    DecimalDigits(n);
    var k := |e| - |d|;
    assert SuffixText(m)[1] == 40;
    assert a[|x| + 1] == 40;
    forall i | 0 <= i < |e| ensures b[|y| + 2 + i] == e[i] { assert SuffixText(n)[2 + i] == e[i]; }
    assert k == 0;
    forall i | 0 <= i < |d| ensures d[i] == e[i] {
      assert SuffixText(m)[2 + i] == d[i];
      assert a[|x| + 2 + i] == d[i] && b[|y| + 2 + i] == e[i];
    }
    DecimalInjective(m, n);
  }

  lemma {:induction false} BoundaryExact(s: seq<byte>, n: nat, c: nat)
    requires c <= n < |s| && !(0x80 <= s[c] < 0xC0) && forall i :: c < i <= n ==> 0x80 <= s[i] < 0xC0
    ensures CharBoundary(s, n) == c
    decreases n
  {
    if n > c { BoundaryExact(s, n - 1, c); }
  }

  lemma {:induction false} BoundaryBytes(s: seq<byte>, n: nat)
    requires n < |s|
    ensures forall i :: CharBoundary(s, n) < i <= n ==> 0x80 <= s[i] < 0xC0
    decreases n
  {
    if n > 0 && 0x80 <= s[n] < 0xC0 { BoundaryBytes(s, n - 1); }
  }

  /** What is put behind a name: no letters, and not the middle of a character. */
  predicate Tail(tail: seq<byte>) {
    3 <= |tail| <= 63 && tail[1] == 40 && forall i :: 0 <= i < |tail| ==> tail[i] < 58
  }

  lemma {:induction false} SameTail(x: seq<byte>, y: seq<byte>, tail: seq<byte>)
    requires Tail(tail) && SameLabel(x, y + tail)
    ensures x[|y|..] == tail
  {
    forall i | 0 <= i < |tail| ensures x[|y| + i] == tail[i] { assert (y + tail)[|y| + i] == tail[i]; }
  }

  lemma {:induction false} EndsThen(base: seq<byte>, tail: seq<byte>)
    requires Tail(tail) && SameLabel(FitUtf8(base, 63), FitUtf8(base, 63 - |tail|) + tail)
    ensures |FitUtf8(base, 63)| == 63 && FitUtf8(base, 63)[63 - |tail|..] == tail
  {
    var room := 63 - |tail|;
    var whole, part := FitUtf8(base, 63), FitUtf8(base, room);
    SameTail(whole, part, tail);
    BoundaryBytes(base, room);
    assert base[|part| + 1] == whole[|part|..][1];
  }

  lemma {:induction false} ThenEnds(base: seq<byte>, tail: seq<byte>)
    requires Tail(tail) && |FitUtf8(base, 63)| == 63 && FitUtf8(base, 63)[63 - |tail|..] == tail
    ensures SameLabel(FitUtf8(base, 63), FitUtf8(base, 63 - |tail|) + tail)
  {
    var whole, room := FitUtf8(base, 63), 63 - |tail|;
    assert whole[room] == whole[room..][0] == tail[0] && whole[room] == base[room];
    BoundaryExact(base, room, room);
    assert FitUtf8(base, room) == whole[..room] && whole[..room] + tail == whole;
  }

  lemma {:induction false} SuffixIsTail(n: nat)
    requires n != 1 && |SuffixText(n)| <= 63
    ensures Tail(SuffixText(n))
  {
    DecimalDigits(n);
    forall i | 0 <= i < |SuffixText(n)| ensures SuffixText(n)[i] < 58 {
      if 2 <= i < |SuffixText(n)| - 1 { assert SuffixText(n)[i] == Decimal(n)[i - 2]; }
    }
  }

  /** The label for number `n` of a name. */
  function NumberedLabel(base: seq<byte>, n: nat): seq<byte> {
    FitUtf8(base, if |SuffixText(n)| <= 63 then 63 - |SuffixText(n)| else 0) + SuffixText(n)
  }

  /** Cutting to 63 bytes alone and cutting to make room for a number give the same label only if the number
      is what is cut off. */
  lemma {:induction false} PlainMeetsNumbered(base: seq<byte>, n: nat)
    requires n != 1
    ensures var whole, tail := FitUtf8(base, 63), SuffixText(n);
      SameLabel(NumberedLabel(base, 1), NumberedLabel(base, n)) <==>
      |tail| <= 63 && |whole| == 63 && whole[63 - |tail|..] == tail
  {
    var whole, tail := FitUtf8(base, 63), SuffixText(n);
    assert NumberedLabel(base, 1) == whole by { assert whole + [] == whole; }
    if |tail| <= 63 {
      SuffixIsTail(n);
      if SameLabel(whole, NumberedLabel(base, n)) { EndsThen(base, tail); }
      if |whole| == 63 && whole[63 - |tail|..] == tail { ThenEnds(base, tail); }
    }
  }

  lemma {:induction false} NumberedDiffer(base: seq<byte>, m: nat, n: nat)
    requires m != 1 && n != 1 && SameLabel(NumberedLabel(base, m), NumberedLabel(base, n))
    ensures m == n
  {
    var x := FitUtf8(base, if |SuffixText(m)| <= 63 then 63 - |SuffixText(m)| else 0);
    var y := FitUtf8(base, if |SuffixText(n)| <= 63 then 63 - |SuffixText(n)| else 0);
    if |SuffixText(m)| <= |SuffixText(n)| { TailsDiffer(x, y, m, n); } else { TailsDiffer(y, x, n, m); }
  }

  lemma {:induction false} NumberedIs(s: Service, n: nat)
    ensures Numbered(s, n) == [NumberedLabel(if s.baseName == [] then AIRSHOW else s.baseName, n)] + TypeName(s)
  {
  }

  /** Two numbers of one service make the same name exactly if one of them is 1, that is no number, and the
      name already fills its label and ends in the other. */
  lemma {:induction false} InstanceNamesDiffer(s: Service, m: nat, n: nat)
    requires m <= n && m > 0
    ensures SameName(Numbered(s, m), Numbered(s, n)) <==> m == n || (m == 1 && EndsInNumber(s, n))
  {
    var base := if s.baseName == [] then AIRSHOW else s.baseName;
    NumberedIs(s, m);
    NumberedIs(s, n);
    FirstLabelDecides(NumberedLabel(base, m), NumberedLabel(base, n), TypeName(s));
    if m == n {
    } else if m == 1 {
      PlainMeetsNumbered(base, n);
    } else if SameLabel(NumberedLabel(base, m), NumberedLabel(base, n)) {
      NumberedDiffer(base, m, n);
    }
  }

  // ---- One response ----------------------------------------------------------------------------

  /** Somebody else answers for our host name, with an address that is not ours. */
  ghost predicate TakesHostName(st: Responder, m: Message) {
    exists r :: r in m.answers + m.additionals && r.ttl != 0 && r.rtype == 1 && SameName(r.name, HostFqdn(st)) &&
      !exists x :: x in AllAddresses(st.ifaces) && r.rdata == Put32(x)
  }

  /** The record puts the service where we have it. */
  predicate SaysWhere(st: Responder, s: Service, r: Record) {
    r.rrclass == 1 && r.priority == 0 && r.weight == 0 && r.port == s.port && SameName(Norm(r.target), Norm(HostFqdn(st)))
  }

  predicate SaysWhat(s: Service, r: Record) { r.rrclass == 1 && r.rdata == TxtOf(s).rdata }

  /** Somebody else answers for the instance name, with other data. */
  ghost predicate TakesInstanceName(st: Responder, s: Service, m: Message) {
    exists r :: r in m.answers + m.additionals && r.ttl != 0 && SameName(r.name, InstanceName(s)) &&
      ((r.rtype == 33 && !SaysWhere(st, s, r)) || (r.rtype == 16 && !SaysWhat(s, r)))
  }

  /** Probing begins anew, without delay. */
  predicate StartsOver(before: Group, after: Group, now: int) { after == Group(0, false, now, before.generation + 1) }

  lemma {:induction false} OwnAddress(st: Responder, r: Record)
    ensures OwnARecord(st, r) <==> exists x :: x in AllAddresses(st.ifaces) && r.rdata == Put32(x)
  {
    if |r.rdata| == 4 { assert r.rdata == Put32(Be32(r.rdata, 0)); }
    if x: uint32 :| x in AllAddresses(st.ifaces) && r.rdata == Put32(x) { ReadBack32(r.rdata, 0, x); }
  }

  lemma {:induction false} SameSrv(st: Responder, s: Service, r: Record)
    requires r.rtype == SRV && SameName(r.name, InstanceName(s))
    ensures SameAs(r, SrvOf(st, s)) <==> SaysWhere(st, s, r)
  {
    SameSrvRdata(r, SrvOf(st, s));
  }

  /** A host name that turns out to be taken is given up while it is only being claimed, and kept, but claimed
      anew, if it was established; nothing else in a response touches it. */
  lemma {:induction false} TakenHostName(st: Responder, m: Message, now: int)
    ensures var t := AfterResponse(st, m, now);
      if TakesHostName(st, m) then
        StartsOver(st.host, t.host, now) && t.timerActive &&
        if st.host.announced then HostFqdn(t) == HostFqdn(st) else !SameName(HostFqdn(t), HostFqdn(st))
      else t.host == st.host && HostFqdn(t) == HostFqdn(st)
  {
    forall r: Record ensures OwnARecord(st, r) <==> exists x :: x in AllAddresses(st.ifaces) && r.rdata == Put32(x) {
      OwnAddress(st, r);
    }
    assert TakesHostName(st, m) <==> HostClashes(st, m);
    HostNamesDiffer(st.hostLabel, st.hostSuffix + 1, st.hostSuffix);
  }

  lemma {:induction false} TakesIsClash(st: Responder, s: Service, m: Message)
    ensures TakesInstanceName(st, s, m) <==> ServiceClashes(st, s, m)
  {
    forall r: Record | r.rtype == SRV && SameName(r.name, InstanceName(s))
      ensures SameAs(r, SrvOf(st, s)) <==> SaysWhere(st, s, r)
    {
      SameSrv(st, s, r);
    }
  }

  /** The same for an instance name, with one exception: a name that fills its label and ends in " (2)" is
      the very name it is to be replaced by. */
  lemma {:induction false} TakenInstanceName(st: Responder, m: Message, now: int, i: nat)
    requires i < |st.services| && st.services[i].suffix > 0
    ensures var s, t := st.services[i], AfterResponse(st, m, now);
      |t.services| == |st.services| &&
      if TakesInstanceName(st, s, m) then
        var u := t.services[i];
        u == s.(group := u.group, suffix := u.suffix) && StartsOver(s.group, u.group, now) && t.timerActive &&
        if s.group.announced then InstanceName(u) == InstanceName(s)
        else SameName(InstanceName(u), InstanceName(s)) <==> s.suffix == 1 && EndsInNumber(s, 2)
      else t.services[i] == s
  {
    var s := st.services[i];
    TakesIsClash(st, s, m);
    MapServicesAt(x => ReactToClash(st, x, m, now), st.services);
    assert s.(suffix := s.suffix) == s;
    InstanceNamesDiffer(s, s.suffix, s.suffix + 1);
  }

  // ---- Whole runs ------------------------------------------------------------------------------

  lemma {:induction false} HostNumberGrows(r: Run, steps: seq<Timed>)
    requires Possible(r, steps)
    ensures Play(r, steps).st.hostLabel == r.st.hostLabel && Play(r, steps).st.hostSuffix >= r.st.hostSuffix
    decreases |steps|
  {
    if steps != [] { HostNumberGrows(Act(r, steps[0].action, steps[0].at), steps[1..]); }
  }

  lemma {:induction false} PlayJoin(r: Run, a: seq<Timed>, b: seq<Timed>)
    requires Possible(r, a + b)
    ensures Possible(r, a) && Possible(Play(r, a), b) && Play(r, a + b) == Play(Play(r, a), b)
    decreases |a|
  {
    if a == [] {
      assert a + b == b;
    } else {
      assert (a + b)[0] == a[0] && (a + b)[1..] == a[1..] + b;
      PlayJoin(Act(r, a[0].action, a[0].at), a[1..], b);
    }
  }

  /** A host name once left is never taken again: between two moments with one name it has not changed. */
  lemma {:induction false} HostNameNeverReturns(r: Run, a: seq<Timed>, b: seq<Timed>)
    requires Possible(r, a + b) && SameName(HostFqdn(Play(r, a + b).st), HostFqdn(r.st))
    ensures Possible(r, a) && HostFqdn(Play(r, a).st) == HostFqdn(r.st)
  {
    PlayJoin(r, a, b);
    HostNumberGrows(r, a);
    HostNumberGrows(Play(r, a), b);
    HostNamesDiffer(r.st.hostLabel, Play(r, a + b).st.hostSuffix, r.st.hostSuffix);
  }

  /** Nobody renames or withdraws the service at `i`. */
  predicate LeftAlone(steps: seq<Timed>, i: nat) {
    forall k :: 0 <= k < |steps| ==>
      !steps[k].action.DoShutdown? && (steps[k].action.DoRename? ==> steps[k].action.index != i)
  }

  lemma {:induction false} ActNumberGrows(r: Run, a: Action, now: int, i: nat)
    requires Enabled(r.st, a) && i < |r.st.services| && LeftAlone([Timed(a, now)], i)
    ensures var t := Act(r, a, now).st;
      i < |t.services| && t.services[i].suffix >= r.st.services[i].suffix &&
      t.services[i].baseName == r.st.services[i].baseName && t.services[i].stype == r.st.services[i].stype
  {
    assert [Timed(a, now)][0].action == a;
    if a.DoTick? { MapServicesAt(s => TickService(s, now, TickGroup(r.st.host, now, true).announced), r.st.services); }
  }

  lemma {:induction false} NumberGrows(r: Run, steps: seq<Timed>, i: nat)
    requires Possible(r, steps) && i < |r.st.services| && LeftAlone(steps, i)
    ensures var t := Play(r, steps).st;
      i < |t.services| && t.services[i].suffix >= r.st.services[i].suffix &&
      t.services[i].baseName == r.st.services[i].baseName && t.services[i].stype == r.st.services[i].stype
    decreases |steps|
  {
    if steps != [] {
      assert LeftAlone([steps[0]], i) && LeftAlone(steps[1..], i);
      ActNumberGrows(r, steps[0].action, steps[0].at, i);
      NumberGrows(Act(r, steps[0].action, steps[0].at), steps[1..], i);
    }
  }

  /** `n` conflicts in a row. */
  function Conflicts(n: nat, i: nat, now: int): (steps: seq<Timed>)
    ensures |steps| == n
  {
    seq(n, k => Timed(DoServiceConflict(i), now))
  }

  lemma {:induction false} ConflictsCount(r: Run, n: nat, i: nat, now: int)
    requires i < |r.st.services| && !r.st.services[i].group.announced
    ensures Possible(r, Conflicts(n, i, now)) && LeftAlone(Conflicts(n, i, now), i)
    ensures var t := Play(r, Conflicts(n, i, now)).st;
      i < |t.services| && t.services[i].suffix == r.st.services[i].suffix + n &&
      t.services[i].baseName == r.st.services[i].baseName && t.services[i].stype == r.st.services[i].stype
    decreases n
  {
    if n > 0 {
      assert Conflicts(n, i, now)[1..] == Conflicts(n - 1, i, now);
      ConflictsCount(Act(r, DoServiceConflict(i), now), n - 1, i, now);
    }
  }

  /** The service has gone through other numbers and come back to the name it had. */
  ghost predicate ComesBack(r: Run, steps: seq<Timed>, i: nat)
    requires i < |r.st.services|
  {
    Possible(r, steps) && LeftAlone(steps, i) &&
    var t := Play(r, steps).st;
    i < |t.services| && t.services[i].suffix > r.st.services[i].suffix &&
    SameName(InstanceName(t.services[i]), InstanceName(r.st.services[i]))
  }

  /** A service that is still claiming its name can come back to that name after giving it up exactly if the
      name has no number, fills its label and ends in one. */
  lemma {:induction false} InstanceNameReturnsExactly(r: Run, i: nat)
    requires i < |r.st.services| && r.st.services[i].suffix > 0 && !r.st.services[i].group.announced
    ensures var s := r.st.services[i];
      (exists steps :: ComesBack(r, steps, i)) <==> s.suffix == 1 && exists n: nat :: n > 1 && EndsInNumber(s, n)
  {
    var s := r.st.services[i];
    assert s.(suffix := s.suffix) == s;
    if steps: seq<Timed> :| ComesBack(r, steps, i) {
      NumberGrows(r, steps, i);
      var u := Play(r, steps).st.services[i];
      assert InstanceName(u) == Numbered(s, u.suffix);
      InstanceNamesDiffer(s, s.suffix, u.suffix);
    }
    if n: nat :| n > 1 && EndsInNumber(s, n) && s.suffix == 1 {
      var steps := Conflicts(n - 1, i, 0);
      ConflictsCount(r, n - 1, i, 0);
      var u := Play(r, steps).st.services[i];
      assert InstanceName(u) == Numbered(s, n);
      InstanceNamesDiffer(s, 1, n);
      assert ComesBack(r, steps, i);
    }
  }

  /** Such a name: 59 letters and " (2)". A conflict while it is being claimed leads to the same name. */
  lemma {:induction false} ConflictKeepsTakenName(s: Service)
    requires s.suffix == 1 && s.baseName == seq(59, k => 65) + [32, 40, 50, 41] && !s.group.announced
    ensures SameName(InstanceName(ServiceConflict(s, 0)), InstanceName(s))
  {
    assert s.(suffix := 1) == s;
    assert s.baseName[59..] == [32, 40, 50, 41] && [32, 40] + Decimal(2) + [41] == [32, 40, 50, 41];
    InstanceNamesDiffer(s, 1, 2);
  }
}
