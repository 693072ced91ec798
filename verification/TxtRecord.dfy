/** The DNS-SD TXT record of the AirPlay side: length-prefixed entries edited in place, as a map from
    keys to values. */
module TxtRecord {
  import opened Bytes

  const MAX_TXT := 1024
  const EQUALS: byte := 61

  type Bytestring = seq<byte>

  // ---- Entries ---------------------------------------------------------------------------------

  predicate EntriesOk(es: seq<Bytestring>) { forall i :: 0 <= i < |es| ==> |es[i]| <= 255 }

  function Encode(es: seq<Bytestring>): Bytestring
    requires EntriesOk(es)
  {
    if es == [] then [] else [|es[0]|] + es[0] + Encode(es[1..])
  }

  function Entry(key: Bytestring, value: Bytestring): Bytestring { key + [EQUALS] + value }

  /** The entry is for `key`: either the bare key or key=... */
  predicate Matches(e: Bytestring, key: Bytestring) {
    |e| >= |key| && (forall i :: 0 <= i < |key| ==> e[i] == key[i]) && (|e| == |key| || e[|key|] == EQUALS)
  }

  /** An entry is for the key exactly if it is the key alone or the key, '=' and something. */
  lemma {:induction false} MatchesExactly(e: Bytestring, key: Bytestring)
    ensures Matches(e, key) <==> e == key || exists value :: e == key + [61] + value
  {
    if Matches(e, key) && |e| > |key| {
      assert e == key + [61] + e[|key| + 1..];
    } else if Matches(e, key) {
      assert e == key;
    }
  }

  function Without(es: seq<Bytestring>, key: Bytestring): (r: seq<Bytestring>)
    ensures EntriesOk(es) ==> EntriesOk(r)
  {
    if es == [] then [] else (if Matches(es[0], key) then [] else [es[0]]) + Without(es[1..], key)
  }

  /** There is room for the entry once the key's old entries are gone. */
  predicate Fits(es: seq<Bytestring>, key: Bytestring, value: Bytestring)
    requires EntriesOk(es)
  {
    |Entry(key, value)| <= 255 && |Encode(Without(es, key))| + 1 + |Entry(key, value)| <= MAX_TXT
  }

  function SetEntry(es: seq<Bytestring>, key: Bytestring, value: Bytestring): (r: seq<Bytestring>)
    requires EntriesOk(es)
    ensures EntriesOk(r)
  {
    if Fits(es, key, value) then Without(es, key) + [Entry(key, value)] else Without(es, key)
  }

  lemma {:induction false} EncodeJoin(a: seq<Bytestring>, b: seq<Bytestring>)
    requires EntriesOk(a) && EntriesOk(b)
    ensures EntriesOk(a + b) && Encode(a + b) == Encode(a) + Encode(b)
  {
    if a == [] {
      assert a + b == b;
    } else {
      assert (a + b)[0] == a[0] && (a + b)[1..] == a[1..] + b;
      EncodeJoin(a[1..], b);
    }
  }

  lemma {:induction false} WithoutJoin(a: seq<Bytestring>, b: seq<Bytestring>, key: Bytestring)
    ensures Without(a + b, key) == Without(a, key) + Without(b, key)
  {
    if a == [] {
      assert a + b == b;
    } else {
      assert (a + b)[0] == a[0] && (a + b)[1..] == a[1..] + b;
      WithoutJoin(a[1..], b, key);
    }
  }

  lemma {:induction false} SliceOfSlice(s: Bytestring, a: nat, b: nat, i: nat, j: nat)
    requires a <= b <= |s| && i <= j <= b - a
    ensures s[a..b][i..j] == s[a + i..a + j]
  {
    forall k | 0 <= k < j - i ensures s[a..b][i..j][k] == s[a + i..a + j][k] {}
  }

  // ---- The buffer ------------------------------------------------------------------------------

  class Buffer {
    const data: array<byte>
    var len: nat
    ghost var entries: seq<Bytestring>

    ghost predicate Valid()
      reads this, data
    {
      data.Length == MAX_TXT && len <= MAX_TXT && EntriesOk(entries) && data[..len] == Encode(entries)
    }

    constructor ()
      ensures Valid() && fresh(data) && entries == []
    {
      data := new byte[MAX_TXT];
      len, entries := 0, [];
    }

    /** memmove towards the front, byte by byte. */
    method MoveDown(dst: nat, src: nat, count: nat)
      requires dst <= src && src + count <= data.Length
      modifies data
      ensures data[..dst] == old(data[..dst]) && data[dst..dst + count] == old(data[src..src + count])
    {
      var i := 0;
      while i < count
        invariant i <= count
        invariant forall k :: 0 <= k < dst ==> data[k] == old(data[k])
        invariant forall k :: dst <= k < dst + i ==> data[k] == old(data[k - dst + src])
        invariant forall k :: src + i <= k < data.Length ==> data[k] == old(data[k])
      {
        data[dst + i] := data[src + i];
        i := i + 1;
      }
    }

    method KeyAt(pos: nat, key: Bytestring) returns (found: bool)
      requires pos < data.Length && pos + 1 + data[pos] <= data.Length
      ensures found == Matches(data[pos + 1..pos + 1 + data[pos]], key)
    {
      var n := data[pos];
      if n < |key| { return false; }
      var i := 0;
      while i < |key|
        invariant i <= |key| && forall k :: 0 <= k < i ==> data[pos + 1 + k] == key[k]
      {
        if data[pos + 1 + i] != key[i] { return false; }
        i := i + 1;
      }
      return n == |key| || data[pos + 1 + |key|] == EQUALS;
    }

    /** The bytes before `pos` hold `before`, those after it `rest`. */
    ghost predicate Split(pos: nat, before: seq<Bytestring>, rest: seq<Bytestring>)
      reads this, data
    {
      data.Length == MAX_TXT && pos <= len <= MAX_TXT && EntriesOk(before) && EntriesOk(rest) &&
      data[..pos] == Encode(before) && data[pos..len] == Encode(rest)
    }

    lemma {:induction false} Head(pos: nat, before: seq<Bytestring>, rest: seq<Bytestring>)
      requires Split(pos, before, rest) && pos < len
      ensures rest != [] && data[pos] == |rest[0]| && pos + 1 + |rest[0]| <= len
      ensures data[pos + 1..pos + 1 + |rest[0]|] == rest[0] && data[pos + 1 + |rest[0]|..len] == Encode(rest[1..])
    {
      var all, d := data[..], data[pos..len];
      assert d == all[pos..len];
      HeadAt(d, rest);
      var n := |rest[0]|;
      SliceOfSlice(all, pos, len, 1, 1 + n);
      SliceOfSlice(all, pos, len, 1 + n, |d|);
      assert data[pos] == d[0];
      assert data[pos + 1..pos + 1 + n] == all[pos + 1..pos + 1 + n];
      assert data[pos + 1 + n..len] == all[pos + 1 + n..len];
    }

    /** Cuts out the entry that starts at `pos`. */
    method Cut(pos: nat, ghost before: seq<Bytestring>, ghost rest: seq<Bytestring>)
      requires Split(pos, before, rest) && pos < len && rest != []
      modifies this`len, data
      ensures len < old(len) && Split(pos, before, rest[1..])
    {
      Head(pos, before, rest);
      var n: nat := data[pos];
      MoveDown(pos, pos + 1 + n, len - pos - 1 - n);
      len := len - (1 + n);
    }

    /** Where the entry after the one at `pos` starts. */
    method SkipEntry(pos: nat, ghost before: seq<Bytestring>, ghost rest: seq<Bytestring>) returns (next: nat)
      requires Split(pos, before, rest) && pos < len && rest != []
      ensures pos < next <= len && Split(next, before + [rest[0]], rest[1..])
    {
      Head(pos, before, rest);
      next := pos + 1 + data[pos];
      EncodeJoin(before, [rest[0]]);
      assert Encode([rest[0]]) == [|rest[0]|] + rest[0] + [];
      assert data[..next] == data[..pos] + ([data[pos]] + data[pos + 1..next]);
    }

    /** One turn of the removal loop: the entry at `pos` goes or stays. */
    method RemoveAt(pos: nat, key: Bytestring, ghost before: seq<Bytestring>, ghost rest: seq<Bytestring>)
      returns (next: nat, ghost kept: seq<Bytestring>)
      requires Split(pos, before, rest) && pos < len
      modifies this`len, data
      ensures rest != [] && Split(next, kept, rest[1..]) && len - next < old(len) - pos
      ensures kept == before + if Matches(rest[0], key) then [] else [rest[0]]
    {
      Head(pos, before, rest);
      var found := KeyAt(pos, key);
      next, kept := pos, before;
      if found {
        Cut(pos, before, rest);
      } else {
        next := SkipEntry(pos, before, rest);
        kept := before + [rest[0]];
      }
    }

    /** Removes every entry for `key`. */
    method Remove(key: Bytestring)
      requires Valid()
      modifies this`len, this`entries, data
      ensures Valid() && entries == Without(old(entries), key)
    {
      var pos: nat := 0;
      ghost var before, rest := [], entries;
      while pos < len
        invariant Split(pos, before, rest)
        invariant before + Without(rest, key) == Without(old(entries), key)
        decreases len - pos
      {
        ghost var kept;
        pos, kept := RemoveAt(pos, key, before, rest);
        Regroup(before, if Matches(rest[0], key) then [] else [rest[0]], Without(rest[1..], key));
        before, rest := kept, rest[1..];
      }
      EmptyRest(data[pos..len], rest);
      assert before + [] == before;
      entries := before;
    }

    method Append(e: Bytestring)
      requires Valid() && |e| <= 255 && len + 1 + |e| <= MAX_TXT
      modifies this`len, this`entries, data
      ensures Valid() && entries == old(entries) + [e]
    {
      ghost var start := data[..len];
      data[len] := |e|;
      len := len + 1;
      var i := 0;
      while i < |e|
        invariant i <= |e| && len + |e| <= MAX_TXT && len == old(len) + 1 && entries == old(entries)
        invariant data[..old(len)] == start && data[old(len)] == |e|
        invariant forall k :: 0 <= k < i ==> data[len + k] == e[k]
      {
        data[len + i] := e[i];
        i := i + 1;
      }
      EncodeJoin(entries, [e]);
      assert Encode([e]) == [|e|] + e + [];
      len := len + |e|;
      entries := entries + [e];
      assert data[..len] == start + ([|e|] + e);
    }

    /** txt_set. */
    method Set(key: Bytestring, value: Bytestring)
      requires Valid()
      modifies this`len, this`entries, data
      ensures Valid() && entries == SetEntry(old(entries), key, value)
    {
      Remove(key);
      assert len == |data[..len]|;
      if |Entry(key, value)| > 255 || len + 1 + |Entry(key, value)| > MAX_TXT { return; }
      Append(Entry(key, value));
    }
  }

  lemma {:induction false} HeadAt(d: Bytestring, es: seq<Bytestring>)
    requires EntriesOk(es) && d == Encode(es)
    ensures if es == [] then d == []
            else |d| >= 1 + |es[0]| && d[0] == |es[0]| && d[1..1 + |es[0]|] == es[0] && d[1 + |es[0]|..] == Encode(es[1..])
  {
  }

  lemma {:induction false} EmptyRest(d: Bytestring, es: seq<Bytestring>)
    requires EntriesOk(es) && d == Encode(es) && d == []
    ensures es == []
  {
  }

  // ---- As a map --------------------------------------------------------------------------------

  /** What a reader finds under a key: the first entry for it. */
  function Lookup(es: seq<Bytestring>, key: Bytestring): Option<Bytestring> {
    if es == [] then None else if Matches(es[0], key) then Some(es[0]) else Lookup(es[1..], key)
  }

  function Occurrences(es: seq<Bytestring>, key: Bytestring): nat {
    if es == [] then 0 else (if Matches(es[0], key) then 1 else 0) + Occurrences(es[1..], key)
  }

  predicate PlainKey(key: Bytestring) { forall i :: 0 <= i < |key| ==> key[i] != EQUALS }

  lemma {:induction false} KeyByte(e: Bytestring, a: Bytestring, b: Bytestring)
    requires Matches(e, a) && Matches(e, b) && |a| < |b|
    ensures b[|a|] == EQUALS
  {
  }

  lemma {:induction false} OneKey(e: Bytestring, a: Bytestring, b: Bytestring)
    requires PlainKey(a) && PlainKey(b) && Matches(e, a) && Matches(e, b)
    ensures a == b
  {
    if |a| < |b| { KeyByte(e, a, b); }
    if |b| < |a| { KeyByte(e, b, a); }
  }

  lemma {:induction false} EntryMatches(key: Bytestring, value: Bytestring)
    ensures Matches(Entry(key, value), key)
  {
  }

  lemma {:induction false} AfterRemoval(es: seq<Bytestring>, key: Bytestring, other: Bytestring)
    requires PlainKey(key) && PlainKey(other)
    ensures var kept := Without(es, key);
      Lookup(kept, other) == (if key == other then None else Lookup(es, other)) &&
      Occurrences(kept, other) == (if key == other then 0 else Occurrences(es, other))
  {
    if es != [] {
      AfterRemoval(es[1..], key, other);
      var rest := Without(es[1..], key);
      if Matches(es[0], key) {
        if Matches(es[0], other) { OneKey(es[0], key, other); }
        assert [] + rest == rest;
      } else {
        assert ([es[0]] + rest)[1..] == rest;
      }
    }
  }

  lemma {:induction false} AfterAppend(es: seq<Bytestring>, e: Bytestring, key: Bytestring)
    ensures Occurrences(es + [e], key) == Occurrences(es, key) + if Matches(e, key) then 1 else 0
    ensures Lookup(es + [e], key) == if Lookup(es, key).Some? then Lookup(es, key) else if Matches(e, key) then Some(e) else None
  {
    if es == [] {
      assert es + [e] == [e];
    } else {
      assert (es + [e])[0] == es[0] && (es + [e])[1..] == es[1..] + [e];
      AfterAppend(es[1..], e, key);
    }
  }

  /** One call: the key's entry is the new value if it fits and is gone otherwise; no other key is
      touched; the key occurs at most once. */
  lemma {:induction false} SetIsUpdate(es: seq<Bytestring>, key: Bytestring, value: Bytestring, other: Bytestring)
    requires EntriesOk(es) && PlainKey(key) && PlainKey(other)
    ensures var after := SetEntry(es, key, value);
      Lookup(after, other) ==
        (if other != key then Lookup(es, other) else if Fits(es, key, value) then Some(Entry(key, value)) else None) &&
      Occurrences(after, other) == (if other != key then Occurrences(es, other) else if Fits(es, key, value) then 1 else 0)
  {
    AfterRemoval(es, key, other);
    AfterAppend(Without(es, key), Entry(key, value), other);
    EntryMatches(key, value);
    if other != key && Matches(Entry(key, value), other) { OneKey(Entry(key, value), key, other); }
  }

  /** The key is found afterwards exactly if its entry is at most 255 bytes and all entries, lengths included,
      at most 1024. */
  lemma {:induction false} SetFitsExactly(es: seq<Bytestring>, key: Bytestring, value: Bytestring)
    requires EntriesOk(es) && PlainKey(key)
    ensures Lookup(SetEntry(es, key, value), key).Some? <==>
            |key| + 1 + |value| <= 255 && |Encode(Without(es, key))| + |key| + |value| + 2 <= 1024
  {
    SetIsUpdate(es, key, value, key);
  }

  lemma {:induction false} OneString(e: Bytestring, rest: Bytestring, es: seq<Bytestring>)
    requires |e| <= 255 && ReadStrings(rest) == Some(es)
    ensures ReadStrings([|e|] + e + rest) == Some([e] + es)
  {
    var d := [|e|] + e + rest;
    assert d[0] as int == |e| && d[1..1 + |e|] == e && d[1 + |e|..] == rest;
  }

  /** On the wire each entry has its length in front. */
  lemma {:induction false} EntriesOnWire(es: seq<Bytestring>)
    requires EntriesOk(es)
    ensures ReadStrings(Encode(es)) == Some(es)
  {
    if es != [] {
      EntriesOnWire(es[1..]);
      OneString(es[0], Encode(es[1..]), es[1..]);
      assert [es[0]] + es[1..] == es;
    }
  }

  /** The order of what stays is the order it had, and new values go to the end. */
  lemma {:induction false} SetKeepsOrder(es: seq<Bytestring>, key: Bytestring, value: Bytestring)
    requires EntriesOk(es)
    ensures var after := SetEntry(es, key, value);
      Without(after, key) == Without(es, key) && (Fits(es, key, value) ==> after == Without(es, key) + [Entry(key, value)])
  {
    WithoutTwice(es, key);
    EntryMatches(key, value);
    WithoutJoin(Without(es, key), [Entry(key, value)], key);
    assert Without([Entry(key, value)], key) == [];
  }

  lemma {:induction false} WithoutTwice(es: seq<Bytestring>, key: Bytestring)
    ensures Without(Without(es, key), key) == Without(es, key)
  {
    if es != [] {
      WithoutTwice(es[1..], key);
      var rest := Without(es[1..], key);
      if Matches(es[0], key) {
        assert [] + rest == rest;
      } else {
        assert ([es[0]] + rest)[1..] == rest;
      }
    }
  }

  // ---- Sequences of calls ----------------------------------------------------------------------

  datatype Call = Call(key: Bytestring, value: Bytestring)

  predicate PlainCalls(cs: seq<Call>) { forall i :: 0 <= i < |cs| ==> PlainKey(cs[i].key) }

  function SetAll(es: seq<Bytestring>, cs: seq<Call>): (r: seq<Bytestring>)
    requires EntriesOk(es)
    ensures EntriesOk(r)
    decreases |cs|
  {
    if cs == [] then es
    else
      var last := cs[|cs| - 1];
      SetEntry(SetAll(es, cs[..|cs| - 1]), last.key, last.value)
  }

  predicate LastFits(es: seq<Bytestring>, cs: seq<Call>)
    requires EntriesOk(es) && cs != []
  {
    Fits(SetAll(es, cs[..|cs| - 1]), cs[|cs| - 1].key, cs[|cs| - 1].value)
  }

  /** The entry of the last call for the key that fitted, or what was there to begin with. */
  function LastFitted(es: seq<Bytestring>, cs: seq<Call>, key: Bytestring): Option<Bytestring>
    requires EntriesOk(es)
    decreases |cs|
  {
    if cs == [] then Lookup(es, key)
    else if cs[|cs| - 1].key == key && LastFits(es, cs) then Some(Entry(key, cs[|cs| - 1].value))
    else LastFitted(es, cs[..|cs| - 1], key)
  }

  /** Whatever is set, no key ever occurs twice. */
  lemma {:induction false} NoDuplicates(es: seq<Bytestring>, cs: seq<Call>, key: Bytestring)
    requires EntriesOk(es) && PlainCalls(cs) && PlainKey(key) && Occurrences(es, key) <= 1
    ensures Occurrences(SetAll(es, cs), key) <= 1
    decreases |cs|
  {
    if cs != [] {
      var last := cs[|cs| - 1];
      NoDuplicates(es, cs[..|cs| - 1], key);
      SetIsUpdate(SetAll(es, cs[..|cs| - 1]), last.key, last.value, key);
    }
  }

  /** The last value that fitted is what a reader finds, for every key and after every call. */
  predicate KeepsLastFitted(es: seq<Bytestring>, cs: seq<Call>, key: Bytestring)
    requires EntriesOk(es)
  {
    forall n :: 0 <= n <= |cs| ==> Lookup(SetAll(es, cs[..n]), key) == LastFitted(es, cs[..n], key)
  }

  /** No call for the key that does not fit comes while the key has an entry. */
  predicate NothingLost(es: seq<Bytestring>, cs: seq<Call>, key: Bytestring)
    requires EntriesOk(es)
  {
    forall n :: 0 < n <= |cs| && cs[n - 1].key == key ==>
      LastFits(es, cs[..n]) || Lookup(SetAll(es, cs[..n - 1]), key) == None
  }

  lemma {:induction false} OneMore(es: seq<Bytestring>, cs: seq<Call>, key: Bytestring)
    requires EntriesOk(es) && PlainCalls(cs) && PlainKey(key) && cs != []
    requires Lookup(SetAll(es, cs[..|cs| - 1]), key) == LastFitted(es, cs[..|cs| - 1], key)
    ensures Lookup(SetAll(es, cs), key) == LastFitted(es, cs, key) <==>
      (cs[|cs| - 1].key == key ==> LastFits(es, cs) || Lookup(SetAll(es, cs[..|cs| - 1]), key) == None)
  {
    var last := cs[|cs| - 1];
    SetIsUpdate(SetAll(es, cs[..|cs| - 1]), last.key, last.value, key);
  }

  lemma {:induction false} KeepsUpTo(es: seq<Bytestring>, cs: seq<Call>, key: Bytestring, n: nat)
    requires EntriesOk(es) && PlainCalls(cs) && PlainKey(key) && NothingLost(es, cs, key) && n <= |cs|
    ensures Lookup(SetAll(es, cs[..n]), key) == LastFitted(es, cs[..n], key)
  {
    if n > 0 {
      KeepsUpTo(es, cs, key, n - 1);
      assert cs[..n][..n - 1] == cs[..n - 1];
      OneMore(es, cs[..n], key);
    }
  }

  /** A set that does not fit still removes the old value, so a reader always finds the last value
      that fitted if and only if no such set meets a present key. */
  lemma {:induction false} KeepsLastFittedExactly(es: seq<Bytestring>, cs: seq<Call>, key: Bytestring)
    requires EntriesOk(es) && PlainCalls(cs) && PlainKey(key)
    ensures KeepsLastFitted(es, cs, key) <==> NothingLost(es, cs, key)
  {
    if NothingLost(es, cs, key) {
      forall n | 0 <= n <= |cs| ensures Lookup(SetAll(es, cs[..n]), key) == LastFitted(es, cs[..n], key) {
        KeepsUpTo(es, cs, key, n);
      }
    }
    if KeepsLastFitted(es, cs, key) {
      forall n | 0 < n <= |cs| && cs[n - 1].key == key
        ensures LastFits(es, cs[..n]) || Lookup(SetAll(es, cs[..n - 1]), key) == None
      {
        assert cs[..n][..n - 1] == cs[..n - 1];
        OneMore(es, cs[..n], key);
      }
    }
  }

  /** A value that was there and is lost. */
  lemma {:induction false} ValueLost(long: Bytestring)
    requires |long| == 255
    ensures var cs := [Call([112], [49]), Call([112], long)];
      Lookup(SetAll([], cs), [112]) == None && LastFitted([], cs, [112]) == Some([112, 61, 49])
  {
    var cs := [Call([112], [49]), Call([112], long)];
    assert cs[..1] == [Call([112], [49])] && cs[..1][..0] == [];
    assert SetAll([], cs[..0]) == [];
    assert SetAll([], cs[..1]) == SetEntry([], [112], [49]);
    assert SetAll([], cs) == SetEntry(SetAll([], cs[..1]), [112], long);
    assert Fits([], [112], [49]) && Entry([112], [49]) == [112, 61, 49];
    SetIsUpdate([], [112], [49], [112]);
    SetIsUpdate(SetAll([], cs[..1]), [112], long, [112]);
    assert LastFitted([], cs, [112]) == LastFitted([], cs[..1], [112]);
  }

  // ---- The RAOP record -------------------------------------------------------------------------

  function TotalSize(cs: seq<Call>): nat { if cs == [] then 0 else |cs[0].key| + |cs[0].value| + 2 + TotalSize(cs[1..]) }

  predicate AllSmall(cs: seq<Call>) { forall i :: 0 <= i < |cs| ==> |Entry(cs[i].key, cs[i].value)| <= 255 }

  lemma {:induction false} TotalSplit(cs: seq<Call>, more: seq<Call>)
    ensures TotalSize(cs + more) == TotalSize(cs) + TotalSize(more)
  {
    if cs == [] {
      assert cs + more == more;
    } else {
      assert (cs + more)[0] == cs[0] && (cs + more)[1..] == cs[1..] + more;
      TotalSplit(cs[1..], more);
    }
  }

  lemma {:induction false} RemovalShrinks(es: seq<Bytestring>, key: Bytestring)
    requires EntriesOk(es)
    ensures |Encode(Without(es, key))| <= |Encode(es)|
  {
    if es != [] {
      RemovalShrinks(es[1..], key);
      var rest := Without(es[1..], key);
      if Matches(es[0], key) {
        assert [] + rest == rest;
      } else {
        assert ([es[0]] + rest)[1..] == rest;
      }
    }
  }

  lemma {:induction false} SizeBound(cs: seq<Call>)
    ensures |Encode(SetAll([], cs))| <= TotalSize(cs)
    decreases |cs|
  {
    if cs != [] {
      var before, last := cs[..|cs| - 1], cs[|cs| - 1];
      SizeBound(before);
      assert cs == before + [last];
      TotalSplit(before, [last]);
      var es := SetAll([], before);
      RemovalShrinks(es, last.key);
      if Fits(es, last.key, last.value) {
        EncodeJoin(Without(es, last.key), [Entry(last.key, last.value)]);
        assert |Encode([Entry(last.key, last.value)])| == 1 + |Entry(last.key, last.value)|;
      }
    }
  }

  /** The value of the last call for a key. */
  function LastValue(cs: seq<Call>, key: Bytestring): Option<Bytestring>
    decreases |cs|
  {
    if cs == [] then None
    else if cs[|cs| - 1].key == key then Some(cs[|cs| - 1].value)
    else LastValue(cs[..|cs| - 1], key)
  }

  /** When everything fits together the record holds each key's last value. */
  lemma {:induction false} RoomForAll(cs: seq<Call>, key: Bytestring)
    requires PlainCalls(cs) && PlainKey(key) && AllSmall(cs) && TotalSize(cs) <= MAX_TXT
    ensures var v := LastValue(cs, key);
      Lookup(SetAll([], cs), key) == if v.Some? then Some(Entry(key, v.value)) else None
    decreases |cs|
  {
    if cs != [] {
      var before, last := cs[..|cs| - 1], cs[|cs| - 1];
      assert cs == before + [last];
      TotalSplit(before, [last]);
      assert TotalSize([last]) == |last.key| + |last.value| + 2;
      RoomForAll(before, key);
      SizeBound(before);
      RemovalShrinks(SetAll([], before), last.key);
      SetIsUpdate(SetAll([], before), last.key, last.value, key);
    }
  }

  /** The values build_raop_txt writes that do not depend on the PIN setting, and its status flags. */
  datatype RaopValues = RaopValues(head: seq<Call>, middle: seq<Call>, sf: Bytestring, tail: seq<Call>)

  function Text(s: string): (b: Bytestring)
    requires forall i :: 0 <= i < |s| ==> s[i] as int < 0x100
    ensures |b| == |s|
  {
    seq(|s|, i requires 0 <= i < |s| => s[i] as int)
  }

  /** The status flags chosen for a PIN setting. */
  function Chosen(v: RaopValues, pinPw: byte): Bytestring {
    if pinPw == 2 || pinPw == 3 then Text("0x84") else if pinPw == 1 then Text("0x8c") else v.sf
  }

  /** The calls in order: the status flags are set for the PIN setting and again later. */
  function RaopCalls(v: RaopValues, pinPw: byte): seq<Call> {
    v.head + [Call(Text("pw"), if pinPw in {1, 2, 3} then Text("true") else Text("false")), Call(Text("sf"), Chosen(v, pinPw))] +
    v.middle + [Call(Text("sf"), v.sf)] + v.tail
  }

  predicate RaopFits(v: RaopValues, pinPw: byte) {
    var cs := RaopCalls(v, pinPw);
    PlainCalls(cs) && AllSmall(cs) && TotalSize(cs) <= MAX_TXT && LastValue(v.tail, Text("sf")) == None
  }

  lemma {:induction false} LastValueOfJoin(a: seq<Call>, b: seq<Call>, key: Bytestring)
    ensures LastValue(a + b, key) == if LastValue(b, key).Some? then LastValue(b, key) else LastValue(a, key)
    decreases |b|
  {
    if b == [] {
      assert a + b == a;
    } else {
      assert (a + b)[|a + b| - 1] == b[|b| - 1] && (a + b)[..|a + b| - 1] == a + b[..|b| - 1];
      LastValueOfJoin(a, b[..|b| - 1], key);
    }
  }

  /** The later call always wins: what is stored is the default, whatever was chosen. */
  lemma {:induction false} DefaultFlagsStored(v: RaopValues, pinPw: byte)
    requires RaopFits(v, pinPw)
    ensures Lookup(SetAll([], RaopCalls(v, pinPw)), Text("sf")) == Some(Entry(Text("sf"), v.sf))
  {
    var key, cs := Text("sf"), RaopCalls(v, pinPw);
    var before := cs[..|cs| - |v.tail| - 1];
    assert cs == before + [Call(key, v.sf)] + v.tail;
    LastValueOfJoin(before + [Call(key, v.sf)], v.tail, key);
    RoomForAll(cs, key);
  }

  lemma {:induction false} EntryValue(key: Bytestring, a: Bytestring, b: Bytestring)
    requires Entry(key, a) == Entry(key, b)
    ensures a == b
  {
    assert Entry(key, a)[|key| + 1..] == a && Entry(key, b)[|key| + 1..] == b;
  }

  /** The record carries the flags chosen for the PIN setting if and only if no PIN or password is set
      or the default happens to be those very flags. */
  lemma {:induction false} PinFlagsKeptExactly(v: RaopValues, pinPw: byte)
    requires RaopFits(v, pinPw)
    ensures Lookup(SetAll([], RaopCalls(v, pinPw)), Text("sf")) == Some(Entry(Text("sf"), Chosen(v, pinPw))) <==>
            pinPw !in {1, 2, 3} || v.sf == Text(if pinPw == 1 then "0x8c" else "0x84")
  {
    DefaultFlagsStored(v, pinPw);
    if Entry(Text("sf"), v.sf) == Entry(Text("sf"), Chosen(v, pinPw)) { EntryValue(Text("sf"), v.sf, Chosen(v, pinPw)); }
  }

  /** With an on-screen PIN and the default "0x4" the record says "sf=0x4", not "sf=0x8c". */
  lemma {:induction false} PinFlagsAreLost()
    ensures var v := RaopValues([], [], Text("0x4"), []); var stored := Lookup(SetAll([], RaopCalls(v, 1)), Text("sf"));
      stored == Some(Entry(Text("sf"), Text("0x4"))) && stored != Some(Entry(Text("sf"), Text("0x8c")))
  {
    var v := RaopValues([], [], Text("0x4"), []);
    var cs := RaopCalls(v, 1);
    assert cs == [Call(Text("pw"), Text("true")), Call(Text("sf"), Text("0x8c")), Call(Text("sf"), Text("0x4"))];
    assert cs[1..] == [Call(Text("sf"), Text("0x8c")), Call(Text("sf"), Text("0x4"))];
    assert cs[1..][1..] == [Call(Text("sf"), Text("0x4"))] && cs[1..][1..][1..] == [];
    assert TotalSize(cs) == 8 + TotalSize(cs[1..]) == 8 + 8 + TotalSize(cs[1..][1..]) == 8 + 8 + 7;
    DefaultFlagsStored(v, 1);
  }
}
