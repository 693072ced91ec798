/** Simultaneous-probe tie-breaking (section 8.2 of RFC 6762) as a total preorder on record sets. */
module TieBreak {
  import opened Bytes
  import opened DnsName
  import opened DnsMessage

  /** The rdata as it would be without compression, in lower case where it is a name. */
  function CanonicalRdata(r: Record): seq<byte> {
    if r.rtype == PTR then PlainName(r.target, true)
    else if r.rtype == SRV then Put16(r.priority) + Put16(r.weight) + Put16(r.port) + PlainName(r.target, true)
    else r.rdata
  }

  /** (class, type, canonical rdata), the tuple records are ordered by. */
  function SortKey(r: Record): seq<int> { [r.rrclass, r.rtype] + CanonicalRdata(r) }

  function SortKeys(rs: seq<Record>): seq<seq<int>> { if rs == [] then [] else [SortKey(rs[0])] + SortKeys(rs[1..]) }

  // ---- Lexicographic order over any order ------------------------------------------------------

  function CompareInts(a: int, b: int): int { if a < b then -1 else if a > b then 1 else 0 }

  function Lex<T>(cmp: (T, T) -> int, a: seq<T>, b: seq<T>): int {
    if a == [] then (if b == [] then 0 else -1)
    else if b == [] then 1
    else
      var c := cmp(a[0], b[0]);
      if c != 0 then c else Lex(cmp, a[1..], b[1..])
  }

  /** A three-way comparison that is antisymmetric, transitive and 0 only on equals. */
  ghost predicate IsOrder<T(!new)>(cmp: (T, T) -> int) {
    (forall a, b :: cmp(a, b) == -cmp(b, a)) &&
    (forall a, b :: cmp(a, b) == 0 <==> a == b) &&
    (forall a, b, c :: cmp(a, b) <= 0 && cmp(b, c) <= 0 ==> cmp(a, c) <= 0)
  }

  lemma {:induction false} LexAntisymmetric<T(!new)>(cmp: (T, T) -> int, a: seq<T>, b: seq<T>)
    requires IsOrder(cmp)
    ensures Lex(cmp, a, b) == -Lex(cmp, b, a)
  {
    if a != [] && b != [] { LexAntisymmetric(cmp, a[1..], b[1..]); }
  }

  lemma {:induction false} LexZero<T(!new)>(cmp: (T, T) -> int, a: seq<T>, b: seq<T>)
    requires IsOrder(cmp)
    ensures Lex(cmp, a, b) == 0 <==> a == b
  {
    if a != [] && b != [] {
      LexZero(cmp, a[1..], b[1..]);
      assert a == [a[0]] + a[1..] && b == [b[0]] + b[1..];
    }
  }

  lemma {:induction false} LexTransitive<T(!new)>(cmp: (T, T) -> int, a: seq<T>, b: seq<T>, c: seq<T>)
    requires IsOrder(cmp) && Lex(cmp, a, b) <= 0 && Lex(cmp, b, c) <= 0
    ensures Lex(cmp, a, c) <= 0
  {
    if a != [] && b != [] && c != [] {
      var x, y, z := a[0], b[0], c[0];
      assert cmp(x, y) <= 0 && cmp(y, z) <= 0;
      assert cmp(x, z) <= 0;
      if cmp(x, y) == 0 && cmp(y, z) == 0 {
        LexTransitive(cmp, a[1..], b[1..], c[1..]);
      } else {
        assert cmp(z, y) == -cmp(y, z) && (x == z ==> cmp(x, y) == cmp(z, y));
      }
    }
  }

  function CompareKeys(a: seq<int>, b: seq<int>): int { Lex(CompareInts, a, b) }

  lemma {:induction false} CompareKeysIsOrder()
    ensures IsOrder(CompareKeys)
  {
    assert IsOrder(CompareInts);
    forall a, b ensures CompareKeys(a, b) == -CompareKeys(b, a) { LexAntisymmetric(CompareInts, a, b); }
    forall a, b ensures CompareKeys(a, b) == 0 <==> a == b { LexZero(CompareInts, a, b); }
    forall a, b, c | CompareKeys(a, b) <= 0 && CompareKeys(b, c) <= 0 ensures CompareKeys(a, c) <= 0 {
      LexTransitive(CompareInts, a, b, c);
    }
  }

  // ---- Sorting ---------------------------------------------------------------------------------

  function Insert(k: seq<int>, s: seq<seq<int>>): seq<seq<int>> {
    if s == [] || CompareKeys(k, s[0]) <= 0 then [k] + s else [s[0]] + Insert(k, s[1..])
  }

  function Sort(s: seq<seq<int>>): seq<seq<int>> { if s == [] then [] else Insert(s[0], Sort(s[1..])) }

  predicate Sorted(s: seq<seq<int>>) {
    |s| <= 1 || (CompareKeys(s[0], s[1]) <= 0 && Sorted(s[1..]))
  }

  /** A negative result means `ours` loses. */
  function Compare(ours: seq<Record>, theirs: seq<Record>): int {
    Lex(CompareKeys, Sort(SortKeys(ours)), Sort(SortKeys(theirs)))
  }

  lemma {:induction false} InsertSorted(k: seq<int>, s: seq<seq<int>>)
    requires Sorted(s)
    ensures Sorted(Insert(k, s)) && multiset(Insert(k, s)) == multiset{k} + multiset(s)
    ensures Insert(k, s)[0] == k || (s != [] && Insert(k, s)[0] == s[0])
  {
    CompareKeysIsOrder();
    if s != [] {
      assert s == [s[0]] + s[1..];
      if CompareKeys(k, s[0]) > 0 {
        assert CompareKeys(s[0], k) <= 0;
        InsertSorted(k, s[1..]);
      }
    }
  }

  lemma {:induction false} SortSorts(s: seq<seq<int>>)
    ensures Sorted(Sort(s)) && multiset(Sort(s)) == multiset(s)
  {
    if s != [] {
      SortSorts(s[1..]);
      InsertSorted(s[0], Sort(s[1..]));
      assert s == [s[0]] + s[1..];
    }
  }

  lemma {:induction false} HeadIsLeast(s: seq<seq<int>>, k: seq<int>)
    requires Sorted(s) && k in s
    ensures CompareKeys(s[0], k) <= 0
  {
    CompareKeysIsOrder();
    if k != s[0] {
      assert k in s[1..];
      HeadIsLeast(s[1..], k);
    }
  }

  lemma {:induction false} HeadTail<T>(s: seq<T>)
    requires s != []
    ensures multiset(s) == multiset{s[0]} + multiset(s[1..])
  {
    assert s == [s[0]] + s[1..];
  }

  lemma {:induction false} RemoveAt<T>(s: seq<T>, i: nat)
    requires i < |s|
    ensures multiset(s) == multiset{s[i]} + multiset(s[..i] + s[i + 1..])
  {
    assert s == s[..i] + [s[i]] + s[i + 1..];
  }

  /** Both heads are least, hence equal. */
  lemma {:induction false} SameHead(s: seq<seq<int>>, t: seq<seq<int>>)
    requires Sorted(s) && Sorted(t) && multiset(s) == multiset(t) && s != [] && t != []
    ensures s[0] == t[0]
  {
    CompareKeysIsOrder();
    assert s[0] in multiset(t) && t[0] in multiset(s);
    HeadIsLeast(s, t[0]);
    HeadIsLeast(t, s[0]);
  }

  /** Equal multisets have one sorted arrangement, so the sorting algorithm does not matter. */
  lemma {:induction false} SortedUnique(s: seq<seq<int>>, t: seq<seq<int>>)
    requires Sorted(s) && Sorted(t) && multiset(s) == multiset(t)
    ensures s == t
  {
    assert |s| == |multiset(s)| && |t| == |multiset(t)|;
    if s != [] {
      SameHead(s, t);
      HeadTail(s);
      HeadTail(t);
      assert multiset(s[1..]) == multiset(s) - multiset{s[0]};
      SortedUnique(s[1..], t[1..]);
    }
  }

  // ---- The tie-break ---------------------------------------------------------------------------

  lemma {:induction false} SameKeysSort(a: seq<Record>, b: seq<Record>)
    ensures Sort(SortKeys(a)) == Sort(SortKeys(b)) <==> multiset(SortKeys(a)) == multiset(SortKeys(b))
  {
    SortSorts(SortKeys(a));
    SortSorts(SortKeys(b));
    if multiset(SortKeys(a)) == multiset(SortKeys(b)) {
      SortedUnique(Sort(SortKeys(a)), Sort(SortKeys(b)));
    }
  }

  /** Both sides compute opposite verdicts. */
  lemma {:induction false} CompareAntisymmetric(a: seq<Record>, b: seq<Record>)
    ensures Compare(a, b) == -Compare(b, a)
  {
    CompareKeysIsOrder();
    LexAntisymmetric(CompareKeys, Sort(SortKeys(a)), Sort(SortKeys(b)));
  }

  lemma {:induction false} CompareTransitive(a: seq<Record>, b: seq<Record>, c: seq<Record>)
    requires Compare(a, b) <= 0 && Compare(b, c) <= 0
    ensures Compare(a, c) <= 0
  {
    CompareKeysIsOrder();
    LexTransitive(CompareKeys, Sort(SortKeys(a)), Sort(SortKeys(b)), Sort(SortKeys(c)));
  }

  /** Nobody defers exactly when the two sets hold the same (class, type, rdata) tuples. */
  lemma {:induction false} CompareZero(a: seq<Record>, b: seq<Record>)
    ensures Compare(a, b) == 0 <==> multiset(SortKeys(a)) == multiset(SortKeys(b))
  {
    CompareKeysIsOrder();
    LexZero(CompareKeys, Sort(SortKeys(a)), Sort(SortKeys(b)));
    SameKeysSort(a, b);
  }

  lemma {:induction false} SortKeysAppend(a: seq<Record>, b: seq<Record>)
    ensures SortKeys(a + b) == SortKeys(a) + SortKeys(b)
  {
    if a == [] {
      assert a + b == b;
    } else {
      assert (a + b)[1..] == a[1..] + b;
      SortKeysAppend(a[1..], b);
    }
  }

  lemma {:induction false} SortKeysPermute(a: seq<Record>, b: seq<Record>)
    requires multiset(a) == multiset(b)
    ensures multiset(SortKeys(a)) == multiset(SortKeys(b))
  {
    assert |a| == |multiset(a)| && |b| == |multiset(b)|;
    if a != [] {
      assert a[0] in multiset(b);
      var i :| 0 <= i < |b| && b[i] == a[0];
      HeadTail(a);
      RemoveAt(b, i);
      assert multiset(a[1..]) == multiset(a) - multiset{a[0]};
      SortKeysPermute(a[1..], b[..i] + b[i + 1..]);
      MovedKey(b, i);
    }
  }

  lemma {:induction false} MovedKey(b: seq<Record>, i: nat)
    requires i < |b|
    ensures multiset(SortKeys(b)) == multiset{SortKey(b[i])} + multiset(SortKeys(b[..i] + b[i + 1..]))
  {
    assert b == b[..i] + ([b[i]] + b[i + 1..]);
    SortKeysAppend(b[..i], b[i + 1..]);
    SortKeysAppend(b[..i], [b[i]] + b[i + 1..]);
    assert ([b[i]] + b[i + 1..])[1..] == b[i + 1..];
  }

  /** The order records were listed in does not matter, on either side. */
  lemma {:induction false} ComparePermutes(a: seq<Record>, a': seq<Record>, b: seq<Record>, b': seq<Record>)
    requires multiset(a) == multiset(a') && multiset(b) == multiset(b')
    ensures Compare(a, b) == Compare(a', b')
  {
    SortKeysPermute(a, a');
    SortKeysPermute(b, b');
    SameKeysSort(a, a');
    SameKeysSort(b, b');
  }

  // ---- Records survive the wire as far as comparison goes --------------------------------------

  lemma {:induction false} PlainFolded(a: Name, b: Name)
    requires SameName(a, b) && Normal(a) && Normal(b)
    ensures PlainName(a, true) == PlainName(b, true)
  {
    if a != [] && b != [] {
      assert FoldName(a)[0] == FoldName(b)[0] && FoldName(a)[1..] == FoldName(a[1..]) && FoldName(b)[1..] == FoldName(b[1..]);
      PlainFolded(a[1..], b[1..]);
    }
  }

  lemma {:induction false} PlainNorm(n: Name)
    ensures PlainName(Norm(n), true) == PlainName(n, true)
  {
    if n != [] {
      PlainNorm(n[1..]);
      if n[0] != [] { assert Norm(n)[1..] == Norm(n[1..]); }
    }
  }

  /** canonicalRdata is the same before and after a serialize/parse trip, whatever compression did
      to the letter case of names. */
  lemma {:induction false} CanonicalSurvives(a: Record, r: Record)
    requires Arrives(a, r) && Normal(a.target)
    ensures CanonicalRdata(a) == CanonicalRdata(r)
  {
    NormIsNormal(r.target);
    PlainNorm(r.target);
    if r.rtype == PTR || r.rtype == SRV { PlainFolded(a.target, Norm(r.target)); }
  }
}
