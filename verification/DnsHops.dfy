/** How many pointers a reader has to follow, counted beside the compression table while writing: a name
    is read back exactly when it needs no more than 32 of them and has at most 255 octets. */
module DnsHops {
  import opened Bytes
  import opened DnsName

  // ---- Counted on the bytes --------------------------------------------------------------------

  /** Pointers from the label at `p` to the end of the name with key `k`. */
  function HopsAt(d: seq<byte>, p: nat, k: seq<byte>): nat
    decreases |k|, 0
  {
    if k == [] || 1 + k[0] > |k| then 0 else HopsTail(d, p + 1 + k[0], k[1 + k[0]..])
  }

  function HopsTail(d: seq<byte>, p: nat, k: seq<byte>): nat
    decreases |k|, 1
  {
    if k == [] || p + 1 >= |d| then 0
    else if d[p] >= 0xC0 then 1 + HopsAt(d, Target(d, p), k)
    else HopsAt(d, p, k)
  }

  /** readName succeeds exactly within its two budgets, and then spells the key. */
  lemma {:induction false} WalkAt(d: seq<byte>, p: nat, k: seq<byte>, jumps: nat, total: nat)
    requires SpellsAt(d, p, k) && jumps <= MAX_JUMPS && total <= MAX_NAME
    ensures var r := Walk(d, p, jumps, total);
      (r.Some? <==> jumps + HopsAt(d, p, k) <= MAX_JUMPS && total + |k| <= MAX_NAME) && (r.Some? ==> Key(r.value.name) == k)
    decreases |k|, 0
  {
    var q, rest := p + 1 + k[0], k[1 + k[0]..];
    if total + k[0] + 1 <= MAX_NAME {
      WalkTail(d, q, rest, jumps, total + k[0] + 1);
      LabelThenRest(d, p, k, jumps, total);
    }
  }

  lemma {:induction false} LabelThenRest(d: seq<byte>, p: nat, k: seq<byte>, jumps: nat, total: nat)
    requires SpellsAt(d, p, k) && jumps <= MAX_JUMPS && total + k[0] + 1 <= MAX_NAME
    ensures var r, rest := Walk(d, p, jumps, total), Walk(d, p + 1 + k[0], jumps, total + k[0] + 1);
      (r.Some? <==> rest.Some?) && (r.Some? && Key(rest.value.name) == k[1 + k[0]..] ==> Key(r.value.name) == k)
  {
    var r, rest := Walk(d, p, jumps, total), Walk(d, p + 1 + k[0], jumps, total + k[0] + 1);
    if r.Some? {
      var l := d[p + 1..p + 1 + k[0]];
      assert r.value.name == [l] + rest.value.name && ([l] + rest.value.name)[1..] == rest.value.name && Cut(l) == l;
      assert [k[0]] + k[1..1 + k[0]] + k[1 + k[0]..] == k;
    }
  }

  lemma {:induction false} WalkTail(d: seq<byte>, p: nat, k: seq<byte>, jumps: nat, total: nat)
    requires SpellsTail(d, p, k) && jumps <= MAX_JUMPS && total <= MAX_NAME
    ensures var r := Walk(d, p, jumps, total);
      (r.Some? <==> jumps + HopsTail(d, p, k) <= MAX_JUMPS && total + |k| <= MAX_NAME) && (r.Some? ==> Key(r.value.name) == k)
    decreases |k|, 1
  {
    if k != [] {
      if SpellsAt(d, p, k) {
        WalkAt(d, p, k, jumps, total);
      } else if jumps < MAX_JUMPS {
        WalkAt(d, Target(d, p), k, jumps + 1, total);
      }
    }
  }

  // ---- Counted while writing -------------------------------------------------------------------

  /** For every key in the compression table, the pointers a reader who starts there has to follow. */
  type Depths = map<seq<byte>, nat>

  /** The pointers a reader follows through a name written now. */
  function Follow(depths: Depths, n: Name): nat {
    if n == [] then 0
    else if n[0] == [] then Follow(depths, n[1..])
    else if Key(n) in depths then 1 + depths[Key(n)]
    else Follow(depths, n[1..])
  }

  /** The counts after the name is written at `base`. */
  function Learn(base: nat, depths: Depths, n: Name): Depths
    decreases |n|
  {
    if n == [] then depths
    else if n[0] == [] then Learn(base, depths, n[1..])
    else if Key(n) in depths then depths
    else Learn(base + 1 + |Cut(n[0])|, Note(base, depths, n), n[1..])
  }

  /** The count for a suffix that is registered at `base`. */
  function Note(base: nat, depths: Depths, n: Name): Depths {
    if base < POINTER_LIMIT then depths[Key(n) := Follow(depths, n)] else depths
  }

  ghost predicate DepthOk(d: seq<byte>, table: Table, depths: Depths, k: seq<byte>)
    requires k in table
  {
    k in depths && depths[k] == HopsAt(d, table[k], k)
  }

  ghost predicate SameKeys(table: Table, depths: Depths) { forall k :: k in depths <==> k in table }

  ghost predicate DepthsUpTo(d: seq<byte>, table: Table, depths: Depths, bound: nat) {
    SameKeys(table, depths) &&
    forall k {:trigger DepthOk(d, table, depths, k)} :: k in table && |k| <= bound ==> DepthOk(d, table, depths, k)
  }

  /** Every count is that of the bytes. */
  ghost predicate DepthsOk(d: seq<byte>, table: Table, depths: Depths) {
    SameKeys(table, depths) && forall k {:trigger DepthOk(d, table, depths, k)} :: k in table ==> DepthOk(d, table, depths, k)
  }

  ghost predicate DepthsGrown(d: seq<byte>, before: Table, had: Depths, after: Table, have: Depths) {
    SameKeys(after, have) &&
    forall k {:trigger DepthOk(d, after, have, k)} :: k in after ==>
      (k in before && after[k] == before[k] && k in had && k in have && have[k] == had[k]) || DepthOk(d, after, have, k)
  }

  lemma {:induction false} FollowIgnores(depths: Depths, k: seq<byte>, hops: nat, n: Name)
    requires |k| > |Key(n)|
    ensures Follow(depths[k := hops], n) == Follow(depths, n)
  {
    if n != [] { FollowIgnores(depths, k, hops, n[1..]); }
  }

  lemma {:induction false} KeySplit(n: Name)
    requires n != [] && n[0] != []
    ensures var l := Cut(n[0]); Key(n) != [] && Key(n)[0] == |l| && 1 + |l| <= |Key(n)| && Key(n)[1 + |l|..] == Key(n[1..])
  {
  }

  lemma {:induction false} LiteralHops(d: seq<byte>, base: nat, k: seq<byte>)
    requires k != [] && 1 <= k[0] <= MAX_LABEL && 1 + k[0] <= |k| && base + 1 < |d| && d[base] == k[0]
    ensures HopsTail(d, base, k) == HopsAt(d, base, k) == HopsTail(d, base + 1 + k[0], k[1 + k[0]..])
  {
  }

  lemma {:induction false} PointerHops(d: seq<byte>, base: nat, t: nat, k: seq<byte>)
    requires k != [] && t < POINTER_LIMIT && At(d, base, Put16(0xC000 + t))
    ensures HopsTail(d, base, k) == 1 + HopsAt(d, t, k)
  {
    AtByte(d, base, Put16(0xC000 + t), 0);
    AtByte(d, base, Put16(0xC000 + t), 1);
  }

  /** The counts kept while writing are the counts of the bytes written. */
  lemma {:induction false} NameKeepsDepths(d: seq<byte>, base: nat, table: Table, depths: Depths, n: Name)
    requires TableOkUpTo(d, table, base, |Key(n)|) && DepthsUpTo(d, table, depths, |Key(n)|)
    requires At(d, base, EncodeName(base, table, n).bytes)
    ensures HopsTail(d, base, Key(n)) == Follow(depths, n)
    ensures DepthsGrown(d, table, depths, EncodeName(base, table, n).table, Learn(base, depths, n))
    decreases |n|, 1
  {
    if n == [] {
    } else if n[0] == [] {
      NameKeepsDepths(d, base, table, depths, n[1..]);
    } else if Key(n) in table {
      assert EntryOk(d, table, base, Key(n)) && DepthOk(d, table, depths, Key(n));
      PointerHops(d, base, table[Key(n)], Key(n));
    } else {
      FreshKeepsDepths(d, base, table, depths, n);
    }
  }

  lemma {:induction false} FreshKeepsDepths(d: seq<byte>, base: nat, table: Table, depths: Depths, n: Name)
    requires n != [] && n[0] != [] && Key(n) !in table
    requires TableOkUpTo(d, table, base, |Key(n)|) && DepthsUpTo(d, table, depths, |Key(n)|)
    requires At(d, base, EncodeName(base, table, n).bytes)
    ensures HopsTail(d, base, Key(n)) == Follow(depths, n)
    ensures DepthsGrown(d, table, depths, EncodeName(base, table, n).table, Learn(base, depths, n))
    decreases |n|, 0
  {
    var l, key := Cut(n[0]), Key(n);
    var q, more := base + 1 + |l|, Note(base, depths, n);
    FreshSuffix(base, table, n);
    AtSplit(d, base, Literal(l), EncodeName(q, Register(table, key, base), n[1..]).bytes);
    PendingIsHarmless(d, base, table, n);
    PendingDepths(d, base, table, depths, n);
    NameKeepsDepths(d, q, Register(table, key, base), more, n[1..]);
    AtByte(d, base, Literal(l), 0);
    KeySplit(n);
    LiteralHops(d, base, key);
    FollowIgnores(depths, key, Follow(depths, n), n[1..]);
    RegisteredGrown(d, base, table, depths, n, EncodeName(base, table, n).table, Learn(q, more, n[1..]));
  }

  lemma {:induction false} PendingDepths(d: seq<byte>, base: nat, table: Table, depths: Depths, n: Name)
    requires n != [] && n[0] != [] && DepthsUpTo(d, table, depths, |Key(n)|)
    ensures DepthsUpTo(d, Register(table, Key(n), base), Note(base, depths, n),
                       |Key(n[1..])|)
  {
    var table', more := Register(table, Key(n), base), Note(base, depths, n);
    forall k | k in table' && |k| <= |Key(n[1..])| ensures DepthOk(d, table', more, k) { assert DepthOk(d, table, depths, k); }
  }

  /** The suffix registered first has its count once the rest is written. */
  lemma {:induction false} RegisteredGrown(d: seq<byte>, base: nat, table: Table, depths: Depths, n: Name, after: Table,
                                           have: Depths)
    requires n != [] && n[0] != [] && Key(n) !in table && SameKeys(table, depths)
    requires HopsAt(d, base, Key(n)) == Follow(depths, n)
    requires DepthsGrown(d, Register(table, Key(n), base), Note(base, depths, n), after, have)
    ensures DepthsGrown(d, table, depths, after, have)
  {
    forall k | k in after
      ensures (k in table && after[k] == table[k] && k in depths && k in have && have[k] == depths[k]) ||
              DepthOk(d, after, have, k)
    {
    }
  }

  lemma {:induction false} NameDepthsOk(d: seq<byte>, base: nat, table: Table, depths: Depths, n: Name)
    requires TableOk(d, table, base) && DepthsOk(d, table, depths) && At(d, base, EncodeName(base, table, n).bytes)
    ensures HopsTail(d, base, Key(n)) == Follow(depths, n)
    ensures DepthsOk(d, EncodeName(base, table, n).table, Learn(base, depths, n))
  {
    NameKeepsDepths(d, base, table, depths, n);
    var after, have := EncodeName(base, table, n).table, Learn(base, depths, n);
    forall k | k in after ensures DepthOk(d, after, have, k) {
      if k in table && after[k] == table[k] && k in depths && k in have &&
        have[k] == depths[k] { assert DepthOk(d, table, depths, k); }
    }
  }

  // ---- Reading back ----------------------------------------------------------------------------

  /** A name written now is within the reader's budgets. */
  predicate Readable(depths: Depths, n: Name) { Follow(depths, n) <= 32 && NameSize(Norm(n)) <= 255 }

  /** Reading at `base` yields `name` up to ASCII case and moves just past the bytes `n` written for it. */
  ghost predicate NameRead(d: seq<byte>, base: nat, n: Encoded, name: Name) {
    ReadName(d, base).Some? && SameName(ReadName(d, base).value.name, Norm(name)) &&
    ReadName(d, base).value.next == base + |n.bytes|
  }

  lemma {:induction false} NameSpelled(d: seq<byte>, base: nat, name: Name)
    requires SpellsTail(d, base, Key(name))
    ensures ReadName(d, base).Some? <==> HopsTail(d, base, Key(name)) <= MAX_JUMPS && NameSize(Norm(name)) <= MAX_NAME
    ensures ReadName(d, base).Some? ==> SameName(ReadName(d, base).value.name, Norm(name))
  {
    KeyFacts(name);
    WalkTail(d, base, Key(name), 0, 0);
    if ReadName(d, base).Some? {
      WalkIsBounded(d, base, 0, 0);
      NormIsNormal(name);
      NormalKeyInjective(ReadName(d, base).value.name, Norm(name));
    }
  }

  /** A name written with compression reads back as itself exactly when it needs at most 32 pointers and
      255 octets; otherwise it does not read at all. */
  lemma {:induction false} NameRoundTrip(d: seq<byte>, base: nat, table: Table, depths: Depths, name: Name)
    requires TableOk(d, table, base) && DepthsOk(d, table, depths) && At(d, base, EncodeName(base, table, name).bytes)
    ensures var e := EncodeName(base, table, name);
      TableOk(d, e.table, base + |e.bytes|) && DepthsOk(d, e.table, Learn(base, depths, name)) &&
      if Readable(depths, name) then NameRead(d, base, e, name) else ReadName(d, base).None?
  {
    EncodeNameKeepsTable(d, base, table, name);
    EncodeNameTableOk(d, base, table, name);
    NameDepthsOk(d, base, table, depths, name);
    EndOfEncoded(d, base, table, name);
    NameSpelled(d, base, name);
  }

  // ---- Names of at most 32 labels --------------------------------------------------------------

  /** A suffix of a few labels needs fewer pointers than it has labels. */
  ghost predicate DepthsFew(depths: Depths) { forall k :: k in depths ==> depths[k] < KeyLabels(k) }

  lemma {:induction false} FollowFew(depths: Depths, n: Name)
    requires DepthsFew(depths)
    ensures Follow(depths, n) <= LabelCount(n)
    ensures n != [] && n[0] != [] && Key(n) !in depths ==> Follow(depths, n) < LabelCount(n)
  {
    if n != [] {
      KeyFacts(n);
      FollowFew(depths, n[1..]);
    }
  }

  lemma {:induction false} LearnFew(base: nat, depths: Depths, n: Name)
    requires DepthsFew(depths)
    ensures DepthsFew(Learn(base, depths, n))
    decreases |n|
  {
    if n != [] {
      KeyFacts(n);
      FollowFew(depths, n);
      if n[0] == [] {
        LearnFew(base, depths, n[1..]);
      } else if Key(n) !in depths {
        LearnFew(base + 1 + |Cut(n[0])|, Note(base, depths, n), n[1..]);
      }
    }
  }

  /** Within 32 labels no name can need too many pointers. */
  lemma {:induction false} FitsReadable(depths: Depths, n: Name)
    requires DepthsFew(depths) && Fits(n)
    ensures Readable(depths, n)
  {
    FollowFew(depths, n);
  }
}
