/** Domain names on the wire: compression while writing, bounded pointer chasing while reading. */
module DnsName {
  import opened Bytes

  type Label = seq<byte>
  type Name = seq<Label>

  const MAX_LABEL := 63
  const MAX_JUMPS := 32
  const MAX_NAME := 255
  const POINTER_LIMIT := 0x3FFF

  function Lower(c: byte): byte { if 65 <= c <= 90 then c + 32 else c }

  function Fold(l: Label): (f: Label)
    ensures |f| == |l|
  {
    if l == [] then [] else [Lower(l[0])] + Fold(l[1..])
  }

  function FoldName(n: Name): Name { if n == [] then [] else [Fold(n[0])] + FoldName(n[1..]) }

  /** Names compare label by label, ASCII case-insensitively. */
  predicate SameName(a: Name, b: Name) { FoldName(a) == FoldName(b) }

  function Cut(l: Label): (c: Label)
    ensures |c| <= MAX_LABEL
  {
    if |l| <= MAX_LABEL then l else l[..MAX_LABEL]
  }

  /** What the wire can carry of a name: empty labels vanish, long ones are cut. */
  function Norm(n: Name): Name {
    if n == [] then []
    else if n[0] == [] then Norm(n[1..])
    else [Cut(n[0])] + Norm(n[1..])
  }

  predicate Normal(n: Name) { forall i :: 0 <= i < |n| ==> 1 <= |n[i]| <= 63 }

  /** Case-folded, length-prefixed labels: the compression table's key. */
  function Key(n: Name): seq<byte> {
    if n == [] then []
    else if n[0] == [] then Key(n[1..])
    else [|Cut(n[0])|] + Fold(Cut(n[0])) + Key(n[1..])
  }

  function LabelCount(n: Name): nat { |Norm(n)| }

  /** One label as it stands on the wire. */
  function Literal(l: Label): (b: seq<byte>)
    requires |l| <= MAX_LABEL
    ensures |b| == 1 + |l|
  {
    [|l|] + l
  }

  type Table = map<seq<byte>, nat>

  datatype Encoded = Encoded(bytes: seq<byte>, table: Table)

  /** The bytes Writer::name appends when `base` bytes are already out, and the table it leaves. */
  function EncodeName(base: nat, table: Table, n: Name): (e: Encoded)
    ensures e.bytes != []
    decreases |n|
  {
    if n == [] then Encoded([0], table)
    else if n[0] == [] then EncodeName(base, table, n[1..])
    else
      var key := Key(n);
      if key in table then Encoded(Put16((0xC000 + table[key]) % 0x1_0000), table)
      else
        var l := Cut(n[0]);
        var rest := EncodeName(base + 1 + |l|, Register(table, key, base), n[1..]);
        Encoded(Literal(l) + rest.bytes, rest.table)
  }

  /** Offsets that do not fit a pointer are not remembered. */
  function Register(table: Table, key: seq<byte>, base: nat): Table {
    if base < POINTER_LIMIT then table[key := base] else table
  }

  /** Uncompressed wire form. */
  function PlainName(n: Name, fold: bool): seq<byte> {
    if n == [] then [0]
    else if n[0] == [] then PlainName(n[1..], fold)
    else
      var l := Cut(n[0]);
      Literal(if fold then Fold(l) else l) + PlainName(n[1..], fold)
  }

  datatype Walked = Walked(name: Name, next: nat)

  function Target(d: seq<byte>, p: nat): nat
    requires p + 1 < |d| && d[p] >= 0xC0
  {
    (d[p] as int - 0xC0) * 0x100 + d[p + 1]
  }

  function NameSize(n: Name): nat { if n == [] then 0 else 1 + |n[0]| + NameSize(n[1..]) }

  /** Where a name that starts at `p` ends: after its zero byte or its first pointer. */
  function NameEnd(d: seq<byte>, p: nat): nat
    decreases |d| - p
  {
    if p >= |d| then p
    else if d[p] >= 0xC0 then p + 2
    else if d[p] == 0 then p + 1
    else NameEnd(d, p + 1 + d[p])
  }

  /** readName from `p` with `jumps` pointers already followed and `total` octets already read. */
  function Walk(d: seq<byte>, p: nat, jumps: nat, total: nat): (r: Option<Walked>)
    requires jumps <= MAX_JUMPS && total <= MAX_NAME
    ensures r.Some? ==> p < r.value.next == NameEnd(d, p) <= |d|
    decreases MAX_JUMPS - jumps, |d| - p
  {
    if p >= |d| then None
    else if d[p] >= 0xC0 then
      if p + 1 >= |d| || jumps + 1 > MAX_JUMPS then None
      else
        match Walk(d, Target(d, p), jumps + 1, total)
        case None => None
        case Some(w) => Some(Walked(w.name, p + 2))
    else if d[p] >= 0x40 then None
    else if d[p] == 0 then Some(Walked([], p + 1))
    else
      var len := d[p];
      if p + 1 + len > |d| || total + len + 1 > MAX_NAME then None
      else
        match Walk(d, p + 1 + len, jumps, total + len + 1)
        case None => None
        case Some(w) => Some(Walked([d[p + 1..p + 1 + len]] + w.name, w.next))
  }

  /** Whatever the bytes, a name that is accepted has labels of 1 to 63 octets and fits the limit. */
  lemma {:induction false} WalkIsBounded(d: seq<byte>, p: nat, jumps: nat, total: nat)
    requires jumps <= MAX_JUMPS && total <= MAX_NAME && Walk(d, p, jumps, total).Some?
    ensures var n := Walk(d, p, jumps, total).value.name; Normal(n) && total + NameSize(n) <= 255
    decreases MAX_JUMPS - jumps, |d| - p
  {
    if d[p] >= 0xC0 {
      WalkIsBounded(d, Target(d, p), jumps + 1, total);
    } else if d[p] != 0 {
      var q, t := p + 1 + d[p], total + d[p] + 1;
      WalkIsBounded(d, q, jumps, t);
      var n := Walk(d, p, jumps, total).value.name;
      assert n[1..] == Walk(d, q, jumps, t).value.name;
    }
  }

  lemma {:induction false} NormIsNormal(n: Name)
    ensures Normal(Norm(n))
    ensures Normal(n) ==> Norm(n) == n
  {
    if n != [] { NormIsNormal(n[1..]); }
  }

  // ---- What a table entry promises -------------------------------------------------------------

  /** A label sequence whose folded form is `k` starts, with a literal label, at `p`. */
  predicate SpellsAt(d: seq<byte>, p: nat, k: seq<byte>)
    decreases |k|, 0
  {
    0 < |k| && 1 <= k[0] <= MAX_LABEL && 1 + k[0] <= |k| && p + 1 + k[0] <= |d| &&
    d[p] == k[0] && Fold(d[p + 1..p + 1 + k[0]]) == k[1..1 + k[0]] &&
    SpellsTail(d, p + 1 + k[0], k[1 + k[0]..])
  }

  /** The same, but `k` may be empty or be reached by one pointer to a strictly earlier label. */
  predicate SpellsTail(d: seq<byte>, p: nat, k: seq<byte>)
    decreases |k|, 1
  {
    if k == [] then p < |d| && d[p] == 0
    else
      SpellsAt(d, p, k) ||
      (p + 1 < |d| && d[p] >= 0xC0 && Target(d, p) < p && SpellsAt(d, Target(d, p), k))
  }

  function KeyLabels(k: seq<byte>): nat {
    if k == [] || 1 + k[0] > |k| then 0 else 1 + KeyLabels(k[1 + k[0]..])
  }

  ghost predicate EntryOk(d: seq<byte>, table: Table, base: nat, k: seq<byte>)
    requires k in table
  {
    table[k] < base && table[k] < POINTER_LIMIT && SpellsAt(d, table[k], k)
  }

  /** The compression-table invariant. */
  ghost predicate TableOk(d: seq<byte>, table: Table, base: nat) {
    forall k {:trigger EntryOk(d, table, base, k)} :: k in table ==> EntryOk(d, table, base, k)
  }

  lemma {:induction false} SpellsExtends(d: seq<byte>, e: seq<byte>, p: nat, k: seq<byte>)
    requires d <= e && SpellsAt(d, p, k)
    ensures SpellsAt(e, p, k)
    decreases |k|
  {
    var q, rest := p + 1 + k[0], k[1 + k[0]..];
    assert d[p + 1..q] == e[p + 1..q];
    if rest != [] {
      if SpellsAt(d, q, rest) {
        SpellsExtends(d, e, q, rest);
      } else {
        SpellsExtends(d, e, Target(d, q), rest);
      }
    }
  }

  lemma {:induction false} TableExtends(d: seq<byte>, e: seq<byte>, table: Table, base: nat, base': nat)
    requires d <= e && base <= base' && TableOk(d, table, base)
    ensures TableOk(e, table, base')
  {
    forall k | k in table ensures EntryOk(e, table, base', k) {
      assert EntryOk(d, table, base, k);
      SpellsExtends(d, e, table[k], k);
    }
  }

  // ---- Names as keys ---------------------------------------------------------------------------

  lemma {:induction false} KeyFacts(n: Name)
    ensures Key(Norm(n)) == Key(n)
    ensures KeyLabels(Key(n)) == LabelCount(n)
    ensures |Key(n)| == NameSize(Norm(n))
  {
    if n != [] {
      KeyFacts(n[1..]);
      if n[0] != [] {
        assert Norm(n)[1..] == Norm(n[1..]);
        var l := Cut(n[0]);
        assert Key(n)[1 + |l|..] == Key(n[1..]);
      }
    }
  }

  lemma {:induction false} NormalKeyInjective(a: Name, b: Name)
    requires Normal(a) && Normal(b) && Key(a) == Key(b)
    ensures SameName(a, b)
  {
    if a == [] || b == [] {
    } else {
      assert Key(a)[0] == |a[0]| && Key(b)[0] == |b[0]|;
      assert Fold(a[0]) == Key(a)[1..1 + |a[0]|] == Fold(b[0]);
      assert Key(a[1..]) == Key(a)[1 + |a[0]|..] == Key(b[1..]);
      NormalKeyInjective(a[1..], b[1..]);
    }
  }

  lemma {:induction false} SameNameSameKey(a: Name, b: Name)
    requires Normal(a) && Normal(b) && SameName(a, b)
    ensures Key(a) == Key(b)
  {
    if a != [] && b != [] {
      assert FoldName(a)[0] == FoldName(b)[0] && FoldName(a)[1..] == FoldName(b)[1..];
      SameNameSameKey(a[1..], b[1..]);
    }
  }

  /** Two suffixes share a table key exactly when what the wire carries of them is one name. */
  lemma {:induction false} KeyInjective(a: Name, b: Name)
    ensures Key(a) == Key(b) <==> SameName(Norm(a), Norm(b))
  {
    KeyFacts(a);
    KeyFacts(b);
    NormIsNormal(a);
    NormIsNormal(b);
    if Key(a) == Key(b) { NormalKeyInjective(Norm(a), Norm(b)); }
    if SameName(Norm(a), Norm(b)) { SameNameSameKey(Norm(a), Norm(b)); }
  }

  // ---- Writing keeps the table honest ----------------------------------------------------------

  ghost predicate TableOkUpTo(d: seq<byte>, table: Table, base: nat, bound: nat) {
    forall k {:trigger EntryOk(d, table, base, k)} :: k in table && |k| <= bound ==> EntryOk(d, table, base, k)
  }

  /** Every entry of `after` is an old one or a fresh, complete one. */
  ghost predicate Grown(d: seq<byte>, before: Table, after: Table, base: nat) {
    forall k {:trigger EntryOk(d, after, base, k)} ::
      k in after ==> (k in before && after[k] == before[k]) || EntryOk(d, after, base, k)
  }

  lemma {:induction false} LiteralSpells(d: seq<byte>, p: nat, l: Label, k: seq<byte>)
    requires 1 <= |l| <= MAX_LABEL && At(d, p, Literal(l))
    requires SpellsTail(d, p + 1 + |l|, k)
    ensures SpellsAt(d, p, [|l|] + Fold(l) + k)
  {
    var key := [|l|] + Fold(l) + k;
    AtSplit(d, p, [|l|], l);
    AtByte(d, p, [|l|], 0);
    AtSlice(d, p + 1, l);
    assert key[1..1 + |l|] == Fold(l) && key[1 + |l|..] == k;
  }

  lemma {:induction false} PointerSpells(d: seq<byte>, p: nat, t: nat, k: seq<byte>)
    requires t < POINTER_LIMIT && t < p && At(d, p, Put16(0xC000 + t)) && SpellsAt(d, t, k)
    ensures SpellsTail(d, p, k)
  {
    AtByte(d, p, Put16(0xC000 + t), 0);
    AtByte(d, p, Put16(0xC000 + t), 1);
  }

  /** Entries registered for longer suffixes of the name being written are still incomplete, which
      is harmless because only shorter keys are looked up from here on. */
  lemma {:induction false} EncodeNameKeepsTable(d: seq<byte>, base: nat, table: Table, n: Name)
    requires TableOkUpTo(d, table, base, |Key(n)|)
    requires At(d, base, EncodeName(base, table, n).bytes)
    ensures SpellsTail(d, base, Key(n))
    ensures var e := EncodeName(base, table, n); Grown(d, table, e.table, base + |e.bytes|)
    decreases |n|
  {
    var e := EncodeName(base, table, n);
    if n == [] {
      AtByte(d, base, e.bytes, 0);
    } else if n[0] == [] {
      EncodeNameKeepsTable(d, base, table, n[1..]);
    } else if Key(n) in table {
      assert EntryOk(d, table, base, Key(n));
      PointerSpells(d, base, table[Key(n)], Key(n));
    } else {
      FreshSuffixKeepsTable(d, base, table, n);
    }
  }

  lemma {:induction false} FreshSuffixKeepsTable(d: seq<byte>, base: nat, table: Table, n: Name)
    requires n != [] && n[0] != [] && Key(n) !in table
    requires TableOkUpTo(d, table, base, |Key(n)|)
    requires At(d, base, EncodeName(base, table, n).bytes)
    ensures SpellsTail(d, base, Key(n))
    ensures var e := EncodeName(base, table, n); Grown(d, table, e.table, base + |e.bytes|)
    decreases |n|, 0
  {
    var e, l := EncodeName(base, table, n), Cut(n[0]);
    var table', q := Register(table, Key(n), base), base + 1 + |l|;
    FreshSuffix(base, table, n);
    AtSplit(d, base, Literal(l), EncodeName(q, table', n[1..]).bytes);
    PendingIsHarmless(d, base, table, n);
    EncodeNameKeepsTable(d, q, table', n[1..]);
    LiteralSpells(d, base, l, Key(n[1..]));
    RegisteredSpells(d, base, table, Key(n), e.table, base + |e.bytes|);
  }

  /** The suffix registered first is complete once the rest is written. */
  lemma {:induction false} RegisteredSpells(d: seq<byte>, base: nat, table: Table, key: seq<byte>, after: Table, end: nat)
    requires key !in table && SpellsAt(d, base, key) && base < end && Grown(d, Register(table, key, base), after, end)
    ensures Grown(d, table, after, end)
  {
    forall k | k in after ensures (k in table && after[k] == table[k]) || EntryOk(d, after, end, k) {}
  }

  lemma {:induction false} EncodeNameTableOk(d: seq<byte>, base: nat, table: Table, n: Name)
    requires TableOk(d, table, base)
    requires At(d, base, EncodeName(base, table, n).bytes)
    ensures var e := EncodeName(base, table, n); TableOk(d, e.table, base + |e.bytes|)
  {
    EncodeNameKeepsTable(d, base, table, n);
    var e := EncodeName(base, table, n);
    forall k | k in e.table ensures EntryOk(d, e.table, base + |e.bytes|, k) {
      if k in table && e.table[k] == table[k] { assert EntryOk(d, table, base, k); }
    }
  }

  // ---- Where a name ends -----------------------------------------------------------------------

  /** A suffix just registered is longer than anything still to be looked up. */
  lemma {:induction false} PendingIsHarmless(d: seq<byte>, base: nat, table: Table, n: Name)
    requires n != [] && n[0] != [] && TableOkUpTo(d, table, base, |Key(n)|)
    ensures TableOkUpTo(d, Register(table, Key(n), base), base + 1 + |Cut(n[0])|, |Key(n[1..])|)
  {
    var table', q := Register(table, Key(n), base), base + 1 + |Cut(n[0])|;
    forall k | k in table' && |k| <= |Key(n[1..])| ensures EntryOk(d, table', q, k) {
      assert EntryOk(d, table, base, k);
    }
  }

  lemma {:induction false} LiteralEnd(d: seq<byte>, p: nat, l: Label)
    requires 1 <= |l| <= MAX_LABEL && At(d, p, Literal(l))
    ensures NameEnd(d, p) == NameEnd(d, p + 1 + |l|)
  {
    AtByte(d, p, Literal(l), 0);
  }

  lemma {:induction false} FreshSuffix(base: nat, table: Table, n: Name)
    requires n != [] && n[0] != [] && Key(n) !in table
    ensures var l := Cut(n[0]);
      var rest := EncodeName(base + 1 + |l|, Register(table, Key(n), base), n[1..]);
      EncodeName(base, table, n) == Encoded(Literal(l) + rest.bytes, rest.table)
  {
  }

  /** The bytes written for a name are exactly the bytes a reader moves past. */
  lemma {:induction false} EndOfEncoded(d: seq<byte>, base: nat, table: Table, n: Name)
    requires At(d, base, EncodeName(base, table, n).bytes)
    requires TableOkUpTo(d, table, base, |Key(n)|)
    ensures NameEnd(d, base) == base + |EncodeName(base, table, n).bytes|
    decreases |n|, 1
  {
    if n == [] {
      AtByte(d, base, [0], 0);
    } else if n[0] == [] {
      EndOfEncoded(d, base, table, n[1..]);
    } else if Key(n) in table {
      assert EntryOk(d, table, base, Key(n));
      AtByte(d, base, Put16(0xC000 + table[Key(n)]), 0);
    } else {
      EndOfFresh(d, base, table, n);
    }
  }

  lemma {:induction false} EndOfFresh(d: seq<byte>, base: nat, table: Table, n: Name)
    requires n != [] && n[0] != [] && Key(n) !in table
    requires At(d, base, EncodeName(base, table, n).bytes)
    requires TableOkUpTo(d, table, base, |Key(n)|)
    ensures NameEnd(d, base) == base + |EncodeName(base, table, n).bytes|
    decreases |n|, 0
  {
    var l := Cut(n[0]);
    var table', q := Register(table, Key(n), base), base + 1 + |l|;
    FreshSuffix(base, table, n);
    AtSplit(d, base, Literal(l), EncodeName(q, table', n[1..]).bytes);
    LiteralEnd(d, base, l);
    PendingIsHarmless(d, base, table, n);
    EndOfEncoded(d, q, table', n[1..]);
  }

  predicate Fits(n: Name) { LabelCount(n) <= 32 && NameSize(Norm(n)) <= 255 }

  function ReadName(d: seq<byte>, p: nat): Option<Walked> { Walk(d, p, 0, 0) }

  /** Compression never makes a name longer. */
  lemma {:induction false} NeverLonger(base: nat, table: Table, n: Name)
    ensures |EncodeName(base, table, n).bytes| <= |PlainName(n, false)|
    decreases |n|
  {
    if n != [] {
      if n[0] == [] {
        NeverLonger(base, table, n[1..]);
      } else if Key(n) in table {
        PlainNameSize(n[1..], false);
      } else {
        FreshSuffix(base, table, n);
        NeverLonger(base + 1 + |Cut(n[0])|, Register(table, Key(n), base), n[1..]);
      }
    }
  }

  lemma {:induction false} PlainNameSize(n: Name, fold: bool)
    ensures |PlainName(n, fold)| == |Key(n)| + 1
  {
    if n != [] { PlainNameSize(n[1..], fold); }
  }
}
