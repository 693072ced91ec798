/** Lists on the wire: items written and read one after the other, sharing one compression table. */
module WireList {
  import opened Bytes
  import opened DnsHops
  import opened DnsName

  datatype Read<T> = Read(value: T, next: nat)

  /** Writes a list item by item, threading the offset and the compression table. */
  function PutAll<T>(put: (nat, Table, T) -> Encoded, base: nat, table: Table, xs: seq<T>): Encoded
    decreases |xs|
  {
    if xs == [] then Encoded([], table)
    else
      var first := put(base, table, xs[0]);
      var rest := PutAll(put, base + |first.bytes|, first.table, xs[1..]);
      Encoded(first.bytes + rest.bytes, rest.table)
  }

  /** Reads `count` items one after the other; any failure fails the list. */
  function ReadAll<T>(get: (seq<byte>, nat) -> Option<Read<T>>, d: seq<byte>, p: nat, count: nat): (r: Option<Read<seq<T>>>)
    ensures r.Some? ==> |r.value.value| == count
    decreases count
  {
    if count == 0 then Some(Read([], p))
    else
      match get(d, p)
      case None => None
      case Some(first) =>
        match ReadAll(get, d, first.next, count - 1)
        case None => None
        case Some(rest) => Some(Read([first.value] + rest.value, rest.next))
  }

  datatype Three<T> = Three(first: seq<T>, second: seq<T>, third: seq<T>)

  /** Reads three lists of given lengths one after the other. */
  function ReadThree<T>(get: (seq<byte>, nat) -> Option<Read<T>>, d: seq<byte>, p: nat, i: nat, j: nat,
                        k: nat): Option<Three<T>> {
    match ReadAll(get, d, p, i)
    case None => None
    case Some(a) =>
      match ReadAll(get, d, a.next, j)
      case None => None
      case Some(b) =>
        match ReadAll(get, d, b.next, k)
        case None => None
        case Some(c) => Some(Three(a.value, b.value, c.value))
  }

  predicate All<T>(ok: T -> bool, xs: seq<T>) { forall i :: 0 <= i < |xs| ==> ok(xs[i]) }

  predicate Pairwise<T>(same: (T, T) -> bool, a: seq<T>, b: seq<T>) {
    |a| == |b| && forall i :: 0 <= i < |a| ==> same(a[i], b[i])
  }

  /** Where the writer stands: bytes out, compression table, and the pointers behind each entry. */
  datatype Spot = Spot(base: nat, table: Table, depths: Depths)

  const START := Spot(12, map[], map[])

  ghost predicate SpotOk(d: seq<byte>, s: Spot) { TableOk(d, s.table, s.base) && DepthsOk(d, s.table, s.depths) }

  /** Whether an item written at a spot is within the reader's budgets, and the counts after it. */
  datatype Reach<!T> = Reach(readable: (Spot, T) -> bool, learn: (Spot, T) -> Depths)

  function After<T>(put: (nat, Table, T) -> Encoded, reach: Reach<T>, s: Spot, x: T): Spot {
    var e := put(s.base, s.table, x);
    Spot(s.base + |e.bytes|, e.table, reach.learn(s, x))
  }

  function AfterAll<T>(put: (nat, Table, T) -> Encoded, reach: Reach<T>, s: Spot, xs: seq<T>): Spot
    decreases |xs|
  {
    if xs == [] then s else AfterAll(put, reach, After(put, reach, s, xs[0]), xs[1..])
  }

  /** Every item is within the reader's budgets when its turn to be written comes. */
  predicate AllReadable<T>(put: (nat, Table, T) -> Encoded, reach: Reach<T>, s: Spot, xs: seq<T>)
    decreases |xs|
  {
    xs == [] || (reach.readable(s, xs[0]) && AllReadable(put, reach, After(put, reach, s, xs[0]), xs[1..]))
  }

  /** What was written for `x` is read as `x` again, and the reader ends where the writer did, with the
      table still good; out of budget, it is not read at all. */
  ghost predicate ItemRead<T>(put: (nat, Table, T) -> Encoded, get: (seq<byte>, nat) -> Option<Read<T>>, same: (T, T) -> bool,
                              reach: Reach<T>, d: seq<byte>, s: Spot, x: T)
  {
    var r, to := get(d, s.base), After(put, reach, s, x);
    if reach.readable(s, x) then SpotOk(d, to) && r.Some? && r.value.next == to.base && same(r.value.value, x) else r.None?
  }

  /** The same for a whole list. */
  ghost predicate ListRead<T>(put: (nat, Table, T) -> Encoded, get: (seq<byte>, nat) -> Option<Read<T>>, same: (T, T) -> bool,
                              reach: Reach<T>, d: seq<byte>, s: Spot, xs: seq<T>)
  {
    var r, to := ReadAll(get, d, s.base, |xs|), AfterAll(put, reach, s, xs);
    if AllReadable(put, reach, s, xs) then SpotOk(d, to) && r.Some? && r.value.next == to.base &&
      Pairwise(same, r.value.value, xs)
    else r.None?
  }

  /** `fits` is what an item needs besides readable names. */
  ghost predicate Lossless<T(!new)>(put: (nat, Table, T) -> Encoded, get: (seq<byte>, nat) -> Option<Read<T>>,
                                    same: (T, T) -> bool, reach: Reach<T>, fits: T -> bool, d: seq<byte>)
  {
    forall s: Spot, x: T {:trigger After(put, reach, s, x)} ::
      fits(x) && SpotOk(d, s) && At(d, s.base, put(s.base, s.table, x).bytes) ==> ItemRead(put, get, same, reach, d, s, x)
  }

  /** A list survives exactly if each item does in its turn: the reader finds every item where the writer
      left it, up to the first it cannot read. */
  lemma {:induction false} ListRoundTrip<T(!new)>(put: (nat, Table, T) -> Encoded, get: (seq<byte>, nat) -> Option<Read<T>>,
                                                  same: (T, T) -> bool, reach: Reach<T>, fits: T -> bool,
                                                  d: seq<byte>, s: Spot, xs: seq<T>)
    requires Lossless(put, get, same, reach, fits, d) && All(fits, xs)
    requires SpotOk(d, s) && At(d, s.base, PutAll(put, s.base, s.table, xs).bytes)
    ensures ListRead(put, get, same, reach, d, s, xs)
    decreases |xs|
  {
    if xs != [] {
      var to, first := After(put, reach, s, xs[0]), put(s.base, s.table, xs[0]);
      AtSplit(d, s.base, first.bytes, PutAll(put, to.base, to.table, xs[1..]).bytes);
      if reach.readable(s, xs[0]) { ListRoundTrip(put, get, same, reach, fits, d, to, xs[1..]); }
    }
  }

  lemma {:induction false} AfterAllSpot<T>(put: (nat, Table, T) -> Encoded, reach: Reach<T>, s: Spot, xs: seq<T>)
    ensures var e, to := PutAll(put, s.base, s.table, xs), AfterAll(put, reach, s, xs);
      to.base == s.base + |e.bytes| && to.table == e.table
    decreases |xs|
  {
    if xs != [] { AfterAllSpot(put, reach, After(put, reach, s, xs[0]), xs[1..]); }
  }

  /** Reading two lists in a row is reading one list. */
  lemma {:induction false} ReadAllSplit<T>(get: (seq<byte>, nat) -> Option<Read<T>>, d: seq<byte>, p: nat, i: nat, j: nat)
    ensures var r, all := ReadAll(get, d, p, i), ReadAll(get, d, p, i + j);
      if r.None? then all.None?
      else
        var rest := ReadAll(get, d, r.value.next, j);
        if rest.None? then all.None? else all == Some(Read(r.value.value + rest.value.value, rest.value.next))
    decreases i
  {
    if i == 0 {
      var rest := ReadAll(get, d, p, j);
      if rest.Some? { assert [] + rest.value.value == rest.value.value; }
    } else {
      var first := get(d, p);
      if first.Some? {
        ReadAllSplit(get, d, first.value.next, i - 1, j);
        var r := ReadAll(get, d, first.value.next, i - 1);
        if r.Some? {
          var rest := ReadAll(get, d, r.value.next, j);
          if rest.Some? { Regroup([first.value.value], r.value.value, rest.value.value); }
        }
      }
    }
  }

  lemma {:induction false} ReadThreeIsOne<T>(get: (seq<byte>, nat) -> Option<Read<T>>, d: seq<byte>, p: nat, i: nat,
                                             j: nat, k: nat)
    ensures var t, all := ReadThree(get, d, p, i, j, k), ReadAll(get, d, p, i + j + k);
      if t.None? then all.None?
      else all.Some? && all.value.value == t.value.first + t.value.second + t.value.third &&
           |t.value.first| == i && |t.value.second| == j && |t.value.third| == k
  {
    ReadAllSplit(get, d, p, i, j);
    ReadAllSplit(get, d, p, i + j, k);
  }

  /** What keeps the counts small keeps everything readable. */
  ghost predicate StaysReadable<T(!new)>(put: (nat, Table, T) -> Encoded, reach: Reach<T>, fits: T -> bool) {
    forall s: Spot, x: T {:trigger After(put, reach, s, x)} ::
      fits(x) && DepthsFew(s.depths) ==> reach.readable(s, x) && DepthsFew(After(put, reach, s, x).depths)
  }

  lemma {:induction false} FewReadable<T(!new)>(put: (nat, Table, T) -> Encoded, reach: Reach<T>, fits: T -> bool, s: Spot, xs: seq<T>)
    requires StaysReadable(put, reach, fits) && All(fits, xs) && DepthsFew(s.depths)
    ensures AllReadable(put, reach, s, xs) && DepthsFew(AfterAll(put, reach, s, xs).depths)
    decreases |xs|
  {
    if xs != [] {
      var to := After(put, reach, s, xs[0]);
      FewReadable(put, reach, fits, to, xs[1..]);
    }
  }

  lemma {:induction false} PutAllAppend<T>(put: (nat, Table, T) -> Encoded, base: nat, table: Table, a: seq<T>, b: seq<T>)
    ensures var e := PutAll(put, base, table, a);
      var f := PutAll(put, base + |e.bytes|, e.table, b);
      PutAll(put, base, table, a + b) == Encoded(e.bytes + f.bytes, f.table)
    decreases |a|
  {
    if a == [] {
      assert a + b == b;
    } else {
      var first := put(base, table, a[0]);
      var p := base + |first.bytes|;
      PutAllAppend(put, p, first.table, a[1..], b);
      assert (a + b)[1..] == a[1..] + b;
      var e := PutAll(put, p, first.table, a[1..]);
      Regroup(first.bytes, e.bytes, PutAll(put, p + |e.bytes|, e.table, b).bytes);
    }
  }
}
