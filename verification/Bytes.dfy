/** Fixed-width integers, big-endian fields and byte-string layout shared by every wire format. */
module Bytes {
  type byte = x: int | 0 <= x < 0x100
  type uint16 = x: int | 0 <= x < 0x1_0000
  type uint32 = x: int | 0 <= x < 0x1_0000_0000
  type uint64 = x: int | 0 <= x < 0x1_0000_0000_0000_0000

  datatype Option<+T> = None | Some(value: T)

  function Min(a: int, b: int): int { if a <= b then a else b }

  function Max(a: int, b: int): int { if a >= b then a else b }

  function Put16(v: uint16): seq<byte> { [v / 0x100, v % 0x100] }

  function Put32(v: uint32): seq<byte> { Put16(v / 0x1_0000) + Put16(v % 0x1_0000) }

  function Put64(v: uint64): seq<byte> { Put32(v / 0x1_0000_0000) + Put32(v % 0x1_0000_0000) }

  function Be16(d: seq<byte>, p: nat): uint16
    requires p + 2 <= |d|
  {
    d[p] as int * 0x100 + d[p + 1]
  }

  function Be32(d: seq<byte>, p: nat): uint32
    requires p + 4 <= |d|
  {
    Be16(d, p) as int * 0x1_0000 + Be16(d, p + 2)
  }

  function Be64(d: seq<byte>, p: nat): uint64
    requires p + 8 <= |d|
  {
    Be32(d, p) as int * 0x1_0000_0000 + Be32(d, p + 4)
  }

  /** Network byte order: the most significant octet comes first, in writing as in reading. */
  lemma {:induction false} MostSignificantFirst(d: seq<byte>, p: nat, v: uint32, w: uint16)
    requires p + 4 <= |d|
    ensures Be16(d, p) == 256 * d[p] as int + d[p + 1]
    ensures Be32(d, p) == 16777216 * d[p] as int + 65536 * d[p + 1] as int + 256 * d[p + 2] as int + d[p + 3]
    ensures Put16(w) == [w / 256, w % 256] && Put32(v) == [v / 16777216, v / 65536 % 256, v / 256 % 256, v % 256]
  {
    var high, low := v / 65536, v % 65536;
    assert v == high * 65536 + low && high == high / 256 * 256 + high % 256 && low == low / 256 * 256 + low % 256;
    assert v / 16777216 == high / 256 && v / 256 == high * 256 + low / 256;
  }

  /** The bytes `chunk` stand in `d` at offset `p`. */
  ghost predicate At(d: seq<byte>, p: nat, chunk: seq<byte>) {
    p + |chunk| <= |d| && forall i :: 0 <= i < |chunk| ==> d[p + i] == chunk[i]
  }

  lemma {:induction false} AtSplit(d: seq<byte>, p: nat, a: seq<byte>, b: seq<byte>)
    requires At(d, p, a + b)
    ensures At(d, p, a) && At(d, p + |a|, b)
  {
    forall i | 0 <= i < |a| ensures d[p + i] == a[i] { assert (a + b)[i] == a[i]; }
    forall i | 0 <= i < |b| ensures d[p + |a| + i] == b[i] { assert (a + b)[|a| + i] == b[i]; }
  }

  lemma {:induction false} AtByte(d: seq<byte>, p: nat, a: seq<byte>, i: nat)
    requires At(d, p, a) && i < |a|
    ensures d[p + i] == a[i]
  {
  }

  lemma {:induction false} AtSlice(d: seq<byte>, p: nat, a: seq<byte>)
    requires At(d, p, a)
    ensures d[p..p + |a|] == a
  {
  }

  lemma {:induction false} ReadBack16(d: seq<byte>, p: nat, v: uint16)
    requires At(d, p, Put16(v))
    ensures Be16(d, p) == v
  {
    AtByte(d, p, Put16(v), 0);
    AtByte(d, p, Put16(v), 1);
  }

  lemma {:induction false} ReadBack32(d: seq<byte>, p: nat, v: uint32)
    requires At(d, p, Put32(v))
    ensures Be32(d, p) == v
  {
    AtSplit(d, p, Put16(v / 0x1_0000), Put16(v % 0x1_0000));
    ReadBack16(d, p, v / 0x1_0000);
    ReadBack16(d, p + 2, v % 0x1_0000);
  }

  lemma {:induction false} ReadBack64(d: seq<byte>, p: nat, v: uint64)
    requires At(d, p, Put64(v))
    ensures Be64(d, p) == v
  {
    AtSplit(d, p, Put32(v / 0x1_0000_0000), Put32(v % 0x1_0000_0000));
    ReadBack32(d, p, v / 0x1_0000_0000);
    ReadBack32(d, p + 4, v % 0x1_0000_0000);
  }

  function Concat(chunks: seq<seq<byte>>): seq<byte> { if chunks == [] then [] else chunks[0] + Concat(chunks[1..]) }

  /** The strings of a TXT record, each with its length in front. */
  function ReadStrings(d: seq<byte>): Option<seq<seq<byte>>> {
    if d == [] then Some([])
    else if |d| < 1 + (d[0] as int) then None
    else
      match ReadStrings(d[1 + (d[0] as int)..])
      case None => None
      case Some(rest) => Some([d[1..1 + (d[0] as int)]] + rest)
  }

  lemma {:induction false} Regroup<T>(a: seq<T>, b: seq<T>, c: seq<T>)
    ensures a + (b + c) == (a + b) + c
  {
  }
}
