/** Cast Streaming packets: the RTP header the receiver reads, frame-ID expansion, and AES-CTR as an
    XOR with an arbitrary keystream. */
module CastPacket {
  import opened Bytes

  const RTP_MIN_SIZE := 18

  datatype Rtp = Rtp(keyFrame: bool, frameId8: byte, packetId: uint16, maxPacketId: uint16, chunk: seq<byte>)

  /** Where the payload starts once `count` length-prefixed extensions are skipped. */
  function SkipExtensions(d: seq<byte>, off: nat, count: nat): (r: Option<nat>)
    ensures r.Some? ==> off <= r.value <= |d|
    decreases count
  {
    if count == 0 then (if off > |d| then None else Some(off))
    else if off + 2 > |d| then None
    else SkipExtensions(d, off + 2 + Be16(d, off) % 0x400, count - 1)
  }

  /** The Cast header, or None for a packet that is dropped. */
  function ParseRtp(d: seq<byte>): (r: Option<Rtp>)
    requires |d| >= RTP_MIN_SIZE
    ensures r.Some? ==> r.value.packetId <= r.value.maxPacketId < 0xFFFF
  {
    var packetId, maxPacketId := Be16(d, 14), Be16(d, 16);
    if maxPacketId == 0xFFFF || packetId > maxPacketId then None
    else
      match SkipExtensions(d, if d[12] / 0x40 % 2 == 1 then RTP_MIN_SIZE + 1 else RTP_MIN_SIZE, d[12] % 0x40)
      case None => None
      case Some(off) => Some(Rtp(d[12] >= 0x80, d[13], packetId, maxPacketId, d[off..]))
  }

  datatype Extension = Extension(kind: nat, data: seq<byte>)

  predicate ExtensionOk(e: Extension) { e.kind < 0x40 && |e.data| < 0x400 }

  predicate ExtensionsOk(es: seq<Extension>) { forall i :: 0 <= i < |es| ==> ExtensionOk(es[i]) }

  function PutExtension(e: Extension): seq<byte>
    requires ExtensionOk(e)
  {
    Put16(e.kind * 0x400 + |e.data|) + e.data
  }

  function PutExtensions(es: seq<Extension>): seq<byte>
    requires ExtensionsOk(es)
  {
    if es == [] then [] else PutExtension(es[0]) + PutExtensions(es[1..])
  }

  function HeaderFlags(keyFrame: bool, hasRefId: bool, count: nat): byte
    requires count < 0x40
  {
    (if keyFrame then 0x80 else 0) + (if hasRefId then 0x40 else 0) + count
  }

  lemma {:induction false} ReadFlags(keyFrame: bool, hasRefId: bool, count: nat)
    requires count < 0x40
    ensures var flags := HeaderFlags(keyFrame, hasRefId, count);
      (flags >= 0x80 <==> keyFrame) && (flags / 0x40 % 2 == 1 <==> hasRefId) && flags % 0x40 == count
  {
  }

  /** Bytes 12 to 17 of a packet. */
  function PutHeader(flags: byte, frameId8: byte, packetId: uint16, maxPacketId: uint16): (h: seq<byte>)
    ensures |h| == 6
  {
    [flags, frameId8] + Put16(packetId) + Put16(maxPacketId)
  }

  lemma {:induction false} ReadHeader(d: seq<byte>, flags: byte, frameId8: byte, packetId: uint16, maxPacketId: uint16)
    requires At(d, 12, PutHeader(flags, frameId8, packetId, maxPacketId))
    ensures |d| >= RTP_MIN_SIZE && d[12] == flags && d[13] == frameId8
    ensures Be16(d, 14) == packetId && Be16(d, 16) == maxPacketId
  {
    AtSplit(d, 12, [flags, frameId8] + Put16(packetId), Put16(maxPacketId));
    AtSplit(d, 12, [flags, frameId8], Put16(packetId));
    AtByte(d, 12, [flags, frameId8], 0);
    AtByte(d, 12, [flags, frameId8], 1);
    ReadBack16(d, 14, packetId);
    ReadBack16(d, 16, maxPacketId);
  }

  /** The packet a sender builds; `prefix` is the 12-byte RTP header proper. */
  function BuildRtp(prefix: seq<byte>, p: Rtp, refId: Option<byte>, es: seq<Extension>): (d: seq<byte>)
    requires |prefix| == 12 && |es| < 0x40 && ExtensionsOk(es)
    ensures |d| >= RTP_MIN_SIZE
  {
    prefix + PutHeader(HeaderFlags(p.keyFrame, refId.Some?, |es|), p.frameId8, p.packetId, p.maxPacketId) +
    (if refId.Some? then [refId.value] else []) + (PutExtensions(es) + p.chunk)
  }

  lemma {:induction false} FourParts(a: seq<byte>, h: seq<byte>, r: seq<byte>, t: seq<byte>)
    ensures At(a + h + r + t, |a|, h) && (a + h + r + t)[|a| + |h| + |r|..] == t
  {
  }

  lemma {:induction false} ExtensionLength(d: seq<byte>, off: nat, e: Extension, rest: seq<byte>)
    requires ExtensionOk(e) && off <= |d| && d[off..] == PutExtension(e) + rest
    ensures off + 2 <= |d| && Be16(d, off) % 0x400 == |e.data| && off + 2 + |e.data| <= |d| && d[off + 2 + |e.data|..] == rest
  {
    var head := PutExtension(e);
    assert d[off] == d[off..][0] == head[0] && d[off + 1] == d[off..][1] == head[1];
    assert Be16(d, off) == e.kind * 0x400 + |e.data|;
    assert d[off + 2 + |e.data|..] == d[off..][|head|..] == rest;
  }

  lemma {:induction false} SkipsBuilt(d: seq<byte>, off: nat, es: seq<Extension>, chunk: seq<byte>)
    requires ExtensionsOk(es) && off <= |d| && d[off..] == PutExtensions(es) + chunk
    ensures SkipExtensions(d, off, |es|) == Some(|d| - |chunk|) && d[|d| - |chunk|..] == chunk
    decreases |es|
  {
    if es == [] {
      assert PutExtensions(es) + chunk == chunk;
    } else {
      var rest := PutExtensions(es[1..]) + chunk;
      assert PutExtensions(es) + chunk == PutExtension(es[0]) + rest;
      ExtensionLength(d, off, es[0], rest);
      SkipsBuilt(d, off + 2 + |es[0].data|, es[1..], chunk);
    }
  }

  /** What a sender puts into a packet is what the receiver reads, whatever optional header parts it
      uses. */
  lemma {:induction false} ParseBuilt(prefix: seq<byte>, p: Rtp, refId: Option<byte>, es: seq<Extension>)
    requires |prefix| == 12 && |es| < 0x40 && ExtensionsOk(es)
    requires p.packetId <= p.maxPacketId < 0xFFFF
    ensures ParseRtp(BuildRtp(prefix, p, refId, es)) == Some(p)
  {
    var d := BuildRtp(prefix, p, refId, es);
    var flags := HeaderFlags(p.keyFrame, refId.Some?, |es|);
    var ref := if refId.Some? then [refId.value] else [];
    var rest := PutExtensions(es) + p.chunk;
    FourParts(prefix, PutHeader(flags, p.frameId8, p.packetId, p.maxPacketId), ref, rest);
    ReadHeader(d, flags, p.frameId8, p.packetId, p.maxPacketId);
    ReadFlags(p.keyFrame, refId.Some?, |es|);
    SkipsBuilt(d, 18 + |ref|, es, p.chunk);
  }

  // ---- Truncated counters ----------------------------------------------------------------------

  /** Among the 256 numbers from 128 below `reference` upwards, the one with these low 8 bits. */
  function ExpandFrameId(reference: int, truncated: byte): int {
    var max := reference + 127;
    var result := max - max % 0x100 + truncated;
    if result > max then result - 0x100 else result
  }

  /** Expansion recovers exactly the IDs in the window and nothing else. */
  lemma {:induction false} ExpandExact(reference: int, id: int)
    ensures ExpandFrameId(reference, id % 0x100) == id <==> reference - 128 <= id <= reference + 127
  {
  }

  // ---- Encryption ------------------------------------------------------------------------------

  /** `stream(iv, i)` is byte i of the keystream the stream's key yields for `iv`. */
  datatype Cipher = Cipher(mask: seq<byte>, stream: (seq<byte>, nat) -> byte)

  function Pow2(n: nat): nat { if n == 0 then 1 else 2 * Pow2(n - 1) }

  /** Bitwise exclusive or of the low `n` bits. */
  function XorBits(a: nat, b: nat, n: nat): (x: nat)
    ensures x < Pow2(n)
  {
    if n == 0 then 0 else (a % 2 + b % 2) % 2 + 2 * XorBits(a / 2, b / 2, n - 1)
  }

  function XorByte(a: byte, b: byte): byte { XorBits(a, b, 8) }

  lemma {:induction false} XorBit(a: nat, b: nat, y: nat)
    ensures var x := (a % 2 + b % 2) % 2 + 2 * y;
      x / 2 == y && (x % 2 + b % 2) % 2 == a % 2
  {
  }

  lemma {:induction false} XorBitsTwice(a: nat, b: nat, n: nat)
    requires a < Pow2(n)
    ensures XorBits(XorBits(a, b, n), b, n) == a
  {
    if n > 0 {
      var y := XorBits(a / 2, b / 2, n - 1);
      XorBit(a, b, y);
      XorBitsTwice(a / 2, b / 2, n - 1);
      var x := (a % 2 + b % 2) % 2 + 2 * y;
      assert XorBits(x, b, n) == (x % 2 + b % 2) % 2 + 2 * XorBits(x / 2, b / 2, n - 1);
    }
  }

  lemma {:induction false} XorTwice(a: byte, b: byte)
    ensures XorByte(XorByte(a, b), b) == a
  {
    XorBitsTwice(a, b, 8);
  }

  function XorAll(a: seq<byte>, b: seq<byte>): (c: seq<byte>)
    requires |a| == |b|
    ensures |c| == |a|
  {
    if a == [] then [] else [XorByte(a[0], b[0])] + XorAll(a[1..], b[1..])
  }

  /** The mask with the frame number, big-endian, combined into its bytes 8 to 11 by exclusive or. */
  function FrameIv(mask: seq<byte>, id: int): seq<byte>
    requires |mask| == 16
  {
    XorAll(mask, [0, 0, 0, 0, 0, 0, 0, 0] + Put32(id % 0x1_0000_0000) + [0, 0, 0, 0])
  }

  function CryptFrom(c: Cipher, iv: seq<byte>, data: seq<byte>, i: nat): seq<byte>
    decreases |data|
  {
    if data == [] then [] else [XorByte(data[0], c.stream(iv, i))] + CryptFrom(c, iv, data[1..], i + 1)
  }

  /** Counter mode: encryption and decryption are the same operation. */
  function Crypt(c: Cipher, id: int, data: seq<byte>): seq<byte>
    requires |c.mask| == 16
  {
    CryptFrom(c, FrameIv(c.mask, id), data, 0)
  }

  lemma {:induction false} CryptFromTwice(c: Cipher, iv: seq<byte>, data: seq<byte>, i: nat)
    ensures CryptFrom(c, iv, CryptFrom(c, iv, data, i), i) == data
    decreases |data|
  {
    if data != [] {
      var once := CryptFrom(c, iv, data, i);
      XorTwice(data[0], c.stream(iv, i));
      assert once[1..] == CryptFrom(c, iv, data[1..], i + 1);
      CryptFromTwice(c, iv, data[1..], i + 1);
      assert data == [data[0]] + data[1..];
    }
  }

  lemma {:induction false} CryptTwice(c: Cipher, id: int, data: seq<byte>)
    requires |c.mask| == 16
    ensures Crypt(c, id, Crypt(c, id, data)) == data
  {
    CryptFromTwice(c, FrameIv(c.mask, id), data, 0);
  }
}
