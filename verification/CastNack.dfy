/** The loss list and acknowledgement vector of Cast Feedback. */
module CastNack {
  import opened Bytes
  import opened CastPacket
  import opened CastStream

  const WHOLE_FRAME := 0xFFFF
  const MAX_LOSSES := 255

  // ---- Bit vectors -----------------------------------------------------------------------------

  /** Lowest bit first. */
  function Pack(flags: seq<bool>): (v: nat)
    ensures v < Pow2(|flags|)
  {
    if flags == [] then 0 else (if flags[0] then 1 else 0) + 2 * Pack(flags[1..])
  }

  function Unpack(v: nat, n: nat): (flags: seq<bool>)
    ensures |flags| == n
  {
    if n == 0 then [] else [v % 2 == 1] + Unpack(v / 2, n - 1)
  }

  lemma {:induction false} LowBit(b: bool, y: nat)
    ensures var x := (if b then 1 else 0) + 2 * y; (x % 2 == 1 <==> b) && x / 2 == y
  {
  }

  lemma {:induction false} UnpackPack(flags: seq<bool>)
    ensures Unpack(Pack(flags), |flags|) == flags
  {
    if flags != [] {
      LowBit(flags[0], Pack(flags[1..]));
      UnpackPack(flags[1..]);
      assert flags == [flags[0]] + flags[1..];
    }
  }

  lemma {:induction false} PackUnpack(v: nat, n: nat)
    requires v < Pow2(n)
    ensures Pack(Unpack(v, n)) == v
  {
    if n > 0 { PackUnpack(v / 2, n - 1); }
  }

  lemma {:induction false} PackEight(flags: seq<bool>)
    requires |flags| == 8
    ensures Pack(flags) < 0x100
  {
    assert Pow2(4) == 16;
    assert Pow2(8) == 256;
  }

  // ---- What is missing -------------------------------------------------------------------------

  datatype Missing = WholeFrame(id: int) | Packet(id: int, packetId: nat)

  function MissingPackets(id: int, have: seq<bool>, from: nat): seq<Missing>
    decreases |have| - from
  {
    if from >= |have| then []
    else (if have[from] then [] else [Packet(id, from)]) + MissingPackets(id, have, from + 1)
  }

  function MissingIn(s: Stream, id: int): seq<Missing> {
    if id in s.frames then MissingPackets(id, s.frames[id].have, 0) else [WholeFrame(id)]
  }

  /** Everything missing from frames `id` up to the newest, in order of frame and packet. */
  function MissingFrom(s: Stream, id: int): seq<Missing>
    decreases s.highest - id
  {
    if id >= s.highest then [] else MissingIn(s, id) + MissingFrom(s, id + 1)
  }

  predicate IsMissing(s: Stream, m: Missing) {
    s.checkpoint < m.id < s.highest &&
    match m
    case WholeFrame(id) => id !in s.frames
    case Packet(id, packetId) => id in s.frames && packetId < |s.frames[id].have| && !s.frames[id].have[packetId]
  }

  predicate Before(a: Missing, b: Missing) { a.id < b.id || (a.id == b.id && a.Packet? && b.Packet? && a.packetId < b.packetId) }

  predicate InOrder(ms: seq<Missing>) { forall i, j :: 0 <= i < j < |ms| ==> Before(ms[i], ms[j]) }

  lemma {:induction false} InOrderCons(m: Missing, rest: seq<Missing>)
    requires InOrder(rest) && forall x :: x in rest ==> Before(m, x)
    ensures InOrder([m] + rest)
  {
    var all := [m] + rest;
    forall i, j | 0 <= i < j < |all| ensures Before(all[i], all[j]) {
      assert all[j] == rest[j - 1];
      if i > 0 { assert all[i] == rest[i - 1]; }
    }
  }

  predicate IsMissingPacket(m: Missing, id: int, have: seq<bool>, from: nat) {
    m.Packet? && m.id == id && from <= m.packetId < |have| && !have[m.packetId]
  }

  lemma {:induction false} MissingPacketsExact(id: int, have: seq<bool>, from: nat)
    ensures InOrder(MissingPackets(id, have, from))
    ensures forall m :: m in MissingPackets(id, have, from) <==> IsMissingPacket(m, id, have, from)
    decreases |have| - from
  {
    if from < |have| {
      var rest := MissingPackets(id, have, from + 1);
      MissingPacketsExact(id, have, from + 1);
      if have[from] {
        assert [] + rest == rest;
      } else {
        InOrderCons(Packet(id, from), rest);
      }
      forall m ensures IsMissingPacket(m, id, have, from) <==>
        (!have[from] && m == Packet(id, from)) || IsMissingPacket(m, id, have, from + 1) {}
    }
  }

  lemma {:induction false} MissingExact(s: Stream, id: int)
    requires s.checkpoint < id
    ensures InOrder(MissingFrom(s, id))
    ensures forall m :: m in MissingFrom(s, id) <==> IsMissing(s, m) && m.id >= id
    decreases s.highest - id
  {
    if id < s.highest {
      if id in s.frames { MissingPacketsExact(id, s.frames[id].have, 0); }
      MissingExact(s, id + 1);
      var a, b := MissingIn(s, id), MissingFrom(s, id + 1);
      forall i, j | 0 <= i < j < |a + b| ensures Before((a + b)[i], (a + b)[j]) {
        if i < |a| <= j { assert (a + b)[i] in a && (a + b)[j] in b; }
      }
    }
  }

  // ---- The list --------------------------------------------------------------------------------

  /** One wire entry: a missing packet and, bit by bit, which of the next eight are missing too. */
  datatype Loss = Loss(frame: byte, packet: uint16, bits: byte)

  /** Packets `from` to from + 7: which exist and are missing. */
  function MissingFlags(have: seq<bool>, from: nat): (flags: seq<bool>)
    ensures |flags| == 8
  {
    seq(8, i requires 0 <= i < 8 => from + i < |have| && !have[from + i])
  }

  function LossAt(id: int, have: seq<bool>, packetId: nat): Loss
    requires packetId < 0xFFFF
  {
    PackEight(MissingFlags(have, packetId + 1));
    Loss(id % 0x100, packetId, Pack(MissingFlags(have, packetId + 1)))
  }

  function FrameLosses(id: int, have: seq<bool>, packetId: nat): seq<Loss>
    requires |have| <= 0xFFFF
    decreases |have| - packetId
  {
    if packetId >= |have| then []
    else if have[packetId] then FrameLosses(id, have, packetId + 1)
    else [LossAt(id, have, packetId)] + FrameLosses(id, have, packetId + 9)
  }

  function LossesIn(s: Stream, id: int): seq<Loss>
    requires StreamOk(s)
  {
    if id in s.frames then FrameLosses(id, s.frames[id].have, 0) else [Loss(id % 0x100, WHOLE_FRAME, 0)]
  }

  /** The list before it is cut off at 255 entries. */
  function LossesFrom(s: Stream, id: int): seq<Loss>
    requires StreamOk(s)
    decreases s.highest - id
  {
    if id >= s.highest then [] else LossesIn(s, id) + LossesFrom(s, id + 1)
  }

  function FirstLosses(all: seq<Loss>): seq<Loss> { if |all| <= MAX_LOSSES then all else all[..MAX_LOSSES] }

  function LossList(s: Stream): seq<Loss>
    requires StreamOk(s)
  {
    FirstLosses(LossesFrom(s, s.checkpoint + 1))
  }

  // ---- How the sender reads it -----------------------------------------------------------------

  /** The first ID after the checkpoint with these low 8 bits. */
  function FrameAfter(checkpoint: int, frame: byte): int { checkpoint + 1 + (frame - (checkpoint + 1)) % 0x100 }

  function FlaggedPackets(id: int, from: nat, flags: seq<bool>): seq<Missing>
    decreases |flags|
  {
    if flags == [] then []
    else (if flags[0] then [Packet(id, from)] else []) + FlaggedPackets(id, from + 1, flags[1..])
  }

  function Expand(checkpoint: int, l: Loss): seq<Missing> {
    var id := FrameAfter(checkpoint, l.frame);
    if l.packet == WHOLE_FRAME then [WholeFrame(id)]
    else [Packet(id, l.packet)] + FlaggedPackets(id, l.packet + 1, Unpack(l.bits, 8))
  }

  function ExpandAll(checkpoint: int, ls: seq<Loss>): seq<Missing> {
    if ls == [] then [] else Expand(checkpoint, ls[0]) + ExpandAll(checkpoint, ls[1..])
  }

  lemma {:induction false} FrameAfterExact(checkpoint: int, id: int)
    ensures FrameAfter(checkpoint, id % 0x100) == id <==> checkpoint < id <= checkpoint + 0x100
  {
  }

  predicate FlagsMissing(have: seq<bool>, from: nat, flags: seq<bool>) {
    forall i :: 0 <= i < |flags| ==> (flags[i] <==> from + i < |have| && !have[from + i])
  }

  lemma {:induction false} FlaggedIsMissing(id: int, have: seq<bool>, from: nat, flags: seq<bool>)
    requires FlagsMissing(have, from, flags)
    ensures FlaggedPackets(id, from, flags) + MissingPackets(id, have, from + |flags|) == MissingPackets(id, have, from)
    decreases |flags|
  {
    if flags != [] {
      forall i | 0 <= i < |flags[1..]| ensures flags[1..][i] <==> from + 1 + i < |have| && !have[from + 1 + i] {
        assert flags[1..][i] == flags[i + 1];
      }
      assert flags[0] <==> from < |have| && !have[from];
      FlaggedIsMissing(id, have, from + 1, flags[1..]);
      var head: seq<Missing> := if flags[0] then [Packet(id, from)] else [];
      Regroup(head, FlaggedPackets(id, from + 1, flags[1..]), MissingPackets(id, have, from + |flags|));
      assert from >= |have| ==> head + MissingPackets(id, have, from + 1) == [];
    }
  }

  lemma {:induction false} ExpandOne(checkpoint: int, id: int, have: seq<bool>, packetId: nat)
    requires |have| <= 0xFFFF && packetId < |have| && !have[packetId] && checkpoint < id <= checkpoint + MAX_FRAMES_AHEAD
    ensures Expand(checkpoint, LossAt(id, have, packetId)) + MissingPackets(id, have, packetId + 9) ==
            MissingPackets(id, have, packetId)
  {
    var flags := MissingFlags(have, packetId + 1);
    FrameAfterExact(checkpoint, id);
    UnpackPack(flags);
    FlaggedIsMissing(id, have, packetId + 1, flags);
  }

  lemma {:induction false} ExpandJoin(checkpoint: int, a: seq<Loss>, b: seq<Loss>)
    ensures ExpandAll(checkpoint, a + b) == ExpandAll(checkpoint, a) + ExpandAll(checkpoint, b)
  {
    if a == [] {
      assert a + b == b;
    } else {
      assert (a + b)[0] == a[0] && (a + b)[1..] == a[1..] + b;
      ExpandJoin(checkpoint, a[1..], b);
    }
  }

  lemma {:induction false} ExpandFrame(checkpoint: int, id: int, have: seq<bool>, packetId: nat)
    requires |have| <= 0xFFFF && checkpoint < id <= checkpoint + MAX_FRAMES_AHEAD
    ensures ExpandAll(checkpoint, FrameLosses(id, have, packetId)) == MissingPackets(id, have, packetId)
    decreases |have| - packetId
  {
    if packetId < |have| {
      if have[packetId] {
        ExpandFrame(checkpoint, id, have, packetId + 1);
      } else {
        ExpandFrame(checkpoint, id, have, packetId + 9);
        ExpandOne(checkpoint, id, have, packetId);
        var l, rest := LossAt(id, have, packetId), FrameLosses(id, have, packetId + 9);
        assert ([l] + rest)[1..] == rest;
      }
    }
  }

  lemma {:induction false} ExpandFrom(s: Stream, id: int)
    requires StreamOk(s) && s.checkpoint < id
    ensures ExpandAll(s.checkpoint, LossesFrom(s, id)) == MissingFrom(s, id)
    decreases s.highest - id
  {
    if id < s.highest {
      ExpandFrom(s, id + 1);
      ExpandJoin(s.checkpoint, LossesIn(s, id), LossesFrom(s, id + 1));
      if id in s.frames {
        ExpandFrame(s.checkpoint, id, s.frames[id].have, 0);
      } else {
        FrameAfterExact(s.checkpoint, id);
      }
    }
  }

  lemma {:induction false} PrefixInOrder(named: seq<Missing>, rest: seq<Missing>)
    requires InOrder(named + rest)
    ensures InOrder(named) && forall m :: m in named ==> m in named + rest
  {
    var all := named + rest;
    forall i, j | 0 <= i < j < |named| ensures Before(named[i], named[j]) { assert all[i] == named[i] && all[j] == named[j]; }
  }

  lemma {:induction false} CutAt(checkpoint: int, all: seq<Loss>) returns (rest: seq<Missing>)
    ensures ExpandAll(checkpoint, all) == ExpandAll(checkpoint, FirstLosses(all)) + rest
    ensures |FirstLosses(all)| < MAX_LOSSES ==> rest == []
  {
    var kept := FirstLosses(all);
    assert all == kept + all[|kept|..];
    ExpandJoin(checkpoint, kept, all[|kept|..]);
    rest := ExpandAll(checkpoint, all[|kept|..]);
  }

  lemma {:induction false} CutOff(s: Stream) returns (rest: seq<Missing>)
    requires StreamOk(s)
    ensures MissingFrom(s, s.checkpoint + 1) == ExpandAll(s.checkpoint, LossList(s)) + rest
    ensures |LossList(s)| < MAX_LOSSES ==> rest == []
  {
    ExpandFrom(s, s.checkpoint + 1);
    rest := CutAt(s.checkpoint, LossesFrom(s, s.checkpoint + 1));
  }

  /** The list names only packets that are missing, in order, each once; short of the cap it names
      every one of them. */
  lemma {:induction false} LossListExact(s: Stream)
    requires StreamOk(s)
    ensures var named := ExpandAll(s.checkpoint, LossList(s));
      InOrder(named) && named <= MissingFrom(s, s.checkpoint + 1) &&
      (forall m :: m in named ==> IsMissing(s, m)) &&
      (|LossList(s)| < 255 ==> forall m :: IsMissing(s, m) ==> m in named)
  {
    var rest := CutOff(s);
    MissingExact(s, s.checkpoint + 1);
    PrefixInOrder(ExpandAll(s.checkpoint, LossList(s)), rest);
  }

  // ---- The loops -------------------------------------------------------------------------------

  lemma {:induction false} WeightStep(w: nat, bit: nat, rest: nat)
    ensures w * (bit + 2 * rest) == w * bit + 2 * w * rest
  {
  }

  method CollectBits(have: seq<bool>, packetId: nat) returns (bits: byte)
    ensures bits == Pack(MissingFlags(have, packetId + 1))
  {
    ghost var flags := MissingFlags(have, packetId + 1);
    PackEight(flags);
    var sum, weight, i := 0, 1, 1;
    while i <= 8 && packetId + i < |have|
      invariant 1 <= i <= 9 && weight >= 1 && sum >= 0
      invariant sum + weight * Pack(flags[i - 1..]) == Pack(flags)
    {
      assert flags[i - 1..][1..] == flags[i..];
      WeightStep(weight, if flags[i - 1] then 1 else 0, Pack(flags[i..]));
      if !have[packetId + i] { sum := sum + weight; }
      weight := 2 * weight;
      i := i + 1;
    }
    NoFlags(flags[i - 1..]);
    bits := sum;
  }

  lemma {:induction false} NoFlags(flags: seq<bool>)
    requires forall i :: 0 <= i < |flags| ==> !flags[i]
    ensures Pack(flags) == 0
  {
    if flags != [] { NoFlags(flags[1..]); }
  }

  /** Appends one frame's entries, as far as there is room. */
  method AddFrameLosses(id: int, have: seq<bool>, before: seq<Loss>) returns (losses: seq<Loss>)
    requires |have| <= 0xFFFF && |before| < MAX_LOSSES
    ensures losses == FirstLosses(before + FrameLosses(id, have, 0))
  {
    losses := before;
    var packetId := 0;
    while packetId < |have| && |losses| < MAX_LOSSES
      invariant |losses| <= MAX_LOSSES
      invariant losses + FrameLosses(id, have, packetId) == before + FrameLosses(id, have, 0)
      decreases |have| - packetId
    {
      if !have[packetId] {
        var bits := CollectBits(have, packetId);
        var l := Loss(id % 0x100, packetId, bits);
        assert losses + ([l] + FrameLosses(id, have, packetId + 9)) == (losses + [l]) + FrameLosses(id, have, packetId + 9);
        losses := losses + [l];
        packetId := packetId + 8;
      }
      packetId := packetId + 1;
    }
    var all := before + FrameLosses(id, have, 0);
    if |losses| < MAX_LOSSES {
      assert FrameLosses(id, have, packetId) == [] && losses == all;
    } else {
      assert all[..MAX_LOSSES] == losses;
    }
  }

  lemma {:induction false} FirstAgain(a: seq<Loss>, b: seq<Loss>, c: seq<Loss>)
    ensures FirstLosses(FirstLosses(a + b) + c) == FirstLosses(a + (b + c))
  {
    assert (a + b) + c == a + (b + c);
    if |a + b| > MAX_LOSSES {
      assert (a + b)[..MAX_LOSSES] == (a + (b + c))[..MAX_LOSSES];
    }
  }

  lemma {:induction false} LossesStep(s: Stream, id: int, losses: seq<Loss>)
    requires StreamOk(s) && id < s.highest
    ensures FirstLosses(FirstLosses(losses + LossesIn(s, id)) + LossesFrom(s, id + 1)) == FirstLosses(losses + LossesFrom(s, id))
  {
    FirstAgain(losses, LossesIn(s, id), LossesFrom(s, id + 1));
  }

  /** One frame's entries; `goal` is where the loop ends up. */
  method NextLosses(s: Stream, id: int, before: seq<Loss>, ghost goal: seq<Loss>) returns (losses: seq<Loss>)
    requires StreamOk(s) && id < s.highest && |before| < MAX_LOSSES
    requires FirstLosses(before + LossesFrom(s, id)) == goal
    ensures FirstLosses(losses + LossesFrom(s, id + 1)) == goal && |losses| <= MAX_LOSSES
  {
    LossesStep(s, id, before);
    losses := AddLosses(s, id, before);
  }

  method CollectLosses(s: Stream) returns (losses: seq<Loss>)
    requires StreamOk(s)
    ensures losses == LossList(s)
  {
    losses := [];
    var id := s.checkpoint + 1;
    ghost var goal := LossList(s);
    assert [] + LossesFrom(s, id) == LossesFrom(s, id);
    while id < s.highest && |losses| < MAX_LOSSES
      invariant |losses| <= MAX_LOSSES
      invariant FirstLosses(losses + LossesFrom(s, id)) == goal
      decreases s.highest - id
    {
      losses := NextLosses(s, id, losses, goal);
      id := id + 1;
    }
    NothingCutOff(losses, LossesFrom(s, id));
  }

  method AddLosses(s: Stream, id: int, before: seq<Loss>) returns (losses: seq<Loss>)
    requires StreamOk(s) && |before| < MAX_LOSSES
    ensures losses == FirstLosses(before + LossesIn(s, id)) && |losses| <= MAX_LOSSES
  {
    if id !in s.frames {
      losses := before + [Loss(id % 0x100, WHOLE_FRAME, 0)];
    } else {
      losses := AddFrameLosses(id, s.frames[id].have, before);
    }
  }

  lemma {:induction false} NothingCutOff(a: seq<Loss>, b: seq<Loss>)
    requires |a| == MAX_LOSSES || (|a| < MAX_LOSSES && b == [])
    ensures FirstLosses(a + b) == a
  {
    if |a| == MAX_LOSSES { assert (a + b)[..MAX_LOSSES] == a; } else { assert a + b == a; }
  }

  // ---- Acknowledgements ------------------------------------------------------------------------

  /** Bit i acknowledges frame checkpoint + 2 + i. */
  function AckFlags(s: Stream): (flags: seq<bool>)
    ensures |flags| == 16
  {
    seq(16, i requires 0 <= i < 16 => s.checkpoint + 2 + i in s.frames && Complete(s.frames[s.checkpoint + 2 + i]))
  }

  /** Goes through the buffered frames in ascending order. */
  method CollectAcks(s: Stream) returns (acks: seq<byte>)
    requires StreamOk(s)
    ensures |acks| == 2
    ensures Unpack(acks[0], 8) + Unpack(acks[1], 8) == AckFlags(s)
  {
    var flags := seq(16, i => false);
    var id := s.checkpoint + 1;
    while id <= s.highest
      invariant |flags| == 16 && id > s.checkpoint
      invariant forall i :: 0 <= i < 16 ==> (flags[i] <==> s.checkpoint + 2 + i < id && AckFlags(s)[i])
      decreases s.highest - id
    {
      var bit := id - (s.checkpoint + 2);
      if id in s.frames && 0 <= bit < 16 && Complete(s.frames[id]) { flags := flags[bit := true]; }
      id := id + 1;
    }
    assert flags == AckFlags(s);
    PackEight(flags[..8]);
    PackEight(flags[8..]);
    UnpackPack(flags[..8]);
    UnpackPack(flags[8..]);
    acks := [Pack(flags[..8]), Pack(flags[8..])];
    assert flags[..8] + flags[8..] == flags;
  }
}
