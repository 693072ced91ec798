/** The receiver of one Cast stream as the program holds it: fields updated step by step, each method
    proved against the step functions of CastStream. */
module CastReceiver {
  import opened Bytes
  import opened CastPacket
  import S = CastStream
  import R = CastRefinement

  /** Walks the length-prefixed header extensions. */
  method WalkExtensions(d: seq<byte>, start: nat, count: nat) returns (off: Option<nat>)
    ensures off == SkipExtensions(d, start, count)
  {
    var at: nat, i := start, 0;
    while i < count
      invariant i <= count
      invariant at >= 0 && SkipExtensions(d, start, count) == SkipExtensions(d, at, count - i)
    {
      if at + 2 > |d| { return None; }
      at := at + 2 + (Be16(d, at) as int) % 0x400;
      i := i + 1;
    }
    if at > |d| { return None; }
    return Some(at);
  }

  method ReadRtp(d: seq<byte>) returns (p: Option<Rtp>)
    requires |d| >= RTP_MIN_SIZE
    ensures p == ParseRtp(d)
  {
    var packetId, maxPacketId := Be16(d, 14), Be16(d, 16);
    if maxPacketId == 0xFFFF || packetId > maxPacketId { return None; }
    var start := RTP_MIN_SIZE;
    if d[12] / 0x40 % 2 == 1 { start := start + 1; }
    var off := WalkExtensions(d, start, d[12] % 0x40);
    if off.None? { return None; }
    return Some(Rtp(d[12] >= 0x80, d[13], packetId, maxPacketId, d[off.value..]));
  }

  method Concatenate(chunks: seq<seq<byte>>) returns (data: seq<byte>)
    ensures data == Concat(chunks)
  {
    data := [];
    var i := 0;
    while i < |chunks|
      invariant i <= |chunks|
      invariant data + Concat(chunks[i..]) == Concat(chunks)
    {
      assert chunks[i..][0] == chunks[i] && chunks[i..][1..] == chunks[i + 1..];
      assert data + (chunks[i] + Concat(chunks[i + 1..])) == (data + chunks[i]) + Concat(chunks[i + 1..]);
      data := data + chunks[i];
      i := i + 1;
    }
    assert Concat(chunks[i..]) == [];
  }

  /** The initialisation vector, then the keystream, byte by byte. */
  method Decrypt(c: Cipher, id: int, data: seq<byte>) returns (plain: seq<byte>)
    requires |c.mask| == 16
    ensures plain == Crypt(c, id, data)
  {
    var iv := FrameIv(c.mask, id);
    plain := [];
    var i := 0;
    while i < |data|
      invariant i <= |data|
      invariant plain + CryptFrom(c, iv, data[i..], i) == CryptFrom(c, iv, data, 0)
    {
      var next := XorByte(data[i], c.stream(iv, i));
      assert data[i..][0] == data[i] && data[i..][1..] == data[i + 1..];
      assert plain + ([next] + CryptFrom(c, iv, data[i + 1..], i + 1)) ==
        (plain + [next]) + CryptFrom(c, iv, data[i + 1..], i + 1);
      plain := plain + [next];
      i := i + 1;
    }
    assert CryptFrom(c, iv, data[i..], i) == [];
  }

  /** What the callback sees of the frames that leave the buffer. */
  function Handed(fails: int -> bool, fs: seq<S.Frame>): seq<S.Frame>
    decreases |fs|
  {
    if fs == [] then []
    else Handed(fails, fs[..|fs| - 1]) + if fails(fs[|fs| - 1].id) then [] else [fs[|fs| - 1]]
  }

  lemma {:induction false} HandedNext(fails: int -> bool, fs: seq<S.Frame>, f: S.Frame)
    ensures Handed(fails, fs + [f]) == Handed(fails, fs) + if fails(f.id) then [] else [f]
  {
    assert (fs + [f])[..|fs|] == fs;
  }

  lemma {:induction false} HandedMembers(fails: int -> bool, fs: seq<S.Frame>, f: S.Frame)
    ensures f in Handed(fails, fs) <==> f in fs && !fails(f.id)
    decreases |fs|
  {
    if fs != [] {
      var before, last := fs[..|fs| - 1], fs[|fs| - 1];
      HandedMembers(fails, before, f);
      assert fs == before + [last];
    }
  }

  lemma {:induction false} HandedOrder(fails: int -> bool, fs: seq<S.Frame>)
    requires R.Increasing(fs)
    ensures R.Increasing(Handed(fails, fs))
    decreases |fs|
  {
    if fs != [] {
      var before, last := fs[..|fs| - 1], fs[|fs| - 1];
      HandedOrder(fails, before);
      var hs := Handed(fails, before);
      forall i | 0 <= i < |hs| ensures hs[i].id < last.id { HandedMembers(fails, before, hs[i]); }
    }
  }

  lemma {:induction false} HandedAll(fails: int -> bool, fs: seq<S.Frame>)
    requires forall i :: 0 <= i < |fs| ==> !fails(fs[i].id)
    ensures Handed(fails, fs) == fs
    decreases |fs|
  {
    if fs != [] { HandedAll(fails, fs[..|fs| - 1]); }
  }

  /** Over any run the callback sees, in order of ID, each frame that left the buffer and could be decrypted,
      and no other; if none fails it sees them all. */
  lemma {:induction false} CallbackSees(video: bool, delay: int, c: Cipher, fails: int -> bool, es: seq<R.Event>)
    requires |c.mask| == 16 && R.EventsOk(es)
    ensures var fs := R.Run(S.NewStream(video, delay, c), es).delivered; var seen := Handed(fails, fs);
      R.Increasing(seen) && (forall f :: f in seen <==> f in fs && !fails(f.id)) &&
      ((forall i :: 0 <= i < |fs| ==> !fails(fs[i].id)) ==> seen == fs)
  {
    var fs := R.Run(S.NewStream(video, delay, c), es).delivered;
    R.OutputIsOrdered(video, delay, c, es);
    HandedOrder(fails, fs);
    forall f ensures f in Handed(fails, fs) <==> f in fs && !fails(f.id) { HandedMembers(fails, fs, f); }
    if forall i :: 0 <= i < |fs| ==> !fails(fs[i].id) { HandedAll(fails, fs); }
  }

  class Receiver {
    const video: bool
    const targetDelayMs: int
    const cipher: Cipher
    var highest: int
    var checkpoint: int
    var frames: map<int, S.Pending>
    var stalledSince: Option<int>
    var haveSeq: bool
    var maxSeq: uint16
    var seqCycles: uint32
    var pliPending: bool
    /** The frames that left the buffer in order, decrypted as they should be. */
    ghost var delivered: seq<S.Frame>
    /** The frames whose decryption the library refuses, and the calls made to the frame callback. */
    const fails: int -> bool
    var handed: seq<S.Frame>

    ghost function Value(): S.Stream
      reads this
    {
      S.Stream(video, targetDelayMs, cipher, highest, checkpoint, frames, stalledSince, haveSeq, maxSeq, seqCycles,
               pliPending, delivered)
    }

    /** The callback has seen every frame that could be decrypted. */
    ghost predicate HandedOver()
      reads `handed, `delivered
    {
      handed == Handed(fails, delivered)
    }

    ghost predicate Valid()
      reads this
    {
      S.StreamOk(Value()) && HandedOver()
    }

    constructor (video: bool, targetDelayMs: int, cipher: Cipher, fails: int -> bool)
      requires |cipher.mask| == 16
      ensures Valid() && Value() == S.NewStream(video, targetDelayMs, cipher) && this.fails == fails
    {
      this.video, this.targetDelayMs, this.cipher, this.fails, this.handed := video, targetDelayMs, cipher, fails, [];
      highest, checkpoint, frames, stalledSince := 0, -1, map[], None;
      haveSeq, maxSeq, seqCycles, pliPending, delivered := false, 0, 0, false, [];
    }

    method TrackSequence(seqNo: uint16)
      modifies `haveSeq, `maxSeq, `seqCycles
      ensures Value() == S.TrackSeq(old(Value()), seqNo)
    {
      if !haveSeq {
        haveSeq := true;
        maxSeq := seqNo;
      } else if (seqNo - maxSeq) % 0x1_0000 < 0x8000 {
        if seqNo < maxSeq { seqCycles := (seqCycles + 1) % 0x1_0000_0000; }
        maxSeq := seqNo;
      }
    }

    method HandOver(f: S.Frame)
      requires HandedOver()
      modifies `handed, `delivered
      ensures delivered == old(delivered) + [f] && HandedOver()
    {
      HandedNext(fails, delivered, f);
      delivered := delivered + [f];
      if !fails(f.id) { handed := handed + [f]; }
    }

    method DecryptFront() returns (f: S.Frame)
      requires S.Ready(Value()) && |cipher.mask| == 16
      ensures var g := frames[checkpoint + 1];
        f == S.Frame(checkpoint + 1, Crypt(cipher, checkpoint + 1, Concat(g.chunks)), g.keyFrame)
    {
      var frame := frames[checkpoint + 1];
      var data := Concatenate(frame.chunks);
      data := Decrypt(cipher, checkpoint + 1, data);
      return S.Frame(checkpoint + 1, data, frame.keyFrame);
    }

    /** Decrypts frame checkpoint + 1 and hands it over; it leaves the buffer even if it cannot be decrypted. */
    method DeliverFront()
      requires S.AlmostOk(Value()) && S.Ready(Value()) && HandedOver()
      modifies this
      ensures Value() == S.DeliverOne(old(Value())).(stalledSince := old(stalledSince)) && HandedOver()
    {
      var f := DecryptFront();
      HandOver(f);
      if f.keyFrame { pliPending := false; }
      frames := frames - {f.id};
      checkpoint := f.id;
    }

    /** In the middle of the delivery loop that began at `start` and will end at `goal`. */
    ghost predicate Delivering(start: S.Stream, goal: S.Stream, advanced: bool)
      reads this
    {
      S.AlmostOk(Value()) && HandedOver() &&
      if advanced then S.Ready(start) && goal == S.DeliverReady(Value().(stalledSince := None))
      else Value() == start && goal == S.DeliverReady(start)
    }

    /** One turn of the loop. */
    method DeliverNext(ghost start: S.Stream, ghost goal: S.Stream, ghost advanced: bool)
      requires Delivering(start, goal, advanced) && S.Ready(Value())
      modifies this
      ensures Delivering(start, goal, true) && |frames| < |old(frames)|
    {
      ghost var before := Value();
      S.DeliverTurn(before, before);
      S.DeliverTurn(before, before.(stalledSince := None));
      DeliverFront();
      assert Value().(stalledSince := None) == S.DeliverOne(before);
    }

    /** The loop: frames go out as long as the front one is complete. */
    method DeliverWhileReady(ghost start: S.Stream, ghost goal: S.Stream) returns (advanced: bool)
      requires Delivering(start, goal, false)
      modifies this
      ensures Delivering(start, goal, advanced) && !S.Ready(Value())
    {
      advanced := false;
      while checkpoint + 1 in frames && S.Complete(frames[checkpoint + 1])
        invariant Delivering(start, goal, advanced)
        decreases |frames|
      {
        DeliverNext(start, goal, advanced);
        advanced := true;
      }
    }

    /** Whether a report goes out, which it does when the checkpoint advances. */
    method DeliverReadyFrames() returns (advanced: bool)
      requires S.AlmostOk(Value()) && HandedOver()
      modifies this
      ensures Value() == S.DeliverReady(old(Value())) && Valid()
      ensures advanced == S.Ready(old(Value())) == (checkpoint > old(checkpoint))
    {
      R.ReadyDelivers(Value());
      S.DeliverReadyKeeps(Value());
      advanced := DeliverWhileReady(Value(), S.DeliverReady(Value()));
      if advanced { stalledSince := None; }
    }

    method StoreChunk(f: S.Pending, p: Rtp) returns (g: S.Pending)
      requires p.packetId < |f.have| == |f.chunks|
      ensures g == S.Store(f, p)
    {
      g := f;
      if p.packetId == 0 { g := g.(keyFrame := p.keyFrame); }
      if g.have[p.packetId] { return; }
      g := g.(have := g.have[p.packetId := true]);
      g := g.(chunks := g.chunks[p.packetId := p.chunk]);
      g := g.(received := g.received + 1);
    }

    /** One packet of a frame inside the window. */
    method StorePacket(p: Rtp, id: int) returns (report: bool)
      requires Valid() && S.InWindow(Value(), id) && p.packetId <= p.maxPacketId < 0xFFFF
      modifies this
      ensures Value() == S.AcceptPacket(old(Value()), p, id) && Valid()
      ensures report == (checkpoint > old(checkpoint))
    {
      report := false;
      ghost var before := Value();
      S.AcceptKeeps(before, p, id);
      highest := Max(highest, id);
      S.CountNone(p.maxPacketId + 1);
      var f := if id in frames then frames[id] else S.FreshPending(p.maxPacketId);
      if f.maxPacketId != p.maxPacketId { return; }
      S.StoredKeeps(before, f, p, id);
      var g := StoreChunk(f, p);
      frames := frames[id := g];
      assert Value() == S.Stored(before, f, p, id);
      if f.have[p.packetId] { return; }
      if S.Complete(g) && id == checkpoint + 1 {
        report := DeliverReadyFrames();
      }
    }

    /** Whether a report goes out: exactly when the checkpoint moved. */
    method HandleRtp(d: seq<byte>) returns (report: bool)
      requires Valid() && |d| >= RTP_MIN_SIZE
      modifies this
      ensures Value() == S.HandleRtp(old(Value()), d) && Valid()
      ensures report == (checkpoint > old(checkpoint))
    {
      report := false;
      TrackSequence(Be16(d, 2));
      var p := ReadRtp(d);
      if p.None? { return; }
      var id := ExpandFrameId(highest, p.value.frameId8);
      if id <= checkpoint || id > checkpoint + S.MAX_FRAMES_AHEAD { return; }
      report := StorePacket(p.value, id);
    }

    /** The lowest buffered frame to resume at, looked for in ascending order of ID. */
    method FindResume() returns (found: Option<int>)
      ensures found == S.FindResume(Value(), checkpoint + 1)
    {
      var id := checkpoint + 1;
      while id <= highest
        invariant S.FindResume(Value(), checkpoint + 1) == S.FindResume(Value(), id)
        decreases highest - id
      {
        if id in frames && S.Complete(frames[id]) && (!video || frames[id].keyFrame) { return Some(id); }
        id := id + 1;
      }
      return None;
    }

    /** Gives up everything below `id` and carries on there. */
    method ResumeAt(id: int) returns (report: bool)
      requires Valid() && checkpoint < id <= highest && S.Resumable(Value(), id)
      modifies this
      ensures Value() == S.DeliverReady(S.DropBelow(old(Value()), id))
      ensures HandedOver()
      ensures report && checkpoint > old(checkpoint)
    {
      ghost var before := Value();
      S.DropKeeps(before, id);
      frames := map k | k in frames && k >= id :: frames[k];
      checkpoint := id - 1;
      assert Value() == S.DropBelow(before, id);
      report := DeliverReadyFrames();
    }

    /** The stall has lasted: give up the frames before the one to resume at, or ask for a key frame. */
    method GiveUp() returns (report: bool)
      requires Valid()
      modifies this
      ensures Value() == match S.FindResume(old(Value()), old(checkpoint) + 1)
        case Some(id) => S.DeliverReady(S.DropBelow(old(Value()), id))
        case None => if video then old(Value()).(pliPending := true) else old(Value())
      ensures HandedOver()
      ensures report == (checkpoint > old(checkpoint) || (pliPending && !old(pliPending)))
    {
      S.FindResumeExact(Value(), checkpoint + 1);
      report := false;
      var found := FindResume();
      if found.Some? {
        report := ResumeAt(found.value);
      } else if video && !pliPending {
        pliPending := true;
        report := true;
      }
    }

    /** A report goes out exactly when frames were given up or a key frame is newly asked for. */
    method SkipStalledFrames(now: int) returns (report: bool)
      requires Valid()
      modifies this
      ensures Value() == S.SkipStalled(old(Value()), now) && Valid()
      ensures report == (checkpoint > old(checkpoint) || (pliPending && !old(pliPending)))
    {
      report := false;
      S.SkipKeeps(Value(), now);
      var blocked := frames != map[] && (checkpoint + 1 !in frames || !S.Complete(frames[checkpoint + 1])) &&
                     highest > checkpoint + 1;
      assert blocked == S.Blocked(Value());
      if !blocked {
        stalledSince := None;
      } else if stalledSince.None? {
        stalledSince := Some(now);
      } else if now - stalledSince.value >= 1000 * Max(targetDelayMs, S.MIN_STALL_MS) {
        report := GiveUp();
      }
    }
  }
}
