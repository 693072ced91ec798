/** The AirShow media stream: 16-byte frame headers, the receiver's reassembly of TCP bytes, and two
    sender threads that share one output stream under a lock. */
module AirShowStream {
  import opened Bytes

  const HEADER_SIZE := 16
  const TYPE_VIDEO: byte := 1
  const TYPE_AUDIO: byte := 2
  const NEWLINE: byte := 10
  /** Longest payload the receiver's 32-bit size computation can handle, plus one. */
  const LENGTH_LIMIT := 0x8000_0000 - HEADER_SIZE

  type int64 = x: int | -0x8000_0000_0000_0000 <= x < 0x8000_0000_0000_0000

  datatype Frame = Frame(kind: byte, flags: byte, pts: int64, payload: seq<byte>)

  // ---- Headers ---------------------------------------------------------------------------------

  function Unsigned(v: int64): uint64 { if v < 0 then v + 0x1_0000_0000_0000_0000 else v }

  function Signed(v: uint64): int64 { if v >= 0x8000_0000_0000_0000 then v - 0x1_0000_0000_0000_0000 else v }

  function PutHeader(kind: byte, flags: byte, length: uint32, pts: int64): (h: seq<byte>)
    ensures |h| == HEADER_SIZE
  {
    [kind, flags] + (Put32(length) + (Put64(Unsigned(pts)) + [0, 0]))
  }

  predicate FrameOk(f: Frame) { 0 < |f.payload| < LENGTH_LIMIT }

  /** A JVM array has fewer than 2^31 elements. */
  predicate Writable(f: Frame) { |f.payload| < 0x8000_0000 }

  /** Both threads pass over what is empty. */
  predicate Sendable(f: Frame) { Writable(f) && f.payload != [] }

  function HeaderOf(f: Frame): seq<byte>
    requires Writable(f)
  {
    PutHeader(f.kind, f.flags, |f.payload|, f.pts)
  }

  function PutFrame(f: Frame): seq<byte>
    requires Writable(f)
  {
    HeaderOf(f) + f.payload
  }

  lemma {:induction false} ReadHeader(d: seq<byte>, kind: byte, flags: byte, length: uint32, pts: int64)
    requires At(d, 0, PutHeader(kind, flags, length, pts))
    ensures |d| >= HEADER_SIZE && d[0] == kind && d[1] == flags && Be32(d, 2) == length && Signed(Be64(d, 6)) == pts
  {
    AtSplit(d, 0, [kind, flags], Put32(length) + (Put64(Unsigned(pts)) + [0, 0]));
    AtByte(d, 0, [kind, flags], 0);
    AtByte(d, 0, [kind, flags], 1);
    AtSplit(d, 2, Put32(length), Put64(Unsigned(pts)) + [0, 0]);
    ReadBack32(d, 2, length);
    AtSplit(d, 6, Put64(Unsigned(pts)), [0, 0]);
    ReadBack64(d, 6, Unsigned(pts));
  }

  lemma {:induction false} UnsignedIs(pts: int64)
    ensures Unsigned(pts) == pts % 0x1_0000_0000_0000_0000
  {
  }

  /** A header: type (1 video, 2 audio), flags, length in four octets, time in eight as a two's complement
      number, and two octets of zero, sixteen in all. */
  lemma {:induction false} HeaderOnWire(f: Frame, h: seq<byte>)
    requires Writable(f) && h == HeaderOf(f)
    ensures |h| == 16 && h[0] == f.kind && h[1] == f.flags && Be32(h, 2) == |f.payload|
    ensures Be64(h, 6) == f.pts % 0x1_0000_0000_0000_0000 && h[14] == 0 && h[15] == 0
    ensures TYPE_VIDEO == 1 && TYPE_AUDIO == 2
  {
    var stamp := Put64(Unsigned(f.pts));
    AtSplit(h, 0, [f.kind, f.flags], Put32(|f.payload|) + (stamp + [0, 0]));
    AtSplit(h, 2, Put32(|f.payload|), stamp + [0, 0]);
    AtSplit(h, 6, stamp, [0, 0]);
    ReadBack32(h, 2, |f.payload|);
    ReadBack64(h, 6, Unsigned(f.pts));
    AtByte(h, 14, [0, 0], 0);
    AtByte(h, 14, [0, 0], 1);
    UnsignedIs(f.pts);
  }

  // ---- The receiver ----------------------------------------------------------------------------

  /** Bytes of the frame at the front: 16 + length as 32-bit signed integers add it up. None where the
      sum overflows or is not positive; there the loop makes no further progress. */
  function FrameSize(length: uint32): (n: Option<nat>)
    ensures n.Some? ==> n.value > 0
  {
    if length < LENGTH_LIMIT then Some(HEADER_SIZE + length)
    else if length > 0x1_0000_0000 - HEADER_SIZE then Some(HEADER_SIZE + length - 0x1_0000_0000)
    else None
  }

  /** processFrame: fewer bytes than a header are dropped. */
  function FramesOf(data: seq<byte>): seq<Frame> {
    if |data| < HEADER_SIZE then [] else [Frame(data[0], data[1], Signed(Be64(data, 6)), data[HEADER_SIZE..])]
  }

  datatype State = Handshake(buffer: seq<byte>) | Streaming(buffer: seq<byte>) | Idle | Wedged

  datatype Receiver = Receiver(state: State, frames: seq<Frame>)

  /** handleStreamingData: every complete frame, and what is left. */
  function Drain(buffer: seq<byte>): Receiver
    decreases |buffer|
  {
    if |buffer| < HEADER_SIZE then Receiver(Streaming(buffer), [])
    else
      match FrameSize(Be32(buffer, 2))
      case None => Receiver(Wedged, [])
      case Some(n) =>
        if |buffer| < n then Receiver(Streaming(buffer), [])
        else
          var rest := Drain(buffer[n..]);
          Receiver(rest.state, FramesOf(buffer[..n]) + rest.frames)
  }

  function LineEnd(buffer: seq<byte>): (i: nat)
    ensures i <= |buffer|
    ensures i < |buffer| ==> buffer[i] == NEWLINE
    ensures forall k :: 0 <= k < i ==> buffer[k] != NEWLINE
  {
    if buffer == [] || buffer[0] == NEWLINE then 0 else 1 + LineEnd(buffer[1..])
  }

  /** The handshake on everything received so far; `hello` is the check of the JSON line. */
  function Greet(hello: seq<byte> -> bool, buffer: seq<byte>): Receiver {
    var i := LineEnd(buffer);
    if i == |buffer| then Receiver(Handshake(buffer), [])
    else if !hello(buffer[..i]) then Receiver(Idle, [])
    else Drain(buffer[i + 1..])
  }

  /** onReadyRead. */
  function Feed(hello: seq<byte> -> bool, r: Receiver, chunk: seq<byte>): Receiver {
    match r.state
    case Handshake(buffer) =>
      var next := Greet(hello, buffer + chunk);
      Receiver(next.state, r.frames + next.frames)
    case Streaming(buffer) =>
      var next := Drain(buffer + chunk);
      Receiver(next.state, r.frames + next.frames)
    case _ => r
  }

  const CONNECTED := Receiver(Handshake([]), [])

  function FeedAll(hello: seq<byte> -> bool, r: Receiver, chunks: seq<seq<byte>>): Receiver
    decreases |chunks|
  {
    if chunks == [] then r else FeedAll(hello, Feed(hello, r, chunks[0]), chunks[1..])
  }

  // ---- Only the concatenated bytes matter ------------------------------------------------------

  lemma {:induction false} SameField(a: seq<byte>, b: seq<byte>)
    requires |a| >= HEADER_SIZE
    ensures Be32(a + b, 2) == Be32(a, 2)
  {
  }

  /** After `a` the receiver goes on with `b`. */
  function Resume(first: Receiver, b: seq<byte>): Receiver {
    match first.state
    case Streaming(rest) =>
      var next := Drain(rest + b);
      Receiver(next.state, first.frames + next.frames)
    case _ => first
  }

  lemma {:induction false} DrainJoin(a: seq<byte>, b: seq<byte>)
    ensures !Drain(a).state.Handshake? && !Drain(a).state.Idle?
    ensures Drain(a + b) == Resume(Drain(a), b)
    decreases |a|
  {
    if |a| < HEADER_SIZE {
      assert Drain(a + b).frames == [] + Drain(a + b).frames;
    } else {
      SameField(a, b);
      var n := FrameSize(Be32(a, 2));
      if n.Some? && |a| >= n.value {
        DrainJoin(a[n.value..], b);
        FrameThenRest(a, b, n.value);
      } else if n.Some? {
        assert Drain(a + b).frames == [] + Drain(a + b).frames;
      }
    }
  }

  lemma {:induction false} FrameThenRest(a: seq<byte>, b: seq<byte>, n: nat)
    requires HEADER_SIZE <= |a| && FrameSize(Be32(a, 2)) == Some(n) && n <= |a|
    requires Drain(a[n..] + b) == Resume(Drain(a[n..]), b)
    ensures Drain(a + b) == Resume(Drain(a), b)
  {
    SameField(a, b);
    assert (a + b)[..n] == a[..n] && (a + b)[n..] == a[n..] + b;
    var frame, rest := FramesOf(a[..n]), Drain(a[n..]);
    if rest.state.Streaming? {
      assert frame + (rest.frames + Drain(rest.state.buffer + b).frames) ==
        (frame + rest.frames) + Drain(rest.state.buffer + b).frames;
    }
  }

  lemma {:induction false} FirstNewline(d: seq<byte>, i: nat)
    requires i < |d| && d[i] == NEWLINE && forall k :: 0 <= k < i ==> d[k] != NEWLINE
    ensures LineEnd(d) == i
  {
    if i > 0 {
      assert d[0] != NEWLINE;
      FirstNewline(d[1..], i - 1);
    }
  }

  lemma {:induction false} LineEndJoin(a: seq<byte>, b: seq<byte>)
    ensures LineEnd(a) < |a| ==> LineEnd(a + b) == LineEnd(a)
  {
    if LineEnd(a) < |a| { FirstNewline(a + b, LineEnd(a)); }
  }

  lemma {:induction false} NothingBefore(r: Receiver)
    ensures Receiver(r.state, [] + r.frames) == r
  {
  }

  /** Once the line is complete the rest is drained, whenever it comes. */
  lemma {:induction false} GreetedJoin(hello: seq<byte> -> bool, a: seq<byte>, b: seq<byte>)
    requires LineEnd(a) < |a|
    ensures Greet(hello, a + b) == if hello(a[..LineEnd(a)]) then Drain(a[LineEnd(a) + 1..] + b) else Receiver(Idle, [])
  {
    var i := LineEnd(a);
    LineEndJoin(a, b);
    assert (a + b)[..i] == a[..i] && (a + b)[i + 1..] == a[i + 1..] + b;
  }

  lemma {:induction false} StillWaiting(hello: seq<byte> -> bool, a: seq<byte>, b: seq<byte>)
    requires LineEnd(a) == |a|
    ensures Greet(hello, a + b) == Feed(hello, Greet(hello, a), b)
  {
    NothingBefore(Greet(hello, a + b));
  }

  lemma {:induction false} DrainedFeed(hello: seq<byte> -> bool, a: seq<byte>, b: seq<byte>, r: Receiver)
    requires r == Drain(a)
    ensures Feed(hello, r, b) == Drain(a + b)
  {
    DrainJoin(a, b);
  }

  lemma {:induction false} GreetJoin(hello: seq<byte> -> bool, a: seq<byte>, b: seq<byte>)
    ensures Greet(hello, a + b) == Feed(hello, Greet(hello, a), b)
  {
    var i := LineEnd(a);
    if i == |a| {
      StillWaiting(hello, a, b);
    } else {
      GreetedJoin(hello, a, b);
      if hello(a[..i]) { DrainedFeed(hello, a[i + 1..], b, Greet(hello, a)); }
    }
  }

  lemma {:induction false} FeedJoin(hello: seq<byte> -> bool, r: Receiver, a: seq<byte>, b: seq<byte>)
    ensures Feed(hello, r, a + b) == Feed(hello, Feed(hello, r, a), b)
  {
    match r.state
    case Handshake(buffer) =>
      assert buffer + (a + b) == (buffer + a) + b;
      GreetJoin(hello, buffer + a, b);
      FeedFrames(hello, r.frames, Greet(hello, buffer + a), b);
    case Streaming(buffer) =>
      assert buffer + (a + b) == (buffer + a) + b;
      DrainJoin(buffer + a, b);
      FeedFrames(hello, r.frames, Drain(buffer + a), b);
    case _ =>
  }

  lemma {:induction false} FeedFrames(hello: seq<byte> -> bool, before: seq<Frame>, r: Receiver, chunk: seq<byte>)
    ensures var one := Feed(hello, r, chunk);
      Feed(hello, Receiver(r.state, before + r.frames), chunk) == Receiver(one.state, before + one.frames)
  {
  }

  /** How TCP cuts up the bytes makes no difference, not even within the handshake line. */
  lemma {:induction false} ChunkingIsIrrelevant(hello: seq<byte> -> bool, r: Receiver, chunks: seq<seq<byte>>)
    requires !r.state.Streaming? && r.frames == [] && (r.state.Handshake? ==> LineEnd(r.state.buffer) == |r.state.buffer|)
    ensures FeedAll(hello, r, chunks) == Feed(hello, r, Concat(chunks))
  {
    FeedNothing(hello, r);
    FeedAllIsFeed(hello, r, chunks);
  }

  /** However the bytes are cut: nothing is processed before the first newline; if the line before it is no
      good greeting, nothing ever is; if it is, what follows it is the stream of frames. */
  lemma {:induction false} GreetingDecides(hello: seq<byte> -> bool, chunks: seq<seq<byte>>, i: nat)
    requires i <= |Concat(chunks)| && forall k :: 0 <= k < i ==> Concat(chunks)[k] != 10
    requires i < |Concat(chunks)| ==> Concat(chunks)[i] == 10
    ensures var all, r := Concat(chunks), FeedAll(hello, CONNECTED, chunks);
      if i == |all| then r == Receiver(Handshake(all), [])
      else if !hello(all[..i]) then r == Receiver(Idle, [])
      else r == Drain(all[i + 1..])
  {
    var all := Concat(chunks);
    ChunkingIsIrrelevant(hello, CONNECTED, chunks);
    assert [] + all == all && [] + Greet(hello, all).frames == Greet(hello, all).frames;
    if i < |all| { FirstNewline(all, i); }
  }

  lemma {:induction false} FeedNothing(hello: seq<byte> -> bool, r: Receiver)
    requires !r.state.Streaming? && (r.state.Handshake? ==> LineEnd(r.state.buffer) == |r.state.buffer|)
    ensures Feed(hello, r, []) == r
  {
    if r.state.Handshake? {
      assert r.state.buffer + [] == r.state.buffer && r.frames + [] == r.frames;
    }
  }

  lemma {:induction false} FeedAllIsFeed(hello: seq<byte> -> bool, r: Receiver, chunks: seq<seq<byte>>)
    requires Feed(hello, r, []) == r
    ensures FeedAll(hello, r, chunks) == Feed(hello, r, Concat(chunks))
    decreases |chunks|
  {
    if chunks != [] {
      var next := Feed(hello, r, chunks[0]);
      assert chunks[0] + [] == chunks[0];
      FeedJoin(hello, r, chunks[0], []);
      FeedAllIsFeed(hello, next, chunks[1..]);
      FeedJoin(hello, r, chunks[0], Concat(chunks[1..]));
    }
  }

  // ---- What a sender writes --------------------------------------------------------------------

  predicate FramesOk(fs: seq<Frame>) { forall i :: 0 <= i < |fs| ==> FrameOk(fs[i]) }

  predicate AllWritable(fs: seq<Frame>) { forall i :: 0 <= i < |fs| ==> Writable(fs[i]) }

  predicate AllSendable(fs: seq<Frame>) { forall i :: 0 <= i < |fs| ==> Sendable(fs[i]) }

  function PutFrames(fs: seq<Frame>): seq<byte>
    requires AllWritable(fs)
  {
    if fs == [] then [] else PutFrame(fs[0]) + PutFrames(fs[1..])
  }

  lemma {:induction false} DrainOne(f: Frame, rest: seq<byte>)
    requires FrameOk(f)
    ensures Drain(PutFrame(f) + rest) == Receiver(Drain(rest).state, [f] + Drain(rest).frames)
  {
    var d := PutFrame(f) + rest;
    var n := HEADER_SIZE + |f.payload|;
    assert At(d, 0, HeaderOf(f));
    ReadHeader(d, f.kind, f.flags, |f.payload|, f.pts);
    assert d[..n] == PutFrame(f) && d[n..] == rest;
    ReadHeader(PutFrame(f), f.kind, f.flags, |f.payload|, f.pts);
    assert PutFrame(f)[HEADER_SIZE..] == f.payload;
    assert FramesOf(PutFrame(f)) == [f];
  }

  /** What the receiver gets out of a run of frames: all before the first that is too long for it. */
  function Whole(fs: seq<Frame>): seq<Frame> { if fs == [] || !FrameOk(fs[0]) then [] else [fs[0]] + Whole(fs[1..]) }

  lemma {:induction false} WholeFacts(fs: seq<Frame>)
    ensures Whole(fs) <= fs && (FramesOk(fs) ==> Whole(fs) == fs)
  {
    if fs != [] && FrameOk(fs[0]) {
      WholeFacts(fs[1..]);
      assert fs == [fs[0]] + fs[1..];
    }
  }

  /** A header with too long a length stops the receiver, whatever follows. */
  lemma {:induction false} DrainTooLong(f: Frame, rest: seq<byte>)
    requires Sendable(f) && !FrameOk(f)
    ensures Drain(HeaderOf(f) + rest) == Receiver(Wedged, [])
  {
    var d := HeaderOf(f) + rest;
    assert At(d, 0, HeaderOf(f));
    ReadHeader(d, f.kind, f.flags, |f.payload|, f.pts);
  }

  lemma {:induction false} DrainFrames(fs: seq<Frame>, rest: seq<byte>)
    requires AllSendable(fs) && Drain(rest).frames == []
    ensures Drain(PutFrames(fs) + rest).frames == Whole(fs)
    decreases |fs|
  {
    if fs == [] {
      assert [] + rest == rest;
    } else {
      var later := PutFrames(fs[1..]) + rest;
      Regroup(PutFrame(fs[0]), PutFrames(fs[1..]), rest);
      if FrameOk(fs[0]) {
        DrainFrames(fs[1..], rest);
        DrainOne(fs[0], later);
      } else {
        DrainTooLong(fs[0], fs[0].payload + later);
        Regroup(HeaderOf(fs[0]), fs[0].payload, later);
      }
    }
  }

  lemma {:induction false} HeaderAloneWaits(f: Frame)
    requires Sendable(f)
    ensures Drain(HeaderOf(f)).frames == []
  {
    ReadHeader(HeaderOf(f), f.kind, f.flags, |f.payload|, f.pts);
  }

  lemma {:induction false} PutFramesJoin(a: seq<Frame>, b: seq<Frame>)
    requires AllWritable(a) && AllWritable(b) && AllWritable(a + b)
    ensures PutFrames(a + b) == PutFrames(a) + PutFrames(b)
  {
    if a == [] {
      assert a + b == b;
    } else {
      assert (a + b)[0] == a[0] && (a + b)[1..] == a[1..] + b;
      PutFramesJoin(a[1..], b);
      Regroup(PutFrame(a[0]), PutFrames(a[1..]), PutFrames(b));
    }
  }

  lemma {:induction false} PutFramesOne(f: Frame)
    requires Writable(f)
    ensures PutFrames([f]) == PutFrame(f)
  {
    assert PutFrames([f]) == PutFrame(f) + [];
  }

  // ---- Two threads, one stream -----------------------------------------------------------------

  /** What is still to be written, the bytes out so far, who is between header and payload, and the
      frames written in the order of their turns. */
  datatype Link = Link(video: seq<Frame>, audio: seq<Frame>, out: seq<byte>, inFlight: Option<bool>, log: seq<Frame>)

  predicate OfKind(fs: seq<Frame>, kind: byte) { forall i :: 0 <= i < |fs| ==> fs[i].kind == kind }

  function Todo(l: Link, isVideo: bool): seq<Frame> { if isVideo then l.video else l.audio }

  predicate LinkOk(l: Link) {
    OfKind(l.video, TYPE_VIDEO) && OfKind(l.audio, TYPE_AUDIO) && AllSendable(l.video) && AllSendable(l.audio) &&
    AllSendable(l.log) &&
    (l.inFlight.Some? ==> Todo(l, l.inFlight.value) != []) &&
    l.out == PutFrames(l.log) + if l.inFlight.Some? then HeaderOf(Todo(l, l.inFlight.value)[0]) else []
  }

  /** One write by one thread: the header on entering the lock, the payload before leaving it; nothing
      while the other thread holds it. */
  function Turn(l: Link, isVideo: bool): Link
    requires LinkOk(l)
  {
    var todo := Todo(l, isVideo);
    if l.inFlight.None? then
      if todo == [] then l else l.(out := l.out + HeaderOf(todo[0]), inFlight := Some(isVideo))
    else if l.inFlight.value != isVideo then l
    else
      var l1 := l.(out := l.out + todo[0].payload, inFlight := None, log := l.log + [todo[0]]);
      if isVideo then l1.(video := todo[1..]) else l1.(audio := todo[1..])
  }

  lemma {:induction false} PayloadWritten(l: Link, isVideo: bool)
    requires LinkOk(l) && l.inFlight == Some(isVideo)
    ensures var f := Todo(l, isVideo)[0];
      AllSendable(l.log + [f]) && l.out + f.payload == PutFrames(l.log + [f])
  {
    var f := Todo(l, isVideo)[0];
    PutFramesJoin(l.log, [f]);
    PutFramesOne(f);
    Regroup(PutFrames(l.log), HeaderOf(f), f.payload);
  }

  lemma {:induction false} LogGrows(log: seq<Frame>, f: Frame, rest: seq<Frame>, kind: byte)
    ensures Select(log + [f], kind) == Select(log, kind) + if f.kind == kind then [f] else []
    ensures f.kind == kind ==> Select(log + [f], kind) + rest == Select(log, kind) + ([f] + rest)
  {
    SelectJoin(log, [f], kind);
    SelectOne(f, kind);
  }

  lemma {:induction false} TurnWrites(l: Link, isVideo: bool, kind: byte)
    requires LinkOk(l) && kind in {TYPE_VIDEO, TYPE_AUDIO}
    ensures Written(Turn(l, isVideo), kind) == Written(l, kind)
  {
    if l.inFlight == Some(isVideo) {
      var todo := Todo(l, isVideo);
      var f, rest := todo[0], todo[1..];
      assert todo == [f] + rest && f.kind == if isVideo then TYPE_VIDEO else TYPE_AUDIO;
      LogGrows(l.log, f, rest, kind);
      assert Turn(l, isVideo).log == l.log + [f];
      assert Select(l.log, kind) + [] == Select(l.log, kind);
    }
  }

  lemma {:induction false} HeaderKeepsLink(l: Link, isVideo: bool)
    requires LinkOk(l) && l.inFlight.None? && Todo(l, isVideo) != []
    ensures LinkOk(l.(out := l.out + HeaderOf(Todo(l, isVideo)[0]), inFlight := Some(isVideo)))
  {
    assert PutFrames(l.log) + [] == PutFrames(l.log);
  }

  lemma {:induction false} PayloadKeepsLink(l: Link, isVideo: bool)
    requires LinkOk(l) && l.inFlight == Some(isVideo)
    ensures LinkOk(Turn(l, isVideo))
  {
    PayloadWritten(l, isVideo);
    TailOk(l.video, TYPE_VIDEO);
    TailOk(l.audio, TYPE_AUDIO);
    assert PutFrames(Turn(l, isVideo).log) + [] == PutFrames(Turn(l, isVideo).log);
  }

  lemma {:induction false} TurnKeepsLink(l: Link, isVideo: bool)
    requires LinkOk(l)
    ensures LinkOk(Turn(l, isVideo))
  {
    if l.inFlight == Some(isVideo) {
      PayloadKeepsLink(l, isVideo);
    } else if l.inFlight.None? && Todo(l, isVideo) != [] {
      HeaderKeepsLink(l, isVideo);
    }
  }

  lemma {:induction false} TailOk(fs: seq<Frame>, kind: byte)
    requires OfKind(fs, kind) && AllSendable(fs)
    ensures fs != [] ==> OfKind(fs[1..], kind) && AllSendable(fs[1..])
  {
  }

  lemma {:induction false} TurnKeeps(l: Link, isVideo: bool)
    requires LinkOk(l)
    ensures LinkOk(Turn(l, isVideo))
    ensures Written(Turn(l, isVideo), TYPE_VIDEO) == Written(l, TYPE_VIDEO)
    ensures Written(Turn(l, isVideo), TYPE_AUDIO) == Written(l, TYPE_AUDIO)
  {
    TurnKeepsLink(l, isVideo);
    TurnWrites(l, isVideo, TYPE_VIDEO);
    TurnWrites(l, isVideo, TYPE_AUDIO);
  }

  function Select(fs: seq<Frame>, kind: byte): seq<Frame> {
    if fs == [] then [] else (if fs[0].kind == kind then [fs[0]] else []) + Select(fs[1..], kind)
  }

  /** A thread's frames: those written and those still to come. */
  function Written(l: Link, kind: byte): seq<Frame> {
    Select(l.log, kind) + if kind == TYPE_VIDEO then l.video else l.audio
  }

  lemma {:induction false} SelectOne(f: Frame, kind: byte)
    ensures Select([f], kind) == if f.kind == kind then [f] else []
  {
    assert Select([f][1..], kind) == [];
  }

  lemma {:induction false} SelectJoin(a: seq<Frame>, b: seq<Frame>, kind: byte)
    ensures Select(a + b, kind) == Select(a, kind) + Select(b, kind)
  {
    if a == [] {
      assert a + b == b;
    } else {
      assert (a + b)[0] == a[0] && (a + b)[1..] == a[1..] + b;
      SelectJoin(a[1..], b, kind);
    }
  }

  /** Any schedule of the two threads. */
  function Play(l: Link, turns: seq<bool>): (r: Link)
    requires LinkOk(l)
    ensures LinkOk(r) && Written(r, TYPE_VIDEO) == Written(l, TYPE_VIDEO) && Written(r, TYPE_AUDIO) == Written(l, TYPE_AUDIO)
    decreases |turns|
  {
    if turns == [] then l
    else
      TurnKeeps(l, turns[0]);
      Play(Turn(l, turns[0]), turns[1..])
  }

  function Start(video: seq<Frame>, audio: seq<Frame>): Link { Link(video, audio, [], None, []) }

  lemma {:induction false} FramesGrow(hello: seq<byte> -> bool, r: Receiver, a: seq<byte>, b: seq<byte>)
    ensures Feed(hello, r, a).frames <= Feed(hello, r, a + b).frames
  {
    FeedJoin(hello, r, a, b);
  }

  lemma {:induction false} GreetThenDrain(hello: seq<byte> -> bool, line: seq<byte>, out: seq<byte>)
    requires LineEnd(line) == |line| && hello(line)
    ensures Feed(hello, CONNECTED, line + [NEWLINE] + out) == Drain(out)
  {
    var d := line + [NEWLINE] + out;
    assert [] + d == d;
    assert d[|line|] == NEWLINE;
    FirstNewline(d, |line|);
    assert d[..|line|] == line && d[|line| + 1..] == out;
    assert [] + Drain(out).frames == Drain(out).frames;
  }

  /** The receiver has every frame whose payload is out, up to the first that is too long. */
  lemma {:induction false} ReceiverSeesTheLog(hello: seq<byte> -> bool, line: seq<byte>, l: Link)
    requires LineEnd(line) == |line| && hello(line) && LinkOk(l)
    ensures Feed(hello, CONNECTED, line + [NEWLINE] + l.out).frames == Whole(l.log)
  {
    GreetThenDrain(hello, line, l.out);
    if l.inFlight.Some? {
      HeaderAloneWaits(Todo(l, l.inFlight.value)[0]);
      DrainFrames(l.log, HeaderOf(Todo(l, l.inFlight.value)[0]));
    } else {
      DrainFrames(l.log, []);
    }
  }

  lemma {:induction false} SelectPrefix(a: seq<Frame>, b: seq<Frame>, kind: byte)
    requires a <= b
    ensures Select(a, kind) <= Select(b, kind)
  {
    assert b == a + b[|a|..];
    SelectJoin(a, b[|a|..], kind);
  }

  /** Any schedule, any part of the bytes delivered so far, any chunking: the video frames processed
      are a prefix of the video thread's frames and the audio frames of the audio thread's, header and
      payload unchanged. When all bytes are in, they are all frames written up to the first that is too
      long, and if there is none, what a thread wrote and has yet to write is all it had. */
  lemma {:induction false} Demultiplexes(hello: seq<byte> -> bool, line: seq<byte>, video: seq<Frame>, audio: seq<Frame>,
                                         turns: seq<bool>, chunks: seq<seq<byte>>, missing: seq<byte>)
    requires LineEnd(line) == |line| && hello(line)
    requires AllSendable(video) && AllSendable(audio) && OfKind(video, TYPE_VIDEO) && OfKind(audio, TYPE_AUDIO)
    requires Concat(chunks) + missing == line + [NEWLINE] + Play(Start(video, audio), turns).out
    ensures var got := FeedAll(hello, CONNECTED, chunks).frames; var l := Play(Start(video, audio), turns);
      Select(got, TYPE_VIDEO) <= video && Select(got, TYPE_AUDIO) <= audio && got <= Whole(l.log) &&
      (missing == [] ==> got == Whole(l.log)) &&
      (missing == [] && FramesOk(l.log) ==>
        Select(got, TYPE_VIDEO) + l.video == video && Select(got, TYPE_AUDIO) + l.audio == audio)
  {
    var l := Play(Start(video, audio), turns);
    assert [] + video == video && [] + audio == audio;
    ChunkingIsIrrelevant(hello, CONNECTED, chunks);
    FramesGrow(hello, CONNECTED, Concat(chunks), missing);
    ReceiverSeesTheLog(hello, line, l);
    WholeFacts(l.log);
    if missing == [] { assert Concat(chunks) + missing == Concat(chunks); }
    var got := FeedAll(hello, CONNECTED, chunks).frames;
    SelectPrefix(got, l.log, TYPE_VIDEO);
    SelectPrefix(got, l.log, TYPE_AUDIO);
  }

  // ---- Frame lengths ---------------------------------------------------------------------------

  /** A complete frame comes out whole exactly when its length stays clear of the 32-bit limit. */
  lemma {:induction false} WholeFrameExactly(kind: byte, flags: byte, pts: int64, payload: seq<byte>)
    requires |payload| < 0x1_0000_0000
    ensures Drain(PutHeader(kind, flags, |payload|, pts) + payload).frames == [Frame(kind, flags, pts, payload)] <==>
            |payload| < 0x7FFF_FFF0
  {
    var header, n := PutHeader(kind, flags, |payload|, pts), FrameSize(|payload|);
    var d := header + payload;
    assert At(d, 0, header);
    ReadHeader(d, kind, flags, |payload|, pts);
    if |payload| < LENGTH_LIMIT {
      assert d[..HEADER_SIZE + |payload|] == d && d[HEADER_SIZE + |payload|..] == [];
      assert d[HEADER_SIZE..] == payload;
    } else if n.Some? {
      assert FramesOf(d[..n.value]) == [];
      ShorterPayloads(d[n.value..], |payload|);
      var got := Drain(d[n.value..]).frames;
      assert Drain(d).frames == [] + got == got;
      assert got != [] ==> |got[0].payload| < |payload|;
    }
  }

  /** A header alone stops the loop for good exactly when its length field is in the range where the
      32-bit sum overflows or is not positive. */
  lemma {:induction false} HeaderWedgesExactly(kind: byte, flags: byte, length: uint32, pts: int64)
    ensures Drain(PutHeader(kind, flags, length, pts)).state.Wedged? <==> 0x7FFF_FFF0 <= length <= 0xFFFF_FFF0
  {
    var header, n := PutHeader(kind, flags, length, pts), FrameSize(length);
    ReadHeader(header, kind, flags, length, pts);
    if n.Some? && n.value <= HEADER_SIZE { assert |header[n.value..]| < HEADER_SIZE; }
  }

  lemma {:induction false} ShorterPayloads(buffer: seq<byte>, limit: nat)
    requires |buffer| < limit + HEADER_SIZE
    ensures forall i :: 0 <= i < |Drain(buffer).frames| ==> |Drain(buffer).frames[i].payload| < limit
    decreases |buffer|
  {
    if |buffer| >= HEADER_SIZE {
      var n := FrameSize(Be32(buffer, 2));
      if n.Some? && |buffer| >= n.value { ShorterPayloads(buffer[n.value..], limit); }
    }
  }
}
