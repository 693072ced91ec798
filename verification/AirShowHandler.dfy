/** The AirShow receiver and the Android encoder callback as objects that change step by step. */
module AirShowHandler {
  import opened Bytes
  import opened AirShowStream

  datatype Phase = AwaitHello | Receive | Closed | Hung

  /** The acknowledgement written when a complete and valid HELLO line arrives; `ack` makes it from the
      line. */
  function Answer(hello: seq<byte> -> bool, ack: seq<byte> -> seq<byte>, buffer: seq<byte>): seq<byte> {
    var i := LineEnd(buffer);
    if i < |buffer| && hello(buffer[..i]) then ack(buffer[..i]) + [NEWLINE] else []
  }

  class Handler {
    const hello: seq<byte> -> bool
    const ack: seq<byte> -> seq<byte>
    /** What has been written back to the client. */
    var written: seq<byte>
    var phase: Phase
    var readBuffer: seq<byte>
    /** The frames handed to processFrame that were long enough to have a header. */
    var frames: seq<Frame>

    function Value(): Receiver
      reads this
    {
      Receiver(match phase
               case AwaitHello => Handshake(readBuffer)
               case Receive => Streaming(readBuffer)
               case Closed => Idle
               case Hung => Wedged, frames)
    }

    /** A new connection. */
    constructor (hello: seq<byte> -> bool, ack: seq<byte> -> seq<byte>)
      ensures Value() == CONNECTED && this.hello == hello && this.ack == ack && written == []
    {
      this.hello, this.ack, written, phase, readBuffer, frames := hello, ack, [], AwaitHello, [], [];
    }

    method ProcessFrame(data: seq<byte>)
      modifies `frames
      ensures frames == old(frames) + FramesOf(data) && phase == old(phase) && readBuffer == old(readBuffer)
    {
      if |data| < HEADER_SIZE { return; }
      var kind, flags := data[0], data[1];
      var pts := Signed(Be64(data, 6));
      frames := frames + [Frame(kind, flags, pts, data[HEADER_SIZE..])];
    }

    method HandleStreamingData()
      requires phase == Receive
      modifies `phase, `readBuffer, `frames
      ensures Value() == Receiver(Drain(old(readBuffer)).state, old(frames) + Drain(old(readBuffer)).frames)
    {
      ghost var goal := Drain(readBuffer);
      while phase == Receive && |readBuffer| >= HEADER_SIZE
        invariant phase in {Receive, Hung}
        invariant phase == Receive ==> goal.state == Drain(readBuffer).state
        invariant phase == Receive ==> old(frames) + goal.frames == frames + Drain(readBuffer).frames
        invariant phase == Hung ==> goal.state == Wedged && frames == old(frames) + goal.frames
        decreases phase == Receive, |readBuffer|
      {
        var size := FrameSize(Be32(readBuffer, 2));
        if size.None? {
          phase := Hung;
        } else if |readBuffer| < size.value {
          break;
        } else {
          DrainNext(readBuffer, size.value, old(frames), frames, goal);
          var data := readBuffer[..size.value];
          readBuffer := readBuffer[size.value..];
          ProcessFrame(data);
        }
      }
    }

    method HandleHandshake()
      requires phase == AwaitHello
      modifies this
      ensures var next := Greet(hello, old(readBuffer));
        Value() == Receiver(next.state, old(frames) + next.frames)
      ensures written == old(written) + Answer(hello, ack, old(readBuffer))
    {
      assert written + [] == written;
      var newline := FindNewline(readBuffer);
      if newline == |readBuffer| { return; }
      var line := readBuffer[..newline];
      readBuffer := readBuffer[newline + 1..];
      if !hello(line) {
        readBuffer := [];
        phase := Closed;
        return;
      }
      written := written + (ack(line) + [NEWLINE]);
      phase := Receive;
      if readBuffer != [] { HandleStreamingData(); }
    }

    method OnReadyRead(chunk: seq<byte>)
      modifies this
      ensures Value() == Feed(hello, old(Value()), chunk)
      ensures written == old(written) + if old(phase) == AwaitHello then Answer(hello, ack, old(readBuffer) + chunk) else []
    {
      assert written + [] == written;
      if phase in {Closed, Hung} { return; }
      readBuffer := readBuffer + chunk;
      if phase == AwaitHello { HandleHandshake(); } else { HandleStreamingData(); }
    }
  }

  /** One complete frame taken from the front of the buffer; `goal` is what the whole buffer comes to. */
  lemma {:induction false} DrainNext(buffer: seq<byte>, n: nat, before: seq<Frame>, frames: seq<Frame>, goal: Receiver)
    requires HEADER_SIZE <= |buffer| && FrameSize(Be32(buffer, 2)) == Some(n) && n <= |buffer|
    requires goal.state == Drain(buffer).state && before + goal.frames == frames + Drain(buffer).frames
    ensures goal.state == Drain(buffer[n..]).state
    ensures before + goal.frames == (frames + FramesOf(buffer[..n])) + Drain(buffer[n..]).frames
  {
    Regroup(frames, FramesOf(buffer[..n]), Drain(buffer[n..]).frames);
  }

  method FindNewline(buffer: seq<byte>) returns (i: nat)
    ensures i == LineEnd(buffer)
  {
    i := 0;
    while i < |buffer| && buffer[i] != NEWLINE
      invariant i <= |buffer| && LineEnd(buffer) == i + LineEnd(buffer[i..])
    {
      assert buffer[i..][1..] == buffer[i + 1..];
      i := i + 1;
    }
  }

  // ---- The sender ------------------------------------------------------------------------------

  /** One output buffer of the codec. */
  datatype CodecBuffer = CodecBuffer(data: seq<byte>, config: bool, keyFrame: bool, ptsUs: int64)

  const FLAG_KEYFRAME: byte := 1

  function Wrap64(v: int): int64 { Signed(v % 0x1_0000_0000_0000_0000) }

  /** The frame sent for a buffer, given the parameter sets cached so far. */
  function FrameFor(sps: Option<seq<byte>>, b: CodecBuffer): Frame {
    Frame(TYPE_VIDEO, if b.keyFrame then FLAG_KEYFRAME else 0, Wrap64(b.ptsUs * 1000),
          if b.keyFrame && sps.Some? then sps.value + b.data else b.data)
  }

  predicate IsPicture(b: CodecBuffer) { b.data != [] && !b.config }

  /** The parameter sets that came last. */
  function LastConfig(bs: seq<CodecBuffer>): Option<seq<byte>>
    decreases |bs|
  {
    if bs == [] then None
    else
      var b := bs[|bs| - 1];
      if b.config && b.data != [] then Some(b.data) else LastConfig(bs[..|bs| - 1])
  }

  /** All frames sent for a run of the codec. */
  function Sent(bs: seq<CodecBuffer>): seq<Frame>
    decreases |bs|
  {
    if bs == [] then []
    else
      var before, b := bs[..|bs| - 1], bs[|bs| - 1];
      Sent(before) + if IsPicture(b) then [FrameFor(LastConfig(before), b)] else []
  }

  /** Every key frame after the first parameter sets goes out with the latest of them in front, marked
      as a key frame, at its place in the order. */
  lemma {:induction false} KeyFramesStandAlone(bs: seq<CodecBuffer>, i: nat)
    requires i < |bs| && IsPicture(bs[i]) && bs[i].keyFrame && LastConfig(bs[..i]).Some?
    ensures var at := |Sent(bs[..i])|;
      at < |Sent(bs)| && Sent(bs)[at].flags == FLAG_KEYFRAME &&
      Sent(bs)[at].payload == LastConfig(bs[..i]).value + bs[i].data
    decreases |bs|
  {
    var before := bs[..|bs| - 1];
    if i < |before| {
      assert before[..i] == bs[..i];
      KeyFramesStandAlone(before, i);
    } else {
      assert bs[..i] == before;
    }
  }

  /** Every picture goes out as one video frame at its place in the order: marked if it is a key frame, its time
      in nanoseconds, its data unchanged behind the parameter sets of a key frame. */
  lemma {:induction false} EachPictureIsSent(bs: seq<CodecBuffer>, i: nat)
    requires i < |bs| && IsPicture(bs[i])
    ensures var at, b, sps := |Sent(bs[..i])|, bs[i], LastConfig(bs[..i]);
      at < |Sent(bs)| && Sent(bs[..i + 1]) == Sent(bs[..i]) + [Sent(bs)[at]] &&
      Sent(bs)[at].kind == 1 && Sent(bs)[at].flags == (if b.keyFrame then 1 else 0) &&
      (Sent(bs)[at].pts - b.ptsUs * 1000) % 0x1_0000_0000_0000_0000 == 0 &&
      Sent(bs)[at].payload == if b.keyFrame && sps.Some? then sps.value + b.data else b.data
    decreases |bs|
  {
    var before := bs[..|bs| - 1];
    if i < |before| {
      assert before[..i] == bs[..i] && before[..i + 1] == bs[..i + 1];
      EachPictureIsSent(before, i);
    } else {
      assert bs[..i] == before && bs[..i + 1] == bs;
    }
  }

  /** What is empty or only configures the decoder is not sent. */
  lemma {:induction false} NothingElseIsSent(bs: seq<CodecBuffer>, i: nat)
    requires i < |bs| && (bs[i].data == [] || bs[i].config)
    ensures Sent(bs[..i + 1]) == Sent(bs[..i])
  {
    assert bs[..i + 1][..|bs[..i + 1]| - 1] == bs[..i];
  }

  lemma {:induction false} SentIsVideo(bs: seq<CodecBuffer>)
    ensures OfKind(Sent(bs), TYPE_VIDEO) && (AllWritable(Sent(bs)) ==> AllSendable(Sent(bs)))
    decreases |bs|
  {
    if bs != [] { SentIsVideo(bs[..|bs| - 1]); }
  }

  lemma {:induction false} SentNext(bs: seq<CodecBuffer>, b: CodecBuffer)
    ensures Sent(bs + [b]) == Sent(bs) + if IsPicture(b) then [FrameFor(LastConfig(bs), b)] else []
    ensures LastConfig(bs + [b]) == if b.config && b.data != [] then Some(b.data) else LastConfig(bs)
  {
    assert (bs + [b])[..|bs + [b]| - 1] == bs;
  }

  /** The two threads with everything still to be written: the codec's frames and the recorded sound. */
  function EncodedLink(bs: seq<CodecBuffer>, audio: seq<Frame>): (l: Link)
    requires AllWritable(Sent(bs)) && AllSendable(audio) && OfKind(audio, TYPE_AUDIO)
    ensures LinkOk(l)
  {
    SentIsVideo(bs);
    Start(Sent(bs), audio)
  }

  /** Codec to decoder: whatever the codec produced and the audio thread read, whatever the schedule of
      the two threads and the cutting of the bytes, the receiver sees a prefix of the pictures, each
      key frame with the latest parameter sets in front, and a prefix of the sound; with all bytes in, and
      none too long, all that has been written. */
  lemma {:induction false} EncodedStreamArrives(hello: seq<byte> -> bool, line: seq<byte>, bs: seq<CodecBuffer>,
                                                audio: seq<Frame>,
                                                turns: seq<bool>, chunks: seq<seq<byte>>, missing: seq<byte>)
    requires LineEnd(line) == |line| && hello(line)
    requires AllWritable(Sent(bs)) && AllSendable(audio) && OfKind(audio, TYPE_AUDIO)
    requires Concat(chunks) + missing == line + [NEWLINE] + Play(EncodedLink(bs, audio), turns).out
    ensures var got := FeedAll(hello, CONNECTED, chunks).frames; var l := Play(EncodedLink(bs, audio), turns);
      Select(got, TYPE_VIDEO) <= Sent(bs) && Select(got, TYPE_AUDIO) <= audio &&
      (missing == [] && FramesOk(l.log) ==>
        Select(got, TYPE_VIDEO) + l.video == Sent(bs) && Select(got, TYPE_AUDIO) + l.audio == audio)
  {
    SentIsVideo(bs);
    Demultiplexes(hello, line, Sent(bs), audio, turns, chunks, missing);
  }

  /** The header, field by field into a 16-byte buffer. */
  method BuildFrameHeader(kind: byte, flags: byte, length: uint32, pts: int64) returns (header: array<byte>)
    ensures fresh(header) && header[..] == PutHeader(kind, flags, length, pts)
  {
    header := new byte[HEADER_SIZE];
    header[0], header[1] := kind, flags;
    assert header[..2] == [kind, flags];
    PutAt(header, 2, Put32(length));
    assert header[..6] == header[..2] + header[2..6] == [kind, flags] + Put32(length);
    PutAt(header, 6, Put64(Unsigned(pts)));
    assert header[..14] == header[..6] + header[6..14];
    PutAt(header, 14, [0, 0]);
    assert header[..] == header[..14] + header[14..16];
    JoinHeader([kind, flags], Put32(length), Put64(Unsigned(pts)), [0, 0]);
  }

  lemma {:induction false} JoinHeader(a: seq<byte>, b: seq<byte>, c: seq<byte>, d: seq<byte>)
    ensures ((a + b) + c) + d == a + (b + (c + d))
  {
  }

  method PutAt(buffer: array<byte>, at: nat, field: seq<byte>)
    requires at + |field| <= buffer.Length
    modifies buffer
    ensures buffer[at..at + |field|] == field && buffer[..at] == old(buffer[..at])
    ensures buffer[at + |field|..] == old(buffer[at + |field|..])
  {
    var i := 0;
    while i < |field|
      invariant i <= |field|
      invariant forall k :: 0 <= k < buffer.Length && !(at <= k < at + i) ==> buffer[k] == old(buffer[k])
      invariant buffer[at..at + i] == field[..i]
    {
      buffer[at + i] := field[i];
      i := i + 1;
    }
  }

  class OutputStream {
    var bytes: seq<byte>

    method Write(b: seq<byte>)
      modifies this
      ensures bytes == old(bytes) + b
    {
      bytes := bytes + b;
    }
  }

  class Encoder {
    var spsNalUnit: Option<seq<byte>>
    /** The buffers the codec has produced so far, and what was written for them. */
    ghost var seen: seq<CodecBuffer>
    ghost var written: seq<byte>

    constructor ()
      ensures Valid() && seen == []
    {
      spsNalUnit, seen, written := None, [], [];
    }

    /** Over the whole run of the codec, what was written is the frames of its buffers. */
    ghost predicate Valid()
      reads this
    {
      spsNalUnit == LastConfig(seen) && AllWritable(Sent(seen)) && written == PutFrames(Sent(seen))
    }

    /** The two writes, made while holding the stream's lock. */
    method WriteFrame(f: Frame, stream: OutputStream, ghost before: seq<Frame>)
      requires Writable(f) && AllWritable(before) && written == PutFrames(before)
      modifies `written, stream
      ensures stream.bytes == old(stream.bytes) + PutFrame(f) && written == old(written) + PutFrame(f) == PutFrames(before + [f])
    {
      var header := BuildFrameHeader(f.kind, f.flags, |f.payload|, f.pts);
      Regroup(stream.bytes, header[..], f.payload);
      stream.Write(header[..]);
      stream.Write(f.payload);
      PutFramesJoin(before, [f]);
      PutFramesOne(f);
      written := written + PutFrame(f);
    }

    /** The callback. */
    method OnOutputBufferAvailable(b: CodecBuffer, stream: OutputStream)
      requires Valid() && Writable(FrameFor(LastConfig(seen), b))
      modifies this, stream
      ensures Valid() && seen == old(seen) + [b]
      ensures var bytes := if IsPicture(b) then PutFrame(FrameFor(LastConfig(old(seen)), b)) else [];
        stream.bytes == old(stream.bytes) + bytes && written == old(written) + bytes
    {
      SentNext(seen, b);
      assert written + [] == written && Sent(seen) + [] == Sent(seen) && stream.bytes + [] == stream.bytes;
      ghost var before := Sent(seen);
      seen := seen + [b];
      if b.data == [] { return; }
      if b.config {
        spsNalUnit := Some(b.data);
        return;
      }
      var payload, flags: byte := b.data, 0;
      if b.keyFrame {
        flags := FLAG_KEYFRAME;
        if spsNalUnit.Some? { payload := spsNalUnit.value + b.data; }
      }
      WriteFrame(Frame(TYPE_VIDEO, flags, Wrap64(b.ptsUs * 1000), payload), stream, before);
    }
  }
}
