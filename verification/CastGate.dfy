/** CASTV2 framing and the approval gate: what could take over the screen is held back until the user
    has decided. */
module CastGate {
  import opened Bytes

  const NS_DEVICE_AUTH := "urn:x-cast:com.google.cast.tp.deviceauth"
  const NS_CONNECTION := "urn:x-cast:com.google.cast.tp.connection"
  const NS_HEARTBEAT := "urn:x-cast:com.google.cast.tp.heartbeat"
  const NS_RECEIVER := "urn:x-cast:com.google.cast.receiver"
  const NS_MEDIA := "urn:x-cast:com.google.cast.media"
  const NS_WEBRTC := "urn:x-cast:com.google.cast.webrtc"

  /** A parsed message; `jsonType` is the "type" string of its JSON payload, "" if there is none. */
  datatype Message = Message(namespace: string, isString: bool, jsonType: string, destination: string, payload: seq<byte>)

  // ---- Framing ---------------------------------------------------------------------------------

  /** The bytes not yet used, and the length of the payload being waited for. */
  datatype Reader = Reader(buffer: seq<byte>, expected: Option<uint32>)

  datatype Drained = Drained(reader: Reader, payloads: seq<seq<byte>>)

  /** The length as a 32-bit signed integer; a negative one takes nothing. */
  function PayloadSize(length: uint32): (n: nat)
    ensures n <= length
  {
    if length < 0x8000_0000 then length else 0
  }

  /** The framing loop of onReadyRead. */
  function Drain(r: Reader): Drained
    decreases |r.buffer|, r.expected.Some?
  {
    match r.expected
    case None => if |r.buffer| < 4 then Drained(r, []) else Drain(Reader(r.buffer[4..], Some(Be32(r.buffer, 0))))
    case Some(length) =>
      if |r.buffer| < length then Drained(r, [])
      else
        var n := PayloadSize(length);
        var rest := Drain(Reader(r.buffer[n..], None));
        Drained(rest.reader, [r.buffer[..n]] + rest.payloads)
  }

  function Append(r: Reader, chunk: seq<byte>): Reader { r.(buffer := r.buffer + chunk) }

  function Resume(first: Drained, chunk: seq<byte>): Drained {
    var next := Drain(Append(first.reader, chunk));
    Drained(next.reader, first.payloads + next.payloads)
  }

  lemma {:induction false} DrainJoin(r: Reader, chunk: seq<byte>)
    ensures Drain(Append(r, chunk)) == Resume(Drain(r), chunk)
    decreases |r.buffer|, r.expected.Some?
  {
    var all := r.buffer + chunk;
    assert [] + Drain(Append(r, chunk)).payloads == Drain(Append(r, chunk)).payloads;
    match r.expected
    case None =>
      if |r.buffer| >= 4 {
        assert Be32(all, 0) == Be32(r.buffer, 0) && all[4..] == r.buffer[4..] + chunk;
        DrainJoin(Reader(r.buffer[4..], Some(Be32(r.buffer, 0))), chunk);
      }
    case Some(length) =>
      if |r.buffer| >= length {
        var n := PayloadSize(length);
        assert all[..n] == r.buffer[..n] && all[n..] == r.buffer[n..] + chunk;
        DrainJoin(Reader(r.buffer[n..], None), chunk);
        PayloadThenRest(r.buffer[..n], Drain(Reader(r.buffer[n..], None)), chunk);
      }
  }

  lemma {:induction false} PayloadThenRest(p: seq<byte>, rest: Drained, chunk: seq<byte>)
    ensures Resume(Drained(rest.reader, [p] + rest.payloads), chunk) ==
            Drained(Resume(rest, chunk).reader, [p] + Resume(rest, chunk).payloads)
  {
    var next := Drain(Append(rest.reader, chunk));
    assert ([p] + rest.payloads) + next.payloads == [p] + (rest.payloads + next.payloads);
  }

  const NEW_READER := Reader([], None)

  predicate PayloadsOk(ps: seq<seq<byte>>) { forall i :: 0 <= i < |ps| ==> |ps[i]| < 0x8000_0000 }

  /** sendMessage. */
  function PutPayload(p: seq<byte>): seq<byte>
    requires |p| < 0x8000_0000
  {
    Put32(|p|) + p
  }

  function PutPayloads(ps: seq<seq<byte>>): seq<byte>
    requires PayloadsOk(ps)
  {
    if ps == [] then [] else PutPayload(ps[0]) + PutPayloads(ps[1..])
  }

  lemma {:induction false} DrainOne(p: seq<byte>, rest: seq<byte>)
    requires |p| < 0x8000_0000
    ensures Drain(Reader(PutPayload(p) + rest, None)) ==
            Drained(Drain(Reader(rest, None)).reader, [p] + Drain(Reader(rest, None)).payloads)
  {
    var d := PutPayload(p) + rest;
    assert At(d, 0, Put32(|p|));
    ReadBack32(d, 0, |p|);
    assert d[4..] == p + rest;
    assert (p + rest)[..|p|] == p && (p + rest)[|p|..] == rest;
  }

  /** On the wire a payload has its length in front, in four octets with the most significant first. */
  lemma {:induction false} PayloadOnWire(p: seq<byte>)
    requires |p| < 0x8000_0000
    ensures var d := PutPayload(p); d[4..] == p && 16777216 * d[0] as int + 65536 * d[1] as int + 256 * d[2] as int + d[3] == |p|
  {
    var d := PutPayload(p);
    assert At(d, 0, Put32(|p|));
    ReadBack32(d, 0, |p|);
  }

  /** What is framed comes out, in order, with nothing left over. */
  lemma {:induction false} FramingRoundTrip(ps: seq<seq<byte>>)
    requires PayloadsOk(ps)
    ensures Drain(Reader(PutPayloads(ps), None)) == Drained(NEW_READER, ps)
  {
    if ps != [] {
      FramingRoundTrip(ps[1..]);
      DrainOne(ps[0], PutPayloads(ps[1..]));
      assert [ps[0]] + ps[1..] == ps;
    }
  }

  /** A single frame comes out as it went in exactly when its length stays below 2^31. */
  lemma {:induction false} FrameWholeExactly(p: seq<byte>)
    requires |p| < 0x1_0000_0000
    ensures Drain(Reader(Put32(|p|) + p, None)).payloads == [p] <==> |p| < 0x8000_0000
  {
    var d := Put32(|p|) + p;
    assert At(d, 0, Put32(|p|));
    ReadBack32(d, 0, |p|);
    assert d[4..] == p;
    if |p| < 0x8000_0000 {
      assert p[..|p|] == p && p[|p|..] == [];
      assert Drain(Reader(p[|p|..], None)).payloads == [];
    } else {
      assert Drain(Reader(p, Some(|p|))).payloads[0] == p[..0];
    }
  }

  // ---- The gate --------------------------------------------------------------------------------

  /** requiresApproval. */
  predicate Gated(m: Message) {
    if m.namespace in {NS_DEVICE_AUTH, NS_HEARTBEAT} then false
    else if m.namespace in {NS_MEDIA, NS_WEBRTC} then true
    else if m.namespace !in {NS_CONNECTION, NS_RECEIVER} then false
    else if !m.isString then false
    else if m.namespace == NS_CONNECTION then m.jsonType == "CONNECT" && m.destination != "receiver-0"
    else m.jsonType == "LAUNCH"
  }

  datatype Gate = Gate(approved: bool, pending: bool, rejected: bool, held: seq<Message>, handled: seq<Message>, prompts: nat)

  function NewGate(approved: bool): Gate { Gate(approved, false, false, [], [], 0) }

  /** onApprovalResolved: a refusal ends everything, an approval handles what was held, in order. */
  function Resolve(g: Gate, approve: bool): Gate {
    if !approve then g.(pending := false, rejected := true, held := [])
    else g.(pending := false, approved := true, held := [], handled := g.handled + g.held)
  }

  /** dispatchMessage; `atOnce` is whether a request for approval is granted without a prompt. */
  function Dispatch(g: Gate, m: Message, atOnce: bool): Gate {
    if g.rejected then g
    else if !g.approved && Gated(m) then
      var g1 := g.(held := g.held + [m]);
      if g.pending then g1
      else
        var g2 := g1.(pending := true, prompts := g.prompts + 1);
        if atOnce then Resolve(g2, true) else g2
    else g.(handled := g.handled + [m])
  }

  datatype Event = Receive(message: Message, atOnce: bool) | Decide(approve: bool)

  /** The callback is there to be run only while a request is pending. */
  function Step(g: Gate, e: Event): Gate {
    match e
    case Receive(m, atOnce) => Dispatch(g, m, atOnce)
    case Decide(approve) => if g.pending then Resolve(g, approve) else g
  }

  function Run(g: Gate, es: seq<Event>): Gate
    decreases |es|
  {
    if es == [] then g else Step(Run(g, es[..|es| - 1]), es[|es| - 1])
  }

  function Received(es: seq<Event>): seq<Message> {
    if es == [] then [] else (if es[0].Receive? then [es[0].message] else []) + Received(es[1..])
  }

  predicate Decided(g: Gate) { g.approved || g.rejected }

  /** How many messages had arrived when the decision fell, counting the one that brought it about. */
  function DecisionPoint(g: Gate, es: seq<Event>): Option<nat>
    decreases |es|
  {
    if es == [] then (if Decided(g) then Some(0) else None)
    else
      var before := DecisionPoint(g, es[..|es| - 1]);
      if before.Some? || !Decided(Run(g, es)) then before else Some(|Received(es)|)
  }

  function Select(ms: seq<Message>, gated: bool): seq<Message> {
    if ms == [] then [] else (if Gated(ms[0]) == gated then [ms[0]] else []) + Select(ms[1..], gated)
  }

  lemma {:induction false} SelectLast(ms: seq<Message>, m: Message, gated: bool)
    ensures Select(ms + [m], gated) == Select(ms, gated) + if Gated(m) == gated then [m] else []
  {
    if ms == [] {
      assert ms + [m] == [m];
      assert Select([m][1..], gated) == [];
    } else {
      var head, last := if Gated(ms[0]) == gated then [ms[0]] else [], if Gated(m) == gated then [m] else [];
      assert (ms + [m])[0] == ms[0] && (ms + [m])[1..] == ms[1..] + [m];
      assert Select(ms + [m], gated) == head + Select(ms[1..] + [m], gated);
      SelectLast(ms[1..], m, gated);
      Regroup(head, Select(ms[1..], gated), last);
    }
  }

  lemma {:induction false} ReceivedJoin(a: seq<Event>, b: seq<Event>)
    ensures Received(a + b) == Received(a) + Received(b)
  {
    if a == [] {
      assert a + b == b;
    } else {
      assert (a + b)[0] == a[0] && (a + b)[1..] == a[1..] + b;
      ReceivedJoin(a[1..], b);
    }
  }

  lemma {:induction false} ReceivedLast(es: seq<Event>, e: Event)
    ensures Received(es + [e]) == Received(es) + if e.Receive? then [e.message] else []
  {
    ReceivedJoin(es, [e]);
    assert Received([e][1..]) == [];
  }

  /** The state of a gate that has received `ms`, the decision having fallen after `k` of them. */
  predicate Outcome(g: Gate, ms: seq<Message>, k: Option<nat>) {
    g.prompts <= 1 &&
    match k
    case None =>
      !g.approved && !g.rejected && g.handled == Select(ms, false) && g.held == Select(ms, true) &&
      (g.pending <==> g.held != []) && g.prompts == (if g.held == [] then 0 else 1)
    case Some(k) =>
      k <= |ms| && g.approved != g.rejected && g.held == [] && !g.pending &&
      g.handled == Select(ms[..k], false) + if g.approved then Select(ms[..k], true) + ms[k..] else []
  }

  lemma {:induction false} AfterReceive(g: Gate, ms: seq<Message>, k: Option<nat>, m: Message, atOnce: bool)
    requires Outcome(g, ms, k)
    ensures var h := Dispatch(g, m, atOnce);
      Outcome(h, ms + [m], if k.None? && Decided(h) then Some(|ms| + 1) else k)
  {
    var all := ms + [m];
    SelectLast(ms, m, false);
    SelectLast(ms, m, true);
    if k.Some? {
      assert all[..k.value] == ms[..k.value] && all[k.value..] == ms[k.value..] + [m];
    } else {
      assert all[..|ms| + 1] == all && all[|ms| + 1..] == [];
    }
  }

  lemma {:induction false} AfterDecide(g: Gate, ms: seq<Message>, k: Option<nat>, approve: bool)
    requires Outcome(g, ms, k)
    ensures var h := Step(g, Decide(approve));
      Outcome(h, ms, if k.None? && Decided(h) then Some(|ms|) else k)
  {
    assert ms[..|ms|] == ms && ms[|ms|..] == [];
  }

  /** Over any run, whenever the decision falls: until then exactly the ungated messages have been
      handled and exactly the gated ones are held; an approval handles the held ones, in order, once,
      and from then on every message as it comes; a refusal drops them and nothing is handled again.
      At most one prompt is ever shown. */
  lemma {:induction false} GateOverRuns(approved: bool, es: seq<Event>)
    ensures var g := NewGate(approved); Outcome(Run(g, es), Received(es), DecisionPoint(g, es))
    decreases |es|
  {
    if es != [] {
      var g, before, e := NewGate(approved), es[..|es| - 1], es[|es| - 1];
      GateOverRuns(approved, before);
      assert es == before + [e];
      ReceivedLast(before, e);
      match e
      case Receive(m, atOnce) => AfterReceive(Run(g, before), Received(before), DecisionPoint(g, before), m, atOnce);
      case Decide(approve) =>
        assert Received(es) == Received(before);
        AfterDecide(Run(g, before), Received(before), DecisionPoint(g, before), approve);
    }
  }

  lemma {:induction false} SelectJoin(a: seq<Message>, b: seq<Message>, gated: bool)
    ensures Select(a + b, gated) == Select(a, gated) + Select(b, gated)
  {
    if a == [] {
      assert a + b == b;
    } else {
      assert (a + b)[0] == a[0] && (a + b)[1..] == a[1..] + b;
      SelectJoin(a[1..], b, gated);
    }
  }

  lemma {:induction false} SelectTwice(ms: seq<Message>, a: bool, b: bool)
    ensures Select(Select(ms, a), b) == if a == b then Select(ms, a) else []
  {
    if ms != [] {
      SelectTwice(ms[1..], a, b);
      var rest := Select(ms[1..], a);
      if Gated(ms[0]) == a {
        assert ([ms[0]] + rest)[1..] == rest;
      } else {
        assert [] + rest == rest;
      }
    }
  }

  lemma {:induction false} SelectApproved(head: seq<Message>, tail: seq<Message>, gated: bool)
    ensures Select(Select(head, false) + (Select(head, true) + tail), gated) == Select(head + tail, gated)
  {
    SelectJoin(Select(head, false), Select(head, true) + tail, gated);
    SelectJoin(Select(head, true), tail, gated);
    SelectTwice(head, false, gated);
    SelectTwice(head, true, gated);
    SelectJoin(head, tail, gated);
  }

  /** Seen separately: gated messages are handled never before approval and after it exactly in the
      order received; without a refusal the ungated ones always are. */
  lemma {:induction false} GatedInOrder(approved: bool, es: seq<Event>)
    ensures var g := Run(NewGate(approved), es); var ms := Received(es);
      (!g.approved ==> Select(g.handled, true) == []) &&
      (g.approved ==> Select(g.handled, true) == Select(ms, true)) &&
      (!g.rejected ==> Select(g.handled, false) == Select(ms, false))
  {
    GateOverRuns(approved, es);
    SelectOutcome(Run(NewGate(approved), es), Received(es), DecisionPoint(NewGate(approved), es));
  }

  lemma {:induction false} SelectOutcome(g: Gate, ms: seq<Message>, k: Option<nat>)
    requires Outcome(g, ms, k)
    ensures !g.approved ==> Select(g.handled, true) == []
    ensures g.approved ==> Select(g.handled, true) == Select(ms, true)
    ensures !g.rejected ==> Select(g.handled, false) == Select(ms, false)
  {
    var n := if k.Some? then k.value else |ms|;
    assert ms == ms[..n] + ms[n..];
    if g.approved {
      SelectApproved(ms[..n], ms[n..], true);
      SelectApproved(ms[..n], ms[n..], false);
    } else {
      assert ms[..|ms|] == ms && Select(ms[..n], false) + [] == Select(ms[..n], false);
      SelectTwice(ms[..n], false, true);
      SelectTwice(ms[..n], false, false);
    }
  }

  // ---- What is held back, by the fields of a message --------------------------------------------

  /** Playing media, mirroring, launching an application, or connecting to one. */
  predicate TakesOver(m: Message) {
    m.namespace == "urn:x-cast:com.google.cast.media" || m.namespace == "urn:x-cast:com.google.cast.webrtc" ||
    (m.namespace == "urn:x-cast:com.google.cast.receiver" && m.isString && m.jsonType == "LAUNCH") ||
    (m.namespace == "urn:x-cast:com.google.cast.tp.connection" && m.isString && m.jsonType == "CONNECT" &&
     m.destination != "receiver-0")
  }

  lemma {:induction false} GatedExactly(m: Message)
    ensures Gated(m) <==> TakesOver(m)
  {
    assert |NS_MEDIA| == 32 && |NS_WEBRTC| == 33 && |NS_RECEIVER| == 35 && |NS_HEARTBEAT| == 39;
    assert |NS_CONNECTION| == 40 && |NS_DEVICE_AUTH| == 40 && NS_CONNECTION[30] == 'c' && NS_DEVICE_AUTH[30] == 'd';
  }

  /** Until the user has said yes nothing that takes over the screen is handled. */
  lemma {:induction false} NothingTakesOverUnasked(approved: bool, es: seq<Event>)
    ensures var g := Run(NewGate(approved), es);
      !g.approved ==> forall i :: 0 <= i < |g.handled| ==> !TakesOver(g.handled[i])
    decreases |es|
  {
    if es != [] {
      NothingTakesOverUnasked(approved, es[..|es| - 1]);
      if es[|es| - 1].Receive? { GatedExactly(es[|es| - 1].message); }
    }
  }

  /** What each message meets on arrival, at any point of any run: while the user has not decided, one that
      takes over the screen is held, or handled if the request is granted at once, and has been prompted for;
      any other is handled at once and prompts nothing; after a yes every message is handled at once; after a
      no none is. */
  lemma {:induction false} EachMessageMeets(approved: bool, es: seq<Event>, m: Message, atOnce: bool)
    ensures var g := Run(NewGate(approved), es); var h := Run(NewGate(approved), es + [Receive(m, atOnce)]);
      if g.rejected then h == g
      else if g.approved || !TakesOver(m) then h == g.(handled := g.handled + [m])
      else
        !h.rejected && h.prompts == 1 && h.handled + h.held == g.handled + g.held + [m] &&
        (if atOnce && g.prompts == 0 then h.approved && h.held == [] else !h.approved && h.handled == g.handled)
  {
    var g := Run(NewGate(approved), es);
    var more := es + [Receive(m, atOnce)];
    assert more[..|es|] == es && more[|es|] == Receive(m, atOnce);
    GatedExactly(m);
    GateOverRuns(approved, es);
    Regroup(g.handled, g.held, [m]);
    assert (g.handled + (g.held + [m])) + [] == g.handled + (g.held + [m]);
  }

  // ---- Bytes and decisions ---------------------------------------------------------------------

  type Parser = seq<byte> -> Option<Message>

  datatype Input = Bytes(chunk: seq<byte>, atOnce: bool) | Decision(approve: bool)

  datatype Session = Session(reader: Reader, gate: Gate)

  /** The messages in the payloads; what does not parse is skipped. */
  function Parse(parse: Parser, payloads: seq<seq<byte>>): seq<Message> {
    if payloads == [] then []
    else (match parse(payloads[0]) case Some(m) => [m] case None => []) + Parse(parse, payloads[1..])
  }

  function DispatchAll(g: Gate, ms: seq<Message>, atOnce: bool): Gate
    decreases |ms|
  {
    if ms == [] then g else Dispatch(DispatchAll(g, ms[..|ms| - 1], atOnce), ms[|ms| - 1], atOnce)
  }

  function Handle(parse: Parser, s: Session, i: Input): Session {
    match i
    case Bytes(chunk, atOnce) =>
      var d := Drain(Append(s.reader, chunk));
      Session(d.reader, DispatchAll(s.gate, Parse(parse, d.payloads), atOnce))
    case Decision(approve) => s.(gate := Step(s.gate, Decide(approve)))
  }

  function HandleAll(parse: Parser, s: Session, inputs: seq<Input>): Session
    decreases |inputs|
  {
    if inputs == [] then s else Handle(parse, HandleAll(parse, s, inputs[..|inputs| - 1]), inputs[|inputs| - 1])
  }

  function AllBytes(inputs: seq<Input>): seq<byte>
    decreases |inputs|
  {
    if inputs == [] then []
    else
      var last := inputs[|inputs| - 1];
      AllBytes(inputs[..|inputs| - 1]) + if last.Bytes? then last.chunk else []
  }

  function Arrivals(ms: seq<Message>, atOnce: bool): (es: seq<Event>)
    ensures |es| == |ms|
  {
    seq(|ms|, i requires 0 <= i < |ms| => Receive(ms[i], atOnce))
  }

  lemma {:induction false} ParseJoin(parse: Parser, a: seq<seq<byte>>, b: seq<seq<byte>>)
    ensures Parse(parse, a + b) == Parse(parse, a) + Parse(parse, b)
  {
    if a == [] {
      assert a + b == b;
    } else {
      assert (a + b)[0] == a[0] && (a + b)[1..] == a[1..] + b;
      ParseJoin(parse, a[1..], b);
    }
  }

  lemma {:induction false} ReceivedArrivals(ms: seq<Message>, atOnce: bool)
    ensures Received(Arrivals(ms, atOnce)) == ms
  {
    if ms != [] {
      assert Arrivals(ms, atOnce)[1..] == Arrivals(ms[1..], atOnce);
      ReceivedArrivals(ms[1..], atOnce);
      assert [ms[0]] + ms[1..] == ms;
    }
  }

  lemma {:induction false} DispatchIsRun(g0: Gate, es: seq<Event>, ms: seq<Message>, atOnce: bool)
    ensures Run(g0, es + Arrivals(ms, atOnce)) == DispatchAll(Run(g0, es), ms, atOnce)
    decreases |ms|
  {
    if ms == [] {
      assert es + Arrivals(ms, atOnce) == es;
    } else {
      var before := ms[..|ms| - 1];
      var all := es + Arrivals(ms, atOnce);
      assert all[..|all| - 1] == es + Arrivals(before, atOnce);
      assert all[|all| - 1] == Receive(ms[|ms| - 1], atOnce);
      DispatchIsRun(g0, es, before, atOnce);
    }
  }

  /** Whatever the chunking, the session has received exactly the messages framed in the bytes so far,
      and its gate is that of a run of `GateOverRuns`. */
  lemma {:induction false} SessionIsGateRun(parse: Parser, approved: bool, inputs: seq<Input>) returns (es: seq<Event>)
    ensures var s := HandleAll(parse, Session(NEW_READER, NewGate(approved)), inputs);
      var d := Drain(Reader(AllBytes(inputs), None));
      s.reader == d.reader && s.gate == Run(NewGate(approved), es) && Received(es) == Parse(parse, d.payloads)
    decreases |inputs|
  {
    var start := Session(NEW_READER, NewGate(approved));
    if inputs == [] {
      es := [];
    } else {
      var before, last := inputs[..|inputs| - 1], inputs[|inputs| - 1];
      var es0 := SessionIsGateRun(parse, approved, before);
      var s := HandleAll(parse, start, before);
      match last
      case Bytes(chunk, atOnce) =>
        var d := Drain(Append(s.reader, chunk));
        var ms := Parse(parse, d.payloads);
        es := es0 + Arrivals(ms, atOnce);
        DrainJoin(Reader(AllBytes(before), None), chunk);
        ParseJoin(parse, Drain(Reader(AllBytes(before), None)).payloads, d.payloads);
        ReceivedJoin(es0, Arrivals(ms, atOnce));
        ReceivedArrivals(ms, atOnce);
        DispatchIsRun(NewGate(approved), es0, ms, atOnce);
      case Decision(approve) =>
        es := es0 + [Decide(approve)];
        assert es[..|es| - 1] == es0;
        ReceivedLast(es0, Decide(approve));
        assert AllBytes(inputs) == AllBytes(before) + [] == AllBytes(before);
    }
  }

  // ---- The moment of decision ------------------------------------------------------------------

  /** All messages framed in the bytes, as far as they are complete. */
  function MessagesIn(parse: Parser, bytes: seq<byte>): seq<Message> { Parse(parse, Drain(Reader(bytes, None)).payloads) }

  /** What was decided, and after how many messages. */
  datatype Verdict = Verdict(at: nat, approve: bool)

  function FirstGated(ms: seq<Message>): (i: nat)
    ensures i <= |ms|
  {
    if ms == [] || Gated(ms[0]) then 0 else 1 + FirstGated(ms[1..])
  }

  /** The verdict when `ms` has grown to `all`: a session that is granted at once is decided by the very
      first gated message. */
  function VerdictAfter(v: Option<Verdict>, ms: seq<Message>, all: seq<Message>, atOnce: bool): Option<Verdict> {
    if v.None? && atOnce && Select(ms, true) == [] && Select(all, true) != [] then Some(Verdict(FirstGated(all) + 1, true)) else v
  }

  /** Told from the inputs alone: the user's first answer after a gated message decides, with the messages
      complete in the bytes before it. */
  function DecidedAt(parse: Parser, approved: bool, inputs: seq<Input>): Option<Verdict>
    decreases |inputs|
  {
    if inputs == [] then (if approved then Some(Verdict(0, true)) else None)
    else
      var before, last := inputs[..|inputs| - 1], inputs[|inputs| - 1];
      var v, ms := DecidedAt(parse, approved, before), MessagesIn(parse, AllBytes(before));
      match last
      case Bytes(chunk, atOnce) => VerdictAfter(v, ms, MessagesIn(parse, AllBytes(inputs)), atOnce)
      case Decision(approve) => if v.None? && Select(ms, true) != [] then Some(Verdict(|ms|, approve)) else v
  }

  predicate VerdictOk(v: Option<Verdict>, ms: seq<Message>) { v.Some? ==> v.value.at <= |ms| }

  /** The gate after `ms`, the verdict having fallen where it says. */
  function GateAt(approved: bool, ms: seq<Message>, v: Option<Verdict>): Gate
    requires VerdictOk(v, ms)
  {
    match v
    case None =>
      var held := Select(ms, true);
      Gate(false, held != [], false, held, Select(ms, false), if held == [] then 0 else 1)
    case Some(Verdict(k, approve)) =>
      Gate(approve, false, !approve, [], Select(ms[..k], false) + if approve then Select(ms[..k], true) + ms[k..] else [],
           if approved then 0 else 1)
  }

  lemma {:induction false} OneMessage(approved: bool, ms: seq<Message>, v: Option<Verdict>, m: Message, atOnce: bool)
    requires VerdictOk(v, ms) && (approved ==> v.Some?)
    ensures var w := if v.None? && atOnce && Select(ms, true) == [] && Gated(m) then Some(Verdict(|ms| + 1, true)) else v;
      VerdictOk(w, ms + [m]) && Dispatch(GateAt(approved, ms, v), m, atOnce) == GateAt(approved, ms + [m], w)
  {
    var all := ms + [m];
    SelectLast(ms, m, false);
    SelectLast(ms, m, true);
    if v.Some? {
      var k := v.value.at;
      assert all[..k] == ms[..k] && all[k..] == ms[k..] + [m];
      Regroup(Select(ms[..k], false), Select(ms[..k], true) + ms[k..], [m]);
      Regroup(Select(ms[..k], true), ms[k..], [m]);
    } else {
      assert all[..|ms| + 1] == all && all[|ms| + 1..] == [];
    }
  }

  lemma {:induction false} FirstGatedLast(ms: seq<Message>, m: Message)
    ensures FirstGated(ms + [m]) == if Select(ms, true) != [] || Gated(m) then FirstGated(ms) else |ms| + 1
    ensures Select(ms, true) == [] ==> FirstGated(ms) == |ms|
  {
    if ms == [] {
      assert ms + [m] == [m] && FirstGated([m][1..]) == 0;
    } else {
      assert (ms + [m])[0] == ms[0] && (ms + [m])[1..] == ms[1..] + [m];
      FirstGatedLast(ms[1..], m);
    }
  }

  lemma {:induction false} ManyMessages(approved: bool, ms: seq<Message>, v: Option<Verdict>, more: seq<Message>, atOnce: bool)
    requires VerdictOk(v, ms) && (approved ==> v.Some?)
    ensures var w := VerdictAfter(v, ms, ms + more, atOnce);
      VerdictOk(w, ms + more) && DispatchAll(GateAt(approved, ms, v), more, atOnce) == GateAt(approved, ms + more, w)
    decreases |more|
  {
    if more == [] {
      assert ms + more == ms;
    } else {
      var before, m := more[..|more| - 1], more[|more| - 1];
      ManyMessages(approved, ms, v, before, atOnce);
      OneMessage(approved, ms + before, VerdictAfter(v, ms, ms + before, atOnce), m, atOnce);
      assert (ms + before) + [m] == ms + more;
      SelectLast(ms + before, m, true);
      SelectJoin(ms, before, true);
      FirstGatedLast(ms + before, m);
    }
  }

  lemma {:induction false} OneDecision(approved: bool, ms: seq<Message>, v: Option<Verdict>, approve: bool)
    requires VerdictOk(v, ms) && (approved ==> v.Some?)
    ensures var w := if v.None? && Select(ms, true) != [] then Some(Verdict(|ms|, approve)) else v;
      VerdictOk(w, ms) && Step(GateAt(approved, ms, v), Decide(approve)) == GateAt(approved, ms, w)
  {
    assert ms[..|ms|] == ms && ms[|ms|..] == [];
    assert Select(ms, true) + [] == Select(ms, true) && Select(ms, false) + [] == Select(ms, false);
  }

  /** Whatever has come in, up to the middle of a frame: the gate is exactly that of the messages complete so
      far, with the verdict where the inputs put it. */
  lemma {:induction false} GateIsDetermined(parse: Parser, approved: bool, inputs: seq<Input>)
    ensures var ms, v := MessagesIn(parse, AllBytes(inputs)), DecidedAt(parse, approved, inputs);
      VerdictOk(v, ms) && (approved ==> v.Some?) &&
      HandleAll(parse, Session(NEW_READER, NewGate(approved)), inputs).gate == GateAt(approved, ms, v)
    decreases |inputs|
  {
    if inputs != [] {
      var before, last := inputs[..|inputs| - 1], inputs[|inputs| - 1];
      GateIsDetermined(parse, approved, before);
      var es := SessionIsGateRun(parse, approved, before);
      var ms, v := MessagesIn(parse, AllBytes(before)), DecidedAt(parse, approved, before);
      match last
      case Bytes(chunk, atOnce) =>
        var first := Drain(Reader(AllBytes(before), None));
        var more := Parse(parse, Drain(Append(first.reader, chunk)).payloads);
        MessagesGrow(parse, AllBytes(before), chunk);
        ManyMessages(approved, ms, v, more, atOnce);
      case Decision(approve) =>
        assert AllBytes(inputs) == AllBytes(before) + [] == AllBytes(before);
        OneDecision(approved, ms, v, approve);
    }
  }

  /** On the wire as well: whatever bytes have come in, nothing that takes over the screen is handled without
      the user's yes. */
  lemma {:induction false} BytesTakeOverNothing(parse: Parser, approved: bool, inputs: seq<Input>)
    ensures var g := HandleAll(parse, Session(NEW_READER, NewGate(approved)), inputs).gate;
      !g.approved ==> forall i :: 0 <= i < |g.handled| ==> !TakesOver(g.handled[i])
  {
    var es := SessionIsGateRun(parse, approved, inputs);
    NothingTakesOverUnasked(approved, es);
  }

  lemma {:induction false} MessagesGrow(parse: Parser, bytes: seq<byte>, chunk: seq<byte>)
    ensures MessagesIn(parse, bytes + chunk) ==
            MessagesIn(parse, bytes) + Parse(parse, Drain(Append(Drain(Reader(bytes, None)).reader, chunk)).payloads)
  {
    DrainJoin(Reader(bytes, None), chunk);
    ParseJoin(parse, Drain(Reader(bytes, None)).payloads, Drain(Append(Drain(Reader(bytes, None)).reader, chunk)).payloads);
  }

  /** The gate over the wire: for any framed messages, any chunking, any part of the bytes in and any moment
      of decision, a synchronous one included. */
  lemma {:induction false} ApprovalGate(parse: Parser, approved: bool, inputs: seq<Input>, payloads: seq<seq<byte>>,
                                        missing: seq<byte>)
    requires PayloadsOk(payloads) && AllBytes(inputs) + missing == PutPayloads(payloads)
    ensures var g := HandleAll(parse, Session(NEW_READER, NewGate(approved)), inputs).gate;
      var ms, v := MessagesIn(parse, AllBytes(inputs)), DecidedAt(parse, approved, inputs);
      ms <= Parse(parse, payloads) && (missing == [] ==> ms == Parse(parse, payloads)) &&
      VerdictOk(v, ms) && g == GateAt(approved, ms, v) && g.prompts <= 1 &&
      (!g.approved ==> Select(g.handled, true) == []) && (g.approved ==> Select(g.handled, true) == Select(ms, true)) &&
      (!g.rejected ==> Select(g.handled, false) == Select(ms, false))
  {
    GateIsDetermined(parse, approved, inputs);
    MessagesGrow(parse, AllBytes(inputs), missing);
    FramingRoundTrip(payloads);
    if missing == [] { assert AllBytes(inputs) + missing == AllBytes(inputs); }
    var es := SessionIsGateRun(parse, approved, inputs);
    GatedInOrder(approved, es);
    GateOverRuns(approved, es);
  }
}
