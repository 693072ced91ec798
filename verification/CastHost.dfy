/** The whole receiver: several streams on one port, one clock for their reports, and the sender's address
    learned from the first packet that makes sense. */
module CastHost {
  import opened Bytes
  import opened CastPacket
  import opened CastRtcp
  import opened CastReporter
  import R = CastRefinement

  // ---- State and steps -------------------------------------------------------------------------

  type Micros = x: nat | x < 1_000_000

  /** The clocks around a report: when what it answers was noted as arrived, the monotonic clock and the wall
      clock; times in microseconds. */
  datatype Reading = Reading(arrival: nat, now: nat, secs: nat, micros: Micros)

  /** A stream with what reporting on it needs: the middle of the last sender report's timestamp with its time
      of arrival, the feedback counter, and when the next report is due. */
  datatype StreamState = StreamState(stream: S.Stream, rx: uint32, tx: uint32, lastSr: Option<(uint32, nat)>,
                                     feedbackCount: byte, nextRtcp: int)

  datatype Host = Host(streams: seq<StreamState>, lastNtp: uint64, senderKnown: bool, sent: seq<seq<byte>>)

  predicate HostOk(h: Host) { forall i :: 0 <= i < |h.streams| ==> S.StreamOk(h.streams[i].stream) }

  function With(h: Host, i: nat, x: StreamState): Host
    requires i < |h.streams|
  {
    h.(streams := h.streams[i := x])
  }

  function ReportOn(x: StreamState, now: nat, ntp: uint64): Report
    requires S.StreamOk(x.stream)
  {
    ReportOf(x.stream, x.rx, x.tx, SrInfoAt(x.lastSr, now), ntp, x.feedbackCount)
  }

  /** sendRtcp; `clock(k)` is what the clocks say around the k-th report. */
  function Send(h: Host, i: nat, clock: nat -> Reading): (r: Host)
    requires HostOk(h) && i < |h.streams|
    ensures HostOk(r) && |r.streams| == |h.streams|
  {
    if !h.senderKnown then h
    else
      var x, at := h.streams[i], clock(|h.sent|);
      var ntp := NextNtp(h.lastNtp, ClockNtp(at.secs, at.micros));
      var y := x.(feedbackCount := (x.feedbackCount + 1) % 0x100, nextRtcp := NextDue(x.stream, at.now));
      Host(h.streams[i := y], ntp, true, h.sent + [Compound(ReportOn(x, at.now, ntp))])
  }

  /** The first stream with this sender. */
  function FindStream(xs: seq<StreamState>, ssrc: uint32): (i: Option<nat>)
    ensures i.Some? ==> i.value < |xs| && xs[i.value].tx == ssrc
  {
    if xs == [] then None
    else if xs[0].tx == ssrc then Some(0)
    else match FindStream(xs[1..], ssrc) case None => None case Some(i) => Some(i + 1)
  }

  predicate LooksLikeRtp(d: seq<byte>) {
    |d| >= RTP_MIN_SIZE && d[0] == 0x80 && (96 <= d[1] % 0x80 <= 104 || d[1] % 0x80 == 127)
  }

  predicate LooksLikeRtcp(d: seq<byte>) { |d| >= 8 && d[0] / 0x20 == 4 && 200 <= d[1] <= 207 }

  function OnRtp(h: Host, d: seq<byte>, clock: nat -> Reading): (r: Host)
    requires HostOk(h) && |d| >= RTP_MIN_SIZE
    ensures HostOk(r) && |r.streams| == |h.streams|
  {
    match FindStream(h.streams, Be32(d, 8))
    case None => h
    case Some(i) =>
      var s := h.streams[i].stream;
      S.HandleRtpKeeps(s, d);
      var t := S.HandleRtp(s, d);
      var next := With(h, i, h.streams[i].(stream := t)).(senderKnown := true);
      if t.checkpoint > s.checkpoint then Send(next, i, clock) else next
  }

  /** One sender report: recorded for its stream and answered. */
  function Answer(h: Host, sr: SenderReport, clock: nat -> Reading): (r: Host)
    requires HostOk(h)
    ensures HostOk(r) && |r.streams| == |h.streams|
  {
    match FindStream(h.streams, sr.ssrc)
    case None => h
    case Some(i) =>
      Send(With(h, i, h.streams[i].(lastSr := Some((sr.middle, clock(|h.sent|).arrival)))).(senderKnown := true), i, clock)
  }

  function AnswerAll(h: Host, srs: seq<SenderReport>, clock: nat -> Reading): (r: Host)
    requires HostOk(h)
    ensures HostOk(r) && |r.streams| == |h.streams|
    decreases |srs|
  {
    if srs == [] then h else Answer(AnswerAll(h, srs[..|srs| - 1], clock), srs[|srs| - 1], clock)
  }

  lemma {:induction false} AnswerNext(h: Host, srs: seq<SenderReport>, sr: SenderReport, clock: nat -> Reading)
    requires HostOk(h)
    ensures AnswerAll(h, srs + [sr], clock) == Answer(AnswerAll(h, srs, clock), sr, clock)
  {
    assert (srs + [sr])[..|srs|] == srs;
  }

  /** Frames were given up, or a key frame is newly wanted. */
  predicate News(s: S.Stream, t: S.Stream) { t.checkpoint > s.checkpoint || (t.pliPending && !s.pliPending) }

  function SkipOne(h: Host, i: nat, now: int, clock: nat -> Reading): (r: Host)
    requires HostOk(h) && i < |h.streams|
    ensures HostOk(r) && |r.streams| == |h.streams|
  {
    var s := h.streams[i].stream;
    S.SkipKeeps(s, now);
    var t := S.SkipStalled(s, now);
    var next := With(h, i, h.streams[i].(stream := t));
    if News(s, t) then Send(next, i, clock) else next
  }

  /** One stream's share of a tick. */
  function TickOne(h: Host, i: nat, now: int, clock: nat -> Reading): (r: Host)
    requires HostOk(h) && i < |h.streams|
    ensures HostOk(r) && |r.streams| == |h.streams|
  {
    var next := SkipOne(h, i, now, clock);
    if now >= next.streams[i].nextRtcp then Send(next, i, clock) else next
  }

  function TickFirst(h: Host, n: nat, now: int, clock: nat -> Reading): (r: Host)
    requires HostOk(h) && n <= |h.streams|
    ensures HostOk(r) && |r.streams| == |h.streams|
  {
    if n == 0 then h else TickOne(TickFirst(h, n - 1, now, clock), n - 1, now, clock)
  }

  function AskOne(h: Host, i: nat, clock: nat -> Reading): (r: Host)
    requires HostOk(h) && i < |h.streams|
    ensures HostOk(r) && |r.streams| == |h.streams|
  {
    var x := h.streams[i];
    if x.stream.video && !x.stream.pliPending then Send(With(h, i, x.(stream := x.stream.(pliPending := true))), i, clock) else h
  }

  function AskFirst(h: Host, n: nat, clock: nat -> Reading): (r: Host)
    requires HostOk(h) && n <= |h.streams|
    ensures HostOk(r) && |r.streams| == |h.streams|
  {
    if n == 0 then h else AskOne(AskFirst(h, n - 1, clock), n - 1, clock)
  }

  lemma {:induction false} LastTick(h: Host, n: nat, now: int, clock: nat -> Reading, u: Host)
    requires HostOk(h) && 0 < n <= |h.streams| && u == TickFirst(h, n - 1, now, clock)
    ensures TickFirst(h, n, now, clock) == TickOne(u, n - 1, now, clock)
  {
  }

  lemma {:induction false} LastAsk(h: Host, n: nat, clock: nat -> Reading, u: Host)
    requires HostOk(h) && 0 < n <= |h.streams| && u == AskFirst(h, n - 1, clock)
    ensures AskFirst(h, n, clock) == AskOne(u, n - 1, clock)
  {
  }

  /** A datagram, accepted unless it comes from somebody else than expected; the timer; the application
      asking for a key frame. */
  datatype HostEvent = Arrives(time: int, d: seq<byte>, accepted: bool) | Ticks(now: int) | Asks(time: int)

  function HostStep(h: Host, e: HostEvent, clock: nat -> Reading): (r: Host)
    requires HostOk(h)
    ensures HostOk(r) && |r.streams| == |h.streams|
  {
    match e
    case Arrives(_, d, accepted) =>
      if !accepted then h
      else if LooksLikeRtp(d) then OnRtp(h, d, clock)
      else if LooksLikeRtcp(d) then AnswerAll(h, SenderReports(Walk(d, 0).parts), clock)
      else h
    case Ticks(now) => TickFirst(h, |h.streams|, now, clock)
    case Asks(_) => AskFirst(h, |h.streams|, clock)
  }

  function HostRun(h: Host, es: seq<HostEvent>, clock: nat -> Reading): (r: Host)
    requires HostOk(h)
    ensures HostOk(r) && |r.streams| == |h.streams|
    decreases |es|
  {
    if es == [] then h else HostStep(HostRun(h, es[..|es| - 1], clock), es[|es| - 1], clock)
  }

  // ---- The streams do not disturb each other ---------------------------------------------------

  /** What of a stream does not concern reporting. */
  ghost predicate SameStream(a: StreamState, b: StreamState) { a.stream == b.stream && a.tx == b.tx && a.rx == b.rx }

  ghost predicate SameStreams(xs: seq<StreamState>, ys: seq<StreamState>) {
    |xs| == |ys| && forall i :: 0 <= i < |xs| ==> SameStream(xs[i], ys[i])
  }

  lemma {:induction false} AnswerKeepsStreams(h: Host, srs: seq<SenderReport>, clock: nat -> Reading)
    requires HostOk(h)
    ensures SameStreams(h.streams, AnswerAll(h, srs, clock).streams)
    decreases |srs|
  {
    if srs != [] { AnswerKeepsStreams(h, srs[..|srs| - 1], clock); }
  }

  /** Only the stream at `i` has changed, to `t`. */
  ghost predicate OnlyChanged(xs: seq<StreamState>, ys: seq<StreamState>, i: nat, t: S.Stream) {
    |xs| == |ys| && i < |xs| && ys[i].stream == t && ys[i].tx == xs[i].tx && ys[i].rx == xs[i].rx &&
    forall k :: 0 <= k < |xs| && k != i ==> ys[k] == xs[k]
  }

  lemma {:induction false} TickOneChanges(h: Host, i: nat, now: int, clock: nat -> Reading)
    requires HostOk(h) && i < |h.streams|
    ensures OnlyChanged(h.streams, TickOne(h, i, now, clock).streams, i, S.SkipStalled(h.streams[i].stream, now))
  {
  }

  lemma {:induction false} TickOneAt(h: Host, i: nat, now: int, clock: nat -> Reading, k: nat, t: Host)
    requires HostOk(h) && i < |h.streams| && k < |h.streams| && t == TickOne(h, i, now, clock)
    ensures t.streams[k].tx == h.streams[k].tx && t.streams[k].rx == h.streams[k].rx
    ensures t.streams[k].stream == if k == i then S.SkipStalled(h.streams[k].stream, now) else h.streams[k].stream
  {
    TickOneChanges(h, i, now, clock);
  }

  /** What the first `n` streams' share of a tick makes of the one at `k`. */
  ghost predicate Ticked(x: StreamState, y: StreamState, k: nat, n: nat, now: int)
    requires S.StreamOk(x.stream)
  {
    y.tx == x.tx && y.rx == x.rx && y.stream == if k < n then S.SkipStalled(x.stream, now) else x.stream
  }

  lemma {:induction false} TickChanges(h: Host, n: nat, now: int, clock: nat -> Reading, k: nat)
    requires HostOk(h) && n <= |h.streams| && k < |h.streams|
    ensures Ticked(h.streams[k], TickFirst(h, n, now, clock).streams[k], k, n, now)
  {
    if n > 0 {
      var u, i := TickFirst(h, n - 1, now, clock), n - 1;
      TickChanges(h, i, now, clock, k);
      LastTick(h, n, now, clock, u);
      TickOneAt(u, i, now, clock, k, TickFirst(h, n, now, clock));
    }
  }

  /** What a stream is after the application has asked for a key frame. */
  function Wanted(s: S.Stream): S.Stream { if s.video then s.(pliPending := true) else s }

  lemma {:induction false} AskOneChanges(h: Host, i: nat, clock: nat -> Reading)
    requires HostOk(h) && i < |h.streams|
    ensures OnlyChanged(h.streams, AskOne(h, i, clock).streams, i, Wanted(h.streams[i].stream))
  {
  }

  lemma {:induction false} AskChanges(h: Host, n: nat, clock: nat -> Reading, k: nat)
    requires HostOk(h) && n <= |h.streams| && k < |h.streams|
    ensures var x, y := h.streams[k], AskFirst(h, n, clock).streams[k];
      y.tx == x.tx && y.rx == x.rx && y.stream == if k < n then Wanted(x.stream) else x.stream
  {
    if n > 0 {
      var u, i := AskFirst(h, n - 1, clock), n - 1;
      AskChanges(h, i, clock, k);
      AskOneChanges(u, i, clock);
      LastAsk(h, n, clock, u);
    }
  }

  /** What an event is to the stream at `k`. */
  function Concerning(xs: seq<StreamState>, k: nat, e: HostEvent): (es: seq<R.Event>)
    ensures R.EventsOk(es)
  {
    match e
    case Arrives(time, d, accepted) =>
      if accepted && LooksLikeRtp(d) && FindStream(xs, Be32(d, 8)) == Some(k) then [R.Datagram(time, d)] else []
    case Ticks(now) => [R.Tick(now)]
    case Asks(time) => [R.KeyFrameWanted(time)]
  }

  function AllConcerning(xs: seq<StreamState>, k: nat, es: seq<HostEvent>): (r: seq<R.Event>)
    ensures R.EventsOk(r)
    decreases |es|
  {
    if es == [] then [] else AllConcerning(xs, k, es[..|es| - 1]) + Concerning(xs, k, es[|es| - 1])
  }

  lemma {:induction false} SameFind(xs: seq<StreamState>, ys: seq<StreamState>, ssrc: uint32)
    requires |xs| == |ys| && forall i :: 0 <= i < |xs| ==> xs[i].tx == ys[i].tx
    ensures FindStream(xs, ssrc) == FindStream(ys, ssrc)
  {
    if xs != [] { SameFind(xs[1..], ys[1..], ssrc); }
  }

  lemma {:induction false} OnRtpChanges(h: Host, d: seq<byte>, clock: nat -> Reading, k: nat)
    requires HostOk(h) && |d| >= RTP_MIN_SIZE && k < |h.streams|
    ensures var x, y := h.streams[k], OnRtp(h, d, clock).streams[k];
      y.tx == x.tx && y.rx == x.rx &&
      y.stream == if FindStream(h.streams, Be32(d, 8)) == Some(k) then S.HandleRtp(x.stream, d) else x.stream
  {
  }

  /** At most one step for a stream. */
  lemma {:induction false} StepConcerns(h: Host, e: HostEvent, clock: nat -> Reading, k: nat)
    requires HostOk(h) && k < |h.streams|
    ensures var x, y, es := h.streams[k], HostStep(h, e, clock).streams[k], Concerning(h.streams, k, e);
      y.tx == x.tx && y.rx == x.rx && |es| <= 1 && y.stream == if es == [] then x.stream else R.Step(x.stream, es[0])
  {
    match e
    case Arrives(_, d, accepted) =>
      if accepted && LooksLikeRtp(d) {
        OnRtpChanges(h, d, clock, k);
      } else if accepted && LooksLikeRtcp(d) {
        AnswerKeepsStreams(h, SenderReports(Walk(d, 0).parts), clock);
        assert SameStream(h.streams[k], HostStep(h, e, clock).streams[k]);
      }
    case Ticks(now) => TickChanges(h, |h.streams|, now, clock, k);
    case Asks(_) => AskChanges(h, |h.streams|, clock, k);
  }

  /** However the streams share port, timer and reports, each goes through exactly the run of the events that
      concern it; so everything proved of the runs of one stream holds of every stream of a receiver. */
  lemma {:induction false} StreamsAreIndependent(h: Host, es: seq<HostEvent>, clock: nat -> Reading, k: nat)
    requires HostOk(h) && k < |h.streams|
    ensures var x, y := h.streams[k], HostRun(h, es, clock).streams[k];
      y.tx == x.tx && y.rx == x.rx && y.stream == R.Run(x.stream, AllConcerning(h.streams, k, es))
    decreases |es|
  {
    if es != [] {
      var before, e := es[..|es| - 1], es[|es| - 1];
      StreamsAreIndependent(h, before, clock, k);
      var u := HostRun(h, before, clock);
      StepConcerns(u, e, clock, k);
      SameConcern(h, before, clock, k, e);
      OneMore(h.streams[k].stream, AllConcerning(h.streams, k, before), Concerning(h.streams, k, e));
    }
  }

  lemma {:induction false} SameConcern(h: Host, es: seq<HostEvent>, clock: nat -> Reading, k: nat, e: HostEvent)
    requires HostOk(h) && k < |h.streams|
    ensures Concerning(HostRun(h, es, clock).streams, k, e) == Concerning(h.streams, k, e)
  {
    if e.Arrives? && LooksLikeRtp(e.d) {
      var u := HostRun(h, es, clock);
      forall i | 0 <= i < |h.streams| ensures u.streams[i].tx == h.streams[i].tx { SendersStay(h, es, clock, i); }
      SameFind(HostRun(h, es, clock).streams, h.streams, Be32(e.d, 8));
    }
  }

  lemma {:induction false} SendersStay(h: Host, es: seq<HostEvent>, clock: nat -> Reading, k: nat)
    requires HostOk(h) && k < |h.streams|
    ensures HostRun(h, es, clock).streams[k].tx == h.streams[k].tx
    decreases |es|
  {
    if es != [] {
      SendersStay(h, es[..|es| - 1], clock, k);
      StepConcerns(HostRun(h, es[..|es| - 1], clock), es[|es| - 1], clock, k);
    }
  }

  lemma {:induction false} OneMore(s: S.Stream, es: seq<R.Event>, more: seq<R.Event>)
    requires S.StreamOk(s) && R.EventsOk(es) && R.EventsOk(more) && |more| <= 1
    ensures R.EventsOk(es + more)
    ensures R.Run(s, es + more) == if more == [] then R.Run(s, es) else R.Step(R.Run(s, es), more[0])
  {
    if more == [] {
      assert es + more == es;
    } else {
      assert (es + more)[..|es + more| - 1] == es;
    }
  }

  // ---- One clock for all reports ---------------------------------------------------------------

  /** The stamp a report carries. */
  function StampOf(b: seq<byte>): Option<uint64> {
    match ReadReport(Walk(b, 0).parts)
    case None => None
    case Some(r) => Some(r.ntp)
  }

  predicate Rises(a: uint64, b: uint64) { a != NTP_MAX ==> a < b }

  /** Every datagram sent carries a stamp, each larger than the one before unless that was the largest there
      is; the last is remembered. */
  predicate StampsRising(stampOf: seq<byte> -> Option<uint64>, sent: seq<seq<byte>>, last: uint64) {
    (forall i :: 0 <= i < |sent| ==> stampOf(sent[i]).Some?) && (sent != [] ==> stampOf(sent[|sent| - 1]) == Some(last)) &&
    forall i, j :: 0 <= i && j == i + 1 < |sent| ==> Rises(stampOf(sent[i]).value, stampOf(sent[j]).value)
  }

  predicate StampsOk(stampOf: seq<byte> -> Option<uint64>, h: Host) { StampsRising(stampOf, h.sent, h.lastNtp) }

  /** `stampOf` reads a report's stamp out of its bytes. */
  ghost predicate ReadsStamps(stampOf: seq<byte> -> Option<uint64>) {
    forall r: Report :: ReportOk(r) ==> stampOf(Compound(r)) == Some(r.ntp)
  }

  lemma {:induction false} StampsAreRead()
    ensures ReadsStamps(StampOf)
  {
    forall r: Report | ReportOk(r) ensures StampOf(Compound(r)) == Some(r.ntp) { CompoundRoundTrip(r); }
  }

  lemma {:induction false} NextRises(last: uint64, now: uint64)
    ensures Rises(last, NextNtp(last, now))
  {
  }

  lemma {:induction false} MoreStamps(stampOf: seq<byte> -> Option<uint64>, sent: seq<seq<byte>>, last: uint64,
                                      b: seq<byte>, ntp: uint64)
    requires StampsRising(stampOf, sent, last) && stampOf(b) == Some(ntp) && Rises(last, ntp)
    ensures StampsRising(stampOf, sent + [b], ntp)
  {
    var all := sent + [b];
    forall i, j | 0 <= i && j == i + 1 < |all| ensures Rises(stampOf(all[i]).value, stampOf(all[j]).value) {
      if j < |sent| { assert all[i] == sent[i] && all[j] == sent[j]; }
    }
  }

  lemma {:induction false} SendKeepsStamps(stampOf: seq<byte> -> Option<uint64>, h: Host, i: nat, clock: nat -> Reading)
    requires ReadsStamps(stampOf) && HostOk(h) && i < |h.streams| && StampsOk(stampOf, h)
    ensures StampsOk(stampOf, Send(h, i, clock))
  {
    if h.senderKnown {
      var at := clock(|h.sent|);
      var ntp := NextNtp(h.lastNtp, ClockNtp(at.secs, at.micros));
      NextRises(h.lastNtp, ClockNtp(at.secs, at.micros));
      MoreStamps(stampOf, h.sent, h.lastNtp, Compound(ReportOn(h.streams[i], at.now, ntp)), ntp);
    }
  }

  lemma {:induction false} AnswersKeepStamps(stampOf: seq<byte> -> Option<uint64>, h: Host, srs: seq<SenderReport>,
                                             clock: nat -> Reading)
    requires ReadsStamps(stampOf) && HostOk(h) && StampsOk(stampOf, h)
    ensures StampsOk(stampOf, AnswerAll(h, srs, clock))
    decreases |srs|
  {
    if srs != [] {
      var u, sr := AnswerAll(h, srs[..|srs| - 1], clock), srs[|srs| - 1];
      AnswersKeepStamps(stampOf, h, srs[..|srs| - 1], clock);
      AnswerKeepsStamps(stampOf, u, sr, clock);
    }
  }

  lemma {:induction false} AnswerKeepsStamps(stampOf: seq<byte> -> Option<uint64>, h: Host, sr: SenderReport,
                                             clock: nat -> Reading)
    requires ReadsStamps(stampOf) && HostOk(h) && StampsOk(stampOf, h)
    ensures StampsOk(stampOf, Answer(h, sr, clock))
  {
    var i := FindStream(h.streams, sr.ssrc);
    if i.Some? {
      var noted := h.streams[i.value].(lastSr := Some((sr.middle, clock(|h.sent|).arrival)));
      SendKeepsStamps(stampOf, With(h, i.value, noted).(senderKnown := true), i.value, clock);
    }
  }

  lemma {:induction false} SkipKeepsStamps(stampOf: seq<byte> -> Option<uint64>, h: Host, i: nat, now: int, clock: nat -> Reading)
    requires ReadsStamps(stampOf) && HostOk(h) && i < |h.streams| && StampsOk(stampOf, h)
    ensures StampsOk(stampOf, SkipOne(h, i, now, clock))
  {
    var s := h.streams[i].stream;
    S.SkipKeeps(s, now);
    var next := With(h, i, h.streams[i].(stream := S.SkipStalled(s, now)));
    SendKeepsStamps(stampOf, next, i, clock);
  }

  lemma {:induction false} TickOneKeepsStamps(stampOf: seq<byte> -> Option<uint64>, h: Host, i: nat, now: int,
                                              clock: nat -> Reading)
    requires ReadsStamps(stampOf) && HostOk(h) && i < |h.streams| && StampsOk(stampOf, h)
    ensures StampsOk(stampOf, TickOne(h, i, now, clock))
  {
    SkipKeepsStamps(stampOf, h, i, now, clock);
    SendKeepsStamps(stampOf, SkipOne(h, i, now, clock), i, clock);
  }

  lemma {:induction false} AskOneKeepsStamps(stampOf: seq<byte> -> Option<uint64>, h: Host, i: nat, clock: nat -> Reading)
    requires ReadsStamps(stampOf) && HostOk(h) && i < |h.streams| && StampsOk(stampOf, h)
    ensures StampsOk(stampOf, AskOne(h, i, clock))
  {
    var x := h.streams[i];
    SendKeepsStamps(stampOf, With(h, i, x.(stream := x.stream.(pliPending := true))), i, clock);
  }

  /** One stream's share of a tick, or of a request, keeps something. */
  ghost predicate TickKeeps(ok: Host -> bool, now: int, clock: nat -> Reading) {
    forall u: Host, i: nat {:trigger TickOne(u, i, now, clock)} ::
      HostOk(u) && i < |u.streams| && ok(u) ==> ok(TickOne(u, i, now, clock))
  }

  ghost predicate AskKeeps(ok: Host -> bool, clock: nat -> Reading) {
    forall u: Host, i: nat {:trigger AskOne(u, i, clock)} :: HostOk(u) && i < |u.streams| && ok(u) ==> ok(AskOne(u, i, clock))
  }

  lemma {:induction false} TicksKeep(ok: Host -> bool, h: Host, n: nat, now: int, clock: nat -> Reading)
    requires HostOk(h) && n <= |h.streams| && ok(h) && TickKeeps(ok, now, clock)
    ensures ok(TickFirst(h, n, now, clock))
  {
    if n > 0 {
      var u, i := TickFirst(h, n - 1, now, clock), n - 1;
      TicksKeep(ok, h, i, now, clock);
      LastTick(h, n, now, clock, u);
    }
  }

  lemma {:induction false} AsksKeep(ok: Host -> bool, h: Host, n: nat, clock: nat -> Reading)
    requires HostOk(h) && n <= |h.streams| && ok(h) && AskKeeps(ok, clock)
    ensures ok(AskFirst(h, n, clock))
  {
    if n > 0 {
      var u, i := AskFirst(h, n - 1, clock), n - 1;
      AsksKeep(ok, h, i, clock);
      LastAsk(h, n, clock, u);
    }
  }

  lemma {:induction false} TicksKeepStamps(stampOf: seq<byte> -> Option<uint64>, h: Host, n: nat, now: int, clock: nat -> Reading)
    requires ReadsStamps(stampOf) && HostOk(h) && n <= |h.streams| && StampsOk(stampOf, h)
    ensures StampsOk(stampOf, TickFirst(h, n, now, clock))
  {
    var ok := (u: Host) => StampsOk(stampOf, u);
    forall u: Host, i: nat | HostOk(u) && i < |u.streams| && ok(u) ensures ok(TickOne(u, i, now, clock)) {
      TickOneKeepsStamps(stampOf, u, i, now, clock);
    }
    TicksKeep(ok, h, n, now, clock);
  }

  lemma {:induction false} AsksKeepStamps(stampOf: seq<byte> -> Option<uint64>, h: Host, n: nat, clock: nat -> Reading)
    requires ReadsStamps(stampOf) && HostOk(h) && n <= |h.streams| && StampsOk(stampOf, h)
    ensures StampsOk(stampOf, AskFirst(h, n, clock))
  {
    var ok := (u: Host) => StampsOk(stampOf, u);
    forall u: Host, i: nat | HostOk(u) && i < |u.streams| && ok(u) ensures ok(AskOne(u, i, clock)) {
      AskOneKeepsStamps(stampOf, u, i, clock);
    }
    AsksKeep(ok, h, n, clock);
  }

  lemma {:induction false} OnRtpKeepsStamps(stampOf: seq<byte> -> Option<uint64>, h: Host, d: seq<byte>, clock: nat -> Reading)
    requires ReadsStamps(stampOf) && HostOk(h) && |d| >= RTP_MIN_SIZE && StampsOk(stampOf, h)
    ensures StampsOk(stampOf, OnRtp(h, d, clock))
  {
    var i := FindStream(h.streams, Be32(d, 8));
    if i.Some? {
      var s := h.streams[i.value].stream;
      S.HandleRtpKeeps(s, d);
      var after := h.streams[i.value].(stream := S.HandleRtp(s, d));
      SendKeepsStamps(stampOf, With(h, i.value, after).(senderKnown := true), i.value, clock);
    }
  }

  lemma {:induction false} StepKeepsStamps(stampOf: seq<byte> -> Option<uint64>, h: Host, e: HostEvent, clock: nat -> Reading)
    requires ReadsStamps(stampOf) && HostOk(h) && StampsOk(stampOf, h)
    ensures StampsOk(stampOf, HostStep(h, e, clock))
  {
    match e
    case Arrives(_, d, accepted) =>
      if accepted && LooksLikeRtp(d) {
        OnRtpKeepsStamps(stampOf, h, d, clock);
      } else if accepted && LooksLikeRtcp(d) {
        AnswersKeepStamps(stampOf, h, SenderReports(Walk(d, 0).parts), clock);
      }
    case Ticks(now) => TicksKeepStamps(stampOf, h, |h.streams|, now, clock);
    case Asks(_) => AsksKeepStamps(stampOf, h, |h.streams|, clock);
  }

  lemma {:induction false} RunKeepsStamps(stampOf: seq<byte> -> Option<uint64>, h: Host, es: seq<HostEvent>,
                                          clock: nat -> Reading)
    requires ReadsStamps(stampOf) && HostOk(h) && StampsOk(stampOf, h)
    ensures StampsOk(stampOf, HostRun(h, es, clock))
    decreases |es|
  {
    if es != [] {
      RunKeepsStamps(stampOf, h, es[..|es| - 1], clock);
      StepKeepsStamps(stampOf, HostRun(h, es[..|es| - 1], clock), es[|es| - 1], clock);
    }
  }

  /** Over any run from the start the stamps of all reports, of whichever stream, rise as the sender demands
      until all 64 bits are used up. */
  lemma {:induction false} AllStampsRise(streams: seq<StreamState>, es: seq<HostEvent>, clock: nat -> Reading)
    requires forall i :: 0 <= i < |streams| ==> S.StreamOk(streams[i].stream)
    ensures StampsOk(StampOf, HostRun(Host(streams, 0, false, []), es, clock))
  {
    StampsAreRead();
    RunKeepsStamps(StampOf, Host(streams, 0, false, []), es, clock);
  }

  // ---- Every sender report is answered ---------------------------------------------------------

  /** The reports about streams we have. */
  function Known(xs: seq<StreamState>, srs: seq<SenderReport>): seq<SenderReport>
    decreases |srs|
  {
    if srs == [] then []
    else Known(xs, srs[..|srs| - 1]) + if FindStream(xs, srs[|srs| - 1].ssrc).Some? then [srs[|srs| - 1]] else []
  }

  /** The bytes decode to a report whose block carries the stamp and the source of `sr`. */
  predicate Names(reply: seq<byte>, sr: SenderReport) {
    var r := ReadReport(Walk(reply, 0).parts);
    r.Some? && r.value.tx == sr.ssrc && r.value.sr.Some? && r.value.sr.value.middle == sr.middle
  }

  lemma {:induction false} ReplyNamesReport(h: Host, sr: SenderReport, clock: nat -> Reading)
    requires HostOk(h) && FindStream(h.streams, sr.ssrc).Some?
    ensures var to := Answer(h, sr, clock);
      |to.sent| == |h.sent| + 1 && to.sent[..|h.sent|] == h.sent && Names(to.sent[|h.sent|], sr)
  {
    var i, at := FindStream(h.streams, sr.ssrc).value, clock(|h.sent|);
    var x := h.streams[i].(lastSr := Some((sr.middle, at.arrival)));
    CompoundRoundTrip(ReportOn(x, at.now, NextNtp(h.lastNtp, ClockNtp(at.secs, at.micros))));
  }

  /** The replies to the sender reports of one datagram, in order: one for each that is about a stream we have,
      each naming the report it answers. */
  lemma {:induction false} EveryReportIsAnswered(h: Host, srs: seq<SenderReport>, clock: nat -> Reading)
    requires HostOk(h)
    ensures var to, known := AnswerAll(h, srs, clock), Known(h.streams, srs);
      |to.sent| == |h.sent| + |known| && to.sent[..|h.sent|] == h.sent &&
      forall i :: 0 <= i < |known| ==> Names(to.sent[|h.sent| + i], known[i])
    decreases |srs|
  {
    if srs != [] {
      var n := |srs| - 1;
      EveryReportIsAnswered(h, srs[..n], clock);
      var u := AnswerAll(h, srs[..n], clock);
      AnswerKeepsStreams(h, srs[..n], clock);
      forall i | 0 <= i < |h.streams| ensures h.streams[i].tx == u.streams[i].tx {
        assert SameStream(h.streams[i], u.streams[i]);
      }
      SameFind(h.streams, u.streams, srs[n].ssrc);
      if FindStream(u.streams, srs[n].ssrc).Some? { ReplyNamesReport(u, srs[n], clock); }
    }
  }

  // ---- The object ------------------------------------------------------------------------------

  class CastStreamingReceiver {
    var streams: seq<StreamState>
    var lastNtp: uint64
    var senderKnown: bool
    /** The datagrams sent. */
    var sent: seq<seq<byte>>
    const clock: nat -> Reading

    function View(): Host
      reads this
    {
      Host(streams, lastNtp, senderKnown, sent)
    }

    ghost predicate Valid()
      reads this
    {
      HostOk(View())
    }

    constructor (streams: seq<StreamState>, clock: nat -> Reading)
      requires forall i :: 0 <= i < |streams| ==> S.StreamOk(streams[i].stream)
      ensures Valid() && View() == Host(streams, 0, false, []) && this.clock == clock
    {
      this.streams, this.clock, lastNtp, senderKnown, sent := streams, clock, 0, false, [];
    }

    method NextNtpTimestamp(secs: nat, micros: Micros) returns (ntp: uint64)
      modifies `lastNtp
      ensures ntp == lastNtp == NextNtp(old(lastNtp), ClockNtp(secs, micros))
    {
      ntp := ClockNtp(secs, micros);
      if ntp <= lastNtp { ntp := (lastNtp + 1) % 0x1_0000_0000_0000_0000; }
      lastNtp := ntp;
    }

    /** Nothing goes out while it is not known where the sender is. */
    method SendRtcp(i: nat)
      requires Valid() && i < |streams|
      modifies this
      ensures Valid() && View() == Send(old(View()), i, clock)
    {
      if !senderKnown { return; }
      var x, at := streams[i], clock(|sent|);
      var ntp := NextNtpTimestamp(at.secs, at.micros);
      var b, complete := BuildReport(x.stream, x.rx, x.tx, SrInfoAt(x.lastSr, at.now), ntp, x.feedbackCount);
      var due := at.now + 1000 * if complete then REPORT_INTERVAL_MS else NACK_INTERVAL_MS;
      streams := streams[i := x.(feedbackCount := (x.feedbackCount + 1) % 0x100, nextRtcp := due)];
      sent := sent + [b];
    }

    method StreamBySenderSsrc(ssrc: uint32) returns (found: Option<nat>)
      ensures found == FindStream(streams, ssrc)
    {
      FoundAt(streams, ssrc);
      for i := 0 to |streams|
        invariant forall k :: 0 <= k < i ==> streams[k].tx != ssrc
      {
        if streams[i].tx == ssrc { return Some(i); }
      }
      return None;
    }

    method HandleRtp(d: seq<byte>)
      requires Valid() && |d| >= RTP_MIN_SIZE
      modifies this
      ensures Valid() && View() == OnRtp(old(View()), d, clock)
    {
      var i := StreamBySenderSsrc(Be32(d, 8));
      if i.None? { return; }
      var s := streams[i.value].stream;
      S.HandleRtpKeeps(s, d);
      senderKnown := true;
      streams := streams[i.value := streams[i.value].(stream := S.HandleRtp(s, d))];
      if streams[i.value].stream.checkpoint > s.checkpoint { SendRtcp(i.value); }
    }

    method AnswerReport(sr: SenderReport)
      requires Valid()
      modifies this
      ensures Valid() && View() == Answer(old(View()), sr, clock)
    {
      var i := StreamBySenderSsrc(sr.ssrc);
      if i.None? { return; }
      senderKnown := true;
      streams := streams[i.value := streams[i.value].(lastSr := Some((sr.middle, clock(|sent|).arrival)))];
      SendRtcp(i.value);
    }

    method HandleRtcp(d: seq<byte>)
      requires Valid()
      modifies this
      ensures Valid() && View() == AnswerAll(old(View()), SenderReports(Walk(d, 0).parts), clock)
    {
      var found, end := FindReports(d);
      ghost var before, done := View(), [];
      for i := 0 to |found|
        invariant Valid() && done == found[..i] && View() == AnswerAll(before, done, clock)
      {
        AnswerNext(before, done, found[i], clock);
        AnswerReport(found[i]);
        done := done + [found[i]];
      }
      assert done == found;
    }

    /** One datagram from the socket. */
    method OnDatagram(time: int, d: seq<byte>, accepted: bool)
      requires Valid()
      modifies this
      ensures Valid() && View() == HostStep(old(View()), Arrives(time, d, accepted), clock)
    {
      if !accepted { return; }
      if LooksLikeRtp(d) {
        HandleRtp(d);
      } else if LooksLikeRtcp(d) {
        HandleRtcp(d);
      }
    }

    method SkipStalledFrames(i: nat, now: int)
      requires Valid() && i < |streams|
      modifies this
      ensures Valid() && View() == SkipOne(old(View()), i, now, clock)
    {
      var s := streams[i].stream;
      S.SkipKeeps(s, now);
      streams := streams[i := streams[i].(stream := S.SkipStalled(s, now))];
      if News(s, streams[i].stream) { SendRtcp(i); }
    }

    method TickStream(i: nat, now: int)
      requires Valid() && i < |streams|
      modifies this
      ensures Valid() && View() == TickOne(old(View()), i, now, clock)
    {
      SkipStalledFrames(i, now);
      if now >= streams[i].nextRtcp { SendRtcp(i); }
    }

    method OnTick(now: int)
      requires Valid()
      modifies this
      ensures Valid() && View() == HostStep(old(View()), Ticks(now), clock)
    {
      var n := |streams|;
      for i := 0 to n
        invariant Valid() && |streams| == n == |old(View()).streams| && View() == TickFirst(old(View()), i, now, clock)
      {
        TickStream(i, now);
      }
    }

    method AskStream(i: nat)
      requires Valid() && i < |streams|
      modifies this
      ensures Valid() && View() == AskOne(old(View()), i, clock)
    {
      var x := streams[i];
      if x.stream.video && !x.stream.pliPending {
        streams := streams[i := x.(stream := x.stream.(pliPending := true))];
        SendRtcp(i);
      }
    }

    method RequestKeyFrame(time: int)
      requires Valid()
      modifies this
      ensures Valid() && View() == HostStep(old(View()), Asks(time), clock)
    {
      var n := |streams|;
      for i := 0 to n
        invariant Valid() && |streams| == n == |old(View()).streams| && View() == AskFirst(old(View()), i, clock)
      {
        AskStream(i);
      }
    }
  }

  lemma {:induction false} FoundAt(xs: seq<StreamState>, ssrc: uint32)
    ensures match FindStream(xs, ssrc)
      case None => forall k :: 0 <= k < |xs| ==> xs[k].tx != ssrc
      case Some(i) => forall k :: 0 <= k < i ==> xs[k].tx != ssrc
  {
    if xs != [] && xs[0].tx != ssrc {
      FoundAt(xs[1..], ssrc);
      forall k | 0 < k < |xs| ensures xs[k] == xs[1..][k - 1] {}
    }
  }
}
