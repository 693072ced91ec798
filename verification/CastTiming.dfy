/** When reports go out: at once when frames have been delivered, and again soon while packets are missing. */
module CastTiming {
  import opened Bytes
  import opened CastPacket
  import opened CastNack
  import opened CastRtcp
  import opened CastReporter
  import opened CastHost
  import R = CastRefinement

  // ---- What a datagram says --------------------------------------------------------------------

  /** The stream a report is about, its checkpoint byte, and whether it asks for packets and for a key frame. */
  datatype Said = Said(tx: uint32, checkpoint8: byte, asks: bool, pli: bool)

  function SaidIn(b: seq<byte>): Option<Said> {
    match ReadReport(Walk(b, 0).parts)
    case None => None
    case Some(r) => Some(Said(r.tx, r.checkpoint8, r.losses != [], r.pli))
  }

  type Hearing = seq<byte> -> Option<Said>

  /** `said` reads reports out of their bytes. */
  ghost predicate Hears(said: Hearing) {
    forall r: Report :: ReportOk(r) ==> said(Compound(r)) == Some(Said(r.tx, r.checkpoint8, r.losses != [], r.pli))
  }

  lemma {:induction false} SaidIsHeard()
    ensures Hears(SaidIn)
  {
    forall r: Report | ReportOk(r) ensures SaidIn(Compound(r)) == Some(Said(r.tx, r.checkpoint8, r.losses != [], r.pli)) {
      CompoundRoundTrip(r);
    }
  }

  /** Among the datagrams from number `from` on there is a report on the stream. */
  predicate Reported(said: Hearing, sent: seq<seq<byte>>, from: nat, tx: uint32) {
    exists n :: from <= n < |sent| && said(sent[n]).Some? && said(sent[n]).value.tx == tx
  }

  /** One that acknowledges everything up to the checkpoint. */
  predicate Acknowledged(said: Hearing, sent: seq<seq<byte>>, from: nat, tx: uint32, checkpoint: int) {
    exists n :: from <= n < |sent| && said(sent[n]).Some? && said(sent[n]).value.tx == tx &&
      said(sent[n]).value.checkpoint8 == checkpoint % 256
  }

  /** One that asks for a key frame. */
  predicate KeyFrameAsked(said: Hearing, sent: seq<seq<byte>>, from: nat, tx: uint32) {
    exists n :: from <= n < |sent| && said(sent[n]).Some? && said(sent[n]).value.tx == tx && said(sent[n]).value.pli
  }

  // ---- One report ------------------------------------------------------------------------------

  /** What one report adds: it is about its stream, and sets the time for the next by what it says. */
  lemma {:induction false} SendSays(said: Hearing, h: Host, i: nat, clock: nat -> Reading)
    requires Hears(said) && HostOk(h) && i < |h.streams| && h.senderKnown
    ensures var x, v := h.streams[i], Send(h, i, clock);
      |v.sent| == |h.sent| + 1 && v.sent[..|h.sent|] == h.sent && v.senderKnown &&
      said(v.sent[|h.sent|]) == Some(Said(x.tx, x.stream.checkpoint % 256, LossList(x.stream) != [], x.stream.pliPending)) &&
      v.streams == h.streams[i := v.streams[i]] && v.streams[i].stream == x.stream && v.streams[i].tx == x.tx &&
      v.streams[i].feedbackCount == (x.feedbackCount + 1) % 256 &&
      v.streams[i].nextRtcp == clock(|h.sent|).now + if LossList(x.stream) != [] then 30_000 else 500_000
  {
    var x, at := h.streams[i], clock(|h.sent|);
    var ntp := NextNtp(h.lastNtp, ClockNtp(at.secs, at.micros));
    assert ReportOk(ReportOn(x, at.now, ntp));
  }

  /** Sent datagrams stay sent, and a stream's next report is put off only by sending one on it. */
  ghost predicate Follows(said: Hearing, h: Host, v: Host, k: nat) {
    |v.streams| == |h.streams| && k < |h.streams| && |h.sent| <= |v.sent| && v.sent[..|h.sent|] == h.sent &&
    (h.senderKnown ==> v.senderKnown) && v.streams[k].tx == h.streams[k].tx &&
    (Reported(said, v.sent, |h.sent|, h.streams[k].tx) || v.streams[k].nextRtcp == h.streams[k].nextRtcp)
  }

  lemma {:induction false} FollowsOn(said: Hearing, a: Host, b: Host, c: Host, k: nat)
    requires Follows(said, a, b, k) && Follows(said, b, c, k)
    ensures Follows(said, a, c, k)
    ensures Reported(said, b.sent, |a.sent|, a.streams[k].tx) ==> Reported(said, c.sent, |a.sent|, a.streams[k].tx)
    ensures forall p ::
      Acknowledged(said, b.sent, |a.sent|, a.streams[k].tx, p) ==> Acknowledged(said, c.sent, |a.sent|, a.streams[k].tx, p)
    ensures KeyFrameAsked(said, b.sent, |a.sent|, a.streams[k].tx) ==> KeyFrameAsked(said, c.sent, |a.sent|, a.streams[k].tx)
  {
    assert forall n :: 0 <= n < |b.sent| ==> c.sent[n] == b.sent[n];
    assert c.sent[..|a.sent|] == b.sent[..|a.sent|];
    if Reported(said, c.sent, |b.sent|, a.streams[k].tx) {
      var n :| |b.sent| <= n < |c.sent| && said(c.sent[n]).Some? && said(c.sent[n]).value.tx == a.streams[k].tx;
    }
  }

  lemma {:induction false} SameFollows(said: Hearing, h: Host, v: Host, k: nat)
    requires |v.streams| == |h.streams| && k < |h.streams| && v.sent == h.sent && (h.senderKnown ==> v.senderKnown)
    requires v.streams[k].tx == h.streams[k].tx && v.streams[k].nextRtcp == h.streams[k].nextRtcp
    ensures Follows(said, h, v, k)
  {
    assert v.sent[..|h.sent|] == h.sent;
  }

  lemma {:induction false} SendFollows(said: Hearing, h: Host, i: nat, clock: nat -> Reading, k: nat)
    requires Hears(said) && HostOk(h) && i < |h.streams| && k < |h.streams|
    ensures Follows(said, h, Send(h, i, clock), k)
    ensures h.senderKnown && i == k ==>
      var x := h.streams[k];
      Acknowledged(said, Send(h, i, clock).sent, |h.sent|, x.tx, x.stream.checkpoint) &&
      Reported(said, Send(h, i, clock).sent, |h.sent|, x.tx) &&
      (x.stream.pliPending ==> KeyFrameAsked(said, Send(h, i, clock).sent, |h.sent|, x.tx))
  {
    if h.senderKnown {
      SendSays(said, h, i, clock);
      var v := Send(h, i, clock);
      assert i == k ==> said(v.sent[|h.sent|]).Some?;
    } else {
      SameFollows(said, h, h, k);
    }
  }

  // ---- One event -------------------------------------------------------------------------------

  lemma {:induction false} RtpFollows(said: Hearing, h: Host, d: seq<byte>, clock: nat -> Reading, k: nat)
    requires Hears(said) && HostOk(h) && |d| >= RTP_MIN_SIZE && k < |h.streams|
    ensures var v := OnRtp(h, d, clock);
      Follows(said, h, v, k) &&
      (v.streams[k].stream.checkpoint > h.streams[k].stream.checkpoint ==>
        Acknowledged(said, v.sent, |h.sent|, h.streams[k].tx, v.streams[k].stream.checkpoint))
  {
    var i := FindStream(h.streams, Be32(d, 8));
    if i.None? {
      SameFollows(said, h, h, k);
    } else {
      var s := h.streams[i.value].stream;
      S.HandleRtpKeeps(s, d);
      var next := With(h, i.value, h.streams[i.value].(stream := S.HandleRtp(s, d))).(senderKnown := true);
      SameFollows(said, h, next, k);
      SendFollows(said, next, i.value, clock, k);
      FollowsOn(said, h, next, Send(next, i.value, clock), k);
    }
  }

  lemma {:induction false} AnswerFollows(said: Hearing, h: Host, sr: SenderReport, clock: nat -> Reading, k: nat)
    requires Hears(said) && HostOk(h) && k < |h.streams|
    ensures Follows(said, h, Answer(h, sr, clock), k)
  {
    var i := FindStream(h.streams, sr.ssrc);
    if i.None? {
      SameFollows(said, h, h, k);
    } else {
      var noted := h.streams[i.value].(lastSr := Some((sr.middle, clock(|h.sent|).arrival)));
      var next := With(h, i.value, noted).(senderKnown := true);
      SameFollows(said, h, next, k);
      SendFollows(said, next, i.value, clock, k);
      FollowsOn(said, h, next, Send(next, i.value, clock), k);
    }
  }

  lemma {:induction false} AnswersFollow(said: Hearing, h: Host, srs: seq<SenderReport>, clock: nat -> Reading, k: nat)
    requires Hears(said) && HostOk(h) && k < |h.streams|
    ensures Follows(said, h, AnswerAll(h, srs, clock), k)
    decreases |srs|
  {
    if srs == [] {
      SameFollows(said, h, h, k);
    } else {
      var u := AnswerAll(h, srs[..|srs| - 1], clock);
      AnswersFollow(said, h, srs[..|srs| - 1], clock, k);
      AnswerFollows(said, u, srs[|srs| - 1], clock, k);
      FollowsOn(said, h, u, Answer(u, srs[|srs| - 1], clock), k);
    }
  }

  /** The stream has come to want a key frame. */
  predicate NewlyWants(h: Host, v: Host, k: nat)
    requires k < |h.streams| && k < |v.streams|
  {
    v.streams[k].stream.pliPending && !h.streams[k].stream.pliPending
  }

  lemma {:induction false} SkipFollows(said: Hearing, h: Host, i: nat, now: int, clock: nat -> Reading, k: nat)
    requires Hears(said) && HostOk(h) && i < |h.streams| && k < |h.streams|
    ensures var v := SkipOne(h, i, now, clock);
      Follows(said, h, v, k) &&
      (h.senderKnown && v.streams[k].stream.checkpoint > h.streams[k].stream.checkpoint ==>
        Acknowledged(said, v.sent, |h.sent|, h.streams[k].tx, v.streams[k].stream.checkpoint)) &&
      (h.senderKnown && NewlyWants(h, v, k) ==> KeyFrameAsked(said, v.sent, |h.sent|, h.streams[k].tx))
  {
    var s := h.streams[i].stream;
    S.SkipKeeps(s, now);
    var next := With(h, i, h.streams[i].(stream := S.SkipStalled(s, now)));
    SameFollows(said, h, next, k);
    SendFollows(said, next, i, clock, k);
    FollowsOn(said, h, next, Send(next, i, clock), k);
  }

  lemma {:induction false} TickOneFollows(said: Hearing, h: Host, i: nat, now: int, clock: nat -> Reading, k: nat)
    requires Hears(said) && HostOk(h) && i < |h.streams| && k < |h.streams|
    ensures var v, tx := TickOne(h, i, now, clock), h.streams[k].tx;
      Follows(said, h, v, k) &&
      (h.senderKnown && v.streams[k].stream.checkpoint > h.streams[k].stream.checkpoint ==>
        Acknowledged(said, v.sent, |h.sent|, tx, v.streams[k].stream.checkpoint)) &&
      (h.senderKnown && NewlyWants(h, v, k) ==> KeyFrameAsked(said, v.sent, |h.sent|, tx)) &&
      (h.senderKnown && i == k && now >= h.streams[k].nextRtcp ==> Reported(said, v.sent, |h.sent|, tx))
  {
    var u := SkipOne(h, i, now, clock);
    SkipFollows(said, h, i, now, clock, k);
    SendFollows(said, u, i, clock, k);
    FollowsOn(said, h, u, Send(u, i, clock), k);
    SameFollows(said, u, u, k);
    FollowsOn(said, h, u, u, k);
  }

  /** The first `n` streams' share of a tick, as far as it concerns the one at `k`. */
  lemma {:induction false} TicksFollow(said: Hearing, h: Host, n: nat, now: int, clock: nat -> Reading, k: nat)
    requires Hears(said) && HostOk(h) && n <= |h.streams| && k < |h.streams|
    ensures var v, tx := TickFirst(h, n, now, clock), h.streams[k].tx;
      Follows(said, h, v, k) &&
      (h.senderKnown && v.streams[k].stream.checkpoint > h.streams[k].stream.checkpoint ==>
        Acknowledged(said, v.sent, |h.sent|, tx, v.streams[k].stream.checkpoint)) &&
      (h.senderKnown && NewlyWants(h, v, k) ==> KeyFrameAsked(said, v.sent, |h.sent|, tx)) &&
      (h.senderKnown && k < n && now >= h.streams[k].nextRtcp ==> Reported(said, v.sent, |h.sent|, tx))
  {
    if n == 0 {
      SameFollows(said, h, h, k);
    } else {
      var u, i := TickFirst(h, n - 1, now, clock), n - 1;
      var v := TickFirst(h, n, now, clock);
      TicksFollow(said, h, i, now, clock, k);
      LastTick(h, n, now, clock, u);
      TickOneFollows(said, u, i, now, clock, k);
      TickOneAt(u, i, now, clock, k, v);
      FollowsOn(said, h, u, v, k);
      TickChanges(h, i, now, clock, k);
    }
  }

  lemma {:induction false} AskOneFollows(said: Hearing, h: Host, i: nat, clock: nat -> Reading, k: nat)
    requires Hears(said) && HostOk(h) && i < |h.streams| && k < |h.streams|
    ensures Follows(said, h, AskOne(h, i, clock), k)
    ensures h.senderKnown && NewlyWants(h, AskOne(h, i, clock), k) ==>
            KeyFrameAsked(said, AskOne(h, i, clock).sent, |h.sent|, h.streams[k].tx)
  {
    var x := h.streams[i];
    var next := With(h, i, x.(stream := x.stream.(pliPending := true)));
    SameFollows(said, h, h, k);
    SameFollows(said, h, next, k);
    SendFollows(said, next, i, clock, k);
    FollowsOn(said, h, next, Send(next, i, clock), k);
  }

  /** One more stream's share of a request, whatever the earlier ones led to. */
  lemma {:induction false} OneMoreAsks(said: Hearing, h: Host, u: Host, i: nat, clock: nat -> Reading, k: nat, v: Host)
    requires Hears(said) && HostOk(u) && i < |u.streams| && v == AskOne(u, i, clock) && Follows(said, h, u, k)
    requires h.senderKnown && NewlyWants(h, u, k) ==> KeyFrameAsked(said, u.sent, |h.sent|, h.streams[k].tx)
    ensures Follows(said, h, v, k)
    ensures h.senderKnown && NewlyWants(h, v, k) ==> KeyFrameAsked(said, v.sent, |h.sent|, h.streams[k].tx)
  {
    AskOneFollows(said, u, i, clock, k);
    FollowsOn(said, h, u, v, k);
    if NewlyWants(u, v, k) && u.senderKnown {
      var n :| |u.sent| <= n < |v.sent| && said(v.sent[n]).Some? && said(v.sent[n]).value.tx == u.streams[k].tx &&
        said(v.sent[n]).value.pli;
    }
  }

  lemma {:induction false} AsksFollow(said: Hearing, h: Host, n: nat, clock: nat -> Reading, k: nat)
    requires Hears(said) && HostOk(h) && n <= |h.streams| && k < |h.streams|
    ensures Follows(said, h, AskFirst(h, n, clock), k)
    ensures h.senderKnown && NewlyWants(h, AskFirst(h, n, clock), k) ==>
            KeyFrameAsked(said, AskFirst(h, n, clock).sent, |h.sent|, h.streams[k].tx)
  {
    if n == 0 {
      SameFollows(said, h, h, k);
    } else {
      var u, v := AskFirst(h, n - 1, clock), AskFirst(h, n, clock);
      AsksFollow(said, h, n - 1, clock, k);
      LastAsk(h, n, clock, u);
      OneMoreAsks(said, h, u, n - 1, clock, k, v);
    }
  }

  /** What an event has to do with the reports on stream `k`: an advance of its checkpoint is acknowledged, a
      tick at or after the due time sends one. */
  lemma {:induction false} StepFollows(said: Hearing, h: Host, e: HostEvent, clock: nat -> Reading, k: nat)
    requires Hears(said) && HostOk(h) && k < |h.streams|
    ensures var v, tx := HostStep(h, e, clock), h.streams[k].tx;
      Follows(said, h, v, k) &&
      ((h.senderKnown || e.Arrives?) && v.streams[k].stream.checkpoint > h.streams[k].stream.checkpoint ==>
        Acknowledged(said, v.sent, |h.sent|, tx, v.streams[k].stream.checkpoint)) &&
      (h.senderKnown && NewlyWants(h, v, k) ==> KeyFrameAsked(said, v.sent, |h.sent|, tx)) &&
      (h.senderKnown && e.Ticks? && e.now >= h.streams[k].nextRtcp ==> Reported(said, v.sent, |h.sent|, tx))
  {
    SameFollows(said, h, h, k);
    match e
    case Arrives(_, d, accepted) =>
      if accepted && LooksLikeRtp(d) {
        RtpFollows(said, h, d, clock, k);
        OnRtpChanges(h, d, clock, k);
        R.PliStep(h.streams[k].stream, R.Datagram(0, d));
      } else if accepted && LooksLikeRtcp(d) {
        var srs := SenderReports(Walk(d, 0).parts);
        AnswersFollow(said, h, srs, clock, k);
        AnswerKeepsStreams(h, srs, clock);
        assert SameStream(h.streams[k], AnswerAll(h, srs, clock).streams[k]);
      }
    case Ticks(now) => TicksFollow(said, h, |h.streams|, now, clock, k);
    case Asks(_) =>
      AsksFollow(said, h, |h.streams|, clock, k);
      AskChanges(h, |h.streams|, clock, k);
  }

  // ---- Whole runs ------------------------------------------------------------------------------

  /** Nothing has been received on stream `k` while it is not known where the sender is. */
  predicate KnownOrFresh(h: Host, k: nat)
    requires k < |h.streams|
  {
    h.senderKnown || h.streams[k].stream.frames == map[]
  }

  lemma {:induction false} StaysKnownOrFresh(h: Host, e: HostEvent, clock: nat -> Reading, k: nat)
    requires HostOk(h) && k < |h.streams| && KnownOrFresh(h, k)
    ensures KnownOrFresh(HostStep(h, e, clock), k)
  {
    SaidIsHeard();
    StepFollows(SaidIn, h, e, clock, k);
    StepConcerns(h, e, clock, k);
    if !h.senderKnown && e.Arrives? && e.accepted && LooksLikeRtp(e.d) && FindStream(h.streams, Be32(e.d, 8)) == Some(k) {
      assert HostStep(h, e, clock).senderKnown;
    }
  }

  lemma {:induction false} RunKnownOrFresh(h: Host, es: seq<HostEvent>, clock: nat -> Reading, k: nat)
    requires HostOk(h) && k < |h.streams| && KnownOrFresh(h, k)
    ensures KnownOrFresh(HostRun(h, es, clock), k)
    decreases |es|
  {
    if es != [] {
      RunKnownOrFresh(h, es[..|es| - 1], clock, k);
      StaysKnownOrFresh(HostRun(h, es[..|es| - 1], clock), es[|es| - 1], clock, k);
    }
  }

  lemma {:induction false} FreshStandsStill(h: Host, e: HostEvent, clock: nat -> Reading, k: nat)
    requires HostOk(h) && k < |h.streams| && h.streams[k].stream.frames == map[] && !e.Arrives?
    ensures HostStep(h, e, clock).streams[k].stream.checkpoint == h.streams[k].stream.checkpoint
  {
    StepConcerns(h, e, clock, k);
  }

  /** At any point of any run: an event that moves a stream's checkpoint makes a report go out at once that
      acknowledges it. */
  lemma {:induction false} AdvanceIsReported(h: Host, es: seq<HostEvent>, e: HostEvent, clock: nat -> Reading, k: nat)
    requires HostOk(h) && k < |h.streams| && h.streams[k].stream.frames == map[]
    ensures var u := HostRun(h, es, clock); var v := HostStep(u, e, clock);
      v.streams[k].stream.checkpoint > u.streams[k].stream.checkpoint ==>
        |u.sent| < |v.sent| && v.sent[..|u.sent|] == u.sent &&
        Acknowledged(SaidIn, v.sent, |u.sent|, u.streams[k].tx, v.streams[k].stream.checkpoint)
  {
    var u := HostRun(h, es, clock);
    SaidIsHeard();
    RunKnownOrFresh(h, es, clock, k);
    StepFollows(SaidIn, u, e, clock, k);
    if !u.senderKnown && !e.Arrives? { FreshStandsStill(u, e, clock, k); }
  }

  /** Once the sender is known, a key frame newly wanted on a stream, be it by the application or because video
      stalls with nothing to resume at, is asked for at once. */
  lemma {:induction false} KeyFrameIsAskedFor(h: Host, e: HostEvent, clock: nat -> Reading, k: nat)
    requires HostOk(h) && k < |h.streams| && h.senderKnown
    ensures var v := HostStep(h, e, clock);
      v.streams[k].stream.pliPending && !h.streams[k].stream.pliPending ==>
        KeyFrameAsked(SaidIn, v.sent, |h.sent|, h.streams[k].tx)
  {
    SaidIsHeard();
    StepFollows(SaidIn, h, e, clock, k);
  }

  lemma {:induction false} RunFollows(said: Hearing, h: Host, es: seq<HostEvent>, clock: nat -> Reading, k: nat)
    requires Hears(said) && HostOk(h) && k < |h.streams|
    ensures Follows(said, h, HostRun(h, es, clock), k)
    decreases |es|
  {
    if es == [] {
      SameFollows(said, h, h, k);
    } else {
      var u := HostRun(h, es[..|es| - 1], clock);
      RunFollows(said, h, es[..|es| - 1], clock, k);
      StepFollows(said, u, es[|es| - 1], clock, k);
      FollowsOn(said, h, u, HostStep(u, es[|es| - 1], clock), k);
    }
  }

  /** By a tick at the due time a report has gone out, in that tick or before. */
  lemma {:induction false} DueByThen(said: Hearing, h: Host, u: Host, e: HostEvent, clock: nat -> Reading, k: nat, v: Host)
    requires Hears(said) && HostOk(u) && Follows(said, h, u, k) && h.senderKnown && v == HostStep(u, e, clock)
    requires e.Ticks? && e.now >= h.streams[k].nextRtcp
    ensures Reported(said, v.sent, |h.sent|, h.streams[k].tx)
  {
    StepFollows(said, u, e, clock, k);
    FollowsOn(said, h, u, v, k);
    if Reported(said, v.sent, |u.sent|, h.streams[k].tx) {
      var n :| |u.sent| <= n < |v.sent| && said(v.sent[n]).Some? && said(v.sent[n]).value.tx == h.streams[k].tx;
    }
  }

  lemma {:induction false} StillReported(said: Hearing, h: Host, u: Host, e: HostEvent, clock: nat -> Reading, k: nat, v: Host)
    requires Hears(said) && HostOk(u) && Follows(said, h, u, k) && v == HostStep(u, e, clock)
    requires Reported(said, u.sent, |h.sent|, h.streams[k].tx)
    ensures Reported(said, v.sent, |h.sent|, h.streams[k].tx)
  {
    StepFollows(said, u, e, clock, k);
    FollowsOn(said, h, u, v, k);
  }

  /** A tick at or after the time a report is due makes sure that one has gone out. */
  lemma {:induction false} DueReportGoesOut(said: Hearing, h: Host, es: seq<HostEvent>, clock: nat -> Reading, k: nat, j: nat)
    requires Hears(said) && HostOk(h) && k < |h.streams| && h.senderKnown
    requires j < |es| && es[j].Ticks? && es[j].now >= h.streams[k].nextRtcp
    ensures Reported(said, HostRun(h, es, clock).sent, |h.sent|, h.streams[k].tx)
    decreases |es|
  {
    var before, e := es[..|es| - 1], es[|es| - 1];
    var u, v := HostRun(h, before, clock), HostRun(h, es, clock);
    RunFollows(said, h, before, clock, k);
    if j < |before| {
      DueReportGoesOut(said, h, before, clock, k, j);
      StillReported(said, h, u, e, clock, k, v);
    } else {
      DueByThen(said, h, u, e, clock, k, v);
    }
  }

  /** A report that asks for packets is followed by another on the same stream by the first tick 30 ms after
      it, whatever happens in between; one that asks for nothing, by the first tick 500 ms after it. */
  lemma {:induction false} ReportsAreRepeated(h: Host, i: nat, clock: nat -> Reading, es: seq<HostEvent>, j: nat)
    requires HostOk(h) && i < |h.streams| && h.senderKnown && j < |es| && es[j].Ticks?
    ensures var v := Send(h, i, clock);
      |v.sent| == |h.sent| + 1 && SaidIn(v.sent[|h.sent|]).Some? &&
      (es[j].now >= clock(|h.sent|).now + (if SaidIn(v.sent[|h.sent|]).value.asks then 30_000 else 500_000) ==>
        Reported(SaidIn, HostRun(v, es, clock).sent, |v.sent|, h.streams[i].tx))
  {
    SaidIsHeard();
    SendSays(SaidIn, h, i, clock);
    var v := Send(h, i, clock);
    if es[j].now >= v.streams[i].nextRtcp { DueReportGoesOut(SaidIn, v, es, clock, i, j); }
  }
}
