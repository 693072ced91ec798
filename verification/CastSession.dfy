/** A CASTV2 session and the security manager it asks, as objects that change step by step. */
module CastSession {
  import opened Bytes
  import G = CastGate

  class Session {
    const parse: G.Parser
    var buffer: seq<byte>
    var expectedLen: uint32
    var readingPayload: bool
    var approved: bool
    var approvalPending: bool
    var rejected: bool
    var heldMessages: seq<G.Message>
    /** The messages passed to the namespace handlers. */
    var handled: seq<G.Message>
    var prompts: nat

    function Reader(): G.Reader
      reads this
    {
      G.Reader(buffer, if readingPayload then Some(expectedLen) else None)
    }

    function Gate(): G.Gate
      reads this
    {
      G.Gate(approved, approvalPending, rejected, heldMessages, handled, prompts)
    }

    /** A request is open only while nothing has been decided. */
    ghost predicate Valid()
      reads this
    {
      approvalPending ==> !approved && !rejected
    }

    /** Without a security manager everything is approved. */
    constructor (parse: G.Parser, hasSecurityManager: bool)
      ensures Valid() && Reader() == G.NEW_READER && Gate() == G.NewGate(!hasSecurityManager) && this.parse == parse
    {
      this.parse, buffer, expectedLen, readingPayload := parse, [], 0, false;
      approved, approvalPending, rejected := !hasSecurityManager, false, false;
      heldMessages, handled, prompts := [], [], 0;
    }

    method DispatchMessage(m: G.Message, atOnce: bool)
      requires Valid()
      modifies this
      ensures Valid() && Gate() == G.Dispatch(old(Gate()), m, atOnce) && Reader() == old(Reader())
      decreases !approved, 2
    {
      if rejected { return; }
      if !approved && G.Gated(m) {
        heldMessages := heldMessages + [m];
        RequestApproval(atOnce);
        return;
      }
      handled := handled + [m];
    }

    /** checkConnectionAsync runs the callback at once or later. */
    method RequestApproval(atOnce: bool)
      requires Valid() && !approved && !rejected
      modifies this
      ensures Valid() && Reader() == old(Reader())
      ensures var g := old(Gate());
        Gate() == if g.pending then g
                  else if atOnce then G.Resolve(g.(pending := true, prompts := g.prompts + 1), true)
                  else g.(pending := true, prompts := g.prompts + 1)
      decreases !approved, 1
    {
      if approvalPending { return; }
      approvalPending := true;
      prompts := prompts + 1;
      if atOnce { OnApprovalResolved(true); }
    }

    /** The held messages are dispatched anew, one by one. */
    method OnApprovalResolved(approve: bool)
      requires Valid() && approvalPending
      modifies this
      ensures Valid() && Gate() == G.Resolve(old(Gate()), approve) && Reader() == old(Reader())
      decreases !approved, 0
    {
      approvalPending := false;
      if !approve {
        rejected := true;
        heldMessages := [];
        return;
      }
      approved := true;
      var held := heldMessages;
      heldMessages := [];
      var i := 0;
      while i < |held|
        invariant i <= |held| && approved && !rejected && !approvalPending && Reader() == old(Reader())
        invariant heldMessages == [] && handled == old(handled) + held[..i] && prompts == old(prompts)
      {
        DispatchMessage(held[i], false);
        i := i + 1;
      }
      assert held[..i] == held;
    }

    /** resolveApproval reaches the session only while its callback is stored. */
    method Decide(approve: bool)
      requires Valid()
      modifies this
      ensures Valid() && Gate() == G.Step(old(Gate()), G.Decide(approve)) && Reader() == old(Reader())
    {
      if approvalPending { OnApprovalResolved(approve); }
    }

    /** Takes the next payload out of the buffer, if it is all there. */
    method NextPayload() returns (payload: Option<seq<byte>>)
      modifies this
      ensures Gate() == old(Gate())
      ensures payload.None? ==> G.Drain(old(Reader())) == G.Drained(Reader(), [])
      ensures payload.Some? ==>
        var rest := G.Drain(Reader());
        !readingPayload && |buffer| <= |old(buffer)| && (|buffer| == |old(buffer)| ==> old(readingPayload)) &&
        G.Drain(old(Reader())) == G.Drained(rest.reader, [payload.value] + rest.payloads)
    {
      if !readingPayload {
        if |buffer| < 4 { return None; }
        expectedLen := Be32(buffer, 0);
        buffer := buffer[4..];
        readingPayload := true;
      }
      if |buffer| < expectedLen { return None; }
      var n := G.PayloadSize(expectedLen);
      payload := Some(buffer[..n]);
      buffer := buffer[n..];
      readingPayload := false;
    }

    /** What does not parse is skipped. */
    method HandlePayload(payload: seq<byte>, atOnce: bool, ghost start: G.Gate, ghost done: seq<G.Message>)
      requires Valid() && Gate() == G.DispatchAll(start, done, atOnce)
      modifies this
      ensures Valid() && Reader() == old(Reader())
      ensures Gate() == G.DispatchAll(start, done + G.Parse(parse, [payload]), atOnce)
    {
      var m := parse(payload);
      assert G.Parse(parse, [payload][1..]) == [];
      if m.Some? {
        DispatchMessage(m.value, atOnce);
        assert (done + [m.value])[..|done|] == done && [m.value] + [] == [m.value];
      } else {
        assert done + ([] + []) == done;
      }
    }

    method OnReadyRead(chunk: seq<byte>, atOnce: bool)
      requires Valid()
      modifies this
      ensures Valid()
      ensures G.Session(Reader(), Gate()) == G.Handle(parse, old(G.Session(Reader(), Gate())), G.Bytes(chunk, atOnce))
    {
      buffer := buffer + chunk;
      ghost var start, all := Gate(), G.Drain(Reader());
      ghost var done, left := [], all.payloads;
      var payload := NextPayload();
      while payload.Some?
        invariant Valid() && Gate() == G.DispatchAll(start, done, atOnce)
        invariant G.Parse(parse, all.payloads) == done + G.Parse(parse, left)
        invariant payload.Some? ==> !readingPayload && all.reader == G.Drain(Reader()).reader
        invariant payload.Some? ==> left == [payload.value] + G.Drain(Reader()).payloads
        invariant payload.None? ==> all.reader == Reader() && left == []
        decreases payload.Some?, |buffer|
      {
        ghost var rest := G.Drain(Reader()).payloads;
        G.ParseJoin(parse, [payload.value], rest);
        HandlePayload(payload.value, atOnce, start, done);
        Regroup(done, G.Parse(parse, [payload.value]), G.Parse(parse, rest));
        done, left := done + G.Parse(parse, [payload.value]), rest;
        payload := NextPayload();
      }
      assert done + [] == done;
    }
  }

  // ---- The security manager --------------------------------------------------------------------

  datatype Answer = Answer(id: nat, approved: bool)

  /** Requests by number; `sync` maps a waiting thread's request to its device, `expired` are those whose
      thread has stopped waiting. */
  datatype Requests = Requests(requireApproval: bool, trusted: set<string>, sync: map<nat, string>, callbacks: set<nat>,
                               expired: set<nat>, next: nat, answers: seq<Answer>, prompts: seq<nat>)

  function NewRequests(requireApproval: bool, trusted: set<string>): Requests {
    Requests(requireApproval, trusted, map[], {}, {}, 0, [], [])
  }

  datatype Call = CheckAsync(device: string) | CheckSync(device: string) | TimeOut(id: nat)
                | ResolveApproval(id: nat, approved: bool)

  predicate Granted(r: Requests, device: string) { !r.requireApproval || (device != "" && device in r.trusted) }

  function Apply(r: Requests, c: Call): Requests {
    match c
    case CheckAsync(device) =>
      if Granted(r, device) then r.(next := r.next + 1, answers := r.answers + [Answer(r.next, true)])
      else r.(next := r.next + 1, callbacks := r.callbacks + {r.next}, prompts := r.prompts + [r.next])
    case CheckSync(device) =>
      if Granted(r, device) then r.(next := r.next + 1, answers := r.answers + [Answer(r.next, true)])
      else r.(next := r.next + 1, sync := r.sync[r.next := device], prompts := r.prompts + [r.next])
    case TimeOut(id) =>
      if id in r.sync && id !in r.expired then r.(expired := r.expired + {id}, answers := r.answers + [Answer(id, false)]) else r
    case ResolveApproval(id, approved) =>
      if id in r.sync then
        var device := r.sync[id];
        r.(sync := r.sync - {id}, answers := if id in r.expired then r.answers else r.answers + [Answer(id, approved)],
           trusted := if approved && device != "" then r.trusted + {device} else r.trusted)
      else if id in r.callbacks then r.(callbacks := r.callbacks - {id}, answers := r.answers + [Answer(id, approved)])
      else r
  }

  function ApplyAll(r: Requests, cs: seq<Call>): Requests
    decreases |cs|
  {
    if cs == [] then r else Apply(ApplyAll(r, cs[..|cs| - 1]), cs[|cs| - 1])
  }

  predicate AnsweredOnce(answers: seq<Answer>) { forall i, j :: 0 <= i < j < |answers| ==> answers[i].id != answers[j].id }

  /** A request is prompted for at most once, and an open one has been. */
  predicate PromptsOk(r: Requests) {
    (forall i, j :: 0 <= i < j < |r.prompts| ==> r.prompts[i] != r.prompts[j]) &&
    (forall i :: 0 <= i < |r.prompts| ==> r.prompts[i] < r.next) &&
    (forall id :: id in r.sync ==> id in r.prompts) && (forall id :: id in r.callbacks ==> id in r.prompts)
  }

  predicate OpenOk(r: Requests) {
    r.sync.Keys !! r.callbacks && (forall id :: id in r.expired ==> id < r.next) &&
    (forall id :: id in r.sync ==> id < r.next) && (forall id :: id in r.callbacks ==> id < r.next)
  }

  /** Nobody waits for the request any more. */
  predicate Closed(r: Requests, id: nat) { id < r.next && (id in r.sync ==> id in r.expired) && id !in r.callbacks }

  predicate AnswersOk(r: Requests) {
    AnsweredOnce(r.answers) && forall i :: 0 <= i < |r.answers| ==> Closed(r, r.answers[i].id)
  }

  /** A request is waited for or answered, never both, and known. */
  predicate RequestsOk(r: Requests) { PromptsOk(r) && OpenOk(r) && AnswersOk(r) }

  lemma {:induction false} NothingPrompted(r: Requests, t: Requests)
    requires PromptsOk(r) && t.prompts == r.prompts && t.next >= r.next
    requires t.sync.Keys <= r.sync.Keys && t.callbacks <= r.callbacks
    ensures PromptsOk(t)
  {
    forall id | id in t.sync ensures id in t.prompts { assert id in r.sync.Keys; }
  }

  lemma {:induction false} OnePrompted(r: Requests, t: Requests)
    requires PromptsOk(r) && t.prompts == r.prompts + [r.next] && t.next == r.next + 1
    requires t.sync.Keys <= r.sync.Keys + {r.next} && t.callbacks <= r.callbacks + {r.next}
    ensures PromptsOk(t)
  {
    assert t.prompts[|r.prompts|] == r.next && t.prompts[..|r.prompts|] == r.prompts;
    forall id | id in t.sync ensures id in t.prompts { assert id in r.sync.Keys || id == r.next; }
    forall id | id in t.callbacks ensures id in t.prompts { assert id in r.callbacks || id == r.next; }
  }

  lemma {:induction false} PromptsKept(r: Requests, c: Call)
    requires PromptsOk(r)
    ensures PromptsOk(Apply(r, c))
  {
    var prompts := (c.CheckAsync? || c.CheckSync?) && !Granted(r, c.device);
    if prompts { OnePrompted(r, Apply(r, c)); } else { NothingPrompted(r, Apply(r, c)); }
  }

  lemma {:induction false} AnswersKept(r: Requests, c: Call)
    requires OpenOk(r) && AnswersOk(r)
    ensures AnswersOk(Apply(r, c)) && r.answers <= Apply(r, c).answers
  {
    var to := Apply(r, c);
    forall i | 0 <= i < |r.answers| ensures Closed(to, r.answers[i].id) { assert Closed(r, r.answers[i].id); }
    if to.answers != r.answers {
      var last := to.answers[|r.answers|];
      forall i | 0 <= i < |r.answers| ensures r.answers[i].id != last.id { assert Closed(r, r.answers[i].id); }
    }
  }

  lemma {:induction false} OpenKept(r: Requests, c: Call)
    requires OpenOk(r)
    ensures OpenOk(Apply(r, c))
  {
  }

  lemma {:induction false} ApplyKeeps(r: Requests, c: Call)
    requires RequestsOk(r)
    ensures RequestsOk(Apply(r, c)) && r.answers <= Apply(r, c).answers
  {
    PromptsKept(r, c);
    OpenKept(r, c);
    AnswersKept(r, c);
  }

  /** No request is ever answered twice, in any run of checks and user decisions. */
  lemma {:induction false} EachRequestAnsweredOnce(requireApproval: bool, trusted: set<string>, cs: seq<Call>)
    ensures RequestsOk(ApplyAll(NewRequests(requireApproval, trusted), cs))
    decreases |cs|
  {
    if cs != [] {
      EachRequestAnsweredOnce(requireApproval, trusted, cs[..|cs| - 1]);
      ApplyKeeps(ApplyAll(NewRequests(requireApproval, trusted), cs[..|cs| - 1]), cs[|cs| - 1]);
    }
  }

  /** A thread that has waited in vain is refused, whatever the user says later; but a late yes still makes
      the device trusted, so its next request is granted without a prompt. */
  lemma {:induction false} LateYesStillTrusts(r: Requests, id: nat, device: string)
    requires id in r.sync && id !in r.expired && r.sync[id] == device != ""
    ensures var late := Apply(Apply(r, TimeOut(id)), ResolveApproval(id, true));
      late.answers == r.answers + [Answer(id, false)] && device in late.trusted &&
      Apply(late, CheckSync(device)) == late.(next := late.next + 1, answers := late.answers + [Answer(late.next, true)])
  {
  }

  // ---- What the answers are --------------------------------------------------------------------

  predicate IsCheck(c: Call) { c.CheckAsync? || c.CheckSync? }

  /** How many requests there have been; the next one gets this number. */
  function Checks(cs: seq<Call>): nat
    decreases |cs|
  {
    if cs == [] then 0 else Checks(cs[..|cs| - 1]) + if IsCheck(cs[|cs| - 1]) then 1 else 0
  }

  /** The first word on request `id`: the user's decision, or no if its thread gives up before there is one. */
  function FirstWord(cs: seq<Call>, id: nat, waits: bool): Option<bool>
    decreases |cs|
  {
    if cs == [] then None
    else
      var before, c := FirstWord(cs[..|cs| - 1], id, waits), cs[|cs| - 1];
      if before.Some? then before
      else if c.ResolveApproval? && c.id == id then Some(c.approved)
      else if c.TimeOut? && c.id == id && waits then Some(false)
      else None
  }

  /** The request is open while there is no word on it, and then answered with that word. */
  predicate Stands(r: Requests, id: nat, waits: bool, word: Option<bool>) {
    match word
    case None =>
      (if waits then id in r.sync && id !in r.expired && id !in r.callbacks else id !in r.sync && id in r.callbacks) &&
      Answer(id, true) !in r.answers && Answer(id, false) !in r.answers
    case Some(v) => Closed(r, id) && Answer(id, v) in r.answers && Answer(id, !v) !in r.answers
  }

  lemma {:induction false} NumbersCount(requireApproval: bool, trusted: set<string>, cs: seq<Call>)
    ensures ApplyAll(NewRequests(requireApproval, trusted), cs).next == Checks(cs)
    decreases |cs|
  {
    if cs != [] { NumbersCount(requireApproval, trusted, cs[..|cs| - 1]); }
  }

  /** The call is a word on request `id`. */
  predicate IsWord(c: Call, id: nat, waits: bool) { (c.ResolveApproval? && c.id == id) || (c.TimeOut? && c.id == id && waits) }

  function WordOf(c: Call): bool { c.ResolveApproval? && c.approved }

  /** A call adds at most one answer, and to a request that was open or is new. */
  lemma {:induction false} AddedAnswer(r: Requests, c: Call)
    ensures var t := Apply(r, c);
      t.answers == r.answers ||
      exists a :: t.answers == r.answers + [a] && (a.id == r.next || (!Closed(r, a.id) && IsWord(c, a.id, true)))
  {
    var t := Apply(r, c);
    if t.answers != r.answers { assert t.answers == r.answers + [t.answers[|r.answers|]]; }
  }

  lemma {:induction false} WordStands(r: Requests, c: Call, id: nat, waits: bool, v: bool)
    requires id < r.next && Stands(r, id, waits, Some(v))
    ensures Stands(Apply(r, c), id, waits, Some(v))
  {
    AddedAnswer(r, c);
  }

  lemma {:induction false} OtherCall(r: Requests, c: Call, id: nat, waits: bool)
    requires id < r.next && Stands(r, id, waits, None) && !IsWord(c, id, waits)
    ensures Stands(Apply(r, c), id, waits, None)
  {
    AddedAnswer(r, c);
  }

  lemma {:induction false} WordSaid(r: Requests, c: Call, id: nat, waits: bool)
    requires id < r.next && Stands(r, id, waits, None) && IsWord(c, id, waits)
    ensures Stands(Apply(r, c), id, waits, Some(WordOf(c)))
  {
    var t := Apply(r, c);
    assert t.answers == r.answers + [Answer(id, WordOf(c))];
    assert t.answers[|r.answers|] == Answer(id, WordOf(c));
  }

  lemma {:induction false} StillStands(r: Requests, c: Call, id: nat, waits: bool, word: Option<bool>)
    requires id < r.next && Stands(r, id, waits, word)
    ensures Stands(Apply(r, c), id, waits, if word.Some? || !IsWord(c, id, waits) then word else Some(WordOf(c)))
  {
    if word.Some? {
      WordStands(r, c, id, waits, word.value);
    } else if IsWord(c, id, waits) {
      WordSaid(r, c, id, waits);
    } else {
      OtherCall(r, c, id, waits);
    }
  }

  lemma {:induction false} JustAsked(r: Requests, c: Call)
    requires RequestsOk(r) && IsCheck(c)
    ensures Stands(Apply(r, c), r.next, c.CheckSync?, if Granted(r, c.device) then Some(true) else None)
  {
    var t := Apply(r, c);
    forall i | 0 <= i < |r.answers| ensures r.answers[i].id != r.next { assert Closed(r, r.answers[i].id); }
    if Granted(r, c.device) { assert t.answers[|r.answers|] == Answer(r.next, true); }
  }

  /** What request `id`, made in state `r` by the call `c` and followed by the calls `later`, is to be told. */
  function Due(r: Requests, c: Call, id: nat, later: seq<Call>): Option<bool>
    requires IsCheck(c)
  {
    if !r.requireApproval || (c.device != "" && c.device in r.trusted) then Some(true) else FirstWord(later, id, c.CheckSync?)
  }

  lemma {:induction false} DueStep(r: Requests, c: Call, id: nat, later: seq<Call>)
    requires IsCheck(c) && later != []
    ensures var before, last := Due(r, c, id, later[..|later| - 1]), later[|later| - 1];
      Due(r, c, id, later) == if before.Some? || !IsWord(last, id, c.CheckSync?) then before else Some(WordOf(last))
  {
  }

  /** In any run: a request is answered yes at once if approval is off or its device is trusted; otherwise it
      is answered with the user's first decision on it, or refused if its thread gives up first; and as long
      as there is neither, it is not answered. */
  lemma {:induction false} AnswerIsFirstWord(requireApproval: bool, trusted: set<string>, cs: seq<Call>, j: nat)
    requires j < |cs| && IsCheck(cs[j])
    ensures var start, id := NewRequests(requireApproval, trusted), Checks(cs[..j]);
      Stands(ApplyAll(start, cs), id, cs[j].CheckSync?, Due(ApplyAll(start, cs[..j]), cs[j], id, cs[j + 1..])) &&
      id < ApplyAll(start, cs).next
    decreases |cs|
  {
    var start, before, id := NewRequests(requireApproval, trusted), cs[..|cs| - 1], Checks(cs[..j]);
    var r := ApplyAll(start, before);
    if j == |before| {
      EachRequestAnsweredOnce(requireApproval, trusted, before);
      NumbersCount(requireApproval, trusted, before);
      JustAsked(r, cs[j]);
      assert cs[j + 1..] == [];
    } else {
      var later := cs[j + 1..];
      assert before[..j] == cs[..j] && before[j + 1..] == later[..|later| - 1] && later[|later| - 1] == cs[|cs| - 1];
      AnswerIsFirstWord(requireApproval, trusted, before, j);
      DueStep(ApplyAll(start, cs[..j]), cs[j], id, later);
      StillStands(r, cs[|cs| - 1], id, cs[j].CheckSync?, Due(ApplyAll(start, cs[..j]), cs[j], id, before[j + 1..]));
    }
  }

  /** Call `j` is a waiting request for the device, and call `k` the user's yes to it. */
  predicate SaidYes(cs: seq<Call>, device: string, j: nat, k: nat) {
    j < k < |cs| && cs[j] == CheckSync(device) && cs[k] == ResolveApproval(Checks(cs[..j]), true)
  }

  lemma {:induction false} WaitingAsked(requireApproval: bool, trusted: set<string>, cs: seq<Call>, id: nat) returns (j: nat)
    requires id in ApplyAll(NewRequests(requireApproval, trusted), cs).sync
    ensures j < |cs| && cs[j] == CheckSync(ApplyAll(NewRequests(requireApproval, trusted), cs).sync[id]) && Checks(cs[..j]) == id
    decreases |cs|
  {
    var before := cs[..|cs| - 1];
    var r := ApplyAll(NewRequests(requireApproval, trusted), before);
    NumbersCount(requireApproval, trusted, before);
    if id == r.next && cs[|cs| - 1].CheckSync? && !Granted(r, cs[|cs| - 1].device) {
      j := |cs| - 1;
    } else {
      j := WaitingAsked(requireApproval, trusted, before, id);
      assert before[..j] == cs[..j];
    }
  }

  /** A device is trusted only if it was from the start or the user said yes to a waiting request of it; an
      anonymous one never comes to be. */
  lemma {:induction false} TrustIsGiven(requireApproval: bool, trusted: set<string>, cs: seq<Call>, device: string)
    requires device in ApplyAll(NewRequests(requireApproval, trusted), cs).trusted && device !in trusted
    ensures device != "" && exists j: nat, k: nat :: SaidYes(cs, device, j, k)
    decreases |cs|
  {
    var before, c := cs[..|cs| - 1], cs[|cs| - 1];
    var r := ApplyAll(NewRequests(requireApproval, trusted), before);
    if device in r.trusted {
      TrustIsGiven(requireApproval, trusted, before, device);
      var j: nat, k: nat :| SaidYes(before, device, j, k);
      assert before[..j] == cs[..j];
      assert SaidYes(cs, device, j, k);
    } else {
      var j := WaitingAsked(requireApproval, trusted, before, c.id);
      assert before[..j] == cs[..j];
      assert SaidYes(cs, device, j, |cs| - 1);
    }
  }

  class SecurityManager {
    var requireApproval: bool
    var trusted: set<string>
    var pendingRequests: map<nat, string>
    var asyncCallbacks: set<nat>
    /** The threads that have given up waiting. */
    var expired: set<nat>
    var nextId: nat
    /** Callbacks run and threads released, with the decision, and prompts shown. */
    var answers: seq<Answer>
    var prompts: seq<nat>

    function Value(): Requests
      reads this
    {
      Requests(requireApproval, trusted, pendingRequests, asyncCallbacks, expired, nextId, answers, prompts)
    }

    constructor (requireApproval: bool, trusted: set<string>)
      ensures Value() == NewRequests(requireApproval, trusted)
    {
      this.requireApproval, this.trusted, pendingRequests, asyncCallbacks := requireApproval, trusted, map[], {};
      expired, nextId, answers, prompts := {}, 0, [], [];
    }

    method CheckConnectionAsync(device: string) returns (id: nat)
      modifies this
      ensures id == old(nextId) && Value() == Apply(old(Value()), CheckAsync(device))
    {
      id := nextId;
      nextId := nextId + 1;
      if !requireApproval {
        answers := answers + [Answer(id, true)];
        return;
      }
      if device != "" && device in trusted {
        answers := answers + [Answer(id, true)];
        return;
      }
      asyncCallbacks := asyncCallbacks + {id};
      prompts := prompts + [id];
    }

    /** The part of checkConnection before the thread waits. */
    method CheckConnection(device: string) returns (id: nat)
      modifies this
      ensures id == old(nextId) && Value() == Apply(old(Value()), CheckSync(device))
    {
      id := nextId;
      nextId := nextId + 1;
      if !requireApproval || (device != "" && device in trusted) {
        answers := answers + [Answer(id, true)];
        return;
      }
      pendingRequests := pendingRequests[id := device];
      prompts := prompts + [id];
    }

    /** The thread's wait runs out: it is refused, but its request stays where a decision will find it. */
    method ExpireWait(id: nat)
      modifies this
      ensures Value() == Apply(old(Value()), TimeOut(id))
    {
      if id in pendingRequests && id !in expired {
        expired := expired + {id};
        answers := answers + [Answer(id, false)];
      }
    }

    method ResolveApproval(id: nat, approved: bool)
      modifies this
      ensures Value() == Apply(old(Value()), Call.ResolveApproval(id, approved))
    {
      if id in pendingRequests {
        var device := pendingRequests[id];
        pendingRequests := pendingRequests - {id};
        if approved && device != "" { trusted := trusted + {device}; }
        if id !in expired { answers := answers + [Answer(id, approved)]; }
        return;
      }
      if id in asyncCallbacks {
        asyncCallbacks := asyncCallbacks - {id};
        answers := answers + [Answer(id, approved)];
      }
    }
  }
}
