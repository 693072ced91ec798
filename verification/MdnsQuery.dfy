/** handleQuery as the program runs it, and the reply it schedules. */
module MdnsQuery {
  import opened Bytes
  import opened DnsName
  import opened DnsMessage
  import opened MdnsRecords
  import opened MdnsAnswer

  /** A shared (PTR) answer may come from several responders at once. */
  predicate Shared(answers: seq<Record>) { exists i :: 0 <= i < |answers| && answers[i].rtype == PTR }

  predicate AllUnicast(q: Message) {
    q.questions != [] && forall i :: 0 <= i < |q.questions| ==> q.questions[i].unicastResponse
  }

  /** The reply to one query; a delayed one goes out between `lo` and `hi` ms from now. */
  datatype Reply = Silent | Legacy(message: Message) | Scheduled(message: Message, unicast: bool, lo: nat, hi: nat)

  function LegacyRecord(r: Record): Record { r.(cacheFlush := false, ttl := Min(r.ttl, LEGACY_TTL)) }

  function LegacyRecords(rs: seq<Record>): seq<Record> {
    if rs == [] then [] else [LegacyRecord(rs[0])] + LegacyRecords(rs[1..])
  }

  function LegacyQuestions(qs: seq<Question>): seq<Question> {
    if qs == [] then [] else [qs[0].(unicastResponse := false)] + LegacyQuestions(qs[1..])
  }

  function AnswersTo(st: Responder, q: Message, iface: Option<nat>): seq<Record> {
    AnswerAll(q, q.questions, CurrentRecords(st, iface), HostFqdn(st), [])
  }

  function ReplyTo(st: Responder, q: Message, iface: Option<nat>, legacy: bool, toUs: bool): Reply {
    var answers := AnswersTo(st, q, iface);
    var extra := Additionals(answers, CurrentRecords(st, iface));
    if answers == [] then Silent
    else if legacy then
      Legacy(Message(q.id, RESPONSE_FLAGS, LegacyQuestions(q.questions), LegacyRecords(answers), [], LegacyRecords(extra)))
    else
      Scheduled(Message(0, RESPONSE_FLAGS, [], answers, [], extra), q.authorities == [] && (AllUnicast(q) || toUs),
                if Truncated(q) then 400 else if Shared(answers) then 20 else 0,
                if Truncated(q) then 500 else if Shared(answers) then 120 else 0)
  }

  /** `ls` are plain-DNS copies of `rs`: the same records, briefly valid, no cache told to flush. */
  predicate ShortLived(ls: seq<Record>, rs: seq<Record>) {
    |ls| == |rs| &&
    forall i :: 0 <= i < |ls| ==>
      SameAs(ls[i], rs[i]) && !ls[i].cacheFlush && ls[i].ttl <= LEGACY_TTL && (rs[i].ttl <= LEGACY_TTL ==> ls[i].ttl == rs[i].ttl)
  }

  lemma {:induction false} LegacyRecordsShortLived(rs: seq<Record>)
    ensures ShortLived(LegacyRecords(rs), rs)
  {
    if rs != [] { LegacyRecordsShortLived(rs[1..]); }
  }

  predicate Echoed(ls: seq<Question>, qs: seq<Question>) {
    |ls| == |qs| && forall i :: 0 <= i < |ls| ==>
      SameName(ls[i].name, qs[i].name) && ls[i].qtype == qs[i].qtype && ls[i].rrclass == qs[i].rrclass && !ls[i].unicastResponse
  }

  lemma {:induction false} LegacyQuestionsEchoed(qs: seq<Question>)
    ensures Echoed(LegacyQuestions(qs), qs)
  {
    if qs != [] { LegacyQuestionsEchoed(qs[1..]); }
  }

  /** A legacy querier gets its ID and questions back and short-lived copies of exactly the records any
      other querier would get. */
  lemma {:induction false} LegacyKeepsIdentity(st: Responder, q: Message, iface: Option<nat>, toUs: bool)
    ensures var plain, modern := ReplyTo(st, q, iface, true, toUs), ReplyTo(st, q, iface, false, toUs);
      (plain.Silent? <==> modern.Silent?) &&
      (!plain.Silent? ==>
        plain.Legacy? && plain.message.id == q.id && Echoed(plain.message.questions, q.questions) && modern.Scheduled? &&
        ShortLived(plain.message.answers, modern.message.answers) &&
        ShortLived(plain.message.additionals, modern.message.additionals))
  {
    var answers := AnswersTo(st, q, iface);
    LegacyRecordsShortLived(answers);
    LegacyRecordsShortLived(Additionals(answers, CurrentRecords(st, iface)));
    LegacyQuestionsEchoed(q.questions);
  }

  // ---- The loops -------------------------------------------------------------------------------

  method AnswerOne(q: Message, question: Question, rs: seq<Record>, host: Name, acc: seq<Record>) returns (answers: seq<Record>)
    requires Asks(question)
    ensures answers == AnswerQuestion(q, question, rs, host, acc)
  {
    var direct := r => Direct(q, question, r);
    var nameKnown, typeKnown := false, false;
    answers := acc;
    for i := 0 to |rs|
      invariant Collect(direct, rs, acc) == Collect(direct, rs[i..], answers)
      invariant nameKnown == NameKnown(question, rs[..i]) && typeKnown == TypeKnown(question, rs[..i])
    {
      var r := rs[i];
      assert rs[i..][1..] == rs[i + 1..];
      KnownStep(question, rs, i);
      if SameName(r.name, question.name) {
        nameKnown := true;
        if question.qtype == r.rtype || question.qtype == ANY {
          typeKnown := true;
          if !IsKnownAnswer(q, r) && !Contains(answers, r) { answers := answers + [r]; }
        }
      }
    }
    assert rs[..|rs|] == rs;
    if nameKnown && !typeKnown && SameName(question.name, host) {
      var negative := r => Negative(question, r);
      ghost var before := answers;
      for i := 0 to |rs|
        invariant Collect(negative, rs, before) == Collect(negative, rs[i..], answers)
      {
        assert rs[i..][1..] == rs[i + 1..];
        if rs[i].rtype == NSEC && SameName(rs[i].name, question.name) && !Contains(answers, rs[i]) {
          answers := answers + [rs[i]];
        }
      }
    }
  }

  lemma {:induction false} KnownStep(question: Question, rs: seq<Record>, i: nat)
    requires i < |rs|
    ensures NameKnown(question, rs[..i + 1]) <==> NameKnown(question, rs[..i]) || SameName(rs[i].name, question.name)
    ensures TypeKnown(question, rs[..i + 1]) <==> TypeKnown(question, rs[..i]) || Matches(question, rs[i])
  {
    var a, b := rs[..i], rs[..i + 1];
    assert forall j :: 0 <= j < i ==> a[j] == b[j];
    assert b[i] == rs[i];
  }

  method BuildAnswers(q: Message, rs: seq<Record>, host: Name) returns (answers: seq<Record>, allUnicast: bool)
    ensures answers == AnswerAll(q, q.questions, rs, host, [])
    ensures allUnicast == AllUnicast(q)
  {
    answers := [];
    allUnicast := q.questions != [];
    for i := 0 to |q.questions|
      invariant AnswerAll(q, q.questions, rs, host, []) == AnswerAll(q, q.questions[i..], rs, host, answers)
      invariant allUnicast == (q.questions != [] && forall j :: 0 <= j < i ==> q.questions[j].unicastResponse)
    {
      assert q.questions[i..][1..] == q.questions[i + 1..];
      allUnicast := allUnicast && q.questions[i].unicastResponse;
      if Asks(q.questions[i]) {
        answers := AnswerOne(q, q.questions[i], rs, host, answers);
      }
    }
  }

  method AddOne(rtype: uint16, name: Name, rs: seq<Record>, answers: seq<Record>, start: seq<Record>)
    returns (additionals: seq<Record>, added: bool)
    ensures additionals == AddMatching(rtype, name, rs, answers, start)
    ensures added <==> exists i :: 0 <= i < |rs| && Is(rtype, name, rs[i])
  {
    var pick := r => Is(rtype, name, r) && !Contains(answers, r);
    additionals, added := start, false;
    for i := 0 to |rs|
      invariant Collect(pick, rs, start) == Collect(pick, rs[i..], additionals)
      invariant added <==> exists j :: 0 <= j < i && Is(rtype, name, rs[j])
    {
      assert rs[i..][1..] == rs[i + 1..];
      if Is(rtype, name, rs[i]) {
        added := true;
        if !Contains(answers, rs[i]) && !Contains(additionals, rs[i]) { additionals := additionals + [rs[i]]; }
      }
    }
  }

  /** An absent instance pulls in nothing. */
  lemma {:induction false} NothingToAdd(name: Name, rs: seq<Record>, answers: seq<Record>, acc: seq<Record>)
    requires !HasSrv(name, rs)
    ensures AddMatching(SRV, name, rs, answers, acc) == acc
    decreases |rs|
  {
    if rs != [] {
      assert !Is(SRV, name, rs[0]);
      assert forall i :: 0 <= i < |rs[1..]| ==> rs[1..][i] == rs[i + 1];
      NothingToAdd(name, rs[1..], answers, acc);
    }
  }

  method AddAdditionals(answers: seq<Record>, rs: seq<Record>) returns (additionals: seq<Record>)
    ensures additionals == Additionals(answers, rs)
  {
    additionals := [];
    var hosts: seq<Name> := [];
    for i := 0 to |answers|
      invariant ExtendAll(answers, rs, answers, Extras([], [])) ==
        ExtendAll(answers[i..], rs, answers, Extras(additionals, hosts))
    {
      var a := answers[i];
      assert answers[i..][1..] == answers[i + 1..];
      if a.rtype == PTR {
        ghost var before := additionals;
        var added;
        additionals, added := AddOne(SRV, a.target, rs, answers, additionals);
        if added {
          var again;
          additionals, again := AddOne(TXT, a.target, rs, answers, additionals);
          hosts := hosts + SrvTargets(a.target, rs);
        } else {
          NothingToAdd(a.target, rs, answers, before);
        }
      }
      if a.rtype == SRV { hosts := hosts + [a.target]; }
    }
    ghost var start := additionals;
    for i := 0 to |hosts|
      invariant AddHosts(hosts, rs, answers, start) == AddHosts(hosts[i..], rs, answers, additionals)
    {
      assert hosts[i..][1..] == hosts[i + 1..];
      var added;
      additionals, added := AddOne(A, hosts[i], rs, answers, additionals);
      additionals, added := AddOne(NSEC, hosts[i], rs, answers, additionals);
    }
  }

  method AnswerQuery(st: Responder, q: Message, iface: Option<nat>, legacy: bool, toUs: bool) returns (reply: Reply)
    ensures reply == ReplyTo(st, q, iface, legacy, toUs)
  {
    var records := CurrentRecords(st, iface);
    var answers, allUnicast := BuildAnswers(q, records, HostFqdn(st));
    if answers == [] { return Silent; }
    var extra := AddAdditionals(answers, records);
    if legacy {
      return Legacy(Message(q.id, RESPONSE_FLAGS, LegacyQuestions(q.questions), LegacyRecords(answers), [], LegacyRecords(extra)));
    }
    var lo, hi := 0, 0;
    if Shared(answers) { lo, hi := 20, 120; }
    if Truncated(q) { lo, hi := 400, 500; }
    return Scheduled(Message(0, RESPONSE_FLAGS, [], answers, [], extra), q.authorities == [] && (allUnicast || toUs), lo, hi);
  }
}
