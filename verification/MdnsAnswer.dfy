/** Answering queries: which records, which extras, and how soon. */
module MdnsAnswer {
  import opened Bytes
  import opened DnsName
  import opened DnsMessage
  import opened MdnsRecords

  const RESPONSE_FLAGS: uint16 := 0x8400
  const LEGACY_TTL: uint32 := 10

  predicate IsResponse(m: Message) { m.flags >= 0x8000 }

  /** Flag TC: more known answers are coming. */
  predicate Truncated(m: Message) { m.flags / 0x200 % 2 == 1 }

  predicate Asks(question: Question) { question.rrclass == CLASS_IN || question.rrclass == CLASS_ANY }

  predicate Matches(question: Question, r: Record) {
    SameName(r.name, question.name) && (question.qtype == r.rtype || question.qtype == ANY)
  }

  /** Known-answer suppression: the query lists the record and half our lifetime of it is left (section 7.1 of RFC 6762). */
  predicate IsKnownAnswer(q: Message, r: Record) {
    exists i :: 0 <= i < |q.answers| && SameAs(q.answers[i], r) && q.answers[i].ttl >= r.ttl / 2
  }

  predicate NameKnown(question: Question, rs: seq<Record>) {
    exists i :: 0 <= i < |rs| && SameName(rs[i].name, question.name)
  }

  predicate TypeKnown(question: Question, rs: seq<Record>) { exists i :: 0 <= i < |rs| && Matches(question, rs[i]) }

  /** The question is about our host name, for a type none of our records under it has. */
  predicate LacksType(question: Question, rs: seq<Record>, host: Name) {
    NameKnown(question, rs) && !TypeKnown(question, rs) && SameName(question.name, host)
  }

  predicate Direct(q: Message, question: Question, r: Record) { Matches(question, r) && !IsKnownAnswer(q, r) }

  predicate Negative(question: Question, r: Record) { r.rtype == NSEC && SameName(r.name, question.name) }

  function AnswerQuestion(q: Message, question: Question, rs: seq<Record>, host: Name, acc: seq<Record>): seq<Record> {
    if !Asks(question) then acc
    else
      var acc1 := Collect(r => Direct(q, question, r), rs, acc);
      if LacksType(question, rs, host) then Collect(r => Negative(question, r), rs, acc1) else acc1
  }

  function AnswerAll(q: Message, qs: seq<Question>, rs: seq<Record>, host: Name, acc: seq<Record>): seq<Record>
    decreases |qs|
  {
    if qs == [] then acc else AnswerAll(q, qs[1..], rs, host, AnswerQuestion(q, qs[0], rs, host, acc))
  }

  // ---- The answers are exactly the wanted records ----------------------------------------------

  predicate WantedBy(q: Message, question: Question, rs: seq<Record>, host: Name, r: Record) {
    Asks(question) && (Direct(q, question, r) || (LacksType(question, rs, host) && Negative(question, r)))
  }

  ghost predicate Wanted(q: Message, qs: seq<Question>, rs: seq<Record>, host: Name, r: Record) {
    exists question :: question in qs && WantedBy(q, question, rs, host, r)
  }

  lemma {:induction false} AnswerQuestionSpec(q: Message, question: Question, rs: seq<Record>, host: Name, acc: seq<Record>)
    ensures Collected(r => WantedBy(q, question, rs, host, r), rs, acc, AnswerQuestion(q, question, rs, host, acc))
  {
    if Asks(question) {
      var direct := r => Direct(q, question, r);
      var acc1 := Collect(direct, rs, acc);
      CollectSpec(direct, rs, acc);
      if LacksType(question, rs, host) {
        var negative := r => Negative(question, r);
        CollectSpec(negative, rs, acc1);
        var out := Collect(negative, rs, acc1);
        forall x | x in rs && WantedBy(q, question, rs, host, x) ensures Contains(out, x) {
          if Direct(q, question, x) { ContainsGrows(acc1, out, x); }
        }
      }
    }
  }

  ghost predicate Exact(q: Message, qs: seq<Question>, rs: seq<Record>, host: Name, acc: seq<Record>, out: seq<Record>) {
    acc <= out &&
    (forall x :: x in out ==> x in acc || (x in rs && Wanted(q, qs, rs, host, x))) &&
    (forall x :: x in rs && Wanted(q, qs, rs, host, x) ==> Contains(out, x)) &&
    (Distinct(acc) ==> Distinct(out))
  }

  lemma {:induction false} AnswerAllSpec(q: Message, qs: seq<Question>, rs: seq<Record>, host: Name, acc: seq<Record>)
    ensures Exact(q, qs, rs, host, acc, AnswerAll(q, qs, rs, host, acc))
    decreases |qs|
  {
    if qs != [] {
      var acc1, out := AnswerQuestion(q, qs[0], rs, host, acc), AnswerAll(q, qs, rs, host, acc);
      AnswerQuestionSpec(q, qs[0], rs, host, acc);
      AnswerAllSpec(q, qs[1..], rs, host, acc1);
      forall x | x in out ensures x in acc || (x in rs && Wanted(q, qs, rs, host, x)) {
        if x in acc1 {
          if x !in acc { assert WantedBy(q, qs[0], rs, host, x); }
        } else {
          var question :| question in qs[1..] && WantedBy(q, question, rs, host, x);
          assert question in qs;
        }
      }
      forall x | x in rs && Wanted(q, qs, rs, host, x) ensures Contains(out, x) {
        var question :| question in qs && WantedBy(q, question, rs, host, x);
        if question == qs[0] {
          ContainsGrows(acc1, out, x);
        } else {
          assert question in qs[1..] && Wanted(q, qs[1..], rs, host, x);
        }
      }
    }
  }

  /** Main result: up to identity and without repeats, the answers are exactly the current records
      some IN or ANY question asks for and the querier does not already know, plus our NSEC where
      the host lacks the type asked for. */
  lemma {:induction false} AnswersExact(q: Message, rs: seq<Record>, host: Name)
    ensures var out := AnswerAll(q, q.questions, rs, host, []);
      (forall x :: x in out ==> x in rs && Wanted(q, q.questions, rs, host, x)) &&
      (forall x :: x in rs ==> (Wanted(q, q.questions, rs, host, x) ==> Contains(out, x))) &&
      Distinct(out)
  {
    AnswerAllSpec(q, q.questions, rs, host, []);
  }

  // ---- Additional records ----------------------------------------------------------------------

  predicate Is(rtype: uint16, name: Name, r: Record) { r.rtype == rtype && SameName(r.name, name) }

  /** Appends to the additionals what is in neither section yet. */
  function AddMatching(rtype: uint16, name: Name, rs: seq<Record>, answers: seq<Record>, additionals: seq<Record>): seq<Record> {
    Collect(r => Is(rtype, name, r) && !Contains(answers, r), rs, additionals)
  }

  predicate HasSrv(name: Name, rs: seq<Record>) { exists i :: 0 <= i < |rs| && Is(SRV, name, rs[i]) }

  function SrvTargets(name: Name, rs: seq<Record>): seq<Name> {
    if rs == [] then [] else (if Is(SRV, name, rs[0]) then [rs[0].target] else []) + SrvTargets(name, rs[1..])
  }

  datatype Extras = Extras(additionals: seq<Record>, hosts: seq<Name>)

  /** What one answer pulls in: a PTR its instance, an SRV its host. */
  function Extend(a: Record, rs: seq<Record>, answers: seq<Record>, e: Extras): Extras {
    if a.rtype == PTR && HasSrv(a.target, rs) then
      Extras(AddMatching(TXT, a.target, rs, answers, AddMatching(SRV, a.target, rs, answers, e.additionals)),
             e.hosts + SrvTargets(a.target, rs))
    else if a.rtype == SRV then Extras(e.additionals, e.hosts + [a.target])
    else e
  }

  function ExtendAll(todo: seq<Record>, rs: seq<Record>, answers: seq<Record>, e: Extras): Extras
    decreases |todo|
  {
    if todo == [] then e else ExtendAll(todo[1..], rs, answers, Extend(todo[0], rs, answers, e))
  }

  function AddHosts(hosts: seq<Name>, rs: seq<Record>, answers: seq<Record>, additionals: seq<Record>): seq<Record>
    decreases |hosts|
  {
    if hosts == [] then additionals
    else AddHosts(hosts[1..], rs, answers,
                  AddMatching(NSEC, hosts[0], rs, answers, AddMatching(A, hosts[0], rs, answers, additionals)))
  }

  function Additionals(answers: seq<Record>, rs: seq<Record>): seq<Record> {
    var e := ExtendAll(answers, rs, answers, Extras([], []));
    AddHosts(e.hosts, rs, answers, e.additionals)
  }

  predicate Present(answers: seq<Record>, additionals: seq<Record>, r: Record) {
    Contains(answers, r) || Contains(additionals, r)
  }

  /** Additionals so far: grown, drawn from the current records, repeating nothing. */
  ghost predicate Sound(rs: seq<Record>, answers: seq<Record>, before: seq<Record>, after: seq<Record>) {
    before <= after &&
    (forall x :: x in after ==> x in before || (x in rs && !Contains(answers, x))) &&
    (Distinct(before) ==> Distinct(after))
  }

  lemma {:induction false} AddMatchingSpec(rtype: uint16, name: Name, rs: seq<Record>, answers: seq<Record>,
                                           additionals: seq<Record>)
    ensures var out := AddMatching(rtype, name, rs, answers, additionals);
      Sound(rs, answers, additionals, out) && forall x :: x in rs && Is(rtype, name, x) ==> Present(answers, out, x)
  {
    CollectSpec(r => Is(rtype, name, r) && !Contains(answers, r), rs, additionals);
  }

  lemma {:induction false} SoundChain(rs: seq<Record>, answers: seq<Record>, a: seq<Record>, b: seq<Record>, c: seq<Record>)
    requires Sound(rs, answers, a, b) && Sound(rs, answers, b, c)
    ensures Sound(rs, answers, a, c)
  {
  }

  lemma {:induction false} PresentGrows(rs: seq<Record>, answers: seq<Record>, a: seq<Record>, b: seq<Record>, x: Record)
    requires Sound(rs, answers, a, b) && Present(answers, a, x)
    ensures Present(answers, b, x)
  {
    if Contains(a, x) { ContainsGrows(a, b, x); }
  }

  lemma {:induction false} SrvTargetsComplete(name: Name, rs: seq<Record>, r: Record)
    requires r in rs && Is(SRV, name, r)
    ensures r.target in SrvTargets(name, rs)
  {
    if r != rs[0] { SrvTargetsComplete(name, rs[1..], r); }
  }

  /** The SRV and TXT records of a PTR answer's instance are in, and its hosts are noted. */
  ghost predicate InstanceIn(a: Record, rs: seq<Record>, answers: seq<Record>, e: Extras) {
    forall srv :: srv in rs && a.rtype == PTR && Is(SRV, a.target, srv) ==>
      Present(answers, e.additionals, srv) && srv.target in e.hosts &&
      forall txt :: txt in rs && Is(TXT, a.target, txt) ==> Present(answers, e.additionals, txt)
  }

  lemma {:induction false} ExtendSpec(a: Record, rs: seq<Record>, answers: seq<Record>, e: Extras)
    ensures var f := Extend(a, rs, answers, e);
      Sound(rs, answers, e.additionals, f.additionals) && e.hosts <= f.hosts && InstanceIn(a, rs, answers, f)
  {
    if a.rtype == PTR && HasSrv(a.target, rs) {
      var mid := AddMatching(SRV, a.target, rs, answers, e.additionals);
      var out := AddMatching(TXT, a.target, rs, answers, mid);
      AddMatchingSpec(SRV, a.target, rs, answers, e.additionals);
      AddMatchingSpec(TXT, a.target, rs, answers, mid);
      SoundChain(rs, answers, e.additionals, mid, out);
      forall srv | srv in rs && Is(SRV, a.target, srv)
        ensures Present(answers, out, srv) && srv.target in e.hosts + SrvTargets(a.target, rs)
      {
        PresentGrows(rs, answers, mid, out, srv);
        SrvTargetsComplete(a.target, rs, srv);
      }
    } else if a.rtype == PTR {
      forall srv | srv in rs ensures !Is(SRV, a.target, srv) {
        var i :| 0 <= i < |rs| && rs[i] == srv;
      }
    }
  }

  lemma {:induction false} InstanceStaysIn(a: Record, rs: seq<Record>, answers: seq<Record>, e: Extras, f: Extras)
    requires InstanceIn(a, rs, answers, e) && Sound(rs, answers, e.additionals, f.additionals) && e.hosts <= f.hosts
    ensures InstanceIn(a, rs, answers, f)
  {
    forall srv | srv in rs && a.rtype == PTR && Is(SRV, a.target, srv)
      ensures Present(answers, f.additionals, srv) && srv.target in f.hosts &&
              forall txt :: txt in rs && Is(TXT, a.target, txt) ==> Present(answers, f.additionals, txt)
    {
      PresentGrows(rs, answers, e.additionals, f.additionals, srv);
      assert srv.target in e.hosts;
      forall txt | txt in rs && Is(TXT, a.target, txt) ensures Present(answers, f.additionals, txt) {
        PresentGrows(rs, answers, e.additionals, f.additionals, txt);
      }
    }
  }

  lemma {:induction false} ExtendAllSpec(todo: seq<Record>, rs: seq<Record>, answers: seq<Record>, e: Extras)
    ensures var f := ExtendAll(todo, rs, answers, e);
      Sound(rs, answers, e.additionals, f.additionals) && e.hosts <= f.hosts &&
      forall a :: a in todo ==> InstanceIn(a, rs, answers, f)
    decreases |todo|
  {
    if todo != [] {
      var mid := Extend(todo[0], rs, answers, e);
      var f := ExtendAll(todo, rs, answers, e);
      ExtendSpec(todo[0], rs, answers, e);
      ExtendAllSpec(todo[1..], rs, answers, mid);
      SoundChain(rs, answers, e.additionals, mid.additionals, f.additionals);
      InstanceStaysIn(todo[0], rs, answers, mid, f);
    }
  }

  /** Every current record of type `rtype` that a noted host owns is in the response. */
  ghost predicate HostsIn(hosts: seq<Name>, rs: seq<Record>, answers: seq<Record>, additionals: seq<Record>) {
    forall h, x :: h in hosts && x in rs && (Is(A, h, x) || Is(NSEC, h, x)) ==> Present(answers, additionals, x)
  }

  lemma {:induction false} AddHostsSpec(hosts: seq<Name>, rs: seq<Record>, answers: seq<Record>, additionals: seq<Record>)
    ensures var out := AddHosts(hosts, rs, answers, additionals);
      Sound(rs, answers, additionals, out) && HostsIn(hosts, rs, answers, out)
    decreases |hosts|
  {
    if hosts != [] {
      var h := hosts[0];
      var m1 := AddMatching(A, h, rs, answers, additionals);
      var m2 := AddMatching(NSEC, h, rs, answers, m1);
      var out := AddHosts(hosts, rs, answers, additionals);
      AddMatchingSpec(A, h, rs, answers, additionals);
      AddMatchingSpec(NSEC, h, rs, answers, m1);
      AddHostsSpec(hosts[1..], rs, answers, m2);
      SoundChain(rs, answers, additionals, m1, m2);
      SoundChain(rs, answers, additionals, m2, out);
      forall g, x | g in hosts && x in rs && (Is(A, g, x) || Is(NSEC, g, x)) ensures Present(answers, out, x) {
        if g == h {
          if Is(A, g, x) { PresentGrows(rs, answers, m1, m2, x); }
          PresentGrows(rs, answers, m2, out, x);
        }
      }
    }
  }

  /** Main result (section 12 of RFC 6763): with every PTR answer whose instance is current come its
      SRV, its TXT and the current A and NSEC records of the host the SRV names; nothing comes that
      is not current, and nothing comes twice. */
  lemma {:induction false} AdditionalsComplete(answers: seq<Record>, rs: seq<Record>)
    ensures var extra := Additionals(answers, rs);
      (forall x :: x in extra ==> x in rs && !Contains(answers, x)) && Distinct(extra) &&
      forall a, srv :: a in answers && a.rtype == PTR && srv in rs && Is(SRV, a.target, srv) ==>
        Present(answers, extra, srv) &&
        (forall txt :: txt in rs && Is(TXT, a.target, txt) ==> Present(answers, extra, txt)) &&
        (forall x :: x in rs && (Is(A, srv.target, x) || Is(NSEC, srv.target, x)) ==> Present(answers, extra, x))
  {
    var e := ExtendAll(answers, rs, answers, Extras([], []));
    var extra := Additionals(answers, rs);
    ExtendAllSpec(answers, rs, answers, Extras([], []));
    AddHostsSpec(e.hosts, rs, answers, e.additionals);
    forall a, srv | a in answers && a.rtype == PTR && srv in rs && Is(SRV, a.target, srv)
      ensures Present(answers, extra, srv)
      ensures forall txt :: txt in rs && Is(TXT, a.target, txt) ==> Present(answers, extra, txt)
      ensures forall x :: x in rs && (Is(A, srv.target, x) || Is(NSEC, srv.target, x)) ==> Present(answers, extra, x)
    {
      InstanceStaysIn(a, rs, answers, e, Extras(extra, e.hosts));
    }
  }
}
