/** Received packets and API calls are runs of the elementary steps, so what holds of every run holds
    however the responder is driven. */
module MdnsReachable {
  import opened Bytes
  import opened DnsName
  import opened DnsMessage
  import opened MdnsRecords
  import opened MdnsProbe
  import opened MdnsHandlers

  /** The step is about the service at index `i`. */
  predicate Targets(a: Action, i: nat) {
    match a
    case DoRename(k, _, _) => k == i
    case DoTxt(k, _) => k == i
    case DoServiceConflict(k) => k == i
    case DoServiceDefer(k) => k == i
    case _ => false
  }

  /** What the step does to that service. */
  function OnService(s: Service, a: Action, now: int): Service {
    match a
    case DoRename(_, name, delay) => Rename(s, name, now, delay)
    case DoTxt(_, txt) => s.(txt := txt, group := Bump(s.group))
    case DoServiceConflict(_) => ServiceConflict(s, now)
    case DoServiceDefer(_) => s.(group := Defer(s.group, now))
    case _ => s
  }

  /** What it adds to the log. */
  function LogOf(s: Service, a: Action, now: int): seq<Entry> {
    match a
    case DoRename(_, _, _) => [Began(ServiceGroup(s.id), now)]
    case DoServiceConflict(_) => Restart(ServiceGroup(s.id), now)
    case DoServiceDefer(_) => Restart(ServiceGroup(s.id), now)
    case _ => []
  }

  predicate Suits(a: Action, i: nat, s: Service) { Targets(a, i) && (a.DoServiceDefer? ==> !s.group.announced) }

  lemma {:induction false} ActOnOne(r: Run, a: Action, i: nat, now: int)
    requires i < |r.st.services| && Suits(a, i, r.st.services[i])
    ensures Enabled(r.st, a)
    ensures Act(r, a, now).st == r.st.(services := r.st.services[i := OnService(r.st.services[i], a, now)],
                                       timerActive := r.st.timerActive || !a.DoTxt?)
    ensures Act(r, a, now).log == r.log + LogOf(r.st.services[i], a, now)
  {
    assert r.log + [] == r.log;
  }

  /** At most one step for each service. */
  predicate PlanOk(plan: seq<Option<Action>>, ss: seq<Service>) {
    |plan| == |ss| && forall j :: 0 <= j < |ss| && plan[j].Some? ==> Suits(plan[j].value, j, ss[j])
  }

  function Planned(plan: seq<Option<Action>>, ss: seq<Service>, from: nat, now: int): (r: seq<Service>)
    requires |plan| == |ss|
    ensures |r| == |ss|
  {
    seq(|ss|, j requires 0 <= j < |ss| => if j >= from && plan[j].Some? then OnService(ss[j], plan[j].value, now) else ss[j])
  }

  function PlannedLog(plan: seq<Option<Action>>, ss: seq<Service>, from: nat, now: int): seq<Entry>
    requires |plan| == |ss|
    decreases |plan| - from
  {
    if from >= |plan| then []
    else (if plan[from].Some? then LogOf(ss[from], plan[from].value, now) else []) + PlannedLog(plan, ss, from + 1, now)
  }

  /** The log of the later steps only needs the services they are about. */
  lemma {:induction false} LogOfRest(plan: seq<Option<Action>>, ss: seq<Service>, ts: seq<Service>, from: nat, now: int)
    requires |plan| == |ss| == |ts| && forall j :: from <= j < |ss| ==> ts[j] == ss[j]
    ensures PlannedLog(plan, ss, from, now) == PlannedLog(plan, ts, from, now)
    decreases |plan| - from
  {
    if from < |plan| { LogOfRest(plan, ss, ts, from + 1, now); }
  }

  predicate Wakes(plan: seq<Option<Action>>, from: nat) {
    exists j :: from <= j < |plan| && plan[j].Some? && !plan[j].value.DoTxt?
  }

  /** Steps for several services, one after the other, act on each as if alone. */
  lemma {:induction false} EachInTurn(r: Run, plan: seq<Option<Action>>, from: nat, now: int) returns (steps: seq<Timed>)
    requires PlanOk(plan, r.st.services) && from <= |plan|
    ensures Possible(r, steps)
    ensures Play(r, steps).st == r.st.(services := Planned(plan, r.st.services, from, now),
                                       timerActive := r.st.timerActive || Wakes(plan, from))
    ensures Play(r, steps).log == r.log + PlannedLog(plan, r.st.services, from, now)
    decreases |plan| - from
  {
    var ss := r.st.services;
    if from == |plan| {
      steps := [];
      assert r.log + [] == r.log;
      assert Planned(plan, ss, from, now) == ss;
    } else if plan[from].None? {
      steps := EachInTurn(r, plan, from + 1, now);
      assert [] + PlannedLog(plan, ss, from + 1, now) == PlannedLog(plan, ss, from + 1, now);
      assert Planned(plan, ss, from, now) == Planned(plan, ss, from + 1, now);
      assert Wakes(plan, from) <==> Wakes(plan, from + 1);
    } else {
      var a := plan[from].value;
      ActOnOne(r, a, from, now);
      var r1 := Act(r, a, now);
      var rest := EachInTurn(r1, plan, from + 1, now);
      steps := [Timed(a, now)] + rest;
      assert steps[1..] == rest;
      LogOfRest(plan, ss, r1.st.services, from + 1, now);
      Regroup(r.log, LogOf(ss[from], a, now), PlannedLog(plan, ss, from + 1, now));
      assert Planned(plan, ss, from, now) == Planned(plan, r1.st.services, from + 1, now);
      assert Wakes(plan, from) <==> !a.DoTxt? || Wakes(plan, from + 1);
    }
  }

  /** One step first, then the plan. */
  lemma {:induction false} StepThenPlan(r: Run, a: Action, plan: seq<Option<Action>>, now: int) returns (steps: seq<Timed>)
    requires Enabled(r.st, a) && PlanOk(plan, Act(r, a, now).st.services)
    ensures Possible(r, steps)
    ensures var st := Act(r, a, now).st;
      Play(r, steps).st == st.(services := Planned(plan, st.services, 0, now), timerActive := st.timerActive || Wakes(plan, 0)) &&
      Play(r, steps).log == Act(r, a, now).log + PlannedLog(plan, st.services, 0, now)
  {
    var rest := EachInTurn(Act(r, a, now), plan, 0, now);
    steps := [Timed(a, now)] + rest;
    assert steps[1..] == rest;
  }

  /** One step for every service that is hit. */
  function PlanFor(ss: seq<Service>, hit: Service -> bool, act: nat -> Action): (plan: seq<Option<Action>>)
    ensures |plan| == |ss|
  {
    seq(|ss|, i requires 0 <= i < |ss| => if hit(ss[i]) then Some(act(i)) else None)
  }

  /** What a change of many services does to one, and what it says in the log. */
  datatype Change = Change(f: Service -> Service, entries: Service -> seq<Entry>)

  /** The step at `i` is the change. */
  predicate Realizes(s: Service, i: nat, hit: Service -> bool, act: nat -> Action, c: Change, now: int) {
    if hit(s) then
      Suits(act(i), i, s) && OnService(s, act(i), now) == c.f(s) && LogOf(s, act(i), now) == c.entries(s) && !act(i).DoTxt?
    else c.f(s) == s && c.entries(s) == []
  }

  ghost predicate AllRealize(ss: seq<Service>, hit: Service -> bool, act: nat -> Action, c: Change, now: int) {
    forall i :: 0 <= i < |ss| ==> Realizes(ss[i], i, hit, act, c, now)
  }

  lemma {:induction false} PlanIsMap(ss: seq<Service>, hit: Service -> bool, act: nat -> Action, c: Change, now: int)
    requires AllRealize(ss, hit, act, c, now)
    ensures var plan := PlanFor(ss, hit, act);
      PlanOk(plan, ss) && Planned(plan, ss, 0, now) == MapServices(c.f, ss) &&
        PlannedLog(plan, ss, 0, now) == Flat(c.entries, ss) &&
      (Wakes(plan, 0) <==> exists i :: 0 <= i < |ss| && hit(ss[i]))
  {
    MapServicesAt(c.f, ss);
    var plan := PlanFor(ss, hit, act);
    forall j | 0 <= j < |ss| ensures Planned(plan, ss, 0, now)[j] == c.f(ss[j]) { assert Realizes(ss[j], j, hit, act, c, now); }
    assert forall i :: 0 <= i < |ss| ==> (plan[i].Some? <==> hit(ss[i]));
    PlanLogIsFlat(ss, hit, act, c, 0, now);
    assert ss[0..] == ss;
  }

  lemma {:induction false} PlanLogIsFlat(ss: seq<Service>, hit: Service -> bool, act: nat -> Action, c: Change, from: nat,
                                         now: int)
    requires AllRealize(ss, hit, act, c, now) && from <= |ss|
    ensures PlannedLog(PlanFor(ss, hit, act), ss, from, now) == Flat(c.entries, ss[from..])
    decreases |ss| - from
  {
    if from < |ss| {
      assert Realizes(ss[from], from, hit, act, c, now);
      PlanLogIsFlat(ss, hit, act, c, from + 1, now);
      assert ss[from..][0] == ss[from] && ss[from..][1..] == ss[from + 1..];
    }
  }

  function ConflictPlan(st: Responder, m: Message): seq<Option<Action>> {
    PlanFor(st.services, s => ServiceClashes(st, s, m), (i: nat) => DoServiceConflict(i))
  }

  function DeferPlan(st: Responder, q: Message): seq<Option<Action>> {
    PlanFor(st.services, s => ServiceTie(st, s, q), (i: nat) => DoServiceDefer(i))
  }

  lemma {:induction false} ConflictPlanned(st: Responder, m: Message, now: int)
    ensures PlanOk(ConflictPlan(st, m), st.services)
    ensures Planned(ConflictPlan(st, m), st.services, 0, now) == ConflictServices(st, st.services, m, now)
    ensures PlannedLog(ConflictPlan(st, m), st.services, 0, now) == Flat(ConflictEntries(st, m, now), st.services)
    ensures Wakes(ConflictPlan(st, m), 0) <==> AnyServiceClash(st, st.services, m)
  {
    var c := Change(s => ReactToClash(st, s, m, now), ConflictEntries(st, m, now));
    PlanIsMap(st.services, s => ServiceClashes(st, s, m), (i: nat) => DoServiceConflict(i), c, now);
  }

  lemma {:induction false} DeferPlanned(st: Responder, q: Message, now: int)
    ensures PlanOk(DeferPlan(st, q), st.services)
    ensures Planned(DeferPlan(st, q), st.services, 0, now) == DeferServices(st, st.services, q, now)
    ensures PlannedLog(DeferPlan(st, q), st.services, 0, now) == Flat(DeferEntries(st, q, now), st.services)
    ensures Wakes(DeferPlan(st, q), 0) <==> AnyServiceTie(st, st.services, q)
  {
    var c := Change(s => DeferIfLost(st, s, q, now), DeferEntries(st, q, now));
    PlanIsMap(st.services, s => ServiceTie(st, s, q), (i: nat) => DoServiceDefer(i), c, now);
  }

  /** Handling a response is a run of conflicts, at most one for each name. */
  lemma {:induction false} ResponseIsRun(r: Run, m: Message, now: int) returns (steps: seq<Timed>)
    ensures Possible(r, steps)
    ensures Play(r, steps) == Run(AfterResponse(r.st, m, now), r.log + ResponseLog(r.st, m, now))
  {
    ConflictPlanned(r.st, m, now);
    var more := PlannedLog(ConflictPlan(r.st, m), r.st.services, 0, now);
    if HostClashes(r.st, m) {
      steps := StepThenPlan(r, DoHostConflict, ConflictPlan(r.st, m), now);
      Regroup(r.log, Restart(HostGroup, now), more);
    } else {
      steps := EachInTurn(r, ConflictPlan(r.st, m), 0, now);
      assert [] + more == more;
    }
  }

  /** Handling another prober's query is a run of deferrals, at most one for each name. */
  lemma {:induction false} QueryIsRun(r: Run, q: Message, iface: Option<nat>, now: int) returns (steps: seq<Timed>)
    ensures Possible(r, steps)
    ensures Play(r, steps) == Run(AfterQuery(r.st, q, iface, now), r.log + QueryLog(r.st, q, iface, now))
  {
    DeferPlanned(r.st, q, now);
    var more := PlannedLog(DeferPlan(r.st, q), r.st.services, 0, now);
    if q.authorities == [] {
      steps := [];
      assert r.log + [] == r.log;
    } else if HostTie(r.st, q, iface) {
      steps := StepThenPlan(r, DoHostDefer, DeferPlan(r.st, q), now);
      Regroup(r.log, Restart(HostGroup, now), more);
    } else {
      steps := EachInTurn(r, DeferPlan(r.st, q), 0, now);
      assert [] + more == more;
    }
  }

  function RenamePlan(ss: seq<Service>, name: seq<byte>, delays: seq<nat>): (plan: seq<Option<Action>>)
    requires |delays| == |ss|
    ensures |plan| == |ss|
  {
    seq(|ss|, i requires 0 <= i < |ss| => Some(DoRename(i, name, delays[i])))
  }

  lemma {:induction false} RenamePlanLog(ss: seq<Service>, name: seq<byte>, delays: seq<nat>, from: nat, now: int)
    requires |delays| == |ss| && from <= |ss|
    ensures PlannedLog(RenamePlan(ss, name, delays), ss, from, now) == RenameLog(ss[from..], now)
    decreases |ss| - from
  {
    if from < |ss| {
      RenamePlanLog(ss, name, delays, from + 1, now);
      assert ss[from..][0] == ss[from] && ss[from..][1..] == ss[from + 1..];
    }
  }

  /** Renaming everything is a run of renames. */
  lemma {:induction false} RenameIsRun(r: Run, name: seq<byte>, now: int, delays: seq<nat>) returns (steps: seq<Timed>)
    requires |delays| == |r.st.services|
    ensures Possible(r, steps)
    ensures Play(r, steps) == Run(r.st.(services := Renamed(r.st.services, name, now, delays),
                                        timerActive := r.st.timerActive || r.st.services != []),
                                  r.log + RenameLog(r.st.services, now))
  {
    var ss := r.st.services;
    RenamedAt(ss, name, now, delays);
    var plan := RenamePlan(ss, name, delays);
    steps := EachInTurn(r, plan, 0, now);
    RenamePlanLog(ss, name, delays, 0, now);
    assert ss[0..] == ss;
    assert Planned(plan, ss, 0, now) == Renamed(ss, name, now, delays);
    if ss != [] { assert plan[0].Some?; }
  }

  function TxtPlan(ss: seq<Service>, stype: Name, key: seq<byte>, value: seq<byte>): (plan: seq<Option<Action>>)
    ensures |plan| == |ss|
  {
    seq(|ss|, i requires 0 <= i < |ss| => if ss[i].stype == stype then Some(DoTxt(i, SetTxt(ss[i].txt, key, value))) else None)
  }

  lemma {:induction false} TxtPlanIsSilent(ss: seq<Service>, stype: Name, key: seq<byte>, value: seq<byte>, from: nat, now: int)
    ensures PlannedLog(TxtPlan(ss, stype, key, value), ss, from, now) == []
    decreases |ss| - from
  {
    if from < |ss| { TxtPlanIsSilent(ss, stype, key, value, from + 1, now); }
  }

  /** Changing a TXT value is a run of updates. */
  lemma {:induction false} UpdateTxtIsRun(r: Run, stype: Name, key: seq<byte>, value: seq<byte>, now: int)
    returns (steps: seq<Timed>)
    ensures Possible(r, steps)
    ensures Play(r, steps) == Run(r.st.(services := MapServices(s => WithTxt(s, stype, key, value), r.st.services)), r.log)
  {
    var ss := r.st.services;
    MapServicesAt(s => WithTxt(s, stype, key, value), ss);
    var plan := TxtPlan(ss, stype, key, value);
    steps := EachInTurn(r, plan, 0, now);
    TxtPlanIsSilent(ss, stype, key, value, 0, now);
    assert r.log + [] == r.log;
    assert Planned(plan, ss, 0, now) == MapServices(s => WithTxt(s, stype, key, value), ss);
  }

  /** The probing guarantees survive every packet. */
  lemma {:induction false} PacketsKeepProbingSafe(r: Run, m: Message, iface: Option<nat>, now: int)
    requires RunOk(r)
    ensures RunOk(Run(AfterResponse(r.st, m, now), r.log + ResponseLog(r.st, m, now)))
    ensures RunOk(Run(AfterQuery(r.st, m, iface, now), r.log + QueryLog(r.st, m, iface, now)))
  {
    var a := ResponseIsRun(r, m, now);
    var b := QueryIsRun(r, m, iface, now);
    PlayKeeps(r, a);
    PlayKeeps(r, b);
  }

  /** And every renaming. */
  lemma {:induction false} RenameKeepsProbingSafe(r: Run, name: seq<byte>, delays: seq<nat>, now: int)
    requires RunOk(r) && |delays| == |r.st.services|
    ensures RunOk(Run(r.st.(services := Renamed(r.st.services, name, now, delays),
                            timerActive := r.st.timerActive || r.st.services != []), r.log + RenameLog(r.st.services, now)))
  {
    var steps := RenameIsRun(r, name, now, delays);
    PlayKeeps(r, steps);
  }

  /** And every change of a TXT value. */
  lemma {:induction false} UpdateKeepsProbingSafe(r: Run, stype: Name, key: seq<byte>, value: seq<byte>, now: int)
    requires RunOk(r)
    ensures RunOk(Run(r.st.(services := MapServices(s => WithTxt(s, stype, key, value), r.st.services)), r.log))
  {
    var steps := UpdateTxtIsRun(r, stype, key, value, now);
    PlayKeeps(r, steps);
  }
}
