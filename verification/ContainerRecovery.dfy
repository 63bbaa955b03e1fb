/**
 * Recovery of running containers at startup: every container is assessed and acted on by
 * a task of its own, a semaphore bounding how many are at work, in any interleaving.
 */
module ContainerRecovery {
  const BATCH_SIZE: nat := 10

  // A call that may raise; known errors are the two the task handles itself.
  datatype Attempt<+T> = Returned(value: T) | Raised(known: bool)

  // What the adapter and the event classes will answer for one container; what the emitter does
  // is caught and changes nothing.
  datatype Container = Container(isRepairCycle: bool,
                                 assessRepair: Attempt<string>, assessAgent: Attempt<string>,
                                 execute: Attempt<bool>, buildEvent: Attempt<()>)

  // What gather collects: the task's pair, or the exception that ended it.
  datatype TaskResult = Pair(action: string, success: bool) | Exception

  datatype Outcome = Recovered | Killed | Errored

  // ---- One task, seen on its own -------------------------------------------------

  function Assessment(c: Container): Attempt<string> {
    if c.isRepairCycle then c.assessRepair else c.assessAgent
  }

  function Failed(known: bool): TaskResult {
    if known then Pair("error", false) else Exception
  }

  // Acting on an assessment; a failed emission changes nothing.
  function ActionResult(c: Container, action: string): TaskResult {
    match c.execute
    case Raised(known) => Failed(known)
    case Returned(success) =>
      if !success then Pair("error", false)
      else
        match c.buildEvent
        case Raised(known) => Failed(known)
        case Returned(_) => Pair(if action == "reconnect" then "reconnect" else "kill", true)
  }

  function SoloResult(c: Container): TaskResult {
    match Assessment(c)
    case Raised(known) => Failed(known)
    case Returned(action) => ActionResult(c, action)
  }

  // What becomes of a container, in the service's own words.
  function OutcomeOf(c: Container): Outcome {
    if Assessment(c).Returned? && c.execute == Returned(true) && c.buildEvent.Returned?
    then if Assessment(c).value == "reconnect" then Recovered else Killed
    else Errored
  }

  function OutcomesOf(cs: seq<Container>): (r: seq<Outcome>)
    ensures |r| == |cs| && forall i :: 0 <= i < |cs| ==> r[i] == OutcomeOf(cs[i])
  {
    seq(|cs|, i requires 0 <= i < |cs| => OutcomeOf(cs[i]))
  }

  // ---- All tasks together -------------------------------------------------------------

  datatype Phase = Waiting | Assessing | Acting(action: string) | Finished(result: TaskResult)

  datatype State = State(permits: nat, phases: seq<Phase>)

  predicate AtWork(p: Phase) {
    p.Assessing? || p.Acting?
  }

  function InFlight(phases: seq<Phase>): set<nat> {
    set i | 0 <= i < |phases| && AtWork(phases[i])
  }

  predicate Enabled(s: State, i: nat) {
    i < |s.phases| && !s.phases[i].Finished? && (s.phases[i].Waiting? ==> s.permits > 0)
  }

  // Task i runs up to its next suspension point.
  function Advance(cs: seq<Container>, s: State, i: nat): State
    requires |s.phases| == |cs| && Enabled(s, i)
  {
    match s.phases[i]
    case Waiting => State(s.permits - 1, s.phases[i := Assessing])
    case Assessing =>
      (match Assessment(cs[i])
       case Raised(known) => State(s.permits + 1, s.phases[i := Finished(Failed(known))])
       case Returned(action) => s.(phases := s.phases[i := Acting(action)]))
    case Acting(action) => State(s.permits + 1, s.phases[i := Finished(ActionResult(cs[i], action))])
  }

  function Initial(cs: seq<Container>): State {
    State(BATCH_SIZE, seq(|cs|, i => Waiting))
  }

  ghost predicate Next(cs: seq<Container>, s: State, t: State)
    requires |s.phases| == |cs|
  {
    exists i :: Enabled(s, i) && t == Advance(cs, s, i)
  }

  // What holds whenever control is with the event loop.
  ghost predicate Invariant(cs: seq<Container>, s: State) {
    && |s.phases| == |cs|
    && s.permits + |InFlight(s.phases)| == BATCH_SIZE
    && (forall i :: 0 <= i < |cs| && s.phases[i].Acting? ==> Assessment(cs[i]) == Returned(s.phases[i].action))
    && (forall i :: 0 <= i < |cs| && s.phases[i].Finished? ==> s.phases[i].result == SoloResult(cs[i]))
  }

  // How many suspension points are still ahead.
  function Weight(p: Phase): nat {
    match p case Waiting => 3 case Assessing => 2 case Acting(_) => 1 case Finished(_) => 0
  }

  function Remaining(phases: seq<Phase>): nat {
    if phases == [] then 0 else Remaining(phases[..|phases| - 1]) + Weight(phases[|phases| - 1])
  }

  lemma {:induction false} RemainingAfterUpdate(phases: seq<Phase>, i: nat, p: Phase)
    requires i < |phases|
    ensures Remaining(phases[i := p]) == Remaining(phases) - Weight(phases[i]) + Weight(p)
  {
    var n := |phases| - 1;
    if i < n {
      assert phases[i := p][..n] == phases[..n][i := p];
      RemainingAfterUpdate(phases[..n], i, p);
    } else {
      assert phases[i := p][..n] == phases[..n];
    }
  }

  lemma {:induction false} RemainingBound(phases: seq<Phase>)
    ensures Remaining(phases) <= 3 * |phases|
    ensures Remaining(phases) == 0 <==> forall i :: 0 <= i < |phases| ==> phases[i].Finished?
  {
    if phases != [] {
      RemainingBound(phases[..|phases| - 1]);
    }
  }

  lemma InFlightAfterUpdate(phases: seq<Phase>, i: nat, p: Phase)
    requires i < |phases|
    ensures |InFlight(phases[i := p])| ==
      |InFlight(phases)| + (if AtWork(p) then 1 else 0) - (if AtWork(phases[i]) then 1 else 0)
  {
    var before, after := InFlight(phases), InFlight(phases[i := p]);
    OthersStay(phases, i, p);
    var others := before - {i};
    SizeWithout(before, i);
    SizeWithout(after, i);
    assert after - {i} == others;
  }

  lemma SizeWithout(s: set<nat>, i: nat)
    ensures |s| == |s - {i}| + (if i in s then 1 else 0)
  {
    if i in s {
      assert s == (s - {i}) + {i};
    } else {
      assert s == s - {i};
    }
  }

  lemma OthersStay(phases: seq<Phase>, i: nat, p: Phase)
    requires i < |phases|
    ensures InFlight(phases[i := p]) - {i} == InFlight(phases) - {i}
    ensures i in InFlight(phases) <==> AtWork(phases[i])
    ensures i in InFlight(phases[i := p]) <==> AtWork(p)
  {
    var changed := phases[i := p];
    assert forall k :: 0 <= k < |phases| && k != i ==> changed[k] == phases[k];
  }

  // Every step of every task keeps the invariant and brings the end nearer.
  lemma StepKeepsInvariant(cs: seq<Container>, s: State, i: nat)
    requires Invariant(cs, s) && Enabled(s, i)
    ensures Invariant(cs, Advance(cs, s, i))
    ensures Remaining(Advance(cs, s, i).phases) == Remaining(s.phases) - 1
         || (Remaining(Advance(cs, s, i).phases) == Remaining(s.phases) - 2 && Assessment(cs[i]).Raised?)
  {
    var t := Advance(cs, s, i);
    InFlightAfterUpdate(s.phases, i, t.phases[i]);
    RemainingAfterUpdate(s.phases, i, t.phases[i]);
    assert t.phases == s.phases[i := t.phases[i]];
    assert i in InFlight(s.phases) <==> AtWork(s.phases[i]);
  }

  lemma InitialInvariant(cs: seq<Container>)
    ensures Invariant(cs, Initial(cs))
  {
    assert InFlight(Initial(cs).phases) == {};
  }

  // Unless every task has finished, some task can run: the semaphore never blocks them all.
  lemma NoDeadlock(cs: seq<Container>, s: State)
    requires Invariant(cs, s)
    ensures (exists i :: Enabled(s, i)) <==> !(forall i :: 0 <= i < |cs| ==> s.phases[i].Finished?)
  {
    if i :| 0 <= i < |cs| && !s.phases[i].Finished? {
      if !Enabled(s, i) {
        assert InFlight(s.phases) != {};
        var j :| j in InFlight(s.phases);
        assert Enabled(s, j);
      }
    }
  }

  // ---- Whole runs -----------------------------------------------------------------------

  ghost predicate IsRun(cs: seq<Container>, run: seq<State>) {
    && run != [] && run[0] == Initial(cs)
    && (forall k :: 0 <= k < |run| ==> |run[k].phases| == |cs|)
    && (forall k, l :: 0 <= k && l == k + 1 < |run| ==> Next(cs, run[k], run[l]))
  }

  lemma {:induction false} RunInvariant(cs: seq<Container>, run: seq<State>)
    requires IsRun(cs, run)
    ensures forall k :: 0 <= k < |run| ==> Invariant(cs, run[k])
    ensures |run| - 1 + Remaining(run[|run| - 1].phases) <= 3 * |cs|
  {
    var n := |run| - 1;
    if n == 0 {
      InitialInvariant(cs);
      RemainingBound(run[0].phases);
    } else {
      var before := run[..n];
      RunInvariant(cs, before);
      assert before[n - 1] == run[n - 1];
      assert Next(cs, run[n - 1], run[n]);
      var i :| Enabled(run[n - 1], i) && run[n] == Advance(cs, run[n - 1], i);
      assert Invariant(cs, run[n - 1]);
      StepKeepsInvariant(cs, run[n - 1], i);
      forall k | 0 <= k < |run| ensures Invariant(cs, run[k]) {
        if k < n {
          assert run[k] == before[k];
        }
      }
    }
  }

  // The bound, in any interleaving: at most ten are between entering and leaving the semaphore, and
  // another can enter exactly while there are fewer.
  lemma AtMostBatchSizeInFlight(cs: seq<Container>, run: seq<State>, k: nat)
    requires IsRun(cs, run) && k < |run|
    ensures var s := run[k]; var inside := set i | 0 <= i < |s.phases| && (s.phases[i].Assessing? || s.phases[i].Acting?);
      |inside| <= 10 && forall i :: 0 <= i < |s.phases| && s.phases[i].Waiting? ==> (Enabled(s, i) <==> |inside| < 10)
  {
    RunInvariant(cs, run);
    var s := run[k];
    assert InFlight(s.phases) == set i | 0 <= i < |s.phases| && (s.phases[i].Assessing? || s.phases[i].Acting?);
  }

  // A task's result, once there, never changes; and a run that cannot go on has all of them.
  lemma RunsEndWithEveryResult(cs: seq<Container>, run: seq<State>)
    requires IsRun(cs, run)
    ensures |run| <= 3 * |cs| + 1
    ensures var last := run[|run| - 1];
      !(exists i :: Enabled(last, i)) ==>
      forall i :: 0 <= i < |cs| ==> last.phases[i] == Finished(SoloResult(cs[i]))
  {
    RunInvariant(cs, run);
    NoDeadlock(cs, run[|run| - 1]);
  }

  // ---- Counting --------------------------------------------------------------------------

  datatype RecoveryResult = RecoveryResult(recovered: nat, killed: nat, errors: nat, repairCyclesProcessed: nat)

  method CountResults(results: seq<TaskResult>) returns (recovered: nat, killed: nat, errors: nat)
    ensures recovered == multiset(results)[Pair("reconnect", true)]
    ensures killed == multiset(results)[Pair("kill", true)]
    ensures errors == multiset(results)[Exception]
                    + multiset(results)[Pair("error", false)] + multiset(results)[Pair("error", true)]
  {
    recovered, killed, errors := 0, 0, 0;
    var processed: seq<(string, bool)> := [];
    for i := 0 to |results|
      invariant |processed| == i
      invariant forall j :: 0 <= j < i ==>
        processed[j] == if results[j] == Exception then ("error", false) else (results[j].action, results[j].success)
    {
      match results[i] {
        case Exception => processed := processed + [("error", false)];
        case Pair(action, success) => processed := processed + [(action, success)];
      }
    }
    for i := 0 to |processed|
      invariant recovered == multiset(results[..i])[Pair("reconnect", true)]
      invariant killed == multiset(results[..i])[Pair("kill", true)]
      invariant errors == multiset(results[..i])[Exception]
                        + multiset(results[..i])[Pair("error", false)] + multiset(results[..i])[Pair("error", true)]
    {
      var (action, success) := processed[i];
      OneMoreResult(results, i);
      if action == "reconnect" && success {
        recovered := recovered + 1;
      } else if action == "kill" && success {
        killed := killed + 1;
      } else if action == "error" {
        errors := errors + 1;
      }
    }
    assert results[..|processed|] == results;
  }

  lemma OneMoreResult(results: seq<TaskResult>, i: nat)
    requires i < |results|
    ensures multiset(results[..i + 1]) == multiset(results[..i]) + multiset{results[i]}
  {
    assert results[..i + 1] == results[..i] + [results[i]];
  }

  function SoloResults(cs: seq<Container>): seq<TaskResult> {
    seq(|cs|, i requires 0 <= i < |cs| => SoloResult(cs[i]))
  }

  lemma SoloResultByOutcome(c: Container)
    ensures OutcomeOf(c) == Recovered ==> SoloResult(c) == Pair("reconnect", true)
    ensures OutcomeOf(c) == Killed ==> SoloResult(c) == Pair("kill", true)
    ensures OutcomeOf(c) == Errored ==> SoloResult(c) == Exception || SoloResult(c) == Pair("error", false)
  {
  }

  ghost predicate TalliesAgree(rs: multiset<TaskResult>, os: multiset<Outcome>) {
    && rs[Pair("reconnect", true)] == os[Recovered]
    && rs[Pair("kill", true)] == os[Killed]
    && rs[Exception] + rs[Pair("error", false)] + rs[Pair("error", true)] == os[Errored]
  }

  lemma TallyOneMore(rs: multiset<TaskResult>, os: multiset<Outcome>, c: Container)
    requires TalliesAgree(rs, os)
    ensures TalliesAgree(rs + multiset{SoloResult(c)}, os + multiset{OutcomeOf(c)})
  {
    SoloResultByOutcome(c);
    assert |"reconnect"| == 9 && |"kill"| == 4 && |"error"| == 5;
  }

  lemma OneMoreContainer(cs: seq<Container>, n: nat)
    requires n + 1 == |cs|
    ensures multiset(SoloResults(cs)) == multiset(SoloResults(cs[..n])) + multiset{SoloResult(cs[n])}
    ensures multiset(OutcomesOf(cs)) == multiset(OutcomesOf(cs[..n])) + multiset{OutcomeOf(cs[n])}
  {
    assert SoloResults(cs) == SoloResults(cs[..n]) + [SoloResult(cs[n])];
    assert OutcomesOf(cs) == OutcomesOf(cs[..n]) + [OutcomeOf(cs[n])];
  }

  // The tallies of the tasks' results are those of the containers' outcomes, and leave none out.
  lemma {:induction false} TalliesAreOutcomes(cs: seq<Container>)
    ensures TalliesAgree(multiset(SoloResults(cs)), multiset(OutcomesOf(cs)))
    ensures var os := multiset(OutcomesOf(cs)); os[Recovered] + os[Killed] + os[Errored] == |cs|
  {
    if cs != [] {
      var n := |cs| - 1;
      TalliesAreOutcomes(cs[..n]);
      OneMoreContainer(cs, n);
      TallyOneMore(multiset(SoloResults(cs[..n])), multiset(OutcomesOf(cs[..n])), cs[n]);
    } else {
      assert SoloResults(cs) == [] && OutcomesOf(cs) == [];
    }
  }

  // Assessed by the call for its kind of container, acted on with success, its event built.
  predicate DealtWith(c: Container) {
    c.execute == Returned(true) && c.buildEvent.Returned?
  }

  predicate WasRecovered(c: Container) {
    && DealtWith(c)
    && ((c.isRepairCycle && c.assessRepair == Returned("reconnect"))
        || (!c.isRepairCycle && c.assessAgent == Returned("reconnect")))
  }

  predicate WasKilled(c: Container) {
    && DealtWith(c)
    && ((c.isRepairCycle && c.assessRepair.Returned? && c.assessRepair != Returned("reconnect"))
        || (!c.isRepairCycle && c.assessAgent.Returned? && c.assessAgent != Returned("reconnect")))
  }

  lemma OutcomeByFields(c: Container)
    ensures OutcomeOf(c) == Recovered <==> WasRecovered(c)
    ensures OutcomeOf(c) == Killed <==> WasKilled(c)
    ensures OutcomeOf(c) == Errored <==> !WasRecovered(c) && !WasKilled(c)
  {
  }

  // The call for the other kind of container never matters.
  lemma OtherAssessmentIgnored(c: Container, other: Attempt<string>)
    ensures var d := if c.isRepairCycle then c.(assessAgent := other) else c.(assessRepair := other);
      OutcomeOf(d) == OutcomeOf(c) && SoloResult(d) == SoloResult(c)
  {
  }

  function Recoveries(cs: seq<Container>): set<nat> {
    set i | 0 <= i < |cs| && WasRecovered(cs[i])
  }

  function Kills(cs: seq<Container>): set<nat> {
    set i | 0 <= i < |cs| && WasKilled(cs[i])
  }

  lemma CountsOneMore(cs: seq<Container>, n: nat)
    requires n + 1 == |cs|
    ensures |Recoveries(cs)| == |Recoveries(cs[..n])| + (if WasRecovered(cs[n]) then 1 else 0)
    ensures |Kills(cs)| == |Kills(cs[..n])| + (if WasKilled(cs[n]) then 1 else 0)
  {
    assert Recoveries(cs) == Recoveries(cs[..n]) + if WasRecovered(cs[n]) then {n} else {};
    assert Kills(cs) == Kills(cs[..n]) + if WasKilled(cs[n]) then {n} else {};
  }

  // The outcomes, counted over the containers themselves.
  lemma {:induction false} OutcomesAreCounted(cs: seq<Container>)
    ensures var os := multiset(OutcomesOf(cs));
      os[Recovered] == |Recoveries(cs)| && os[Killed] == |Kills(cs)|
      && os[Errored] == |cs| - |Recoveries(cs)| - |Kills(cs)|
  {
    if cs == [] {
      assert Recoveries(cs) == {} && Kills(cs) == {} && OutcomesOf(cs) == [];
    } else {
      var n := |cs| - 1;
      OutcomesAreCounted(cs[..n]);
      OneMoreContainer(cs, n);
      CountsOneMore(cs, n);
      OutcomeByFields(cs[n]);
    }
  }

  // The whole cycle, the event loop choosing any task that can run at every step. A raised
  // attempt before the tasks start ends the call with that exception.
  method RecoverOrCleanupContainers(orphans: Attempt<nat>, repairContainers: Attempt<seq<Container>>,
                                    agentContainers: Attempt<seq<Container>>)
      returns (result: Attempt<RecoveryResult>)
    ensures result.Returned? <==> orphans.Returned? && repairContainers.Returned? && agentContainers.Returned?
    ensures result.Returned? ==>
      var cs := repairContainers.value + agentContainers.value;
      var outcomes := multiset(OutcomesOf(cs));
      && result.value == RecoveryResult(outcomes[Recovered], outcomes[Killed], outcomes[Errored], orphans.value)
      && result.value.recovered + result.value.killed + result.value.errors == |cs|
      && result.value.recovered == |set i | 0 <= i < |cs| && WasRecovered(cs[i])|
      && result.value.killed == |set i | 0 <= i < |cs| && WasKilled(cs[i])|
      && result.value.repairCyclesProcessed == orphans.value
  {
    if orphans.Raised? { return Raised(orphans.known); }
    if repairContainers.Raised? { return Raised(repairContainers.known); }
    if agentContainers.Raised? { return Raised(agentContainers.known); }
    var cs := repairContainers.value + agentContainers.value;
    var state := Initial(cs);
    InitialInvariant(cs);
    while exists i :: 0 <= i < |cs| && Enabled(state, i)
      invariant Invariant(cs, state)
      decreases Remaining(state.phases)
    {
      var i :| 0 <= i < |cs| && Enabled(state, i);
      StepKeepsInvariant(cs, state, i);
      state := Advance(cs, state, i);
    }
    NoDeadlock(cs, state);
    var gathered := seq(|cs|, i requires 0 <= i < |cs| && |state.phases| == |cs| && state.phases[i].Finished? => state.phases[i].result);
    assert gathered == SoloResults(cs);
    var recovered, killed, errors := CountResults(gathered);
    TalliesAreOutcomes(cs);
    OutcomesAreCounted(cs);
    return Returned(RecoveryResult(recovered, killed, errors, orphans.value));
  }
}
