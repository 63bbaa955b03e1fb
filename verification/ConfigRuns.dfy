/** Whole runs of configuration commands, in any interleaving. */
module ConfigRuns {
  import opened ConfigProtocol

  ghost predicate Next(v: Versioning, cs: seq<Command>, s: State, t: State) {
    exists i, ok :: CanStep(cs, s, i) && t == Step(v, cs, s, i, ok)
  }

  ghost predicate IsRun(v: Versioning, cs: seq<Command>, init: Store, run: seq<State>) {
    && run != [] && run[0] == Initial(cs, init)
    && forall k, l :: 0 <= k && l == k + 1 < |run| ==> Next(v, cs, run[k], run[l])
  }

  lemma {:induction false} RunInvariant(v: Versioning, cs: seq<Command>, init: Store, run: seq<State>)
    requires IsRun(v, cs, init, run)
    ensures Invariant(v, cs, init, run[|run| - 1])
  {
    var n := |run| - 1;
    if n == 0 {
      InitialInvariant(v, cs, init);
    } else {
      RunInvariant(v, cs, init, run[..n]);
      assert run[..n][n - 1] == run[n - 1];
      assert Next(v, cs, run[n - 1], run[n]);
      var i, ok :| CanStep(cs, run[n - 1], i) && run[n] == Step(v, cs, run[n - 1], i, ok);
      StepKeepsInvariant(v, cs, init, run[n - 1], i, ok);
    }
  }

  // Mixed commands, any interleaving. A store that writes the version it is given counts the saves
  // exactly when no save to the project was lost; one that assigns versions counts them all.
  lemma VersionCountsSavesIffNothingLost(v: Versioning, cs: seq<Command>, init: Store, run: seq<State>, p: string)
    requires IsRun(v, cs, init, run) && p in init
    ensures var s := run[|run| - 1];
      && p in s.store
      && (s.store[p].version == init[p].version + Saves(cs, s.log, p) <==> v.Assigned? || NothingLost(cs, s.log, p))
      && (NothingLost(cs, s.log, p) ==>
          p in Replay(cs, init, s.log) && s.store[p] == Replay(cs, init, s.log)[p])
  {
    RunInvariant(v, cs, init, run);
    assert StoreOf(v, cs, init, run[|run| - 1], p);
  }

  // Without add_environment_variable every run is serialisable, saves whose publication failed included.
  lemma UpdatesAreSerialisable(v: Versioning, cs: seq<Command>, init: Store, run: seq<State>, p: string)
    requires IsRun(v, cs, init, run)
    requires forall c :: c in cs && c.project == p ==> c.UpdateProject?
    ensures var s := run[|run| - 1];
      && (p in s.store <==> p in init)
      && (p in init ==>
          && s.store[p].version == init[p].version + Saves(cs, s.log, p)
          && p in Replay(cs, init, s.log) && s.store[p] == Replay(cs, init, s.log)[p])
  {
    RunInvariant(v, cs, init, run);
    var s := run[|run| - 1];
    assert StoreOf(v, cs, init, s, p);
    forall r | r in s.log && Concerns(cs, r, p) ensures r.basis == r.replaced {
      assert cs[r.task] in cs;
    }
  }

  // The lock excludes: at most one task per project is between acquiring and releasing it.
  lemma OneHolderPerProject(v: Versioning, cs: seq<Command>, init: Store, run: seq<State>, i: nat, j: nat)
    requires IsRun(v, cs, init, run) && i < |cs| && j < |cs| && cs[i].project == cs[j].project
    ensures var s := run[|run| - 1];
      && |s.phases| == |cs| && (Holds(s.phases[i]) && Holds(s.phases[j]) ==> i == j)
      && (cs[i].project in s.locks && s.locks[cs[i].project] == i <==>
            s.phases[i].Locked? || s.phases[i].Prepared? || s.phases[i].Saved? || s.phases[i].Recovering?)
  {
    RunInvariant(v, cs, init, run);
  }

  // Some task can always go on until all are done or have failed.
  lemma NoDeadlock(v: Versioning, cs: seq<Command>, init: Store, run: seq<State>)
    requires IsRun(v, cs, init, run)
    ensures var s := run[|run| - 1];
      && |s.phases| == |cs|
      && ((exists i :: CanStep(cs, s, i)) <==> exists i :: 0 <= i < |cs| && !s.phases[i].Done? && !s.phases[i].Failed?)
  {
    RunInvariant(v, cs, init, run);
    var s := run[|run| - 1];
    if i :| 0 <= i < |cs| && !s.phases[i].Done? && !s.phases[i].Failed? {
      if Enabled(cs, s, i) {
        EnabledTasksCanStep(v, cs, init, s, i);
      } else {
        var j := s.locks[cs[i].project];
        assert Enabled(cs, s, j);
        EnabledTasksCanStep(v, cs, init, s, j);
      }
    }
  }

  // How many suspension points a task can still have ahead.
  function Weight(p: Phase): nat {
    match p
    case Ready => 5
    case Waiting(_) => 4
    case Locked => 4
    case Prepared(_) => 3
    case Saved => 2
    case Recovering(_) => 1
    case Done => 0
    case Failed(_) => 0
  }

  function Remaining(phases: seq<Phase>): nat {
    if phases == [] then 0 else Remaining(phases[..|phases| - 1]) + Weight(phases[|phases| - 1])
  }

  lemma {:induction false} RemainingAfterUpdate(phases: seq<Phase>, i: nat, p: Phase)
    requires i < |phases|
    ensures Remaining(phases[i := p]) == Remaining(phases) - Weight(phases[i]) + Weight(p)
  {
    var n := |phases| - 1;
    if i < n {
      assert phases[i := p][..n] == phases[..n][i := p];
      RemainingAfterUpdate(phases[..n], i, p);
    } else {
      assert phases[i := p][..n] == phases[..n];
    }
  }

  lemma {:induction false} RemainingAtFirst(phases: seq<Phase>)
    requires forall i :: 0 <= i < |phases| ==> phases[i] == Ready
    ensures Remaining(phases) == 5 * |phases|
  {
    if phases != [] {
      RemainingAtFirst(phases[..|phases| - 1]);
    }
  }

  lemma StepComesNearer(v: Versioning, cs: seq<Command>, s: State, i: nat, ok: bool)
    requires CanStep(cs, s, i)
    ensures Remaining(Step(v, cs, s, i, ok).phases) < Remaining(s.phases)
  {
    RemainingAfterUpdate(s.phases, i, After(cs[i], s.phases[i], Stored(s, cs[i].project), ok));
  }

  lemma {:induction false} RunComesNearer(v: Versioning, cs: seq<Command>, init: Store, run: seq<State>)
    requires IsRun(v, cs, init, run)
    ensures |run| - 1 + Remaining(run[|run| - 1].phases) <= 5 * |cs|
  {
    var n := |run| - 1;
    if n == 0 {
      RemainingAtFirst(run[0].phases);
    } else {
      RunComesNearer(v, cs, init, run[..n]);
      assert run[..n][n - 1] == run[n - 1];
      assert Next(v, cs, run[n - 1], run[n]);
      var i, ok :| CanStep(cs, run[n - 1], i) && run[n] == Step(v, cs, run[n - 1], i, ok);
      StepComesNearer(v, cs, run[n - 1], i, ok);
    }
  }

  // All commands end: a run has at most five steps a command, and one that cannot go on has every
  // command done or failed and every lock released.
  lemma RunsEnd(v: Versioning, cs: seq<Command>, init: Store, run: seq<State>)
    requires IsRun(v, cs, init, run)
    ensures |run| <= 5 * |cs| + 1
    ensures var s := run[|run| - 1];
      (forall i :: !CanStep(cs, s, i)) ==>
        && |s.phases| == |cs| && (forall i :: 0 <= i < |cs| ==> s.phases[i].Done? || s.phases[i].Failed?)
        && s.locks == map[]
  {
    RunComesNearer(v, cs, init, run);
    NoDeadlock(v, cs, init, run);
    RunInvariant(v, cs, init, run);
    var s := run[|run| - 1];
    if forall i :: !CanStep(cs, s, i) {
      forall p ensures p !in s.locks {
      }
    }
  }

  lemma ExtendRun(v: Versioning, cs: seq<Command>, init: Store, run: seq<State>, i: nat, ok: bool) returns (longer: seq<State>)
    requires IsRun(v, cs, init, run) && CanStep(cs, run[|run| - 1], i)
    ensures IsRun(v, cs, init, longer) && longer[|longer| - 1] == Step(v, cs, run[|run| - 1], i, ok)
  {
    longer := run + [Step(v, cs, run[|run| - 1], i, ok)];
    assert Next(v, cs, run[|run| - 1], longer[|run|]);
    forall k, l | 0 <= k && l == k + 1 < |longer| ensures Next(v, cs, longer[k], longer[l]) {
      if l < |run| {
        assert Next(v, cs, run[k], run[l]);
      }
    }
  }
}
