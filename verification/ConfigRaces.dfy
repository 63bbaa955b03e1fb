/** What can go wrong between commands on one project, and exactly when: failed and lost saves. */
module ConfigRaces {
  import opened ConfigProtocol
  import opened ConfigRuns

  // ---- Complete and failing commands ----------------------------------------------------------

  // A waiting or new task gets as far as its save, nobody else holding the lock.
  lemma UpToSaved(v: Versioning, cs: seq<Command>, init: Store, run: seq<State>, j: nat) returns (longer: seq<State>)
    requires IsRun(v, cs, init, run) && j < |cs| && Accepted(cs[j])
    requires var s, p := run[|run| - 1], cs[j].project; |s.phases| == |cs| && p in s.store && p !in s.locks
    requires var s := run[|run| - 1]; s.phases[j].Ready? || (s.phases[j].Waiting? && cs[j].AddVariable?)
    ensures IsRun(v, cs, init, longer)
    ensures var s, p := run[|run| - 1], cs[j].project;
            var basis := if s.phases[j].Waiting? then s.phases[j].basis else s.store[p];
            longer[|longer| - 1] == State(s.store[p := Written(v, cs[j], basis, s.store[p])], s.locks[p := j],
                                          s.phases[j := Saved], s.log + [Record(j, basis, s.store[p])])
  {
    var s, p := run[|run| - 1], cs[j].project;
    var basis := if s.phases[j].Waiting? then s.phases[j].basis else s.store[p];
    longer := run;
    if s.phases[j].Ready? {
      longer := ExtendRun(v, cs, init, longer, j, true);
    }
    longer := ExtendRun(v, cs, init, longer, j, true);
    assert longer[|longer| - 1] == s.(locks := s.locks[p := j], phases := s.phases[j := Prepared(basis)]);
    longer := ExtendRun(v, cs, init, longer, j, true);
    assert s.locks[p := j][p := j] == s.locks[p := j];
  }

  lemma Completes(v: Versioning, cs: seq<Command>, init: Store, run: seq<State>, j: nat) returns (longer: seq<State>)
    requires IsRun(v, cs, init, run) && j < |cs| && Accepted(cs[j])
    requires var s, p := run[|run| - 1], cs[j].project; |s.phases| == |cs| && p in s.store && p !in s.locks
    requires var s := run[|run| - 1]; s.phases[j].Ready? || (s.phases[j].Waiting? && cs[j].AddVariable?)
    ensures IsRun(v, cs, init, longer)
    ensures var s, p := run[|run| - 1], cs[j].project;
            var basis := if s.phases[j].Waiting? then s.phases[j].basis else s.store[p];
            longer[|longer| - 1] == State(s.store[p := Written(v, cs[j], basis, s.store[p])], s.locks,
                                          s.phases[j := Done], s.log + [Record(j, basis, s.store[p])])
  {
    longer := UpToSaved(v, cs, init, run, j);
    longer := ExtendRun(v, cs, init, longer, j, true);
    assert run[|run| - 1].locks[cs[j].project := j] - {cs[j].project} == run[|run| - 1].locks;
  }

  // The handler of a failed publication restores nothing: any accepted command can end as failed
  // with its new configuration in the store.
  lemma FailedSaveStays(v: Versioning, cs: seq<Command>, init: Store, j: nat) returns (run: seq<State>)
    requires j < |cs| && Accepted(cs[j]) && cs[j].project in init
    ensures IsRun(v, cs, init, run)
    ensures var s, p := run[|run| - 1], cs[j].project;
      && s.phases == Initial(cs, init).phases[j := Failed(true)] && s.locks == map[]
      && s.store == init[p := NewConfig(cs[j], init[p])]
  {
    run := [Initial(cs, init)];
    run := UpToSaved(v, cs, init, run, j);
    run := ExtendRun(v, cs, init, run, j, false);
    run := ExtendRun(v, cs, init, run, j, true);
  }

  // Whether a failed command has saved can be told from its phase, in every run.
  lemma FailedAndSaved(v: Versioning, cs: seq<Command>, init: Store, run: seq<State>, i: nat)
    requires IsRun(v, cs, init, run) && i < |cs|
    ensures var s := run[|run| - 1];
      |s.phases| == |cs| && (s.phases[i].Failed? ==> (Logged(s.log, i) <==> s.phases[i] == Failed(true)))
  {
    RunInvariant(v, cs, init, run);
  }

  // ---- Lost updates ---------------------------------------------------------------------------

  // The accepted command i adds a variable to a project that another accepted command changes too.
  ghost predicate Race(cs: seq<Command>, p: string, i: nat, j: nat) {
    && i < |cs| && j < |cs| && i != j && cs[i].AddVariable?
    && cs[i].project == p == cs[j].project && Accepted(cs[i]) && Accepted(cs[j])
  }

  // The early load of add_environment_variable can lose any other command: both end well, and but
  // for the version the configuration is as if the other had never been there.
  lemma AddVariableCanLoseAnyUpdate(v: Versioning, cs: seq<Command>, init: Store, p: string, i: nat, j: nat)
      returns (run: seq<State>)
    requires Race(cs, p, i, j) && p in init
    ensures IsRun(v, cs, init, run)
    ensures var s := run[|run| - 1];
      && s.phases == Initial(cs, init).phases[i := Done][j := Done]
      && s.log == [Record(j, init[p], init[p]), Record(i, init[p], Written(v, cs[j], init[p], init[p]))]
      && s.store == init[p := NewConfig(cs[i], init[p]).(version := init[p].version + if v.Given? then 1 else 2)]
      && !NothingLost(cs, s.log, p)
  {
    run := [Initial(cs, init)];
    run := ExtendRun(v, cs, init, run, i, true);
    run := Completes(v, cs, init, run, j);
    var replaced := Written(v, cs[j], init[p], init[p]);
    assert run[|run| - 1].store[p] == replaced && replaced.version == init[p].version + 1;
    run := Completes(v, cs, init, run, i);
    var s := run[|run| - 1];
    assert s.phases == Initial(cs, init).phases[i := Done][j := Done];
    assert s.store == init[p := Written(v, cs[i], init[p], replaced)];
    assert s.log[1] in s.log && Concerns(cs, s.log[1], p);
  }

  // Without such a pair every basis stays current.
  ghost predicate AllCurrent(cs: seq<Command>, s: State, p: string) {
    && |s.phases| == |cs|
    && (forall i :: 0 <= i < |cs| && cs[i].project == p && HasBasis(s.phases[i]) ==> p in s.store && s.phases[i].basis == s.store[p])
    && NothingLost(cs, s.log, p)
  }

  // Then a task about to save is the only one with a basis.
  lemma NobodyElseLoaded(v: Versioning, cs: seq<Command>, init: Store, s: State, i: nat, p: string)
    requires Invariant(v, cs, init, s) && CanStep(cs, s, i) && s.phases[i].Prepared? && cs[i].project == p
    requires forall j, k :: !Race(cs, p, j, k)
    ensures forall j :: 0 <= j < |cs| && j != i && cs[j].project == p ==> !HasBasis(s.phases[j])
  {
    assert BasisCurrent(cs, init, s, i);
    forall j | 0 <= j < |cs| && j != i && cs[j].project == p ensures !HasBasis(s.phases[j]) {
      assert BasisCurrent(cs, init, s, j);
      assert !Race(cs, p, i, j) && !Race(cs, p, j, i);
    }
  }

  lemma StepKeepsCurrent(v: Versioning, cs: seq<Command>, init: Store, s: State, i: nat, ok: bool, p: string)
    requires Invariant(v, cs, init, s) && CanStep(cs, s, i) && AllCurrent(cs, s, p)
    requires forall j, k :: !Race(cs, p, j, k)
    ensures AllCurrent(cs, Step(v, cs, s, i, ok), p)
  {
    var t := Step(v, cs, s, i, ok);
    if s.phases[i].Prepared? && ok {
      SavesOneMore(cs, s.log, Record(i, s.phases[i].basis, s.store[cs[i].project]), p);
      if cs[i].project == p {
        NobodyElseLoaded(v, cs, init, s, i, p);
      }
    }
  }

  lemma {:induction false} RunKeepsCurrent(v: Versioning, cs: seq<Command>, init: Store, run: seq<State>, p: string)
    requires IsRun(v, cs, init, run) && forall j, k :: !Race(cs, p, j, k)
    ensures AllCurrent(cs, run[|run| - 1], p)
  {
    var n := |run| - 1;
    if n > 0 {
      RunKeepsCurrent(v, cs, init, run[..n], p);
      RunInvariant(v, cs, init, run[..n]);
      assert run[..n][n - 1] == run[n - 1];
      assert Next(v, cs, run[n - 1], run[n]);
      var i, ok :| CanStep(cs, run[n - 1], i) && run[n] == Step(v, cs, run[n - 1], i, ok);
      StepKeepsCurrent(v, cs, init, run[n - 1], i, ok, p);
    }
  }

  // Every run keeps every save to a project exactly when no accepted add_environment_variable on it
  // goes together with another accepted command on it.
  lemma NothingLostIffNoRace(v: Versioning, cs: seq<Command>, init: Store, p: string)
    requires p in init
    ensures (forall run: seq<State> :: IsRun(v, cs, init, run) ==> NothingLost(cs, run[|run| - 1].log, p))
            <==> forall i, j :: !Race(cs, p, i, j)
  {
    if forall i, j :: !Race(cs, p, i, j) {
      forall run: seq<State> | IsRun(v, cs, init, run) ensures NothingLost(cs, run[|run| - 1].log, p) {
        RunKeepsCurrent(v, cs, init, run, p);
      }
    } else {
      var i, j :| Race(cs, p, i, j);
      var run := AddVariableCanLoseAnyUpdate(v, cs, init, p, i, j);
    }
  }
}
