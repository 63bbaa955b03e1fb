/** Commands on one project do not touch another: step by step, and over whole runs. */
module ConfigIsolation {
  import opened ConfigProtocol
  import opened ConfigRuns

  function Only(cs: seq<Command>, log: seq<Record>, p: string): seq<Record> {
    if log == [] then []
    else Only(cs, log[..|log| - 1], p) + (if Concerns(cs, log[|log| - 1], p) then [log[|log| - 1]] else [])
  }

  lemma OnlyOneMore(cs: seq<Command>, log: seq<Record>, r: Record, p: string)
    ensures Only(cs, log + [r], p) == Only(cs, log, p) + (if Concerns(cs, r, p) then [r] else [])
  {
    assert (log + [r])[..|log|] == log;
  }

  // What replaying a log makes of a project depends on the saves to that project only.
  lemma {:induction false} ReplayOfOneProject(cs: seq<Command>, init: Store, log: seq<Record>, p: string)
    ensures p in Replay(cs, init, log) <==> p in init
    ensures p in Replay(cs, init, Only(cs, log, p)) <==> p in init
    ensures p in init ==> Replay(cs, init, log)[p] == Replay(cs, init, Only(cs, log, p))[p]
  {
    if log != [] {
      var front, last := log[..|log| - 1], log[|log| - 1];
      ReplayOfOneProject(cs, init, front, p);
      if Concerns(cs, last, p) {
        var only := Only(cs, front, p);
        assert Only(cs, log, p) == only + [last];
        assert (only + [last])[..|only|] == only && (only + [last])[|only|] == last;
      } else {
        assert Only(cs, log, p) == Only(cs, front, p);
      }
    }
  }

  // Two states are the same to project p: its configuration, its lock, its tasks and its saves.
  ghost predicate Agree(cs: seq<Command>, s: State, t: State, p: string) {
    && |s.phases| == |cs| == |t.phases|
    && (forall i :: 0 <= i < |cs| && cs[i].project == p ==> s.phases[i] == t.phases[i])
    && (p in s.store <==> p in t.store) && (p in s.store ==> s.store[p] == t.store[p])
    && (p in s.locks <==> p in t.locks) && (p in s.locks ==> s.locks[p] == t.locks[p])
    && Only(cs, s.log, p) == Only(cs, t.log, p)
  }

  // A step of another project's task leaves all of that alone.
  lemma StepElsewhere(v: Versioning, cs: seq<Command>, s: State, i: nat, ok: bool, p: string)
    requires CanStep(cs, s, i) && cs[i].project != p
    ensures Agree(cs, s, Step(v, cs, s, i, ok), p)
  {
    if s.phases[i].Prepared? && ok {
      OnlyOneMore(cs, s.log, Record(i, s.phases[i].basis, s.store[cs[i].project]), p);
    }
  }

  // And a step of one of its own tasks depends on nothing else.
  lemma StepAlike(v: Versioning, cs: seq<Command>, s: State, t: State, i: nat, ok: bool, p: string)
    requires Agree(cs, s, t, p) && CanStep(cs, s, i) && cs[i].project == p
    ensures CanStep(cs, t, i) && Agree(cs, Step(v, cs, s, i, ok), Step(v, cs, t, i, ok), p)
  {
    if s.phases[i].Prepared? && ok {
      SaveAlike(v, cs, s, t, i, p);
    }
  }

  lemma SaveAlike(v: Versioning, cs: seq<Command>, s: State, t: State, i: nat, p: string)
    requires Agree(cs, s, t, p) && CanStep(cs, s, i) && s.phases[i].Prepared? && cs[i].project == p
    ensures CanStep(cs, t, i) && Agree(cs, Step(v, cs, s, i, true), Step(v, cs, t, i, true), p)
  {
    var r := Record(i, s.phases[i].basis, s.store[p]);
    OnlyOneMore(cs, s.log, r, p);
    OnlyOneMore(cs, t.log, r, p);
    assert Step(v, cs, s, i, true).log == s.log + [r] && Step(v, cs, t, i, true).log == t.log + [r];
  }

  // A run in which only tasks of project p move.
  ghost predicate NextOf(v: Versioning, cs: seq<Command>, s: State, t: State, p: string) {
    exists i: nat, ok :: CanStep(cs, s, i) && cs[i].project == p && t == Step(v, cs, s, i, ok)
  }

  ghost predicate IsRunOf(v: Versioning, cs: seq<Command>, init: Store, run: seq<State>, p: string) {
    && run != [] && run[0] == Initial(cs, init)
    && forall k, l :: 0 <= k && l == k + 1 < |run| ==> NextOf(v, cs, run[k], run[l], p)
  }

  lemma ExtendRunOf(v: Versioning, cs: seq<Command>, init: Store, run: seq<State>, i: nat, ok: bool, p: string)
      returns (longer: seq<State>)
    requires IsRunOf(v, cs, init, run, p) && CanStep(cs, run[|run| - 1], i) && cs[i].project == p
    ensures IsRunOf(v, cs, init, longer, p) && longer[|longer| - 1] == Step(v, cs, run[|run| - 1], i, ok)
  {
    longer := run + [Step(v, cs, run[|run| - 1], i, ok)];
    assert NextOf(v, cs, run[|run| - 1], longer[|run|], p);
    forall k, l | 0 <= k && l == k + 1 < |longer| ensures NextOf(v, cs, longer[k], longer[l], p) {
      if l < |run| {
        assert NextOf(v, cs, run[k], run[l], p);
      }
    }
  }

  // Whatever happens in a run, a run of one project's tasks alone does the same to that project.
  lemma {:induction false} ProjectsDoNotInterfere(v: Versioning, cs: seq<Command>, init: Store, run: seq<State>, p: string)
      returns (alone: seq<State>)
    requires IsRun(v, cs, init, run)
    ensures IsRunOf(v, cs, init, alone, p) && Agree(cs, run[|run| - 1], alone[|alone| - 1], p)
  {
    var n := |run| - 1;
    if n == 0 {
      alone := run;
    } else {
      alone := ProjectsDoNotInterfere(v, cs, init, run[..n], p);
      assert run[..n][n - 1] == run[n - 1];
      assert Next(v, cs, run[n - 1], run[n]);
      var i: nat, ok :| CanStep(cs, run[n - 1], i) && run[n] == Step(v, cs, run[n - 1], i, ok);
      if cs[i].project == p {
        StepAlike(v, cs, run[n - 1], alone[|alone| - 1], i, ok, p);
        alone := ExtendRunOf(v, cs, init, alone, i, ok, p);
      } else {
        StepElsewhere(v, cs, run[n - 1], i, ok, p);
      }
    }
  }

  // What is stored for a project, none of its saves lost, is its own saves applied in order.
  lemma StoredIsOwnReplay(v: Versioning, cs: seq<Command>, init: Store, run: seq<State>, p: string)
    requires IsRun(v, cs, init, run) && p in init && NothingLost(cs, run[|run| - 1].log, p)
    ensures var s := run[|run| - 1]; var own := Replay(cs, init, Only(cs, s.log, p));
            p in s.store && p in own && s.store[p] == own[p]
  {
    VersionCountsSavesIffNothingLost(v, cs, init, run, p);
    ReplayOfOneProject(cs, init, run[|run| - 1].log, p);
  }
}
