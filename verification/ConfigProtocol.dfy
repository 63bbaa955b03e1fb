/**
 * Concurrent configuration commands, interleaved at their suspension points.
 *
 * update_project_config loads and saves under the project's lock. add_environment_variable
 * loads before it takes the lock. The store keeps independent copies and writes either the
 * version it is given (as the in-memory store does) or one of its own (as the Elasticsearch
 * store does); a failing save writes nothing; what the handler of a failure re-reads, it does
 * not write back.
 */
module ConfigProtocol {
  import opened ConfigTree
  import opened ConfigUpdate
  import opened Wrappers

  datatype Config = Config(version: nat, tech: Entries, pipelines: seq<Value>, testing: Entries, variables: Entries)

  datatype Command =
    | UpdateProject(project: string, updates: Updates)
    | AddVariable(project: string, name: string, value: Value, valid: bool)

  type Store = map<string, Config>

  predicate Accepted(c: Command) {
    if c.UpdateProject? then WellTyped(c.updates) else c.valid
  }

  // The configuration a command makes of the one it has loaded.
  function NewConfig(c: Command, basis: Config): Config
    requires Accepted(c)
  {
    match c
    case UpdateProject(_, u) =>
      var r := Report(basis.tech, basis.pipelines, basis.testing, u);
      Config(basis.version + 1, r.tech, r.pipelines, r.testing, basis.variables)
    case AddVariable(_, name, value, _) =>
      basis.(version := basis.version + 1, variables := basis.variables[name := value])
  }

  // What the store makes of the version it is handed.
  datatype Versioning = Given | Assigned

  // The configuration a save leaves in the store, in place of the one it replaces.
  function Written(v: Versioning, c: Command, basis: Config, replaced: Config): Config
    requires Accepted(c)
  {
    if v.Given? then NewConfig(c, basis) else NewConfig(c, basis).(version := replaced.version + 1)
  }

  datatype Phase =
    | Ready
    | Waiting(basis: Config)    // has loaded, wants the lock
    | Locked                    // has the lock, wants to load
    | Prepared(basis: Config)   // has both, about to save
    | Saved                     // about to publish
    | Recovering(saved: bool)   // a save or publication raised
    | Done
    | Failed(saved: bool)

  // One save: the configuration it was computed from, and the one it replaced.
  datatype Record = Record(task: nat, basis: Config, replaced: Config)

  datatype State = State(store: Store, locks: map<string, nat>, phases: seq<Phase>, log: seq<Record>)

  predicate Holds(p: Phase) {
    p.Locked? || p.Prepared? || p.Saved? || p.Recovering?
  }

  predicate Enabled(cs: seq<Command>, s: State, i: nat) {
    && i < |cs| == |s.phases| && !s.phases[i].Done? && !s.phases[i].Failed?
    && ((s.phases[i].Ready? && cs[i].UpdateProject?) || s.phases[i].Waiting? ==> cs[i].project !in s.locks)
  }

  // A prepared task has an accepted command for a stored project (see EnabledTasksCanStep).
  predicate CanStep(cs: seq<Command>, s: State, i: nat) {
    Enabled(cs, s, i) && (s.phases[i].Prepared? ==> Accepted(cs[i]) && cs[i].project in s.store)
  }

  // Where a task stands after its next suspension point, from what is stored for its project; ok
  // tells whether the awaited call succeeds.
  function After(c: Command, phase: Phase, stored: Option<Config>, ok: bool): Phase {
    match phase
    case Ready =>
      if c.UpdateProject? then Locked
      else if ok && stored.Some? && Accepted(c) then Waiting(stored.value)
      else Failed(false)
    case Waiting(basis) => Prepared(basis)
    case Locked => if ok && stored.Some? && Accepted(c) then Prepared(stored.value) else Failed(false)
    case Prepared(_) => if ok then Saved else Recovering(false)
    case Saved => if ok then Done else Recovering(true)
    case Recovering(saved) => Failed(saved)
    case _ => phase
  }

  function Stored(s: State, p: string): Option<Config> {
    if p in s.store then Some(s.store[p]) else None
  }

  // Task i runs to its next suspension point, acquiring or releasing its project's lock on the way.
  function Step(v: Versioning, cs: seq<Command>, s: State, i: nat, ok: bool): State
    requires CanStep(cs, s, i)
  {
    var p, before := cs[i].project, s.phases[i];
    var after := After(cs[i], before, Stored(s, p), ok);
    var t := s.(locks := if Holds(after) then s.locks[p := i] else if Holds(before) then s.locks - {p} else s.locks,
                phases := s.phases[i := after]);
    if before.Prepared? && ok
    then t.(store := s.store[p := Written(v, cs[i], before.basis, s.store[p])],
            log := s.log + [Record(i, before.basis, s.store[p])])
    else t
  }

  // ---- What a step does to the store ---------------------------------------------------

  // A save replaces one project's configuration, under the version the store gives it.
  lemma SaveStores(v: Versioning, cs: seq<Command>, s: State, i: nat)
    requires CanStep(cs, s, i) && s.phases[i].Prepared?
    ensures var p, basis, t := cs[i].project, s.phases[i].basis, Step(v, cs, s, i, true);
      && t.store.Keys == s.store.Keys && p in t.store && t.phases[i] == Saved
      && (forall q :: q in s.store && q != p ==> t.store[q] == s.store[q])
      && (v == Given ==> t.store[p].version == basis.version + 1)
      && (v == Assigned ==> t.store[p].version == s.store[p].version + 1)
  {
  }

  // A step that is no save, or a save that fails, changes nothing in the store.
  lemma OtherStepsStoreNothing(v: Versioning, cs: seq<Command>, s: State, i: nat, ok: bool)
    requires CanStep(cs, s, i) && !(s.phases[i].Prepared? && ok)
    ensures Step(v, cs, s, i, ok).store == s.store && Step(v, cs, s, i, ok).log == s.log
    ensures forall j :: 0 <= j < |cs| && j != i ==> Step(v, cs, s, i, ok).phases[j] == s.phases[j]
  {
  }

  // A command ends, without a save and with its lock released, when it cannot load its project's
  // configuration or what it asks for is not valid; and so far it has had no effect.
  lemma RefusedCommandsEnd(v: Versioning, cs: seq<Command>, s: State, i: nat, ok: bool)
    requires CanStep(cs, s, i)
    requires s.phases[i].Locked? || (s.phases[i].Ready? && cs[i].AddVariable?)
    requires !ok || cs[i].project !in s.store || !(if cs[i].UpdateProject? then WellTyped(cs[i].updates) else cs[i].valid)
    ensures var t := Step(v, cs, s, i, ok);
      && t.phases[i] == Failed(false) && t.store == s.store && t.log == s.log
      && t.locks == if s.phases[i].Locked? then s.locks - {cs[i].project} else s.locks
  {
  }

  // The handler of a failed save or publication runs with the lock still held, and its command then
  // ends as failed.
  lemma FailuresAreHandledUnderTheLock(v: Versioning, cs: seq<Command>, s: State, i: nat)
    requires CanStep(cs, s, i) && (s.phases[i].Prepared? || s.phases[i].Saved?)
    ensures var t := Step(v, cs, s, i, false);
      && t.phases[i] == Recovering(s.phases[i].Saved?) && cs[i].project in t.locks && t.locks[cs[i].project] == i
      && CanStep(cs, t, i)
      && forall ok :: Step(v, cs, t, i, ok).phases[i] == Failed(s.phases[i].Saved?)
  {
  }

  // A saved update is well typed, and has changed the sections it names, each in its own place.
  lemma UpdateStores(v: Versioning, cs: seq<Command>, s: State, i: nat)
    requires CanStep(cs, s, i) && s.phases[i].Prepared? && cs[i].UpdateProject?
    ensures var p, u := cs[i].project, cs[i].updates;
      var basis, saved := s.phases[i].basis, Step(v, cs, s, i, true).store[p];
      && saved.variables == basis.variables
      && (if u.techStacks == None then saved.tech == basis.tech
          else u.techStacks.value.Dict? && saved.tech == Merge(basis.tech, u.techStacks.value))
      && (if u.testing == None then saved.testing == basis.testing
          else u.testing.value.Dict? && saved.testing == Merge(basis.testing, u.testing.value))
      && (if u.pipelines == None then saved.pipelines == basis.pipelines
          else && u.pipelines.value.List? && |saved.pipelines| == |u.pipelines.value.items|
               && forall k :: 0 <= k < |saved.pipelines| ==>
                    && u.pipelines.value.items[k].Dict? && "name" in u.pipelines.value.items[k].entries
                    && saved.pipelines[k] == Proxy(u.pipelines.value.items[k].entries))
  {
    var u, basis := cs[i].updates, s.phases[i].basis;
    SectionsOfOutcome(basis.tech, basis.pipelines, basis.testing, u);
    PipelinesOfOutcome(basis.tech, basis.pipelines, basis.testing, u);
  }

  // A saved variable is valid and set; the other variables and all sections are as they were.
  lemma VariableStores(v: Versioning, cs: seq<Command>, s: State, i: nat)
    requires CanStep(cs, s, i) && s.phases[i].Prepared? && cs[i].AddVariable?
    ensures var p, name := cs[i].project, cs[i].name;
      var basis, saved := s.phases[i].basis, Step(v, cs, s, i, true).store[p];
      && cs[i].valid
      && saved.tech == basis.tech && saved.pipelines == basis.pipelines && saved.testing == basis.testing
      && name in saved.variables && saved.variables[name] == cs[i].value
      && saved.variables.Keys == basis.variables.Keys + {name}
      && forall other :: other in basis.variables && other != name ==> saved.variables[other] == basis.variables[other]
  {
  }

  // ---- What the log means ----------------------------------------------------------

  // The saves applied one after the other.
  function Replay(cs: seq<Command>, init: Store, log: seq<Record>): Store {
    if log == [] then init
    else
      var before := Replay(cs, init, log[..|log| - 1]);
      var i := log[|log| - 1].task;
      if i < |cs| && cs[i].project in before && Accepted(cs[i])
      then before[cs[i].project := NewConfig(cs[i], before[cs[i].project])]
      else before
  }

  predicate Concerns(cs: seq<Command>, r: Record, p: string) {
    r.task < |cs| && cs[r.task].project == p
  }

  function Saves(cs: seq<Command>, log: seq<Record>, p: string): nat {
    if log == [] then 0
    else Saves(cs, log[..|log| - 1], p) + (if Concerns(cs, log[|log| - 1], p) then 1 else 0)
  }

  // No save to p replaced a configuration it had not been computed from.
  ghost predicate NothingLost(cs: seq<Command>, log: seq<Record>, p: string) {
    forall r :: r in log && Concerns(cs, r, p) ==> r.basis == r.replaced
  }

  // ---- The invariant ------------------------------------------------------------------

  ghost predicate LocksHeld(cs: seq<Command>, s: State) {
    && |s.phases| == |cs|
    && (forall i :: 0 <= i < |cs| && Holds(s.phases[i]) ==> cs[i].project in s.locks && s.locks[cs[i].project] == i)
    && (forall p :: p in s.locks ==> s.locks[p] < |cs| && Holds(s.phases[s.locks[p]]) && cs[s.locks[p]].project == p)
  }

  ghost predicate HasBasis(p: Phase) {
    p.Waiting? || p.Prepared?
  }

  // A basis as new as the saves so far is the stored configuration itself.
  ghost predicate BasisCurrent(cs: seq<Command>, init: Store, s: State, i: nat)
    requires |s.phases| == |cs| && i < |cs|
  {
    HasBasis(s.phases[i]) ==>
      var p, basis := cs[i].project, s.phases[i].basis;
      && Accepted(cs[i]) && p in init && p in s.store
      && basis.version <= init[p].version + Saves(cs, s.log, p)
      && (basis.version == init[p].version + Saves(cs, s.log, p) ==> basis == s.store[p])
      && (cs[i].UpdateProject? ==> s.phases[i].Prepared? && basis == s.store[p])
  }

  ghost predicate StoreOf(v: Versioning, cs: seq<Command>, init: Store, s: State, p: string) {
    && (p in s.store <==> p in init)
    && (p in init ==>
        && s.store[p].version <= init[p].version + Saves(cs, s.log, p)
        && (s.store[p].version == init[p].version + Saves(cs, s.log, p) <==> v.Assigned? || NothingLost(cs, s.log, p))
        && (NothingLost(cs, s.log, p) ==>
            p in Replay(cs, init, s.log) && Replay(cs, init, s.log)[p] == s.store[p]))
  }

  ghost predicate Logged(log: seq<Record>, i: nat) {
    exists r :: r in log && r.task == i
  }

  predicate HasSaved(p: Phase) {
    match p
    case Saved => true
    case Done => true
    case Recovering(saved) => saved
    case Failed(saved) => saved
    case _ => false
  }

  // One record for every task that has saved, and none of an update under the lock is stale.
  ghost predicate LogOf(cs: seq<Command>, s: State)
    requires |s.phases| == |cs|
  {
    && (forall r :: r in s.log ==> r.task < |cs| && (cs[r.task].UpdateProject? ==> r.basis == r.replaced))
    && (forall i :: 0 <= i < |cs| ==> (Logged(s.log, i) <==> HasSaved(s.phases[i])))
    && (forall k, l :: 0 <= k < l < |s.log| ==> s.log[k].task != s.log[l].task)
  }

  ghost predicate Invariant(v: Versioning, cs: seq<Command>, init: Store, s: State) {
    && LocksHeld(cs, s)
    && (forall i :: 0 <= i < |cs| ==> BasisCurrent(cs, init, s, i))
    && (forall p :: StoreOf(v, cs, init, s, p))
    && LogOf(cs, s)
  }

  function Initial(cs: seq<Command>, init: Store): State {
    State(init, map[], seq(|cs|, i => Ready), [])
  }

  lemma InitialInvariant(v: Versioning, cs: seq<Command>, init: Store)
    ensures Invariant(v, cs, init, Initial(cs, init))
  {
  }

  // ---- Every step keeps it ----------------------------------------------------------------

  lemma EnabledTasksCanStep(v: Versioning, cs: seq<Command>, init: Store, s: State, i: nat)
    requires Invariant(v, cs, init, s) && Enabled(cs, s, i)
    ensures CanStep(cs, s, i)
  {
    assert BasisCurrent(cs, init, s, i);
  }

  lemma StepKeepsLocks(v: Versioning, cs: seq<Command>, init: Store, s: State, i: nat, ok: bool)
    requires Invariant(v, cs, init, s) && CanStep(cs, s, i)
    ensures LocksHeld(cs, Step(v, cs, s, i, ok))
  {
  }

  lemma SavesOneMore(cs: seq<Command>, log: seq<Record>, r: Record, p: string)
    ensures Saves(cs, log + [r], p) == Saves(cs, log, p) + (if Concerns(cs, r, p) then 1 else 0)
    ensures NothingLost(cs, log + [r], p) <==> NothingLost(cs, log, p) && (Concerns(cs, r, p) ==> r.basis == r.replaced)
  {
    assert (log + [r])[..|log|] == log;
    assert forall x :: x in log + [r] <==> x in log || x == r;
  }

  lemma WrittenVersion(v: Versioning, c: Command, basis: Config, replaced: Config)
    requires Accepted(c)
    ensures Written(v, c, basis, replaced).version == (if v.Given? then basis.version else replaced.version) + 1
    ensures basis == replaced ==> Written(v, c, basis, replaced) == NewConfig(c, basis)
  {
  }

  lemma ReplayOneMore(cs: seq<Command>, init: Store, log: seq<Record>, r: Record, p: string)
    ensures var before, after := Replay(cs, init, log), Replay(cs, init, log + [r]);
      && (p in after <==> p in before)
      && (p in before && !Concerns(cs, r, p) ==> after[p] == before[p])
      && (p in before && Concerns(cs, r, p) && Accepted(cs[r.task]) ==> after[p] == NewConfig(cs[r.task], before[p]))
  {
    assert (log + [r])[..|log|] == log;
  }

  lemma SaveKeepsStore(v: Versioning, cs: seq<Command>, init: Store, s: State, i: nat, p: string)
    requires Invariant(v, cs, init, s) && CanStep(cs, s, i)
    ensures s.phases[i].Prepared? ==> StoreOf(v, cs, init, Step(v, cs, s, i, true), p)
  {
    if s.phases[i].Prepared? {
      assert StoreOf(v, cs, init, s, p) && BasisCurrent(cs, init, s, i);
      var basis, replaced := s.phases[i].basis, s.store[cs[i].project];
      var r := Record(i, basis, replaced);
      SavesOneMore(cs, s.log, r, p);
      ReplayOneMore(cs, init, s.log, r, p);
      WrittenVersion(v, cs[i], basis, replaced);
      var t := Step(v, cs, s, i, true);
      assert t.log == s.log + [r] && t.store == s.store[cs[i].project := Written(v, cs[i], basis, replaced)];
    }
  }

  lemma StepKeepsStore(v: Versioning, cs: seq<Command>, init: Store, s: State, i: nat, ok: bool, p: string)
    requires Invariant(v, cs, init, s) && CanStep(cs, s, i)
    ensures StoreOf(v, cs, init, Step(v, cs, s, i, ok), p)
  {
    assert StoreOf(v, cs, init, s, p);
    if s.phases[i].Prepared? && ok {
      SaveKeepsStore(v, cs, init, s, i, p);
    }
  }

  // What a save leaves of a basis loaded before it: one save behind, or of another project.
  lemma SaveKeepsBasis(v: Versioning, cs: seq<Command>, init: Store, s: State, i: nat, j: nat)
    requires Invariant(v, cs, init, s) && CanStep(cs, s, i) && j < |cs|
    ensures s.phases[i].Prepared? ==> BasisCurrent(cs, init, Step(v, cs, s, i, true), j)
  {
    if s.phases[i].Prepared? && j != i && HasBasis(s.phases[j]) {
      var t, q := Step(v, cs, s, i, true), cs[j].project;
      var r := Record(i, s.phases[i].basis, s.store[cs[i].project]);
      assert t.log == s.log + [r] && t.phases == s.phases[i := Saved];
      assert BasisCurrent(cs, init, s, j);
      SavesOneMore(cs, s.log, r, q);
      if cs[i].project == q {
        assert t.phases[j].basis.version < init[q].version + Saves(cs, t.log, q);
        assert cs[j].AddVariable?;
      } else {
        assert t.store[q] == s.store[q] && Saves(cs, t.log, q) == Saves(cs, s.log, q);
      }
    }
  }

  lemma StepKeepsBasis(v: Versioning, cs: seq<Command>, init: Store, s: State, i: nat, ok: bool, j: nat)
    requires Invariant(v, cs, init, s) && CanStep(cs, s, i) && j < |cs|
    ensures LocksHeld(cs, Step(v, cs, s, i, ok)) && BasisCurrent(cs, init, Step(v, cs, s, i, ok), j)
  {
    StepKeepsLocks(v, cs, init, s, i, ok);
    if s.phases[i].Prepared? && ok {
      SaveKeepsBasis(v, cs, init, s, i, j);
    } else {
      assert BasisCurrent(cs, init, s, i) && BasisCurrent(cs, init, s, j) && StoreOf(v, cs, init, s, cs[j].project);
    }
  }

  lemma StepKeepsLog(v: Versioning, cs: seq<Command>, init: Store, s: State, i: nat, ok: bool)
    requires Invariant(v, cs, init, s) && CanStep(cs, s, i)
    ensures LocksHeld(cs, Step(v, cs, s, i, ok)) && LogOf(cs, Step(v, cs, s, i, ok))
  {
    StepKeepsLocks(v, cs, init, s, i, ok);
    assert BasisCurrent(cs, init, s, i);
    var t := Step(v, cs, s, i, ok);
    assert Logged(s.log, i) <==> HasSaved(s.phases[i]);
    if s.phases[i].Prepared? && ok {
      LogOneMore(cs, s, t, Record(i, s.phases[i].basis, s.store[cs[i].project]));
    } else {
      assert t.log == s.log && HasSaved(t.phases[i]) == HasSaved(s.phases[i]);
      assert forall j :: 0 <= j < |cs| && j != i ==> t.phases[j] == s.phases[j];
    }
  }

  lemma LogOneMore(cs: seq<Command>, s: State, t: State, r: Record)
    requires |s.phases| == |cs| == |t.phases| && LogOf(cs, s) && r.task < |cs| && !HasSaved(s.phases[r.task])
    requires cs[r.task].UpdateProject? ==> r.basis == r.replaced
    requires t.log == s.log + [r] && t.phases == s.phases[r.task := Saved]
    ensures LogOf(cs, t)
  {
    assert forall x :: x in t.log <==> x in s.log || x == r;
    forall j | 0 <= j < |cs| ensures Logged(t.log, j) <==> HasSaved(t.phases[j]) {
      assert Logged(s.log, j) <==> HasSaved(s.phases[j]);
      assert r in t.log;
    }
    forall k | 0 <= k < |s.log| ensures s.log[k].task != r.task {
      assert s.log[k] in s.log;
      assert Logged(s.log, r.task) <==> HasSaved(s.phases[r.task]);
    }
  }

  lemma StepKeepsInvariant(v: Versioning, cs: seq<Command>, init: Store, s: State, i: nat, ok: bool)
    requires Invariant(v, cs, init, s) && CanStep(cs, s, i)
    ensures Invariant(v, cs, init, Step(v, cs, s, i, ok))
  {
    assert BasisCurrent(cs, init, s, i);
    StepKeepsLocks(v, cs, init, s, i, ok);
    StepKeepsLog(v, cs, init, s, i, ok);
    forall j | 0 <= j < |cs| ensures BasisCurrent(cs, init, Step(v, cs, s, i, ok), j) {
      StepKeepsBasis(v, cs, init, s, i, ok, j);
    }
    forall p ensures StoreOf(v, cs, init, Step(v, cs, s, i, ok), p) {
      StepKeepsStore(v, cs, init, s, i, ok, p);
    }
  }
}
