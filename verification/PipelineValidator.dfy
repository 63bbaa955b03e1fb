/** Validation of a pipeline update: stage names, circular transitions, triggers. */
module PipelineValidator {
  import opened StageGraph
  import opened CircularCheck
  import opened Distinctness
  import opened Wrappers

  // An entry of the submitted stage list; entries that are no dictionaries are skipped.
  datatype RawStage =
    | NotADictionary
    | Stage(name: Option<Name>, transitions: Option<seq<Name>>)

  datatype Field<+T> = Missing | NotAList | Items(items: seq<T>)

  datatype PipelineUpdates = PipelineUpdates(stages: Field<RawStage>, triggers: Field<()>)

  datatype Error =
    | StagesNotAList
    | NamesNotUnique
    | Circular(name: Option<Name>)
    | TriggersNotAList

  // Raised: the recursion limit was reached and the call ended with an exception.
  datatype Validation = Raised | Validated(errors: seq<Error>)

  function Key(s: RawStage): Name
    requires s.Stage?
  {
    if s.name == None then "" else s.name.value
  }

  function TransitionsOf(s: RawStage): seq<Name>
    requires s.Stage?
  {
    if s.transitions == None then [] else s.transitions.value
  }

  // stages by name, the last entry of a name winning
  function StageMap(stages: seq<RawStage>): Graph {
    if stages == [] then map[]
    else
      var front := StageMap(stages[..|stages| - 1]);
      var last := stages[|stages| - 1];
      if last.Stage? then front[Key(last) := TransitionsOf(last)] else front
  }

  function NameList(stages: seq<RawStage>): seq<Option<Name>> {
    if stages == [] then []
    else
      var front := NameList(stages[..|stages| - 1]);
      var last := stages[|stages| - 1];
      if last.Stage? then front + [last.name] else front
  }

  function CheckStage(s: RawStage, stageMap: Graph, limit: nat): Answer
    requires s.Stage?
  {
    if s.transitions == None then Clear
    else HasCircularDependency(Key(s), s.transitions.value, stageMap, {}, limit)
  }

  // ---- What the submitted pipeline means ---------------------------------------

  // Every submitted transition, whichever entry carries it.
  ghost predicate Submitted(stages: seq<RawStage>, a: Name, b: Name) {
    exists s :: s in stages && Carries(s, a, b)
  }

  // The entry bears that name, a nameless one the empty name, and lists the transition.
  ghost predicate Carries(s: RawStage, a: Name, b: Name) {
    s.Stage? && (s.name == Some(a) || (s.name == None && a == "")) && s.transitions.Some? && b in s.transitions.value
  }

  lemma CarriesIff(s: RawStage, a: Name, b: Name)
    ensures Carries(s, a, b) <==> s.Stage? && Key(s) == a && b in TransitionsOf(s)
  {
  }

  // Of several entries that bear a name, the stage map has the transitions of the last.
  lemma {:induction false} LastEntryWins(stages: seq<RawStage>, i: nat, a: Name)
    requires i < |stages| && stages[i].Stage? && (stages[i].name == Some(a) || (stages[i].name == None && a == ""))
    requires forall j :: i < j < |stages| && stages[j].Stage? ==>
      stages[j].name != Some(a) && (stages[j].name == None ==> a != "")
    ensures a in StageMap(stages)
    ensures StageMap(stages)[a] == if stages[i].transitions == None then [] else stages[i].transitions.value
  {
    if i < |stages| - 1 {
      LastEntryWins(stages[..|stages| - 1], i, a);
    }
  }

  // The graph of all submitted transitions.
  function WholeGraph(stages: seq<RawStage>): Graph {
    if stages == [] then map[]
    else
      var front := WholeGraph(stages[..|stages| - 1]);
      var last := stages[|stages| - 1];
      if !last.Stage? then front
      else
        var before := if Key(last) in front then front[Key(last)] else [];
        front[Key(last) := before + TransitionsOf(last)]
  }

  lemma {:induction false} WholeGraphHasSubmitted(stages: seq<RawStage>, a: Name)
    ensures a in WholeGraph(stages) <==> exists s :: s in stages && s.Stage? && Key(s) == a
    ensures forall b :: Edge(WholeGraph(stages), a, b) <==> Submitted(stages, a, b)
  {
    if stages != [] {
      var rest, last := stages[..|stages| - 1], stages[|stages| - 1];
      assert stages == rest + [last];
      assert forall s :: s in stages <==> s in rest || s == last;
      WholeGraphHasSubmitted(rest, a);
      forall b
        ensures Edge(WholeGraph(stages), a, b) <==> Submitted(stages, a, b)
      {
        CarriesIff(last, a, b);
        assert Submitted(stages, a, b) <==> Submitted(rest, a, b) || Carries(last, a, b);
      }
    }
  }

  ghost predicate NamesUnique(stages: seq<RawStage>) {
    forall i, j :: 0 <= i < j < |stages| && stages[i].Stage? && stages[j].Stage?
      ==> stages[i].name != stages[j].name
  }

  lemma {:induction false} NameListMembers(stages: seq<RawStage>)
    ensures forall n :: n in NameList(stages) <==> exists s :: s in stages && s.Stage? && s.name == n
  {
    if stages != [] {
      var rest, last := stages[..|stages| - 1], stages[|stages| - 1];
      assert stages == rest + [last];
      assert forall s :: s in stages <==> s in rest || s == last;
      NameListMembers(rest);
    }
  }

  lemma UniqueOneMore(rest: seq<RawStage>, last: RawStage)
    requires last.Stage?
    ensures NamesUnique(rest + [last]) <==> NamesUnique(rest) && last.name !in NameList(rest)
  {
    var stages := rest + [last];
    NameListMembers(rest);
    if NamesUnique(stages) {
      forall i, j | 0 <= i < j < |rest| && rest[i].Stage? && rest[j].Stage? ensures rest[i].name != rest[j].name {
        assert stages[i].name != stages[j].name;
      }
      forall s | s in rest && s.Stage? ensures s.name != last.name {
        var i :| 0 <= i < |rest| && rest[i] == s;
        assert stages[i].name != stages[|rest|].name;
      }
    }
    if NamesUnique(rest) && last.name !in NameList(rest) {
      forall i | 0 <= i < |rest| && rest[i].Stage? ensures rest[i].name != last.name {
        assert rest[i] in rest;
      }
    }
  }

  lemma DistinctOneMore<T>(s: seq<T>, x: T)
    ensures Distinct(s + [x]) <==> Distinct(s) && x !in s
  {
    var more := s + [x];
    if Distinct(more) {
      forall i, j | 0 <= i < j < |s| ensures s[i] != s[j] {
        assert more[i] != more[j];
      }
      forall i | 0 <= i < |s| ensures s[i] != x {
        assert more[i] != more[|s|];
      }
    }
  }

  lemma {:induction false} NameListIsComplete(stages: seq<RawStage>)
    ensures Distinct(NameList(stages)) <==> NamesUnique(stages)
  {
    if stages != [] {
      var rest, last := stages[..|stages| - 1], stages[|stages| - 1];
      assert stages == rest + [last];
      NameListIsComplete(rest);
      if last.Stage? {
        UniqueOneMore(rest, last);
        DistinctOneMore(NameList(rest), last.name);
      } else {
        assert NamesUnique(stages) <==> NamesUnique(rest) by {
          assert forall i :: 0 <= i < |rest| ==> stages[i] == rest[i];
        }
      }
    }
  }

  // The source compares the number of names with the number of different names.
  lemma {:induction false} CountMeansDistinct<T>(s: seq<T>)
    ensures |set x | x in s| <= |s|
    ensures |set x | x in s| == |s| <==> Distinct(s)
  {
    if s != [] {
      var rest, last := s[..|s| - 1], s[|s| - 1];
      assert s == rest + [last];
      CountMeansDistinct(rest);
      var all, some := set x | x in s, set x | x in rest;
      if last in rest {
        assert all == some;
        var k :| 0 <= k < |rest| && rest[k] == last;
        assert s[k] == s[|rest|];
      } else {
        assert all == some + {last};
        assert Distinct(s) <==> Distinct(rest) by {
          assert forall i :: 0 <= i < |rest| ==> s[i] == rest[i] && rest[i] in rest;
        }
      }
    }
  }

  lemma {:induction false} StageMapEntry(stages: seq<RawStage>, k: Name)
    ensures k in StageMap(stages) <==> k in WholeGraph(stages)
    ensures k in StageMap(stages) ==>
      exists s :: s in stages && s.Stage? && Key(s) == k && TransitionsOf(s) == StageMap(stages)[k]
  {
    if stages != [] {
      var rest, last := stages[..|stages| - 1], stages[|stages| - 1];
      assert stages == rest + [last];
      StageMapEntry(rest, k);
      if last.Stage? && Key(last) == k {
        assert last in stages;
      }
    }
  }

  // Unique names collide as keys only when one entry has no name and another the empty one.
  lemma SameEntry(stages: seq<RawStage>, s: RawStage, t: RawStage)
    requires NamesUnique(stages) && s in stages && t in stages && s.Stage? && t.Stage?
    requires Key(s) == Key(t) && Key(s) != ""
    ensures s == t
  {
    var i :| 0 <= i < |stages| && stages[i] == s;
    var j :| 0 <= j < |stages| && stages[j] == t;
    assert s.name == t.name;
    assert !(i < j) && !(j < i);
  }

  lemma KeptTransitions(stages: seq<RawStage>, a: Name, b: Name)
    requires Edge(WholeGraph(stages), a, b) && NamesUnique(stages) && a != ""
    ensures Edge(StageMap(stages), a, b)
  {
    WholeGraphHasSubmitted(stages, a);
    var s :| s in stages && Carries(s, a, b);
    StageMapEntry(stages, a);
    var t :| t in stages && t.Stage? && Key(t) == a && TransitionsOf(t) == StageMap(stages)[a];
    SameEntry(stages, s, t);
  }

  lemma StageMapIsPartOfWhole(stages: seq<RawStage>, p: seq<Name>)
    requires IsWalk(StageMap(stages), p)
    ensures IsWalk(WholeGraph(stages), p)
  {
    forall i, j | 0 <= i && j == i + 1 < |p|
      ensures Edge(WholeGraph(stages), p[i], p[j])
    {
      assert Edge(StageMap(stages), p[i], p[j]);
      StageMapEntry(stages, p[i]);
      var s :| s in stages && s.Stage? && Key(s) == p[i] && TransitionsOf(s) == StageMap(stages)[p[i]];
      CarriesIff(s, p[i], p[j]);
      assert Submitted(stages, p[i], p[j]);
      WholeGraphHasSubmitted(stages, p[i]);
    }
  }

  // Seen from one entry, an answer other than Clear exposes a closed walk of submitted transitions.
  lemma RejectedStageIsOnACycle(stages: seq<RawStage>, s: RawStage, limit: nat)
    requires s in stages && s.Stage? && limit > |StageMap(stages)|
    requires CheckStage(s, StageMap(stages), limit) != Clear
    ensures !Acyclic(WholeGraph(stages))
  {
    var g, ts, k := StageMap(stages), TransitionsOf(s), Key(s);
    CheckerVerdict(k, ts, g, limit);
    if Returns(g, ts, k) {
      var p :| WalkFrom(g, ts, p) && p[|p| - 1] == k;
      StageMapIsPartOfWhole(stages, p);
      CarriesIff(s, k, p[0]);
      assert Submitted(stages, k, p[0]);
      WholeGraphHasSubmitted(stages, k);
      JoinWalks(WholeGraph(stages), [k], p);
      assert IsClosedWalk(WholeGraph(stages), [k] + p);
    } else {
      var p :| WalkFrom(g, ts, p) && !Distinct(p);
      StageMapIsPartOfWhole(stages, p);
      var i, j := RepeatClosesWalk(WholeGraph(stages), p);
    }
  }

  lemma RotateClosedWalk(g: Graph, p: seq<Name>, i: nat)
    requires IsClosedWalk(g, p) && i < |p| - 1
    ensures IsClosedWalk(g, p[i..] + p[1..i + 1])
  {
    SubWalk(g, p, i, |p|);
    SubWalk(g, p, 1, i + 1);
    if i > 0 {
      assert Edge(g, p[0], p[1]);
      JoinWalks(g, p[i..], p[1..i + 1]);
    }
  }

  // The first way back to where a closed walk began.
  lemma FirstReturn(p: seq<Name>) returns (j: nat)
    requires |p| >= 2 && p[0] == p[|p| - 1]
    ensures 0 < j < |p| && p[j] == p[0] && forall i :: 0 < i < j ==> p[i] != p[0]
  {
    j := 1;
    while p[j] != p[0]
      invariant 0 < j < |p|
      invariant forall i :: 0 < i < j ==> p[i] != p[0]
      decreases |p| - j
    {
      j := j + 1;
    }
  }

  // Any cycle can be entered so that, after its first stage, it keeps to the stage map.
  lemma CycleThroughOneEntry(stages: seq<RawStage>, p: seq<Name>) returns (q: seq<Name>)
    requires NamesUnique(stages) && IsClosedWalk(WholeGraph(stages), p)
    ensures IsClosedWalk(WholeGraph(stages), q) && IsWalk(StageMap(stages), q[1..])
  {
    var whole := WholeGraph(stages);
    var r := p;
    if i :| 0 <= i < |p| - 1 && p[i] == "" {
      RotateClosedWalk(whole, p, i);
      r := p[i..] + p[1..i + 1];
    }
    var j := FirstReturn(r);
    SubWalk(whole, r, 0, j + 1);
    q := r[..j + 1];
    forall i, i' | 0 <= i && i' == i + 1 < |q[1..]|
      ensures Edge(StageMap(stages), q[1..][i], q[1..][i'])
    {
      assert Edge(whole, q[i + 1], q[i' + 1]);
      KeptTransitions(stages, q[i + 1], q[i' + 1]);
    }
  }

  // A closed walk of submitted transitions makes the answer for some entry differ from Clear.
  lemma CycleIsRejected(stages: seq<RawStage>, p: seq<Name>, limit: nat) returns (s: RawStage)
    requires NamesUnique(stages) && limit > |StageMap(stages)|
    requires IsClosedWalk(WholeGraph(stages), p)
    ensures s in stages && s.Stage?
    ensures CheckStage(s, StageMap(stages), limit) != Clear
  {
    var q := CycleThroughOneEntry(stages, p);
    assert Edge(WholeGraph(stages), q[0], q[1]);
    WholeGraphHasSubmitted(stages, q[0]);
    s :| s in stages && Carries(s, q[0], q[1]);
    CarriesIff(s, q[0], q[1]);
    assert WalkFrom(StageMap(stages), TransitionsOf(s), q[1..]);
    assert Returns(StageMap(stages), TransitionsOf(s), Key(s));
    CheckerVerdict(Key(s), TransitionsOf(s), StageMap(stages), limit);
  }

  ghost predicate AllClear(stages: seq<RawStage>, limit: nat) {
    forall s :: s in stages && s.Stage? ==> CheckStage(s, StageMap(stages), limit) == Clear
  }

  // The stage-by-stage search, taken together, decides acyclicity of the whole pipeline.
  lemma AllClearIffAcyclic(stages: seq<RawStage>, limit: nat)
    requires NamesUnique(stages) && limit > |StageMap(stages)|
    ensures AllClear(stages, limit) <==> Acyclic(WholeGraph(stages))
  {
    if Acyclic(WholeGraph(stages)) {
      forall s | s in stages && s.Stage?
        ensures CheckStage(s, StageMap(stages), limit) == Clear
      {
        if CheckStage(s, StageMap(stages), limit) != Clear {
          RejectedStageIsOnACycle(stages, s, limit);
        }
      }
    }
    if AllClear(stages, limit) {
      forall p | IsClosedWalk(WholeGraph(stages), p) ensures false {
        var s := CycleIsRejected(stages, p, limit);
      }
    }
  }

  // Without unique names the search alone is not enough: here two shadowed entries form a cycle.
  function ShadowedCycle(): seq<RawStage> {
    [Stage(Some("a"), Some(["b"])), Stage(Some("b"), Some(["a"])), Stage(Some("a"), None), Stage(Some("b"), None)]
  }

  lemma ShadowedStageMap()
    ensures StageMap(ShadowedCycle()) == map["a" := [], "b" := []]
  {
    var s := ShadowedCycle();
    assert s[..3][..2] == s[..2] && s[..2][..1] == s[..1];
    assert StageMap(s[..1]) == map["a" := ["b"]];
    assert StageMap(s[..2]) == map["a" := ["b"], "b" := ["a"]];
    assert StageMap(s[..3]) == map["a" := [], "b" := ["a"]];
  }

  lemma OneUnfruitfulStep(a: Name, b: Name, stageMap: Graph, limit: nat)
    requires a != b && b in stageMap && stageMap[b] == [] && limit > 2
    ensures HasCircularDependency(a, [b], stageMap, {}, limit) == Clear
  {
    assert {} + {a} == {a} && {a} + {a} == {a};
    assert HasCircularDependency(a, [], stageMap, {a}, limit - 1) == Clear;
    assert [b][1..] == [];
    assert TryTransitions(a, [b], stageMap, {a}, limit) == Clear;
  }

  lemma ShadowedCycleIsMissed(limit: nat)
    requires limit > 2
    ensures AllClear(ShadowedCycle(), limit) && !Acyclic(WholeGraph(ShadowedCycle()))
  {
    var stages := ShadowedCycle();
    assert AllClear(stages, limit) by {
      ShadowedStageMap();
      OneUnfruitfulStep("a", "b", StageMap(stages), limit);
      OneUnfruitfulStep("b", "a", StageMap(stages), limit);
    }
    assert !Acyclic(WholeGraph(stages)) by {
      assert Carries(stages[0], "a", "b") && Carries(stages[1], "b", "a");
      WholeGraphHasSubmitted(stages, "a");
      WholeGraphHasSubmitted(stages, "b");
      assert IsClosedWalk(WholeGraph(stages), ["a", "b", "a"]);
    }
  }

  // ---- The validator --------------------------------------------------------

  // An error for every entry found to lead back to itself, in list order.
  function CircularErrors(stages: seq<RawStage>, stageMap: Graph, limit: nat): seq<Error> {
    if stages == [] then []
    else
      var front := CircularErrors(stages[..|stages| - 1], stageMap, limit);
      var last := stages[|stages| - 1];
      if last.Stage? && CheckStage(last, stageMap, limit) == Found then front + [Circular(last.name)] else front
  }

  // The answer for one entry, whose transitions may lead back to it and into other cycles.
  lemma CheckStageVerdict(s: RawStage, stageMap: Graph, limit: nat)
    requires s.Stage? && limit > |stageMap|
    ensures CheckStage(s, stageMap, limit) == Found <==>
            Returns(stageMap, TransitionsOf(s), Key(s)) && !Sinks(stageMap, Key(s), TransitionsOf(s))
    ensures CheckStage(s, stageMap, limit) == RecursionLimit <==> Sinks(stageMap, Key(s), TransitionsOf(s))
  {
    CheckerVerdict(Key(s), TransitionsOf(s), stageMap, limit);
  }

  // The errors name the entries that lead back to themselves before they sink into another cycle.
  lemma {:induction false} CircularErrorsName(stages: seq<RawStage>, stageMap: Graph, limit: nat)
    requires limit > |stageMap|
    ensures forall e :: e in CircularErrors(stages, stageMap, limit) <==>
      exists s :: s in stages && s.Stage? && e == Circular(s.name)
        && Returns(stageMap, TransitionsOf(s), Key(s)) && !Sinks(stageMap, Key(s), TransitionsOf(s))
  {
    if stages != [] {
      var rest, last := stages[..|stages| - 1], stages[|stages| - 1];
      assert stages == rest + [last];
      assert forall s :: s in stages <==> s in rest || s == last;
      CircularErrorsName(rest, stageMap, limit);
      if last.Stage? {
        CheckStageVerdict(last, stageMap, limit);
      }
    }
  }

  lemma {:induction false} NoErrorsIffNoneFound(stages: seq<RawStage>, stageMap: Graph, limit: nat)
    ensures CircularErrors(stages, stageMap, limit) == [] <==>
      forall s :: s in stages && s.Stage? ==> CheckStage(s, stageMap, limit) != Found
  {
    if stages != [] {
      assert stages == stages[..|stages| - 1] + [stages[|stages| - 1]];
      NoErrorsIffNoneFound(stages[..|stages| - 1], stageMap, limit);
    }
  }

  // No error and no exception: the stage-by-stage search decides acyclicity.
  lemma CleanIffAcyclic(stages: seq<RawStage>, limit: nat)
    requires NamesUnique(stages) && limit > |StageMap(stages)|
    ensures Acyclic(WholeGraph(stages)) <==>
      CircularErrors(stages, StageMap(stages), limit) == [] &&
      forall s :: s in stages && s.Stage? ==> CheckStage(s, StageMap(stages), limit) != RecursionLimit
  {
    AllClearIffAcyclic(stages, limit);
    NoErrorsIffNoneFound(stages, StageMap(stages), limit);
  }

  // The loop over the stage list; None stands for the exception.
  method CheckAllStages(stages: seq<RawStage>, stageMap: Graph, limit: nat) returns (errors: Option<seq<Error>>)
    ensures errors == None <==>
      exists s :: s in stages && s.Stage? && CheckStage(s, stageMap, limit) == RecursionLimit
    ensures errors != None ==> errors == Some(CircularErrors(stages, stageMap, limit))
  {
    var found: seq<Error> := [];
    for i := 0 to |stages|
      invariant found == CircularErrors(stages[..i], stageMap, limit)
      invariant forall s :: s in stages[..i] && s.Stage? ==> CheckStage(s, stageMap, limit) != RecursionLimit
    {
      var stage := stages[i];
      assert stages[..i + 1][..i] == stages[..i];
      if stage.Stage? && stage.transitions != None {
        var answer := HasCircularDependency(Key(stage), stage.transitions.value, stageMap, {}, limit);
        assert answer == CheckStage(stage, stageMap, limit);
        if answer == RecursionLimit {
          return None;
        } else if answer == Found {
          found := found + [Circular(stage.name)];
        }
      }
    }
    assert stages[..|stages|] == stages;
    return Some(found);
  }

  ghost predicate SomeSinks(stages: seq<RawStage>) {
    exists s :: s in stages && s.Stage? && Sinks(StageMap(stages), Key(s), TransitionsOf(s))
  }

  lemma RaisedIffSomeSinks(stages: seq<RawStage>, limit: nat)
    ensures limit > |StageMap(stages)| ==>
      (SomeSinks(stages) <==> exists s :: s in stages && s.Stage? && CheckStage(s, StageMap(stages), limit) == RecursionLimit)
  {
    if limit > |StageMap(stages)| {
      forall s | s in stages && s.Stage?
        ensures CheckStage(s, StageMap(stages), limit) == RecursionLimit <==> Sinks(StageMap(stages), Key(s), TransitionsOf(s))
      {
        CheckStageVerdict(s, StageMap(stages), limit);
      }
    }
  }

  method NamesAreUnique(stages: seq<RawStage>) returns (unique: bool)
    ensures unique <==> NamesUnique(stages)
  {
    var names := NameList(stages);
    CountMeansDistinct(names);
    NameListIsComplete(stages);
    return |names| == |set n | n in names|;
  }

  method ValidatePipelineUpdates(updates: PipelineUpdates, limit: nat) returns (result: Validation)
    ensures result == Raised <==>
      updates.stages.Items? &&
      exists s :: s in updates.stages.items && s.Stage? &&
        CheckStage(s, StageMap(updates.stages.items), limit) == RecursionLimit
    // That is, exactly when some entry's search sinks into a cycle before it finds a way back.
    ensures updates.stages.Items? && limit > |StageMap(updates.stages.items)| ==>
      (result == Raised <==> SomeSinks(updates.stages.items))
    ensures result.Validated? ==>
      result.errors ==
        (match updates.stages
         case Missing => []
         case NotAList => [StagesNotAList]
         case Items(stages) =>
           (if NamesUnique(stages) then [] else [NamesNotUnique]) + CircularErrors(stages, StageMap(stages), limit))
        + (if updates.triggers.NotAList? then [TriggersNotAList] else [])
    // Accepted exactly when the names are unique and the submitted transitions have no cycle.
    ensures updates.stages.Items? && limit > |StageMap(updates.stages.items)| ==>
      (result == Validated([]) <==>
       NamesUnique(updates.stages.items) && Acyclic(WholeGraph(updates.stages.items)) && !updates.triggers.NotAList?)
  {
    var errors: seq<Error> := [];
    match updates.stages {
      case Missing =>
      case NotAList => errors := [StagesNotAList];
      case Items(stages) =>
        RaisedIffSomeSinks(stages, limit);
        if NamesUnique(stages) && limit > |StageMap(stages)| {
          CleanIffAcyclic(stages, limit);
        }
        var unique := NamesAreUnique(stages);
        if !unique {
          errors := errors + [NamesNotUnique];
        }
        var circular := CheckAllStages(stages, StageMap(stages), limit);
        if circular == None {
          return Raised;
        }
        errors := errors + circular.value;
    }
    if updates.triggers.NotAList? {
      errors := errors + [TriggersNotAList];
    }
    return Validated(errors);
  }

  // What acceptance buys: stages can be ranked, and a walk among known stages visits none twice.
  lemma AcceptedPipelinesTerminate(stages: seq<RawStage>, limit: nat, p: seq<Name>)
    requires NamesUnique(stages) && AllClear(stages, limit) && limit > |StageMap(stages)|
    ensures exists rank :: IsRank(WholeGraph(stages), rank)
    ensures IsWalk(WholeGraph(stages), p) && Known(WholeGraph(stages), p) ==>
      Distinct(p) && |p| <= |WholeGraph(stages)|
  {
    AllClearIffAcyclic(stages, limit);
    AcyclicIffRanked(WholeGraph(stages));
    if IsWalk(WholeGraph(stages), p) && Known(WholeGraph(stages), p) {
      AcyclicWalksAreDistinct(WholeGraph(stages), p);
      Pigeonhole(p, WholeGraph(stages).Keys);
    }
  }
}
