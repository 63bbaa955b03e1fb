/**
 * The pipeline validator's search for circular stage transitions.
 *
 * The search hands the same start stage to every recursive call, so it looks for a
 * way back to the start and for nothing else. The interpreter's recursion limit is
 * the parameter limit; reaching it is the answer RecursionLimit, which aborts the
 * whole validation.
 */
module CircularCheck {
  import opened StageGraph
  import opened Distinctness

  datatype Answer = Found | Clear | RecursionLimit

  function HasCircularDependency(start: Name, transitions: seq<Name>, stageMap: Graph,
                                 visited: set<Name>, limit: nat): Answer
    decreases limit, 1, 0
  {
    if limit == 0 then RecursionLimit
    else TryTransitions(start, transitions, stageMap, visited + {start}, limit)
  }

  function TryTransitions(start: Name, transitions: seq<Name>, stageMap: Graph,
                          visited: set<Name>, limit: nat): Answer
    requires limit > 0
    decreases limit, 0, |transitions|
  {
    if transitions == [] then Clear
    else
      var next := transitions[0];
      if next == start || next in visited then Found
      else if next !in stageMap then TryTransitions(start, transitions[1..], stageMap, visited, limit)
      else
        match HasCircularDependency(start, stageMap[next], stageMap, visited, limit - 1)
        case Found => Found
        case RecursionLimit => RecursionLimit
        case Clear => TryTransitions(start, transitions[1..], stageMap, visited, limit)
  }

  // A walk whose first stage is one of the given transitions.
  ghost predicate WalkFrom(g: Graph, transitions: seq<Name>, p: seq<Name>) {
    p != [] && p[0] in transitions && IsWalk(g, p)
  }

  ghost predicate Returns(g: Graph, transitions: seq<Name>, start: Name) {
    exists p :: WalkFrom(g, transitions, p) && p[|p| - 1] == start
  }

  // ---- What each answer says, at any recursion limit -------------------------

  lemma PrependToWalk(g: Graph, a: Name, p: seq<Name>)
    requires a in g && (p == [] || WalkFrom(g, g[a], p))
    ensures IsWalk(g, [a] + p)
  {
    if p != [] {
      JoinWalks(g, [a], p);
    }
  }

  lemma {:induction false} FoundMeansReturn(start: Name, ts: seq<Name>, g: Graph, visited: set<Name>, limit: nat)
    requires limit > 0 && visited == {start}
    requires TryTransitions(start, ts, g, visited, limit) == Found
    ensures Returns(g, ts, start)
    decreases limit, |ts|
  {
    var next := ts[0];
    if next == start {
      assert WalkFrom(g, ts, [start]);
    } else if next in g && HasCircularDependency(start, g[next], g, visited, limit - 1) == Found {
      assert visited + {start} == visited;
      FoundMeansReturn(start, g[next], g, visited, limit - 1);
      var p :| WalkFrom(g, g[next], p) && p[|p| - 1] == start;
      PrependToWalk(g, next, p);
      assert WalkFrom(g, ts, [next] + p) && ([next] + p)[|p|] == start;
    } else {
      FoundMeansReturn(start, ts[1..], g, visited, limit);
      var p :| WalkFrom(g, ts[1..], p) && p[|p| - 1] == start;
      assert WalkFrom(g, ts, p);
    }
  }

  // The limit is reached along a walk of known stages, as long as the limit, that avoids the start.
  lemma {:induction false} LimitMeansLongWalk(start: Name, ts: seq<Name>, g: Graph, visited: set<Name>, limit: nat)
      returns (p: seq<Name>)
    requires limit > 0 && visited == {start}
    requires TryTransitions(start, ts, g, visited, limit) == RecursionLimit
    ensures |p| == limit && WalkFrom(g, ts, p) && Known(g, p) && start !in p
    decreases limit, |ts|
  {
    var next := ts[0];
    if next in g && HasCircularDependency(start, g[next], g, visited, limit - 1) == RecursionLimit {
      assert visited + {start} == visited;
      p := [];
      if limit > 1 {
        p := LimitMeansLongWalk(start, g[next], g, visited, limit - 1);
      }
      PrependToWalk(g, next, p);
      p := [next] + p;
    } else {
      p := LimitMeansLongWalk(start, ts[1..], g, visited, limit);
    }
  }

  // A clear answer has followed every walk: none returns, none is longer than the limit.
  lemma {:induction false} ClearMeansNoReturn(start: Name, ts: seq<Name>, g: Graph, visited: set<Name>,
                                              limit: nat, p: seq<Name>)
    requires limit > 0 && visited == {start}
    requires TryTransitions(start, ts, g, visited, limit) == Clear
    requires WalkFrom(g, ts, p)
    ensures p[|p| - 1] != start && |p| <= limit
    decreases limit, |ts|
  {
    var next := ts[0];
    if p[0] == next {
      if |p| > 1 {
        assert Edge(g, p[0], p[1]);
        assert visited + {start} == visited;
        SubWalk(g, p, 1, |p|);
        ClearMeansNoReturn(start, g[next], g, visited, limit - 1, p[1..]);
      }
    } else {
      ClearMeansNoReturn(start, ts[1..], g, visited, limit, p);
    }
  }

  // ---- When the limit is reached ------------------------------------------------

  // A transition to the start, or to a known stage from which a walk leads back to it.
  ghost predicate LeadsBack(g: Graph, start: Name, next: Name) {
    next == start || (next in g && Returns(g, g[next], start))
  }

  // The known stages the search can enter: no transition listed before them leads back to the
  // start, and they are not the start.
  ghost function Cut(g: Graph, start: Name, ts: seq<Name>): seq<Name> {
    if ts == [] || ts[0] == start then []
    else (if ts[0] in g then [ts[0]] else []) + (if LeadsBack(g, start, ts[0]) then [] else Cut(g, start, ts[1..]))
  }

  // The graph with every list of transitions cut like that.
  ghost function Trimmed(g: Graph, start: Name): Graph {
    map a | a in g :: Cut(g, start, g[a])
  }

  lemma {:induction false} CutMeansListedFirst(g: Graph, start: Name, ts: seq<Name>, x: Name)
    ensures x in Cut(g, start, ts) <==> exists j :: EntersAt(g, start, ts, x, j)
  {
    if ts != [] {
      var rest := ts[1..];
      CutMeansListedFirst(g, start, rest, x);
      assert x == ts[0] && x in g && x != start ==> EntersAt(g, start, ts, x, 0);
      if j :| EntersAt(g, start, rest, x, j) {
        if ts[0] != start && !LeadsBack(g, start, ts[0]) {
          assert forall i :: 0 < i < j + 1 ==> ts[i] == rest[i - 1];
          assert EntersAt(g, start, ts, x, j + 1);
        }
      }
      if j :| EntersAt(g, start, ts, x, j) {
        if j > 0 {
          assert forall i :: 0 <= i < j - 1 ==> rest[i] == ts[i + 1];
          assert EntersAt(g, start, rest, x, j - 1);
        }
      }
    }
  }

  // x is the j-th transition, a known stage other than the start, and none before it leads back.
  ghost predicate EntersAt(g: Graph, start: Name, ts: seq<Name>, x: Name, j: int) {
    0 <= j < |ts| && ts[j] == x && x in g && x != start && forall i :: 0 <= i < j ==> !LeadsBack(g, start, ts[i])
  }

  lemma NoWayBackIfClear(start: Name, g: Graph, next: Name, limit: nat)
    requires next != start && limit > 0
    requires next in g ==> HasCircularDependency(start, g[next], g, {start}, limit - 1) == Clear
    ensures !LeadsBack(g, start, next)
  {
    assert {start} + {start} == {start};
    if next in g && Returns(g, g[next], start) {
      var p :| WalkFrom(g, g[next], p) && p[|p| - 1] == start;
      ClearMeansNoReturn(start, g[next], g, {start}, limit - 1, p);
    }
  }

  lemma {:induction false} LimitMeansSinking(start: Name, ts: seq<Name>, g: Graph, limit: nat) returns (p: seq<Name>)
    requires limit > 0 && TryTransitions(start, ts, g, {start}, limit) == RecursionLimit
    ensures |p| == limit && WalkFrom(Trimmed(g, start), Cut(g, start, ts), p)
    decreases limit, |ts|
  {
    var next := ts[0];
    assert {start} + {start} == {start};
    if next in g && HasCircularDependency(start, g[next], g, {start}, limit - 1) == RecursionLimit {
      p := [];
      if limit > 1 {
        p := LimitMeansSinking(start, g[next], g, limit - 1);
      }
      PrependToWalk(Trimmed(g, start), next, p);
      p := [next] + p;
    } else {
      NoWayBackIfClear(start, g, next, limit);
      p := LimitMeansSinking(start, ts[1..], g, limit);
    }
  }

  lemma {:induction false} SinkingMeansLimit(start: Name, ts: seq<Name>, g: Graph, limit: nat, p: seq<Name>)
    requires |p| == limit > 0 && WalkFrom(Trimmed(g, start), Cut(g, start, ts), p)
    ensures TryTransitions(start, ts, g, {start}, limit) == RecursionLimit
    decreases limit, |ts|
  {
    var next := ts[0];
    assert {start} + {start} == {start};
    CutMeansListedFirst(g, start, ts, p[0]);
    if p[0] == next {
      if limit > 1 {
        assert Edge(Trimmed(g, start), p[0], p[1]);
        SubWalk(Trimmed(g, start), p, 1, |p|);
        SinkingMeansLimit(start, g[next], g, limit - 1, p[1..]);
      }
    } else {
      if next in g && limit > 1 && HasCircularDependency(start, g[next], g, {start}, limit - 1) == Found {
        FoundMeansReturn(start, g[next], g, {start}, limit - 1);
      }
      SinkingMeansLimit(start, ts[1..], g, limit, p);
    }
  }

  // The recursion limit is reached exactly along a walk as long as the limit in the trimmed graph.
  lemma LimitIffSinking(start: Name, ts: seq<Name>, g: Graph, limit: nat)
    ensures HasCircularDependency(start, ts, g, {}, limit) == RecursionLimit <==>
            limit == 0 || exists p :: |p| == limit && WalkFrom(Trimmed(g, start), Cut(g, start, ts), p)
  {
    assert {} + {start} == {start};
    if limit > 0 {
      if HasCircularDependency(start, ts, g, {}, limit) == RecursionLimit {
        var p := LimitMeansSinking(start, ts, g, limit);
      }
      if p :| |p| == limit && WalkFrom(Trimmed(g, start), Cut(g, start, ts), p) {
        SinkingMeansLimit(start, ts, g, limit, p);
      }
    }
  }

  // The three answers at any limit.
  lemma AnswersAtAnyLimit(start: Name, ts: seq<Name>, g: Graph, limit: nat)
    ensures var answer := HasCircularDependency(start, ts, g, {}, limit);
            var sinks := limit == 0 || exists p :: |p| == limit && WalkFrom(Trimmed(g, start), Cut(g, start, ts), p);
            && (answer == RecursionLimit <==> sinks)
            && (answer == Found <==> !sinks && Returns(g, ts, start))
            && (answer == Clear <==> !sinks && !Returns(g, ts, start))
  {
    assert {} + {start} == {start};
    LimitIffSinking(start, ts, g, limit);
    match HasCircularDependency(start, ts, g, {}, limit)
    case Found =>
      FoundMeansReturn(start, ts, g, {start}, limit);
    case Clear =>
      forall p | WalkFrom(g, ts, p) ensures p[|p| - 1] != start {
        ClearMeansNoReturn(start, ts, g, {start}, limit, p);
      }
    case RecursionLimit =>
  }

  // ---- With a limit above the number of stages --------------------------------

  // A walk that repeats a stage can be drawn out to any length.
  lemma {:induction false} UnrollRepeat(g: Graph, ts: seq<Name>, p: seq<Name>, n: nat) returns (long: seq<Name>)
    requires WalkFrom(g, ts, p) && !Distinct(p)
    ensures WalkFrom(g, ts, long) && |long| >= n && !Distinct(long)
    decreases n
  {
    if n <= |p| {
      long := p;
    } else {
      var q := UnrollRepeat(g, ts, p, n - 1);
      var i, j := RepeatClosesWalk(g, q);
      SubWalk(g, q, 0, j + 1);
      SubWalk(g, q, i + 1, |q|);
      if i + 1 < |q| {
        JoinWalks(g, q[..j + 1], q[i + 1..]);
      }
      long := q[..j + 1] + q[i + 1..];
      assert long[i] == q[i] && long[j] == q[j];
    }
  }

  // The search runs into a cycle before it finds a way back to the start.
  ghost predicate Sinks(g: Graph, start: Name, ts: seq<Name>) {
    exists p :: WalkFrom(Trimmed(g, start), Cut(g, start, ts), p) && !Distinct(p)
  }

  lemma SinksIffLongWalk(start: Name, ts: seq<Name>, g: Graph, limit: nat)
    requires limit > |g|
    ensures Sinks(g, start, ts) <==> exists p :: |p| == limit && WalkFrom(Trimmed(g, start), Cut(g, start, ts), p)
  {
    var h, us := Trimmed(g, start), Cut(g, start, ts);
    if p :| WalkFrom(h, us, p) && !Distinct(p) {
      var long := UnrollRepeat(h, us, p, limit);
      SubWalk(h, long, 0, limit);
      assert WalkFrom(h, us, long[..limit]);
    }
    if p :| |p| == limit && WalkFrom(h, us, p) {
      forall x | x in p ensures x in h {
        var i :| 0 <= i < |p| && p[i] == x;
        if i == 0 {
          CutMeansListedFirst(g, start, ts, x);
        } else {
          assert Edge(h, p[i - 1], p[i]);
          CutMeansListedFirst(g, start, g[p[i - 1]], x);
        }
      }
      assert h.Keys == g.Keys;
      LongWalkRepeats(h, p);
    }
  }

  // The three answers, for a start stage and the transitions it is checked with: which cycle is
  // met first, the start's own or another one, depends on the order of the transitions.
  lemma CheckerVerdict(start: Name, ts: seq<Name>, g: Graph, limit: nat)
    requires limit > |g|
    ensures var answer := HasCircularDependency(start, ts, g, {}, limit);
            && (answer == Clear <==>
                !Returns(g, ts, start) && forall p :: WalkFrom(g, ts, p) ==> Distinct(p))
            && (answer == Found <==> Returns(g, ts, start) && !Sinks(g, start, ts))
            && (answer == RecursionLimit <==> Sinks(g, start, ts))
  {
    var answer := HasCircularDependency(start, ts, g, {}, limit);
    assert {} + {start} == {start};
    LimitIffSinking(start, ts, g, limit);
    SinksIffLongWalk(start, ts, g, limit);
    if answer == Clear {
      forall p | WalkFrom(g, ts, p)
        ensures p[|p| - 1] != start && Distinct(p)
      {
        ClearMeansNoReturn(start, ts, g, {start}, limit, p);
        if !Distinct(p) {
          var long := UnrollRepeat(g, ts, p, limit + 1);
          ClearMeansNoReturn(start, ts, g, {start}, limit, long);
        }
      }
    } else if answer == Found {
      FoundMeansReturn(start, ts, g, {start}, limit);
    } else {
      var p := LimitMeansLongWalk(start, ts, g, {start}, limit);
      LongWalkRepeats(g, p);
    }
  }

  // Both a way back and another cycle: the order of the transitions decides.
  lemma OrderDecides(limit: nat)
    requires limit > 2
    ensures var g: Graph := map["a" := ["a", "b"], "b" := ["b"]];
            && HasCircularDependency("a", ["a", "b"], g, {}, limit) == Found
            && HasCircularDependency("a", ["b", "a"], g, {}, limit) == RecursionLimit
  {
    var g: Graph := map["a" := ["a", "b"], "b" := ["b"]];
    NeverComesBack("a", "b", g, [], limit - 1);
    assert {} + {"a"} == {"a"};
    assert "a" != "b" && g["b"] == ["b"];
    assert ["b", "a"][0] == "b";
  }

  // A stage listing itself first never comes back to another one.
  lemma {:induction false} NeverComesBack(start: Name, b: Name, g: Graph, rest: seq<Name>, limit: nat)
    requires b != start && b in g && g[b] == [b] + rest
    ensures HasCircularDependency(start, g[b], g, {start}, limit) == RecursionLimit
  {
    assert {start} + {start} == {start};
    if limit > 0 {
      NeverComesBack(start, b, g, rest, limit - 1);
      assert g[b][0] == b;
    }
  }

  // A start stage that leads to a cycle without lying on one is never answered,
  // whatever the recursion limit.
  lemma ForeignCycleIsNeverAnswered(start: Name, ts: seq<Name>, g: Graph, limit: nat, p: seq<Name>)
    requires WalkFrom(g, ts, p) && !Distinct(p) && !Returns(g, ts, start)
    ensures HasCircularDependency(start, ts, g, {}, limit) == RecursionLimit
  {
    assert {} + {start} == {start};
    if limit > 0 {
      match TryTransitions(start, ts, g, {start}, limit)
      case Found =>
        FoundMeansReturn(start, ts, g, {start}, limit);
      case Clear =>
        var long := UnrollRepeat(g, ts, p, limit + 1);
        ClearMeansNoReturn(start, ts, g, {start}, limit, long);
      case RecursionLimit =>
    }
  }

  // A walk from a stage repeats none if what follows the first stage neither repeats nor returns.
  lemma WalkFromStageDistinct(start: Name, g: Graph, p: seq<Name>)
    requires start in g && IsWalk(g, p) && p != [] && p[0] == start
    requires !Returns(g, g[start], start) && forall q :: WalkFrom(g, g[start], q) ==> Distinct(q)
    ensures Distinct(p)
  {
    forall i, j | 0 <= i < j < |p|
      ensures p[i] != p[j]
    {
      assert Edge(g, p[0], p[1]);
      SubWalk(g, p, 1, |p|);
      SubWalk(g, p, 1, j + 1);
      assert WalkFrom(g, g[start], p[1..]) && WalkFrom(g, g[start], p[1..j + 1]);
      if i > 0 {
        assert p[1..][i - 1] == p[i] && p[1..][j - 1] == p[j];
      } else {
        assert p[1..j + 1][|p[1..j + 1]| - 1] == p[j];
      }
    }
  }

  lemma RepeatFromStage(start: Name, g: Graph, p: seq<Name>) returns (q: seq<Name>)
    requires start in g && WalkFrom(g, g[start], p) && (p[|p| - 1] == start || !Distinct(p))
    ensures IsWalk(g, q) && q != [] && q[0] == start && !Distinct(q)
  {
    q := [start] + p;
    PrependToWalk(g, start, p);
    if p[|p| - 1] == start {
      assert q[0] == q[|p|];
    } else {
      var i, j :| 0 <= i < j < |p| && p[i] == p[j];
      assert q[i + 1] == q[j + 1];
    }
  }

  // The graph a stage is checked in: its answer speaks of every cycle it can reach.
  lemma ClearIffNoReachableCycle(start: Name, g: Graph, limit: nat)
    requires limit > |g| && start in g
    ensures HasCircularDependency(start, g[start], g, {}, limit) == Clear <==>
            forall p :: IsWalk(g, p) && p != [] && p[0] == start ==> Distinct(p)
  {
    CheckerVerdict(start, g[start], g, limit);
    if HasCircularDependency(start, g[start], g, {}, limit) == Clear {
      forall p | IsWalk(g, p) && p != [] && p[0] == start
        ensures Distinct(p)
      {
        WalkFromStageDistinct(start, g, p);
      }
    } else {
      var p :| WalkFrom(g, g[start], p) && (p[|p| - 1] == start || !Distinct(p));
      var q := RepeatFromStage(start, g, p);
    }
  }
}
