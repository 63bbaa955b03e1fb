/** The flow graph end to end: which node is drawn where, for every run of events. */
module FlowPlacement {
  import opened BoxGeometry
  import opened BoxLayout
  import opened CycleContents
  import opened CycleDetection
  import CycleRefinement
  import opened Decimal
  import opened Distinctness
  import opened FlowConservation
  import opened FlowData
  import opened FlowLayout
  import OrderedMap
  import opened StableSorting
  import opened Text
  import opened Wrappers

  // The sizes the hook passes on; vertical spacing keeps its default.
  const SIZES: Options := Options(250.0, 80.0, 150.0, 120.0, 100.0, 40.0, 600.0)

  function Untracked(execs: seq<Tracked>): seq<Execution> {
    seq(|execs|, i requires 0 <= i < |execs| => Execution(execs[i].taskId, execs[i].startTime, execs[i].endTime))
  }

  function AsExecutions(m: Tracking): Executions {
    seq(|m|, k requires 0 <= k < |m| => (m[k].0, Untracked(m[k].1)))
  }

  function EventOf(e: FlowEvent): Event {
    e.event
  }

  // The cycles found among sorted events, or the fallback.
  function CyclesOf(m: Tracking, es: seq<FlowEvent>, now: int): CycleMap {
    var found := WindowsOf(m, es, now);
    if found == [] then SimpleMap(AsExecutions(m), |m|) else found
  }

  function WindowsOf(m: Tracking, es: seq<FlowEvent>, now: int): CycleMap {
    var plain := Map(EventOf, es);
    BoundaryMap(plain, Map(AnyMark, plain), AsExecutions(m), now)
  }

  // The clock is read when cycles are detected and again when nodes are laid out.
  method FlowGraph(events: seq<FlowEvent>, hasRun: bool, detected: int, drawn: int)
      returns (m: Tracking, cycles: CycleMap, nodes: seq<Placed>, edges: seq<(string, string)>)
    ensures var es := Sort(ByFlowTime, events);
            && Matches(m, es, |es|)
            && cycles == CyclesOf(m, es, detected)
            && (events == [] || !hasRun ==> nodes == [] && edges == [])
            && (events != [] && hasRun ==>
                  && nodes == Drawing(FlowNodes(m, es), cycles, drawn, SIZES)
                  && edges == if HasCompleted(es) && |FlowNodes(m, es)| == 2 then [] else Chain(FlowNodes(m, es)))
  {
    m := TrackExecutions(events);
    SortCommutes(ByFlowTime, ByTime, EventOf, events);
    cycles := IdentifyCycles(Map(EventOf, events), AsExecutions(m), detected);
    nodes, edges := [], [];
    if events != [] && hasRun {
      var drawnNodes;
      drawnNodes, edges := BuildGraph(m, Sort(ByFlowTime, events));
      var boxes;
      nodes, boxes := ApplyCycleLayout(drawnNodes, cycles, drawn, SIZES);
    }
  }

  // ---- Executions listed in a cycle ------------------------------------------------------

  ghost predicate Lists(runs: seq<Run>, agent: string, index: nat) {
    exists r :: r in runs && r.agent == agent && r.executionIndex == index
  }

  lemma NamedIffListed(c: Cycle, agent: string, index: nat)
    ensures RunNamed(c, AgentId(agent, index)) <==> Lists(c.runs, agent, index)
  {
    forall r | r in c.runs
      ensures AgentId(agent, index) == AgentId(r.agent, r.executionIndex) <==> r.agent == agent && r.executionIndex == index
    {
      AgentIdInjective(agent, index, r.agent, r.executionIndex);
    }
    if Lists(c.runs, agent, index) {
      var r :| r in c.runs && r.agent == agent && r.executionIndex == index;
      assert AgentId(agent, index) == AgentId(r.agent, r.executionIndex);
    }
  }

  lemma ListsParts(a: seq<Run>, b: seq<Run>, agent: string, index: nat)
    ensures Lists(a + b, agent, index) <==> Lists(a, agent, index) || Lists(b, agent, index)
  {
    forall r ensures r in a + b <==> r in a || r in b {
    }
  }

  lemma {:induction false} RunsOfLists(agent: string, execs: seq<Execution>, n: nat, lo: int, hi: int, other: string, i: nat)
    requires n <= |execs|
    ensures Lists(RunsOf(agent, execs, n, lo, hi), other, i) <==> other == agent && i < n && lo <= execs[i].startTime <= hi
  {
    if n > 0 {
      var e := execs[n - 1];
      RunsOfLists(agent, execs, n - 1, lo, hi, other, i);
      var last := if lo <= e.startTime <= hi then [Run(agent, e.taskId, n - 1, e.startTime)] else [];
      ListsParts(RunsOf(agent, execs, n - 1, lo, hi), last, other, i);
      if lo <= e.startTime <= hi {
        assert last[0] in last;
      }
    }
  }

  predicate StartsWithin(execs: seq<Execution>, i: nat, lo: int, hi: int) {
    i < |execs| && lo <= execs[i].startTime <= hi
  }

  lemma {:induction false} RunsWithinLists(ex: Executions, n: nat, lo: int, hi: int, agent: string, i: nat)
    requires n <= |ex|
    ensures Lists(RunsWithin(ex, n, lo, hi), agent, i)
            <==> exists k :: 0 <= k < n && ex[k].0 == agent && StartsWithin(ex[k].1, i, lo, hi)
  {
    if n > 0 {
      var execs := ex[n - 1].1;
      RunsWithinLists(ex, n - 1, lo, hi, agent, i);
      RunsOfLists(ex[n - 1].0, execs, |execs|, lo, hi, agent, i);
      ListsParts(RunsWithin(ex, n - 1, lo, hi), RunsOf(ex[n - 1].0, execs, |execs|, lo, hi), agent, i);
    }
  }

  lemma {:induction false} ExecutionsAt(m: Tracking, k: nat)
    requires OrderedMap.KeysDistinct(m) && k < |m|
    ensures ExecutionsOf(m, m[k].0) == m[k].1
  {
    if k > 0 {
      assert m[0].0 != m[k].0;
      assert m[1..][k - 1] == m[k];
      ExecutionsAt(m[1..], k - 1);
    }
  }

  lemma {:induction false} SomewhereInMap(m: Tracking, agent: string)
    requires ExecutionsOf(m, agent) != []
    ensures exists k :: 0 <= k < |m| && m[k].0 == agent && m[k].1 == ExecutionsOf(m, agent)
  {
    if m[0].0 != agent {
      SomewhereInMap(m[1..], agent);
      var k :| 0 <= k < |m[1..]| && m[1..][k].0 == agent && m[1..][k].1 == ExecutionsOf(m[1..], agent);
      assert m[k + 1] == m[1..][k];
    }
  }

  // A window lists exactly the executions that start in it, by agent and position.
  lemma WindowLists(m: Tracking, lo: int, hi: int, agent: string, i: nat)
    requires OrderedMap.KeysDistinct(m)
    ensures Lists(RunsWithin(AsExecutions(m), |m|, lo, hi), agent, i)
            <==> i < |ExecutionsOf(m, agent)| && lo <= ExecutionsOf(m, agent)[i].startTime <= hi
  {
    var ex := AsExecutions(m);
    RunsWithinLists(ex, |m|, lo, hi, agent, i);
    forall k | 0 <= k < |m| && m[k].0 == agent ensures ex[k].0 == agent && ex[k].1 == Untracked(ExecutionsOf(m, agent)) {
      ExecutionsAt(m, k);
    }
    if i < |ExecutionsOf(m, agent)| {
      SomewhereInMap(m, agent);
    }
  }

  // ---- Agent nodes -------------------------------------------------------------------------

  // How far the window of the k-th cycle reaches: to its end, or to the clock while it is open.
  function Reach(m: Tracking, es: seq<FlowEvent>, now: int, k: nat): int
    requires k < |WindowsOf(m, es, now)|
  {
    var plain := Map(EventOf, es);
    if k < |ClosedCycles(plain, Map(AnyMark, plain), |plain|)| then EndOrNow(WindowsOf(m, es, now)[k].1, now) else now
  }

  lemma WindowRuns(m: Tracking, es: seq<FlowEvent>, now: int, k: nat)
    requires k < |WindowsOf(m, es, now)|
    ensures var c := WindowsOf(m, es, now)[k].1;
            && c.runs == RunsWithin(AsExecutions(m), |m|, c.startTime, Reach(m, es, now, k))
            && c.endTime.Some?
            && (Reach(m, es, now, k) == c.endTime.value
                || (es != [] && c.endTime.value == es[|es| - 1].event.timestamp && Reach(m, es, now, k) == now))
  {
    var plain := Map(EventOf, es);
    var ms := Map(AnyMark, plain);
    var closed, open := ClosedCycles(plain, ms, |plain|), OpenCycles(plain, ms, |SLOTS|);
    CycleRefinement.BoundaryMapFilled(plain, ms, AsExecutions(m), now);
    if k >= |closed| {
      assert open[k - |closed|] in open;
      CycleRefinement.OpenCyclesEnd(plain, ms, |SLOTS|);
    }
  }

  lemma AgentNodesAreOrdinary(agent: string, index: nat)
    ensures !Special(Node(AgentId(agent, index), None)) && StartsWith(AgentId(agent, index), "agent-")
  {
    assert AgentId(agent, index)[..6] == "agent-" && AgentId(agent, index)[0] == 'a';
  }

  // The node of a start event goes to the first cycle in whose window the execution started.
  lemma AgentNodePlacement(m: Tracking, es: seq<FlowEvent>, now: int, drawn: int, s: nat)
    requires Matches(m, es, |es|) && s < |es| && IsStart(es[s])
    ensures var cycles, node, t := WindowsOf(m, es, now), NodeFor(m, es[s], s), es[FirstStart(es, s)].event.timestamp;
            && node.Some?
            && var k := Home(node.value, cycles, drawn);
               && (k < |cycles| ==> cycles[k].1.startTime <= t <= Reach(m, es, now, k))
               && (forall l :: 0 <= l < k ==> !(cycles[l].1.startTime <= t <= Reach(m, es, now, l)))
  {
    var cycles, agent, t := WindowsOf(m, es, now), es[s].agent, es[FirstStart(es, s)].event.timestamp;
    var i := NodeOfStart(m, es, s);
    var node := Node(AgentId(agent, i), None);
    AgentNodesAreOrdinary(agent, i);
    forall l | 0 <= l < |cycles|
      ensures InCycle(node, cycles[l].1, drawn) <==> cycles[l].1.startTime <= t <= Reach(m, es, now, l)
    {
      WindowRuns(m, es, now, l);
      NamedIffListed(cycles[l].1, agent, i);
      WindowLists(m, cycles[l].1.startTime, Reach(m, es, now, l), agent, i);
    }
  }

  ghost predicate PairsDistinct(es: seq<FlowEvent>) {
    forall s, t :: 0 <= s < t < |es| && IsStart(es[s]) && IsStart(es[t]) ==> es[s].agent != es[t].agent || es[s].taskId != es[t].taskId
  }

  predicate InWindow(c: Cycle, t: int) {
    c.endTime.Some? && c.startTime <= t <= c.endTime.value
  }

  // No (agent, task) pair starting twice: each agent node sits in the first cycle whose window
  // holds its own start, provided the clock of the detection had reached that start.
  lemma AgentNodeInItsWindow(m: Tracking, es: seq<FlowEvent>, now: int, drawn: int, s: nat)
    requires Matches(m, es, |es|) && Sorted(ByFlowTime, es) && PairsDistinct(es)
    requires s < |es| && IsStart(es[s]) && es[s].event.timestamp <= now
    ensures var cycles, node, t := WindowsOf(m, es, now), NodeFor(m, es[s], s), es[s].event.timestamp;
            && node.Some?
            && var k := Home(node.value, cycles, drawn);
               && (k < |cycles| ==> InWindow(cycles[k].1, t))
               && (forall l :: 0 <= l < k ==> !InWindow(cycles[l].1, t))
  {
    var cycles, t := WindowsOf(m, es, now), es[s].event.timestamp;
    AgentNodePlacement(m, es, now, drawn, s);
    assert FirstStart(es, s) == s;
    forall l | 0 <= l < |cycles| ensures InWindow(cycles[l].1, t) <==> cycles[l].1.startTime <= t <= Reach(m, es, now, l) {
      WindowReached(m, es, now, l, s);
    }
  }

  // An event the clock has reached lies in a window exactly when it lies within its reach.
  lemma WindowReached(m: Tracking, es: seq<FlowEvent>, now: int, l: nat, s: nat)
    requires l < |WindowsOf(m, es, now)| && Sorted(ByFlowTime, es) && s < |es| && es[s].event.timestamp <= now
    ensures var c, t := WindowsOf(m, es, now)[l].1, es[s].event.timestamp;
            InWindow(c, t) <==> c.startTime <= t <= Reach(m, es, now, l)
  {
    WindowEnds(m, es, now, l);
    LastIsLatest(es, s);
  }

  lemma WindowEnds(m: Tracking, es: seq<FlowEvent>, now: int, k: nat)
    requires k < |WindowsOf(m, es, now)|
    ensures var end, reach := WindowsOf(m, es, now)[k].1.endTime, Reach(m, es, now, k);
            end.Some? && (reach == end.value || (es != [] && end.value == es[|es| - 1].event.timestamp && reach == now))
  {
    WindowRuns(m, es, now, k);
  }

  lemma LastIsLatest(es: seq<FlowEvent>, s: nat)
    requires Sorted(ByFlowTime, es) && s < |es|
    ensures es[s].event.timestamp <= es[|es| - 1].event.timestamp
  {
    assert s < |es| - 1 ==> !ByFlowTime(es[|es| - 1], es[s]);
  }

  // ---- The time an agent node is sorted by ----------------------------------------------------

  predicate IsExecution(m: Tracking, r: Run, k: nat)
    requires k < |m|
  {
    m[k].0 == r.agent && r.executionIndex < |m[k].1|
    && r.timestamp == m[k].1[r.executionIndex].startTime && r.taskId == m[k].1[r.executionIndex].taskId
  }

  lemma {:induction false} RunIsOf(agent: string, execs: seq<Execution>, n: nat, lo: int, hi: int, r: Run)
    requires n <= |execs| && r in RunsOf(agent, execs, n, lo, hi)
    ensures r.agent == agent && r.executionIndex < n
    ensures r.timestamp == execs[r.executionIndex].startTime && r.taskId == execs[r.executionIndex].taskId
  {
    if r in RunsOf(agent, execs, n - 1, lo, hi) {
      RunIsOf(agent, execs, n - 1, lo, hi, r);
    }
  }

  lemma {:induction false} RunIsExecution(m: Tracking, n: nat, lo: int, hi: int, r: Run) returns (k: nat)
    requires n <= |m| && r in RunsWithin(AsExecutions(m), n, lo, hi)
    ensures k < n && IsExecution(m, r, k)
  {
    var ex := AsExecutions(m);
    if r in RunsWithin(ex, n - 1, lo, hi) {
      k := RunIsExecution(m, n - 1, lo, hi, r);
    } else {
      k := n - 1;
      RunIsOf(ex[k].0, ex[k].1, |ex[k].1|, lo, hi, r);
    }
  }

  lemma {:induction false} FindRunFinds(runs: seq<Run>, agent: string, index: nat)
    ensures FindRun(runs, agent, index).None? <==> !Lists(runs, agent, index)
    ensures var r := FindRun(runs, agent, index);
            r.Some? ==> r.value in runs && r.value.agent == agent && r.value.executionIndex == index
  {
    if runs != [] {
      FindRunFinds(runs[1..], agent, index);
      assert runs == [runs[0]] + runs[1..];
      ListsParts([runs[0]], runs[1..], agent, index);
      assert runs[0] in [runs[0]];
    }
  }

  // Inside a cycle an agent node counts with the start of the execution it shows, if its agent's
  // name is one line. The identifier of any other cannot be read back, and the node counts as time 0.
  lemma AgentNodeTime(m: Tracking, es: seq<FlowEvent>, now: int, drawn: int, l: nat, agent: string, i: nat)
    requires Matches(m, es, |es|) && l < |WindowsOf(m, es, now)|
    requires InCycle(Node(AgentId(agent, i), None), WindowsOf(m, es, now)[l].1, drawn)
    ensures i < |ExecutionsOf(m, agent)|
    ensures TimeOf(WindowsOf(m, es, now)[l].1, Node(AgentId(agent, i), None))
            == if agent != "" && '\n' !in agent && '\r' !in agent && '\U{2028}' !in agent && '\U{2029}' !in agent
               then ExecutionsOf(m, agent)[i].startTime else 0
  {
    var c := WindowsOf(m, es, now)[l].1;
    AgentNodesAreOrdinary(agent, i);
    WindowRuns(m, es, now, l);
    NamedIffListed(c, agent, i);
    WindowLists(m, c.startTime, Reach(m, es, now, l), agent, i);
    AgentIdRoundTrip(agent, i);
    OneLineIff(agent);
    if OneLine(agent) {
      FindRunFinds(c.runs, agent, i);
      var r := FindRun(c.runs, agent, i).value;
      var k := RunIsExecution(m, |m|, c.startTime, Reach(m, es, now, l), r);
      ExecutionsAt(m, k);
    }
  }

  // ---- The fallback --------------------------------------------------------------------------

  lemma SimpleRunsList(agent: string, execs: seq<Execution>, other: string, i: nat)
    requires |execs| > 1
    ensures Lists(SimpleEntry(agent, execs)[0].1.runs, other, i) <==> other == agent && i < |execs|
  {
    var runs := SimpleEntry(agent, execs)[0].1.runs;
    if other == agent && i < |execs| {
      assert runs[i] in runs;
    }
  }

  // A fallback cycle holds the nodes of the agent it is named after.
  lemma InFallback(m: Tracking, a: nat, agent: string, i: nat, drawn: int)
    requires OrderedMap.KeysDistinct(m) && a < |m| && |m[a].1| > 1 && i < |ExecutionsOf(m, agent)|
    ensures var entry := FallbackOf(AsExecutions(m), a);
            && (InCycle(Node(AgentId(agent, i), None), entry.1, drawn) <==> entry.0 == agent + "_cycle")
            && (entry.0 == agent + "_cycle" ==> |ExecutionsOf(m, agent)| > 1)
  {
    AgentNodesAreOrdinary(agent, i);
    NamedIffListed(FallbackOf(AsExecutions(m), a).1, agent, i);
    SimpleRunsList(m[a].0, Untracked(m[a].1), agent, i);
    ExecutionsAt(m, a);
    SuffixesDiffer(m[a].0, agent);
  }

  // Without boundaries an agent's nodes share a box exactly when the agent started more than once.
  lemma FallbackPlacement(m: Tracking, es: seq<FlowEvent>, now: int, drawn: int, s: nat)
    requires Matches(m, es, |es|) && s < |es| && IsStart(es[s]) && WindowsOf(m, es, now) == []
    ensures var cycles, node := CyclesOf(m, es, now), NodeFor(m, es[s], s);
            && node.Some?
            && var k := Home(node.value, cycles, drawn);
               && (k < |cycles| <==> |Starts(es, |es|, es[s].agent)| > 1)
               && (k < |cycles| ==>
                     var execs := ExecutionsOf(m, es[s].agent);
                     && cycles[k].0 == es[s].agent + "_cycle" && execs != []
                     && cycles[k].1.startTime == execs[0].startTime && cycles[k].1.endTime == execs[|execs| - 1].endTime)
  {
    var cycles, agent := CyclesOf(m, es, now), es[s].agent;
    var i := NodeOfStart(m, es, s);
    AgentNodesAreOrdinary(agent, i);
    assert ListMatches(ExecutionsOf(m, agent), es, |es|, agent);
    HomeInFallback(m, cycles, agent, i, drawn);
    var k := Home(NodeFor(m, es[s], s).value, cycles, drawn);
    if k < |cycles| {
      TimesInFallback(m, cycles, agent, k);
    }
  }

  // The fallback cycle named after an agent lasts from its first start to its last end.
  lemma TimesInFallback(m: Tracking, cycles: CycleMap, agent: string, k: nat)
    requires OrderedMap.KeysDistinct(m) && cycles == SimpleMap(AsExecutions(m), |m|)
    requires k < |cycles| && cycles[k].0 == agent + "_cycle"
    ensures var execs := ExecutionsOf(m, agent);
            && execs != []
            && cycles[k].1.startTime == execs[0].startTime && cycles[k].1.endTime == execs[|execs| - 1].endTime
  {
    var ex := AsExecutions(m);
    SimpleIsFallback(ex, |ex|);
    var a := FallbackAgent(ex, |ex|, k);
    SuffixesDiffer(m[a].0, agent);
    ExecutionsAt(m, a);
  }

  lemma HomeInFallback(m: Tracking, cycles: CycleMap, agent: string, i: nat, drawn: int)
    requires OrderedMap.KeysDistinct(m) && cycles == SimpleMap(AsExecutions(m), |m|) && i < |ExecutionsOf(m, agent)|
    ensures var k := Home(Node(AgentId(agent, i), None), cycles, drawn);
            && (k < |cycles| <==> |ExecutionsOf(m, agent)| > 1)
            && (k < |cycles| ==> cycles[k].0 == agent + "_cycle")
  {
    var node := Node(AgentId(agent, i), None);
    AgentNodesAreOrdinary(agent, i);
    var ex, k := AsExecutions(m), Home(node, cycles, drawn);
    SimpleIsFallback(ex, |ex|);
    if k < |cycles| {
      var a := FallbackAgent(ex, |ex|, k);
      InFallback(m, a, agent, i, drawn);
    }
    if |ExecutionsOf(m, agent)| > 1 {
      SomewhereInMap(m, agent);
      var b :| 0 <= b < |m| && m[b].0 == agent && m[b].1 == ExecutionsOf(m, agent);
      InFallback(m, b, agent, i, drawn);
      FallbackListed(ex, |ex|, b);
      var l :| 0 <= l < |cycles| && cycles[l] == FallbackOf(ex, b);
      assert InCycle(node, cycles[l].1, drawn);
    }
  }

  // ---- Identifiers ------------------------------------------------------------------------------

  function NodeId(x: Node): string {
    x.id
  }

  ghost predicate PairsDistinctBelow(es: seq<FlowEvent>, n: nat)
    requires n <= |es|
  {
    forall t :: 0 <= t < n && IsStart(es[t]) ==> FirstStart(es, t) == t
  }

  lemma {:induction false} DrawnNodes(m: Tracking, es: seq<FlowEvent>, n: nat, x: Node)
    requires n <= |es|
    ensures x in NodesFor(m, es, n) <==> x == CREATED || exists t :: 0 <= t < n && NodeFor(m, es[t], t) == Some(x)
  {
    if n > 0 {
      DrawnNodes(m, es, n - 1, x);
    }
  }

  // Two events draw the same identifier exactly when they start the same task of the same agent.
  lemma SameIdIffSamePair(m: Tracking, es: seq<FlowEvent>, s: nat, t: nat)
    requires Matches(m, es, |es|) && s < t < |es| && NodeFor(m, es[s], s).Some? && NodeFor(m, es[t], t).Some?
    ensures NodeFor(m, es[s], s).value.id == NodeFor(m, es[t], t).value.id
            <==> IsStart(es[s]) && IsStart(es[t]) && es[s].agent == es[t].agent && es[s].taskId == es[t].taskId
  {
    DrawnIds(m, es[s], s);
    DrawnIds(m, es[t], t);
    if es[s].event.category == "decision" && es[t].event.category == "decision" {
      assert !IsStart(es[s]) by {
        if IsStart(es[s]) {
          NotADecision(es[s]);
        }
      }
      if NodeFor(m, es[s], s).value.id == NodeFor(m, es[t], t).value.id {
        PrefixedInjective("decision-", s, t);
      }
    } else if es[s].event.category != "decision" && es[t].event.category != "decision" {
      var i := NodeOfStart(m, es, s);
      var j := NodeOfStart(m, es, t);
      AgentIdInjective(es[s].agent, i, es[t].agent, j);
    } else if IsStart(es[s]) {
      NotADecision(es[s]);
    } else if IsStart(es[t]) {
      NotADecision(es[t]);
    }
  }

  lemma {:induction false} IdsOnceBelow(m: Tracking, es: seq<FlowEvent>, n: nat)
    requires Matches(m, es, |es|) && n <= |es|
    ensures DistinctBy(NodesFor(m, es, n), NodeId) <==> PairsDistinctBelow(es, n)
  {
    if n > 0 {
      IdsOnceBelow(m, es, n - 1);
      OneMoreDrawn(m, es, n - 1);
      OneMorePair(es, n - 1);
    } else {
      assert NodesFor(m, es, 0) == [CREATED];
    }
  }

  lemma OneMorePair(es: seq<FlowEvent>, n: nat)
    requires n < |es|
    ensures PairsDistinctBelow(es, n + 1) <==> PairsDistinctBelow(es, n) && (IsStart(es[n]) ==> FirstStart(es, n) == n)
  {
  }

  lemma OneMoreDrawn(m: Tracking, es: seq<FlowEvent>, n: nat)
    requires Matches(m, es, |es|) && n < |es|
    ensures DistinctBy(NodesFor(m, es, n + 1), NodeId) <==> DistinctBy(NodesFor(m, es, n), NodeId) && (IsStart(es[n]) ==> FirstStart(es, n) == n)
  {
    var front, node := NodesFor(m, es, n), NodeFor(m, es[n], n);
    if node.Some? {
      NewIdIff(m, es, n);
      OneMoreId(front, node.value);
      assert NodesFor(m, es, n + 1) == front + [node.value];
    } else {
      assert NodesFor(m, es, n + 1) == front;
      assert !IsStart(es[n]) by {
        if IsStart(es[n]) {
          var i := NodeOfStart(m, es, n);
        }
      }
    }
  }

  lemma OneMoreId(front: seq<Node>, x: Node)
    ensures DistinctBy(front + [x], NodeId) <==> DistinctBy(front, NodeId) && forall y :: y in front ==> y.id != x.id
  {
    var all := front + [x];
    if DistinctBy(all, NodeId) {
      forall i, j | 0 <= i < j < |front| ensures front[i].id != front[j].id {
        assert all[i].id != all[j].id;
      }
      forall y | y in front ensures y.id != x.id {
        var i :| 0 <= i < |front| && front[i] == y;
        assert all[i].id != all[|front|].id;
      }
    }
  }

  // A drawn identifier is new exactly when the event is not a repeated start.
  lemma NewIdIff(m: Tracking, es: seq<FlowEvent>, n: nat)
    requires Matches(m, es, |es|) && n < |es| && NodeFor(m, es[n], n).Some?
    ensures (forall y :: y in NodesFor(m, es, n) ==> y.id != NodeFor(m, es[n], n).value.id)
            <==> (IsStart(es[n]) ==> FirstStart(es, n) == n)
  {
    var x := NodeFor(m, es[n], n).value;
    DrawnIds(m, es[n], n);
    forall y | y in NodesFor(m, es, n) ensures y == CREATED || exists t :: 0 <= t < n && NodeFor(m, es[t], t) == Some(y) {
      DrawnNodes(m, es, n, y);
    }
    if IsStart(es[n]) && FirstStart(es, n) != n {
      var f := FirstStart(es, n);
      var i := NodeOfStart(m, es, f);
      var y := NodeFor(m, es[f], f).value;
      SameIdIffSamePair(m, es, f, n);
      DrawnNodes(m, es, n, y);
    } else {
      forall y | y in NodesFor(m, es, n) ensures y.id != x.id {
        if y != CREATED {
          var t :| 0 <= t < n && NodeFor(m, es[t], t) == Some(y);
          SameIdIffSamePair(m, es, t, n);
        }
      }
    }
  }

  // Node identifiers are distinct exactly when no agent starts the same task twice.
  lemma NodeIdsDistinctIff(m: Tracking, es: seq<FlowEvent>)
    requires Matches(m, es, |es|)
    ensures DistinctBy(FlowNodes(m, es), NodeId) <==> PairsDistinct(es)
  {
    IdsOnceBelow(m, es, |es|);
    forall x | x in NodesFor(m, es, |es|) ensures x.id != "completed" {
      NotCompleted(m, es, |es|, x);
    }
    OneMoreId(NodesFor(m, es, |es|), COMPLETED);
    PairsDistinctIff(es);
    assert FlowNodes(m, es) == NodesFor(m, es, |es|) || FlowNodes(m, es) == NodesFor(m, es, |es|) + [COMPLETED];
  }

  lemma PairsDistinctIff(es: seq<FlowEvent>)
    ensures PairsDistinct(es) <==> PairsDistinctBelow(es, |es|)
  {
    if PairsDistinctBelow(es, |es|) {
      forall s, t | 0 <= s < t < |es| && IsStart(es[s]) && IsStart(es[t])
        ensures es[s].agent != es[t].agent || es[s].taskId != es[t].taskId
      {
        assert FirstStart(es, t) == t;
      }
    }
    if PairsDistinct(es) {
      forall t | 0 <= t < |es| && IsStart(es[t]) ensures FirstStart(es, t) == t {
        var f := FirstStart(es, t);
      }
    }
  }

  lemma NotCompleted(m: Tracking, es: seq<FlowEvent>, n: nat, x: Node)
    requires n <= |es| && x in NodesFor(m, es, n)
    ensures x.id != "completed" && (x.id == "created" <==> x == CREATED)
  {
    DrawnNodes(m, es, n, x);
    assert |"created"| == 7 && |"completed"| == 9;
    if x != CREATED {
      var t :| 0 <= t < n && NodeFor(m, es[t], t) == Some(x);
      DrawnIds(m, es[t], t);
    }
  }

  // ---- The drawing --------------------------------------------------------------------------------

  lemma {:induction false} CreatedOnce(m: Tracking, es: seq<FlowEvent>, n: nat)
    requires n <= |es|
    ensures AtMostOne(NodesFor(m, es, n), "created")
  {
    if n > 0 {
      CreatedOnce(m, es, n - 1);
      if NodeFor(m, es[n - 1], n - 1).Some? {
        DrawnIds(m, es[n - 1], n - 1);
      }
    }
  }

  lemma EndsOnce(m: Tracking, es: seq<FlowEvent>)
    ensures AtMostOne(FlowNodes(m, es), "created") && AtMostOne(FlowNodes(m, es), "completed")
  {
    var nodes, front := FlowNodes(m, es), NodesFor(m, es, |es|);
    CreatedOnce(m, es, |es|);
    forall i | 0 <= i < |front| ensures front[i].id != "completed" {
      NotCompleted(m, es, |es|, front[i]);
    }
    assert |"created"| == 7 && |"completed"| == 9;
  }

  // Whatever the events, the drawing shows every node as often as it was built, and its roots do
  // not overlap.
  lemma DrawingIsComplete(m: Tracking, es: seq<FlowEvent>, cycles: CycleMap, drawn: int)
    ensures var nodes := FlowNodes(m, es);
            && multiset(Leaves(Drawing(nodes, cycles, drawn, SIZES))) == multiset(nodes)
            && RootsApart(Drawing(nodes, cycles, drawn, SIZES), SIZES)
  {
    var nodes := FlowNodes(m, es);
    EndsOnce(m, es);
    ConservedIff(nodes, cycles, drawn, SIZES);
    var all := Drawing(nodes, cycles, drawn, SIZES);
    forall i, j | 0 <= i < j < |all| && !IsChild(all[i]) && !IsChild(all[j]) ensures VerticallyDisjoint(all[i], all[j], SIZES) {
      RootsDisjoint(SIZES, Column(nodes, cycles, drawn), Ids(cycles), Rows(nodes, cycles, drawn), Only(nodes, "completed"), i, j);
    }
  }

  // With the sizes the hook passes, neighbours in a box stand 400 apart, a box is 160 high, and the
  // next root stands 120 below a node and 380 below a box.
  lemma DrawnDistances(column: seq<Node>, ids: seq<string>, rows: seq<seq<Node>>, last: seq<Node>, i: nat)
    requires |rows| == |ids|
    ensures InRow(SIZES, "", CREATED, i + 1).x == InRow(SIZES, "", CREATED, i).x + 400.0
    ensures i < |Stack(SIZES, column, ids, rows, last)| ==>
      var s := Stack(SIZES, column, ids, rows, last);
      && s[0].y == 100.0 && s[i].x + Width(s[i], SIZES) / 2.0 == 600.0
      && (i + 1 < |s| ==> s[i + 1].y == s[i].y + if s[i].Box? then 380.0 else 120.0)
  {
    var s := Stack(SIZES, column, ids, rows, last);
    if i < |s| {
      StackSteps(SIZES, column, ids, rows, last, i);
      StackIsOne(SIZES, column, ids, rows, last);
    }
  }

  // A start event's node is drawn, and wherever it is drawn its parent is the first listed cycle in
  // whose window the execution started; it has none if there is no such cycle.
  lemma AgentNodeParent(m: Tracking, es: seq<FlowEvent>, now: int, drawn: int, s: nat, i: nat) returns (k: nat)
    requires Matches(m, es, |es|) && s < |es| && IsStart(es[s]) && WindowsOf(m, es, now) != []
    requires i < |Drawing(FlowNodes(m, es), CyclesOf(m, es, now), drawn, SIZES)|
    requires var p := Drawing(FlowNodes(m, es), CyclesOf(m, es, now), drawn, SIZES)[i]; p.Leaf? && Some(p.node) == NodeFor(m, es[s], s)
    ensures var cycles, t := WindowsOf(m, es, now), es[FirstStart(es, s)].event.timestamp;
            var p := Drawing(FlowNodes(m, es), CyclesOf(m, es, now), drawn, SIZES)[i];
            && p.Leaf? && p.parent == (if k < |cycles| then Some(cycles[k].0) else None)
            && (k < |cycles| ==> cycles[k].1.startTime <= t <= Reach(m, es, now, k))
            && (forall l :: 0 <= l < k && l < |cycles| ==> !(cycles[l].1.startTime <= t <= Reach(m, es, now, l)))
            && k <= |cycles|
  {
    var cycles := WindowsOf(m, es, now);
    k := Home(NodeFor(m, es[s], s).value, cycles, drawn);
    AgentNodePlacement(m, es, now, drawn, s);
    ParentIsHome(FlowNodes(m, es), cycles, drawn, SIZES, i);
  }

  lemma AgentNodeIsDrawn(m: Tracking, es: seq<FlowEvent>, cycles: CycleMap, drawn: int, s: nat) returns (i: nat)
    requires Matches(m, es, |es|) && s < |es| && IsStart(es[s])
    ensures var all := Drawing(FlowNodes(m, es), cycles, drawn, SIZES);
            i < |all| && all[i].Leaf? && Some(all[i].node) == NodeFor(m, es[s], s)
  {
    var e := NodeOfStart(m, es, s);
    var x, all := NodeFor(m, es[s], s).value, Drawing(FlowNodes(m, es), cycles, drawn, SIZES);
    DrawnNodes(m, es, |es|, x);
    DrawingIsComplete(m, es, cycles, drawn);
    assert x in FlowNodes(m, es);
    assert multiset(FlowNodes(m, es))[x] > 0;
    assert x in Leaves(all);
    i := LeafAt(all, x);
  }

  lemma {:induction false} LeafAt(ps: seq<Placed>, x: Node) returns (i: nat)
    requires x in Leaves(ps)
    ensures i < |ps| && ps[i].Leaf? && ps[i].node == x
  {
    var n := |ps| - 1;
    if x in Leaves(ps[..n]) {
      i := LeafAt(ps[..n], x);
    } else {
      i := n;
    }
  }
}
