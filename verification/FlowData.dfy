/**
 * From events to a drawn graph: executions are tracked per agent, cycles are detected over
 * the same events, nodes are chained in event order and handed to the layout.
 */
module FlowData {
  import opened BoxLayout
  import opened CycleDetection
  import opened Decimal
  import opened FlowLayout
  import OrderedMap
  import opened StableSorting
  import opened Text
  import opened Wrappers

  // An event with the agent and the task it names (the empty string if it names none).
  datatype FlowEvent = FlowEvent(event: Event, agent: string, taskId: string)

  datatype Status = Running | Completed | Failed

  datatype Tracked = Tracked(taskId: string, startTime: int, endTime: Option<int>, status: Status, isActive: bool)

  type Tracking = seq<(string, seq<Tracked>)>

  predicate ByFlowTime(a: FlowEvent, b: FlowEvent) {
    ByTime(a.event, b.event)
  }

  predicate IsStart(e: FlowEvent) {
    e.event.category == "agent_lifecycle" && (e.event.kind == "AgentInitialized" || e.event.kind == "agent_initialized")
  }

  predicate IsSuccess(kind: string) {
    kind == "AgentCompleted" || kind == "agent_completed"
  }

  predicate IsEnd(kind: string) {
    IsSuccess(kind) || kind == "AgentFailed" || kind == "agent_failed"
  }

  // An event that ends the execution of `agent` for `task`.
  predicate Ends(e: FlowEvent, agent: string, task: string) {
    e.event.category == "agent_lifecycle" && IsEnd(e.event.kind) && e.agent == agent && e.taskId == task
  }

  lemma StartsDoNotEnd(e: FlowEvent)
    requires IsStart(e)
    ensures !IsEnd(e.event.kind)
  {
    assert |"AgentInitialized"| == 16 && |"agent_initialized"| == 17;
    assert |"AgentCompleted"| == 14 && |"agent_completed"| == 15 && |"AgentFailed"| == 11 && |"agent_failed"| == 12;
  }

  // Whether any event, of whatever category and agent, ends the task.
  predicate EverEnds(es: seq<FlowEvent>, task: string) {
    exists k :: 0 <= k < |es| && es[k].taskId == task && IsEnd(es[k].event.kind)
  }

  // ---- What tracking should yield ---------------------------------------------------

  // Where the executions of an agent start among the first n events.
  function Starts(es: seq<FlowEvent>, n: nat, agent: string): seq<nat>
    requires n <= |es|
  {
    if n == 0 then []
    else Starts(es, n - 1, agent) + (if IsStart(es[n - 1]) && es[n - 1].agent == agent then [n - 1] else [])
  }

  ghost predicate AreStarts(ss: seq<nat>, es: seq<FlowEvent>, n: nat, agent: string)
    requires n <= |es|
  {
    (forall i :: 0 <= i < |ss| ==> ss[i] < n && IsStart(es[ss[i]]) && es[ss[i]].agent == agent) &&
    (forall i, j :: 0 <= i < j < |ss| ==> ss[i] < ss[j])
  }

  lemma OneMoreStart(ss: seq<nat>, es: seq<FlowEvent>, n: nat, agent: string)
    requires n < |es| && AreStarts(ss, es, n, agent)
    ensures AreStarts(ss, es, n + 1, agent)
    ensures IsStart(es[n]) && es[n].agent == agent ==> AreStarts(ss + [n], es, n + 1, agent)
  {
  }

  lemma {:induction false} StartsAscend(es: seq<FlowEvent>, n: nat, agent: string)
    requires n <= |es|
    ensures AreStarts(Starts(es, n, agent), es, n, agent)
  {
    if n > 0 {
      var front := Starts(es, n - 1, agent);
      StartsAscend(es, n - 1, agent);
      OneMoreStart(front, es, n - 1, agent);
      assert Starts(es, n, agent) == front || Starts(es, n, agent) == front + [n - 1];
    }
  }

  lemma {:induction false} StartListed(es: seq<FlowEvent>, n: nat, s: nat)
    requires s < n <= |es| && IsStart(es[s])
    ensures s in Starts(es, n, es[s].agent)
  {
    if s < n - 1 {
      StartListed(es, n - 1, s);
    }
  }

  // The last event before n that ends what started at s.
  function LastEnd(es: seq<FlowEvent>, n: nat, s: nat): (k: Option<nat>)
    requires s < n <= |es|
    ensures k.Some? ==> s < k.value < n && Ends(es[k.value], es[s].agent, es[s].taskId)
  {
    if n == s + 1 then None
    else if Ends(es[n - 1], es[s].agent, es[s].taskId) then Some(n - 1)
    else LastEnd(es, n - 1, s)
  }

  // An execution as it is recorded when it starts.
  function Fresh(es: seq<FlowEvent>, e: FlowEvent): Tracked {
    Tracked(e.taskId, e.event.timestamp, None, Running, !EverEnds(es, e.taskId))
  }

  function EndedBy(x: Tracked, e: FlowEvent): Tracked {
    x.(endTime := Some(e.event.timestamp), status := if IsSuccess(e.event.kind) then Completed else Failed, isActive := false)
  }

  // An agent's first execution of a task is ended by the last event that ends that task;
  // repeated executions of the same task are never ended.
  function ExecutionAfter(es: seq<FlowEvent>, n: nat, s: nat, repeated: bool): Tracked
    requires s < n <= |es|
  {
    var end := LastEnd(es, n, s);
    if repeated || end.None? then Fresh(es, es[s]) else EndedBy(Fresh(es, es[s]), es[end.value])
  }

  predicate Repeated(es: seq<FlowEvent>, ss: seq<nat>, i: nat)
    requires i < |ss| && forall j :: 0 <= j < |ss| ==> ss[j] < |es|
  {
    exists j :: 0 <= j < i && es[ss[j]].taskId == es[ss[i]].taskId
  }

  ghost predicate ListMatches(execs: seq<Tracked>, es: seq<FlowEvent>, n: nat, agent: string)
    requires n <= |es|
  {
    var ss := Starts(es, n, agent);
    |execs| == |ss| && forall i :: 0 <= i < |ss| ==>
      ss[i] < n && (forall j :: 0 <= j < |ss| ==> ss[j] < |es|) && execs[i] == ExecutionAfter(es, n, ss[i], Repeated(es, ss, i))
  }

  function ExecutionsOf(m: Tracking, agent: string): seq<Tracked> {
    if m == [] then [] else if m[0].0 == agent then m[0].1 else ExecutionsOf(m[1..], agent)
  }

  ghost predicate Matches(m: Tracking, es: seq<FlowEvent>, n: nat)
    requires n <= |es|
  {
    OrderedMap.KeysDistinct(m) && forall agent :: ListMatches(ExecutionsOf(m, agent), es, n, agent)
  }

  // ---- Tracking ------------------------------------------------------------------------

  lemma {:induction false} SetOne(m: Tracking, agent: string, execs: seq<Tracked>, other: string)
    ensures ExecutionsOf(OrderedMap.Set(m, agent, execs), other) == if other == agent then execs else ExecutionsOf(m, other)
  {
    if m != [] && m[0].0 != agent {
      SetOne(m[1..], agent, execs, other);
    }
  }

  lemma SetKeepsKeys(m: Tracking, agent: string, execs: seq<Tracked>)
    requires OrderedMap.KeysDistinct(m)
    ensures OrderedMap.KeysDistinct(OrderedMap.Set(m, agent, execs))
  {
    var r := OrderedMap.Set(m, agent, execs);
    if !OrderedMap.Has(m, agent) {
      assert r == m + [(agent, execs)];
    }
  }

  function FirstOf(execs: seq<Tracked>, task: string): (k: nat)
    ensures k <= |execs| && (k < |execs| ==> execs[k].taskId == task)
    ensures forall j :: 0 <= j < k ==> execs[j].taskId != task
  {
    if execs == [] || execs[0].taskId == task then 0 else 1 + FirstOf(execs[1..], task)
  }

  // What one event does to the list of its agent.
  function ListAfter(execs: seq<Tracked>, es: seq<FlowEvent>, e: FlowEvent): seq<Tracked> {
    if IsStart(e) then execs + [Fresh(es, e)]
    else
      var k := FirstOf(execs, e.taskId);
      if Ends(e, e.agent, e.taskId) && k < |execs| then execs[k := EndedBy(execs[k], e)] else execs
  }

  lemma OtherAgents(execs: seq<Tracked>, es: seq<FlowEvent>, n: nat, agent: string)
    requires n < |es| && es[n].agent != agent && ListMatches(execs, es, n, agent)
    ensures ListMatches(execs, es, n + 1, agent)
  {
    StartsAscend(es, n, agent);
    assert Starts(es, n + 1, agent) == Starts(es, n, agent);
  }

  lemma ListStarts(execs: seq<Tracked>, es: seq<FlowEvent>, n: nat)
    requires n < |es| && IsStart(es[n]) && ListMatches(execs, es, n, es[n].agent)
    ensures ListMatches(ListAfter(execs, es, es[n]), es, n + 1, es[n].agent)
  {
    var agent := es[n].agent;
    var ss, tt := Starts(es, n, agent), Starts(es, n + 1, agent);
    StartsAscend(es, n, agent);
    StartsDoNotEnd(es[n]);
    assert tt == ss + [n];
    forall i | 0 <= i < |ss| ensures Repeated(es, tt, i) == Repeated(es, ss, i) && LastEnd(es, n + 1, ss[i]) == LastEnd(es, n, ss[i]) {
      assert forall j :: 0 <= j <= i ==> tt[j] == ss[j];
    }
  }

  lemma RepeatedUnlessFirst(execs: seq<Tracked>, es: seq<FlowEvent>, ss: seq<nat>, i: nat)
    requires i < |ss| == |execs| && forall j :: 0 <= j < |ss| ==> ss[j] < |es| && execs[j].taskId == es[ss[j]].taskId
    ensures Repeated(es, ss, i) <==> i != FirstOf(execs, execs[i].taskId)
  {
    var k := FirstOf(execs, execs[i].taskId);
    assert k <= i;
    assert k < |execs| && execs[k].taskId == es[ss[k]].taskId;
    if Repeated(es, ss, i) {
      var j :| 0 <= j < i && es[ss[j]].taskId == es[ss[i]].taskId;
      assert execs[j].taskId == es[ss[j]].taskId;
    }
  }

  lemma ListEnds(execs: seq<Tracked>, es: seq<FlowEvent>, n: nat)
    requires n < |es| && !IsStart(es[n]) && ListMatches(execs, es, n, es[n].agent)
    ensures ListMatches(ListAfter(execs, es, es[n]), es, n + 1, es[n].agent)
  {
    var agent := es[n].agent;
    var ss := Starts(es, n, agent);
    StartsAscend(es, n, agent);
    assert Starts(es, n + 1, agent) == ss;
    forall i | 0 <= i < |ss|
      ensures ListAfter(execs, es, es[n])[i] == ExecutionAfter(es, n + 1, ss[i], Repeated(es, ss, i))
    {
      EndOne(execs, es, n, i);
    }
  }

  lemma EndOne(execs: seq<Tracked>, es: seq<FlowEvent>, n: nat, i: nat)
    requires n < |es| && !IsStart(es[n]) && ListMatches(execs, es, n, es[n].agent)
    requires i < |execs|
    ensures var ss := Starts(es, n, es[n].agent);
            && |ss| == |execs| && ss[i] < n && (forall j :: 0 <= j < |ss| ==> ss[j] < |es|)
            && ListAfter(execs, es, es[n])[i] == ExecutionAfter(es, n + 1, ss[i], Repeated(es, ss, i))
  {
    var agent := es[n].agent;
    var ss, k := Starts(es, n, agent), FirstOf(execs, es[n].taskId);
    StartsAscend(es, n, agent);
    assert forall j :: 0 <= j < |ss| ==> execs[j].taskId == es[ss[j]].taskId;
    RepeatedUnlessFirst(execs, es, ss, i);
    assert execs[i] == ExecutionAfter(es, n, ss[i], Repeated(es, ss, i));
    assert es[ss[i]].agent == agent;
    if Ends(es[n], agent, es[n].taskId) && i == k {
      assert LastEnd(es, n + 1, ss[i]) == Some(n);
      assert ListAfter(execs, es, es[n])[i] == EndedBy(execs[i], es[n]);
    } else {
      assert ListAfter(execs, es, es[n])[i] == execs[i];
      assert Repeated(es, ss, i) || LastEnd(es, n + 1, ss[i]) == LastEnd(es, n, ss[i]);
    }
  }

  method TrackExecutions(events: seq<FlowEvent>) returns (m: Tracking)
    ensures var es := Sort(ByFlowTime, events); Matches(m, es, |es|)
  {
    var es := Sort(ByFlowTime, events);
    m := [];
    for n := 0 to |es|
      invariant Matches(m, es, n)
    {
      m := TrackOne(m, es, n);
    }
  }

  method TrackOne(m: Tracking, es: seq<FlowEvent>, n: nat) returns (after: Tracking)
    requires n < |es| && Matches(m, es, n)
    ensures Matches(after, es, n + 1)
  {
    var e := es[n];
    var execs := ExecutionsOf(m, e.agent);
    var changed := ListAfter(execs, es, e);
    after := if changed != execs then OrderedMap.Set(m, e.agent, changed) else m;
    if IsStart(e) {
      ListStarts(execs, es, n);
    } else {
      ListEnds(execs, es, n);
    }
    SetKeepsKeys(m, e.agent, changed);
    forall agent ensures ListMatches(ExecutionsOf(after, agent), es, n + 1, agent) {
      SetOne(m, e.agent, changed, agent);
      if agent != e.agent {
        OtherAgents(ExecutionsOf(m, agent), es, n, agent);
      }
    }
  }

  // An execution is shown as active exactly when no event ends its task.
  lemma ActiveIffNeverEnded(m: Tracking, es: seq<FlowEvent>, agent: string, i: nat)
    requires Matches(m, es, |es|) && i < |ExecutionsOf(m, agent)|
    ensures var x := ExecutionsOf(m, agent)[i];
            && (x.isActive <==> !EverEnds(es, x.taskId))
            && (x.status != Running <==> x.endTime.Some?) && (x.status != Running ==> !x.isActive)
  {
    assert ListMatches(ExecutionsOf(m, agent), es, |es|, agent);
    var s := Starts(es, |es|, agent)[i];
    var end := LastEnd(es, |es|, s);
    if end.Some? {
      assert EverEnds(es, es[s].taskId);
    }
  }

  // ---- What is tracked, by the names of the events -------------------------------------

  ghost predicate Initialises(e: FlowEvent, agent: string) {
    && e.agent == agent && e.event.category == "agent_lifecycle"
    && (e.event.kind == "AgentInitialized" || e.event.kind == "agent_initialized")
  }

  ghost predicate Succeeds(e: FlowEvent) {
    e.event.kind == "AgentCompleted" || e.event.kind == "agent_completed"
  }

  ghost predicate Fails(e: FlowEvent) {
    e.event.kind == "AgentFailed" || e.event.kind == "agent_failed"
  }

  ghost predicate Finishes(e: FlowEvent, agent: string, task: string) {
    e.agent == agent && e.taskId == task && e.event.category == "agent_lifecycle" && (Succeeds(e) || Fails(e))
  }

  // The starts of an agent are its initialisations, in order.
  lemma StartsAreInitialisations(es: seq<FlowEvent>, agent: string)
    ensures var ss := Starts(es, |es|, agent);
      && (forall k: nat :: k in ss <==> k < |es| && Initialises(es[k], agent))
      && (forall i, j :: 0 <= i < j < |ss| ==> ss[i] < ss[j])
  {
    StartsAscend(es, |es|, agent);
    forall k: nat | k < |es| && Initialises(es[k], agent) ensures k in Starts(es, |es|, agent) {
      StartListed(es, |es|, k);
    }
  }

  lemma {:induction false} LastEndIsLast(es: seq<FlowEvent>, n: nat, s: nat)
    requires s < n <= |es|
    ensures var last := LastEnd(es, n, s);
      forall k :: (if last.Some? then last.value else s) < k < n ==> !Ends(es[k], es[s].agent, es[s].taskId)
  {
    if n > s + 1 {
      LastEndIsLast(es, n - 1, s);
    }
  }

  // The end that counts for an execution begun at s: the last event after it that finishes it.
  ghost predicate IsItsEnd(es: seq<FlowEvent>, s: nat, k: nat)
    requires s < |es|
  {
    && s < k < |es| && Finishes(es[k], es[s].agent, es[s].taskId)
    && forall l :: k < l < |es| ==> !Finishes(es[l], es[s].agent, es[s].taskId)
  }

  lemma LastEndIff(es: seq<FlowEvent>, s: nat)
    requires s < |es|
    ensures var last := LastEnd(es, |es|, s);
      && (last.Some? ==> IsItsEnd(es, s, last.value))
      && (last.None? ==> forall k :: s < k < |es| ==> !Finishes(es[k], es[s].agent, es[s].taskId))
  {
    LastEndIsLast(es, |es|, s);
    forall k | 0 <= k < |es|
      ensures Ends(es[k], es[s].agent, es[s].taskId) <==> Finishes(es[k], es[s].agent, es[s].taskId)
    {
    }
  }

  // An execution begun at s, as the events tell it; one of a repeated task is never over.
  ghost predicate AsTold(x: Tracked, es: seq<FlowEvent>, s: nat, repeated: bool)
    requires s < |es|
  {
    && x.taskId == es[s].taskId && x.startTime == es[s].event.timestamp
    && (repeated ==> x.endTime == None && x.status == Running)
    && (!repeated ==>
          && (forall k: nat :: IsItsEnd(es, s, k) ==>
                && x.endTime == Some(es[k].event.timestamp)
                && x.status == if Succeeds(es[k]) then Completed else Failed)
          && ((forall k :: s < k < |es| ==> !Finishes(es[k], es[s].agent, es[s].taskId)) ==>
                x.endTime == None && x.status == Running))
  }

  lemma ExecutionIsAsTold(es: seq<FlowEvent>, s: nat, repeated: bool)
    requires s < |es|
    ensures AsTold(ExecutionAfter(es, |es|, s, repeated), es, s, repeated)
  {
    LastEndIff(es, s);
  }

  // The i-th execution of an agent is that of its i-th initialisation. It is over exactly if it is
  // the agent's first of that task and an event finishes it, and the last such event says when and how.
  lemma WhatIsTracked(m: Tracking, es: seq<FlowEvent>, agent: string, i: nat) returns (s: nat, repeated: bool)
    requires Matches(m, es, |es|) && i < |ExecutionsOf(m, agent)|
    ensures |ExecutionsOf(m, agent)| == |Starts(es, |es|, agent)| && s == Starts(es, |es|, agent)[i] < |es|
    ensures AsTold(ExecutionsOf(m, agent)[i], es, s, repeated)
    ensures repeated <==> exists r :: 0 <= r < s && Initialises(es[r], agent) && es[r].taskId == es[s].taskId
  {
    assert ListMatches(ExecutionsOf(m, agent), es, |es|, agent);
    var ss := Starts(es, |es|, agent);
    s := ss[i];
    RepeatedIff(es, agent, i);
    repeated := Repeated(es, ss, i);
    ExecutionIsAsTold(es, s, repeated);
  }

  lemma RepeatedIff(es: seq<FlowEvent>, agent: string, i: nat)
    requires i < |Starts(es, |es|, agent)|
    ensures var ss := Starts(es, |es|, agent);
      && (forall j :: 0 <= j < |ss| ==> ss[j] < |es|)
      && (Repeated(es, ss, i) <==>
            exists r :: 0 <= r < ss[i] && Initialises(es[r], agent) && es[r].taskId == es[ss[i]].taskId)
  {
    var ss := Starts(es, |es|, agent);
    StartsAreInitialisations(es, agent);
    forall j | 0 <= j < |ss| ensures ss[j] < |es| {
      assert ss[j] in ss;
    }
    if r :| 0 <= r < ss[i] && Initialises(es[r], agent) && es[r].taskId == es[ss[i]].taskId {
      var j :| 0 <= j < |ss| && ss[j] == r;
      assert j < i;
    }
    if Repeated(es, ss, i) {
      var j :| 0 <= j < i && es[ss[j]].taskId == es[ss[i]].taskId;
      assert ss[j] in ss;
    }
  }

  // It is shown as active exactly when no event of whatever agent and category finishes its task.
  lemma ActiveByNames(m: Tracking, es: seq<FlowEvent>, agent: string, i: nat)
    requires Matches(m, es, |es|) && i < |ExecutionsOf(m, agent)|
    ensures var x := ExecutionsOf(m, agent)[i];
      x.isActive <==> forall k :: 0 <= k < |es| && es[k].taskId == x.taskId ==> !Succeeds(es[k]) && !Fails(es[k])
  {
    ActiveIffNeverEnded(m, es, agent, i);
  }

  // ---- Nodes and edges -------------------------------------------------------------------

  const CREATED: Node := Node("created", None)
  const COMPLETED: Node := Node("completed", None)

  // The node an event draws, if any; the i-th event of the run names its decision node.
  function NodeFor(m: Tracking, e: FlowEvent, i: nat): Option<Node> {
    if e.event.category == "decision" then Some(Node("decision-" + Digits(i), Some(e.event.timestamp)))
    else if IsStart(e) then
      var execs := ExecutionsOf(m, e.agent);
      var index := FirstOf(execs, e.taskId);
      if index < |execs| then Some(Node(AgentId(e.agent, index), None)) else None
    else None
  }

  function NodesFor(m: Tracking, es: seq<FlowEvent>, n: nat): seq<Node>
    requires n <= |es|
  {
    if n == 0 then [CREATED]
    else
      var node := NodeFor(m, es[n - 1], n - 1);
      NodesFor(m, es, n - 1) + (if node.Some? then [node.value] else [])
  }

  predicate HasCompleted(es: seq<FlowEvent>) {
    exists e :: e in es && (e.event.kind == "WorkflowCompleted" || e.event.kind == "workflow_completed")
  }

  function FlowNodes(m: Tracking, es: seq<FlowEvent>): seq<Node> {
    NodesFor(m, es, |es|) + (if HasCompleted(es) then [COMPLETED] else [])
  }

  // Each node linked to the next.
  function Chain(nodes: seq<Node>): seq<(string, string)> {
    if |nodes| <= 1 then [] else Chain(nodes[..|nodes| - 1]) + [(nodes[|nodes| - 2].id, nodes[|nodes| - 1].id)]
  }

  // What an event draws: a decision its own node, the start of an execution the node of the
  // agent's first execution of that task (see NodeOfStart), anything else nothing.
  lemma WhatIsDrawn(m: Tracking, e: FlowEvent, i: nat)
    ensures e.event.category == "decision" ==> NodeFor(m, e, i) == Some(Node("decision-" + Digits(i), Some(e.event.timestamp)))
    ensures e.event.category != "decision" && !Initialises(e, e.agent) ==> NodeFor(m, e, i) == None
  {
  }

  // Behind the first, one node for each entry that has one, in their order.
  ghost predicate Follow(nodes: seq<Node>, at: seq<nat>, drawn: seq<Option<Node>>, n: nat)
    requires n <= |drawn|
  {
    && |nodes| == |at| + 1
    && (forall k :: 0 <= k < |at| ==> at[k] < n && drawn[at[k]] == Some(nodes[k + 1]))
    && (forall k, l :: 0 <= k < l < |at| ==> at[k] < at[l])
    && (forall i :: 0 <= i < n && drawn[i] != None ==> i in at)
  }

  lemma OneMoreFollows(nodes: seq<Node>, at: seq<nat>, drawn: seq<Option<Node>>, n: nat)
    requires n < |drawn| && Follow(nodes, at, drawn, n)
    ensures drawn[n] == None ==> Follow(nodes, at, drawn, n + 1)
    ensures drawn[n] != None ==> Follow(nodes + [drawn[n].value], at + [n], drawn, n + 1)
  {
    if drawn[n] != None {
      forall i | 0 <= i < n + 1 && drawn[i] != None ensures i in at + [n] {
        assert i < n ==> i in at;
      }
    }
  }

  lemma {:induction false} NodesFollow(m: Tracking, es: seq<FlowEvent>, drawn: seq<Option<Node>>, n: nat) returns (at: seq<nat>)
    requires n <= |es| == |drawn| && forall i :: 0 <= i < |es| ==> drawn[i] == NodeFor(m, es[i], i)
    ensures Follow(NodesFor(m, es, n), at, drawn, n) && NodesFor(m, es, n)[0] == CREATED
  {
    at := [];
    if n > 0 {
      at := NodesFollow(m, es, drawn, n - 1);
      var front, node := NodesFor(m, es, n - 1), drawn[n - 1];
      OneMoreFollows(front, at, drawn, n - 1);
      assert NodesFor(m, es, n) == front + (if node.Some? then [node.value] else []);
      if node != None {
        at := at + [n - 1];
      } else {
        assert NodesFor(m, es, n) == front;
      }
    }
  }

  // The nodes follow the events that draw them.
  lemma NodesFollowEvents(m: Tracking, es: seq<FlowEvent>, n: nat) returns (at: seq<nat>)
    requires n <= |es|
    ensures var nodes := NodesFor(m, es, n);
      && |nodes| == |at| + 1 && nodes[0] == Node("created", None)
      && (forall k :: 0 <= k < |at| ==> at[k] < n && NodeFor(m, es[at[k]], at[k]) == Some(nodes[k + 1]))
    ensures forall k, l :: 0 <= k < l < |at| ==> at[k] < at[l]
    ensures forall i :: 0 <= i < n && NodeFor(m, es[i], i) != None ==> i in at
  {
    var drawn := seq(|es|, i requires 0 <= i < |es| => NodeFor(m, es[i], i));
    at := NodesFollow(m, es, drawn, n);
  }

  lemma {:induction false} ChainLinks(nodes: seq<Node>)
    ensures |Chain(nodes)| == if nodes == [] then 0 else |nodes| - 1
    ensures forall k :: 0 <= k < |Chain(nodes)| ==> Chain(nodes)[k] == (nodes[k].id, nodes[k + 1].id)
  {
    if |nodes| > 1 {
      ChainLinks(nodes[..|nodes| - 1]);
    }
  }

  lemma DrawnIds(m: Tracking, e: FlowEvent, i: nat)
    requires NodeFor(m, e, i).Some?
    ensures var id := NodeFor(m, e, i).value.id;
            id != "created" && id != "completed" && (StartsWith(id, "agent-") || StartsWith(id, "decision-"))
            && (StartsWith(id, "agent-") <==> e.event.category != "decision")
  {
    var id := NodeFor(m, e, i).value.id;
    if e.event.category == "decision" {
      assert id[..9] == "decision-" && id[0] == 'd';
    } else {
      assert id[..6] == "agent-" && id[0] == 'a';
    }
  }

  lemma OneMoreLink(nodes: seq<Node>, x: Node)
    requires nodes != []
    ensures Chain(nodes + [x]) == Chain(nodes) + [(nodes[|nodes| - 1].id, x.id)]
  {
    assert (nodes + [x])[..|nodes|] == nodes;
  }

  lemma LastDrawnIsNotCompleted(m: Tracking, es: seq<FlowEvent>, n: nat)
    requires n <= |es|
    ensures var nodes := NodesFor(m, es, n); nodes != [] && nodes[|nodes| - 1].id != "completed"
  {
    var at := NodesFollowEvents(m, es, n);
    if at == [] {
      assert |"created"| == 7 && |"completed"| == 9;
    } else {
      var i := at[|at| - 1];
      DrawnIds(m, es[i], i);
    }
  }

  // The edges are a chain through all nodes in order. A graph of two nodes only, the first and
  // the last of the flow, gets no edge.
  method BuildGraph(m: Tracking, es: seq<FlowEvent>) returns (nodes: seq<Node>, edges: seq<(string, string)>)
    ensures nodes == FlowNodes(m, es)
    ensures edges == if HasCompleted(es) && |nodes| == 2 then [] else Chain(nodes)
    ensures nodes != [] && nodes[0] == Node("created", None)
    ensures (exists e :: e in es && (e.event.kind == "WorkflowCompleted" || e.event.kind == "workflow_completed")) ==>
              |nodes| >= 2 && nodes[|nodes| - 1] == Node("completed", None)
    ensures (forall e :: e in es ==> e.event.kind != "WorkflowCompleted" && e.event.kind != "workflow_completed") ==>
              nodes[|nodes| - 1].id != "completed"
    ensures edges == [] || |edges| == |nodes| - 1
    ensures forall k :: 0 <= k < |edges| ==> edges[k] == (nodes[k].id, nodes[k + 1].id)
  {
    nodes, edges := [CREATED], [];
    var previous := "created";
    for i := 0 to |es|
      invariant nodes == NodesFor(m, es, i) && |nodes| >= 1 && edges == Chain(nodes)
      invariant previous == nodes[|nodes| - 1].id && (previous == "created" <==> |nodes| == 1)
    {
      var node := NodeFor(m, es[i], i);
      if node.Some? {
        DrawnIds(m, es[i], i);
        OneMoreLink(nodes, node.value);
        nodes := nodes + [node.value];
        edges := edges + [(previous, node.value.id)];
        previous := node.value.id;
      }
    }
    if HasCompleted(es) {
      OneMoreLink(nodes, COMPLETED);
      nodes := nodes + [COMPLETED];
      if previous != "created" {
        edges := edges + [(previous, "completed")];
      }
    }
    ChainLinks(nodes);
    var at := NodesFollowEvents(m, es, |es|);
    LastDrawnIsNotCompleted(m, es, |es|);
  }

  // ---- Which node an execution gets ----------------------------------------------------

  // The first event that starts the same task of the same agent.
  function FirstStart(es: seq<FlowEvent>, s: nat): (f: nat)
    requires s < |es| && IsStart(es[s])
    ensures f <= s && IsStart(es[f]) && es[f].agent == es[s].agent && es[f].taskId == es[s].taskId
    ensures forall t :: 0 <= t < f ==> !(IsStart(es[t]) && es[t].agent == es[s].agent && es[t].taskId == es[s].taskId)
  {
    FirstStartFrom(es, s, 0)
  }

  function FirstStartFrom(es: seq<FlowEvent>, s: nat, from: nat): (f: nat)
    requires from <= s < |es| && IsStart(es[s])
    ensures from <= f <= s && IsStart(es[f]) && es[f].agent == es[s].agent && es[f].taskId == es[s].taskId
    ensures forall t :: from <= t < f ==> !(IsStart(es[t]) && es[t].agent == es[s].agent && es[t].taskId == es[s].taskId)
    decreases s - from
  {
    if IsStart(es[from]) && es[from].agent == es[s].agent && es[from].taskId == es[s].taskId then from
    else FirstStartFrom(es, s, from + 1)
  }

  lemma IndexOfStart(m: Tracking, es: seq<FlowEvent>, s: nat) returns (i: nat)
    requires Matches(m, es, |es|) && s < |es| && IsStart(es[s])
    ensures var execs, ss := ExecutionsOf(m, es[s].agent), Starts(es, |es|, es[s].agent);
            && i == FirstOf(execs, es[s].taskId) && i < |execs| == |ss| && ss[i] == FirstStart(es, s)
            && execs[i].startTime == es[FirstStart(es, s)].event.timestamp
  {
    var agent, f := es[s].agent, FirstStart(es, s);
    var execs, ss := ExecutionsOf(m, agent), Starts(es, |es|, agent);
    assert ListMatches(execs, es, |es|, agent);
    StartsAscend(es, |es|, agent);
    StartListed(es, |es|, f);
    var p :| 0 <= p < |ss| && ss[p] == f;
    assert execs[p].taskId == es[s].taskId;
    i := FirstOf(execs, es[s].taskId);
    assert execs[i].taskId == es[ss[i]].taskId;
    assert i <= p;
    assert ss[i] <= f;
  }

  // The node of a start event shows the execution that its first start began.
  lemma NodeOfStart(m: Tracking, es: seq<FlowEvent>, s: nat) returns (i: nat)
    requires Matches(m, es, |es|) && s < |es| && IsStart(es[s])
    ensures var execs, f := ExecutionsOf(m, es[s].agent), FirstStart(es, s);
            && i < |execs| && NodeFor(m, es[s], s) == Some(Node(AgentId(es[s].agent, i), None))
            && i < |Starts(es, |es|, es[s].agent)| && Starts(es, |es|, es[s].agent)[i] == f
            && execs[i].startTime == es[f].event.timestamp
  {
    i := IndexOfStart(m, es, s);
    StartDraws(m, es[s], s);
  }

  lemma StartDraws(m: Tracking, e: FlowEvent, i: nat)
    requires IsStart(e)
    ensures var k := FirstOf(ExecutionsOf(m, e.agent), e.taskId);
      k < |ExecutionsOf(m, e.agent)| ==> NodeFor(m, e, i) == Some(Node(AgentId(e.agent, k), None))
  {
    NotADecision(e);
  }

  lemma NotADecision(e: FlowEvent)
    requires IsStart(e)
    ensures e.event.category != "decision"
  {
    assert |"agent_lifecycle"| == 15 && |"decision"| == 8;
  }
}
