/** The flow layout: nodes outside cycles in one column, every cycle a box with its nodes in a row. */
module FlowLayout {
  import opened BoxLayout
  import opened CycleDetection
  import opened Decimal
  import opened StableSorting
  import opened Text
  import opened Wrappers

  // ---- Membership -----------------------------------------------------------------

  predicate Special(n: Node) {
    n.id == "created" || n.id == "completed"
  }

  predicate RunNamed(c: Cycle, id: string) {
    exists r :: r in c.runs && id == AgentId(r.agent, r.executionIndex)
  }

  predicate InCycle(n: Node, c: Cycle, now: int) {
    if StartsWith(n.id, "agent-") then RunNamed(c, n.id)
    else StartsWith(n.id, "decision-") && n.timestamp.Some? && c.startTime <= n.timestamp.value <= EndOrNow(c, now)
  }

  // The first cycle in map order that the node belongs to; |cycles| if there is none.
  function Home(n: Node, cycles: CycleMap, now: int): (k: nat)
    ensures k <= |cycles|
    ensures !Special(n) ==> (k < |cycles| ==> InCycle(n, cycles[k].1, now)) && forall l :: 0 <= l < k ==> !InCycle(n, cycles[l].1, now)
    ensures Special(n) ==> k == |cycles|
  {
    if Special(n) then |cycles| else FirstHome(n, cycles, now, 0)
  }

  function FirstHome(n: Node, cycles: CycleMap, now: int, from: nat): (k: nat)
    requires from <= |cycles|
    ensures from <= k <= |cycles|
    ensures k < |cycles| ==> InCycle(n, cycles[k].1, now)
    ensures forall l :: from <= l < k ==> !InCycle(n, cycles[l].1, now)
    decreases |cycles| - from
  {
    if from == |cycles| || InCycle(n, cycles[from].1, now) then from else FirstHome(n, cycles, now, from + 1)
  }

  // The nodes whose home is k, in input order.
  function Members(nodes: seq<Node>, cycles: CycleMap, now: int, k: nat): seq<Node> {
    if nodes == [] then []
    else
      var last := nodes[|nodes| - 1];
      Members(nodes[..|nodes| - 1], cycles, now, k) + (if Home(last, cycles, now) == k then [last] else [])
  }

  method GroupNodes(nodes: seq<Node>, cycles: CycleMap, now: int) returns (standalone: seq<Node>, byCycle: seq<seq<Node>>)
    ensures standalone == Members(nodes, cycles, now, |cycles|)
    ensures |byCycle| == |cycles| && forall k :: 0 <= k < |cycles| ==> byCycle[k] == Members(nodes, cycles, now, k)
  {
    standalone, byCycle := [], seq(|cycles|, k => []);
    for i := 0 to |nodes|
      invariant standalone == Members(nodes[..i], cycles, now, |cycles|)
      invariant |byCycle| == |cycles| && forall k :: 0 <= k < |cycles| ==> byCycle[k] == Members(nodes[..i], cycles, now, k)
    {
      var node := nodes[i];
      assert nodes[..i + 1][..i] == nodes[..i];
      var home := |cycles|;
      if !Special(node) {
        var k := 0;
        while k < |cycles| && !InCycle(node, cycles[k].1, now)
          invariant 0 <= k <= |cycles| && FirstHome(node, cycles, now, 0) == FirstHome(node, cycles, now, k)
        {
          k := k + 1;
        }
        home := k;
      }
      assert home == Home(node, cycles, now);
      if home == |cycles| {
        standalone := standalone + [node];
      } else {
        byCycle := byCycle[home := byCycle[home] + [node]];
      }
    }
    assert nodes[..|nodes|] == nodes;
  }

  // ---- Orders ------------------------------------------------------------------------

  // The number at the end of an identifier, 0 if there is none.
  function Sequence(id: string): nat {
    match LastDash(id)
    case None => 0
    case Some(k) =>
      var tail := id[k + 1..];
      if tail != "" && forall c :: c in tail ==> c in DIGITS then Value(tail) else 0
  }

  predicate BySequence(a: Node, b: Node) {
    Sequence(a.id) < Sequence(b.id)
  }

  function FindRun(runs: seq<Run>, agent: string, index: nat): Option<Run> {
    if runs == [] then None
    else if runs[0].agent == agent && runs[0].executionIndex == index then Some(runs[0])
    else FindRun(runs[1..], agent, index)
  }

  // A node's own time, or the start of the execution it shows.
  function TimeOf(c: Cycle, n: Node): int {
    if n.timestamp.Some? then n.timestamp.value
    else
      match ParseAgentId(n.id)
      case None => 0
      case Some((agent, index)) =>
        match FindRun(c.runs, agent, index)
        case None => 0
        case Some(run) => run.timestamp
  }

  predicate ByTimeIn(c: Cycle, a: Node, b: Node) {
    TimeOf(c, a) < TimeOf(c, b)
  }

  function Chronological(c: Cycle, row: seq<Node>): seq<Node> {
    Sort((a, b) => ByTimeIn(c, a, b), row)
  }

  lemma ChronologicalOrder(c: Cycle, row: seq<Node>)
    ensures multiset(Chronological(c, row)) == multiset(row) && |Chronological(c, row)| == |row|
    ensures forall i, j :: 0 <= i < j < |row| ==> TimeOf(c, Chronological(c, row)[i]) <= TimeOf(c, Chronological(c, row)[j])
  {
    var lt := (a, b) => ByTimeIn(c, a, b);
    SortIsSortedPermutation(lt, row);
    forall i, j | 0 <= i < j < |row| ensures TimeOf(c, Chronological(c, row)[i]) <= TimeOf(c, Chronological(c, row)[j]) {
      assert !lt(Sort(lt, row)[j], Sort(lt, row)[i]);
    }
  }

  // ---- The layout ----------------------------------------------------------------------

  function Only(nodes: seq<Node>, id: string): seq<Node> {
    if nodes == [] then [] else if nodes[0].id == id then [nodes[0]] else Only(nodes[1..], id)
  }

  function Ordinary(nodes: seq<Node>): seq<Node> {
    if nodes == [] then []
    else Ordinary(nodes[..|nodes| - 1]) + (if Special(nodes[|nodes| - 1]) then [] else [nodes[|nodes| - 1]])
  }

  // The ordinary part of the column.
  function Alone(nodes: seq<Node>, cycles: CycleMap, now: int): seq<Node> {
    Ordinary(Sort(BySequence, Members(nodes, cycles, now, |cycles|)))
  }

  // The column above the boxes, from top to bottom.
  function Column(nodes: seq<Node>, cycles: CycleMap, now: int): seq<Node> {
    Only(nodes, "created") + Alone(nodes, cycles, now)
  }

  function Ids(cycles: CycleMap): (ids: seq<string>)
    ensures |ids| == |cycles|
  {
    seq(|cycles|, k requires 0 <= k < |cycles| => cycles[k].0)
  }

  // The row of each cycle.
  function Rows(nodes: seq<Node>, cycles: CycleMap, now: int): (rows: seq<seq<Node>>)
    ensures |rows| == |cycles|
  {
    seq(|cycles|, k requires 0 <= k < |cycles| => Chronological(cycles[k].1, Members(nodes, cycles, now, k)))
  }

  function Drawing(nodes: seq<Node>, cycles: CycleMap, now: int, o: Options): seq<Placed> {
    Layout(o, Column(nodes, cycles, now), Ids(cycles), Rows(nodes, cycles, now), Only(nodes, "completed"))
  }

  // The boxes of a drawing are its only containers.
  function LaidBoxes(nodes: seq<Node>, cycles: CycleMap, now: int, o: Options): seq<Placed> {
    Boxes(o, |Column(nodes, cycles, now)|, Ids(cycles), Rows(nodes, cycles, now), |cycles|)
  }

  method ApplyCycleLayout(nodes: seq<Node>, cycles: CycleMap, now: int, o: Options) returns (result: seq<Placed>, cycleNodes: seq<Placed>)
    ensures result == Drawing(nodes, cycles, now, o)
    ensures cycleNodes == LaidBoxes(nodes, cycles, now, o)
  {
    var standalone, byCycle := GroupNodes(nodes, cycles, now);
    var rows := SortRows(nodes, cycles, now, byCycle);
    result, cycleNodes := LayOut(o, Only(nodes, "created") + Ordinary(Sort(BySequence, standalone)), Ids(cycles), rows, Only(nodes, "completed"));
  }

  method SortRows(ghost nodes: seq<Node>, cycles: CycleMap, ghost now: int, byCycle: seq<seq<Node>>) returns (rows: seq<seq<Node>>)
    requires |byCycle| == |cycles| && forall k :: 0 <= k < |cycles| ==> byCycle[k] == Members(nodes, cycles, now, k)
    ensures rows == Rows(nodes, cycles, now)
  {
    rows := [];
    for k := 0 to |cycles|
      invariant |rows| == k && forall l :: 0 <= l < k ==> rows[l] == Chronological(cycles[l].1, byCycle[l])
    {
      rows := rows + [Chronological(cycles[k].1, byCycle[k])];
    }
  }
}
