/**
 * Nested repair cycles of the older layout: a fix cycle inside a test cycle is drawn in the
 * test cycle's box. Cycles found from boundaries carry no execution indices, so only decision
 * nodes are grouped.
 */
module LegacyNesting {
  import opened BoxGeometry
  import opened BoxLayout
  import opened CycleDetection
  import opened Distinctness
  import opened FlowConservation
  import opened FlowLayout
  import OrderedMap
  import opened StableSorting
  import opened Text
  import opened Wrappers

  datatype Subtype = NoSubtype | TestCycle | FixCycle

  datatype Boundary = Boundary(id: string, subtype: Subtype, startTime: int, endTime: int)

  // ---- Parent links --------------------------------------------------------------------

  predicate Contains(outer: Boundary, inner: Boundary) {
    outer.startTime <= inner.startTime && inner.endTime <= outer.endTime
  }

  predicate MayNest(inner: Boundary, outer: Boundary) {
    inner.id != outer.id && inner.subtype == FixCycle && outer.subtype == TestCycle && Contains(outer, inner)
  }

  // The last of the first n cycles that cycle i may nest in.
  function Parent(bs: seq<Boundary>, i: nat, n: nat): Option<nat>
    requires i < |bs| && n <= |bs|
  {
    if n == 0 then None else if MayNest(bs[i], bs[n - 1]) then Some(n - 1) else Parent(bs, i, n - 1)
  }

  function ParentId(bs: seq<Boundary>, i: nat): Option<string>
    requires i < |bs|
  {
    match Parent(bs, i, |bs|)
    case Some(p) => if p < |bs| then Some(bs[p].id) else None
    case None => None
  }

  method LinkParents(bs: seq<Boundary>) returns (parents: seq<Option<string>>)
    ensures |parents| == |bs| && forall i :: 0 <= i < |bs| ==> parents[i] == ParentId(bs, i)
  {
    parents := [];
    for i := 0 to |bs|
      invariant |parents| == i && forall k :: 0 <= k < i ==> parents[k] == ParentId(bs, k)
    {
      var parent: Option<string> := None;
      for j := 0 to |bs|
        invariant var p := Parent(bs, i, j); parent == if p.Some? && p.value < |bs| then Some(bs[p.value].id) else None
      {
        ParentBound(bs, i, j);
        if bs[i].id != bs[j].id && bs[i].subtype != bs[j].subtype {
          if bs[i].startTime >= bs[j].startTime && bs[i].endTime <= bs[j].endTime {
            if bs[i].subtype == FixCycle && bs[j].subtype == TestCycle {
              parent := Some(bs[j].id);
            }
          }
        }
      }
      parents := parents + [parent];
    }
  }

  // A parent is the last test cycle around a fix cycle.
  lemma {:induction false} ParentBound(bs: seq<Boundary>, i: nat, n: nat)
    requires i < |bs| && n <= |bs|
    ensures var p := Parent(bs, i, n);
            && (p.Some? ==> p.value < n && MayNest(bs[i], bs[p.value]) && forall j :: p.value < j < n ==> !MayNest(bs[i], bs[j]))
            && (p == None ==> forall j :: 0 <= j < n ==> !MayNest(bs[i], bs[j]))
  {
    if n > 0 && !MayNest(bs[i], bs[n - 1]) {
      ParentBound(bs, i, n - 1);
    }
  }

  // Cycle i is a fix cycle, cycle j a test cycle, and the one's window lies in the other's.
  ghost predicate InTestCycle(bs: seq<Boundary>, i: nat, j: nat)
    requires i < |bs| && j < |bs|
  {
    && bs[i].subtype == FixCycle && bs[j].subtype == TestCycle
    && bs[j].startTime <= bs[i].startTime && bs[i].endTime <= bs[j].endTime
  }

  // Links form a forest of depth one: exactly the fix cycles inside a test cycle have a parent,
  // the parent has none, and the child's window lies in the parent's.
  lemma LinksAreShallow(bs: seq<Boundary>, i: nat)
    requires i < |bs|
    ensures ParentId(bs, i).Some? <==> exists j :: 0 <= j < |bs| && bs[j].id != bs[i].id && InTestCycle(bs, i, j)
    ensures ParentId(bs, i).Some? ==>
              exists j :: 0 <= j < |bs| && ParentId(bs, i) == Some(bs[j].id) && ParentId(bs, j) == None && InTestCycle(bs, i, j)
  {
    forall j | 0 <= j < |bs| ensures MayNest(bs[i], bs[j]) <==> bs[j].id != bs[i].id && InTestCycle(bs, i, j) {
    }
    ParentBound(bs, i, |bs|);
    if ParentId(bs, i).Some? {
      var j := Parent(bs, i, |bs|).value;
      ParentBound(bs, j, |bs|);
      assert ParentId(bs, j) == None;
    }
  }

  // ---- Folding children into their parents ------------------------------------------------

  function BoundaryIds(bs: seq<Boundary>): (ids: seq<string>)
    ensures |ids| == |bs|
  {
    seq(|bs|, i requires 0 <= i < |bs| => bs[i].id)
  }

  function AsCycle(b: Boundary): Cycle {
    Cycle(b.id, "", "", "", b.startTime, Some(b.endTime), 0, false, [])
  }

  function AsCycles(bs: seq<Boundary>): (cycles: CycleMap)
    ensures |cycles| == |bs|
  {
    seq(|bs|, i requires 0 <= i < |bs| => (bs[i].id, AsCycle(bs[i])))
  }

  function Own(nodes: seq<Node>, bs: seq<Boundary>, k: nat): seq<Node> {
    Members(nodes, AsCycles(bs), 0, k)
  }

  // What each cycle gives to cycle k: its nodes if k is its parent.
  function Adopted(nodes: seq<Node>, bs: seq<Boundary>, k: nat): seq<seq<Node>>
    requires k < |bs|
  {
    seq(|bs|, c requires 0 <= c < |bs| => if ParentId(bs, c) == Some(bs[k].id) then Own(nodes, bs, c) else [])
  }

  function Row(nodes: seq<Node>, bs: seq<Boundary>, k: nat): seq<Node>
    requires k < |bs|
  {
    Chronological(AsCycle(bs[k]), Own(nodes, bs, k) + Concat(Adopted(nodes, bs, k)))
  }

  // The row of a top-level cycle; a nested one has none of its own.
  function FoldedRow(nodes: seq<Node>, bs: seq<Boundary>, k: nat): seq<Node>
    requires k < |bs|
  {
    if ParentId(bs, k) == None then Row(nodes, bs, k) else []
  }

  function FoldedRows(nodes: seq<Node>, bs: seq<Boundary>): (rows: seq<seq<Node>>)
    ensures |rows| == |bs| && forall k :: 0 <= k < |bs| ==> rows[k] == FoldedRow(nodes, bs, k)
  {
    seq(|bs|, k requires 0 <= k < |bs| => FoldedRow(nodes, bs, k))
  }

  lemma {:induction false} OfTimeConcat(c: Cycle, s: seq<Node>, t: seq<Node>, time: int)
    ensures OfTime(c, s + t, time) == OfTime(c, s, time) + OfTime(c, t, time)
  {
    if t == [] {
      assert s + t == s;
    } else {
      assert (s + t)[..|s + t| - 1] == s + t[..|t| - 1];
      OfTimeConcat(c, s, t[..|t| - 1], time);
    }
  }

  // Of the nodes that share a time, a cycle's own come first, then those it adopts, each in the order given.
  lemma FoldingKeepsTies(nodes: seq<Node>, bs: seq<Boundary>, k: nat, x: Node)
    requires k < |bs| && ParentId(bs, k) == None
    ensures var c, parts := AsCycle(bs[k]), Adopted(nodes, bs, k); var time := TimeOf(c, x);
      OfTime(c, FoldedRows(nodes, bs)[k], time) == OfTime(c, Own(nodes, bs, k), time) + OfTime(c, Concat(parts), time)
  {
    var c, row := AsCycle(bs[k]), Own(nodes, bs, k) + Concat(Adopted(nodes, bs, k));
    var lt := (a, b) => ByTimeIn(c, a, b);
    SortIsStable(lt, row, x);
    FlowConservation.TiesAreOfOneTime(c, row, x);
    FlowConservation.TiesAreOfOneTime(c, Sort(lt, row), x);
    OfTimeConcat(c, Own(nodes, bs, k), Concat(Adopted(nodes, bs, k)), TimeOf(c, x));
  }

  method FoldCycles(nodes: seq<Node>, bs: seq<Boundary>) returns (standalone: seq<Node>, rows: seq<seq<Node>>)
    ensures standalone == Own(nodes, bs, |bs|) && rows == FoldedRows(nodes, bs)
  {
    var byCycle;
    standalone, byCycle := GroupNodes(nodes, AsCycles(bs), 0);
    var parents := LinkParents(bs);
    rows := [];
    for k := 0 to |bs|
      invariant |rows| == k && forall j :: 0 <= j < k ==> rows[j] == FoldedRow(nodes, bs, j)
    {
      var row := FoldInto(nodes, bs, byCycle, parents, k);
      rows := rows + [row];
    }
  }

  lemma ConcatMore(parts: seq<seq<Node>>, c: nat)
    requires c < |parts|
    ensures Concat(parts[..c + 1]) == Concat(parts[..c]) + parts[c]
  {
    assert parts[..c + 1][..c] == parts[..c];
  }

  method FoldInto(ghost nodes: seq<Node>, bs: seq<Boundary>, byCycle: seq<seq<Node>>, parents: seq<Option<string>>, k: nat)
      returns (row: seq<Node>)
    requires k < |bs| && |byCycle| == |bs| && forall c :: 0 <= c < |bs| ==> byCycle[c] == Own(nodes, bs, c)
    requires |parents| == |bs| && forall c :: 0 <= c < |bs| ==> parents[c] == ParentId(bs, c)
    ensures row == FoldedRow(nodes, bs, k)
  {
    row := [];
    if parents[k] == None {
      row := AdoptInto(byCycle[k], byCycle, parents, bs[k].id, Adopted(nodes, bs, k));
      row := Chronological(AsCycle(bs[k]), row);
    }
  }

  // The nodes of every cycle that names the parent go behind the parent's own.
  method AdoptInto(own: seq<Node>, byCycle: seq<seq<Node>>, parents: seq<Option<string>>, id: string, ghost parts: seq<seq<Node>>)
      returns (list: seq<Node>)
    requires |parts| == |byCycle| == |parents|
    requires forall c :: 0 <= c < |parts| ==> parts[c] == if parents[c] == Some(id) then byCycle[c] else []
    ensures list == own + Concat(parts)
  {
    list := own;
    for c := 0 to |byCycle|
      invariant list == own + Concat(parts[..c])
    {
      ConcatMore(parts, c);
      if parents[c] == Some(id) {
        list := list + byCycle[c];
      }
    }
    assert parts[..|byCycle|] == parts;
  }

  // ---- Nothing is lost in folding ------------------------------------------------------------

  // The top-level cycle in whose box the nodes of cycle k are drawn.
  function Owner(bs: seq<Boundary>, k: nat): (top: nat)
    requires k < |bs|
    ensures top < |bs|
  {
    ParentBound(bs, k, |bs|);
    match Parent(bs, k, |bs|) case Some(p) => p case None => k
  }

  lemma OwnerIsTop(bs: seq<Boundary>, k: nat)
    requires k < |bs|
    ensures Owner(bs, k) < |bs| && ParentId(bs, Owner(bs, k)) == None && Contains(bs[Owner(bs, k)], bs[k])
    ensures ParentId(bs, k) == None ==> Owner(bs, k) == k
  {
    ParentBound(bs, k, |bs|);
    ParentBound(bs, Owner(bs, k), |bs|);
  }

  lemma ChildOfOwner(bs: seq<Boundary>, k: nat, c: nat)
    requires Distinct(BoundaryIds(bs)) && k < |bs| && c < |bs|
    ensures ParentId(bs, c) == Some(bs[k].id) <==> ParentId(bs, c).Some? && Owner(bs, c) == k
  {
    ParentBound(bs, c, |bs|);
    var p, ids := Owner(bs, c), BoundaryIds(bs);
    assert p < k ==> ids[p] != ids[k];
    assert k < p ==> ids[k] != ids[p];
  }

  // x lives in cycle h only, c times.
  ghost predicate LivesAt(nodes: seq<Node>, bs: seq<Boundary>, x: Node, h: nat, c: nat) {
    forall k: nat :: multiset(Own(nodes, bs, k))[x] == if h == k then c else 0
  }

  lemma AdoptedCounts(nodes: seq<Node>, bs: seq<Boundary>, k: nat, x: Node, h: nat, c: nat)
    requires Distinct(BoundaryIds(bs)) && k < |bs| && LivesAt(nodes, bs, x, h, c)
    ensures multiset(Concat(Adopted(nodes, bs, k)))[x] == if h < |bs| && ParentId(bs, h).Some? && Owner(bs, h) == k then c else 0
  {
    var parts := Adopted(nodes, bs, k);
    var j := if h < |bs| && ParentId(bs, h) == Some(bs[k].id) then h else |bs|;
    forall i | 0 <= i < |parts| ensures multiset(parts[i])[x] == if i == j then c else 0 {
      assert multiset(Own(nodes, bs, i))[x] == if h == i then c else 0;
    }
    ConcatCounts(parts, x, j, c);
    if h < |bs| {
      ChildOfOwner(bs, k, h);
    }
  }

  lemma RowCounts(nodes: seq<Node>, bs: seq<Boundary>, k: nat, x: Node, h: nat, c: nat)
    requires Distinct(BoundaryIds(bs)) && k < |bs| && ParentId(bs, k) == None && LivesAt(nodes, bs, x, h, c)
    ensures multiset(Row(nodes, bs, k))[x] == if h < |bs| && Owner(bs, h) == k then c else 0
  {
    ChronologicalOrder(AsCycle(bs[k]), Own(nodes, bs, k) + Concat(Adopted(nodes, bs, k)));
    AdoptedCounts(nodes, bs, k, x, h, c);
    OwnerIsTop(bs, k);
    if h < |bs| {
      OwnerIsTop(bs, h);
    }
  }

  lemma RowsCount(nodes: seq<Node>, bs: seq<Boundary>, x: Node, h: nat, c: nat)
    requires Distinct(BoundaryIds(bs)) && LivesAt(nodes, bs, x, h, c)
    ensures multiset(Concat(FoldedRows(nodes, bs)))[x] == if h < |bs| then c else 0
  {
    var j := if h < |bs| then Owner(bs, h) else |bs|;
    if h < |bs| {
      OwnerIsTop(bs, h);
    }
    forall k | 0 <= k < |bs| ensures multiset(FoldedRows(nodes, bs)[k])[x] == if k == j then c else 0 {
      if ParentId(bs, k) == None {
        RowCounts(nodes, bs, k, x, h, c);
      }
    }
    ConcatCounts(FoldedRows(nodes, bs), x, j, c);
  }

  lemma HomeIsWhereItLives(nodes: seq<Node>, bs: seq<Boundary>, x: Node)
    ensures LivesAt(nodes, bs, x, Home(x, AsCycles(bs), 0), multiset(nodes)[x])
  {
    forall k: nat
      ensures multiset(Own(nodes, bs, k))[x] == if Home(x, AsCycles(bs), 0) == k then multiset(nodes)[x] else 0
    {
      MembersLiveHere(nodes, AsCycles(bs), 0, k, x);
    }
  }

  // Whatever nests in what, every node is either standalone or in exactly one row, once as often as given.
  lemma FoldingKeepsEveryNode(nodes: seq<Node>, bs: seq<Boundary>)
    requires Distinct(BoundaryIds(bs))
    ensures HoldTheHomes(nodes, AsCycles(bs), 0, FoldedRows(nodes, bs))
    ensures multiset(Own(nodes, bs, |bs|)) + multiset(Concat(FoldedRows(nodes, bs))) == multiset(nodes)
  {
    var cycles, rows := AsCycles(bs), FoldedRows(nodes, bs);
    forall x: Node
      ensures multiset(Concat(rows))[x] == if Home(x, cycles, 0) < |cycles| then multiset(nodes)[x] else 0
      ensures multiset(Own(nodes, bs, |bs|))[x] + multiset(Concat(rows))[x] == multiset(nodes)[x]
    {
      HomeIsWhereItLives(nodes, bs, x);
      RowsCount(nodes, bs, x, Home(x, cycles, 0), multiset(nodes)[x]);
    }
  }

  // And what is drawn in a box lies in that cycle's window, adopted or not. Only decision nodes are.
  lemma RowsStayInTheirWindow(nodes: seq<Node>, bs: seq<Boundary>, k: nat, x: Node)
    requires Distinct(BoundaryIds(bs)) && k < |bs| && ParentId(bs, k) == None && x in Row(nodes, bs, k)
    ensures StartsWith(x.id, "decision-") && x.timestamp.Some? && bs[k].startTime <= x.timestamp.value <= bs[k].endTime
  {
    var h := Home(x, AsCycles(bs), 0);
    HomeIsWhereItLives(nodes, bs, x);
    RowCounts(nodes, bs, k, x, h, multiset(nodes)[x]);
    assert multiset(Row(nodes, bs, k))[x] > 0;
    OwnerIsTop(bs, h);
    assert InCycle(x, AsCycles(bs)[h].1, 0);
  }

  // ---- The result ------------------------------------------------------------------------------

  // A nested cycle has no row of its own, so the placing loop passes it by.
  function Drawn(nodes: seq<Node>, bs: seq<Boundary>, o: Options): seq<Placed> {
    Layout(o, Column(nodes, AsCycles(bs), 0), BoundaryIds(bs), FoldedRows(nodes, bs), Only(nodes, "completed"))
  }

  function DrawnBoxes(nodes: seq<Node>, bs: seq<Boundary>, o: Options): seq<Placed> {
    Boxes(o, |Column(nodes, AsCycles(bs), 0)|, BoundaryIds(bs), FoldedRows(nodes, bs), |bs|)
  }

  method ApplyLegacyLayout(nodes: seq<Node>, bs: seq<Boundary>, o: Options) returns (result: seq<Placed>, cycleNodes: seq<Placed>)
    ensures result == Drawn(nodes, bs, o) && cycleNodes == DrawnBoxes(nodes, bs, o)
  {
    var standalone, rows := FoldCycles(nodes, bs);
    result, cycleNodes := LayOut(o, Only(nodes, "created") + Ordinary(Sort(BySequence, standalone)), BoundaryIds(bs), rows,
                                 Only(nodes, "completed"));
  }

  // Nested or not, nothing is lost and nothing is added exactly when "created" and "completed" name
  // at most one node each.
  lemma DrawnIsConservedIff(nodes: seq<Node>, bs: seq<Boundary>, o: Options)
    requires Distinct(BoundaryIds(bs))
    ensures multiset(Leaves(Drawn(nodes, bs, o))) == multiset(nodes)
            <==> AtMostOne(nodes, "created") && AtMostOne(nodes, "completed")
  {
    FoldingKeepsEveryNode(nodes, bs);
    ConservedWith(nodes, AsCycles(bs), 0, o, BoundaryIds(bs), FoldedRows(nodes, bs));
  }

  lemma InOwnersRow(nodes: seq<Node>, bs: seq<Boundary>, k: nat, x: Node)
    requires Distinct(BoundaryIds(bs)) && k < |bs|
    ensures var h := Home(x, AsCycles(bs), 0);
            x in FoldedRows(nodes, bs)[k] <==> x in nodes && h < |bs| && Owner(bs, h) == k
  {
    var h := Home(x, AsCycles(bs), 0);
    var row := FoldedRows(nodes, bs)[k];
    assert x in row <==> multiset(row)[x] > 0;
    assert x in nodes <==> multiset(nodes)[x] > 0;
    HomeIsWhereItLives(nodes, bs, x);
    if h < |bs| {
      OwnerIsTop(bs, h);
    }
    if ParentId(bs, k) == None {
      RowCounts(nodes, bs, k, x, h, multiset(nodes)[x]);
    }
  }

  // A cycle has a box exactly when some node belongs to it or to a cycle nested in it; a nested
  // cycle has none.
  lemma DrawnBoxIff(nodes: seq<Node>, bs: seq<Boundary>, o: Options, k: nat)
    requires Distinct(BoundaryIds(bs)) && k < |bs|
    ensures HasBox(DrawnBoxes(nodes, bs, o), bs[k].id)
            <==> exists x :: x in nodes && Home(x, AsCycles(bs), 0) < |bs| && Owner(bs, Home(x, AsCycles(bs), 0)) == k
    ensures ParentId(bs, k) != None ==> !HasBox(DrawnBoxes(nodes, bs, o), bs[k].id)
  {
    var ids, row := BoundaryIds(bs), FoldedRows(nodes, bs)[k];
    assert HasBox(DrawnBoxes(nodes, bs, o), ids[k]) <==> row != [] by {
      BoxIffRow(o, |Column(nodes, AsCycles(bs), 0)|, ids, FoldedRows(nodes, bs), k);
    }
    if row != [] {
      InOwnersRow(nodes, bs, k, row[0]);
    } else {
      forall x | x in nodes ensures !(Home(x, AsCycles(bs), 0) < |bs| && Owner(bs, Home(x, AsCycles(bs), 0)) == k) {
        InOwnersRow(nodes, bs, k, x);
      }
    }
  }

  // No cycle has two boxes.
  lemma DrawnBoxesDiffer(nodes: seq<Node>, bs: seq<Boundary>, o: Options, i: nat, j: nat)
    requires Distinct(BoundaryIds(bs)) && i < j < |DrawnBoxes(nodes, bs, o)|
    ensures DrawnBoxes(nodes, bs, o)[i].Box? && DrawnBoxes(nodes, bs, o)[j].Box?
    ensures DrawnBoxes(nodes, bs, o)[i].id != DrawnBoxes(nodes, bs, o)[j].id
  {
    var ids := BoundaryIds(bs);
    var k, l := BoxesInOrder(o, |Column(nodes, AsCycles(bs), 0)|, ids, FoldedRows(nodes, bs), |bs|, i, j);
    assert ids[k] != ids[l];
  }

  // The id of the box a node belongs in, if it belongs in any.
  function OwnBox(bs: seq<Boundary>, x: Node): Option<string> {
    var h := Home(x, AsCycles(bs), 0);
    if h < |bs| then Some(bs[Owner(bs, h)].id) else None
  }

  lemma RowNamesOwner(nodes: seq<Node>, bs: seq<Boundary>, k: nat, x: Node)
    requires Distinct(BoundaryIds(bs)) && k < |bs| && x in FoldedRows(nodes, bs)[k]
    ensures x in nodes && OwnBox(bs, x) == Some(bs[k].id)
  {
    InOwnersRow(nodes, bs, k, x);
  }

  // A placed node names as its parent the top-level cycle in whose box its own cycle is drawn.
  lemma DrawnParentIsOwner(nodes: seq<Node>, bs: seq<Boundary>, o: Options, i: nat)
    requires Distinct(BoundaryIds(bs)) && i < |Drawn(nodes, bs, o)| && Drawn(nodes, bs, o)[i].Leaf?
    ensures var p := Drawn(nodes, bs, o)[i]; p.node in nodes && p.parent == OwnBox(bs, p.node)
  {
    var ids, rows := BoundaryIds(bs), FoldedRows(nodes, bs);
    LeafOfLayout(o, Column(nodes, AsCycles(bs), 0), ids, rows, Only(nodes, "completed"), i);
    var p := Drawn(nodes, bs, o)[i];
    if p.parent == None {
      ColumnIsHome(nodes, AsCycles(bs), 0, p.node);
    } else {
      var k :| 0 <= k < |ids| && p.parent == Some(ids[k]) && p.node in rows[k];
      RowNamesOwner(nodes, bs, k, p.node);
    }
  }

  // The cycle whose box holds the nodes of cycle k: the last test cycle around it, or k itself.
  ghost predicate HoldsNodesOf(bs: seq<Boundary>, top: nat, k: nat)
    requires top < |bs| && k < |bs|
  {
    || (InTestCycle(bs, k, top) && forall j :: top < j < |bs| ==> !InTestCycle(bs, k, j))
    || (top == k && forall j :: 0 <= j < |bs| ==> !InTestCycle(bs, k, j))
  }

  lemma OwnerHoldsNodes(bs: seq<Boundary>, k: nat)
    requires Distinct(BoundaryIds(bs)) && k < |bs|
    ensures HoldsNodesOf(bs, Owner(bs, k), k)
  {
    ParentBound(bs, k, |bs|);
    var ids := BoundaryIds(bs);
    forall j | 0 <= j < |bs| ensures MayNest(bs[k], bs[j]) <==> InTestCycle(bs, k, j) {
      if InTestCycle(bs, k, j) {
        assert j < k ==> ids[j] != ids[k];
        assert k < j ==> ids[k] != ids[j];
      }
    }
  }

  // box is that of the first listed cycle whose window holds the node's time, or None if no window
  // does or the node is no decision node with a time.
  ghost predicate BoxedByWindow(bs: seq<Boundary>, n: Node, box: Option<string>) {
    && (!("decision-" <= n.id) || n.timestamp == None ==> box == None)
    && ("decision-" <= n.id && n.timestamp.Some? ==>
          var t := n.timestamp.value;
          && (box == None <==> forall k :: 0 <= k < |bs| ==> !(bs[k].startTime <= t <= bs[k].endTime))
          && (box.Some? ==>
                exists k, top ::
                  && 0 <= k < |bs| && bs[k].startTime <= t <= bs[k].endTime
                  && (forall l :: 0 <= l < k ==> !(bs[l].startTime <= t <= bs[l].endTime))
                  && 0 <= top < |bs| && HoldsNodesOf(bs, top, k) && box == Some(bs[top].id)))
  }

  // A decision node with a time is drawn in the box that holds the nodes of the first listed cycle
  // whose window holds the time, and outside exactly when no window does; every other node is
  // drawn outside.
  lemma DrawnDecisionParent(nodes: seq<Node>, bs: seq<Boundary>, o: Options, i: nat)
    requires Distinct(BoundaryIds(bs)) && i < |Drawn(nodes, bs, o)| && Drawn(nodes, bs, o)[i].Leaf?
    ensures BoxedByWindow(bs, Drawn(nodes, bs, o)[i].node, Drawn(nodes, bs, o)[i].parent)
  {
    DrawnParentIsOwner(nodes, bs, o, i);
    OwnBoxByWindow(bs, Drawn(nodes, bs, o)[i].node);
  }

  lemma OwnBoxByWindow(bs: seq<Boundary>, n: Node)
    requires Distinct(BoundaryIds(bs))
    ensures BoxedByWindow(bs, n, OwnBox(bs, n))
  {
    var h := Home(n, AsCycles(bs), 0);
    HomeByWindow(bs, n);
    if h < |bs| {
      OwnerHoldsNodes(bs, h);
    }
  }

  lemma HomeByWindow(bs: seq<Boundary>, n: Node)
    ensures var h := Home(n, AsCycles(bs), 0);
      && h <= |bs|
      && (h < |bs| ==>
            "decision-" <= n.id && n.timestamp.Some? && bs[h].startTime <= n.timestamp.value <= bs[h].endTime)
      && ("decision-" <= n.id && n.timestamp.Some? ==>
            forall k :: 0 <= k < h ==> !(bs[k].startTime <= n.timestamp.value <= bs[k].endTime))
  {
    var cycles := AsCycles(bs);
    HomeIsFirst(n, cycles, 0);
    forall k | 0 <= k < |bs|
      ensures Belongs(n, cycles[k].1, 0) <==>
              "decision-" <= n.id && n.timestamp.Some? && bs[k].startTime <= n.timestamp.value <= bs[k].endTime
    {
      assert cycles[k].1 == AsCycle(bs[k]);
    }
  }

  // That parent's box comes before it, and it fits in there.
  lemma DrawnParentsComeFirst(nodes: seq<Node>, bs: seq<Boundary>, o: Options, i: nat) returns (j: nat)
    requires i < |Drawn(nodes, bs, o)| && IsChild(Drawn(nodes, bs, o)[i])
    ensures j < i && FitsIn(Drawn(nodes, bs, o)[i], Drawn(nodes, bs, o)[j], o)
  {
    j := ParentsComeFirst(o, Column(nodes, AsCycles(bs), 0), BoundaryIds(bs), FoldedRows(nodes, bs), Only(nodes, "completed"), i);
  }

  // Children of one box, adopted or not, stand left to right in the order of their times.
  lemma DrawnChildrenInOrder(nodes: seq<Node>, bs: seq<Boundary>, o: Options, i: nat, j: nat) returns (k: nat)
    requires Distinct(BoundaryIds(bs)) && i < j < |Drawn(nodes, bs, o)|
    requires var all := Drawn(nodes, bs, o); IsChild(all[i]) && IsChild(all[j]) && all[i].parent == all[j].parent
    ensures var all := Drawn(nodes, bs, o);
            && k < |bs| && all[i].parent == Some(bs[k].id)
            && TimeOf(AsCycle(bs[k]), all[i].node) <= TimeOf(AsCycle(bs[k]), all[j].node)
            && (all[i].node.timestamp.Some? && all[j].node.timestamp.Some? ==>
                  all[i].node.timestamp.value <= all[j].node.timestamp.value)
            && (SizesNonNegative(o) ==> all[i].x + o.nodeWidth + o.horizontalSpacing <= all[j].x)
  {
    var a, b;
    k, a, b := SiblingsStandInOrder(o, Column(nodes, AsCycles(bs), 0), BoundaryIds(bs), FoldedRows(nodes, bs), Only(nodes, "completed"), i, j);
    ChronologicalOrder(AsCycle(bs[k]), Own(nodes, bs, k) + Concat(Adopted(nodes, bs, k)));
  }
}
