/**
 * Placing a column of nodes and, below it, one box per non-empty row of nodes. Coordinates are
 * reals; sizes and gaps are the options the caller may override.
 */
module BoxLayout {
  import opened Wrappers

  datatype Node = Node(id: string, timestamp: Option<int>)

  datatype Options = Options(nodeWidth: real, nodeHeight: real, horizontalSpacing: real, verticalSpacing: real,
                             cycleGap: real, cyclePadding: real, centerX: real)

  // A node of the result: the box of a cycle, or a placed input node. Positions of children
  // are relative to their parent's box.
  datatype Placed =
    | Box(id: string, x: real, y: real, width: real, height: real, count: nat)
    | Leaf(node: Node, x: real, y: real, parent: Option<string>)

  // ---- The layout, in closed form ----------------------------------------------------

  function BoxHeight(o: Options): real {
    o.nodeHeight + o.cyclePadding * 2.0
  }

  function BoxWidth(o: Options, count: nat): real {
    count as real * (o.nodeWidth + o.horizontalSpacing) - o.horizontalSpacing + o.cyclePadding * 2.0
  }

  function ColumnY(o: Options, i: nat): real {
    100.0 + i as real * o.verticalSpacing
  }

  // The height of the j-th box below a column of n nodes.
  function BoxY(o: Options, n: nat, j: nat): real {
    ColumnY(o, n) + j as real * (BoxHeight(o) + o.cycleGap + o.verticalSpacing)
  }

  function InColumn(o: Options, n: Node, y: real): Placed {
    Leaf(n, o.centerX - o.nodeWidth / 2.0, y, None)
  }

  function InRow(o: Options, cycleId: string, n: Node, i: nat): Placed {
    Leaf(n, o.cyclePadding + i as real * (o.nodeWidth + o.horizontalSpacing), o.cyclePadding, Some(cycleId))
  }

  function PlacedColumn(o: Options, column: seq<Node>): seq<Placed> {
    seq(|column|, i requires 0 <= i < |column| => InColumn(o, column[i], ColumnY(o, i)))
  }

  function PlacedRow(o: Options, cycleId: string, row: seq<Node>): seq<Placed> {
    seq(|row|, i requires 0 <= i < |row| => InRow(o, cycleId, row[i], i))
  }

  function PlacedBox(o: Options, id: string, count: nat, y: real): Placed {
    Box(id, o.centerX - BoxWidth(o, count) / 2.0, y, BoxWidth(o, count), BoxHeight(o), count)
  }

  // The boxes of the non-empty rows among the first n, below a column of c nodes.
  function Boxes(o: Options, c: nat, ids: seq<string>, rows: seq<seq<Node>>, n: nat): seq<Placed>
    requires n <= |rows| == |ids|
  {
    if n == 0 then []
    else
      var above := Boxes(o, c, ids, rows, n - 1);
      if rows[n - 1] == [] then above
      else above + [PlacedBox(o, ids[n - 1], |rows[n - 1]|, BoxY(o, c, |above|))]
  }

  function PlacedRows(o: Options, ids: seq<string>, rows: seq<seq<Node>>, n: nat): seq<Placed>
    requires n <= |rows| == |ids|
  {
    if n == 0 then [] else PlacedRows(o, ids, rows, n - 1) + PlacedRow(o, ids[n - 1], rows[n - 1])
  }

  // The node below everything, if there is one.
  function PlacedLast(o: Options, last: seq<Node>, y: real): seq<Placed> {
    if last == [] then [] else [InColumn(o, last[0], y)]
  }

  // All boxes, the column, the last node: what has no parent. Then the children.
  function Roots(o: Options, column: seq<Node>, ids: seq<string>, rows: seq<seq<Node>>, last: seq<Node>): seq<Placed>
    requires |rows| == |ids|
  {
    var boxes := Boxes(o, |column|, ids, rows, |ids|);
    boxes + PlacedColumn(o, column) + PlacedLast(o, last, BoxY(o, |column|, |boxes|))
  }

  function Layout(o: Options, column: seq<Node>, ids: seq<string>, rows: seq<seq<Node>>, last: seq<Node>): seq<Placed>
    requires |rows| == |ids|
  {
    Roots(o, column, ids, rows, last) + PlacedRows(o, ids, rows, |ids|)
  }

  // ---- The code: one running position -----------------------------------------------

  method LayOut(o: Options, column: seq<Node>, ids: seq<string>, rows: seq<seq<Node>>, last: seq<Node>)
      returns (result: seq<Placed>, cycleNodes: seq<Placed>)
    requires |rows| == |ids|
    ensures result == Layout(o, column, ids, rows, last)
    ensures cycleNodes == Boxes(o, |column|, ids, rows, |ids|)
  {
    var placed, currentY := PlaceColumn(o, column);
    var children;
    cycleNodes, children, currentY := PlaceCycles(o, ids, rows, |column|, currentY);
    result := cycleNodes + placed + PlacedLast(o, last, currentY) + children;
  }

  method PlaceColumn(o: Options, column: seq<Node>) returns (placed: seq<Placed>, y: real)
    ensures placed == PlacedColumn(o, column)
    ensures y == ColumnY(o, |column|)
  {
    placed, y := [], 100.0;
    for i := 0 to |column|
      invariant placed == PlacedColumn(o, column[..i]) && y == ColumnY(o, i)
    {
      placed := placed + [InColumn(o, column[i], y)];
      y := y + o.verticalSpacing;
    }
    assert column[..|column|] == column;
  }

  lemma NextBoxY(o: Options, n: nat, j: nat)
    ensures BoxY(o, n, j + 1) == BoxY(o, n, j) + (BoxHeight(o) + o.cycleGap + o.verticalSpacing)
  {
    var step := BoxHeight(o) + o.cycleGap + o.verticalSpacing;
    assert (j + 1) as real * step == j as real * step + step;
  }

  method PlaceCycles(o: Options, ids: seq<string>, rows: seq<seq<Node>>, ghost c: nat, startY: real)
      returns (boxes: seq<Placed>, children: seq<Placed>, y: real)
    requires |rows| == |ids| && startY == ColumnY(o, c)
    ensures boxes == Boxes(o, c, ids, rows, |ids|) && children == PlacedRows(o, ids, rows, |ids|)
    ensures y == BoxY(o, c, |boxes|)
  {
    boxes, children, y := [], [], startY;
    for k := 0 to |ids|
      invariant boxes == Boxes(o, c, ids, rows, k) && children == PlacedRows(o, ids, rows, k)
      invariant y == BoxY(o, c, |boxes|)
    {
      if rows[k] != [] {
        var box := PlaceBox(o, ids[k], |rows[k]|, y);
        NextBoxY(o, c, |boxes|);
        boxes := boxes + [box];
        children := children + PlacedRow(o, ids[k], rows[k]);
        y := y + (box.height + o.cycleGap + o.verticalSpacing);
      } else {
        assert PlacedRow(o, ids[k], rows[k]) == [];
      }
    }
  }

  method PlaceBox(o: Options, cycleId: string, count: nat, y: real) returns (box: Placed)
    ensures box == PlacedBox(o, cycleId, count, y)
  {
    var cycleWidth := count as real * (o.nodeWidth + o.horizontalSpacing) - o.horizontalSpacing + o.cyclePadding * 2.0;
    var cycleHeight := o.nodeHeight + o.cyclePadding * 2.0;
    box := Box(cycleId, o.centerX - cycleWidth / 2.0, y, cycleWidth, cycleHeight, count);
  }

  // ---- What is in a layout --------------------------------------------------------------

  function Concat(parts: seq<seq<Node>>): seq<Node> {
    if parts == [] then [] else Concat(parts[..|parts| - 1]) + parts[|parts| - 1]
  }

  // The nodes of a result.
  function Leaves(ps: seq<Placed>): seq<Node> {
    if ps == [] then []
    else Leaves(ps[..|ps| - 1]) + (if ps[|ps| - 1].Leaf? then [ps[|ps| - 1].node] else [])
  }

  lemma {:induction false} LeavesOfParts(ps: seq<Placed>, qs: seq<Placed>)
    ensures Leaves(ps + qs) == Leaves(ps) + Leaves(qs)
  {
    if qs == [] {
      assert ps + qs == ps;
    } else {
      assert (ps + qs)[..|ps + qs| - 1] == ps + qs[..|qs| - 1];
      LeavesOfParts(ps, qs[..|qs| - 1]);
    }
  }

  lemma {:induction false} LeavesOfNodes(ps: seq<Placed>, ns: seq<Node>)
    requires |ps| == |ns| && forall i :: 0 <= i < |ps| ==> ps[i].Leaf? && ps[i].node == ns[i]
    ensures Leaves(ps) == ns
  {
    if ps != [] {
      LeavesOfNodes(ps[..|ps| - 1], ns[..|ns| - 1]);
      assert ns == ns[..|ns| - 1] + [ns[|ns| - 1]];
    }
  }

  lemma {:induction false} BoxesHaveNoLeaves(o: Options, c: nat, ids: seq<string>, rows: seq<seq<Node>>, n: nat)
    requires n <= |rows| == |ids|
    ensures Leaves(Boxes(o, c, ids, rows, n)) == []
  {
    if n > 0 {
      BoxesHaveNoLeaves(o, c, ids, rows, n - 1);
      var above := Boxes(o, c, ids, rows, n - 1);
      if rows[n - 1] != [] {
        var box := PlacedBox(o, ids[n - 1], |rows[n - 1]|, BoxY(o, c, |above|));
        assert (above + [box])[..|above|] == above;
      }
    }
  }

  lemma {:induction false} LeavesOfRows(o: Options, ids: seq<string>, rows: seq<seq<Node>>, n: nat)
    requires n <= |rows| == |ids|
    ensures Leaves(PlacedRows(o, ids, rows, n)) == Concat(rows[..n])
  {
    if n > 0 {
      LeavesOfRows(o, ids, rows, n - 1);
      LeavesOfParts(PlacedRows(o, ids, rows, n - 1), PlacedRow(o, ids[n - 1], rows[n - 1]));
      LeavesOfNodes(PlacedRow(o, ids[n - 1], rows[n - 1]), rows[n - 1]);
      assert rows[..n][..n - 1] == rows[..n - 1];
    }
  }

  lemma LeavesOfRoots(o: Options, column: seq<Node>, boxes: seq<Placed>, last: seq<Node>, y: real)
    requires Leaves(boxes) == [] && |last| <= 1
    ensures Leaves(boxes + PlacedColumn(o, column) + PlacedLast(o, last, y)) == column + last
  {
    LeavesOfParts(boxes + PlacedColumn(o, column), PlacedLast(o, last, y));
    LeavesOfParts(boxes, PlacedColumn(o, column));
    LeavesOfNodes(PlacedColumn(o, column), column);
    LeavesOfNodes(PlacedLast(o, last, y), last);
  }

  // The column, the last node, and every row: nothing else, nothing twice, nothing lost.
  lemma LeavesOfLayout(o: Options, column: seq<Node>, ids: seq<string>, rows: seq<seq<Node>>, last: seq<Node>)
    requires |rows| == |ids| && |last| <= 1
    ensures Leaves(Layout(o, column, ids, rows, last)) == column + last + Concat(rows)
  {
    var boxes := Boxes(o, |column|, ids, rows, |ids|);
    BoxesHaveNoLeaves(o, |column|, ids, rows, |ids|);
    LeavesOfRoots(o, column, boxes, last, BoxY(o, |column|, |boxes|));
    LeavesOfRows(o, ids, rows, |ids|);
    LeavesOfParts(Roots(o, column, ids, rows, last), PlacedRows(o, ids, rows, |ids|));
    assert rows[..|ids|] == rows;
  }

  // What lies in one part only.
  lemma {:induction false} ConcatCounts(parts: seq<seq<Node>>, x: Node, j: nat, c: nat)
    requires forall k :: 0 <= k < |parts| ==> multiset(parts[k])[x] == if k == j then c else 0
    ensures multiset(Concat(parts))[x] == if j < |parts| then c else 0
  {
    if parts != [] {
      ConcatCounts(parts[..|parts| - 1], x, j, c);
    }
  }
}
