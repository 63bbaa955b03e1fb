/** Where boxes and nodes stand: roots stacked without overlap, children in rows inside their boxes. */
module BoxGeometry {
  import opened BoxLayout
  import opened Distinctness
  import opened Wrappers

  predicate SizesNonNegative(o: Options) {
    o.nodeWidth >= 0.0 && o.nodeHeight >= 0.0 && o.horizontalSpacing >= 0.0
    && o.verticalSpacing >= 0.0 && o.cycleGap >= 0.0 && o.cyclePadding >= 0.0
  }

  // ---- Boxes ---------------------------------------------------------------------------

  // Every box is that of a row that is not empty.
  lemma {:induction false} RowOfBox(o: Options, c: nat, ids: seq<string>, rows: seq<seq<Node>>, n: nat, j: nat) returns (k: nat)
    requires n <= |rows| == |ids| && j < |Boxes(o, c, ids, rows, n)|
    ensures k < n && rows[k] != [] && Boxes(o, c, ids, rows, n)[j] == PlacedBox(o, ids[k], |rows[k]|, BoxY(o, c, j))
  {
    if j < |Boxes(o, c, ids, rows, n - 1)| {
      k := RowOfBox(o, c, ids, rows, n - 1, j);
    } else {
      k := n - 1;
    }
  }

  lemma {:induction false} BoxOfRow(o: Options, c: nat, ids: seq<string>, rows: seq<seq<Node>>, n: nat, k: nat) returns (j: nat)
    requires k < n <= |rows| == |ids| && rows[k] != []
    ensures j < |Boxes(o, c, ids, rows, n)| && Boxes(o, c, ids, rows, n)[j] == PlacedBox(o, ids[k], |rows[k]|, BoxY(o, c, j))
  {
    if k < n - 1 {
      j := BoxOfRow(o, c, ids, rows, n - 1, k);
    } else {
      j := |Boxes(o, c, ids, rows, n - 1)|;
    }
  }

  // Boxes stand in the order of their rows, so no id has two.
  lemma {:induction false} BoxesInOrder(o: Options, c: nat, ids: seq<string>, rows: seq<seq<Node>>, n: nat, i: nat, j: nat)
      returns (k: nat, l: nat)
    requires n <= |rows| == |ids| && i < j < |Boxes(o, c, ids, rows, n)|
    ensures k < l < n && rows[k] != [] && rows[l] != []
    ensures Boxes(o, c, ids, rows, n)[i] == PlacedBox(o, ids[k], |rows[k]|, BoxY(o, c, i))
    ensures Boxes(o, c, ids, rows, n)[j] == PlacedBox(o, ids[l], |rows[l]|, BoxY(o, c, j))
  {
    var above := Boxes(o, c, ids, rows, n - 1);
    if j < |above| {
      k, l := BoxesInOrder(o, c, ids, rows, n - 1, i, j);
    } else {
      k := RowOfBox(o, c, ids, rows, n - 1, i);
      l := n - 1;
    }
  }

  predicate HasBox(boxes: seq<Placed>, id: string) {
    exists j :: 0 <= j < |boxes| && boxes[j].Box? && boxes[j].id == id
  }

  // A row has a box exactly when it is not empty.
  lemma BoxIffRow(o: Options, c: nat, ids: seq<string>, rows: seq<seq<Node>>, k: nat)
    requires Distinct(ids) && k < |rows| == |ids|
    ensures HasBox(Boxes(o, c, ids, rows, |ids|), ids[k]) <==> rows[k] != []
  {
    var boxes := Boxes(o, c, ids, rows, |ids|);
    if rows[k] != [] {
      var j := BoxOfRow(o, c, ids, rows, |ids|, k);
    } else {
      forall j | 0 <= j < |boxes| && boxes[j].Box? ensures boxes[j].id != ids[k] {
        var l := RowOfBox(o, c, ids, rows, |ids|, j);
        assert l < k ==> ids[l] != ids[k];
        assert k < l ==> ids[k] != ids[l];
      }
    }
  }

  // ---- Children ------------------------------------------------------------------------

  lemma Scale(a: nat, b: nat, w: real)
    requires a <= b && w >= 0.0
    ensures a as real * w <= b as real * w
  {
    assert (b - a) as real * w >= 0.0;
  }

  // A child in its box: it names the box and stays inside the padding, touching it above and below.
  ghost predicate FitsIn(child: Placed, box: Placed, o: Options) {
    && child.Leaf? && box.Box? && child.parent == Some(box.id)
    && (SizesNonNegative(o) ==>
          && o.cyclePadding <= child.x && child.x + o.nodeWidth <= box.width - o.cyclePadding
          && child.y == o.cyclePadding && child.y + o.nodeHeight == box.height - o.cyclePadding)
  }

  lemma InRowFits(o: Options, id: string, n: Node, i: nat, count: nat, y: real)
    requires i < count
    ensures FitsIn(InRow(o, id, n, i), PlacedBox(o, id, count, y), o)
    ensures i == count - 1 ==> InRow(o, id, n, i).x + o.nodeWidth == BoxWidth(o, count) - o.cyclePadding
  {
    var w := o.nodeWidth + o.horizontalSpacing;
    if SizesNonNegative(o) {
      Scale(0, i, w);
      Scale(i + 1, count, w);
    }
    assert (i + 1) as real * w == i as real * w + w;
  }

  lemma RowGap(o: Options, id: string, m: Node, n: Node, i: nat, j: nat)
    requires SizesNonNegative(o) && i < j
    ensures InRow(o, id, m, i).x + o.nodeWidth + o.horizontalSpacing <= InRow(o, id, n, j).x
  {
    var w := o.nodeWidth + o.horizontalSpacing;
    Scale(i + 1, j, w);
    assert (i + 1) as real * w == i as real * w + w;
  }

  // Every child is an element of some row.
  lemma {:induction false} RowOfChild(o: Options, ids: seq<string>, rows: seq<seq<Node>>, n: nat, r: nat) returns (k: nat, i: nat)
    requires n <= |rows| == |ids| && r < |PlacedRows(o, ids, rows, n)|
    ensures k < n && i < |rows[k]| && PlacedRows(o, ids, rows, n)[r] == InRow(o, ids[k], rows[k][i], i)
  {
    var front := PlacedRows(o, ids, rows, n - 1);
    if r < |front| {
      k, i := RowOfChild(o, ids, rows, n - 1, r);
    } else {
      k, i := n - 1, r - |front|;
    }
  }

  lemma {:induction false} ChildOfRow(o: Options, ids: seq<string>, rows: seq<seq<Node>>, n: nat, k: nat, i: nat) returns (r: nat)
    requires k < n <= |rows| == |ids| && i < |rows[k]|
    ensures r < |PlacedRows(o, ids, rows, n)| && PlacedRows(o, ids, rows, n)[r] == InRow(o, ids[k], rows[k][i], i)
  {
    if k < n - 1 {
      r := ChildOfRow(o, ids, rows, n - 1, k, i);
    } else {
      r := |PlacedRows(o, ids, rows, n - 1)| + i;
    }
  }

  lemma OtherParent(o: Options, ids: seq<string>, rows: seq<seq<Node>>, n: nat, r: nat)
    requires Distinct(ids) && n < |rows| == |ids| && r < |PlacedRows(o, ids, rows, n)|
    ensures PlacedRows(o, ids, rows, n)[r].Leaf? && PlacedRows(o, ids, rows, n)[r].parent != Some(ids[n])
  {
    var k, i := RowOfChild(o, ids, rows, n, r);
    assert ids[k] != ids[n];
  }

  // Children with one parent are elements of one row, in its order.
  lemma {:induction false} SiblingsOfRow(o: Options, ids: seq<string>, rows: seq<seq<Node>>, n: nat, r: nat, s: nat)
      returns (k: nat, i: nat, j: nat)
    requires Distinct(ids) && n <= |rows| == |ids| && r < s < |PlacedRows(o, ids, rows, n)|
    requires PlacedRows(o, ids, rows, n)[r].Leaf? && PlacedRows(o, ids, rows, n)[s].Leaf?
    requires PlacedRows(o, ids, rows, n)[r].parent == PlacedRows(o, ids, rows, n)[s].parent
    ensures k < n && i < j < |rows[k]|
    ensures PlacedRows(o, ids, rows, n)[r] == InRow(o, ids[k], rows[k][i], i)
    ensures PlacedRows(o, ids, rows, n)[s] == InRow(o, ids[k], rows[k][j], j)
  {
    var front := PlacedRows(o, ids, rows, n - 1);
    if s < |front| {
      k, i, j := SiblingsOfRow(o, ids, rows, n - 1, r, s);
    } else {
      k, j := n - 1, s - |front|;
      assert r >= |front| by {
        if r < |front| {
          OtherParent(o, ids, rows, n - 1, r);
        }
      }
      i := r - |front|;
    }
  }

  // ---- The result ----------------------------------------------------------------------

  predicate IsChild(p: Placed) {
    p.Leaf? && p.parent != None
  }

  lemma RootsHaveNoParent(o: Options, column: seq<Node>, ids: seq<string>, rows: seq<seq<Node>>, last: seq<Node>)
    requires |rows| == |ids|
    ensures forall i :: 0 <= i < |Roots(o, column, ids, rows, last)| ==> !IsChild(Roots(o, column, ids, rows, last)[i])
  {
    var boxes := Boxes(o, |column|, ids, rows, |ids|);
    forall i | 0 <= i < |boxes| ensures boxes[i].Box? {
      var k := RowOfBox(o, |column|, ids, rows, |ids|, i);
    }
  }

  // A root that is no box is an element of the column or the last node.
  lemma LeafAmongRoots(o: Options, column: seq<Node>, ids: seq<string>, rows: seq<seq<Node>>, last: seq<Node>, i: nat)
    requires |rows| == |ids| && i < |Roots(o, column, ids, rows, last)| && Roots(o, column, ids, rows, last)[i].Leaf?
    ensures var p := Roots(o, column, ids, rows, last)[i]; p.parent == None && (p.node in column || p.node in last)
  {
    var boxes, p := Boxes(o, |column|, ids, rows, |ids|), Roots(o, column, ids, rows, last)[i];
    if i < |boxes| {
      var k := RowOfBox(o, |column|, ids, rows, |ids|, i);
    } else if i < |boxes| + |column| {
      assert p == PlacedColumn(o, column)[i - |boxes|];
    }
  }

  // In a result the children are what comes after the roots.
  lemma RootsThenRows(o: Options, column: seq<Node>, ids: seq<string>, rows: seq<seq<Node>>, last: seq<Node>, i: nat)
    requires |rows| == |ids| && i < |Layout(o, column, ids, rows, last)|
    ensures var all, roots := Layout(o, column, ids, rows, last), Roots(o, column, ids, rows, last);
            && (IsChild(all[i]) <==> i >= |roots|)
            && (i < |roots| ==> all[i] == roots[i])
            && (i >= |roots| ==> i - |roots| < |PlacedRows(o, ids, rows, |ids|)| && all[i] == PlacedRows(o, ids, rows, |ids|)[i - |roots|])
  {
    RootsHaveNoParent(o, column, ids, rows, last);
    var roots := Roots(o, column, ids, rows, last);
    if i >= |roots| {
      var k, a := RowOfChild(o, ids, rows, |ids|, i - |roots|);
    }
  }

  // A leaf of a result is an element of the column or the last node, without parent, or one of a
  // row, with that row's id as parent.
  lemma LeafOfLayout(o: Options, column: seq<Node>, ids: seq<string>, rows: seq<seq<Node>>, last: seq<Node>, i: nat)
    requires |rows| == |ids| && i < |Layout(o, column, ids, rows, last)| && Layout(o, column, ids, rows, last)[i].Leaf?
    ensures var p := Layout(o, column, ids, rows, last)[i];
            || (p.parent == None && (p.node in column || p.node in last))
            || exists k :: 0 <= k < |ids| && p.parent == Some(ids[k]) && p.node in rows[k]
  {
    RootsThenRows(o, column, ids, rows, last, i);
    var n := |Roots(o, column, ids, rows, last)|;
    if i < n {
      LeafAmongRoots(o, column, ids, rows, last, i);
    } else {
      var k, a := RowOfChild(o, ids, rows, |ids|, i - n);
      assert rows[k][a] in rows[k];
    }
  }

  // Every child comes after the box it belongs to, and fits in it.
  lemma ParentsComeFirst(o: Options, column: seq<Node>, ids: seq<string>, rows: seq<seq<Node>>, last: seq<Node>, i: nat)
      returns (j: nat)
    requires |rows| == |ids| && i < |Layout(o, column, ids, rows, last)| && IsChild(Layout(o, column, ids, rows, last)[i])
    ensures j < i && FitsIn(Layout(o, column, ids, rows, last)[i], Layout(o, column, ids, rows, last)[j], o)
  {
    RootsThenRows(o, column, ids, rows, last, i);
    var k, a := RowOfChild(o, ids, rows, |ids|, i - |Roots(o, column, ids, rows, last)|);
    j := BoxOfRow(o, |column|, ids, rows, |ids|, k);
    InRowFits(o, ids[k], rows[k][a], a, |rows[k]|, BoxY(o, |column|, j));
  }

  // Children of one box are elements of one row, in its order, left to right and a gap apart.
  lemma SiblingsStandInOrder(o: Options, column: seq<Node>, ids: seq<string>, rows: seq<seq<Node>>, last: seq<Node>, i: nat, j: nat)
      returns (k: nat, a: nat, b: nat)
    requires Distinct(ids) && |rows| == |ids| && i < j < |Layout(o, column, ids, rows, last)|
    requires var all := Layout(o, column, ids, rows, last); IsChild(all[i]) && IsChild(all[j]) && all[i].parent == all[j].parent
    ensures var all := Layout(o, column, ids, rows, last);
            && k < |rows| && a < b < |rows[k]| && all[i].parent == Some(ids[k])
            && all[i].node == rows[k][a] && all[j].node == rows[k][b]
            && (SizesNonNegative(o) ==> all[i].x + o.nodeWidth + o.horizontalSpacing <= all[j].x)
            && (b == a + 1 ==> all[j].x == all[i].x + o.nodeWidth + o.horizontalSpacing)
  {
    RootsThenRows(o, column, ids, rows, last, i);
    RootsThenRows(o, column, ids, rows, last, j);
    var n := |Roots(o, column, ids, rows, last)|;
    k, a, b := SiblingsOfRow(o, ids, rows, |ids|, i - n, j - n);
    if SizesNonNegative(o) {
      RowGap(o, ids[k], rows[k][a], rows[k][b], a, b);
    }
    if b == a + 1 {
      var w := o.nodeWidth + o.horizontalSpacing;
      assert (a + 1) as real * w == a as real * w + w;
    }
  }

  // Every box is that of a row, counts its nodes, and is as high as a node and the padding.
  lemma BoxOfItsRow(o: Options, column: seq<Node>, ids: seq<string>, rows: seq<seq<Node>>, last: seq<Node>, j: nat) returns (k: nat)
    requires |rows| == |ids| && j < |Layout(o, column, ids, rows, last)| && Layout(o, column, ids, rows, last)[j].Box?
    ensures var box := Layout(o, column, ids, rows, last)[j];
            && k < |ids| && rows[k] != [] && box.id == ids[k] && box.count == |rows[k]|
            && box.height == o.cyclePadding + o.nodeHeight + o.cyclePadding
  {
    BoxesComeFirst(o, column, ids, rows, last, j);
    k := RowOfBox(o, |column|, ids, rows, |ids|, j);
  }

  // Every box in a result is filled: a child touches the padding on its left, one on its right.
  lemma RowFillsBox(o: Options, column: seq<Node>, ids: seq<string>, rows: seq<seq<Node>>, last: seq<Node>, j: nat)
      returns (first: nat, final: nat)
    requires |rows| == |ids| && j < |Layout(o, column, ids, rows, last)| && Layout(o, column, ids, rows, last)[j].Box?
    ensures var all := Layout(o, column, ids, rows, last);
            && first < |all| && final < |all| && IsChild(all[first]) && IsChild(all[final])
            && all[first].parent == Some(all[j].id) && all[first].x == o.cyclePadding
            && all[final].parent == Some(all[j].id) && all[final].x + o.nodeWidth == all[j].width - o.cyclePadding
  {
    var n, boxes := |Roots(o, column, ids, rows, last)|, Boxes(o, |column|, ids, rows, |ids|);
    RootsThenRows(o, column, ids, rows, last, j);
    assert j < |boxes| by {
      BoxesComeFirst(o, column, ids, rows, last, j);
    }
    var k := RowOfBox(o, |column|, ids, rows, |ids|, j);
    var count := |rows[k]|;
    first := ChildOfRow(o, ids, rows, |ids|, k, 0);
    final := ChildOfRow(o, ids, rows, |ids|, k, count - 1);
    InRowFits(o, ids[k], rows[k][count - 1], count - 1, count, 0.0);
    first, final := n + first, n + final;
  }

  lemma BoxesComeFirst(o: Options, column: seq<Node>, ids: seq<string>, rows: seq<seq<Node>>, last: seq<Node>, j: nat)
    requires |rows| == |ids| && j < |Layout(o, column, ids, rows, last)|
    ensures Layout(o, column, ids, rows, last)[j].Box? <==> j < |Boxes(o, |column|, ids, rows, |ids|)|
    ensures j < |Boxes(o, |column|, ids, rows, |ids|)| ==>
              Layout(o, column, ids, rows, last)[j] == Boxes(o, |column|, ids, rows, |ids|)[j]
  {
    RootsThenRows(o, column, ids, rows, last, j);
    var boxes := Boxes(o, |column|, ids, rows, |ids|);
    if j < |boxes| {
      var k := RowOfBox(o, |column|, ids, rows, |ids|, j);
    } else if j >= |Roots(o, column, ids, rows, last)| {
      var k, a := RowOfChild(o, ids, rows, |ids|, j - |Roots(o, column, ids, rows, last)|);
    }
  }

  // ---- Roots -----------------------------------------------------------------------------

  function Height(p: Placed, o: Options): real {
    if p.Box? then p.height else o.nodeHeight
  }

  predicate Above(a: Placed, b: Placed, o: Options) {
    a.y + Height(a, o) <= b.y
  }

  predicate VerticallyDisjoint(a: Placed, b: Placed, o: Options) {
    Above(a, b, o) || Above(b, a, o)
  }

  // The roots from top to bottom: the column, the boxes, the last node.
  function Stack(o: Options, column: seq<Node>, ids: seq<string>, rows: seq<seq<Node>>, last: seq<Node>): seq<Placed>
    requires |rows| == |ids|
  {
    var boxes := Boxes(o, |column|, ids, rows, |ids|);
    PlacedColumn(o, column) + boxes + PlacedLast(o, last, BoxY(o, |column|, |boxes|))
  }

  // The vertical position of the i-th item of a stack of n nodes, then boxes.
  function StackY(o: Options, n: nat, i: nat): real {
    if i < n then ColumnY(o, i) else BoxY(o, n, i - n)
  }

  // Everything stands where it should: n nodes, then boxes, then perhaps one more node.
  ghost predicate IsStack(s: seq<Placed>, o: Options, n: nat) {
    n <= |s| && forall i :: 0 <= i < |s| ==>
      && s[i].y == StackY(o, n, i)
      && Height(s[i], o) == (if s[i].Box? then BoxHeight(o) else o.nodeHeight)
      && (i < n ==> s[i].Leaf?) && (n <= i < |s| - 1 ==> s[i].Box?)
  }

  lemma PartsStack(o: Options, top: seq<Placed>, boxes: seq<Placed>, last: seq<Placed>)
    requires forall i :: 0 <= i < |top| ==> top[i].Leaf? && top[i].y == ColumnY(o, i)
    requires forall j :: 0 <= j < |boxes| ==> boxes[j].Box? && boxes[j].y == BoxY(o, |top|, j) && boxes[j].height == BoxHeight(o)
    requires last == [] || (|last| == 1 && last[0].Leaf? && last[0].y == BoxY(o, |top|, |boxes|))
    ensures IsStack(top + boxes + last, o, |top|)
  {
    var s, n := top + boxes + last, |top|;
    forall i | 0 <= i < |s|
      ensures s[i].y == StackY(o, n, i) && Height(s[i], o) == (if s[i].Box? then BoxHeight(o) else o.nodeHeight)
      ensures (i < n ==> s[i].Leaf?) && (n <= i < |s| - 1 ==> s[i].Box?)
    {
      assert s[i] == if i < n then top[i] else if i < n + |boxes| then boxes[i - n] else last[0];
    }
  }

  lemma StackIsOne(o: Options, column: seq<Node>, ids: seq<string>, rows: seq<seq<Node>>, last: seq<Node>)
    requires |rows| == |ids|
    ensures IsStack(Stack(o, column, ids, rows, last), o, |column|)
  {
    var boxes := Boxes(o, |column|, ids, rows, |ids|);
    forall j | 0 <= j < |boxes|
      ensures boxes[j].Box? && boxes[j].y == BoxY(o, |column|, j) && boxes[j].height == BoxHeight(o)
    {
      var k := RowOfBox(o, |column|, ids, rows, |ids|, j);
    }
    PartsStack(o, PlacedColumn(o, column), boxes, PlacedLast(o, last, BoxY(o, |column|, |boxes|)));
  }

  lemma StackStep(o: Options, n: nat, i: nat)
    ensures StackY(o, n, i + 1) == StackY(o, n, i) + (if i < n then o.verticalSpacing else BoxHeight(o) + o.cycleGap + o.verticalSpacing)
  {
    if i < n {
      assert (i + 1) as real * o.verticalSpacing == i as real * o.verticalSpacing + o.verticalSpacing;
      assert BoxY(o, n, 0) == ColumnY(o, n);
    } else {
      NextBoxY(o, n, i - n);
    }
  }

  function Width(p: Placed, o: Options): real {
    if p.Box? then p.width else o.nodeWidth
  }

  // The stack is centred and begins at 100; after a node of the column comes the vertical spacing,
  // after a box its height, the cycle gap and the vertical spacing.
  lemma StackSteps(o: Options, column: seq<Node>, ids: seq<string>, rows: seq<seq<Node>>, last: seq<Node>, i: nat)
    requires |rows| == |ids| && i < |Stack(o, column, ids, rows, last)|
    ensures var s := Stack(o, column, ids, rows, last);
      && s[0].y == 100.0
      && s[i].x + Width(s[i], o) / 2.0 == o.centerX
      && (i + 1 < |s| ==> s[i + 1].y == s[i].y + (if s[i].Box? then s[i].height + o.cycleGap + o.verticalSpacing else o.verticalSpacing))
  {
    StackIsOne(o, column, ids, rows, last);
    StackStep(o, |column|, i);
    StackIsCentred(o, column, ids, rows, last, i);
  }

  lemma StackIsCentred(o: Options, column: seq<Node>, ids: seq<string>, rows: seq<seq<Node>>, last: seq<Node>, i: nat)
    requires |rows| == |ids| && i < |Stack(o, column, ids, rows, last)|
    ensures var p := Stack(o, column, ids, rows, last)[i]; p.x + Width(p, o) / 2.0 == o.centerX
  {
    var boxes := Boxes(o, |column|, ids, rows, |ids|);
    if |column| <= i < |column| + |boxes| {
      var k := RowOfBox(o, |column|, ids, rows, |ids|, i - |column|);
      assert Stack(o, column, ids, rows, last)[i] == boxes[i - |column|];
    }
  }

  lemma {:induction false} StackDescends(o: Options, n: nat, i: nat, j: nat)
    requires SizesNonNegative(o) && i <= j
    ensures StackY(o, n, i) <= StackY(o, n, j)
  {
    if i < j {
      StackDescends(o, n, i, j - 1);
      StackStep(o, n, j - 1);
    }
  }

  lemma StackedIfSpaced(s: seq<Placed>, o: Options, n: nat, i: nat, j: nat)
    requires IsStack(s, o, n) && SizesNonNegative(o) && (o.verticalSpacing >= o.nodeHeight || n == 0)
    requires i < j < |s|
    ensures Above(s[i], s[j], o)
  {
    StackStep(o, n, i);
    StackDescends(o, n, i + 1, j);
  }

  // Where the i-th of a + b + c is found in b + a + c.
  function SwappedIndex(m: nat, n: nat, i: nat): nat {
    if i < m then n + i else if i < m + n then i - m else i
  }

  lemma Swapped<T>(a: seq<T>, b: seq<T>, c: seq<T>, i: nat)
    requires i < |a + b + c|
    ensures SwappedIndex(|a|, |b|, i) < |b + a + c| && (b + a + c)[SwappedIndex(|a|, |b|, i)] == (a + b + c)[i]
  {
  }

  // The roots of the result are the stack with its first two parts swapped.
  lemma RootInStack(o: Options, column: seq<Node>, ids: seq<string>, rows: seq<seq<Node>>, last: seq<Node>, i: nat) returns (s: nat)
    requires |rows| == |ids| && i < |Roots(o, column, ids, rows, last)|
    ensures s < |Stack(o, column, ids, rows, last)| && Stack(o, column, ids, rows, last)[s] == Roots(o, column, ids, rows, last)[i]
    ensures s == SwappedIndex(|Boxes(o, |column|, ids, rows, |ids|)|, |column|, i)
  {
    var boxes := Boxes(o, |column|, ids, rows, |ids|);
    Swapped(boxes, PlacedColumn(o, column), PlacedLast(o, last, BoxY(o, |column|, |boxes|)), i);
    s := SwappedIndex(|boxes|, |column|, i);
  }

  // With room for a node in the vertical spacing, or no node above the boxes, no two roots of the
  // result overlap.
  lemma RootsDisjoint(o: Options, column: seq<Node>, ids: seq<string>, rows: seq<seq<Node>>, last: seq<Node>, i: nat, j: nat)
    requires SizesNonNegative(o) && (o.verticalSpacing >= o.nodeHeight || column == []) && |rows| == |ids|
    requires i < j < |Layout(o, column, ids, rows, last)|
    requires !IsChild(Layout(o, column, ids, rows, last)[i]) && !IsChild(Layout(o, column, ids, rows, last)[j])
    ensures VerticallyDisjoint(Layout(o, column, ids, rows, last)[i], Layout(o, column, ids, rows, last)[j], o)
  {
    RootsThenRows(o, column, ids, rows, last, i);
    RootsThenRows(o, column, ids, rows, last, j);
    var a := RootInStack(o, column, ids, rows, last, i);
    var b := RootInStack(o, column, ids, rows, last, j);
    StackIsOne(o, column, ids, rows, last);
    StackedIfSpaced(Stack(o, column, ids, rows, last), o, |column|, if a < b then a else b, if a < b then b else a);
  }

  lemma TightPairOverlaps(a: Placed, b: Placed, o: Options)
    requires SizesNonNegative(o) && o.nodeHeight > o.verticalSpacing
    requires b.y == a.y + o.verticalSpacing && Height(a, o) == o.nodeHeight
    requires Height(b, o) == BoxHeight(o) || Height(b, o) == o.nodeHeight
    ensures !VerticallyDisjoint(a, b, o)
  {
  }

  // Without it the first node of the column runs into whatever follows it.
  lemma TooTightOverlaps(s: seq<Placed>, o: Options, n: nat)
    requires IsStack(s, o, n) && SizesNonNegative(o) && o.nodeHeight > o.verticalSpacing
    requires n > 0 && |s| > 1
    ensures !VerticallyDisjoint(s[0], s[1], o)
  {
    StackStep(o, n, 0);
    TightPairOverlaps(s[0], s[1], o);
  }

  // Every item of the stack is a root of the result, no two the same.
  lemma StackInRoots(o: Options, column: seq<Node>, ids: seq<string>, rows: seq<seq<Node>>, last: seq<Node>, s: nat) returns (i: nat)
    requires |rows| == |ids| && s < |Stack(o, column, ids, rows, last)|
    ensures i < |Roots(o, column, ids, rows, last)| && Roots(o, column, ids, rows, last)[i] == Stack(o, column, ids, rows, last)[s]
    ensures i == SwappedIndex(|column|, |Boxes(o, |column|, ids, rows, |ids|)|, s)
  {
    var boxes := Boxes(o, |column|, ids, rows, |ids|);
    Swapped(PlacedColumn(o, column), boxes, PlacedLast(o, last, BoxY(o, |column|, |boxes|)), s);
    i := SwappedIndex(|column|, |boxes|, s);
  }

  ghost predicate RootsApart(all: seq<Placed>, o: Options) {
    forall i, j :: 0 <= i < j < |all| && !IsChild(all[i]) && !IsChild(all[j]) ==> VerticallyDisjoint(all[i], all[j], o)
  }

  // So the spacing decides whether the roots of the result overlap, unless the column is empty or
  // there is but one root.
  lemma RootsDisjointIff(o: Options, column: seq<Node>, ids: seq<string>, rows: seq<seq<Node>>, last: seq<Node>)
    requires SizesNonNegative(o) && |rows| == |ids|
    ensures RootsApart(Layout(o, column, ids, rows, last), o)
            <==> o.verticalSpacing >= o.nodeHeight || column == [] || |Roots(o, column, ids, rows, last)| <= 1
  {
    var all := Layout(o, column, ids, rows, last);
    if |Roots(o, column, ids, rows, last)| <= 1 {
      forall j | 0 < j < |all| ensures IsChild(all[j]) {
        RootsThenRows(o, column, ids, rows, last, j);
      }
    } else if o.verticalSpacing >= o.nodeHeight || column == [] {
      forall i, j | 0 <= i < j < |all| && !IsChild(all[i]) && !IsChild(all[j]) ensures VerticallyDisjoint(all[i], all[j], o) {
        RootsDisjoint(o, column, ids, rows, last, i, j);
      }
    } else {
      var s := Stack(o, column, ids, rows, last);
      StackIsOne(o, column, ids, rows, last);
      TooTightOverlaps(s, o, |column|);
      var a := StackInRoots(o, column, ids, rows, last, 0);
      var b := StackInRoots(o, column, ids, rows, last, 1);
      RootsThenRows(o, column, ids, rows, last, a);
      RootsThenRows(o, column, ids, rows, last, b);
      assert all[a] == s[0] && all[b] == s[1] && a != b;
      assert !VerticallyDisjoint(all[a], all[b], o) && !VerticallyDisjoint(all[b], all[a], o);
    }
  }
}
