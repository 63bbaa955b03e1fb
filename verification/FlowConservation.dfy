/** What the flow layout keeps: every node once, in the box of its own cycle, in order of time. */
module FlowConservation {
  import opened BoxGeometry
  import opened BoxLayout
  import opened CycleDetection
  import opened Decimal
  import opened FlowLayout
  import OrderedMap
  import opened StableSorting
  import opened Text
  import opened Wrappers

  // ---- Every node has one home ----------------------------------------------------------

  // A node is a member of its home and of nothing else.
  lemma {:induction false} MembersLiveHere(nodes: seq<Node>, cycles: CycleMap, now: int, k: nat, x: Node)
    ensures multiset(Members(nodes, cycles, now, k))[x] == if Home(x, cycles, now) == k then multiset(nodes)[x] else 0
  {
    if nodes != [] {
      var front, last := nodes[..|nodes| - 1], nodes[|nodes| - 1];
      MembersLiveHere(front, cycles, now, k, x);
      assert nodes == front + [last];
    }
  }

  lemma RowKeepsMembers(nodes: seq<Node>, cycles: CycleMap, now: int, k: nat)
    requires k < |cycles|
    ensures multiset(Rows(nodes, cycles, now)[k]) == multiset(Members(nodes, cycles, now, k))
  {
    ChronologicalOrder(cycles[k].1, Members(nodes, cycles, now, k));
  }

  lemma RowsHoldTheHomes(nodes: seq<Node>, cycles: CycleMap, now: int, x: Node)
    ensures multiset(Concat(Rows(nodes, cycles, now)))[x] == if Home(x, cycles, now) < |cycles| then multiset(nodes)[x] else 0
  {
    var rows, h, c := Rows(nodes, cycles, now), Home(x, cycles, now), multiset(nodes)[x];
    forall k | 0 <= k < |rows| ensures multiset(rows[k])[x] == if k == h then c else 0 {
      RowKeepsMembers(nodes, cycles, now, k);
      MembersLiveHere(nodes, cycles, now, k, x);
    }
    ConcatCounts(rows, x, h, c);
  }

  lemma {:induction false} OrdinaryCounts(s: seq<Node>, x: Node)
    ensures multiset(Ordinary(s))[x] == if Special(x) then 0 else multiset(s)[x]
  {
    if s != [] {
      OrdinaryCounts(s[..|s| - 1], x);
      assert s == s[..|s| - 1] + [s[|s| - 1]];
    }
  }

  lemma AloneCounts(nodes: seq<Node>, cycles: CycleMap, now: int, x: Node)
    ensures multiset(Alone(nodes, cycles, now))[x] ==
            if !Special(x) && Home(x, cycles, now) == |cycles| then multiset(nodes)[x] else 0
  {
    var alone := Members(nodes, cycles, now, |cycles|);
    OrdinaryCounts(Sort(BySequence, alone), x);
    SortIsSortedPermutation(BySequence, alone);
    MembersLiveHere(nodes, cycles, now, |cycles|, x);
  }

  // ---- Conservation -----------------------------------------------------------------------

  lemma {:induction false} OnlyOne(nodes: seq<Node>, id: string)
    ensures |Only(nodes, id)| <= 1 && forall x :: x in Only(nodes, id) ==> x.id == id && x in nodes
  {
    if nodes != [] {
      OnlyOne(nodes[1..], id);
    }
  }

  // Rows that hold exactly the nodes at home in some cycle, in whatever way they share them.
  ghost predicate HoldTheHomes(nodes: seq<Node>, cycles: CycleMap, now: int, rows: seq<seq<Node>>) {
    forall x: Node :: multiset(Concat(rows))[x] == if Home(x, cycles, now) < |cycles| then multiset(nodes)[x] else 0
  }

  // A node that is neither the first nor the last of the flow appears as often as it was given;
  // of the two special nodes, the first with the name is kept.
  lemma ShownCounts(nodes: seq<Node>, cycles: CycleMap, now: int, rows: seq<seq<Node>>, x: Node)
    requires HoldTheHomes(nodes, cycles, now, rows)
    ensures multiset(Column(nodes, cycles, now) + Only(nodes, "completed") + Concat(rows))[x]
            == if Special(x) then multiset(Only(nodes, x.id))[x] else multiset(nodes)[x]
  {
    AloneCounts(nodes, cycles, now, x);
    OnlyOne(nodes, "created");
    OnlyOne(nodes, "completed");
    assert |"created"| == 7 && |"completed"| == 9;
    assert multiset(Concat(rows))[x] == if Home(x, cycles, now) < |cycles| then multiset(nodes)[x] else 0;
  }

  predicate AtMostOne(nodes: seq<Node>, id: string) {
    forall i, j :: 0 <= i < j < |nodes| ==> nodes[i].id != id || nodes[j].id != id
  }

  // The count of a special node is right for all nodes exactly when its name is used at most once.
  lemma {:induction false} OnlyCounts(nodes: seq<Node>, id: string)
    ensures (forall x: Node :: x.id == id ==> multiset(Only(nodes, id))[x] == multiset(nodes)[x]) <==> AtMostOne(nodes, id)
  {
    if nodes != [] {
      var rest := nodes[1..];
      assert nodes == [nodes[0]] + rest;
      if nodes[0].id == id {
        if j :| 0 <= j < |rest| && rest[j].id == id {
          assert rest[j] in multiset(rest);
          assert multiset(nodes)[rest[j]] == multiset{nodes[0]}[rest[j]] + multiset(rest)[rest[j]];
          assert multiset(Only(nodes, id))[rest[j]] != multiset(nodes)[rest[j]];
          assert nodes[0].id == id && nodes[j + 1].id == id;
        } else {
          assert AtMostOne(nodes, id);
        }
      } else {
        OnlyCounts(rest, id);
        assert AtMostOne(nodes, id) ==> AtMostOne(rest, id);
        assert AtMostOne(rest, id) ==> AtMostOne(nodes, id);
      }
    }
  }

  lemma ShownIff(nodes: seq<Node>, cycles: CycleMap, now: int, rows: seq<seq<Node>>)
    requires HoldTheHomes(nodes, cycles, now, rows)
    ensures multiset(Column(nodes, cycles, now) + Only(nodes, "completed") + Concat(rows)) == multiset(nodes)
            <==> AtMostOne(nodes, "created") && AtMostOne(nodes, "completed")
  {
    var shown := multiset(Column(nodes, cycles, now) + Only(nodes, "completed") + Concat(rows));
    OnlyCounts(nodes, "created");
    OnlyCounts(nodes, "completed");
    forall x: Node ensures shown[x] == if Special(x) then multiset(Only(nodes, x.id))[x] else multiset(nodes)[x] {
      ShownCounts(nodes, cycles, now, rows, x);
    }
    if AtMostOne(nodes, "created") && AtMostOne(nodes, "completed") {
      forall x: Node ensures shown[x] == multiset(nodes)[x] {
      }
    }
  }

  // However the rows share the nodes: nothing is lost and nothing is added exactly when "created"
  // and "completed" name at most one node each.
  lemma ConservedWith(nodes: seq<Node>, cycles: CycleMap, now: int, o: Options, ids: seq<string>, rows: seq<seq<Node>>)
    requires |rows| == |ids| && HoldTheHomes(nodes, cycles, now, rows)
    ensures multiset(Leaves(Layout(o, Column(nodes, cycles, now), ids, rows, Only(nodes, "completed")))) == multiset(nodes)
            <==> AtMostOne(nodes, "created") && AtMostOne(nodes, "completed")
  {
    OnlyOne(nodes, "completed");
    LeavesOfLayout(o, Column(nodes, cycles, now), ids, rows, Only(nodes, "completed"));
    ShownIff(nodes, cycles, now, rows);
  }

  lemma AllHomesHeld(nodes: seq<Node>, cycles: CycleMap, now: int)
    ensures HoldTheHomes(nodes, cycles, now, Rows(nodes, cycles, now))
  {
    forall x: Node
      ensures multiset(Concat(Rows(nodes, cycles, now)))[x] == if Home(x, cycles, now) < |cycles| then multiset(nodes)[x] else 0
    {
      RowsHoldTheHomes(nodes, cycles, now, x);
    }
  }

  lemma ConservedIff(nodes: seq<Node>, cycles: CycleMap, now: int, o: Options)
    ensures multiset(Leaves(Drawing(nodes, cycles, now, o))) == multiset(nodes)
            <==> AtMostOne(nodes, "created") && AtMostOne(nodes, "completed")
  {
    AllHomesHeld(nodes, cycles, now);
    ConservedWith(nodes, cycles, now, o, Ids(cycles), Rows(nodes, cycles, now));
  }

  lemma NodesKept(nodes: seq<Node>, cycles: CycleMap, now: int, o: Options, x: Node)
    ensures multiset(Leaves(Drawing(nodes, cycles, now, o)))[x] ==
            if Special(x) then multiset(Only(nodes, x.id))[x] else multiset(nodes)[x]
  {
    AllHomesHeld(nodes, cycles, now);
    OnlyOne(nodes, "completed");
    LeavesOfLayout(o, Column(nodes, cycles, now), Ids(cycles), Rows(nodes, cycles, now), Only(nodes, "completed"));
    ShownCounts(nodes, cycles, now, Rows(nodes, cycles, now), x);
  }

  // ---- Parents ---------------------------------------------------------------------------------

  lemma ColumnIsHome(nodes: seq<Node>, cycles: CycleMap, now: int, x: Node)
    requires x in Column(nodes, cycles, now) || x in Only(nodes, "completed")
    ensures x in nodes && Home(x, cycles, now) == |cycles|
  {
    OnlyOne(nodes, "created");
    OnlyOne(nodes, "completed");
    if x in Alone(nodes, cycles, now) {
      AloneCounts(nodes, cycles, now, x);
      assert multiset(Alone(nodes, cycles, now))[x] > 0;
    }
  }

  // A placed node names the first cycle it belongs to as its parent, and no other.
  lemma ParentIsHome(nodes: seq<Node>, cycles: CycleMap, now: int, o: Options, i: nat)
    requires i < |Drawing(nodes, cycles, now, o)| && Drawing(nodes, cycles, now, o)[i].Leaf?
    ensures var p := Drawing(nodes, cycles, now, o)[i];
            var home := Home(p.node, cycles, now);
            p.node in nodes && p.parent == if home < |cycles| then Some(cycles[home].0) else None
  {
    var ids, rows := Ids(cycles), Rows(nodes, cycles, now);
    LeafOfLayout(o, Column(nodes, cycles, now), ids, rows, Only(nodes, "completed"), i);
    var p := Drawing(nodes, cycles, now, o)[i];
    if p.parent == None {
      ColumnIsHome(nodes, cycles, now, p.node);
    } else {
      var k :| 0 <= k < |ids| && p.parent == Some(ids[k]) && p.node in rows[k];
      InItsRow(nodes, cycles, now, k, p.node);
    }
  }

  // The cycle's window, which ends with the clock while the cycle has no end.
  predicate HoldsTime(c: Cycle, t: int, now: int) {
    c.startTime <= t && match c.endTime case None => t <= now case Some(end) => t <= end
  }

  // An agent node belongs to the cycles that list its execution, a decision node to those whose
  // window holds its time, and no other node to any.
  ghost predicate Belongs(n: Node, c: Cycle, now: int) {
    || ("agent-" <= n.id && exists r :: r in c.runs && n.id == "agent-" + r.agent + "-" + Digits(r.executionIndex))
    || ("decision-" <= n.id && n.timestamp.Some? && HoldsTime(c, n.timestamp.value, now))
  }

  lemma BelongsIff(n: Node, c: Cycle, now: int)
    ensures Belongs(n, c, now) <==> !Special(n) && InCycle(n, c, now)
  {
    Prefixes(n.id);
  }

  lemma Prefixes(id: string)
    ensures "agent-" <= id <==> StartsWith(id, "agent-")
    ensures "decision-" <= id <==> StartsWith(id, "decision-")
    ensures "agent-" <= id ==> id[0] == 'a'
    ensures "decision-" <= id ==> id[0] == 'd'
    ensures id == "created" || id == "completed" ==> id[0] == 'c'
  {
    assert "agent-"[0] == 'a' && "decision-"[0] == 'd';
  }

  // The home is the first listed cycle that the node belongs to.
  lemma HomeIsFirst(n: Node, cycles: CycleMap, now: int)
    ensures var home := Home(n, cycles, now);
      && (home < |cycles| ==> Belongs(n, cycles[home].1, now))
      && (forall k :: 0 <= k < home ==> !Belongs(n, cycles[k].1, now))
  {
    forall k | 0 <= k < |cycles| ensures Belongs(n, cycles[k].1, now) <==> !Special(n) && InCycle(n, cycles[k].1, now) {
      BelongsIff(n, cycles[k].1, now);
    }
  }

  // So a node is drawn in the box of the first listed cycle it belongs to, and outside if there is none.
  lemma ParentIsFirst(nodes: seq<Node>, cycles: CycleMap, now: int, o: Options, i: nat)
    requires i < |Drawing(nodes, cycles, now, o)| && Drawing(nodes, cycles, now, o)[i].Leaf?
    ensures var p := Drawing(nodes, cycles, now, o)[i];
      && (p.parent == None <==> forall k :: 0 <= k < |cycles| ==> !Belongs(p.node, cycles[k].1, now))
      && (p.parent.Some? ==>
            exists k :: 0 <= k < |cycles| && p.parent == Some(cycles[k].0) && Belongs(p.node, cycles[k].1, now)
                        && forall l :: 0 <= l < k ==> !Belongs(p.node, cycles[l].1, now))
  {
    ParentIsHome(nodes, cycles, now, o, i);
    HomeIsFirst(Drawing(nodes, cycles, now, o)[i].node, cycles, now);
  }

  // A decision node without a time is drawn outside; one with a time t is drawn in the box of the
  // first listed cycle whose window holds t, and outside exactly when no window does.
  lemma DecisionNodeParent(nodes: seq<Node>, cycles: CycleMap, now: int, o: Options, i: nat)
    requires i < |Drawing(nodes, cycles, now, o)| && Drawing(nodes, cycles, now, o)[i].Leaf?
    requires "decision-" <= Drawing(nodes, cycles, now, o)[i].node.id
    ensures var p := Drawing(nodes, cycles, now, o)[i];
      && (p.node.timestamp == None ==> p.parent == None)
      && (p.node.timestamp.Some? ==>
            && (p.parent == None <==> forall k :: 0 <= k < |cycles| ==> !HoldsTime(cycles[k].1, p.node.timestamp.value, now))
            && (p.parent.Some? ==>
                  exists k :: 0 <= k < |cycles| && p.parent == Some(cycles[k].0)
                    && HoldsTime(cycles[k].1, p.node.timestamp.value, now)
                    && forall l :: 0 <= l < k ==> !HoldsTime(cycles[l].1, p.node.timestamp.value, now)))
  {
    var n := Drawing(nodes, cycles, now, o)[i].node;
    ParentIsFirst(nodes, cycles, now, o, i);
    Prefixes(n.id);
    forall k | 0 <= k < |cycles|
      ensures Belongs(n, cycles[k].1, now) <==> n.timestamp.Some? && HoldsTime(cycles[k].1, n.timestamp.value, now)
    {
    }
  }

  lemma InItsRow(nodes: seq<Node>, cycles: CycleMap, now: int, k: nat, x: Node)
    requires k < |cycles|
    ensures x in Rows(nodes, cycles, now)[k] <==> x in nodes && Home(x, cycles, now) == k
  {
    RowKeepsMembers(nodes, cycles, now, k);
    MembersLiveHere(nodes, cycles, now, k, x);
    assert x in Rows(nodes, cycles, now)[k] <==> multiset(Rows(nodes, cycles, now)[k])[x] > 0;
    assert x in nodes <==> multiset(nodes)[x] > 0;
  }

  // Children of one box stand left to right, a gap apart, in the order of their times.
  lemma ChildrenInOrder(nodes: seq<Node>, cycles: CycleMap, now: int, o: Options, i: nat, j: nat) returns (k: nat)
    requires OrderedMap.KeysDistinct(cycles) && i < j < |Drawing(nodes, cycles, now, o)|
    requires var all := Drawing(nodes, cycles, now, o); IsChild(all[i]) && IsChild(all[j]) && all[i].parent == all[j].parent
    ensures var all := Drawing(nodes, cycles, now, o);
            && k < |cycles| && all[i].parent == Some(cycles[k].0)
            && TimeOf(cycles[k].1, all[i].node) <= TimeOf(cycles[k].1, all[j].node)
            && (all[i].node.timestamp.Some? && all[j].node.timestamp.Some? ==>
                  all[i].node.timestamp.value <= all[j].node.timestamp.value)
            && (SizesNonNegative(o) ==> all[i].x + o.nodeWidth + o.horizontalSpacing <= all[j].x)
  {
    var a, b;
    k, a, b := SiblingsStandInOrder(o, Column(nodes, cycles, now), Ids(cycles), Rows(nodes, cycles, now), Only(nodes, "completed"), i, j);
    ChronologicalOrder(cycles[k].1, Members(nodes, cycles, now, k));
  }

  // ---- Boxes ---------------------------------------------------------------------------------

  // A cycle has a box exactly when some node has it as its home.
  lemma BoxIffOccupied(nodes: seq<Node>, cycles: CycleMap, now: int, o: Options, k: nat)
    requires OrderedMap.KeysDistinct(cycles) && k < |cycles|
    ensures HasBox(LaidBoxes(nodes, cycles, now, o), cycles[k].0) <==> exists x :: x in nodes && Home(x, cycles, now) == k
  {
    var ids := Ids(cycles);
    assert HasBox(LaidBoxes(nodes, cycles, now, o), ids[k]) <==> Rows(nodes, cycles, now)[k] != [] by {
      BoxIffRow(o, |Column(nodes, cycles, now)|, ids, Rows(nodes, cycles, now), k);
    }
    SomeoneAtHome(nodes, cycles, now, k);
  }

  // That is, when some node belongs to it and to no cycle listed before it.
  lemma BoxIffBelonging(nodes: seq<Node>, cycles: CycleMap, now: int, o: Options, k: nat)
    requires OrderedMap.KeysDistinct(cycles) && k < |cycles|
    ensures HasBox(LaidBoxes(nodes, cycles, now, o), cycles[k].0) <==>
      exists x :: x in nodes && Belongs(x, cycles[k].1, now) && forall l :: 0 <= l < k ==> !Belongs(x, cycles[l].1, now)
  {
    BoxIffOccupied(nodes, cycles, now, o, k);
    forall x: Node
      ensures Home(x, cycles, now) == k <==>
              Belongs(x, cycles[k].1, now) && forall l :: 0 <= l < k ==> !Belongs(x, cycles[l].1, now)
    {
      HomeIsFirst(x, cycles, now);
    }
  }

  lemma SomeoneAtHome(nodes: seq<Node>, cycles: CycleMap, now: int, k: nat)
    requires k < |cycles|
    ensures Rows(nodes, cycles, now)[k] != [] <==> exists x :: x in nodes && Home(x, cycles, now) == k
  {
    var row := Rows(nodes, cycles, now)[k];
    if row != [] {
      InItsRow(nodes, cycles, now, k, row[0]);
    } else {
      forall x | x in nodes ensures Home(x, cycles, now) != k {
        InItsRow(nodes, cycles, now, k, x);
      }
    }
  }

  // No cycle has two boxes.
  lemma NoBoxTwice(nodes: seq<Node>, cycles: CycleMap, now: int, o: Options, i: nat, j: nat)
    requires OrderedMap.KeysDistinct(cycles) && i < j < |LaidBoxes(nodes, cycles, now, o)|
    ensures LaidBoxes(nodes, cycles, now, o)[i].Box? && LaidBoxes(nodes, cycles, now, o)[j].Box?
    ensures LaidBoxes(nodes, cycles, now, o)[i].id != LaidBoxes(nodes, cycles, now, o)[j].id
  {
    var k, l := BoxesInOrder(o, |Column(nodes, cycles, now)|, Ids(cycles), Rows(nodes, cycles, now), |cycles|, i, j);
    assert cycles[k].0 != cycles[l].0;
  }

  // ---- The column -----------------------------------------------------------------------------

  predicate InSequence(s: seq<Node>) {
    forall i, j :: 0 <= i < j < |s| ==> Sequence(s[i].id) <= Sequence(s[j].id)
  }

  lemma OrdinaryElement(s: seq<Node>, x: Node)
    requires x in Ordinary(s)
    ensures x in s
  {
    OrdinaryCounts(s, x);
    assert multiset(Ordinary(s))[x] > 0;
  }

  lemma OneMoreInSequence(s: seq<Node>, x: Node)
    requires InSequence(s) && forall y :: y in s ==> Sequence(y.id) <= Sequence(x.id)
    ensures InSequence(s + [x])
  {
    forall i | 0 <= i < |s| ensures Sequence(s[i].id) <= Sequence(x.id) {
      assert s[i] in s;
    }
  }

  lemma {:induction false} OrdinaryInSequence(s: seq<Node>)
    requires InSequence(s)
    ensures InSequence(Ordinary(s))
  {
    if s != [] {
      var front, last := s[..|s| - 1], s[|s| - 1];
      OrdinaryInSequence(front);
      forall y | y in Ordinary(front) ensures Sequence(y.id) <= Sequence(last.id) {
        OrdinaryElement(front, y);
        var k :| 0 <= k < |front| && front[k] == y;
        assert Sequence(s[k].id) <= Sequence(s[|s| - 1].id);
      }
      OneMoreInSequence(Ordinary(front), last);
    }
  }

  lemma AloneInSequence(nodes: seq<Node>, cycles: CycleMap, now: int)
    ensures InSequence(Alone(nodes, cycles, now))
  {
    var alone := Members(nodes, cycles, now, |cycles|);
    var sorted := Sort(BySequence, alone);
    SortIsSortedPermutation(BySequence, alone);
    forall i, j | 0 <= i < j < |sorted| ensures Sequence(sorted[i].id) <= Sequence(sorted[j].id) {
      assert !BySequence(sorted[j], sorted[i]);
    }
    OrdinaryInSequence(sorted);
  }

  // From top to bottom: the created node if there is one, the standalone nodes by the number at
  // the end of their ids, the boxes (see BoxesInOrder), and the completed node if there is one.
  lemma StackInOrder(nodes: seq<Node>, cycles: CycleMap, now: int, o: Options)
    ensures var boxes := LaidBoxes(nodes, cycles, now, o);
            Stack(o, Column(nodes, cycles, now), Ids(cycles), Rows(nodes, cycles, now), Only(nodes, "completed")) ==
            PlacedColumn(o, Only(nodes, "created") + Alone(nodes, cycles, now)) + boxes
            + PlacedLast(o, Only(nodes, "completed"), BoxY(o, |Column(nodes, cycles, now)|, |boxes|))
    ensures InSequence(Alone(nodes, cycles, now))
    ensures Only(nodes, "created") == [] <==> forall x :: x in nodes ==> x.id != "created"
    ensures Only(nodes, "completed") == [] <==> forall x :: x in nodes ==> x.id != "completed"
  {
    AloneInSequence(nodes, cycles, now);
    OnlyIfPresent(nodes, "created");
    OnlyIfPresent(nodes, "completed");
  }

  // Of several nodes with the name it is the first.
  lemma {:induction false} OnlyIsFirst(nodes: seq<Node>, id: string, k: nat)
    requires k < |nodes| && nodes[k].id == id && forall i :: 0 <= i < k ==> nodes[i].id != id
    ensures Only(nodes, id) == [nodes[k]]
  {
    if k > 0 {
      OnlyIsFirst(nodes[1..], id, k - 1);
    }
  }

  // The number of an identifier is the run of digits after its last dash, 0 without one.
  lemma SequenceIsLastNumber(front: string, n: nat, tail: string)
    ensures Sequence(front + "-" + Digits(n)) == n
    ensures '-' !in tail && (exists c :: c in tail && c !in DIGITS) ==> Sequence(tail) == 0 && Sequence(front + "-" + tail) == 0
  {
    var id := front + "-" + Digits(n);
    NoDashInDigits(n);
    LastDashOf(front, Digits(n));
    assert id[|front| + 1..] == Digits(n);
    ValueOfDigits(n);
    if '-' !in tail {
      LastDashOf(front, tail);
      assert (front + "-" + tail)[|front| + 1..] == tail;
      assert LastDash(tail) == None;
    }
  }

  // ---- Ties --------------------------------------------------------------------------------------

  // The nodes at home in cycle k that have that time there, as they were given.
  function Simultaneous(nodes: seq<Node>, cycles: CycleMap, now: int, k: nat, time: int): seq<Node>
    requires k < |cycles|
  {
    if nodes == [] then []
    else (if Home(nodes[0], cycles, now) == k && TimeOf(cycles[k].1, nodes[0]) == time then [nodes[0]] else [])
         + Simultaneous(nodes[1..], cycles, now, k, time)
  }

  function OfTime(c: Cycle, row: seq<Node>, time: int): seq<Node> {
    if row == [] then []
    else OfTime(c, row[..|row| - 1], time) + (if TimeOf(c, row[|row| - 1]) == time then [row[|row| - 1]] else [])
  }

  lemma {:induction false} TiesAreOfOneTime(c: Cycle, row: seq<Node>, x: Node)
    ensures Ties((a, b) => ByTimeIn(c, a, b), row, x) == OfTime(c, row, TimeOf(c, x))
  {
    if row != [] {
      TiesAreOfOneTime(c, row[..|row| - 1], x);
    }
  }

  lemma {:induction false} SimultaneousFront(nodes: seq<Node>, cycles: CycleMap, now: int, k: nat, time: int)
    requires k < |cycles| && nodes != []
    ensures var last := nodes[|nodes| - 1];
      Simultaneous(nodes, cycles, now, k, time)
      == Simultaneous(nodes[..|nodes| - 1], cycles, now, k, time)
         + (if Home(last, cycles, now) == k && TimeOf(cycles[k].1, last) == time then [last] else [])
  {
    if |nodes| > 1 {
      assert nodes[1..][..|nodes| - 2] == nodes[..|nodes| - 1][1..];
      SimultaneousFront(nodes[1..], cycles, now, k, time);
    }
  }

  lemma {:induction false} MembersOfTime(nodes: seq<Node>, cycles: CycleMap, now: int, k: nat, time: int)
    requires k < |cycles|
    ensures OfTime(cycles[k].1, Members(nodes, cycles, now, k), time) == Simultaneous(nodes, cycles, now, k, time)
  {
    if nodes != [] {
      var front, last := nodes[..|nodes| - 1], nodes[|nodes| - 1];
      MembersOfTime(front, cycles, now, k, time);
      SimultaneousFront(nodes, cycles, now, k, time);
      var m := Members(front, cycles, now, k);
      if Home(last, cycles, now) == k {
        assert (m + [last])[..|m|] == m;
        assert Members(nodes, cycles, now, k) == m + [last];
      } else {
        assert Members(nodes, cycles, now, k) == m;
      }
    }
  }

  // Nodes of one row that share a time keep the order they were given in.
  lemma RowKeepsTies(nodes: seq<Node>, cycles: CycleMap, now: int, k: nat, x: Node)
    requires k < |cycles|
    ensures var time := TimeOf(cycles[k].1, x);
      OfTime(cycles[k].1, Rows(nodes, cycles, now)[k], time) == Simultaneous(nodes, cycles, now, k, time)
  {
    var c, row := cycles[k].1, Members(nodes, cycles, now, k);
    var lt := (a, b) => ByTimeIn(c, a, b);
    SortIsStable(lt, row, x);
    TiesAreOfOneTime(c, row, x);
    TiesAreOfOneTime(c, Sort(lt, row), x);
    MembersOfTime(nodes, cycles, now, k, TimeOf(c, x));
  }

  lemma {:induction false} OnlyIfPresent(nodes: seq<Node>, id: string)
    ensures Only(nodes, id) == [] <==> forall x :: x in nodes ==> x.id != id
  {
    if nodes != [] {
      assert nodes == [nodes[0]] + nodes[1..];
      OnlyIfPresent(nodes[1..], id);
    }
  }
}
