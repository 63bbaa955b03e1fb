/**
 * Redirecting the edges of collapsed cycles: nodes of a collapsed cycle are drawn as one,
 * and what was an edge between nodes becomes an edge between their images.
 */
module EdgeQuotient {
  import opened Distinctness
  import opened Text

  // The rest of an edge's properties travel with it.
  datatype Edge = Edge(id: string, source: string, target: string)

  // The cycles in map order: the key, and whether the cycle is collapsed.
  type Cycles = seq<(string, bool)>

  function CyclePrefix(agent: string): string {
    "agent-" + agent + "-"
  }

  function BoxId(agent: string): string {
    "cycle-" + agent
  }

  predicate Claims(cycles: Cycles, k: nat, node: string)
    requires k < |cycles|
  {
    cycles[k].1 && StartsWith(node, CyclePrefix(cycles[k].0))
  }

  // Where a node is drawn: the box of the last collapsed cycle that claims it, or its own place.
  function Image(cycles: Cycles, node: string): string {
    if cycles == [] then node
    else
      var n := |cycles| - 1;
      if Claims(cycles, n, node) then BoxId(cycles[n].0) else Image(cycles[..n], node)
  }

  lemma {:induction false} LastClaim(cycles: Cycles, node: string)
    ensures (exists k :: 0 <= k < |cycles| && Claims(cycles, k, node) && Image(cycles, node) == BoxId(cycles[k].0)
                         && forall l :: k < l < |cycles| ==> !Claims(cycles, l, node))
         || (Image(cycles, node) == node && forall l :: 0 <= l < |cycles| ==> !Claims(cycles, l, node))
  {
    if cycles != [] {
      var n := |cycles| - 1;
      if !Claims(cycles, n, node) {
        LastClaim(cycles[..n], node);
        assert forall l :: 0 <= l < n ==> Claims(cycles[..n], l, node) == Claims(cycles, l, node);
        if k :| 0 <= k < n && Claims(cycles[..n], k, node) && Image(cycles[..n], node) == BoxId(cycles[..n][k].0)
                && forall l :: k < l < n ==> !Claims(cycles[..n], l, node) {
          assert Claims(cycles, k, node) && Image(cycles, node) == BoxId(cycles[k].0);
        }
      }
    }
  }

  // A node whose id begins with the names of collapsed cycles is drawn as the box of the last of
  // them; every other node, and one that only open cycles name, stays as it is.
  lemma ImageIsLastClaim(cycles: Cycles, node: string)
    ensures (exists k :: 0 <= k < |cycles| && cycles[k].1 && "agent-" + cycles[k].0 + "-" <= node
                         && Image(cycles, node) == "cycle-" + cycles[k].0
                         && forall l :: k < l < |cycles| && cycles[l].1 ==> !("agent-" + cycles[l].0 + "-" <= node))
         || (Image(cycles, node) == node
             && forall l :: 0 <= l < |cycles| && cycles[l].1 ==> !("agent-" + cycles[l].0 + "-" <= node))
  {
    LastClaim(cycles, node);
    forall k | 0 <= k < |cycles| ensures Claims(cycles, k, node) <==> cycles[k].1 && "agent-" + cycles[k].0 + "-" <= node {
    }
  }

  function EdgeImage(cycles: Cycles, e: Edge): Edge {
    e.(source := Image(cycles, e.source), target := Image(cycles, e.target))
  }

  function EdgeImages(cycles: Cycles, edges: seq<Edge>): (r: seq<Edge>)
    ensures |r| == |edges| && forall i :: 0 <= i < |edges| ==> r[i] == EdgeImage(cycles, edges[i])
  {
    seq(|edges|, i requires 0 <= i < |edges| => EdgeImage(cycles, edges[i]))
  }

  // The text the source compares edges by.
  function Key(e: Edge): string {
    e.source + "->" + e.target
  }

  // Of edges with equal keys, only the first.
  function FirstOfEachKey(edges: seq<Edge>): seq<Edge> {
    if edges == [] then []
    else
      var n := |edges| - 1;
      var kept := FirstOfEachKey(edges[..n]);
      if exists i :: 0 <= i < n && Key(edges[i]) == Key(edges[n]) then kept else kept + [edges[n]]
  }

  method UpdateEdgesForCycles(edges: seq<Edge>, cycles: Cycles) returns (result: seq<Edge>)
    ensures result == FirstOfEachKey(EdgeImages(cycles, edges))
  {
    var updated: seq<Edge> := [];
    for i := 0 to |edges|
      invariant updated == EdgeImages(cycles, edges)[..i]
    {
      var newEdge := RedirectEdge(edges[i], cycles);
      updated := updated + [newEdge];
    }
    assert updated == EdgeImages(cycles, edges);
    result := DropRepeatedKeys(updated);
  }

  method RedirectEdge(edge: Edge, cycles: Cycles) returns (newEdge: Edge)
    ensures newEdge == EdgeImage(cycles, edge)
  {
    newEdge := edge;
    for k := 0 to |cycles|
      invariant newEdge == EdgeImage(cycles[..k], edge)
    {
      assert cycles[..k + 1][..k] == cycles[..k];
      if cycles[k].1 {
        if StartsWith(edge.source, CyclePrefix(cycles[k].0)) {
          newEdge := newEdge.(source := BoxId(cycles[k].0));
        }
        if StartsWith(edge.target, CyclePrefix(cycles[k].0)) {
          newEdge := newEdge.(target := BoxId(cycles[k].0));
        }
      }
    }
    assert cycles[..|cycles|] == cycles;
  }

  method DropRepeatedKeys(edges: seq<Edge>) returns (result: seq<Edge>)
    ensures result == FirstOfEachKey(edges)
  {
    result := [];
    var edgeKeys: set<string> := {};
    for i := 0 to |edges|
      invariant forall key :: key in edgeKeys <==> exists j :: 0 <= j < i && Key(edges[j]) == key
      invariant result == FirstOfEachKey(edges[..i])
    {
      assert edges[..i + 1][..i] == edges[..i];
      var key := Key(edges[i]);
      if key !in edgeKeys {
        edgeKeys := edgeKeys + {key};
        result := result + [edges[i]];
      }
    }
    assert edges[..|edges|] == edges;
  }

  // ---- The quotient -----------------------------------------------------------------

  // e stands at i, and nothing before it has its key.
  ghost predicate FirstAt(edges: seq<Edge>, e: Edge, i: nat) {
    && i < |edges| && edges[i] == e
    && forall j :: 0 <= j < i ==> edges[j].source + "->" + edges[j].target != e.source + "->" + e.target
  }

  lemma {:induction false} KeptIsFirst(edges: seq<Edge>, e: Edge)
    ensures e in FirstOfEachKey(edges) <==> exists i: nat :: FirstAt(edges, e, i)
  {
    if edges != [] {
      var n := |edges| - 1;
      KeptIsFirst(edges[..n], e);
      forall i: nat | i < n ensures FirstAt(edges, e, i) <==> FirstAt(edges[..n], e, i) {
        FirstAtPrefix(edges, e, i);
      }
      LastKept(edges, e);
    }
  }

  lemma LastKept(edges: seq<Edge>, e: Edge)
    requires edges != []
    ensures var n := |edges| - 1;
            e in FirstOfEachKey(edges) <==> e in FirstOfEachKey(edges[..n]) || FirstAt(edges, e, n)
  {
  }

  lemma FirstAtPrefix(edges: seq<Edge>, e: Edge, i: nat)
    requires i < |edges| - 1
    ensures FirstAt(edges, e, i) <==> FirstAt(edges[..|edges| - 1], e, i)
  {
    var front := edges[..|edges| - 1];
    assert forall j :: 0 <= j <= i ==> front[j] == edges[j];
  }

  lemma FirstWithKey(edges: seq<Edge>, k: nat) returns (i: nat)
    requires k < |edges|
    ensures i <= k && Key(edges[i]) == Key(edges[k]) && forall j :: 0 <= j < i ==> Key(edges[j]) != Key(edges[k])
  {
    i := 0;
    while Key(edges[i]) != Key(edges[k])
      invariant i <= k && forall j :: 0 <= j < i ==> Key(edges[j]) != Key(edges[k])
      decreases k - i
    {
      i := i + 1;
    }
  }

  lemma FirstIsKept(edges: seq<Edge>, e: Edge, i: nat)
    requires FirstAt(edges, e, i)
    ensures e in FirstOfEachKey(edges)
  {
    KeptIsFirst(edges, e);
  }

  lemma KeptOccurs(edges: seq<Edge>, e: Edge)
    requires e in FirstOfEachKey(edges)
    ensures e in edges
  {
    KeptIsFirst(edges, e);
    var i: nat :| FirstAt(edges, e, i);
  }

  // Every key that occurs is kept.
  lemma EveryKeyKept(edges: seq<Edge>, k: nat) returns (e: Edge)
    requires k < |edges|
    ensures e in FirstOfEachKey(edges) && Key(e) == Key(edges[k])
  {
    var i := FirstWithKey(edges, k);
    e := edges[i];
    FirstIsKept(edges, e, i);
  }

  lemma {:induction false} NoKeyTwice(edges: seq<Edge>)
    ensures DistinctBy(FirstOfEachKey(edges), Key)
  {
    if edges != [] {
      var n := |edges| - 1;
      NoKeyTwice(edges[..n]);
      var kept := FirstOfEachKey(edges[..n]);
      forall a | 0 <= a < |kept| ensures exists i :: 0 <= i < n && Key(edges[i]) == Key(kept[a]) {
        assert kept[a] in kept;
        KeptOccurs(edges[..n], kept[a]);
        var i :| 0 <= i < n && edges[..n][i] == kept[a];
        assert Key(edges[i]) == Key(kept[a]);
      }
    }
  }

  // The kept edges stand in their order.
  lemma {:induction false} KeptInOrder(edges: seq<Edge>) returns (at: seq<nat>)
    ensures |at| == |FirstOfEachKey(edges)|
    ensures forall i :: 0 <= i < |at| ==> at[i] < |edges| && FirstOfEachKey(edges)[i] == edges[at[i]]
    ensures forall i, j :: 0 <= i < j < |at| ==> at[i] < at[j]
  {
    at := [];
    if edges != [] {
      var n := |edges| - 1;
      at := KeptInOrder(edges[..n]);
      var kept := FirstOfEachKey(edges[..n]);
      if FirstOfEachKey(edges) != kept {
        assert FirstOfEachKey(edges) == kept + [edges[n]];
        at := at + [n];
      }
    }
  }

  // Equal keys stand for equal end points. Identifiers without '>' are enough.
  ghost predicate KeysTell(edges: seq<Edge>) {
    forall i, j :: 0 <= i < j < |edges| && Key(edges[i]) == Key(edges[j]) ==>
      edges[i].source == edges[j].source && edges[i].target == edges[j].target
  }

  ghost predicate Connects(edges: seq<Edge>, a: string, b: string) {
    exists e :: e in edges && e.source == a && e.target == b
  }

  // Every output edge is the image of an input edge.
  lemma OutputIsImage(cycles: Cycles, edges: seq<Edge>, e: Edge)
    requires e in FirstOfEachKey(EdgeImages(cycles, edges))
    ensures exists x :: x in edges && e == EdgeImage(cycles, x)
                        && e.id == x.id && e.source == Image(cycles, x.source) && e.target == Image(cycles, x.target)
  {
    var images := EdgeImages(cycles, edges);
    KeptOccurs(images, e);
    var i :| 0 <= i < |images| && images[i] == e;
    assert edges[i] in edges;
  }

  // No connection is lost exactly when equal keys stand for equal end points.
  lemma AllConnectionsKeptIff(cycles: Cycles, edges: seq<Edge>)
    ensures var images := EdgeImages(cycles, edges);
      (forall x :: x in edges ==> Connects(FirstOfEachKey(images), Image(cycles, x.source), Image(cycles, x.target)))
      <==> KeysTell(images)
  {
    var images := EdgeImages(cycles, edges);
    var kept := FirstOfEachKey(images);
    if KeysTell(images) {
      forall x | x in edges ensures Connects(kept, Image(cycles, x.source), Image(cycles, x.target)) {
        var k :| 0 <= k < |edges| && edges[k] == x;
        var e := EveryKeyKept(images, k);
        KeptOccurs(images, e);
        var i :| 0 <= i < |images| && images[i] == e;
        assert i < k || k < i || i == k;
        assert e.source == images[k].source && e.target == images[k].target;
      }
    }
    if forall x :: x in edges ==> Connects(kept, Image(cycles, x.source), Image(cycles, x.target)) {
      forall i, j | 0 <= i < j < |images| && Key(images[i]) == Key(images[j])
        ensures images[i].source == images[j].source && images[i].target == images[j].target
      {
        assert edges[i] in edges && edges[j] in edges;
        var e :| e in kept && e.source == images[i].source && e.target == images[i].target;
        var f :| f in kept && f.source == images[j].source && f.target == images[j].target;
        NoKeyTwice(images);
        assert Key(e) == Key(f);
      }
    }
  }

  ghost predicate IsPath(edges: seq<Edge>, p: seq<string>) {
    p != [] && forall i, j :: 0 <= i && j == i + 1 < |p| ==> Connects(edges, p[i], p[j])
  }

  function PathImage(cycles: Cycles, p: seq<string>): (r: seq<string>)
    ensures |r| == |p| && forall i :: 0 <= i < |p| ==> r[i] == Image(cycles, p[i])
  {
    seq(|p|, i requires 0 <= i < |p| => Image(cycles, p[i]))
  }

  // Every path between nodes is drawn as a path between their images.
  lemma PathsMapToPaths(cycles: Cycles, edges: seq<Edge>, p: seq<string>)
    requires IsPath(edges, p) && KeysTell(EdgeImages(cycles, edges))
    ensures IsPath(FirstOfEachKey(EdgeImages(cycles, edges)), PathImage(cycles, p))
  {
    AllConnectionsKeptIff(cycles, edges);
    forall i, j | 0 <= i && j == i + 1 < |p|
      ensures Connects(FirstOfEachKey(EdgeImages(cycles, edges)), PathImage(cycles, p)[i], PathImage(cycles, p)[j])
    {
      assert Connects(edges, p[i], p[j]);
    }
  }

  // ---- Idempotence --------------------------------------------------------------------

  lemma {:induction false} BoxesAreNotClaimed(cycles: Cycles, agent: string)
    ensures Image(cycles, BoxId(agent)) == BoxId(agent)
  {
    if cycles != [] {
      var n := |cycles| - 1;
      assert BoxId(agent)[0] == 'c' && CyclePrefix(cycles[n].0)[0] == 'a';
      assert !StartsWith(BoxId(agent), CyclePrefix(cycles[n].0));
      BoxesAreNotClaimed(cycles[..n], agent);
    }
  }

  lemma ImageIdempotent(cycles: Cycles, node: string)
    ensures Image(cycles, Image(cycles, node)) == Image(cycles, node)
  {
    LastClaim(cycles, node);
    if k :| 0 <= k < |cycles| && Claims(cycles, k, node) && Image(cycles, node) == BoxId(cycles[k].0) {
      BoxesAreNotClaimed(cycles, cycles[k].0);
    }
  }

  lemma {:induction false} DistinctKeysAllKept(edges: seq<Edge>)
    requires DistinctBy(edges, Key)
    ensures FirstOfEachKey(edges) == edges
  {
    if edges != [] {
      DistinctKeysAllKept(edges[..|edges| - 1]);
    }
  }

  // A second application changes nothing.
  lemma UpdateIdempotent(cycles: Cycles, edges: seq<Edge>)
    ensures var once := FirstOfEachKey(EdgeImages(cycles, edges));
      FirstOfEachKey(EdgeImages(cycles, once)) == once
  {
    var images := EdgeImages(cycles, edges);
    var once := FirstOfEachKey(images);
    NoKeyTwice(images);
    forall i | 0 <= i < |once| ensures EdgeImage(cycles, once[i]) == once[i] {
      assert once[i] in once;
      OutputIsImage(cycles, edges, once[i]);
      var x :| x in edges && once[i] == EdgeImage(cycles, x);
      ImageIdempotent(cycles, x.source);
      ImageIdempotent(cycles, x.target);
    }
    assert EdgeImages(cycles, once) == once;
    DistinctKeysAllKept(once);
  }

  // ---- When keys tell ---------------------------------------------------------------

  lemma ArrowPosition(s: string, t: string)
    requires '>' !in s
    ensures (s + "->" + t)[|s| + 1] == '>' && '>' !in (s + "->" + t)[..|s| + 1]
  {
    assert (s + "->" + t)[..|s| + 1] == s + "-";
  }

  lemma KeysTellWithoutArrows(edges: seq<Edge>)
    requires forall e :: e in edges ==> '>' !in e.source
    ensures KeysTell(edges)
  {
    forall i, j | 0 <= i < j < |edges| && Key(edges[i]) == Key(edges[j])
      ensures edges[i].source == edges[j].source && edges[i].target == edges[j].target
    {
      var e, f := edges[i], edges[j];
      ArrowPosition(e.source, e.target);
      ArrowPosition(f.source, f.target);
      var key := Key(e);
      assert key[|e.source| + 1] == '>' && '>' !in key[..|e.source| + 1];
      assert key[|f.source| + 1] == '>' && '>' !in key[..|f.source| + 1];
      assert |e.source| == |f.source|;
      assert e.source == key[..|e.source|] && f.source == key[..|f.source|];
      assert e.target == key[|e.source| + 2..] && f.target == key[|f.source| + 2..];
    }
  }

  // A collapsed cycle's name is part of every id it claims, so redirecting brings in no arrow.
  lemma ImageHasNoArrow(cycles: Cycles, node: string)
    requires '>' !in node
    ensures '>' !in Image(cycles, node)
  {
    LastClaim(cycles, node);
    if Image(cycles, node) != node {
      var k :| 0 <= k < |cycles| && Claims(cycles, k, node) && Image(cycles, node) == BoxId(cycles[k].0);
      var agent := cycles[k].0;
      assert node[..|CyclePrefix(agent)|] == CyclePrefix(agent);
      forall i | 0 <= i < |agent| ensures agent[i] != '>' {
        assert agent[i] == CyclePrefix(agent)[6 + i] == node[6 + i];
      }
    }
  }

  // So ids without '>' in the edges given are enough for the keys of their images to tell.
  lemma InputWithoutArrowsTells(cycles: Cycles, edges: seq<Edge>)
    requires forall e :: e in edges ==> '>' !in e.source
    ensures KeysTell(EdgeImages(cycles, edges))
  {
    var images := EdgeImages(cycles, edges);
    forall e | e in images ensures '>' !in e.source {
      var i :| 0 <= i < |images| && images[i] == e;
      assert edges[i] in edges;
      ImageHasNoArrow(cycles, edges[i].source);
    }
    KeysTellWithoutArrows(images);
  }

  // Then no connection and no path is lost.
  lemma PathsKeptWithoutArrows(cycles: Cycles, edges: seq<Edge>, p: seq<string>)
    requires forall e :: e in edges ==> '>' !in e.source
    ensures forall x :: x in edges ==>
              Connects(FirstOfEachKey(EdgeImages(cycles, edges)), Image(cycles, x.source), Image(cycles, x.target))
    ensures IsPath(edges, p) ==> IsPath(FirstOfEachKey(EdgeImages(cycles, edges)), PathImage(cycles, p))
  {
    InputWithoutArrowsTells(cycles, edges);
    AllConnectionsKeptIff(cycles, edges);
    if IsPath(edges, p) {
      PathsMapToPaths(cycles, edges, p);
    }
  }

  // With arrows in identifiers an edge can disappear.
  lemma ArrowsHideAnEdge()
    ensures var edges := [Edge("1", "a->b", "c"), Edge("2", "a", "b->c")];
      !Connects(FirstOfEachKey(EdgeImages([], edges)), "a", "b->c")
  {
    var e, f := Edge("1", "a->b", "c"), Edge("2", "a", "b->c");
    assert EdgeImages([], [e, f]) == [e, f];
    assert Key(e) == Key(f) && [e, f][..1] == [e];
    assert FirstOfEachKey([]) == [] && [e][..0] == [];
    assert FirstOfEachKey([e]) == [e];
    assert Key([e, f][0]) == Key([e, f][1]);
    assert FirstOfEachKey([e, f]) == [e];
    assert |e.source| == 4;
  }
}
