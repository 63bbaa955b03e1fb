/** Walks in the transition graph of a pipeline, and what acyclicity gives. */
module StageGraph {
  import opened Distinctness

  type Name = string
  // A stage without an entry has no outgoing transition.
  type Graph = map<Name, seq<Name>>

  predicate Edge(g: Graph, a: Name, b: Name) {
    a in g && b in g[a]
  }

  ghost predicate IsWalk(g: Graph, p: seq<Name>) {
    forall i, j :: 0 <= i && j == i + 1 < |p| ==> Edge(g, p[i], p[j])
  }

  // A walk of at least one transition that ends where it began.
  ghost predicate IsClosedWalk(g: Graph, p: seq<Name>) {
    |p| >= 2 && IsWalk(g, p) && p[0] == p[|p| - 1]
  }

  ghost predicate Acyclic(g: Graph) {
    forall p :: IsClosedWalk(g, p) ==> false
  }

  ghost predicate Known(g: Graph, p: seq<Name>) {
    forall x :: x in p ==> x in g
  }

  lemma {:induction false} Pigeonhole<T>(p: seq<T>, s: set<T>)
    requires Distinct(p) && forall x :: x in p ==> x in s
    ensures |p| <= |s|
  {
    if p != [] {
      var last := p[|p| - 1];
      assert forall x :: x in p[..|p| - 1] ==> x in s - {last};
      Pigeonhole(p[..|p| - 1], s - {last});
    }
  }

  lemma LongWalkRepeats(g: Graph, p: seq<Name>)
    requires Known(g, p) && |p| > |g|
    ensures !Distinct(p)
  {
    if Distinct(p) {
      Pigeonhole(p, g.Keys);
    }
  }

  lemma SubWalk(g: Graph, p: seq<Name>, i: nat, j: nat)
    requires IsWalk(g, p) && i <= j <= |p|
    ensures IsWalk(g, p[i..j])
  {
  }

  // A walk that repeats a stage contains a closed walk.
  lemma RepeatClosesWalk(g: Graph, p: seq<Name>) returns (i: nat, j: nat)
    requires IsWalk(g, p) && !Distinct(p)
    ensures i < j < |p| && IsClosedWalk(g, p[i..j + 1])
  {
    i, j :| 0 <= i < j < |p| && p[i] == p[j];
    SubWalk(g, p, i, j + 1);
  }

  lemma AcyclicWalksAreDistinct(g: Graph, p: seq<Name>)
    requires Acyclic(g) && IsWalk(g, p)
    ensures Distinct(p)
  {
    if !Distinct(p) {
      var i, j := RepeatClosesWalk(g, p);
    }
  }

  lemma JoinWalks(g: Graph, p: seq<Name>, q: seq<Name>)
    requires IsWalk(g, p) && IsWalk(g, q) && p != [] && q != []
    requires Edge(g, p[|p| - 1], q[0])
    ensures IsWalk(g, p + q)
  {
  }

  // ---- Ranks ---------------------------------------------------------------

  ghost predicate IsRank(g: Graph, rank: map<Name, nat>) {
    rank.Keys == g.Keys &&
    forall a, b :: Edge(g, a, b) && b in g ==> rank[b] < rank[a]
  }

  ghost predicate Reaches(g: Graph, a: Name, b: Name) {
    exists p :: p != [] && IsWalk(g, p) && p[0] == a && p[|p| - 1] == b
  }

  ghost function ReachableStages(g: Graph, a: Name): set<Name> {
    set x | x in g && Reaches(g, a, x)
  }

  // A transition of an acyclic graph leads to strictly fewer reachable stages.
  lemma ReachableShrinks(g: Graph, a: Name, b: Name)
    requires Acyclic(g) && Edge(g, a, b) && b in g
    ensures ReachableStages(g, b) < ReachableStages(g, a)
  {
    forall x | Reaches(g, b, x)
      ensures Reaches(g, a, x)
    {
      var p :| p != [] && IsWalk(g, p) && p[0] == b && p[|p| - 1] == x;
      JoinWalks(g, [a], p);
      assert ([a] + p)[|p|] == x;
    }
    assert IsWalk(g, [a]);
    assert a in ReachableStages(g, a);
    if Reaches(g, b, a) {
      var p :| p != [] && IsWalk(g, p) && p[0] == b && p[|p| - 1] == a;
      JoinWalks(g, [a], p);
      assert IsClosedWalk(g, [a] + p);
    }
  }

  lemma {:induction false} SubsetIsSmaller<T>(s: set<T>, t: set<T>)
    requires s < t
    ensures |s| < |t|
  {
    var x :| x in t && x !in s;
    if s == {} {
    } else {
      var y :| y in s;
      assert y in t;
      SubsetIsSmaller(s - {y}, t - {y});
    }
  }

  // A graph is acyclic exactly when its known stages can be ranked.
  lemma AcyclicIffRanked(g: Graph)
    ensures Acyclic(g) <==> exists rank :: IsRank(g, rank)
  {
    if Acyclic(g) {
      var rank := map a | a in g :: |ReachableStages(g, a)|;
      forall a, b | Edge(g, a, b) && b in g
        ensures rank[b] < rank[a]
      {
        ReachableShrinks(g, a, b);
        SubsetIsSmaller(ReachableStages(g, b), ReachableStages(g, a));
      }
      assert IsRank(g, rank);
    }
    if exists rank :: IsRank(g, rank) {
      var rank :| IsRank(g, rank);
      forall p | IsClosedWalk(g, p) ensures false {
        assert Edge(g, p[0], p[1]);
        RankDropsAlongWalk(g, rank, p);
      }
    }
  }

  lemma {:induction false} RankDropsAlongWalk(g: Graph, rank: map<Name, nat>, p: seq<Name>)
    requires IsRank(g, rank) && IsWalk(g, p) && |p| >= 2 && p[|p| - 1] in g
    ensures p[0] in g && rank[p[|p| - 1]] < rank[p[0]]
  {
    assert Edge(g, p[0], p[1]);
    if |p| > 2 {
      RankDropsAlongWalk(g, rank, p[1..]);
    }
  }
}
