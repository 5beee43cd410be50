// Finite directed graphs as the source keeps them: a map from a node to the
// list of its successors, duplicates allowed, with no entry for a node without
// successors. Both the `blocks` map of the scoring engine and the `blocked_by`
// columns of the task table have this shape.
module Graphs {
  type Graph = map<int, seq<int>>

  lemma HasElement(s: set<int>)
    requires s != {}
    ensures exists x :: x in s
  {
    assert (forall x :: x !in s) ==> s == {};
  }

  predicate Edge(g: Graph, x: int, y: int) {
    x in g && y in g[x]
  }

  // Every node that occurs as a successor.
  function Targets(g: Graph): (s: set<int>) {
    set x, i | x in g && 0 <= i < |g[x]| :: g[x][i]
  }

  // A walk of at least one edge.
  ghost predicate Path(g: Graph, p: seq<int>) {
    && |p| >= 2
    && forall i, j :: 0 <= i < j < |p| && j == i + 1 ==> Edge(g, p[i], p[j])
  }

  ghost predicate PathBetween(g: Graph, p: seq<int>, x: int, y: int) {
    Path(g, p) && p[0] == x && p[|p| - 1] == y
  }

  ghost predicate Reaches(g: Graph, x: int, y: int) {
    exists p :: PathBetween(g, p, x, y)
  }

  ghost predicate Acyclic(g: Graph) {
    forall x :: !Reaches(g, x, x)
  }

  // x and y lie in the same strongly connected component.
  ghost predicate SameComponent(g: Graph, x: int, y: int) {
    x == y || (Reaches(g, x, y) && Reaches(g, y, x))
  }

  ghost function ReachSet(g: Graph, x: int): (s: set<int>) {
    set y | y in Targets(g) && Reaches(g, x, y)
  }

  lemma EdgeReaches(g: Graph, x: int, y: int)
    requires Edge(g, x, y)
    ensures Reaches(g, x, y)
  {
    assert PathBetween(g, [x, y], x, y);
  }

  lemma JoinPaths(g: Graph, p: seq<int>, q: seq<int>)
    requires Path(g, p) && Path(g, q) && p[|p| - 1] == q[0]
    ensures PathBetween(g, p + q[1..], p[0], q[|q| - 1])
  {
  }

  lemma ReachesTrans(g: Graph, x: int, y: int, z: int)
    requires Reaches(g, x, y) && Reaches(g, y, z)
    ensures Reaches(g, x, z)
  {
    var p :| PathBetween(g, p, x, y);
    var q :| PathBetween(g, q, y, z);
    JoinPaths(g, p, q);
  }

  lemma SubPath(g: Graph, p: seq<int>, lo: int, hi: int)
    requires Path(g, p) && 0 <= lo && lo + 2 <= hi <= |p|
    ensures PathBetween(g, p[lo..hi], p[lo], p[hi - 1])
  {
  }

  lemma ReachedIsTarget(g: Graph, x: int, y: int)
    requires Reaches(g, x, y)
    ensures x in g && y in Targets(g)
  {
    var p :| PathBetween(g, p, x, y);
    assert Edge(g, p[0], p[1]);
    assert Edge(g, p[|p| - 2], p[|p| - 1]);
  }

  // A set that holds the successors of x and is closed under successors holds
  // everything x reaches.
  lemma {:induction false} ClosedHoldsPath(g: Graph, p: seq<int>, s: set<int>, k: nat)
    requires Path(g, p) && 1 <= k < |p|
    requires forall y :: Edge(g, p[0], y) ==> y in s
    requires forall u, v :: u in s && Edge(g, u, v) ==> v in s
    ensures p[k] in s
  {
    assert Edge(g, p[k - 1], p[k]);
    if k > 1 {
      ClosedHoldsPath(g, p, s, k - 1);
    }
  }

  lemma ClosedHoldsReached(g: Graph, x: int, s: set<int>)
    requires forall y :: Edge(g, x, y) ==> y in s
    requires forall u, v :: u in s && Edge(g, u, v) ==> v in s
    ensures forall y :: Reaches(g, x, y) ==> y in s
  {
    forall y | Reaches(g, x, y)
      ensures y in s
    {
      var p :| PathBetween(g, p, x, y);
      ClosedHoldsPath(g, p, s, |p| - 1);
    }
  }

  lemma AcyclicPathsDoNotRepeat(g: Graph, p: seq<int>, i: nat, j: nat)
    requires Acyclic(g) && Path(g, p) && i < j < |p|
    ensures p[i] != p[j]
  {
    SubPath(g, p, i, j + 1);
    assert Reaches(g, p[i], p[j]);
  }
}
