// The cycle guard of internal/scoring/scoring.go:238-243: an edge x -> y of the
// blocks map is dropped when y reaches x. What is kept joins different strongly
// connected components, so it is acyclic and the fixpoint runs over a net.
module KeptEdges {
  import opened Graphs
  import opened Propagation

  ghost predicate KeptEdge(blocks: Graph, x: int, y: int) {
    Edge(blocks, x, y) && !Reaches(blocks, y, x)
  }

  function Successors(blocks: Graph, x: int): seq<int> {
    if x in blocks then blocks[x] else []
  }

  // Which of the first k successors of x the cycle guard lets through, in order
  // and with repetitions.
  ghost function KeptAmong(blocks: Graph, x: int, k: nat): (ks: seq<int>)
    requires k <= |Successors(blocks, x)|
    ensures forall y :: y in ks ==> KeptEdge(blocks, x, y)
    ensures forall i :: 0 <= i < k && KeptEdge(blocks, x, Successors(blocks, x)[i]) ==> Successors(blocks, x)[i] in ks
  {
    if k == 0 then [] else
      var y, front := Successors(blocks, x)[k - 1], KeptAmong(blocks, x, k - 1);
      if Reaches(blocks, y, x) then front else front + [y]
  }

  ghost function Kids(blocks: Graph, x: int): (ks: seq<int>)
    ensures forall y :: y in ks <==> KeptEdge(blocks, x, y)
  {
    KeptAmong(blocks, x, |Successors(blocks, x)|)
  }

  lemma CountSnoc(s: seq<int>, k: nat, y: int)
    requires k < |s|
    ensures multiset(s[..k + 1])[y] == multiset(s[..k])[y] + if s[k] == y then 1 else 0
  {
    assert s[..k + 1] == s[..k] + [s[k]];
  }

  lemma KeptAmongSnoc(blocks: Graph, x: int, k: nat, y: int)
    requires k < |Successors(blocks, x)| && !Reaches(blocks, y, x)
    ensures multiset(KeptAmong(blocks, x, k + 1))[y]
         == multiset(KeptAmong(blocks, x, k))[y] + if Successors(blocks, x)[k] == y then 1 else 0
  {
  }

  lemma {:induction false} KeptAmongCount(blocks: Graph, x: int, s: seq<int>, k: nat, y: int)
    requires s == Successors(blocks, x) && k <= |s| && !Reaches(blocks, y, x)
    ensures multiset(KeptAmong(blocks, x, k))[y] == multiset(s[..k])[y]
  {
    if k > 0 {
      KeptAmongCount(blocks, x, s, k - 1, y);
      CountSnoc(s, k - 1, y);
      KeptAmongSnoc(blocks, x, k - 1, y);
    }
  }

  // A kept successor counts as often as it is listed.
  lemma KidsCount(blocks: Graph, x: int, y: int)
    ensures multiset(Kids(blocks, x))[y] ==
              if Reaches(blocks, y, x) then 0 else multiset(Successors(blocks, x))[y]
  {
    var s := Successors(blocks, x);
    assert s[..|s|] == s;
    if !Reaches(blocks, y, x) {
      KeptAmongCount(blocks, x, s, |s|, y);
    } else {
      assert y !in Kids(blocks, x);
    }
  }

  // Exactly the edges between different strongly connected components are kept.
  lemma KeptJoinsComponents(blocks: Graph, x: int, y: int)
    ensures KeptEdge(blocks, x, y) <==> Edge(blocks, x, y) && !SameComponent(blocks, x, y)
  {
    if Edge(blocks, x, y) {
      EdgeReaches(blocks, x, y);
    }
  }

  // ------------------------------------------------------------------ ranking

  ghost function Span(blocks: Graph, x: int): set<int> {
    {x} + ReachSet(blocks, x)
  }

  lemma InReachSet(blocks: Graph, x: int, y: int)
    ensures y in ReachSet(blocks, x) <==> Reaches(blocks, x, y)
  {
    if Reaches(blocks, x, y) {
      ReachedIsTarget(blocks, x, y);
    }
  }

  lemma KeptShrinks(blocks: Graph, x: int, y: int)
    requires KeptEdge(blocks, x, y)
    ensures Span(blocks, y) < Span(blocks, x)
  {
    EdgeReaches(blocks, x, y);
    InReachSet(blocks, x, y);
    InReachSet(blocks, y, x);
    forall z | z in ReachSet(blocks, y) ensures z in Span(blocks, x) {
      ReachesTrans(blocks, x, y, z);
      InReachSet(blocks, x, z);
    }
    assert x !in Span(blocks, y);
  }

  // One more than the largest, or zero.
  function MaxPlusOne(hs: seq<nat>): nat {
    if hs == [] then 0 else
      var before, here := MaxPlusOne(hs[..|hs| - 1]), 1 + hs[|hs| - 1];
      if here > before then here else before
  }

  lemma {:induction false} MaxPlusOneBounds(hs: seq<nat>, i: nat)
    requires i < |hs|
    ensures hs[i] < MaxPlusOne(hs)
  {
    if i < |hs| - 1 {
      MaxPlusOneBounds(hs[..|hs| - 1], i);
    }
  }

  lemma {:induction false} MaxPlusOneAttained(hs: seq<nat>) returns (i: nat)
    requires MaxPlusOne(hs) > 0
    ensures i < |hs| && MaxPlusOne(hs) == 1 + hs[i]
  {
    i := |hs| - 1;
    if MaxPlusOne(hs) != 1 + hs[i] {
      i := MaxPlusOneAttained(hs[..|hs| - 1]);
    }
  }

  ghost function KidAt(blocks: Graph, x: int, i: nat): (y: int)
    requires i < |Kids(blocks, x)|
    ensures KeptEdge(blocks, x, y) && Span(blocks, y) < Span(blocks, x)
  {
    var y := Kids(blocks, x)[i];
    assert y in Kids(blocks, x);
    KeptShrinks(blocks, x, y);
    y
  }

  // Length of the longest kept path from x.
  ghost function Height(blocks: Graph, x: int): nat
    decreases Span(blocks, x)
  {
    MaxPlusOne(seq(|Kids(blocks, x)|, i requires 0 <= i < |Kids(blocks, x)| => Height(blocks, KidAt(blocks, x, i))))
  }

  ghost function KidHeights(blocks: Graph, x: int): (hs: seq<nat>)
    ensures |hs| == |Kids(blocks, x)| && forall i :: 0 <= i < |hs| ==> hs[i] == Height(blocks, Kids(blocks, x)[i])
    ensures Height(blocks, x) == MaxPlusOne(hs)
  {
    seq(|Kids(blocks, x)|, i requires 0 <= i < |Kids(blocks, x)| => Height(blocks, KidAt(blocks, x, i)))
  }

  lemma KidIsLower(blocks: Graph, x: int, y: int)
    requires KeptEdge(blocks, x, y)
    ensures Height(blocks, y) < Height(blocks, x)
  {
    var i :| 0 <= i < |Kids(blocks, x)| && Kids(blocks, x)[i] == y;
    MaxPlusOneBounds(KidHeights(blocks, x), i);
  }

  lemma TallestKid(blocks: Graph, x: int) returns (y: int)
    requires Height(blocks, x) > 0
    ensures KeptEdge(blocks, x, y) && Height(blocks, x) == 1 + Height(blocks, y)
  {
    var i := MaxPlusOneAttained(KidHeights(blocks, x));
    y := KidAt(blocks, x, i);
  }

  // The kept edges as a graph of their own.
  ghost function KeptGraph(blocks: Graph): Graph {
    map x | x in blocks :: Kids(blocks, x)
  }

  lemma KeptStepDescends(blocks: Graph, x: int, y: int)
    requires Edge(KeptGraph(blocks), x, y)
    ensures Height(blocks, y) < Height(blocks, x)
  {
    KidIsLower(blocks, x, y);
  }

  lemma {:induction false} KeptPathDescends(blocks: Graph, p: seq<int>)
    requires Path(KeptGraph(blocks), p)
    ensures Height(blocks, p[0]) >= |p| - 1 + Height(blocks, p[|p| - 1])
    decreases |p|
  {
    KeptStepDescends(blocks, p[0], p[1]) by {
      assert Edge(KeptGraph(blocks), p[0], p[1]);
    }
    if |p| > 2 {
      SubPath(KeptGraph(blocks), p, 1, |p|);
      KeptPathDescends(blocks, p[1..]);
    }
  }

  lemma KeptIsAcyclic(blocks: Graph)
    ensures Acyclic(KeptGraph(blocks))
  {
    forall x ensures !Reaches(KeptGraph(blocks), x, x) {
      forall p | Path(KeptGraph(blocks), p) ensures !PathBetween(KeptGraph(blocks), p, x, x) {
        KeptPathDescends(blocks, p);
      }
    }
  }

  // Height is attained, so it is the longest kept path and nothing larger.
  lemma {:induction false} HeightIsAttained(blocks: Graph, x: int) returns (p: seq<int>)
    requires Height(blocks, x) > 0
    ensures Path(KeptGraph(blocks), p) && p[0] == x && |p| - 1 == Height(blocks, x)
    decreases Height(blocks, x)
  {
    var y := TallestKid(blocks, x);
    assert Edge(KeptGraph(blocks), x, y);
    if Height(blocks, y) == 0 {
      p := [x, y];
    } else {
      var q := HeightIsAttained(blocks, y);
      p := [x] + q;
    }
  }

  // ------------------------------------------------------------------ the net

  ghost function NetOf(base: Scores, blocks: Graph): Net {
    Net(base, map n | n in base :: Kids(blocks, n), map n | n in base :: Height(blocks, n))
  }

  lemma NetIsValid(base: Scores, blocks: Graph)
    requires Targets(blocks) <= base.Keys
    ensures Valid(NetOf(base, blocks))
  {
    var net := NetOf(base, blocks);
    forall n, c {:trigger c in net.kids[n]} | n in net.kids && c in net.kids[n]
      ensures c in net.base && net.rank[c] < net.rank[n]
    {
      KidIsLower(blocks, n, c);
      var i :| 0 <= i < |blocks[n]| && blocks[n][i] == c;
      assert blocks[n][i] in Targets(blocks);
    }
  }

  // ----------------------------------------------------- cycles add nothing

  ghost predicate AgreeOn(pot: Scores, pot': Scores, s: set<int>) {
    s <= pot.Keys && s <= pot'.Keys && forall n :: n in s ==> pot[n] == pot'[n]
  }

  ghost predicate ClosedUnderKids(net: Net, s: set<int>) {
    forall n, c {:trigger c in net.kids[n]} :: n in s && n in net.kids && c in net.kids[n] ==> c in s
  }

  lemma {:induction false} VisitsAreLocal(net: Net, net': Net, pot: Scores, pot': Scores, ns: seq<int>, s: set<int>)
    requires Valid(net) && Valid(net') && net'.kids == net.kids && net'.rank == net.rank
    requires Covers(net, pot) && Covers(net', pot') && Visitable(net, ns)
    requires ClosedUnderKids(net, s) && AgreeOn(net.base, net'.base, s) && AgreeOn(pot, pot', s)
    ensures Visitable(net', ns) && AgreeOn(Visits(net, pot, ns), Visits(net', pot', ns), s)
  {
    if ns != [] {
      var n := ns[|ns| - 1];
      assert n in ns && n in net.base;
      VisitsAreLocal(net, net', pot, pot', ns[..|ns| - 1], s);
      if n in s {
        SumAgrees(Visits(net, pot, ns[..|ns| - 1]), Visits(net', pot', ns[..|ns| - 1]), net.kids[n]);
      }
    }
  }

  lemma {:induction false} RoundsAreLocal(net: Net, net': Net, run: Run, s: set<int>)
    requires Valid(net) && Valid(net') && net'.kids == net.kids && net'.rank == net.rank
    requires Fair(net, run) && Fair(net', run)
    requires ClosedUnderKids(net, s) && AgreeOn(net.base, net'.base, s)
    ensures AgreeOn(Rounds(net, net.base, run), Rounds(net', net'.base, run), s)
  {
    if run.Then? {
      RoundsAreLocal(net, net', run.earlier, s);
      VisitsAreLocal(net, net', Rounds(net, net.base, run.earlier), Rounds(net', net'.base, run.earlier), run.order, s);
    }
  }

  lemma {:induction false} SameFairness(net: Net, net': Net, run: Run)
    requires net.base.Keys == net'.base.Keys && Fair(net, run)
    ensures Fair(net', run)
  {
    if run.Then? {
      SameFairness(net, net', run.earlier);
    }
  }

  // A task on a cycle, self-loops included, gets nothing from its own cycle:
  // changing the bases of the other tasks of its component does not move it.
  lemma OwnCycleAddsNothing(base: Scores, base': Scores, blocks: Graph, run: Run, x: int)
    requires Targets(blocks) <= base.Keys == base'.Keys && x in base
    requires forall n :: n in base && (n == x || !SameComponent(blocks, x, n)) ==> base[n] == base'[n]
    requires Fair(NetOf(base, blocks), run)
    ensures Valid(NetOf(base, blocks)) && Valid(NetOf(base', blocks)) && Fair(NetOf(base', blocks), run)
    ensures Rounds(NetOf(base, blocks), base, run)[x] == Rounds(NetOf(base', blocks), base', run)[x]
  {
    var net, net' := NetOf(base, blocks), NetOf(base', blocks);
    NetIsValid(base, blocks);
    NetIsValid(base', blocks);
    var s := set n | n in base && (n == x || !SameComponent(blocks, x, n)) && (n == x || Reaches(blocks, x, n));
    forall n, c {:trigger c in net.kids[n]} | n in s && n in net.kids && c in net.kids[n]
      ensures c in s
    {
      EdgeReaches(blocks, n, c);
      if n != x {
        ReachesTrans(blocks, x, n, c);
        if Reaches(blocks, c, x) {
          ReachesTrans(blocks, n, c, x);
        }
      }
    }
    SameFairness(net, net', run);
    RoundsAreLocal(net, net', run, s);
  }
}
