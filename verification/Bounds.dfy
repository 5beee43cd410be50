// How far the capped, hysteretic, order-dependent fixpoint can end from the
// exact bottom-up score, and when scores only ever rise.
module Bounds {
  import opened Rounding
  import opened Propagation

  // e satisfies every equation exactly.
  ghost predicate Solves(net: Net, e: Scores)
    requires Valid(net)
  {
    Covers(net, e) && forall n :: n in net.base ==> e[n] == Target(net, e, n)
  }

  ghost function Exact(net: Net, n: int): int
    requires Valid(net) && n in net.base
    decreases net.rank[n], 1, 0
  {
    Equation(net.base[n], ExactSum(net, n, |net.kids[n]|))
  }

  ghost function ExactSum(net: Net, n: int, k: nat): int
    requires Valid(net) && n in net.base && k <= |net.kids[n]|
    decreases net.rank[n], 0, k
  {
    if k == 0 then 0 else
      var c := net.kids[n][k - 1];
      assert c in net.kids[n];
      ExactSum(net, n, k - 1) + Exact(net, c)
  }

  ghost function ExactScores(net: Net): Scores
    requires Valid(net)
  {
    map n | n in net.base :: Exact(net, n)
  }

  lemma {:induction false} ExactSumIsSum(net: Net, n: int, k: nat)
    requires Valid(net) && n in net.base && k <= |net.kids[n]|
    ensures forall c :: c in net.kids[n][..k] ==> c in net.kids[n]
    ensures ExactSum(net, n, k) == Sum(ExactScores(net), net.kids[n][..k])
  {
    if k > 0 {
      ExactSumIsSum(net, n, k - 1);
      var cs := net.kids[n][..k];
      assert cs[..k - 1] == net.kids[n][..k - 1];
    }
  }

  lemma {:induction false} SolutionsAgree(net: Net, e: Scores, e': Scores, n: int)
    requires Valid(net) && Solves(net, e) && Solves(net, e') && n in net.base
    ensures e[n] == e'[n]
    decreases net.rank[n]
  {
    forall c | c in net.kids[n] ensures e[c] == e'[c] { SolutionsAgree(net, e, e', c); }
    SumAgrees(e, e', net.kids[n]);
  }

  // The equations have exactly one solution: the bottom-up score.
  lemma ExactIsTheSolution(net: Net, e: Scores)
    requires Valid(net)
    ensures Solves(net, e) <==> e == ExactScores(net)
  {
    var x := ExactScores(net);
    forall n | n in net.base ensures x[n] == Target(net, x, n) {
      ExactSumIsSum(net, n, |net.kids[n]|);
      assert net.kids[n][..|net.kids[n]|] == net.kids[n];
    }
    if Solves(net, e) {
      forall n | n in net.base ensures e[n] == x[n] { SolutionsAgree(net, e, x, n); }
    }
  }

  // --------------------------------------------------------------- the error

  // Error bound in tenths: nothing for a task that unblocks nothing, otherwise
  // one tenth of hysteresis and one of rounding on top of 0.3 of each kid's.
  ghost function Err(net: Net, n: int): (r: real)
    requires Valid(net) && n in net.base
    ensures r >= 0.0
    decreases net.rank[n], 1, 0
  {
    if net.kids[n] == [] then 0.0 else 2.0 + 0.3 * ErrSum(net, n, |net.kids[n]|)
  }

  ghost function ErrSum(net: Net, n: int, k: nat): (r: real)
    requires Valid(net) && n in net.base && k <= |net.kids[n]|
    ensures r >= 0.0
    decreases net.rank[n], 0, k
  {
    if k == 0 then 0.0 else
      var c := net.kids[n][k - 1];
      assert c in net.kids[n];
      ErrSum(net, n, k - 1) + Err(net, c)
  }

  predicate Within(a: int, b: int, r: real) {
    (a - b) as real <= r && (b - a) as real <= r
  }

  ghost predicate LeavesAtBase(net: Net, pot: Scores)
    requires Valid(net) && Covers(net, pot)
  {
    forall n :: n in net.base && net.kids[n] == [] ==> pot[n] == net.base[n]
  }

  lemma {:induction false} VisitsKeepLeaves(net: Net, pot: Scores, ns: seq<int>)
    requires Valid(net) && Covers(net, pot) && Visitable(net, ns) && LeavesAtBase(net, pot)
    ensures LeavesAtBase(net, Visits(net, pot, ns))
  {
    if ns != [] {
      var n := ns[|ns| - 1];
      assert n in ns && n in net.base;
      VisitsKeepLeaves(net, pot, ns[..|ns| - 1]);
      RoundOfMultiple(net.base[n], 10);
    }
  }

  lemma {:induction false} RoundsKeepLeaves(net: Net, run: Run)
    requires Valid(net) && Fair(net, run)
    ensures LeavesAtBase(net, Rounds(net, net.base, run))
  {
    if run.Then? {
      RoundsKeepLeaves(net, run.earlier);
      VisitsKeepLeaves(net, Rounds(net, net.base, run.earlier), run.order);
    }
  }

  lemma {:induction false} StableNearExact(net: Net, pot: Scores, e: Scores, n: int)
    requires Valid(net) && Covers(net, pot) && Solves(net, e) && n in net.base
    requires Stable(net, pot, n) && LeavesAtBase(net, pot)
    ensures Within(pot[n], e[n], Err(net, n))
    decreases net.rank[n], 1, 0
  {
    if net.kids[n] == [] {
      RoundOfMultiple(net.base[n], 10);
    } else {
      KidsNearExact(net, pot, e, n, |net.kids[n]|);
      assert net.kids[n][..|net.kids[n]|] == net.kids[n];
    }
  }

  lemma {:induction false} KidsNearExact(net: Net, pot: Scores, e: Scores, n: int, k: nat)
    requires Valid(net) && Covers(net, pot) && Solves(net, e) && n in net.base && k <= |net.kids[n]|
    requires Stable(net, pot, n) && LeavesAtBase(net, pot)
    ensures forall c :: c in net.kids[n][..k] ==> c in net.kids[n]
    ensures Within(Sum(pot, net.kids[n][..k]), Sum(e, net.kids[n][..k]), ErrSum(net, n, k))
    decreases net.rank[n], 0, k
  {
    if k > 0 {
      var cs := net.kids[n][..k];
      assert cs[..k - 1] == net.kids[n][..k - 1];
      assert cs[k - 1] in net.kids[n];
      KidsNearExact(net, pot, e, n, k - 1);
      StableNearExact(net, pot, e, cs[k - 1]);
    }
  }

  // Whatever the orders, every task that had as many rounds as its rank ends
  // within Err of the exact score.
  lemma RunNearExact(net: Net, run: Run, e: Scores, n: int)
    requires Valid(net) && Fair(net, run) && Solves(net, e)
    requires n in net.base && net.rank[n] <= Length(run)
    ensures Within(Rounds(net, net.base, run)[n], e[n], Err(net, n))
  {
    RoundsSettle(net, run, n);
    RoundsKeepLeaves(net, run);
    StableNearExact(net, Rounds(net, net.base, run), e, n);
  }

  // --------------------------------------------------------- rising potentials

  ghost predicate AtMost(pot: Scores, pot': Scores) {
    pot.Keys == pot'.Keys && forall n :: n in pot ==> pot[n] <= pot'[n]
  }

  lemma {:induction false} SumMonotone(pot: Scores, pot': Scores, cs: seq<int>)
    requires AtMost(pot, pot') && forall c :: c in cs ==> c in pot
    ensures Sum(pot, cs) <= Sum(pot', cs)
  {
    if cs != [] {
      assert cs[|cs| - 1] in cs;
      SumMonotone(pot, pot', cs[..|cs| - 1]);
    }
  }

  lemma TargetMonotone(net: Net, pot: Scores, pot': Scores, n: int)
    requires Valid(net) && Covers(net, pot) && AtMost(pot, pot') && n in net.base
    ensures Target(net, pot, n) <= Target(net, pot', n)
  {
    SumMonotone(pot, pot', net.kids[n]);
    RoundedMonotone(10 * net.base[n] + 3 * Sum(pot, net.kids[n]), 10 * net.base[n] + 3 * Sum(pot', net.kids[n]),
                    10, Target(net, pot, n), Target(net, pot', n));
  }

  // No equation asks for more than a tenth less than the current score.
  ghost predicate Rising(net: Net, pot: Scores)
    requires Valid(net) && Covers(net, pot)
  {
    forall n :: n in net.base ==> pot[n] <= Target(net, pot, n) + 1
  }

  lemma VisitRises(net: Net, pot: Scores, n: int)
    requires Valid(net) && Covers(net, pot) && n in net.base && Rising(net, pot)
    ensures AtMost(pot, Visit(net, pot, n)) && Rising(net, Visit(net, pot, n))
  {
    var pot' := Visit(net, pot, n);
    assert AtMost(pot, pot');
    forall m | m in net.base ensures pot'[m] <= Target(net, pot', m) + 1 {
      TargetMonotone(net, pot, pot', m);
    }
  }

  lemma {:induction false} VisitsRise(net: Net, pot: Scores, ns: seq<int>)
    requires Valid(net) && Covers(net, pot) && Visitable(net, ns) && Rising(net, pot)
    ensures AtMost(pot, Visits(net, pot, ns)) && Rising(net, Visits(net, pot, ns))
  {
    if ns != [] {
      VisitsRise(net, pot, ns[..|ns| - 1]);
      assert ns[|ns| - 1] in ns;
      VisitRises(net, Visits(net, pot, ns[..|ns| - 1]), ns[|ns| - 1]);
    }
  }

  // In no run, at no visit, does a score go down.
  ghost predicate NeverDecreases(net: Net)
    requires Valid(net)
  {
    forall ns, n :: Visitable(net, ns) && n in net.base ==>
      AtMost(Visits(net, net.base, ns), Visit(net, Visits(net, net.base, ns), n))
  }

  // Exactly when scores never decrease: when no first visit would lower one.
  lemma NeverDecreasesIff(net: Net)
    requires Valid(net)
    ensures NeverDecreases(net) <==> Rising(net, net.base)
  {
    if Rising(net, net.base) {
      forall ns, n | Visitable(net, ns) && n in net.base
        ensures AtMost(Visits(net, net.base, ns), Visit(net, Visits(net, net.base, ns), n))
      {
        VisitsRise(net, net.base, ns);
        VisitRises(net, Visits(net, net.base, ns), n);
      }
    }
    if NeverDecreases(net) {
      forall n | n in net.base ensures net.base[n] <= Target(net, net.base, n) + 1 {
        assert Visitable(net, []);
        assert Visits(net, net.base, []) == net.base;
        assert AtMost(net.base, Visit(net, net.base, n));
      }
    }
  }

  // No task that waits for another along a kept edge has a negative base.
  ghost predicate KidsNonNegative(net: Net)
    requires Valid(net)
  {
    forall n, c {:trigger c in net.kids[n]} :: n in net.kids && c in net.kids[n] ==> net.base[c] >= 0
  }

  lemma {:induction false} SumNonNegative(pot: Scores, cs: seq<int>)
    requires forall c :: c in cs ==> c in pot && pot[c] >= 0
    ensures Sum(pot, cs) >= 0
  {
    if cs != [] {
      assert cs[|cs| - 1] in cs;
      SumNonNegative(pot, cs[..|cs| - 1]);
    }
  }

  lemma TargetAboveBase(net: Net, pot: Scores, n: int)
    requires Valid(net) && Covers(net, pot) && n in net.base
    requires forall c :: c in net.kids[n] ==> pot[c] >= 0
    ensures net.base[n] <= Target(net, pot, n)
  {
    SumNonNegative(pot, net.kids[n]);
    RoundOfMultiple(net.base[n], 10);
    RoundedMonotone(10 * net.base[n], 10 * net.base[n] + 3 * Sum(pot, net.kids[n]), 10,
                    net.base[n], Target(net, pot, n));
  }

  lemma {:induction false} ExactAboveBase(net: Net, e: Scores, n: int)
    requires Valid(net) && Solves(net, e) && KidsNonNegative(net) && n in net.base
    ensures net.base[n] <= e[n]
    decreases net.rank[n]
  {
    forall c | c in net.kids[n] ensures e[c] >= 0 { ExactAboveBase(net, e, c); }
    TargetAboveBase(net, e, n);
  }

  lemma {:induction false} VisitsBelowExact(net: Net, pot: Scores, e: Scores, ns: seq<int>)
    requires Valid(net) && Covers(net, pot) && Visitable(net, ns) && Solves(net, e) && AtMost(pot, e)
    ensures AtMost(Visits(net, pot, ns), e)
  {
    if ns != [] {
      assert ns[|ns| - 1] in ns;
      VisitsBelowExact(net, pot, e, ns[..|ns| - 1]);
      TargetMonotone(net, Visits(net, pot, ns[..|ns| - 1]), e, ns[|ns| - 1]);
    }
  }

  lemma {:induction false} RoundsBetween(net: Net, run: Run, e: Scores)
    requires Valid(net) && Fair(net, run) && KidsNonNegative(net) && Solves(net, e)
    ensures Rising(net, Rounds(net, net.base, run))
    ensures AtMost(net.base, Rounds(net, net.base, run))
    ensures AtMost(Rounds(net, net.base, run), e)
  {
    if run == Begin {
      forall n | n in net.base ensures net.base[n] <= Target(net, net.base, n) && net.base[n] <= e[n] {
        TargetAboveBase(net, net.base, n);
        ExactAboveBase(net, e, n);
      }
    } else {
      RoundsBetween(net, run.earlier, e);
      VisitsRise(net, Rounds(net, net.base, run.earlier), run.order);
      VisitsBelowExact(net, Rounds(net, net.base, run.earlier), e, run.order);
    }
  }

  // The sandwich: with non-negative bases below it, a task's score never
  // passes its exact score, and ends at most Err short of it.
  lemma Sandwich(net: Net, run: Run, e: Scores, n: int)
    requires Valid(net) && Fair(net, run) && KidsNonNegative(net) && Solves(net, e) && n in net.base
    ensures net.base[n] <= Rounds(net, net.base, run)[n] <= e[n]
    ensures net.rank[n] <= Length(run) ==>
              e[n] as real - Err(net, n) <= Rounds(net, net.base, run)[n] as real
  {
    RoundsBetween(net, run, e);
    if net.rank[n] <= Length(run) {
      RunNearExact(net, run, e, n);
    }
  }

  lemma NonNegativeNeverDecreases(net: Net)
    requires Valid(net) && KidsNonNegative(net)
    ensures NeverDecreases(net)
  {
    ExactIsTheSolution(net, ExactScores(net));
    RoundsBetween(net, Begin, ExactScores(net));
    NeverDecreasesIff(net);
  }

  lemma Triangle(a: int, b: int, x: int, r: real)
    requires Within(a, x, r) && Within(b, x, r)
    ensures Within(a, b, 2.0 * r)
    ensures a <= x && b <= x ==> Within(a, b, r)
  {
  }

  // Two runs with different iteration orders differ by a computable bound.
  lemma RunsAgreeWithin(net: Net, run: Run, run': Run, n: int)
    requires Valid(net) && Fair(net, run) && Fair(net, run') && n in net.base
    requires net.rank[n] <= Length(run) && net.rank[n] <= Length(run')
    ensures Within(Rounds(net, net.base, run)[n], Rounds(net, net.base, run')[n], 2.0 * Err(net, n))
  {
    ExactIsTheSolution(net, ExactScores(net));
    var e :| Solves(net, e);
    RunNearExact(net, run, e, n);
    RunNearExact(net, run', e, n);
    Triangle(Rounds(net, net.base, run)[n], Rounds(net, net.base, run')[n], e[n], Err(net, n));
  }

  // Approaching the exact score from below halves the distance.
  lemma NonNegativeRunsAgreeWithin(net: Net, run: Run, run': Run, n: int)
    requires Valid(net) && Fair(net, run) && Fair(net, run') && n in net.base
    requires net.rank[n] <= Length(run) && net.rank[n] <= Length(run') && KidsNonNegative(net)
    ensures Within(Rounds(net, net.base, run)[n], Rounds(net, net.base, run')[n], Err(net, n))
  {
    ExactIsTheSolution(net, ExactScores(net));
    var e :| Solves(net, e);
    RunNearExact(net, run, e, n);
    RunNearExact(net, run', e, n);
    Sandwich(net, run, e, n);
    Sandwich(net, run', e, n);
    Triangle(Rounds(net, net.base, run)[n], Rounds(net, net.base, run')[n], e[n], Err(net, n));
  }
}
