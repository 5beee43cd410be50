// The fixpoint at the heart of internal/scoring/scoring.go:223-255, on an
// abstract net: every task has a base score in tenths and a list of kids, the
// tasks it unblocks along kept edges. One visit recomputes
// base + 0.3 * (sum over kids), rounds it to a tenth, and stores it only when
// it moved by more than 0.1. A round visits every task once in an arbitrary
// order, and at most ten rounds run.
module Propagation {
  import opened Rounding

  type Scores = map<int, int>

  // `rank` witnesses that kids form an acyclic relation.
  datatype Net = Net(base: Scores, kids: map<int, seq<int>>, rank: map<int, nat>)

  ghost predicate Valid(net: Net) {
    && net.kids.Keys == net.base.Keys == net.rank.Keys
    && forall n, c {:trigger c in net.kids[n]} :: n in net.kids && c in net.kids[n] ==>
         c in net.base && net.rank[c] < net.rank[n]
  }

  ghost predicate Covers(net: Net, pot: Scores) {
    pot.Keys == net.base.Keys
  }

  function Sum(pot: Scores, cs: seq<int>): int
    requires forall c :: c in cs ==> c in pot
  {
    if cs == [] then 0 else
      var last := cs[|cs| - 1];
      assert last in cs;
      Sum(pot, cs[..|cs| - 1]) + pot[last]
  }

  lemma SumSnoc(pot: Scores, cs: seq<int>, c: int)
    requires c in pot && forall d :: d in cs ==> d in pot
    ensures (forall d :: d in cs + [c] ==> d in pot) && Sum(pot, cs + [c]) == Sum(pot, cs) + pot[c]
  {
  }

  // A base and the sum over its kids, in tenths: base + 0.3 * sum, rounded.
  function Equation(base: int, sum: int): int {
    RoundHalfEven(10 * base + 3 * sum, 10)
  }

  lemma EquationIsNear(base: int, sum: int)
    ensures 10 * base + 3 * sum - 5 <= 10 * Equation(base, sum) <= 10 * base + 3 * sum + 5
  {
  }

  // What the equation of n gives for the current scores.
  function Target(net: Net, pot: Scores, n: int): int
    requires n in net.base && n in net.kids && forall c :: c in net.kids[n] ==> c in pot
  {
    Equation(net.base[n], Sum(pot, net.kids[n]))
  }

  function Abs(x: int): nat {
    if x < 0 then -x else x
  }

  ghost predicate Settled(net: Net, pot: Scores, n: int)
    requires Valid(net) && Covers(net, pot) && n in net.base
  {
    Abs(Target(net, pot, n) - pot[n]) <= 1
  }

  ghost function Visit(net: Net, pot: Scores, n: int): (pot': Scores)
    requires Valid(net) && Covers(net, pot) && n in net.base
    ensures Covers(net, pot')
  {
    if Settled(net, pot, n) then pot else pot[n := Target(net, pot, n)]
  }

  ghost predicate Visitable(net: Net, ns: seq<int>) {
    forall n :: n in ns ==> n in net.base
  }

  ghost function Visits(net: Net, pot: Scores, ns: seq<int>): (pot': Scores)
    requires Valid(net) && Covers(net, pot) && Visitable(net, ns)
    ensures Covers(net, pot')
  {
    if ns == [] then pot else Visit(net, Visits(net, pot, ns[..|ns| - 1]), ns[|ns| - 1])
  }

  // One round visits every task. That it visits none twice plays no part in
  // what follows.
  ghost predicate IsOrder(net: Net, ns: seq<int>) {
    forall n :: n in ns <==> n in net.base
  }

  // The rounds of a run, oldest innermost.
  datatype Run = Begin | Then(earlier: Run, order: seq<int>)

  function Length(run: Run): nat {
    match run
    case Begin => 0
    case Then(earlier, _) => Length(earlier) + 1
  }

  function Append(run: Run, more: Run): Run {
    match more
    case Begin => run
    case Then(earlier, order) => Then(Append(run, earlier), order)
  }

  ghost predicate Fair(net: Net, run: Run) {
    match run
    case Begin => true
    case Then(earlier, order) => Fair(net, earlier) && IsOrder(net, order)
  }

  ghost function Rounds(net: Net, pot: Scores, run: Run): (pot': Scores)
    requires Valid(net) && Covers(net, pot) && Fair(net, run)
    ensures Covers(net, pot')
  {
    match run
    case Begin => pot
    case Then(earlier, order) => Visits(net, Rounds(net, pot, earlier), order)
  }

  // ------------------------------------------------------------ convergence

  // n and everything below it is settled.
  ghost predicate Stable(net: Net, pot: Scores, n: int)
    requires Valid(net) && Covers(net, pot) && n in net.base
    decreases net.rank[n]
  {
    && Settled(net, pot, n)
    && forall c :: c in net.kids[n] ==> Stable(net, pot, c)
  }

  lemma {:induction false} SumAgrees(pot: Scores, pot': Scores, cs: seq<int>)
    requires forall c :: c in cs ==> c in pot && c in pot' && pot[c] == pot'[c]
    ensures Sum(pot, cs) == Sum(pot', cs)
  {
    if cs != [] {
      assert cs[|cs| - 1] in cs;
      SumAgrees(pot, pot', cs[..|cs| - 1]);
    }
  }

  // No visit to any task disturbs a stable one.
  lemma {:induction false} VisitKeepsStable(net: Net, pot: Scores, m: int, n: int)
    requires Valid(net) && Covers(net, pot) && m in net.base && n in net.base
    requires Stable(net, pot, n)
    ensures Visit(net, pot, m)[n] == pot[n]
    ensures Stable(net, Visit(net, pot, m), n)
    decreases net.rank[n]
  {
    var pot' := Visit(net, pot, m);
    forall c | c in net.kids[n]
      ensures pot'[c] == pot[c] && Stable(net, pot', c)
    {
      VisitKeepsStable(net, pot, m, c);
    }
    SumAgrees(pot, pot', net.kids[n]);
  }

  lemma {:induction false} VisitsKeepStable(net: Net, pot: Scores, ns: seq<int>, n: int)
    requires Valid(net) && Covers(net, pot) && Visitable(net, ns) && n in net.base
    requires Stable(net, pot, n)
    ensures Visits(net, pot, ns)[n] == pot[n]
    ensures Stable(net, Visits(net, pot, ns), n)
  {
    if ns != [] {
      VisitsKeepStable(net, pot, ns[..|ns| - 1], n);
      VisitKeepsStable(net, Visits(net, pot, ns[..|ns| - 1]), ns[|ns| - 1], n);
    }
  }

  lemma MovedWasUnstable(net: Net, pot: Scores, ns: seq<int>, n: int)
    requires Valid(net) && Covers(net, pot) && Visitable(net, ns) && n in net.base
    requires !Settled(net, Visits(net, pot, ns), n)
    ensures !Stable(net, pot, n)
  {
    if Stable(net, pot, n) {
      VisitsKeepStable(net, pot, ns, n);
    }
  }

  // Visiting a task whose kids are all stable makes it stable.
  lemma {:induction false} VisitSettles(net: Net, pot: Scores, n: int)
    requires Valid(net) && Covers(net, pot) && n in net.base
    requires forall c :: c in net.kids[n] ==> Stable(net, pot, c)
    ensures Stable(net, Visit(net, pot, n), n)
  {
    var pot' := Visit(net, pot, n);
    forall c | c in net.kids[n]
      ensures pot'[c] == pot[c] && Stable(net, pot', c)
    {
      VisitKeepsStable(net, pot, n, c);
    }
    SumAgrees(pot, pot', net.kids[n]);
  }

  lemma {:induction false} VisitsSettle(net: Net, pot: Scores, ns: seq<int>, n: int)
    requires Valid(net) && Covers(net, pot) && Visitable(net, ns) && n in ns
    requires forall c :: c in net.kids[n] ==> Stable(net, pot, c)
    ensures Stable(net, Visits(net, pot, ns), n)
  {
    var front, last := ns[..|ns| - 1], ns[|ns| - 1];
    var mid := Visits(net, pot, front);
    if n == last {
      forall c | c in net.kids[n] ensures Stable(net, mid, c) {
        VisitsKeepStable(net, pot, front, c);
      }
      VisitSettles(net, mid, n);
    } else {
      VisitsSettle(net, pot, front, n);
      VisitKeepsStable(net, mid, last, n);
    }
  }

  // A task without kids starts, and therefore stays, at its base.
  lemma LeafIsStable(net: Net, n: int)
    requires Valid(net) && n in net.base && net.rank[n] == 0
    ensures Stable(net, net.base, n)
  {
    var ks := net.kids[n];
    assert ks != [] ==> ks[0] in ks;
    assert forall c :: c !in ks;
    RoundOfMultiple(net.base[n], 10);
  }

  // Convergence: whatever the order of each round, after h rounds every task of
  // rank at most h is stable.
  lemma {:induction false} RoundsSettle(net: Net, run: Run, n: int)
    requires Valid(net) && Fair(net, run)
    requires n in net.base && net.rank[n] <= Length(run)
    ensures Stable(net, Rounds(net, net.base, run), n)
    decreases run
  {
    match run
    case Begin =>
      LeafIsStable(net, n);
    case Then(earlier, order) =>
      forall c | c in net.kids[n] ensures Stable(net, Rounds(net, net.base, earlier), c) {
        RoundsSettle(net, earlier, c);
      }
      VisitsSettle(net, Rounds(net, net.base, earlier), order, n);
  }

  lemma {:induction false} RoundsKeepStable(net: Net, pot: Scores, run: Run, n: int)
    requires Valid(net) && Covers(net, pot) && Fair(net, run) && n in net.base
    requires Stable(net, pot, n)
    ensures Rounds(net, pot, run)[n] == pot[n] && Stable(net, Rounds(net, pot, run), n)
  {
    if run.Then? {
      RoundsKeepStable(net, pot, run.earlier, n);
      VisitsKeepStable(net, Rounds(net, pot, run.earlier), run.order, n);
    }
  }

  // A round that changes nothing leaves every later round nothing to change:
  // stopping early is the same as running on.
  lemma {:induction false} QuietForever(net: Net, pot: Scores, run: Run)
    requires Valid(net) && Covers(net, pot) && Fair(net, run)
    requires forall n :: n in net.base ==> Settled(net, pot, n)
    ensures Rounds(net, pot, run) == pot
  {
    if run.Then? {
      QuietForever(net, pot, run.earlier);
      QuietRound(net, pot, run.order);
    }
  }

  lemma {:induction false} QuietRound(net: Net, pot: Scores, ns: seq<int>)
    requires Valid(net) && Covers(net, pot) && Visitable(net, ns)
    requires forall n :: n in net.base ==> Settled(net, pot, n)
    ensures Visits(net, pot, ns) == pot
  {
    if ns != [] {
      assert ns[|ns| - 1] in ns;
      QuietRound(net, pot, ns[..|ns| - 1]);
    }
  }

  lemma {:induction false} SettledEverywhere(net: Net, pot: Scores, n: int)
    requires Valid(net) && Covers(net, pot) && n in net.base
    requires forall m :: m in net.base ==> Settled(net, pot, m)
    ensures Stable(net, pot, n)
    decreases net.rank[n]
  {
    forall c | c in net.kids[n] ensures Stable(net, pot, c) {
      SettledEverywhere(net, pot, c);
    }
  }

  lemma {:induction false} RoundsAppend(net: Net, pot: Scores, run: Run, more: Run)
    requires Valid(net) && Covers(net, pot) && Fair(net, run) && Fair(net, more)
    ensures Fair(net, Append(run, more)) && Length(Append(run, more)) == Length(run) + Length(more)
    ensures Rounds(net, pot, Append(run, more)) == Rounds(net, Rounds(net, pot, run), more)
  {
    if more.Then? {
      RoundsAppend(net, pot, run, more.earlier);
    }
  }

  lemma VisitsSnoc(net: Net, pot: Scores, ns: seq<int>, n: int)
    requires Valid(net) && Covers(net, pot) && Visitable(net, ns) && n in net.base
    ensures Visitable(net, ns + [n])
    ensures Visits(net, pot, ns + [n]) == Visit(net, Visits(net, pot, ns), n)
  {
  }
}
