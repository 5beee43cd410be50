// When the order in which a round visits the tasks shows in the result. Up to
// height one it never does; at height two two orders can end a tenth apart,
// however many rounds follow.
module OrderDependence {
  import opened Text
  import opened Graphs
  import opened Propagation
  import opened KeptEdges
  import opened Scoring
  import opened PlainTasks

  // ------------------------------------------------------ where order is no matter

  // The score n takes the first time it is visited with its kids at their bases.
  ghost function Answer(net: Net, n: int): int
    requires Valid(net) && n in net.base
  {
    if Settled(net, net.base, n) then net.base[n] else Target(net, net.base, n)
  }

  // No kid of n, and nothing below one, asks to leave its base.
  ghost predicate FrozenKids(net: Net, n: int)
    requires Valid(net) && n in net.base
  {
    forall c :: c in net.kids[n] ==> Stable(net, net.base, c)
  }

  lemma VisitAnswers(net: Net, pot: Scores, n: int)
    requires Valid(net) && Covers(net, pot) && n in net.base
    requires forall c :: c in net.kids[n] ==> pot[c] == net.base[c]
    requires pot[n] == net.base[n] || pot[n] == Answer(net, n)
    ensures Visit(net, pot, n)[n] == Answer(net, n)
  {
    SumAgrees(pot, net.base, net.kids[n]);
  }

  lemma {:induction false} VisitsAnswer(net: Net, pot: Scores, ns: seq<int>, n: int)
    requires Valid(net) && Covers(net, pot) && Visitable(net, ns) && n in net.base
    requires forall c :: c in net.kids[n] ==> Stable(net, pot, c) && pot[c] == net.base[c]
    requires pot[n] == net.base[n] || pot[n] == Answer(net, n)
    ensures Visits(net, pot, ns)[n] == if n in ns then Answer(net, n) else pot[n]
  {
    if ns != [] {
      var front, last := ns[..|ns| - 1], ns[|ns| - 1];
      assert ns == front + [last];
      VisitsAnswer(net, pot, front, n);
      var mid := Visits(net, pot, front);
      forall c | c in net.kids[n] ensures mid[c] == net.base[c] {
        VisitsKeepStable(net, pot, front, c);
      }
      if last == n {
        VisitAnswers(net, mid, n);
      }
    }
  }

  // Every run of at least one round gives such a task the same score, whatever
  // the orders and whatever happens elsewhere.
  lemma {:induction false} FrozenKidsDecide(net: Net, run: Run, n: int)
    requires Valid(net) && Fair(net, run) && n in net.base && FrozenKids(net, n)
    ensures Rounds(net, net.base, run)[n] == if run == Begin then net.base[n] else Answer(net, n)
  {
    if run.Then? {
      FrozenKidsDecide(net, run.earlier, n);
      forall c | c in net.kids[n]
        ensures Stable(net, Rounds(net, net.base, run.earlier), c)
        ensures Rounds(net, net.base, run.earlier)[c] == net.base[c]
      {
        RoundsKeepStable(net, net.base, run.earlier, c);
      }
      VisitsAnswer(net, Rounds(net, net.base, run.earlier), run.order, n);
    }
  }

  lemma LowKidsAreFrozen(net: Net, n: int)
    requires Valid(net) && n in net.base && net.rank[n] <= 1
    ensures FrozenKids(net, n)
  {
    forall c | c in net.kids[n] ensures Stable(net, net.base, c) { LeafIsStable(net, c); }
  }

  // Two runs of any lengths but zero agree on a net of height at most one.
  lemma LowRunsAgree(net: Net, run: Run, run': Run)
    requires Valid(net) && Fair(net, run) && Fair(net, run') && run.Then? && run'.Then?
    requires forall n :: n in net.base ==> net.rank[n] <= 1
    ensures Rounds(net, net.base, run) == Rounds(net, net.base, run')
  {
    forall n | n in net.base ensures Rounds(net, net.base, run)[n] == Rounds(net, net.base, run')[n] {
      LowKidsAreFrozen(net, n);
      FrozenKidsDecide(net, run, n);
      FrozenKidsDecide(net, run', n);
    }
  }

  // ------------------------------------------------------------ order matters

  // Task 1 unblocks 2 and 3, task 2 unblocks 4. If 1
  // is visited before 2 in the first round it takes 15.0, and the 15.1 its
  // equation asks for afterwards is too small a move to be stored (as doubles,
  // too: 15.1 - 15.0 lies below 0.1).
  ghost predicate IsDiamond(net: Net) {
    && Valid(net)
    && net.base == map[1 := 90, 2 := 100, 3 := 100, 4 := 10]
    && net.kids[1] == [2, 3] && net.kids[2] == [4] && net.kids[3] == [] && net.kids[4] == []
  }

  lemma DiamondTargets(net: Net, pot: Scores)
    requires IsDiamond(net) && Covers(net, pot)
    ensures Target(net, pot, 1) == Equation(90, pot[2] + pot[3])
    ensures Target(net, pot, 2) == Equation(100, pot[4])
    ensures Target(net, pot, 3) == 100 && Target(net, pot, 4) == 10
  {
    assert [4][..0] == [] && [2][..0] == [] && [2, 3][..1] == [2];
    assert Sum(pot, [2]) == pot[2];
  }

  lemma VisitsOfFour(net: Net, pot: Scores, a: int, b: int, c: int, d: int)
    requires Valid(net) && Covers(net, pot) && Visitable(net, [a, b, c, d])
    ensures a in net.base && b in net.base && c in net.base && d in net.base
    ensures Visits(net, pot, [a, b, c, d]) == Visit(net, Visit(net, Visit(net, Visit(net, pot, a), b), c), d)
  {
    var ns := [a, b, c, d];
    assert a == ns[0] && b == ns[1] && c == ns[2] && d == ns[3];
    assert ns[..3] == [a, b, c] && [a, b, c][..2] == [a, b] && [a, b][..1] == [a] && [a][..0] == [];
    assert Visits(net, pot, [a]) == Visit(net, pot, a);
    assert Visits(net, pot, [a, b]) == Visit(net, Visit(net, pot, a), b);
  }

  lemma DiamondEnd(net: Net, top: int, pot: Scores)
    requires IsDiamond(net) && 150 <= top <= 151 && pot == net.base[2 := 103][1 := top]
    ensures forall n :: n in net.base ==> Settled(net, pot, n)
  {
    DiamondTargets(net, pot);
  }

  lemma DiamondTopFirst(net: Net)
    requires IsDiamond(net) && IsOrder(net, [1, 2, 3, 4])
    ensures Visits(net, net.base, [1, 2, 3, 4]) == net.base[2 := 103][1 := 150]
  {
    var pot, end := net.base[1 := 150], net.base[2 := 103][1 := 150];
    DiamondTargets(net, net.base);
    assert Visit(net, net.base, 1) == pot;
    DiamondTargets(net, pot);
    assert Visit(net, pot, 2) == end;
    DiamondEnd(net, 150, end);
    VisitsOfFour(net, net.base, 1, 2, 3, 4);
  }

  lemma DiamondTopLast(net: Net)
    requires IsDiamond(net) && IsOrder(net, [2, 1, 3, 4])
    ensures Visits(net, net.base, [2, 1, 3, 4]) == net.base[2 := 103][1 := 151]
  {
    var pot, end := net.base[2 := 103], net.base[2 := 103][1 := 151];
    DiamondTargets(net, net.base);
    assert Visit(net, net.base, 2) == pot;
    DiamondTargets(net, pot);
    assert Visit(net, pot, 1) == end;
    DiamondEnd(net, 151, end);
    VisitsOfFour(net, net.base, 2, 1, 3, 4);
  }

  // The first round decides: whatever the later rounds do, the two runs differ.
  lemma OrderMatters(net: Net, later: Run)
    requires IsDiamond(net) && Fair(net, later)
    ensures Fair(net, Append(Then(Begin, [1, 2, 3, 4]), later)) && Fair(net, Append(Then(Begin, [2, 1, 3, 4]), later))
    ensures Rounds(net, net.base, Append(Then(Begin, [1, 2, 3, 4]), later))[1] == 150
    ensures Rounds(net, net.base, Append(Then(Begin, [2, 1, 3, 4]), later))[1] == 151
  {
    DiamondTopFirst(net);
    DiamondTopLast(net);
    DiamondEnd(net, 150, net.base[2 := 103][1 := 150]);
    DiamondEnd(net, 151, net.base[2 := 103][1 := 151]);
    RoundsAppend(net, net.base, Then(Begin, [1, 2, 3, 4]), later);
    RoundsAppend(net, net.base, Then(Begin, [2, 1, 3, 4]), later);
    QuietForever(net, net.base[2 := 103][1 := 150], later);
    QuietForever(net, net.base[2 := 103][1 := 151], later);
  }

  // ------------------------------------------------------ four ordinary tasks

  // 4 waits for 2, and 2 and 3 wait for 1.
  const TASKS: seq<Task> :=
    [Plain(1, [], Feature, -1)] + [Plain(2, [1], Feature, 0)] + [Plain(3, [1], Feature, 0)] + [Plain(4, [2], Spec, -4)]

  lemma ThreeEdges()
    ensures AddEdge(AddEdge(AddEdge(map[], 1, 2), 1, 3), 2, 4) == map[1 := [2, 3], 2 := [4]]
  {
    var none: Graph, empty: seq<int> := map[], [];
    assert empty + [2] == [2] && [2] + [3] == [2, 3] && empty + [4] == [4];
    assert AddEdge(none, 1, 2) == map[1 := [2]];
    assert AddEdge(map[1 := [2]], 1, 3) == map[1 := [2, 3]];
  }

  lemma BlocksOfTasks()
    ensures BlocksOf(TASKS) == map[1 := [2, 3], 2 := [4]]
    ensures Entries(TASKS).Keys == {1, 2, 3, 4}
    ensures Entries(TASKS)[1] == EntryOf(Plain(1, [], Feature, -1))
    ensures Entries(TASKS)[2] == EntryOf(Plain(2, [1], Feature, 0))
    ensures Entries(TASKS)[3] == EntryOf(Plain(3, [1], Feature, 0))
    ensures Entries(TASKS)[4] == EntryOf(Plain(4, [2], Spec, -4))
  {
    var one, two := Plain(1, [], Feature, -1), Plain(2, [1], Feature, 0);
    var three, four := Plain(3, [1], Feature, 0), Plain(4, [2], Spec, -4);
    FirstTask(one);
    OneMoreTask([one], two, 1);
    OneMoreTask([one] + [two], three, 1);
    OneMoreTask([one] + [two] + [three], four, 2);
    ThreeEdges();
  }

  lemma BasesOfTasks()
    ensures Bases(TASKS) == map[1 := 90, 2 := 100, 3 := 100, 4 := 10]
    ensures 1 in Entries(TASKS) && !Entries(TASKS)[1].isBlocked
  {
    BlocksOfTasks();
    PlainBase(1, [], -1);
    PlainBase(2, [1], 0);
    PlainBase(3, [1], 0);
    PlainSpecBase(4, [2], -4);
  }

  lemma DiamondKids(blocks: Graph)
    requires blocks == map[1 := [2, 3], 2 := [4]]
    ensures Kids(blocks, 1) == [2, 3] && Kids(blocks, 2) == [4] && Kids(blocks, 3) == [] && Kids(blocks, 4) == []
  {
    forall x ensures !Reaches(blocks, x, 1) && !Reaches(blocks, 4, x) {
      if Reaches(blocks, x, 1) {
        ReachedIsTarget(blocks, x, 1);
      }
      if Reaches(blocks, 4, x) {
        ReachedIsTarget(blocks, 4, x);
      }
    }
    assert KeptAmong(blocks, 1, 0) == [] && KeptAmong(blocks, 1, 1) == [2];
    assert KeptAmong(blocks, 2, 0) == [];
  }

  lemma TasksAreDiamond()
    ensures IsDiamond(TaskNet(TASKS))
  {
    BlocksOfTasks();
    BasesOfTasks();
    DiamondKids(BlocksOf(TASKS));
    var net := TaskNet(TASKS);
    assert net == NetOf(Bases(TASKS), BlocksOf(TASKS));
  }

  // RecalculateAll may report two different scores for the same four tasks.
  lemma ScoresDependOnOrder(later: Run)
    requires Fair(TaskNet(TASKS), later) && Length(later) == 9
    ensures var run, run' := Append(Then(Begin, [1, 2, 3, 4]), later), Append(Then(Begin, [2, 1, 3, 4]), later);
            && Fair(TaskNet(TASKS), run) && Length(run) == 10
            && Fair(TaskNet(TASKS), run') && Length(run') == 10
            && (forall r :: Reported(TASKS, run, 1, r) ==> r.effective == 150)
            && (forall r :: Reported(TASKS, run', 1, r) ==> r.effective == 151)
            && Rounds(TaskNet(TASKS), Bases(TASKS), run) != Rounds(TaskNet(TASKS), Bases(TASKS), run')
  {
    var net := TaskNet(TASKS);
    TasksAreDiamond();
    OrderMatters(net, later);
    BasesOfTasks();
    RoundsAppend(net, net.base, Then(Begin, [1, 2, 3, 4]), later);
    RoundsAppend(net, net.base, Then(Begin, [2, 1, 3, 4]), later);
  }

  // ------------------------------------------------------- exactly up to height one

  ghost predicate LowTasks(tasks: seq<Task>, h: nat) {
    forall id :: id in Bases(tasks) ==> Height(BlocksOf(tasks), id) <= h
  }

  // Any two calls of RecalculateAll compute the same scores.
  ghost predicate OrderIndependent(tasks: seq<Task>) {
    forall run, run' :: Fair(TaskNet(tasks), run) && Fair(TaskNet(tasks), run') && Length(run) == 10 == Length(run') ==>
      Rounds(TaskNet(tasks), Bases(tasks), run) == Rounds(TaskNet(tasks), Bases(tasks), run')
  }

  lemma LowTasksAreOrderIndependent(tasks: seq<Task>)
    requires LowTasks(tasks, 1)
    ensures OrderIndependent(tasks)
  {
    var net := TaskNet(tasks);
    forall run, run' | Fair(net, run) && Fair(net, run') && Length(run) == 10 == Length(run')
      ensures Rounds(net, net.base, run) == Rounds(net, net.base, run')
    {
      LowRunsAgree(net, run, run');
    }
  }

  lemma HeightFromKids(blocks: Graph, x: int, h: nat)
    requires forall y :: y in Kids(blocks, x) ==> Height(blocks, y) < h
    ensures Height(blocks, x) <= h
  {
    if Height(blocks, x) > 0 {
      var y := TallestKid(blocks, x);
      assert y in Kids(blocks, x);
    }
  }

  lemma DiamondHeights(blocks: Graph)
    requires blocks == map[1 := [2, 3], 2 := [4]]
    ensures Height(blocks, 1) <= 2 && Height(blocks, 2) <= 2 && Height(blocks, 3) <= 2 && Height(blocks, 4) <= 2
  {
    DiamondKids(blocks);
    HeightFromKids(blocks, 3, 0);
    HeightFromKids(blocks, 4, 0);
    HeightFromKids(blocks, 2, 1);
    HeightFromKids(blocks, 1, 2);
  }

  lemma TasksAreLow()
    ensures LowTasks(TASKS, 2)
  {
    BlocksOfTasks();
    BasesOfTasks();
    DiamondHeights(BlocksOf(TASKS));
  }

  lemma TasksAreOrderDependent()
    ensures !OrderIndependent(TASKS)
  {
    var net := TaskNet(TASKS);
    TasksAreDiamond();
    var later := Repeat([1, 2, 3, 4], 9);
    RepeatIsFair(net, [1, 2, 3, 4], 9);
    ScoresDependOnOrder(later);
  }

  lemma FallingIsLow()
    ensures Height(BlocksOf(FALLING), 1) <= 1
  {
    FallingNet();
    HeightFromKids(BlocksOf(FALLING), 2, 0);
    HeightFromKids(BlocksOf(FALLING), 1, 1);
  }

  lemma AnswerOfLow(net: Net, run: Run, n: int)
    requires Valid(net) && Fair(net, run) && run.Then? && n in net.base && net.rank[n] <= 1
    ensures Rounds(net, net.base, run)[n] == Answer(net, n)
  {
    LowKidsAreFrozen(net, n);
    FrozenKidsDecide(net, run, n);
  }

  // In the falling example every call ends with the lower score.
  lemma FallingForEveryOrder(run: Run)
    requires Fair(TaskNet(FALLING), run) && run.Then?
    ensures 1 in Bases(FALLING) && Bases(FALLING)[1] == 100
    ensures Rounds(TaskNet(FALLING), Bases(FALLING), run)[1] == 70
  {
    FallingTarget();
    FallingIsLow();
    AnswerOfLow(TaskNet(FALLING), run, 1);
  }

  // Order never shows in the scores of tasks of height at most h exactly when h
  // is at most one.
  lemma OrderIndependentIff(h: nat)
    ensures (forall tasks :: LowTasks(tasks, h) ==> OrderIndependent(tasks)) <==> h <= 1
  {
    if h <= 1 {
      forall tasks | LowTasks(tasks, h) ensures OrderIndependent(tasks) {
        LowTasksAreOrderIndependent(tasks);
      }
    } else {
      TasksAreLow();
      TasksAreOrderDependent();
      assert LowTasks(TASKS, h);
    }
  }
}
