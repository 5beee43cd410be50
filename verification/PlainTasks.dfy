// Tasks with nothing but an owner, a type, blockers and a priority override, for
// examples; and one in which potentials fall.
module PlainTasks {
  import opened Text
  import opened Graphs
  import opened Propagation
  import opened Bounds
  import opened KeptEdges
  import opened Scoring

  function Plain(id: int, blockedBy: seq<int>, taskType: TaskType, override: int): Task {
    Task(id, blockedBy, false, false, None, None, A, taskType, 0, false, 0, override)
  }

  lemma PlainBase(id: int, blockedBy: seq<int>, override: int)
    ensures EntryOf(Plain(id, blockedBy, Feature, override)).base == 100 + 10 * override
  {
  }

  lemma PlainSpecBase(id: int, blockedBy: seq<int>, override: int)
    ensures EntryOf(Plain(id, blockedBy, Spec, override)).base == 50 + 10 * override
  {
  }

  lemma OneMoreTask(tasks: seq<Task>, t: Task, b: int)
    requires t.blockedBy == [b]
    ensures BlocksOf(tasks + [t]) == AddEdge(BlocksOf(tasks), b, t.id)
    ensures Entries(tasks + [t]) == Entries(tasks)[t.id := EntryOf(t)]
  {
    assert (tasks + [t])[..|tasks|] == tasks;
    assert [b][..0] == [];
    assert AddBlockers(BlocksOf(tasks), t.id, []) == BlocksOf(tasks);
  }

  lemma FirstTask(t: Task)
    requires t.blockedBy == []
    ensures BlocksOf([t]) == map[] && Entries([t]) == map[t.id := EntryOf(t)]
  {
  }

  // ------------------------------------------------------------ falling potentials

  // 2 waits for 1 and has a base of -10.0.
  const FALLING: seq<Task> := [Plain(1, [], Feature, 0)] + [Plain(2, [1], Feature, -20)]

  lemma FallingNet()
    ensures Bases(FALLING) == map[1 := 100, 2 := -100]
    ensures Kids(BlocksOf(FALLING), 1) == [2] && Kids(BlocksOf(FALLING), 2) == []
  {
    FirstTask(Plain(1, [], Feature, 0));
    OneMoreTask([Plain(1, [], Feature, 0)], Plain(2, [1], Feature, -20), 1);
    PlainBase(1, [], 0);
    PlainBase(2, [1], -20);
    var none: seq<int>, blocks := [], BlocksOf(FALLING);
    assert none + [2] == [2] && blocks == map[1 := [2]];
    assert !Edge(blocks, 2, 1) && !Reaches(blocks, 2, 1) by {
      if Reaches(blocks, 2, 1) {
        ReachedIsTarget(blocks, 2, 1);
      }
    }
    assert KeptAmong(blocks, 1, 0) == [];
  }

  lemma FallingTarget()
    ensures 1 in Bases(FALLING) && Bases(FALLING)[1] == 100
    ensures Target(TaskNet(FALLING), Bases(FALLING), 1) == 70
  {
    FallingNet();
    var net := TaskNet(FALLING);
    assert net.kids[1] == [2];
    assert [2][..0] == [];
    assert Sum(net.base, [2]) == -100;
  }

  // The first visit to task 1 takes it from 10.0 down to 7.0.
  lemma PotentialsFall()
    ensures 1 in Bases(FALLING) && Bases(FALLING)[1] == 100
    ensures Visit(TaskNet(FALLING), Bases(FALLING), 1)[1] == 70
    ensures !NeverDecreases(TaskNet(FALLING))
  {
    FallingTarget();
    NeverDecreasesIff(TaskNet(FALLING));
  }
}
