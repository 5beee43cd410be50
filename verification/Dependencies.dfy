// The blocked_by graph over whole runs: which operations can close a cycle.
module Dependencies {
  import opened Text
  import opened Graphs
  import opened Tasks
  import opened Updates
  import opened Merging
  import opened Lifecycle

  // Every blocker that is listed is a task.
  ghost predicate Grounded(tasks: map<int, Task>) {
    forall x, y :: Edge(BlockedBy(tasks), x, y) ==> y in tasks
  }

  ghost predicate Sound(tasks: map<int, Task>) {
    Grounded(tasks) && Acyclic(BlockedBy(tasks))
  }

  ghost predicate NoNewEdges(tasks: map<int, Task>, tasks': map<int, Task>) {
    tasks.Keys <= tasks'.Keys && forall x, y :: Edge(BlockedBy(tasks'), x, y) ==> Edge(BlockedBy(tasks), x, y)
  }

  lemma FewerEdgesStayAcyclic(tasks: map<int, Task>, tasks': map<int, Task>)
    requires Acyclic(BlockedBy(tasks)) && NoNewEdges(tasks, tasks')
    ensures Acyclic(BlockedBy(tasks'))
  {
    forall x ensures Reaches(BlockedBy(tasks'), x, x) ==> Reaches(BlockedBy(tasks), x, x) {
      if Reaches(BlockedBy(tasks'), x, x) {
        var p :| PathBetween(BlockedBy(tasks'), p, x, x);
        assert PathBetween(BlockedBy(tasks), p, x, x);
      }
    }
  }

  // ------------------------------------------------------------------- creation

  lemma InsertedEdges(tasks: map<int, Task>, id: int, row: Task, x: int, y: int)
    requires id !in tasks
    ensures Edge(BlockedBy(tasks[id := row]), x, y) <==>
              if x == id then y in row.blockedBy else Edge(BlockedBy(tasks), x, y)
  {
  }

  lemma OldPathStays(tasks: map<int, Task>, id: int, row: Task, x: int, y: int)
    requires id !in tasks && Reaches(BlockedBy(tasks), x, y)
    ensures Reaches(BlockedBy(tasks[id := row]), x, y)
  {
    var p :| PathBetween(BlockedBy(tasks), p, x, y);
    assert PathBetween(BlockedBy(tasks[id := row]), p, x, y);
  }

  // A path that leaves the new task nowhere is an old one.
  lemma PathAvoidingNew(tasks: map<int, Task>, id: int, row: Task, p: seq<int>)
    requires id !in tasks && Path(BlockedBy(tasks[id := row]), p)
    requires forall i :: 0 <= i < |p| - 1 ==> p[i] != id
    ensures Path(BlockedBy(tasks), p)
  {
    forall i, j | 0 <= i < j < |p| && j == i + 1 ensures Edge(BlockedBy(tasks), p[i], p[j]) {
      InsertedEdges(tasks, id, row, p[i], p[j]);
    }
  }

  // A cycle through the new task starts at one of its blockers, and old edges
  // lead from there back to its id.
  lemma NewCycleWaits(tasks: map<int, Task>, id: int, row: Task)
    requires id !in tasks && Reaches(BlockedBy(tasks[id := row]), id, id)
    ensures exists v :: v in row.blockedBy && (v == id || Reaches(BlockedBy(tasks), v, id))
  {
    var g := BlockedBy(tasks[id := row]);
    var p :| PathBetween(g, p, id, id);
    var i := FirstReturn(p, id, 1);
    InsertedEdges(tasks, id, row, p[0], p[1]);
    if i > 1 {
      SubPath(g, p, 1, i + 1);
      PathAvoidingNew(tasks, id, row, p[1..i + 1]);
      assert PathBetween(BlockedBy(tasks), p[1..i + 1], p[1], id);
    }
  }

  lemma CycleIsOldOrThroughNew(tasks: map<int, Task>, id: int, row: Task, x: int)
    requires id !in tasks && Reaches(BlockedBy(tasks[id := row]), x, x)
    ensures Reaches(BlockedBy(tasks), x, x) || Reaches(BlockedBy(tasks[id := row]), id, id)
  {
    var g := BlockedBy(tasks[id := row]);
    var p :| PathBetween(g, p, x, x);
    if id in p {
      CycleThrough(g, p, id);
    } else {
      PathAvoidingNew(tasks, id, row, p);
      assert PathBetween(BlockedBy(tasks), p, x, x);
    }
  }

  // Exactly when a new task keeps the graph acyclic: when none of its blockers
  // is the task itself or waits for its id already.
  lemma CreateKeepsAcyclicIff(tasks: map<int, Task>, id: int, row: Task)
    requires id !in tasks && Acyclic(BlockedBy(tasks))
    ensures Acyclic(BlockedBy(tasks[id := row])) <==>
              forall v :: v in row.blockedBy ==> v != id && !Reaches(BlockedBy(tasks), v, id)
  {
    var g := BlockedBy(tasks[id := row]);
    if v :| v in row.blockedBy && (v == id || Reaches(BlockedBy(tasks), v, id)) {
      EdgeReaches(g, id, v);
      if v != id {
        OldPathStays(tasks, id, row, v, id);
        ReachesTrans(g, id, v, id);
      }
    } else {
      forall x ensures Reaches(g, x, x) ==>
        exists v :: v in row.blockedBy && (v == id || Reaches(BlockedBy(tasks), v, id))
      {
        if Reaches(g, x, x) {
          CycleIsOldOrThroughNew(tasks, id, row, x);
          NewCycleWaits(tasks, id, row);
        }
      }
    }
  }

  lemma {:induction false} SubtasksStayAcyclic(db: Db, pid: int, t: Task, phases: seq<Phase>, firstId: int,
                                               agent: string)
    requires Acyclic(BlockedBy(db.tasks)) && forall k :: k in db.tasks ==> k < firstId
    ensures Acyclic(BlockedBy(WithSubtasks(db, pid, t, phases, firstId, agent).tasks))
    ensures forall k :: k in WithSubtasks(db, pid, t, phases, firstId, agent).tasks ==> k < firstId + |phases|
  {
    if phases != [] {
      var k := |phases| - 1;
      SubtasksStayAcyclic(db, pid, t, phases[..k], firstId, agent);
      CreateKeepsAcyclicIff(WithSubtasks(db, pid, t, phases[..k], firstId, agent).tasks, firstId + k,
                            SubtaskRow(pid, t, phases[k]).(status := BACKLOG));
    }
  }

  lemma ReopenedAddsNoEdges(db: Db, id: int, agent: string, command: string)
    ensures NoNewEdges(db.tasks, Reopened(db, id, agent, command).tasks)
    ensures NoNewEdges(Reopened(db, id, agent, command).tasks, db.tasks)
  {
  }

  // ----------------------------------------------------------------- other steps

  lemma UpdateAddsNoEdges(db: Db, id: int, agent: string, updates: map<Field, string>)
    ensures NoNewEdges(db.tasks, UpdateStep(db, id, agent, updates).tasks)
  {
    if UpdateStep(db, id, agent, updates) != db {
      var changes := Changes(db.tasks[id], updates);
      AppliedSetsExactly(db.tasks[id], SortedFields(changes), changes, Why);
    }
  }

  lemma AdvanceAddsNoEdges(db: Db, id: int, agent: string, approve: bool)
    ensures NoNewEdges(db.tasks, AdvanceStep(db, id, agent, approve).tasks)
  {
    var tasks' := AdvanceStep(db, id, agent, approve).tasks;
    forall x, y | Edge(BlockedBy(tasks'), x, y) ensures Edge(BlockedBy(db.tasks), x, y) {
      WithoutMembers(db.tasks[x].blockedBy, id);
    }
  }

  ghost predicate SameLists(tasks: map<int, Task>, tasks': map<int, Task>) {
    tasks.Keys == tasks'.Keys && forall id :: id in tasks ==> tasks'[id].blockedBy == tasks[id].blockedBy
  }

  lemma MovesKeepLists(db: Db, op: Op)
    requires op.Take? || op.Release? || op.Cancel? || op.RequestRevision?
    ensures SameLists(db.tasks, Step(db, op).tasks)
  {
  }

  lemma MarksKeepLists(db: Db, op: Op)
    requires op.Supersede? || op.Verify? || op.SubmitReview? || op.AggregateReview?
    ensures SameLists(db.tasks, Step(db, op).tasks)
  {
  }

  // -------------------------------------------------------------- one operation

  // What keeps an operation from closing a cycle: no blocker of a new task is or
  // waits for that task, and neither of two merged tasks blocks the other
  // through a third.
  ghost predicate Harmless(db: Db, op: Op) {
    match op
    case Create(id, _, req, valid, refused) =>
      Creates(db, id, req, valid, refused) ==>
        forall v :: v in req.blockedBy ==> v != id && !Reaches(BlockedBy(db.tasks), v, id)
    case Merge(a, _, b, deps, dryRun) =>
      Merges(db, a, b, deps, dryRun) ==>
        !Indirect(BlockedBy(db.tasks), a, b) && !Indirect(BlockedBy(db.tasks), b, a)
    case _ => true
  }

  lemma SameReach(tasks: map<int, Task>, tasks': map<int, Task>, x: int, y: int)
    requires NoNewEdges(tasks, tasks') && Reaches(BlockedBy(tasks'), x, y)
    ensures Reaches(BlockedBy(tasks), x, y)
  {
    var p :| PathBetween(BlockedBy(tasks'), p, x, y);
    assert PathBetween(BlockedBy(tasks), p, x, y);
  }

  lemma CreateStepIff(db: Db, id: int, agent: string, req: NewTask, valid: bool, refused: set<int>)
    requires Acyclic(BlockedBy(db.tasks)) && Creates(db, id, req, valid, refused)
    ensures Acyclic(BlockedBy(CreateStep(db, id, agent, req, valid, refused).tasks)) <==>
              forall v :: v in req.blockedBy ==> v != id && !Reaches(BlockedBy(db.tasks), v, id)
  {
    var command := "create: parent reopened (child added)";
    var base := if req.parent > 0 then Reopened(db, req.parent, agent, command) else db;
    ReopenedAddsNoEdges(db, req.parent, agent, command);
    FewerEdgesStayAcyclic(db.tasks, base.tasks);
    CreateKeepsAcyclicIff(base.tasks, id, NewRow(req).(status := BACKLOG));
    forall v ensures Reaches(BlockedBy(base.tasks), v, id) <==> Reaches(BlockedBy(db.tasks), v, id) {
      if Reaches(BlockedBy(base.tasks), v, id) {
        SameReach(db.tasks, base.tasks, v, id);
      }
      if Reaches(BlockedBy(db.tasks), v, id) {
        SameReach(base.tasks, db.tasks, v, id);
      }
    }
  }

  lemma QuietStepStaysAcyclic(db: Db, op: Op)
    requires Acyclic(BlockedBy(db.tasks)) && !op.Create? && !op.Merge?
    ensures Acyclic(BlockedBy(Step(db, op).tasks))
  {
    match op
    case Subtasks(id, agent, plan, firstId, dryRun) =>
      if Step(db, op) != db {
        var db1 := WithSubtasks(db, id, db.tasks[id], plan.value, firstId, agent);
        SubtasksStayAcyclic(db, id, db.tasks[id], plan.value, firstId, agent);
        ReopenedAddsNoEdges(db1, id, agent, SUBTASKS_REOPEN);
        FewerEdgesStayAcyclic(db1.tasks, Reopened(db1, id, agent, SUBTASKS_REOPEN).tasks);
      }
    case _ =>
      QuietStepAddsNoEdges(db, op);
      FewerEdgesStayAcyclic(db.tasks, Step(db, op).tasks);
  }

  lemma QuietStepAddsNoEdges(db: Db, op: Op)
    requires !op.Create? && !op.Merge? && !op.Subtasks?
    ensures NoNewEdges(db.tasks, Step(db, op).tasks)
  {
    match op
    case Advance(id, agent, approve) => AdvanceAddsNoEdges(db, id, agent, approve);
    case Update(id, agent, updates) => UpdateAddsNoEdges(db, id, agent, updates);
    case _ =>
      if op.Take? || op.Release? || op.Cancel? || op.RequestRevision? {
        MovesKeepLists(db, op);
      } else {
        MarksKeepLists(db, op);
      }
  }

  // Exactly when an operation keeps an acyclic graph acyclic.
  lemma StepKeepsAcyclicIff(db: Db, op: Op)
    requires Acyclic(BlockedBy(db.tasks))
    ensures Acyclic(BlockedBy(Step(db, op).tasks)) <==> Harmless(db, op)
  {
    match op
    case Create(id, agent, req, valid, refused) =>
      if Creates(db, id, req, valid, refused) {
        CreateStepIff(db, id, agent, req, valid, refused);
      }
    case Merge(a, _, b, deps, dryRun) =>
      if Merges(db, a, b, deps, dryRun) {
        MergeKeepsAcyclicIff(db.tasks, a, b);
      }
    case _ =>
      QuietStepStaysAcyclic(db, op);
  }

  // -------------------------------------------------------------------- all runs

  ghost predicate AlwaysAcyclic(db: Db, h: History) {
    Acyclic(BlockedBy(Run(db, h).tasks)) && (h.After? ==> AlwaysAcyclic(db, h.before))
  }

  ghost predicate HarmlessRun(db: Db, h: History) {
    h.After? ==> HarmlessRun(db, h.before) && Harmless(Run(db, h.before), h.op)
  }

  // No task ever waits for itself in a run exactly when every operation of the
  // run was harmless where it ran.
  lemma {:induction false} RunsStayAcyclicIff(db: Db, h: History)
    requires Acyclic(BlockedBy(db.tasks))
    ensures AlwaysAcyclic(db, h) <==> HarmlessRun(db, h)
  {
    if h.After? {
      RunsStayAcyclicIff(db, h.before);
      if AlwaysAcyclic(db, h.before) {
        StepKeepsAcyclicIff(Run(db, h.before), h.op);
      }
    }
  }

  // ------------------------------------------------- lists that name tasks only

  // A new task that waits for existing tasks only. Then nobody ever waits for an
  // id that is still to come, so creating is harmless.
  ghost predicate NamesTasks(db: Db, op: Op) {
    op.Create? ==> forall v :: v in op.req.blockedBy ==> v in db.tasks
  }

  lemma GroundedCreateIsHarmless(db: Db, op: Op)
    requires Grounded(db.tasks) && NamesTasks(db, op) && op.Create?
    ensures Harmless(db, op)
  {
    if Creates(db, op.id, op.req, op.valid, op.refused) {
      forall v ensures Reaches(BlockedBy(db.tasks), v, op.id) ==> op.id in db.tasks {
        if Reaches(BlockedBy(db.tasks), v, op.id) {
          var p :| PathBetween(BlockedBy(db.tasks), p, v, op.id);
          assert Edge(BlockedBy(db.tasks), p[|p| - 2], p[|p| - 1]);
        }
      }
    }
  }

  lemma {:induction false} SubtasksStayGrounded(db: Db, pid: int, t: Task, phases: seq<Phase>, firstId: int,
                                                agent: string)
    requires Grounded(db.tasks) && forall k :: k in db.tasks ==> k < firstId
    ensures var db' := WithSubtasks(db, pid, t, phases, firstId, agent);
            Grounded(db'.tasks) && forall k :: k in db'.tasks ==> k < firstId + |phases|
  {
    if phases != [] {
      var k := |phases| - 1;
      SubtasksStayGrounded(db, pid, t, phases[..k], firstId, agent);
      var before := WithSubtasks(db, pid, t, phases[..k], firstId, agent).tasks;
      var row := SubtaskRow(pid, t, phases[k]).(status := BACKLOG);
      var g := BlockedBy(before[firstId + k := row]);
      forall x, y | Edge(g, x, y) ensures y in before {
        InsertedEdges(before, firstId + k, row, x, y);
      }
    }
  }

  lemma CreateStaysGrounded(db: Db, id: int, agent: string, req: NewTask, valid: bool, refused: set<int>)
    requires Grounded(db.tasks) && forall v :: v in req.blockedBy ==> v in db.tasks
    ensures Grounded(CreateStep(db, id, agent, req, valid, refused).tasks)
  {
    var tasks' := CreateStep(db, id, agent, req, valid, refused).tasks;
    forall x, y | Edge(BlockedBy(tasks'), x, y) ensures y in tasks' {
      assert y in req.blockedBy || Edge(BlockedBy(db.tasks), x, y);
    }
  }

  lemma StepStaysGrounded(db: Db, op: Op)
    requires Grounded(db.tasks) && NamesTasks(db, op)
    ensures Grounded(Step(db, op).tasks)
  {
    match op
    case Create(id, agent, req, valid, refused) => CreateStaysGrounded(db, id, agent, req, valid, refused);
    case Merge(a, _, b, deps, dryRun) =>
      if Merges(db, a, b, deps, dryRun) {
        forall x, y | Edge(BlockedBy(Merged(db.tasks, a, b)), x, y) ensures y in db.tasks {
          MergedEdges(db.tasks, a, b, x, y);
        }
      }
    case Subtasks(id, agent, plan, firstId, dryRun) =>
      if Step(db, op) != db {
        SubtasksStayGrounded(db, id, db.tasks[id], plan.value, firstId, agent);
        ReopenedAddsNoEdges(WithSubtasks(db, id, db.tasks[id], plan.value, firstId, agent), id, agent, SUBTASKS_REOPEN);
      }
    case _ => QuietStepAddsNoEdges(db, op);
  }

  ghost predicate CarefulRun(db: Db, h: History) {
    h.After? ==> CarefulRun(db, h.before) && NamesTasks(Run(db, h.before), h.op)
                 && (h.op.Merge? ==> Harmless(Run(db, h.before), h.op))
  }

  // So a run whose new tasks wait for existing tasks, and whose merges are
  // harmless, never has a task that waits for itself or for no task at all.
  lemma {:induction false} RunsStaySound(db: Db, h: History)
    requires Sound(db.tasks) && CarefulRun(db, h)
    ensures Sound(Run(db, h).tasks) && HarmlessRun(db, h)
  {
    if h.After? {
      var before := Run(db, h.before);
      RunsStaySound(db, h.before);
      StepStaysGrounded(before, h.op);
      if h.op.Create? {
        GroundedCreateIsHarmless(before, h.op);
      }
      StepKeepsAcyclicIff(before, h.op);
    }
  }

  // ----------------------------------------------------------- two ways to a cycle

  // Two creations that list each other's ids, where the database accepts the
  // edge to a task that is still to come.
  lemma DanglingBlockersCloseCycle(db: Db, h: History, id: int, agent: string, req: NewTask, req': NewTask)
    requires IsNextId(Run(db, h).tasks, id) && req.parent == 0 && req'.parent == 0
    requires req.blockedBy == [id + 1] && req'.blockedBy == [id]
    ensures var h' := After(After(h, Create(id, agent, req, true, {})), Create(id + 1, agent, req', true, {}));
            Reaches(BlockedBy(Run(db, h').tasks), id, id)
  {
    var db1 := Run(db, After(h, Create(id, agent, req, true, {})));
    assert id in db1.tasks && db1.tasks != map[];
    var g := BlockedBy(Step(db1, Create(id + 1, agent, req', true, {})).tasks);
    assert Edge(g, id, id + 1) && Edge(g, id + 1, id);
    EdgeReaches(g, id, id + 1);
    EdgeReaches(g, id + 1, id);
    ReachesTrans(g, id, id + 1, id);
  }

  // A chain: 1 waits for 2, 2 waits for 3.
  function ChainTask(blockedBy: seq<int>): Task {
    Task(BACKLOG, "a", "code_task", "Code", "", "", "", "", "", "", None, blockedBy, [], [], [], [], [], false, false)
  }

  const CHAIN: map<int, Task> := map[1 := ChainTask([2]), 2 := ChainTask([3]), 3 := ChainTask([])]

  lemma {:induction false} ChainDescends(p: seq<int>)
    requires Path(BlockedBy(CHAIN), p)
    ensures p[|p| - 1] >= p[0] + 1
    decreases |p|
  {
    assert Edge(BlockedBy(CHAIN), p[0], p[1]);
    if |p| > 2 {
      SubPath(BlockedBy(CHAIN), p, 1, |p|);
      ChainDescends(p[1..]);
    }
  }

  lemma ChainIsSound()
    ensures Sound(CHAIN)
  {
    forall x ensures !Reaches(BlockedBy(CHAIN), x, x) {
      forall p | Path(BlockedBy(CHAIN), p) ensures !PathBetween(BlockedBy(CHAIN), p, x, x) {
        ChainDescends(p);
      }
    }
  }

  lemma ChainMerges()
    ensures Merges(Db(CHAIN, [], []), 1, 3, [2], false)
  {
    assert Dependents(CHAIN, 1, 3) == {2};
    assert forall d :: d in [2] <==> d in {2};
  }

  lemma MergedChainIsCyclic()
    ensures Reaches(BlockedBy(Merged(CHAIN, 1, 3)), 1, 1)
  {
    var g := BlockedBy(Merged(CHAIN, 1, 3));
    MergedEdges(CHAIN, 1, 3, 1, 2);
    MergedEdges(CHAIN, 1, 3, 2, 1);
    EdgeReaches(g, 1, 2);
    EdgeReaches(g, 2, 1);
    ReachesTrans(g, 1, 2, 1);
  }

  lemma MergeStepMerges(db: Db, a: int, agent: string, b: int, deps: seq<int>)
    requires Merges(db, a, b, deps, false)
    ensures Step(db, Merge(a, agent, b, deps, false)).tasks == Merged(db.tasks, a, b)
  {
  }

  // Merging 3 into 1 passes every gate and leaves 1 and 2 waiting for each other.
  lemma MergeClosesCycle(agent: string)
    ensures Sound(CHAIN) && Merges(Db(CHAIN, [], []), 1, 3, [2], false)
    ensures Reaches(BlockedBy(Step(Db(CHAIN, [], []), Merge(1, agent, 3, [2], false)).tasks), 1, 1)
  {
    ChainIsSound();
    ChainMerges();
    MergeStepMerges(Db(CHAIN, [], []), 1, agent, 3, [2]);
    MergedChainIsCyclic();
  }
}
