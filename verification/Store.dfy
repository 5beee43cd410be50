// The task store: the operations of internal/store/store.go and
// internal/store/create.go as methods that update the tables in place, each
// proved against its step in Lifecycle.
module Store {
  import opened Text
  import opened Tasks
  import opened Updates
  import opened Merging
  import opened Lifecycle
  import opened Advancing
  import opened UpdateOutcome
  import Graphs

  datatype Outcome =
    | NotFound
    | Refused(failures: seq<Check>)
    | Aborted               // the database rejected the statement; nothing was written
    | Unchanged
    | Applied

  // The loop over an old list with its `seen` map.
  method RedirectList(old': seq<int>, a: int, b: int) returns (newBB: seq<int>)
    requires a != b
    ensures newBB == Redirected(old', a, b)
  {
    var seen: set<int> := {};
    newBB := [];
    for i := 0 to |old'|
      invariant newBB == Redirected(old'[..i], a, b)
      invariant forall v :: v in seen <==> v in newBB
    {
      assert old'[..i + 1][..i] == old'[..i];
      var target := if old'[i] == b then a else old'[i];
      if target !in seen {
        seen := seen + {target};
        newBB := newBB + [target];
      }
    }
    assert old'[..|old'|] == old';
  }

  // The loops that append done_when items and references.
  method AppendItems(mine: seq<string>, prefix: string, theirs: seq<string>) returns (all: seq<string>)
    ensures all == AppendNew(mine, prefix, theirs)
  {
    all := mine;
    var seen := set v | v in mine;
    for i := 0 to |theirs|
      invariant all == AppendNew(mine, prefix, theirs[..i])
      invariant forall v :: v in seen <==> v in all
    {
      assert theirs[..i + 1][..i] == theirs[..i];
      var tagged := prefix + theirs[i];
      if tagged !in seen {
        all := all + [tagged];
        seen := seen + {tagged};
      }
    }
    assert theirs[..|theirs|] == theirs;
  }

  method SyncBlockedByToEdges(blockers: seq<int>, refused: set<int>) returns (synced: bool)
    ensures synced <==> EdgesAccepted(blockers, refused)
  {
    for i := 0 to |blockers|
      invariant forall j :: 0 <= j < i && blockers[j] > 0 ==> blockers[j] !in refused
    {
      if blockers[i] <= 0 {
        continue;
      }
      if blockers[i] in refused {
        return false;
      }
    }
    synced := true;
  }

  // Ranging over a set in any order and sorting what was found.
  method SortedSet<T(==,!new)>(less: (T, T) -> bool, s: set<T>) returns (out: seq<T>)
    requires StrictOrder(less)
    ensures Ascending(less, out) && forall v :: v in out <==> v in s
  {
    out := [];
    var todo := s;
    while todo != {}
      invariant todo <= s && Ascending(less, out)
      invariant forall v :: v in out <==> v in s && v !in todo
    {
      var v :| v in todo;
      todo := todo - {v};
      InsertAscends(less, out, v);
      out := Insert(less, out, v);
    }
  }

  method MergeIntSetSortedExclude(a: seq<int>, b: seq<int>, exclude: int) returns (out: seq<int>)
    ensures out == UnionExcept(a, b, exclude)
  {
    var s := (set v | v in a) + (set v | v in b);
    OrdersAreStrict();
    out := SortedSet(IntLess, s - {exclude});
    UnionExceptIs(a, b, exclude, out);
  }

  method MergeStringSetSorted(a: seq<string>, b: seq<string>) returns (out: seq<string>)
    ensures out == UnionTexts(a, b)
  {
    var s := (set v | v in a) + (set v | v in b);
    OrdersAreStrict();
    out := SortedSet(TextLess, s);
    UnionTextsIs(a, b, out);
  }

  lemma Regroup<T>(a: seq<T>, b: seq<T>, c: seq<T>, d: seq<T>)
    ensures a + b + c + d == a + (b + c + d)
  {
  }

  // One row per column that changed. The two lists that only grow are compared
  // by length.
  method AuditAbsorber(a: int, agent: string, t: Task, t': Task) returns (rows: seq<AuditRow>)
    requires t.doneWhen <= t'.doneWhen && t.references <= t'.references
    ensures rows == AbsorberAudit(a, agent, t, t')
  {
    rows := [];
    if t'.blockedBy != t.blockedBy {
      rows := rows + [AuditRow(a, agent, IntsChange("blocked_by", t.blockedBy, t'.blockedBy), "merge")];
    }
    if t'.consumers != t.consumers {
      rows := rows + [AuditRow(a, agent, TextsChange("consumers", t.consumers, t'.consumers), "merge")];
    }
    if |t'.doneWhen| != |t.doneWhen| {
      rows := rows + [AuditRow(a, agent, TextsChange("done_when", t.doneWhen, t'.doneWhen), "merge")];
    }
    if |t'.references| != |t.references| {
      rows := rows + [AuditRow(a, agent, TextsChange("references", t.references, t'.references), "merge")];
    }
    if t'.tags != t.tags {
      rows := rows + [AuditRow(a, agent, TextsChange("tags", t.tags, t'.tags), "merge")];
    }
    if t'.note != t.note {
      rows := rows + [AuditRow(a, agent, FieldChange(Note, t.note, t'.note), "merge")];
    }
  }

  class Store {
    var tasks: map<int, Task>
    var reviews: seq<Review>
    var audit: seq<AuditRow>

    constructor (tasks: map<int, Task>, reviews: seq<Review>, audit: seq<AuditRow>)
      ensures Tables() == Db(tasks, reviews, audit)
    {
      this.tasks, this.reviews, this.audit := tasks, reviews, audit;
    }

    function Tables(): Db
      reads this
    {
      Db(tasks, reviews, audit)
    }

    // -------------------------------------------------------------- advance

    method MissingVerdicts(id: int, required: seq<string>) returns (failures: seq<Check>)
      ensures failures == MissingReviews(reviews, id, required)
    {
      failures := [];
      for i := 0 to |required|
        invariant failures == MissingReviews(reviews, id, required[..i])
      {
        assert required[..i + 1][..i] == required[..i];
        if !HasLatest(reviews, id, required[i], PASS) {
          failures := failures + [ReviewOf(required[i])];
        }
      }
      assert required[..|required|] == required;
    }

    // The gates, in the order the source tests them.
    method Gates(id: int, approve: bool, task: Task, to: Status) returns (failures: seq<Check>)
      requires to == SCOPED ==> task.status == BACKLOG
      requires to == IN_REVIEW || to == REVIEW ==> task.status == IN_PROGRESS
      requires to == AWAITING_APPROVAL ==> task.status == IN_REVIEW || task.status == REVIEW
      requires to == DONE ==> task.status == AWAITING_APPROVAL
      ensures failures == GateFailures(reviews, id, task, to, approve)
    {
      var from := task.status;
      failures := [];
      if from == PLANNING && to == READY {
        if |task.doneWhen| == 0 { failures := failures + [DoneWhenEmpty]; }
        if !HasLatest(reviews, id, SPEC_REVIEWER, PASS) { failures := failures + [SpecReview]; }
      }
      if from == BACKLOG && to == SCOPED {
        if |task.doneWhen| == 0 { failures := failures + [DoneWhenEmpty]; }
      }
      if from == IN_PROGRESS && to == IN_REVIEW {
        if !HasLatest(reviews, id, CODE_REVIEWER, PASS) { failures := failures + [CodeReview]; }
      }
      if from == IN_PROGRESS && to == REVIEW {
        if !HasLatest(reviews, id, CONTENT_REVIEWER, PASS) { failures := failures + [ContentReview]; }
      }
      if (from == REVIEW || from == IN_REVIEW) && to == AWAITING_APPROVAL {
        failures := MissingVerdicts(id, RequiredReviews(task));
      }
      if from == AWAITING_APPROVAL && to == DONE {
        if !approve { failures := failures + [Approve]; }
        if !HasLatest(reviews, id, CLOSURE_REVIEWER, PASS) { failures := failures + [ClosureReview]; }
      }
    }

    // After DONE: the closed id leaves the list of every active task.
    method UnblockDependents(closed: int)
      modifies this`tasks
      ensures tasks == Unblocked(old(tasks), closed)
    {
      ghost var before := tasks;
      var todo := set id | id in tasks && Active(tasks[id].status) && id != closed;
      ghost var all := todo;
      while todo != {}
        invariant todo <= all && tasks.Keys == before.Keys
        invariant forall id :: id in before ==>
          tasks[id] == if id in all && id !in todo then Unblocked(before, closed)[id] else before[id]
      {
        Graphs.HasElement(todo);
        var id :| id in todo;
        var blockedBy := tasks[id].blockedBy;
        var kept: seq<int> := [];
        for i := 0 to |blockedBy|
          invariant kept == Without(blockedBy[..i], closed)
        {
          assert blockedBy[..i + 1][..i] == blockedBy[..i];
          if blockedBy[i] != closed {
            kept := kept + [blockedBy[i]];
          }
        }
        assert blockedBy[..|blockedBy|] == blockedBy;
        tasks := tasks[id := tasks[id].(blockedBy := kept)];
        todo := todo - {id};
      }
    }

    method Advance(id: int, agent: string, approve: bool) returns (r: Outcome)
      modifies this
      ensures Tables() == AdvanceStep(old(Tables()), id, agent, approve)
      ensures r == if id !in old(tasks) then NotFound
                   else if AdvanceFailures(old(Tables()), id, approve) != [] then
                     Refused(AdvanceFailures(old(Tables()), id, approve))
                   else Applied
      ensures r == Applied <==>
                id in old(tasks) && exists to :: MayEnter(old(Tables()), id, to, approve)
                                                 && FollowedBy(old(tasks)[id].workflow, old(tasks)[id].status, to)
    {
      if id !in tasks {
        return NotFound;
      }
      AdvanceGoesThroughIff(Tables(), id, approve);
      var task := tasks[id];
      var target := AdvanceTarget(task.status, WorkflowOf(task.workflow));
      if target.None? {
        return Refused([NoAdvance]);
      }
      var to := target.value;
      TargetSource(task.status, WorkflowOf(task.workflow), to);
      var failures := Gates(id, approve, task, to);
      if |failures| > 0 {
        return Refused(failures);
      }
      if to == DONE {
        tasks := tasks[id := task.(status := to, closed := true)];
      } else {
        tasks := tasks[id := task.(status := to)];
      }
      audit := audit + [AuditRow(id, agent, StatusChange(Some(task.status), to), "advance")];
      if to == DONE {
        UnblockDependents(id);
      }
      r := Applied;
    }

    // --------------------------------------------------- take, release and others

    method Take(id: int, agent: string) returns (r: Outcome)
      modifies this
      ensures Tables() == TakeStep(old(Tables()), id, agent)
      ensures r == if id !in old(tasks) then NotFound
                   else if old(tasks)[id].status !in {BACKLOG, PLANNING, READY, REOPENED, IN_PROGRESS, TODO} then
                     Refused([Transition])
                   else Applied
    {
      if id !in tasks {
        return NotFound;
      }
      var task := tasks[id];
      if task.status !in {BACKLOG, PLANNING, READY, REOPENED, IN_PROGRESS, TODO} {
        return Refused([Transition]);
      }
      tasks := tasks[id := task.(status := IN_PROGRESS, owner := agent)];
      audit := audit + [AuditRow(id, agent, StatusChange(Some(task.status), IN_PROGRESS), "take")];
      if task.owner != agent {
        audit := audit + [AuditRow(id, agent, FieldChange(Owner, task.owner, agent), "take")];
      }
      r := Applied;
    }

    method Release(id: int, agent: string) returns (r: Outcome)
      modifies this
      ensures Tables() == ReleaseStep(old(Tables()), id, agent)
      ensures r == if id !in old(tasks) then NotFound
                   else if old(tasks)[id].status !in {IN_PROGRESS, REOPENED} then Refused([Transition])
                   else Applied
    {
      if id !in tasks {
        return NotFound;
      }
      var task := tasks[id];
      if task.status !in {IN_PROGRESS, REOPENED} {
        return Refused([Transition]);
      }
      tasks := tasks[id := task.(status := READY)];
      audit := audit + [AuditRow(id, agent, StatusChange(Some(task.status), READY), "release")];
      r := Applied;
    }

    method Cancel(id: int, agent: string, reason: string) returns (r: Outcome)
      modifies this
      ensures Tables() == CancelStep(old(Tables()), id, agent, reason)
      ensures r == if id !in old(tasks) then NotFound
                   else if !Active(old(tasks)[id].status) then Refused([Transition])
                   else Applied
    {
      if id !in tasks {
        return NotFound;
      }
      var task := tasks[id];
      if task.status in {DONE, CANCELLED, SUPERSEDED, WONT_DO, MERGED} {
        return Refused([Transition]);
      }
      tasks := tasks[id := task.(status := CANCELLED, closed := true)];
      var logReason := "cancel";
      if reason != "" {
        logReason := "cancel: " + reason;
      }
      audit := audit + [AuditRow(id, agent, StatusChange(Some(task.status), CANCELLED), logReason)];
      r := Applied;
    }

    method Supersede(id: int, agent: string, byId: int) returns (r: Outcome)
      modifies this
      ensures Tables() == SupersedeStep(old(Tables()), id, agent, byId)
      ensures r == if id !in old(tasks) then NotFound
                   else if old(tasks)[id].status in {CANCELLED, SUPERSEDED, WONT_DO, MERGED} then Refused([Transition])
                   else if byId !in old(tasks) then Refused([Replacement])
                   else Applied
    {
      if id !in tasks {
        return NotFound;
      }
      var task := tasks[id];
      if task.status in {CANCELLED, SUPERSEDED, WONT_DO, MERGED} {
        return Refused([Transition]);
      }
      if byId !in tasks {
        return Refused([Replacement]);
      }
      tasks := tasks[id := task.(status := SUPERSEDED, note := "Superseded by #" + Render(byId), closed := true)];
      var command := "supersede --by #" + Render(byId);
      audit := audit + [AuditRow(id, agent, StatusChange(Some(task.status), SUPERSEDED), command)];
      r := Applied;
    }

    method Verify(id: int, agent: string, failed: string) returns (r: Outcome)
      modifies this
      ensures Tables() == VerifyStep(old(Tables()), id, agent, failed)
      ensures r == if id in old(tasks) then Applied else NotFound
    {
      if id !in tasks {
        return NotFound;
      }
      var task := tasks[id];
      if failed != "" {
        tasks := tasks[id := task.(status := INVESTIGATING, verified := false)];
        audit := audit + [AuditRow(id, agent, StatusChange(Some(task.status), INVESTIGATING), "verify --failed")];
      } else {
        tasks := tasks[id := task.(verified := true)];
        audit := audit + [AuditRow(id, agent, Remark("reporter_verified", "True"), "verify")];
      }
      r := Applied;
    }

    method RequestRevision(id: int, agent: string) returns (r: Outcome)
      modifies this
      ensures Tables() == RevisionStep(old(Tables()), id, agent)
      ensures r == if id !in old(tasks) then NotFound
                   else if old(tasks)[id].status != AWAITING_APPROVAL then Refused([Transition])
                   else Applied
    {
      if id !in tasks {
        return NotFound;
      }
      var task := tasks[id];
      if task.status != AWAITING_APPROVAL {
        return Refused([Transition]);
      }
      tasks := tasks[id := task.(status := REVISION)];
      audit := audit + [AuditRow(id, agent, StatusChange(Some(task.status), REVISION), "revision")];
      r := Applied;
    }

    // ------------------------------------------------------------------ creation

    method Insert(newId: int, row: Task, agent: string, command: string)
      modifies this
      ensures Tables() == Inserted(old(Tables()), newId, row, agent, command)
    {
      tasks := tasks[newId := row.(status := BACKLOG)];
      audit := audit + [AuditRow(newId, agent, StatusChange(None, BACKLOG), command)];
    }

    method ReopenIfDone(id: int, agent: string, command: string) returns (reopened: bool)
      requires id in tasks
      modifies this
      ensures Tables() == Reopened(old(Tables()), id, agent, command)
      ensures reopened <==> old(tasks)[id].status == DONE
    {
      reopened := false;
      if tasks[id].status == DONE {
        tasks := tasks[id := tasks[id].(status := REOPENED, closed := false)];
        audit := audit + [AuditRow(id, agent, StatusChange(Some(DONE), REOPENED), command)];
        reopened := true;
      }
    }

    // `newId` is the value the id sequence hands out, `refused` are the blockers
    // whose row in task_edges the database turns down.
    method Create(newId: int, agent: string, req: NewTask, valid: bool, refused: set<int>) returns (r: Outcome)
      requires IsNextId(tasks, newId)
      modifies this
      ensures Tables() == CreateStep(old(Tables()), newId, agent, req, valid, refused)
      ensures r == if !valid then Refused([Invalid])
                   else if req.parent > 0 && req.parent !in old(tasks) then Refused([ParentNotFound])
                   else if exists v :: v in req.blockedBy && v > 0 && v in refused then Aborted
                   else Applied
    {
      if !valid {
        return Refused([Invalid]);
      }
      var begin := Tables();
      var command := "create";
      if req.autoAssigned {
        command := "create (auto-assigned by TASKOWNERS)";
      } else if req.parent > 0 {
        command := "create (child of #" + Render(req.parent) + ")";
      }
      if req.parent > 0 {
        if req.parent !in tasks {
          return Refused([ParentNotFound]);
        }
        var _ := ReopenIfDone(req.parent, agent, "create: parent reopened (child added)");
      }
      Insert(newId, NewRow(req), agent, command);
      var synced := SyncBlockedByToEdges(req.blockedBy, refused);
      if !synced {
        Rollback(begin);
        return Aborted;
      }
      r := Applied;
    }

    // Committing a transaction in which a statement failed rolls it back.
    method Rollback(begin: Db)
      modifies this
      ensures Tables() == begin
    {
      tasks, reviews, audit := begin.tasks, begin.reviews, begin.audit;
    }

    method InsertPhases(id: int, task: Task, phases: seq<Phase>, firstId: int, agent: string)
      requires id in tasks
      modifies this
      ensures Tables() == WithSubtasks(old(Tables()), id, task, phases, firstId, agent) && id in tasks
    {
      for i := 0 to |phases|
        invariant Tables() == WithSubtasks(old(Tables()), id, task, phases[..i], firstId, agent)
        invariant id in tasks
      {
        assert phases[..i + 1][..i] == phases[..i];
        Insert(firstId + i, SubtaskRow(id, task, phases[i]), agent, "subtask-from-plan (phase " + phases[i].num + ")");
      }
      assert phases[..|phases|] == phases;
    }

    method SubtasksFromPlan(id: int, agent: string, plan: Option<seq<Phase>>, firstId: int, dryRun: bool)
      returns (r: Outcome)
      requires IsNextId(tasks, firstId)
      modifies this
      ensures Tables() == SubtasksStep(old(Tables()), id, agent, plan, firstId, dryRun)
      ensures r == if id !in old(tasks) then NotFound
                   else if plan.None? then Refused([SpecMissing])
                   else if plan.value == [] || dryRun then Unchanged
                   else Applied
    {
      if id !in tasks {
        return NotFound;
      }
      if plan.None? {
        return Refused([SpecMissing]);
      }
      var phases := plan.value;
      if |phases| == 0 || dryRun {
        return Unchanged;
      }
      InsertPhases(id, tasks[id], phases, firstId, agent);
      var _ := ReopenIfDone(id, agent, SUBTASKS_REOPEN);
      r := Applied;
    }

    // ------------------------------------------------------------------- reviews

    method SubmitReview(id: int, agent: string, reviewer: string, sent: Sent, aggregate: bool) returns (r: Outcome)
      modifies this
      ensures Tables() == SubmitReviewStep(old(Tables()), id, agent, reviewer, sent, aggregate)
      ensures r == if id !in old(tasks) then NotFound else if sent == SentAccept then Aborted else Applied
    {
      if id !in tasks {
        return NotFound;
      }
      var dbVerdict := StoredVerdict(sent);
      if dbVerdict.None? {
        return Aborted;
      }
      reviews := Retired(reviews, id, reviewer) + [Review(id, reviewer, dbVerdict.value, true)];
      if aggregate {
        audit := audit + [AuditRow(id, agent, Remark("aggregate_review_verdict", SentName(sent)), "review-submit")];
      } else {
        audit := audit + [AuditRow(id, agent, Remark("review", reviewer + ":" + SentName(sent)), "review-submit")];
      }
      r := Applied;
    }

    method BeginAggregateReview(id: int, agent: string, hasChild: bool, cost: real, maxCost: real, maxCount: int,
                                force: bool, dryRun: bool)
      returns (r: Outcome)
      modifies this
      ensures Tables() == AggregateStep(old(Tables()), AggregateReview(id, agent, hasChild, cost, maxCost, maxCount,
                                                                       force, dryRun))
      ensures r == if Trim(agent) == "" then Aborted
                   else if id !in old(tasks) then NotFound
                   else if hasChild && cost < maxCost && !force && !dryRun
                           && |set k | k in old(tasks) && old(tasks)[k].parent == Some(id)| <= maxCount then Applied
                   else Unchanged
    {
      if Trim(agent) == "" {
        return Aborted;
      }
      if id !in tasks {
        return NotFound;
      }
      if !hasChild {
        return Unchanged;
      }
      assert Children(tasks, id) == set k | k in tasks && tasks[k].parent == Some(id);
      var trivial := cost < maxCost && |Children(tasks, id)| <= maxCount;
      if !trivial || force || dryRun {
        return Unchanged;
      }
      audit := audit + [AuditRow(id, agent, Remark("aggregate_review_verdict", "PASS"), "aggregate-review")];
      reviews := Retired(reviews, id, CLOSURE_REVIEWER) + [Review(id, CLOSURE_REVIEWER, PASS, true)];
      r := Applied;
    }

    // --------------------------------------------------------------------- merge

    // The unions of the absorber's row.
    method Absorb(taskA: Task, taskB: Task, a: int, b: int) returns (newA: Task)
      ensures newA == Absorber(taskA, taskB, a, b)
    {
      var newBlockedBy := MergeIntSetSortedExclude(taskA.blockedBy, taskB.blockedBy, a);
      var newConsumers := MergeStringSetSorted(taskA.consumers, taskB.consumers);
      var newTags := MergeStringSetSorted(taskA.tags, taskB.tags);
      var newDoneWhen := AppendItems(taskA.doneWhen, "(from #" + Render(b) + ") ", taskB.doneWhen);
      var newReferences := AppendItems(taskA.references, "", taskB.references);
      var newNote := taskA.note;
      if taskB.note != "" {
        var sep := "";
        if taskA.note != "" {
          sep := "\n";
        }
        newNote := taskA.note + sep + taskB.note;
      }
      newA := taskA.(
        blockedBy := newBlockedBy, consumers := newConsumers, doneWhen := newDoneWhen,
        references := newReferences, tags := newTags, note := newNote);
    }

    // `deps` is the order in which the dependents query returns its rows.
    method MergeTasks(a: int, agent: string, b: int, deps: seq<int>, dryRun: bool) returns (r: Outcome)
      requires a in tasks && b in tasks ==> Lists(deps, Dependents(tasks, a, b))
      modifies this
      ensures Tables() == MergeStep(old(Tables()), a, agent, b, deps, dryRun)
      ensures r == if a == b then Refused([SameTask])
                   else if a !in old(tasks) || b !in old(tasks) then NotFound
                   else if old(tasks)[a].status in {CANCELLED, SUPERSEDED} then Refused([TargetTerminal])
                   else if old(tasks)[b].status in {CANCELLED, SUPERSEDED} then Refused([AbsorbedTerminal])
                   else if dryRun then Unchanged
                   else Applied
    {
      if a == b {
        return Refused([SameTask]);
      }
      if a !in tasks || b !in tasks {
        return NotFound;
      }
      if tasks[a].status in {CANCELLED, SUPERSEDED} {
        return Refused([TargetTerminal]);
      }
      if tasks[b].status in {CANCELLED, SUPERSEDED} {
        return Refused([AbsorbedTerminal]);
      }
      var newA := Absorb(tasks[a], tasks[b], a, b);
      if dryRun {
        return Unchanged;
      }
      WriteMerge(a, agent, b, deps, newA);
      r := Applied;
    }

    // The transaction: the absorber, each dependent, then the absorbed task.
    method WriteMerge(a: int, agent: string, b: int, deps: seq<int>, newA: Task)
      requires a in tasks && b in tasks && a != b && Lists(deps, Dependents(tasks, a, b))
      requires newA == Absorber(tasks[a], tasks[b], a, b)
      modifies this`tasks, this`audit
      ensures tasks == Merged(old(tasks), a, b)
      ensures audit == old(audit) + MergeAudit(old(Tables()), a, agent, b, deps)
    {
      WritesMakeMerged(tasks, a, b, deps);
      var taskA, taskB := tasks[a], tasks[b];
      ghost var before := tasks;
      tasks := tasks[a := newA];
      var rows := AuditAbsorber(a, agent, taskA, newA);
      audit := audit + rows;
      RedirectDependents(a, agent, b, deps, before);
      Retire(a, agent, b, taskB);
      ghost var more := DependentsAudit(before, a, b, deps, agent);
      Regroup(old(audit), rows, more, [Retirement(a, agent, b, taskB)]);
    }

    function Retirement(a: int, agent: string, b: int, taskB: Task): AuditRow {
      AuditRow(b, agent, StatusChange(Some(taskB.status), SUPERSEDED), "merge into #" + Render(a))
    }

    method Retire(a: int, agent: string, b: int, taskB: Task)
      modifies this`tasks, this`audit
      ensures tasks == old(tasks)[b := Absorbed(taskB, a)]
      ensures audit == old(audit) + [Retirement(a, agent, b, taskB)]
    {
      tasks := tasks[b := taskB.(status := SUPERSEDED, note := "Merged into #" + Render(a))];
      audit := audit + [AuditRow(b, agent, StatusChange(Some(taskB.status), SUPERSEDED), "merge into #" + Render(a))];
    }

    method RedirectDependents(a: int, agent: string, b: int, deps: seq<int>, ghost before: map<int, Task>)
      requires a != b && Lists(deps, Dependents(before, a, b))
      requires forall d :: d in deps ==> d in tasks && tasks[d] == before[d]
      modifies this`tasks, this`audit
      ensures tasks == Redirects(old(tasks), before, a, b, deps)
      ensures audit == old(audit) + DependentsAudit(before, a, b, deps, agent)
    {
      for i := 0 to |deps|
        invariant forall d :: d in deps[..i] ==> d in before
        invariant tasks == Redirects(old(tasks), before, a, b, deps[..i])
        invariant audit == old(audit) + DependentsAudit(before, a, b, deps[..i], agent)
      {
        var d := deps[i];
        NextListed(deps, Dependents(before, a, b), i);
        RedirectsAt(old(tasks), before, a, b, deps[..i], d);
        var blockedByOld := tasks[d].blockedBy;
        var blockedByNew := RedirectList(blockedByOld, a, b);
        tasks := tasks[d := tasks[d].(blockedBy := blockedByNew)];
        audit := audit + [AuditRow(d, agent, IntsChange("blocked_by", blockedByOld, blockedByNew), "merge")];
      }
      assert deps[..|deps|] == deps;
    }

    // -------------------------------------------------------------------- update

    method UpdateTask(id: int, agent: string, updates: map<Field, string>) returns (r: Outcome)
      modifies this
      ensures Tables() == UpdateStep(old(Tables()), id, agent, updates)
      ensures r == if id !in old(tasks) then NotFound
                   else if exists f :: f in updates && f.Other? then Refused([Fields])
                   else if !(exists f :: Differs(old(tasks)[id], updates, f)) then Unchanged
                   else if Unreadable(old(tasks)[id], updates) then Aborted
                   else Applied
    {
      if id !in tasks {
        return NotFound;
      }
      if exists f :: f in updates && f.Other? {
        return Refused([Fields]);
      }
      ParentIsSet(tasks[id], updates);
      DiffersIffWritten(tasks[id], updates);
      var task := tasks[id];
      var changes := Changes(task, updates);
      var fields := SortedFields(changes);
      if |fields| == 0 {
        return Unchanged;
      }
      r := WriteFields(id, agent, task, fields, changes);
    }

    // The transaction: one UPDATE statement and the audit rows.
    method WriteFields(id: int, agent: string, task: Task, fields: seq<Field>, changes: map<Field, string>)
      returns (r: Outcome)
      requires id in tasks && task == tasks[id] && forall f :: f in fields ==> f in changes && !f.Other?
      modifies this
      ensures var row := Updates.Applied(task, fields, changes);
              && (row.None? ==> r == Aborted && Tables() == old(Tables()))
              && (row.Some? ==>
                    && r == Applied && tasks == old(tasks)[id := row.value] && reviews == old(reviews)
                    && audit == old(audit) + UpdateAudit(id, agent, task, fields, changes))
    {
      var stmt, args := BuildStatement(id, fields, changes);
      var written := Execute(stmt, args, tasks);
      if written.None? {
        return Aborted;
      }
      tasks := written.value;
      AuditUpdate(id, agent, task, fields, changes);
      r := Applied;
    }

    method AuditUpdate(id: int, agent: string, task: Task, fields: seq<Field>, changes: map<Field, string>)
      requires forall f :: f in fields ==> f in changes
      modifies this`audit
      ensures audit == old(audit) + UpdateAudit(id, agent, task, fields, changes)
    {
      for i := 0 to |fields|
        invariant forall f :: f in fields[..i] ==> f in changes
        invariant audit == old(audit) + UpdateAudit(id, agent, task, fields[..i], changes)
      {
        assert fields[i] in fields;
        assert fields[..i + 1][..i] == fields[..i];
        var change := FieldChange(fields[i], FieldText(task, fields[i]), changes[fields[i]]);
        audit := audit + [AuditRow(id, agent, change, "update")];
      }
      assert fields[..|fields|] == fields;
    }
  }
}
