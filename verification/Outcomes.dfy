// What each operation but an advance leaves in the tables, told on the rows
// themselves: which tasks change, in which columns, and what is noted.
module Outcomes {
  import opened Text
  import opened Tasks
  import opened Lifecycle
  import opened Merging
  import opened MergeOutcome

  // One row is rewritten and the trail gets some notes; nothing else moves.
  ghost predicate Rewrites(db: Db, db': Db, id: int, row: Task, notes: seq<AuditRow>) {
    db'.tasks == db.tasks[id := row] && db'.reviews == db.reviews && db'.audit == db.audit + notes
  }

  function Note(id: int, agent: string, from: Status, to: Status, command: string): AuditRow {
    AuditRow(id, agent, StatusChange(Some(from), to), command)
  }

  // ------------------------------------------------------------- one task moves

  // Taking a task makes its taker the owner.
  lemma TakeMeans(db: Db, id: int, agent: string)
    ensures id !in db.tasks || db.tasks[id].status !in {BACKLOG, PLANNING, READY, REOPENED, TODO, IN_PROGRESS} ==>
              Step(db, Take(id, agent)) == db
    ensures id in db.tasks && db.tasks[id].status in {BACKLOG, PLANNING, READY, REOPENED, TODO, IN_PROGRESS} ==>
              var t := db.tasks[id];
              var moved := Note(id, agent, t.status, IN_PROGRESS, "take");
              Rewrites(db, Step(db, Take(id, agent)), id, t.(status := IN_PROGRESS, owner := agent),
                       if t.owner == agent then [moved]
                       else [moved, AuditRow(id, agent, FieldChange(Owner, t.owner, agent), "take")])
  {
  }

  lemma ReleaseMeans(db: Db, id: int, agent: string)
    ensures id !in db.tasks || db.tasks[id].status !in {IN_PROGRESS, REOPENED} ==> Step(db, Release(id, agent)) == db
    ensures id in db.tasks && db.tasks[id].status in {IN_PROGRESS, REOPENED} ==>
              Rewrites(db, Step(db, Release(id, agent)), id, db.tasks[id].(status := READY),
                       [Note(id, agent, db.tasks[id].status, READY, "release")])
  {
  }

  lemma CancelMeans(db: Db, id: int, agent: string, reason: string)
    ensures id !in db.tasks || db.tasks[id].status in {DONE, CANCELLED, SUPERSEDED, WONT_DO, MERGED} ==>
              Step(db, Cancel(id, agent, reason)) == db
    ensures id in db.tasks && db.tasks[id].status !in {DONE, CANCELLED, SUPERSEDED, WONT_DO, MERGED} ==>
              var command := if reason == "" then "cancel" else "cancel: " + reason;
              Rewrites(db, Step(db, Cancel(id, agent, reason)), id, db.tasks[id].(status := CANCELLED, closed := true),
                       [Note(id, agent, db.tasks[id].status, CANCELLED, command)])
  {
  }

  lemma SupersedeMeans(db: Db, id: int, agent: string, byId: int)
    ensures id !in db.tasks || byId !in db.tasks || db.tasks[id].status in {CANCELLED, SUPERSEDED, WONT_DO, MERGED} ==>
              Step(db, Supersede(id, agent, byId)) == db
    ensures id in db.tasks && byId in db.tasks && db.tasks[id].status !in {CANCELLED, SUPERSEDED, WONT_DO, MERGED} ==>
              var row := db.tasks[id].(status := SUPERSEDED, closed := true, note := "Superseded by #" + Render(byId));
              Rewrites(db, Step(db, Supersede(id, agent, byId)), id, row,
                       [Note(id, agent, db.tasks[id].status, SUPERSEDED, "supersede --by #" + Render(byId))])
  {
  }

  // A failed verification takes the mark of the reporter away, a positive one
  // sets it and moves nothing.
  lemma VerifyMeans(db: Db, id: int, agent: string, failed: string)
    ensures id !in db.tasks ==> Step(db, Verify(id, agent, failed)) == db
    ensures id in db.tasks && failed != "" ==>
              Rewrites(db, Step(db, Verify(id, agent, failed)), id,
                       db.tasks[id].(status := INVESTIGATING, verified := false),
                       [Note(id, agent, db.tasks[id].status, INVESTIGATING, "verify --failed")])
    ensures id in db.tasks && failed == "" ==>
              Rewrites(db, Step(db, Verify(id, agent, failed)), id, db.tasks[id].(verified := true),
                       [AuditRow(id, agent, Remark("reporter_verified", "True"), "verify")])
  {
  }

  lemma RevisionMeans(db: Db, id: int, agent: string)
    ensures id !in db.tasks || db.tasks[id].status != AWAITING_APPROVAL ==> Step(db, RequestRevision(id, agent)) == db
    ensures id in db.tasks && db.tasks[id].status == AWAITING_APPROVAL ==>
              Rewrites(db, Step(db, RequestRevision(id, agent)), id, db.tasks[id].(status := REVISION),
                       [Note(id, agent, AWAITING_APPROVAL, REVISION, "revision")])
  {
  }

  // -------------------------------------------------------------------- creation

  // The id after the largest, or 2 in an empty table.
  ghost predicate FollowsLargest(tasks: map<int, Task>, id: int) {
    if tasks == map[] then id == 2 else id - 1 in tasks && forall k :: k in tasks ==> k <= id - 1
  }

  // A row in BACKLOG that holds what was asked for and nothing else.
  predicate HoldsRequest(row: Task, req: NewTask) {
    && row.status == BACKLOG && row.owner == req.owner && row.workflow == req.workflow && row.mode == req.mode
    && row.title == req.title && row.why == req.why && row.note == req.note && row.businessValue == req.businessValue
    && row.blockedBy == req.blockedBy && row.references == req.references && row.consumers == req.consumers
    && row.tags == req.tags && (req.parent == 0 <==> row.parent == None)
    && (req.parent != 0 ==> row.parent == Some(req.parent))
    && row.taskPlan == "" && row.spec == "" && row.doneWhen == [] && row.requiredReviews == []
    && !row.closed && !row.verified
  }

  // A DONE parent is reopened; any other is left alone.
  predicate ParentAfter(before: Task, after: Task) {
    && (before.status == DONE ==> after == before.(status := REOPENED, closed := false))
    && (before.status != DONE ==> after == before)
  }

  // The new row, perhaps a reopened parent, and no other change to the table.
  ghost predicate RowsCreated(tasks: map<int, Task>, tasks': map<int, Task>, id: int, req: NewTask) {
    && tasks'.Keys == tasks.Keys + {id} && id !in tasks && HoldsRequest(tasks'[id], req)
    && (forall k :: k in tasks && k != req.parent ==> tasks'[k] == tasks[k])
    && (req.parent in tasks && req.parent > 0 ==> ParentAfter(tasks[req.parent], tasks'[req.parent]))
    && (req.parent in tasks && req.parent <= 0 ==> tasks'[req.parent] == tasks[req.parent])
  }

  ghost predicate TrailCreated(db: Db, audit': seq<AuditRow>, id: int, agent: string, req: NewTask) {
    var born := AuditRow(id, agent, StatusChange(None, BACKLOG),
                         if req.autoAssigned then "create (auto-assigned by TASKOWNERS)"
                         else if req.parent > 0 then "create (child of #" + Render(req.parent) + ")" else "create");
    if req.parent > 0 && req.parent in db.tasks && db.tasks[req.parent].status == DONE then
      audit' == db.audit + [Note(req.parent, agent, DONE, REOPENED, "create: parent reopened (child added)")] + [born]
    else audit' == db.audit + [born]
  }

  lemma NextIdFollows(tasks: map<int, Task>, id: int)
    ensures IsNextId(tasks, id) <==> FollowsLargest(tasks, id)
    ensures IsNextId(tasks, id) ==> id !in tasks
  {
  }

  // A DONE task is back in REOPENED and is open again; any other is left alone.
  lemma ReopenedMeans(db: Db, id: int, agent: string, command: string)
    requires id in db.tasks
    ensures if db.tasks[id].status == DONE then
              Rewrites(db, Reopened(db, id, agent, command), id, db.tasks[id].(status := REOPENED, closed := false),
                       [Note(id, agent, DONE, REOPENED, command)])
            else Reopened(db, id, agent, command) == db
  {
  }

  lemma NewRowHolds(req: NewTask)
    ensures HoldsRequest(NewRow(req), req) && NewRow(req).(status := BACKLOG) == NewRow(req)
  {
  }

  lemma CreatedHolds(db: Db, id: int, agent: string, req: NewTask, valid: bool, refused: set<int>)
    requires Creates(db, id, req, valid, refused)
    ensures var db' := CreateStep(db, id, agent, req, valid, refused);
            RowsCreated(db.tasks, db'.tasks, id, req) && TrailCreated(db, db'.audit, id, agent, req)
            && db'.reviews == db.reviews
  {
    NextIdFollows(db.tasks, id);
    NewRowHolds(req);
    if req.parent > 0 {
      ReopenedMeans(db, req.parent, agent, "create: parent reopened (child added)");
    }
  }

  // A creation either does all of this or leaves everything as it was.
  lemma CreateMeans(db: Db, id: int, agent: string, req: NewTask, valid: bool, refused: set<int>)
    ensures var db' := Step(db, Create(id, agent, req, valid, refused));
            if valid && (req.parent > 0 ==> req.parent in db.tasks) && FollowsLargest(db.tasks, id)
               && (forall v :: v in req.blockedBy && v > 0 ==> v !in refused)
            then RowsCreated(db.tasks, db'.tasks, id, req) && TrailCreated(db, db'.audit, id, agent, req)
                 && db'.reviews == db.reviews
            else db' == db
  {
    NextIdFollows(db.tasks, id);
    if Creates(db, id, req, valid, refused) {
      CreatedHolds(db, id, agent, req, valid, refused);
    }
  }

  // --------------------------------------------------------------------- subtasks

  // The row of one phase of a plan: a child that inherits owner, tags, workflow
  // and mode, and takes the first ten items of its phase for its done_when list.
  predicate HoldsPhase(row: Task, parent: int, t: Task, p: Phase) {
    && row.status == BACKLOG && row.parent == Some(parent) && row.owner == t.owner && row.tags == t.tags
    && (t.workflow != "" ==> row.workflow == t.workflow) && (t.workflow == "" ==> row.workflow == "code_task")
    && (t.mode != "" ==> row.mode == t.mode) && (t.mode == "" ==> row.mode == "Code")
    && row.title == "#" + Render(parent) + "." + p.num + ": " + p.title
    && row.why == "Phase " + p.num + " of #" + Render(parent) + " (" + t.title + ")"
    && row.doneWhen <= p.items && (|p.items| <= 10 ==> row.doneWhen == p.items)
    && (|p.items| > 10 ==> |row.doneWhen| == 10)
    && row.note == "" && row.businessValue == "" && row.taskPlan == "" && row.spec == "" && row.blockedBy == []
    && row.references == [] && row.consumers == [] && row.requiredReviews == [] && !row.closed && !row.verified
  }

  // The old rows stay, and the ids from the first one on hold the phases in order.
  ghost predicate RowsSplit(tasks: map<int, Task>, tasks': map<int, Task>, parent: int, t: Task, phases: seq<Phase>,
                            firstId: int) {
    && (forall k :: k in tasks' <==> k in tasks || firstId <= k < firstId + |phases|)
    && (forall k :: k in tasks ==> tasks'[k] == tasks[k])
    && (forall k :: firstId <= k < firstId + |phases| ==> HoldsPhase(tasks'[k], parent, t, phases[k - firstId]))
  }

  ghost predicate TrailSplit(audit: seq<AuditRow>, audit': seq<AuditRow>, phases: seq<Phase>, firstId: int,
                             agent: string) {
    && |audit'| == |audit| + |phases| && audit <= audit'
    && (forall i :: 0 <= i < |phases| ==>
          audit'[|audit| + i] == AuditRow(firstId + i, agent, StatusChange(None, BACKLOG),
                                          "subtask-from-plan (phase " + phases[i].num + ")"))
  }

  ghost predicate Split(db: Db, db': Db, parent: int, t: Task, phases: seq<Phase>, firstId: int, agent: string) {
    && db'.reviews == db.reviews
    && RowsSplit(db.tasks, db'.tasks, parent, t, phases, firstId)
    && TrailSplit(db.audit, db'.audit, phases, firstId, agent)
  }

  lemma SubtaskHoldsPhase(parent: int, t: Task, p: Phase)
    ensures HoldsPhase(SubtaskRow(parent, t, p), parent, t, p)
  {
  }

  // The ids from the first one on hold these rows.
  ghost predicate Filled(tasks: map<int, Task>, tasks': map<int, Task>, rows: seq<Task>, firstId: int) {
    && (forall k :: k in tasks' <==> k in tasks || firstId <= k < firstId + |rows|)
    && (forall k :: k in tasks ==> tasks'[k] == tasks[k])
    && (forall k :: firstId <= k < firstId + |rows| ==> tasks'[k] == rows[k - firstId])
  }

  lemma FilledSnoc(tasks: map<int, Task>, tasks1: map<int, Task>, rows: seq<Task>, firstId: int, row: Task)
    requires Filled(tasks, tasks1, rows, firstId) && forall k :: k in tasks ==> k < firstId
    ensures Filled(tasks, tasks1[firstId + |rows| := row], rows + [row], firstId)
  {
  }

  lemma {:induction false} WithSubtasksFill(db: Db, parent: int, t: Task, phases: seq<Phase>, firstId: int,
      agent: string) returns (rows: seq<Task>)
    requires forall k :: k in db.tasks ==> k < firstId
    ensures Filled(db.tasks, WithSubtasks(db, parent, t, phases, firstId, agent).tasks, rows, firstId)
    ensures |rows| == |phases| && forall i :: 0 <= i < |rows| ==> rows[i] == SubtaskRow(parent, t, phases[i])
  {
    rows := [];
    if phases != [] {
      var front := phases[..|phases| - 1];
      rows := WithSubtasksFill(db, parent, t, front, firstId, agent);
      var row := SubtaskRow(parent, t, phases[|front|]);
      FilledSnoc(db.tasks, WithSubtasks(db, parent, t, front, firstId, agent).tasks, rows, firstId, row);
      rows := rows + [row];
    }
  }

  lemma TrailSnoc(audit: seq<AuditRow>, audit1: seq<AuditRow>, phases: seq<Phase>, firstId: int, agent: string)
    requires phases != [] && TrailSplit(audit, audit1, phases[..|phases| - 1], firstId, agent)
    ensures var k := |phases| - 1;
            TrailSplit(audit, audit1 + [AuditRow(firstId + k, agent, StatusChange(None, BACKLOG),
                                                 "subtask-from-plan (phase " + phases[k].num + ")")],
                       phases, firstId, agent)
  {
    var k := |phases| - 1;
    forall i | 0 <= i < k
      ensures audit1[|audit| + i] == AuditRow(firstId + i, agent, StatusChange(None, BACKLOG),
                                              "subtask-from-plan (phase " + phases[i].num + ")")
    {
      assert phases[..k][i] == phases[i];
    }
  }

  lemma {:induction false} WithSubtasksTell(db: Db, parent: int, t: Task, phases: seq<Phase>, firstId: int,
      agent: string)
    ensures WithSubtasks(db, parent, t, phases, firstId, agent).reviews == db.reviews
    ensures TrailSplit(db.audit, WithSubtasks(db, parent, t, phases, firstId, agent).audit, phases, firstId, agent)
  {
    if phases != [] {
      var front := phases[..|phases| - 1];
      WithSubtasksTell(db, parent, t, front, firstId, agent);
      TrailSnoc(db.audit, WithSubtasks(db, parent, t, front, firstId, agent).audit, phases, firstId, agent);
    }
  }

  lemma WithSubtasksSplits(db: Db, parent: int, t: Task, phases: seq<Phase>, firstId: int, agent: string)
    requires forall k :: k in db.tasks ==> k < firstId
    ensures Split(db, WithSubtasks(db, parent, t, phases, firstId, agent), parent, t, phases, firstId, agent)
  {
    var rows := WithSubtasksFill(db, parent, t, phases, firstId, agent);
    forall i | 0 <= i < |rows| ensures HoldsPhase(rows[i], parent, t, phases[i]) {
      SubtaskHoldsPhase(parent, t, phases[i]);
    }
    WithSubtasksTell(db, parent, t, phases, firstId, agent);
  }

  ghost predicate Subdivided(db: Db, mid: Db, db': Db, id: int, agent: string, phases: seq<Phase>, firstId: int)
    requires id in db.tasks
  {
    && Split(db, mid, id, db.tasks[id], phases, firstId, agent)
    && (db.tasks[id].status == DONE ==>
          Rewrites(mid, db', id, db.tasks[id].(status := REOPENED, closed := false),
                   [Note(id, agent, DONE, REOPENED, "subtasks-from-plan: parent reopened (children created)")]))
    && (db.tasks[id].status != DONE ==> db' == mid)
  }

  lemma SubdividedHolds(db: Db, id: int, agent: string, phases: seq<Phase>, firstId: int)
    requires id in db.tasks && forall k :: k in db.tasks ==> k < firstId
    ensures var mid := WithSubtasks(db, id, db.tasks[id], phases, firstId, agent);
            Subdivided(db, mid, Reopened(mid, id, agent, SUBTASKS_REOPEN), id, agent, phases, firstId)
  {
    WithSubtasksSplits(db, id, db.tasks[id], phases, firstId, agent);
    ReopenedMeans(WithSubtasks(db, id, db.tasks[id], phases, firstId, agent), id, agent, SUBTASKS_REOPEN);
  }

  // A plan becomes one child per phase, and its task is reopened if it was DONE.
  lemma SubtasksMeans(db: Db, id: int, agent: string, plan: Option<seq<Phase>>, firstId: int, dryRun: bool)
    ensures var db' := Step(db, Subtasks(id, agent, plan, firstId, dryRun));
            if id in db.tasks && plan.Some? && plan.value != [] && !dryRun && FollowsLargest(db.tasks, firstId)
            then exists mid :: Subdivided(db, mid, db', id, agent, plan.value, firstId)
            else db' == db
  {
    NextIdFollows(db.tasks, firstId);
    if id in db.tasks && plan.Some? && plan.value != [] && !dryRun && IsNextId(db.tasks, firstId) {
      var mid := WithSubtasks(db, id, db.tasks[id], plan.value, firstId, agent);
      SubdividedHolds(db, id, agent, plan.value, firstId);
      assert Step(db, Subtasks(id, agent, plan, firstId, dryRun)) == Reopened(mid, id, agent, SUBTASKS_REOPEN);
    }
  }

  // ---------------------------------------------------------------------- reviews

  // One verdict more, and it alone is the latest of its reviewer on the task.
  ghost predicate Records(db: Db, db': Db, id: int, reviewer: string, v: Verdict, note: AuditRow) {
    && db'.tasks == db.tasks && db'.audit == db.audit + [note]
    && |db'.reviews| == |db.reviews| + 1 && db'.reviews[|db.reviews|] == Review(id, reviewer, v, true)
    && forall i :: 0 <= i < |db.reviews| ==>
         && db'.reviews[i].(latest := db.reviews[i].latest) == db.reviews[i]
         && (db.reviews[i].task == id && db.reviews[i].reviewer == reviewer ==> !db'.reviews[i].latest)
         && (db.reviews[i].task != id || db.reviews[i].reviewer != reviewer ==>
               db'.reviews[i].latest == db.reviews[i].latest)
  }

  // The verdict kept for a sent one, and its name in the trail.
  ghost predicate SentAs(sent: Sent, v: Verdict, name: string) {
    match sent
    case SentPass => v == PASS && name == "PASS"
    case SentFail => v == FAIL && name == "FAIL"
    case SentNeedsWork => v == NEEDS_WORK && name == "NEEDS_WORK"
    case SentReopen => v == NEEDS_WORK && name == "REOPEN"
    case SentAccept => false
  }

  lemma SubmitReviewMeans(db: Db, id: int, agent: string, reviewer: string, sent: Sent, aggregate: bool)
    ensures var db' := Step(db, SubmitReview(id, agent, reviewer, sent, aggregate));
            && (id !in db.tasks || sent == SentAccept ==> db' == db)
            && (id in db.tasks && sent != SentAccept ==>
                  exists v, name :: SentAs(sent, v, name) &&
                    Records(db, db', id, reviewer, v,
                            AuditRow(id, agent, if aggregate then Remark("aggregate_review_verdict", name)
                                                else Remark("review", reviewer + ":" + name), "review-submit")))
  {
    if id in db.tasks && sent != SentAccept {
      assert SentAs(sent, StoredVerdict(sent).value, SentName(sent));
    }
  }

  // A parent gets an automatic closure PASS exactly when somebody asks, its
  // children cost less than the limit and are no more than the limit, and
  // neither flag is set.
  lemma AggregateMeans(db: Db, id: int, agent: string, hasChild: bool, cost: real, maxCost: real, maxCount: int,
                       force: bool, dryRun: bool)
    ensures var db' := Step(db, AggregateReview(id, agent, hasChild, cost, maxCost, maxCount, force, dryRun));
            if Trim(agent) != "" && id in db.tasks && hasChild && cost < maxCost
               && |set k | k in db.tasks && db.tasks[k].parent == Some(id)| <= maxCount && !force && !dryRun
            then Records(db, db', id, "task-closure-reviewer", PASS,
                         AuditRow(id, agent, Remark("aggregate_review_verdict", "PASS"), "aggregate-review"))
            else db' == db
  {
    assert Children(db.tasks, id) == set k | k in db.tasks && db.tasks[k].parent == Some(id);
  }

  // ------------------------------------------------------------------------ merge

  ghost predicate MergeTold(db: Db, db': Db, a: int, b: int, agent: string) {
    && MergesInto(db.tasks, db'.tasks, a, b) && db'.reviews == db.reviews
    && exists delta :: TellsMerge(db.tasks, db'.tasks, a, b, agent, delta) && db'.audit == db.audit + delta
  }

  lemma MergeHolds(db: Db, a: int, agent: string, b: int, deps: seq<int>)
    requires Merges(db, a, b, deps, false)
    ensures MergeTold(db, MergeStep(db, a, agent, b, deps, false), a, b, agent)
  {
    MergeAuditTells(db, a, agent, b, deps);
  }

  lemma MergesWhen(db: Db, a: int, b: int, deps: seq<int>, dryRun: bool)
    requires Lists(deps, set k | k in db.tasks && k != a && k != b && b in db.tasks[k].blockedBy)
    ensures Merges(db, a, b, deps, dryRun) <==>
              && a != b && a in db.tasks && b in db.tasks && !dryRun
              && db.tasks[a].status !in {CANCELLED, SUPERSEDED} && db.tasks[b].status !in {CANCELLED, SUPERSEDED}
  {
    assert Dependents(db.tasks, a, b) == set k | k in db.tasks && k != a && k != b && b in db.tasks[k].blockedBy;
  }

  // Two different tasks that are neither cancelled nor superseded merge; any
  // other request, and a dry run, changes nothing.
  lemma MergeMeans(db: Db, a: int, agent: string, b: int, deps: seq<int>, dryRun: bool)
    requires Lists(deps, set k | k in db.tasks && k != a && k != b && b in db.tasks[k].blockedBy)
    ensures var db' := Step(db, Merge(a, agent, b, deps, dryRun));
            if a != b && a in db.tasks && b in db.tasks && !dryRun
               && db.tasks[a].status !in {CANCELLED, SUPERSEDED} && db.tasks[b].status !in {CANCELLED, SUPERSEDED}
            then MergeTold(db, db', a, b, agent)
            else db' == db
  {
    MergesWhen(db, a, b, deps, dryRun);
    if Merges(db, a, b, deps, dryRun) {
      MergeHolds(db, a, agent, b, deps);
    }
  }
}
