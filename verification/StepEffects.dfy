// What one operation does to the status, the owner and the audit trail of one
// task, operation by operation.
module StepEffects {
  import opened Text
  import opened Tasks
  import opened Updates
  import opened Merging
  import opened Lifecycle
  import opened AuditChains

  ghost predicate Appears(s: Option<Status>, s': Option<Status>) {
    s.None? && s' == Some(BACKLOG)
  }

  ghost predicate Reopens(s: Option<Status>, s': Option<Status>) {
    s == Some(DONE) && s' == Some(REOPENED)
  }

  // How an operation can change the status of a task: not at all, or as this
  // operation does to this task.
  ghost predicate MayMove(db: Db, op: Op, id: int, s: Option<Status>, s': Option<Status>) {
    s' == s ||
    match op
    case Create(newId, _, req, _, _) =>
      (id == newId && Appears(s, s')) || (id == req.parent && Reopens(s, s'))
    case Subtasks(pid, _, plan, firstId, _) =>
      (plan.Some? && firstId <= id < firstId + |plan.value| && Appears(s, s')) || (id == pid && Reopens(s, s'))
    case Advance(aid, _, approve) =>
      && id == aid && id in db.tasks && AdvanceFailures(db, id, approve) == []
      && s'.Some? && s' == AdvanceTarget(db.tasks[id].status, WorkflowOf(db.tasks[id].workflow))
    case Take(tid, _) =>
      id == tid && s.Some? && s.value in {BACKLOG, PLANNING, READY, REOPENED, TODO} && s' == Some(IN_PROGRESS)
    case Release(rid, _) => id == rid && s.Some? && s.value in {IN_PROGRESS, REOPENED} && s' == Some(READY)
    case Cancel(cid, _, _) => id == cid && s.Some? && Active(s.value) && s' == Some(CANCELLED)
    case Supersede(sid, _, byId) =>
      && id == sid && byId in db.tasks && s' == Some(SUPERSEDED)
      && s.Some? && s.value !in {CANCELLED, SUPERSEDED, WONT_DO, MERGED}
    case Merge(_, _, b, _, _) =>
      id == b && s.Some? && s.value !in {CANCELLED, SUPERSEDED} && s' == Some(SUPERSEDED)
    case Verify(vid, _, failed) => id == vid && failed != "" && s.Some? && s' == Some(INVESTIGATING)
    case RequestRevision(rid, _) => id == rid && s == Some(AWAITING_APPROVAL) && s' == Some(REVISION)
    case _ => false
  }

  ghost predicate Terminal(s: Status) {
    s == DONE || s == CANCELLED
  }

  // A row that is DONE or CANCELLED is closed, or was so before and is not.
  ghost predicate Closes(db: Db, db': Db, id: int) {
    id in db'.tasks && Terminal(db'.tasks[id].status) ==>
      db'.tasks[id].closed
      || (id in db.tasks && db.tasks[id].status == db'.tasks[id].status && db.tasks[id].closed == db'.tasks[id].closed)
  }

  ghost predicate Effect(db: Db, db': Db, delta: seq<AuditRow>, op: Op, id: int) {
    MayMove(db, op, id, StatusOf(db, id), StatusOf(db', id)) && Closes(db, db', id) && Chained(db, db', delta, id)
  }

  lemma NothingHappens(db: Db, op: Op, id: int)
    ensures Effect(db, db, [], op, id)
  {
  }

  // A status move that keeps the owner.
  lemma MovedEffect(db: Db, m: int, row: Task, to: Status, agent: string, command: string, op: Op, id: int)
    requires m in db.tasks && row.owner == db.tasks[m].owner && (Terminal(to) ==> row.closed)
    requires MayMove(db, op, m, Some(db.tasks[m].status), Some(to))
    ensures Effect(db, Moved(db, m, row, to, agent, command),
                   [AuditRow(m, agent, StatusChange(Some(db.tasks[m].status), to), command)], op, id)
  {
  }

  lemma UnblockedEffect(db: Db, db': Db, delta: seq<AuditRow>, closed: int, op: Op, id: int)
    requires Effect(db, db', delta, op, id)
    ensures Effect(db, db'.(tasks := Unblocked(db'.tasks, closed)), delta, op, id)
  {
  }

  lemma AdvanceHappens(db: Db, op: Op, to: Status, id: int)
    requires op.Advance? && op.id in db.tasks && AdvanceFailures(db, op.id, op.approve) == []
    requires AdvanceTarget(db.tasks[op.id].status, WorkflowOf(db.tasks[op.id].workflow)) == Some(to)
    ensures Effect(db, AdvanceStep(db, op.id, op.agent, op.approve),
                   [AuditRow(op.id, op.agent, StatusChange(Some(db.tasks[op.id].status), to), "advance")], op, id)
  {
    var t := db.tasks[op.id];
    var row := if to == DONE then t.(closed := true) else t;
    var delta := [AuditRow(op.id, op.agent, StatusChange(Some(t.status), to), "advance")];
    assert to != CANCELLED;
    MovedEffect(db, op.id, row, to, op.agent, "advance", op, id);
    if to == DONE {
      UnblockedEffect(db, Moved(db, op.id, row, DONE, op.agent, "advance"), delta, op.id, op, id);
    }
  }

  lemma AdvanceEffect(db: Db, op: Op, id: int) returns (delta: seq<AuditRow>)
    requires op.Advance?
    ensures Effect(db, Step(db, op), delta, op, id)
  {
    if op.id !in db.tasks || AdvanceFailures(db, op.id, op.approve) != [] {
      delta := [];
      NothingHappens(db, op, id);
    } else {
      var t := db.tasks[op.id];
      var to := AdvanceTarget(t.status, WorkflowOf(t.workflow)).value;
      delta := [AuditRow(op.id, op.agent, StatusChange(Some(t.status), to), "advance")];
      AdvanceHappens(db, op, to, id);
    }
  }

  lemma TakeEffect(db: Db, op: Op, id: int) returns (delta: seq<AuditRow>)
    requires op.Take?
    ensures Effect(db, Step(db, op), delta, op, id)
  {
    if Step(db, op) == db {
      delta := [];
      NothingHappens(db, op, id);
    } else {
      var t := db.tasks[op.id];
      var moved := AuditRow(op.id, op.agent, StatusChange(Some(t.status), IN_PROGRESS), "take");
      var given := AuditRow(op.id, op.agent, FieldChange(Owner, t.owner, op.agent), "take");
      assert [moved][..0] == [] && [moved, given][..1] == [moved];
      delta := if t.owner == op.agent then [moved] else [moved, given];
    }
  }

  // Release, cancel, supersede, verify and revision.
  lemma SidewaysEffect(db: Db, op: Op, id: int) returns (delta: seq<AuditRow>)
    requires op.Release? || op.Cancel? || op.Supersede? || op.RequestRevision? || (op.Verify? && op.failed != "")
    ensures Effect(db, Step(db, op), delta, op, id)
  {
    if Step(db, op) == db {
      delta := [];
      NothingHappens(db, op, id);
      return;
    }
    var t := db.tasks[op.id];
    var t', row := Step(db, op).tasks[op.id], Step(db, op).audit[|db.audit|];
    delta := [row];
    MovedEffect(db, op.id, t', t'.status, op.agent, row.command, op, id);
  }

  // Steps that leave every status and owner alone.
  lemma QuietEffect(db: Db, db': Db, delta: seq<AuditRow>, op: Op, id: int)
    requires db'.tasks.Keys == db.tasks.Keys && db'.audit == db.audit + delta
    requires id in db.tasks ==>
               && db'.tasks[id].status == db.tasks[id].status && db'.tasks[id].closed == db.tasks[id].closed
               && db'.tasks[id].owner == db.tasks[id].owner
    requires forall r :: r in delta ==> NoStatus(r, id) && NoOwner(r, id)
    ensures Effect(db, db', delta, op, id)
  {
    NoStatusRows(delta, id, StatusOf(db, id));
    NoOwnerRows(delta, id, if id in db.tasks then db.tasks[id].owner else "");
  }

  lemma ReviewEffect(db: Db, op: Op, id: int) returns (delta: seq<AuditRow>)
    requires op.SubmitReview? || op.AggregateReview? || (op.Verify? && op.failed == "")
    ensures Effect(db, Step(db, op), delta, op, id)
  {
    if Step(db, op) == db {
      delta := [];
      NothingHappens(db, op, id);
    } else {
      delta := [Step(db, op).audit[|db.audit|]];
      QuietEffect(db, Step(db, op), delta, op, id);
    }
  }

  lemma {:induction false} UpdateAuditRows(uid: int, agent: string, t: Task, fs: seq<Field>, texts: map<Field, string>)
    requires forall f :: f in fs ==> f in texts
    ensures forall r :: r in UpdateAudit(uid, agent, t, fs, texts) ==>
              r.task == uid && r.change.FieldChange? && r.change.field in fs
  {
    if fs != [] {
      assert fs[|fs| - 1] in fs;
      UpdateAuditRows(uid, agent, t, fs[..|fs| - 1], texts);
    }
  }

  lemma {:induction false} UpdateOwnerChain(uid: int, agent: string, t: Task, fs: seq<Field>, texts: map<Field, string>)
    requires forall f :: f in fs ==> f in texts
    requires forall i, j :: 0 <= i < j < |fs| ==> fs[i] != fs[j]
    ensures OwnerChain(UpdateAudit(uid, agent, t, fs, texts), uid, t.owner,
                       if Owner in fs then texts[Owner] else t.owner)
  {
    if fs != [] {
      var front, last := fs[..|fs| - 1], fs[|fs| - 1];
      assert last in fs && fs == front + [last];
      var rows := UpdateAudit(uid, agent, t, fs, texts);
      assert rows[..|rows| - 1] == UpdateAudit(uid, agent, t, front, texts);
      assert last == Owner ==> Owner !in front;
      UpdateOwnerChain(uid, agent, t, front, texts);
    }
  }

  lemma AppliedOwner(t: Task, fs: seq<Field>, texts: map<Field, string>)
    requires forall f :: f in fs ==> f in texts && !f.Other?
    requires forall i, j :: 0 <= i < j < |fs| ==> fs[i] != fs[j]
    requires Applied(t, fs, texts).Some?
    ensures var r := Applied(t, fs, texts).value;
            r.status == t.status && r.closed == t.closed && r.owner == if Owner in fs then texts[Owner] else t.owner
  {
    AppliedSetsExactly(t, fs, texts, Owner);
  }

  lemma UpdateChains(uid: int, agent: string, t: Task, fs: seq<Field>, texts: map<Field, string>, id: int,
                     s: Option<Status>, owner: string)
    requires forall f :: f in fs ==> f in texts && !f.Other?
    requires forall i, j :: 0 <= i < j < |fs| ==> fs[i] != fs[j]
    requires Applied(t, fs, texts).Some?
    ensures StatusChain(UpdateAudit(uid, agent, t, fs, texts), id, s, s)
    ensures id != uid ==> OwnerChain(UpdateAudit(uid, agent, t, fs, texts), id, owner, owner)
    ensures OwnerChain(UpdateAudit(uid, agent, t, fs, texts), uid, t.owner, Applied(t, fs, texts).value.owner)
    ensures Applied(t, fs, texts).value.status == t.status && Applied(t, fs, texts).value.closed == t.closed
  {
    var rows := UpdateAudit(uid, agent, t, fs, texts);
    UpdateAuditRows(uid, agent, t, fs, texts);
    NoStatusRows(rows, id, s);
    UpdateOwnerChain(uid, agent, t, fs, texts);
    if id != uid {
      NoOwnerRows(rows, id, owner);
    }
    AppliedOwner(t, fs, texts);
  }

  lemma UpdateEffect(db: Db, op: Op, id: int) returns (delta: seq<AuditRow>)
    requires op.Update?
    ensures Effect(db, Step(db, op), delta, op, id)
  {
    if Step(db, op) == db {
      delta := [];
      NothingHappens(db, op, id);
    } else {
      var t := db.tasks[op.id];
      var changes := Changes(t, op.updates);
      var fs := SortedFields(changes);
      delta := UpdateAudit(op.id, op.agent, t, fs, changes);
      UpdateChains(op.id, op.agent, t, fs, changes, id, StatusOf(db, id),
                   if id in db.tasks then db.tasks[id].owner else "");
    }
  }

  lemma {:induction false} DependentsAuditRows(tasks: map<int, Task>, a: int, b: int, deps: seq<int>, agent: string)
    requires a != b && forall d :: d in deps ==> d in tasks
    ensures forall r :: r in DependentsAudit(tasks, a, b, deps, agent) ==> r.change.IntsChange?
  {
    if deps != [] {
      assert deps[|deps| - 1] in deps;
      DependentsAuditRows(tasks, a, b, deps[..|deps| - 1], agent);
    }
  }

  ghost predicate Quiet(rows: seq<AuditRow>, id: int) {
    forall r :: r in rows ==> NoStatus(r, id) && NoOwner(r, id)
  }

  lemma NotingIsQuiet(rows: seq<AuditRow>, a: int, agent: string, changed: bool, change: Change, id: int)
    requires Quiet(rows, id) && !change.StatusChange? && (change.FieldChange? ==> change.field != Owner)
    ensures Quiet(Noting(rows, a, agent, changed, change), id)
  {
  }

  lemma AbsorberAuditRows(a: int, agent: string, t: Task, t': Task, id: int)
    ensures Quiet(AbsorberAudit(a, agent, t, t'), id)
  {
    var ints := IntsChange("blocked_by", t.blockedBy, t'.blockedBy);
    var r1 := Noting([], a, agent, t.blockedBy != t'.blockedBy, ints);
    NotingIsQuiet([], a, agent, t.blockedBy != t'.blockedBy, ints, id);
    var texts := TextsChange("consumers", t.consumers, t'.consumers);
    var r2 := Noting(r1, a, agent, t.consumers != t'.consumers, texts);
    NotingIsQuiet(r1, a, agent, t.consumers != t'.consumers, texts, id);
    texts := TextsChange("done_when", t.doneWhen, t'.doneWhen);
    var r3 := Noting(r2, a, agent, t.doneWhen != t'.doneWhen, texts);
    NotingIsQuiet(r2, a, agent, t.doneWhen != t'.doneWhen, texts, id);
    texts := TextsChange("references", t.references, t'.references);
    var r4 := Noting(r3, a, agent, t.references != t'.references, texts);
    NotingIsQuiet(r3, a, agent, t.references != t'.references, texts, id);
    texts := TextsChange("tags", t.tags, t'.tags);
    var r5 := Noting(r4, a, agent, t.tags != t'.tags, texts);
    NotingIsQuiet(r4, a, agent, t.tags != t'.tags, texts, id);
    NotingIsQuiet(r5, a, agent, t.note != t'.note, FieldChange(Note, t.note, t'.note), id);
  }

  lemma MergedRow(tasks: map<int, Task>, a: int, b: int, id: int)
    requires a in tasks && b in tasks && a != b && id in tasks
    ensures Merged(tasks, a, b)[id].status == if id == b then SUPERSEDED else tasks[id].status
    ensures Merged(tasks, a, b)[id].closed == tasks[id].closed && Merged(tasks, a, b)[id].owner == tasks[id].owner
  {
  }

  lemma MergeChains(db: Db, a: int, agent: string, b: int, deps: seq<int>, id: int, owner: string)
    requires a in db.tasks && b in db.tasks && a != b && forall d :: d in deps ==> d in db.tasks
    ensures StatusChain(MergeAudit(db, a, agent, b, deps), id, StatusOf(db, id),
                        if id == b then Some(SUPERSEDED) else StatusOf(db, id))
    ensures OwnerChain(MergeAudit(db, a, agent, b, deps), id, owner, owner)
  {
    var newA := Absorber(db.tasks[a], db.tasks[b], a, b);
    var quiet := AbsorberAudit(a, agent, db.tasks[a], newA) + DependentsAudit(db.tasks, a, b, deps, agent);
    AbsorberAuditRows(a, agent, db.tasks[a], newA, id);
    DependentsAuditRows(db.tasks, a, b, deps, agent);
    NoStatusRows(quiet, id, StatusOf(db, id));
    NoOwnerRows(quiet, id, owner);
    var all := MergeAudit(db, a, agent, b, deps);
    assert all[..|all| - 1] == quiet;
  }

  lemma MergeEffect(db: Db, op: Op, id: int) returns (delta: seq<AuditRow>)
    requires op.Merge?
    ensures Effect(db, Step(db, op), delta, op, id)
  {
    if !Merges(db, op.id, op.absorbed, op.deps, op.dryRun) {
      delta := [];
      NothingHappens(db, op, id);
    } else {
      delta := MergeAudit(db, op.id, op.agent, op.absorbed, op.deps);
      MergeChains(db, op.id, op.agent, op.absorbed, op.deps, id, if id in db.tasks then db.tasks[id].owner else "");
      if id in db.tasks {
        MergedRow(db.tasks, op.id, op.absorbed, id);
      }
    }
  }

  // ------------------------------------------------- creation, in several pieces

  lemma InsertedChained(db: Db, newId: int, row: Task, agent: string, command: string, id: int)
    requires newId !in db.tasks
    ensures Chained(db, Inserted(db, newId, row, agent, command),
                    [AuditRow(newId, agent, StatusChange(None, BACKLOG), command)], id)
  {
  }

  lemma ReopenedChained(db: Db, pid: int, agent: string, command: string, id: int) returns (delta: seq<AuditRow>)
    ensures Chained(db, Reopened(db, pid, agent, command), delta, id)
  {
    if pid in db.tasks && db.tasks[pid].status == DONE {
      delta := [AuditRow(pid, agent, StatusChange(Some(DONE), REOPENED), command)];
      assert delta[..0] == [];
    } else {
      delta := [];
      assert db.audit + [] == db.audit;
    }
  }

  lemma InsertedJoins(db: Db, db1: Db, newId: int, row: Task, agent: string, command: string, d1: seq<AuditRow>,
                      id: int)
    returns (delta: seq<AuditRow>)
    requires Chained(db, db1, d1, id) && newId !in db1.tasks
    ensures Chained(db, Inserted(db1, newId, row, agent, command), delta, id)
  {
    var d2 := [AuditRow(newId, agent, StatusChange(None, BACKLOG), command)];
    InsertedChained(db1, newId, row, agent, command, id);
    ChainedJoins(db, db1, Inserted(db1, newId, row, agent, command), d1, d2, id);
    delta := d1 + d2;
  }

  lemma {:induction false} WithSubtasksChained(db: Db, pid: int, t: Task, phases: seq<Phase>, firstId: int,
      agent: string, id: int)
    returns (delta: seq<AuditRow>)
    requires forall k :: k in db.tasks ==> k < firstId
    ensures Chained(db, WithSubtasks(db, pid, t, phases, firstId, agent), delta, id)
  {
    if phases == [] {
      delta := [];
      assert db.audit + [] == db.audit;
    } else {
      var k := |phases| - 1;
      var db1 := WithSubtasks(db, pid, t, phases[..k], firstId, agent);
      var d1 := WithSubtasksChained(db, pid, t, phases[..k], firstId, agent, id);
      WithSubtasksFrame(db, pid, t, phases[..k], firstId, agent, id);
      delta := InsertedJoins(db, db1, firstId + k, SubtaskRow(pid, t, phases[k]), agent,
                             "subtask-from-plan (phase " + phases[k].num + ")", d1, id);
    }
  }

  lemma {:induction false} WithSubtasksFrame(db: Db, pid: int, t: Task, phases: seq<Phase>, firstId: int,
      agent: string, id: int)
    requires forall k :: k in db.tasks ==> k < firstId
    ensures var db' := WithSubtasks(db, pid, t, phases, firstId, agent);
            && db'.reviews == db.reviews
            && (forall k :: k in db'.tasks ==> k < firstId + |phases|)
            && (id in db.tasks ==> id in db'.tasks && db'.tasks[id] == db.tasks[id])
            && (id !in db.tasks && id in db'.tasks ==> firstId <= id && db'.tasks[id].status == BACKLOG)
  {
    if phases != [] {
      WithSubtasksFrame(db, pid, t, phases[..|phases| - 1], firstId, agent, id);
    }
  }

  lemma CreateEffect(db: Db, op: Op, id: int) returns (delta: seq<AuditRow>)
    requires op.Create?
    ensures Effect(db, Step(db, op), delta, op, id)
  {
    if Step(db, op) == db {
      delta := [];
      NothingHappens(db, op, id);
    } else {
      var reopen := if op.req.parent > 0 then op.req.parent else op.id;
      var command := "create: parent reopened (child added)";
      var base := Reopened(db, reopen, op.agent, command);
      var d1 := ReopenedChained(db, reopen, op.agent, command, id);
      var row := Step(db, op).audit[|base.audit|];
      delta := InsertedJoins(db, base, op.id, NewRow(op.req), op.agent, row.command, d1, id);
    }
  }

  lemma SubtasksStatus(db: Db, pid: int, agent: string, phases: seq<Phase>, firstId: int, id: int)
    requires pid in db.tasks && forall k :: k in db.tasks ==> k < firstId
    ensures var db1 := WithSubtasks(db, pid, db.tasks[pid], phases, firstId, agent);
            var db2 := Reopened(db1, pid, agent, SUBTASKS_REOPEN);
            && (id !in db.tasks && id in db2.tasks ==>
                  firstId <= id < firstId + |phases| && db2.tasks[id].status == BACKLOG)
            && (id in db.tasks ==> id in db2.tasks)
            && (id in db.tasks ==>
                  db2.tasks[id] == db.tasks[id]
                  || (id == pid && db.tasks[id].status == DONE && db2.tasks[id].status == REOPENED))
  {
    WithSubtasksFrame(db, pid, db.tasks[pid], phases, firstId, agent, id);
    WithSubtasksFrame(db, pid, db.tasks[pid], phases, firstId, agent, pid);
  }

  lemma SubtasksMove(db: Db, pid: int, agent: string, phases: seq<Phase>, firstId: int, op: Op, id: int)
    requires pid in db.tasks && forall k :: k in db.tasks ==> k < firstId
    requires op == Subtasks(pid, agent, Some(phases), firstId, false)
    ensures var db1 := WithSubtasks(db, pid, db.tasks[pid], phases, firstId, agent);
            var db2 := Reopened(db1, pid, agent, SUBTASKS_REOPEN);
            MayMove(db, op, id, StatusOf(db, id), StatusOf(db2, id)) && Closes(db, db2, id)
  {
    SubtasksStatus(db, pid, agent, phases, firstId, id);
  }

  lemma SubtasksHappen(db: Db, pid: int, agent: string, phases: seq<Phase>, firstId: int, op: Op, id: int)
    returns (delta: seq<AuditRow>)
    requires pid in db.tasks && forall k :: k in db.tasks ==> k < firstId
    requires op == Subtasks(pid, agent, Some(phases), firstId, false)
    ensures var db1 := WithSubtasks(db, pid, db.tasks[pid], phases, firstId, agent);
            Effect(db, Reopened(db1, pid, agent, SUBTASKS_REOPEN), delta, op, id)
  {
    var db1 := WithSubtasks(db, pid, db.tasks[pid], phases, firstId, agent);
    var d1 := WithSubtasksChained(db, pid, db.tasks[pid], phases, firstId, agent, id);
    var d2 := ReopenedChained(db1, pid, agent, SUBTASKS_REOPEN, id);
    ChainedJoins(db, db1, Reopened(db1, pid, agent, SUBTASKS_REOPEN), d1, d2, id);
    SubtasksMove(db, pid, agent, phases, firstId, op, id);
    delta := d1 + d2;
  }

  lemma SubtasksEffect(db: Db, op: Op, id: int) returns (delta: seq<AuditRow>)
    requires op.Subtasks?
    ensures Effect(db, Step(db, op), delta, op, id)
  {
    if op.id !in db.tasks || op.plan.None? || op.plan.value == [] || op.dryRun || !IsNextId(db.tasks, op.firstId) {
      delta := [];
      NothingHappens(db, op, id);
    } else {
      delta := SubtasksHappen(db, op.id, op.agent, op.plan.value, op.firstId, op, id);
    }
  }

  lemma StepEffect(db: Db, op: Op, id: int) returns (delta: seq<AuditRow>)
    ensures Effect(db, Step(db, op), delta, op, id)
  {
    match op
    case Create(_, _, _, _, _) => delta := CreateEffect(db, op, id);
    case Advance(_, _, _) => delta := AdvanceEffect(db, op, id);
    case Take(_, _) => delta := TakeEffect(db, op, id);
    case Merge(_, _, _, _, _) => delta := MergeEffect(db, op, id);
    case Subtasks(_, _, _, _, _) => delta := SubtasksEffect(db, op, id);
    case SubmitReview(_, _, _, _, _) => delta := ReviewEffect(db, op, id);
    case AggregateReview(_, _, _, _, _, _, _, _) => delta := ReviewEffect(db, op, id);
    case Update(_, _, _) => delta := UpdateEffect(db, op, id);
    case Verify(_, _, failed) =>
      if failed == "" {
        delta := ReviewEffect(db, op, id);
      } else {
        delta := SidewaysEffect(db, op, id);
      }
    case _ => delta := SidewaysEffect(db, op, id);
  }
}
