// What each operation of internal/store/store.go and internal/store/create.go
// does to the three tables, as one atomic step.
module Lifecycle {
  import opened Text
  import opened Tasks
  import opened Updates
  import opened Merging

  // ------------------------------------------------------------ advance targets

  datatype Workflow = CodeTask | FixTask | ThinkTask | Unsupported

  function WorkflowOf(name: string): Workflow {
    var wf := Lower(Trim(name));
    if wf == "" || wf == "code_task" then CodeTask
    else if wf == "fix" then FixTask
    else if wf == "think_task" then ThinkTask
    else Unsupported
  }

  // ComputeAdvanceTarget.
  function AdvanceTarget(s: Status, wf: Workflow): Option<Status> {
    match (wf, s)
    case (CodeTask, BACKLOG) => Some(PLANNING)
    case (CodeTask, PLANNING) => Some(READY)
    case (CodeTask, READY) => Some(IN_PROGRESS)
    case (CodeTask, IN_PROGRESS) => Some(IN_REVIEW)
    case (CodeTask, IN_REVIEW) => Some(AWAITING_APPROVAL)
    case (CodeTask, AWAITING_APPROVAL) => Some(DONE)
    case (FixTask, BACKLOG) => Some(SCOPED)
    case (FixTask, SCOPED) => Some(IN_PROGRESS)
    case (FixTask, IN_PROGRESS) => Some(IN_REVIEW)
    case (FixTask, IN_REVIEW) => Some(AWAITING_APPROVAL)
    case (FixTask, AWAITING_APPROVAL) => Some(DONE)
    case (ThinkTask, BACKLOG) => Some(PLANNING)
    case (ThinkTask, PLANNING) => Some(READY)
    case (ThinkTask, READY) => Some(IN_PROGRESS)
    case (ThinkTask, IN_PROGRESS) => Some(REVIEW)
    case (ThinkTask, REVIEW) => Some(AWAITING_APPROVAL)
    case (ThinkTask, AWAITING_APPROVAL) => Some(DONE)
    case _ => None
  }

  // --------------------------------------------------------------------- gates

  const SPEC_REVIEWER := "spec-reviewer"
  const CODE_REVIEWER := "code-reviewer"
  const CONTENT_REVIEWER := "content-reviewer"
  const CLOSURE_REVIEWER := "task-closure-reviewer"

  predicate HasLatest(reviews: seq<Review>, id: int, reviewer: string, v: Verdict) {
    exists i :: 0 <= i < |reviews| && reviews[i] == Review(id, reviewer, v, true)
  }

  function DefaultReviewers(workflow: string, mode: string): seq<string> {
    var wf, m := Lower(Trim(workflow)), Lower(Trim(mode));
    if wf == "think_task" then [CONTENT_REVIEWER, CLOSURE_REVIEWER]
    else if wf == "fix" || wf == "code_task" then [CODE_REVIEWER, CLOSURE_REVIEWER]
    else if m == "code" then [CODE_REVIEWER, CLOSURE_REVIEWER]
    else if m == "think" then [CONTENT_REVIEWER, CLOSURE_REVIEWER]
    else [CLOSURE_REVIEWER]
  }

  // getRequiredReviews; `requiredReviews` is the list held in custom_fields.
  function RequiredReviews(t: Task): seq<string> {
    if t.requiredReviews != [] then t.requiredReviews else DefaultReviewers(t.workflow, t.mode)
  }

  datatype Check =
    | NoAdvance | DoneWhenEmpty | SpecReview | CodeReview | ContentReview | ReviewOf(reviewer: string)
    | Approve | ClosureReview | Transition | Replacement | SameTask | TargetTerminal | AbsorbedTerminal
    | ParentNotFound | Fields | SpecMissing | Invalid

  function MissingReviews(reviews: seq<Review>, id: int, required: seq<string>): seq<Check> {
    if required == [] then [] else
      var front, last := MissingReviews(reviews, id, required[..|required| - 1]), required[|required| - 1];
      if HasLatest(reviews, id, last, PASS) then front else front + [ReviewOf(last)]
  }

  function Unless(passed: bool, failure: Check): seq<Check> {
    if passed then [] else [failure]
  }

  function GateFailures(reviews: seq<Review>, id: int, t: Task, to: Status, approve: bool): seq<Check> {
    if to == READY && t.status == PLANNING then
      Unless(t.doneWhen != [], DoneWhenEmpty) + Unless(HasLatest(reviews, id, SPEC_REVIEWER, PASS), SpecReview)
    else if to == SCOPED then Unless(t.doneWhen != [], DoneWhenEmpty)
    else if to == IN_REVIEW then Unless(HasLatest(reviews, id, CODE_REVIEWER, PASS), CodeReview)
    else if to == REVIEW then Unless(HasLatest(reviews, id, CONTENT_REVIEWER, PASS), ContentReview)
    else if to == AWAITING_APPROVAL then MissingReviews(reviews, id, RequiredReviews(t))
    else if to == DONE then
      Unless(approve, Approve) + Unless(HasLatest(reviews, id, CLOSURE_REVIEWER, PASS), ClosureReview)
    else []
  }

  function AdvanceFailures(db: Db, id: int, approve: bool): seq<Check>
    requires id in db.tasks
  {
    var target := AdvanceTarget(db.tasks[id].status, WorkflowOf(db.tasks[id].workflow));
    if target.None? then [NoAdvance] else GateFailures(db.reviews, id, db.tasks[id], target.value, approve)
  }

  // Where each late target can be advanced to from.
  lemma TargetSource(s: Status, wf: Workflow, to: Status)
    requires AdvanceTarget(s, wf) == Some(to)
    ensures to == SCOPED ==> s == BACKLOG
    ensures to == IN_REVIEW || to == REVIEW ==> s == IN_PROGRESS
    ensures to == AWAITING_APPROVAL ==> s == IN_REVIEW || s == REVIEW
    ensures to == DONE ==> s == AWAITING_APPROVAL
  {
  }

  // ------------------------------------------------------------------ the steps

  // A validated request, its owner and workflow resolved.
  datatype NewTask = NewTask(
    owner: string, workflow: string, mode: string, title: string, why: string, note: string, businessValue: string,
    parent: int, blockedBy: seq<int>, references: seq<string>, consumers: seq<string>, tags: seq<string>,
    autoAssigned: bool)

  datatype Phase = Phase(num: string, title: string, items: seq<string>)

  // The verdicts the client may send.
  datatype Sent = SentPass | SentAccept | SentNeedsWork | SentFail | SentReopen

  datatype Op =
    | Create(id: int, agent: string, req: NewTask, valid: bool, refused: set<int>)
    | Advance(id: int, agent: string, approve: bool)
    | Take(id: int, agent: string)
    | Release(id: int, agent: string)
    | Cancel(id: int, agent: string, reason: string)
    | Supersede(id: int, agent: string, byId: int)
    | Verify(id: int, agent: string, failed: string)
    | RequestRevision(id: int, agent: string)
    | Merge(id: int, agent: string, absorbed: int, deps: seq<int>, dryRun: bool)
    | Subtasks(id: int, agent: string, plan: Option<seq<Phase>>, firstId: int, dryRun: bool)
    | SubmitReview(id: int, agent: string, reviewer: string, sent: Sent, aggregate: bool)
    | AggregateReview(id: int, agent: string, hasChild: bool, cost: real, maxCost: real, maxCount: int, force: bool,
                      dryRun: bool)
    | Update(id: int, agent: string, updates: map<Field, string>)

  // A row gets a new status and the audit trail the row that says so.
  function Moved(db: Db, id: int, row: Task, to: Status, agent: string, command: string): Db
    requires id in db.tasks
  {
    db.(tasks := db.tasks[id := row.(status := to)],
        audit := db.audit + [AuditRow(id, agent, StatusChange(Some(db.tasks[id].status), to), command)])
  }

  predicate Active(s: Status) {
    s !in {DONE, CANCELLED, SUPERSEDED, WONT_DO, MERGED}
  }

  // rescoreAfterDone, as far as it changes blocked_by.
  function Unblocked(tasks: map<int, Task>, closed: int): (m: map<int, Task>)
    ensures m.Keys == tasks.Keys
  {
    map id | id in tasks ::
      if Active(tasks[id].status) && id != closed then tasks[id].(blockedBy := Without(tasks[id].blockedBy, closed))
      else tasks[id]
  }

  function AdvanceStep(db: Db, id: int, agent: string, approve: bool): Db {
    if id !in db.tasks || AdvanceFailures(db, id, approve) != [] then db else
      var t := db.tasks[id];
      var target := AdvanceTarget(t.status, WorkflowOf(t.workflow));
      if target.None? then db
      else if target.value == DONE then
        var moved := Moved(db, id, t.(closed := true), DONE, agent, "advance");
        moved.(tasks := Unblocked(moved.tasks, id))
      else Moved(db, id, t, target.value, agent, "advance")
  }

  function TakeStep(db: Db, id: int, agent: string): Db {
    if id !in db.tasks || db.tasks[id].status !in {BACKLOG, PLANNING, READY, REOPENED, IN_PROGRESS, TODO} then db else
      var t := db.tasks[id];
      var moved := Moved(db, id, t.(owner := agent), IN_PROGRESS, agent, "take");
      if t.owner == agent then moved else
        moved.(audit := moved.audit + [AuditRow(id, agent, FieldChange(Owner, t.owner, agent), "take")])
  }

  function ReleaseStep(db: Db, id: int, agent: string): Db {
    if id !in db.tasks || db.tasks[id].status !in {IN_PROGRESS, REOPENED} then db
    else Moved(db, id, db.tasks[id], READY, agent, "release")
  }

  function CancelStep(db: Db, id: int, agent: string, reason: string): Db {
    if id !in db.tasks || !Active(db.tasks[id].status) then db
    else Moved(db, id, db.tasks[id].(closed := true), CANCELLED, agent,
               if reason == "" then "cancel" else "cancel: " + reason)
  }

  function SupersedeStep(db: Db, id: int, agent: string, byId: int): Db {
    if id !in db.tasks || db.tasks[id].status in {CANCELLED, SUPERSEDED, WONT_DO, MERGED} || byId !in db.tasks then db
    else Moved(db, id, db.tasks[id].(closed := true, note := "Superseded by #" + Render(byId)), SUPERSEDED, agent,
               "supersede --by #" + Render(byId))
  }

  function VerifyStep(db: Db, id: int, agent: string, failed: string): Db {
    if id !in db.tasks then db
    else if failed != "" then
      Moved(db, id, db.tasks[id].(verified := false), INVESTIGATING, agent, "verify --failed")
    else
      db.(tasks := db.tasks[id := db.tasks[id].(verified := true)],
          audit := db.audit + [AuditRow(id, agent, Remark("reporter_verified", "True"), "verify")])
  }

  function RevisionStep(db: Db, id: int, agent: string): Db {
    if id !in db.tasks || db.tasks[id].status != AWAITING_APPROVAL then db
    else Moved(db, id, db.tasks[id], REVISION, agent, "revision")
  }

  // ------------------------------------------------------------------- creation

  // The id the sequence hands out after it was set to the largest id, or to 1
  // on an empty table.
  ghost predicate IsNextId(tasks: map<int, Task>, id: int) {
    && (forall k :: k in tasks ==> k < id)
    && (if tasks == map[] then id == 2 else id - 1 in tasks)
  }

  function Inserted(db: Db, id: int, row: Task, agent: string, command: string): Db {
    db.(tasks := db.tasks[id := row.(status := BACKLOG)],
        audit := db.audit + [AuditRow(id, agent, StatusChange(None, BACKLOG), command)])
  }

  function Reopened(db: Db, id: int, agent: string, command: string): Db {
    if id in db.tasks && db.tasks[id].status == DONE then
      Moved(db, id, db.tasks[id].(closed := false), REOPENED, agent, command)
    else db
  }

  function NewRow(req: NewTask): Task {
    Task(BACKLOG, req.owner, req.workflow, req.mode, req.title, req.why, req.note, req.businessValue, "", "",
         if req.parent == 0 then None else Some(req.parent), req.blockedBy, [], req.references, req.consumers,
         req.tags, [], false, false)
  }

  // The database writes one row of task_edges for each positive blocker; one
  // that it refuses aborts the whole transaction.
  predicate EdgesAccepted(blockedBy: seq<int>, refused: set<int>) {
    forall v :: v in blockedBy && v > 0 ==> v !in refused
  }

  ghost predicate Creates(db: Db, id: int, req: NewTask, valid: bool, refused: set<int>) {
    && valid && (req.parent > 0 ==> req.parent in db.tasks) && IsNextId(db.tasks, id)
    && EdgesAccepted(req.blockedBy, refused)
  }

  ghost function CreateStep(db: Db, id: int, agent: string, req: NewTask, valid: bool, refused: set<int>): Db {
    if !Creates(db, id, req, valid, refused) then db else
      var command := "create: parent reopened (child added)";
      var base := if req.parent > 0 then Reopened(db, req.parent, agent, command) else db;
      Inserted(base, id, NewRow(req), agent,
               if req.autoAssigned then "create (auto-assigned by TASKOWNERS)"
               else if req.parent > 0 then "create (child of #" + Render(req.parent) + ")"
               else "create")
  }

  const SUBTASKS_REOPEN := "subtasks-from-plan: parent reopened (children created)"

  function SubtaskRow(parent: int, t: Task, p: Phase): Task {
    Task(BACKLOG, t.owner, if t.workflow == "" then "code_task" else t.workflow,
         if t.mode == "" then "Code" else t.mode,
         "#" + Render(parent) + "." + p.num + ": " + p.title,
         "Phase " + p.num + " of #" + Render(parent) + " (" + t.title + ")", "", "", "", "", Some(parent), [],
         if |p.items| > 10 then p.items[..10] else p.items, [], [], t.tags, [], false, false)
  }

  function WithSubtasks(db: Db, parent: int, t: Task, phases: seq<Phase>, firstId: int, agent: string): Db {
    if phases == [] then db else
      var k := |phases| - 1;
      Inserted(WithSubtasks(db, parent, t, phases[..k], firstId, agent), firstId + k, SubtaskRow(parent, t, phases[k]),
               agent, "subtask-from-plan (phase " + phases[k].num + ")")
  }

  ghost function SubtasksStep(db: Db, id: int, agent: string, plan: Option<seq<Phase>>, firstId: int,
                              dryRun: bool): Db {
    if id !in db.tasks || plan.None? || plan.value == [] || dryRun || !IsNextId(db.tasks, firstId) then db else
      Reopened(WithSubtasks(db, id, db.tasks[id], plan.value, firstId, agent), id, agent,
               SUBTASKS_REOPEN)
  }

  // -------------------------------------------------------------------- reviews

  // What review_results stores; ACCEPT violates its CHECK constraint.
  function StoredVerdict(sent: Sent): Option<Verdict> {
    match sent
    case SentPass => Some(PASS)
    case SentAccept => None
    case SentNeedsWork => Some(NEEDS_WORK)
    case SentFail => Some(FAIL)
    case SentReopen => Some(NEEDS_WORK)
  }

  function SentName(sent: Sent): string {
    match sent
    case SentPass => "PASS"
    case SentAccept => "ACCEPT"
    case SentNeedsWork => "NEEDS_WORK"
    case SentFail => "FAIL"
    case SentReopen => "REOPEN"
  }

  function Retired(reviews: seq<Review>, id: int, reviewer: string): (r: seq<Review>)
    ensures |r| == |reviews|
    ensures forall i :: 0 <= i < |r| ==>
      r[i] == if reviews[i].task == id && reviews[i].reviewer == reviewer then reviews[i].(latest := false)
              else reviews[i]
  {
    seq(|reviews|, i requires 0 <= i < |reviews| =>
      if reviews[i].task == id && reviews[i].reviewer == reviewer then reviews[i].(latest := false) else reviews[i])
  }

  function Recorded(db: Db, id: int, reviewer: string, v: Verdict, note: AuditRow): Db {
    db.(reviews := Retired(db.reviews, id, reviewer) + [Review(id, reviewer, v, true)], audit := db.audit + [note])
  }

  function SubmitReviewStep(db: Db, id: int, agent: string, reviewer: string, sent: Sent, aggregate: bool): Db {
    if id !in db.tasks || StoredVerdict(sent).None? then db else
      Recorded(db, id, reviewer, StoredVerdict(sent).value,
               AuditRow(id, agent,
                        if aggregate then Remark("aggregate_review_verdict", SentName(sent))
                        else Remark("review", reviewer + ":" + SentName(sent)),
                        "review-submit"))
  }

  function Children(tasks: map<int, Task>, id: int): set<int> {
    set k | k in tasks && tasks[k].parent == Some(id)
  }

  // A parent whose children are few and cheap gets its closure verdict without
  // a review.
  predicate AutoSkips(db: Db, op: Op)
    requires op.AggregateReview?
  {
    && Trim(op.agent) != "" && op.id in db.tasks && op.hasChild
    && op.cost < op.maxCost && |Children(db.tasks, op.id)| <= op.maxCount && !op.force && !op.dryRun
  }

  function AggregateStep(db: Db, op: Op): Db
    requires op.AggregateReview?
  {
    if !AutoSkips(db, op) then db else
      Recorded(db, op.id, CLOSURE_REVIEWER, PASS,
               AuditRow(op.id, op.agent, Remark("aggregate_review_verdict", "PASS"), "aggregate-review"))
  }

  // ------------------------------------------------------------ merge and update

  function MergeFailures(db: Db, a: int, b: int): seq<Check>
    requires a == b || (a in db.tasks && b in db.tasks)
  {
    if a == b then [SameTask]
    else if db.tasks[a].status in {CANCELLED, SUPERSEDED} then [TargetTerminal]
    else if db.tasks[b].status in {CANCELLED, SUPERSEDED} then [AbsorbedTerminal]
    else []
  }

  // The audit rows and, if the column changed, one more.
  function Noting(rows: seq<AuditRow>, id: int, agent: string, changed: bool, change: Change): seq<AuditRow> {
    if changed then rows + [AuditRow(id, agent, change, "merge")] else rows
  }

  function AbsorberAudit(id: int, agent: string, t: Task, t': Task): seq<AuditRow> {
    var r1 := Noting([], id, agent, t.blockedBy != t'.blockedBy, IntsChange("blocked_by", t.blockedBy, t'.blockedBy));
    var r2 := Noting(r1, id, agent, t.consumers != t'.consumers, TextsChange("consumers", t.consumers, t'.consumers));
    var r3 := Noting(r2, id, agent, t.doneWhen != t'.doneWhen, TextsChange("done_when", t.doneWhen, t'.doneWhen));
    var r4 := Noting(r3, id, agent, t.references != t'.references,
                     TextsChange("references", t.references, t'.references));
    var r5 := Noting(r4, id, agent, t.tags != t'.tags, TextsChange("tags", t.tags, t'.tags));
    Noting(r5, id, agent, t.note != t'.note, FieldChange(Note, t.note, t'.note))
  }

  // The tasks whose list names b, other than a and b themselves.
  function Dependents(tasks: map<int, Task>, a: int, b: int): set<int> {
    set k | k in tasks && k != a && k != b && b in tasks[k].blockedBy
  }

  // One audit row per dependent, in whatever order the query returned them.
  function DependentsAudit(tasks: map<int, Task>, a: int, b: int, deps: seq<int>, agent: string): seq<AuditRow>
    requires a != b && forall d :: d in deps ==> d in tasks
  {
    if deps == [] then [] else
      var d := deps[|deps| - 1];
      assert d in deps;
      DependentsAudit(tasks, a, b, deps[..|deps| - 1], agent)
      + [AuditRow(d, agent, IntsChange("blocked_by", tasks[d].blockedBy, Redirected(tasks[d].blockedBy, a, b)),
                  "merge")]
  }

  ghost predicate Lists(deps: seq<int>, s: set<int>) {
    (forall d :: d in deps <==> d in s) && (forall i, j :: 0 <= i < j < |deps| ==> deps[i] != deps[j])
  }

  lemma NextListed(deps: seq<int>, s: set<int>, i: nat)
    requires Lists(deps, s) && i < |deps|
    ensures deps[i] in s && deps[i] !in deps[..i]
    ensures deps[..i + 1][..i] == deps[..i]
    ensures forall d :: d in deps[..i + 1] ==> d in s
  {
    assert deps[i] in deps;
    forall d | d in deps[..i + 1] ensures d in s {
      assert d in deps;
    }
  }

  // The table after the dependents were rewritten one after the other.
  function Redirects(start: map<int, Task>, tasks: map<int, Task>, a: int, b: int, deps: seq<int>): map<int, Task>
    requires a != b && forall d :: d in deps ==> d in tasks
  {
    if deps == [] then start else
      var d := deps[|deps| - 1];
      assert d in deps;
      var before := Redirects(start, tasks, a, b, deps[..|deps| - 1]);
      before[d := tasks[d].(blockedBy := Redirected(tasks[d].blockedBy, a, b))]
  }

  lemma {:induction false} RedirectsAt(start: map<int, Task>, tasks: map<int, Task>, a: int, b: int, deps: seq<int>,
                                       id: int)
    requires a != b && forall d :: d in deps ==> d in tasks
    ensures id in Redirects(start, tasks, a, b, deps) <==> id in start || id in deps
    ensures id in deps ==>
              Redirects(start, tasks, a, b, deps)[id] == tasks[id].(blockedBy := Redirected(tasks[id].blockedBy, a, b))
    ensures id in start && id !in deps ==> Redirects(start, tasks, a, b, deps)[id] == start[id]
  {
    if deps != [] {
      assert deps[|deps| - 1] in deps;
      assert deps == deps[..|deps| - 1] + [deps[|deps| - 1]];
      RedirectsAt(start, tasks, a, b, deps[..|deps| - 1], id);
    }
  }

  // Rewriting the absorber, the dependents and the absorbed task in turn gives
  // the merged table.
  lemma WritesMakeMerged(tasks: map<int, Task>, a: int, b: int, deps: seq<int>)
    requires a in tasks && b in tasks && a != b && Lists(deps, Dependents(tasks, a, b))
    ensures Redirects(tasks[a := Absorber(tasks[a], tasks[b], a, b)], tasks, a, b, deps)[b := Absorbed(tasks[b], a)]
         == Merged(tasks, a, b)
  {
    var m, newA := Merged(tasks, a, b), Absorber(tasks[a], tasks[b], a, b);
    var w := Redirects(tasks[a := newA], tasks, a, b, deps)[b := Absorbed(tasks[b], a)];
    forall id ensures id in w <==> id in m {
      RedirectsAt(tasks[a := newA], tasks, a, b, deps, id);
    }
    forall id | id in m ensures w[id] == m[id] {
      RedirectsAt(tasks[a := newA], tasks, a, b, deps, id);
    }
  }

  ghost predicate Merges(db: Db, a: int, b: int, deps: seq<int>, dryRun: bool) {
    && a in db.tasks && b in db.tasks && MergeFailures(db, a, b) == [] && !dryRun
    && Lists(deps, Dependents(db.tasks, a, b))
  }

  function MergeAudit(db: Db, a: int, agent: string, b: int, deps: seq<int>): seq<AuditRow>
    requires a in db.tasks && b in db.tasks && a != b && forall d :: d in deps ==> d in db.tasks
  {
    AbsorberAudit(a, agent, db.tasks[a], Absorber(db.tasks[a], db.tasks[b], a, b))
    + DependentsAudit(db.tasks, a, b, deps, agent)
    + [AuditRow(b, agent, StatusChange(Some(db.tasks[b].status), SUPERSEDED), "merge into #" + Render(a))]
  }

  ghost function MergeStep(db: Db, a: int, agent: string, b: int, deps: seq<int>, dryRun: bool): Db {
    if !Merges(db, a, b, deps, dryRun) then db else
      db.(tasks := Merged(db.tasks, a, b), audit := db.audit + MergeAudit(db, a, agent, b, deps))
  }

  function UpdateAudit(id: int, agent: string, t: Task, fs: seq<Field>, texts: map<Field, string>): seq<AuditRow>
    requires forall f :: f in fs ==> f in texts
  {
    if fs == [] then [] else
      assert fs[|fs| - 1] in fs;
      UpdateAudit(id, agent, t, fs[..|fs| - 1], texts)
      + [AuditRow(id, agent, FieldChange(fs[|fs| - 1], FieldText(t, fs[|fs| - 1]), texts[fs[|fs| - 1]]), "update")]
  }

  function UpdateStep(db: Db, id: int, agent: string, updates: map<Field, string>): Db {
    if id !in db.tasks || exists f :: f in updates && f.Other? then db else
      var changes := Changes(db.tasks[id], updates);
      var fs := SortedFields(changes);
      var row := Applied(db.tasks[id], fs, changes);
      if fs == [] || row.None? then db else
        db.(tasks := db.tasks[id := row.value], audit := db.audit + UpdateAudit(id, agent, db.tasks[id], fs, changes))
  }

  ghost function Step(db: Db, op: Op): Db {
    match op
    case Create(id, agent, req, valid, refused) => CreateStep(db, id, agent, req, valid, refused)
    case Advance(id, agent, approve) => AdvanceStep(db, id, agent, approve)
    case Take(id, agent) => TakeStep(db, id, agent)
    case Release(id, agent) => ReleaseStep(db, id, agent)
    case Cancel(id, agent, reason) => CancelStep(db, id, agent, reason)
    case Supersede(id, agent, byId) => SupersedeStep(db, id, agent, byId)
    case Verify(id, agent, failed) => VerifyStep(db, id, agent, failed)
    case RequestRevision(id, agent) => RevisionStep(db, id, agent)
    case Merge(id, agent, absorbed, deps, dryRun) => MergeStep(db, id, agent, absorbed, deps, dryRun)
    case Subtasks(id, agent, plan, firstId, dryRun) => SubtasksStep(db, id, agent, plan, firstId, dryRun)
    case SubmitReview(id, agent, reviewer, sent, aggregate) => SubmitReviewStep(db, id, agent, reviewer, sent,
                      aggregate)
    case AggregateReview(_, _, _, _, _, _, _, _) => AggregateStep(db, op)
    case Update(id, agent, updates) => UpdateStep(db, id, agent, updates)
  }

  datatype History = Empty | After(before: History, op: Op)

  // A serial run of operations.
  ghost function Run(db: Db, h: History): Db {
    match h
    case Empty => db
    case After(before, op) => Step(Run(db, before), op)
  }
}
