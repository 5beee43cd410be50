// What holds over every serial run of the store's operations.
module Histories {
  import opened Text
  import opened Tasks
  import opened Lifecycle
  import opened Advancing
  import opened AuditChains
  import opened StepEffects

  // `from` is where h was at some earlier moment.
  ghost predicate Extends(from: History, h: History) {
    h == from || (h.After? && Extends(from, h.before))
  }

  // Audit replay: between any two moments of any run, the status rows written
  // for a task form an unbroken chain from the status it had (none, before it
  // existed) to the one it has, and its owner rows from the owner it had to the
  // one it has.
  lemma {:induction false} AuditReplays(db: Db, from: History, h: History, id: int) returns (delta: seq<AuditRow>)
    requires Extends(from, h)
    ensures Chained(Run(db, from), Run(db, h), delta, id)
    decreases h
  {
    if h == from {
      delta := [];
      assert Run(db, h).audit + [] == Run(db, h).audit;
    } else {
      var d1 := AuditReplays(db, from, h.before, id);
      var d2 := StepEffect(Run(db, h.before), h.op, id);
      ChainedJoins(Run(db, from), Run(db, h.before), Run(db, h), d1, d2, id);
      delta := d1 + d2;
    }
  }

  // The moment a task appeared.
  ghost predicate Appears(db: Db, e: History, id: int) {
    && e.After? && id !in Run(db, e.before).tasks && id in Run(db, e).tasks
    && Run(db, e).tasks[id].status == BACKLOG && (e.op.Create? || e.op.Subtasks?)
    && (e.op.Create? ==> e.op.id == id && Run(db, e).tasks[id].owner == e.op.req.owner)
  }

  lemma OnlyCreationAdds(db: Db, op: Op, id: int)
    requires id !in db.tasks && id in Step(db, op).tasks
    ensures op.Create? || op.Subtasks?
    ensures op.Create? ==> op.id == id && Step(db, op).tasks[id].owner == op.req.owner
  {
  }

  lemma NewTaskAppears(db: Db, h: History, id: int)
    requires h.After? && id !in Run(db, h.before).tasks && id in Run(db, h).tasks
    ensures Appears(db, h, id)
  {
    OnlyCreationAdds(Run(db, h.before), h.op, id);
    var _ := StepEffect(Run(db, h.before), h.op, id);
  }

  // A task of the run has its whole story in the trail: status rows from nothing
  // to its status, owner rows from the owner it was created with to its owner.
  lemma {:induction false} CreatedTaskReplays(db: Db, h: History, id: int)
    returns (e: History, status: seq<AuditRow>, owner: seq<AuditRow>)
    requires id !in db.tasks && id in Run(db, h).tasks
    ensures Extends(e, h) && Appears(db, e, id)
    ensures Run(db, h).audit == db.audit + status && StatusChain(status, id, None, StatusOf(Run(db, h), id))
    ensures Run(db, h).audit == Run(db, e).audit + owner
    ensures OwnerChain(owner, id, Run(db, e).tasks[id].owner, Run(db, h).tasks[id].owner)
  {
    e := Appearance(db, h, id);
    ExtendsEmpty(h);
    status := AuditReplays(db, Empty, h, id);
    owner := AuditReplays(db, e, h, id);
  }

  lemma {:induction false} Appearance(db: Db, h: History, id: int) returns (e: History)
    requires id !in db.tasks && id in Run(db, h).tasks
    ensures Extends(e, h) && Appears(db, e, id)
    decreases h
  {
    if id in Run(db, h.before).tasks {
      e := Appearance(db, h.before, id);
    } else {
      NewTaskAppears(db, h, id);
      e := h;
    }
  }

  lemma {:induction false} ExtendsEmpty(h: History)
    ensures Extends(Empty, h)
  {
    if h.After? {
      ExtendsEmpty(h.before);
    }
  }

  predicate IsSink(s: Status) {
    s in {INVESTIGATING, REVISION, CANCELLED, SUPERSEDED}
  }

  lemma SinkMoves(db: Db, op: Op, id: int, s: Status, s': Option<Status>)
    requires IsSink(s) && StatusOf(db, id) == Some(s) && MayMove(db, op, id, Some(s), s')
    ensures s'.Some? && IsSink(s'.value)
  {
  }

  // A task that was cancelled, superseded, sent to revision or back to
  // investigation stays in one of these four, so it never gets DONE.
  lemma {:induction false} SinksAreClosed(db: Db, h: History, id: int)
    requires id in db.tasks && IsSink(db.tasks[id].status)
    ensures StatusOf(Run(db, h), id).Some? && IsSink(StatusOf(Run(db, h), id).value)
  {
    if h.After? {
      SinksAreClosed(db, h.before, id);
      var before, after := Run(db, h.before), Run(db, h);
      var _ := StepEffect(before, h.op, id);
      SinkMoves(before, h.op, id, StatusOf(before, id).value, StatusOf(after, id));
    }
  }

  // DONE and CANCELLED rows carry closed_at; nothing is promised for SUPERSEDED.
  lemma {:induction false} TerminalIsClosed(db: Db, h: History, id: int)
    requires id in db.tasks && Terminal(db.tasks[id].status) ==> db.tasks[id].closed
    ensures id in Run(db, h).tasks && Terminal(Run(db, h).tasks[id].status) ==> Run(db, h).tasks[id].closed
  {
    if h.After? {
      TerminalIsClosed(db, h.before, id);
      var _ := StepEffect(Run(db, h.before), h.op, id);
    }
  }

  // ------------------------------------------------------------------ every advance

  // In every run, an advance that moves a task takes it to the next stage of its
  // workflow, and to a stage it may enter. So it enters READY only from PLANNING
  // and with a done_when list and the spec reviewer's PASS, SCOPED only from
  // BACKLOG and with a done_when list, and IN_PROGRESS only from READY, or from
  // SCOPED in a fix.
  lemma AdvanceEnters(db: Db, h: History, id: int, s: Status, s': Status)
    requires h.After? && h.op.Advance? && s != s'
    requires StatusOf(Run(db, h.before), id) == Some(s) && StatusOf(Run(db, h), id) == Some(s')
    ensures var before := Run(db, h.before);
            && h.op.id == id && id in before.tasks
            && FollowedBy(before.tasks[id].workflow, s, s') && MayEnter(before, id, s', h.op.approve)
            && (s' == PLANNING ==> s == BACKLOG)
            && (s' == READY ==> s == PLANNING && before.tasks[id].doneWhen != []
                                && HasLatest(before.reviews, id, "spec-reviewer", PASS))
            && (s' == SCOPED ==> s == BACKLOG && before.tasks[id].doneWhen != []
                                 && Lower(Trim(before.tasks[id].workflow)) == "fix")
            && (s' == IN_PROGRESS ==>
                  s == if Lower(Trim(before.tasks[id].workflow)) == "fix" then SCOPED else READY)
  {
    AdvanceStepEnters(Run(db, h.before), h.op, id, s, s');
    StageSources(Run(db, h.before).tasks[id].workflow, s, s');
  }

  lemma AdvanceStepEnters(db: Db, op: Op, id: int, s: Status, s': Status)
    requires op.Advance? && s != s' && StatusOf(db, id) == Some(s) && StatusOf(Step(db, op), id) == Some(s')
    ensures op.id == id && id in db.tasks
    ensures FollowedBy(db.tasks[id].workflow, s, s') && MayEnter(db, id, s', op.approve)
  {
    var _ := StepEffect(db, op, id);
    TargetIsNextStage(s, db.tasks[id].workflow, s');
    AdvanceMeans(db, id, op.agent, op.approve, s');
  }

  // ------------------------------------------------------------ the way to DONE

  // `from` is a prefix of `to`, and at it and ever since the status was s.
  ghost predicate StaysAt(db: Db, from: History, to: History, id: int, s: Status) {
    StatusOf(Run(db, to), id) == Some(s) && (to == from || (to.After? && StaysAt(db, from, to.before, id, s)))
  }

  // The last operation of h advanced the task from s to s'.
  ghost predicate Advances(db: Db, h: History, id: int, s: Status, s': Status) {
    && h.After? && h.op.Advance? && h.op.id == id
    && StatusOf(Run(db, h.before), id) == Some(s) && StatusOf(Run(db, h), id) == Some(s')
  }

  ghost predicate Passed(db: Db, h: History, id: int, reviewer: string) {
    HasLatest(Run(db, h).reviews, id, reviewer, PASS)
  }

  ghost predicate EntersReview(db: Db, h: History, id: int, s: Status) {
    && Advances(db, h, id, IN_PROGRESS, s)
    && (s == IN_REVIEW || s == REVIEW)
    && Passed(db, h.before, id, if s == REVIEW then "content-reviewer" else "code-reviewer")
  }

  ghost predicate EntersApproval(db: Db, h: History, id: int) {
    && h.After? && id in Run(db, h.before).tasks
    && (forall r :: NeedsReviewOf(Run(db, h.before).tasks[id], r) ==> Passed(db, h.before, id, r))
    && exists e, s :: EntersReview(db, e, id, s) && StaysAt(db, e, h.before, id, s)
                      && Advances(db, h, id, s, AWAITING_APPROVAL)
  }

  ghost predicate EntersDone(db: Db, h: History, id: int) {
    && Advances(db, h, id, AWAITING_APPROVAL, DONE)
    && h.op.approve && Passed(db, h.before, id, "task-closure-reviewer")
    && exists e :: EntersApproval(db, e, id) && StaysAt(db, e, h.before, id, AWAITING_APPROVAL)
  }

  lemma {:induction false} NothingMissing(reviews: seq<Review>, id: int, required: seq<string>)
    requires MissingReviews(reviews, id, required) == []
    ensures forall r :: r in required ==> HasLatest(reviews, id, r, PASS)
  {
    if required != [] {
      NothingMissing(reviews, id, required[..|required| - 1]);
      assert required == required[..|required| - 1] + [required[|required| - 1]];
    }
  }

  // Reaching one of the four late statuses takes an advance whose gate passed.
  lemma OnlyAdvanceLeadsTo(db: Db, op: Op, id: int, s: Option<Status>, s': Status)
    requires MayMove(db, op, id, s, Some(s')) && s != Some(s') && StatusOf(db, id) == s
    requires s' in {IN_REVIEW, REVIEW, AWAITING_APPROVAL, DONE}
    ensures op.Advance? && op.id == id && id in db.tasks && AdvanceFailures(db, id, op.approve) == []
    ensures s' in {IN_REVIEW, REVIEW} ==> s == Some(IN_PROGRESS)
    ensures s' == AWAITING_APPROVAL ==> s in {Some(IN_REVIEW), Some(REVIEW)}
    ensures s' == DONE ==> s == Some(AWAITING_APPROVAL)
    ensures AdvanceTarget(db.tasks[id].status, WorkflowOf(db.tasks[id].workflow)) == Some(s')
  {
  }

  lemma GateHeld(db: Db, id: int, approve: bool, s': Status)
    requires id in db.tasks && AdvanceFailures(db, id, approve) == []
    requires AdvanceTarget(db.tasks[id].status, WorkflowOf(db.tasks[id].workflow)) == Some(s')
    ensures s' == IN_REVIEW ==> HasLatest(db.reviews, id, CODE_REVIEWER, PASS)
    ensures s' == REVIEW ==> HasLatest(db.reviews, id, CONTENT_REVIEWER, PASS)
    ensures s' == AWAITING_APPROVAL ==> MissingReviews(db.reviews, id, RequiredReviews(db.tasks[id])) == []
    ensures s' == DONE ==> approve && HasLatest(db.reviews, id, CLOSURE_REVIEWER, PASS)
  {
  }

  lemma {:induction false} ReviewWasEntered(db: Db, h: History, id: int, s: Status) returns (e: History)
    requires id !in db.tasks && s in {IN_REVIEW, REVIEW} && StatusOf(Run(db, h), id) == Some(s)
    ensures EntersReview(db, e, id, s) && StaysAt(db, e, h, id, s)
    decreases h
  {
    var before := Run(db, h.before);
    if StatusOf(before, id) == Some(s) {
      e := ReviewWasEntered(db, h.before, id, s);
    } else {
      var _ := StepEffect(before, h.op, id);
      OnlyAdvanceLeadsTo(before, h.op, id, StatusOf(before, id), s);
      GateHeld(before, id, h.op.approve, s);
      e := h;
    }
  }

  lemma {:induction false} ApprovalWasEntered(db: Db, h: History, id: int) returns (e: History)
    requires id !in db.tasks && StatusOf(Run(db, h), id) == Some(AWAITING_APPROVAL)
    ensures EntersApproval(db, e, id) && StaysAt(db, e, h, id, AWAITING_APPROVAL)
    decreases h
  {
    var before := Run(db, h.before);
    if StatusOf(before, id) == Some(AWAITING_APPROVAL) {
      e := ApprovalWasEntered(db, h.before, id);
    } else {
      var _ := StepEffect(before, h.op, id);
      OnlyAdvanceLeadsTo(before, h.op, id, StatusOf(before, id), AWAITING_APPROVAL);
      GateHeld(before, id, h.op.approve, AWAITING_APPROVAL);
      NothingMissing(before.reviews, id, RequiredReviews(before.tasks[id]));
      forall r ensures NeedsReviewOf(before.tasks[id], r) ==> r in RequiredReviews(before.tasks[id]) {
        RequiredAreNeeded(before.tasks[id], r);
      }
      var _ := ReviewWasEntered(db, h.before, id, before.tasks[id].status);
      e := h;
    }
  }

  // In every run in which the task was created, DONE was reached by exactly
  // three status changes in a row, each an advance whose reviews had passed:
  // into review, on to approval, and on to DONE with the operator's approval.
  lemma {:induction false} DoneIsEarned(db: Db, h: History, id: int) returns (e: History)
    requires id !in db.tasks && StatusOf(Run(db, h), id) == Some(DONE)
    ensures EntersDone(db, e, id) && StaysAt(db, e, h, id, DONE)
    decreases h
  {
    var before := Run(db, h.before);
    if StatusOf(before, id) == Some(DONE) {
      e := DoneIsEarned(db, h.before, id);
    } else {
      var _ := StepEffect(before, h.op, id);
      OnlyAdvanceLeadsTo(before, h.op, id, StatusOf(before, id), DONE);
      GateHeld(before, id, h.op.approve, DONE);
      var _ := ApprovalWasEntered(db, h.before, id);
      e := h;
    }
  }
}
