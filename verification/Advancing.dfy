// What advancing a task means, told by the stages of its workflow and by what
// each stage asks for on entry.
module Advancing {
  import opened Text
  import opened Tasks
  import opened Lifecycle

  // The stages of a workflow, in order; none for a workflow the server does not
  // advance.
  function Stages(workflow: string): seq<Status> {
    var name := Lower(Trim(workflow));
    if name == "" || name == "code_task" then
      [BACKLOG, PLANNING, READY, IN_PROGRESS, IN_REVIEW, AWAITING_APPROVAL, DONE]
    else if name == "fix" then [BACKLOG, SCOPED, IN_PROGRESS, IN_REVIEW, AWAITING_APPROVAL, DONE]
    else if name == "think_task" then [BACKLOG, PLANNING, READY, IN_PROGRESS, REVIEW, AWAITING_APPROVAL, DONE]
    else []
  }

  ghost predicate FollowedBy(workflow: string, s: Status, s': Status) {
    exists i :: 0 <= i < |Stages(workflow)| - 1 && Stages(workflow)[i] == s && Stages(workflow)[i + 1] == s'
  }

  // Whose verdict a task needs before approval: those on its own list, or else
  // the closure reviewer and the one of its workflow or, failing that, its mode.
  predicate NeedsReviewOf(t: Task, reviewer: string) {
    var name, mode := Lower(Trim(t.workflow)), Lower(Trim(t.mode));
    if t.requiredReviews != [] then reviewer in t.requiredReviews
    else
      || reviewer == "task-closure-reviewer"
      || (reviewer == "code-reviewer" && (name in {"fix", "code_task"} || (name != "think_task" && mode == "code")))
      || (reviewer == "content-reviewer"
          && (name == "think_task" || (name !in {"fix", "code_task"} && mode == "think")))
  }

  // What a stage asks for on entry.
  ghost predicate MayEnter(db: Db, id: int, to: Status, approve: bool)
    requires id in db.tasks
  {
    && (to == READY ==> db.tasks[id].doneWhen != [] && HasLatest(db.reviews, id, "spec-reviewer", PASS))
    && (to == SCOPED ==> db.tasks[id].doneWhen != [])
    && (to == IN_REVIEW ==> HasLatest(db.reviews, id, "code-reviewer", PASS))
    && (to == REVIEW ==> HasLatest(db.reviews, id, "content-reviewer", PASS))
    && (to == AWAITING_APPROVAL ==>
          forall r :: NeedsReviewOf(db.tasks[id], r) ==> HasLatest(db.reviews, id, r, PASS))
    && (to == DONE ==> approve && HasLatest(db.reviews, id, "task-closure-reviewer", PASS))
  }

  lemma StagesOfNames(workflow: string)
    ensures var name := Lower(Trim(workflow));
            && (name in {"", "code_task"} ==>
                  Stages(workflow) == [BACKLOG, PLANNING, READY, IN_PROGRESS, IN_REVIEW, AWAITING_APPROVAL, DONE])
            && (name == "fix" ==>
                  Stages(workflow) == [BACKLOG, SCOPED, IN_PROGRESS, IN_REVIEW, AWAITING_APPROVAL, DONE])
            && (name == "think_task" ==>
                  Stages(workflow) == [BACKLOG, PLANNING, READY, IN_PROGRESS, REVIEW, AWAITING_APPROVAL, DONE])
            && (name !in {"", "code_task", "fix", "think_task"} ==> Stages(workflow) == [])
  {
  }

  lemma TargetStands(s: Status, workflow: string, s': Status)
    requires AdvanceTarget(s, WorkflowOf(workflow)) == Some(s')
    ensures FollowedBy(workflow, s, s')
  {
    var stages := Stages(workflow);
    var i := if s == BACKLOG then 0 else if s == PLANNING || s == SCOPED then 1
             else |stages| - (if s == READY then 5 else if s == IN_PROGRESS then 4
                              else if s == IN_REVIEW || s == REVIEW then 3 else 2);
    assert stages[i] == s && stages[i + 1] == s';
  }

  lemma StageIsTarget(stages: seq<Status>, wf: Workflow, i: nat)
    requires wf == CodeTask ==> stages == [BACKLOG, PLANNING, READY, IN_PROGRESS, IN_REVIEW, AWAITING_APPROVAL, DONE]
    requires wf == FixTask ==> stages == [BACKLOG, SCOPED, IN_PROGRESS, IN_REVIEW, AWAITING_APPROVAL, DONE]
    requires wf == ThinkTask ==> stages == [BACKLOG, PLANNING, READY, IN_PROGRESS, REVIEW, AWAITING_APPROVAL, DONE]
    requires wf != Unsupported && i + 1 < |stages|
    ensures AdvanceTarget(stages[i], wf) == Some(stages[i + 1])
  {
  }

  lemma NextStageIsTarget(s: Status, workflow: string, s': Status)
    requires FollowedBy(workflow, s, s')
    ensures AdvanceTarget(s, WorkflowOf(workflow)) == Some(s')
  {
    var i :| 0 <= i < |Stages(workflow)| - 1 && Stages(workflow)[i] == s && Stages(workflow)[i + 1] == s';
    StageIsTarget(Stages(workflow), WorkflowOf(workflow), i);
  }

  // ComputeAdvanceTarget is the next stage of the workflow.
  lemma TargetIsNextStage(s: Status, workflow: string, s': Status)
    ensures AdvanceTarget(s, WorkflowOf(workflow)) == Some(s') <==> FollowedBy(workflow, s, s')
  {
    if AdvanceTarget(s, WorkflowOf(workflow)) == Some(s') {
      TargetStands(s, workflow, s');
    }
    if FollowedBy(workflow, s, s') {
      NextStageIsTarget(s, workflow, s');
    }
  }

  lemma StageSources(workflow: string, s: Status, s': Status)
    requires FollowedBy(workflow, s, s')
    ensures s' == PLANNING ==> s == BACKLOG
    ensures s' == READY ==> s == PLANNING
    ensures s' == SCOPED ==> s == BACKLOG && Lower(Trim(workflow)) == "fix"
    ensures s' == IN_PROGRESS ==> s == if Lower(Trim(workflow)) == "fix" then SCOPED else READY
  {
    NextStageIsTarget(s, workflow, s');
  }

  lemma RequiredAreNeeded(t: Task, reviewer: string)
    ensures reviewer in RequiredReviews(t) <==> NeedsReviewOf(t, reviewer)
  {
  }

  lemma {:induction false} MissingAre(reviews: seq<Review>, id: int, required: seq<string>, check: Check)
    ensures check in MissingReviews(reviews, id, required) <==>
              exists r :: r in required && check == ReviewOf(r) && !HasLatest(reviews, id, r, PASS)
  {
    if required != [] {
      MissingAre(reviews, id, required[..|required| - 1], check);
      assert required == required[..|required| - 1] + [required[|required| - 1]];
    }
  }

  // Each failure is reported exactly when its condition is unmet on the way to
  // the next stage.
  lemma FailuresTell(db: Db, id: int, approve: bool, to: Status)
    requires id in db.tasks && FollowedBy(db.tasks[id].workflow, db.tasks[id].status, to)
    ensures var failures := AdvanceFailures(db, id, approve);
            && NoAdvance !in failures
            && (DoneWhenEmpty in failures <==> to in {READY, SCOPED} && db.tasks[id].doneWhen == [])
            && (SpecReview in failures <==> to == READY && !HasLatest(db.reviews, id, "spec-reviewer", PASS))
            && (CodeReview in failures <==> to == IN_REVIEW && !HasLatest(db.reviews, id, "code-reviewer", PASS))
            && (ContentReview in failures <==> to == REVIEW && !HasLatest(db.reviews, id, "content-reviewer", PASS))
            && (forall r :: ReviewOf(r) in failures <==>
                  to == AWAITING_APPROVAL && NeedsReviewOf(db.tasks[id], r) && !HasLatest(db.reviews, id, r, PASS))
            && (Approve in failures <==> to == DONE && !approve)
            && (ClosureReview in failures <==>
                  to == DONE && !HasLatest(db.reviews, id, "task-closure-reviewer", PASS))
            && (forall c :: c in failures ==>
                  c in {DoneWhenEmpty, SpecReview, CodeReview, ContentReview, Approve, ClosureReview} || c.ReviewOf?)
  {
    TargetIsNextStage(db.tasks[id].status, db.tasks[id].workflow, to);
    TargetSource(db.tasks[id].status, WorkflowOf(db.tasks[id].workflow), to);
    ReadySource(db.tasks[id].status, WorkflowOf(db.tasks[id].workflow), to);
    forall c ensures c in MissingReviews(db.reviews, id, RequiredReviews(db.tasks[id])) <==>
      exists r :: r in RequiredReviews(db.tasks[id]) && c == ReviewOf(r) && !HasLatest(db.reviews, id, r, PASS)
    {
      MissingAre(db.reviews, id, RequiredReviews(db.tasks[id]), c);
    }
    forall r ensures r in RequiredReviews(db.tasks[id]) <==> NeedsReviewOf(db.tasks[id], r) {
      RequiredAreNeeded(db.tasks[id], r);
    }
  }

  lemma ReadySource(s: Status, wf: Workflow, to: Status)
    requires AdvanceTarget(s, wf) == Some(to)
    ensures to == READY ==> s == PLANNING
  {
  }

  // An advance goes through exactly when there is a next stage and the task may
  // enter it.
  lemma AdvanceGoesThroughIff(db: Db, id: int, approve: bool)
    requires id in db.tasks
    ensures AdvanceFailures(db, id, approve) == [] <==>
              exists to :: FollowedBy(db.tasks[id].workflow, db.tasks[id].status, to) && MayEnter(db, id, to, approve)
  {
    var t := db.tasks[id];
    var target := AdvanceTarget(t.status, WorkflowOf(t.workflow));
    forall to ensures FollowedBy(t.workflow, t.status, to) <==> target == Some(to) {
      TargetIsNextStage(t.status, t.workflow, to);
    }
    if target.Some? {
      var failures := AdvanceFailures(db, id, approve);
      FailuresTell(db, id, approve, target.value);
      assert failures != [] ==> failures[0] in failures;
    }
  }

  // What an advance that goes through writes: the next stage, the closing mark on
  // DONE, one audit row; and after DONE the active tasks lose the id.
  ghost predicate Advanced(db: Db, db': Db, id: int, agent: string, to: Status)
    requires id in db.tasks
  {
    && db'.tasks.Keys == db.tasks.Keys && db'.reviews == db.reviews
    && db'.audit == db.audit + [AuditRow(id, agent, StatusChange(Some(db.tasks[id].status), to), "advance")]
    && (to != DONE ==> db'.tasks[id] == db.tasks[id].(status := to))
    && (to == DONE ==> db'.tasks[id] == db.tasks[id].(status := DONE, closed := true))
    && forall k :: k in db.tasks && k != id ==>
         && db'.tasks[k].(blockedBy := db.tasks[k].blockedBy) == db.tasks[k]
         && (to != DONE || db.tasks[k].status in {DONE, CANCELLED, SUPERSEDED, WONT_DO, MERGED} ==>
               db'.tasks[k].blockedBy == db.tasks[k].blockedBy)
         && (to == DONE && db.tasks[k].status !in {DONE, CANCELLED, SUPERSEDED, WONT_DO, MERGED} ==>
               db'.tasks[k].blockedBy == Without(db.tasks[k].blockedBy, id))
  }

  lemma StepAdvances(db: Db, id: int, agent: string, approve: bool, to: Status)
    requires id in db.tasks && AdvanceFailures(db, id, approve) == []
    requires AdvanceTarget(db.tasks[id].status, WorkflowOf(db.tasks[id].workflow)) == Some(to)
    ensures Advanced(db, AdvanceStep(db, id, agent, approve), id, agent, to)
  {
  }

  lemma AdvanceMeans(db: Db, id: int, agent: string, approve: bool, to: Status)
    requires id in db.tasks && FollowedBy(db.tasks[id].workflow, db.tasks[id].status, to)
    ensures MayEnter(db, id, to, approve) ==> Advanced(db, Step(db, Advance(id, agent, approve)), id, agent, to)
    ensures !MayEnter(db, id, to, approve) ==> Step(db, Advance(id, agent, approve)) == db
  {
    var t := db.tasks[id];
    TargetIsNextStage(t.status, t.workflow, to);
    forall to' ensures FollowedBy(t.workflow, t.status, to') ==> to' == to {
      TargetIsNextStage(t.status, t.workflow, to');
    }
    AdvanceGoesThroughIff(db, id, approve);
    if MayEnter(db, id, to, approve) {
      StepAdvances(db, id, agent, approve, to);
    }
  }

  lemma NoStageNoAdvance(db: Db, id: int, agent: string, approve: bool)
    requires id in db.tasks ==> forall to :: !FollowedBy(db.tasks[id].workflow, db.tasks[id].status, to)
    ensures Step(db, Advance(id, agent, approve)) == db
    ensures id in db.tasks ==> AdvanceFailures(db, id, approve) == [NoAdvance]
  {
    if id in db.tasks {
      var t := db.tasks[id];
      var target := AdvanceTarget(t.status, WorkflowOf(t.workflow));
      if target.Some? {
        TargetIsNextStage(t.status, t.workflow, target.value);
      }
    }
  }
}
