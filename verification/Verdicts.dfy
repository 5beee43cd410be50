// The is_latest flag of review_results over whole runs.
module Verdicts {
  import opened Text
  import opened Tasks
  import opened Lifecycle

  // Recording a verdict replaces the latest one of its task and reviewer and no
  // other.
  lemma RecordedVerdict(reviews: seq<Review>, id: int, reviewer: string, v: Verdict, id': int, reviewer': string,
                        v': Verdict)
    ensures HasLatest(Retired(reviews, id, reviewer) + [Review(id, reviewer, v, true)], id', reviewer', v') <==>
              if id' == id && reviewer' == reviewer then v' == v else HasLatest(reviews, id', reviewer', v')
  {
    var all := Retired(reviews, id, reviewer) + [Review(id, reviewer, v, true)];
    assert all[|reviews|] == Review(id, reviewer, v, true);
    if !(id' == id && reviewer' == reviewer) && HasLatest(reviews, id', reviewer', v') {
      var i :| 0 <= i < |reviews| && reviews[i] == Review(id', reviewer', v', true);
      assert all[i] == reviews[i];
    }
  }

  // The verdict an operation commits for a reviewer of a task, if any.
  ghost function Committed(db: Db, op: Op, id: int, reviewer: string): Option<Verdict> {
    if op.SubmitReview? && op.id == id && op.reviewer == reviewer && id in db.tasks then StoredVerdict(op.sent)
    else if op.AggregateReview? && op.id == id && reviewer == CLOSURE_REVIEWER && AutoSkips(db, op) then Some(PASS)
    else None
  }

  // The last verdict committed along a run, read off the operations alone.
  ghost function LastCommitted(db: Db, h: History, id: int, reviewer: string): Option<Verdict> {
    match h
    case Empty => None
    case After(before, op) =>
      var now := Committed(Run(db, before), op, id, reviewer);
      if now.Some? then now else LastCommitted(db, before, id, reviewer)
  }

  lemma StepReviews(db: Db, op: Op)
    ensures !op.SubmitReview? && !op.AggregateReview? ==> Step(db, op).reviews == db.reviews
  {
    match op
    case Subtasks(pid, agent, plan, firstId, _) =>
      if pid in db.tasks && plan.Some? {
        SubtasksKeepReviews(db, pid, db.tasks[pid], plan.value, firstId, agent);
      }
    case _ =>
  }

  lemma {:induction false} SubtasksKeepReviews(db: Db, pid: int, t: Task, phases: seq<Phase>, firstId: int,
      agent: string)
    ensures WithSubtasks(db, pid, t, phases, firstId, agent).reviews == db.reviews
  {
    if phases != [] {
      SubtasksKeepReviews(db, pid, t, phases[..|phases| - 1], firstId, agent);
    }
  }

  lemma StepLatest(db: Db, op: Op, id: int, reviewer: string, v: Verdict)
    ensures HasLatest(Step(db, op).reviews, id, reviewer, v) <==>
              if Committed(db, op, id, reviewer).Some? then Committed(db, op, id, reviewer) == Some(v)
              else HasLatest(db.reviews, id, reviewer, v)
  {
    StepReviews(db, op);
    match op
    case SubmitReview(rid, _, r, sent, _) =>
      if rid in db.tasks && StoredVerdict(sent).Some? {
        RecordedVerdict(db.reviews, rid, r, StoredVerdict(sent).value, id, reviewer, v);
      }
    case AggregateReview(rid, _, _, _, _, _, _, _) =>
      if AutoSkips(db, op) {
        RecordedVerdict(db.reviews, rid, CLOSURE_REVIEWER, PASS, id, reviewer, v);
      }
    case _ =>
  }

  // HasLatestVerdict answers with the last committed verdict: PASS exactly when
  // the last thing that reviewer committed was a PASS.
  lemma {:induction false} LatestIsLastCommitted(db: Db, h: History, id: int, reviewer: string, v: Verdict)
    requires db.reviews == []
    ensures HasLatest(Run(db, h).reviews, id, reviewer, v) <==> LastCommitted(db, h, id, reviewer) == Some(v)
  {
    if h.After? {
      LatestIsLastCommitted(db, h.before, id, reviewer, v);
      StepLatest(Run(db, h.before), h.op, id, reviewer, v);
    }
  }

  // ------------------------------------------------------ what was last submitted

  // What happened last to a reviewer's verdict on a task: a submission that was
  // not turned down, or the verdict a small parent gets without a review.
  datatype Event = Submitted(sent: Sent) | Automatic

  ghost function EventOf(db: Db, op: Op, id: int, reviewer: string): Option<Event> {
    match op
    case SubmitReview(sid, _, r, sent, _) =>
      if sid == id && r == reviewer && id in db.tasks && sent != SentAccept then Some(Submitted(sent)) else None
    case AggregateReview(aid, agent, hasChild, cost, maxCost, maxCount, force, dryRun) =>
      if aid == id && reviewer == "task-closure-reviewer" && id in db.tasks && Trim(agent) != "" && hasChild
         && cost < maxCost && |set k | k in db.tasks && db.tasks[k].parent == Some(id)| <= maxCount && !force && !dryRun
      then Some(Automatic) else None
    case _ => None
  }

  ghost function LastEvent(db: Db, h: History, id: int, reviewer: string): Option<Event> {
    match h
    case Empty => None
    case After(before, op) =>
      var now := EventOf(Run(db, before), op, id, reviewer);
      if now.Some? then now else LastEvent(db, before, id, reviewer)
  }

  // The verdict an event stands for.
  predicate Means(e: Event, v: Verdict) {
    match v
    case PASS => e == Automatic || e == Submitted(SentPass)
    case FAIL => e == Submitted(SentFail)
    case NEEDS_WORK => e == Submitted(SentNeedsWork) || e == Submitted(SentReopen)
  }

  lemma CommittedMeans(db: Db, op: Op, id: int, reviewer: string)
    ensures Committed(db, op, id, reviewer).Some? <==> EventOf(db, op, id, reviewer).Some?
    ensures EventOf(db, op, id, reviewer).Some? ==>
              Means(EventOf(db, op, id, reviewer).value, Committed(db, op, id, reviewer).value)
  {
    if op.AggregateReview? {
      assert Children(db.tasks, op.id) == set k | k in db.tasks && db.tasks[k].parent == Some(op.id);
    }
  }

  lemma MeansOne(e: Event, v: Verdict, v': Verdict)
    requires Means(e, v)
    ensures Means(e, v') <==> v' == v
  {
  }

  lemma {:induction false} LastCommittedMeans(db: Db, h: History, id: int, reviewer: string)
    ensures LastCommitted(db, h, id, reviewer).Some? <==> LastEvent(db, h, id, reviewer).Some?
    ensures LastEvent(db, h, id, reviewer).Some? ==>
              Means(LastEvent(db, h, id, reviewer).value, LastCommitted(db, h, id, reviewer).value)
  {
    if h.After? {
      LastCommittedMeans(db, h.before, id, reviewer);
      CommittedMeans(Run(db, h.before), h.op, id, reviewer);
    }
  }

  // After any run the latest verdict is PASS exactly when the last submission
  // was PASS or a later automatic verdict was written, FAIL exactly when it was
  // FAIL, and NEEDS_WORK exactly when it was NEEDS_WORK or REOPEN.
  lemma LatestTellsLastEvent(db: Db, h: History, id: int, reviewer: string)
    requires db.reviews == []
    ensures var last, reviews := LastEvent(db, h, id, reviewer), Run(db, h).reviews;
            && (HasLatest(reviews, id, reviewer, PASS) <==> last in {Some(Automatic), Some(Submitted(SentPass))})
            && (HasLatest(reviews, id, reviewer, FAIL) <==> last == Some(Submitted(SentFail)))
            && (HasLatest(reviews, id, reviewer, NEEDS_WORK) <==>
                  last in {Some(Submitted(SentNeedsWork)), Some(Submitted(SentReopen))})
  {
    LastCommittedMeans(db, h, id, reviewer);
    forall v: Verdict
      ensures HasLatest(Run(db, h).reviews, id, reviewer, v) <==>
                LastEvent(db, h, id, reviewer).Some? && Means(LastEvent(db, h, id, reviewer).value, v)
    {
      LatestIsLastCommitted(db, h, id, reviewer, v);
      if LastEvent(db, h, id, reviewer).Some? {
        MeansOne(LastEvent(db, h, id, reviewer).value, LastCommitted(db, h, id, reviewer).value, v);
      }
    }
  }

  // An ACCEPT violates a constraint and changes nothing.
  lemma AcceptChangesNothing(db: Db, id: int, agent: string, reviewer: string, aggregate: bool)
    ensures Step(db, SubmitReview(id, agent, reviewer, SentAccept, aggregate)) == db
  {
  }

  // No task and reviewer ever have two latest rows.
  ghost predicate OneLatest(reviews: seq<Review>) {
    forall i, j :: 0 <= i < j < |reviews| && reviews[i].latest && reviews[j].latest ==>
      reviews[i].task != reviews[j].task || reviews[i].reviewer != reviews[j].reviewer
  }

  lemma {:induction false} AtMostOneLatest(db: Db, h: History)
    requires OneLatest(db.reviews)
    ensures OneLatest(Run(db, h).reviews)
  {
    if h.After? {
      AtMostOneLatest(db, h.before);
      StepReviews(Run(db, h.before), h.op);
    }
  }
}
