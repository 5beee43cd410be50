// Rows of the three tables the task store writes: tasks, review_results and the
// append-only audit_trail.
module Tasks {
  import opened Text
  import opened Graphs

  datatype Status =
    | BACKLOG | PLANNING | READY | SCOPED | TODO | REOPENED | IN_PROGRESS | IN_REVIEW | REVIEW
    | AWAITING_APPROVAL | DONE | CANCELLED | SUPERSEDED | WONT_DO | MERGED | INVESTIGATING | REVISION
    | Unlisted(name: string)

  datatype Task = Task(
    status: Status, owner: string, workflow: string, mode: string, title: string, why: string, note: string,
    businessValue: string, taskPlan: string, spec: string, parent: Option<int>, blockedBy: seq<int>,
    doneWhen: seq<string>, references: seq<string>, consumers: seq<string>, tags: seq<string>,
    requiredReviews: seq<string>, closed: bool, verified: bool)

  // The columns UpdateTask may write, in the order of their names; any other
  // name a client sends is Other.
  datatype Field =
    | BusinessValue | Mode | Note | Owner | ParentTaskId | Spec | TaskPlan | Title | Why | Other(name: string)

  // review_results.verdict, as its CHECK constraint admits it.
  datatype Verdict = PASS | FAIL | NEEDS_WORK

  datatype Review = Review(task: int, reviewer: string, verdict: Verdict, latest: bool)

  datatype Change =
    | StatusChange(from: Option<Status>, to: Status)
    | FieldChange(field: Field, before: string, after: string)
    | IntsChange(column: string, oldInts: seq<int>, newInts: seq<int>)
    | TextsChange(column: string, oldTexts: seq<string>, newTexts: seq<string>)
    | Remark(column: string, text: string)

  datatype AuditRow = AuditRow(task: int, agent: string, change: Change, command: string)

  datatype Db = Db(tasks: map<int, Task>, reviews: seq<Review>, audit: seq<AuditRow>)

  // The blocked_by columns as a graph.
  function BlockedBy(tasks: map<int, Task>): (g: Graph)
    ensures g.Keys == tasks.Keys && forall id :: id in tasks ==> g[id] == tasks[id].blockedBy
  {
    map id | id in tasks :: tasks[id].blockedBy
  }

  // A list without one id, the rest in order.
  function Without(s: seq<int>, x: int): (r: seq<int>) {
    if s == [] then [] else
      Without(s[..|s| - 1], x) + if s[|s| - 1] == x then [] else [s[|s| - 1]]
  }

  lemma {:induction false} WithoutMembers(s: seq<int>, x: int)
    ensures forall v :: v in Without(s, x) <==> v in s && v != x
  {
    if s != [] {
      WithoutMembers(s[..|s| - 1], x);
      assert s == s[..|s| - 1] + [s[|s| - 1]];
    }
  }

  lemma {:induction false} WithoutRemovesExactly(s: seq<int>, x: int)
    ensures multiset(Without(s, x)) == multiset(s)[x := 0]
  {
    if s != [] {
      WithoutRemovesExactly(s[..|s| - 1], x);
      assert s == s[..|s| - 1] + [s[|s| - 1]];
    }
  }

  // The positions the survivors come from rise strictly: order is kept.
  lemma {:induction false} WithoutKeepsOrder(s: seq<int>, x: int) returns (at: seq<nat>)
    ensures |at| == |Without(s, x)|
    ensures forall i :: 0 <= i < |at| ==> at[i] < |s| && Without(s, x)[i] == s[at[i]]
    ensures forall i, j :: 0 <= i < j < |at| ==> at[i] < at[j]
  {
    at := [];
    if s != [] {
      at := WithoutKeepsOrder(s[..|s| - 1], x);
      if s[|s| - 1] != x {
        at := at + [|s| - 1];
      }
    }
  }
}
