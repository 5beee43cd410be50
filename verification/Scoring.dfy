// internal/scoring/scoring.go and penalty.go: base scores, the blocks map, the
// capped fixpoint as the source runs it, and the results it reports. Scores are
// integers counted in tenths of a point.
module Scoring {
  import opened Text
  import opened Graphs
  import opened Rounding
  import opened Propagation
  import opened Bounds
  import opened KeptEdges
  import Reachability

  datatype Agent = A | B | Meta | T1 | T2 | Samvel | OtherAgent
  datatype TaskType = Infrastructure | Fix | Feature | Spec | Integration | Ui | Refactor | Process | OtherType

  datatype Task = Task(
    id: int, blockedBy: seq<int>, hasSpec: bool, hasClient: bool, capabilityStatus: Option<int>,
    impact: Option<int>, owner: Agent, taskType: TaskType, releaseBonus: int, broken: bool,
    consumers: nat, priorityOverride: int)

  // Penalties in tenths.
  function AgentTypePenalty(owner: Agent, taskType: TaskType): (p: int)
    ensures 5 <= p <= 30
  {
    match (owner, taskType)
    case (_, OtherType) => 20
    case (A, Infrastructure) => 5 case (A, Fix) => 5 case (A, Feature) => 10 case (A, Spec) => 30
    case (A, Integration) => 5 case (A, Ui) => 30 case (A, Refactor) => 10 case (A, Process) => 20
    case (B, Infrastructure) => 30 case (B, Fix) => 10 case (B, Feature) => 10 case (B, Spec) => 30
    case (B, Integration) => 30 case (B, Ui) => 5 case (B, Refactor) => 20 case (B, Process) => 30
    case (Meta, Infrastructure) => 10 case (Meta, Fix) => 20 case (Meta, Feature) => 20 case (Meta, Spec) => 5
    case (Meta, Integration) => 20 case (Meta, Ui) => 30 case (Meta, Refactor) => 20 case (Meta, Process) => 5
    case (T1, Infrastructure) => 5 case (T1, Fix) => 5 case (T1, Feature) => 15 case (T1, Spec) => 20
    case (T1, Integration) => 5 case (T1, Ui) => 30 case (T1, Refactor) => 15 case (T1, Process) => 20
    case (T2, Infrastructure) => 30 case (T2, Fix) => 30 case (T2, Feature) => 30 case (T2, Spec) => 5
    case (T2, Integration) => 10 case (T2, Ui) => 30 case (T2, Refactor) => 20 case (T2, Process) => 10
    case (Samvel, Infrastructure) => 5 case (Samvel, Fix) => 5 case (Samvel, Feature) => 10 case (Samvel, Spec) => 30
    case (Samvel, Integration) => 5 case (Samvel, Ui) => 30 case (Samvel, Refactor) => 15 case (Samvel, Process) => 30
    case (OtherAgent, Infrastructure) => 10 case (OtherAgent, Fix) => 10 case (OtherAgent, Feature) => 15
    case (OtherAgent, Spec) => 20 case (OtherAgent, Integration) => 10 case (OtherAgent, Ui) => 20
    case (OtherAgent, Refactor) => 20 case (OtherAgent, Process) => 20
  }

  datatype BaseEntry = BaseEntry(
    base: int, impactPoints: int, subjective: int, releaseBonus: int, brokenBonus: int,
    consumersBonus: int, hasSpec: bool, isBlocked: bool, taskType: TaskType)

  function ImpactPoints(t: Task): int {
    var hasCapability := t.capabilityStatus.Some? && t.capabilityStatus.value >= 2;
    if t.hasClient && hasCapability then 400
    else if t.hasClient then 280
    else if hasCapability then 200
    else if t.impact.Some? then 40 * t.impact.value
    else 0
  }

  function EntryOf(t: Task): BaseEntry {
    var impactPoints := ImpactPoints(t);
    var subjective := RoundHalfEven(2000, 10 + AgentTypePenalty(t.owner, t.taskType));
    var brokenBonus := if t.broken then 15 else 0;
    var consumersBonus := if 3 * t.consumers > 15 then 15 else 3 * t.consumers;
    BaseEntry(
      (if t.hasSpec then 50 else 0) + impactPoints + subjective + 10 * t.releaseBonus + 10 * brokenBonus
      + 10 * consumersBonus + 10 * t.priorityOverride,
      impactPoints, subjective, t.releaseBonus, brokenBonus, consumersBonus, t.hasSpec,
      |t.blockedBy| > 0, t.taskType)
  }

  // What an entry says about its task, field by field: 5.0 for a spec; 40.0, 28.0
  // or 20.0 for a client and a capability of status two or more, for a client
  // alone, for such a capability alone, and else four times the dial; 20/(1 + p)
  // for the penalty p; 15 when broken; 3 for each consumer up to five; and the
  // release bonus and the override as they are.
  ghost predicate MadeOf(t: Task, e: BaseEntry) {
    && e.hasSpec == t.hasSpec && e.taskType == t.taskType && e.releaseBonus == t.releaseBonus
    && (t.blockedBy != [] <==> e.isBlocked)
    && (t.broken ==> e.brokenBonus == 15) && (!t.broken ==> e.brokenBonus == 0)
    && (t.consumers <= 5 ==> e.consumersBonus == 3 * t.consumers) && (t.consumers > 5 ==> e.consumersBonus == 15)
    && IsRounded(2000, 10 + AgentTypePenalty(t.owner, t.taskType), e.subjective)
    && (t.hasClient && Capable(t) ==> e.impactPoints == 400)
    && (t.hasClient && !Capable(t) ==> e.impactPoints == 280)
    && (!t.hasClient && Capable(t) ==> e.impactPoints == 200)
    && (!t.hasClient && !Capable(t) && t.impact.Some? ==> e.impactPoints == 40 * t.impact.value)
    && (!t.hasClient && !Capable(t) && t.impact.None? ==> e.impactPoints == 0)
    && (t.hasSpec ==> e.base == 50 + e.impactPoints + e.subjective + Extras(t, e))
    && (!t.hasSpec ==> e.base == e.impactPoints + e.subjective + Extras(t, e))
  }

  ghost predicate Capable(t: Task) {
    exists n :: t.capabilityStatus == Some(n) && n >= 2
  }

  // The whole points, in tenths.
  ghost function Extras(t: Task, e: BaseEntry): int {
    10 * (e.releaseBonus + e.brokenBonus + e.consumersBonus + t.priorityOverride)
  }

  lemma EntryIsMadeOf(t: Task)
    ensures MadeOf(t, EntryOf(t))
  {
    assert Capable(t) <==> t.capabilityStatus.Some? && t.capabilityStatus.value >= 2;
  }

  // The penalties again, by value.
  lemma PenaltiesByValue(o: Agent, k: TaskType)
    ensures AgentTypePenalty(o, k) == 5 <==>
              || (k in {Infrastructure, Fix, Integration} && o in {A, T1, Samvel})
              || (k == Spec && o in {Meta, T2}) || (k == Ui && o == B) || (k == Process && o == Meta)
    ensures AgentTypePenalty(o, k) == 10 <==>
              || (k in {Infrastructure, Integration} && o == OtherAgent) || (k == Infrastructure && o == Meta)
              || (k == Integration && o == T2) || (k == Fix && o in {B, OtherAgent})
              || (k == Feature && o in {A, B, Samvel}) || (k == Refactor && o == A) || (k == Process && o == T2)
    ensures AgentTypePenalty(o, k) == 15 <==>
              (k == Feature && o in {T1, OtherAgent}) || (k == Refactor && o in {T1, Samvel})
    ensures AgentTypePenalty(o, k) == 30 <==>
              || (k in {Infrastructure, Integration, Process} && o == B)
              || (k in {Infrastructure, Fix, Feature} && o == T2)
              || (k == Spec && o in {A, B, Samvel}) || (k == Ui && o in {A, Meta, T1, T2, Samvel})
              || (k == Process && o == Samvel)
    ensures AgentTypePenalty(o, k) in {5, 10, 15, 20, 30}
  {
  }

  // The subjective part is worth at least 5.0, so only a priority override
  // below -5 or a negative impact dial can push a base below zero.
  lemma BaseFloor(t: Task)
    requires t.releaseBonus >= 0 && (t.impact.Some? ==> t.impact.value >= 0)
    ensures EntryOf(t).base >= 50 + 10 * t.priorityOverride
  {
  }

  // ------------------------------------------------------------ the blocks map

  function AddEdge(m: Graph, b: int, id: int): Graph {
    m[b := Successors(m, b) + [id]]
  }

  function AddBlockers(m: Graph, id: int, bs: seq<int>): Graph {
    if bs == [] then m else AddEdge(AddBlockers(m, id, bs[..|bs| - 1]), bs[|bs| - 1], id)
  }

  function BlocksOf(tasks: seq<Task>): Graph {
    if tasks == [] then map[] else
      var t := tasks[|tasks| - 1];
      AddBlockers(BlocksOf(tasks[..|tasks| - 1]), t.id, t.blockedBy)
  }

  lemma {:induction false} AddBlockersEdges(m: Graph, id: int, bs: seq<int>, b: int, t: int)
    ensures Edge(AddBlockers(m, id, bs), b, t) <==> Edge(m, b, t) || (t == id && b in bs)
  {
    if bs != [] {
      AddBlockersEdges(m, id, bs[..|bs| - 1], b, t);
      assert bs == bs[..|bs| - 1] + [bs[|bs| - 1]];
    }
  }

  // b -> t is in the blocks map exactly when some task t lists b as a blocker.
  lemma {:induction false} BlocksOfEdges(tasks: seq<Task>, b: int, t: int)
    ensures Edge(BlocksOf(tasks), b, t) <==> exists u :: u in tasks && u.id == t && b in u.blockedBy
  {
    if tasks != [] {
      var front, last := tasks[..|tasks| - 1], tasks[|tasks| - 1];
      BlocksOfEdges(front, b, t);
      AddBlockersEdges(BlocksOf(front), last.id, last.blockedBy, b, t);
      assert tasks == front + [last];
    }
  }

  // How often b is listed as a blocker, repetitions included.
  ghost function Mentions(tasks: seq<Task>, b: int): nat {
    if tasks == [] then 0 else
      Mentions(tasks[..|tasks| - 1], b) + multiset(tasks[|tasks| - 1].blockedBy)[b]
  }

  lemma {:induction false} AddBlockersCount(m: Graph, id: int, bs: seq<int>, b: int)
    ensures |Successors(AddBlockers(m, id, bs), b)| == |Successors(m, b)| + multiset(bs)[b]
  {
    if bs != [] {
      AddBlockersCount(m, id, bs[..|bs| - 1], b);
      assert bs == bs[..|bs| - 1] + [bs[|bs| - 1]];
    }
  }

  // `unblocks` counts mentions, not distinct tasks.
  lemma {:induction false} BlocksOfCount(tasks: seq<Task>, b: int)
    ensures |Successors(BlocksOf(tasks), b)| == Mentions(tasks, b)
  {
    if tasks != [] {
      BlocksOfCount(tasks[..|tasks| - 1], b);
      AddBlockersCount(BlocksOf(tasks[..|tasks| - 1]), tasks[|tasks| - 1].id, tasks[|tasks| - 1].blockedBy, b);
    }
  }

  ghost predicate HasTask(tasks: seq<Task>, id: int) {
    exists u :: u in tasks && u.id == id
  }

  // Without repeated ids, task i waits for b as many times as the map leads from
  // b to it.
  lemma {:induction false} BlocksOfTimes(tasks: seq<Task>, b: int, i: nat)
    requires DistinctIds(tasks) && i < |tasks|
    ensures multiset(Successors(BlocksOf(tasks), b))[tasks[i].id] == multiset(tasks[i].blockedBy)[b]
  {
    var front, last := tasks[..|tasks| - 1], tasks[|tasks| - 1];
    var t := tasks[i].id;
    AddBlockersTimes(BlocksOf(front), last.id, last.blockedBy, b, t);
    if i < |front| {
      BlocksOfTimes(front, b, i);
      assert last.id != t;
    } else {
      forall u | u in front ensures u.id != t {
        var k :| 0 <= k < |front| && front[k] == u;
        assert tasks[k] == u;
      }
      BlocksOfEdges(front, b, t);
      assert t in Successors(BlocksOf(front), b) <==> Edge(BlocksOf(front), b, t);
    }
  }

  lemma {:induction false} AddBlockersTimes(m: Graph, id: int, bs: seq<int>, b: int, t: int)
    ensures multiset(Successors(AddBlockers(m, id, bs), b))[t] ==
              multiset(Successors(m, b))[t] + if t == id then multiset(bs)[b] else 0
  {
    if bs != [] {
      var front, last := bs[..|bs| - 1], bs[|bs| - 1];
      AddBlockersTimes(m, id, front, b, t);
      assert bs == front + [last];
    }
  }

  ghost predicate DistinctIds(tasks: seq<Task>) {
    forall j, k :: 0 <= j < k < |tasks| ==> tasks[j].id != tasks[k].id
  }

  // The last task with a given id decides its entry.
  function Entries(tasks: seq<Task>): (m: map<int, BaseEntry>) {
    if tasks == [] then map[] else
      Entries(tasks[..|tasks| - 1])[tasks[|tasks| - 1].id := EntryOf(tasks[|tasks| - 1])]
  }

  lemma {:induction false} EntriesKeys(tasks: seq<Task>, id: int)
    ensures id in Entries(tasks) <==> HasTask(tasks, id)
    ensures id in Entries(tasks) ==> exists u :: u in tasks && u.id == id && Entries(tasks)[id] == EntryOf(u)
  {
    if tasks != [] {
      EntriesKeys(tasks[..|tasks| - 1], id);
      assert tasks == tasks[..|tasks| - 1] + [tasks[|tasks| - 1]];
    }
  }

  function Bases(tasks: seq<Task>): Scores {
    var m := Entries(tasks);
    map id | id in m :: m[id].base
  }

  lemma TargetsHaveBases(tasks: seq<Task>)
    ensures Targets(BlocksOf(tasks)) <= Bases(tasks).Keys
  {
    var blocks := BlocksOf(tasks);
    forall t | t in Targets(blocks) ensures t in Bases(tasks) {
      var b, i :| b in blocks && 0 <= i < |blocks[b]| && blocks[b][i] == t;
      assert Edge(blocks, b, t);
      BlocksOfEdges(tasks, b, t);
      EntriesKeys(tasks, t);
    }
  }

  ghost function TaskNet(tasks: seq<Task>): (net: Net)
    ensures Valid(net) && net.base == Bases(tasks)
  {
    TargetsHaveBases(tasks);
    NetIsValid(Bases(tasks), BlocksOf(tasks));
    NetOf(Bases(tasks), BlocksOf(tasks))
  }

  // --------------------------------------------------------------- the fixpoint

  function Repeat(order: seq<int>, k: nat): (run: Run)
    ensures Length(run) == k
  {
    if k == 0 then Begin else Then(Repeat(order, k - 1), order)
  }

  lemma {:induction false} RepeatIsFair(net: Net, order: seq<int>, k: nat)
    requires IsOrder(net, order)
    ensures Fair(net, Repeat(order, k))
  {
    if k > 0 {
      RepeatIsFair(net, order, k - 1);
    }
  }

  // Every task of height at most ten is within Err of its exact score.
  ghost predicate NearExact(net: Net, pot: Scores)
    requires Valid(net) && Covers(net, pot)
  {
    forall n :: n in net.base && net.rank[n] <= 10 ==> Within(pot[n], Exact(net, n), Err(net, n))
  }

  lemma TenRoundsNearExact(net: Net, run: Run)
    requires Valid(net) && Fair(net, run) && Length(run) == 10
    ensures NearExact(net, Rounds(net, net.base, run))
  {
    ExactIsTheSolution(net, ExactScores(net));
    forall n | n in net.base && net.rank[n] <= 10
      ensures Within(Rounds(net, net.base, run)[n], Exact(net, n), Err(net, n))
    {
      RunNearExact(net, run, ExactScores(net), n);
    }
  }

  // Step 2 of RecalculateAll. The map of potentials is ranged over in an
  // arbitrary order, chosen anew in each round; `run` records the choices and
  // is padded to ten rounds when one changes nothing and the loop stops.
  method Propagate(base: Scores, blocks: Graph) returns (pot: Scores, ghost run: Run, ghost quiet: bool)
    requires Targets(blocks) <= base.Keys
    ensures Valid(NetOf(base, blocks)) && Length(run) == 10 && Fair(NetOf(base, blocks), run)
    ensures pot == Rounds(NetOf(base, blocks), base, run)
    ensures pot.Keys == base.Keys && NearExact(NetOf(base, blocks), pot)
    ensures quiet ==> forall n :: n in base ==> Settled(NetOf(base, blocks), pot, n)
    ensures (forall n :: n in base ==> Height(blocks, n) <= 9) ==> quiet
  {
    ghost var net := NetOf(base, blocks);
    NetIsValid(base, blocks);
    pot := base;
    run, quiet := Begin, false;
    var reach := Reachability.BlocksReachability(blocks);
    var round := 0;
    while round < 10
      invariant 0 <= round <= 10 && Length(run) == round && !quiet
      invariant Fair(net, run)
      invariant Covers(net, pot) && pot == Rounds(net, base, run)
      invariant (forall n :: n in base ==> Height(blocks, n) <= 9) ==> round <= 9
    {
      var changed;
      ghost var order;
      ghost var start, before := pot, run;
      RoundsKeepLeaves(net, run);
      pot, changed, order := OneRound(net, base, blocks, reach, pot);
      run := Then(run, order);
      if !changed {
        quiet := true;
        ghost var padding := Repeat(order, 9 - round);
        RepeatIsFair(net, order, 9 - round);
        RoundsAppend(net, base, run, padding);
        QuietForever(net, pot, padding);
        run := Append(run, padding);
        break;
      }
      if round == 9 && forall n :: n in base ==> Height(blocks, n) <= 9 {
        forall n | n in base ensures Stable(net, start, n) { RoundsSettle(net, before, n); }
      }
      round := round + 1;
    }
    TenRoundsNearExact(net, run);
  }

  // net is the kept-edge net the maps of the source stand for.
  ghost predicate StandsFor(net: Net, base: Scores, blocks: Graph) {
    && Valid(net) && net.base == base
    && forall n :: n in base ==> net.kids[n] == Kids(blocks, n)
  }

  // A task that blocks nothing needs no visit.
  lemma NothingBlocked(net: Net, base: Scores, blocks: Graph, pot: Scores, ns: seq<int>, n: int)
    requires StandsFor(net, base, blocks) && Covers(net, pot) && Visitable(net, ns)
    requires LeavesAtBase(net, pot) && n in base && Successors(blocks, n) == []
    ensures Settled(net, Visits(net, pot, ns), n) && Settled(net, pot, n)
  {
  }

  method OneRound(ghost net: Net, base: Scores, blocks: Graph, reach: map<int, set<int>>, start: Scores)
    returns (pot: Scores, changed: bool, ghost order: seq<int>)
    requires StandsFor(net, base, blocks) && Covers(net, start) && LeavesAtBase(net, start)
    requires reach.Keys == Targets(blocks) <= base.Keys
    requires forall x, y :: x in reach ==> (y in reach[x] <==> Reaches(blocks, x, y))
    ensures IsOrder(net, order)
    ensures Covers(net, pot) && pot == Visits(net, start, order)
    ensures !changed ==> pot == start && forall n :: n in base ==> Settled(net, start, n)
    ensures changed ==> exists n :: n in base && !Stable(net, start, n)
  {
    pot, changed, order := start, false, [];
    var todo := pot.Keys;
    while todo != {}
      invariant todo <= base.Keys
      invariant forall n :: n in order <==> n in base && n !in todo
      invariant Covers(net, pot) && pot == Visits(net, start, order)
      invariant !changed ==> pot == start && forall n :: n in order ==> Settled(net, start, n)
      invariant changed ==> exists n :: n in base && !Stable(net, start, n)
    {
      HasElement(todo);
      var tid :| tid in todo;
      todo := todo - {tid};
      VisitsSnoc(net, start, order, tid);
      ghost var before := order;
      order := order + [tid];
      if |Successors(blocks, tid)| == 0 {
        NothingBlocked(net, base, blocks, start, before, tid);
        continue;
      }
      var sum := SumKept(blocks, reach, pot, tid);
      var newPot := Equation(base[tid], sum);
      if Abs(newPot - pot[tid]) > 1 {
        MovedWasUnstable(net, start, before, tid);
        pot := pot[tid := newPot];
        changed := true;
      }
    }
  }

  // The inner sum, over the blocked tasks that do not reach tid back.
  method SumKept(blocks: Graph, reach: map<int, set<int>>, pot: Scores, tid: int) returns (sum: int)
    requires reach.Keys == Targets(blocks) <= pot.Keys
    requires forall x, y :: x in reach ==> (y in reach[x] <==> Reaches(blocks, x, y))
    ensures (forall c :: c in Kids(blocks, tid) ==> c in pot) && sum == Sum(pot, Kids(blocks, tid))
  {
    var blockedTasks := Successors(blocks, tid);
    sum := 0;
    for k := 0 to |blockedTasks|
      invariant forall c :: c in KeptAmong(blocks, tid, k) ==> c in pot
      invariant sum == Sum(pot, KeptAmong(blocks, tid, k))
    {
      var bt := blockedTasks[k];
      assert bt in reach by { assert blocks[tid][k] in Targets(blocks); }
      if !(bt in reach && tid in reach[bt]) {
        SumSnoc(pot, KeptAmong(blocks, tid, k), bt);
        sum := sum + pot[bt];
      }
    }
  }

  // ---------------------------------------------------------------- the results

  datatype Result = Result(id: int, effective: int, potential: int, blockerValue: int, unblocks: nat, entry: BaseEntry)

  // What a result tells its reader: the potential of its id, an effective score
  // of zero for a blocked task and of the potential otherwise, the part of the
  // potential that does not come from the base, and how often the id is listed
  // as a blocker.
  ghost predicate Reports(tasks: seq<Task>, pot: Scores, id: int, r: Result) {
    && id in Entries(tasks) && id in pot
    && r.id == id && r.entry == Entries(tasks)[id] && r.potential == pot[id]
    && (r.entry.isBlocked ==> r.effective == 0)
    && (!r.entry.isBlocked ==> r.effective == r.potential)
    && r.blockerValue + r.entry.base == r.potential
    && r.unblocks == Mentions(tasks, id)
  }

  lemma {:induction false} EveryTaskHasAnEntry(tasks: seq<Task>, i: nat)
    requires i < |tasks|
    ensures tasks[i].id in Entries(tasks)
  {
    EntriesKeys(tasks, tasks[i].id);
  }

  // Without repeated ids every task has the entry of its own fields.
  lemma {:induction false} EntryIsOwn(tasks: seq<Task>, i: nat)
    requires i < |tasks| && DistinctIds(tasks)
    ensures tasks[i].id in Entries(tasks) && Entries(tasks)[tasks[i].id] == EntryOf(tasks[i])
  {
    var front, last := tasks[..|tasks| - 1], tasks[|tasks| - 1];
    if i < |front| {
      EntryIsOwn(front, i);
      assert last.id != tasks[i].id;
    }
  }

  // Step 0: the reverse-dependency map.
  method BuildBlocks(tasks: seq<Task>) returns (blocks: Graph)
    ensures blocks == BlocksOf(tasks)
  {
    blocks := map[];
    for i := 0 to |tasks|
      invariant blocks == BlocksOf(tasks[..i])
    {
      var t := tasks[i];
      assert tasks[..i + 1][..i] == tasks[..i];
      for k := 0 to |t.blockedBy|
        invariant blocks == AddBlockers(BlocksOf(tasks[..i]), t.id, t.blockedBy[..k])
      {
        assert t.blockedBy[..k + 1][..k] == t.blockedBy[..k];
        blocks := AddEdge(blocks, t.blockedBy[k], t.id);
      }
      assert t.blockedBy[..|t.blockedBy|] == t.blockedBy;
    }
    assert tasks[..|tasks|] == tasks;
  }

  // Step 1: base scores.
  method BuildEntries(tasks: seq<Task>) returns (entries: map<int, BaseEntry>)
    ensures entries == Entries(tasks)
  {
    entries := map[];
    for i := 0 to |tasks|
      invariant entries == Entries(tasks[..i])
    {
      assert tasks[..i + 1][..i] == tasks[..i];
      entries := entries[tasks[i].id := EntryOf(tasks[i])];
    }
    assert tasks[..|tasks|] == tasks;
  }

  // Step 3: results in input order.
  method BuildResults(tasks: seq<Task>, entries: map<int, BaseEntry>, blocks: Graph, pot: Scores)
    returns (results: seq<Result>)
    requires entries == Entries(tasks) && blocks == BlocksOf(tasks) && pot.Keys == entries.Keys
    ensures |results| == |tasks|
    ensures forall i :: 0 <= i < |tasks| ==> Reports(tasks, pot, tasks[i].id, results[i])
  {
    results := [];
    for i := 0 to |tasks|
      invariant |results| == i
      invariant forall j :: 0 <= j < i ==> Reports(tasks, pot, tasks[j].id, results[j])
    {
      var id := tasks[i].id;
      EveryTaskHasAnEntry(tasks, i);
      BlocksOfCount(tasks, id);
      var unblocks := if id in blocks then |blocks[id]| else 0;
      var effective := if entries[id].isBlocked then 0 else pot[id];
      results := results + [Result(id, effective, pot[id], pot[id] - entries[id].base, unblocks, entries[id])];
    }
  }

  // What one call of RecalculateAll may return for the task with this id,
  // given the iteration orders it happened to use: the score of its run, and
  // for a task of kept-edge height at most ten one within Err of the exact
  // bottom-up score.
  ghost predicate Reported(tasks: seq<Task>, run: Run, id: int, r: Result)
    requires Fair(TaskNet(tasks), run)
  {
    && id in Entries(tasks)
    && Reports(tasks, Rounds(TaskNet(tasks), Bases(tasks), run), id, r)
    && (Height(BlocksOf(tasks), id) <= 10 ==>
          Within(r.potential, Exact(TaskNet(tasks), id), Err(TaskNet(tasks), id)))
  }

  method RecalculateAll(tasks: seq<Task>) returns (results: seq<Result>, ghost run: Run)
    ensures Length(run) == 10 && Fair(TaskNet(tasks), run)
    ensures |results| == |tasks|
    ensures forall i :: 0 <= i < |tasks| ==> Reported(tasks, run, tasks[i].id, results[i])
    ensures DistinctIds(tasks) ==> forall i :: 0 <= i < |tasks| ==>
              && (tasks[i].blockedBy != [] ==> results[i].effective == 0)
              && (tasks[i].blockedBy == [] ==> results[i].effective == results[i].potential)
              && MadeOf(tasks[i], results[i].entry)
              && results[i].blockerValue + results[i].entry.base == results[i].potential
  {
    var blocks := BuildBlocks(tasks);
    var entries := BuildEntries(tasks);
    var base := map id | id in entries :: entries[id].base;
    TargetsHaveBases(tasks);
    var pot;
    ghost var quiet;
    pot, run, quiet := Propagate(base, blocks);
    assert NetOf(base, blocks) == TaskNet(tasks);
    results := BuildResults(tasks, entries, blocks, pot);
    if DistinctIds(tasks) {
      forall i | 0 <= i < |tasks| ensures MadeOf(tasks[i], results[i].entry) {
        EntryIsOwn(tasks, i);
        EntryIsMadeOf(tasks[i]);
      }
    }
  }

  // The inputs for which no base is negative.
  predicate Ordinary(t: Task) {
    t.releaseBonus >= 0 && (t.impact.Some? ==> t.impact.value >= 0) && t.priorityOverride >= -5
  }

  lemma OrdinaryBases(tasks: seq<Task>, id: int)
    requires forall t :: t in tasks ==> Ordinary(t)
    requires id in Bases(tasks)
    ensures Bases(tasks)[id] >= 0
  {
    EntriesKeys(tasks, id);
    var u :| u in tasks && u.id == id && Entries(tasks)[id] == EntryOf(u);
    BaseFloor(u);
  }

  // On ordinary tasks every potential only ever rises, stays between the base
  // and the exact score, and two runs end within Err of each other.
  lemma OrdinaryTasksAreSandwiched(tasks: seq<Task>, run: Run, run': Run, id: int)
    requires forall t :: t in tasks ==> Ordinary(t)
    requires Fair(TaskNet(tasks), run) && Length(run) == 10 && Fair(TaskNet(tasks), run') && Length(run') == 10
    requires id in Bases(tasks)
    ensures NeverDecreases(TaskNet(tasks))
    ensures Bases(tasks)[id] <= Rounds(TaskNet(tasks), Bases(tasks), run)[id] <= Exact(TaskNet(tasks), id)
    ensures Height(BlocksOf(tasks), id) <= 10 ==>
      Within(Rounds(TaskNet(tasks), Bases(tasks), run)[id], Rounds(TaskNet(tasks), Bases(tasks), run')[id],
             Err(TaskNet(tasks), id))
  {
    var net := TaskNet(tasks);
    forall n, c {:trigger c in net.kids[n]} | n in net.kids && c in net.kids[n] ensures net.base[c] >= 0 {
      OrdinaryBases(tasks, c);
    }
    NonNegativeNeverDecreases(net);
    ExactIsTheSolution(net, ExactScores(net));
    Sandwich(net, run, ExactScores(net), id);
    if Height(BlocksOf(tasks), id) <= 10 {
      NonNegativeRunsAgreeWithin(net, run, run', id);
    }
  }

  // What an effective score tells the caller, whatever the iteration orders: zero
  // for a blocked task, and otherwise a value within Err of the exact score.
  ghost predicate Ranked(tasks: seq<Task>, id: int, effective: int) {
    && id in Entries(tasks)
    && if Entries(tasks)[id].isBlocked then effective == 0
       else Height(BlocksOf(tasks), id) <= 10 ==> Within(effective, Exact(TaskNet(tasks), id), Err(TaskNet(tasks), id))
  }

  // The effective scores of one call, keyed by id.
  ghost predicate IsScoring(tasks: seq<Task>, run: Run, scores: map<int, int>) {
    && Length(run) == 10 && Fair(TaskNet(tasks), run)
    && (forall i :: 0 <= i < |tasks| ==> tasks[i].id in scores)
    && (forall id :: id in scores ==> exists r :: Reported(tasks, run, id, r) && r.effective == scores[id])
    && (forall id :: id in scores ==> Ranked(tasks, id, scores[id]))
  }

  // Without repeated ids the map answers for each task: nothing while it has a
  // blocker, and its score of the run, near the exact one, once it has none.
  ghost predicate Answers(tasks: seq<Task>, run: Run, byID: map<int, int>)
    requires Fair(TaskNet(tasks), run)
  {
    forall i :: 0 <= i < |tasks| ==>
      && tasks[i].id in byID && tasks[i].id in Bases(tasks)
      && (tasks[i].blockedBy != [] ==> byID[tasks[i].id] == 0)
      && (tasks[i].blockedBy == [] ==> byID[tasks[i].id] == Rounds(TaskNet(tasks), Bases(tasks), run)[tasks[i].id])
      && (tasks[i].blockedBy == [] && Height(BlocksOf(tasks), tasks[i].id) <= 10 ==>
            Within(byID[tasks[i].id], Exact(TaskNet(tasks), tasks[i].id), Err(TaskNet(tasks), tasks[i].id)))
  }

  lemma ScoringAnswers(tasks: seq<Task>, run: Run, byID: map<int, int>)
    requires IsScoring(tasks, run, byID) && DistinctIds(tasks)
    ensures Answers(tasks, run, byID)
  {
    forall i | 0 <= i < |tasks|
      ensures tasks[i].id in Bases(tasks) && (tasks[i].blockedBy != [] <==> Entries(tasks)[tasks[i].id].isBlocked)
    {
      EntryIsOwn(tasks, i);
      EntryIsMadeOf(tasks[i]);
    }
  }

  // The byID map of RecalculateUnblocked.
  method EffectiveScores(tasks: seq<Task>) returns (byID: map<int, int>, ghost run: Run)
    ensures IsScoring(tasks, run, byID)
    ensures forall i :: 0 <= i < |tasks| ==> tasks[i].id in byID && Ranked(tasks, tasks[i].id, byID[tasks[i].id])
    ensures DistinctIds(tasks) ==> Answers(tasks, run, byID)
  {
    var results;
    results, run := RecalculateAll(tasks);
    byID := IndexById(results);
    forall id | id in byID
      ensures Ranked(tasks, id, byID[id]) && exists r :: Reported(tasks, run, id, r) && r.effective == byID[id]
    {
      var k :| 0 <= k < |results| && results[k].id == id && results[k].effective == byID[id];
      assert Reported(tasks, run, tasks[k].id, results[k]);
    }
    forall i | 0 <= i < |tasks| ensures tasks[i].id in byID {
      assert Reported(tasks, run, tasks[i].id, results[i]);
    }
    if DistinctIds(tasks) {
      ScoringAnswers(tasks, run, byID);
    }
  }

  method IndexById(results: seq<Result>) returns (byID: map<int, int>)
    ensures forall i :: 0 <= i < |results| ==> results[i].id in byID
    ensures forall id :: id in byID ==>
      exists k :: 0 <= k < |results| && results[k].id == id && results[k].effective == byID[id]
  {
    byID := map[];
    for i := 0 to |results|
      invariant forall j :: 0 <= j < i ==> results[j].id in byID
      invariant forall id :: id in byID ==>
        exists k :: 0 <= k < i && results[k].id == id && results[k].effective == byID[id]
    {
      byID := byID[results[i].id := results[i].effective];
    }
  }
}
