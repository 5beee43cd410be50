// The post-DONE rescore: RecalculateUnblocked of internal/scoring/scoring.go and
// rescoreAfterDone of internal/store/rescore.go. The blocker slices are filtered
// in place, and only the rows that moved are written back.
module Rescore {
  import opened Text
  import opened Tasks
  import opened Lifecycle
  import opened Propagation
  import Bounds
  import Scoring

  lemma {:induction false} WithoutAbsent(s: seq<int>, x: int)
    ensures Without(s, x) == s <==> x !in s
    ensures |Without(s, x)| <= |s|
  {
    if s != [] {
      WithoutAbsent(s[..|s| - 1], x);
      assert s == s[..|s| - 1] + [s[|s| - 1]];
    }
  }

  lemma {:induction false} WithoutEmpty(s: seq<int>, x: int)
    ensures Without(s, x) == [] <==> forall i :: 0 <= i < |s| ==> s[i] == x
  {
    if s != [] {
      var front := s[..|s| - 1];
      WithoutEmpty(front, x);
      assert (forall i :: 0 <= i < |s| ==> s[i] == x) ==> forall i :: 0 <= i < |front| ==> front[i] == s[i] == x;
      assert (forall i :: 0 <= i < |front| ==> front[i] == x) && s[|s| - 1] == x ==>
        forall i :: 0 <= i < |s| ==> s[i] == if i < |front| then front[i] else x;
    }
  }

  // What a rescored task writes back; the score is in points.
  datatype NewRow = NewRow(id: int, blockedBy: seq<int>, score: real)

  // One loaded task: its slice of blockers is the first `live` cells of a
  // backing array.
  class Cell {
    const task: Scoring.Task
    const buf: array<int>
    var live: nat
    var effective: int

    constructor (task: Scoring.Task)
      ensures this.task == task && Valid() && Blockers() == task.blockedBy && fresh(buf)
    {
      this.task := task;
      var b := new int[|task.blockedBy|](i requires 0 <= i < |task.blockedBy| => task.blockedBy[i]);
      buf, live, effective := b, |task.blockedBy|, 0;
    }

    ghost predicate Valid()
      reads this
    {
      live <= buf.Length
    }

    function Blockers(): (s: seq<int>)
      requires Valid()
      reads this, buf
    {
      buf[..live]
    }

    function Value(): Scoring.Task
      requires Valid()
      reads this, buf
    {
      task.(blockedBy := Blockers())
    }

    function Now(): NewRow
      requires Valid()
      reads this, buf
    {
      NewRow(task.id, Blockers(), effective as real / 10.0)
    }

    method SetEffective(byID: map<int, int>)
      modifies this`effective
      ensures effective == if task.id in byID then byID[task.id] else old(effective)
    {
      if task.id in byID {
        effective := byID[task.id];
      }
    }

    // newBlocked := BlockedBy[:0], then append what is not the closed id: reads
    // run ahead of writes in one array.
    method Drop(closed: int) returns (removed: bool)
      requires Valid()
      modifies this`live, buf
      ensures Valid() && Blockers() == Without(old(Blockers()), closed)
      ensures removed <==> closed in old(Blockers())
    {
      removed := false;
      var n, w := live, 0;
      ghost var was := buf[..n];
      for r := 0 to n
        invariant 0 <= w <= r && live == n <= buf.Length
        invariant buf[..w] == Without(was[..r], closed)
        invariant forall k :: r <= k < n ==> buf[k] == was[k]
        invariant removed <==> closed in was[..r]
        invariant !removed ==> w == r
      {
        assert was[..r + 1][..r] == was[..r] && was[..r + 1] == was[..r] + [was[r]];
        ghost var kept := buf[..w];
        if buf[r] == closed {
          removed := true;
        } else {
          buf[w] := buf[r];
          w := w + 1;
          assert buf[..w] == kept + [was[r]];
        }
      }
      assert was[..n] == was;
      WithoutAbsent(was, closed);
      if removed {
        live := w;
      }
    }
  }

  // The cells hold these tasks, each in an array of its own; everything lies in
  // the footprint.
  ghost predicate Holds(cells: seq<Cell>, footprint: set<object>, tasks: seq<Scoring.Task>)
    reads footprint
  {
    && |cells| == |tasks|
    && (forall i, j :: 0 <= i < j < |cells| ==> cells[i] != cells[j] && cells[i].buf != cells[j].buf)
    && (forall i :: 0 <= i < |cells| ==> cells[i] in footprint && cells[i].buf in footprint)
    && (forall i :: 0 <= i < |cells| ==> cells[i].Valid() && cells[i].Value() == tasks[i])
  }

  // ------------------------------------------------------- RecalculateUnblocked

  // The ids of the tasks whose list loses its last entry, in order.
  function FreedIds(tasks: seq<Scoring.Task>, closed: int): seq<int> {
    if tasks == [] then [] else
      var front, t := FreedIds(tasks[..|tasks| - 1], closed), tasks[|tasks| - 1];
      if closed in t.blockedBy && Without(t.blockedBy, closed) == [] then front + [t.id] else front
  }

  // They are the tasks that were blocked by the closed task and by nothing else.
  lemma {:induction false} FreedWereBlockedOnlyByClosed(tasks: seq<Scoring.Task>, closed: int, id: int)
    ensures id in FreedIds(tasks, closed) <==>
      exists t :: t in tasks && t.id == id && t.blockedBy != [] &&
                  forall i :: 0 <= i < |t.blockedBy| ==> t.blockedBy[i] == closed
  {
    if tasks != [] {
      var front, last := tasks[..|tasks| - 1], tasks[|tasks| - 1];
      FreedWereBlockedOnlyByClosed(front, closed, id);
      WithoutEmpty(last.blockedBy, closed);
      WithoutAbsent(last.blockedBy, closed);
      assert tasks == front + [last];
    }
  }

  // In the order of the tasks, each at most once.
  lemma {:induction false} FreedInOrder(tasks: seq<Scoring.Task>, closed: int) returns (at: seq<nat>)
    ensures |at| == |FreedIds(tasks, closed)|
    ensures forall i :: 0 <= i < |at| ==> at[i] < |tasks| && FreedIds(tasks, closed)[i] == tasks[at[i]].id
    ensures forall i, j :: 0 <= i < j < |at| ==> at[i] < at[j]
  {
    at := [];
    if tasks != [] {
      var front, last := tasks[..|tasks| - 1], tasks[|tasks| - 1];
      at := FreedInOrder(front, closed);
      if closed in last.blockedBy && Without(last.blockedBy, closed) == [] {
        at := at + [|tasks| - 1];
      }
    }
  }

  // The tasks once the first k lists are filtered.
  function DroppedUpTo(tasks: seq<Scoring.Task>, closed: int, k: nat): (r: seq<Scoring.Task>)
    ensures |r| == |tasks|
    ensures forall i :: 0 <= i < |r| ==>
      r[i] == if i < k then tasks[i].(blockedBy := Without(tasks[i].blockedBy, closed)) else tasks[i]
  {
    seq(|tasks|, i requires 0 <= i < |tasks| =>
      if i < k then tasks[i].(blockedBy := Without(tasks[i].blockedBy, closed)) else tasks[i])
  }

  function Dropped(tasks: seq<Scoring.Task>, closed: int): seq<Scoring.Task> {
    DroppedUpTo(tasks, closed, |tasks|)
  }

  // Filtering one slice leaves the others alone.
  method DropNext(closed: int, cells: seq<Cell>, ghost footprint: set<object>, ghost was: seq<Scoring.Task>, i: nat)
    returns (freed: bool)
    requires i < |cells| && Holds(cells, footprint, DroppedUpTo(was, closed, i))
    modifies cells[i], cells[i].buf
    ensures Holds(cells, footprint, DroppedUpTo(was, closed, i + 1))
    ensures freed <==> closed in was[i].blockedBy && Without(was[i].blockedBy, closed) == []
  {
    ghost var before := DroppedUpTo(was, closed, i);
    assert cells[i].Value() == before[i] == was[i];
    var removed := cells[i].Drop(closed);
    freed := removed && cells[i].live == 0;
    forall j | 0 <= j < |cells| && j != i ensures cells[j].Valid() && cells[j].Value() == before[j] {
      assert cells[j].buf != cells[i].buf && cells[j] != cells[i];
    }
  }

  method DropAll(closed: int, cells: seq<Cell>, ghost footprint: set<object>, ghost was: seq<Scoring.Task>)
    returns (unblocked: seq<int>)
    requires Holds(cells, footprint, was)
    modifies footprint
    ensures Holds(cells, footprint, Dropped(was, closed))
    ensures unblocked == FreedIds(was, closed)
  {
    unblocked := [];
    assert DroppedUpTo(was, closed, 0) == was;
    for i := 0 to |cells|
      invariant Holds(cells, footprint, DroppedUpTo(was, closed, i))
      invariant unblocked == FreedIds(was[..i], closed)
    {
      FreedSnoc(was, closed, i);
      var freed := DropNext(closed, cells, footprint, was, i);
      if freed {
        unblocked := unblocked + [cells[i].task.id];
      }
    }
    assert was[..|cells|] == was;
  }

  lemma FreedSnoc(tasks: seq<Scoring.Task>, closed: int, i: nat)
    requires i < |tasks|
    ensures FreedIds(tasks[..i + 1], closed) ==
      if closed in tasks[i].blockedBy && Without(tasks[i].blockedBy, closed) == [] then
        FreedIds(tasks[..i], closed) + [tasks[i].id]
      else FreedIds(tasks[..i], closed)
  {
    assert tasks[..i + 1][..i] == tasks[..i];
  }

  // The argument of RecalculateAll.
  method Read(cells: seq<Cell>, ghost footprint: set<object>, ghost now: seq<Scoring.Task>)
    returns (tasks: seq<Scoring.Task>)
    requires Holds(cells, footprint, now)
    ensures tasks == now
  {
    tasks := [];
    for i := 0 to |cells|
      invariant tasks == now[..i]
    {
      tasks := tasks + [cells[i].Value()];
    }
  }

  // Every cell has the score of its id.
  ghost predicate Scored(cells: seq<Cell>, footprint: set<object>, tasks: seq<Scoring.Task>, scores: map<int, int>)
    reads footprint
  {
    && Holds(cells, footprint, tasks)
    && forall i :: 0 <= i < |cells| ==> tasks[i].id in scores && cells[i].effective == scores[tasks[i].id]
  }

  method WriteScores(cells: seq<Cell>, ghost footprint: set<object>, byID: map<int, int>,
                     ghost tasks: seq<Scoring.Task>)
    requires Holds(cells, footprint, tasks) && forall i :: 0 <= i < |tasks| ==> tasks[i].id in byID
    modifies footprint
    ensures Scored(cells, footprint, tasks, byID)
  {
    for i := 0 to |cells|
      invariant Holds(cells, footprint, tasks)
      invariant forall j :: 0 <= j < i ==> cells[j].effective == byID[tasks[j].id]
    {
      assert cells[i].Value() == tasks[i];
      cells[i].SetEffective(byID);
      forall j | 0 <= j < |cells| ensures cells[j].Valid() && cells[j].Value() == tasks[j] {
      }
    }
  }

  method RecalculateUnblocked(closed: int, cells: seq<Cell>, ghost footprint: set<object>, ghost was: seq<Scoring.Task>)
    returns (unblocked: seq<int>, ghost run: Run, ghost scores: map<int, int>)
    requires Holds(cells, footprint, was)
    modifies footprint
    ensures Scored(cells, footprint, Dropped(was, closed), scores)
    ensures unblocked == FreedIds(was, closed)
    ensures Scoring.IsScoring(Dropped(was, closed), run, scores)
  {
    unblocked := DropAll(closed, cells, footprint, was);
    var tasks := Read(cells, footprint, Dropped(was, closed));
    var byID;
    byID, run := Scoring.EffectiveScores(tasks);
    scores := byID;
    WriteScores(cells, footprint, byID, tasks);
  }

  // --------------------------------------------------------- rescoreAfterDone

  datatype Row = Row(status: Status, task: Scoring.Task, score: real)

  type Table = map<int, Row>

  // floatEq with eps 0.001.
  predicate FloatEq(a: real, b: real) {
    -0.001 <= a - b <= 0.001
  }

  predicate Moved(row: Row, s: NewRow) {
    row.task.blockedBy != s.blockedBy || !FloatEq(row.score, s.score)
  }

  function Write(table: Table, s: NewRow): Table {
    if s.id in table then
      table[s.id := table[s.id].(task := table[s.id].task.(blockedBy := s.blockedBy), score := s.score)]
    else table
  }

  function Persist(table: Table, rows: seq<NewRow>): Table {
    if rows == [] then table else Write(Persist(table, rows[..|rows| - 1]), rows[|rows| - 1])
  }

  // Only the rows that moved against the loaded table.
  function ChangedRows(table: Table, rows: seq<NewRow>): (r: seq<NewRow>)
    ensures forall s :: s in r ==> s in rows
  {
    if rows == [] then [] else
      var front, last := ChangedRows(table, rows[..|rows| - 1]), rows[|rows| - 1];
      assert rows == rows[..|rows| - 1] + [last];
      if last.id in table && Moved(table[last.id], last) then front + [last] else front
  }

  // A row is written back exactly when its list differs or its score moved by
  // more than 0.001.
  lemma {:induction false} ChangedRowsMoved(table: Table, rows: seq<NewRow>, s: NewRow)
    ensures s in ChangedRows(table, rows) <==>
              && s in rows && s.id in table
              && (s.blockedBy != table[s.id].task.blockedBy || s.score - table[s.id].score > 0.001
                  || table[s.id].score - s.score > 0.001)
  {
    if rows != [] {
      ChangedRowsMoved(table, rows[..|rows| - 1], s);
      assert rows == rows[..|rows| - 1] + [rows[|rows| - 1]];
    }
  }

  ghost predicate DistinctIds(rows: seq<NewRow>) {
    forall i, j :: 0 <= i < j < |rows| ==> rows[i].id != rows[j].id
  }

  lemma {:induction false} PersistElsewhere(table: Table, rows: seq<NewRow>, id: int)
    requires forall s :: s in rows ==> s.id != id
    ensures id in Persist(table, rows) <==> id in table
    ensures id in table ==> Persist(table, rows)[id] == table[id]
  {
    if rows != [] {
      assert rows[|rows| - 1] in rows;
      PersistElsewhere(table, rows[..|rows| - 1], id);
    }
  }

  lemma {:induction false} PersistKeys(table: Table, rows: seq<NewRow>)
    ensures Persist(table, rows).Keys == table.Keys
  {
    if rows != [] {
      PersistKeys(table, rows[..|rows| - 1]);
    }
  }

  lemma PersistSnoc(table: Table, rows: seq<NewRow>, s: NewRow)
    ensures Persist(table, rows + [s]) == Write(Persist(table, rows), s)
  {
  }

  // The same row, up to 0.001 in the score.
  ghost predicate Alike(part: Table, full: Table, id: int) {
    && id in part && id in full
    && part[id].status == full[id].status && part[id].task == full[id].task
    && -0.001 <= part[id].score - full[id].score <= 0.001
  }

  lemma OneMoreRow(table: Table, part: Table, full: Table, last: NewRow, id: int)
    requires id in table && Alike(part, full, id)
    requires last.id == id ==> part[id] == table[id] == full[id]
    requires last.id in part <==> last.id in table
    ensures Alike(if last.id in table && Moved(table[last.id], last) then Write(part, last) else part,
                  Write(full, last), id)
  {
  }

  // Writing back just the rows that moved leaves the table that writing all of
  // them would: the same blocker lists, and scores within 0.001.
  lemma {:induction false} PartialPersistIsEnough(table: Table, rows: seq<NewRow>, id: int)
    requires DistinctIds(rows) && id in table
    ensures Alike(Persist(table, ChangedRows(table, rows)), Persist(table, rows), id)
  {
    if rows != [] {
      var front, last := rows[..|rows| - 1], rows[|rows| - 1];
      var changed := ChangedRows(table, front);
      PartialPersistIsEnough(table, front, id);
      if last.id == id {
        forall s | s in front ensures s.id != id {
          var k :| 0 <= k < |front| && front[k] == s;
          assert rows[k] == s;
        }
        PersistElsewhere(table, front, id);
        PersistElsewhere(table, changed, id);
      }
      PersistSnoc(table, changed, last);
      PersistKeys(table, changed);
      assert last.id in Persist(table, changed) <==> last.id in table;
      OneMoreRow(table, Persist(table, changed), Persist(table, front), last, id);
    }
  }

  // Every row that is written has the new values.
  lemma {:induction false} PersistAt(table: Table, rows: seq<NewRow>, i: nat)
    requires DistinctIds(rows) && i < |rows| && rows[i].id in table
    ensures rows[i].id in Persist(table, rows)
    ensures var old', new' := table[rows[i].id], Persist(table, rows)[rows[i].id];
            new' == old'.(task := old'.task.(blockedBy := rows[i].blockedBy), score := rows[i].score)
  {
    var front, last := rows[..|rows| - 1], rows[|rows| - 1];
    if i < |front| {
      PersistAt(table, front, i);
      assert last.id != rows[i].id;
    } else {
      forall s | s in front ensures s.id != last.id {
        var k :| 0 <= k < |front| && front[k] == s;
        assert rows[k] == s;
      }
      PersistElsewhere(table, front, last.id);
    }
  }

  // ---------------------------------------------------- the batch statement

  datatype Param = IdParam(id: int) | ScoreParam(score: real) | ListParam(list: seq<int>)

  // One row of the VALUES list: the positions of its three parameters.
  datatype ValuesRow = ValuesRow(idAt: nat, scoreAt: nat, listAt: nat)

  predicate ReadsAs(v: ValuesRow, args: seq<Param>, s: NewRow) {
    && 1 <= v.idAt <= |args| && args[v.idAt - 1] == IdParam(s.id)
    && 1 <= v.scoreAt <= |args| && args[v.scoreAt - 1] == ScoreParam(s.score)
    && 1 <= v.listAt <= |args| && args[v.listAt - 1] == ListParam(s.blockedBy)
  }

  // UPDATE ... FROM (VALUES ...): each row of the list updates the row with its
  // id. Values of the wrong kind make the database reject the statement.
  function ExecuteBatch(values: seq<ValuesRow>, args: seq<Param>, table: Table): Option<Table> {
    if values == [] then Some(table) else
      var before, v := ExecuteBatch(values[..|values| - 1], args, table), values[|values| - 1];
      if before.Some? && 1 <= v.idAt <= |args| && 1 <= v.scoreAt <= |args| && 1 <= v.listAt <= |args|
         && args[v.idAt - 1].IdParam? && args[v.scoreAt - 1].ScoreParam? && args[v.listAt - 1].ListParam? then
        Some(Write(before.value, NewRow(args[v.idAt - 1].id, args[v.listAt - 1].list, args[v.scoreAt - 1].score)))
      else None
  }

  lemma {:induction false} BatchPersists(values: seq<ValuesRow>, args: seq<Param>, rows: seq<NewRow>, table: Table)
    requires |values| == |rows| && forall i :: 0 <= i < |rows| ==> ReadsAs(values[i], args, rows[i])
    ensures ExecuteBatch(values, args, table) == Some(Persist(table, rows))
  {
    if rows != [] {
      BatchPersists(values[..|values| - 1], args, rows[..|rows| - 1], table);
      assert ReadsAs(values[|rows| - 1], args, rows[|rows| - 1]);
    }
  }

  // updateScoresBatch: row i takes the parameters 3i+1, 3i+2 and 3i+3.
  method UpdateScoresBatch(rows: seq<NewRow>, table: Table) returns (written: Option<Table>)
    ensures written == Some(Persist(table, rows))
  {
    if |rows| == 0 {
      return Some(table);
    }
    var values: seq<ValuesRow>, args: seq<Param> := [], [];
    for i := 0 to |rows|
      invariant |values| == i && |args| == 3 * i
      invariant forall j :: 0 <= j < i ==> ReadsAs(values[j], args, rows[j])
    {
      values := values + [ValuesRow(i * 3 + 1, i * 3 + 2, i * 3 + 3)];
      args := args + [IdParam(rows[i].id), ScoreParam(rows[i].score), ListParam(rows[i].blockedBy)];
    }
    BatchPersists(values, args, rows, table);
    written := ExecuteBatch(values, args, table);
  }

  // ------------------------------------------------------- the whole operation

  // What the SELECT returns, in its order: the active tasks but the closed one.
  ghost predicate Selects(table: Table, closed: int, ids: seq<int>) {
    && (forall i, j :: 0 <= i < j < |ids| ==> ids[i] < ids[j])
    && (forall i :: 0 <= i < |ids| ==> ids[i] in table && Active(table[ids[i]].status) && ids[i] != closed)
    && (forall id :: id in table && Active(table[id].status) && id != closed ==> id in ids)
  }

  ghost predicate KeyedById(table: Table) {
    forall id :: id in table ==> table[id].task.id == id
  }

  // The SELECT leaves out the client, the capability and the impact dial.
  function AsLoaded(t: Scoring.Task): Scoring.Task {
    t.(hasClient := false, capabilityStatus := None, impact := None)
  }

  function LoadedTasks(table: Table, ids: seq<int>): (ts: seq<Scoring.Task>)
    requires forall i :: 0 <= i < |ids| ==> ids[i] in table
    ensures |ts| == |ids| && forall i :: 0 <= i < |ts| ==> ts[i] == AsLoaded(table[ids[i]].task)
    ensures forall i :: 0 <= i < |ts| ==>
              !ts[i].hasClient && ts[i].capabilityStatus == None && ts[i].impact == None
    ensures forall i :: 0 <= i < |ts| ==> var t := table[ids[i]].task;
              ts[i].(hasClient := t.hasClient, capabilityStatus := t.capabilityStatus, impact := t.impact) == t
  {
    seq(|ids|, i requires 0 <= i < |ids| => AsLoaded(table[ids[i]].task))
  }

  method Load(table: Table, ids: seq<int>) returns (cells: seq<Cell>, ghost footprint: set<object>)
    requires forall i :: 0 <= i < |ids| ==> ids[i] in table
    ensures Holds(cells, footprint, LoadedTasks(table, ids)) && fresh(footprint)
  {
    cells, footprint := [], {};
    for i := 0 to |ids|
      invariant Holds(cells, footprint, LoadedTasks(table, ids)[..i]) && fresh(footprint)
    {
      var cell := new Cell(AsLoaded(table[ids[i]].task));
      cells, footprint := cells + [cell], footprint + {cell, cell.buf};
    }
  }

  method IntSliceEqual(a: seq<int>, b: seq<int>) returns (equal: bool)
    ensures equal <==> a == b
  {
    if |a| != |b| {
      return false;
    }
    for i := 0 to |a|
      invariant a[..i] == b[..i]
    {
      if a[i] != b[i] {
        return false;
      }
    }
    equal := true;
  }

  function NewRows(was: seq<Scoring.Task>, closed: int, scores: map<int, int>): (rows: seq<NewRow>)
    requires forall i :: 0 <= i < |was| ==> was[i].id in scores
    ensures |rows| == |was|
    ensures forall i :: 0 <= i < |rows| ==>
      rows[i] == NewRow(was[i].id, Without(was[i].blockedBy, closed), scores[was[i].id] as real / 10.0)
  {
    seq(|was|, i requires 0 <= i < |was| =>
      NewRow(was[i].id, Without(was[i].blockedBy, closed), scores[was[i].id] as real / 10.0))
  }

  lemma ChangedSnoc(table: Table, rows: seq<NewRow>, i: nat)
    requires i < |rows| && rows[i].id in table
    ensures ChangedRows(table, rows[..i + 1]) ==
              if Moved(table[rows[i].id], rows[i]) then ChangedRows(table, rows[..i]) + [rows[i]]
              else ChangedRows(table, rows[..i])
  {
    assert rows[..i + 1][..i] == rows[..i];
  }

  method ReadBack(cells: seq<Cell>, ghost footprint: set<object>, ghost was: seq<Scoring.Task>, closed: int,
                  ghost scores: map<int, int>, i: nat)
    returns (now: NewRow)
    requires Scored(cells, footprint, Dropped(was, closed), scores) && i < |cells|
    requires forall k :: 0 <= k < |was| ==> was[k].id in scores
    ensures now == NewRows(was, closed, scores)[i]
  {
    assert cells[i].Value() == Dropped(was, closed)[i];
    now := cells[i].Now();
  }

  // Only what moved against the loaded score and list is kept.
  method CollectChanged(table: Table, cells: seq<Cell>, ghost footprint: set<object>, ghost was: seq<Scoring.Task>,
                        closed: int, ghost scores: map<int, int>)
    returns (changed: seq<NewRow>)
    requires Scored(cells, footprint, Dropped(was, closed), scores)
    requires forall i :: 0 <= i < |was| ==> was[i].id in scores && was[i].id in table
    ensures changed == ChangedRows(table, NewRows(was, closed, scores))
  {
    changed := [];
    ghost var rows := NewRows(was, closed, scores);
    for i := 0 to |cells|
      invariant changed == ChangedRows(table, rows[..i])
    {
      var now := ReadBack(cells, footprint, was, closed, scores, i);
      ChangedSnoc(table, rows, i);
      var same := IntSliceEqual(now.blockedBy, table[now.id].task.blockedBy);
      if !same || !FloatEq(table[now.id].score, now.score) {
        changed := changed + [now];
      }
    }
    assert rows[..|cells|] == rows;
  }

  // A loaded row has lost the closed id and nothing else from its list, and has
  // its score up to 0.001; any other row is untouched.
  ghost predicate Rescored(before: Table, after: Table, closed: int, ids: seq<int>, scores: map<int, int>, id: int) {
    && id in before && id in after
    && if id in ids then
         && id in scores && -0.001 <= after[id].score - scores[id] as real / 10.0 <= 0.001
         && after[id].status == before[id].status
         && after[id].task == before[id].task.(blockedBy := Without(before[id].task.blockedBy, closed))
       else after[id] == before[id]
  }

  // What the table says of a loaded row afterwards: about zero while blockers
  // remain on its list; else, in points, about its score of the run, which is
  // near the exact one among the tasks that were loaded.
  ghost predicate Stored(tasks: seq<Scoring.Task>, run: Run, id: int, row: Row)
    requires Fair(Scoring.TaskNet(tasks), run)
  {
    var net := Scoring.TaskNet(tasks);
    && id in net.base
    && (row.task.blockedBy != [] ==> -0.001 <= row.score <= 0.001)
    && (row.task.blockedBy == [] ==> -0.01 <= 10.0 * row.score - Rounds(net, net.base, run)[id] as real <= 0.01)
    && (row.task.blockedBy == [] && net.rank[id] <= 10 ==>
          && 10.0 * row.score - Bounds.Exact(net, id) as real <= Bounds.Err(net, id) + 0.01
          && Bounds.Exact(net, id) as real - 10.0 * row.score <= Bounds.Err(net, id) + 0.01)
  }

  method RescoreRows(table: Table, closed: int, ids: seq<int>)
    returns (changed: seq<NewRow>, ghost run: Run, ghost scores: map<int, int>)
    requires KeyedById(table) && Selects(table, closed, ids)
    ensures forall i :: 0 <= i < |ids| ==> LoadedTasks(table, ids)[i].id in scores
    ensures changed == ChangedRows(table, NewRows(LoadedTasks(table, ids), closed, scores))
    ensures Scoring.IsScoring(Dropped(LoadedTasks(table, ids), closed), run, scores)
  {
    var cells;
    ghost var footprint;
    cells, footprint := Load(table, ids);
    var unblocked;
    unblocked, run, scores := RecalculateUnblocked(closed, cells, footprint, LoadedTasks(table, ids));
    changed := CollectChanged(table, cells, footprint, LoadedTasks(table, ids), closed, scores);
  }

  method RescoreAfterDone(table: Table, closed: int, ids: seq<int>)
    returns (table': Table, ghost run: Run, ghost scores: map<int, int>)
    requires KeyedById(table) && Selects(table, closed, ids)
    ensures Scoring.IsScoring(Dropped(LoadedTasks(table, ids), closed), run, scores)
    ensures table'.Keys == table.Keys && forall id :: id in table ==> Rescored(table, table', closed, ids, scores, id)
    ensures forall id :: id in table ==>
              if id in ids then Stored(Dropped(LoadedTasks(table, ids), closed), run, id, table'[id])
              else table'[id] == table[id]
  {
    var changed;
    changed, run, scores := RescoreRows(table, closed, ids);
    var written := UpdateScoresBatch(changed, table);
    table' := written.value;
    PersistKeys(table, changed);
    forall id | id in table ensures Rescored(table, table', closed, ids, scores, id) {
      ChangedRowsRescore(table, closed, ids, scores, id);
    }
    forall id | id in table && id in ids
      ensures Stored(Dropped(LoadedTasks(table, ids), closed), run, id, table'[id])
    {
      assert Rescored(table, table', closed, ids, scores, id);
      RescoredIsStored(table, table', closed, ids, run, scores, id);
    }
  }

  lemma LoadedIdsAreDistinct(table: Table, closed: int, ids: seq<int>)
    requires KeyedById(table) && Selects(table, closed, ids)
    ensures Scoring.DistinctIds(Dropped(LoadedTasks(table, ids), closed))
    ensures forall i :: 0 <= i < |ids| ==> Dropped(LoadedTasks(table, ids), closed)[i].id == ids[i]
    ensures forall i :: 0 <= i < |ids| ==>
              Dropped(LoadedTasks(table, ids), closed)[i].blockedBy == Without(table[ids[i]].task.blockedBy, closed)
  {
  }

  lemma RescoredIsStored(table: Table, table': Table, closed: int, ids: seq<int>, run: Run, scores: map<int, int>,
                         id: int)
    requires KeyedById(table) && Selects(table, closed, ids) && id in ids
    requires Scoring.IsScoring(Dropped(LoadedTasks(table, ids), closed), run, scores)
    requires Rescored(table, table', closed, ids, scores, id)
    ensures Stored(Dropped(LoadedTasks(table, ids), closed), run, id, table'[id])
  {
    var tasks := Dropped(LoadedTasks(table, ids), closed);
    LoadedIdsAreDistinct(table, closed, ids);
    Scoring.ScoringAnswers(tasks, run, scores);
    var i :| 0 <= i < |ids| && ids[i] == id;
    assert tasks[i].id == id;
  }

  lemma ChangedRowsRescore(table: Table, closed: int, ids: seq<int>, scores: map<int, int>, id: int)
    requires KeyedById(table) && Selects(table, closed, ids) && id in table
    requires forall i :: 0 <= i < |ids| ==> ids[i] in table
    requires forall i :: 0 <= i < |ids| ==> LoadedTasks(table, ids)[i].id in scores
    ensures var rows := NewRows(LoadedTasks(table, ids), closed, scores);
            Rescored(table, Persist(table, ChangedRows(table, rows)), closed, ids, scores, id)
  {
    var rows := NewRows(LoadedTasks(table, ids), closed, scores);
    assert forall i :: 0 <= i < |ids| ==> rows[i].id == ids[i];
    if id in ids {
      var i :| 0 <= i < |ids| && ids[i] == id;
      PersistAt(table, rows, i);
      PartialPersistIsEnough(table, rows, id);
    } else {
      forall s | s in rows ensures s.id != id {
        var k :| 0 <= k < |rows| && rows[k] == s;
        assert ids[k] in ids;
      }
      PersistElsewhere(table, ChangedRows(table, rows), id);
    }
  }

  // The lists it leaves are those the task store promises after a DONE.
  lemma RescoreUnblocks(tasks: map<int, Task>, before: Table, after: Table, closed: int, ids: seq<int>,
                        scores: map<int, int>, id: int)
    requires before.Keys == tasks.Keys && Selects(before, closed, ids)
    requires forall k :: k in tasks ==>
               before[k].status == tasks[k].status && before[k].task.blockedBy == tasks[k].blockedBy
    requires Rescored(before, after, closed, ids, scores, id)
    ensures after[id].task.blockedBy == Unblocked(tasks, closed)[id].blockedBy
  {
  }
}
