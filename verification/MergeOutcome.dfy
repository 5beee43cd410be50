// What a merge leaves in every column of every row, and what it writes into the
// audit trail, told on the rows themselves.
module MergeOutcome {
  import opened Text
  import opened Tasks
  import opened Merging
  import opened Lifecycle

  // ------------------------------------------------------------------------ lists

  // r is the ascending list of the members of xs and ys.
  ghost predicate IsTextUnion(xs: seq<string>, ys: seq<string>, r: seq<string>) {
    Ascending(TextLess, r) && forall v :: v in r <==> v in xs || v in ys
  }

  // The items of more, each behind the prefix, that are not in s: each once, in
  // order, at its first place; at[i] is that place.
  ghost predicate Picked(s: seq<string>, prefix: string, more: seq<string>, extra: seq<string>, at: seq<nat>) {
    && |extra| == |at|
    && (forall i :: 0 <= i < |at| ==> at[i] < |more| && extra[i] == prefix + more[at[i]] && extra[i] !in s)
    && (forall i, j :: 0 <= i < j < |at| ==> at[i] < at[j] && extra[i] != extra[j])
    && (forall i, j :: 0 <= i < |at| && 0 <= j < at[i] ==> more[j] != more[at[i]])
    && (forall m :: m in more ==> prefix + m in s || prefix + m in extra)
  }

  // r is s with these items behind it.
  ghost predicate Appended(s: seq<string>, prefix: string, more: seq<string>, r: seq<string>) {
    exists extra, at :: r == s + extra && Picked(s, prefix, more, extra, at)
  }

  lemma {:induction false} AppendNewPicks(s: seq<string>, prefix: string, more: seq<string>)
    returns (extra: seq<string>, at: seq<nat>)
    ensures AppendNew(s, prefix, more) == s + extra && Picked(s, prefix, more, extra, at)
  {
    extra, at := [], [];
    if more != [] {
      var front, item := more[..|more| - 1], prefix + more[|more| - 1];
      extra, at := AppendNewPicks(s, prefix, front);
      if item in s + extra {
        PickedAgain(s, prefix, more, extra, at);
      } else {
        PickedSnoc(s, prefix, more, extra, at);
        assert s + extra + [item] == s + (extra + [item]);
        extra, at := extra + [item], at + [|more| - 1];
      }
    }
  }

  lemma PickedSnoc(s: seq<string>, prefix: string, more: seq<string>, extra: seq<string>, at: seq<nat>)
    requires more != [] && Picked(s, prefix, more[..|more| - 1], extra, at)
    requires prefix + more[|more| - 1] !in s && prefix + more[|more| - 1] !in extra
    ensures Picked(s, prefix, more, extra + [prefix + more[|more| - 1]], at + [|more| - 1])
  {
    var front := more[..|more| - 1];
    assert more == front + [more[|more| - 1]];
    forall j | 0 <= j < |front| ensures more[j] == front[j] && more[j] != more[|more| - 1] {
      assert front[j] in front;
    }
  }

  lemma PickedAgain(s: seq<string>, prefix: string, more: seq<string>, extra: seq<string>, at: seq<nat>)
    requires more != [] && Picked(s, prefix, more[..|more| - 1], extra, at)
    requires prefix + more[|more| - 1] in s || prefix + more[|more| - 1] in extra
    ensures Picked(s, prefix, more, extra, at)
  {
    var front := more[..|more| - 1];
    assert more == front + [more[|more| - 1]];
    assert forall j :: 0 <= j < |front| ==> front[j] == more[j];
  }

  // r is s with a for b, the first of equal ids kept; at[i] is the place of r[i].
  ghost predicate Replaced(s: seq<int>, a: int, b: int, r: seq<int>, at: seq<nat>) {
    && |r| == |at|
    && (forall i :: 0 <= i < |at| ==> at[i] < |s| && r[i] == if s[at[i]] == b then a else s[at[i]])
    && (forall i, j :: 0 <= i < j < |at| ==> at[i] < at[j] && r[i] != r[j])
    && (forall i, j :: 0 <= i < |at| && 0 <= j < at[i] ==> r[i] != if s[j] == b then a else s[j])
    && (forall v :: v in r <==> (v != b && v in s) || (v == a && b in s))
  }

  lemma {:induction false} RedirectedInOrder(s: seq<int>, a: int, b: int) returns (at: seq<nat>)
    requires a != b
    ensures Replaced(s, a, b, Redirected(s, a, b), at)
  {
    at := [];
    if s != [] {
      var front, last := s[..|s| - 1], s[|s| - 1];
      at := RedirectedInOrder(front, a, b);
      var r, target := Redirected(front, a, b), if last == b then a else last;
      if target in r {
        ReplacedAgain(s, a, b, r, at);
      } else {
        ReplacedSnoc(s, a, b, r, at);
        at := at + [|s| - 1];
      }
    }
  }

  lemma ReplacedSnoc(s: seq<int>, a: int, b: int, r: seq<int>, at: seq<nat>)
    requires a != b && s != [] && Replaced(s[..|s| - 1], a, b, r, at)
    requires (if s[|s| - 1] == b then a else s[|s| - 1]) !in r
    ensures Replaced(s, a, b, r + [if s[|s| - 1] == b then a else s[|s| - 1]], at + [|s| - 1])
  {
    var front := s[..|s| - 1];
    assert s == front + [s[|s| - 1]];
    assert forall j :: 0 <= j < |front| ==> front[j] == s[j] && front[j] in front;
  }

  lemma ReplacedAgain(s: seq<int>, a: int, b: int, r: seq<int>, at: seq<nat>)
    requires a != b && s != [] && Replaced(s[..|s| - 1], a, b, r, at)
    requires (if s[|s| - 1] == b then a else s[|s| - 1]) in r
    ensures Replaced(s, a, b, r, at)
  {
    var front := s[..|s| - 1];
    assert s == front + [s[|s| - 1]];
    assert forall j :: 0 <= j < |front| ==> front[j] == s[j];
  }

  // ------------------------------------------------------------------------- rows

  // The absorber: unions of blockers, consumers and tags, its own done_when and
  // references with what b adds, both notes, and nothing else.
  ghost predicate Absorbs(a: Task, b: Task, aId: int, bId: int, a': Task) {
    && Ascending(IntLess, a'.blockedBy)
    && (forall v :: v in a'.blockedBy <==> v != aId && (v in a.blockedBy || v in b.blockedBy))
    && IsTextUnion(a.consumers, b.consumers, a'.consumers)
    && IsTextUnion(a.tags, b.tags, a'.tags)
    && Appended(a.doneWhen, "(from #" + Render(bId) + ") ", b.doneWhen, a'.doneWhen)
    && Appended(a.references, "", b.references, a'.references)
    && (b.note == "" ==> a'.note == a.note)
    && (b.note != "" && a.note == "" ==> a'.note == b.note)
    && (b.note != "" && a.note != "" ==> a'.note == a.note + "\n" + b.note)
    && a'.(blockedBy := a.blockedBy, consumers := a.consumers, tags := a.tags, doneWhen := a.doneWhen,
           references := a.references, note := a.note) == a
  }

  // The whole table: the absorber; the absorbed task, superseded with a note; the
  // tasks that waited for it, with their lists redirected; and all others alike.
  ghost predicate MergesInto(tasks: map<int, Task>, tasks': map<int, Task>, a: int, b: int) {
    && a in tasks && b in tasks && a != b && tasks'.Keys == tasks.Keys
    && Absorbs(tasks[a], tasks[b], a, b, tasks'[a])
    && tasks'[b].status == SUPERSEDED && tasks'[b].note == "Merged into #" + Render(a)
    && tasks'[b].(status := tasks[b].status, note := tasks[b].note) == tasks[b]
    && forall k :: k in tasks && k != a && k != b ==>
         && tasks'[k].(blockedBy := tasks[k].blockedBy) == tasks[k]
         && (b !in tasks[k].blockedBy ==> tasks'[k].blockedBy == tasks[k].blockedBy)
         && (b in tasks[k].blockedBy ==> exists at :: Replaced(tasks[k].blockedBy, a, b, tasks'[k].blockedBy, at))
  }

  lemma AbsorberAbsorbs(a: Task, b: Task, aId: int, bId: int)
    ensures Absorbs(a, b, aId, bId, Absorber(a, b, aId, bId))
  {
    var a' := Absorber(a, b, aId, bId);
    UnionExceptIs(a.blockedBy, b.blockedBy, aId, a'.blockedBy);
    UnionTextsIs(a.consumers, b.consumers, a'.consumers);
    UnionTextsIs(a.tags, b.tags, a'.tags);
    var extra, at := AppendNewPicks(a.doneWhen, "(from #" + Render(bId) + ") ", b.doneWhen);
    extra, at := AppendNewPicks(a.references, "", b.references);
  }

  lemma MergedIsMerge(tasks: map<int, Task>, a: int, b: int)
    requires a in tasks && b in tasks && a != b
    ensures MergesInto(tasks, Merged(tasks, a, b), a, b)
  {
    var tasks' := Merged(tasks, a, b);
    AbsorberAbsorbs(tasks[a], tasks[b], a, b);
    forall k | k in tasks && k != a && k != b && b in tasks[k].blockedBy
      ensures exists at :: Replaced(tasks[k].blockedBy, a, b, tasks'[k].blockedBy, at)
    {
      var at := RedirectedInOrder(tasks[k].blockedBy, a, b);
    }
  }

  // ------------------------------------------------------------------------ trail

  predicate ChangedInts(column: string, was: seq<int>, now: seq<int>, c: Change) {
    was != now && c == IntsChange(column, was, now)
  }

  predicate ChangedTexts(column: string, was: seq<string>, now: seq<string>, c: Change) {
    was != now && c == TextsChange(column, was, now)
  }

  // The rows on the absorber are one for each column that changed, with both
  // values.
  ghost predicate TellsAbsorber(a: Task, a': Task, c: Change) {
    || ChangedInts("blocked_by", a.blockedBy, a'.blockedBy, c)
    || ChangedTexts("consumers", a.consumers, a'.consumers, c)
    || ChangedTexts("done_when", a.doneWhen, a'.doneWhen, c)
    || ChangedTexts("references", a.references, a'.references, c)
    || ChangedTexts("tags", a.tags, a'.tags, c)
    || (a.note != a'.note && c == FieldChange(Note, a.note, a'.note))
  }

  lemma NotingTells(rows: seq<AuditRow>, id: int, agent: string, changed: bool, change: Change, row: AuditRow)
    ensures row in Noting(rows, id, agent, changed, change) <==>
              row in rows || (changed && row == AuditRow(id, agent, change, "merge"))
  {
  }

  lemma AbsorberAuditTells(id: int, agent: string, t: Task, t': Task, row: AuditRow)
    ensures row in AbsorberAudit(id, agent, t, t') <==>
              row.task == id && row.agent == agent && row.command == "merge" && TellsAbsorber(t, t', row.change)
  {
    var r1 := Noting([], id, agent, t.blockedBy != t'.blockedBy, IntsChange("blocked_by", t.blockedBy, t'.blockedBy));
    var r2 := Noting(r1, id, agent, t.consumers != t'.consumers, TextsChange("consumers", t.consumers, t'.consumers));
    var r3 := Noting(r2, id, agent, t.doneWhen != t'.doneWhen, TextsChange("done_when", t.doneWhen, t'.doneWhen));
    var refs := TextsChange("references", t.references, t'.references);
    var r4 := Noting(r3, id, agent, t.references != t'.references, refs);
    var r5 := Noting(r4, id, agent, t.tags != t'.tags, TextsChange("tags", t.tags, t'.tags));
    NotingTells([], id, agent, t.blockedBy != t'.blockedBy, IntsChange("blocked_by", t.blockedBy, t'.blockedBy), row);
    NotingTells(r1, id, agent, t.consumers != t'.consumers, TextsChange("consumers", t.consumers, t'.consumers), row);
    NotingTells(r2, id, agent, t.doneWhen != t'.doneWhen, TextsChange("done_when", t.doneWhen, t'.doneWhen), row);
    NotingTells(r3, id, agent, t.references != t'.references, refs, row);
    NotingTells(r4, id, agent, t.tags != t'.tags, TextsChange("tags", t.tags, t'.tags), row);
    NotingTells(r5, id, agent, t.note != t'.note, FieldChange(Note, t.note, t'.note), row);
  }

  lemma {:induction false} DependentsAuditTells(tasks: map<int, Task>, a: int, b: int, deps: seq<int>, agent: string,
                                                row: AuditRow)
    requires a != b && forall d :: d in deps ==> d in tasks
    ensures row in DependentsAudit(tasks, a, b, deps, agent) <==>
              && row.task in deps && row.agent == agent && row.command == "merge"
              && row.change == IntsChange("blocked_by", tasks[row.task].blockedBy,
                                          Redirected(tasks[row.task].blockedBy, a, b))
  {
    if deps != [] {
      var d := deps[|deps| - 1];
      assert d in deps && deps == deps[..|deps| - 1] + [d];
      DependentsAuditTells(tasks, a, b, deps[..|deps| - 1], agent, row);
    }
  }

  // A merge adds to the trail: the rows on the absorber; for each task that
  // waited for b its old and new list; and last the status row of b.
  ghost predicate TellsMerge(tasks: map<int, Task>, tasks': map<int, Task>, a: int, b: int, agent: string,
                             delta: seq<AuditRow>)
    requires MergesInto(tasks, tasks', a, b)
  {
    && delta != []
    && delta[|delta| - 1] ==
         AuditRow(b, agent, StatusChange(Some(tasks[b].status), SUPERSEDED), "merge into #" + Render(a))
    && forall row :: row in delta[..|delta| - 1] <==>
         && row.agent == agent && row.command == "merge" && row.task in tasks && row.task != b
         && (row.task == a ==> TellsAbsorber(tasks[a], tasks'[a], row.change))
         && (row.task != a ==> b in tasks[row.task].blockedBy)
         && (row.task != a ==>
               row.change == IntsChange("blocked_by", tasks[row.task].blockedBy, tasks'[row.task].blockedBy))
  }

  lemma MergeAuditTells(db: Db, a: int, agent: string, b: int, deps: seq<int>)
    requires a in db.tasks && b in db.tasks && a != b && Lists(deps, Dependents(db.tasks, a, b))
    ensures MergesInto(db.tasks, Merged(db.tasks, a, b), a, b)
    ensures TellsMerge(db.tasks, Merged(db.tasks, a, b), a, b, agent, MergeAudit(db, a, agent, b, deps))
  {
    MergedIsMerge(db.tasks, a, b);
    var newA := Absorber(db.tasks[a], db.tasks[b], a, b);
    var first, second := AbsorberAudit(a, agent, db.tasks[a], newA), DependentsAudit(db.tasks, a, b, deps, agent);
    var delta := MergeAudit(db, a, agent, b, deps);
    assert delta[..|delta| - 1] == first + second;
    forall row ensures row in delta[..|delta| - 1] <==> row in first || row in second {
    }
    forall row
      ensures row in first <==> row.task == a && row.agent == agent && row.command == "merge"
                                && TellsAbsorber(db.tasks[a], newA, row.change)
    {
      AbsorberAuditTells(a, agent, db.tasks[a], newA, row);
    }
    forall row
      ensures row in second <==>
                && row.task in deps && row.agent == agent && row.command == "merge"
                && row.change == IntsChange("blocked_by", db.tasks[row.task].blockedBy,
                                            Redirected(db.tasks[row.task].blockedBy, a, b))
    {
      DependentsAuditTells(db.tasks, a, b, deps, agent, row);
    }
  }
}
