// What an update leaves in the tables, told on the nine columns themselves.
module UpdateOutcome {
  import opened Text
  import opened Tasks
  import opened Updates
  import opened Merging
  import opened Lifecycle
  import opened Undo

  // The names the client sends and the trail keeps.
  function ColumnName(f: Field): string {
    match f
    case BusinessValue => "business_value"
    case Mode => "mode"
    case Note => "note"
    case Owner => "owner"
    case ParentTaskId => "parent_task_id"
    case Spec => "spec"
    case TaskPlan => "task_plan"
    case Title => "title"
    case Why => "why"
    case Other(name) => name
  }

  // The text a client reads in the column of a field.
  predicate Shows(t: Task, f: Field, text: string) {
    match f
    case BusinessValue => text == t.businessValue
    case Mode => text == t.mode
    case Note => text == t.note
    case Owner => text == t.owner
    case ParentTaskId => if t.parent == None then text == "" else text == Render(t.parent.value)
    case Spec => text == t.spec
    case TaskPlan => text == t.taskPlan
    case Title => text == t.title
    case Why => text == t.why
    case Other(_) => false
  }

  predicate TextSet(before: string, after: string, updates: map<Field, string>, f: Field) {
    after == if f in updates then updates[f] else before
  }

  // The empty text clears the parent; any other text that the column does not
  // show already is read as a number.
  predicate ParentSet(t: Task, after: Option<int>, updates: map<Field, string>) {
    if ParentTaskId !in updates || Shows(t, ParentTaskId, updates[ParentTaskId]) then after == t.parent
    else if updates[ParentTaskId] == "" then after == None
    else after != None && after == ParseInt(updates[ParentTaskId])
  }

  // The listed columns hold their new texts and every other column is kept.
  predicate ColumnsSet(t: Task, t': Task, updates: map<Field, string>) {
    && TextSet(t.businessValue, t'.businessValue, updates, BusinessValue)
    && TextSet(t.mode, t'.mode, updates, Mode) && TextSet(t.note, t'.note, updates, Note)
    && TextSet(t.owner, t'.owner, updates, Owner) && TextSet(t.spec, t'.spec, updates, Spec)
    && TextSet(t.taskPlan, t'.taskPlan, updates, TaskPlan)
    && TextSet(t.title, t'.title, updates, Title) && TextSet(t.why, t'.why, updates, Why)
    && ParentSet(t, t'.parent, updates)
    && t'.status == t.status && t'.workflow == t.workflow && t'.blockedBy == t.blockedBy && t'.doneWhen == t.doneWhen
    && t'.references == t.references && t'.consumers == t.consumers && t'.tags == t.tags
    && t'.requiredReviews == t.requiredReviews && t'.closed == t.closed && t'.verified == t.verified
  }

  // A parent that differs from the shown one, is not empty and is no number.
  predicate Unreadable(t: Task, updates: map<Field, string>) {
    ParentTaskId in updates && !Shows(t, ParentTaskId, updates[ParentTaskId])
    && updates[ParentTaskId] != "" && ParseInt(updates[ParentTaskId]) == None
  }

  predicate Differs(t: Task, updates: map<Field, string>, f: Field) {
    f in updates && !Shows(t, f, updates[f])
  }

  // The note of one written field.
  predicate TellsField(row: AuditRow, id: int, agent: string, t: Task, updates: map<Field, string>, f: Field) {
    && row.task == id && row.agent == agent && row.command == "update" && row.change.FieldChange?
    && row.change.field == f && Shows(t, f, row.change.before) && f in updates && row.change.after == updates[f]
  }

  // One note for each field that differed, in the order of the names.
  ghost predicate TellsUpdate(rows: seq<AuditRow>, id: int, agent: string, t: Task, updates: map<Field, string>,
                              fs: seq<Field>) {
    && (forall f :: f in fs <==> Differs(t, updates, f))
    && (forall i, j :: 0 <= i < j < |fs| ==> TextLess(ColumnName(fs[i]), ColumnName(fs[j])))
    && |rows| == |fs| && forall i :: 0 <= i < |fs| ==> TellsField(rows[i], id, agent, t, updates, fs[i])
  }

  // ----------------------------------------------------------------- the order

  lemma NamesAscend(i: int, j: int)
    requires 0 <= i < j < |FIELDS|
    ensures TextLess(ColumnName(FIELDS[i]), ColumnName(FIELDS[j]))
  {
    var x, y := ColumnName(FIELDS[i]), ColumnName(FIELDS[j]);
    if x[0] == y[0] {
      assert x[1..][0] == 'a' && y[1..][0] == 'i';
    }
  }

  lemma {:induction false} SortedAmongAscends(changes: map<Field, string>, k: nat, i: int, j: int)
    requires k <= |FIELDS| && 0 <= i < j < |SortedAmong(changes, k)|
    ensures TextLess(ColumnName(SortedAmong(changes, k)[i]), ColumnName(SortedAmong(changes, k)[j]))
  {
    var front := SortedAmong(changes, k - 1);
    if j < |front| {
      SortedAmongAscends(changes, k - 1, i, j);
    } else {
      assert front[i] in FIELDS[..k - 1];
      var at :| 0 <= at < k - 1 && FIELDS[at] == front[i];
      NamesAscend(at, k - 1);
    }
  }

  // --------------------------------------------------------------- the columns

  lemma ShowsText(t: Task, f: Field, text: string)
    requires !f.Other?
    ensures Shows(t, f, text) <==> text == FieldText(t, f)
  {
  }

  lemma WrittenDiffer(t: Task, updates: map<Field, string>, f: Field)
    requires f.Other? ==> f !in updates
    ensures f in Written(t, updates) <==> Differs(t, updates, f)
  {
    if f.Other? {
      assert f !in Changes(t, updates);
    } else {
      WrittenIffChanged(t, updates, f);
    }
  }

  lemma DiffersIffWritten(t: Task, updates: map<Field, string>)
    requires forall f :: f in updates ==> !f.Other?
    ensures (exists f :: Differs(t, updates, f)) <==> Written(t, updates) != []
  {
    forall f ensures f in Written(t, updates) <==> Differs(t, updates, f) {
      WrittenDiffer(t, updates, f);
    }
    assert Written(t, updates) != [] ==> Written(t, updates)[0] in Written(t, updates);
  }

  lemma UpdateTells(id: int, agent: string, t: Task, updates: map<Field, string>)
    requires forall f :: f in updates ==> !f.Other?
    ensures TellsUpdate(UpdateAudit(id, agent, t, Written(t, updates), Changes(t, updates)), id, agent, t, updates,
                        Written(t, updates))
  {
    var fs, texts := Written(t, updates), Changes(t, updates);
    forall f ensures f in fs <==> Differs(t, updates, f) {
      WrittenDiffer(t, updates, f);
    }
    forall i, j | 0 <= i < j < |fs| ensures TextLess(ColumnName(fs[i]), ColumnName(fs[j])) {
      SortedAmongAscends(texts, |FIELDS|, i, j);
    }
    forall i | 0 <= i < |fs|
      ensures |UpdateAudit(id, agent, t, fs, texts)| == |fs|
      ensures TellsField(UpdateAudit(id, agent, t, fs, texts)[i], id, agent, t, updates, fs[i])
    {
      AuditKeepsOldTexts(id, agent, t, fs, texts, i);
    }
  }

  // A text column of the written row.
  lemma TextIsSet(t: Task, updates: map<Field, string>, f: Field)
    requires !f.Other? && f != ParentTaskId && UpdatedRow(t, updates).Some?
    ensures TextSet(FieldText(t, f), FieldText(UpdatedRow(t, updates).value, f), updates, f)
    ensures OtherColumns(UpdatedRow(t, updates).value) == OtherColumns(t)
  {
    WrittenIffChanged(t, updates, f);
    AppliedSetsExactly(t, Written(t, updates), Changes(t, updates), f);
  }

  // The parent is the one column whose text may be refused.
  predicate ParentReads(t: Task, g: Field, text: string, r: Option<Task>) {
    if g != ParentTaskId then r != None && r.value.parent == t.parent
    else if text == "" then r != None && r.value.parent == None
    else if ParseInt(text) == None then r == None
    else r != None && r.value.parent == ParseInt(text)
  }

  lemma ParentOfField(t: Task, g: Field, text: string)
    requires !g.Other?
    ensures ParentReads(t, g, text, WithField(t, g, text))
  {
  }

  lemma {:induction false} ParentOfApplied(t: Task, fs: seq<Field>, texts: map<Field, string>)
    requires forall g :: g in fs ==> g in texts && !g.Other?
    requires forall i, j :: 0 <= i < j < |fs| ==> fs[i] != fs[j]
    ensures if ParentTaskId in fs then ParentReads(t, ParentTaskId, texts[ParentTaskId], Applied(t, fs, texts))
            else ParentReads(t, Title, "", Applied(t, fs, texts))
  {
    if fs != [] {
      var front, last := fs[..|fs| - 1], fs[|fs| - 1];
      assert last in fs && fs == front + [last];
      ParentOfApplied(t, front, texts);
      if Applied(t, front, texts) != None {
        ParentOfField(Applied(t, front, texts).value, last, texts[last]);
      }
    }
  }

  lemma ParentIsSet(t: Task, updates: map<Field, string>)
    requires forall f :: f in updates ==> !f.Other?
    ensures UpdatedRow(t, updates) == None <==> Unreadable(t, updates)
    ensures UpdatedRow(t, updates) != None ==> ParentSet(t, UpdatedRow(t, updates).value.parent, updates)
  {
    WrittenIffChanged(t, updates, ParentTaskId);
    ShowsText(t, ParentTaskId, if ParentTaskId in updates then updates[ParentTaskId] else "");
    ParentOfApplied(t, Written(t, updates), Changes(t, updates));
  }

  lemma RowIsSet(t: Task, updates: map<Field, string>)
    requires (forall f :: f in updates ==> !f.Other?) && UpdatedRow(t, updates) != None
    ensures ColumnsSet(t, UpdatedRow(t, updates).value, updates)
  {
    ParentIsSet(t, updates);
    TextIsSet(t, updates, BusinessValue);
    TextIsSet(t, updates, Mode);
    TextIsSet(t, updates, Note);
    TextIsSet(t, updates, Owner);
    TextIsSet(t, updates, Spec);
    TextIsSet(t, updates, TaskPlan);
    TextIsSet(t, updates, Title);
    TextIsSet(t, updates, Why);
  }

  ghost predicate Updated(db: Db, db': Db, id: int, agent: string, updates: map<Field, string>)
    requires id in db.tasks
  {
    && db'.tasks.Keys == db.tasks.Keys && ColumnsSet(db.tasks[id], db'.tasks[id], updates)
    && (forall k :: k in db.tasks && k != id ==> db'.tasks[k] == db.tasks[k]) && db'.reviews == db.reviews
    && exists rows, fs :: TellsUpdate(rows, id, agent, db.tasks[id], updates, fs) && db'.audit == db.audit + rows
  }

  lemma UpdateHolds(db: Db, id: int, agent: string, updates: map<Field, string>)
    requires id in db.tasks && (forall f :: f in updates ==> !f.Other?) && !Unreadable(db.tasks[id], updates)
    ensures Updated(db, UpdateStep(db, id, agent, updates), id, agent, updates)
  {
    var t := db.tasks[id];
    var fs := Written(t, updates);
    ParentIsSet(t, updates);
    RowIsSet(t, updates);
    UpdateTells(id, agent, t, updates);
    var rows := UpdateAudit(id, agent, t, fs, Changes(t, updates));
    var db' := UpdateStep(db, id, agent, updates);
    assert db'.audit == db.audit + rows && db'.tasks == db.tasks[id := UpdatedRow(t, updates).value];
    assert TellsUpdate(rows, id, agent, t, updates, fs);
  }

  lemma OtherUpdatesStay(db: Db, id: int, agent: string, updates: map<Field, string>)
    requires id !in db.tasks || (exists f :: f in updates && f.Other?) || Unreadable(db.tasks[id], updates)
    ensures UpdateStep(db, id, agent, updates) == db
  {
    if id in db.tasks && forall f :: f in updates ==> !f.Other? {
      ParentIsSet(db.tasks[id], updates);
    }
  }

  // An update whose fields are all known and whose parent reads as a number
  // sets exactly the listed columns; any other changes nothing.
  lemma UpdateMeans(db: Db, id: int, agent: string, updates: map<Field, string>)
    ensures var db' := Step(db, Update(id, agent, updates));
            if id in db.tasks && (forall f :: f in updates ==> !f.Other?) && !Unreadable(db.tasks[id], updates)
            then Updated(db, db', id, agent, updates)
            else db' == db
  {
    assert Step(db, Update(id, agent, updates)) == UpdateStep(db, id, agent, updates);
    if id in db.tasks && (forall f :: f in updates ==> !f.Other?) && !Unreadable(db.tasks[id], updates) {
      UpdateHolds(db, id, agent, updates);
    } else {
      OtherUpdatesStay(db, id, agent, updates);
    }
  }
}
