// Undoing an update: a second update with the old values of the audit trail
// brings the table back.
module Undo {
  import opened Text
  import opened Tasks
  import opened Updates
  import opened Lifecycle

  lemma WrittenIffChanged(t: Task, updates: map<Field, string>, f: Field)
    requires !f.Other?
    ensures f in Written(t, updates) <==> f in updates && FieldText(t, f) != updates[f]
  {
    assert f in FIELDS by {
      assert FIELDS[0] == BusinessValue && FIELDS[1] == Mode && FIELDS[2] == Note && FIELDS[3] == Owner
             && FIELDS[4] == ParentTaskId && FIELDS[5] == Spec && FIELDS[6] == TaskPlan
             && FIELDS[7] == Title && FIELDS[8] == Why;
    }
    assert FIELDS[..|FIELDS|] == FIELDS;
  }

  // Every old text of a row reads back as itself.
  lemma OldTextsAreStored(t: Task, f: Field)
    requires t.parent.Some? ==> -0x8000_0000 <= t.parent.value < 0x8000_0000
    ensures Stored(f, FieldText(t, f)) == FieldText(t, f)
    ensures f == ParentTaskId && FieldText(t, f) != "" ==> ParseInt(FieldText(t, f)).Some?
  {
    if t.parent.Some? {
      ParseRendered(t.parent.value);
    }
  }

  // The row comes back, although the second update writes only what differs.
  lemma RowIsRestored(t: Task, t': Task, fs: seq<Field>, texts: map<Field, string>)
    requires forall g :: g in fs ==> g in texts && !g.Other?
    requires forall i, j :: 0 <= i < j < |fs| ==> fs[i] != fs[j]
    requires t.parent.Some? ==> -0x8000_0000 <= t.parent.value < 0x8000_0000
    requires Applied(t, fs, texts) == Some(t')
    ensures var changes := Changes(t', OldTexts(t, fs));
            Applied(t', SortedFields(changes), changes) == Some(t)
  {
    var olds := OldTexts(t, fs);
    var changes := Changes(t', olds);
    var back := SortedFields(changes);
    OldTextsAreStored(t, ParentTaskId);
    AppliedSetsExactly(t', back, changes, Why);
    AppliedSetsExactly(t, fs, texts, Why);
    var r := Applied(t', back, changes).value;
    forall f: Field | !f.Other? ensures FieldText(t, f) == FieldText(r, f) {
      AppliedSetsExactly(t, fs, texts, f);
      AppliedSetsExactly(t', back, changes, f);
      WrittenIffChanged(t', olds, f);
      OldTextsAreStored(t, f);
    }
    RowsAgree(t, r);
  }

  // The trail has one row for each field that was written, in order, with its
  // old text.
  lemma {:induction false} AuditKeepsOldTexts(id: int, agent: string, t: Task, fs: seq<Field>, texts: map<Field,
      string>, i: nat)
    requires i < |fs| && forall f :: f in fs ==> f in texts
    ensures |UpdateAudit(id, agent, t, fs, texts)| == |fs| && fs[i] in OldTexts(t, fs)
    ensures UpdateAudit(id, agent, t, fs, texts)[i]
         == AuditRow(id, agent, FieldChange(fs[i], OldTexts(t, fs)[fs[i]], texts[fs[i]]), "update")
  {
    var k := |fs| - 1;
    if i < k {
      AuditKeepsOldTexts(id, agent, t, fs[..k], texts, i);
    } else if k > 0 {
      AuditKeepsOldTexts(id, agent, t, fs[..k], texts, 0);
    }
  }

  // What an update does to the table, whether or not it finds anything to write.
  lemma UpdateSetsRow(db: Db, id: int, agent: string, updates: map<Field, string>, row: Task)
    requires id in db.tasks && forall f :: f in updates ==> !f.Other?
    requires Applied(db.tasks[id], Written(db.tasks[id], updates), Changes(db.tasks[id], updates)) == Some(row)
    ensures UpdateStep(db, id, agent, updates).tasks == db.tasks[id := row]
  {
  }

  lemma UpdateWroteRow(db: Db, id: int, agent: string, updates: map<Field, string>) returns (row: Task)
    requires UpdateStep(db, id, agent, updates) != db
    ensures id in db.tasks
    ensures Applied(db.tasks[id], Written(db.tasks[id], updates), Changes(db.tasks[id], updates)) == Some(row)
    ensures UpdateStep(db, id, agent, updates).tasks == db.tasks[id := row]
  {
    row := UpdateStep(db, id, agent, updates).tasks[id];
  }

  // Whatever an update wrote, updating again with the old values it audited
  // restores the whole table of tasks.
  lemma UpdateStepIsUndone(db: Db, id: int, agent: string, updates: map<Field, string>, agent': string)
    requires UpdateStep(db, id, agent, updates) != db && id in db.tasks
    requires db.tasks[id].parent.Some? ==> -0x8000_0000 <= db.tasks[id].parent.value < 0x8000_0000
    ensures UpdateStep(UpdateStep(db, id, agent, updates), id, agent',
                       OldTexts(db.tasks[id], Written(db.tasks[id], updates))).tasks == db.tasks
  {
    var t, fs := db.tasks[id], Written(db.tasks[id], updates);
    var t' := UpdateWroteRow(db, id, agent, updates);
    RowIsRestored(t, t', fs, Changes(t, updates));
    UpdateSetsRow(UpdateStep(db, id, agent, updates), id, agent', OldTexts(t, fs), t);
    assert db.tasks[id := t'][id := t] == db.tasks;
  }
}
