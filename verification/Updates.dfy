// UpdateTask of internal/store/store.go:2132-2261: the UPDATE statement it
// assembles, what the statement means, and what undoes it.
module Updates {
  import opened Text
  import opened Tasks

  // currentTextField.
  function FieldText(t: Task, f: Field): string {
    match f
    case BusinessValue => t.businessValue
    case Mode => t.mode
    case Note => t.note
    case Owner => t.owner
    case ParentTaskId => if t.parent.None? then "" else Render(t.parent.value)
    case Spec => t.spec
    case TaskPlan => t.taskPlan
    case Title => t.title
    case Why => t.why
    case Other(_) => ""
  }

  // The row with one column set to the meaning of a text; None when the
  // database cannot cast the text to the column.
  function WithField(t: Task, f: Field, text: string): Option<Task> {
    match f
    case BusinessValue => Some(t.(businessValue := text))
    case Mode => Some(t.(mode := text))
    case Note => Some(t.(note := text))
    case Owner => Some(t.(owner := text))
    case ParentTaskId =>
      if text == "" then Some(t.(parent := None)) else
        var n := ParseInt(text);
        if n.None? then None else Some(t.(parent := n))
    case Spec => Some(t.(spec := text))
    case TaskPlan => Some(t.(taskPlan := text))
    case Title => Some(t.(title := text))
    case Why => Some(t.(why := text))
    case Other(_) => None
  }

  const FIELDS: seq<Field> := [BusinessValue, Mode, Note, Owner, ParentTaskId, Spec, TaskPlan, Title, Why]

  // The new texts of the fields whose text really differs.
  function Changes(t: Task, updates: map<Field, string>): map<Field, string> {
    map f | f in updates && FieldText(t, f) != updates[f] :: updates[f]
  }

  // sort.Strings over the changed names: those of the first k names in order.
  function SortedAmong(changes: map<Field, string>, k: nat): (fs: seq<Field>)
    requires k <= |FIELDS|
    ensures forall f :: f in fs ==> f in changes && f in FIELDS[..k]
    ensures forall f :: f in changes && f in FIELDS[..k] ==> f in fs
    ensures forall i, j :: 0 <= i < j < |fs| ==> fs[i] != fs[j]
  {
    if k == 0 then [] else
      var front := SortedAmong(changes, k - 1);
      assert FIELDS[..k] == FIELDS[..k - 1] + [FIELDS[k - 1]];
      assert FIELDS[k - 1] !in FIELDS[..k - 1];
      if FIELDS[k - 1] in changes then front + [FIELDS[k - 1]] else front
  }

  function SortedFields(changes: map<Field, string>): seq<Field> {
    SortedAmong(changes, |FIELDS|)
  }

  // The fields an update of this row writes.
  function Written(t: Task, updates: map<Field, string>): seq<Field> {
    SortedFields(Changes(t, updates))
  }

  // ------------------------------------------------------------- the statement

  datatype Arg = TextArg(text: string) | IdArg(id: int)

  // One SET clause; positions count from 1 as $1, $2, ... do.
  datatype Clause = SetNull(field: Field) | SetParam(field: Field, at: nat) | SetCast(field: Field, at: nat) | Touch

  datatype Statement = Statement(clauses: seq<Clause>, idAt: nat)

  predicate TextAt(args: seq<Arg>, at: nat) {
    1 <= at <= |args| && args[at - 1].TextArg?
  }

  // None is a statement the database rejects.
  function RunClause(c: Clause, args: seq<Arg>, t: Task): Option<Task> {
    match c
    case Touch => Some(t)
    case SetNull(f) => if f == ParentTaskId then WithField(t, f, "") else None
    case SetParam(f, at) => if TextAt(args, at) && f != ParentTaskId then WithField(t, f, args[at - 1].text) else None
    case SetCast(f, at) =>
      if TextAt(args, at) && f == ParentTaskId && args[at - 1].text != "" then WithField(t, f, args[at - 1].text)
      else None
  }

  function RunClauses(cs: seq<Clause>, args: seq<Arg>, t: Task): Option<Task> {
    if cs == [] then Some(t) else
      var before := RunClauses(cs[..|cs| - 1], args, t);
      if before.None? then None else RunClause(cs[|cs| - 1], args, before.value)
  }

  // UPDATE tasks SET ... WHERE id = $n: all or nothing.
  function Execute(s: Statement, args: seq<Arg>, tasks: map<int, Task>): Option<map<int, Task>> {
    if !(1 <= s.idAt <= |args| && args[s.idAt - 1].IdArg?) then None else
      var id := args[s.idAt - 1].id;
      if id !in tasks then Some(tasks) else
        var row := RunClauses(s.clauses, args, tasks[id]);
        if row.None? then None else Some(tasks[id := row.value])
  }

  // --------------------------------------------------------------- the request

  // Setting the listed fields to their new texts, one after the other.
  function Applied(t: Task, fs: seq<Field>, texts: map<Field, string>): Option<Task>
    requires forall f :: f in fs ==> f in texts
  {
    if fs == [] then Some(t) else
      assert fs[|fs| - 1] in fs;
      var before := Applied(t, fs[..|fs| - 1], texts);
      if before.None? then None else WithField(before.value, fs[|fs| - 1], texts[fs[|fs| - 1]])
  }

  // The row after an update, or None when the database rejects it.
  function UpdatedRow(t: Task, updates: map<Field, string>): Option<Task> {
    Applied(t, Written(t, updates), Changes(t, updates))
  }

  function AppliedTo(tasks: map<int, Task>, id: int, fs: seq<Field>, texts: map<Field, string>): Option<map<int, Task>>
    requires forall f :: f in fs ==> f in texts
  {
    if id !in tasks then Some(tasks) else
      var row := Applied(tasks[id], fs, texts);
      if row.None? then None else Some(tasks[id := row.value])
  }

  // The parameters a clause refers to are there.
  predicate InRange(c: Clause, args: seq<Arg>) {
    c.SetParam? || c.SetCast? ==> c.at <= |args|
  }

  lemma {:induction false} MoreArgsRunAlike(cs: seq<Clause>, args: seq<Arg>, more: seq<Arg>, t: Task)
    requires forall c :: c in cs ==> InRange(c, args)
    ensures RunClauses(cs, args + more, t) == RunClauses(cs, args, t)
  {
    if cs != [] {
      assert cs[|cs| - 1] in cs;
      MoreArgsRunAlike(cs[..|cs| - 1], args, more, t);
    }
  }

  // The clause of one field; the NULL clause consumes no argument.
  method NextClause(f: Field, val: string, args: seq<Arg>) returns (clause: Clause, args': seq<Arg>)
    requires !f.Other?
    ensures args <= args' && InRange(clause, args')
    ensures forall t: Task :: RunClause(clause, args', t) == WithField(t, f, val)
  {
    args' := args;
    if f == ParentTaskId {
      if val == "" {
        clause := SetNull(f);
      } else {
        args' := args' + [TextArg(val)];
        clause := SetCast(f, |args'|);
      }
    } else {
      args' := args' + [TextArg(val)];
      clause := SetParam(f, |args'|);
    }
  }

  lemma ClausesSnoc(cs: seq<Clause>, c: Clause, args: seq<Arg>, args': seq<Arg>, t: Task)
    requires args <= args' && forall d :: d in cs ==> InRange(d, args)
    ensures RunClauses(cs + [c], args', t) ==
              if RunClauses(cs, args, t).None? then None else RunClause(c, args', RunClauses(cs, args, t).value)
  {
    assert (cs + [c])[..|cs|] == cs;
    assert args' == args + args'[|args|..];
    MoreArgsRunAlike(cs, args, args'[|args|..], t);
  }

  // The loop that assembles the SET list. Whatever the row, running the clauses
  // is applying the changed fields.
  method BuildStatement(id: int, fields: seq<Field>, changes: map<Field, string>)
    returns (s: Statement, args: seq<Arg>)
    requires forall f :: f in fields ==> f in changes && !f.Other?
    ensures forall tasks: map<int, Task> :: Execute(s, args, tasks) == AppliedTo(tasks, id, fields, changes)
  {
    var clauses: seq<Clause> := [];
    args := [];
    for i := 0 to |fields|
      invariant forall c :: c in clauses ==> InRange(c, args)
      invariant forall t: Task :: RunClauses(clauses, args, t) == Applied(t, fields[..i], changes)
    {
      var clause, args' := NextClause(fields[i], changes[fields[i]], args);
      assert fields[..i + 1][..i] == fields[..i];
      forall t: Task ensures RunClauses(clauses + [clause], args', t) == Applied(t, fields[..i + 1], changes) {
        ClausesSnoc(clauses, clause, args, args', t);
      }
      clauses, args := clauses + [clause], args';
    }
    assert fields[..|fields|] == fields;
    forall t: Task ensures RunClauses(clauses + [Touch], args + [IdArg(id)], t) == Applied(t, fields, changes) {
      ClausesSnoc(clauses, Touch, args, args + [IdArg(id)], t);
    }
    clauses, args := clauses + [Touch], args + [IdArg(id)];
    s := Statement(clauses, |args|);
  }

  // ------------------------------------------------- exactly the changed fields

  // What the text of a field reads back as once stored; the cast forgets how a
  // number was written.
  function Stored(f: Field, text: string): string {
    if f == ParentTaskId && text != "" && ParseInt(text).Some? then Render(ParseInt(text).value) else text
  }

  // Everything but the nine updatable columns.
  function OtherColumns(t: Task): Task {
    t.(businessValue := "", mode := "", note := "", owner := "", parent := None, spec := "", taskPlan := "",
       title := "", why := "")
  }

  lemma WithFieldSets(t: Task, g: Field, text: string, f: Field)
    requires !g.Other? && !f.Other?
    ensures WithField(t, g, text).None? <==> g == ParentTaskId && text != "" && ParseInt(text).None?
    ensures WithField(t, g, text).Some? ==>
              && FieldText(WithField(t, g, text).value, f) == (if f == g then Stored(g, text) else FieldText(t, f))
              && OtherColumns(WithField(t, g, text).value) == OtherColumns(t)
  {
  }

  lemma {:induction false} AppliedSetsExactly(t: Task, fs: seq<Field>, texts: map<Field, string>, f: Field)
    requires (forall g :: g in fs ==> g in texts && !g.Other?) && !f.Other?
    requires forall i, j :: 0 <= i < j < |fs| ==> fs[i] != fs[j]
    ensures Applied(t, fs, texts).None? <==>
              ParentTaskId in fs && texts[ParentTaskId] != "" && ParseInt(texts[ParentTaskId]).None?
    ensures Applied(t, fs, texts).Some? ==>
              && FieldText(Applied(t, fs, texts).value, f) == (if f in fs then Stored(f, texts[f]) else FieldText(t, f))
              && OtherColumns(Applied(t, fs, texts).value) == OtherColumns(t)
  {
    if fs != [] {
      var front, last := fs[..|fs| - 1], fs[|fs| - 1];
      assert last in fs;
      assert fs == front + [last];
      AppliedSetsExactly(t, front, texts, f);
      if Applied(t, front, texts).Some? {
        WithFieldSets(Applied(t, front, texts).value, last, texts[last], f);
      }
    }
  }

  // A row is determined by the texts of the nine columns and the rest.
  lemma RowsAgree(t: Task, t': Task)
    requires OtherColumns(t) == OtherColumns(t')
    requires forall f: Field :: !f.Other? ==> FieldText(t, f) == FieldText(t', f)
    ensures t == t'
  {
    assert FieldText(t, BusinessValue) == FieldText(t', BusinessValue) && FieldText(t, Mode) == FieldText(t', Mode);
    assert FieldText(t, Note) == FieldText(t', Note) && FieldText(t, Owner) == FieldText(t', Owner);
    assert FieldText(t, ParentTaskId) == FieldText(t', ParentTaskId) && FieldText(t, Spec) == FieldText(t', Spec);
    assert FieldText(t, TaskPlan) == FieldText(t', TaskPlan) && FieldText(t, Title) == FieldText(t', Title);
    assert FieldText(t, Why) == FieldText(t', Why);
    if t.parent.Some? && t'.parent.Some? {
      RenderIsInjective(t.parent.value, t'.parent.value);
    }
  }

  // The texts the audit rows of an update keep as old values.
  function OldTexts(t: Task, fs: seq<Field>): map<Field, string> {
    map f | f in fs :: FieldText(t, f)
  }
}
