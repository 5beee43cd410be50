// Chains of audit rows: what it means that the trail replays to the table.
module AuditChains {
  import opened Text
  import opened Tasks

  function StatusOf(db: Db, id: int): Option<Status> {
    if id in db.tasks then Some(db.tasks[id].status) else None
  }

  // The status rows of a task lead without a gap from one status to another:
  // each row starts where the one before it ended.
  ghost predicate StatusChain(rows: seq<AuditRow>, id: int, from: Option<Status>, to: Option<Status>) {
    if rows == [] then from == to else
      var front, last := rows[..|rows| - 1], rows[|rows| - 1];
      if last.task == id && last.change.StatusChange? then
        to == Some(last.change.to) && StatusChain(front, id, from, last.change.from)
      else StatusChain(front, id, from, to)
  }

  // The same for the owner rows.
  ghost predicate OwnerChain(rows: seq<AuditRow>, id: int, from: string, to: string) {
    if rows == [] then from == to else
      var front, last := rows[..|rows| - 1], rows[|rows| - 1];
      if last.task == id && last.change.FieldChange? && last.change.field == Owner then
        to == last.change.after && OwnerChain(front, id, from, last.change.before)
      else OwnerChain(front, id, from, to)
  }

  ghost predicate NoStatus(row: AuditRow, id: int) {
    row.task == id ==> !row.change.StatusChange?
  }

  ghost predicate NoOwner(row: AuditRow, id: int) {
    row.task == id ==> !(row.change.FieldChange? && row.change.field == Owner)
  }

  lemma {:induction false} NoStatusRows(rows: seq<AuditRow>, id: int, s: Option<Status>)
    requires forall r :: r in rows ==> NoStatus(r, id)
    ensures StatusChain(rows, id, s, s)
  {
    if rows != [] {
      assert rows[|rows| - 1] in rows;
      NoStatusRows(rows[..|rows| - 1], id, s);
    }
  }

  lemma {:induction false} NoOwnerRows(rows: seq<AuditRow>, id: int, owner: string)
    requires forall r :: r in rows ==> NoOwner(r, id)
    ensures OwnerChain(rows, id, owner, owner)
  {
    if rows != [] {
      assert rows[|rows| - 1] in rows;
      NoOwnerRows(rows[..|rows| - 1], id, owner);
    }
  }

  lemma {:induction false} ChainsJoin(a: seq<AuditRow>, b: seq<AuditRow>, id: int, s: Option<Status>,
                                      s': Option<Status>, s'': Option<Status>)
    requires StatusChain(a, id, s, s') && StatusChain(b, id, s', s'')
    ensures StatusChain(a + b, id, s, s'')
  {
    if b == [] {
      assert a + b == a;
    } else {
      assert (a + b)[..|a + b| - 1] == a + b[..|b| - 1];
      var last := b[|b| - 1];
      if last.task == id && last.change.StatusChange? {
        ChainsJoin(a, b[..|b| - 1], id, s, s', last.change.from);
      } else {
        ChainsJoin(a, b[..|b| - 1], id, s, s', s'');
      }
    }
  }

  lemma {:induction false} OwnerChainsJoin(a: seq<AuditRow>, b: seq<AuditRow>, id: int, o: string, o': string,
      o'': string)
    requires OwnerChain(a, id, o, o') && OwnerChain(b, id, o', o'')
    ensures OwnerChain(a + b, id, o, o'')
  {
    if b == [] {
      assert a + b == a;
    } else {
      assert (a + b)[..|a + b| - 1] == a + b[..|b| - 1];
      var last := b[|b| - 1];
      if last.task == id && last.change.FieldChange? && last.change.field == Owner {
        OwnerChainsJoin(a, b[..|b| - 1], id, o, o', last.change.before);
      } else {
        OwnerChainsJoin(a, b[..|b| - 1], id, o, o', o'');
      }
    }
  }

  // db' is db with more audit rows, and for one task those rows lead from its
  // status and owner in db to those in db'.
  ghost predicate Chained(db: Db, db': Db, delta: seq<AuditRow>, id: int) {
    && db'.audit == db.audit + delta
    && (id in db.tasks ==> id in db'.tasks)
    && StatusChain(delta, id, StatusOf(db, id), StatusOf(db', id))
    && (id in db.tasks ==> OwnerChain(delta, id, db.tasks[id].owner, db'.tasks[id].owner))
  }

  lemma ChainedJoins(db: Db, db1: Db, db2: Db, d1: seq<AuditRow>, d2: seq<AuditRow>, id: int)
    requires Chained(db, db1, d1, id) && Chained(db1, db2, d2, id)
    ensures Chained(db, db2, d1 + d2, id)
  {
    assert db.audit + d1 + d2 == db.audit + (d1 + d2);
    ChainsJoin(d1, d2, id, StatusOf(db, id), StatusOf(db1, id), StatusOf(db2, id));
    if id in db.tasks {
      OwnerChainsJoin(d1, d2, id, db.tasks[id].owner, db1.tasks[id].owner, db2.tasks[id].owner);
    }
  }
}
