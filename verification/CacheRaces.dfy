// Where a stale cache hit comes from, told on the trace of a run.
module CacheRaces {
  import opened CacheProtocol

  // ------------------------------------------------------------ origin of an answer

  // The last step of f is the fetch in which reader w got e.
  ghost predicate Fetches<D, A>(q: (D, string) -> A, db: D, f: Trace<D>, w: nat, key: string, e: Entry<A>) {
    && f.Then? && f.action == Fetch(w)
    && After(q, db, f.before).ReaderAt(w) == Missed(key) && After(q, db, f).ReaderAt(w) == Fetched(key, e)
  }

  // From f to t reader w only waits with e in its hands.
  ghost predicate Waits<D, A>(q: (D, string) -> A, db: D, f: Trace<D>, t: Trace<D>, w: nat, key: string, e: Entry<A>) {
    && After(q, db, t).ReaderAt(w) == Fetched(key, e)
    && (t == f || (t.Then? && Waits(q, db, f, t.before, w, key, e)))
  }

  // In the last step of g the Set of reader w loads version v.
  ghost predicate Loads<D, A>(q: (D, string) -> A, db: D, g: Trace<D>, w: nat, key: string, e: Entry<A>, v: nat) {
    && g.Then? && g.action == SetLoad(w) && v == After(q, db, g).Version()
    && After(q, db, g).ReaderAt(w) == Storing(key, e, v)
  }

  datatype Origin<D> = Origin(reader: nat, fetch: Trace<D>, load: Trace<D>)

  // One reader fetched e, kept it, and loaded v to store it under, all within t.
  ghost predicate Came<D, A>(q: (D, string) -> A, db: D, t: Trace<D>, o: Origin<D>, key: string, e: Entry<A>, v: nat) {
    && Fetches(q, db, o.fetch, o.reader, key, e)
    && Loads(q, db, o.load, o.reader, key, e, v)
    && Waits(q, db, o.fetch, o.load.before, o.reader, key, e)
    && Extends(o.load, t)
  }

  lemma {:induction false} FetchedCame<D, A>(q: (D, string) -> A, db: D, t: Trace<D>, w: nat) returns (f: Trace<D>)
    requires After(q, db, t).ReaderAt(w).Fetched?
    ensures var reader := After(q, db, t).ReaderAt(w);
            Fetches(q, db, f, w, reader.key, reader.entry) && Waits(q, db, f, t, w, reader.key, reader.entry)
    decreases t
  {
    if After(q, db, t.before).ReaderAt(w) == After(q, db, t).ReaderAt(w) {
      f := FetchedCame(q, db, t.before, w);
    } else {
      f := t;
    }
  }

  lemma NewStoring<D, A>(q: (D, string) -> A, s: State<D, A>, a: Action<D>, w: nat)
    requires s.Version() >= 0 && s.Commits() >= 0
    requires Next(q, s, a).ReaderAt(w).Storing? && s.ReaderAt(w) != Next(q, s, a).ReaderAt(w)
    ensures var reader := Next(q, s, a).ReaderAt(w);
            && a == SetLoad(w) && reader.v == Next(q, s, a).Version()
            && s.ReaderAt(w) == Fetched(reader.key, reader.entry)
  {
  }

  lemma {:induction false} StoringCame<D, A>(q: (D, string) -> A, db: D, t: Trace<D>, w: nat) returns (o: Origin<D>)
    requires After(q, db, t).ReaderAt(w).Storing?
    ensures var reader := After(q, db, t).ReaderAt(w);
            Came(q, db, t, o, reader.key, reader.entry, reader.v)
    decreases t
  {
    if After(q, db, t.before).ReaderAt(w) == After(q, db, t).ReaderAt(w) {
      o := StoringCame(q, db, t.before, w);
    } else {
      NewStoring(q, After(q, db, t.before), t.action, w);
      var f := FetchedCame(q, db, t.before, w);
      o := Origin(w, f, t);
    }
  }

  lemma {:induction false} EntryCame<D, A>(q: (D, string) -> A, db: D, t: Trace<D>, k: (nat, string))
    returns (o: Origin<D>)
    requires k in After(q, db, t).entries
    ensures Came(q, db, t, o, k.1, After(q, db, t).entries[k], k.0)
    decreases t
  {
    var before := After(q, db, t.before);
    if k in before.entries && before.entries[k] == After(q, db, t).entries[k] {
      o := EntryCame(q, db, t.before, k);
    } else {
      o := StoringCame(q, db, t.before, t.action.r);
    }
  }

  lemma {:induction false} HitCame<D, A>(q: (D, string) -> A, db: D, t: Trace<D>, r: nat) returns (o: Origin<D>)
    requires After(q, db, t).ReaderAt(r).Hit?
    ensures var hit := After(q, db, t).ReaderAt(r);
            Came(q, db, t, o, hit.key, hit.entry, hit.v)
    decreases t
  {
    var hit := After(q, db, t).ReaderAt(r);
    if After(q, db, t.before).ReaderAt(r) == hit {
      o := HitCame(q, db, t.before, r);
    } else {
      o := EntryCame(q, db, t.before, (hit.v, hit.key));
    }
  }

  // --------------------------------------------------------- commits and their bumps

  lemma {:induction false} GrowsAlong<D, A>(q: (D, string) -> A, db: D, t: Trace<D>, later: Trace<D>)
    requires Extends(t, later)
    ensures Grows(After(q, db, t), After(q, db, later))
    decreases later
  {
    if later != t {
      GrowsAlong(q, db, t, later.before);
      AlwaysInv(q, db, later.before);
      NextKeepsInv(q, After(q, db, later.before), later.action);
    }
  }

  // The last step of p is commit number c.
  ghost predicate Commits<D, A>(q: (D, string) -> A, db: D, p: Trace<D>, c: nat) {
    p.Then? && p.action.Commit? && After(q, db, p).Commits() == c
  }

  // After f comes commit c, after that its own bump, and only then the last step
  // of g.
  ghost predicate InOrder<D, A>(q: (D, string) -> A, db: D, f: Trace<D>, p: Trace<D>, b: Trace<D>, g: Trace<D>, c: nat)
  {
    && Commits(q, db, p, c) && Extends(f, p.before)
    && b.Then? && b.action == OwnBump(c) && Extends(p, b.before)
    && g.Then? && Extends(b, g.before)
  }

  ghost predicate BumpedBetween<D(!new), A>(q: (D, string) -> A, db: D, f: Trace<D>, g: Trace<D>, c: nat) {
    exists p, b :: InOrder(q, db, f, p, b, g, c)
  }

  lemma {:induction false} CommitWasMade<D, A>(q: (D, string) -> A, db: D, f: Trace<D>, t: Trace<D>, c: nat)
    returns (p: Trace<D>)
    requires Extends(f, t) && After(q, db, f).Commits() < c <= After(q, db, t).Commits()
    ensures Commits(q, db, p, c) && Extends(f, p.before) && Extends(p, t)
    decreases t
  {
    if c <= After(q, db, t.before).Commits() {
      p := CommitWasMade(q, db, f, t.before, c);
    } else {
      p := t;
    }
  }

  lemma NewBump<D, A>(q: (D, string) -> A, s: State<D, A>, a: Action<D>, c: nat)
    requires s.Version() >= 0 && s.Commits() >= 0
    requires c in Next(q, s, a).bumped[Next(q, s, a).Version()] && c !in s.bumped[s.Version()]
    ensures a == OwnBump(c) && c <= s.Commits()
  {
  }

  lemma {:induction false} BumpWasMade<D, A>(q: (D, string) -> A, db: D, f: Trace<D>, t: Trace<D>, c: nat)
    returns (b: Trace<D>)
    requires Extends(f, t) && After(q, db, f).Commits() < c
    requires c in After(q, db, t).bumped[After(q, db, t).Version()]
    ensures b.Then? && b.action == OwnBump(c) && c <= After(q, db, b.before).Commits()
    ensures Extends(f, b.before) && Extends(b, t)
    decreases t
  {
    AlwaysInv(q, db, f);
    assert t != f;
    if c in After(q, db, t.before).bumped[After(q, db, t.before).Version()] {
      b := BumpWasMade(q, db, f, t.before, c);
    } else {
      NewBump(q, After(q, db, t.before), t.action, c);
      b := t;
    }
  }

  lemma BumpedAreBetween<D(!new), A>(q: (D, string) -> A, db: D, f: Trace<D>, g: Trace<D>, c: nat)
    requires g.Then? && Extends(f, g.before) && After(q, db, f).Commits() < c
    requires c in After(q, db, g.before).bumped[After(q, db, g.before).Version()]
    ensures BumpedBetween(q, db, f, g, c)
  {
    var b := BumpWasMade(q, db, f, g.before, c);
    var p := CommitWasMade(q, db, f, b.before, c);
    assert InOrder(q, db, f, p, b, g, c);
  }

  lemma BetweenAreBumped<D(!new), A>(q: (D, string) -> A, db: D, f: Trace<D>, g: Trace<D>, c: nat)
    requires BumpedBetween(q, db, f, g, c)
    ensures g.Then? && c > After(q, db, f).Commits()
    ensures c in After(q, db, g.before).bumped[After(q, db, g.before).Version()]
  {
    var p, b :| InOrder(q, db, f, p, b, g, c);
    GrowsAlong(q, db, f, p.before);
    GrowsAlong(q, db, p, b.before);
    GrowsAlong(q, db, b, g.before);
    AlwaysInv(q, db, g.before);
    var v := After(q, db, b).Version();
    assert c in After(q, db, b).bumped[v];
    assert After(q, db, g.before).bumped[v] == After(q, db, b).bumped[v];
  }

  lemma {:induction false} WaitsExtends<D, A>(q: (D, string) -> A, db: D, f: Trace<D>, t: Trace<D>, w: nat,
                                               key: string, e: Entry<A>)
    requires Waits(q, db, f, t, w, key, e)
    ensures Extends(f, t)
  {
    if t != f {
      WaitsExtends(q, db, f, t.before, w, key, e);
    }
  }

  // Exactly which bumped commits a hit misses: those committed, and then bumped,
  // between the fetch of its answer and the moment its Set loaded the version.
  lemma StaleIffBumpedBetween<D(!new), A>(q: (D, string) -> A, db: D, t: Trace<D>, r: nat) returns (o: Origin<D>)
    requires After(q, db, t).ReaderAt(r).Hit?
    ensures var s := After(q, db, t);
            var hit := s.ReaderAt(r);
            && Came(q, db, t, o, hit.key, hit.entry, hit.v) && hit.v < |s.bumped|
            && (forall c :: c in MissedBumps(s, hit.entry, hit.v) <==> BumpedBetween(q, db, o.fetch, o.load, c))
  {
    var s := After(q, db, t);
    var hit := s.ReaderAt(r);
    o := HitCame(q, db, t, r);
    WaitsExtends(q, db, o.fetch, o.load.before, o.reader, hit.key, hit.entry);
    GrowsAlong(q, db, o.load, t);
    var before := After(q, db, o.load.before);
    assert hit.v == before.Version() && s.bumped[hit.v] == before.bumped[hit.v];
    assert hit.entry.asOf == After(q, db, o.fetch).Commits();
    forall c ensures c in MissedBumps(s, hit.entry, hit.v) <==> BumpedBetween(q, db, o.fetch, o.load, c) {
      if c in MissedBumps(s, hit.entry, hit.v) {
        BumpedAreBetween(q, db, o.fetch, o.load, c);
      }
      if BumpedBetween(q, db, o.fetch, o.load, c) {
        BetweenAreBumped(q, db, o.fetch, o.load, c);
      }
    }
  }
}
