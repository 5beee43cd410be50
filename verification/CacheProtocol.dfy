// The version-keyed cache of internal/cache/cache.go under concurrency. Readers
// run cacheOrFetch in five steps, because Get and Set each load the version and
// only then talk to the key-value store; writers commit and later bump; the
// notification listener bumps at any time; entries expire and calls to the
// key-value store fail at any time. Steps of all of them interleave arbitrarily.
module CacheProtocol {
  // `asOf` and `fetchVer` are history: the database state the value was read
  // from and the version at that moment. The protocol never tests them.
  datatype Entry<A> = Entry(value: A, asOf: nat, fetchVer: nat)

  datatype Reader<A> =
    | Idle
    | Looking(key: string, v: nat)                    // Get has loaded version v
    | Missed(key: string)
    | Fetched(key: string, entry: Entry<A>)
    | Storing(key: string, entry: Entry<A>, v: nat)   // Set has loaded version v
    | Hit(key: string, entry: Entry<A>, v: nat)       // Get found entry under version v

  // history[c] is the database after commit c, history[0] the initial one.
  // bumped[v] are the commits whose own bump had happened while the version
  // was v; the version only grows, so it is |bumped| - 1.
  datatype State<D, A> = State(
    history: seq<D>, bumped: seq<set<nat>>, entries: map<(nat, string), Entry<A>>, readers: map<nat, Reader<A>>)
  {
    function Version(): int { |bumped| - 1 }
    function Commits(): int { |history| - 1 }
    function ReaderAt(r: nat): Reader<A> { if r in readers then readers[r] else Idle }
  }

  datatype Action<D> =
    | Commit(db: D)
    | OwnBump(commit: nat)
    | SpuriousBump
    | GetLoad(r: nat, key: string)
    | GetLookup(r: nat)
    | GetFails(r: nat)
    | Fetch(r: nat)
    | SetLoad(r: nat)
    | SetStore(r: nat)
    | SetFails(r: nat)
    | Done(r: nat)
    | Expire(v: nat, key: string)

  function Init<D, A>(db: D): State<D, A> {
    State([db], [{}], map[], map[])
  }

  // An action that is not enabled leaves the state alone.
  function Next<D, A>(q: (D, string) -> A, s: State<D, A>, a: Action<D>): State<D, A>
    requires s.Version() >= 0 && s.Commits() >= 0
  {
    match a
    case Commit(db) => s.(history := s.history + [db])
    case OwnBump(c) =>
      if 1 <= c <= s.Commits() then s.(bumped := s.bumped + [s.bumped[s.Version()] + {c}]) else s
    case SpuriousBump => s.(bumped := s.bumped + [s.bumped[s.Version()]])
    case GetLoad(r, key) =>
      if s.ReaderAt(r).Idle? then s.(readers := s.readers[r := Looking(key, s.Version())]) else s
    case GetLookup(r) =>
      (match s.ReaderAt(r)
       case Looking(key, v) =>
         if (v, key) in s.entries then s.(readers := s.readers[r := Hit(key, s.entries[(v, key)], v)])
         else s.(readers := s.readers[r := Missed(key)])
       case _ => s)
    case GetFails(r) =>
      (match s.ReaderAt(r)
       case Looking(key, _) => s.(readers := s.readers[r := Missed(key)])
       case _ => s)
    case Fetch(r) =>
      (match s.ReaderAt(r)
       case Missed(key) =>
         var e := Entry(q(s.history[s.Commits()], key), s.Commits(), s.Version());
         s.(readers := s.readers[r := Fetched(key, e)])
       case _ => s)
    case SetLoad(r) =>
      (match s.ReaderAt(r)
       case Fetched(key, e) => s.(readers := s.readers[r := Storing(key, e, s.Version())])
       case _ => s)
    case SetStore(r) =>
      (match s.ReaderAt(r)
       case Storing(key, e, v) => s.(entries := s.entries[(v, key) := e], readers := s.readers[r := Idle])
       case _ => s)
    case SetFails(r) =>
      if s.ReaderAt(r).Storing? then s.(readers := s.readers[r := Idle]) else s
    case Done(r) =>
      if s.ReaderAt(r).Hit? then s.(readers := s.readers[r := Idle]) else s
    case Expire(v, key) => s.(entries := s.entries - {(v, key)})
  }

  // ------------------------------------------------------------- the invariant

  ghost predicate GoodEntry<D, A>(q: (D, string) -> A, s: State<D, A>, key: string, e: Entry<A>) {
    && e.asOf < |s.history| && e.fetchVer < |s.bumped|
    && e.value == q(s.history[e.asOf], key)
    && (forall c :: c in s.bumped[e.fetchVer] ==> c <= e.asOf)
  }

  ghost predicate StoredUnder<D, A>(q: (D, string) -> A, s: State<D, A>, key: string, e: Entry<A>, v: nat) {
    GoodEntry(q, s, key, e) && e.fetchVer <= v < |s.bumped|
  }

  ghost predicate GoodReader<D, A>(q: (D, string) -> A, s: State<D, A>, reader: Reader<A>) {
    match reader
    case Idle => true
    case Missed(_) => true
    case Looking(_, v) => v < |s.bumped|
    case Fetched(key, e) => GoodEntry(q, s, key, e)
    case Storing(key, e, v) => StoredUnder(q, s, key, e, v)
    case Hit(key, e, v) => StoredUnder(q, s, key, e, v)
  }

  ghost predicate Inv<D, A>(q: (D, string) -> A, s: State<D, A>) {
    && s.Version() >= 0 && s.Commits() >= 0
    && (forall v, c :: 0 <= v < |s.bumped| && c in s.bumped[v] ==> c <= s.Commits())
    && (forall v, w :: 0 <= v <= w < |s.bumped| ==> s.bumped[v] <= s.bumped[w])
    && (forall k :: k in s.entries ==> StoredUnder(q, s, k.1, s.entries[k], k.0))
    && (forall r :: r in s.readers ==> GoodReader(q, s, s.readers[r]))
  }

  // The versions and database states a good entry speaks about never change.
  ghost predicate Grows<D, A>(s: State<D, A>, s': State<D, A>) {
    s.history <= s'.history && s.bumped <= s'.bumped
  }

  lemma GoodReaderGrows<D, A>(q: (D, string) -> A, s: State<D, A>, s': State<D, A>, reader: Reader<A>)
    requires Grows(s, s') && GoodReader(q, s, reader)
    ensures GoodReader(q, s', reader)
  {
  }

  lemma NextGrows<D, A>(q: (D, string) -> A, s: State<D, A>, a: Action<D>)
    requires Inv(q, s)
    ensures var s' := Next(q, s, a);
            && Grows(s, s') && s'.Version() >= 0 && s'.Commits() >= 0
            && (forall v, c :: 0 <= v < |s'.bumped| && c in s'.bumped[v] ==> c <= s'.Commits())
            && (forall v, w :: 0 <= v <= w < |s'.bumped| ==> s'.bumped[v] <= s'.bumped[w])
  {
  }

  lemma NextKeepsEntries<D, A>(q: (D, string) -> A, s: State<D, A>, a: Action<D>, k: (nat, string))
    requires Inv(q, s) && k in Next(q, s, a).entries
    ensures StoredUnder(q, Next(q, s, a), k.1, Next(q, s, a).entries[k], k.0)
  {
    NextGrows(q, s, a);
    if k in s.entries {
      GoodReaderGrows(q, s, Next(q, s, a), Hit(k.1, s.entries[k], k.0));
    }
  }

  lemma NextKeepsReaders<D, A>(q: (D, string) -> A, s: State<D, A>, a: Action<D>, r: nat)
    requires Inv(q, s) && r in Next(q, s, a).readers
    ensures GoodReader(q, Next(q, s, a), Next(q, s, a).readers[r])
  {
    NextGrows(q, s, a);
    if r in s.readers {
      GoodReaderGrows(q, s, Next(q, s, a), s.readers[r]);
    }
  }

  lemma NextKeepsInv<D, A>(q: (D, string) -> A, s: State<D, A>, a: Action<D>)
    requires Inv(q, s)
    ensures Inv(q, Next(q, s, a)) && Grows(s, Next(q, s, a))
  {
    var s' := Next(q, s, a);
    NextGrows(q, s, a);
    forall k | k in s'.entries ensures StoredUnder(q, s', k.1, s'.entries[k], k.0) { NextKeepsEntries(q, s, a, k); }
    forall r | r in s'.readers ensures GoodReader(q, s', s'.readers[r]) { NextKeepsReaders(q, s, a, r); }
  }

  // ------------------------------------------------------------------ all runs

  datatype Trace<D> = Start | Then(before: Trace<D>, action: Action<D>)

  ghost function After<D, A>(q: (D, string) -> A, db: D, t: Trace<D>): (s: State<D, A>)
    ensures s.Version() >= 0 && s.Commits() >= 0
  {
    match t
    case Start => Init(db)
    case Then(before, action) => Next(q, After(q, db, before), action)
  }

  // The invariant holds after every trace.
  lemma {:induction false} AlwaysInv<D, A>(q: (D, string) -> A, db: D, t: Trace<D>)
    ensures Inv(q, After(q, db, t))
  {
    if t.Then? {
      AlwaysInv(q, db, t.before);
      NextKeepsInv(q, After(q, db, t.before), t.action);
    }
  }

  // The commits an entry misses although their own bump came before the version
  // v was loaded.
  ghost function MissedBumps<D, A>(s: State<D, A>, e: Entry<A>, v: nat): set<nat>
    requires v < |s.bumped|
  {
    set c | c in s.bumped[v] && c > e.asOf
  }

  // A hit whose entry was fetched and set under one unchanged version is the
  // answer of a database state that holds every commit bumped before Get loaded
  // the version. What it misses has its own bump still outstanding.
  lemma UnchangedVersionIsFresh<D, A>(q: (D, string) -> A, db: D, t: Trace<D>, r: nat)
    requires After(q, db, t).ReaderAt(r).Hit?
    requires After(q, db, t).ReaderAt(r).entry.fetchVer == After(q, db, t).ReaderAt(r).v
    ensures var s := After(q, db, t);
            var hit := s.ReaderAt(r);
            && hit.v < |s.bumped| && hit.entry.asOf < |s.history|
            && hit.entry.value == q(s.history[hit.entry.asOf], hit.key)
            && MissedBumps(s, hit.entry, hit.v) == {}
            && (s.Version() == hit.v ==>
                  forall c :: hit.entry.asOf < c <= s.Commits() ==> c !in s.bumped[s.Version()])
  {
    AlwaysInv(q, db, t);
    assert GoodReader(q, After(q, db, t), After(q, db, t).ReaderAt(r));
  }

  // What an entry misses is settled when Set loads the version: no later step
  // of anybody changes it.
  lemma {:induction false} MissedBumpsAreFixed<D, A>(q: (D, string) -> A, db: D, t: Trace<D>, later: Trace<D>,
      e: Entry<A>, v: nat)
    requires Extends(t, later) && v < |After(q, db, t).bumped|
    ensures v < |After(q, db, later).bumped|
    ensures MissedBumps(After(q, db, later), e, v) == MissedBumps(After(q, db, t), e, v)
    decreases later
  {
    if later != t {
      MissedBumpsAreFixed(q, db, t, later.before, e, v);
      AlwaysInv(q, db, later.before);
      NextKeepsInv(q, After(q, db, later.before), later.action);
    }
  }

  ghost predicate Extends<D>(t: Trace<D>, later: Trace<D>) {
    t == later || (later.Then? && Extends(t, later.before))
  }

  // The race is real: one reader fetches, a writer commits and bumps, the reader
  // stores its old answer under the new version, and a second reader that starts
  // afterwards is served it.
  function Fetching<D>(key: string): Trace<D> {
    Then(Then(Then(Start, GetLoad(0, key)), GetLookup(0)), Fetch(0))
  }

  function Overtaken<D>(db': D, key: string): Trace<D> {
    Then(Then(Then(Then(Fetching(key), Commit(db')), OwnBump(1)), SetLoad(0)), SetStore(0))
  }

  lemma FetchingReached<D, A>(q: (D, string) -> A, db: D, key: string)
    ensures After(q, db, Fetching(key))
         == State([db], [{}], map[], map[0 := Fetched(key, Entry(q(db, key), 0, 0))])
  {
    var one := Then(Start, GetLoad(0, key));
    assert After(q, db, one) == State([db], [{}], map[], map[0 := Looking(key, 0)]);
    assert After(q, db, Then(one, GetLookup(0))) == State([db], [{}], map[], map[0 := Missed(key)]);
  }

  lemma OvertakenReached<D, A>(q: (D, string) -> A, db: D, db': D, key: string)
    ensures After(q, db, Overtaken(db', key))
         == State([db, db'], [{}, {1}], map[(1, key) := Entry(q(db, key), 0, 0)], map[0 := Idle])
  {
    FetchingReached(q, db, key);
    var e := Entry(q(db, key), 0, 0);
    var committed := Then(Fetching(key), Commit(db'));
    assert After(q, db, committed) == State([db, db'], [{}], map[], map[0 := Fetched(key, e)]);
    var bumped := Then(committed, OwnBump(1));
    var none: set<nat> := {};
    assert none + {1} == {1};
    assert After(q, db, bumped) == State([db, db'], [{}, {1}], map[], map[0 := Fetched(key, e)]);
    var loaded := Then(bumped, SetLoad(0));
    assert After(q, db, loaded) == State([db, db'], [{}, {1}], map[], map[0 := Storing(key, e, 1)]);
  }

  lemma StaleHitHappens<D, A>(q: (D, string) -> A, db: D, db': D, key: string)
    ensures var s := After(q, db, Then(Then(Overtaken(db', key), GetLoad(1, key)), GetLookup(1)));
            && s.history == [db, db'] && s.Version() == 1
            && s.ReaderAt(1) == Hit(key, Entry(q(db, key), 0, 0), 1)
            && MissedBumps(s, s.ReaderAt(1).entry, 1) == {1}
  {
    OvertakenReached(q, db, db', key);
  }
}
