// internal/store/store.go:90-105 over internal/cache/cache.go when operations do
// not overlap: the store with a cache answers every read as the store without.
module CachedReads {
  import opened Text
  import opened CacheKeys

  datatype Result<A> = Ok(value: A) | Err

  class Cache<A> {
    var ver: nat
    var entries: map<string, A>

    // Entries of earlier server runs may survive in the key-value store.
    constructor (start: nat, leftover: map<string, A>)
      ensures ver == start && entries == leftover
    {
      ver, entries := start, leftover;
    }

    method Bump()
      modifies this`ver
      ensures ver == old(ver) + 1
    {
      ver := ver + 1;
    }

    // A failing key-value store reads as a miss.
    method Get(r: Read, fails: bool) returns (found: Option<A>)
      ensures found == if !fails && Key(ver, r) in entries then Some(entries[Key(ver, r)]) else None
    {
      found := None;
      if !fails && Key(ver, r) in entries {
        found := Some(entries[Key(ver, r)]);
      }
    }

    method Set(r: Read, value: A, fails: bool)
      modifies this`entries
      ensures entries == if fails then old(entries) else old(entries)[Key(ver, r) := value]
    {
      if !fails {
        entries := entries[Key(ver, r) := value];
      }
    }

    method Expire(key: string)
      modifies this`entries
      ensures entries == old(entries) - {key}
    {
      entries := entries - {key};
    }
  }

  datatype Op<D> =
    | ReadOp(r: Read, getFails: bool, setFails: bool)
    | WriteOp(db: D)
    | BumpOp
    | ExpireOp(key: string)

  // The store without a cache.
  function PlainAnswers<D, A>(query: (D, Read) -> Result<A>, db: D, ops: seq<Op<D>>): seq<Result<A>> {
    if ops == [] then [] else
      match ops[0]
      case ReadOp(r, _, _) => [query(db, r)] + PlainAnswers(query, db, ops[1..])
      case WriteOp(db') => PlainAnswers(query, db', ops[1..])
      case BumpOp => PlainAnswers(query, db, ops[1..])
      case ExpireOp(_) => PlainAnswers(query, db, ops[1..])
  }

  // Reads fold case and default the limit before they query as well as before
  // they build the key.
  ghost predicate CaseBlind<D(!new), A>(query: (D, Read) -> Result<A>) {
    forall d, r :: query(d, r) == query(d, Normal(r))
  }

  class Store<D(!new), A> {
    const query: (D, Read) -> Result<A>
    const cache: Cache?<A>
    var db: D

    constructor (query: (D, Read) -> Result<A>, cache: Cache?<A>, db: D)
      requires CaseBlind(query)
      requires cache != null ==> forall v: nat, r :: Key(v, r) in cache.entries ==> v < cache.ver
      ensures this.query == query && this.cache == cache && this.db == db && Valid()
    {
      this.query, this.cache, this.db := query, cache, db;
    }

    // Every entry under the current version is what the query answers now, and
    // no entry belongs to a version still to come.
    ghost predicate Valid()
      reads this, cache
    {
      && CaseBlind(query)
      && (cache != null ==>
            forall v: nat, r :: Key(v, r) in cache.entries ==>
              v <= cache.ver && (v == cache.ver ==> query(db, r) == Ok(cache.entries[Key(v, r)])))
    }

    // cacheOrFetch.
    method Read(r: Read, getFails: bool, setFails: bool) returns (res: Result<A>, hit: bool)
      requires Valid()
      modifies if cache == null then {} else {cache}
      ensures Valid() && res == query(db, r)
      ensures cache != null ==> cache.ver == old(cache.ver)
    {
      if cache != null {
        var got := cache.Get(r, getFails);
        if got.Some? {
          return Ok(got.value), true;
        }
      }
      res, hit := query(db, r), false;
      if res.Ok? && cache != null {
        cache.Set(r, res.value, setFails);
        forall v: nat, r' | Key(v, r') in cache.entries
          ensures v <= cache.ver && (v == cache.ver ==> query(db, r') == Ok(cache.entries[Key(v, r')]))
        {
          KeysAreInjective(v, r', cache.ver, r);
          assert query(db, r) == query(db, Normal(r)) && query(db, r') == query(db, Normal(r'));
        }
      }
    }

    // Any operation that writes tasks: commit, then bump.
    method Write(db': D)
      requires Valid()
      modifies this`db, if cache == null then {} else {cache}
      ensures Valid() && db == db'
    {
      db := db';
      if cache != null {
        cache.Bump();
      }
    }

    // Any sequence of reads and writes, with bumps of the notification listener
    // and expiries anywhere in between.
    method RunAll(ops: seq<Op<D>>) returns (answers: seq<Result<A>>)
      requires Valid()
      modifies this`db, if cache == null then {} else {cache}
      ensures Valid() && answers == PlainAnswers(query, old(db), ops)
    {
      answers := [];
      var i := 0;
      while i < |ops|
        invariant 0 <= i <= |ops| && Valid()
        invariant PlainAnswers(query, old(db), ops) == answers + PlainAnswers(query, db, ops[i..])
      {
        assert ops[i..][0] == ops[i] && ops[i..][1..] == ops[i + 1..];
        ghost var rest := PlainAnswers(query, db, ops[i..]);
        match ops[i] {
          case ReadOp(r, getFails, setFails) =>
            var res, hit := Read(r, getFails, setFails);
            assert answers + rest == answers + [res] + PlainAnswers(query, db, ops[i + 1..]);
            answers := answers + [res];
          case WriteOp(db') =>
            Write(db');
          case BumpOp =>
            if cache != null {
              cache.Bump();
            }
          case ExpireOp(key) =>
            if cache != null {
              cache.Expire(key);
            }
        }
        i := i + 1;
      }
    }
  }
}
