// Owner rules of internal/config/taskowners.go: rules are sorted stably by
// specificity when the file is loaded, and the candidates of a task once more
// when it is matched, with a memo for the capacities of the owners.
module Taskowners {
  import opened Text

  // A pattern value as YAML delivers it; None stands for a list item that is not
  // a text.
  datatype Pattern = One(text: string) | Many(items: seq<Option<string>>) | NotText

  datatype Rule = Rule(patterns: map<string, Pattern>, owner: string, priority: int, workflow: string)

  datatype Facts = Facts(title: string, owner: string, mode: string, status: string, tags: seq<string>,
                         consumers: seq<string>)

  // ------------------------------------------------------------------- matching

  predicate Has(texts: seq<string>, s: string) {
    exists i :: 0 <= i < |texts| && Lower(texts[i]) == Lower(s)
  }

  predicate AnyOverlap(texts: seq<string>, expected: Pattern) {
    match expected
    case One(s) => Has(texts, s)
    case Many(items) => exists i :: 0 <= i < |items| && items[i].Some? && Has(texts, items[i].value)
    case NotText => false
  }

  predicate Contains(s: string, part: string) {
    |part| <= |s| && (s[..|part|] == part || (s != "" && Contains(s[1..], part)))
  }

  predicate FieldMatches(t: Facts, field: string, expected: Pattern) {
    match field
    case "tags" => AnyOverlap(t.tags, expected)
    case "consumers" => AnyOverlap(t.consumers, expected)
    case "title_contains" => expected.One? && Contains(Lower(t.title), Lower(expected.text))
    case "mode" => expected.One? && Lower(t.mode) == Lower(expected.text)
    case "owner" => expected.One? && Lower(t.owner) == Lower(expected.text)
    case "status" => expected.One? && Lower(t.status) == Lower(expected.text)
    case _ => false
  }

  predicate RuleMatches(t: Facts, rule: Rule) {
    forall k :: k in rule.patterns ==> FieldMatches(t, k, rule.patterns[k])
  }

  // What a pattern asks of a task, case aside: a text or one of several among
  // the tags or consumers; the whole mode, owner or status; a part of the title;
  // and for any other field something no task has.
  lemma FieldMatchesMeans(t: Facts, field: string, expected: Pattern)
    ensures field == "tags" && expected.One? ==>
              (FieldMatches(t, field, expected) <==> exists v :: v in t.tags && Lower(v) == Lower(expected.text))
    ensures field == "consumers" && expected.One? ==>
              (FieldMatches(t, field, expected) <==> exists v :: v in t.consumers && Lower(v) == Lower(expected.text))
    ensures field in {"tags", "consumers"} && expected.Many? ==>
              (FieldMatches(t, field, expected) <==>
                 exists s :: Some(s) in expected.items && FieldMatches(t, field, One(s)))
    ensures field == "mode" ==>
              (FieldMatches(t, field, expected) <==> exists s :: expected == One(s) && Lower(s) == Lower(t.mode))
    ensures field == "owner" ==>
              (FieldMatches(t, field, expected) <==> exists s :: expected == One(s) && Lower(s) == Lower(t.owner))
    ensures field == "status" ==>
              (FieldMatches(t, field, expected) <==> exists s :: expected == One(s) && Lower(s) == Lower(t.status))
    ensures field == "title_contains" ==>
              (FieldMatches(t, field, expected) <==>
                 expected.One? && exists u, v :: Lower(t.title) == u + Lower(expected.text) + v)
    ensures field !in {"tags", "consumers", "mode", "owner", "status", "title_contains"} || expected.NotText? ==>
              !FieldMatches(t, field, expected)
  {
    if expected.One? {
      HasMeans(t.tags, expected.text);
      HasMeans(t.consumers, expected.text);
      ContainsMeans(Lower(t.title), Lower(expected.text));
    }
    if expected.Many? {
      forall i | 0 <= i < |expected.items| && expected.items[i].Some?
        ensures Some(expected.items[i].value) in expected.items
      {
        assert expected.items[i] == Some(expected.items[i].value);
      }
    }
  }

  lemma HasMeans(texts: seq<string>, s: string)
    ensures Has(texts, s) <==> exists v :: v in texts && Lower(v) == Lower(s)
  {
    if Has(texts, s) {
      var i :| 0 <= i < |texts| && Lower(texts[i]) == Lower(s);
      assert texts[i] in texts;
    }
  }

  lemma {:induction false} FoundPart(s: string, part: string) returns (u: string, v: string)
    requires Contains(s, part)
    ensures s == u + part + v
  {
    if s[..|part|] == part {
      u, v := "", s[|part|..];
    } else {
      u, v := FoundPart(s[1..], part);
      u := [s[0]] + u;
    }
  }

  lemma {:induction false} PartIsFound(u: string, part: string, v: string)
    ensures Contains(u + part + v, part)
  {
    var s := u + part + v;
    if u == "" {
      assert s[..|part|] == part;
    } else {
      assert s[1..] == u[1..] + part + v;
      PartIsFound(u[1..], part, v);
    }
  }

  lemma ContainsMeans(s: string, part: string)
    ensures Contains(s, part) <==> exists u, v :: s == u + part + v
  {
    if Contains(s, part) {
      var u, v := FoundPart(s, part);
    }
    if u, v :| s == u + part + v {
      PartIsFound(u, part, v);
    }
  }

  // -------------------------------------------------------------------- ranking

  // Compared from left to right; smaller is better.
  datatype Rank = Rank(general: int, unimportant: int, busy: int)

  predicate Less(a: Rank, b: Rank) {
    a.general < b.general
    || (a.general == b.general
        && (a.unimportant < b.unimportant || (a.unimportant == b.unimportant && a.busy < b.busy)))
  }

  // The order of the load-time sort.
  function LoadRank(r: Rule): Rank {
    Rank(-|r.patterns|, 0, 0)
  }

  type Capacity = Option<string -> int>

  // The order of the match-time sort. No capacity function means nobody is busy.
  function MatchRank(cap: Capacity): Rule -> Rank {
    (r: Rule) => Rank(-|r.patterns|, -r.priority, if cap.Some? then cap.value(r.owner) else 0)
  }

  // ---------------------------------------------------------------- stable sorts

  // x goes to the right end and moves left past everything it is less than.
  function Insert(rank: Rule -> Rank, out: seq<Rule>, x: Rule): (r: seq<Rule>)
    ensures |r| == |out| + 1
  {
    if out == [] || !Less(rank(x), rank(out[|out| - 1])) then out + [x]
    else Insert(rank, out[..|out| - 1], x) + [out[|out| - 1]]
  }

  function Sorted(rank: Rule -> Rank, s: seq<Rule>): (r: seq<Rule>)
    ensures |r| == |s|
  {
    if s == [] then [] else Insert(rank, Sorted(rank, s[..|s| - 1]), s[|s| - 1])
  }

  ghost predicate InOrder(rank: Rule -> Rank, s: seq<Rule>) {
    forall i, j :: 0 <= i < j < |s| ==> !Less(rank(s[j]), rank(s[i]))
  }

  lemma {:induction false} InsertMembers(rank: Rule -> Rank, out: seq<Rule>, x: Rule)
    ensures forall y :: y in Insert(rank, out, x) <==> y == x || y in out
  {
    if out != [] && Less(rank(x), rank(out[|out| - 1])) {
      InsertMembers(rank, out[..|out| - 1], x);
      assert out == out[..|out| - 1] + [out[|out| - 1]];
    }
  }

  lemma {:induction false} InsertKeepsOrder(rank: Rule -> Rank, out: seq<Rule>, x: Rule)
    requires InOrder(rank, out)
    ensures InOrder(rank, Insert(rank, out, x))
  {
    if out != [] && Less(rank(x), rank(out[|out| - 1])) {
      var front, last := out[..|out| - 1], out[|out| - 1];
      InsertKeepsOrder(rank, front, x);
      InsertMembers(rank, front, x);
      var r := Insert(rank, front, x);
      forall i | 0 <= i < |r| ensures !Less(rank(last), rank(r[i])) {
        assert r[i] in r;
      }
    }
  }

  lemma {:induction false} SortedIsInOrder(rank: Rule -> Rank, s: seq<Rule>)
    ensures InOrder(rank, Sorted(rank, s))
  {
    if s != [] {
      SortedIsInOrder(rank, s[..|s| - 1]);
      InsertKeepsOrder(rank, Sorted(rank, s[..|s| - 1]), s[|s| - 1]);
    }
  }

  function Filter(keep: Rule -> bool, s: seq<Rule>): (r: seq<Rule>)
    ensures forall y :: y in r <==> y in s && keep(y)
  {
    if s == [] then [] else
      var front, last := Filter(keep, s[..|s| - 1]), s[|s| - 1];
      assert s == s[..|s| - 1] + [last];
      if keep(last) then front + [last] else front
  }

  lemma FilterSnoc(keep: Rule -> bool, s: seq<Rule>, x: Rule)
    ensures Filter(keep, s + [x]) == if keep(x) then Filter(keep, s) + [x] else Filter(keep, s)
  {
  }

  lemma FilterInsertAtEnd(keep: Rule -> bool, rank: Rule -> Rank, out: seq<Rule>, x: Rule)
    requires InOrder(rank, out) && (out == [] || !Less(rank(x), rank(out[|out| - 1])))
    ensures Insert(rank, Filter(keep, out), x) == Filter(keep, out) + [x]
  {
  }

  lemma InsertPast(rank: Rule -> Rank, kept: seq<Rule>, x: Rule, last: Rule)
    requires Less(rank(x), rank(last))
    ensures Insert(rank, kept + [last], x) == Insert(rank, kept, x) + [last]
  {
  }

  // x moves past the kept elements exactly as it moves past all of them.
  lemma {:induction false} FilterInsert(keep: Rule -> bool, rank: Rule -> Rank, out: seq<Rule>, x: Rule)
    requires InOrder(rank, out)
    ensures Filter(keep, Insert(rank, out, x)) ==
              if keep(x) then Insert(rank, Filter(keep, out), x) else Filter(keep, out)
  {
    if out == [] || !Less(rank(x), rank(out[|out| - 1])) {
      FilterSnoc(keep, out, x);
      FilterInsertAtEnd(keep, rank, out, x);
    } else {
      var front, last := out[..|out| - 1], out[|out| - 1];
      FilterInsert(keep, rank, front, x);
      FilterSnoc(keep, Insert(rank, front, x), last);
      InsertPast(rank, Filter(keep, front), x, last);
    }
  }

  // A stable sort commutes with dropping elements.
  lemma {:induction false} FilterSorted(keep: Rule -> bool, rank: Rule -> Rank, s: seq<Rule>)
    ensures Filter(keep, Sorted(rank, s)) == Sorted(rank, Filter(keep, s))
  {
    if s != [] {
      var front := s[..|s| - 1];
      FilterSorted(keep, rank, front);
      SortedIsInOrder(rank, front);
      FilterInsert(keep, rank, Sorted(rank, front), s[|s| - 1]);
      var kept := Filter(keep, front);
      assert (kept + [s[|s| - 1]])[..|kept|] == kept;
    }
  }

  lemma {:induction false} SortedConstant(rank: Rule -> Rank, s: seq<Rule>, k: Rank)
    requires forall i :: 0 <= i < |s| ==> rank(s[i]) == k
    ensures Sorted(rank, s) == s
  {
    if s != [] {
      SortedConstant(rank, s[..|s| - 1], k);
    }
  }

  // Sorting is in order, and the elements of each rank are the original ones in
  // their original order: nothing is lost, added or swapped among equals.
  lemma SortedIsStable(rank: Rule -> Rank, s: seq<Rule>, k: Rank)
    ensures InOrder(rank, Sorted(rank, s))
    ensures Filter(y => rank(y) == k, Sorted(rank, s)) == Filter(y => rank(y) == k, s)
  {
    SortedIsInOrder(rank, s);
    FilterSorted(y => rank(y) == k, rank, s);
    var kept := Filter(y => rank(y) == k, s);
    assert forall i :: 0 <= i < |kept| ==> kept[i] in kept;
    SortedConstant(rank, kept, k);
  }

  // ------------------------------------------------------- the one-pass winner

  function Better(rank: Rule -> Rank, best: Option<Rule>, x: Rule): Option<Rule> {
    if best.None? || Less(rank(x), rank(best.value)) then Some(x) else best
  }

  // Walk the list once and replace the best only by something strictly better.
  function Best(keep: Rule -> bool, rank: Rule -> Rank, s: seq<Rule>): Option<Rule> {
    if s == [] then None else
      var front, last := Best(keep, rank, s[..|s| - 1]), s[|s| - 1];
      if keep(last) then Better(rank, front, last) else front
  }

  // Rule k of the file wins: no matching rule ranks better, and those before it
  // rank worse.
  ghost predicate Wins(keep: Rule -> bool, rank: Rule -> Rank, s: seq<Rule>, k: int) {
    && 0 <= k < |s| && keep(s[k])
    && (forall j :: 0 <= j < |s| && keep(s[j]) ==> !Less(rank(s[j]), rank(s[k])))
    && (forall j :: 0 <= j < k && keep(s[j]) ==> Less(rank(s[k]), rank(s[j])))
  }

  // The one pass finds the winner, which is the only one, and finds nothing
  // exactly when no rule matches.
  lemma {:induction false} BestWins(keep: Rule -> bool, rank: Rule -> Rank, s: seq<Rule>, k: int)
    ensures Best(keep, rank, s).None? <==> forall j :: 0 <= j < |s| ==> !keep(s[j])
    ensures Wins(keep, rank, s, k) ==> Best(keep, rank, s) == Some(s[k])
    ensures Best(keep, rank, s).Some? ==> exists i :: Wins(keep, rank, s, i)
  {
    if s != [] {
      var front, last := s[..|s| - 1], |s| - 1;
      BestWins(keep, rank, front, k);
      if Best(keep, rank, front).Some? {
        var i :| Wins(keep, rank, front, i);
        BestWins(keep, rank, front, i);
        if keep(s[last]) && Less(rank(s[last]), rank(front[i])) {
          assert Wins(keep, rank, s, last);
        } else {
          assert Wins(keep, rank, s, i);
        }
      } else if keep(s[last]) {
        assert Wins(keep, rank, s, last);
      }
    }
  }

  function All(): Rule -> bool {
    _ => true
  }

  lemma {:induction false} BestOfFilter(keep: Rule -> bool, rank: Rule -> Rank, s: seq<Rule>)
    ensures Best(keep, rank, s) == Best(All(), rank, Filter(keep, s))
  {
    if s != [] {
      BestOfFilter(keep, rank, s[..|s| - 1]);
      var kept := Filter(keep, s[..|s| - 1]);
      assert (kept + [s[|s| - 1]])[..|kept|] == kept;
    }
  }

  lemma BestSnoc(rank: Rule -> Rank, s: seq<Rule>, x: Rule)
    ensures Best(All(), rank, s + [x]) == Better(rank, Best(All(), rank, s), x)
  {
  }

  // What is sorted by a coarser rank keeps its best.
  ghost predicate Coarser(coarse: Rule -> Rank, rank: Rule -> Rank) {
    forall x, y :: Less(coarse(x), coarse(y)) ==> Less(rank(x), rank(y))
  }

  lemma {:induction false} BestOfInsert(coarse: Rule -> Rank, rank: Rule -> Rank, out: seq<Rule>, x: Rule)
    requires Coarser(coarse, rank)
    ensures Best(All(), rank, Insert(coarse, out, x)) == Better(rank, Best(All(), rank, out), x)
  {
    if out == [] || !Less(coarse(x), coarse(out[|out| - 1])) {
      BestSnoc(rank, out, x);
    } else {
      var front, last := out[..|out| - 1], out[|out| - 1];
      BestOfInsert(coarse, rank, front, x);
      BestSnoc(rank, Insert(coarse, front, x), last);
    }
  }

  lemma {:induction false} BestOfSorted(coarse: Rule -> Rank, rank: Rule -> Rank, s: seq<Rule>)
    requires Coarser(coarse, rank)
    ensures Best(All(), rank, Sorted(coarse, s)) == Best(All(), rank, s)
  {
    if s != [] {
      BestOfSorted(coarse, rank, s[..|s| - 1]);
      BestOfInsert(coarse, rank, Sorted(coarse, s[..|s| - 1]), s[|s| - 1]);
    }
  }

  lemma {:induction false} BestOfInOrder(rank: Rule -> Rank, s: seq<Rule>)
    requires InOrder(rank, s) && s != []
    ensures Best(All(), rank, s) == Some(s[0])
  {
    if |s| > 1 {
      BestOfInOrder(rank, s[..|s| - 1]);
    }
  }

  // Sorting on load, filtering, and sorting again puts the one-pass winner of
  // the file as written in front.
  lemma TwoSortsFindBest(keep: Rule -> bool, cap: Capacity, file: seq<Rule>)
    ensures var rank := MatchRank(cap);
            var ranked := Sorted(rank, Filter(keep, Sorted(LoadRank, file)));
            Best(keep, rank, file) == if ranked == [] then None else Some(ranked[0])
  {
    var rank := MatchRank(cap);
    var candidates := Filter(keep, Sorted(LoadRank, file));
    FilterSorted(keep, LoadRank, file);
    BestOfFilter(keep, rank, file);
    BestOfSorted(LoadRank, rank, Filter(keep, file));
    BestOfSorted(rank, rank, candidates);
    SortedIsInOrder(rank, candidates);
    if candidates != [] {
      BestOfInOrder(rank, Sorted(rank, candidates));
    }
  }

  // -------------------------------------------------------- the winner on its fields

  function Busy(cap: Capacity, owner: string): int {
    match cap
    case None => 0
    case Some(load) => load(owner)
  }

  // Rule j of the file has to stand behind rule k: it has fewer patterns, or as
  // many and a lower priority, or the same priority and a busier owner, or
  // nothing but its later place.
  ghost predicate StandsBehind(cap: Capacity, file: seq<Rule>, j: int, k: int)
    requires 0 <= j < |file| && 0 <= k < |file|
  {
    || |file[j].patterns| < |file[k].patterns|
    || (|file[j].patterns| == |file[k].patterns| && file[j].priority < file[k].priority)
    || (|file[j].patterns| == |file[k].patterns| && file[j].priority == file[k].priority
        && Busy(cap, file[j].owner) > Busy(cap, file[k].owner))
    || (|file[j].patterns| == |file[k].patterns| && file[j].priority == file[k].priority
        && Busy(cap, file[j].owner) == Busy(cap, file[k].owner) && j > k)
  }

  // Rule k matches the task and every other match stands behind it.
  ghost predicate IsChosen(t: Facts, cap: Capacity, file: seq<Rule>, k: int) {
    && 0 <= k < |file| && RuleMatches(t, file[k])
    && forall j :: 0 <= j < |file| && j != k && RuleMatches(t, file[j]) ==> StandsBehind(cap, file, j, k)
  }

  lemma WinsOnFields(t: Facts, cap: Capacity, file: seq<Rule>, k: int)
    ensures Wins(Matching(t), MatchRank(cap), file, k) <==> IsChosen(t, cap, file, k)
  {
    if 0 <= k < |file| {
      forall j | 0 <= j < |file| && j != k
        ensures StandsBehind(cap, file, j, k) <==>
                  && !Less(MatchRank(cap)(file[j]), MatchRank(cap)(file[k]))
                  && (j < k ==> Less(MatchRank(cap)(file[k]), MatchRank(cap)(file[j])))
      {
      }
    }
  }

  // ----------------------------------------------------------------- comparators

  // The closures of MatchRule: getCap with its memo, and the less function.
  class Comparator {
    const cap: Capacity
    const loading: bool
    var capCache: map<string, int>

    constructor (cap: Capacity, loading: bool)
      ensures this.cap == cap && this.loading == loading && Valid()
    {
      this.cap, this.loading, capCache := cap, loading, map[];
    }

    ghost predicate Valid()
      reads this
    {
      forall o :: o in capCache ==> cap.Some? && capCache[o] == cap.value(o)
    }

    function Order(): Rule -> Rank {
      if loading then LoadRank else MatchRank(cap)
    }

    method GetCap(owner: string) returns (v: int)
      requires Valid()
      modifies this
      ensures Valid() && v == if cap.Some? then cap.value(owner) else 0
      ensures cap.Some? ==> capCache == old(capCache)[owner := v]
    {
      if cap.None? {
        return 0;
      }
      if owner in capCache {
        v := capCache[owner];
        assert capCache == capCache[owner := v];
        return;
      }
      v := cap.value(owner);
      capCache := capCache[owner := v];
    }

    method Before(x: Rule, y: Rule) returns (before: bool)
      requires Valid()
      modifies this
      ensures Valid() && before == Less(Order()(x), Order()(y))
    {
      var sx, sy := |x.patterns|, |y.patterns|;
      if loading || sx != sy {
        return sx > sy;
      }
      if x.priority != y.priority {
        return x.priority > y.priority;
      }
      var cx := GetCap(x.owner);
      var cy := GetCap(y.owner);
      before := cx < cy;
    }
  }

  // The stable sort, as insertion: element i moves left past what it precedes.
  method SortStable(a: array<Rule>, less: Comparator)
    requires less.Valid()
    modifies a, less
    ensures less.Valid() && a[..] == Sorted(less.Order(), old(a[..]))
  {
    var n := a.Length;
    ghost var was := a[..];
    for i := 0 to n
      invariant less.Valid()
      invariant a[..i] == Sorted(less.Order(), was[..i])
      invariant a[i..] == was[i..]
    {
      assert was[..i + 1][..i] == was[..i] && a[i] == a[i..][0] == was[i..][0] == was[i];
      assert a[i + 1..] == a[i..][1..] == was[i..][1..] == was[i + 1..];
      Place(a, less, i);
    }
    assert was[..n] == was && a[..n] == a[..];
  }

  lemma InsertPasses(rank: Rule -> Rank, front: seq<Rule>, j: nat, x: Rule, passed: seq<Rule>)
    requires 0 < j <= |front| && Less(rank(x), rank(front[j - 1]))
    ensures Insert(rank, front[..j], x) + passed == Insert(rank, front[..j - 1], x) + ([front[j - 1]] + passed)
  {
    assert front[..j][..j - 1] == front[..j - 1];
  }

  method Swap(a: array<Rule>, j: nat)
    requires 0 < j < a.Length
    modifies a
    ensures a[..] == old(a[..])[j := old(a[j - 1])][j - 1 := old(a[j])]
  {
    a[j], a[j - 1] := a[j - 1], a[j];
  }

  // The list with x on its way left, past the elements in `passed`.
  function Moving(front: seq<Rule>, j: nat, x: Rule, passed: seq<Rule>, rest: seq<Rule>): (s: seq<Rule>)
    requires j <= |front|
    ensures |s| == j + 1 + |passed| + |rest| && s[j] == x && (j > 0 ==> s[j - 1] == front[j - 1])
  {
    front[..j] + [x] + passed + rest
  }

  lemma MovingSwapped(front: seq<Rule>, j: nat, x: Rule, passed: seq<Rule>, rest: seq<Rule>)
    requires 0 < j <= |front|
    ensures Moving(front, j, x, passed, rest)[j := front[j - 1]][j - 1 := x]
         == Moving(front, j - 1, x, [front[j - 1]] + passed, rest)
  {
  }

  lemma MovingSplits(front: seq<Rule>, j: nat, x: Rule, passed: seq<Rule>, rest: seq<Rule>)
    requires j <= |front|
    ensures Moving(front, j, x, passed, rest)[..j + 1 + |passed|] == front[..j] + [x] + passed
    ensures Moving(front, j, x, passed, rest)[j + 1 + |passed|..] == rest
  {
  }

  method Place(a: array<Rule>, less: Comparator, i: nat)
    requires less.Valid() && i < a.Length
    modifies a, less
    ensures less.Valid() && a[..i + 1] == Insert(less.Order(), old(a[..i]), old(a[i]))
    ensures a[i + 1..] == old(a[i + 1..])
  {
    ghost var front, x, passed, rest := a[..i], a[i], [], a[i + 1..];
    ghost var rank := less.Order();
    assert a[..] == Moving(front, i, x, passed, rest);
    assert front[..i] == front && Insert(rank, front, x) + passed == Insert(rank, front, x);
    var j := i;
    while j > 0
      invariant 0 <= j <= i && |passed| == i - j && less.Valid()
      invariant a[..] == Moving(front, j, x, passed, rest)
      invariant Insert(rank, front, x) == Insert(rank, front[..j], x) + passed
    {
      assert a[j] == a[..][j] && a[j - 1] == a[..][j - 1];
      var before := less.Before(a[j], a[j - 1]);
      if !before {
        break;
      }
      InsertPasses(rank, front, j, x, passed);
      MovingSwapped(front, j, x, passed, rest);
      passed := [front[j - 1]] + passed;
      Swap(a, j);
      j := j - 1;
    }
    MovingSplits(front, j, x, passed, rest);
    assert a[..i + 1] == a[..][..i + 1] && a[i + 1..] == a[..][i + 1..];
  }

  // -------------------------------------------------------------------- registry

  predicate Named(r: Rule) {
    Trim(r.owner) != ""
  }

  function Normalised(r: Rule): Rule {
    if r.workflow == "" then r.(workflow := "code_task") else r
  }

  function NormalisedAll(file: seq<Rule>): (rules: seq<Rule>)
    ensures |rules| == |file| && forall i :: 0 <= i < |file| ==> rules[i] == Normalised(file[i])
  {
    seq(|file|, i requires 0 <= i < |file| => Normalised(file[i]))
  }

  function Matching(t: Facts): Rule -> bool {
    r => RuleMatches(t, r)
  }

  // The owners of the first k rules that match, each once, in order.
  function OwnersAmong(t: Facts, rules: seq<Rule>): (owners: seq<string>)
    ensures forall o :: o in owners <==> exists i :: 0 <= i < |rules| && RuleMatches(t, rules[i]) && rules[i].owner == o
    ensures forall i, j :: 0 <= i < j < |owners| ==> owners[i] != owners[j]
  {
    if rules == [] then [] else
      var front, last := OwnersAmong(t, rules[..|rules| - 1]), rules[|rules| - 1];
      if RuleMatches(t, last) && last.owner !in front then front + [last.owner] else front
  }

  method Parse(raw: seq<Rule>) returns (parsed: Option<seq<Rule>>)
    ensures parsed == if forall i :: 0 <= i < |raw| ==> Named(raw[i]) then Some(NormalisedAll(raw)) else None
  {
    var rules: seq<Rule> := [];
    for i := 0 to |raw|
      invariant rules == NormalisedAll(raw)[..i]
      invariant forall j :: 0 <= j < i ==> Named(raw[j])
    {
      if Trim(raw[i].owner) == "" {
        assert !Named(raw[i]);
        return None;
      }
      rules := rules + [Normalised(raw[i])];
    }
    assert NormalisedAll(raw)[..|raw|] == NormalisedAll(raw);
    parsed := Some(rules);
  }

  lemma BestIsChosen(t: Facts, cap: Capacity, file: seq<Rule>)
    ensures var best := Best(Matching(t), MatchRank(cap), file);
            && (best.None? <==> forall i :: 0 <= i < |file| ==> !RuleMatches(t, file[i]))
            && (best.Some? ==> exists k :: IsChosen(t, cap, file, k) && best == Some(file[k]))
  {
    BestWins(Matching(t), MatchRank(cap), file, 0);
    if Best(Matching(t), MatchRank(cap), file).Some? {
      var k :| Wins(Matching(t), MatchRank(cap), file, k);
      BestWins(Matching(t), MatchRank(cap), file, k);
      WinsOnFields(t, cap, file, k);
    }
  }

  class Registry {
    var rules: seq<Rule>
    ghost var file: seq<Rule>

    // A missing file means no rules.
    constructor ()
      ensures Valid() && file == []
    {
      rules, file := [], [];
    }

    ghost predicate Valid()
      reads this
    {
      rules == Sorted(LoadRank, file)
    }

    // reparseLocked: one rule without an owner rejects the file and keeps the
    // rules of before.
    method Reparse(raw: seq<Rule>) returns (ok: bool)
      requires Valid()
      modifies this
      ensures Valid()
      ensures ok <==> forall i :: 0 <= i < |raw| ==> Named(raw[i])
      ensures file == if ok then NormalisedAll(raw) else old(file)
      ensures ok ==> |file| == |raw| && forall i :: 0 <= i < |raw| ==>
                && file[i].(workflow := raw[i].workflow) == raw[i]
                && (raw[i].workflow != "" ==> file[i].workflow == raw[i].workflow)
                && (raw[i].workflow == "" ==> file[i].workflow == "code_task")
    {
      var parsed := Parse(raw);
      if parsed.None? {
        return false;
      }
      var a := new Rule[|parsed.value|](i requires 0 <= i < |parsed.value| => parsed.value[i]);
      assert a[..] == parsed.value;
      var less := new Comparator(None, true);
      SortStable(a, less);
      rules, file := a[..], parsed.value;
      ok := true;
    }

    method Candidates(t: Facts) returns (candidates: seq<Rule>)
      ensures candidates == Filter(Matching(t), rules)
    {
      candidates := [];
      for i := 0 to |rules|
        invariant candidates == Filter(Matching(t), rules[..i])
      {
        FilterSnoc(Matching(t), rules[..i], rules[i]);
        assert rules[..i + 1] == rules[..i] + [rules[i]];
        if RuleMatches(t, rules[i]) {
          candidates := candidates + [rules[i]];
        }
      }
      assert rules[..|rules|] == rules;
    }

    // The winner is the one a single pass over the file as written would find.
    method MatchRule(t: Facts, cap: Capacity) returns (winner: Option<Rule>)
      requires Valid()
      ensures winner == Best(Matching(t), MatchRank(cap), file)
      ensures winner.Some? ==> exists k :: IsChosen(t, cap, file, k) && winner == Some(file[k])
      ensures winner.None? <==> forall i :: 0 <= i < |file| ==> !RuleMatches(t, file[i])
    {
      var candidates := Candidates(t);
      TwoSortsFindBest(Matching(t), cap, file);
      BestIsChosen(t, cap, file);
      if |candidates| == 0 {
        return None;
      }
      var a := new Rule[|candidates|](i requires 0 <= i < |candidates| => candidates[i]);
      assert a[..] == candidates;
      var less := new Comparator(cap, false);
      SortStable(a, less);
      winner := Some(a[0]);
      assert a[0] == a[..][0];
    }

    // SuggestMatches.
    method SuggestMatches(t: Facts, limit: int) returns (out: seq<string>)
      ensures var most := if limit <= 0 then 5 else limit;
              var owners := OwnersAmong(t, rules);
              out == if |owners| <= most then owners else owners[..most]
    {
      var most := if limit <= 0 then 5 else limit;
      var seen: set<string> := {};
      out := [];
      for i := 0 to |rules|
        invariant out == OwnersAmong(t, rules[..i]) && |out| < most
        invariant forall o :: o in seen <==> o in out
      {
        assert rules[..i + 1][..i] == rules[..i] && rules[..i + 1][i] == rules[i];
        if !RuleMatches(t, rules[i]) || rules[i].owner in seen {
          continue;
        }
        seen := seen + {rules[i].owner};
        out := out + [rules[i].owner];
        if |out| >= most {
          OwnersGrow(t, rules, i + 1);
          return;
        }
      }
      assert rules[..|rules|] == rules;
    }
  }

  // Rule k is the first one of its owner that matches.
  ghost predicate FirstOf(t: Facts, rules: seq<Rule>, k: int, owner: string) {
    && 0 <= k < |rules| && RuleMatches(t, rules[k]) && rules[k].owner == owner
    && forall j :: 0 <= j < k && rules[j].owner == owner ==> !RuleMatches(t, rules[j])
  }

  lemma FirstStaysFirst(t: Facts, rules: seq<Rule>, k: int, owner: string)
    requires rules != [] && FirstOf(t, rules[..|rules| - 1], k, owner)
    ensures FirstOf(t, rules, k, owner)
  {
    var front := rules[..|rules| - 1];
    forall j | 0 <= j < k && rules[j].owner == owner ensures !RuleMatches(t, rules[j]) {
      assert front[j] == rules[j];
    }
  }

  lemma NewOwnerIsFirst(t: Facts, rules: seq<Rule>)
    requires rules != [] && RuleMatches(t, rules[|rules| - 1])
    requires rules[|rules| - 1].owner !in OwnersAmong(t, rules[..|rules| - 1])
    ensures FirstOf(t, rules, |rules| - 1, rules[|rules| - 1].owner)
  {
    var front, last := rules[..|rules| - 1], rules[|rules| - 1];
    forall j | 0 <= j < |front| && rules[j].owner == last.owner ensures !RuleMatches(t, rules[j]) {
      assert front[j] == rules[j];
    }
  }

  // The owners stand in the order in which their first matching rules do.
  lemma {:induction false} OwnersInOrder(t: Facts, rules: seq<Rule>) returns (at: seq<nat>)
    ensures |at| == |OwnersAmong(t, rules)|
    ensures forall i :: 0 <= i < |at| ==> FirstOf(t, rules, at[i], OwnersAmong(t, rules)[i])
    ensures forall i, j :: 0 <= i < j < |at| ==> at[i] < at[j]
  {
    at := [];
    if rules != [] {
      var front, last := rules[..|rules| - 1], rules[|rules| - 1];
      at := OwnersInOrder(t, front);
      forall i | 0 <= i < |at| ensures FirstOf(t, rules, at[i], OwnersAmong(t, front)[i]) && at[i] < |front| {
        assert FirstOf(t, front, at[i], OwnersAmong(t, front)[i]);
        FirstStaysFirst(t, rules, at[i], OwnersAmong(t, front)[i]);
      }
      if RuleMatches(t, last) && last.owner !in OwnersAmong(t, front) {
        NewOwnerIsFirst(t, rules);
        at := at + [|rules| - 1];
      }
    }
  }

  lemma {:induction false} OwnersGrow(t: Facts, rules: seq<Rule>, k: nat)
    requires k <= |rules|
    ensures OwnersAmong(t, rules[..k]) <= OwnersAmong(t, rules)
    decreases |rules| - k
  {
    if k < |rules| {
      OwnersGrow(t, rules, k + 1);
      assert rules[..k + 1][..k] == rules[..k];
    } else {
      assert rules[..k] == rules;
    }
  }
}
