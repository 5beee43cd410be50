// MergeTasks of internal/store/store.go:2387-2761 as a contraction of the
// blocked_by graph: task b is absorbed into task a.
module Merging {
  import opened Text
  import opened Graphs
  import opened Tasks

  // ----------------------------------------------------------- list operations

  // Inserting into a list that is kept sorted and free of repetitions.
  function Insert<T(==,!new)>(less: (T, T) -> bool, out: seq<T>, v: T): (r: seq<T>)
    ensures forall x :: x in r <==> x == v || x in out
  {
    if out == [] then [v]
    else if out[0] == v then out
    else if less(v, out[0]) then [v] + out
    else
      assert out == [out[0]] + out[1..];
      [out[0]] + Insert(less, out[1..], v)
  }

  function InsertAll<T(==,!new)>(less: (T, T) -> bool, out: seq<T>, vs: seq<T>): (r: seq<T>)
    ensures forall x :: x in r <==> x in out || x in vs
  {
    if vs == [] then out else
      assert vs == vs[..|vs| - 1] + [vs[|vs| - 1]];
      Insert(less, InsertAll(less, out, vs[..|vs| - 1]), vs[|vs| - 1])
  }

  predicate IntLess(x: int, y: int) {
    x < y
  }

  predicate TextLess(x: string, y: string) {
    y != "" && (x == "" || x[0] < y[0] || (x[0] == y[0] && TextLess(x[1..], y[1..])))
  }

  ghost predicate StrictOrder<T(!new)>(less: (T, T) -> bool) {
    && (forall x :: !less(x, x))
    && (forall x, y :: less(x, y) || x == y || less(y, x))
    && (forall x, y, z :: less(x, y) && less(y, z) ==> less(x, z))
  }

  lemma {:induction false} TextTrichotomy(x: string, y: string)
    ensures !TextLess(x, x)
    ensures TextLess(x, y) || x == y || TextLess(y, x)
  {
    if x != "" {
      TextTrichotomy(x[1..], if y == "" then y else y[1..]);
    }
    if x != "" && y != "" && x[0] == y[0] && x[1..] == y[1..] {
      assert x == [x[0]] + x[1..] && y == [y[0]] + y[1..];
    }
  }

  lemma {:induction false} TextTransitive(x: string, y: string, z: string)
    requires TextLess(x, y) && TextLess(y, z)
    ensures TextLess(x, z)
  {
    if x != "" && x[0] == y[0] == z[0] {
      TextTransitive(x[1..], y[1..], z[1..]);
    }
  }

  lemma OrdersAreStrict()
    ensures StrictOrder(IntLess) && StrictOrder(TextLess)
  {
    forall x, y ensures !TextLess(x, x) && (TextLess(x, y) || x == y || TextLess(y, x)) {
      TextTrichotomy(x, y);
    }
    forall x, y, z | TextLess(x, y) && TextLess(y, z) ensures TextLess(x, z) {
      TextTransitive(x, y, z);
    }
  }

  ghost predicate Ascending<T(!new)>(less: (T, T) -> bool, s: seq<T>) {
    forall i, j :: 0 <= i < j < |s| ==> less(s[i], s[j])
  }

  lemma {:induction false} InsertAscends<T(!new)>(less: (T, T) -> bool, out: seq<T>, v: T)
    requires StrictOrder(less) && Ascending(less, out)
    ensures Ascending(less, Insert(less, out, v))
  {
    if out == [] {
    } else if out[0] != v && !less(v, out[0]) {
      InsertAscends(less, out[1..], v);
      var r := Insert(less, out[1..], v);
      forall k | 0 <= k < |r| ensures less(out[0], r[k]) {
        assert r[k] in r;
        assert r[k] == v || r[k] in out[1..];
      }
    }
  }

  lemma {:induction false} InsertAllAscends<T(!new)>(less: (T, T) -> bool, out: seq<T>, vs: seq<T>)
    requires StrictOrder(less) && Ascending(less, out)
    ensures Ascending(less, InsertAll(less, out, vs))
  {
    if vs != [] {
      InsertAllAscends(less, out, vs[..|vs| - 1]);
      InsertAscends(less, InsertAll(less, out, vs[..|vs| - 1]), vs[|vs| - 1]);
    }
  }

  lemma EmptyIfNoMembers<T>(s: seq<T>, t: seq<T>)
    requires forall v :: v in s ==> v in t
    ensures t == [] ==> s == []
  {
    if s != [] {
      assert s[0] in s && s[0] in t;
    }
  }

  lemma AscendingHead<T(!new)>(less: (T, T) -> bool, s: seq<T>, t: seq<T>)
    requires StrictOrder(less) && Ascending(less, s) && Ascending(less, t)
    requires s != [] && t != [] && s[0] in t
    ensures !less(s[0], t[0])
  {
  }

  // A set has one ascending list, however it was ranged over.
  lemma {:induction false} AscendingIsUnique<T(!new)>(less: (T, T) -> bool, s: seq<T>, t: seq<T>)
    requires StrictOrder(less) && Ascending(less, s) && Ascending(less, t)
    requires forall v :: v in s <==> v in t
    ensures s == t
    decreases |s|
  {
    EmptyIfNoMembers(s, t);
    EmptyIfNoMembers(t, s);
    if s != [] {
      assert s[0] in s && s[0] in t;
      assert t[0] in t && t[0] in s;
      AscendingHead(less, s, t);
      AscendingHead(less, t, s);
      TailMembers(less, s);
      TailMembers(less, t);
      AscendingIsUnique(less, s[1..], t[1..]);
    }
  }

  lemma TailMembers<T(!new)>(less: (T, T) -> bool, s: seq<T>)
    requires StrictOrder(less) && Ascending(less, s) && s != []
    ensures forall v :: v in s[1..] <==> v in s && v != s[0]
  {
  }

  // mergeIntSetSortedExclude.
  function UnionExcept(xs: seq<int>, ys: seq<int>, exclude: int): (r: seq<int>)
    ensures forall v :: v in r <==> v != exclude && (v in xs || v in ys)
  {
    WithoutMembers(xs, exclude);
    WithoutMembers(ys, exclude);
    InsertAll(IntLess, InsertAll(IntLess, [], Without(xs, exclude)), Without(ys, exclude))
  }

  // mergeStringSetSorted.
  function UnionTexts(xs: seq<string>, ys: seq<string>): (r: seq<string>)
    ensures forall v :: v in r <==> v in xs || v in ys
  {
    InsertAll(TextLess, InsertAll(TextLess, [], xs), ys)
  }

  // Each union is the only strictly ascending list of its members.
  lemma UnionExceptIs(xs: seq<int>, ys: seq<int>, exclude: int, r: seq<int>)
    ensures r == UnionExcept(xs, ys, exclude) <==>
              Ascending(IntLess, r) && forall v :: v in r <==> v != exclude && (v in xs || v in ys)
  {
    OrdersAreStrict();
    InsertAllAscends(IntLess, [], Without(xs, exclude));
    InsertAllAscends(IntLess, InsertAll(IntLess, [], Without(xs, exclude)), Without(ys, exclude));
    if Ascending(IntLess, r) && forall v :: v in r <==> v != exclude && (v in xs || v in ys) {
      AscendingIsUnique(IntLess, r, UnionExcept(xs, ys, exclude));
    }
  }

  lemma UnionTextsIs(xs: seq<string>, ys: seq<string>, r: seq<string>)
    ensures r == UnionTexts(xs, ys) <==> Ascending(TextLess, r) && forall v :: v in r <==> v in xs || v in ys
  {
    OrdersAreStrict();
    InsertAllAscends(TextLess, [], xs);
    InsertAllAscends(TextLess, InsertAll(TextLess, [], xs), ys);
    if Ascending(TextLess, r) && forall v :: v in r <==> v in xs || v in ys {
      AscendingIsUnique(TextLess, r, UnionTexts(xs, ys));
    }
  }

  // A dependent's list with b replaced by a, keeping the first of equal ids.
  function Redirected(s: seq<int>, a: int, b: int): (r: seq<int>)
    requires a != b
    ensures forall v :: v in r <==> (v != b && v in s) || (v == a && b in s)
    ensures forall i, j :: 0 <= i < j < |r| ==> r[i] != r[j]
  {
    if s == [] then [] else
      var front, last := Redirected(s[..|s| - 1], a, b), s[|s| - 1];
      assert s == s[..|s| - 1] + [last];
      var target := if last == b then a else last;
      if target in front then front else front + [target]
  }

  // Items of more, each with the prefix, that are not there yet.
  function AppendNew(s: seq<string>, prefix: string, more: seq<string>): (r: seq<string>)
    ensures s <= r && forall v :: v in r <==> v in s || exists m :: m in more && v == prefix + m
  {
    if more == [] then s else
      var front, item := AppendNew(s, prefix, more[..|more| - 1]), prefix + more[|more| - 1];
      assert more == more[..|more| - 1] + [more[|more| - 1]];
      if item in front then front else front + [item]
  }

  // -------------------------------------------------------------- the contraction

  function Absorber(a: Task, b: Task, aId: int, bId: int): Task {
    a.(blockedBy := UnionExcept(a.blockedBy, b.blockedBy, aId),
       consumers := UnionTexts(a.consumers, b.consumers),
       doneWhen := AppendNew(a.doneWhen, "(from #" + Render(bId) + ") ", b.doneWhen),
       references := AppendNew(a.references, "", b.references),
       tags := UnionTexts(a.tags, b.tags),
       note := if b.note == "" then a.note else a.note + (if a.note == "" then "" else "\n") + b.note)
  }

  function Absorbed(b: Task, aId: int): Task {
    b.(status := SUPERSEDED, note := "Merged into #" + Render(aId))
  }

  function Merged(tasks: map<int, Task>, a: int, b: int): (m: map<int, Task>)
    requires a in tasks && b in tasks && a != b
    ensures m.Keys == tasks.Keys
  {
    map id | id in tasks ::
      if id == a then Absorber(tasks[a], tasks[b], a, b)
      else if id == b then Absorbed(tasks[b], a)
      else if b in tasks[id].blockedBy then tasks[id].(blockedBy := Redirected(tasks[id].blockedBy, a, b))
      else tasks[id]
  }

  function Renamed(x: int, a: int, b: int): int {
    if x == b then a else x
  }

  // The quotient of a graph in which b is identified with a, self-loops on a
  // removed.
  ghost predicate ContractedEdge(g: Graph, a: int, b: int, x: int, y: int) {
    !(x == a && y == a) && exists x0, y0 :: Edge(g, x0, y0) && Renamed(x0, a, b) == x && Renamed(y0, a, b) == y
  }

  // Over all tasks but b, merging is exactly contraction. The one difference is
  // a b left in a's own list, precisely when a or b had b as a blocker.
  lemma MergeIsContraction(tasks: map<int, Task>, a: int, b: int, x: int, y: int)
    requires a in tasks && b in tasks && a != b && x != b
    ensures var g, g' := BlockedBy(tasks), BlockedBy(Merged(tasks, a, b));
            Edge(g', x, y) <==>
              ContractedEdge(g, a, b, x, y) || (x == a && y == b && (Edge(g, a, b) || Edge(g, b, b)))
  {
    var g, g' := BlockedBy(tasks), BlockedBy(Merged(tasks, a, b));
    if ContractedEdge(g, a, b, x, y) {
      var x0, y0 :| Edge(g, x0, y0) && Renamed(x0, a, b) == x && Renamed(y0, a, b) == y;
    }
    if Edge(g', x, y) && !(x == a && y == b) {
      if x == a {
        assert Edge(g, a, y) || Edge(g, b, y);
        assert Renamed(a, a, b) == a && Renamed(b, a, b) == a && Renamed(y, a, b) == y;
      } else {
        assert Renamed(x, a, b) == x && Renamed(b, a, b) == a;
        if y != b && y in g[x] {
          assert Edge(g, x, y) && Renamed(y, a, b) == y;
        } else {
          assert Edge(g, x, b) && y == a;
        }
      }
    }
  }

  // ------------------------------------------------------------------ acyclicity

  // A path from x to y through some task in between.
  ghost predicate Indirect(g: Graph, x: int, y: int) {
    exists m :: Reaches(g, x, m) && Reaches(g, m, y)
  }

  lemma MergedEdges(tasks: map<int, Task>, a: int, b: int, x: int, y: int)
    requires a in tasks && b in tasks && a != b
    ensures var g, g' := BlockedBy(tasks), BlockedBy(Merged(tasks, a, b));
            Edge(g', x, y) <==>
              if x == a then y != a && (Edge(g, a, y) || Edge(g, b, y))
              else if x == b then Edge(g, b, y)
              else if y == b then false
              else Edge(g, x, y) || (y == a && Edge(g, x, b))
  {
  }

  // Away from a, the merged graph has no new path.
  lemma PathAvoidingA(tasks: map<int, Task>, a: int, b: int, p: seq<int>)
    requires a in tasks && b in tasks && a != b
    requires Path(BlockedBy(Merged(tasks, a, b)), p) && a !in p
    ensures Path(BlockedBy(tasks), p)
  {
  }

  lemma {:induction false} FirstReturn(p: seq<int>, a: int, k: nat) returns (i: nat)
    requires 1 <= k < |p| && p[|p| - 1] == a
    requires forall j :: 1 <= j < k ==> p[j] != a
    ensures k <= i < |p| && p[i] == a && forall j :: 1 <= j < i ==> p[j] != a
    decreases |p| - k
  {
    if p[k] == a {
      i := k;
    } else {
      i := FirstReturn(p, a, k + 1);
    }
  }

  // A loop through a in the merged graph runs, away from a, along old edges
  // from a or b to a or b.
  lemma LoopUnmerges(tasks: map<int, Task>, a: int, b: int, p: seq<int>)
    requires a in tasks && b in tasks && a != b
    requires PathBetween(BlockedBy(Merged(tasks, a, b)), p, a, a)
    requires forall j :: 1 <= j < |p| - 1 ==> p[j] != a
    ensures exists s, m, t :: s in {a, b} && t in {a, b} &&
              Reaches(BlockedBy(tasks), s, m) && Reaches(BlockedBy(tasks), m, t)
  {
    var g, g' := BlockedBy(tasks), BlockedBy(Merged(tasks, a, b));
    var k := |p| - 1;
    assert Edge(g', p[0], p[1]) && Edge(g', p[k - 1], p[k]);
    MergedEdges(tasks, a, b, p[0], p[1]);
    MergedEdges(tasks, a, b, p[k - 1], p[k]);
    var m, n := p[1], p[k - 1];
    var s := if Edge(g, a, m) then a else b;
    var t := if Edge(g, n, a) then a else b;
    EdgeReaches(g, s, m);
    EdgeReaches(g, n, t);
    if k > 2 {
      SubPath(g', p, 1, k);
      PathAvoidingA(tasks, a, b, p[1..k]);
      assert PathBetween(g, p[1..k], m, n);
      ReachesTrans(g, m, n, t);
    }
  }

  lemma LoopMeansOldPath(tasks: map<int, Task>, a: int, b: int)
    requires a in tasks && b in tasks && a != b
    requires Reaches(BlockedBy(Merged(tasks, a, b)), a, a)
    ensures exists s, m, t :: s in {a, b} && t in {a, b} &&
              Reaches(BlockedBy(tasks), s, m) && Reaches(BlockedBy(tasks), m, t)
  {
    var g' := BlockedBy(Merged(tasks, a, b));
    var p :| PathBetween(g', p, a, a);
    var i := FirstReturn(p, a, 1);
    SubPath(g', p, 0, i + 1);
    LoopUnmerges(tasks, a, b, p[..i + 1]);
  }

  lemma CycleIsOldOrThroughA(tasks: map<int, Task>, a: int, b: int, x: int)
    requires a in tasks && b in tasks && a != b
    requires Reaches(BlockedBy(Merged(tasks, a, b)), x, x)
    ensures Reaches(BlockedBy(Merged(tasks, a, b)), a, a) || Reaches(BlockedBy(tasks), x, x)
  {
    var g' := BlockedBy(Merged(tasks, a, b));
    var p :| PathBetween(g', p, x, x);
    if a in p {
      CycleThrough(g', p, a);
    } else {
      PathAvoidingA(tasks, a, b, p);
      assert PathBetween(BlockedBy(tasks), p, x, x);
    }
  }

  lemma NoIndirectPathNoCycle(tasks: map<int, Task>, a: int, b: int, x: int)
    requires a in tasks && b in tasks && a != b && Acyclic(BlockedBy(tasks))
    requires !Indirect(BlockedBy(tasks), a, b) && !Indirect(BlockedBy(tasks), b, a)
    ensures !Reaches(BlockedBy(Merged(tasks, a, b)), x, x)
  {
    var g, g' := BlockedBy(tasks), BlockedBy(Merged(tasks, a, b));
    if Reaches(g', x, x) {
      CycleIsOldOrThroughA(tasks, a, b, x);
      LoopMeansOldPath(tasks, a, b);
      var s, m, t :| s in {a, b} && t in {a, b} && Reaches(g, s, m) && Reaches(g, m, t);
      ReachesTrans(g, s, m, t);
    }
  }

  lemma CycleThrough(g: Graph, p: seq<int>, a: int)
    requires Path(g, p) && p[0] == p[|p| - 1] && a in p
    ensures Reaches(g, a, a)
  {
    var i :| 0 <= i < |p| && p[i] == a;
    if 0 < i < |p| - 1 {
      SubPath(g, p, 0, i + 1);
      SubPath(g, p, i, |p|);
      ReachesTrans(g, a, p[0], a);
    } else {
      assert PathBetween(g, p, a, a);
    }
  }

  // An old path from one of a, b to the other with something in between closes
  // to a cycle through a.
  lemma PathBecomesCycle(tasks: map<int, Task>, a: int, b: int, p: seq<int>)
    requires a in tasks && b in tasks && a != b
    requires Path(BlockedBy(tasks), p) && |p| >= 3 && p[0] in {a, b} && p[|p| - 1] in {a, b}
    requires forall i :: 0 < i < |p| - 1 ==> p[i] != a && p[i] != b
    ensures Reaches(BlockedBy(Merged(tasks, a, b)), a, a)
  {
    var last := |p| - 1;
    var q := [a] + p[1..last] + [a];
    forall i, j | 0 <= i < j < |q| && j == i + 1
      ensures Edge(BlockedBy(Merged(tasks, a, b)), q[i], q[j])
    {
      assert Edge(BlockedBy(tasks), p[i], p[j]);
      MergedEdges(tasks, a, b, q[i], q[j]);
    }
    assert PathBetween(BlockedBy(Merged(tasks, a, b)), q, a, a);
  }

  lemma IndirectPathMakesCycle(tasks: map<int, Task>, a: int, b: int, s: int, t: int)
    requires a in tasks && b in tasks && a != b && Acyclic(BlockedBy(tasks))
    requires (s == a && t == b) || (s == b && t == a)
    requires Indirect(BlockedBy(tasks), s, t)
    ensures Reaches(BlockedBy(Merged(tasks, a, b)), a, a)
  {
    var g := BlockedBy(tasks);
    var m :| Reaches(g, s, m) && Reaches(g, m, t);
    var p0 :| PathBetween(g, p0, s, m);
    var p1 :| PathBetween(g, p1, m, t);
    var p := p0 + p1[1..];
    JoinPaths(g, p0, p1);
    forall i | 0 < i < |p| - 1 ensures p[i] != a && p[i] != b {
      AcyclicPathsDoNotRepeat(g, p, 0, i);
      AcyclicPathsDoNotRepeat(g, p, i, |p| - 1);
    }
    PathBecomesCycle(tasks, a, b, p);
  }

  // Exactly when merging keeps the blocked_by graph acyclic: when neither task
  // blocks the other through a third one.
  lemma MergeKeepsAcyclicIff(tasks: map<int, Task>, a: int, b: int)
    requires a in tasks && b in tasks && a != b && Acyclic(BlockedBy(tasks))
    ensures Acyclic(BlockedBy(Merged(tasks, a, b))) <==>
              !Indirect(BlockedBy(tasks), a, b) && !Indirect(BlockedBy(tasks), b, a)
  {
    var g := BlockedBy(tasks);
    if Indirect(g, a, b) {
      IndirectPathMakesCycle(tasks, a, b, a, b);
    } else if Indirect(g, b, a) {
      IndirectPathMakesCycle(tasks, a, b, b, a);
    } else {
      forall x ensures !Reaches(BlockedBy(Merged(tasks, a, b)), x, x) {
        NoIndirectPathNoCycle(tasks, a, b, x);
      }
    }
  }

  // In particular when neither transitively blocks the other.
  lemma MergeOfUnrelatedTasks(tasks: map<int, Task>, a: int, b: int)
    requires a in tasks && b in tasks && a != b && Acyclic(BlockedBy(tasks))
    requires !Reaches(BlockedBy(tasks), a, b) && !Reaches(BlockedBy(tasks), b, a)
    ensures Acyclic(BlockedBy(Merged(tasks, a, b)))
  {
    var g := BlockedBy(tasks);
    forall m ensures !(Reaches(g, a, m) && Reaches(g, m, b)) && !(Reaches(g, b, m) && Reaches(g, m, a)) {
      if Reaches(g, a, m) && Reaches(g, m, b) {
        ReachesTrans(g, a, m, b);
      }
      if Reaches(g, b, m) && Reaches(g, m, a) {
        ReachesTrans(g, b, m, a);
      }
    }
    MergeKeepsAcyclicIff(tasks, a, b);
  }
}
