// internal/scoring/reachability.go: transitive closure of the blocks map by a
// depth-first search with an explicit stack on which a node may wait twice.
module Reachability {
  import opened Graphs

  // The inner closure `reachable(start)`.
  method Reachable(blocks: Graph, start: int) returns (seen: set<int>)
    ensures forall y :: y in seen <==> Reaches(blocks, start, y)
  {
    seen := {};
    var stack := if start in blocks then blocks[start] else [];
    forall y | y in stack ensures Reaches(blocks, start, y) { EdgeReaches(blocks, start, y); }
    while |stack| > 0
      invariant seen <= Targets(blocks)
      invariant forall y :: y in stack ==> y in Targets(blocks) && Reaches(blocks, start, y)
      invariant forall y :: y in seen ==> Reaches(blocks, start, y)
      invariant forall y :: Edge(blocks, start, y) ==> y in seen || y in stack
      invariant forall u, v :: u in seen && Edge(blocks, u, v) ==> v in seen || v in stack
      decreases Targets(blocks) - seen, |stack|
    {
      var n := stack[|stack| - 1];
      ghost var before := stack;
      stack := stack[..|stack| - 1];
      assert before == stack + [n];
      if n in seen {
        continue;
      }
      seen := seen + {n};
      var next := if n in blocks then blocks[n] else [];
      forall y | y in next ensures Reaches(blocks, start, y) && y in Targets(blocks) {
        EdgeReaches(blocks, n, y);
        ReachesTrans(blocks, start, n, y);
        ReachedIsTarget(blocks, n, y);
      }
      stack := stack + next;
    }
    ClosedHoldsReached(blocks, start, seen);
  }

  // The result has a key for exactly the nodes that occur as a blocked task,
  // and maps each to exactly the nodes it reaches along one edge or more.
  method BlocksReachability(blocks: Graph) returns (out: map<int, set<int>>)
    ensures out.Keys == Targets(blocks)
    ensures forall x, y :: x in out ==> (y in out[x] <==> Reaches(blocks, x, y))
  {
    out := map[];
    var todo := blocks.Keys;
    while todo != {}
      invariant todo <= blocks.Keys
      invariant out.Keys <= Targets(blocks)
      invariant forall x, i :: x in blocks && x !in todo && 0 <= i < |blocks[x]| ==> blocks[x][i] in out
      invariant forall x, y :: x in out ==> (y in out[x] <==> Reaches(blocks, x, y))
    {
      HasElement(todo);
      var x :| x in todo;
      todo := todo - {x};
      var row := blocks[x];
      for k := 0 to |row|
        invariant out.Keys <= Targets(blocks)
        invariant forall i :: 0 <= i < k ==> row[i] in out
        invariant forall z, i :: z in blocks && z != x && z !in todo && 0 <= i < |blocks[z]| ==> blocks[z][i] in out
        invariant forall z, y :: z in out ==> (y in out[z] <==> Reaches(blocks, z, y))
      {
        if row[k] !in out {
          var seen := Reachable(blocks, row[k]);
          out := out[row[k] := seen];
        }
      }
    }
  }
}
