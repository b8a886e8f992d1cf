/** Liu's elimination tree: path compression computes, for every vertex, the least later
    vertex reachable through earlier ones. */
module Etree {

  /** The pattern as rows: the entries of row k below k are its earlier neighbours; the
      others are ignored. */
  predicate Neighbour(rows: seq<seq<int>>, a: int, b: int) {
    0 <= a < b < |rows| && a in rows[b]
  }

  predicate Adjacent(rows: seq<seq<int>>, a: int, b: int) {
    Neighbour(rows, a, b) || Neighbour(rows, b, a)
  }

  // ---- the specification: paths through earlier vertices ----

  ghost predicate Walk(rows: seq<seq<int>>, p: seq<int>) {
    forall i | 0 < i < |p| :: Adjacent(rows, p[i - 1], p[i])
  }

  // A walk from j to k whose inner vertices are below j.
  ghost predicate Through(rows: seq<seq<int>>, j: int, k: int, p: seq<int>) {
    && |p| >= 2 && p[0] == j && p[|p| - 1] == k && Walk(rows, p)
    && forall i | 0 < i < |p| - 1 :: p[i] < j
  }

  ghost predicate Reaches(rows: seq<seq<int>>, j: int, k: int) {
    exists p :: Through(rows, j, k, p)
  }

  /** parent[j] is the least k > j that j reaches, or -1. */
  ghost predicate IsEtree(rows: seq<seq<int>>, parent: seq<int>) {
    && |parent| == |rows|
    && forall j | 0 <= j < |rows| ::
         if parent[j] == -1 then forall k | j < k :: !Reaches(rows, j, k)
         else parent[j] > j && Reaches(rows, j, parent[j]) && forall k | j < k < parent[j] :: !Reaches(rows, j, k)
  }

  /** The tree is unique: patterns with the same adjacency have the same one, so it does
      not depend on the order or the repetition of a row's entries. */
  lemma EtreeUnique(rows: seq<seq<int>>, rows': seq<seq<int>>, parent: seq<int>, parent': seq<int>)
    requires IsEtree(rows, parent) && IsEtree(rows', parent') && |rows| == |rows'|
    requires forall a, b :: Neighbour(rows, a, b) <==> Neighbour(rows', a, b)
    ensures parent == parent'
  {
    forall j | 0 <= j < |rows|
      ensures parent[j] == parent'[j]
    {
      forall k
        ensures Reaches(rows, j, k) <==> Reaches(rows', j, k)
      {
        SameReach(rows, rows', j, k);
        SameReach(rows', rows, j, k);
      }
    }
  }

  lemma SameReach(rows: seq<seq<int>>, rows': seq<seq<int>>, j: int, k: int)
    requires forall a, b :: Neighbour(rows, a, b) <==> Neighbour(rows', a, b)
    ensures Reaches(rows, j, k) ==> Reaches(rows', j, k)
  {
    if Reaches(rows, j, k) {
      var p :| Through(rows, j, k, p);
      assert Through(rows', j, k, p);
    }
  }

  // ---- the forest after the rows below k ----

  // Parents point up, -1 at roots.
  ghost predicate Upward(parent: seq<int>) {
    forall v | 0 <= v < |parent| :: parent[v] == -1 || v < parent[v] < |parent|
  }

  // Root of v's tree once the rows below k are in: links to k and beyond do not count.
  ghost function Root(parent: seq<int>, k: int, v: int): int
    requires Upward(parent) && 0 <= v < |parent|
    decreases |parent| - v
  {
    if parent[v] == -1 || parent[v] >= k then v else Root(parent, k, parent[v])
  }

  lemma {:induction false} RootIs(parent: seq<int>, k: int, v: int)
    requires Upward(parent) && 0 <= v < |parent|
    ensures v <= Root(parent, k, v) < |parent| && (v < k ==> Root(parent, k, v) < k)
    ensures var r := Root(parent, k, v); (parent[r] == -1 || parent[r] >= k) && Root(parent, k, r) == r
    decreases |parent| - v
  {
    if parent[v] != -1 && parent[v] < k { RootIs(parent, k, parent[v]); }
  }

  // Later links only extend the chain.
  lemma {:induction false} RootOfRoot(parent: seq<int>, k: int, k': int, v: int)
    requires Upward(parent) && 0 <= v < |parent| && k <= k'
    ensures 0 <= Root(parent, k, v) < |parent| && Root(parent, k', v) == Root(parent, k', Root(parent, k, v))
    decreases |parent| - v
  {
    RootIs(parent, k, v);
    if parent[v] != -1 && parent[v] < k { RootOfRoot(parent, k, k', parent[v]); }
  }

  // A link to k does not show in the forest before k.
  lemma {:induction false} RootUnlinked(parent: seq<int>, k: int, r: int, v: int)
    requires Upward(parent) && 0 <= v < |parent| && 0 <= r < k < |parent| && parent[r] == -1
    ensures Upward(parent[r := k]) && Root(parent[r := k], k, v) == Root(parent, k, v)
    decreases |parent| - v
  {
    if parent[v] != -1 && parent[v] < k { RootUnlinked(parent, k, r, parent[v]); }
  }

  // ---- soundness: every link is reached ----

  ghost predicate Linked(rows: seq<seq<int>>, parent: seq<int>) {
    |parent| == |rows| && Upward(parent) && forall v | 0 <= v < |parent| && parent[v] != -1 :: Reaches(rows, v, parent[v])
  }

  function Reversed(p: seq<int>): (r: seq<int>)
    ensures |r| == |p| && forall i | 0 <= i < |p| :: r[i] == p[|p| - 1 - i]
  {
    if |p| == 0 then [] else Reversed(p[1..]) + [p[0]]
  }

  lemma ReversedWalk(rows: seq<seq<int>>, p: seq<int>)
    requires Walk(rows, p)
    ensures Walk(rows, Reversed(p))
  {
    var r := Reversed(p);
    forall i | 0 < i < |r|
      ensures Adjacent(rows, r[i - 1], r[i])
    {
      var x := |p| - i;
      assert r[i - 1] == p[x] && r[i] == p[x - 1];
      assert Adjacent(rows, p[x - 1], p[x]);
    }
  }

  // A walk from r0 to v that stays below r0 after its start.
  ghost predicate Down(rows: seq<seq<int>>, r0: int, v: int, p: seq<int>) {
    && |p| >= 1 && p[0] == r0 && p[|p| - 1] == v && Walk(rows, p)
    && forall i | 0 < i < |p| :: p[i] < r0
  }

  lemma JoinWalks(rows: seq<seq<int>>, p: seq<int>, q: seq<int>)
    requires |p| >= 1 && |q| >= 1 && Walk(rows, p) && Walk(rows, q) && p[|p| - 1] == q[0]
    ensures Walk(rows, p + q[1..])
  {
    var r := p + q[1..];
    forall i | 0 < i < |r|
      ensures Adjacent(rows, r[i - 1], r[i])
    {
      if i >= |p| {
        var x := i - |p| + 1;
        assert Adjacent(rows, q[x - 1], q[x]);
        assert r[i] == q[x];
        assert r[i - 1] == q[x - 1];
      }
    }
  }

  // From the root of a tree there is a walk down to each of its vertices.
  lemma {:induction false} WalkDown(rows: seq<seq<int>>, parent: seq<int>, k: int, v: int) returns (p: seq<int>)
    requires Linked(rows, parent) && 0 <= v < |parent|
    ensures Down(rows, Root(parent, k, v), v, p)
    decreases |parent| - v
  {
    if parent[v] == -1 || parent[v] >= k {
      p := [v];
    } else {
      var y := parent[v];
      var up := WalkDown(rows, parent, k, y);
      var q :| Through(rows, v, y, q);
      ReversedWalk(rows, q);
      var d := Reversed(q);
      JoinWalks(rows, up, d);
      p := up + d[1..];
      RootIs(parent, k, y);
      assert forall i | 0 < i < |d| :: d[i] == q[|q| - 1 - i];
      assert forall i | 0 < i < |d| :: d[i] <= v;
      assert p[|p| - 1] == v;
    }
  }

  // A root with a vertex next to k in its tree reaches k.
  lemma RootReaches(rows: seq<seq<int>>, parent: seq<int>, k: int, v: int)
    requires Linked(rows, parent) && 0 <= v < k < |parent| && Neighbour(rows, v, k)
    ensures Reaches(rows, Root(parent, k, v), k)
  {
    var p := WalkDown(rows, parent, k, v);
    JoinWalks(rows, p, [v, k]);
    assert p + [v, k][1..] == p + [k];
    assert Through(rows, Root(parent, k, v), k, p + [k]);
  }

  // ---- completeness ----

  // Once row b is in, each of its earlier neighbours is in b's tree.
  ghost predicate Connected(rows: seq<seq<int>>, parent: seq<int>, hi: int)
    requires Upward(parent) && |parent| == |rows|
  {
    forall a, b | Neighbour(rows, a, b) && b < hi :: Root(parent, b + 1, a) == b
  }

  lemma SelfRoot(parent: seq<int>, b: int)
    requires Upward(parent) && 0 <= b < |parent|
    ensures Root(parent, b + 1, b) == b
  {
  }

  // Adjacent vertices below k share a root.
  lemma AdjacentRoots(rows: seq<seq<int>>, parent: seq<int>, k: int, a: int, b: int)
    requires |parent| == |rows| && Upward(parent) && Connected(rows, parent, |rows|)
    requires Adjacent(rows, a, b) && a < k && b < k
    ensures Root(parent, k, a) == Root(parent, k, b)
  {
    var x, y := if a < b then a else b, if a < b then b else a;
    assert Neighbour(rows, x, y);
    RootOfRoot(parent, y + 1, k, x);
  }

  lemma {:induction false} WalkRoots(rows: seq<seq<int>>, parent: seq<int>, k: int, p: seq<int>)
    requires |parent| == |rows| && Upward(parent) && Connected(rows, parent, |rows|)
    requires |p| >= 1 && Walk(rows, p) && (forall i | 0 <= i < |p| :: 0 <= p[i] < k) && p[0] < |rows|
    ensures 0 <= p[|p| - 1] < |rows| && Root(parent, k, p[|p| - 1]) == Root(parent, k, p[0])
    decreases |p|
  {
    if |p| > 1 {
      var q := p[..|p| - 1];
      WalkRoots(rows, parent, k, q);
      assert Adjacent(rows, p[|p| - 2], p[|p| - 1]);
      AdjacentRoots(rows, parent, k, p[|p| - 2], p[|p| - 1]);
    }
  }

  lemma WalkInside(rows: seq<seq<int>>, p: seq<int>, i: int)
    requires Walk(rows, p) && |p| >= 2 && 0 <= i < |p|
    ensures 0 <= p[i] < |rows|
  {
    if i > 0 { assert Adjacent(rows, p[i - 1], p[i]); } else { assert Adjacent(rows, p[0], p[1]); }
  }

  // What j reaches lies on j's chain of parents, so the parent is no later.
  lemma ReachedIsAbove(rows: seq<seq<int>>, parent: seq<int>, j: int, k: int)
    requires |parent| == |rows| && Upward(parent) && Connected(rows, parent, |rows|)
    requires 0 <= j < k && Reaches(rows, j, k)
    ensures k < |rows| && parent[j] != -1 && parent[j] <= k
  {
    var p :| Through(rows, j, k, p);
    var q := p[..|p| - 1];
    var r := q[|q| - 1];
    forall i | 0 <= i < |p| ensures 0 <= p[i] < |rows| { WalkInside(rows, p, i); }
    assert Adjacent(rows, p[|p| - 2], p[|p| - 1]);
    // r is in j's tree after row j, and in k's after row k
    WalkRoots(rows, parent, j + 1, q);
    SelfRoot(parent, j);
    AdjacentRoots(rows, parent, k + 1, r, k);
    SelfRoot(parent, k);
    RootOfRoot(parent, j + 1, k + 1, r);
    assert Root(parent, k + 1, j) == k;
  }

  /** The three facts the algorithm establishes make the parent array the tree. */
  lemma FactsMakeEtree(rows: seq<seq<int>>, parent: seq<int>)
    requires Linked(rows, parent) && Connected(rows, parent, |rows|)
    ensures IsEtree(rows, parent)
  {
    forall j | 0 <= j < |rows|
      ensures if parent[j] == -1 then forall k | j < k :: !Reaches(rows, j, k)
              else parent[j] > j && Reaches(rows, j, parent[j]) && forall k | j < k < parent[j] :: !Reaches(rows, j, k)
    {
      forall k | j < k && Reaches(rows, j, k)
        ensures parent[j] != -1 && parent[j] <= k
      {
        ReachedIsAbove(rows, parent, j, k);
      }
    }
  }
}
