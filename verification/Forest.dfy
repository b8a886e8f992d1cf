/** Forests given by parent arrays: their recursive postorder, its block structure, and
    their height. */
module Forest {
  import opened Sequences

  // Parent links climb a rank, so they cannot run in circles.
  ghost predicate Ranked(parent: seq<int>, rank: seq<nat>) {
    && |rank| == |parent|
    && forall v | 0 <= v < |parent| :: parent[v] == -1 || (0 <= parent[v] < |parent| && rank[v] < rank[parent[v]])
  }

  // Vertices below m with parent v (or the roots, for v == -1), ascending.
  function Kids(parent: seq<int>, v: int, m: int): (r: seq<int>)
    requires m <= |parent|
    ensures m >= 0 ==> |r| <= m
    ensures forall i | 0 <= i < |r| :: 0 <= r[i] < m && parent[r[i]] == v
    ensures forall i, j | 0 <= i < j < |r| :: r[i] < r[j]
    decreases m
  {
    if m <= 0 then [] else if parent[m - 1] == v then Kids(parent, v, m - 1) + [m - 1] else Kids(parent, v, m - 1)
  }

  lemma {:induction false} KidsAll(parent: seq<int>, v: int, m: int, c: int)
    requires 0 <= c < m <= |parent| && parent[c] == v
    ensures c in Kids(parent, v, m)
    decreases m
  {
    if c < m - 1 { KidsAll(parent, v, m - 1, c); }
  }

  function KidsOf(parent: seq<int>, v: int): seq<int> { Kids(parent, v, |parent|) }

  // ---- the recursive postorder ----

  ghost predicate Below(parent: seq<int>, rank: seq<nat>, top: nat, ks: seq<int>)
    requires Ranked(parent, rank)
  {
    forall i | 0 <= i < |ks| :: 0 <= ks[i] < |parent| && rank[ks[i]] < top
  }

  // The children's subtrees in order, then the vertex.
  ghost function Post(parent: seq<int>, rank: seq<nat>, v: int): (r: seq<int>)
    requires Ranked(parent, rank) && 0 <= v < |parent|
    ensures |r| >= 1 && r[|r| - 1] == v
    decreases rank[v], |parent| + 1
  {
    PostList(parent, rank, rank[v], KidsOf(parent, v)) + [v]
  }

  ghost function PostList(parent: seq<int>, rank: seq<nat>, top: nat, ks: seq<int>): seq<int>
    requires Ranked(parent, rank) && Below(parent, rank, top, ks) && |ks| <= |parent|
    decreases top, |ks|
  {
    if |ks| == 0 then [] else Post(parent, rank, ks[0]) + PostList(parent, rank, top, ks[1..])
  }

  ghost function Highest(rank: seq<nat>): (h: nat)
    ensures forall v | 0 <= v < |rank| :: rank[v] < h
  {
    if |rank| == 0 then 0 else var h := Highest(rank[..|rank| - 1]); if rank[|rank| - 1] < h then h else rank[|rank| - 1] + 1
  }

  ghost function PostForest(parent: seq<int>, rank: seq<nat>): seq<int>
    requires Ranked(parent, rank)
  {
    PostList(parent, rank, Highest(rank), KidsOf(parent, -1))
  }

  // ---- who is in a subtree ----

  // x is v or hangs below it.
  ghost predicate Under(parent: seq<int>, rank: seq<nat>, x: int, v: int)
    requires Ranked(parent, rank) && 0 <= x < |parent|
    decreases Highest(rank) - rank[x]
  {
    x == v || (parent[x] != -1 && Under(parent, rank, parent[x], v))
  }

  lemma {:induction false} UnderClimbs(parent: seq<int>, rank: seq<nat>, x: int, v: int)
    requires Ranked(parent, rank) && 0 <= x < |parent| && Under(parent, rank, x, v)
    ensures 0 <= v < |parent| && rank[x] <= rank[v] && (x != v ==> rank[x] < rank[v])
    decreases Highest(rank) - rank[x]
  {
    if x != v { UnderClimbs(parent, rank, parent[x], v); }
  }

  // Below v and not v: below exactly one child of v.
  lemma {:induction false} UnderChild(parent: seq<int>, rank: seq<nat>, x: int, v: int) returns (c: int)
    requires Ranked(parent, rank) && 0 <= x < |parent| && Under(parent, rank, x, v) && x != v
    ensures 0 <= c < |parent| && parent[c] == v && Under(parent, rank, x, c)
    decreases Highest(rank) - rank[x]
  {
    if parent[x] == v { c := x; } else { c := UnderChild(parent, rank, parent[x], v); }
  }

  lemma {:induction false} UnderTrans(parent: seq<int>, rank: seq<nat>, x: int, c: int)
    requires Ranked(parent, rank) && 0 <= x < |parent| && Under(parent, rank, x, c)
    ensures 0 <= c < |parent| && (parent[c] != -1 ==> Under(parent, rank, x, parent[c]))
    decreases Highest(rank) - rank[x]
  {
    if x != c { UnderTrans(parent, rank, parent[x], c); }
  }

  // The vertices above x form one chain.
  lemma {:induction false} OneChain(parent: seq<int>, rank: seq<nat>, x: int, a: int, b: int)
    requires Ranked(parent, rank) && 0 <= x < |parent| && Under(parent, rank, x, a) && Under(parent, rank, x, b)
    ensures 0 <= a < |parent| && 0 <= b < |parent| && (Under(parent, rank, a, b) || Under(parent, rank, b, a))
    decreases Highest(rank) - rank[x]
  {
    UnderClimbs(parent, rank, x, a);
    UnderClimbs(parent, rank, x, b);
    if x != a && x != b { OneChain(parent, rank, parent[x], a, b); }
  }

  lemma SiblingsApart(parent: seq<int>, rank: seq<nat>, x: int, a: int, b: int)
    requires Ranked(parent, rank) && 0 <= x < |parent| && 0 <= a < |parent| && 0 <= b < |parent|
    requires Under(parent, rank, x, a) && Under(parent, rank, x, b) && parent[a] == parent[b]
    ensures a == b
  {
    OneChain(parent, rank, x, a, b);
    if a != b {
      var lo, hi := if Under(parent, rank, a, b) then a else b, if Under(parent, rank, a, b) then b else a;
      NotUnderSibling(parent, rank, lo, hi);
    }
  }

  // A vertex is not under its sibling.
  lemma NotUnderSibling(parent: seq<int>, rank: seq<nat>, a: int, b: int)
    requires Ranked(parent, rank) && 0 <= a < |parent| && 0 <= b < |parent| && a != b && parent[a] == parent[b]
    ensures !Under(parent, rank, a, b)
  {
    if Under(parent, rank, a, b) { UnderClimbs(parent, rank, parent[a], b); }
  }

  // ---- every vertex of a subtree appears once ----

  // How many of the listed subtrees hold x.
  ghost function Holders(parent: seq<int>, rank: seq<nat>, ks: seq<int>, x: int): nat
    requires Ranked(parent, rank) && 0 <= x < |parent|
  {
    if |ks| == 0 then 0 else (if Under(parent, rank, x, ks[0]) then 1 else 0) + Holders(parent, rank, ks[1..], x)
  }

  lemma {:induction false} PostCounts(parent: seq<int>, rank: seq<nat>, v: int, x: int)
    requires Ranked(parent, rank) && 0 <= v < |parent| && 0 <= x < |parent|
    ensures Count(Post(parent, rank, v), x) == if Under(parent, rank, x, v) then 1 else 0
    decreases rank[v], |parent| + 1
  {
    var ks := KidsOf(parent, v);
    PostListCounts(parent, rank, rank[v], ks, x);
    CountSum(PostList(parent, rank, rank[v], ks), [v], x);
    KidsHold(parent, rank, v, x);
  }

  lemma {:induction false} PostListCounts(parent: seq<int>, rank: seq<nat>, top: nat, ks: seq<int>, x: int)
    requires Ranked(parent, rank) && Below(parent, rank, top, ks) && |ks| <= |parent| && 0 <= x < |parent|
    ensures Count(PostList(parent, rank, top, ks), x) == Holders(parent, rank, ks, x)
    decreases top, |ks|
  {
    if |ks| > 0 {
      PostCounts(parent, rank, ks[0], x);
      PostListCounts(parent, rank, top, ks[1..], x);
      CountSum(Post(parent, rank, ks[0]), PostList(parent, rank, top, ks[1..]), x);
    }
  }

  lemma {:induction false} NoHolder(parent: seq<int>, rank: seq<nat>, ks: seq<int>, x: int)
    requires Ranked(parent, rank) && 0 <= x < |parent| && forall i | 0 <= i < |ks| :: !Under(parent, rank, x, ks[i])
    ensures Holders(parent, rank, ks, x) == 0
    decreases |ks|
  {
    if |ks| > 0 { NoHolder(parent, rank, ks[1..], x); }
  }

  // Of distinct siblings, the one that holds x is the only one.
  lemma {:induction false} OneHolder(parent: seq<int>, rank: seq<nat>, ks: seq<int>, x: int, i: int, p: int)
    requires Ranked(parent, rank) && 0 <= x < |parent| && 0 <= i < |ks| && Under(parent, rank, x, ks[i])
    requires forall a | 0 <= a < |ks| :: 0 <= ks[a] < |parent| && parent[ks[a]] == p
    requires forall a, b | 0 <= a < b < |ks| :: ks[a] < ks[b]
    ensures Holders(parent, rank, ks, x) == 1
    decreases |ks|
  {
    if i == 0 {
      forall a | 0 <= a < |ks[1..]|
        ensures !Under(parent, rank, x, ks[1..][a])
      {
        if Under(parent, rank, x, ks[1..][a]) { SiblingsApart(parent, rank, x, ks[0], ks[a + 1]); }
      }
      NoHolder(parent, rank, ks[1..], x);
    } else {
      if Under(parent, rank, x, ks[0]) { SiblingsApart(parent, rank, x, ks[0], ks[i]); }
      OneHolder(parent, rank, ks[1..], x, i - 1, p);
    }
  }

  lemma KidsHold(parent: seq<int>, rank: seq<nat>, v: int, x: int)
    requires Ranked(parent, rank) && 0 <= v < |parent| && 0 <= x < |parent|
    ensures Holders(parent, rank, KidsOf(parent, v), x) + (if x == v then 1 else 0) == if Under(parent, rank, x, v) then 1 else 0
  {
    var ks := KidsOf(parent, v);
    if Under(parent, rank, x, v) && x != v {
      var c := UnderChild(parent, rank, x, v);
      KidsAll(parent, v, |parent|, c);
      var i :| 0 <= i < |ks| && ks[i] == c;
      OneHolder(parent, rank, ks, x, i, v);
    } else {
      forall i | 0 <= i < |ks|
        ensures !Under(parent, rank, x, ks[i])
      {
        if Under(parent, rank, x, ks[i]) {
          UnderTrans(parent, rank, x, ks[i]);
          UnderClimbs(parent, rank, x, ks[i]);
        }
      }
      NoHolder(parent, rank, ks, x);
    }
  }

  lemma {:induction false} RootAbove(parent: seq<int>, rank: seq<nat>, x: int) returns (r: int)
    requires Ranked(parent, rank) && 0 <= x < |parent|
    ensures 0 <= r < |parent| && parent[r] == -1 && Under(parent, rank, x, r)
    decreases Highest(rank) - rank[x]
  {
    if parent[x] == -1 { r := x; } else { r := RootAbove(parent, rank, parent[x]); }
  }

  lemma {:induction false} PostInside(parent: seq<int>, rank: seq<nat>, v: int)
    requires Ranked(parent, rank) && 0 <= v < |parent|
    ensures Inside(Post(parent, rank, v), |parent|)
    decreases rank[v], |parent| + 1
  {
    PostListInside(parent, rank, rank[v], KidsOf(parent, v));
    assert Post(parent, rank, v) == PostList(parent, rank, rank[v], KidsOf(parent, v)) + [v];
  }

  lemma {:induction false} PostListInside(parent: seq<int>, rank: seq<nat>, top: nat, ks: seq<int>)
    requires Ranked(parent, rank) && Below(parent, rank, top, ks) && |ks| <= |parent|
    ensures Inside(PostList(parent, rank, top, ks), |parent|)
    decreases top, |ks|
  {
    if |ks| > 0 {
      PostInside(parent, rank, ks[0]);
      PostListInside(parent, rank, top, ks[1..]);
      assert PostList(parent, rank, top, ks) == Post(parent, rank, ks[0]) + PostList(parent, rank, top, ks[1..]);
    }
  }

  /** The postorder of the forest lists every vertex exactly once. */
  lemma ForestCounts(parent: seq<int>, rank: seq<nat>, x: int)
    requires Ranked(parent, rank)
    ensures Count(PostForest(parent, rank), x) == if 0 <= x < |parent| then 1 else 0
  {
    var ks := KidsOf(parent, -1);
    if 0 <= x < |parent| {
      PostListCounts(parent, rank, Highest(rank), ks, x);
      var r := RootAbove(parent, rank, x);
      KidsAll(parent, -1, |parent|, r);
      var i :| 0 <= i < |ks| && ks[i] == r;
      OneHolder(parent, rank, ks, x, i, -1);
    } else {
      PostListInside(parent, rank, Highest(rank), ks);
      CountAbsent(PostForest(parent, rank), x);
    }
  }

  lemma ForestLength(parent: seq<int>, rank: seq<nat>)
    requires Ranked(parent, rank)
    ensures |PostForest(parent, rank)| == |parent| && Inside(PostForest(parent, rank), |parent|)
  {
    var s, n := PostForest(parent, rank), |parent|;
    PostListInside(parent, rank, Highest(rank), KidsOf(parent, -1));
    forall x | 0 <= x < n ensures Count(s, x) == 1 { ForestCounts(parent, rank, x); }
    OnceEach(s, n);
  }

  // ---- subtrees are blocks ----

  ghost predicate BlockOf(s: seq<int>, t: seq<int>, at: int) {
    0 <= at && at + |t| <= |s| && s[at..at + |t|] == t
  }

  lemma BlockTrans(s: seq<int>, t: seq<int>, u: seq<int>, i: int, j: int)
    requires BlockOf(s, t, i) && BlockOf(t, u, j)
    ensures BlockOf(s, u, i + j)
  {
    forall x | 0 <= x < |u|
      ensures s[i + j + x] == u[x]
    {
      assert s[i..i + |t|][j + x] == t[j + x];
      assert t[j..j + |u|][x] == u[x];
    }
  }

  lemma {:induction false} ListBlock(parent: seq<int>, rank: seq<nat>, top: nat, ks: seq<int>, i: int) returns (at: int)
    requires Ranked(parent, rank) && Below(parent, rank, top, ks) && |ks| <= |parent| && 0 <= i < |ks|
    ensures BlockOf(PostList(parent, rank, top, ks), Post(parent, rank, ks[i]), at)
    decreases |ks|
  {
    var head := Post(parent, rank, ks[0]);
    if i == 0 {
      at := 0;
    } else {
      var a := ListBlock(parent, rank, top, ks[1..], i - 1);
      var tail := PostList(parent, rank, top, ks[1..]);
      assert BlockOf(head + tail, tail, |head|);
      BlockTrans(head + tail, tail, Post(parent, rank, ks[i]), |head|, a);
      at := |head| + a;
    }
  }

  lemma ChildBlock(parent: seq<int>, rank: seq<nat>, c: int) returns (at: int)
    requires Ranked(parent, rank) && 0 <= c < |parent| && parent[c] != -1
    ensures BlockOf(Post(parent, rank, parent[c]), Post(parent, rank, c), at)
  {
    var v := parent[c];
    var ks := KidsOf(parent, v);
    KidsAll(parent, v, |parent|, c);
    var i :| 0 <= i < |ks| && ks[i] == c;
    at := ListBlock(parent, rank, rank[v], ks, i);
    var list := PostList(parent, rank, rank[v], ks);
    assert BlockOf(list + [v], list, 0);
    BlockTrans(list + [v], list, Post(parent, rank, c), 0, at);
  }

  /** Every vertex's subtree is a contiguous block of the postorder that ends at the
      vertex and holds exactly the vertices under it. */
  lemma {:induction false} SubtreeBlock(parent: seq<int>, rank: seq<nat>, v: int) returns (at: int)
    requires Ranked(parent, rank) && 0 <= v < |parent|
    ensures BlockOf(PostForest(parent, rank), Post(parent, rank, v), at)
    ensures PostForest(parent, rank)[at + |Post(parent, rank, v)| - 1] == v
    ensures forall x | 0 <= x < |parent| :: Count(Post(parent, rank, v), x) == if Under(parent, rank, x, v) then 1 else 0
    decreases Highest(rank) - rank[v]
  {
    var s, t := PostForest(parent, rank), Post(parent, rank, v);
    if parent[v] == -1 {
      var ks := KidsOf(parent, -1);
      KidsAll(parent, -1, |parent|, v);
      var i :| 0 <= i < |ks| && ks[i] == v;
      at := ListBlock(parent, rank, Highest(rank), ks, i);
    } else {
      var a := SubtreeBlock(parent, rank, parent[v]);
      var b := ChildBlock(parent, rank, v);
      BlockTrans(s, Post(parent, rank, parent[v]), t, a, b);
      at := a + b;
    }
    assert s[at..at + |t|][|t| - 1] == t[|t| - 1];
    forall x | 0 <= x < |parent|
      ensures Count(Post(parent, rank, v), x) == if Under(parent, rank, x, v) then 1 else 0
    {
      PostCounts(parent, rank, v, x);
    }
  }

  // ---- who comes first ----

  lemma {:induction false} InPost(parent: seq<int>, rank: seq<nat>, x: int, v: int)
    requires Ranked(parent, rank) && 0 <= v < |parent| && 0 <= x < |parent| && Under(parent, rank, x, v)
    ensures x in Post(parent, rank, v)
  {
    PostCounts(parent, rank, v, x);
    CountAbsent(Post(parent, rank, v), x);
  }

  // The subtrees of a list stand in its order.
  lemma {:induction false} ListPrecedes(parent: seq<int>, rank: seq<nat>, top: nat, ks: seq<int>, i: int, j: int, x: int, y: int)
    requires Ranked(parent, rank) && Below(parent, rank, top, ks) && |ks| <= |parent| && 0 <= i < j < |ks|
    requires 0 <= x < |parent| && 0 <= y < |parent| && Under(parent, rank, x, ks[i]) && Under(parent, rank, y, ks[j])
    ensures Precedes(PostList(parent, rank, top, ks), x, y)
    decreases |ks|
  {
    var head, tail := Post(parent, rank, ks[0]), PostList(parent, rank, top, ks[1..]);
    if i > 0 {
      ListPrecedes(parent, rank, top, ks[1..], i - 1, j - 1, x, y);
      PrecedesShifts(head, tail, x, y);
    } else {
      InPost(parent, rank, x, ks[0]);
      var at := ListBlock(parent, rank, top, ks[1..], j - 1);
      InPost(parent, rank, y, ks[j]);
      BlockHolds(tail, Post(parent, rank, ks[j]), at, y);
      PrecedesAcross(head, tail, x, y);
    }
  }

  lemma BlockHolds(s: seq<int>, t: seq<int>, at: int, y: int)
    requires BlockOf(s, t, at) && y in t
    ensures y in s
  {
    var i :| 0 <= i < |t| && t[i] == y;
    assert s[at..at + |t|][i] == s[at + i];
  }

  lemma {:induction false} BlockPrecedes(s: seq<int>, t: seq<int>, at: int, x: int, y: int)
    requires BlockOf(s, t, at) && Precedes(t, x, y)
    ensures Precedes(s, x, y)
  {
    assert s == s[..at] + t + s[at + |t|..];
    PrecedesShifts(s[..at], t, x, y);
    PrecedesExtends(s[..at] + t, s[at + |t|..], x, y);
  }

  lemma {:induction false} UnderPrecedes(parent: seq<int>, rank: seq<nat>, x: int, y: int)
    requires Ranked(parent, rank) && 0 <= x < |parent| && 0 <= y < |parent| && x != y && Under(parent, rank, x, y)
    ensures Precedes(PostForest(parent, rank), x, y)
  {
    var list := PostList(parent, rank, rank[y], KidsOf(parent, y));
    InPost(parent, rank, x, y);
    assert x in list + [y] && x in list;
    PrecedesAcross(list, [y], x, y);
    var at := SubtreeBlock(parent, rank, y);
    BlockPrecedes(PostForest(parent, rank), list + [y], at, x, y);
  }

  lemma {:induction false} SiblingsPrecede(parent: seq<int>, rank: seq<nat>, a: int, b: int, x: int, y: int)
    requires Ranked(parent, rank) && 0 <= a < b < |parent| && parent[a] == parent[b]
    requires 0 <= x < |parent| && 0 <= y < |parent| && Under(parent, rank, x, a) && Under(parent, rank, y, b)
    ensures Precedes(PostForest(parent, rank), x, y)
  {
    var v := parent[a];
    var ks := KidsOf(parent, v);
    KidsAll(parent, v, |parent|, a);
    KidsAll(parent, v, |parent|, b);
    var i :| 0 <= i < |ks| && ks[i] == a;
    var j :| 0 <= j < |ks| && ks[j] == b;
    if v == -1 {
      ListPrecedes(parent, rank, Highest(rank), ks, i, j, x, y);
    } else {
      ListPrecedes(parent, rank, rank[v], ks, i, j, x, y);
      PrecedesExtends(PostList(parent, rank, rank[v], ks), [v], x, y);
      var at := SubtreeBlock(parent, rank, v);
      BlockPrecedes(PostForest(parent, rank), Post(parent, rank, v), at, x, y);
    }
  }

  // x is under an earlier sibling of one that y is under.
  ghost predicate Branches(parent: seq<int>, rank: seq<nat>, x: int, y: int)
    requires Ranked(parent, rank) && 0 <= x < |parent| && 0 <= y < |parent|
  {
    exists a, b :: 0 <= a < b < |parent| && parent[a] == parent[b] && Under(parent, rank, x, a) && Under(parent, rank, y, b)
  }

  lemma {:induction false} SomeBranch(parent: seq<int>, rank: seq<nat>, x: int, y: int)
    requires Ranked(parent, rank) && 0 <= x < |parent| && 0 <= y < |parent|
    requires !Under(parent, rank, x, y) && !Under(parent, rank, y, x)
    ensures Branches(parent, rank, x, y) || Branches(parent, rank, y, x)
    decreases Highest(rank) - rank[x]
  {
    var p := parent[x];
    if p != -1 && !Under(parent, rank, y, p) {
      SomeBranch(parent, rank, p, y);
      forall c | Under(parent, rank, p, c) ensures Under(parent, rank, x, c) {}
    } else {
      var b;
      if p == -1 { b := RootAbove(parent, rank, y); } else { b := UnderChild(parent, rank, y, p); }
      assert Under(parent, rank, x, x) && parent[b] == p && b != x;
    }
  }

  /** The postorder: a vertex stands before another exactly when it is below it, or below an
      earlier of two siblings of which the other is below the later. */
  lemma {:induction false} PostorderMeaning(parent: seq<int>, rank: seq<nat>, x: int, y: int)
    requires Ranked(parent, rank) && 0 <= x < |parent| && 0 <= y < |parent| && x != y
    ensures Precedes(PostForest(parent, rank), x, y) <==> Under(parent, rank, x, y) || Branches(parent, rank, x, y)
  {
    forall c, d | 0 <= c < |parent| && 0 <= d < |parent| && c != d && (Under(parent, rank, c, d) || Branches(parent, rank, c, d))
      ensures Precedes(PostForest(parent, rank), c, d)
    {
      if Under(parent, rank, c, d) {
        UnderPrecedes(parent, rank, c, d);
      } else {
        var a, b :| 0 <= a < b < |parent| && parent[a] == parent[b] && Under(parent, rank, c, a) && Under(parent, rank, d, b);
        SiblingsPrecede(parent, rank, a, b, c, d);
      }
    }
    if !Under(parent, rank, x, y) && !Under(parent, rank, y, x) { SomeBranch(parent, rank, x, y); }
    ForestDistinct(parent, rank);
    if Precedes(PostForest(parent, rank), y, x) { PrecedesStrict(PostForest(parent, rank), y, x); }
  }

  lemma ForestDistinct(parent: seq<int>, rank: seq<nat>)
    requires Ranked(parent, rank)
    ensures Distinct(PostForest(parent, rank))
  {
    ForestLength(parent, rank);
    var s := PostForest(parent, rank);
    forall x | x in s ensures Count(s, x) <= 1 { ForestCounts(parent, rank, x); }
    CountsDistinct(s);
  }
}
