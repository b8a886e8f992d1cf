/** The in-place postorder: children lists, two stacks and the depth array share one work
    buffer whose segments are reused. */
module Postorder {
  import opened Sequences
  import opened Forest
  import opened Buckets

  // ---- heights ----

  // Longest path down to a leaf.
  ghost function Height(parent: seq<int>, rank: seq<nat>, v: int): nat
    requires Ranked(parent, rank) && 0 <= v < |parent|
    decreases rank[v], |parent| + 1
  {
    Tallest(parent, rank, rank[v], KidsOf(parent, v))
  }

  ghost function Tallest(parent: seq<int>, rank: seq<nat>, top: nat, ks: seq<int>): nat
    requires Ranked(parent, rank) && Below(parent, rank, top, ks) && |ks| <= |parent|
    decreases top, |ks|
  {
    if |ks| == 0 then 0
    else
      var rest, h := Tallest(parent, rank, top, ks[1..]), Height(parent, rank, ks[0]) + 1;
      if rest < h then h else rest
  }

  lemma {:induction false} TallestIs(parent: seq<int>, rank: seq<nat>, top: nat, ks: seq<int>)
    requires Ranked(parent, rank) && Below(parent, rank, top, ks) && |ks| <= |parent|
    ensures var h := Tallest(parent, rank, top, ks);
      && (forall i | 0 <= i < |ks| :: Height(parent, rank, ks[i]) + 1 <= h)
      && (h > 0 ==> exists i :: 0 <= i < |ks| && Height(parent, rank, ks[i]) + 1 == h)
    decreases |ks|
  {
    if |ks| > 0 {
      TallestIs(parent, rank, top, ks[1..]);
      var h, rest := Tallest(parent, rank, top, ks), Tallest(parent, rank, top, ks[1..]);
      forall i | 0 <= i < |ks|
        ensures Height(parent, rank, ks[i]) + 1 <= h
      {
        if i > 0 { assert ks[i] == ks[1..][i - 1]; }
      }
      if h > 0 && h == rest {
        var i :| 0 <= i < |ks[1..]| && Height(parent, rank, ks[1..][i]) + 1 == rest;
        assert ks[i + 1] == ks[1..][i];
      }
    }
  }

  // m is the height of the forest.
  ghost predicate ForestHeight(parent: seq<int>, rank: seq<nat>, m: int)
    requires Ranked(parent, rank)
  {
    && (forall v | 0 <= v < |parent| :: Height(parent, rank, v) <= m)
    && (m == 0 || exists v :: 0 <= v < |parent| && Height(parent, rank, v) == m)
  }

  // A chain of children that climbs to v.
  ghost predicate Climbs(parent: seq<int>, ps: seq<int>, v: int) {
    && |ps| > 0 && ps[|ps| - 1] == v && Inside(ps, |parent|)
    && forall i | 0 < i < |ps| :: LinkedUp(parent, ps, i)
  }

  ghost predicate LinkedUp(parent: seq<int>, ps: seq<int>, i: int) {
    0 < i < |ps| && 0 <= ps[i - 1] < |parent| && parent[ps[i - 1]] == ps[i]
  }

  lemma {:induction false} ChainsBounded(parent: seq<int>, rank: seq<nat>, ps: seq<int>, v: int)
    requires Ranked(parent, rank) && 0 <= v < |parent| && Climbs(parent, ps, v)
    ensures |ps| - 1 <= Height(parent, rank, v)
    decreases |ps|
  {
    if |ps| > 1 {
      var qs, c := ps[..|ps| - 1], ps[|ps| - 2];
      assert LinkedUp(parent, ps, |ps| - 1);
      forall i | 0 < i < |qs| ensures LinkedUp(parent, qs, i) { assert LinkedUp(parent, ps, i); }
      ChainsBounded(parent, rank, qs, c);
      var ks := KidsOf(parent, v);
      KidsAll(parent, v, |parent|, c);
      TallestIs(parent, rank, rank[v], ks);
      var i :| 0 <= i < |ks| && ks[i] == c;
    }
  }

  lemma {:induction false} LongestChain(parent: seq<int>, rank: seq<nat>, v: int) returns (ps: seq<int>)
    requires Ranked(parent, rank) && 0 <= v < |parent|
    ensures Climbs(parent, ps, v) && |ps| - 1 == Height(parent, rank, v)
    decreases rank[v]
  {
    var ks := KidsOf(parent, v);
    TallestIs(parent, rank, rank[v], ks);
    if Height(parent, rank, v) == 0 {
      ps := [v];
    } else {
      var i :| 0 <= i < |ks| && Height(parent, rank, ks[i]) + 1 == Height(parent, rank, v);
      var qs := LongestChain(parent, rank, ks[i]);
      ps := qs + [v];
      forall j | 0 < j < |ps| ensures LinkedUp(parent, ps, j) { if j < |qs| { assert LinkedUp(parent, qs, j); } }
    }
  }

  /** The height of the forest is the number of links of its longest chain. */
  lemma {:induction false} ForestHeightMeaning(parent: seq<int>, rank: seq<nat>, m: int)
    requires Ranked(parent, rank) && |parent| > 0 && m >= 0
    ensures ForestHeight(parent, rank, m) <==>
            && (forall ps, v | 0 <= v < |parent| && Climbs(parent, ps, v) :: |ps| - 1 <= m)
            && exists ps, v :: 0 <= v < |parent| && Climbs(parent, ps, v) && |ps| - 1 == m
  {
    forall ps, v | 0 <= v < |parent| && Climbs(parent, ps, v) ensures |ps| - 1 <= Height(parent, rank, v) {
      ChainsBounded(parent, rank, ps, v);
    }
    forall v | 0 <= v < |parent| ensures exists ps :: Climbs(parent, ps, v) && |ps| - 1 == Height(parent, rank, v) {
      var ps := LongestChain(parent, rank, v);
    }
    assert Climbs(parent, [0], 0);
  }

  // The depth recorded for v once the first k vertices of the order are read.
  ghost function DepthAt(parent: seq<int>, rank: seq<nat>, order: seq<int>, k: int, v: int): nat
    requires Ranked(parent, rank) && k <= |order| && Inside(order, |parent|)
    decreases k
  {
    if k <= 0 then 0
    else
      var d, j := DepthAt(parent, rank, order, k - 1, v), order[k - 1];
      if parent[j] == v && d < Height(parent, rank, j) + 1 then Height(parent, rank, j) + 1 else d
  }

  lemma {:induction false} DepthIs(parent: seq<int>, rank: seq<nat>, order: seq<int>, k: int, v: int)
    requires Ranked(parent, rank) && 0 <= k <= |order| && Inside(order, |parent|)
    ensures var d := DepthAt(parent, rank, order, k, v);
      && (forall i | 0 <= i < k && parent[order[i]] == v :: Height(parent, rank, order[i]) + 1 <= d)
      && (d > 0 ==> exists i :: 0 <= i < k && parent[order[i]] == v && Height(parent, rank, order[i]) + 1 == d)
    decreases k
  {
    if k > 0 {
      DepthIs(parent, rank, order, k - 1, v);
      var d, e, j := DepthAt(parent, rank, order, k, v), DepthAt(parent, rank, order, k - 1, v), order[k - 1];
      if d == e && d > 0 {
        var i :| 0 <= i < k - 1 && parent[order[i]] == v && Height(parent, rank, order[i]) + 1 == e;
        assert 0 <= i < k && parent[order[i]] == v;
      } else if d > 0 {
        assert 0 <= k - 1 < k && parent[order[k - 1]] == v;
      }
    }
  }

  // A vertex's children come before it.
  lemma KidBefore(parent: seq<int>, rank: seq<nat>, k: int, c: int) returns (i: int)
    requires Ranked(parent, rank) && 0 <= k < |PostForest(parent, rank)| && Inside(PostForest(parent, rank), |parent|)
    requires 0 <= c < |parent| && parent[c] == PostForest(parent, rank)[k]
    ensures 0 <= i < k && PostForest(parent, rank)[i] == c
  {
    var s := PostForest(parent, rank);
    var v := s[k];
    var t := Post(parent, rank, v);
    var at := SubtreeBlock(parent, rank, v);
    var last := at + |t| - 1;
    ForestCounts(parent, rank, v);
    if k < last { CountTwice(s, k, last); }
    if last < k { CountTwice(s, last, k); }
    assert Under(parent, rank, c, c);
    UnderTrans(parent, rank, c, c);
    var x := CountFound(t, c);
    assert s[at..at + |t|][x] == s[at + x];
    i := at + x;
  }

  // When a vertex is read its recorded depth is its height.
  lemma {:induction false} DepthIsHeight(parent: seq<int>, rank: seq<nat>, k: int)
    requires Ranked(parent, rank) && 0 <= k < |PostForest(parent, rank)| && Inside(PostForest(parent, rank), |parent|)
    ensures var s := PostForest(parent, rank); DepthAt(parent, rank, s, k, s[k]) == Height(parent, rank, s[k])
  {
    var s := PostForest(parent, rank);
    var v, ks := s[k], KidsOf(parent, s[k]);
    DepthIs(parent, rank, s, k, v);
    TallestIs(parent, rank, rank[v], ks);
    var d, h := DepthAt(parent, rank, s, k, v), Height(parent, rank, v);
    if h > 0 {
      var i :| 0 <= i < |ks| && Height(parent, rank, ks[i]) + 1 == h;
      var x := KidBefore(parent, rank, k, ks[i]);
      assert parent[s[x]] == v;
    }
    if d > 0 {
      var i :| 0 <= i < k && parent[s[i]] == v && Height(parent, rank, s[i]) + 1 == d;
      KidsAll(parent, v, |parent|, s[i]);
      var x :| 0 <= x < |ks| && ks[x] == s[i];
    }
  }

  // ---- the children lists ----

  // Every vertex with a parent, filed under it.
  function ParentItems(parent: seq<int>, m: int): seq<Item>
    requires m <= |parent|
    decreases m
  {
    if m <= 0 then []
    else if parent[m - 1] >= 0 then ParentItems(parent, m - 1) + [Item(parent[m - 1], m - 1)]
    else ParentItems(parent, m - 1)
  }

  lemma {:induction false} ItemsPrefix(parent: seq<int>, m: int, m': int)
    requires 0 <= m <= m' <= |parent|
    ensures ParentItems(parent, m) <= ParentItems(parent, m') && |ParentItems(parent, m')| <= m'
    decreases m'
  {
    if m < m' {
      ItemsPrefix(parent, m, m' - 1);
    } else if m' > 0 {
      ItemsPrefix(parent, m' - 1, m' - 1);
    }
  }

  lemma {:induction false} BucketPrefix(items: seq<Item>, more: seq<Item>, m: int, k: int)
    requires 0 <= m <= |items|
    ensures Bucket(items + more, m, k) == Bucket(items, m, k)
    decreases m
  {
    if m > 0 {
      BucketPrefix(items, more, m - 1, k);
      assert (items + more)[m - 1] == items[m - 1];
    }
  }

  lemma {:induction false} BucketIsKids(parent: seq<int>, m: int, v: int)
    requires 0 <= m <= |parent| && v >= 0
    ensures Bucket(ParentItems(parent, m), |ParentItems(parent, m)|, v) == Kids(parent, v, m)
    decreases m
  {
    if m > 0 {
      BucketIsKids(parent, m - 1, v);
      var items := ParentItems(parent, m - 1);
      if parent[m - 1] >= 0 {
        BucketPrefix(items, [Item(parent[m - 1], m - 1)], |items|, v);
      }
    }
  }

  lemma {:induction false} ItemsKeyed(parent: seq<int>, m: int)
    requires 0 <= m <= |parent| && forall v | 0 <= v < |parent| :: parent[v] < |parent|
    ensures Keyed(ParentItems(parent, m), |parent|)
    decreases m
  {
    if m > 0 { ItemsKeyed(parent, m - 1); }
  }

  // Vertex m, if it has a parent, is the next item.
  lemma NextVertex(parent: seq<int>, m: int)
    requires 0 <= m < |parent|
    ensures var all, cur := ParentItems(parent, |parent|), ParentItems(parent, m);
      parent[m] >= 0 ==>
        |cur| < |all| && all[|cur|] == Item(parent[m], m) && |ParentItems(parent, m + 1)| == |cur| + 1
  {
    ItemsPrefix(parent, m + 1, |parent|);
    if parent[m] >= 0 {
      var cur := ParentItems(parent, m);
      assert ParentItems(parent, m + 1)[|cur|] == Item(parent[m], m);
    }
  }

  // ---- the depth-first search ----

  // What is still to be listed, from the top of the stack down.
  ghost predicate Frames(parent: seq<int>, nodes: seq<int>, cis: seq<int>) {
    && |nodes| == |cis|
    && forall t | 0 <= t < |nodes| :: 0 <= nodes[t] < |parent| && 0 <= cis[t] <= |KidsOf(parent, nodes[t])|
  }

  ghost function Frame(parent: seq<int>, rank: seq<nat>, v: int, ci: int): seq<int>
    requires Ranked(parent, rank) && 0 <= v < |parent| && 0 <= ci <= |KidsOf(parent, v)|
  {
    PostList(parent, rank, rank[v], KidsOf(parent, v)[ci..]) + [v]
  }

  ghost function Pending(parent: seq<int>, rank: seq<nat>, nodes: seq<int>, cis: seq<int>): (r: seq<int>)
    requires Ranked(parent, rank) && Frames(parent, nodes, cis)
    ensures |r| >= |nodes|
    decreases |nodes|
  {
    var t := |nodes| - 1;
    if t < 0 then [] else Frame(parent, rank, nodes[t], cis[t]) + Pending(parent, rank, nodes[..t], cis[..t])
  }

  // A fresh vertex on top puts its whole subtree in front.
  lemma PushFresh(parent: seq<int>, rank: seq<nat>, nodes: seq<int>, cis: seq<int>, c: int)
    requires Ranked(parent, rank) && Frames(parent, nodes, cis) && 0 <= c < |parent|
    ensures Frames(parent, nodes + [c], cis + [0])
    ensures Pending(parent, rank, nodes + [c], cis + [0]) == Post(parent, rank, c) + Pending(parent, rank, nodes, cis)
  {
    var t := |nodes|;
    assert (nodes + [c])[..t] == nodes && (cis + [0])[..t] == cis;
    assert KidsOf(parent, c)[0..] == KidsOf(parent, c);
  }

  lemma {:induction false} NextKidFrame(parent: seq<int>, rank: seq<nat>, v: int, ci: int)
    requires Ranked(parent, rank) && 0 <= v < |parent| && 0 <= ci < |KidsOf(parent, v)|
    ensures Frame(parent, rank, v, ci) == Post(parent, rank, KidsOf(parent, v)[ci]) + Frame(parent, rank, v, ci + 1)
  {
    var ks := KidsOf(parent, v);
    assert ks[ci..][0] == ks[ci] && ks[ci..][1..] == ks[ci + 1..];
    assert PostList(parent, rank, rank[v], ks[ci..]) == Post(parent, rank, ks[ci]) + PostList(parent, rank, rank[v], ks[ci + 1..]);
  }

  // Moving the top cursor past a child drops its subtree from what is pending.
  lemma {:induction false} NextKid(parent: seq<int>, rank: seq<nat>, nodes: seq<int>, cis: seq<int>)
    requires Ranked(parent, rank) && Frames(parent, nodes, cis) && |nodes| > 0
    requires var t := |nodes| - 1; cis[t] < |KidsOf(parent, nodes[t])|
    ensures var t := |nodes| - 1; var cis1 := cis[t := cis[t] + 1];
      && Frames(parent, nodes, cis1)
      && Pending(parent, rank, nodes, cis) == Post(parent, rank, KidsOf(parent, nodes[t])[cis[t]]) + Pending(parent, rank, nodes, cis1)
  {
    var t := |nodes| - 1;
    var cis1 := cis[t := cis[t] + 1];
    assert cis1[..t] == cis[..t];
    NextKidFrame(parent, rank, nodes[t], cis[t]);
    Regrouped(Post(parent, rank, KidsOf(parent, nodes[t])[cis[t]]), Frame(parent, rank, nodes[t], cis[t] + 1),
              Pending(parent, rank, nodes[..t], cis[..t]));
  }

  lemma {:induction false} Regrouped(a: seq<int>, b: seq<int>, c: seq<int>)
    ensures (a + b) + c == a + (b + c)
  {
  }

  // Descending into the next child leaves the same to do.
  lemma {:induction false} Descend(parent: seq<int>, rank: seq<nat>, nodes: seq<int>, cis: seq<int>)
    requires Ranked(parent, rank) && Frames(parent, nodes, cis) && |nodes| > 0
    requires var t := |nodes| - 1; cis[t] < |KidsOf(parent, nodes[t])|
    ensures var t := |nodes| - 1; var c := KidsOf(parent, nodes[t])[cis[t]];
      var nodes', cis' := nodes + [c], cis[t := cis[t] + 1] + [0];
      && Frames(parent, nodes', cis')
      && Pending(parent, rank, nodes', cis') == Pending(parent, rank, nodes, cis)
  {
    var t := |nodes| - 1;
    NextKid(parent, rank, nodes, cis);
    PushFresh(parent, rank, nodes, cis[t := cis[t] + 1], KidsOf(parent, nodes[t])[cis[t]]);
  }

  // A vertex without further children is listed.
  lemma Emit(parent: seq<int>, rank: seq<nat>, nodes: seq<int>, cis: seq<int>)
    requires Ranked(parent, rank) && Frames(parent, nodes, cis) && |nodes| > 0
    requires var t := |nodes| - 1; cis[t] == |KidsOf(parent, nodes[t])|
    ensures var t := |nodes| - 1;
      && Frames(parent, nodes[..t], cis[..t])
      && Pending(parent, rank, nodes, cis) == [nodes[t]] + Pending(parent, rank, nodes[..t], cis[..t])
  {
    var t := |nodes| - 1;
    assert KidsOf(parent, nodes[t])[cis[t]..] == [];
    assert Frame(parent, rank, nodes[t], cis[t]) == [nodes[t]];
  }

  // Roots from j up, pushed in descending order.
  function RootsFrom(parent: seq<int>, j: int): seq<int>
    requires 0 <= j <= |parent|
    decreases |parent| - j
  {
    if j == |parent| then [] else if parent[j] == -1 then RootsFrom(parent, j + 1) + [j] else RootsFrom(parent, j + 1)
  }

  function RootTail(parent: seq<int>, j: int): seq<int>
    requires 0 <= j <= |parent|
    decreases |parent| - j
  {
    if j == |parent| then [] else if parent[j] == -1 then [j] + RootTail(parent, j + 1) else RootTail(parent, j + 1)
  }

  lemma {:induction false} TailIsKids(parent: seq<int>, j: int)
    requires 0 <= j <= |parent|
    ensures Kids(parent, -1, j) + RootTail(parent, j) == KidsOf(parent, -1)
    decreases |parent| - j
  {
    if j < |parent| {
      TailIsKids(parent, j + 1);
      if parent[j] == -1 {
        assert Kids(parent, -1, j) + ([j] + RootTail(parent, j + 1)) == Kids(parent, -1, j + 1) + RootTail(parent, j + 1);
      }
    }
  }

  ghost function Zeros(k: nat): (z: seq<int>)
    ensures |z| == k && forall i | 0 <= i < k :: z[i] == 0
  {
    seq(k, i requires 0 <= i < k => 0)
  }

  // The stacked roots list the same as the tail of the root list.
  ghost predicate RootsList(parent: seq<int>, rank: seq<nat>, nodes: seq<int>, tail: seq<int>) {
    && Ranked(parent, rank) && |tail| <= |parent| && Below(parent, rank, Highest(rank), tail)
    && Frames(parent, nodes, Zeros(|nodes|))
    && Pending(parent, rank, nodes, Zeros(|nodes|)) == PostList(parent, rank, Highest(rank), tail)
  }

  // A root pushed last is listed first.
  lemma PushedRoot(parent: seq<int>, rank: seq<nat>, rest: seq<int>, tail: seq<int>, j: int)
    requires RootsList(parent, rank, rest, tail) && 0 <= j < |parent| && |tail| < |parent|
    ensures RootsList(parent, rank, rest + [j], [j] + tail)
  {
    PushFresh(parent, rank, rest, Zeros(|rest|), j);
    assert Zeros(|rest + [j]|) == Zeros(|rest|) + [0];
    assert ([j] + tail)[1..] == tail;
  }

  lemma {:induction false} RootsPending(parent: seq<int>, rank: seq<nat>, j: int)
    requires Ranked(parent, rank) && 0 <= j <= |parent|
    ensures |RootsFrom(parent, j)| <= |parent| - j && |RootTail(parent, j)| <= |parent| - j
    ensures RootsList(parent, rank, RootsFrom(parent, j), RootTail(parent, j))
    decreases |parent| - j
  {
    if j < |parent| {
      RootsPending(parent, rank, j + 1);
      if parent[j] == -1 {
        PushedRoot(parent, rank, RootsFrom(parent, j + 1), RootTail(parent, j + 1), j);
      }
    }
  }

  lemma StartPending(parent: seq<int>, rank: seq<nat>)
    requires Ranked(parent, rank)
    ensures var nodes := RootsFrom(parent, 0);
      |nodes| <= |parent| && Frames(parent, nodes, Zeros(|nodes|))
      && Pending(parent, rank, nodes, Zeros(|nodes|)) == PostForest(parent, rank)
  {
    RootsPending(parent, rank, 0);
    TailIsKids(parent, 0);
    assert Kids(parent, -1, 0) + RootTail(parent, 0) == RootTail(parent, 0);
  }
}
