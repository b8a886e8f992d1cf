/** `etree_postorder` on its work buffer of 4 n + 1 slots: starts, children, node stack
    (later the depths), cursor stack (first the fill cursors). */
module PostorderBuffer {
  import opened Sequences
  import opened Forest
  import opened Buckets
  import opened Postorder

  // The segments.
  function Starts(w: seq<int>, n: nat): seq<int>
    requires |w| >= 4 * n + 1
  {
    w[0..n + 1]
  }

  function Lists(w: seq<int>, n: nat): seq<int>
    requires |w| >= 4 * n + 1
  {
    w[n + 1..2 * n + 1]
  }

  function Nodes(w: seq<int>, n: nat): seq<int>
    requires |w| >= 4 * n + 1
  {
    w[2 * n + 1..3 * n + 1]
  }

  function Cursors(w: seq<int>, n: nat): seq<int>
    requires |w| >= 4 * n + 1
  {
    w[3 * n + 1..4 * n + 1]
  }

  // Reads and writes of one segment; a write leaves the others alone.

  function StartAt(work: array<int>, n: nat, i: int): (x: int)
    reads work
    requires work.Length >= 4 * n + 1 && 0 <= i < n + 1
    ensures x == Starts(work[..], n)[i]
  {
    work[i]
  }

  method SetStart(work: array<int>, n: nat, i: int, x: int)
    requires work.Length >= 4 * n + 1 && 0 <= i < n + 1
    modifies work
    ensures Starts(work[..], n) == old(Starts(work[..], n))[i := x]
    ensures Lists(work[..], n) == old(Lists(work[..], n))
    ensures Nodes(work[..], n) == old(Nodes(work[..], n))
    ensures Cursors(work[..], n) == old(Cursors(work[..], n))
  {
    ghost var w := work[..];
    work[i] := x;
    assert work[..] == w[i := x];
  }

  function ListAt(work: array<int>, n: nat, i: int): (x: int)
    reads work
    requires work.Length >= 4 * n + 1 && 0 <= i < n
    ensures x == Lists(work[..], n)[i]
  {
    work[n + 1 + i]
  }

  method SetList(work: array<int>, n: nat, i: int, x: int)
    requires work.Length >= 4 * n + 1 && 0 <= i < n
    modifies work
    ensures Lists(work[..], n) == old(Lists(work[..], n))[i := x]
    ensures Starts(work[..], n) == old(Starts(work[..], n))
    ensures Nodes(work[..], n) == old(Nodes(work[..], n))
    ensures Cursors(work[..], n) == old(Cursors(work[..], n))
  {
    ghost var w := work[..];
    work[n + 1 + i] := x;
    assert work[..] == w[n + 1 + i := x];
  }

  function NodeAt(work: array<int>, n: nat, i: int): (x: int)
    reads work
    requires work.Length >= 4 * n + 1 && 0 <= i < n
    ensures x == Nodes(work[..], n)[i]
  {
    work[2 * n + 1 + i]
  }

  method SetNode(work: array<int>, n: nat, i: int, x: int)
    requires work.Length >= 4 * n + 1 && 0 <= i < n
    modifies work
    ensures Nodes(work[..], n) == old(Nodes(work[..], n))[i := x]
    ensures Starts(work[..], n) == old(Starts(work[..], n))
    ensures Lists(work[..], n) == old(Lists(work[..], n))
    ensures Cursors(work[..], n) == old(Cursors(work[..], n))
  {
    ghost var w := work[..];
    work[2 * n + 1 + i] := x;
    assert work[..] == w[2 * n + 1 + i := x];
  }

  function CursorAt(work: array<int>, n: nat, i: int): (x: int)
    reads work
    requires work.Length >= 4 * n + 1 && 0 <= i < n
    ensures x == Cursors(work[..], n)[i]
  {
    work[3 * n + 1 + i]
  }

  method SetCursor(work: array<int>, n: nat, i: int, x: int)
    requires work.Length >= 4 * n + 1 && 0 <= i < n
    modifies work
    ensures Cursors(work[..], n) == old(Cursors(work[..], n))[i := x]
    ensures Starts(work[..], n) == old(Starts(work[..], n))
    ensures Lists(work[..], n) == old(Lists(work[..], n))
    ensures Nodes(work[..], n) == old(Nodes(work[..], n))
  {
    ghost var w := work[..];
    work[3 * n + 1 + i] := x;
    assert work[..] == w[3 * n + 1 + i := x];
  }

  ghost function Items(parent: seq<int>): seq<Item> { ParentItems(parent, |parent|) }

  ghost predicate Parents(parent: seq<int>) {
    forall v | 0 <= v < |parent| :: -1 <= parent[v] < |parent|
  }

  // ---- the children lists ----

  method ClearStarts(work: array<int>, n: nat)
    requires work.Length >= 4 * n + 1
    modifies work
    ensures forall x | 0 <= x <= n :: Starts(work[..], n)[x] == 0
  {
    for i := 0 to n + 1
      invariant forall x | 0 <= x < i :: Starts(work[..], n)[x] == 0
    {
      SetStart(work, n, i, 0);
    }
  }

  lemma CountNone(items: seq<Item>, cnt: seq<int>, n: nat)
    requires |cnt| == n + 1 && forall x | 0 <= x <= n :: cnt[x] == 0
    ensures Counted(items, 0, cnt, n)
  {
  }

  method CountKids(parent: seq<int>, work: array<int>)
    requires work.Length >= 4 * |parent| + 1 && Parents(parent)
    modifies work
    ensures Counted(Items(parent), |Items(parent)|, Starts(work[..], |parent|), |parent|)
  {
    var n := |parent|;
    ClearStarts(work, n);
    CountNone(Items(parent), Starts(work[..], n), n);
    for j := 0 to n
      invariant Counted(Items(parent), |ParentItems(parent, j)|, Starts(work[..], n), n)
    {
      NextVertex(parent, j);
      if parent[j] >= 0 { CountKid(parent, work, j); }
    }
  }

  method CountKid(parent: seq<int>, work: array<int>, j: int)
    requires work.Length >= 4 * |parent| + 1 && Parents(parent) && 0 <= j < |parent| && parent[j] >= 0
    requires Counted(Items(parent), |ParentItems(parent, j)|, Starts(work[..], |parent|), |parent|)
    modifies work
    ensures Counted(Items(parent), |ParentItems(parent, j + 1)|, Starts(work[..], |parent|), |parent|)
  {
    var n := |parent|;
    ItemsKeyed(parent, n);
    NextVertex(parent, j);
    CountNext(Items(parent), |ParentItems(parent, j)|, Starts(work[..], n), n);
    SetStart(work, n, parent[j] + 1, StartAt(work, n, parent[j] + 1) + 1);
  }

  method SumStarts(parent: seq<int>, work: array<int>)
    requires work.Length >= 4 * |parent| + 1
    requires Counted(Items(parent), |Items(parent)|, Starts(work[..], |parent|), |parent|)
    modifies work
    ensures Summed(Items(parent), Starts(work[..], |parent|), |parent|, |parent|)
  {
    var n := |parent|;
    for k := 0 to n
      invariant Summed(Items(parent), Starts(work[..], n), n, k)
    {
      SumNext(Items(parent), Starts(work[..], n), n, k);
      SetStart(work, n, k + 1, StartAt(work, n, k + 1) + StartAt(work, n, k));
    }
  }

  // Fill cursors start at the starts.
  method CopyStarts(parent: seq<int>, work: array<int>)
    requires work.Length >= 4 * |parent| + 1
    requires Summed(Items(parent), Starts(work[..], |parent|), |parent|, |parent|)
    modifies work
    ensures Starts(work[..], |parent|) == old(Starts(work[..], |parent|))
    ensures forall k | 0 <= k < |parent| :: Cursors(work[..], |parent|)[k] == Slot(Items(parent), 0, k)
  {
    var n := |parent|;
    ghost var st := Starts(work[..], n);
    for k := 0 to n
      invariant Starts(work[..], n) == st
      invariant forall x | 0 <= x < k :: Cursors(work[..], n)[x] == Slot(Items(parent), 0, x)
    {
      SetCursor(work, n, k, StartAt(work, n, k));
    }
  }

  // The lists and fill cursors after m items.
  ghost predicate Filling(all: seq<Item>, m: int, lists: seq<int>, cur: seq<int>, n: int) {
    && |lists| == |cur| == n && Filled(all, m, lists, n)
    && forall x {:trigger cur[x]} | 0 <= x < n :: cur[x] == Slot(all, m, x)
  }

  // Filing one item: its value at its key's cursor, which moves on.
  lemma FilingKeeps(all: seq<Item>, m: int, lists: seq<int>, cur: seq<int>, n: int)
    requires 0 <= m < |all| <= n && Keyed(all, n) && Filling(all, m, lists, cur, n)
    ensures var k := all[m].key;
      && 0 <= k < n && 0 <= cur[k] < n
      && Filling(all, m + 1, lists[cur[k] := all[m].value], cur[k := cur[k] + 1], n)
  {
    FillNext(all, m, lists, n);
  }

  method FillKid(parent: seq<int>, work: array<int>, j: int)
    requires work.Length >= 4 * |parent| + 1 && Parents(parent) && 0 <= j < |parent| && parent[j] >= 0
    requires Filling(Items(parent), |ParentItems(parent, j)|, Lists(work[..], |parent|), Cursors(work[..], |parent|), |parent|)
    modifies work
    ensures Starts(work[..], |parent|) == old(Starts(work[..], |parent|))
    ensures Filling(Items(parent), |ParentItems(parent, j + 1)|, Lists(work[..], |parent|), Cursors(work[..], |parent|), |parent|)
  {
    var n, k := |parent|, parent[j];
    ItemsKeyed(parent, n);
    ItemsPrefix(parent, n, n);
    NextVertex(parent, j);
    FilingKeeps(Items(parent), |ParentItems(parent, j)|, Lists(work[..], n), Cursors(work[..], n), n);
    var at := CursorAt(work, n, k);
    SetCursor(work, n, k, at + 1);
    SetList(work, n, at, j);
  }

  method FillKids(parent: seq<int>, work: array<int>)
    requires work.Length >= 4 * |parent| + 1 && Parents(parent)
    requires forall k | 0 <= k < |parent| :: Cursors(work[..], |parent|)[k] == Slot(Items(parent), 0, k)
    modifies work
    ensures Starts(work[..], |parent|) == old(Starts(work[..], |parent|))
    ensures Filled(Items(parent), |Items(parent)|, Lists(work[..], |parent|), |parent|)
  {
    var n := |parent|;
    ItemsKeyed(parent, n);
    ItemsPrefix(parent, n, n);
    FillNone(Items(parent), Lists(work[..], n), n);
    for j := 0 to n
      invariant Starts(work[..], n) == old(Starts(work[..], n))
      invariant Filling(Items(parent), |ParentItems(parent, j)|, Lists(work[..], n), Cursors(work[..], n), n)
    {
      NextVertex(parent, j);
      if parent[j] >= 0 { FillKid(parent, work, j); }
    }
  }

  // The lists hold every vertex's children.
  ghost predicate KidsReady(parent: seq<int>, st: seq<int>, lists: seq<int>) {
    && |st| == |parent| + 1 && |lists| == |parent|
    && Summed(Items(parent), st, |parent|, |parent|) && Filled(Items(parent), |Items(parent)|, lists, |parent|)
  }

  lemma KidAt(parent: seq<int>, st: seq<int>, lists: seq<int>, v: int)
    requires KidsReady(parent, st, lists) && 0 <= v < |parent|
    ensures 0 <= st[v] && st[v + 1] == st[v] + |KidsOf(parent, v)| <= |parent|
    ensures forall i | 0 <= i < |KidsOf(parent, v)| :: lists[st[v] + i] == KidsOf(parent, v)[i]
  {
    var all := Items(parent);
    FilledAll(all, lists, |parent|, v);
    BucketIsKids(parent, |parent|, v);
    var lo, hi := Before(all, |all|, v), Before(all, |all|, v + 1);
    forall i | 0 <= i < |KidsOf(parent, v)|
      ensures lists[st[v] + i] == KidsOf(parent, v)[i]
    {
      assert lists[lo..hi][i] == lists[lo + i];
    }
  }

  method BuildKids(parent: seq<int>, work: array<int>)
    requires work.Length >= 4 * |parent| + 1 && Parents(parent)
    modifies work
    ensures KidsReady(parent, Starts(work[..], |parent|), Lists(work[..], |parent|))
  {
    CountKids(parent, work);
    SumStarts(parent, work);
    CopyStarts(parent, work);
    FillKids(parent, work);
  }

  // ---- the search ----

  method PushRoots(parent: seq<int>, work: array<int>) returns (top: int)
    requires work.Length >= 4 * |parent| + 1
    modifies work
    ensures Starts(work[..], |parent|) == old(Starts(work[..], |parent|)) && Lists(work[..], |parent|) == old(Lists(work[..], |parent|))
    ensures top == |RootsFrom(parent, 0)| <= |parent|
    ensures Nodes(work[..], |parent|)[..top] == RootsFrom(parent, 0) && Cursors(work[..], |parent|)[..top] == Zeros(top)
  {
    var n := |parent|;
    top := 0;
    for j := n downto 0
      invariant Starts(work[..], n) == old(Starts(work[..], n)) && Lists(work[..], n) == old(Lists(work[..], n))
      invariant top == |RootsFrom(parent, j)| <= n - j
      invariant Nodes(work[..], n)[..top] == RootsFrom(parent, j) && Cursors(work[..], n)[..top] == Zeros(top)
    {
      if parent[j] == -1 {
        SetNode(work, n, top, j);
        SetCursor(work, n, top, 0);
        top := top + 1;
      }
    }
  }

  // The state of the search: what is listed and what is pending make the postorder.
  ghost predicate Searching(parent: seq<int>, rank: seq<nat>, nodes: seq<int>, cis: seq<int>, listed: seq<int>) {
    && Ranked(parent, rank) && Frames(parent, nodes, cis)
    && listed + Pending(parent, rank, nodes, cis) == PostForest(parent, rank)
  }

  lemma SearchBounds(parent: seq<int>, rank: seq<nat>, nodes: seq<int>, cis: seq<int>, listed: seq<int>)
    requires Searching(parent, rank, nodes, cis, listed)
    ensures |listed| + |nodes| <= |parent|
  {
    ForestLength(parent, rank);
  }

  // The vertex on top of the stack and its next child, or -1.
  method NextChild(parent: seq<int>, work: array<int>, top: int) returns (node: int, ci: int, c: int)
    requires work.Length >= 4 * |parent| + 1 && KidsReady(parent, Starts(work[..], |parent|), Lists(work[..], |parent|))
    requires 0 < top <= |parent| && Frames(parent, Nodes(work[..], |parent|)[..top], Cursors(work[..], |parent|)[..top])
    ensures node == Nodes(work[..], |parent|)[..top][top - 1] && ci == Cursors(work[..], |parent|)[..top][top - 1]
    ensures 0 <= node < |parent| && 0 <= ci <= |KidsOf(parent, node)|
    ensures if ci < |KidsOf(parent, node)| then c == KidsOf(parent, node)[ci] else c == -1
  {
    var n := |parent|;
    node, ci := NodeAt(work, n, top - 1), CursorAt(work, n, top - 1);
    KidAt(parent, Starts(work[..], n), Lists(work[..], n), node);
    var c0, c1 := StartAt(work, n, node), StartAt(work, n, node + 1);
    c := if c0 + ci < c1 then ListAt(work, n, c0 + ci) else -1;
  }

  lemma DescendKeeps(parent: seq<int>, rank: seq<nat>, nodes: seq<int>, cis: seq<int>, listed: seq<int>, c: int)
    requires Searching(parent, rank, nodes, cis, listed) && |nodes| > 0
    requires var t := |nodes| - 1; cis[t] < |KidsOf(parent, nodes[t])| && c == KidsOf(parent, nodes[t])[cis[t]]
    ensures var t := |nodes| - 1; Searching(parent, rank, nodes + [c], cis[t := cis[t] + 1] + [0], listed)
    ensures |listed| + |nodes| + 1 <= |parent|
  {
    Descend(parent, rank, nodes, cis);
    var t := |nodes| - 1;
    SearchBounds(parent, rank, nodes + [c], cis[t := cis[t] + 1] + [0], listed);
  }

  lemma EmitKeeps(parent: seq<int>, rank: seq<nat>, nodes: seq<int>, cis: seq<int>, listed: seq<int>)
    requires Searching(parent, rank, nodes, cis, listed) && |nodes| > 0
    requires var t := |nodes| - 1; cis[t] == |KidsOf(parent, nodes[t])|
    ensures var t := |nodes| - 1; Searching(parent, rank, nodes[..t], cis[..t], listed + [nodes[t]])
    ensures |listed| + |nodes| <= |parent|
  {
    Emit(parent, rank, nodes, cis);
    SearchBounds(parent, rank, nodes, cis, listed);
    var t := |nodes| - 1;
    assert listed + ([nodes[t]] + Pending(parent, rank, nodes[..t], cis[..t])) == (listed + [nodes[t]]) + Pending(parent, rank, nodes[..t], cis[..t]);
  }

  // The stacks hold what the search still has to list.
  ghost predicate StacksSearch(parent: seq<int>, rank: seq<nat>, w: seq<int>, top: int, post: seq<int>, npost: int)
    requires |w| >= 4 * |parent| + 1
  {
    && 0 <= top <= |parent| && 0 <= npost <= |parent| == |post|
    && Searching(parent, rank, Nodes(w, |parent|)[..top], Cursors(w, |parent|)[..top], post[..npost])
  }

  method PushKid(parent: seq<int>, work: array<int>, post: seq<int>, top: int, npost: int, c: int, ci: int, ghost rank: seq<nat>)
    requires work.Length >= 4 * |parent| + 1 && 0 < top
    requires StacksSearch(parent, rank, work[..], top, post, npost)
    requires var node := Nodes(work[..], |parent|)[..top][top - 1];
      && ci == Cursors(work[..], |parent|)[..top][top - 1]
      && 0 <= ci < |KidsOf(parent, node)| && c == KidsOf(parent, node)[ci]
    modifies work
    ensures Starts(work[..], |parent|) == old(Starts(work[..], |parent|)) && Lists(work[..], |parent|) == old(Lists(work[..], |parent|))
    ensures StacksSearch(parent, rank, work[..], top + 1, post, npost)
  {
    var n := |parent|;
    DescendKeeps(parent, rank, Nodes(work[..], n)[..top], Cursors(work[..], n)[..top], post[..npost], c);
    PushFrame(work, n, top, c, ci);
  }

  // The vertex on top has no further children.
  lemma EmitTop(parent: seq<int>, rank: seq<nat>, w: seq<int>, top: int, post: seq<int>, npost: int)
    requires |w| >= 4 * |parent| + 1 && 0 < top && StacksSearch(parent, rank, w, top, post, npost)
    requires var node := Nodes(w, |parent|)[..top][top - 1]; Cursors(w, |parent|)[..top][top - 1] == |KidsOf(parent, node)|
    ensures npost < |parent| && StacksSearch(parent, rank, w, top - 1, post[npost := Nodes(w, |parent|)[..top][top - 1]], npost + 1)
  {
    var n := |parent|;
    var nodes, cis := Nodes(w, n)[..top], Cursors(w, n)[..top];
    EmitKeeps(parent, rank, nodes, cis, post[..npost]);
    assert nodes[..top - 1] == Nodes(w, n)[..top - 1] && cis[..top - 1] == Cursors(w, n)[..top - 1];
    assert post[npost := nodes[top - 1]][..npost + 1] == post[..npost] + [nodes[top - 1]];
  }

  // One step of the search on the two stacks.
  method SearchStep(parent: seq<int>, work: array<int>, postorder: array<int>, top: int, npost: int, ghost rank: seq<nat>)
      returns (top': int, npost': int)
    requires work.Length >= 4 * |parent| + 1 && work != postorder && 0 < top
    requires KidsReady(parent, Starts(work[..], |parent|), Lists(work[..], |parent|))
    requires StacksSearch(parent, rank, work[..], top, postorder[..], npost)
    modifies work, postorder
    ensures Starts(work[..], |parent|) == old(Starts(work[..], |parent|)) && Lists(work[..], |parent|) == old(Lists(work[..], |parent|))
    ensures StacksSearch(parent, rank, work[..], top', postorder[..], npost')
    ensures (npost' == npost && top' == top + 1) || (npost' == npost + 1 && top' == top - 1)
  {
    var node, ci, c := NextChild(parent, work, top);
    if c >= 0 {
      PushKid(parent, work, postorder[..], top, npost, c, ci, rank);
      top', npost' := top + 1, npost;
    } else {
      ghost var post := postorder[..];
      EmitTop(parent, rank, work[..], top, post, npost);
      postorder[npost] := node;
      assert postorder[..] == post[npost := node];
      top', npost' := top - 1, npost + 1;
    }
  }

  method PushFrame(work: array<int>, n: nat, top: int, c: int, ci: int)
    requires work.Length >= 4 * n + 1 && 0 < top < n
    modifies work
    ensures Starts(work[..], n) == old(Starts(work[..], n)) && Lists(work[..], n) == old(Lists(work[..], n))
    ensures Nodes(work[..], n)[..top + 1] == old(Nodes(work[..], n)[..top]) + [c]
    ensures Cursors(work[..], n)[..top + 1] == old(Cursors(work[..], n)[..top])[top - 1 := ci + 1] + [0]
  {
    SetCursor(work, n, top - 1, ci + 1);
    SetNode(work, n, top, c);
    SetCursor(work, n, top, 0);
  }

  lemma SearchEnds(parent: seq<int>, rank: seq<nat>, w: seq<int>, post: seq<int>, npost: int)
    requires |w| >= 4 * |parent| + 1 && StacksSearch(parent, rank, w, 0, post, npost)
    ensures npost == |parent| && post == PostForest(parent, rank)
  {
    ForestLength(parent, rank);
    assert post[..npost] + [] == post[..npost];
  }

  lemma SearchStarts(parent: seq<int>, rank: seq<nat>, w: seq<int>, post: seq<int>, top: int)
    requires |w| >= 4 * |parent| + 1 && Ranked(parent, rank) && |post| == |parent| && top == |RootsFrom(parent, 0)| <= |parent|
    requires Nodes(w, |parent|)[..top] == RootsFrom(parent, 0) && Cursors(w, |parent|)[..top] == Zeros(top)
    ensures StacksSearch(parent, rank, w, top, post, 0)
  {
    StartPending(parent, rank);
    assert post[..0] + PostForest(parent, rank) == PostForest(parent, rank);
  }

  lemma SearchRoom(parent: seq<int>, rank: seq<nat>, w: seq<int>, top: int, post: seq<int>, npost: int)
    requires |w| >= 4 * |parent| + 1 && StacksSearch(parent, rank, w, top, post, npost)
    ensures 0 <= top && npost + top <= |parent|
  {
    SearchBounds(parent, rank, Nodes(w, |parent|)[..top], Cursors(w, |parent|)[..top], post[..npost]);
  }

  method Search(parent: seq<int>, work: array<int>, postorder: array<int>, ghost rank: seq<nat>) returns (npost: int)
    requires work.Length >= 4 * |parent| + 1 && work != postorder && postorder.Length == |parent| && Ranked(parent, rank)
    requires KidsReady(parent, Starts(work[..], |parent|), Lists(work[..], |parent|))
    modifies work, postorder
    ensures npost == |parent| && postorder[..] == PostForest(parent, rank)
  {
    var n := |parent|;
    ghost var st, ls := Starts(work[..], n), Lists(work[..], n);
    var top := PushRoots(parent, work);
    npost := 0;
    SearchStarts(parent, rank, work[..], postorder[..], top);
    while top > 0
      invariant Starts(work[..], n) == st && Lists(work[..], n) == ls && 0 <= top
      invariant StacksSearch(parent, rank, work[..], top, postorder[..], npost)
      decreases 2 * (n - npost) - top
    {
      SearchRoom(parent, rank, work[..], top, postorder[..], npost);
      top, npost := SearchStep(parent, work, postorder, top, npost, rank);
      SearchRoom(parent, rank, work[..], top, postorder[..], npost);
    }
    SearchEnds(parent, rank, work[..], postorder[..], npost);
  }

  // ---- the depths ----

  ghost predicate DepthsAre(parent: seq<int>, rank: seq<nat>, order: seq<int>, k: int, d: seq<int>)
    requires Ranked(parent, rank) && Inside(order, |parent|) && 0 <= k <= |order|
  {
    |d| == |parent| && forall v | 0 <= v < |parent| :: d[v] == DepthAt(parent, rank, order, k, v)
  }

  // The greatest height among the first k vertices of the order.
  ghost predicate HeightSoFar(parent: seq<int>, rank: seq<nat>, order: seq<int>, k: int, m: int)
    requires Ranked(parent, rank) && Inside(order, |parent|) && 0 <= k <= |order|
  {
    && (forall i | 0 <= i < k :: Height(parent, rank, order[i]) <= m) && m >= 0
    && (m == 0 || exists i :: 0 <= i < k && Height(parent, rank, order[i]) == m)
  }

  method Depths(parent: seq<int>, postorder: array<int>, npost: int, work: array<int>, ghost rank: seq<nat>) returns (maxDepth: int)
    requires work.Length >= 4 * |parent| + 1 && work != postorder && npost == postorder.Length == |parent|
    requires Ranked(parent, rank) && postorder[..] == PostForest(parent, rank)
    modifies work
    ensures ForestHeight(parent, rank, maxDepth)
  {
    var n := |parent|;
    ghost var s := PostForest(parent, rank);
    ForestLength(parent, rank);
    for v := 0 to n
      invariant forall x | 0 <= x < v :: Nodes(work[..], n)[x] == 0
    {
      SetNode(work, n, v, 0);
    }
    maxDepth := 0;
    for k := 0 to npost
      invariant postorder[..] == s
      invariant DepthsAre(parent, rank, s, k, Nodes(work[..], n)) && HeightSoFar(parent, rank, s, k, maxDepth)
    {
      maxDepth := DepthStep(parent, s, k, postorder[k], work, maxDepth, rank);
    }
    AllHeights(parent, rank, maxDepth);
  }

  lemma DepthNext(parent: seq<int>, rank: seq<nat>, s: seq<int>, k: int, d: seq<int>)
    requires Ranked(parent, rank) && Inside(s, |parent|) && 0 <= k < |s| && DepthsAre(parent, rank, s, k, d)
    ensures var pj, h := parent[s[k]], Height(parent, rank, s[k]) + 1;
      DepthsAre(parent, rank, s, k + 1, if pj >= 0 && d[pj] < h then d[pj := h] else d)
  {
  }

  method DepthStep(parent: seq<int>, ghost s: seq<int>, ghost k: int, j: int, work: array<int>, maxDepth: int, ghost rank: seq<nat>)
      returns (m: int)
    requires work.Length >= 4 * |parent| + 1 && Ranked(parent, rank) && s == PostForest(parent, rank)
    requires Inside(s, |parent|) && 0 <= k < |s| && j == s[k]
    requires DepthsAre(parent, rank, s, k, Nodes(work[..], |parent|)) && HeightSoFar(parent, rank, s, k, maxDepth)
    modifies work
    ensures DepthsAre(parent, rank, s, k + 1, Nodes(work[..], |parent|)) && HeightSoFar(parent, rank, s, k + 1, m)
  {
    var n := |parent|;
    DepthIsHeight(parent, rank, k);
    DepthNext(parent, rank, s, k, Nodes(work[..], n));
    var dj := RaiseParent(work, n, j, parent[j]);
    m := if maxDepth < dj then dj else maxDepth;
    HeightNext(parent, rank, s, k, maxDepth, m);
  }

  // The parent is at least one deeper than j.
  method RaiseParent(work: array<int>, n: nat, j: int, pj: int) returns (dj: int)
    requires work.Length >= 4 * n + 1 && 0 <= j < n && pj < n
    modifies work
    ensures dj == old(Nodes(work[..], n)[j])
    ensures var d := old(Nodes(work[..], n));
      Nodes(work[..], n) == if pj >= 0 && d[pj] < dj + 1 then d[pj := dj + 1] else d
  {
    dj := NodeAt(work, n, j);
    if pj >= 0 && NodeAt(work, n, pj) < dj + 1 { SetNode(work, n, pj, dj + 1); }
  }

  lemma HeightNext(parent: seq<int>, rank: seq<nat>, s: seq<int>, k: int, m: int, m': int)
    requires Ranked(parent, rank) && Inside(s, |parent|) && 0 <= k < |s| && HeightSoFar(parent, rank, s, k, m)
    requires m' == if m < Height(parent, rank, s[k]) then Height(parent, rank, s[k]) else m
    ensures HeightSoFar(parent, rank, s, k + 1, m')
  {
    if m' == m && m > 0 {
      var i :| 0 <= i < k && Height(parent, rank, s[i]) == m;
      assert 0 <= i < k + 1;
    } else if m' > 0 {
      assert 0 <= k < k + 1 && Height(parent, rank, s[k]) == m';
    }
  }

  // The order holds every vertex, so its greatest height is the forest's.
  lemma AllHeights(parent: seq<int>, rank: seq<nat>, m: int)
    requires Ranked(parent, rank) && Inside(PostForest(parent, rank), |parent|)
    requires HeightSoFar(parent, rank, PostForest(parent, rank), |PostForest(parent, rank)|, m)
    ensures ForestHeight(parent, rank, m)
  {
    var s := PostForest(parent, rank);
    forall v | 0 <= v < |parent|
      ensures Height(parent, rank, v) <= m
    {
      ForestCounts(parent, rank, v);
      var i := CountFound(s, v);
    }
    if m > 0 {
      var i :| 0 <= i < |s| && Height(parent, rank, s[i]) == m;
    }
  }

  /** Fills `postorder` with the forest's recursive postorder and returns its height. */
  method EtreePostorder(parent: seq<int>, postorder: array<int>, work: array<int>, ghost rank: seq<nat>) returns (maxDepth: int)
    requires work.Length >= 4 * |parent| + 1 && work != postorder && postorder.Length == |parent| && Ranked(parent, rank)
    modifies work, postorder
    ensures postorder[..] == PostForest(parent, rank)
    ensures ForestHeight(parent, rank, maxDepth)
  {
    BuildKids(parent, work);
    var npost := Search(parent, work, postorder, rank);
    maxDepth := Depths(parent, postorder, npost, work, rank);
  }
}
