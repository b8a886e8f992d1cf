/** The tree builders: one path-compressing link step, driven by adjacency lists, by the
    transposed lower triangle, or by rows. */
module EtreeBuild {
  import opened Etree
  import opened Buckets

  // ---- what the ancestor array knows during row k ----

  // Shortcut of v: to a vertex of the same tree, or to k once the tree is linked to k.
  ghost predicate Shortcut(parent: seq<int>, anc: seq<int>, k: int, v: int)
    requires Upward(parent) && |anc| == |parent| && 0 <= v < |parent|
  {
    && (anc[v] == -1 <==> parent[v] == -1)
    && parent[v] <= k
    && (anc[v] != -1 ==> v < anc[v] <= k && anc[v] < |parent|)
    && (-1 < anc[v] < k ==> Root(parent, k, anc[v]) == Root(parent, k, v))
  }

  // v's tree is linked to k.
  ghost predicate LinkedTo(parent: seq<int>, k: int, v: int)
    requires Upward(parent) && 0 <= v < |parent|
  {
    RootIs(parent, k, v);
    parent[Root(parent, k, v)] == k
  }

  ghost predicate Compressed(parent: seq<int>, anc: seq<int>, k: int)
    requires Upward(parent) && |anc| == |parent|
  {
    forall v | 0 <= v < |parent| :: Shortcut(parent, anc, k, v) && (anc[v] == k ==> LinkedTo(parent, k, v))
  }

  // The same in the middle of a walk at r: the vertices of r's tree behind it already
  // point to k.
  ghost predicate Compressing(parent: seq<int>, anc: seq<int>, k: int, r: int)
    requires Upward(parent) && |anc| == |parent| && 0 <= r < |parent|
  {
    forall v | 0 <= v < |parent| ::
      && Shortcut(parent, anc, k, v)
      && (anc[v] == k ==> LinkedTo(parent, k, v) || (v < r && Root(parent, k, v) == Root(parent, k, r)))
  }

  lemma StepUp(parent: seq<int>, anc: seq<int>, k: int, r: int)
    requires Upward(parent) && |anc| == |parent| && 0 <= r < |parent| && Compressing(parent, anc, k, r)
    requires anc[r] != -1 && anc[r] != k && k < |parent|
    ensures r < anc[r] < k && Root(parent, k, anc[r]) == Root(parent, k, r)
    ensures Compressing(parent, anc[r := k], k, anc[r])
  {
    assert Shortcut(parent, anc, k, r);
    var t, anc' := anc[r], anc[r := k];
    forall v | 0 <= v < |parent|
      ensures Shortcut(parent, anc', k, v)
      ensures anc'[v] == k ==> LinkedTo(parent, k, v) || (v < t && Root(parent, k, v) == Root(parent, k, t))
    {
      assert Shortcut(parent, anc, k, v);
    }
  }

  // The walk ends at the root of an unlinked tree, which is linked, or at a linked one.
  lemma WalkEnds(parent: seq<int>, anc: seq<int>, k: int, r: int)
    requires Upward(parent) && |anc| == |parent| && 0 <= r < k < |parent| && Compressing(parent, anc, k, r)
    requires anc[r] == k || anc[r] == -1
    ensures anc[r] == -1 ==> parent[r] == -1 && Root(parent, k, r) == r
    ensures anc[r] == k ==> LinkedTo(parent, k, r) && Compressed(parent, anc, k)
  {
    assert Shortcut(parent, anc, k, r);
    if anc[r] == k {
      forall v | 0 <= v < |parent|
        ensures Shortcut(parent, anc, k, v) && (anc[v] == k ==> LinkedTo(parent, k, v))
      {
      }
    }
  }

  lemma LinkKeeps(parent: seq<int>, anc: seq<int>, k: int, r: int)
    requires Upward(parent) && |anc| == |parent| && 0 <= r < k < |parent| && Compressing(parent, anc, k, r)
    requires parent[r] == -1 && anc[r] == -1 && Root(parent, k, r) == r
    ensures Upward(parent[r := k]) && Compressed(parent[r := k], anc[r := k], k)
    ensures forall v | 0 <= v < |parent| :: Root(parent[r := k], k, v) == Root(parent, k, v)
  {
    var parent', anc' := parent[r := k], anc[r := k];
    forall v | 0 <= v < |parent|
      ensures Root(parent', k, v) == Root(parent, k, v)
    {
      RootUnlinked(parent, k, r, v);
    }
    forall v | 0 <= v < |parent|
      ensures Shortcut(parent', anc', k, v) && (anc'[v] == k ==> LinkedTo(parent', k, v))
    {
      LinkKeepsAt(parent, anc, k, r, v);
    }
  }

  lemma LinkKeepsAt(parent: seq<int>, anc: seq<int>, k: int, r: int, v: int)
    requires Upward(parent) && |anc| == |parent| && 0 <= r < k < |parent| && 0 <= v < |parent|
    requires Shortcut(parent, anc, k, v) && (anc[v] == k ==> LinkedTo(parent, k, v) || Root(parent, k, v) == r)
    requires parent[r] == -1 && anc[r] == -1 && Root(parent, k, r) == r
    requires Upward(parent[r := k]) && forall x | 0 <= x < |parent| :: Root(parent[r := k], k, x) == Root(parent, k, x)
    ensures Shortcut(parent[r := k], anc[r := k], k, v)
    ensures anc[r := k][v] == k ==> LinkedTo(parent[r := k], k, v)
  {
    RootIs(parent, k, v);
  }

  // ---- a row ----

  // Rows below k are in, and the first m entries of row k.
  ghost predicate RowState(rows: seq<seq<int>>, parent: seq<int>, anc: seq<int>, k: int, m: int) {
    && |anc| == |parent| && Linked(rows, parent) && Connected(rows, parent, k)
    && 0 <= k < |rows| && 0 <= m <= |rows[k]| && Compressed(parent, anc, k)
    && forall i | 0 <= i < m && 0 <= rows[k][i] < k :: LinkedTo(parent, k, rows[k][i])
  }

  // From r up to the end of its shortcuts, which all become k.
  method WalkUp(ancestor: array<int>, k: int, r0: int, ghost p: seq<int>) returns (r: int)
    requires Upward(p) && ancestor.Length == |p| && 0 <= r0 < k < |p| && Compressed(p, ancestor[..], k)
    modifies ancestor
    ensures 0 <= r < k && Root(p, k, r) == Root(p, k, r0) && Compressing(p, ancestor[..], k, r)
    ensures ancestor[r] == -1 || ancestor[r] == k
  {
    r := r0;
    while ancestor[r] != -1 && ancestor[r] != k
      invariant 0 <= r < k && Root(p, k, r) == Root(p, k, r0)
      invariant Compressing(p, ancestor[..], k, r)
      decreases k - r
    {
      StepUp(p, ancestor[..], k, r);
      ghost var anc := ancestor[..];
      var t := ancestor[r];
      ancestor[r] := k;
      assert ancestor[..] == anc[r := k];
      r := t;
    }
  }

  // The entry's tree is linked; the others are as they were.
  lemma EntryLinked(rows: seq<seq<int>>, parent: seq<int>, anc: seq<int>, parent': seq<int>, anc': seq<int>, k: int, m: int, r: int)
    requires RowState(rows, parent, anc, k, m) && m < |rows[k]| && 0 <= rows[k][m] < k && 0 <= r < k
    requires Root(parent, k, r) == Root(parent, k, rows[k][m]) && |anc'| == |parent|
    requires if parent' == parent then LinkedTo(parent, k, r) && Compressed(parent, anc', k)
             else parent' == parent[r := k] && parent[r] == -1 && Root(parent, k, r) == r
                  && Upward(parent') && Compressed(parent', anc', k)
    ensures RowState(rows, parent', anc', k, m + 1)
  {
    var r0 := rows[k][m];
    assert Neighbour(rows, r0, k);
    RootReaches(rows, parent, k, r0);
    if parent' != parent { LinkedConnected(rows, parent, k, r); }
    forall i | 0 <= i < m + 1 && 0 <= rows[k][i] < k
      ensures LinkedTo(parent', k, rows[k][i])
    {
      RootIs(parent, k, rows[k][i]);
      if parent' != parent { RootUnlinked(parent, k, r, rows[k][i]); }
    }
  }

  // The link step for entry r0 of row k.
  method LinkEntry(parent: array<int>, ancestor: array<int>, k: int, r0: int, ghost rows: seq<seq<int>>, ghost m: int)
    requires parent != ancestor && RowState(rows, parent[..], ancestor[..], k, m)
    requires 0 <= k < |rows| && 0 <= m < |rows[k]| && rows[k][m] == r0 && 0 <= r0 < k
    modifies parent, ancestor
    ensures RowState(rows, parent[..], ancestor[..], k, m + 1)
  {
    ghost var p, anc := parent[..], ancestor[..];
    var r := WalkUp(ancestor, k, r0, p);
    assert parent[..] == p;
    WalkEnds(p, ancestor[..], k, r);
    if ancestor[r] == -1 {
      LinkKeeps(p, ancestor[..], k, r);
      ghost var anc1 := ancestor[..];
      parent[r] := k;
      ancestor[r] := k;
      assert parent[..] == p[r := k] && ancestor[..] == anc1[r := k];
    }
    EntryLinked(rows, p, anc, parent[..], ancestor[..], k, m, r);
  }

  // An entry at or above the diagonal is skipped.
  lemma EntrySkipped(rows: seq<seq<int>>, parent: seq<int>, anc: seq<int>, k: int, m: int)
    requires RowState(rows, parent, anc, k, m) && m < |rows[k]| && rows[k][m] >= k
    ensures RowState(rows, parent, anc, k, m + 1)
  {
  }

  lemma LinkedConnected(rows: seq<seq<int>>, parent: seq<int>, k: int, r: int)
    requires Linked(rows, parent) && Connected(rows, parent, k) && 0 <= r < k < |parent| && parent[r] == -1
    requires Reaches(rows, r, k)
    ensures Linked(rows, parent[r := k]) && Connected(rows, parent[r := k], k)
  {
    forall a, b | Neighbour(rows, a, b) && b < k
      ensures Root(parent[r := k], b + 1, a) == b
    {
      RootAway(parent, k, r, b + 1, a);
    }
  }

  // A link to k does not show in any forest up to k.
  lemma {:induction false} RootAway(parent: seq<int>, k: int, r: int, k': int, v: int)
    requires Upward(parent) && 0 <= v < |parent| && 0 <= r < k < |parent| && parent[r] == -1 && k' <= k
    ensures Upward(parent[r := k]) && Root(parent[r := k], k', v) == Root(parent, k', v)
    decreases |parent| - v
  {
    if parent[v] != -1 && parent[v] < k' { RootAway(parent, k, r, k', parent[v]); }
  }

  // Once all entries of row k are linked, the forest grows by k.
  lemma RowDone(rows: seq<seq<int>>, parent: seq<int>, anc: seq<int>, k: int)
    requires 0 <= k < |rows| && RowState(rows, parent, anc, k, |rows[k]|) && parent[k] == -1
    ensures Connected(rows, parent, k + 1) && Compressed(parent, anc, k + 1)
  {
    var k' := k + 1;
    forall a, b | Neighbour(rows, a, b) && b < k'
      ensures Root(parent, b + 1, a) == b
    {
      if b == k {
        var i :| 0 <= i < |rows[k]| && rows[k][i] == a;
        JoinsTree(parent, k, a);
      }
    }
    forall v | 0 <= v < |parent|
      ensures Shortcut(parent, anc, k', v) && (anc[v] == k' ==> LinkedTo(parent, k', v))
    {
      assert Shortcut(parent, anc, k, v);
      if anc[v] == k {
        JoinsTree(parent, k, v);
        SelfRoot(parent, k);
      } else if anc[v] != -1 {
        RootOfRoot(parent, k, k', anc[v]);
        RootOfRoot(parent, k, k', v);
      }
    }
  }

  lemma JoinsTree(parent: seq<int>, k: int, v: int)
    requires Upward(parent) && 0 <= v < |parent| && 0 <= k < |parent| && LinkedTo(parent, k, v) && parent[k] == -1
    ensures Root(parent, k + 1, v) == k
  {
    RootOfRoot(parent, k, k + 1, v);
    SelfRoot(parent, k);
  }

  // Rows at or above k have no link yet.
  ghost predicate Untouched(parent: seq<int>, anc: seq<int>, k: int)
    requires |anc| == |parent|
  {
    forall v | 0 <= v < |parent| && k <= v :: parent[v] == -1 && anc[v] == -1
  }

  ghost predicate TreeState(rows: seq<seq<int>>, parent: seq<int>, anc: seq<int>, k: int) {
    && |anc| == |parent| && Linked(rows, parent) && Connected(rows, parent, k) && Compressed(parent, anc, k)
    && 0 <= k <= |rows| && Untouched(parent, anc, k)
  }

  method ClearTree(parent: array<int>, ancestor: array<int>, ghost rows: seq<seq<int>>)
    requires parent != ancestor && parent.Length == ancestor.Length == |rows|
    modifies parent, ancestor
    ensures TreeState(rows, parent[..], ancestor[..], 0)
  {
    for v := 0 to parent.Length
      invariant forall x | 0 <= x < v :: parent[x] == -1 && ancestor[x] == -1
    {
      parent[v], ancestor[v] := -1, -1;
    }
  }

  lemma RowStarts(rows: seq<seq<int>>, parent: seq<int>, anc: seq<int>, k: int)
    requires TreeState(rows, parent, anc, k) && k < |rows|
    ensures RowState(rows, parent, anc, k, 0)
  {
  }

  // Entries of a row link only earlier vertices, so later ones stay untouched.
  lemma RowEnds(rows: seq<seq<int>>, parent: seq<int>, anc: seq<int>, k: int)
    requires 0 <= k < |rows| && RowState(rows, parent, anc, k, |rows[k]|)
    ensures TreeState(rows, parent, anc, k + 1)
  {
    forall v | 0 <= v < |parent| && k <= v
      ensures parent[v] == -1 && anc[v] == -1
    {
      assert Shortcut(parent, anc, k, v);
    }
    RowDone(rows, parent, anc, k);
  }

  // ---- builder 1: adjacency lists under a permutation ----

  // CSR lists: list v is idx[ptr[v]..ptr[v + 1]].
  ghost predicate Lists(ptr: seq<int>, idx: seq<int>, n: int) {
    && |ptr| == n + 1 && (forall v | 0 <= v <= n :: 0 <= ptr[v] <= |idx|)
    && (forall u, v | 0 <= u <= v <= n :: ptr[u] <= ptr[v])
    && (forall i | 0 <= i < |idx| :: 0 <= idx[i] < n)
  }

  ghost predicate Permuted(perm: seq<int>, iperm: seq<int>, n: int) {
    && |perm| == |iperm| == n
    && (forall k | 0 <= k < n :: 0 <= perm[k] < n && 0 <= iperm[k] < n)
  }

  // Row k of P A P^T.
  function AdjacencyRows(ptr: seq<int>, idx: seq<int>, perm: seq<int>, iperm: seq<int>, n: int): (rows: seq<seq<int>>)
    requires n >= 0 && Lists(ptr, idx, n) && Permuted(perm, iperm, n)
    ensures |rows| == n
  {
    seq(n, k requires 0 <= k < n =>
      seq(ptr[perm[k] + 1] - ptr[perm[k]], i requires 0 <= i < ptr[perm[k] + 1] - ptr[perm[k]] => iperm[idx[ptr[perm[k]] + i]]))
  }

  /** Liu's algorithm over the rows of P A P^T. */
  method EtreeFromAdjacency(n: int, xadj: seq<int>, adj: seq<int>, perm: seq<int>, iperm: seq<int>,
                            parent: array<int>, ancestor: array<int>)
    requires n >= 0 && Lists(xadj, adj, n) && Permuted(perm, iperm, n)
    requires parent != ancestor && parent.Length == ancestor.Length == n
    modifies parent, ancestor
    ensures IsEtree(AdjacencyRows(xadj, adj, perm, iperm, n), parent[..])
  {
    ghost var rows := AdjacencyRows(xadj, adj, perm, iperm, n);
    ClearTree(parent, ancestor, rows);
    for k := 0 to n
      invariant TreeState(rows, parent[..], ancestor[..], k)
    {
      var v := perm[k];
      RowStarts(rows, parent[..], ancestor[..], k);
      for p := xadj[v] to xadj[v + 1]
        invariant RowState(rows, parent[..], ancestor[..], k, p - xadj[v])
      {
        var r := iperm[adj[p]];
        assert rows[k][p - xadj[v]] == r;
        if r >= k {
          EntrySkipped(rows, parent[..], ancestor[..], k, p - xadj[v]);
        } else {
          LinkEntry(parent, ancestor, k, r, rows, p - xadj[v]);
        }
      }
      RowEnds(rows, parent[..], ancestor[..], k);
    }
    FactsMakeEtree(rows, parent[..]);
  }

  // ---- builder 3: rows given directly ----

  function CsrRows(ptr: seq<int>, idx: seq<int>, n: int): (rows: seq<seq<int>>)
    requires n >= 0 && Lists(ptr, idx, n)
    ensures |rows| == n && forall k | 0 <= k < n :: rows[k] == idx[ptr[k]..ptr[k + 1]]
  {
    seq(n, k requires 0 <= k < n => idx[ptr[k]..ptr[k + 1]])
  }

  method EtreeFromRows(n: int, ptr: seq<int>, cols: seq<int>) returns (parent: array<int>)
    requires n >= 0 && Lists(ptr, cols, n)
    ensures fresh(parent) && IsEtree(CsrRows(ptr, cols, n), parent[..])
  {
    ghost var rows := CsrRows(ptr, cols, n);
    parent := new int[n];
    var ancestor := new int[n];
    ClearTree(parent, ancestor, rows);
    for k := 0 to n
      invariant TreeState(rows, parent[..], ancestor[..], k)
    {
      RowStarts(rows, parent[..], ancestor[..], k);
      for p := ptr[k] to ptr[k + 1]
        invariant RowState(rows, parent[..], ancestor[..], k, p - ptr[k])
      {
        var r := cols[p];
        assert rows[k][p - ptr[k]] == r;
        if r >= k {
          EntrySkipped(rows, parent[..], ancestor[..], k, p - ptr[k]);
        } else {
          LinkEntry(parent, ancestor, k, r, rows, p - ptr[k]);
        }
      }
      RowEnds(rows, parent[..], ancestor[..], k);
    }
    FactsMakeEtree(rows, parent[..]);
  }

  // ---- builder 2: the lower triangle, transposed first ----

  // The off-diagonal entries of column j, filed under their rows.
  function ColumnItems(col: seq<int>, j: int, m: int): seq<Item>
    decreases m
  {
    if m <= 0 || m > |col| then []
    else if col[m - 1] == j then ColumnItems(col, j, m - 1)
    else ColumnItems(col, j, m - 1) + [Item(col[m - 1], j)]
  }

  function LowerItems(cols: seq<seq<int>>, j: int): seq<Item>
    decreases j
  {
    if j <= 0 || j > |cols| then [] else LowerItems(cols, j - 1) + ColumnItems(cols[j - 1], j - 1, |cols[j - 1]|)
  }

  // Row k lists the columns with an entry in row k.
  function TransposedRows(cols: seq<seq<int>>): (rows: seq<seq<int>>)
    ensures |rows| == |cols|
  {
    var items := LowerItems(cols, |cols|);
    seq(|cols|, k => Bucket(items, |items|, k))
  }

  lemma {:induction false} InBucket(items: seq<Item>, m: int, k: int, x: int)
    requires 0 <= m <= |items|
    ensures x in Bucket(items, m, k) <==> Item(k, x) in items[..m]
    decreases m
  {
    if m > 0 {
      InBucket(items, m - 1, k, x);
      assert items[..m] == items[..m - 1] + [items[m - 1]];
    }
  }

  lemma {:induction false} InColumnItems(col: seq<int>, j: int, m: int, it: Item)
    requires 0 <= m <= |col|
    ensures it in ColumnItems(col, j, m) <==> it.value == j && it.key != j && it.key in col[..m]
    decreases m
  {
    if m > 0 {
      InColumnItems(col, j, m - 1, it);
      assert col[..m] == col[..m - 1] + [col[m - 1]];
    }
  }

  lemma {:induction false} InLowerItems(cols: seq<seq<int>>, j: int, it: Item)
    requires 0 <= j <= |cols|
    ensures it in LowerItems(cols, j) <==> 0 <= it.value < j && it.key != it.value && it.key in cols[it.value]
    decreases j
  {
    if j > 0 {
      InLowerItems(cols, j - 1, it);
      InColumnItems(cols[j - 1], j - 1, |cols[j - 1]|, it);
      assert cols[j - 1][..|cols[j - 1]|] == cols[j - 1];
    }
  }

  /** The transposed rows have the pattern of the lower columns. */
  lemma TransposedPattern(cols: seq<seq<int>>, a: int, k: int)
    requires 0 <= a < k < |cols|
    ensures Neighbour(TransposedRows(cols), a, k) <==> k in cols[a]
  {
    var items := LowerItems(cols, |cols|);
    InBucket(items, |items|, k, a);
    assert items[..|items|] == items;
    InLowerItems(cols, |cols|, Item(k, a));
  }

  /** Any two builders agree on the same pattern. */
  lemma BuildersAgree(cols: seq<seq<int>>, rows: seq<seq<int>>, parent: seq<int>, parent': seq<int>)
    requires |rows| == |cols| && forall a, k | 0 <= a < k < |cols| :: a in rows[k] <==> k in cols[a]
    requires IsEtree(TransposedRows(cols), parent) && IsEtree(rows, parent')
    ensures parent == parent'
  {
    forall a, b
      ensures Neighbour(TransposedRows(cols), a, b) <==> Neighbour(rows, a, b)
    {
      if 0 <= a < b < |cols| { TransposedPattern(cols, a, b); }
    }
    EtreeUnique(TransposedRows(cols), rows, parent, parent');
  }

  // The items up to entry m of column j are a prefix of all of them.
  function ItemsTo(cols: seq<seq<int>>, j: int, m: int): seq<Item>
    requires 0 <= j < |cols|
  {
    LowerItems(cols, j) + ColumnItems(cols[j], j, m)
  }

  lemma {:induction false} ColumnPrefix(col: seq<int>, j: int, m: int, m': int)
    requires 0 <= m <= m' <= |col|
    ensures ColumnItems(col, j, m) <= ColumnItems(col, j, m')
    decreases m'
  {
    if m < m' { ColumnPrefix(col, j, m, m' - 1); }
  }

  lemma {:induction false} LowerPrefix(cols: seq<seq<int>>, j: int, j': int)
    requires 0 <= j <= j' <= |cols|
    ensures LowerItems(cols, j) <= LowerItems(cols, j')
    decreases j'
  {
    if j < j' { LowerPrefix(cols, j, j' - 1); }
  }

  // The entry after the first m of column j, if off the diagonal, is the next item.
  lemma NextItem(cols: seq<seq<int>>, j: int, m: int)
    requires 0 <= j < |cols| && 0 <= m < |cols[j]|
    ensures var all, cur := LowerItems(cols, |cols|), ItemsTo(cols, j, m);
      && ItemsTo(cols, j, m + 1) == (if cols[j][m] == j then cur else cur + [Item(cols[j][m], j)])
      && (cols[j][m] != j ==> |cur| < |all| && all[|cur|] == Item(cols[j][m], j))
  {
    var all, cur := LowerItems(cols, |cols|), ItemsTo(cols, j, m);
    ColumnPrefix(cols[j], j, m + 1, |cols[j]|);
    LowerPrefix(cols, j + 1, |cols|);
    assert LowerItems(cols, j + 1) == LowerItems(cols, j) + ColumnItems(cols[j], j, |cols[j]|);
    if cols[j][m] != j {
      assert ItemsTo(cols, j, m + 1) == cur + [Item(cols[j][m], j)];
      assert ItemsTo(cols, j, m + 1) <= LowerItems(cols, j + 1);
      assert ItemsTo(cols, j, m + 1)[|cur|] == all[|cur|];
    }
  }

  lemma ColumnDone(cols: seq<seq<int>>, j: int)
    requires 0 <= j < |cols|
    ensures ItemsTo(cols, j, |cols[j]|) == LowerItems(cols, j + 1)
    ensures ItemsTo(cols, j, 0) == LowerItems(cols, j)
  {
  }

  lemma LowerKeyed(cols: seq<seq<int>>, n: int)
    requires |cols| == n && forall j, q | 0 <= j < n && 0 <= q < |cols[j]| :: 0 <= cols[j][q] < n
    ensures Keyed(LowerItems(cols, n), n)
  {
    var all := LowerItems(cols, n);
    forall i | 0 <= i < |all|
      ensures 0 <= all[i].key < n
    {
      assert all[i] in all;
      InLowerItems(cols, n, all[i]);
    }
  }

  // List j.
  method ColumnOf(n: int, ptr: seq<int>, idx: seq<int>, j: int) returns (col: seq<int>)
    requires 0 <= j < n && Lists(ptr, idx, n)
    ensures col == CsrRows(ptr, idx, n)[j]
  {
    col := idx[ptr[j]..ptr[j + 1]];
  }

  method CountItem(cnt: array<int>, i: int, j: int, n: int, ghost all: seq<Item>, ghost m: int)
    requires 0 <= m < |all| && all[m] == Item(i, j) && Keyed(all, n) && Counted(all, m, cnt[..], n)
    modifies cnt
    ensures Counted(all, m + 1, cnt[..], n)
  {
    ghost var c := cnt[..];
    CountNext(all, m, c, n);
    cnt[i + 1] := cnt[i + 1] + 1;
    assert cnt[..] == c[i + 1 := c[i + 1] + 1];
  }

  method CountColumn(cnt: array<int>, n: int, col: seq<int>, j: int, ghost cols: seq<seq<int>>, ghost all: seq<Item>)
    requires |cols| == n && 0 <= j < n && cols[j] == col && all == LowerItems(cols, n) && Keyed(all, n)
    requires Counted(all, |LowerItems(cols, j)|, cnt[..], n)
    modifies cnt
    ensures Counted(all, |LowerItems(cols, j + 1)|, cnt[..], n)
  {
    ColumnDone(cols, j);
    for q := 0 to |col|
      invariant Counted(all, |ItemsTo(cols, j, q)|, cnt[..], n)
    {
      NextItem(cols, j, q);
      if col[q] != j { CountItem(cnt, col[q], j, n, all, |ItemsTo(cols, j, q)|); }
    }
  }

  lemma NothingCounted(all: seq<Item>, cnt: seq<int>, n: int)
    requires |cnt| == n + 1 && n >= 0 && forall k | 0 <= k <= n :: cnt[k] == 0
    ensures Counted(all, 0, cnt, n)
  {
  }

  method ZeroCounts(n: int, ghost all: seq<Item>) returns (cnt: array<int>)
    requires n >= 0
    ensures fresh(cnt) && cnt.Length == n + 1 && Counted(all, 0, cnt[..], n)
  {
    cnt := new int[n + 1](_ => 0);
    NothingCounted(all, cnt[..], n);
  }

  // Counts the entries of every row.
  method CountRows(n: int, ptr: seq<int>, idx: seq<int>) returns (cnt: array<int>)
    requires n >= 0 && Lists(ptr, idx, n)
    ensures fresh(cnt) && cnt.Length == n + 1
    ensures var all := LowerItems(CsrRows(ptr, idx, n), n); Counted(all, |all|, cnt[..], n)
  {
    ghost var cols := CsrRows(ptr, idx, n);
    ghost var all := LowerItems(cols, n);
    LowerKeyed(cols, n);
    cnt := ZeroCounts(n, all);
    for j := 0 to n
      invariant Counted(all, |LowerItems(cols, j)|, cnt[..], n)
    {
      var col := ColumnOf(n, ptr, idx, j);
      CountColumn(cnt, n, col, j, cols, all);
    }
  }

  // Counts to starts.
  method PrefixSums(st: array<int>, n: int, ghost all: seq<Item>)
    requires n >= 0 && st.Length == n + 1 && Counted(all, |all|, st[..], n)
    modifies st
    ensures Summed(all, st[..], n, n)
  {
    for k := 0 to n
      invariant Summed(all, st[..], n, k)
    {
      ghost var s := st[..];
      SumNext(all, s, n, k);
      st[k + 1] := st[k + 1] + st[k];
      assert st[..] == s[k + 1 := s[k + 1] + s[k]];
    }
  }

  // Cursors of the first m items.
  ghost predicate CursorsAt(all: seq<Item>, m: int, pos: seq<int>, n: int) {
    |pos| == n && forall k {:trigger pos[k]} | 0 <= k < n :: pos[k] == Slot(all, m, k)
  }

  method FillItem(urow: array<int>, pos: array<int>, i: int, j: int, n: int, ghost all: seq<Item>, ghost m: int)
    requires 0 <= m < |all| && all[m] == Item(i, j) && Keyed(all, n) && urow != pos
    requires Filling(all, m, urow[..], pos[..], n)
    modifies urow, pos
    ensures Filling(all, m + 1, urow[..], pos[..], n) == true
  {
    ghost var d, p := urow[..], pos[..];
    FillNext(all, m, d, n);
    assert pos[i] == p[i] == Slot(all, m, i);
    urow[pos[i]] := j;
    pos[i] := pos[i] + 1;
    assert urow[..] == d[Slot(all, m, i) := j] && pos[..] == p[i := p[i] + 1];
    CursorNext(all, m, p, n);
  }

  lemma CursorNext(all: seq<Item>, m: int, pos: seq<int>, n: int)
    requires 0 <= m < |all| && Keyed(all, n) && CursorsAt(all, m, pos, n)
    ensures var k := all[m].key; CursorsAt(all, m + 1, pos[k := pos[k] + 1], n)
  {
  }

  // The fill's state after m items.
  ghost predicate Filling(all: seq<Item>, m: int, urow: seq<int>, pos: seq<int>, n: int) {
    |all| <= |urow| && CursorsAt(all, m, pos, n) && Filled(all, m, urow, n)
  }

  method FillColumn(urow: array<int>, pos: array<int>, n: int, col: seq<int>, j: int, ghost cols: seq<seq<int>>, ghost all: seq<Item>)
    requires urow != pos && |cols| == n && 0 <= j < n && cols[j] == col && all == LowerItems(cols, n) && Keyed(all, n)
    requires Filling(all, |LowerItems(cols, j)|, urow[..], pos[..], n)
    modifies urow, pos
    ensures Filling(all, |LowerItems(cols, j + 1)|, urow[..], pos[..], n) == true
  {
    ColumnDone(cols, j);
    for q := 0 to |col|
      invariant Filling(all, |ItemsTo(cols, j, q)|, urow[..], pos[..], n) == true
    {
      NextItem(cols, j, q);
      if col[q] != j { FillItem(urow, pos, col[q], j, n, all, |ItemsTo(cols, j, q)|); }
    }
  }

  // Cursors start at the bucket starts.
  method StartCursors(st: array<int>, n: int, ghost all: seq<Item>) returns (pos: array<int>)
    requires n >= 0 && st.Length == n + 1 && Summed(all, st[..], n, n)
    ensures fresh(pos) && CursorsAt(all, 0, pos[..], n)
  {
    pos := new int[n];
    for k := 0 to n
      invariant forall x | 0 <= x < k :: pos[x] == Slot(all, 0, x)
    {
      assert st[k] == st[..][k] == Before(all, |all|, k);
      pos[k] := st[k];
    }
  }

  method StartFill(st: array<int>, n: int, ghost all: seq<Item>) returns (urow: array<int>, pos: array<int>)
    requires n >= 0 && st.Length == n + 1 && Keyed(all, n) && Summed(all, st[..], n, n)
    ensures fresh(urow) && fresh(pos) && urow != pos && urow.Length == |all|
    ensures Filling(all, 0, urow[..], pos[..], n)
  {
    BeforeAll(all, |all|, n);
    assert st[n] == st[..][n] == |all|;
    urow := new int[st[n]];
    pos := StartCursors(st, n, all);
    FillNone(all, urow[..], n);
  }

  method FillRows(n: int, ptr: seq<int>, idx: seq<int>, st: array<int>) returns (urow: array<int>)
    requires n >= 0 && Lists(ptr, idx, n) && st.Length == n + 1
    requires var all := LowerItems(CsrRows(ptr, idx, n), n); Summed(all, st[..], n, n)
    ensures fresh(urow)
    ensures var all := LowerItems(CsrRows(ptr, idx, n), n); urow.Length == |all| && Filled(all, |all|, urow[..], n)
  {
    ghost var cols := CsrRows(ptr, idx, n);
    ghost var all := LowerItems(cols, n);
    LowerKeyed(cols, n);
    var pos;
    urow, pos := StartFill(st, n, all);
    for j := 0 to n
      invariant Filling(all, |LowerItems(cols, j)|, urow[..], pos[..], n)
    {
      var col := ColumnOf(n, ptr, idx, j);
      FillColumn(urow, pos, n, col, j, cols, all);
    }
  }

  // The filled rows are the transposed ones.
  lemma FilledRows(cols: seq<seq<int>>, st: seq<int>, urow: seq<int>, n: int)
    requires n == |cols| && forall j, q | 0 <= j < n && 0 <= q < |cols[j]| :: 0 <= cols[j][q] < n
    requires |st| == n + 1
    requires var all := LowerItems(cols, n); |urow| == |all| && Summed(all, st, n, n) && Filled(all, |all|, urow, n)
    ensures Lists(st, urow, n) && CsrRows(st, urow, n) == TransposedRows(cols)
  {
    var all := LowerItems(cols, n);
    LowerKeyed(cols, n);
    BeforeAll(all, |all|, n);
    forall u, v | 0 <= u <= v <= n ensures 0 <= st[u] <= st[v] <= |urow| {
      BeforeGrows(all, |all|, u, v);
      BeforeGrows(all, |all|, v, n);
    }
    forall k | 0 <= k < n
      ensures st[k] <= st[k + 1] && urow[st[k]..st[k + 1]] == Bucket(all, |all|, k)
    {
      FilledAll(all, urow, n, k);
    }
    forall i | 0 <= i < |urow|
      ensures 0 <= urow[i] < n
    {
      FilledFrom(cols, all, urow, n, i);
    }
    assert forall k | 0 <= k < n :: CsrRows(st, urow, n)[k] == TransposedRows(cols)[k];
  }

  lemma SliceMember(s: seq<int>, lo: int, hi: int, i: int)
    requires 0 <= lo <= i < hi <= |s|
    ensures s[i] in s[lo..hi]
  {
    assert s[lo..hi][i - lo] == s[i];
  }

  // Every slot holds the value of some item.
  lemma FilledFrom(cols: seq<seq<int>>, all: seq<Item>, urow: seq<int>, n: int, i: int)
    requires n == |cols| && all == LowerItems(cols, n) && Keyed(all, n) && |urow| == |all|
    requires Filled(all, |all|, urow, n) && 0 <= i < |urow|
    ensures 0 <= urow[i] < n
  {
    BeforeAll(all, |all|, n);
    var k := BucketAt(all, n, i);
    FilledAll(all, urow, n, k);
    var b := Before(all, |all|, k);
    SliceMember(urow, b, Before(all, |all|, k + 1), i);
    InBucket(all, |all|, k, urow[i]);
    assert all[..|all|] == all;
    InLowerItems(cols, n, Item(k, urow[i]));
  }

  lemma {:induction false} BucketAt(all: seq<Item>, n: int, i: int) returns (k: int)
    requires n >= 0 && 0 <= i < Before(all, |all|, n)
    ensures 0 <= k < n && Before(all, |all|, k) <= i < Before(all, |all|, k + 1)
    decreases n
  {
    if n > 0 && i >= Before(all, |all|, n - 1) { k := n - 1; } else { k := BucketAt(all, n - 1, i); }
  }

  /** With a lower triangle every transposed entry is earlier than its row, so no entry is
      skipped. */
  lemma TransposedEarlier(cols: seq<seq<int>>, k: int, a: int)
    requires 0 <= k < |cols| && a in TransposedRows(cols)[k]
    requires forall j, q | 0 <= j < |cols| && 0 <= q < |cols[j]| :: cols[j][q] >= j
    ensures 0 <= a < k
  {
    var items := LowerItems(cols, |cols|);
    InBucket(items, |items|, k, a);
    assert items[..|items|] == items;
    InLowerItems(cols, |cols|, Item(k, a));
  }

  /** The tree of a matrix given by its lower triangle, through its transpose. */
  method BuildEliminationTree(n: int, ptr: seq<int>, idx: seq<int>) returns (parent: array<int>)
    requires n >= 0 && Lists(ptr, idx, n) && forall j, p | 0 <= j < n && ptr[j] <= p < ptr[j + 1] :: idx[p] >= j
    ensures fresh(parent) && IsEtree(TransposedRows(CsrRows(ptr, idx, n)), parent[..])
  {
    ghost var cols := CsrRows(ptr, idx, n);
    var ucol := CountRows(n, ptr, idx);
    PrefixSums(ucol, n, LowerItems(cols, n));
    var urow := FillRows(n, ptr, idx, ucol);
    FilledRows(cols, ucol[..], urow[..], n);
    parent := EtreeFromRows(n, ucol[..], urow[..]);
  }
}
