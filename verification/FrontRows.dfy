/** The rows of the front about to be assembled: the children's delayed columns, then
    the symbolic rows. */
module FrontRows {
  import opened Sequences
  import opened Reals
  import opened FrontAlgebra
  import opened SymbolicTree
  import opened FrontTerms
  import opened FrontAssembly
  import opened FrontStore
  import opened ContributionStack

  // What waits for front d's parent: delayed columns, then exactly d's symbolic rows
  // below its own columns.
  ghost predicate WaitingBlock(keep: Keep, d: int, b: Block)
    requires 0 <= d < |keep.sn| && keep.Fronts()
  {
    && 0 <= b.delayed <= |b.rows| && b.rows[b.delayed..] == keep.ExtRows(d)
    && Distinct(b.rows) && RowIds(b.rows, keep.n)
  }

  // The blocks between front s - 1 and front s: those of the waiting fronts, and what
  // roots left unaccepted.
  ghost predicate BlocksAre(keep: Keep, bs: seq<Block>, s: int)
    requires keep.Fronts()
  {
    && |bs| == |keep.sn|
    && (forall d | 0 <= d < |bs| && Waiting(keep, d, s) :: WaitingBlock(keep, d, bs[d]))
    && (forall d | 0 <= d < |bs| && !Waiting(keep, d, s) && !(d < s && keep.sn[d].parent == -1) :: bs[d] == EMPTY)
    && (forall d | 0 <= d < |bs| && d < s && keep.sn[d].parent == -1 :: bs[d].delayed == 0)
  }

  function RowsOf(keep: Keep, bs: seq<Block>, s: int): seq<int>
    requires 0 <= s < |keep.sn| == |keep.kids| == |keep.frontRows|
    requires forall i | 0 <= i < |keep.kids[s]| :: 0 <= keep.kids[s][i] < |bs|
  {
    KidsDelayed(bs, keep.kids[s]) + keep.frontRows[s]
  }

  // A delayed column of a child is distinct from every other, and was read before.
  lemma KidsDelayedOnce(steps: seq<Step>, bs: seq<Block>, lo: int, kids: seq<int>)
    requires PivotsConserved(steps, bs, lo)
    requires (forall i | 0 <= i < |kids| :: 0 <= kids[i] < |bs|) && Distinct(kids)
    ensures Distinct(KidsDelayed(bs, kids))
    ensures forall i | 0 <= i < |KidsDelayed(bs, kids)| :: 0 <= KidsDelayed(bs, kids)[i] < lo
  {
    var ds := KidsDelayed(bs, kids);
    forall x
      ensures Count(ds, x) <= Once(0 <= x < lo)
    {
      ClearedDelayed(bs, kids, x);
      assert PivotCount(steps, x) + DelayedCount(bs, x) == Once(0 <= x < lo);
    }
    CountsDistinct(ds);
    forall i | 0 <= i < |ds|
      ensures 0 <= ds[i] < lo
    {
      CountAbsent(ds, ds[i]);
      assert Count(ds, ds[i]) <= Once(0 <= ds[i] < lo);
    }
  }

  lemma KidsDistinct(keep: Keep, s: int)
    requires keep.Tree() && 0 <= s < |keep.sn|
    ensures Distinct(keep.kids[s]) && forall i | 0 <= i < |keep.kids[s]| :: 0 <= keep.kids[s][i] < s
  {
  }

  // The symbolic rows of a front start at its first column.
  lemma FrontRowsFrom(keep: Keep, s: int)
    requires keep.Columns() && keep.Fronts() && 0 <= s < |keep.sn|
    ensures forall t | 0 <= t < |keep.frontRows[s]| :: keep.Start(s) <= keep.frontRows[s][t] < keep.n
  {
    assert keep.frontRows[s][0] == keep.sn[s].colStart;
  }

  /** The front's rows are distinct row ids, ascend from its own columns on, and hold
      its own columns right behind the delayed ones. */
  lemma RowsFit(keep: Analysis, steps: seq<Step>, bs: seq<Block>, s: int)
    requires 0 <= s < |keep.sn| == |bs| && PivotsConserved(steps, bs, keep.Start(s))
    requires forall i | 0 <= i < |keep.kids[s]| :: 0 <= keep.kids[s][i] < |bs|
    ensures Distinct(RowsOf(keep, bs, s)) && RowIds(RowsOf(keep, bs, s), keep.n)
    ensures AscendFrom(RowsOf(keep, bs, s), keep.Start(s))
    ensures RowsOf(keep, bs, s)[..|KidsDelayed(bs, keep.kids[s])|] == KidsDelayed(bs, keep.kids[s])
  {
    KidsDistinct(keep, s);
    KidsDelayedOnce(steps, bs, keep.Start(s), keep.kids[s]);
    FrontRowsFrom(keep, s);
    Joined(KidsDelayed(bs, keep.kids[s]), keep.frontRows[s], keep.Start(s), keep.n);
  }

  lemma Joined(ds: seq<int>, fs: seq<int>, lo: int, n: int)
    requires Distinct(ds) && lo <= n && forall i | 0 <= i < |ds| :: 0 <= ds[i] < lo
    requires (forall t | 0 <= t < |fs| :: 0 <= lo <= fs[t] < n) && forall t, u | 0 <= t < u < |fs| :: fs[t] < fs[u]
    ensures Distinct(ds + fs) && RowIds(ds + fs, n) && AscendFrom(ds + fs, lo) && (ds + fs)[..|ds|] == ds
  {
  }

  lemma {:induction false} DelayedAmong(bs: seq<Block>, kids: seq<int>, j: int, r: int)
    requires (forall i | 0 <= i < |kids| :: 0 <= kids[i] < |bs|) && 0 <= j < |kids| && r in DelayedOf(bs[kids[j]])
    ensures r in KidsDelayed(bs, kids)
    decreases |kids|
  {
    if j < |kids| - 1 { DelayedAmong(bs, kids[..|kids| - 1], j, r); }
  }

  /** Every row of a child's block is a row of the front, so assembly never meets a row
      outside it. */
  lemma ChildRowsInFront(keep: Analysis, bs: seq<Block>, s: int, j: int, r: int)
    requires 0 <= s < |keep.sn| && BlocksAre(keep, bs, s)
    requires (forall i | 0 <= i < |keep.kids[s]| :: 0 <= keep.kids[s][i] < |bs|) && 0 <= j < |keep.kids[s]|
    requires r in bs[keep.kids[s][j]].rows
    ensures r in RowsOf(keep, bs, s)
  {
    var c := keep.kids[s][j];
    KidWaits(keep, s, j);
    forall t | 0 <= t < |keep.ExtRows(c)|
      ensures keep.ExtRows(c)[t] in keep.frontRows[s]
    {
      ExtRowInParent(keep, c, t);
    }
    forall x | x in DelayedOf(bs[c])
      ensures x in KidsDelayed(bs, keep.kids[s])
    {
      DelayedAmong(bs, keep.kids[s], j, x);
    }
    Covered(bs[c], keep.ExtRows(c), KidsDelayed(bs, keep.kids[s]), keep.frontRows[s], r);
  }

  lemma KidWaits(keep: Keep, s: int, j: int)
    requires keep.Children() && 0 <= s < |keep.sn| && 0 <= j < |keep.kids[s]|
    ensures Waiting(keep, keep.kids[s][j], s) && keep.sn[keep.kids[s][j]].parent == s
  {
  }

  lemma Covered(b: Block, ext: seq<int>, ds: seq<int>, fs: seq<int>, r: int)
    requires 0 <= b.delayed <= |b.rows| && b.rows[b.delayed..] == ext && r in b.rows
    requires (forall x | x in DelayedOf(b) :: x in ds) && forall t | 0 <= t < |ext| :: ext[t] in fs
    ensures r in ds + fs
  {
    var i :| 0 <= i < |b.rows| && b.rows[i] == r;
    if i < b.delayed {
      assert r == DelayedOf(b)[i];
    } else {
      assert r == ext[i - b.delayed];
    }
  }

  lemma ExtRowInParent(keep: Keep, c: int, t: int)
    requires keep.Fronts() && 0 <= c < |keep.sn| && 0 <= keep.sn[c].parent < |keep.sn| && 0 <= t < |keep.ExtRows(c)|
    ensures keep.ExtRows(c)[t] in keep.frontRows[keep.sn[c].parent]
  {
    assert keep.ExtRows(c)[t] == keep.RowAt(c, keep.Width(c) + t);
  }

  // ---- the assembled matrix ----

  lemma AssembledSymmetric(cols: seq<seq<Entry>>, lo: int, hi: int, bs: seq<Block>, kids: seq<int>, a: int, b: int)
    requires forall i | 0 <= i < |kids| :: 0 <= kids[i] < |bs|
    ensures Assembled(cols, lo, hi, bs, kids, a, b) == Assembled(cols, lo, hi, bs, kids, b, a)
  {
    KidsSumSymmetric(bs, kids, a, b);
  }

  lemma {:induction false} KidsSumSymmetric(bs: seq<Block>, kids: seq<int>, a: int, b: int)
    requires forall i | 0 <= i < |kids| :: 0 <= kids[i] < |bs|
    ensures KidsSum(bs, kids, a, b) == KidsSum(bs, kids, b, a)
    decreases |kids|
  {
    if |kids| > 0 { KidsSumSymmetric(bs, kids[..|kids| - 1], a, b); }
  }

  lemma {:induction false} KidsSumOutside(bs: seq<Block>, kids: seq<int>, a: int, b: int)
    requires forall i | 0 <= i < |kids| :: 0 <= kids[i] < |bs|
    requires forall i | 0 <= i < |kids| :: a !in bs[kids[i]].rows || b !in bs[kids[i]].rows
    ensures KidsSum(bs, kids, a, b) == 0.0
    decreases |kids|
  {
    if |kids| > 0 {
      KidsSumOutside(bs, kids[..|kids| - 1], a, b);
      assert a !in bs[kids[|kids| - 1]].rows || b !in bs[kids[|kids| - 1]].rows;
    }
  }

  lemma OriginalOutside(keep: Keep, cols: seq<seq<Entry>>, s: int, a: int, b: int)
    requires keep.Columns() && keep.Fronts() && keep.Fits(cols) && 0 <= s < |keep.sn|
    requires a !in keep.frontRows[s] || b !in keep.frontRows[s]
    ensures ColumnsPart(cols, keep.Start(s), keep.Start(s + 1), a, b) == 0.0
  {
    var j := Lower(a, b);
    if keep.Start(s) <= j < keep.Start(s + 1) {
      assert keep.frontRows[s][j - keep.Start(s)] == j;
      var r := Upper(a, b);
      forall k | 0 <= k < |cols[j]|
        ensures cols[j][k].row != r
      {
        assert cols[j][k].row in keep.frontRows[s];
      }
      ColSumAbsent(cols[j], r);
    }
  }

  // The matrix front s assembles.
  ghost function FrontMatrix(keep: Keep, cols: seq<seq<Entry>>, bs: seq<Block>, s: int): (int, int) -> real
    requires 0 <= s < |keep.sn| == |keep.kids|
    requires forall i | 0 <= i < |keep.kids[s]| :: 0 <= keep.kids[s][i] < |bs|
  {
    (a, b) => Assembled(cols, keep.Start(s), keep.Start(s + 1), bs, keep.kids[s], a, b)
  }

  lemma FrontMatrixSymmetric(keep: Keep, cols: seq<seq<Entry>>, bs: seq<Block>, s: int)
    requires 0 <= s < |keep.sn| == |keep.kids|
    requires forall i | 0 <= i < |keep.kids[s]| :: 0 <= keep.kids[s][i] < |bs|
    ensures Symmetric(FrontMatrix(keep, cols, bs, s))
  {
    forall a, b
      ensures FrontMatrix(keep, cols, bs, s)(a, b) == FrontMatrix(keep, cols, bs, s)(b, a)
    {
      AssembledSymmetric(cols, keep.Start(s), keep.Start(s + 1), bs, keep.kids[s], a, b);
    }
  }

  lemma AssembledZero(keep: Analysis, cols: seq<seq<Entry>>, bs: seq<Block>, s: int, a: int, b: int)
    requires keep.Fits(cols) && 0 <= s < |keep.sn| && BlocksAre(keep, bs, s)
    requires forall i | 0 <= i < |keep.kids[s]| :: 0 <= keep.kids[s][i] < |bs|
    requires a !in RowsOf(keep, bs, s) || b !in RowsOf(keep, bs, s)
    ensures Assembled(cols, keep.Start(s), keep.Start(s + 1), bs, keep.kids[s], a, b) == 0.0
  {
    OriginalOutside(keep, cols, s, a, b);
    forall i | 0 <= i < |keep.kids[s]|
      ensures a !in bs[keep.kids[s][i]].rows || b !in bs[keep.kids[s][i]].rows
    {
      NotInBlock(keep, bs, s, i, if a !in RowsOf(keep, bs, s) then a else b);
    }
    KidsSumOutside(bs, keep.kids[s], a, b);
  }

  lemma NotInBlock(keep: Analysis, bs: seq<Block>, s: int, j: int, r: int)
    requires 0 <= s < |keep.sn| && BlocksAre(keep, bs, s)
    requires (forall i | 0 <= i < |keep.kids[s]| :: 0 <= keep.kids[s][i] < |bs|) && 0 <= j < |keep.kids[s]|
    requires r !in RowsOf(keep, bs, s)
    ensures r !in bs[keep.kids[s][j]].rows
  {
    if r in bs[keep.kids[s][j]].rows { ChildRowsInFront(keep, bs, s, j, r); }
  }

  lemma FrontMatrixInside(keep: Analysis, cols: seq<seq<Entry>>, bs: seq<Block>, s: int)
    requires keep.Fits(cols) && 0 <= s < |keep.sn| && BlocksAre(keep, bs, s)
    requires forall i | 0 <= i < |keep.kids[s]| :: 0 <= keep.kids[s][i] < |bs|
    ensures ZeroOutside(FrontMatrix(keep, cols, bs, s), RowsOf(keep, bs, s))
  {
    forall a, b | a !in RowsOf(keep, bs, s) || b !in RowsOf(keep, bs, s)
      ensures FrontMatrix(keep, cols, bs, s)(a, b) == 0.0
    {
      AssembledZero(keep, cols, bs, s, a, b);
    }
  }
}
