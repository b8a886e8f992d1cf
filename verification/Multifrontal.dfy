/** The serial multifrontal engine: fronts in postorder, each assembled from the
    original columns and its children's blocks, factored, stored, and its Schur
    complement stacked or handed over to the next front. */
module Multifrontal {
  import opened Sequences
  import opened Reals
  import opened FrontAlgebra
  import opened SymbolicTree
  import opened PivotChoice
  import opened GrowthBound
  import opened Inertia
  import opened PivotSigns
  import opened StoredSigns
  import opened FrontKernel
  import opened FrontFactor
  import opened FrontTerms
  import opened FrontAssembly
  import opened FrontStore
  import opened GlobalFactor
  import opened SpentBlocks
  import opened ContributionStack
  import opened FrontRows
  import opened FrontLedger
  import opened ChildBlocks

  const SMALL_FRONT_MAX := 32

  // The freshly assembled front is the matrix before any pivot.
  lemma NothingEliminated(A: (int, int) -> real, m: Mat, rows: seq<int>, t: seq<int>, e: int)
    requires 0 <= e <= |rows| <= |t| && forall i, j | 0 <= j <= i < |rows| :: At(m, i, j) == A(rows[i], rows[j])
    ensures Factored(A, m, rows, t, 0, e)
  {
    var g := Lag(0, |rows|, 0, e, 0);
    forall i, j | 0 <= j <= i < |rows|
      ensures EntryLags(A, m, rows, t, g, i, j)
    {
      assert LDLt(m, t, i, j, 0, 0) == 0.0;
    }
  }

  lemma PermutedRows(r0: seq<int>, r1: seq<int>, lo: int, hi: int, n: int)
    requires PermutedWithin(r0, r1, lo, hi) && Distinct(r0) && RowIds(r0, n)
    ensures Distinct(r1) && RowIds(r1, n) && forall r :: r in r0 <==> r in r1
  {
    forall r
      ensures r in r0 <==> r in r1
    {
      assert r in multiset(r0) <==> r in multiset(r1);
    }
    DistinctKept(r0, r1);
    forall i | 0 <= i < |r1|
      ensures 0 <= r1[i] < n
    {
      assert r1[i] in r1;
    }
  }

  /** The kernel on an assembled front. */
  method FactorFront(F: array2<real>, rows: array<int>, e: int, prm: Params, n: int, ghost A: (int, int) -> real)
      returns (k: int, tags: array<int>, counts: Counts)
    requires prm.Valid() && F.Length0 == F.Length1 == rows.Length && 0 <= e <= rows.Length
    requires Symmetric(A) && Distinct(rows[..]) && RowIds(rows[..], n)
    requires forall i, j | 0 <= j <= i < rows.Length :: F[i, j] == A(rows[i], rows[j])
    modifies F, rows
    ensures fresh(tags) && tags.Length == rows.Length
    ensures 0 <= k <= e && Counted(counts, k, 0) && CountedBy(DiagonalOf(Snapshot(F), tags[..], k), counts, prm)
    ensures Factored(A, Snapshot(F), rows[..], tags[..], k, e)
    ensures PermutedWithin(old(rows[..]), rows[..], 0, e)
    ensures Distinct(rows[..]) && RowIds(rows[..], n)
    ensures prm.Threshold() ==> Bounded(Snapshot(F), tags[..], prm.u, 0, k, rows.Length)
    ensures prm.Threshold() && k < e ==> Exhausted(Snapshot(F), rows.Length, k, e, e, prm)
  {
    tags := new int[rows.Length];
    var work := new real[rows.Length, if prm.nb + 2 >= 0 then prm.nb + 2 else 0];
    NothingEliminated(A, Snapshot(F), rows[..], tags[..], e);
    ghost var r0 := rows[..];
    k, counts := LdltFactorFront(F, e, rows, prm, tags, work, 0, A);
    PermutedRows(r0, rows[..], 0, e, n);
  }

  method ZeroTags(tags: array<int>, k: int, e: int)
    requires 0 <= k <= e <= tags.Length
    modifies tags
    ensures forall j | 0 <= j < tags.Length :: tags[j] == if k <= j < e then 0 else old(tags[j])
  {
    for c := k to e
      invariant forall j | 0 <= j < tags.Length :: tags[j] == if k <= j < c then 0 else old(tags[j])
    {
      tags[c] := 0;
    }
  }

  /** Stores the pivot columns; at a root the unaccepted columns become zero pivots. */
  method StoreFront(F: array2<real>, rows: array<int>, tags: array<int>, k: int, e: int, root: bool, prm: Params,
                    ghost A: (int, int) -> real, ghost c: Counts)
      returns (st: Step, ghost nb: Block)
    requires F.Length0 == F.Length1 == rows.Length == tags.Length && rows != tags && 0 <= k <= e <= rows.Length
    requires Symmetric(A) && Distinct(rows[..]) && ZeroOutside(A, rows[..])
    requires Factored(A, Snapshot(F), rows[..], tags[..], k, e)
    requires prm.Valid() && CountedBy(DiagonalOf(Snapshot(F), tags[..], k), c, prm)
    requires prm.Threshold() ==> Bounded(Snapshot(F), tags[..], prm.u, 0, k, rows.Length)
    modifies F, tags
    ensures rows[..] == old(rows[..])
    ensures Leaves(st, nb, rows[..], old(Snapshot(F)), k, e, root)
    ensures Represents(A, st, nb)
    ensures prm.Threshold() ==> StepBounded(st, prm.u)
    ensures !root ==> nb == SchurBlock(rows[..], Snapshot(F), k, e - k)
    ensures root && k < e ==> HasZeroPivot(st)
    ensures WholeTags(st) && CountedBy(StepPivots(st), c.(zero := c.zero + (st.p - k)), prm)
  {
    ghost var m, t := Snapshot(F), tags[..];
    var ps := k;
    if root && k < e {
      ZeroTags(tags, k, e);
      ps := e;
    }
    assert Snapshot(F) == m;
    StoreColumns(F, tags, t, k, ps);
    st := Step(rows[..], Columns(F, ps), tags[..ps], ps);
    ghost var delayed := if root then 0 else e - k;
    nb := SchurBlock(rows[..], m, k, delayed);
    FrontSplits(A, m, rows[..], t, k, e, st, delayed);
    if prm.Threshold() { StoreKeepsBound(m, t, k, st, prm.u); }
    if !root { SameTrailing(m, Snapshot(F), k, rows.Length); }
    if root && k < e { assert Tag(st.tags, k) == 0; }
    StoredTagsWhole(m, t, k, st, rows.Length);
    FactoredTags(A, m, rows[..], t, k, e);
    StepCounts(m, t, k, st, rows.Length, c, prm);
  }

  lemma FactoredTags(A: (int, int) -> real, m: Mat, rows: seq<int>, t: seq<int>, k: int, e: int)
    requires Factored(A, m, rows, t, k, e)
    ensures Blocks(t, k)
  {
  }

  // The stored tags are the kernel's whole blocks and the zero pivots behind them.
  lemma StoredTagsWhole(m: Mat, t: seq<int>, k: int, st: Step, f: int)
    requires Blocks(t, k) && k <= st.p == |st.tags| && StoredFrom(m, t, k, st.m, st.tags, st.p, f)
    requires forall c | 0 <= c < st.p :: st.tags[c] == if c < k then t[c] else 0
    ensures WholeTags(st)
  {
    forall c | 0 <= c < st.p
      ensures TagWhole(st, c)
    {
      if c < k { assert InBlock(t, k, c); }
    }
  }

  lemma SameTrailing(m: Mat, m': Mat, p: int, f: int)
    requires 0 <= p <= f && forall i, j | 0 <= i < f && p <= j < f :: At(m, i, j) == At(m', i, j)
    ensures Trailing(m, p, f) == Trailing(m', p, f)
  {
    var a, b := Trailing(m, p, f), Trailing(m', p, f);
    forall i | 0 <= i < f - p
      ensures a[i] == b[i]
    {
      assert |a[i]| == |b[i]|;
      forall j | 0 <= j < f - p ensures a[i][j] == b[i][j] {
        assert At(a, i, j) == At(b, i, j);
      }
    }
  }

  method NoPositions(n: int) returns (p: array<int>)
    requires n >= 0
    ensures fresh(p) && p.Length == n && Positions(p[..], [])
  {
    p := new int[n];
    for r := 0 to n
      invariant forall i | 0 <= i < r :: p[i] == -1
    {
      p[r] := -1;
    }
  }

  // A root front gave up on a column.
  ghost predicate HasZeroPivot(st: Step) {
    exists c :: 0 <= c < st.p && Tag(st.tags, c) == 0
  }

  // The numerical half of the run's invariant.
  ghost predicate RunKept(keep: Analysis, cols: seq<seq<Entry>>, prm: Params, steps: seq<Step>, counts: Counts,
                          bs: seq<Block>, s: int) {
    match counts
    case Counts(_, _, _) =>
      && keep.Fits(cols) && prm.Valid() && !prm.posdef
      && 0 <= s <= |keep.sn|
      && BlocksAre(keep, bs, s)
      && Balanced(keep, cols, steps, bs, counts, s)
      && (prm.Threshold() ==> forall i | 0 <= i < |steps| :: StepBounded(steps[i], prm.u))
      && Forced(keep, steps, bs, s)
      && (prm.Threshold() ==> AllSpent(keep, bs, prm, s))
      && AllFormed(steps) && CountedBy(RunPivots(steps), counts, prm)
  }

  // The stack half.
  ghost predicate StackKept(keep: Keep, vals: seq<real>, ids: seq<int>, cvTop: int, crTop: int, rec: Records,
                            bs: seq<Block>, s: int, held: int) {
    match rec
    case Records(_, _, _, _) =>
      && RecordsAre(keep, rec, bs, s)
      && AllOnStack(keep, vals, ids, rec, bs, s, held)
      && TopsAre(keep, rec, cvTop, crTop, s, held)
      && 0 <= cvTop <= |vals| && 0 <= crTop <= |ids|
  }

  lemma InitialRun(keep: Analysis, cols: seq<seq<Entry>>, prm: Params, bs: seq<Block>, rec: Records)
    requires keep.Fits(cols) && prm.Valid() && !prm.posdef
    requires |bs| == |keep.sn| == |rec.valueOff| == |rec.rowOff| == |rec.size| == |rec.delayed|
    requires (forall i | 0 <= i < |bs| :: bs[i] == EMPTY) && Nonneg(rec.size)
    ensures RunKept(keep, cols, prm, [], NONE, bs, 0)
    ensures StackKept(keep, [], [], 0, 0, rec, bs, 0, -1)
  {
    NothingRun(keep, cols, prm, bs, rec);
    NothingStored(keep, rec, bs);
  }

  lemma NothingRun(keep: Analysis, cols: seq<seq<Entry>>, prm: Params, bs: seq<Block>, rec: Records)
    requires keep.Fits(cols) && prm.Valid() && !prm.posdef
    requires |bs| == |keep.sn| == |rec.valueOff| == |rec.rowOff| == |rec.size| == |rec.delayed|
    requires (forall i | 0 <= i < |bs| :: bs[i] == EMPTY) && Nonneg(rec.size)
    ensures RunKept(keep, cols, prm, [], NONE, bs, 0)
  {
    NoBlocks(keep, cols, bs);
    NothingStored(keep, rec, bs);
    NothingFormed(keep, bs, prm);
    AddsNothing([], SignsBy(prm));
  }

  lemma NothingFormed(keep: Analysis, bs: seq<Block>, prm: Params)
    requires |bs| == |keep.sn|
    ensures AllFormed([]) && Forced(keep, [], bs, 0) && AllSpent(keep, bs, prm, 0)
  {
  }

  lemma {:induction false} NoBlocksSum(bs: seq<Block>, a: int, b: int)
    requires forall i | 0 <= i < |bs| :: bs[i] == EMPTY
    ensures BlocksSum(bs, a, b) == 0.0 && DelayedCount(bs, a) == 0 && DelayedTotal(bs) == 0
    decreases |bs|
  {
    if |bs| > 0 {
      NoBlocksSum(bs[..|bs| - 1], a, b);
      EmptyTerm(a, b);
      assert DelayedOf(EMPTY) == [];
    }
  }

  lemma NothingStored(keep: Keep, rec: Records, bs: seq<Block>)
    requires keep.Fronts() && |bs| == |keep.sn| == |rec.valueOff| == |rec.rowOff| == |rec.size| == |rec.delayed|
    requires (forall i | 0 <= i < |bs| :: bs[i] == EMPTY) && Nonneg(rec.size)
    ensures BlocksAre(keep, bs, 0) && RecordsAre(keep, rec, bs, 0) && AllOnStack(keep, [], [], rec, bs, 0, -1)
    ensures TopsAre(keep, rec, 0, 0, 0, -1)
  {
  }

  lemma NoBlocks(keep: Analysis, cols: seq<seq<Entry>>, bs: seq<Block>)
    requires |cols| == keep.n && forall i | 0 <= i < |bs| :: bs[i] == EMPTY
    ensures Balanced(keep, cols, [], bs, NONE, 0)
  {
    assert keep.Start(0) == 0;
    forall a, b
      ensures Original(cols, a, b) == StepsSum([], a, b) + BlocksSum(bs, a, b) + ColumnsPart(cols, 0, |cols|, a, b)
    {
      NoBlocksSum(bs, a, b);
    }
    forall x
      ensures PivotCount([], x) + DelayedCount(bs, x) == Once(0 <= x < 0)
    {
      NoBlocksSum(bs, x, x);
    }
    NoBlocksSum(bs, 0, 0);
  }

  // ---- one front ----

  // The children of front s can be read.
  lemma KidsAreReady(keep: Analysis, cols: seq<seq<Entry>>, prm: Params, steps: seq<Step>, counts: Counts, w: View,
                     cvTop: int, crTop: int, bs: seq<Block>, s: int)
    requires RunKept(keep, cols, prm, steps, counts, bs, s) && 0 <= s < |keep.sn|
    requires StackKept(keep, w.vals, w.ids, cvTop, crTop, w.rec, bs, s, HeldNode(w)) && BuffersRight(w, bs)
    ensures KidsReady(w, bs, keep.kids[s])
  {
    forall i | 0 <= i < |keep.kids[s]|
      ensures 0 <= keep.kids[s][i] < |bs| && KidReady(w, bs[keep.kids[s][i]], keep.kids[s][i])
    {
      KidWaits(keep, s, i);
      KidIsReady(keep, w, cvTop, crTop, bs, s, keep.kids[s][i]);
    }
  }

  function HeldNode(w: View): int {
    if w.buf0.Holding? then w.buf0.node else if w.buf1.Holding? then w.buf1.node else -1
  }

  // At most one buffer holds a block, and it holds the right one.
  ghost predicate BuffersRight(w: View, bs: seq<Block>)
    reads Owned(w.buf0), Owned(w.buf1)
  {
    && !(w.buf0.Holding? && w.buf1.Holding?)
    && (w.buf0.Holding? ==> 0 <= w.buf0.node < |bs| && HeldRight(w.buf0, bs[w.buf0.node]))
    && (w.buf1.Holding? ==> 0 <= w.buf1.node < |bs| && HeldRight(w.buf1, bs[w.buf1.node]))
  }

  lemma KidIsReady(keep: Analysis, w: View, cvTop: int, crTop: int, bs: seq<Block>, s: int, c: int)
    requires BlocksAre(keep, bs, s) && Waiting(keep, c, s)
    requires StackKept(keep, w.vals, w.ids, cvTop, crTop, w.rec, bs, s, HeldNode(w)) && BuffersRight(w, bs)
    ensures 0 <= c < |bs| && KidReady(w, bs[c], c)
  {
    assert WaitingBlock(keep, c, bs[c]);
    if c != HeldNode(w) && w.rec.size[c] > 0 {
      assert OnStack(w.vals, w.ids, bs[c], w.rec.valueOff[c], w.rec.rowOff[c], w.rec.size[c]);
    }
  }

  // What assembling front s relies on.
  lemma FrontFacts(keep: Analysis, cols: seq<seq<Entry>>, prm: Params, steps: seq<Step>, counts: Counts, bs: seq<Block>, s: int)
    requires RunKept(keep, cols, prm, steps, counts, bs, s) && 0 <= s < |keep.sn|
    ensures |bs| == |keep.sn| && bs[s] == EMPTY && Distinct(keep.kids[s])
    ensures forall i | 0 <= i < |keep.kids[s]| :: 0 <= keep.kids[s][i] < s
    ensures var rows := RowsOf(keep, bs, s);
      && Distinct(rows) && RowIds(rows, keep.n) && AscendFrom(rows, keep.Start(s))
      && |KidsDelayed(bs, keep.kids[s])| + keep.Width(s) <= |rows|
    ensures 0 <= keep.Start(s) <= keep.Start(s + 1) <= |cols| == keep.n && keep.Width(s) >= 0
    ensures keep.Width(s) == keep.Start(s + 1) - keep.Start(s)
    ensures Symmetric(FrontMatrix(keep, cols, bs, s)) && ZeroOutside(FrontMatrix(keep, cols, bs, s), RowsOf(keep, bs, s))
  {
    KidsDistinct(keep, s);
    RowsFit(keep, steps, bs, s);
    EligibleColumns(keep, bs, s);
    FrontMatrixSymmetric(keep, cols, bs, s);
    FrontMatrixInside(keep, cols, bs, s);
  }

  lemma OwnColumnsInFront(keep: Analysis, cols: seq<seq<Entry>>, bs: seq<Block>, s: int)
    requires |cols| == keep.n && keep.Fits(cols) && BlocksAre(keep, bs, s) && 0 <= s < |keep.sn|
    requires forall i | 0 <= i < |keep.kids[s]| :: 0 <= keep.kids[s][i] < s
    ensures EntriesFit(cols, keep.Start(s), keep.Start(s + 1), RowsOf(keep, bs, s), keep.n)
  {
    forall j | keep.Start(s) <= j < keep.Start(s + 1)
      ensures j in RowsOf(keep, bs, s)
    {
      assert keep.frontRows[s][j - keep.Start(s)] == j;
    }
    forall j, k | keep.Start(s) <= j < keep.Start(s + 1) && 0 <= k < |cols[j]|
      ensures j <= cols[j][k].row < keep.n && cols[j][k].row in RowsOf(keep, bs, s)
    {
      assert cols[j][k].row in keep.frontRows[s];
    }
  }

  lemma KidBlocksInFront(keep: Analysis, bs: seq<Block>, s: int)
    requires BlocksAre(keep, bs, s) && 0 <= s < |keep.sn|
    requires forall i | 0 <= i < |keep.kids[s]| :: 0 <= keep.kids[s][i] < s
    ensures BlocksFit(bs, keep.kids[s], RowsOf(keep, bs, s), keep.n)
  {
    forall i | 0 <= i < |keep.kids[s]|
      ensures RowIds(bs[keep.kids[s][i]].rows, keep.n) && Distinct(bs[keep.kids[s][i]].rows)
    {
      KidWaits(keep, s, i);
      assert WaitingBlock(keep, keep.kids[s][i], bs[keep.kids[s][i]]);
    }
    forall i, r | 0 <= i < |keep.kids[s]| && r in bs[keep.kids[s][i]].rows
      ensures r in RowsOf(keep, bs, s)
    {
      ChildRowsInFront(keep, bs, s, i, r);
    }
  }

  // The rows and the entries of front s fit together.
  ghost predicate Assemblable(keep: Keep, cols: seq<seq<Entry>>, bs: seq<Block>, s: int) {
    match keep
    case Keep(n, sn, frontRows, kids) =>
      && 0 <= s < |sn| == |frontRows| == |kids| == |bs|
      && (forall i | 0 <= i < |kids[s]| :: 0 <= kids[s][i] < s)
      && keep.Width(s) >= 0 && FrontFits(cols, keep.Start(s), keep.Start(s + 1), bs, kids[s], RowsOf(keep, bs, s), n)
      && |KidsDelayed(bs, kids[s])| + keep.Width(s) <= |RowsOf(keep, bs, s)|
  }

  lemma IsAssemblable(keep: Analysis, cols: seq<seq<Entry>>, prm: Params, steps: seq<Step>, counts: Counts, bs: seq<Block>, s: int)
    requires RunKept(keep, cols, prm, steps, counts, bs, s) && 0 <= s < |keep.sn|
    ensures Assemblable(keep, cols, bs, s)
  {
    FrontFacts(keep, cols, prm, steps, counts, bs, s);
    OwnColumnsInFront(keep, cols, bs, s);
    KidBlocksInFront(keep, bs, s);
  }

  // Assembles front s.
  method BuildFront(keep: Keep, cols: seq<seq<Entry>>, w: View, s: int, pos: array<int>, ghost bs: seq<Block>)
      returns (F: array2<real>, rows: array<int>, e: int)
    requires Assemblable(keep, cols, bs, s) && KidsReady(w, bs, keep.kids[s])
    requires pos.Length == keep.n && Positions(pos[..], [])
    modifies pos
    ensures fresh(F) && fresh(rows) && F.Length0 == F.Length1 == rows.Length && rows[..] == RowsOf(keep, bs, s)
    ensures e == |KidsDelayed(bs, keep.kids[s])| + keep.Width(s) && 0 <= e <= rows.Length
    ensures Positions(pos[..], rows[..])
    ensures forall i, j | 0 <= j <= i < rows.Length :: F[i, j] == FrontMatrix(keep, cols, bs, s)(rows[i], rows[j])
  {
    var nd;
    rows, nd := GatherRows(w, keep.kids[s], keep.frontRows[s], pos, bs);
    e := nd + (keep.sn[s].colEnd - keep.sn[s].colStart);
    F := AssembleFront(w, keep.kids[s], cols, keep.Start(s), keep.Start(s + 1), pos, rows.Length, rows[..], bs);
  }

  lemma ClearedPositions(pos: seq<int>, r0: seq<int>, r1: seq<int>)
    requires Positions(pos, r0) && (forall r :: r in r0 <==> r in r1)
    ensures forall r | 0 <= r < |pos| && r !in r1 :: pos[r] == -1
  {
  }

  /** A front assembled from A with rows r0, e of them eligible, left st and nb, its rows
      permuted to r1. */
  ghost predicate Outcome(A: (int, int) -> real, r0: seq<int>, r1: seq<int>, m: Mat, k: int, e: int, root: bool, prm: Params,
                          st: Step, nb: Block, c: Counts, n: int) {
    match st
    case Step(_, _, _, p) =>
      && Leaves(st, nb, r1, m, k, e, root) && e <= |r0| && PermutedWithin(r0, r1, 0, e)
      && (root && k < p ==> HasZeroPivot(st))
      && Distinct(r1) && RowIds(r1, n) && c.Total() == p && (prm.Threshold() ==> StepBounded(st, prm.u))
      && Represents(A, st, nb) && WholeTags(st) && CountedBy(StepPivots(st), c, prm)
  }

  // Front s and its children's blocks exist.
  ghost predicate Fronted(keep: Keep, bs: seq<Block>, s: int) {
    && 0 <= s < |keep.sn| == |keep.frontRows| == |keep.kids| == |bs|
    && forall i | 0 <= i < |keep.kids[s]| :: 0 <= keep.kids[s][i] < s
  }

  // Front s did so.
  ghost predicate Split(keep: Keep, cols: seq<seq<Entry>>, prm: Params, bs: seq<Block>, s: int, r1: seq<int>, m: Mat, k: int,
                        st: Step, nb: Block, c: Counts)
    requires Fronted(keep, bs, s)
  {
    var e := |KidsDelayed(bs, keep.kids[s])| + keep.Width(s);
    && Outcome(FrontMatrix(keep, cols, bs, s), RowsOf(keep, bs, s), r1, m, k, e, keep.sn[s].parent == -1, prm, st, nb, c, keep.n)
    && (prm.Threshold() ==> Spent(nb, e - k, prm))
  }

  // The kernel, then the store.
  method FactorAndStore(F: array2<real>, rows: array<int>, e: int, root: bool, prm: Params, n: int, ghost A: (int, int) -> real)
      returns (k: int, c: Counts, st: Step, ghost nb: Block, ghost m: Mat)
    requires prm.Valid() && F.Length0 == F.Length1 == rows.Length && 0 <= e <= rows.Length
    requires Symmetric(A) && ZeroOutside(A, rows[..]) && Distinct(rows[..]) && RowIds(rows[..], n)
    requires forall i, j | 0 <= j <= i < rows.Length :: F[i, j] == A(rows[i], rows[j])
    modifies F, rows
    ensures 0 <= k <= e && PermutedWithin(old(rows[..]), rows[..], 0, e)
    ensures Outcome(A, old(rows[..]), rows[..], m, k, e, root, prm, st, nb, c, n)
    ensures prm.Threshold() ==> Spent(nb, e - k, prm)
    ensures !root ==> nb == SchurBlock(rows[..], Snapshot(F), k, e - k)
  {
    ghost var r0 := rows[..];
    var tags;
    k, tags, c := FactorFront(F, rows, e, prm, n, A);
    ghost var r1 := rows[..];
    PermutedRows(r0, r1, 0, e, n);
    ZeroOutsideSame(A, r0, r1);
    m := Snapshot(F);
    LeavesSpent(r1, m, k, e, root, prm);
    st, nb := StoreFront(F, rows, tags, k, e, root, prm, A, c);
    if root { c := c.(zero := c.zero + (e - k)); }
    CountsFit(st, nb, r1, m, k, e, root, c);
    OutcomeHolds(A, r0, r1, m, k, e, root, prm, st, nb, c, n);
  }

  lemma LeavesSpent(rows: seq<int>, m: Mat, k: int, e: int, root: bool, prm: Params)
    requires prm.Valid() && 0 <= k <= e <= |rows| && (prm.Threshold() && k < e ==> Exhausted(m, |rows|, k, e, e, prm))
    ensures forall st: Step, nb: Block {:trigger Leaves(st, nb, rows, m, k, e, root)} ::
      prm.Threshold() && Leaves(st, nb, rows, m, k, e, root) ==> Spent(nb, e - k, prm)
  {
    if prm.Threshold() { SchurSpent(rows, m, k, e, if root then 0 else e - k, prm); }
  }

  lemma CountsFit(st: Step, nb: Block, r1: seq<int>, m: Mat, k: int, e: int, root: bool, c: Counts)
    requires Leaves(st, nb, r1, m, k, e, root) && c.Total() == if root then e else k
    ensures c.Total() == st.p
  {
  }

  lemma OutcomeHolds(A: (int, int) -> real, r0: seq<int>, r1: seq<int>, m: Mat, k: int, e: int, root: bool, prm: Params,
                     st: Step, nb: Block, c: Counts, n: int)
    requires Leaves(st, nb, r1, m, k, e, root) && e <= |r0| && PermutedWithin(r0, r1, 0, e)
    requires root && k < e ==> HasZeroPivot(st)
    requires Distinct(r1) && RowIds(r1, n) && c.Total() == st.p && (prm.Threshold() ==> StepBounded(st, prm.u))
    requires Represents(A, st, nb) && WholeTags(st) && CountedBy(StepPivots(st), c, prm)
    ensures Outcome(A, r0, r1, m, k, e, root, prm, st, nb, c, n)
  {
  }

  lemma ZeroOutsideSame(A: (int, int) -> real, r0: seq<int>, r1: seq<int>)
    requires ZeroOutside(A, r0) && forall r :: r in r0 <==> r in r1
    ensures ZeroOutside(A, r1)
  {
  }

  /** Assembles, factors and stores front s. */
  method RunFront(keep: Keep, cols: seq<seq<Entry>>, prm: Params, w: View, s: int, pos: array<int>, ghost bs: seq<Block>)
      returns (F: array2<real>, rows: array<int>, k: int, e: int, c: Counts, st: Step, ghost nb: Block, ghost m: Mat)
    requires Assemblable(keep, cols, bs, s) && KidsReady(w, bs, keep.kids[s]) && prm.Valid()
    requires Symmetric(FrontMatrix(keep, cols, bs, s)) && ZeroOutside(FrontMatrix(keep, cols, bs, s), RowsOf(keep, bs, s))
    requires pos.Length == keep.n && Positions(pos[..], [])
    modifies pos
    ensures fresh(F) && fresh(rows) && F.Length0 == F.Length1 == rows.Length && 0 <= k <= e <= rows.Length
    ensures Split(keep, cols, prm, bs, s, rows[..], m, k, st, nb, c)
    ensures keep.sn[s].parent != -1 ==> nb == SchurBlock(rows[..], Snapshot(F), k, e - k)
    ensures Positions(pos[..], [])
  {
    F, rows, e := BuildFront(keep, cols, w, s, pos, bs);
    ghost var r0 := rows[..];
    k, c, st, nb, m := FactorAndStore(F, rows, e, keep.sn[s].parent == -1, prm, keep.n, FrontMatrix(keep, cols, bs, s));
    IsSplit(keep, cols, prm, bs, s, r0, rows[..], m, k, e, st, nb, c);
    PermutedRows(r0, rows[..], 0, e, keep.n);
    ClearedPositions(pos[..], r0, rows[..]);
    ClearRows(rows, pos);
  }

  lemma {:induction false} IsSplit(keep: Keep, cols: seq<seq<Entry>>, prm: Params, bs: seq<Block>, s: int, r0: seq<int>, r1: seq<int>, m: Mat, k: int,
                e: int, st: Step, nb: Block, c: Counts)
    requires Fronted(keep, bs, s) && r0 == RowsOf(keep, bs, s)
    requires e == |KidsDelayed(bs, keep.kids[s])| + keep.Width(s)
    requires Outcome(FrontMatrix(keep, cols, bs, s), r0, r1, m, k, e, keep.sn[s].parent == -1, prm, st, nb, c, keep.n)
    requires prm.Threshold() ==> Spent(nb, e - k, prm)
    ensures Split(keep, cols, prm, bs, s, r1, m, k, st, nb, c)
  {
  }

  // A root block that is not empty comes with a zero pivot.
  ghost predicate Forced(keep: Keep, steps: seq<Step>, bs: seq<Block>, s: int)
    requires 0 <= s <= |steps| && s <= |bs| && s <= |keep.sn|
  {
    forall d | 0 <= d < s && keep.sn[d].parent == -1 && bs[d] != EMPTY :: HasZeroPivot(steps[d])
  }

  lemma ForcedNext(keep: Keep, steps: seq<Step>, bs: seq<Block>, kids: seq<int>, s: int, st: Step, nb: Block)
    requires 0 <= s == |steps| < |keep.sn| == |bs| && Forced(keep, steps, bs, s)
    requires forall i | 0 <= i < |kids| :: 0 <= kids[i] < s
    requires keep.sn[s].parent == -1 && nb != EMPTY ==> HasZeroPivot(st)
    ensures Forced(keep, steps + [st], Cleared(bs, kids)[s := nb], s + 1)
  {
    var bs' := Cleared(bs, kids)[s := nb];
    forall d | 0 <= d < s + 1 && keep.sn[d].parent == -1 && bs'[d] != EMPTY
      ensures HasZeroPivot((steps + [st])[d])
    {
      if d < s { assert bs[d] != EMPTY; }
    }
  }

  lemma HasRun(keep: Analysis, cols: seq<seq<Entry>>, prm: Params, steps: seq<Step>, counts: Counts, bs: seq<Block>,
               s: int, r1: seq<int>, m: Mat, k: int, st: Step, nb: Block, c: Counts)
    requires RunKept(keep, cols, prm, steps, counts, bs, s) && 0 <= s < |keep.sn|
    requires Assemblable(keep, cols, bs, s) && Split(keep, cols, prm, bs, s, r1, m, k, st, nb, c)
    ensures Ran(keep, bs, s, r1, m, k, st, nb)
    ensures forall i | 0 <= i < |keep.kids[s]| :: 0 <= keep.kids[s][i] < s
    ensures Distinct(r1) && RowIds(r1, keep.n) && c.Total() == st.p
    ensures keep.sn[s].parent == -1 && k < st.p ==> HasZeroPivot(st)
    ensures prm.Threshold() ==> StepBounded(st, prm.u)
    ensures Represents(FrontMatrix(keep, cols, bs, s), st, nb) && WholeTags(st) && CountedBy(StepPivots(st), c, prm)
  {
    FrontFacts(keep, cols, prm, steps, counts, bs, s);
  }

  lemma SplitSpent(keep: Keep, cols: seq<seq<Entry>>, prm: Params, bs: seq<Block>, s: int, r1: seq<int>, m: Mat, k: int,
                   st: Step, nb: Block, c: Counts, d: int)
    requires Fronted(keep, bs, s) && Split(keep, cols, prm, bs, s, r1, m, k, st, nb, c) && prm.Threshold()
    requires d == |KidsDelayed(bs, keep.kids[s])| + keep.Width(s) - k
    ensures Spent(nb, d, prm)
  {
  }

  lemma FrontKept(keep: Analysis, cols: seq<seq<Entry>>, prm: Params, steps: seq<Step>, counts: Counts, bs: seq<Block>,
                  s: int, r1: seq<int>, m: Mat, k: int, st: Step, nb: Block, c: Counts)
    requires RunKept(keep, cols, prm, steps, counts, bs, s) && 0 <= s < |keep.sn|
    requires Assemblable(keep, cols, bs, s) && Split(keep, cols, prm, bs, s, r1, m, k, st, nb, c)
    ensures RunKept(keep, cols, prm, steps + [st], counts.Plus(c), Cleared(bs, keep.kids[s])[s := nb], s + 1)
  {
    HasRun(keep, cols, prm, steps, counts, bs, s, r1, m, k, st, nb, c);
    BalancedNext(keep, cols, steps, bs, counts, s, r1, m, k, st, nb, c);
    BlockKept(keep, bs, s, r1, m, k, st, nb);
    ForcedNext(keep, steps, bs, keep.kids[s], s, st, nb);
    if prm.Threshold() { SpentKept(keep, cols, prm, bs, s, r1, m, k, st, nb, c); }
    FormedNext(keep, steps, bs, s, r1, m, k, st, nb);
    RunCounts(steps, st, counts, c, prm);
  }

  // No row of front s was a pivot before: its delayed columns still wait and its symbolic
  // rows are not read yet.
  lemma NewRow(keep: Analysis, steps: seq<Step>, bs: seq<Block>, s: int, r: int)
    requires 0 <= s < |keep.sn| == |bs| && PivotsConserved(steps, bs, keep.Start(s)) && r in RowsOf(keep, bs, s)
    requires forall i | 0 <= i < |keep.kids[s]| :: 0 <= keep.kids[s][i] < s
    ensures PivotCount(steps, r) == 0
  {
    assert PivotCount(steps, r) + DelayedCount(bs, r) == Once(0 <= r < keep.Start(s));
    KidsDistinct(keep, s);
    ClearedDelayed(bs, keep.kids[s], r);
    CountAbsent(KidsDelayed(bs, keep.kids[s]), r);
    FrontRowsFrom(keep, s);
  }

  lemma FormedNext(keep: Analysis, steps: seq<Step>, bs: seq<Block>, s: int, r1: seq<int>, m: Mat, k: int, st: Step, nb: Block)
    requires Ran(keep, bs, s, r1, m, k, st, nb) && Distinct(r1) && WholeTags(st) && AllFormed(steps)
    requires PivotsConserved(steps, bs, keep.Start(s))
    ensures AllFormed(steps + [st])
  {
    forall r | r in st.rows
      ensures PivotCount(steps, r) == 0
    {
      assert r in multiset(r1) && r in multiset(RowsOf(keep, bs, s));
      NewRow(keep, steps, bs, s, r);
    }
    FormedMore(steps, st);
  }

  lemma SpentKept(keep: Analysis, cols: seq<seq<Entry>>, prm: Params, bs: seq<Block>, s: int, r1: seq<int>, m: Mat, k: int,
                  st: Step, nb: Block, c: Counts)
    requires Ran(keep, bs, s, r1, m, k, st, nb) && |bs| == |keep.sn| && 0 <= s < |keep.sn|
    requires forall i | 0 <= i < |keep.kids[s]| :: 0 <= keep.kids[s][i] < s
    requires prm.Valid() && prm.Threshold() && AllSpent(keep, bs, prm, s)
    requires Assemblable(keep, cols, bs, s) && Split(keep, cols, prm, bs, s, r1, m, k, st, nb, c)
    ensures AllSpent(keep, Cleared(bs, keep.kids[s])[s := nb], prm, s + 1)
  {
    UnacceptedIs(keep, bs, s, r1, m, k, st, nb);
    SplitSpent(keep, cols, prm, bs, s, r1, m, k, st, nb, c, Unaccepted(keep, nb, s));
    AllSpentNext(keep, bs, prm, keep.kids[s], s, nb);
  }

  lemma UnacceptedIs(keep: Analysis, bs: seq<Block>, s: int, r1: seq<int>, m: Mat, k: int, st: Step, nb: Block)
    requires Ran(keep, bs, s, r1, m, k, st, nb)
    ensures Unaccepted(keep, nb, s) == |KidsDelayed(bs, keep.kids[s])| + keep.Width(s) - k
  {
    EligibleColumns(keep, bs, s);
    if keep.sn[s].parent == -1 { RootRows(keep, bs, s); }
  }

  lemma BlockKept(keep: Analysis, bs: seq<Block>, s: int, r1: seq<int>, m: Mat, k: int, st: Step, nb: Block)
    requires Ran(keep, bs, s, r1, m, k, st, nb) && Distinct(r1) && RowIds(r1, keep.n)
    requires keep.sn[s].parent == -1 && k < st.p ==> HasZeroPivot(st)
    ensures BlocksAre(keep, Cleared(bs, keep.kids[s])[s := nb], s + 1)
    ensures keep.sn[s].parent == -1 && nb != EMPTY ==> HasZeroPivot(st)
  {
    if keep.sn[s].parent != -1 {
      NewBlockWaits(keep, bs, s, r1, m, k, st, nb);
    } else {
      RootRows(keep, bs, s);
      RootLeaves(r1, m, k, nb);
    }
    BlocksNext(keep, bs, s, nb);
  }

  lemma RootLeaves(rows: seq<int>, m: Mat, k: int, nb: Block)
    requires 0 <= k <= |rows| && nb == SchurBlock(rows, m, k, 0)
    ensures nb.delayed == 0 && (k == |rows| ==> nb == EMPTY)
  {
  }

  // All the rows of a root front are eligible.
  lemma RootRows(keep: Analysis, bs: seq<Block>, s: int)
    requires 0 <= s < |keep.sn| && keep.sn[s].parent == -1
    requires forall i | 0 <= i < |keep.kids[s]| :: 0 <= keep.kids[s][i] < |bs|
    ensures |RowsOf(keep, bs, s)| == |KidsDelayed(bs, keep.kids[s])| + keep.Width(s)
  {
  }

  // ---- what it leaves for its parent ----

  lemma {:induction false} TriPositive(q: int)
    ensures Tri(q) > 0 <==> q > 0
  {
    if q > 1 { TriPositive(q - 1); }
  }

  lemma StacksBefore(keep: Analysis, vals: seq<real>, ids: seq<int>, cvTop: int, crTop: int, rec: Records, bs: seq<Block>,
                     s: int, held: int)
    requires StackKept(keep, vals, ids, cvTop, crTop, rec, bs, s, held) && 0 <= s < |keep.sn|
    ensures StackBefore(keep, s, rec.valueOff, rec.size, Areas(rec.size))
    ensures StackBefore(keep, s, rec.rowOff, rec.size, rec.size)
    ensures held >= 0 ==> held == s - 1 && keep.sn[held].parent == s
    ensures cvTop == WaitingSum(keep, Areas(rec.size), if held >= 0 then s - 1 else s, s)
    ensures crTop == WaitingSum(keep, rec.size, if held >= 0 then s - 1 else s, s)
  {
    forall d | 0 <= d < |rec.size|
      ensures rec.size[d] > 0 <==> Areas(rec.size)[d] > 0
    {
      TriPositive(rec.size[d]);
    }
  }

  // The stack once front s has popped its children down to the tops vTop and rTop.
  ghost predicate Popped(keep: Keep, w: View, bs: seq<Block>, s: int, held: int, vTop: int, rTop: int) {
    match w
    case View(rec, vals, ids, _, _) =>
      && 0 <= s < |keep.sn| == |keep.kids| && RecordsAre(keep, rec, bs, s) && AllOnStack(keep, vals, ids, rec, bs, s, held)
      && (held >= 0 ==> held < |keep.sn| && keep.sn[held].parent == s)
      && Stacked(keep, Areas(rec.size), rec.valueOff, s) && Stacked(keep, rec.size, rec.rowOff, s)
      && 0 <= vTop == WaitingSum(keep, Areas(rec.size), s, s + 1) <= |vals|
      && 0 <= rTop == WaitingSum(keep, rec.size, s, s + 1) <= |ids|
      && (forall i | 0 <= i < |keep.kids[s]| :: 0 <= keep.kids[s][i] < |bs|)
  }

  // Pops the children of s off both stacks.
  method PopBlocks(keep: Analysis, w: View, s: int, cvTop: int, crTop: int, ghost bs: seq<Block>)
      returns (vTop: int, rTop: int)
    requires StackKept(keep, w.vals, w.ids, cvTop, crTop, w.rec, bs, s, HeldNode(w)) && 0 <= s < |keep.sn|
    requires |bs| == |keep.sn|
    ensures Popped(keep, w, bs, s, HeldNode(w), vTop, rTop)
  {
    StacksBefore(keep, w.vals, w.ids, cvTop, crTop, w.rec, bs, s, HeldNode(w));
    vTop := PopChildren(keep, s, w.rec.valueOff, w.rec.size, cvTop, Areas(w.rec.size), HeldNode(w) >= 0);
    rTop := PopChildren(keep, s, w.rec.rowOff, w.rec.size, crTop, w.rec.size, HeldNode(w) >= 0);
    PoppedTops(keep, w, s, HeldNode(w), cvTop, crTop, bs, vTop, rTop);
  }

  lemma PoppedTops(keep: Analysis, w: View, s: int, held: int, cvTop: int, crTop: int, bs: seq<Block>, vTop: int, rTop: int)
    requires StackKept(keep, w.vals, w.ids, cvTop, crTop, w.rec, bs, s, held) && 0 <= s < |keep.sn| == |bs|
    requires vTop == WaitingSum(keep, Areas(w.rec.size), s, s + 1) && rTop == WaitingSum(keep, w.rec.size, s, s + 1)
    ensures Popped(keep, w, bs, s, held, vTop, rTop)
  {
    KidsDistinct(keep, s);
    NoHigher(keep, Areas(w.rec.size), s, held);
    NoHigher(keep, w.rec.size, s, held);
  }

  // Popping never raises the top.
  lemma NoHigher(keep: Keep, w: seq<int>, s: int, held: int)
    requires keep.Tree() && 0 <= s < |keep.sn| == |w| && Nonneg(w) && (held >= 0 ==> held == s - 1 && keep.sn[held].parent == s)
    ensures 0 <= WaitingSum(keep, w, s, s + 1) <= WaitingSum(keep, w, if held >= 0 then s - 1 else s, s)
  {
    var hi := if held >= 0 then s - 1 else s;
    PopAll(keep, w, s);
    var kids := keep.kids[s];
    var lo := if |kids| == 0 then s else kids[|kids| - 1];
    if held >= 0 { HeldIsFirst(keep, s); }
    WaitingSumGrows(keep, w, if lo < hi then lo else hi, hi, s);
    WaitingSumGrows(keep, w, 0, s, s + 1);
  }

  // Blocks held in the buffers are consumed by their parent.
  method ReleaseHeld(w: View, kids: seq<int>) returns (w': View)
    requires w.buf0.Holding? ==> w.buf0.node in kids
    requires w.buf1.Holding? ==> w.buf1.node in kids
    ensures w' == w.(buf0 := Free, buf1 := Free)
  {
    w' := w;
    for i := 0 to |kids|
      invariant w' == w.(buf0 := w'.buf0, buf1 := w'.buf1)
      invariant w'.buf0 == w.buf0 || w'.buf0.Free?
      invariant w'.buf1 == w.buf1 || w'.buf1.Free?
      invariant w'.buf0.Holding? ==> w'.buf0.node !in kids[..i]
      invariant w'.buf1.Holding? ==> w'.buf1.node !in kids[..i]
    {
      var c := kids[i];
      if w'.buf0.Holding? && w'.buf0.node == c { w' := w'.(buf0 := Free); }
      if w'.buf1.Holding? && w'.buf1.node == c { w' := w'.(buf1 := Free); }
    }
    assert kids[..|kids|] == kids;
  }

  method PutRows(ids: seq<int>, top: int, rows: seq<int>) returns (r: seq<int>)
    requires 0 <= top <= |ids|
    ensures |r| >= top + |rows| && r[..top] == ids[..top] && r[top..top + |rows|] == rows
  {
    r := Grow(ids, top + |rows|, 0);
    for t := 0 to |rows|
      invariant |r| >= top + |rows| && r[..top] == ids[..top] && r[top..top + t] == rows[..t]
    {
      ghost var before := r[top..top + t];
      r := r[top + t := rows[t]];
      assert r[top..top + t] == before;
      assert r[top..top + (t + 1)] == r[top..top + t] + [rows[t]];
    }
  }

  lemma HeldCarries(F: array2<real>, k: int, q: int)
    requires F.Length0 == F.Length1 == k + q && 0 <= k && 0 <= q
    ensures Carries(Held(F, k), Trailing(Snapshot(F), k, F.Length0), q)
  {
    forall i, j | 0 <= j <= i < q
      ensures F[k + i, k + j] == At(Trailing(Snapshot(F), k, F.Length0), i, j)
    {
      assert At(Snapshot(F), k + i, k + j) == F[k + i, k + j];
    }
  }

  lemma SchurShape(rows: seq<int>, m: Mat, k: int, delayed: int)
    requires 0 <= k <= |rows| && (k == |rows| ==> delayed == 0)
    ensures var nb := SchurBlock(rows, m, k, delayed);
      nb.rows == rows[k..] && |nb.rows| == |rows| - k && nb.delayed == delayed && (k < |rows| ==> nb.m == Trailing(m, k, |rows|))
  {
  }

  // The block stays in the buffer; its parent runs next.
  method HoldBlock(keep: Analysis, w: View, vTop: int, rTop: int, s: int, F: array2<real>, rows: seq<int>, k: int, delayed: int,
                   second: bool, ghost bs: seq<Block>, ghost held: int, ghost nb: Block)
      returns (w': View)
    requires Popped(keep, w, bs, s, held, vTop, rTop) && w.buf0.Free? && w.buf1.Free?
    requires s + 1 < |keep.sn| && keep.sn[s].parent == s + 1
    requires F.Length0 == F.Length1 == |rows| && 0 <= k < |rows| && nb == SchurBlock(rows, Snapshot(F), k, delayed)
    ensures StackKept(keep, w'.vals, w'.ids, vTop, rTop, w'.rec, Cleared(bs, keep.kids[s])[s := nb], s + 1, HeldNode(w'))
    ensures BuffersRight(w', Cleared(bs, keep.kids[s])[s := nb])
    ensures HeldNode(w') == s
    ensures Owned(w'.buf0) + Owned(w'.buf1) <= {F}
  {
    var h := Holding(s, F, k, rows[k..]);
    w' := View(Recorded(w.rec, s, vTop, rTop, |rows| - k, delayed), w.vals, w.ids, if second then Free else h, if second then h else Free);
    SchurShape(rows, Snapshot(F), k, delayed);
    HeldCarries(F, k, |rows| - k);
    HoldKept(keep, w, bs, s, held, vTop, rTop, nb);
  }

  lemma PushedOnStack(vals: seq<real>, ids: seq<int>, vTop: int, rTop: int, rows: seq<int>, m: Mat, k: int, delayed: int)
    requires 0 <= k < |rows| && 0 <= vTop && 0 <= rTop
    requires |vals| >= vTop + Tri(|rows| - k) && PackedHolds(vals[vTop..vTop + Tri(|rows| - k)], Trailing(m, k, |rows|), |rows| - k)
    requires |ids| >= rTop + (|rows| - k) && ids[rTop..rTop + (|rows| - k)] == rows[k..]
    ensures OnStack(vals, ids, SchurBlock(rows, m, k, delayed), vTop, rTop, |rows| - k)
  {
  }

  // The packed block and its rows on top of the two stacks.
  method PushBoth(F: array2<real>, rows: seq<int>, k: int, vals: seq<real>, ids: seq<int>, vTop: int, rTop: int, ghost delayed: int)
      returns (vals': seq<real>, ids': seq<int>)
    requires F.Length0 == F.Length1 == |rows| && 0 <= k < |rows| && 0 <= vTop <= |vals| && 0 <= rTop <= |ids|
    ensures |vals'| >= vTop + Tri(|rows| - k) && vals'[..vTop] == vals[..vTop]
    ensures |ids'| >= rTop + (|rows| - k) && ids'[..rTop] == ids[..rTop]
    ensures OnStack(vals', ids', SchurBlock(rows, Snapshot(F), k, delayed), vTop, rTop, |rows| - k)
  {
    vals' := PushBlock(F, k, vals, vTop);
    ids' := PutRows(ids, rTop, rows[k..]);
    PushedOnStack(vals', ids', vTop, rTop, rows, Snapshot(F), k, delayed);
  }

  lemma PoppedTopsFit(keep: Keep, w: View, bs: seq<Block>, s: int, held: int, vTop: int, rTop: int)
    requires Popped(keep, w, bs, s, held, vTop, rTop)
    ensures 0 <= vTop <= |w.vals| && 0 <= rTop <= |w.ids| && 0 <= s < |bs|
    ensures s < |w.rec.valueOff| && s < |w.rec.rowOff| && s < |w.rec.size| && s < |w.rec.delayed|
  {
  }

  // The packed block and its rows go on top of the stack.
  method StackBlock(keep: Analysis, w: View, vTop: int, rTop: int, s: int, F: array2<real>, rows: seq<int>, k: int, delayed: int,
                    ghost bs: seq<Block>, ghost held: int, ghost nb: Block)
      returns (w': View, cvTop: int, crTop: int)
    requires Popped(keep, w, bs, s, held, vTop, rTop) && w.buf0.Free? && w.buf1.Free? && keep.sn[s].parent != -1
    requires F.Length0 == F.Length1 == |rows| && 0 <= k < |rows| && nb == SchurBlock(rows, Snapshot(F), k, delayed)
    ensures StackKept(keep, w'.vals, w'.ids, cvTop, crTop, w'.rec, Cleared(bs, keep.kids[s])[s := nb], s + 1, HeldNode(w'))
    ensures w'.buf0.Free? && w'.buf1.Free?
  {
    PoppedTopsFit(keep, w, bs, s, held, vTop, rTop);
    var vals, ids := PushBoth(F, rows, k, w.vals, w.ids, vTop, rTop, delayed);
    w' := View(Recorded(w.rec, s, vTop, rTop, |rows| - k, delayed), vals, ids, Free, Free);
    cvTop, crTop := vTop + Tri(|rows| - k), rTop + (|rows| - k);
    SchurShape(rows, Snapshot(F), k, delayed);
    PushKept(keep, w, vals, ids, bs, s, held, vTop, rTop, nb);
    assert w'.rec == Recorded(w.rec, s, vTop, rTop, |nb.rows|, nb.delayed);
    assert HeldNode(w') == -1;
    assert StackKept(keep, w'.vals, w'.ids, cvTop, crTop, w'.rec, Cleared(bs, keep.kids[s])[s := nb], s + 1, HeldNode(w'));
  }

  /** The block of front s goes to its parent: held in a buffer when the parent is next
      and the front is small, else onto the stack. */
  method LeaveBlock(keep: Analysis, w: View, vTop: int, rTop: int, s: int, next: int, F: array2<real>, rows: array<int>,
                    k: int, e: int, small: bool, second: bool, ghost bs: seq<Block>, ghost held: int, ghost nb: Block)
      returns (w': View, cvTop: int, crTop: int)
    requires Popped(keep, w, bs, s, held, vTop, rTop) && w.buf0.Free? && w.buf1.Free?
    requires next == if s + 1 < |keep.sn| then s + 1 else -1
    requires F.Length0 == F.Length1 == rows.Length && 0 <= k <= e <= rows.Length
    requires keep.sn[s].parent != -1 ==> nb == SchurBlock(rows[..], Snapshot(F), k, e - k)
    requires keep.sn[s].parent == -1 ==> nb.delayed == 0
    ensures StackKept(keep, w'.vals, w'.ids, cvTop, crTop, w'.rec, Cleared(bs, keep.kids[s])[s := nb], s + 1, HeldNode(w'))
    ensures BuffersRight(w', Cleared(bs, keep.kids[s])[s := nb])
    ensures Owned(w'.buf0) + Owned(w'.buf1) <= {F}
    ensures HeldNode(w') == if rows.Length > k && small && keep.sn[s].parent == s + 1 < |keep.sn| then s else -1
  {
    var q := rows.Length - k;
    var root := keep.sn[s].parent == -1;
    if !root && q > 0 && small && next == keep.sn[s].parent {
      cvTop, crTop := vTop, rTop;
      w' := HoldBlock(keep, w, vTop, rTop, s, F, rows[..], k, e - k, second, bs, held, nb);
    } else if !root && q > 0 {
      w', cvTop, crTop := StackBlock(keep, w, vTop, rTop, s, F, rows[..], k, e - k, bs, held, nb);
    } else {
      cvTop, crTop := vTop, rTop;
      w' := View(Recorded(w.rec, s, w.rec.valueOff[s], w.rec.rowOff[s], 0, 0), w.vals, w.ids, Free, Free);
      NothingKept(keep, w, bs, s, held, vTop, rTop, nb);
    }
  }

  lemma HoldKept(keep: Analysis, w: View, bs: seq<Block>, s: int, held: int, vTop: int, rTop: int, nb: Block)
    requires Popped(keep, w, bs, s, held, vTop, rTop) && s + 1 < |keep.sn| && keep.sn[s].parent == s + 1
    ensures StackKept(keep, w.vals, w.ids, vTop, rTop, Recorded(w.rec, s, vTop, rTop, |nb.rows|, nb.delayed),
                      Cleared(bs, keep.kids[s])[s := nb], s + 1, s)
  {
    var q := |nb.rows|;
    TopsNext(keep, w.rec, vTop, rTop, vTop, rTop, s, q, nb.delayed, true);
    AllOnStackNext(keep, w.vals, w.vals, w.ids, w.ids, w.rec, bs, s, held, vTop, rTop, nb, vTop, rTop, q, true);
  }

  lemma PushKept(keep: Analysis, w: View, vals: seq<real>, ids: seq<int>, bs: seq<Block>, s: int, held: int, vTop: int, rTop: int,
                 nb: Block)
    requires Popped(keep, w, bs, s, held, vTop, rTop) && keep.sn[s].parent != -1 && |nb.rows| > 0
    requires |vals| >= vTop + Tri(|nb.rows|) && vals[..vTop] == w.vals[..vTop]
    requires |ids| >= rTop + |nb.rows| && ids[..rTop] == w.ids[..rTop]
    requires OnStack(vals, ids, nb, vTop, rTop, |nb.rows|)
    ensures StackKept(keep, vals, ids, vTop + Tri(|nb.rows|), rTop + |nb.rows|, Recorded(w.rec, s, vTop, rTop, |nb.rows|, nb.delayed),
                      Cleared(bs, keep.kids[s])[s := nb], s + 1, -1)
  {
    var q := |nb.rows|;
    TopsNext(keep, w.rec, vTop, rTop, vTop, rTop, s, q, nb.delayed, false);
    AllOnStackNext(keep, w.vals, vals, w.ids, ids, w.rec, bs, s, held, vTop, rTop, nb, vTop, rTop, q, false);
  }

  lemma NothingKept(keep: Analysis, w: View, bs: seq<Block>, s: int, held: int, vTop: int, rTop: int, nb: Block)
    requires Popped(keep, w, bs, s, held, vTop, rTop) && (keep.sn[s].parent != -1 ==> |nb.rows| == 0) && nb.delayed == 0
    ensures StackKept(keep, w.vals, w.ids, vTop, rTop, Recorded(w.rec, s, w.rec.valueOff[s], w.rec.rowOff[s], 0, 0),
                      Cleared(bs, keep.kids[s])[s := nb], s + 1, -1)
  {
    var vAt, rAt := w.rec.valueOff[s], w.rec.rowOff[s];
    TopsNext(keep, w.rec, vAt, rAt, vTop, rTop, s, 0, 0, false);
    AllOnStackNext(keep, w.vals, w.vals, w.ids, w.ids, w.rec, bs, s, held, vTop, rTop, nb, vAt, rAt, 0, false);
  }

  // ---- the run ----

  /** What a pass over the fronts keeps: records, stack and buffers, the tops of the
      stack, the stored fronts and the inertia. */
  datatype FrontPass = FrontPass(w: View, cvTop: int, crTop: int, steps: seq<Step>, counts: Counts)

  ghost predicate PassKept(keep: Analysis, cols: seq<seq<Entry>>, prm: Params, p: FrontPass, bs: seq<Block>, s: int) {
    match p
    case FrontPass(w, cvTop, crTop, steps, counts) =>
      && RunKept(keep, cols, prm, steps, counts, bs, s)
      && StackKept(keep, w.vals, w.ids, cvTop, crTop, w.rec, bs, s, HeldNode(w))
  }

  method StartPass(keep: Analysis, ghost cols: seq<seq<Entry>>, ghost prm: Params) returns (p: FrontPass, ghost bs: seq<Block>)
    requires keep.Fits(cols) && prm.Valid() && !prm.posdef
    ensures PassKept(keep, cols, prm, p, bs, 0)
    ensures p.w.buf0.Free? && p.w.buf1.Free?
  {
    var none := seq(|keep.sn|, _ => 0);
    p := FrontPass(View(Records(none, none, none, none), [], [], Free, Free), 0, 0, [], NONE);
    bs := seq(|keep.sn|, _ => EMPTY);
    InitialRun(keep, cols, prm, bs, p.w.rec);
  }

  method RunOne(keep: Analysis, cols: seq<seq<Entry>>, prm: Params, w: View, ghost cvTop: int, ghost crTop: int, s: int,
                pos: array<int>, ghost steps: seq<Step>, ghost counts: Counts, ghost bs: seq<Block>)
      returns (F: array2<real>, rows: array<int>, k: int, e: int, c: Counts, st: Step, ghost nb: Block)
    requires RunKept(keep, cols, prm, steps, counts, bs, s) && 0 <= s < |keep.sn|
    requires StackKept(keep, w.vals, w.ids, cvTop, crTop, w.rec, bs, s, HeldNode(w)) && BuffersRight(w, bs)
    requires pos.Length == keep.n && Positions(pos[..], [])
    modifies pos
    ensures Positions(pos[..], [])
    ensures fresh(F) && fresh(rows) && F.Length0 == F.Length1 == rows.Length && 0 <= k <= e <= rows.Length
    ensures keep.sn[s].parent != -1 ==> nb == SchurBlock(rows[..], Snapshot(F), k, e - k)
    ensures keep.sn[s].parent == -1 ==> nb.delayed == 0
    ensures |bs| == |keep.sn| && forall i | 0 <= i < |keep.kids[s]| :: 0 <= keep.kids[s][i] < s
    ensures RunKept(keep, cols, prm, steps + [st], counts.Plus(c), Cleared(bs, keep.kids[s])[s := nb], s + 1)
  {
    KidsAreReady(keep, cols, prm, steps, counts, w, cvTop, crTop, bs, s);
    IsAssemblable(keep, cols, prm, steps, counts, bs, s);
    FrontFacts(keep, cols, prm, steps, counts, bs, s);
    ghost var m;
    F, rows, k, e, c, st, nb, m := RunFront(keep, cols, prm, w, s, pos, bs);
    FrontKept(keep, cols, prm, steps, counts, bs, s, rows[..], m, k, st, nb, c);
  }

  method LeaveOne(keep: Analysis, w: View, cvTop: int, crTop: int, s: int, following: int, F: array2<real>, rows: array<int>,
                  k: int, e: int, small: bool, ghost bs: seq<Block>, ghost nb: Block)
      returns (w': View, cvTop': int, crTop': int)
    requires StackKept(keep, w.vals, w.ids, cvTop, crTop, w.rec, bs, s, HeldNode(w)) && 0 <= s < |keep.sn| == |bs|
    requires BuffersRight(w, bs)
    requires following == if s + 1 < |keep.sn| then s + 1 else -1
    requires F.Length0 == F.Length1 == rows.Length && 0 <= k <= e <= rows.Length
    requires keep.sn[s].parent != -1 ==> nb == SchurBlock(rows[..], Snapshot(F), k, e - k)
    requires keep.sn[s].parent == -1 ==> nb.delayed == 0
    requires forall i | 0 <= i < |keep.kids[s]| :: 0 <= keep.kids[s][i] < s
    ensures StackKept(keep, w'.vals, w'.ids, cvTop', crTop', w'.rec, Cleared(bs, keep.kids[s])[s := nb], s + 1, HeldNode(w'))
    ensures BuffersRight(w', Cleared(bs, keep.kids[s])[s := nb])
    ensures Owned(w'.buf0) + Owned(w'.buf1) <= {F}
  {
    // The front was built in the buffer that holds no child's block.
    var second := w.buf0.Holding?;
    assert (if second then w.buf1 else w.buf0).Free?;
    var vTop, rTop := PopBlocks(keep, w, s, cvTop, crTop, bs);
    HeldIsKid(keep, w, cvTop, crTop, bs, s);
    var v := ReleaseHeld(w, keep.kids[s]);
    w', cvTop', crTop' := LeaveBlock(keep, v, vTop, rTop, s, following, F, rows, k, e, small, second, bs, HeldNode(w), nb);
  }

  method OneFront(keep: Analysis, cols: seq<seq<Entry>>, prm: Params, smallFronts: bool, p: FrontPass,
                  s: int, following: int, pos: array<int>, ghost bs: seq<Block>)
      returns (p': FrontPass, ghost bs': seq<Block>)
    requires PassKept(keep, cols, prm, p, bs, s) && 0 <= s < |keep.sn|
    requires BuffersRight(p.w, bs)
    requires following == if s + 1 < |keep.sn| then s + 1 else -1
    requires pos.Length == keep.n && Positions(pos[..], [])
    modifies pos
    ensures PassKept(keep, cols, prm, p', bs', s + 1) == true
    ensures BuffersRight(p'.w, bs')
    ensures Positions(pos[..], []) && fresh(Owned(p'.w.buf0) + Owned(p'.w.buf1))
  {
    var F, rows, k, e, c, st; ghost var nb;
    F, rows, k, e, c, st, nb := RunOne(keep, cols, prm, p.w, p.cvTop, p.crTop, s, pos, p.steps, p.counts, bs);
    var small := smallFronts && rows.Length <= SMALL_FRONT_MAX && rows.Length < prm.blockedMinFront && prm.nb > 1;
    var w, cvTop, crTop := LeaveOne(keep, p.w, p.cvTop, p.crTop, s, following, F, rows, k, e, small, bs, nb);
    bs' := Cleared(bs, keep.kids[s])[s := nb];
    p' := FrontPass(w, cvTop, crTop, p.steps + [st], p.counts.Plus(c));
    PassMeans(keep, cols, prm, p', bs', s + 1);
  }

  lemma {:induction false} PassMeans(keep: Analysis, cols: seq<seq<Entry>>, prm: Params, p: FrontPass, bs: seq<Block>, s: int)
    requires RunKept(keep, cols, prm, p.steps, p.counts, bs, s) == true
    requires StackKept(keep, p.w.vals, p.w.ids, p.cvTop, p.crTop, p.w.rec, bs, s, HeldNode(p.w)) == true
    ensures PassKept(keep, cols, prm, p, bs, s)
  {
  }

  lemma HeldIsKid(keep: Analysis, w: View, cvTop: int, crTop: int, bs: seq<Block>, s: int)
    requires StackKept(keep, w.vals, w.ids, cvTop, crTop, w.rec, bs, s, HeldNode(w)) && 0 <= s < |keep.sn|
    requires BuffersRight(w, bs)
    ensures w.buf0.Holding? ==> w.buf0.node in keep.kids[s]
    ensures w.buf1.Holding? ==> w.buf1.node in keep.kids[s]
  {
    if HeldNode(w) >= 0 { HeldIsFirst(keep, s); }
  }

  class Engine {
    const keep: Analysis
    const cols: seq<seq<Entry>>
    const prm: Params
    const smallFronts: bool
    const pos: array<int>      // row -> front position, -1 between fronts

    var pass: FrontPass
    ghost var blocks: seq<Block>
    ghost var next: int

    // Between fronts.
    ghost predicate Valid()
      reads this, pos, Owned(pass.w.buf0), Owned(pass.w.buf1)
    {
      && PassKept(keep, cols, prm, pass, blocks, next)
      && BuffersRight(pass.w, blocks)
      && pos.Length == keep.n && Positions(pos[..], [])
    }

    constructor (keep: Analysis, cols: seq<seq<Entry>>, prm: Params, smallFronts: bool)
      requires keep.Fits(cols) && prm.Valid() && !prm.posdef
      ensures this.keep == keep && this.cols == cols && this.prm == prm && this.smallFronts == smallFronts
      ensures Valid() && next == 0 && fresh(pos)
    {
      this.keep, this.cols, this.prm, this.smallFronts := keep, cols, prm, smallFronts;
      var p := NoPositions(keep.n);
      ghost var unset := p[..];
      pos := p;
      var q; ghost var bs;
      q, bs := StartPass(keep, cols, prm);
      pass := q;
      blocks, next := bs, 0;
      new;
      assert pos[..] == unset;
    }

    /** Assembles, factors and stores front s, and leaves its block for its parent;
        `following` is the front that runs next, or -1. */
    method ProcessFront(s: int, following: int)
      requires Valid() == true && s == next < |keep.sn| && following == if s + 1 < |keep.sn| then s + 1 else -1
      modifies this, pos
      ensures Valid() == true && next == s + 1
    {
      var p; ghost var bs;
      p, bs := OneFront(keep, cols, prm, smallFronts, pass, s, following, pos, blocks);
      ghost var unset := pos[..];
      pass := p;
      blocks, next := bs, s + 1;
      assert pos[..] == unset;
    }

    /** The serial postorder loop. */
    method Factor()
      requires Valid() && next == 0
      modifies this, pos
      ensures Valid() && next == |keep.sn|
    {
      for s := 0 to |keep.sn|
        invariant Valid() && next == s
      {
        ProcessFront(s, if s + 1 < |keep.sn| then s + 1 else -1);
      }
    }
  }
}
