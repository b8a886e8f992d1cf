/** The books of a postorder run: what one front does to the conserved matrix, to the
    pivot count, to the waiting blocks and to the stack records. */
module FrontLedger {
  import opened Sequences
  import opened Reals
  import opened FrontAlgebra
  import opened SymbolicTree
  import opened Inertia
  import opened FrontKernel
  import opened FrontTerms
  import opened FrontAssembly
  import opened FrontStore
  import opened ContributionStack
  import opened FrontRows

  /** Between front s - 1 and front s: the matrix, the pivots and the inertia. */
  ghost predicate Balanced(keep: Keep, cols: seq<seq<Entry>>, steps: seq<Step>, bs: seq<Block>, counts: Counts, s: int)
    requires 0 <= s <= |keep.sn|
  {
    match counts
    case Counts(positive, negative, zero) =>
      && |steps| == s
      && Conserved(cols, steps, bs, keep.Start(s))
      && PivotsConserved(steps, bs, keep.Start(s))
      && positive + negative + zero + DelayedTotal(bs) == keep.Start(s)
  }

  // ---- one front ----

  lemma PermutedCounts(r0: seq<int>, r1: seq<int>, e: int, x: int)
    requires PermutedWithin(r0, r1, 0, e) && 0 <= e <= |r0|
    ensures Count(r0[..e], x) == Count(r1[..e], x) && r0[e..] == r1[e..]
  {
    CountIsMultiplicity(r0, x);
    CountIsMultiplicity(r1, x);
    assert r0[e..] == r1[e..];
    assert r0 == r0[..e] + r0[e..] && r1 == r1[..e] + r1[e..];
    CountSum(r0[..e], r0[e..], x);
    CountSum(r1[..e], r1[e..], x);
  }

  /** What a front with k accepted of e eligible columns leaves: at a root the rest
      become zero pivots and its residual waits for nobody. */
  ghost predicate Leaves(st: Step, nb: Block, rows: seq<int>, m: Mat, k: int, e: int, root: bool) {
    && 0 <= k <= e <= |rows|
    && st.rows == rows && st.p == (if root then e else k)
    && nb == SchurBlock(rows, m, k, if root then 0 else e - k)
  }

  // The pivots and the delayed columns of a front are its eligible columns, permuted.
  lemma EligibleSplit(r0: seq<int>, r1: seq<int>, m: Mat, k: int, e: int, root: bool, st: Step, nb: Block, x: int)
    requires PermutedWithin(r0, r1, 0, e) && Leaves(st, nb, r1, m, k, e, root)
    ensures Count(r0[..e], x) == Count(PivotsOf(st), x) + Count(DelayedOf(nb), x)
    ensures |DelayedOf(nb)| == if root then 0 else e - k
  {
    PermutedCounts(r0, r1, e, x);
    if root || k == |r1| {
      assert DelayedOf(nb) == [];
    } else {
      assert DelayedOf(nb) == r1[k..e];
      assert r1[..e] == r1[..k] + r1[k..e];
      CountSum(r1[..k], r1[k..e], x);
    }
  }

  // A front's eligible columns: its children's delayed ones and its own.
  lemma EligibleColumns(keep: Keep, bs: seq<Block>, s: int)
    requires keep.Columns() && keep.Fronts() && 0 <= s < |keep.sn| == |keep.kids|
    requires forall i | 0 <= i < |keep.kids[s]| :: 0 <= keep.kids[s][i] < |bs|
    ensures var e := |KidsDelayed(bs, keep.kids[s])| + keep.Width(s);
      e <= |RowsOf(keep, bs, s)| && RowsOf(keep, bs, s)[..e] == KidsDelayed(bs, keep.kids[s]) + keep.frontRows[s][..keep.Width(s)]
      && RowsOf(keep, bs, s)[e..] == keep.ExtRows(s)
  {
  }

  // Front s ran on the blocks bs and left st and nb.
  ghost predicate Ran(keep: Keep, bs: seq<Block>, s: int, r1: seq<int>, m: Mat, k: int, st: Step, nb: Block)
    requires keep.Fronts()
  {
    match st
    case Step(_, _, _, p) =>
      && 0 <= s < |keep.sn| == |keep.kids| && BlocksAre(keep, bs, s) && bs[s] == EMPTY
      && (forall i | 0 <= i < |keep.kids[s]| :: 0 <= keep.kids[s][i] < s) && Distinct(keep.kids[s])
      && var e := |KidsDelayed(bs, keep.kids[s])| + keep.Width(s);
         Leaves(st, nb, r1, m, k, e, keep.sn[s].parent == -1) && PermutedWithin(RowsOf(keep, bs, s), r1, 0, e)
  }

  lemma MatrixNext(keep: Keep, cols: seq<seq<Entry>>, steps: seq<Step>, bs: seq<Block>, s: int, st: Step, nb: Block)
    requires keep.Columns() && |cols| == keep.n && 0 <= s < |keep.sn| == |keep.kids| && s < |bs| && bs[s] == EMPTY
    requires (forall i | 0 <= i < |keep.kids[s]| :: 0 <= keep.kids[s][i] < s) && Distinct(keep.kids[s])
    requires Conserved(cols, steps, bs, keep.Start(s))
    requires Represents(FrontMatrix(keep, cols, bs, s), st, nb)
    ensures Conserved(cols, steps + [st], Cleared(bs, keep.kids[s])[s := nb], keep.Start(s + 1))
  {
    var kids := keep.kids[s];
    var A := (a, b) => Assembled(cols, keep.Start(s), keep.Start(s + 1), bs, kids, a, b);
    forall a, b
      ensures A(a, b) == StepTerm(st, a, b) + BlockTerm(nb, a, b)
    {
      assert FrontMatrix(keep, cols, bs, s)(a, b) == A(a, b);
    }
    FrontConserves(cols, steps, bs, keep.Start(s), keep.Start(s + 1), kids, s, st, nb);
  }

  lemma EligibleCount(keep: Keep, bs: seq<Block>, s: int, r1: seq<int>, m: Mat, k: int, st: Step, nb: Block, x: int)
    requires keep.Columns() && keep.Fronts() && Ran(keep, bs, s, r1, m, k, st, nb)
    ensures Count(KidsDelayed(bs, keep.kids[s]), x) + Count(keep.frontRows[s][..keep.Width(s)], x)
         == Count(PivotsOf(st), x) + Count(DelayedOf(nb), x)
    ensures |DelayedOf(nb)| + st.p == |KidsDelayed(bs, keep.kids[s])| + keep.Width(s)
  {
    EligibleCountOf(KidsDelayed(bs, keep.kids[s]), keep.frontRows[s], keep.Width(s), r1, m, k, keep.sn[s].parent == -1, st, nb, x);
  }

  lemma EligibleCountOf(ds: seq<int>, fs: seq<int>, width: int, r1: seq<int>, m: Mat, k: int, root: bool, st: Step, nb: Block, x: int)
    requires 0 <= width <= |fs| && Leaves(st, nb, r1, m, k, |ds| + width, root) && PermutedWithin(ds + fs, r1, 0, |ds| + width)
    ensures Count(ds, x) + Count(fs[..width], x) == Count(PivotsOf(st), x) + Count(DelayedOf(nb), x)
    ensures |DelayedOf(nb)| + st.p == |ds| + width
  {
    EligibleSplit(ds + fs, r1, m, k, |ds| + width, root, st, nb, x);
    assert (ds + fs)[..|ds| + width] == ds + fs[..width];
    CountSum(ds, fs[..width], x);
  }

  lemma PivotsNext(keep: Keep, steps: seq<Step>, bs: seq<Block>, s: int, r1: seq<int>, m: Mat, k: int, st: Step, nb: Block)
    requires keep.Columns() && keep.Fronts() && Ran(keep, bs, s, r1, m, k, st, nb)
    requires PivotsConserved(steps, bs, keep.Start(s))
    ensures PivotsConserved(steps + [st], Cleared(bs, keep.kids[s])[s := nb], keep.Start(s + 1))
    ensures DelayedTotal(Cleared(bs, keep.kids[s])[s := nb]) + st.p == DelayedTotal(bs) + keep.Width(s)
  {
    var kids, own := keep.kids[s], keep.frontRows[s][..keep.Width(s)];
    forall x
      ensures Count(KidsDelayed(bs, kids), x) + Count(own, x) == Count(PivotsOf(st), x) + Count(DelayedOf(nb), x)
    {
      EligibleCount(keep, bs, s, r1, m, k, st, nb, x);
    }
    FrontConservesPivots(steps, bs, keep.Start(s), keep.Start(s + 1), kids, own, s, st, nb);
    EligibleCount(keep, bs, s, r1, m, k, st, nb, 0);
    TotalNext(bs, kids, s, nb);
  }

  lemma TotalNext(bs: seq<Block>, kids: seq<int>, s: int, nb: Block)
    requires 0 <= s < |bs| && bs[s] == EMPTY && (forall i | 0 <= i < |kids| :: 0 <= kids[i] < s) && Distinct(kids)
    ensures DelayedTotal(Cleared(bs, kids)[s := nb]) + |KidsDelayed(bs, kids)| == DelayedTotal(bs) + |DelayedOf(nb)|
  {
    ClearedTotal(bs, kids);
    TotalUpdate(Cleared(bs, kids), s, nb);
    assert DelayedOf(EMPTY) == [];
  }

  /** One front keeps the books. */
  lemma BalancedNext(keep: Keep, cols: seq<seq<Entry>>, steps: seq<Step>, bs: seq<Block>, counts: Counts, s: int,
                     r1: seq<int>, m: Mat, k: int, st: Step, nb: Block, c: Counts)
    requires keep.Columns() && keep.Fronts() && |cols| == keep.n && Ran(keep, bs, s, r1, m, k, st, nb)
    requires Balanced(keep, cols, steps, bs, counts, s) && c.Total() == st.p
    requires Represents(FrontMatrix(keep, cols, bs, s), st, nb)
    ensures Balanced(keep, cols, steps + [st], Cleared(bs, keep.kids[s])[s := nb], counts.Plus(c), s + 1)
  {
    MatrixNext(keep, cols, steps, bs, s, st, nb);
    PivotsNext(keep, steps, bs, s, r1, m, k, st, nb);
  }

  lemma NewBlockWaits(keep: Keep, bs: seq<Block>, s: int, r1: seq<int>, m: Mat, k: int, st: Step, nb: Block)
    requires keep.Columns() && keep.Fronts() && Ran(keep, bs, s, r1, m, k, st, nb) && keep.sn[s].parent != -1
    requires Distinct(r1) && RowIds(r1, keep.n)
    ensures WaitingBlock(keep, s, nb)
  {
    var e := |KidsDelayed(bs, keep.kids[s])| + keep.Width(s);
    EligibleColumns(keep, bs, s);
    PermutedCounts(RowsOf(keep, bs, s), r1, e, 0);
    SchurRows(r1, m, k, e, keep.n);
  }

  lemma SchurRows(rows: seq<int>, m: Mat, k: int, e: int, n: int)
    requires 0 <= k <= e <= |rows| && Distinct(rows) && RowIds(rows, n)
    ensures Distinct(SchurBlock(rows, m, k, e - k).rows) && RowIds(SchurBlock(rows, m, k, e - k).rows, n)
    ensures var nb := SchurBlock(rows, m, k, e - k);
      0 <= nb.delayed <= |nb.rows| && nb.rows == rows[k..] && nb.rows[nb.delayed..] == rows[e..]
  {
    if k < |rows| { assert rows[k..][e - k..] == rows[e..]; }
  }

  lemma BlocksNext(keep: Analysis, bs: seq<Block>, s: int, nb: Block)
    requires 0 <= s < |keep.sn| && BlocksAre(keep, bs, s)
    requires forall i | 0 <= i < |keep.kids[s]| :: 0 <= keep.kids[s][i] < |bs|
    requires if keep.sn[s].parent == -1 then nb.delayed == 0 else WaitingBlock(keep, s, nb)
    ensures BlocksAre(keep, Cleared(bs, keep.kids[s])[s := nb], s + 1)
  {
    var bs' := Cleared(bs, keep.kids[s])[s := nb];
    var s' := s + 1;
    forall d | 0 <= d < |bs|
      ensures Waiting(keep, d, s') ==> WaitingBlock(keep, d, bs'[d])
      ensures !Waiting(keep, d, s') && !(d < s' && keep.sn[d].parent == -1) ==> bs'[d] == EMPTY
      ensures d < s' && keep.sn[d].parent == -1 ==> bs'[d].delayed == 0
    {
      if d < s { KidOrNot(keep, s, d); }
    }
  }

  lemma KidOrNot(keep: Keep, s: int, d: int)
    requires keep.Children() && 0 <= d < s < |keep.sn|
    ensures keep.sn[d].parent == s <==> d in keep.kids[s]
  {
    if keep.sn[d].parent == s { var i := keep.KidIndex(d); }
  }

  // ---- the records and the stack ----

  ghost predicate RecordsAre(keep: Keep, rec: Records, bs: seq<Block>, s: int) {
    match rec
    case Records(valueOff, rowOff, size, delayed) =>
      && |bs| == |keep.sn|
      && |valueOff| == |rowOff| == |size| == |delayed| == |keep.sn|
      && Nonneg(size)
      && forall d | Waiting(keep, d, s) :: size[d] == |bs[d].rows| && delayed[d] == bs[d].delayed
  }

  // Block b can be read back from the stack.
  ghost predicate OnStack(vals: seq<real>, ids: seq<int>, b: Block, vOff: int, rOff: int, q: int) {
    match b
    case Block(rows, m, _) =>
      && q == |rows|
      && 0 <= vOff && vOff + Tri(q) <= |vals| && PackedHolds(vals[vOff..vOff + Tri(q)], m, q)
      && 0 <= rOff && rOff + q <= |ids| && ids[rOff..rOff + q] == rows
  }

  // Every waiting block but the held one is on the stack.
  ghost predicate AllOnStack(keep: Keep, vals: seq<real>, ids: seq<int>, rec: Records, bs: seq<Block>, s: int, held: int)
    requires RecordsAre(keep, rec, bs, s)
  {
    match rec
    case Records(valueOff, rowOff, size, _) =>
      forall d {:trigger valueOff[d]} | Waiting(keep, d, s) && d != held && size[d] > 0 ::
        OnStack(vals, ids, bs[d], valueOff[d], rowOff[d], size[d])
  }

  // The stack ends with the last waiting block; the held one takes no room on it.
  ghost predicate TopsAre(keep: Keep, rec: Records, cvTop: int, crTop: int, s: int, held: int) {
    match rec
    case Records(valueOff, rowOff, size, _) =>
    && Stacked(keep, Areas(size), valueOff, s)
    && Stacked(keep, size, rowOff, s)
    && cvTop == WaitingSum(keep, Areas(size), if held >= 0 then s - 1 else s, s)
    && crTop == WaitingSum(keep, size, if held >= 0 then s - 1 else s, s)
    && (held >= 0 ==> held == s - 1 && s < |keep.sn| && keep.sn[held].parent == s)
  }

  function Recorded(rec: Records, s: int, vOff: int, rOff: int, size: int, delayed: int): Records
    requires 0 <= s && s < |rec.valueOff| && s < |rec.rowOff| && s < |rec.size| && s < |rec.delayed|
  {
    Records(rec.valueOff[s := vOff], rec.rowOff[s := rOff], rec.size[s := size], rec.delayed[s := delayed])
  }

  lemma WaitingNext(keep: Keep, w: seq<int>, w': seq<int>, s: int, d: int)
    requires keep.Tree() && 0 <= s < |keep.sn| == |w| == |w'| && (forall i | 0 <= i < |w| && i != s :: w'[i] == w[i])
    requires Waiting(keep, d, s + 1) && d < s
    ensures Waiting(keep, d, s) && WaitingSum(keep, w', d, s + 1) == WaitingSum(keep, w, d, s)
  {
    forall i | 0 <= i < d
      ensures Waiting(keep, i, s + 1) == Waiting(keep, i, s)
    {
    }
    WaitingSumSame(keep, w', w, d, s + 1, s);
  }

  lemma StackedNext(keep: Keep, w: seq<int>, w': seq<int>, off: seq<int>, at: int, top: int, s: int)
    requires keep.Tree() && 0 <= s < |keep.sn| == |w| == |w'| && (forall i | 0 <= i < |w| && i != s :: w'[i] == w[i])
    requires Stacked(keep, w, off, s) && top == WaitingSum(keep, w, s, s + 1) && (w'[s] > 0 ==> at == top)
    ensures Stacked(keep, w', off[s := at], s + 1)
    ensures top == WaitingSum(keep, w', s, s + 1)
  {
    var s' := s + 1;
    WaitingSumSame(keep, w, w', s, s', s');
    forall d | Waiting(keep, d, s') && d < |w'| && w'[d] > 0
      ensures off[s := at][d] == WaitingSum(keep, w', d, s')
    {
      if d < s { WaitingNext(keep, w, w', s, d); }
    }
  }

  lemma AreasUpdate(size: seq<int>, s: int, q: int)
    requires 0 <= s < |size|
    ensures forall i | 0 <= i < |size| && i != s :: Areas(size[s := q])[i] == Areas(size)[i]
    ensures Areas(size[s := q])[s] == Tri(q)
  {
  }

  lemma LastWaits(keep: Keep, w: seq<int>, s: int)
    requires 0 <= s < |keep.sn| == |w| && (keep.sn[s].parent == -1 || s < keep.sn[s].parent)
    requires w[s] == 0 || keep.sn[s].parent != -1
    ensures WaitingSum(keep, w, s + 1, s + 1) == WaitingSum(keep, w, s, s + 1) + w[s]
  {
  }

  // One of the two stacks after the push.
  lemma TopNext(keep: Keep, w: seq<int>, w': seq<int>, off: seq<int>, at: int, top: int, s: int, hold: bool)
    requires keep.Tree() && 0 <= s < |keep.sn| == |w| == |w'| && (forall i | 0 <= i < |w| && i != s :: w'[i] == w[i])
    requires Stacked(keep, w, off, s) && top == WaitingSum(keep, w, s, s + 1) && (w'[s] > 0 ==> at == top)
    requires w'[s] == 0 || keep.sn[s].parent != -1
    ensures Stacked(keep, w', off[s := at], s + 1)
    ensures (if hold then top else top + w'[s]) == WaitingSum(keep, w', if hold then s else s + 1, s + 1)
  {
    StackedNext(keep, w, w', off, at, top, s);
    LastWaits(keep, w', s);
  }

  /** After front s pops its children and leaves a block of q rows, on the stack or held
      for front s + 1, the records describe the stack again. */
  lemma TopsNext(keep: Keep, rec: Records, vAt: int, rAt: int, vTop: int, rTop: int, s: int, q: int, delayed: int, hold: bool)
    requires keep.Tree() && 0 <= s < |keep.sn| && q >= 0
    requires |rec.valueOff| == |rec.rowOff| == |rec.size| == |rec.delayed| == |keep.sn|
    requires Stacked(keep, Areas(rec.size), rec.valueOff, s) && Stacked(keep, rec.size, rec.rowOff, s)
    requires vTop == WaitingSum(keep, Areas(rec.size), s, s + 1) && rTop == WaitingSum(keep, rec.size, s, s + 1)
    requires (hold ==> s + 1 < |keep.sn| && keep.sn[s].parent == s + 1)
    requires q > 0 ==> keep.sn[s].parent != -1 && vAt == vTop && rAt == rTop
    ensures TopsAre(keep, Recorded(rec, s, vAt, rAt, q, delayed), if hold then vTop else vTop + Tri(q),
                    if hold then rTop else rTop + q, s + 1, if hold then s else -1)
  {
    AreasUpdate(rec.size, s, q);
    TopNext(keep, Areas(rec.size), Areas(rec.size[s := q]), rec.valueOff, vAt, vTop, s, hold);
    TopNext(keep, rec.size, rec.size[s := q], rec.rowOff, rAt, rTop, s, hold);
  }

  // A block below the new tops is untouched by the push.
  lemma {:induction false} OnStackKept(vals: seq<real>, vals': seq<real>, ids: seq<int>, ids': seq<int>, b: Block, vOff: int, rOff: int, q: int,
                    vTop: int, rTop: int)
    requires OnStack(vals, ids, b, vOff, rOff, q) && vOff + Tri(q) <= vTop && rOff + q <= rTop
    requires vTop <= |vals| && vTop <= |vals'| && vals'[..vTop] == vals[..vTop]
    requires rTop <= |ids| && rTop <= |ids'| && ids'[..rTop] == ids[..rTop]
    ensures OnStack(vals', ids', b, vOff, rOff, q)
  {
    assert vals'[vOff..vOff + Tri(q)] == vals'[..vTop][vOff..vOff + Tri(q)];
    assert vals[vOff..vOff + Tri(q)] == vals[..vTop][vOff..vOff + Tri(q)];
    assert ids'[rOff..rOff + q] == ids'[..rTop][rOff..rOff + q];
    assert ids[rOff..rOff + q] == ids[..rTop][rOff..rOff + q];
  }

  lemma BelowTop(keep: Keep, w: seq<int>, off: seq<int>, s: int, d: int)
    requires keep.Tree() && 0 <= s < |keep.sn| == |w| && Nonneg(w) && Stacked(keep, w, off, s)
    requires Waiting(keep, d, s + 1) && d < s && w[d] > 0
    ensures off[d] + w[d] <= WaitingSum(keep, w, s, s + 1)
  {
    WaitingNext(keep, w, w, s, d);
    WaitingSumGrows(keep, w, d + 1, s, s + 1);
  }

  lemma StaysOnStack(keep: Keep, vals: seq<real>, vals': seq<real>, ids: seq<int>, ids': seq<int>, rec: Records,
                     bs: seq<Block>, s: int, held: int, vTop: int, rTop: int, d: int)
    requires keep.Tree() && 0 <= s < |keep.sn| && RecordsAre(keep, rec, bs, s) && AllOnStack(keep, vals, ids, rec, bs, s, held)
    requires held >= 0 ==> held < |keep.sn| && keep.sn[held].parent == s
    requires Stacked(keep, Areas(rec.size), rec.valueOff, s) && Stacked(keep, rec.size, rec.rowOff, s)
    requires 0 <= vTop == WaitingSum(keep, Areas(rec.size), s, s + 1) <= |vals| && 0 <= rTop == WaitingSum(keep, rec.size, s, s + 1) <= |ids|
    requires vTop <= |vals'| && vals'[..vTop] == vals[..vTop] && rTop <= |ids'| && ids'[..rTop] == ids[..rTop]
    requires Waiting(keep, d, s + 1) && d < s && rec.size[d] > 0
    ensures OnStack(vals', ids', bs[d], rec.valueOff[d], rec.rowOff[d], rec.size[d])
  {
    WaitingNext(keep, rec.size, rec.size, s, d);
    BelowTop(keep, rec.size, rec.rowOff, s, d);
    BelowTop(keep, Areas(rec.size), rec.valueOff, s, d);
    OnStackKept(vals, vals', ids, ids', bs[d], rec.valueOff[d], rec.rowOff[d], rec.size[d], vTop, rTop);
  }

  /** No waiting block is overwritten before its parent reads it. */
  lemma AllOnStackNext(keep: Keep, vals: seq<real>, vals': seq<real>, ids: seq<int>, ids': seq<int>, rec: Records,
                       bs: seq<Block>, s: int, held: int, vTop: int, rTop: int, nb: Block, vAt: int, rAt: int, q: int, hold: bool)
    requires keep.Tree() && 0 <= s < |keep.sn| && RecordsAre(keep, rec, bs, s) && AllOnStack(keep, vals, ids, rec, bs, s, held)
    requires held >= 0 ==> held < |keep.sn| && keep.sn[held].parent == s
    requires Stacked(keep, Areas(rec.size), rec.valueOff, s) && Stacked(keep, rec.size, rec.rowOff, s)
    requires 0 <= vTop == WaitingSum(keep, Areas(rec.size), s, s + 1) <= |vals| && 0 <= rTop == WaitingSum(keep, rec.size, s, s + 1) <= |ids|
    requires vTop <= |vals'| && vals'[..vTop] == vals[..vTop] && rTop <= |ids'| && ids'[..rTop] == ids[..rTop]
    requires q >= 0 && (keep.sn[s].parent != -1 ==> q == |nb.rows|)
    requires !hold && q > 0 ==> OnStack(vals', ids', nb, vAt, rAt, q)
    requires forall i | 0 <= i < |keep.kids[s]| :: 0 <= keep.kids[s][i] < |bs|
    ensures RecordsAre(keep, Recorded(rec, s, vAt, rAt, q, nb.delayed), Cleared(bs, keep.kids[s])[s := nb], s + 1)
    ensures AllOnStack(keep, vals', ids', Recorded(rec, s, vAt, rAt, q, nb.delayed), Cleared(bs, keep.kids[s])[s := nb],
                       s + 1, if hold then s else -1)
  {
    var rec' := Recorded(rec, s, vAt, rAt, q, nb.delayed);
    var bs' := Cleared(bs, keep.kids[s])[s := nb];
    var s' := s + 1;
    forall d | Waiting(keep, d, s') && d < s
      ensures Waiting(keep, d, s) && bs'[d] == bs[d]
    {
      WaitingNext(keep, rec.size, rec.size, s, d);
    }
    forall d | Waiting(keep, d, s') && d != (if hold then s else -1) && rec'.size[d] > 0
      ensures OnStack(vals', ids', bs'[d], rec'.valueOff[d], rec'.rowOff[d], rec'.size[d])
    {
      if d < s { StaysOnStack(keep, vals, vals', ids, ids', rec, bs, s, held, vTop, rTop, d); }
    }
  }
}
