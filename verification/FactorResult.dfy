/** What a finished run guarantees, and the symbolic plan of the stack's peak. */
module FactorResult {
  import opened Sequences
  import opened Reals
  import opened FrontAlgebra
  import opened SymbolicTree
  import opened PivotChoice
  import opened Inertia
  import opened PivotSigns
  import opened StoredSigns
  import opened QuadraticForms
  import opened Definiteness
  import opened FrontTerms
  import opened FrontAssembly
  import opened ContributionStack
  import opened FrontRows
  import opened FrontLedger
  import opened FrontStore
  import opened SpentBlocks
  import opened GlobalFactor
  import opened ChildBlocks
  import opened Multifrontal

  lemma {:induction false} NothingDelayed(bs: seq<Block>, x: int)
    requires forall d | 0 <= d < |bs| :: bs[d].delayed == 0
    ensures DelayedCount(bs, x) == 0 && DelayedTotal(bs) == 0
    decreases |bs|
  {
    if |bs| > 0 {
      NothingDelayed(bs[..|bs| - 1], x);
      assert DelayedOf(bs[|bs| - 1]) == [];
    }
  }

  lemma NobodyWaits(keep: Analysis, bs: seq<Block>)
    requires BlocksAre(keep, bs, |keep.sn|)
    ensures forall d | 0 <= d < |bs| :: bs[d].delayed == 0
  {
  }

  /** Every column is stored as a pivot exactly once, and the inertia adds up to n. */
  lemma AllPivotsStored(keep: Analysis, cols: seq<seq<Entry>>, prm: Params, steps: seq<Step>, counts: Counts, bs: seq<Block>)
    requires RunKept(keep, cols, prm, steps, counts, bs, |keep.sn|)
    ensures forall x :: PivotCount(steps, x) == Once(0 <= x < keep.n)
    ensures counts.Total() == keep.n
  {
    NobodyWaits(keep, bs);
    forall x
      ensures PivotCount(steps, x) == Once(0 <= x < keep.n)
    {
      NothingDelayed(bs, x);
      assert PivotCount(steps, x) + DelayedCount(bs, x) == Once(0 <= x < keep.Start(|keep.sn|));
    }
    NothingDelayed(bs, 0);
  }

  lemma {:induction false} CountedOnceBefore(steps: seq<Step>, d: int, x: int)
    requires 0 <= d < |steps|
    ensures PivotCount(steps, x) >= Count(PivotsOf(steps[d]), x)
    decreases |steps|
  {
    if d < |steps| - 1 { CountedOnceBefore(steps[..|steps| - 1], d, x); }
  }

  lemma {:induction false} CountedTwice(steps: seq<Step>, d: int, d': int, x: int)
    requires 0 <= d < d' < |steps|
    ensures PivotCount(steps, x) >= Count(PivotsOf(steps[d]), x) + Count(PivotsOf(steps[d']), x)
    decreases |steps|
  {
    var init := steps[..|steps| - 1];
    if d' < |steps| - 1 { CountedTwice(init, d, d', x); } else { CountedOnceBefore(init, d, x); }
  }

  lemma {:induction false} SomeFront(steps: seq<Step>, x: int) returns (d: int)
    requires PivotCount(steps, x) >= 1
    ensures 0 <= d < |steps| && Count(PivotsOf(steps[d]), x) >= 1
    decreases |steps|
  {
    if Count(PivotsOf(steps[|steps| - 1]), x) >= 1 {
      d := |steps| - 1;
    } else {
      d := SomeFront(steps[..|steps| - 1], x);
    }
  }

  /** In a finished run every column is a pivot of exactly one front. */
  lemma ExactlyOneFront(keep: Analysis, cols: seq<seq<Entry>>, prm: Params, steps: seq<Step>, counts: Counts, bs: seq<Block>, x: int)
      returns (d: int)
    requires RunKept(keep, cols, prm, steps, counts, bs, |keep.sn|) && 0 <= x < keep.n
    ensures 0 <= d < |steps| && x in PivotsOf(steps[d])
    ensures forall d' | 0 <= d' < |steps| && d' != d :: x !in PivotsOf(steps[d'])
  {
    AllPivotsStored(keep, cols, prm, steps, counts, bs);
    assert PivotCount(steps, x) == 1;
    d := SomeFront(steps, x);
    CountAbsent(PivotsOf(steps[d]), x);
    forall d' | 0 <= d' < |steps| && d' != d
      ensures x !in PivotsOf(steps[d'])
    {
      CountAbsent(PivotsOf(steps[d']), x);
      CountedTwice(steps, if d < d' then d else d', if d < d' then d' else d, x);
    }
  }

  /** Under threshold pivoting a front delays a column, and a root gives one up, only when no
      unaccepted column of the front has an acceptable pivot left: at any point of a run
      every block left by a finished front is spent. */
  lemma OnlySpentDelayed(keep: Analysis, cols: seq<seq<Entry>>, prm: Params, steps: seq<Step>, counts: Counts, bs: seq<Block>,
                         s: int, d: int, a: int)
    requires RunKept(keep, cols, prm, steps, counts, bs, s) && prm.Threshold() && 0 <= d < s && d < |bs|
    requires 0 <= a < Unaccepted(keep, bs[d], d)
    ensures !Acceptable1(bs[d].m, |bs[d].rows|, 0, a, prm)
    ensures forall r | IsPartner(bs[d].m, a, 0, Unaccepted(keep, bs[d], d), r) :: !Acceptable2(bs[d].m, |bs[d].rows|, 0, a, r, prm)
  {
    assert Spent(bs[d], Unaccepted(keep, bs[d], d), prm);
  }

  // The stored fronts and the residual add up to the original matrix.
  lemma SumsUpToResidual(keep: Analysis, cols: seq<seq<Entry>>, prm: Params, steps: seq<Step>, counts: Counts, bs: seq<Block>,
                         a: int, b: int)
    requires RunKept(keep, cols, prm, steps, counts, bs, |keep.sn|)
    ensures Original(cols, a, b) == StepsSum(steps, a, b) + BlocksSum(bs, a, b)
  {
    assert StepsSum(steps, a, b) == StepsSum(steps, a, b);
    assert ColumnsPart(cols, keep.n, |cols|, a, b) == 0.0;
  }

  // Without a zero pivot at a root there is no residual.
  lemma NoResidual(keep: Analysis, cols: seq<seq<Entry>>, prm: Params, steps: seq<Step>, counts: Counts, bs: seq<Block>,
                   a: int, b: int)
    requires RunKept(keep, cols, prm, steps, counts, bs, |keep.sn|)
    requires forall d | 0 <= d < |steps| :: !HasZeroPivot(steps[d])
    ensures BlocksSum(bs, a, b) == 0.0
  {
    forall d | 0 <= d < |bs|
      ensures bs[d] == EMPTY
    {
      if keep.sn[d].parent == -1 { assert !HasZeroPivot(steps[d]); }
    }
    NoBlocksSum(bs, a, b);
  }

  /** The pivot order of a finished run is a permutation P, L is unit lower triangular and D
      block diagonal in it. */
  ghost predicate Triangular(steps: seq<Step>, n: int) {
    Permutes(PivotOrder(steps), n) && UnitLower(steps) && BlockDiagonal(steps)
  }

  lemma {:induction false} RunIsTriangular(keep: Analysis, cols: seq<seq<Entry>>, prm: Params, steps: seq<Step>, counts: Counts, bs: seq<Block>)
    requires RunKept(keep, cols, prm, steps, counts, bs, |keep.sn|)
    ensures Triangular(steps, keep.n)
  {
    AllPivotsStored(keep, cols, prm, steps, counts, bs);
    OrderPermutes(steps, keep.n);
    FactorIsUnitLower(steps);
    FactorIsBlockDiagonal(steps);
  }

  /** P A P^T is L D L^T plus what the roots gave up on: entry (i, j), in the pivot order. */
  lemma {:induction false} FactorsUpToResidual(keep: Analysis, cols: seq<seq<Entry>>, prm: Params, steps: seq<Step>, counts: Counts, bs: seq<Block>,
                            i: int, j: int)
    requires RunKept(keep, cols, prm, steps, counts, bs, |keep.sn|) && 0 <= i < keep.n && 0 <= j < keep.n
    ensures Triangular(steps, keep.n)
    ensures var order := PivotOrder(steps);
      Original(cols, order[i], order[j]) == FactorLDLt(steps, i, j) + BlocksSum(bs, order[i], order[j])
  {
    RunIsTriangular(keep, cols, prm, steps, counts, bs);
    var a, b := PivotOrder(steps)[i], PivotOrder(steps)[j];
    SumsUpToResidual(keep, cols, prm, steps, counts, bs, a, b);
    StepsAreProduct(steps, a, b);
  }

  // P A P^T == L D L^T.
  ghost predicate Exact(cols: seq<seq<Entry>>, steps: seq<Step>, n: int)
    requires |PivotOrder(steps)| == n
  {
    forall i, j | 0 <= i < n && 0 <= j < n :: Original(cols, PivotOrder(steps)[i], PivotOrder(steps)[j]) == FactorLDLt(steps, i, j)
  }

  /** A run without a zero pivot at a root factors the matrix exactly. */
  lemma {:induction false} FactorsExactly(keep: Analysis, cols: seq<seq<Entry>>, prm: Params, steps: seq<Step>, counts: Counts, bs: seq<Block>)
    requires RunKept(keep, cols, prm, steps, counts, bs, |keep.sn|)
    requires forall d | 0 <= d < |steps| :: !HasZeroPivot(steps[d])
    ensures Triangular(steps, keep.n) && Exact(cols, steps, keep.n)
  {
    RunIsTriangular(keep, cols, prm, steps, counts, bs);
    forall i, j | 0 <= i < keep.n && 0 <= j < keep.n
      ensures Original(cols, PivotOrder(steps)[i], PivotOrder(steps)[j]) == FactorLDLt(steps, i, j)
    {
      FactorsUpToResidual(keep, cols, prm, steps, counts, bs, i, j);
      NoResidual(keep, cols, prm, steps, counts, bs, PivotOrder(steps)[i], PivotOrder(steps)[j]);
    }
  }

  // ---- what the inertia says ----

  ghost function Given(cols: seq<seq<Entry>>): (int, int) -> real {
    (a, b) => Original(cols, a, b)
  }

  // A zero pivot that a root forced is counted.
  lemma {:induction false} NoZeroPivot(keep: Analysis, cols: seq<seq<Entry>>, prm: Params, steps: seq<Step>, counts: Counts, bs: seq<Block>, d: int)
    requires RunKept(keep, cols, prm, steps, counts, bs, |keep.sn|) && counts.zero == 0 && 0 <= d < |steps|
    ensures !HasZeroPivot(steps[d])
  {
    RunSigns(steps, counts, prm);
    if HasZeroPivot(steps[d]) {
      var c :| 0 <= c < steps[d].p && Tag(steps[d].tags, c) == 0;
      ZeroCounted(steps, prm, d, c);
    }
  }

  /** When a run counts no zero eigenvalue, it counts n positive ones exactly when the matrix
      it was given is positive definite. */
  lemma {:induction false} InertiaIsDefinite(keep: Analysis, cols: seq<seq<Entry>>, prm: Params, steps: seq<Step>, counts: Counts, bs: seq<Block>)
    requires RunKept(keep, cols, prm, steps, counts, bs, |keep.sn|) && counts.zero == 0
    ensures counts.positive == keep.n <==> PositiveDefinite(Given(cols), keep.n)
  {
    AllPivotsStored(keep, cols, prm, steps, counts, bs);
    RunIsTriangular(keep, cols, prm, steps, counts, bs);
    RunSigns(steps, counts, prm);
    forall d | 0 <= d < |steps| ensures !HasZeroPivot(steps[d]) { NoZeroPivot(keep, cols, prm, steps, counts, bs, d); }
    forall a, b ensures Given(cols)(a, b) == StepsSum(steps, a, b) {
      SumsUpToResidual(keep, cols, prm, steps, counts, bs, a, b);
      NoResidual(keep, cols, prm, steps, counts, bs, a, b);
    }
    DefiniteInertia(steps, Given(cols), keep.n, prm, counts);
  }

  // P A P^T == L D L^T + what the roots left.
  ghost predicate UpTo(cols: seq<seq<Entry>>, steps: seq<Step>, left: seq<Block>, n: int)
    requires |PivotOrder(steps)| == n
  {
    forall i, j | 0 <= i < n && 0 <= j < n ::
      Original(cols, PivotOrder(steps)[i], PivotOrder(steps)[j])
      == FactorLDLt(steps, i, j) + BlocksSum(left, PivotOrder(steps)[i], PivotOrder(steps)[j])
  }

  // No column that a front could not pass on had an acceptable pivot.
  ghost predicate AllGivenUpSpent(left: seq<Block>, prm: Params) {
    forall d | 0 <= d < |left| :: Spent(left[d], |left[d].rows|, prm)
  }

  lemma {:induction false} LeftSpent(keep: Analysis, cols: seq<seq<Entry>>, prm: Params, steps: seq<Step>, counts: Counts, bs: seq<Block>)
    requires RunKept(keep, cols, prm, steps, counts, bs, |keep.sn|) && prm.Threshold()
    ensures AllGivenUpSpent(bs, prm)
  {
    forall d | 0 <= d < |bs|
      ensures Spent(bs[d], |bs[d].rows|, prm)
    {
      assert Spent(bs[d], Unaccepted(keep, bs[d], d), prm);
      if keep.sn[d].parent != -1 { assert bs[d] == EMPTY; }
    }
  }

  lemma {:induction false} LeftUpTo(keep: Analysis, cols: seq<seq<Entry>>, prm: Params, steps: seq<Step>, counts: Counts, bs: seq<Block>)
    requires RunKept(keep, cols, prm, steps, counts, bs, |keep.sn|) && |PivotOrder(steps)| == keep.n
    ensures UpTo(cols, steps, bs, keep.n)
  {
    forall i, j | 0 <= i < keep.n && 0 <= j < keep.n
      ensures Original(cols, PivotOrder(steps)[i], PivotOrder(steps)[j])
              == FactorLDLt(steps, i, j) + BlocksSum(bs, PivotOrder(steps)[i], PivotOrder(steps)[j])
    {
      FactorsUpToResidual(keep, cols, prm, steps, counts, bs, i, j);
    }
  }

  lemma {:induction false} Finished(keep: Analysis, cols: seq<seq<Entry>>, prm: Params, steps: seq<Step>, counts: Counts, bs: seq<Block>)
    requires RunKept(keep, cols, prm, steps, counts, bs, |keep.sn|)
    ensures |steps| == |keep.sn| && counts.Total() == keep.n && Triangular(steps, keep.n)
    ensures UpTo(cols, steps, bs, keep.n) && (prm.Threshold() ==> AllGivenUpSpent(bs, prm))
    ensures counts == AllSigns(RunPivots(steps), prm)
    ensures counts.zero == 0 ==> (counts.positive == keep.n <==> PositiveDefinite(Given(cols), keep.n))
    ensures (forall d | 0 <= d < |steps| :: !HasZeroPivot(steps[d])) ==> Exact(cols, steps, keep.n)
    ensures prm.Threshold() ==> forall d | 0 <= d < |steps| :: StepBounded(steps[d], prm.u)
  {
    AllPivotsStored(keep, cols, prm, steps, counts, bs);
    RunIsTriangular(keep, cols, prm, steps, counts, bs);
    RunSigns(steps, counts, prm);
    LeftUpTo(keep, cols, prm, steps, counts, bs);
    if prm.Threshold() { LeftSpent(keep, cols, prm, steps, counts, bs); }
    if counts.zero == 0 { InertiaIsDefinite(keep, cols, prm, steps, counts, bs); }
    if forall d | 0 <= d < |steps| :: !HasZeroPivot(steps[d]) { FactorsExactly(keep, cols, prm, steps, counts, bs); }
  }

  /** The serial engine on a whole matrix: a pivot order P of all columns, a unit lower
      triangular L and a block diagonal D; the inertia is that of D's blocks and adds up to
      the order, L obeys the growth bound, and P A P^T is L D L^T plus what the roots left:
      nothing if no zero pivot was forced, and under threshold pivoting only columns without
      an acceptable pivot. Without a zero eigenvalue the inertia tells whether A is positive
      definite. */
  method FactorSerial(keep: Analysis, cols: seq<seq<Entry>>, prm: Params, smallFronts: bool)
      returns (steps: seq<Step>, counts: Counts, ghost left: seq<Block>)
    requires keep.Fits(cols) && prm.Valid() && !prm.posdef
    ensures |steps| == |keep.sn| && counts.Total() == keep.n && Triangular(steps, keep.n)
    ensures UpTo(cols, steps, left, keep.n) && (prm.Threshold() ==> AllGivenUpSpent(left, prm))
    ensures counts == AllSigns(RunPivots(steps), prm)
    ensures counts.zero == 0 ==> (counts.positive == keep.n <==> PositiveDefinite(Given(cols), keep.n))
    ensures (forall d | 0 <= d < |steps| :: !HasZeroPivot(steps[d])) ==> Exact(cols, steps, keep.n)
    ensures prm.Threshold() ==> forall d | 0 <= d < |steps| :: StepBounded(steps[d], prm.u)
  {
    var engine := new Engine(keep, cols, prm, smallFronts);
    engine.Factor();
    steps, counts, left := engine.pass.steps, engine.pass.counts, engine.blocks;
    Finished(keep, cols, prm, steps, counts, left);
  }

  // ---- the planned peak ----

  // Block sizes when no pivot is delayed.
  function PlannedSizes(keep: Analysis): (r: seq<int>)
    ensures |r| == |keep.sn| && Nonneg(r)
    ensures forall d | 0 <= d < |r| :: r[d] == if keep.sn[d].parent >= 0 then |keep.ExtRows(d)| else 0
  {
    seq(|keep.sn|, d requires 0 <= d < |keep.sn| => if keep.sn[d].parent >= 0 then |keep.ExtRows(d)| else 0)
  }

  // The peak of the tops over all fronts up to s.
  ghost predicate PeakIs(keep: Keep, w: seq<int>, s: int, peak: int) {
    && (forall t | 0 <= t <= s :: WaitingSum(keep, w, t, t) <= peak)
    && exists t :: 0 <= t <= s && WaitingSum(keep, w, t, t) == peak
  }

  lemma PeakNext(keep: Keep, w: seq<int>, s: int, peak: int, top: int)
    requires PeakIs(keep, w, s, peak) && 0 <= s && top == WaitingSum(keep, w, s + 1, s + 1)
    ensures PeakIs(keep, w, s + 1, if peak < top then top else peak)
  {
    var t :| 0 <= t <= s && WaitingSum(keep, w, t, t) == peak;
    assert 0 <= t <= s + 1;
    assert 0 <= s + 1 <= s + 1;
  }

  // One front of the plan on one stack: pop its children, push its block.
  lemma PlanStep(keep: Analysis, w: seq<int>, off: seq<int>, s: int, top: int, q: int)
    requires 0 <= s < |keep.sn| == |w| && Nonneg(w) && Stacked(keep, w, off, s) && top == WaitingSum(keep, w, s, s + 1)
    requires q == w[s] && (keep.sn[s].parent < 0 ==> q == 0)
    ensures Stacked(keep, w, if q > 0 then off[s := top] else off, s + 1)
    ensures top + q == WaitingSum(keep, w, s + 1, s + 1)
  {
    TopNext(keep, w, w, off, if q > 0 then top else off[s], top, s, false);
    assert off[s := off[s]] == off;
  }

  datatype Plan = Plan(valueOff: seq<int>, rowOff: seq<int>, size: seq<int>, vtop: int, rtop: int, vpeak: int, rpeak: int)

  // One of the two stacks after the first s fronts of the plan.
  ghost predicate PlanOf(keep: Keep, w: seq<int>, off: seq<int>, top: int, peak: int, s: int) {
    match keep
    case Keep(_, sn, _, _) =>
      |w| == |sn| && Stacked(keep, w, off, s) && top == WaitingSum(keep, w, s, s) && PeakIs(keep, w, s, peak)
  }

  ghost predicate Planned(keep: Analysis, p: Plan, s: int) {
    match p
    case Plan(valueOff, rowOff, size, vtop, rtop, vpeak, rpeak) =>
      && 0 <= s <= |keep.sn| == |size|
      && (forall d | 0 <= d < s :: size[d] == PlannedSizes(keep)[d])
      && PlanOf(keep, Areas(PlannedSizes(keep)), valueOff, vtop, vpeak, s)
      && PlanOf(keep, PlannedSizes(keep), rowOff, rtop, rpeak, s)
  }

  // Pops the children of s off one stack of the plan and pushes q.
  method PlanFrontOn(keep: Analysis, off: seq<int>, size: seq<int>, top: int, peak: int, s: int, q: int, has: bool, ghost w: seq<int>)
      returns (off': seq<int>, top': int, peak': int)
    requires 0 <= s < |keep.sn| && PlanOf(keep, w, off, top, peak, s) && StackBefore(keep, s, off, size, w)
    requires |w| == |keep.sn| && q == w[s] && (has <==> q > 0) && (keep.sn[s].parent < 0 ==> q == 0)
    ensures PlanOf(keep, w, off', top', peak', s + 1)
  {
    top' := PopChildren(keep, s, off, size, top, w, false);
    PlanStep(keep, w, off, s, top', q);
    off' := if has then off[s := top'] else off;
    top' := top' + q;
    PeakNext(keep, w, s, peak, top');
    peak' := if peak < top' then top' else peak;
  }

  lemma PlanReady(keep: Analysis, p: Plan, s: int)
    requires Planned(keep, p, s) && 0 <= s < |keep.sn|
    ensures StackBefore(keep, s, p.valueOff, p.size, Areas(PlannedSizes(keep)))
    ensures StackBefore(keep, s, p.rowOff, p.size, PlannedSizes(keep))
  {
    forall d | Waiting(keep, d, s)
      ensures p.size[d] > 0 <==> Areas(PlannedSizes(keep))[d] > 0
    {
      TriPositive(p.size[d]);
    }
  }

  method PlanFront(keep: Analysis, p: Plan, s: int) returns (p': Plan)
    requires 0 <= s < |keep.sn| && Planned(keep, p, s)
    ensures Planned(keep, p', s + 1)
  {
    ghost var sizes := PlannedSizes(keep);
    PlanReady(keep, p, s);
    var q := |keep.frontRows[s]| - (keep.sn[s].colEnd - keep.sn[s].colStart);
    if keep.sn[s].parent < 0 { q := 0; }
    TriPositive(q);
    var valueOff, vtop, vpeak := PlanFrontOn(keep, p.valueOff, p.size, p.vtop, p.vpeak, s, Tri(q), q > 0, Areas(sizes));
    var rowOff, rtop, rpeak := PlanFrontOn(keep, p.rowOff, p.size, p.rtop, p.rpeak, s, q, q > 0, sizes);
    p' := Plan(valueOff, rowOff, p.size[s := q], vtop, rtop, vpeak, rpeak);
  }

  /** The symbolic stack plan: the peaks of both stacks when no pivot is delayed. */
  method PlanStack(keep: Analysis) returns (p: Plan)
    ensures Planned(keep, p, |keep.sn|)
  {
    var none := seq(|keep.sn|, _ => 0);
    p := Plan(none, none, none, 0, 0, 0, 0);
    for s := 0 to |keep.sn|
      invariant Planned(keep, p, s)
    {
      p := PlanFront(keep, p, s);
    }
  }

  /** Without delays neither stack ever grows past its planned peak. */
  lemma NoDelayPeak(keep: Analysis, cols: seq<seq<Entry>>, prm: Params, p: FrontPass, bs: seq<Block>, s: int, plan: Plan)
    requires PassKept(keep, cols, prm, p, bs, s) && Planned(keep, plan, |keep.sn|)
    requires forall d | Waiting(keep, d, s) :: p.w.rec.delayed[d] == 0
    ensures p.cvTop <= plan.vpeak && p.crTop <= plan.rpeak
  {
    var size, sizes := p.w.rec.size, PlannedSizes(keep);
    forall d | Waiting(keep, d, s)
      ensures size[d] == sizes[d]
    {
      assert WaitingBlock(keep, d, bs[d]);
      assert bs[d].rows[0..] == bs[d].rows;
    }
    WaitingSumSame(keep, size, sizes, s, s, s);
    WaitingSumSame(keep, Areas(size), Areas(sizes), s, s, s);
    var hi := if HeldNode(p.w) >= 0 then s - 1 else s;
    WaitingSumGrows(keep, size, hi, s, s);
    WaitingSumGrows(keep, Areas(size), hi, s, s);
    assert WaitingSum(keep, sizes, s, s) <= plan.rpeak;
    assert WaitingSum(keep, Areas(sizes), s, s) <= plan.vpeak;
  }
}
