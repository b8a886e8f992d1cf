/** The front kernel: threshold LDL^T of the fully summed columns of a front, right
    looking or in panels. */
module FrontKernel {
  import opened Reals
  import opened FrontAlgebra
  import opened FrontSteps
  import opened PivotChoice
  import opened PivotSearch
  import opened GrowthBound
  import opened FrontUpdates
  import opened RankUpdates
  import opened Inertia
  import opened PivotSigns

  // Only positions [lo, hi) exchanged their entries.
  ghost predicate PermutedWithin(r0: seq<int>, r1: seq<int>, lo: int, hi: int) {
    && |r0| == |r1| && multiset(r0) == multiset(r1)
    && forall i | 0 <= i < |r0| && !(lo <= i < hi) :: r1[i] == r0[i]
  }

  lemma SwapPermutes(r0: seq<int>, r1: seq<int>, r2: seq<int>, lo: int, hi: int, p: int, q: int)
    requires PermutedWithin(r0, r1, lo, hi) && 0 <= p < |r1| && 0 <= q < |r1| && RowsSwapped(r1, r2, p, q)
    requires lo <= p < hi && lo <= q < hi
    ensures PermutedWithin(r0, r2, lo, hi)
  {
  }

  lemma PermutedTrans(r0: seq<int>, r1: seq<int>, r2: seq<int>, lo: int, hi: int, lo': int, hi': int)
    requires PermutedWithin(r0, r1, lo, hi) && PermutedWithin(r1, r2, lo', hi') && lo <= lo' && hi' <= hi
    ensures PermutedWithin(r0, r2, lo, hi)
  {
  }

  /** What every step of the kernel keeps: the lagging relation, the pivot blocks taken so
      far and, under threshold pivoting, the growth bound on the columns from `first`. */
  ghost predicate Good(A: (int, int) -> real, m: Mat, rows: seq<int>, t: seq<int>, g: Lag, prm: Params, first: int, ds: seq<Pivot>) {
    && Lagging(A, m, rows, t, g) && ds == DiagonalOf(m, t, g.k)
    && 0 <= first <= g.k
    && (prm.Threshold() ==> Bounded(m, t, prm.u, first, g.k, |rows|))
  }

  function Width(pc: Choice): int {
    match pc case NoPivot => 0 case One(_) => 1 case Two(_, _) => 2
  }

  function Tagged(t: seq<int>, k: int, pc: Choice): seq<int>
    requires 0 <= k && k + Width(pc) <= |t|
  {
    match pc
    case NoPivot => t
    case One(_) => t[k := ONE]
    case Two(_, _) => t[k := FIRST][k + 1 := SECOND]
  }

  lemma SwapKeepsGood(A: (int, int) -> real, m: Mat, m': Mat, rows: seq<int>, rows': seq<int>, t: seq<int>, g: Lag,
                      prm: Params, first: int, ds: seq<Pivot>, p: int, q: int)
    requires Symmetric(A) && Good(A, m, rows, t, g, prm, first, ds)
    requires g.k <= p <= q < |rows| && Level(g, p, q)
    requires Swapped(m, m', |rows|, p, q) && RowsSwapped(rows, rows', p, q)
    ensures Good(A, m', rows', t, g, prm, first, ds)
  {
    SwapKeepsLagging(A, m, m', rows, rows', t, g, p, q);
    SwapKeepsPivots(m, m', t, |rows|, g.k, p, q);
    if prm.Threshold() {
      SwapKeepsBounded(m, m', t, prm.u, first, g.k, |rows|, p, q);
    }
  }

  lemma Eliminate1KeepsGood(A: (int, int) -> real, m: Mat, m': Mat, rows: seq<int>, t: seq<int>, t': seq<int>,
                            g: Lag, g': Lag, prm: Params, first: int, ds: seq<Pivot>, ucol: int, inv: real)
    requires Good(A, m, rows, t, g, prm, first, ds)
    requires g'.k == g.k + 1 && Advanced(g, g', ucol, |rows|) && Boundary(t, g'.ps)
    requires t' == t[g.k := ONE] && Eliminated1(m, m', |rows|, g.k, ucol, inv)
    requires prm.Threshold() ==> Acceptable1(m, |rows|, g.k, g.k, prm)
    ensures Good(A, m', rows, t', g', prm, first, ds + [Single(At(m, g.k, g.k))])
  {
    Eliminate1KeepsLagging(A, m, m', rows, t, t', g, g', ucol, inv);
    Eliminate1Pivots(m, m', t, |rows|, g.k, ucol, inv);
    if prm.Threshold() {
      Bounded1(m, m', t, t', |rows|, g.k, first, ucol, inv, prm);
    }
  }

  lemma Eliminate2KeepsGood(A: (int, int) -> real, m: Mat, m': Mat, rows: seq<int>, t: seq<int>, t': seq<int>,
                            g: Lag, g': Lag, prm: Params, first: int, ds: seq<Pivot>, ucol: int, v: Inverse, bt: BlockTest)
    requires prm.Valid() && Good(A, m, rows, t, g, prm, first, ds)
    requires g'.k == g.k + 2 && Advanced(g, g', ucol, |rows|) && Boundary(t, g'.ps)
    requires t' == t[g.k := FIRST][g.k + 1 := SECOND] && Eliminated2(m, m', |rows|, g.k, ucol, v)
    requires ScaledFrom(At(m, g.k, g.k), At(m, g.k + 1, g.k), At(m, g.k + 1, g.k + 1), v)
    requires BlockAt(m, |rows|, g.k, g.k, g.k + 1, bt) && bt.Passes(prm)
    ensures Good(A, m', rows, t', g', prm, first, ds + [Double(At(m, g.k, g.k), At(m, g.k + 1, g.k), At(m, g.k + 1, g.k + 1))])
  {
    Eliminate2KeepsLagging(A, m, m', rows, t, t', g, g', ucol, v);
    Eliminate2Pivots(m, m', t, |rows|, g.k, ucol, v);
    if prm.Threshold() {
      Bounded2(m, m', t, t', |rows|, g.k, first, ucol, v, bt, prm);
    }
  }

  // Both the relation and the saved columns after a 2x2 elimination.
  lemma Taken2(A: (int, int) -> real, m: Mat, m': Mat, w: Mat, w': Mat, rows: seq<int>, t: seq<int>, t': seq<int>, g: Lag, g': Lag,
               prm: Params, first: int, ds: seq<Pivot>, ucol: int, v: Inverse, bt: BlockTest, save: bool, ps: int)
    requires prm.Valid() && Good(A, m, rows, t, g, prm, first, ds)
    requires g'.k == g.k + 2 && Advanced(g, g', ucol, |rows|) && Boundary(t, g'.ps)
    requires t' == t[g.k := FIRST][g.k + 1 := SECOND] && Eliminated2(m, m', |rows|, g.k, ucol, v)
    requires ScaledFrom(At(m, g.k, g.k), At(m, g.k + 1, g.k), At(m, g.k + 1, g.k + 1), v)
    requires BlockAt(m, |rows|, g.k, g.k, g.k + 1, bt) && bt.Passes(prm)
    requires save ==> 0 <= ps <= g.k && Saved(w, m, t, ps, g.k, |rows|) && KeptColumns(w, w', m, |rows|, g.k, 2, g.k - ps)
    ensures Good(A, m', rows, t', g', prm, first, ds + [Double(bt.d00, bt.d10, bt.d11)])
    ensures save ==> Saved(w', m', t', ps, g.k + 2, |rows|)
  {
    Eliminate2KeepsGood(A, m, m', rows, t, t', g, g', prm, first, ds, ucol, v, bt);
    if save { SavedAfter2(w, w', m, m', t, t', |rows|, ps, g.k, ucol, v); }
  }

  // A symmetric swap of two current positions, with the saved columns following.
  method Bring(F: array2<real>, p: int, q: int, rows: array<int>, ghost t: seq<int>, W: array2<real>, wCols: int,
               prm: Params, ghost A: (int, int) -> real, ghost g: Lag, ghost first: int, ghost ds: seq<Pivot>)
    requires F.Length0 == F.Length1 == rows.Length && W != F && W.Length0 == rows.Length && 0 <= wCols <= W.Length1
    requires Symmetric(A) && Good(A, Snapshot(F), rows[..], t, g, prm, first, ds)
    requires g.k <= p <= q < rows.Length && Level(g, p, q)
    requires wCols <= g.k && Saved(Snapshot(W), Snapshot(F), t, g.k - wCols, g.k, rows.Length)
    modifies F, rows, W
    ensures Good(A, Snapshot(F), rows[..], t, g, prm, first, ds)
    ensures Saved(Snapshot(W), Snapshot(F), t, g.k - wCols, g.k, rows.Length)
    ensures Swapped(old(Snapshot(F)), Snapshot(F), rows.Length, p, q)
    ensures RowsSwapped(old(rows[..]), rows[..], p, q)
  {
    ghost var m0, r0, w0 := Snapshot(F), rows[..], Snapshot(W);
    SymSwap(F, p, q, rows, W, wCols);
    SwapKeepsGood(A, m0, Snapshot(F), r0, rows[..], t, g, prm, first, ds, p, q);
    SwapKeepsSaved(w0, Snapshot(W), m0, Snapshot(F), t, rows.Length, g.k - wCols, g.k, p, q);
  }

  // Eliminates the 1x1 pivot in place at g.k.
  method Take1(F: array2<real>, ucol: int, ghost rows: seq<int>, ghost t: seq<int>, W: array2<real>, save: bool, w: int,
               prm: Params, k: int, ghost A: (int, int) -> real, ghost g: Lag, ghost g': Lag, ghost first: int, ghost ds: seq<Pivot>)
    requires F.Length0 == F.Length1 == |rows| && W != F && W.Length0 == |rows| && (save ==> 0 <= w < W.Length1)
    requires Good(A, Snapshot(F), rows, t, g, prm, first, ds) && k == g.k < g.e && g'.k == k + 1
    requires ucol <= |rows| && Advanced(g, g', ucol, |rows|) && Boundary(t, g'.ps)
    requires F[k, k] != 0.0
    requires prm.Threshold() ==> Acceptable1(Snapshot(F), |rows|, k, k, prm)
    requires save ==> w <= k && Saved(Snapshot(W), Snapshot(F), t, k - w, k, |rows|)
    modifies F, W
    ensures Good(A, Snapshot(F), rows, t[k := ONE], g', prm, first, ds + [Single(old(F[k, k]))])
    ensures save ==> Saved(Snapshot(W), Snapshot(F), t[k := ONE], k - w, k + 1, |rows|)
  {
    ghost var m0, w0 := Snapshot(F), Snapshot(W);
    ghost var inv := Eliminate1x1(F, k, ucol, W, save, w);
    Eliminate1KeepsGood(A, m0, Snapshot(F), rows, t, t[k := ONE], g, g', prm, first, ds, ucol, inv);
    if save {
      SavedAfter1(w0, Snapshot(W), m0, Snapshot(F), t, t[k := ONE], |rows|, k - w, k, ucol, inv);
    }
  }

  // The elimination of a tested block, its unscaled columns saved.
  method TakeBlock(F: array2<real>, k: int, ucol: int, W: array2<real>, save: bool, w: int, prm: Params, ghost bt: BlockTest)
      returns (ghost v: Inverse)
    requires prm.Valid() && F.Length0 == F.Length1 && 0 <= k && k + 1 < F.Length0 && ucol <= F.Length0
    requires W != F && W.Length0 == F.Length0 && (save ==> 0 <= w && w + 1 < W.Length1)
    requires BlockAt(Snapshot(F), F.Length0, k, k, k + 1, bt) && bt.Passes(prm)
    modifies F, W
    ensures Eliminated2(old(Snapshot(F)), Snapshot(F), F.Length0, k, ucol, v)
    ensures ScaledFrom(old(At(Snapshot(F), k, k)), old(At(Snapshot(F), k + 1, k)), old(At(Snapshot(F), k + 1, k + 1)), v)
    ensures save ==> KeptColumns(old(Snapshot(W)), Snapshot(W), old(Snapshot(F)), F.Length0, k, 2, w)
  {
    assert F[k, k] == bt.d00 && F[k + 1, k] == bt.d10 && F[k + 1, k + 1] == bt.d11;
    v := Eliminate2x2(F, k, ucol, W, save, w);
  }

  // Eliminates the 2x2 pivot in place at (g.k, g.k + 1).
  method Take2(F: array2<real>, ucol: int, ghost rows: seq<int>, ghost t: seq<int>, W: array2<real>, save: bool, w: int,
               prm: Params, k: int, ghost A: (int, int) -> real, ghost g: Lag, ghost g': Lag, ghost first: int, ghost ds: seq<Pivot>,
               ghost bt: BlockTest)
    requires prm.Valid()
    requires F.Length0 == F.Length1 == |rows| && W != F && W.Length0 == |rows| && (save ==> 0 <= w && w + 1 < W.Length1)
    requires Good(A, Snapshot(F), rows, t, g, prm, first, ds) && k == g.k && k + 1 < g.e && g'.k == k + 2
    requires ucol <= |rows| && Advanced(g, g', ucol, |rows|) && Boundary(t, g'.ps)
    requires BlockAt(Snapshot(F), |rows|, k, k, k + 1, bt) && bt.Passes(prm)
    requires save ==> w <= k && Saved(Snapshot(W), Snapshot(F), t, k - w, k, |rows|)
    modifies F, W
    ensures Good(A, Snapshot(F), rows, t[k := FIRST][k + 1 := SECOND], g', prm, first, ds + [Double(bt.d00, bt.d10, bt.d11)])
    ensures save ==> Saved(Snapshot(W), Snapshot(F), t[k := FIRST][k + 1 := SECOND], k - w, k + 2, |rows|)
  {
    ghost var m0, w0 := Snapshot(F), Snapshot(W);
    ghost var v := TakeBlock(F, k, ucol, W, save, w, prm, bt);
    Taken2(A, m0, Snapshot(F), w0, Snapshot(W), rows, t, t[k := FIRST][k + 1 := SECOND], g, g', prm, first, ds, ucol, v, bt, save, k - w);
  }

  // Brings the chosen 1x1 pivot to k.
  method BringSingle(pc: Choice, F: array2<real>, k: int, rows: array<int>, ghost t: seq<int>, W: array2<real>, wCols: int, prm: Params,
                     ghost A: (int, int) -> real, ghost g: Lag, ghost first: int, ghost ds: seq<Pivot>, ghost limit: int)
    requires prm.Valid()
    requires F.Length0 == F.Length1 == rows.Length && W != F && W.Length0 == rows.Length && 0 <= wCols <= k && wCols <= W.Length1
    requires Symmetric(A) && Good(A, Snapshot(F), rows[..], t, g, prm, first, ds) && k == g.k
    requires limit <= g.e && Sound(Snapshot(F), rows.Length, k, limit, prm, pc) && pc.One? && (forall j | k <= j < limit :: Stage(g, j) == k)
    requires Saved(Snapshot(W), Snapshot(F), t, k - wCols, k, rows.Length)
    modifies F, rows, W
    ensures Good(A, Snapshot(F), rows[..], t, g, prm, first, ds)
    ensures Saved(Snapshot(W), Snapshot(F), t, k - wCols, k, rows.Length)
    ensures F[k, k] != 0.0 && (prm.Threshold() ==> Acceptable1(Snapshot(F), rows.Length, k, k, prm))
    ensures PermutedWithin(old(rows[..]), rows[..], k, limit)
  {
    ghost var r0, m0 := rows[..], Snapshot(F);
    Bring(F, k, pc.a, rows, t, W, wCols, prm, A, g, first, ds);
    SwapPermutes(r0, r0, rows[..], k, limit, k, pc.a);
    assert F[k, k] == Sym(m0, pc.a, pc.a) by { assert At(Snapshot(F), k, k) == Sym(m0, pc.a, pc.a); }
    if prm.Threshold() { SwapMovesOne(m0, Snapshot(F), rows.Length, k, pc.a, prm); }
  }

  // One swap on the way of the 2x2 pivot (a, b) to (k, k + 1), which puts it at (a', b').
  method BringBlock(p: int, q: int, F: array2<real>, k: int, rows: array<int>, ghost t: seq<int>, W: array2<real>,
                    wCols: int, prm: Params, ghost A: (int, int) -> real, ghost g: Lag, ghost first: int, ghost ds: seq<Pivot>,
                    ghost limit: int, ghost r0: seq<int>, ghost a: int, ghost b: int, ghost a': int, ghost b': int, ghost bt: BlockTest)
    requires F.Length0 == F.Length1 == rows.Length && W != F && W.Length0 == rows.Length && 0 <= wCols <= k && wCols <= W.Length1
    requires Symmetric(A) && Good(A, Snapshot(F), rows[..], t, g, prm, first, ds) && k == g.k
    requires k <= p <= q < limit <= g.e && (forall j | k <= j < limit :: Stage(g, j) == k)
    requires Saved(Snapshot(W), Snapshot(F), t, k - wCols, k, rows.Length)
    requires k <= a < limit && k <= b < limit && BlockAt(Snapshot(F), rows.Length, k, a, b, bt)
    requires a' == Swap(p, q, a) && b' == Swap(p, q, b) && PermutedWithin(r0, rows[..], k, limit)
    modifies F, rows, W
    ensures Good(A, Snapshot(F), rows[..], t, g, prm, first, ds)
    ensures Saved(Snapshot(W), Snapshot(F), t, k - wCols, k, rows.Length)
    ensures BlockAt(Snapshot(F), rows.Length, k, a', b', bt)
    ensures PermutedWithin(r0, rows[..], k, limit)
  {
    ghost var m0, r1 := Snapshot(F), rows[..];
    Bring(F, p, q, rows, t, W, wCols, prm, A, g, first, ds);
    SwapPermutes(r0, r1, rows[..], k, limit, p, q);
    SwapMovesTwo(m0, Snapshot(F), rows.Length, k, p, q, a, b, bt);
  }

  // The places of a chosen pair on its way to (k, k + 1), and its test.
  lemma PairFits(m: Mat, f: int, k: int, limit: int, a: int, b: int, prm: Params) returns (bt: BlockTest)
    requires prm.Valid() && Sound(m, f, k, limit, prm, Two(a, b)) && 0 <= k
    ensures k <= a < limit && k <= b < limit && k + 1 < limit
    ensures BlockAt(m, f, k, a, b, bt) && bt.Passes(prm)
    ensures var partner := if b == k then a else b;
      k + 1 <= partner < limit && Swap(k, a, a) == k && Swap(k, a, b) == partner && Swap(k + 1, partner, k) == k
  {
    bt := TwoOkBounds(m, f, k, a, b, prm);
  }

  // Brings the chosen 2x2 pivot to (k, k + 1).
  method BringPair(pc: Choice, F: array2<real>, k: int, rows: array<int>, ghost t: seq<int>, W: array2<real>,
                   wCols: int, prm: Params, ghost A: (int, int) -> real, ghost g: Lag, ghost first: int, ghost ds: seq<Pivot>, ghost limit: int)
      returns (ghost bt: BlockTest)
    requires prm.Valid()
    requires F.Length0 == F.Length1 == rows.Length && W != F && W.Length0 == rows.Length && 0 <= wCols <= k && wCols <= W.Length1
    requires Symmetric(A) && Good(A, Snapshot(F), rows[..], t, g, prm, first, ds) && k == g.k
    requires limit <= g.e && Sound(Snapshot(F), rows.Length, k, limit, prm, pc) && pc.Two? && (forall j | k <= j < limit :: Stage(g, j) == k)
    requires Saved(Snapshot(W), Snapshot(F), t, k - wCols, k, rows.Length)
    modifies F, rows, W
    ensures Good(A, Snapshot(F), rows[..], t, g, prm, first, ds)
    ensures Saved(Snapshot(W), Snapshot(F), t, k - wCols, k, rows.Length)
    ensures BlockAt(Snapshot(F), rows.Length, k, k, k + 1, bt) && bt.Passes(prm)
    ensures PermutedWithin(old(rows[..]), rows[..], k, limit)
  {
    ghost var r0 := rows[..];
    bt := PairFits(Snapshot(F), rows.Length, k, limit, pc.a, pc.b, prm);
    var partner := if pc.b == k then pc.a else pc.b;
    BringBlock(k, pc.a, F, k, rows, t, W, wCols, prm, A, g, first, ds, limit, r0, pc.a, pc.b, k, partner, bt);
    BringBlock(k + 1, partner, F, k, rows, t, W, wCols, prm, A, g, first, ds, limit, r0, k, partner, k, k + 1, bt);
  }

  // Swaps the chosen 1x1 pivot into place, eliminates it and records its tag.
  method Apply1(pc: Choice, F: array2<real>, k: int, rows: array<int>, tags: array<int>, W: array2<real>, save: bool,
                wCols: int, ucol: int, prm: Params,
                ghost A: (int, int) -> real, ghost g: Lag, ghost g': Lag, ghost first: int, ghost ds: seq<Pivot>, ghost limit: int)
      returns (counts: Counts, ghost ds': seq<Pivot>)
    requires prm.Valid()
    requires F.Length0 == F.Length1 == rows.Length <= tags.Length && rows != tags && W != F && W.Length0 == rows.Length
    requires 0 <= wCols <= k && wCols <= W.Length1 && (save ==> wCols < W.Length1) && (!save ==> wCols == 0)
    requires Symmetric(A) && Good(A, Snapshot(F), rows[..], tags[..], g, prm, first, ds) && k == g.k && g'.k == k + 1
    requires limit <= g.e && Sound(Snapshot(F), rows.Length, k, limit, prm, pc) && pc.One? && (forall j | k <= j < limit :: Stage(g, j) == k)
    requires ucol <= rows.Length && Advanced(g, g', ucol, rows.Length) && Boundary(tags[..], g'.ps)
    requires Saved(Snapshot(W), Snapshot(F), tags[..], k - wCols, k, rows.Length)
    modifies F, rows, tags, W
    ensures counts.Total() == 1 && Adds(ds, ds', counts, SignsBy(prm))
    ensures Good(A, Snapshot(F), rows[..], tags[..], g', prm, first, ds')
    ensures save ==> Saved(Snapshot(W), Snapshot(F), tags[..], k - wCols, k + 1, rows.Length)
    ensures PermutedWithin(old(rows[..]), rows[..], k, limit) && tags[..] == old(tags[..])[k := ONE]
  {
    ghost var t := tags[..];
    BringSingle(pc, F, k, rows, t, W, wCols, prm, A, g, first, ds, limit);
    counts := CountSingle(F[k, k], prm);
    ds' := ds + [Single(F[k, k])];
    AddsOne(ds, Single(F[k, k]), counts, SignsBy(prm));
    Take1(F, ucol, rows[..], t, W, save, wCols, prm, k, A, g, g', first, ds);
    tags[k] := ONE;
    assert tags[..] == t[k := ONE];
  }

  // Swaps the chosen 2x2 pivot to (k, k + 1), eliminates it and records its tags.
  method Apply2(pc: Choice, F: array2<real>, k: int, rows: array<int>, tags: array<int>, W: array2<real>, save: bool,
                wCols: int, ucol: int, prm: Params,
                ghost A: (int, int) -> real, ghost g: Lag, ghost g': Lag, ghost first: int, ghost ds: seq<Pivot>, ghost limit: int)
      returns (counts: Counts, ghost ds': seq<Pivot>)
    requires prm.Valid()
    requires F.Length0 == F.Length1 == rows.Length <= tags.Length && rows != tags && W != F && W.Length0 == rows.Length
    requires 0 <= wCols <= k && wCols <= W.Length1 && (save ==> wCols + 1 < W.Length1) && (!save ==> wCols == 0) && k + 1 < rows.Length
    requires Symmetric(A) && Good(A, Snapshot(F), rows[..], tags[..], g, prm, first, ds) && k == g.k && g'.k == k + 2
    requires limit <= g.e && Sound(Snapshot(F), rows.Length, k, limit, prm, pc) && pc.Two? && (forall j | k <= j < limit :: Stage(g, j) == k)
    requires ucol <= rows.Length && Advanced(g, g', ucol, rows.Length) && Boundary(tags[..], g'.ps)
    requires Saved(Snapshot(W), Snapshot(F), tags[..], k - wCols, k, rows.Length)
    modifies F, rows, tags, W
    ensures counts.Total() == 2 && Adds(ds, ds', counts, SignsBy(prm))
    ensures Good(A, Snapshot(F), rows[..], tags[..], g', prm, first, ds')
    ensures save ==> Saved(Snapshot(W), Snapshot(F), tags[..], k - wCols, k + 2, rows.Length)
    ensures PermutedWithin(old(rows[..]), rows[..], k, limit) && tags[..] == old(tags[..])[k := FIRST][k + 1 := SECOND]
  {
    ghost var t := tags[..];
    ghost var bt := BringPair(pc, F, k, rows, t, W, wCols, prm, A, g, first, ds, limit);
    counts := CountPair(F, k, bt, prm);
    ds' := ds + [Double(bt.d00, bt.d10, bt.d11)];
    AddsOne(ds, Double(bt.d00, bt.d10, bt.d11), counts, SignsBy(prm));
    Take2(F, ucol, rows[..], t, W, save, wCols, prm, k, A, g, g', first, ds, bt);
    tags[k] := FIRST;
    tags[k + 1] := SECOND;
    assert tags[..] == t[k := FIRST][k + 1 := SECOND];
  }

  method CountSingle(d: real, prm: Params) returns (counts: Counts)
    ensures counts == SignsBy(prm)(Single(d)) && counts.Total() == 1
  {
    counts := Count1x1(d, prm.effSmall);
  }

  // The inertia of the block at (k, k + 1).
  method CountPair(F: array2<real>, k: int, ghost bt: BlockTest, prm: Params) returns (counts: Counts)
    requires F.Length0 == F.Length1 && 0 <= k && k + 1 < F.Length0
    requires BlockAt(Snapshot(F), F.Length0, k, k, k + 1, bt)
    ensures counts == SignsBy(prm)(Double(bt.d00, bt.d10, bt.d11)) && counts.Total() == 2
  {
    counts := Count2x2(F[k, k], F[k + 1, k], F[k + 1, k + 1], prm.smallPivot);
  }

  /** Accepts the chosen pivot at position k: swaps it into place, records its tag and
      inertia and eliminates it. */
  method ApplyPivot(pc: Choice, F: array2<real>, k: int, rows: array<int>, tags: array<int>, W: array2<real>, save: bool,
                    wCols: int, ucol: int, prm: Params,
                    ghost A: (int, int) -> real, ghost g: Lag, ghost g': Lag, ghost first: int, ghost ds: seq<Pivot>, ghost limit: int)
      returns (k': int, counts: Counts, ghost ds': seq<Pivot>)
    requires prm.Valid() && !pc.NoPivot?
    requires F.Length0 == F.Length1 == rows.Length <= tags.Length && rows != tags && W != F && W.Length0 == rows.Length
    requires 0 <= wCols <= k && wCols <= W.Length1 && (save ==> wCols + Width(pc) <= W.Length1) && (!save ==> wCols == 0)
    requires Symmetric(A) && Good(A, Snapshot(F), rows[..], tags[..], g, prm, first, ds) && k == g.k && g'.k == k + Width(pc)
    requires limit <= g.e && Sound(Snapshot(F), rows.Length, k, limit, prm, pc) && (forall j | k <= j < limit :: Stage(g, j) == k)
    requires ucol <= rows.Length && Advanced(g, g', ucol, rows.Length) && Boundary(tags[..], g'.ps)
    requires Saved(Snapshot(W), Snapshot(F), tags[..], k - wCols, k, rows.Length)
    modifies F, rows, tags, W
    ensures k' == g'.k && Counted(counts, k', k) && Adds(ds, ds', counts, SignsBy(prm))
    ensures Good(A, Snapshot(F), rows[..], tags[..], g', prm, first, ds')
    ensures save ==> Saved(Snapshot(W), Snapshot(F), tags[..], k - wCols, k', rows.Length)
    ensures PermutedWithin(old(rows[..]), rows[..], k, limit)
    ensures tags[..] == Tagged(old(tags[..]), k, pc)
  {
    match pc
    case One(_) =>
      counts, ds' := Apply1(pc, F, k, rows, tags, W, save, wCols, ucol, prm, A, g, g', first, ds, limit);
      k' := k + 1;
    case Two(_, _) =>
      counts, ds' := Apply2(pc, F, k, rows, tags, W, save, wCols, ucol, prm, A, g, g', first, ds, limit);
      k' := k + 2;
  }
}
