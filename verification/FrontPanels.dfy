/** The two forms of the front factorization: right-looking, and in panels with
    deferred updates, a first pass that pulls partners in and a late Schur update. */
module FrontPanels {
  import opened Reals
  import opened FrontAlgebra
  import opened FrontSteps
  import opened PivotChoice
  import opened PivotSearch
  import opened GrowthBound
  import opened FrontUpdates
  import opened RankUpdates
  import opened Inertia
  import opened PivotSigns
  import opened FrontKernel

  // Every eligible column is current at k; the others wait at `first`.
  function Ready(k: int, e: int, first: int): Lag {
    Lag(k, e, k, e, first)
  }

  // Only the stages matter.
  lemma SameStages(A: (int, int) -> real, m: Mat, rows: seq<int>, t: seq<int>, g: Lag, g': Lag, prm: Params, first: int, ds: seq<Pivot>)
    requires Good(A, m, rows, t, g, prm, first, ds)
    requires g'.k == g.k && g'.e == g.e && WellTagged(t, g')
    requires forall j | g.k <= j < |rows| :: Stage(g', j) == Stage(g, j)
    ensures Good(A, m, rows, t, g', prm, first, ds)
  {
    forall i, j | 0 <= j <= i < |rows| ensures EntryLags(A, m, rows, t, g', i, j) {
      assert EntryLags(A, m, rows, t, g, i, j);
    }
  }

  lemma CatchUpKeepsGood(A: (int, int) -> real, m: Mat, m': Mat, rows: seq<int>, t: seq<int>,
                         g: Lag, g': Lag, prm: Params, first: int, ds: seq<Pivot>, lo: int, c0: int, c1: int)
    requires Good(A, m, rows, t, g, prm, first, ds)
    requires g'.k == g.k && g'.e == g.e && g.k <= c0 && 0 <= lo <= g.k
    requires CaughtUp(m, m', t, |rows|, lo, g.k, c0, c1)
    requires forall j | c0 <= j < c1 && j < |rows| :: Stage(g, j) == lo && Stage(g', j) == g.k
    requires forall j | g.k <= j < |rows| && !(c0 <= j < c1) :: Stage(g', j) == Stage(g, j)
    requires WellTagged(t, g')
    ensures Good(A, m', rows, t, g', prm, first, ds)
  {
    CatchUpKeepsLagging(A, m, m', rows, t, g, g', lo, c0, c1);
    CatchUpKeepsPivots(m, m', t, |rows|, lo, g.k, c0, c1);
    if prm.Threshold() {
      forall i, c | first <= c < g.k && c < i < |rows|
        ensures Below(Abs(L(m', t, i, c)), 1.0, prm.u)
      {
        assert Below(Abs(L(m, t, i, c)), 1.0, prm.u);
        assert At(m', i, c) == At(m, i, c);
      }
    }
  }

  // A run of pivots inside the panel [ps, pl): only the panel's columns are updated.
  method RunPanel(F: array2<real>, ps: int, pl: int, e: int, rows: array<int>, tags: array<int>, W: array2<real>,
                  prm: Params, ghost A: (int, int) -> real, ghost first: int, ghost ds: seq<Pivot>)
      returns (k: int, stalled: bool, counts: Counts, ghost ds': seq<Pivot>)
    requires prm.Valid() && F.Length0 == F.Length1 == rows.Length <= tags.Length && rows != tags
    requires W != F && W.Length0 == rows.Length && pl - ps <= W.Length1
    requires Symmetric(A) && 0 <= ps < pl <= e <= rows.Length
    requires Good(A, Snapshot(F), rows[..], tags[..], Ready(ps, e, first), prm, first, ds)
    modifies F, rows, tags, W
    ensures ps <= k <= pl && Counted(counts, k, ps) && Adds(ds, ds', counts, SignsBy(prm))
    ensures Good(A, Snapshot(F), rows[..], tags[..], Lag(k, pl, ps, e, first), prm, first, ds')
    ensures Saved(Snapshot(W), Snapshot(F), tags[..], ps, k, rows.Length)
    ensures PermutedWithin(old(rows[..]), rows[..], ps, e)
    ensures if stalled then k < pl && Select(Snapshot(F), rows.Length, k, e, pl, prm).NoPivot? else k == pl
  {
    k, stalled, counts, ds' := ps, false, NONE, ds;
    AddsNothing(ds, SignsBy(prm));
    SameStages(A, Snapshot(F), rows[..], tags[..], Ready(ps, e, first), Lag(ps, pl, ps, e, first), prm, first, ds);
    while k < pl
      invariant ps <= k <= pl && Counted(counts, k, ps) && Adds(ds, ds', counts, SignsBy(prm))
      invariant Good(A, Snapshot(F), rows[..], tags[..], Lag(k, pl, ps, e, first), prm, first, ds')
      invariant Saved(Snapshot(W), Snapshot(F), tags[..], ps, k, rows.Length)
      invariant PermutedWithin(old(rows[..]), rows[..], ps, e)
    {
      ghost var r := rows[..];
      ghost var more;
      var k', c;
      k', c, more := PanelStep(F, k, ps, pl, e, rows, tags, W, prm, A, first, ds');
      PermutedTrans(old(rows[..]), r, rows[..], ps, e, ps, e);
      if k' == k {
        stalled := true;
        return;
      }
      CountMore(counts, c, k', k, ps);
      AddsMore(ds, ds', more, counts, c, SignsBy(prm));
      ds' := more;
      counts := counts.Plus(c);
      k := k';
    }
  }

  lemma SavedNothing(w: Mat, m: Mat, t: seq<int>, k: int, n: int)
    ensures Saved(w, m, t, k, k, n)
  {
  }

  // The chosen pivot, its columns saved behind those of the pivots from ps on.
  method TakePivot(pc: Choice, F: array2<real>, k: int, rows: array<int>, tags: array<int>, W: array2<real>, wCols: int, ucol: int,
                   prm: Params, ghost A: (int, int) -> real, ghost g: Lag, ghost g': Lag, ghost first: int, ghost ds: seq<Pivot>, ghost limit: int, ghost ps: int)
      returns (k': int, counts: Counts, ghost ds': seq<Pivot>)
    requires prm.Valid() && !pc.NoPivot?
    requires F.Length0 == F.Length1 == rows.Length <= tags.Length && rows != tags && W != F && W.Length0 == rows.Length
    requires 0 <= wCols <= k && wCols + Width(pc) <= W.Length1 && ps == k - wCols
    requires Symmetric(A) && Good(A, Snapshot(F), rows[..], tags[..], g, prm, first, ds) && k == g.k && g'.k == k + Width(pc)
    requires limit <= g.e && Sound(Snapshot(F), rows.Length, k, limit, prm, pc) && (forall j | k <= j < limit :: Stage(g, j) == k)
    requires ucol <= rows.Length && Advanced(g, g', ucol, rows.Length) && Boundary(tags[..], g'.ps)
    requires Saved(Snapshot(W), Snapshot(F), tags[..], ps, k, rows.Length)
    modifies F, rows, tags, W
    ensures k' == g'.k && Counted(counts, k', k) && Adds(ds, ds', counts, SignsBy(prm))
    ensures Good(A, Snapshot(F), rows[..], tags[..], g', prm, first, ds')
    ensures Saved(Snapshot(W), Snapshot(F), tags[..], ps, k', rows.Length)
    ensures PermutedWithin(old(rows[..]), rows[..], k, limit)
  {
    k', counts, ds' := ApplyPivot(pc, F, k, rows, tags, W, true, wCols, ucol, prm, A, g, g', first, ds, limit);
  }

  // One pivot of a panel; k' == k when the selection finds none.
  method PanelStep(F: array2<real>, k: int, ps: int, pl: int, e: int, rows: array<int>, tags: array<int>, W: array2<real>,
                   prm: Params, ghost A: (int, int) -> real, ghost first: int, ghost ds: seq<Pivot>)
      returns (k': int, counts: Counts, ghost ds': seq<Pivot>)
    requires prm.Valid() && F.Length0 == F.Length1 == rows.Length <= tags.Length && rows != tags
    requires W != F && W.Length0 == rows.Length && pl - ps <= W.Length1
    requires Symmetric(A) && 0 <= ps <= k < pl <= e <= rows.Length
    requires Good(A, Snapshot(F), rows[..], tags[..], Lag(k, pl, ps, e, first), prm, first, ds)
    requires Saved(Snapshot(W), Snapshot(F), tags[..], ps, k, rows.Length)
    modifies F, rows, tags, W
    ensures k <= k' <= pl && Counted(counts, k', k) && Adds(ds, ds', counts, SignsBy(prm))
    ensures Good(A, Snapshot(F), rows[..], tags[..], Lag(k', pl, ps, e, first), prm, first, ds')
    ensures Saved(Snapshot(W), Snapshot(F), tags[..], ps, k', rows.Length)
    ensures PermutedWithin(old(rows[..]), rows[..], ps, e)
    ensures k' == k ==> ds' == ds && Select(Snapshot(F), rows.Length, k, e, pl, prm).NoPivot?
  {
    var pc := SelectPivot(F, k, e, pl, prm);
    SelectSound(Snapshot(F), rows.Length, k, e, pl, prm);
    if pc.NoPivot? {
      AddsNothing(ds, SignsBy(prm));
      return k, NONE, ds;
    }
    ghost var g, g' := Lag(k, pl, ps, e, first), Lag(k + Width(pc), pl, ps, e, first);
    k', counts, ds' := TakePivot(pc, F, k, rows, tags, W, k - ps, pl, prm, A, g, g', first, ds, pl, ps);
    PermutedTrans(old(rows[..]), old(rows[..]), rows[..], ps, e, k, pl);
  }

  // One panel: its pivots, then the deferred update of the other eligible columns.
  method Panel(F: array2<real>, ps: int, pl: int, e: int, rows: array<int>, tags: array<int>, W: array2<real>,
               prm: Params, ghost A: (int, int) -> real, ghost first: int, ghost ds: seq<Pivot>)
      returns (k: int, stalled: bool, counts: Counts, ghost ds': seq<Pivot>)
    requires prm.Valid() && F.Length0 == F.Length1 == rows.Length <= tags.Length && rows != tags
    requires W != F && W.Length0 == rows.Length && pl - ps <= W.Length1
    requires Symmetric(A) && 0 <= ps < pl <= e <= rows.Length
    requires Good(A, Snapshot(F), rows[..], tags[..], Ready(ps, e, first), prm, first, ds)
    modifies F, rows, tags, W
    ensures ps <= k <= pl && Counted(counts, k, ps) && Adds(ds, ds', counts, SignsBy(prm))
    ensures Good(A, Snapshot(F), rows[..], tags[..], Ready(k, e, first), prm, first, ds')
    ensures PermutedWithin(old(rows[..]), rows[..], ps, e)
    ensures if stalled then k < pl && Select(Snapshot(F), rows.Length, k, e, pl, prm).NoPivot? else k == pl
  {
    k, stalled, counts, ds' := RunPanel(F, ps, pl, e, rows, tags, W, prm, A, first, ds);
    CatchUp(F, ps, k, pl, e, rows[..], tags[..], W, prm, A, first, ds');
  }

  // The deferred update brings every eligible column to the current pivot.
  method CatchUp(F: array2<real>, ps: int, k: int, pl: int, e: int, ghost rows: seq<int>, ghost t: seq<int>, W: array2<real>,
                 prm: Params, ghost A: (int, int) -> real, ghost first: int, ghost ds: seq<Pivot>)
    requires prm.Valid() && F.Length0 == F.Length1 == |rows| && W != F && W.Length0 == |rows| && k - ps <= W.Length1
    requires 0 <= ps <= k <= pl <= e <= |rows|
    requires Good(A, Snapshot(F), rows, t, Lag(k, pl, ps, e, first), prm, first, ds)
    requires Saved(Snapshot(W), Snapshot(F), t, ps, k, |rows|)
    modifies F
    ensures Good(A, Snapshot(F), rows, t, Ready(k, e, first), prm, first, ds)
    ensures k < pl ==> Select(Snapshot(F), |rows|, k, e, pl, prm) == old(Select(Snapshot(F), |rows|, k, e, pl, prm))
  {
    ghost var m := Snapshot(F);
    DeferredUpdate(F, ps, k, pl, e, W, t);
    BlocksEndAtBoundary(t, k);
    CatchUpKeepsGood(A, m, Snapshot(F), rows, t, Lag(k, pl, ps, e, first), Ready(k, e, first), prm, first, ds, ps, pl, e);
    if k < pl {
      SelectReadsOnlyCurrent(m, Snapshot(F), |rows|, k, e, pl, prm);
    }
  }

  // One selection over every eligible column, all current: handles pivots across
  // panels. k' == k when there is none.
  method SearchAll(F: array2<real>, k: int, e: int, rows: array<int>, tags: array<int>, W: array2<real>,
                   prm: Params, ghost A: (int, int) -> real, ghost first: int, ghost ds: seq<Pivot>)
      returns (k': int, counts: Counts, ghost ds': seq<Pivot>)
    requires prm.Valid() && F.Length0 == F.Length1 == rows.Length <= tags.Length && rows != tags
    requires W != F && W.Length0 == rows.Length && 2 <= W.Length1
    requires Symmetric(A) && 0 <= k < e <= rows.Length
    requires Good(A, Snapshot(F), rows[..], tags[..], Ready(k, e, first), prm, first, ds)
    modifies F, rows, tags, W
    ensures k <= k' <= e && Counted(counts, k', k) && Adds(ds, ds', counts, SignsBy(prm))
    ensures Good(A, Snapshot(F), rows[..], tags[..], Ready(k', e, first), prm, first, ds')
    ensures PermutedWithin(old(rows[..]), rows[..], k, e)
    ensures k' == k ==> Select(Snapshot(F), rows.Length, k, e, e, prm).NoPivot?
  {
    k', counts, ds' := SearchStep(F, k, e, rows, tags, W, prm, A, first, ds);
    if k' != k {
      CatchUp(F, k, k', k', e, rows[..], tags[..], W, prm, A, first, ds');
    }
  }

  // The search's pivot, eliminated without touching the other columns.
  method SearchStep(F: array2<real>, k: int, e: int, rows: array<int>, tags: array<int>, W: array2<real>,
                    prm: Params, ghost A: (int, int) -> real, ghost first: int, ghost ds: seq<Pivot>)
      returns (k': int, counts: Counts, ghost ds': seq<Pivot>)
    requires prm.Valid() && F.Length0 == F.Length1 == rows.Length <= tags.Length && rows != tags
    requires W != F && W.Length0 == rows.Length && 2 <= W.Length1
    requires Symmetric(A) && 0 <= k < e <= rows.Length
    requires Good(A, Snapshot(F), rows[..], tags[..], Ready(k, e, first), prm, first, ds)
    modifies F, rows, tags, W
    ensures k <= k' <= e && k' <= k + 2 && Counted(counts, k', k) && Adds(ds, ds', counts, SignsBy(prm))
    ensures k' != k ==> Good(A, Snapshot(F), rows[..], tags[..], Lag(k', k', k, e, first), prm, first, ds')
    ensures k' != k ==> Saved(Snapshot(W), Snapshot(F), tags[..], k, k', rows.Length)
    ensures PermutedWithin(old(rows[..]), rows[..], k, e)
    ensures k' == k ==> ds' == ds && Good(A, Snapshot(F), rows[..], tags[..], Ready(k, e, first), prm, first, ds)
    ensures k' == k ==> Select(Snapshot(F), rows.Length, k, e, e, prm).NoPivot?
  {
    var pc := SelectPivot(F, k, e, e, prm);
    SelectSound(Snapshot(F), rows.Length, k, e, e, prm);
    if pc.NoPivot? {
      AddsNothing(ds, SignsBy(prm));
      return k, NONE, ds;
    }
    BlocksEndAtBoundary(tags[..], k);
    ghost var g := Lag(k + Width(pc), k + Width(pc), k, e, first);
    SavedNothing(Snapshot(W), Snapshot(F), tags[..], k, rows.Length);
    k', counts, ds' := TakePivot(pc, F, k, rows, tags, W, 0, k, prm, A, Ready(k, e, first), g, first, ds, e, k);
    assert g == Lag(k', k', k, e, first);
  }
}
