/** Entry point of the front kernel: the unblocked loop on small fronts, panels on
    the others. */
module FrontFactor {
  import opened Sequences
  import opened Reals
  import opened FrontAlgebra
  import opened FrontSteps
  import opened PivotChoice
  import opened PivotSearch
  import opened GrowthBound
  import opened FrontUpdates
  import opened RankUpdates
  import opened Inertia
  import opened PivotSigns
  import opened FrontKernel
  import opened FrontPanels
  import opened PartnerPass

  // Right-looking: every pivot updates the whole trailing triangle.
  function Whole(k: int, f: int, e: int, first: int): Lag {
    Lag(k, f, first, e, first)
  }

  method UnblockedStep(F: array2<real>, k: int, e: int, rows: array<int>, tags: array<int>, W: array2<real>,
                       prm: Params, ghost A: (int, int) -> real, ghost first: int, ghost ds: seq<Pivot>)
      returns (k': int, counts: Counts, ghost ds': seq<Pivot>)
    requires prm.Valid() && F.Length0 == F.Length1 == rows.Length <= tags.Length && rows != tags
    requires W != F && W.Length0 == rows.Length
    requires Symmetric(A) && 0 <= k < e <= rows.Length
    requires Good(A, Snapshot(F), rows[..], tags[..], Whole(k, rows.Length, e, first), prm, first, ds)
    modifies F, rows, tags, W
    ensures k <= k' <= e && Counted(counts, k', k) && Adds(ds, ds', counts, SignsBy(prm))
    ensures Good(A, Snapshot(F), rows[..], tags[..], Whole(k', rows.Length, e, first), prm, first, ds')
    ensures PermutedWithin(old(rows[..]), rows[..], k, e)
    ensures k' == k ==> ds' == ds && Select(Snapshot(F), rows.Length, k, e, e, prm).NoPivot?
  {
    var pc := SelectPivot(F, k, e, e, prm);
    SelectSound(Snapshot(F), rows.Length, k, e, e, prm);
    if pc.NoPivot? {
      AddsNothing(ds, SignsBy(prm));
      return k, NONE, ds;
    }
    k', counts, ds' := ApplyPivot(pc, F, k, rows, tags, W, false, 0, rows.Length, prm, A, Whole(k, rows.Length, e, first),
                             Whole(k + Width(pc), rows.Length, e, first), first, ds, e);
  }

  method Unblocked(F: array2<real>, e: int, rows: array<int>, tags: array<int>, W: array2<real>,
                   prm: Params, first: int, ghost A: (int, int) -> real, ghost ds: seq<Pivot>)
      returns (k: int, counts: Counts, ghost ds': seq<Pivot>)
    requires prm.Valid() && F.Length0 == F.Length1 == rows.Length <= tags.Length && rows != tags
    requires W != F && W.Length0 == rows.Length
    requires Symmetric(A) && 0 <= first <= e <= rows.Length
    requires Factored(A, Snapshot(F), rows[..], tags[..], first, e) && ds == DiagonalOf(Snapshot(F), tags[..], first)
    modifies F, rows, tags, W
    ensures first <= k <= e && Counted(counts, k, first) && Adds(ds, ds', counts, SignsBy(prm))
    ensures Good(A, Snapshot(F), rows[..], tags[..], Lag(k, rows.Length, k, e, k), prm, first, ds')
    ensures PermutedWithin(old(rows[..]), rows[..], first, e)
    ensures k < e ==> Select(Snapshot(F), rows.Length, k, e, e, prm).NoPivot?
  {
    k, counts, ds' := first, NONE, ds;
    AddsNothing(ds, SignsBy(prm));
    while k < e
      invariant first <= k <= e && Counted(counts, k, first) && Adds(ds, ds', counts, SignsBy(prm))
      invariant Good(A, Snapshot(F), rows[..], tags[..], Whole(k, rows.Length, e, first), prm, first, ds')
      invariant PermutedWithin(old(rows[..]), rows[..], first, e)
    {
      ghost var r := rows[..];
      var k', c;
      ghost var was := ds';
      k', c, ds' := UnblockedStep(F, k, e, rows, tags, W, prm, A, first, was);
      PermutedTrans(old(rows[..]), r, rows[..], first, e, k, e);
      if k' == k { break; }
      CountMore(counts, c, k', k, first);
      AddsMore(ds, was, ds', counts, c, SignsBy(prm));
      counts := counts.Plus(c);
      k := k';
    }
    BlocksEndAtBoundary(tags[..], k);
    SameStages(A, Snapshot(F), rows[..], tags[..], Whole(k, rows.Length, e, first), Lag(k, rows.Length, k, e, k), prm, first, ds');
  }

  // One panel over all the remaining columns, and the search behind a stall; k' == k
  // when no eligible column has a pivot.
  method PanelRound(F: array2<real>, k: int, e: int, rows: array<int>, tags: array<int>, W: array2<real>,
                    prm: Params, ghost A: (int, int) -> real, ghost first: int, ghost ds: seq<Pivot>)
      returns (k': int, done: bool, counts: Counts, ghost ds': seq<Pivot>)
    requires prm.Valid() && 2 <= prm.nb && F.Length0 == F.Length1 == rows.Length <= tags.Length && rows != tags
    requires W != F && W.Length0 == rows.Length && prm.nb <= W.Length1
    requires Symmetric(A) && 0 <= k < e <= rows.Length
    requires Good(A, Snapshot(F), rows[..], tags[..], Ready(k, e, first), prm, first, ds)
    modifies F, rows, tags, W
    ensures k <= k' <= e && Counted(counts, k', k) && (!done ==> k' > k) && Adds(ds, ds', counts, SignsBy(prm))
    ensures Good(A, Snapshot(F), rows[..], tags[..], Ready(k', e, first), prm, first, ds')
    ensures PermutedWithin(old(rows[..]), rows[..], k, e)
    ensures done ==> k' < e && Select(Snapshot(F), rows.Length, k', e, e, prm).NoPivot?
  {
    var pl := if k + prm.nb < e then k + prm.nb else e;
    var stalled;
    k', stalled, counts, ds' := Panel(F, k, pl, e, rows, tags, W, prm, A, first, ds);
    done := false;
    if stalled {
      ghost var r := rows[..];
      var k1 := k';
      var c;
      ghost var was := ds';
      k', c, ds' := SearchAll(F, k', e, rows, tags, W, prm, A, first, was);
      AddsMore(ds, was, ds', counts, c, SignsBy(prm));
      PermutedTrans(old(rows[..]), r, rows[..], k, e, k1, e);
      CountMore(counts, c, k', k1, k);
      counts := counts.Plus(c);
      done := k' == k1;
    }
  }

  method Blocked(F: array2<real>, e: int, rows: array<int>, tags: array<int>, W: array2<real>,
                 prm: Params, first: int, ghost A: (int, int) -> real, ghost ds: seq<Pivot>)
      returns (k: int, counts: Counts, ghost ds': seq<Pivot>)
    requires prm.Valid() && 2 <= prm.nb && F.Length0 == F.Length1 == rows.Length <= tags.Length && rows != tags
    requires W != F && W.Length0 == rows.Length && prm.nb <= W.Length1
    requires Symmetric(A) && 0 <= first <= e <= rows.Length && Distinct(rows[..])
    requires Factored(A, Snapshot(F), rows[..], tags[..], first, e) && ds == DiagonalOf(Snapshot(F), tags[..], first)
    modifies F, rows, tags, W
    ensures first <= k <= e && Counted(counts, k, first) && Adds(ds, ds', counts, SignsBy(prm))
    ensures Good(A, Snapshot(F), rows[..], tags[..], Ready(k, e, first), prm, first, ds')
    ensures PermutedWithin(old(rows[..]), rows[..], first, e)
    ensures k < e ==> Select(Snapshot(F), rows.Length, k, e, e, prm).NoPivot?
  {
    k, counts, ds' := first, NONE, ds;
    AddsNothing(ds, SignsBy(prm));
    SameStages(A, Snapshot(F), rows[..], tags[..], Lag(first, rows.Length, first, e, first), Ready(first, e, first), prm, first, ds);
    if prm.Threshold() {
      k, counts, ds' := FirstPass(F, first, e, rows, tags, W, prm, A, first, ds);
    }
    while k < e
      invariant first <= k <= e && Counted(counts, k, first) && Adds(ds, ds', counts, SignsBy(prm))
      invariant Good(A, Snapshot(F), rows[..], tags[..], Ready(k, e, first), prm, first, ds')
      invariant PermutedWithin(old(rows[..]), rows[..], first, e)
    {
      ghost var r := rows[..];
      var k', done, c;
      ghost var was := ds';
      k', done, c, ds' := PanelRound(F, k, e, rows, tags, W, prm, A, first, was);
      AddsMore(ds, was, ds', counts, c, SignsBy(prm));
      PermutedTrans(old(rows[..]), r, rows[..], first, e, k, e);
      CountMore(counts, c, k', k, first);
      counts := counts.Plus(c);
      k := k';
      if done { break; }
    }
  }

  // The late Schur update makes the whole front current.
  method Finish(F: array2<real>, k: int, e: int, ghost rows: seq<int>, tags: array<int>, prm: Params, first: int,
                ghost A: (int, int) -> real, ghost ds: seq<Pivot>)
    requires prm.Valid() && F.Length0 == F.Length1 == |rows| <= tags.Length && 0 <= first <= k <= e <= |rows|
    requires Good(A, Snapshot(F), rows, tags[..], Ready(k, e, first), prm, first, ds)
    modifies F
    ensures Good(A, Snapshot(F), rows, tags[..], Lag(k, |rows|, k, e, k), prm, first, ds)
    ensures k < e ==> Select(Snapshot(F), |rows|, k, e, e, prm) == old(Select(Snapshot(F), |rows|, k, e, e, prm))
  {
    ghost var m := Snapshot(F);
    SchurUpdate(F, first, k, e, tags);
    BlocksEndAtBoundary(tags[..], k);
    CatchUpKeepsGood(A, m, Snapshot(F), rows, tags[..], Ready(k, e, first), Lag(k, |rows|, k, e, k), prm, first, ds, first, e, |rows|);
    if k < e {
      SelectReadsOnlyCurrent(m, Snapshot(F), |rows|, k, e, e, prm);
    }
  }

  /** LDL^T of the fully summed columns [first, e) of a front, on either path.

      With k accepted columns: the front, its eligible rows permuted, is L D L^T plus
      the Schur complement left behind position k; under threshold pivoting no entry
      of the new columns of L exceeds 1 / u, and a kernel that stops early has no
      acceptable pivot left among the eligible columns. */
  method LdltFactorFront(F: array2<real>, e: int, rows: array<int>, prm: Params, tags: array<int>, work: array2<real>,
                         first: int, ghost A: (int, int) -> real)
      returns (k: int, counts: Counts)
    requires prm.Valid() && F.Length0 == F.Length1 == rows.Length <= tags.Length && rows != tags
    requires work != F && work.Length0 == rows.Length && prm.nb + 2 <= work.Length1
    requires Symmetric(A) && 0 <= first <= e <= rows.Length && Distinct(rows[..])
    requires Factored(A, Snapshot(F), rows[..], tags[..], first, e)
    modifies F, rows, tags, work
    ensures first <= k <= e && Counted(counts, k, first)
    ensures Adds(old(DiagonalOf(Snapshot(F), tags[..], first)), DiagonalOf(Snapshot(F), tags[..], k), counts, SignsBy(prm))
    ensures Factored(A, Snapshot(F), rows[..], tags[..], k, e)
    ensures PermutedWithin(old(rows[..]), rows[..], first, e)
    ensures prm.Threshold() ==> Bounded(Snapshot(F), tags[..], prm.u, first, k, rows.Length)
    ensures k < e && prm.Threshold() ==> Exhausted(Snapshot(F), rows.Length, k, e, e, prm)
  {
    ghost var ds, ds' := DiagonalOf(Snapshot(F), tags[..], first), [];
    if rows.Length - first < prm.blockedMinFront || prm.nb <= 1 {
      k, counts, ds' := Unblocked(F, e, rows, tags, work, prm, first, A, ds);
    } else {
      k, counts, ds' := Blocked(F, e, rows, tags, work, prm, first, A, ds);
      Finish(F, k, e, rows[..], tags, prm, first, A, ds');
    }
    if k < e && prm.Threshold() {
      SelectComplete(Snapshot(F), rows.Length, k, e, e, prm);
    }
  }
}
