/** The pivot search as the kernel runs it: one pass over a candidate's column, one
    over its partner's, each proved to compute what PivotChoice defines. */
module PivotSearch {
  import opened Reals
  import opened FrontAlgebra
  import opened FrontSteps
  import opened PivotChoice

  // The partner of column cand among the eligible rows and both maxima of the growth
  // test, without a second scan.
  method ScanEligible(F: array2<real>, k: int, e: int, cand: int) returns (m1: real, m2: real, r: int)
    requires F.Length0 == F.Length1 && 0 <= k <= cand < e <= F.Length0
    ensures var m := Snapshot(F);
      m1 == MaxOff(m, cand, k, e, -1) && r == Partner(m, cand, k, e) && m2 == MaxOff(m, cand, k, e, r)
  {
    ghost var m := Snapshot(F);
    m1, m2, r := 0.0, 0.0, -1;
    for i := k to cand
      invariant m1 == MaxOff(m, cand, k, i, -1) && r == Partner(m, cand, k, i) && m2 == MaxOff(m, cand, k, i, r)
    {
      PartnerMeaning(m, cand, k, i);
      var v := Abs(F[cand, i]);
      assert v == Mag(m, i, cand);
      MaxOffOutside(m, cand, k, i, i, -1);
      if v > m1 {
        m2, m1, r := m1, v, i;
      } else if v > m2 {
        m2 := v;
      }
    }
    PartnerMeaning(m, cand, k, cand);
    for i := cand + 1 to e
      invariant m1 == MaxOff(m, cand, k, i, -1) && r == Partner(m, cand, k, i) && m2 == MaxOff(m, cand, k, i, r)
    {
      PartnerMeaning(m, cand, k, i);
      var v := Abs(F[i, cand]);
      assert v == Mag(m, i, cand);
      MaxOffOutside(m, cand, k, i, i, -1);
      if v > m1 {
        m2, m1, r := m1, v, i;
      } else if v > m2 {
        m2 := v;
      }
    }
  }

  lemma {:induction false} MaxOffGrows(m: Mat, a: int, lo: int, mid: int, hi: int, x: int)
    requires lo <= mid <= hi
    ensures MaxOff(m, a, lo, mid, x) <= MaxOff(m, a, lo, hi, x)
    decreases hi - mid
  {
    if mid < hi { MaxOffGrows(m, a, lo, mid, hi - 1, x); }
  }

  // The 1x1 test of column cand over the rows the first pass left out; it stops
  // at the first entry that makes the test fail.
  method TestColumn(F: array2<real>, k: int, e: int, cand: int, m1: real, prm: Params)
      returns (ok: bool, colmax: real)
    requires prm.Valid() && F.Length0 == F.Length1 && 0 <= k <= cand < e <= F.Length0
    requires m1 == MaxOff(Snapshot(F), cand, k, e, -1)
    ensures ok == OneOk(Snapshot(F), F.Length0, k, cand, prm)
    ensures ok ==> colmax == MaxOff(Snapshot(F), cand, k, F.Length0, -1)
  {
    ghost var m := Snapshot(F);
    var f := F.Length0;
    var a := Abs(F[cand, cand]);
    assert a == Mag(m, cand, cand);
    ok, colmax := false, m1;
    if a >= prm.effSmall && Below(m1, a, prm.u) {
      ok := true;
      for i := e to f
        invariant ok && colmax == MaxOff(m, cand, k, i, -1) && Below(colmax, a, prm.u)
      {
        var v := Abs(F[i, cand]);
        assert v == Mag(m, i, cand);
        if !Below(v, a, prm.u) {
          FailsAt(m, f, k, cand, i, prm);
          ok := false;
          return;
        }
        colmax := Max(colmax, v);
      }
    } else if a >= prm.effSmall {
      FailsBefore(m, f, k, e, cand, prm);
    }
  }

  lemma FailsAt(m: Mat, f: int, k: int, cand: int, i: int, prm: Params)
    requires prm.Valid() && 0 <= k <= i < f && i != cand
    requires !Below(Mag(m, i, cand), Mag(m, cand, cand), prm.u)
    ensures !OneOk(m, f, k, cand, prm)
  {
    OneOkMeaning(m, f, k, cand, prm);
  }

  lemma FailsBefore(m: Mat, f: int, k: int, e: int, cand: int, prm: Params)
    requires prm.Valid() && 0 <= k <= e <= f
    requires !Below(MaxOff(m, cand, k, e, -1), Mag(m, cand, cand), prm.u)
    ensures !OneOk(m, f, k, cand, prm)
  {
    MaxOffGrows(m, cand, k, e, f, -1);
    if Below(MaxOff(m, cand, k, f, -1), Mag(m, cand, cand), prm.u) {
      BelowMono(MaxOff(m, cand, k, e, -1), MaxOff(m, cand, k, f, -1), Mag(m, cand, cand), prm.u);
    }
  }

  // One pass over the partner's column: its largest entry, and the largest other
  // than the one in row cand.
  method ScanPartner(F: array2<real>, k: int, cand: int, r: int) returns (om2: real, off1: real)
    requires F.Length0 == F.Length1 && 0 <= k <= cand < F.Length0 && k <= r < F.Length0 && r != cand
    ensures om2 == MaxOff(Snapshot(F), r, k, F.Length0, -1)
    ensures off1 == MaxOff(Snapshot(F), r, k, F.Length0, cand)
  {
    ghost var m := Snapshot(F);
    om2, off1 := 0.0, 0.0;
    for i := k to r
      invariant om2 == MaxOff(m, r, k, i, -1) && off1 == MaxOff(m, r, k, i, cand)
    {
      var v := Abs(F[r, i]);
      assert v == Mag(m, i, r);
      om2 := Max(om2, v);
      if i != cand { off1 := Max(off1, v); }
    }
    for i := r + 1 to F.Length0
      invariant om2 == MaxOff(m, r, k, i, -1) && off1 == MaxOff(m, r, k, i, cand)
    {
      var v := Abs(F[i, r]);
      assert v == Mag(m, i, r);
      om2 := Max(om2, v);
      if i != cand { off1 := Max(off1, v); }
    }
  }

  // The 2x2 test of (cand, r), with its growth on success.
  method TestBlock(F: array2<real>, k: int, e: int, cand: int, r: int, m2: real, off1: real, prm: Params)
      returns (ok: bool, growth: real)
    requires prm.Valid() && F.Length0 == F.Length1 && 0 <= k <= cand < e <= F.Length0 && k <= r < e && r != cand
    requires m2 == MaxOff(Snapshot(F), cand, k, e, r) && off1 == MaxOff(Snapshot(F), r, k, F.Length0, cand)
    ensures ok == TwoOk(Snapshot(F), F.Length0, k, cand, r, prm)
    ensures ok ==> growth == Growth2(Snapshot(F), F.Length0, k, cand, r, prm)
  {
    ghost var m := Snapshot(F);
    ok, growth := false, 0.0;
    var d00, d10, d11 := F[cand, cand], if r >= cand then F[r, cand] else F[cand, r], F[r, r];
    assert d00 == Sym(m, cand, cand) && d10 == Sym(m, r, cand) && d11 == Sym(m, r, r);
    var s2 := Scale2(d00, d10, d11);
    if !(s2 >= prm.effSmall) { return; }
    var det := Abs(ScaledDet(d00, d10, d11));
    if !(det > prm.smallPivot) { return; }
    var off0 := m2;
    for i := e to F.Length0
      invariant off0 == MaxOff(m, cand, k, i, r)
    {
      assert Abs(F[i, cand]) == Mag(m, i, cand);
      off0 := Max(off0, Abs(F[i, cand]));
    }
    if off0 > 0.0 || off1 > 0.0 {
      var bound := Bound2(d00, d10, d11, off0, off1);
      if !Below(bound, det, prm.u) { return; }
      growth := bound / det;
    }
    ok := true;
  }

  // The pivot of candidate column cand, if it yields one.
  method TryColumn(F: array2<real>, k: int, e: int, limit: int, prm: Params, cand: int) returns (pc: Choice)
    requires prm.Valid() && F.Length0 == F.Length1 && 0 <= k <= cand < limit <= e <= F.Length0
    ensures pc == SelectAt(Snapshot(F), F.Length0, k, e, limit, prm, cand)
  {
    ghost var m := Snapshot(F);
    var m1, m2, r := ScanEligible(F, k, e, cand);
    PartnerMeaning(m, cand, k, e);
    var one, colmax := TestColumn(F, k, e, cand, m1, prm);
    var a := Abs(F[cand, cand]);
    assert a == Mag(m, cand, cand);
    var weakGrowth := 0.0;
    if one {
      if !WeakTest(a, colmax) { return One(cand); }
      weakGrowth := OneGrowth(a, colmax);
    }
    if r < k || r >= limit || m1 <= 0.0 {
      return if one then One(cand) else NoPivot;
    }
    var om2, off1 := ScanPartner(F, k, cand, r);
    if k + 1 < limit {
      var two, growth2 := TestBlock(F, k, e, cand, r, m2, off1, prm);
      if two && (!one || growth2 < weakGrowth) { return Two(cand, r); }
    }
    if one { return One(cand); }
    var ar := Abs(F[r, r]);
    assert ar == Mag(m, r, r);
    if ar >= prm.effSmall && (om2 == 0.0 || Below(om2, ar, prm.u)) {
      if om2 == 0.0 { BelowZero(om2, ar, prm.u); }
      return One(r);
    }
    return NoPivot;
  }

  method SelectPivot(F: array2<real>, k: int, e: int, limit: int, prm: Params) returns (pc: Choice)
    requires prm.Valid() && F.Length0 == F.Length1 && 0 <= k < limit <= e <= F.Length0
    ensures pc == Select(Snapshot(F), F.Length0, k, e, limit, prm)
  {
    ghost var m := Snapshot(F);
    assert At(m, k, k) == F[k, k];
    if prm.posdef {
      return if F[k, k] > 0.0 then One(k) else NoPivot;
    }
    if prm.minAbsPivot > 0.0 {
      return if Abs(F[k, k]) >= prm.minAbsPivot then One(k) else NoPivot;
    }
    for cand := k to limit
      invariant Select(m, F.Length0, k, e, limit, prm) == SelectFrom(m, F.Length0, k, e, limit, prm, cand)
    {
      pc := TryColumn(F, k, e, limit, prm, cand);
      if !pc.NoPivot? { return; }
    }
    pc := NoPivot;
  }
}
