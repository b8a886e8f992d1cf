/** Threshold pivot selection: which 1x1 or 2x2 pivot a front takes next. */
module PivotChoice {
  import opened Reals
  import opened FrontAlgebra
  import opened FrontSteps

  // Static pivoting is off: there is no static_pivot field.
  datatype Params = Params(u: real, effSmall: real, smallPivot: real, nb: int,
                           blockedMinFront: int, posdef: bool, minAbsPivot: real)
  {
    // A pivot of zero is never accepted.
    predicate Valid() { effSmall > 0.0 && smallPivot >= 0.0 }

    // Plain threshold pivoting, as opposed to the in-order modes.
    predicate Threshold() { !posdef && minAbsPivot <= 0.0 }
  }

  const WEAK_PIVOT_RATIO: real := 0.000001

  datatype Choice = NoPivot | One(a: int) | Two(a: int, b: int)

  function Mag(m: Mat, i: int, j: int): (r: real)
    ensures r >= 0.0
  {
    Abs(Sym(m, i, j))
  }

  // Largest |a(i, a)| over the rows i in [lo, hi) other than a and x; 0 if none.
  function MaxOff(m: Mat, a: int, lo: int, hi: int, x: int): (r: real)
    ensures r >= 0.0
    decreases hi - lo
  {
    if hi <= lo then 0.0
    else if hi - 1 == a || hi - 1 == x then MaxOff(m, a, lo, hi - 1, x)
    else Max(MaxOff(m, a, lo, hi - 1, x), Mag(m, hi - 1, a))
  }

  // First row of [lo, hi) holding the largest nonzero off-diagonal entry of
  // column a; -1 if there is none.
  function Partner(m: Mat, a: int, lo: int, hi: int): int
    decreases hi - lo
  {
    if hi <= lo then -1
    else
      var r := Partner(m, a, lo, hi - 1);
      if hi - 1 != a && Mag(m, hi - 1, a) > MaxOff(m, a, lo, hi - 1, -1) then hi - 1 else r
  }

  // The growth bound of a 2x2 pivot relative to the off-diagonal maxima of its columns.
  function Bound2(d00: real, d10: real, d11: real, off0: real, off1: real): real
    requires Scale2(d00, d10, d11) > 0.0
  {
    var s := Scale2(d00, d10, d11);
    var a, b, c := Abs(d00 / s), Abs(d10 / s), Abs(d11 / s);
    Max(Side(c, b, off0, off1, s), Side(b, a, off0, off1, s))
  }

  function Side(x: real, y: real, off0: real, off1: real, s: real): real
    requires s != 0.0
  {
    (x * off0 + y * off1) / s
  }

  // The scaled determinant and the growth bound of the block pass.
  predicate TwoTest(d00: real, d10: real, d11: real, off0: real, off1: real, prm: Params)
    requires prm.Valid()
  {
    && Scale2(d00, d10, d11) >= prm.effSmall
    && Abs(ScaledDet(d00, d10, d11)) > prm.smallPivot
    && (off0 > 0.0 || off1 > 0.0 ==>
          Below(Bound2(d00, d10, d11, off0, off1), Abs(ScaledDet(d00, d10, d11)), prm.u))
  }

  function TwoGrowth(d00: real, d10: real, d11: real, off0: real, off1: real): real
    requires Scale2(d00, d10, d11) > 0.0 && ScaledDet(d00, d10, d11) != 0.0
  {
    if off0 > 0.0 || off1 > 0.0 then Bound2(d00, d10, d11, off0, off1) / Abs(ScaledDet(d00, d10, d11)) else 0.0
  }

  // The 2x2 pivot (a, b) passes.
  predicate TwoOk(m: Mat, f: int, k: int, a: int, b: int, prm: Params)
    requires prm.Valid()
  {
    TwoTest(Sym(m, a, a), Sym(m, b, a), Sym(m, b, b), MaxOff(m, a, k, f, b), MaxOff(m, b, k, f, a), prm)
  }

  function Growth2(m: Mat, f: int, k: int, a: int, b: int, prm: Params): real
    requires prm.Valid() && TwoOk(m, f, k, a, b, prm)
  {
    TwoGrowth(Sym(m, a, a), Sym(m, b, a), Sym(m, b, b), MaxOff(m, a, k, f, b), MaxOff(m, b, k, f, a))
  }

  // A 1x1 pivot of magnitude d whose column's largest off-diagonal entry is `off`.
  predicate OneTest(d: real, off: real, prm: Params) {
    d >= prm.effSmall && Below(off, d, prm.u)
  }

  // An entry x over a pivot of magnitude d is at most 1 / u.
  predicate Below(x: real, d: real, u: real) {
    u * x <= d
  }

  // It would put entries above 1 / WEAK_PIVOT_RATIO into L.
  predicate WeakTest(d: real, off: real) {
    d < WEAK_PIVOT_RATIO * off
  }

  function OneGrowth(d: real, off: real): real
    requires d != 0.0
  {
    off / d
  }

  predicate OneOk(m: Mat, f: int, k: int, a: int, prm: Params) {
    OneTest(Mag(m, a, a), MaxOff(m, a, k, f, -1), prm)
  }

  // The pivot candidate column `cand` yields, if any.
  function SelectAt(m: Mat, f: int, k: int, e: int, limit: int, prm: Params, cand: int): Choice
    requires prm.Valid()
  {
    var one := OneOk(m, f, k, cand, prm);
    if one && !WeakTest(Mag(m, cand, cand), MaxOff(m, cand, k, f, -1)) then One(cand)
    else
      var r := Partner(m, cand, k, e);
      if r < k || r >= limit then (if one then One(cand) else NoPivot)
      else if k + 1 < limit && TwoOk(m, f, k, cand, r, prm) &&
              (one ==> Growth2(m, f, k, cand, r, prm) < OneGrowth(Mag(m, cand, cand), MaxOff(m, cand, k, f, -1)))
      then Two(cand, r)
      else if one then One(cand)
      else if OneOk(m, f, k, r, prm) then One(r)
      else NoPivot
  }

  function SelectFrom(m: Mat, f: int, k: int, e: int, limit: int, prm: Params, cand: int): Choice
    requires prm.Valid()
    decreases limit - cand
  {
    if cand >= limit then NoPivot
    else
      var pc := SelectAt(m, f, k, e, limit, prm, cand);
      if pc.NoPivot? then SelectFrom(m, f, k, e, limit, prm, cand + 1) else pc
  }

  function Select(m: Mat, f: int, k: int, e: int, limit: int, prm: Params): Choice
    requires prm.Valid()
  {
    if prm.posdef then (if At(m, k, k) > 0.0 then One(k) else NoPivot)
    else if prm.minAbsPivot > 0.0 then (if Mag(m, k, k) >= prm.minAbsPivot then One(k) else NoPivot)
    else SelectFrom(m, f, k, e, limit, prm, k)
  }

  // ---- what the functions mean ----

  lemma {:induction false} MaxOffBounds(m: Mat, a: int, lo: int, hi: int, x: int, i: int)
    requires lo <= i < hi && i != a && i != x
    ensures Mag(m, i, a) <= MaxOff(m, a, lo, hi, x)
    decreases hi - lo
  {
    if i < hi - 1 { MaxOffBounds(m, a, lo, hi - 1, x, i); }
  }

  lemma {:induction false} MaxOffOutside(m: Mat, a: int, lo: int, hi: int, x: int, y: int)
    requires !(lo <= x < hi) && !(lo <= y < hi)
    ensures MaxOff(m, a, lo, hi, x) == MaxOff(m, a, lo, hi, y)
    decreases hi - lo
  {
    if hi > lo { MaxOffOutside(m, a, lo, hi - 1, x, y); }
  }

  lemma {:induction false} MaxOffAgrees(m: Mat, m': Mat, a: int, lo: int, hi: int, x: int)
    requires forall i | lo <= i < hi :: Sym(m, i, a) == Sym(m', i, a)
    ensures MaxOff(m, a, lo, hi, x) == MaxOff(m', a, lo, hi, x)
    decreases hi - lo
  {
    if hi > lo { MaxOffAgrees(m, m', a, lo, hi - 1, x); }
  }

  lemma {:induction false} PartnerAgrees(m: Mat, m': Mat, a: int, lo: int, hi: int)
    requires forall i | lo <= i < hi :: Sym(m, i, a) == Sym(m', i, a)
    ensures Partner(m, a, lo, hi) == Partner(m', a, lo, hi)
    decreases hi - lo
  {
    if hi > lo {
      PartnerAgrees(m, m', a, lo, hi - 1);
      MaxOffAgrees(m, m', a, lo, hi - 1, -1);
    }
  }

  // The partner attains the column's largest off-diagonal entry, and the second
  // largest the one-pass scan keeps is the largest without it.
  lemma {:induction false} PartnerMeaning(m: Mat, a: int, lo: int, hi: int)
    requires 0 <= lo
    ensures var r := Partner(m, a, lo, hi);
      && (r == -1 || (lo <= r < hi && r != a && Mag(m, r, a) == MaxOff(m, a, lo, hi, -1) > 0.0))
      && (r == -1 <==> MaxOff(m, a, lo, hi, -1) == 0.0)
      && MaxOff(m, a, lo, hi, r) <= MaxOff(m, a, lo, hi, -1)
      && forall i | lo <= i < r && i != a :: Mag(m, i, a) < Mag(m, r, a)
    decreases hi - lo
  {
    if hi > lo {
      PartnerMeaning(m, a, lo, hi - 1);
      forall i | lo <= i < hi - 1 && i != a
        ensures Mag(m, i, a) <= MaxOff(m, a, lo, hi - 1, -1)
      {
        MaxOffBounds(m, a, lo, hi - 1, -1, i);
      }
      if Partner(m, a, lo, hi) == hi - 1 {
        MaxOffOutside(m, a, lo, hi - 1, hi - 1, -1);
      }
    }
  }

  // Some column of [k, limit) is current and so are the entries it is tested on.
  ghost predicate AgreeOn(m: Mat, m': Mat, f: int, k: int, limit: int) {
    forall i, j | k <= j < limit && j <= i < f :: At(m, i, j) == At(m', i, j)
  }

  lemma AgreeSym(m: Mat, m': Mat, f: int, k: int, limit: int, a: int)
    requires AgreeOn(m, m', f, k, limit) && k <= a < limit <= f
    ensures forall i | k <= i < f :: Sym(m, i, a) == Sym(m', i, a)
  {
  }

  lemma SelectAtAgrees(m: Mat, m': Mat, f: int, k: int, e: int, limit: int, prm: Params, cand: int)
    requires prm.Valid() && AgreeOn(m, m', f, k, limit) && 0 <= k <= cand < limit <= e <= f
    ensures SelectAt(m, f, k, e, limit, prm, cand) == SelectAt(m', f, k, e, limit, prm, cand)
  {
    AgreeSym(m, m', f, k, limit, cand);
    MaxOffAgrees(m, m', cand, k, f, -1);
    PartnerAgrees(m, m', cand, k, e);
    var r := Partner(m, cand, k, e);
    if k <= r < limit {
      AgreeSym(m, m', f, k, limit, r);
      MaxOffAgrees(m, m', cand, k, f, r);
      MaxOffAgrees(m, m', r, k, f, cand);
      MaxOffAgrees(m, m', r, k, f, -1);
      assert Sym(m, r, cand) == Sym(m', r, cand) && Sym(m, cand, cand) == Sym(m', cand, cand);
      assert Sym(m, r, r) == Sym(m', r, r);
    }
  }

  lemma {:induction false} SelectFromAgrees(m: Mat, m': Mat, f: int, k: int, e: int, limit: int, prm: Params, cand: int)
    requires prm.Valid() && AgreeOn(m, m', f, k, limit) && 0 <= k <= cand && limit <= e <= f
    ensures SelectFrom(m, f, k, e, limit, prm, cand) == SelectFrom(m', f, k, e, limit, prm, cand)
    decreases limit - cand
  {
    if cand < limit {
      SelectAtAgrees(m, m', f, k, e, limit, prm, cand);
      SelectFromAgrees(m, m', f, k, e, limit, prm, cand + 1);
    }
  }

  /** Selection over [k, limit) reads only the columns [k, limit): whatever stale
      values the other columns hold, the choice is the one made on the matrix
      with every column up to date. */
  lemma SelectReadsOnlyCurrent(m: Mat, m': Mat, f: int, k: int, e: int, limit: int, prm: Params)
    requires prm.Valid() && AgreeOn(m, m', f, k, limit) && 0 <= k < limit <= e <= f
    ensures Select(m, f, k, e, limit, prm) == Select(m', f, k, e, limit, prm)
  {
    SelectFromAgrees(m, m', f, k, e, limit, prm, k);
    assert At(m, k, k) == At(m', k, k);
  }

  // The 1x1 test: no entry of column a exceeds |a_aa| / u.
  ghost predicate Acceptable1(m: Mat, f: int, k: int, a: int, prm: Params) {
    Mag(m, a, a) >= prm.effSmall && forall i | k <= i < f && i != a :: Below(Mag(m, i, a), Mag(m, a, a), prm.u)
  }

  lemma {:induction false} MaxOffAttained(m: Mat, a: int, lo: int, hi: int, x: int) returns (i: int)
    requires 0 <= lo
    ensures MaxOff(m, a, lo, hi, x) == 0.0 ||
            (lo <= i < hi && i != a && i != x && Mag(m, i, a) == MaxOff(m, a, lo, hi, x))
    decreases hi - lo
  {
    i := lo;
    if hi > lo {
      i := MaxOffAttained(m, a, lo, hi - 1, x);
      if hi - 1 != a && hi - 1 != x && MaxOff(m, a, lo, hi, x) == Mag(m, hi - 1, a) { i := hi - 1; }
    }
  }

  lemma OneOkMeaning(m: Mat, f: int, k: int, a: int, prm: Params)
    requires prm.Valid() && 0 <= k
    ensures OneOk(m, f, k, a, prm) <==> Acceptable1(m, f, k, a, prm)
  {
    if OneOk(m, f, k, a, prm) {
      forall i | k <= i < f && i != a ensures Below(Mag(m, i, a), Mag(m, a, a), prm.u) {
        MaxOffBounds(m, a, k, f, -1, i);
        BelowMono(Mag(m, i, a), MaxOff(m, a, k, f, -1), Mag(m, a, a), prm.u);
      }
    }
    if Acceptable1(m, f, k, a, prm) {
      var i := MaxOffAttained(m, a, k, f, -1);
      if MaxOff(m, a, k, f, -1) == 0.0 {
        BelowZero(MaxOff(m, a, k, f, -1), Mag(m, a, a), prm.u);
      }
    }
  }

  lemma BelowMono(x: real, top: real, d: real, u: real)
    requires 0.0 <= x <= top && Below(top, d, u) && d >= 0.0
    ensures Below(x, d, u)
  {
    if u >= 0.0 { MulMono(x, top, u); } else { MulNonneg(-u, x); assert -u * x == -(u * x); }
  }

  lemma BelowZero(x: real, d: real, u: real)
    requires x == 0.0 && d >= 0.0
    ensures Below(x, d, u)
  {
  }

  // ---- what a 2x2 pivot must meet ----

  // The size of the block's determinant.
  function DetSize(d00: real, d10: real, d11: real): real { Abs(d00 * d11 - d10 * d10) }

  // What entries of sizes x and y in the block's columns can add up to against p and q.
  function Reach(p: real, q: real, x: real, y: real): real { Abs(p) * x + Abs(q) * y }

  function TimesSquare(small: real, d: real): real { small * (d * d) }

  // The determinant of the block is larger than `small` times the square of its largest entry.
  predicate WellScaled(d00: real, d10: real, d11: real, small: real) {
    && TimesSquare(small, d00) < DetSize(d00, d10, d11) && TimesSquare(small, d10) < DetSize(d00, d10, d11)
    && TimesSquare(small, d11) < DetSize(d00, d10, d11)
  }

  // The block's inverse makes of entries of sizes x and y nothing above 1 / u.
  predicate Contained(d00: real, d10: real, d11: real, x: real, y: real, u: real) {
    && Below(Reach(d11, d10, x, y), DetSize(d00, d10, d11), u)
    && Below(Reach(d10, d00, x, y), DetSize(d00, d10, d11), u)
  }

  /** The 2x2 test: the block (a, b) is not too small nor too close to singular, and entries
      of its columns in any rows outside it are contained. */
  ghost predicate Acceptable2(m: Mat, f: int, k: int, a: int, b: int, prm: Params) {
    var d00, d10, d11 := Sym(m, a, a), Sym(m, b, a), Sym(m, b, b);
    && (Abs(d00) >= prm.effSmall || Abs(d10) >= prm.effSmall || Abs(d11) >= prm.effSmall)
    && WellScaled(d00, d10, d11, prm.smallPivot)
    && forall i, j | k <= i < f && i != a && i != b && k <= j < f && j != a && j != b ::
         Contained(d00, d10, d11, Mag(m, i, a), Mag(m, j, b), prm.u)
  }

  lemma {:induction false} ScaledBack(x: real, s: real)
    requires s > 0.0
    ensures Abs(x / s) * s == Abs(x)
  {
    DivCancel(x, s);
    AbsProduct(x / s, s);
  }

  function Squared(x: real, s: real): real { (x * s) * s }

  lemma {:induction false} SquaredOrder(x: real, y: real, s: real)
    requires s > 0.0
    ensures x < y <==> Squared(x, s) < Squared(y, s)
    ensures x <= y <==> Squared(x, s) <= Squared(y, s)
  {
    ScaledOrder(x, y, s);
    ScaledOrder(x * s, y * s, s);
  }

  lemma {:induction false} ScaledOrder(x: real, y: real, s: real)
    requires s > 0.0
    ensures x < y <==> x * s < y * s
  {
  }

  lemma {:induction false} DetBack(a: real, b: real, c: real, s: real, d00: real, d10: real, d11: real)
    requires s > 0.0 && a * s == d00 && b * s == d10 && c * s == d11
    ensures Squared(Abs(a * c - b * b), s) == DetSize(d00, d10, d11)
  {
    var det := a * c - b * b;
    assert (a * s) * (c * s) == ((a * c) * s) * s;
    assert (b * s) * (b * s) == ((b * b) * s) * s;
    assert (det * s) * s == ((a * c) * s) * s - ((b * b) * s) * s;
    AbsProduct(det, s);
    AbsProduct(det * s, s);
  }

  // The scaled determinant, scaled back.
  lemma {:induction false} DetScaledBack(d00: real, d10: real, d11: real, s: real)
    requires s == Scale2(d00, d10, d11) && s > 0.0
    ensures Squared(Abs(ScaledDet(d00, d10, d11)), s) == DetSize(d00, d10, d11)
  {
    ScaledDetIs(d00, d10, d11, s, d00 / s, d10 / s, d11 / s);
    DivDetBack(s, d00, d10, d11, d00 / s, d10 / s, d11 / s, ScaledDet(d00, d10, d11));
  }

  lemma {:induction false} DivDetBack(s: real, d00: real, d10: real, d11: real, a: real, b: real, c: real, det: real)
    requires s > 0.0 && a == d00 / s && b == d10 / s && c == d11 / s && det == a * c - b * b
    ensures Squared(Abs(det), s) == DetSize(d00, d10, d11)
  {
    DivCancel(d00, s); DivCancel(d10, s); DivCancel(d11, s);
    DetBack(a, b, c, s, d00, d10, d11);
  }

  lemma {:induction false} ScaledDetIs(d00: real, d10: real, d11: real, s: real, a: real, b: real, c: real)
    requires s == Scale2(d00, d10, d11) && s > 0.0 && a == d00 / s && b == d10 / s && c == d11 / s
    ensures ScaledDet(d00, d10, d11) == a * c - b * b
  {
  }

  // And so are the growth bounds.
  lemma {:induction false} SideBack(p: real, q: real, x: real, y: real, s: real)
    requires s > 0.0
    ensures Squared(Side(Abs(p / s), Abs(q / s), x, y, s), s) == Reach(p, q, x, y)
  {
    ScaledBack(p, s);
    ScaledBack(q, s);
    var a, b := Abs(p / s), Abs(q / s);
    DivCancel(a * x + b * y, s);
    assert (a * x + b * y) * s == (a * s) * x + (b * s) * y;
  }

  lemma {:induction false} SquaredTimes(u: real, x: real, s: real)
    ensures Squared(u * x, s) == u * Squared(x, s)
  {
    assert (u * x) * s == u * (x * s);
    assert (u * (x * s)) * s == u * ((x * s) * s);
  }

  lemma {:induction false} LargestSquare(d: real, s: real, small: real)
    requires Abs(d) <= s && small >= 0.0
    ensures TimesSquare(small, d) <= Squared(small, s)
    ensures Abs(d) == s ==> TimesSquare(small, d) == Squared(small, s)
  {
    AbsProduct(d, d);
    MulMono(Abs(d), s, Abs(d));
    MulMono(Abs(d), s, s);
    MulNonneg(Abs(d), Abs(d));
    assert d * d == Abs(d) * Abs(d) by { if d < 0.0 { assert d * d == -d * -d; } }
    MulMono(d * d, s * s, small);
    assert small * (s * s) == Squared(small, s);
  }

  lemma {:induction false} WellScaledMeaning(d00: real, d10: real, d11: real, prm: Params)
    requires prm.Valid() && Scale2(d00, d10, d11) > 0.0
    ensures Abs(ScaledDet(d00, d10, d11)) > prm.smallPivot <==> WellScaled(d00, d10, d11, prm.smallPivot)
  {
    var s := Scale2(d00, d10, d11);
    DetScaledBack(d00, d10, d11, s);
    LargestEntry(d00, d10, d11, s);
    AboveAll(Abs(ScaledDet(d00, d10, d11)), d00, d10, d11, s, prm.smallPivot, DetSize(d00, d10, d11));
  }

  lemma {:induction false} LargestEntry(d00: real, d10: real, d11: real, s: real)
    requires s == Scale2(d00, d10, d11)
    ensures Abs(d00) <= s && Abs(d10) <= s && Abs(d11) <= s && (Abs(d00) == s || Abs(d10) == s || Abs(d11) == s)
  {
  }

  lemma {:induction false} AboveAll(det: real, x: real, y: real, z: real, s: real, small: real, size: real)
    requires s > 0.0 && small >= 0.0 && Squared(det, s) == size
    requires Abs(x) <= s && Abs(y) <= s && Abs(z) <= s && (Abs(x) == s || Abs(y) == s || Abs(z) == s)
    ensures det > small <==> TimesSquare(small, x) < size && TimesSquare(small, y) < size && TimesSquare(small, z) < size
  {
    SquaredOrder(small, det, s);
    LargestSquare(x, s, small);
    LargestSquare(y, s, small);
    LargestSquare(z, s, small);
  }

  lemma {:induction false} SideMeaning(det: real, size: real, side: real, top: real, s: real, u: real)
    requires s > 0.0 && Squared(det, s) == size && Squared(side, s) == top
    ensures Below(side, det, u) <==> Below(top, size, u)
  {
    SquaredTimes(u, side, s);
    SquaredOrder(u * side, det, s);
  }

  lemma {:induction false} BelowMax(x: real, y: real, d: real, u: real)
    requires x >= 0.0 && y >= 0.0 && d >= 0.0
    ensures Below(Max(x, y), d, u) <==> Below(x, d, u) && Below(y, d, u)
  {
    if Below(Max(x, y), d, u) {
      BelowMono(x, Max(x, y), d, u);
      BelowMono(y, Max(x, y), d, u);
    }
  }

  lemma {:induction false} SideNonneg(x: real, y: real, off0: real, off1: real, s: real)
    requires x >= 0.0 && y >= 0.0 && off0 >= 0.0 && off1 >= 0.0 && s > 0.0
    ensures Side(x, y, off0, off1, s) >= 0.0
  {
    MulNonneg(x, off0);
    MulNonneg(y, off1);
  }

  lemma {:induction false} BoundMeaning(d00: real, d10: real, d11: real, off0: real, off1: real, u: real)
    requires Scale2(d00, d10, d11) > 0.0 && off0 >= 0.0 && off1 >= 0.0
    ensures Below(Bound2(d00, d10, d11, off0, off1), Abs(ScaledDet(d00, d10, d11)), u) <==>
            Contained(d00, d10, d11, off0, off1, u)
  {
    var s := Scale2(d00, d10, d11);
    DetScaledBack(d00, d10, d11, s);
    SideBack(d11, d10, off0, off1, s);
    SideBack(d10, d00, off0, off1, s);
    SideNonneg(Abs(d11 / s), Abs(d10 / s), off0, off1, s);
    SideNonneg(Abs(d10 / s), Abs(d00 / s), off0, off1, s);
    SidesMeaning(Abs(ScaledDet(d00, d10, d11)), DetSize(d00, d10, d11),
                 Side(Abs(d11 / s), Abs(d10 / s), off0, off1, s), Reach(d11, d10, off0, off1),
                 Side(Abs(d10 / s), Abs(d00 / s), off0, off1, s), Reach(d10, d00, off0, off1), s, u);
  }

  lemma {:induction false} SidesMeaning(det: real, size: real, x: real, top0: real, y: real, top1: real, s: real, u: real)
    requires s > 0.0 && det >= 0.0 && x >= 0.0 && y >= 0.0
    requires Squared(det, s) == size && Squared(x, s) == top0 && Squared(y, s) == top1
    ensures Below(Max(x, y), det, u) <==> Below(top0, size, u) && Below(top1, size, u)
  {
    BelowMax(x, y, det, u);
    SideMeaning(det, size, x, top0, s, u);
    SideMeaning(det, size, y, top1, s, u);
  }

  lemma {:induction false} ContainedZero(d00: real, d10: real, d11: real, u: real)
    ensures Contained(d00, d10, d11, 0.0, 0.0, u)
  {
    assert Abs(d11) * 0.0 + Abs(d10) * 0.0 == 0.0 && Abs(d10) * 0.0 + Abs(d00) * 0.0 == 0.0;
  }

  /** The test on one block: size, determinant and both maxima contained. */
  lemma {:induction false} TwoTestMeaning(d00: real, d10: real, d11: real, off0: real, off1: real, prm: Params)
    requires prm.Valid() && off0 >= 0.0 && off1 >= 0.0
    ensures TwoTest(d00, d10, d11, off0, off1, prm) <==>
            && (Abs(d00) >= prm.effSmall || Abs(d10) >= prm.effSmall || Abs(d11) >= prm.effSmall)
            && WellScaled(d00, d10, d11, prm.smallPivot) && Contained(d00, d10, d11, off0, off1, prm.u)
  {
    if Scale2(d00, d10, d11) >= prm.effSmall {
      WellScaledMeaning(d00, d10, d11, prm);
      if off0 > 0.0 || off1 > 0.0 {
        BoundMeaning(d00, d10, d11, off0, off1, prm.u);
      } else {
        ContainedZero(d00, d10, d11, prm.u);
      }
    }
  }

  lemma {:induction false} ReachMono(p: real, q: real, x: real, y: real, x': real, y': real)
    requires 0.0 <= x <= x' && 0.0 <= y <= y'
    ensures 0.0 <= Reach(p, q, x, y) <= Reach(p, q, x', y')
  {
    SumMono(Abs(p), Abs(q), x, y, x', y');
  }

  lemma {:induction false} SumMono(a: real, b: real, x: real, y: real, x': real, y': real)
    requires a >= 0.0 && b >= 0.0 && 0.0 <= x <= x' && 0.0 <= y <= y'
    ensures 0.0 <= a * x + b * y <= a * x' + b * y'
  {
    TimesMono(a, x, x');
    TimesMono(b, y, y');
  }

  lemma {:induction false} TimesMono(a: real, x: real, x': real)
    requires a >= 0.0 && 0.0 <= x <= x'
    ensures 0.0 <= a * x <= a * x'
  {
    MulMono(x, x', a);
    MulNonneg(a, x);
  }

  lemma {:induction false} ReachBelow(p: real, q: real, x: real, y: real, x': real, y': real, size: real, u: real)
    requires 0.0 <= x <= x' && 0.0 <= y <= y' && size >= 0.0 && Below(Reach(p, q, x', y'), size, u)
    ensures Below(Reach(p, q, x, y), size, u)
  {
    ReachMono(p, q, x, y, x', y');
    BelowMono(Reach(p, q, x, y), Reach(p, q, x', y'), size, u);
  }

  lemma {:induction false} ContainedMono(d00: real, d10: real, d11: real, x: real, y: real, x': real, y': real, u: real)
    requires Contained(d00, d10, d11, x', y', u) && 0.0 <= x <= x' && 0.0 <= y <= y'
    ensures Contained(d00, d10, d11, x, y, u)
  {
    ReachBelow(d11, d10, x, y, x', y', DetSize(d00, d10, d11), u);
    ReachBelow(d10, d00, x, y, x', y', DetSize(d00, d10, d11), u);
  }

  // Rows outside the block that attain both maxima, if there is any row outside it.
  lemma {:induction false} MaximaAttained(m: Mat, f: int, k: int, a: int, b: int) returns (i: int, j: int)
    requires 0 <= k
    ensures var off0, off1 := MaxOff(m, a, k, f, b), MaxOff(m, b, k, f, a);
      || (off0 == 0.0 && off1 == 0.0)
      || (k <= i < f && i != a && i != b && k <= j < f && j != a && j != b && Mag(m, i, a) == off0 && Mag(m, j, b) == off1)
  {
    i := MaxOffAttained(m, a, k, f, b);
    j := MaxOffAttained(m, b, k, f, a);
    if MaxOff(m, a, k, f, b) == 0.0 {
      i := j;
      if MaxOff(m, b, k, f, a) > 0.0 { MaxOffBounds(m, a, k, f, b, i); }
    } else if MaxOff(m, b, k, f, a) == 0.0 {
      j := i;
      MaxOffBounds(m, b, k, f, a, j);
    }
  }

  lemma {:induction false} ContainedRows(m: Mat, f: int, k: int, a: int, b: int, u: real)
    requires 0 <= k
    ensures var d00, d10, d11 := Sym(m, a, a), Sym(m, b, a), Sym(m, b, b);
      Contained(d00, d10, d11, MaxOff(m, a, k, f, b), MaxOff(m, b, k, f, a), u) <==>
      forall i, j | k <= i < f && i != a && i != b && k <= j < f && j != a && j != b ::
        Contained(d00, d10, d11, Mag(m, i, a), Mag(m, j, b), u)
  {
    var d00, d10, d11 := Sym(m, a, a), Sym(m, b, a), Sym(m, b, b);
    var off0, off1 := MaxOff(m, a, k, f, b), MaxOff(m, b, k, f, a);
    if Contained(d00, d10, d11, off0, off1, u) {
      forall i, j | k <= i < f && i != a && i != b && k <= j < f && j != a && j != b
        ensures Contained(d00, d10, d11, Mag(m, i, a), Mag(m, j, b), u)
      {
        MaxOffBounds(m, a, k, f, b, i);
        MaxOffBounds(m, b, k, f, a, j);
        ContainedMono(d00, d10, d11, Mag(m, i, a), Mag(m, j, b), off0, off1, u);
      }
    } else {
      var i, j := MaximaAttained(m, f, k, a, b);
      ContainedZero(d00, d10, d11, u);
    }
  }

  /** The 2x2 test passes exactly on acceptable blocks. */
  lemma {:induction false} TwoOkMeaning(m: Mat, f: int, k: int, a: int, b: int, prm: Params)
    requires prm.Valid() && 0 <= k
    ensures TwoOk(m, f, k, a, b, prm) <==> Acceptable2(m, f, k, a, b, prm)
  {
    TwoTestMeaning(Sym(m, a, a), Sym(m, b, a), Sym(m, b, b), MaxOff(m, a, k, f, b), MaxOff(m, b, k, f, a), prm);
    ContainedRows(m, f, k, a, b, prm.u);
  }

  // r is the first eligible row of the largest off-diagonal entry of column a, which is not 0.
  ghost predicate IsPartner(m: Mat, a: int, lo: int, hi: int, r: int) {
    && lo <= r < hi && r != a && Mag(m, r, a) > 0.0
    && (forall i | lo <= i < hi && i != a :: Mag(m, i, a) <= Mag(m, r, a))
    && (forall i | lo <= i < r && i != a :: Mag(m, i, a) < Mag(m, r, a))
  }

  lemma {:induction false} PartnerIs(m: Mat, a: int, lo: int, hi: int, r: int)
    requires 0 <= lo
    ensures IsPartner(m, a, lo, hi, r) <==> r >= 0 && r == Partner(m, a, lo, hi)
  {
    PartnerMeaning(m, a, lo, hi);
    var p := Partner(m, a, lo, hi);
    forall i | lo <= i < hi && i != a
      ensures Mag(m, i, a) <= MaxOff(m, a, lo, hi, -1)
    {
      MaxOffBounds(m, a, lo, hi, -1, i);
    }
  }

  ghost predicate Sound(m: Mat, f: int, k: int, limit: int, prm: Params, pc: Choice)
    requires prm.Valid()
  {
    match pc
    case NoPivot => true
    case One(a) => k <= a < limit && At(m, a, a) != 0.0 &&
                   (prm.Threshold() ==> Acceptable1(m, f, k, a, prm))
    case Two(a, b) => k <= a < limit && k <= b < limit && a != b && k + 1 < limit && prm.Threshold() &&
                      Acceptable2(m, f, k, a, b, prm)
  }

  lemma SelectAtSound(m: Mat, f: int, k: int, e: int, limit: int, prm: Params, cand: int)
    requires prm.Valid() && prm.Threshold() && 0 <= k <= cand < limit <= e <= f
    ensures Sound(m, f, k, limit, prm, SelectAt(m, f, k, e, limit, prm, cand))
  {
    OneOkMeaning(m, f, k, cand, prm);
    PartnerMeaning(m, cand, k, e);
    OneOkMeaning(m, f, k, Partner(m, cand, k, e), prm);
    TwoOkMeaning(m, f, k, cand, Partner(m, cand, k, e), prm);
  }

  lemma {:induction false} SelectFromSound(m: Mat, f: int, k: int, e: int, limit: int, prm: Params, cand: int)
    requires prm.Valid() && prm.Threshold() && 0 <= k <= cand && limit <= e <= f
    ensures Sound(m, f, k, limit, prm, SelectFrom(m, f, k, e, limit, prm, cand))
    decreases limit - cand
  {
    if cand < limit {
      SelectAtSound(m, f, k, e, limit, prm, cand);
      SelectFromSound(m, f, k, e, limit, prm, cand + 1);
    }
  }

  /** A chosen pivot is nonzero, lies among the candidates and, under threshold
      pivoting, passes its growth test over all rows of the front. */
  lemma SelectSound(m: Mat, f: int, k: int, e: int, limit: int, prm: Params)
    requires prm.Valid() && 0 <= k < limit <= e <= f
    ensures Sound(m, f, k, limit, prm, Select(m, f, k, e, limit, prm))
  {
    if prm.Threshold() { SelectFromSound(m, f, k, e, limit, prm, k); }
  }

  // No column of [k, limit) is acceptable alone or with its partner.
  ghost predicate Exhausted(m: Mat, f: int, k: int, e: int, limit: int, prm: Params)
    requires prm.Valid()
  {
    && (forall a | k <= a < limit :: !Acceptable1(m, f, k, a, prm))
    && (forall a, r | k <= a < limit && k <= r < limit && IsPartner(m, a, k, e, r) :: !Acceptable2(m, f, k, a, r, prm))
  }

  /** Selection fails only when no candidate has an acceptable 1x1 pivot or an
      acceptable 2x2 pivot with its partner. */
  lemma SelectComplete(m: Mat, f: int, k: int, e: int, limit: int, prm: Params)
    requires prm.Valid() && prm.Threshold() && 0 <= k < limit <= e <= f
    ensures Select(m, f, k, e, limit, prm).NoPivot? ==> Exhausted(m, f, k, e, limit, prm)
  {
    if Select(m, f, k, e, limit, prm).NoPivot? {
      forall a | k <= a < limit
        ensures !Acceptable1(m, f, k, a, prm)
      {
        SelectFromPasses(m, f, k, e, limit, prm, k, a);
        OneOkMeaning(m, f, k, a, prm);
      }
      forall a, r | k <= a < limit && k <= r < limit && IsPartner(m, a, k, e, r)
        ensures !Acceptable2(m, f, k, a, r, prm)
      {
        SelectFromPasses(m, f, k, e, limit, prm, k, a);
        PartnerIs(m, a, k, e, r);
        TwoOkMeaning(m, f, k, a, r, prm);
      }
    }
  }

  lemma {:induction false} SelectFromPasses(m: Mat, f: int, k: int, e: int, limit: int, prm: Params, cand: int, a: int)
    requires prm.Valid() && cand <= a < limit && SelectFrom(m, f, k, e, limit, prm, cand).NoPivot?
    ensures SelectAt(m, f, k, e, limit, prm, a).NoPivot?
    decreases limit - cand
  {
    if cand < a { SelectFromPasses(m, f, k, e, limit, prm, cand + 1, a); }
  }
}
