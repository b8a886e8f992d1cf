/** The pivot search as a rule on entries, without its running maxima and tests: which
    candidate yields a pivot, and which one. */
module PivotRule {
  import opened Reals
  import opened FrontAlgebra
  import opened FrontSteps
  import opened PivotChoice

  // The 1x1 pivot a would put an entry above 1 / WEAK_PIVOT_RATIO into L.
  ghost predicate Weak(m: Mat, f: int, k: int, a: int) {
    exists i :: k <= i < f && i != a && Mag(m, a, a) < WEAK_PIVOT_RATIO * Mag(m, i, a)
  }

  // Over the block, entries of sizes y and z grow to less than growth g.
  predicate GrowsLess(d00: real, d10: real, d11: real, y: real, z: real, g: real) {
    var size := DetSize(d00, d10, d11);
    size > 0.0 && Reach(d11, d10, y, z) / size < g && Reach(d10, d00, y, z) / size < g
  }

  // Some entry grows more over the 1x1 pivot a than any entries over the block (a, b).
  ghost predicate Milder(m: Mat, f: int, k: int, a: int, b: int) {
    exists i :: k <= i < f && i != a && Mag(m, i, a) > 0.0 && MilderAt(m, f, k, a, b, i)
  }

  ghost predicate MilderAt(m: Mat, f: int, k: int, a: int, b: int, i: int) {
    Mag(m, a, a) > 0.0 && forall x, y | k <= x < f && x != a && x != b && k <= y < f && y != a && y != b ::
      GrowsLess(Sym(m, a, a), Sym(m, b, a), Sym(m, b, b), Mag(m, x, a), Mag(m, y, b), Mag(m, i, a) / Mag(m, a, a))
  }

  // r is the partner of candidate a and may be touched.
  ghost predicate Near(m: Mat, k: int, e: int, limit: int, a: int, r: int) {
    IsPartner(m, a, k, e, r) && r < limit
  }

  /** What candidate a yields: itself when acceptable, unless it is weak and the block with its
      partner is acceptable and milder; else that block; else its partner. */
  ghost predicate Yields(m: Mat, f: int, k: int, e: int, limit: int, prm: Params, a: int, pc: Choice) {
    match pc
    case NoPivot =>
      && !Acceptable1(m, f, k, a, prm)
      && forall r | Near(m, k, e, limit, a, r) :: !Acceptable2(m, f, k, a, r, prm) && !Acceptable1(m, f, k, r, prm)
    case One(c) =>
      || (c == a && Acceptable1(m, f, k, a, prm)
          && forall r | Near(m, k, e, limit, a, r) && Weak(m, f, k, a) :: !(Acceptable2(m, f, k, a, r, prm) && Milder(m, f, k, a, r)))
      || (c != a && Near(m, k, e, limit, a, c) && !Acceptable1(m, f, k, a, prm)
          && !Acceptable2(m, f, k, a, c, prm) && Acceptable1(m, f, k, c, prm))
    case Two(b, c) =>
      && b == a && Near(m, k, e, limit, a, c) && Acceptable2(m, f, k, a, c, prm)
      && (Acceptable1(m, f, k, a, prm) ==> Weak(m, f, k, a) && Milder(m, f, k, a, c))
  }

  // The first candidate that yields a pivot decides.
  ghost predicate Decides(m: Mat, f: int, k: int, e: int, limit: int, prm: Params, pc: Choice) {
    if pc.NoPivot? then forall a | k <= a < limit :: Yields(m, f, k, e, limit, prm, a, NoPivot)
    else exists a :: k <= a < limit && Yields(m, f, k, e, limit, prm, a, pc) && forall b | k <= b < a :: Yields(m, f, k, e, limit, prm, b, NoPivot)
  }

  // ---- weakness ----

  lemma {:induction false} WeakMeaning(m: Mat, f: int, k: int, a: int)
    requires 0 <= k
    ensures WeakTest(Mag(m, a, a), MaxOff(m, a, k, f, -1)) <==> Weak(m, f, k, a)
  {
    if WeakTest(Mag(m, a, a), MaxOff(m, a, k, f, -1)) {
      var i := MaxOffAttained(m, a, k, f, -1);
    }
    if Weak(m, f, k, a) {
      var i :| k <= i < f && i != a && Mag(m, a, a) < WEAK_PIVOT_RATIO * Mag(m, i, a);
      MaxOffBounds(m, a, k, f, -1, i);
    }
  }

  // ---- growth ----

  lemma {:induction false} SideOver(side: real, det: real, top: real, size: real, s: real)
    requires s > 0.0 && det > 0.0 && Squared(side, s) == top && Squared(det, s) == size
    ensures size > 0.0 && side / det == top / size
  {
    SquaredOrder(0.0, det, s);
    DivCancel(side, det);
    var q := side / det;
    SquaredTimes(q, det, s);
    assert q * size == top;
    DivCancel(top, size);
    SameQuotient(q, top / size, size);
  }

  lemma {:induction false} SameQuotient(p: real, q: real, d: real)
    requires d > 0.0 && p * d == q * d
    ensures p == q
  {
    ScaledOrder(p, q, d);
    ScaledOrder(q, p, d);
  }

  lemma {:induction false} MaxOver(x: real, y: real, d: real, g: real)
    requires d > 0.0
    ensures Max(x, y) / d < g <==> x / d < g && y / d < g
  {
    if x <= y { DivOrder(x, y, d); } else { DivOrder(y, x, d); }
  }

  lemma {:induction false} DivOrder(x: real, y: real, d: real)
    requires d > 0.0 && x <= y
    ensures x / d <= y / d
  {
    DivCancel(x, d);
    DivCancel(y, d);
    ScaledOrder(y / d, x / d, d);
  }

  lemma {:induction false} TwoGrowthIs(d00: real, d10: real, d11: real, off0: real, off1: real, s: real, det: real, y: real, z: real)
    requires s == Scale2(d00, d10, d11) && s > 0.0 && det == Abs(ScaledDet(d00, d10, d11)) && det > 0.0
    requires y == Side(Abs(d11 / s), Abs(d10 / s), off0, off1, s) && z == Side(Abs(d10 / s), Abs(d00 / s), off0, off1, s)
    ensures TwoGrowth(d00, d10, d11, off0, off1) == if off0 > 0.0 || off1 > 0.0 then Max(y, z) / det else 0.0
  {
  }

  lemma {:induction false} SidesBack(d00: real, d10: real, d11: real, off0: real, off1: real, s: real, det: real, y: real, z: real)
    requires s == Scale2(d00, d10, d11) && s > 0.0 && det == Abs(ScaledDet(d00, d10, d11)) && det > 0.0
    requires y == Side(Abs(d11 / s), Abs(d10 / s), off0, off1, s) && z == Side(Abs(d10 / s), Abs(d00 / s), off0, off1, s)
    ensures var size := DetSize(d00, d10, d11);
      size > 0.0 && y / det == Reach(d11, d10, off0, off1) / size && z / det == Reach(d10, d00, off0, off1) / size
  {
    DetScaledBack(d00, d10, d11, s);
    SideBack(d11, d10, off0, off1, s);
    SideBack(d10, d00, off0, off1, s);
    SideOver(y, det, Reach(d11, d10, off0, off1), DetSize(d00, d10, d11), s);
    SideOver(z, det, Reach(d10, d00, off0, off1), DetSize(d00, d10, d11), s);
  }

  // The growth of a block over both maxima, without the scaling.
  lemma {:induction false} GrowthMeaning(d00: real, d10: real, d11: real, off0: real, off1: real, g: real)
    requires Scale2(d00, d10, d11) > 0.0 && ScaledDet(d00, d10, d11) != 0.0 && off0 >= 0.0 && off1 >= 0.0 && g > 0.0
    ensures TwoGrowth(d00, d10, d11, off0, off1) < g <==> GrowsLess(d00, d10, d11, off0, off1, g)
  {
    var s, det := Scale2(d00, d10, d11), Abs(ScaledDet(d00, d10, d11));
    var y, z := Side(Abs(d11 / s), Abs(d10 / s), off0, off1, s), Side(Abs(d10 / s), Abs(d00 / s), off0, off1, s);
    TwoGrowthIs(d00, d10, d11, off0, off1, s, det, y, z);
    SidesBack(d00, d10, d11, off0, off1, s, det, y, z);
    MaxOver(y, z, det, g);
    if off0 == 0.0 && off1 == 0.0 { NoGrowth(d00, d10, d11, g); }
  }

  lemma {:induction false} NoGrowth(d00: real, d10: real, d11: real, g: real)
    requires DetSize(d00, d10, d11) > 0.0 && g > 0.0
    ensures GrowsLess(d00, d10, d11, 0.0, 0.0, g)
  {
    NoReach(d11, d10);
    NoReach(d10, d00);
  }

  lemma {:induction false} NoReach(p: real, q: real)
    ensures Reach(p, q, 0.0, 0.0) == 0.0
  {
  }

  lemma {:induction false} LessMono(d00: real, d10: real, d11: real, y: real, z: real, y': real, z': real, g: real, g': real)
    requires GrowsLess(d00, d10, d11, y', z', g) && 0.0 <= y <= y' && 0.0 <= z <= z' && g <= g'
    ensures GrowsLess(d00, d10, d11, y, z, g')
  {
    HalfMono(d11, d10, y, z, y', z', DetSize(d00, d10, d11));
    HalfMono(d10, d00, y, z, y', z', DetSize(d00, d10, d11));
  }

  lemma {:induction false} HalfMono(p: real, q: real, y: real, z: real, y': real, z': real, size: real)
    requires 0.0 <= y <= y' && 0.0 <= z <= z' && size > 0.0
    ensures Reach(p, q, y, z) / size <= Reach(p, q, y', z') / size
  {
    ReachMono(p, q, y, z, y', z');
    DivOrder(Reach(p, q, y, z), Reach(p, q, y', z'), size);
  }

  // The comparison of the two growths, over all rows.
  lemma {:induction false} MilderMeaning(m: Mat, f: int, k: int, a: int, b: int, prm: Params)
    requires prm.Valid() && 0 <= k && TwoOk(m, f, k, a, b, prm) && Mag(m, a, a) > 0.0
    ensures Growth2(m, f, k, a, b, prm) < OneGrowth(Mag(m, a, a), MaxOff(m, a, k, f, -1)) <==> Milder(m, f, k, a, b)
  {
    var off0, off1, x, d := MaxOff(m, a, k, f, b), MaxOff(m, b, k, f, a), MaxOff(m, a, k, f, -1), Mag(m, a, a);
    var d00, d10, d11 := Sym(m, a, a), Sym(m, b, a), Sym(m, b, b);
    if x > 0.0 {
      QuotientPositive(x, d);
      GrowthMeaning(d00, d10, d11, off0, off1, x / d);
      if GrowsLess(d00, d10, d11, off0, off1, x / d) { MilderThere(m, f, k, a, b); }
      DetPositive(d00, d10, d11);
      if Milder(m, f, k, a, b) { MilderBack(m, f, k, a, b); }
    } else {
      NotNegative(d00, d10, d11, off0, off1);
      NothingBigger(m, f, k, a);
      assert OneGrowth(d, x) == 0.0;
    }
  }

  lemma {:induction false} DetPositive(d00: real, d10: real, d11: real)
    requires Scale2(d00, d10, d11) > 0.0 && ScaledDet(d00, d10, d11) != 0.0
    ensures DetSize(d00, d10, d11) > 0.0
  {
    var s, det := Scale2(d00, d10, d11), Abs(ScaledDet(d00, d10, d11));
    DetScaledBack(d00, d10, d11, s);
    SquaredOrder(0.0, det, s);
  }

  lemma {:induction false} QuotientPositive(x: real, d: real)
    requires x > 0.0 && d > 0.0
    ensures x / d > 0.0
  {
  }

  lemma {:induction false} NothingBigger(m: Mat, f: int, k: int, a: int)
    requires MaxOff(m, a, k, f, -1) == 0.0
    ensures forall i | k <= i < f && i != a && i != -1 :: Mag(m, i, a) == 0.0
  {
    forall i | k <= i < f && i != a && i != -1
      ensures Mag(m, i, a) == 0.0
    {
      MaxOffBounds(m, a, k, f, -1, i);
    }
  }

  lemma {:induction false} NotNegative(d00: real, d10: real, d11: real, off0: real, off1: real)
    requires Scale2(d00, d10, d11) > 0.0 && ScaledDet(d00, d10, d11) != 0.0 && off0 >= 0.0 && off1 >= 0.0
    ensures TwoGrowth(d00, d10, d11, off0, off1) >= 0.0
  {
    var s, det := Scale2(d00, d10, d11), Abs(ScaledDet(d00, d10, d11));
    var y, z := Side(Abs(d11 / s), Abs(d10 / s), off0, off1, s), Side(Abs(d10 / s), Abs(d00 / s), off0, off1, s);
    TwoGrowthIs(d00, d10, d11, off0, off1, s, det, y, z);
    SideNonneg(Abs(d11 / s), Abs(d10 / s), off0, off1, s);
    DivOrder(0.0, Max(y, z), det);
  }

  lemma {:induction false} MilderThere(m: Mat, f: int, k: int, a: int, b: int)
    requires 0 <= k && MaxOff(m, a, k, f, -1) > 0.0 && Mag(m, a, a) > 0.0
    requires GrowsLess(Sym(m, a, a), Sym(m, b, a), Sym(m, b, b), MaxOff(m, a, k, f, b), MaxOff(m, b, k, f, a),
                       MaxOff(m, a, k, f, -1) / Mag(m, a, a))
    ensures Milder(m, f, k, a, b)
  {
    var i := MaxOffAttained(m, a, k, f, -1);
    var g := Mag(m, i, a) / Mag(m, a, a);
    forall x, y | k <= x < f && x != a && x != b && k <= y < f && y != a && y != b
      ensures GrowsLess(Sym(m, a, a), Sym(m, b, a), Sym(m, b, b), Mag(m, x, a), Mag(m, y, b), g)
    {
      MaxOffBounds(m, a, k, f, b, x);
      MaxOffBounds(m, b, k, f, a, y);
      LessMono(Sym(m, a, a), Sym(m, b, a), Sym(m, b, b), Mag(m, x, a), Mag(m, y, b), MaxOff(m, a, k, f, b), MaxOff(m, b, k, f, a), g, g);
    }
    assert MilderAt(m, f, k, a, b, i);
  }

  lemma {:induction false} MilderBack(m: Mat, f: int, k: int, a: int, b: int)
    requires 0 <= k && Milder(m, f, k, a, b) && Mag(m, a, a) > 0.0 && DetSize(Sym(m, a, a), Sym(m, b, a), Sym(m, b, b)) > 0.0
    ensures GrowsLess(Sym(m, a, a), Sym(m, b, a), Sym(m, b, b), MaxOff(m, a, k, f, b), MaxOff(m, b, k, f, a),
                      MaxOff(m, a, k, f, -1) / Mag(m, a, a))
  {
    var d00, d10, d11 := Sym(m, a, a), Sym(m, b, a), Sym(m, b, b);
    var off0, off1, d := MaxOff(m, a, k, f, b), MaxOff(m, b, k, f, a), Mag(m, a, a);
    var i :| k <= i < f && i != a && Mag(m, i, a) > 0.0 && MilderAt(m, f, k, a, b, i);
    MaxOffBounds(m, a, k, f, -1, i);
    var x, y := MaximaAttained(m, f, k, a, b);
    if off0 == 0.0 && off1 == 0.0 {
      QuotientPositive(MaxOff(m, a, k, f, -1), d);
      NoGrowth(d00, d10, d11, MaxOff(m, a, k, f, -1) / d);
    } else {
      DivOrder(Mag(m, i, a), MaxOff(m, a, k, f, -1), d);
      LessMono(d00, d10, d11, off0, off1, off0, off1, Mag(m, i, a) / d, MaxOff(m, a, k, f, -1) / d);
    }
  }

  // ---- the rule ----

  lemma {:induction false} SelectAtYields(m: Mat, f: int, k: int, e: int, limit: int, prm: Params, cand: int)
    requires prm.Valid() && 0 <= k <= cand < limit <= e <= f
    ensures Yields(m, f, k, e, limit, prm, cand, SelectAt(m, f, k, e, limit, prm, cand))
  {
    var r := Partner(m, cand, k, e);
    OneOkMeaning(m, f, k, cand, prm);
    WeakMeaning(m, f, k, cand);
    PartnerMeaning(m, cand, k, e);
    forall p ensures Near(m, k, e, limit, cand, p) <==> p == r && k <= r < limit { PartnerIs(m, cand, k, e, p); }
    if k <= r < limit {
      OneOkMeaning(m, f, k, r, prm);
      TwoOkMeaning(m, f, k, cand, r, prm);
      if TwoOk(m, f, k, cand, r, prm) && OneOk(m, f, k, cand, prm) { MilderMeaning(m, f, k, cand, r, prm); }
    }
  }

  lemma {:induction false} SelectFromDecides(m: Mat, f: int, k: int, e: int, limit: int, prm: Params, cand: int)
    requires prm.Valid() && 0 <= k <= cand <= limit <= e <= f
    requires forall b | k <= b < cand :: Yields(m, f, k, e, limit, prm, b, NoPivot)
    ensures Decides(m, f, k, e, limit, prm, SelectFrom(m, f, k, e, limit, prm, cand))
    decreases limit - cand
  {
    if cand < limit {
      SelectAtYields(m, f, k, e, limit, prm, cand);
      if SelectAt(m, f, k, e, limit, prm, cand).NoPivot? { SelectFromDecides(m, f, k, e, limit, prm, cand + 1); }
    }
  }

  lemma {:induction false} OneYield(m: Mat, f: int, k: int, e: int, limit: int, prm: Params, a: int, pc: Choice, pc': Choice)
    requires 0 <= k && Yields(m, f, k, e, limit, prm, a, pc) && Yields(m, f, k, e, limit, prm, a, pc')
    ensures pc == pc'
  {
    forall r, s | Near(m, k, e, limit, a, r) && Near(m, k, e, limit, a, s)
      ensures r == s
    {
      PartnerIs(m, a, k, e, r);
      PartnerIs(m, a, k, e, s);
    }
  }

  lemma {:induction false} OneDecision(m: Mat, f: int, k: int, e: int, limit: int, prm: Params, pc: Choice, pc': Choice)
    requires 0 <= k && Decides(m, f, k, e, limit, prm, pc) && Decides(m, f, k, e, limit, prm, pc')
    ensures pc == pc'
  {
    if !pc.NoPivot? {
      var a :| k <= a < limit && Yields(m, f, k, e, limit, prm, a, pc) && forall b | k <= b < a :: Yields(m, f, k, e, limit, prm, b, NoPivot);
      if pc'.NoPivot? {
        OneYield(m, f, k, e, limit, prm, a, pc, NoPivot);
      } else {
        var b :| k <= b < limit && Yields(m, f, k, e, limit, prm, b, pc') && forall c | k <= c < b :: Yields(m, f, k, e, limit, prm, c, NoPivot);
        if a < b { OneYield(m, f, k, e, limit, prm, a, pc, NoPivot); }
        if b < a { OneYield(m, f, k, e, limit, prm, b, pc', NoPivot); }
        OneYield(m, f, k, e, limit, prm, a, pc, pc');
      }
    } else if !pc'.NoPivot? {
      var b :| k <= b < limit && Yields(m, f, k, e, limit, prm, b, pc');
      OneYield(m, f, k, e, limit, prm, b, pc', NoPivot);
    }
  }

  /** Threshold selection is this rule, and nothing else is. */
  lemma SelectIsRule(m: Mat, f: int, k: int, e: int, limit: int, prm: Params, pc: Choice)
    requires prm.Valid() && prm.Threshold() && 0 <= k < limit <= e <= f
    ensures Select(m, f, k, e, limit, prm) == pc <==> Decides(m, f, k, e, limit, prm, pc)
  {
    SelectFromDecides(m, f, k, e, limit, prm, k);
    if Decides(m, f, k, e, limit, prm, pc) { OneDecision(m, f, k, e, limit, prm, pc, Select(m, f, k, e, limit, prm)); }
  }
}
