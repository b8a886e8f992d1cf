/** Threshold pivoting bounds L: no entry exceeds 1 / u. */
module GrowthBound {
  import opened Reals
  import opened FrontAlgebra
  import opened FrontSteps
  import opened PivotChoice

  // The entries of L below the diagonal in the columns [lo, k), times u, are at most 1.
  ghost predicate Bounded(m: Mat, t: seq<int>, u: real, lo: int, k: int, f: int) {
    forall i, c | lo <= c < k && c < i < f :: Below(Abs(L(m, t, i, c)), 1.0, u)
  }

  lemma SwapKeepsBounded(m: Mat, m': Mat, t: seq<int>, u: real, lo: int, k: int, f: int, p: int, q: int)
    requires Bounded(m, t, u, lo, k, f) && Swapped(m, m', f, p, q)
    requires Blocks(t, k) && 0 <= lo && k <= p <= q < f
    ensures Bounded(m', t, u, lo, k, f)
  {
    forall i, c | lo <= c < k && c < i < f
      ensures Below(Abs(L(m', t, i, c)), 1.0, u)
    {
      SwapKeepsEntries(m, m', t, f, k, p, q, i);
      assert Below(Abs(L(m, t, Swap(p, q, i), c)), 1.0, u);
    }
  }

  lemma SwapMovesOne(m: Mat, m': Mat, f: int, k: int, a: int, prm: Params)
    requires Swapped(m, m', f, k, a) && 0 <= k <= a < f && Acceptable1(m, f, k, a, prm)
    ensures Acceptable1(m', f, k, k, prm)
  {
    forall i | k <= i < f
      ensures Mag(m', i, k) == Mag(m, Swap(k, a, i), a)
    {
      assert At(m', i, k) == Sym(m, Swap(k, a, i), Swap(k, a, k));
    }
  }

  // A 2x2 block and bounds on the entries outside it in its two columns.
  datatype BlockTest = BlockTest(d00: real, d10: real, d11: real, off0: real, off1: real) {
    predicate Passes(prm: Params)
      requires prm.Valid()
    {
      TwoTest(d00, d10, d11, off0, off1, prm)
    }
  }

  ghost predicate BlockBounds(m: Mat, f: int, k: int, a: int, b: int, off0: real, off1: real) {
    && off0 >= 0.0 && off1 >= 0.0
    && forall i | k <= i < f && i != a && i != b :: Mag(m, i, a) <= off0 && Mag(m, i, b) <= off1
  }

  // bt describes the block (a, b).
  ghost predicate BlockAt(m: Mat, f: int, k: int, a: int, b: int, bt: BlockTest) {
    && BlockBounds(m, f, k, a, b, bt.off0, bt.off1)
    && Sym(m, a, a) == bt.d00 && Sym(m, b, a) == bt.d10 && Sym(m, b, b) == bt.d11
  }

  lemma TwoOkBounds(m: Mat, f: int, k: int, a: int, b: int, prm: Params) returns (bt: BlockTest)
    requires prm.Valid() && Acceptable2(m, f, k, a, b, prm) && 0 <= k
    ensures BlockAt(m, f, k, a, b, bt) && bt.Passes(prm)
  {
    TwoOkMeaning(m, f, k, a, b, prm);
    var off0, off1 := MaxOff(m, a, k, f, b), MaxOff(m, b, k, f, a);
    bt := BlockTest(Sym(m, a, a), Sym(m, b, a), Sym(m, b, b), off0, off1);
    forall i | k <= i < f && i != a && i != b
      ensures Mag(m, i, a) <= off0 && Mag(m, i, b) <= off1
    {
      MaxOffBounds(m, a, k, f, b, i);
      MaxOffBounds(m, b, k, f, a, i);
    }
  }

  lemma SwapMovesTwo(m: Mat, m': Mat, f: int, k: int, p: int, q: int, a: int, b: int, bt: BlockTest)
    requires BlockAt(m, f, k, a, b, bt)
    requires Swapped(m, m', f, p, q) && 0 <= k <= p < f && k <= q < f && k <= a < f && k <= b < f
    ensures BlockAt(m', f, k, Swap(p, q, a), Swap(p, q, b), bt)
  {
    var a', b' := Swap(p, q, a), Swap(p, q, b);
    forall i, j | k <= i < f && k <= j < f
      ensures Sym(m', i, j) == Sym(m, Swap(p, q, i), Swap(p, q, j))
    {
      if i >= j { assert At(m', i, j) == Sym(m, Swap(p, q, i), Swap(p, q, j)); }
      else { assert At(m', j, i) == Sym(m, Swap(p, q, j), Swap(p, q, i)); }
    }
    forall i | k <= i < f && i != a' && i != b'
      ensures Mag(m', i, a') <= bt.off0 && Mag(m', i, b') <= bt.off1
    {
      var si := Swap(p, q, i);
      assert Mag(m, si, a) <= bt.off0 && Mag(m, si, b) <= bt.off1;
    }
  }

  lemma Quotient1(x: real, d: real, inv: real, u: real)
    requires Below(Abs(x), Abs(d), u) && inv * d == 1.0
    ensures Below(Abs(x * inv), 1.0, u)
  {
    AbsProduct(x, inv);
    AbsProduct(inv, d);
    Quotient(Abs(x), Abs(d), Abs(inv), u);
  }

  lemma Quotient(x: real, d: real, inv: real, u: real)
    requires u * x <= d && inv * d == 1.0 && inv >= 0.0
    ensures u * (x * inv) <= 1.0
  {
    MulMono(u * x, d, inv);
    assert u * (x * inv) == (u * x) * inv;
  }

  /** A threshold 1x1 pivot puts no entry above 1 / u into L. */
  lemma Bounded1(m: Mat, m': Mat, t: seq<int>, t': seq<int>, f: int, k: int, lo: int, ucol: int, inv: real, prm: Params)
    requires Acceptable1(m, f, k, k, prm) && Eliminated1(m, m', f, k, ucol, inv)
    requires Bounded(m, t, prm.u, lo, k, f) && Blocks(t, k) && 0 <= lo <= k < f && k < |t| && t' == t[k := ONE]
    ensures Bounded(m', t', prm.u, lo, k + 1, f)
  {
    assert SameFactor(m, t, m', t', f, k);
    forall i, c | lo <= c < k + 1 && c < i < f
      ensures Below(Abs(L(m', t', i, c)), 1.0, prm.u)
    {
      if c < k {
        SameFactorEntries(m, t, m', t', f, k, i);
      } else {
        assert L(m', t', i, k) == At(m, i, k) * inv;
        assert Below(Mag(m, i, k), Mag(m, k, k), prm.u);
        Quotient1(At(m, i, k), At(m, k, k), inv, prm.u);
      }
    }
  }

  // One entry of L from a 2x2 pivot, before it is divided by det * s.
  lemma RowBound(p: real, q: real, x0: real, x1: real, off0: real, off1: real)
    requires Abs(x0) <= off0 && Abs(x1) <= off1
    ensures Abs(Dot(p, q, x0, x1)) <= Dot(Abs(p), Abs(q), off0, off1)
  {
    ProductBound(p, x0, off0);
    ProductBound(q, x1, off1);
    AbsSum(p * x0, q * x1);
  }

  lemma ProductBound(p: real, x: real, off: real)
    requires Abs(x) <= off
    ensures Abs(p * x) <= Abs(p) * off
  {
    AbsProduct(p, x);
    MulMono(Abs(x), off, Abs(p));
  }

  // The inverse's entries i0, i1 are the scaled block's times |inv| = 1 / (|det| s).
  lemma EntryBound(p: real, q: real, inv: real, i0: real, i1: real, x0: real, x1: real, off0: real, off1: real,
                   det: real, s: real, u: real)
    requires i0 == p * inv && i1 == q * inv
    requires Abs(x0) <= off0 && Abs(x1) <= off1 && s > 0.0 && IsReciprocal(inv, det, s)
    requires Below(Side(Abs(p), Abs(q), off0, off1, s), Abs(det), u)
    ensures Below(Abs(Dot(i0, i1, x0, x1)), 1.0, u)
  {
    FactorOut(p, q, inv, i0, i1, x0, x1);
    if u >= 0.0 {
      RowBound(p, q, x0, x1, off0, off1);
      ReciprocalMagnitude(inv, det, s);
      ScaledEntry(Abs(Dot(p, q, x0, x1)), Abs(p), Abs(q), off0, off1, s, Abs(inv), Abs(det), u);
      MagnitudeBound(Dot(p, q, x0, x1), inv, Dot(i0, i1, x0, x1), u);
    } else {
      BelowNegative(Abs(Dot(i0, i1, x0, x1)), u);
    }
  }

  lemma MagnitudeBound(l: real, inv: real, y: real, u: real)
    requires y == l * inv && Below(Abs(l) * Abs(inv), 1.0, u)
    ensures Below(Abs(y), 1.0, u)
  {
    AbsProduct(l, inv);
  }

  lemma BelowNegative(x: real, u: real)
    requires x >= 0.0 && u < 0.0
    ensures Below(x, 1.0, u)
  {
    MulNonneg(-u, x);
    assert -u * x == -(u * x);
  }

  lemma ReciprocalMagnitude(inv: real, det: real, s: real)
    requires IsReciprocal(inv, det, s) && s > 0.0
    ensures IsReciprocal(Abs(inv), Abs(det), s)
  {
    AbsProduct(inv, det * s);
    AbsProduct(det, s);
  }

  lemma FactorOut(p: real, q: real, inv: real, i0: real, i1: real, x0: real, x1: real)
    requires i0 == p * inv && i1 == q * inv
    ensures Dot(i0, i1, x0, x1) == Dot(p, q, x0, x1) * inv
  {
    assert (p * inv) * x0 == (p * x0) * inv;
    assert (q * inv) * x1 == (q * x1) * inv;
  }

  lemma ScaledEntry(l: real, p: real, q: real, off0: real, off1: real, s: real, inv: real, det: real, u: real)
    requires 0.0 <= l <= Dot(p, q, off0, off1) && s > 0.0 && inv >= 0.0 && u >= 0.0
    requires IsReciprocal(inv, det, s) && Below(Side(p, q, off0, off1, s), det, u)
    ensures Below(l * inv, 1.0, u)
  {
    DivCancel(p * off0 + q * off1, s);
    Cancelled(l, Dot(p, q, off0, off1), Side(p, q, off0, off1, s), s, inv, det, u);
  }

  lemma Cancelled(l: real, top: real, b: real, s: real, inv: real, det: real, u: real)
    requires 0.0 <= l <= top && b * s == top && s > 0.0 && inv >= 0.0 && u >= 0.0
    requires inv * (det * s) == 1.0 && u * b <= det
    ensures Below(l * inv, 1.0, u)
  {
    MulMono(u * b, det, s * inv);
    MulMono(l, top, u * inv);
    assert (u * b) * (s * inv) == (b * s) * (u * inv);
    assert det * (s * inv) == inv * (det * s);
    assert u * (l * inv) == l * (u * inv);
  }

  lemma BlockRowBounded(m: Mat, f: int, k: int, v: Inverse, i: int, bt: BlockTest, prm: Params)
    requires prm.Valid() && BlockAt(m, f, k, k, k + 1, bt) && bt.Passes(prm)
    requires ScaledFrom(At(m, k, k), At(m, k + 1, k), At(m, k + 1, k + 1), v)
    requires 0 <= k && k + 1 < i < f
    ensures Below(Abs(Solve0(m, v, i, k)), 1.0, prm.u) && Below(Abs(Solve1(m, v, i, k)), 1.0, prm.u)
  {
    assert Mag(m, i, k) <= bt.off0 && Mag(m, i, k + 1) <= bt.off1;
    TestBounds(bt.d00, bt.d10, bt.d11, v, bt.off0, bt.off1, At(m, i, k), At(m, i, k + 1), prm);
  }

  lemma TestBounds(d00: real, d10: real, d11: real, v: Inverse, off0: real, off1: real, x0: real, x1: real, prm: Params)
    requires prm.Valid() && TwoTest(d00, d10, d11, off0, off1, prm) && ScaledFrom(d00, d10, d11, v)
    requires Abs(x0) <= off0 && Abs(x1) <= off1
    ensures Below(Abs(Dot(v.I00(), v.I10(), x0, x1)), 1.0, prm.u)
    ensures Below(Abs(Dot(v.I10(), v.I11(), x0, x1)), 1.0, prm.u)
  {
    var s, det := Scale2(d00, d10, d11), ScaledDet(d00, d10, d11);
    Bound2Sides(d00, d10, d11, v, off0, off1);
    SidesBelow(v, off0, off1, s, det, prm.u);
    EntryPair(v, off0, off1, x0, x1, s, det, prm.u);
  }

  lemma EntryPair(v: Inverse, off0: real, off1: real, x0: real, x1: real, s: real, det: real, u: real)
    requires Abs(x0) <= off0 && Abs(x1) <= off1 && s > 0.0 && IsReciprocal(v.inv, det, s)
    requires Below(Side(Abs(v.c), Abs(-v.b), off0, off1, s), Abs(det), u)
    requires Below(Side(Abs(-v.b), Abs(v.a), off0, off1, s), Abs(det), u)
    ensures Below(Abs(Dot(v.I00(), v.I10(), x0, x1)), 1.0, u)
    ensures Below(Abs(Dot(v.I10(), v.I11(), x0, x1)), 1.0, u)
  {
    EntryBound(v.c, -v.b, v.inv, v.I00(), v.I10(), x0, x1, off0, off1, det, s, u);
    EntryBound(-v.b, v.a, v.inv, v.I10(), v.I11(), x0, x1, off0, off1, det, s, u);
  }

  lemma Bound2Sides(d00: real, d10: real, d11: real, v: Inverse, off0: real, off1: real)
    requires ScaledFrom(d00, d10, d11, v)
    ensures var s := Scale2(d00, d10, d11);
      s > 0.0 && Bound2(d00, d10, d11, off0, off1) ==
        Max(Side(Abs(v.c), Abs(v.b), off0, off1, s), Side(Abs(v.b), Abs(v.a), off0, off1, s))
  {
  }

  lemma SidesBelow(v: Inverse, off0: real, off1: real, s: real, det: real, u: real)
    requires off0 >= 0.0 && off1 >= 0.0 && s > 0.0
    requires off0 > 0.0 || off1 > 0.0 ==>
      Below(Max(Side(Abs(v.c), Abs(v.b), off0, off1, s), Side(Abs(v.b), Abs(v.a), off0, off1, s)), Abs(det), u)
    ensures Below(Side(Abs(v.c), Abs(-v.b), off0, off1, s), Abs(det), u)
    ensures Below(Side(Abs(-v.b), Abs(v.a), off0, off1, s), Abs(det), u)
  {
    assert Abs(-v.b) == Abs(v.b);
    var b0, b1 := Side(Abs(v.c), Abs(v.b), off0, off1, s), Side(Abs(v.b), Abs(v.a), off0, off1, s);
    if off0 > 0.0 || off1 > 0.0 {
      SideNonneg(Abs(v.c), Abs(v.b), off0, off1, s);
      SideNonneg(Abs(v.b), Abs(v.a), off0, off1, s);
      BelowMono(b0, Max(b0, b1), Abs(det), u);
      BelowMono(b1, Max(b0, b1), Abs(det), u);
    } else {
      SideZero(Abs(v.c), Abs(v.b), off0, off1, s);
      SideZero(Abs(v.b), Abs(v.a), off0, off1, s);
      BelowZero(b0, Abs(det), u);
      BelowZero(b1, Abs(det), u);
    }
  }

  lemma SideZero(x: real, y: real, off0: real, off1: real, s: real)
    requires off0 == 0.0 && off1 == 0.0 && s != 0.0
    ensures Side(x, y, off0, off1, s) == 0.0
  {
  }

  /** A threshold 2x2 pivot puts no entry above 1 / u into L. */
  lemma Bounded2(m: Mat, m': Mat, t: seq<int>, t': seq<int>, f: int, k: int, lo: int, ucol: int, v: Inverse,
                 bt: BlockTest, prm: Params)
    requires prm.Valid() && BlockAt(m, f, k, k, k + 1, bt) && bt.Passes(prm)
    requires Eliminated2(m, m', f, k, ucol, v)
    requires ScaledFrom(At(m, k, k), At(m, k + 1, k), At(m, k + 1, k + 1), v)
    requires Bounded(m, t, prm.u, lo, k, f) && Blocks(t, k) && 0 <= lo <= k && k + 1 < f && k + 1 < |t|
    requires t' == t[k := FIRST][k + 1 := SECOND]
    ensures Bounded(m', t', prm.u, lo, k + 2, f)
  {
    assert SameFactor(m, t, m', t', f, k);
    forall i, c | lo <= c < k + 2 && c < i < f
      ensures Below(Abs(L(m', t', i, c)), 1.0, prm.u)
    {
      if c < k {
        SameFactorEntries(m, t, m', t', f, k, i);
      } else if i == k + 1 {
        assert L(m', t', i, c) == 0.0;
        BelowZero(0.0, 1.0, prm.u);
      } else {
        Rows2(m, m', t', f, k, ucol, v, i);
        BlockRowBounded(m, f, k, v, i, bt, prm);
      }
    }
  }

  /** The bound as the kernel states it. */
  lemma BoundedMeans(m: Mat, t: seq<int>, u: real, lo: int, k: int, f: int, i: int, c: int)
    requires Bounded(m, t, u, lo, k, f) && u > 0.0 && lo <= c < k && c < i < f
    ensures Abs(L(m, t, i, c)) <= 1.0 / u
  {
    var x := Abs(L(m, t, i, c));
    assert Below(x, 1.0, u);
    DivideBy(x, u);
  }

  lemma {:induction false} DivideBy(x: real, u: real)
    requires u > 0.0 && Below(x, 1.0, u)
    ensures x <= 1.0 / u
  {
  }
}
