/** What one step of the front kernel does to the relation `Lagging`: a symmetric
    swap, a 1x1 or 2x2 elimination, a deferred update. */
module FrontSteps {
  import opened Reals
  import opened FrontAlgebra

  function Swap(p: int, q: int, i: int): int {
    if i == p then q else if i == q then p else i
  }

  // m' is m with positions p and q exchanged, on the lower triangle.
  ghost predicate Swapped(m: Mat, m': Mat, f: int, p: int, q: int) {
    forall i, j | 0 <= j <= i < f :: At(m', i, j) == Sym(m, Swap(p, q, i), Swap(p, q, j))
  }

  ghost predicate RowsSwapped(rows: seq<int>, rows': seq<int>, p: int, q: int)
    requires 0 <= p < |rows| && 0 <= q < |rows|
  {
    rows' == rows[p := rows[q]][q := rows[p]]
  }

  // All columns from p to q have received the same pivots.
  ghost predicate Level(g: Lag, p: int, q: int) {
    forall j | p <= j <= q :: Stage(g, j) == Stage(g, p)
  }

  lemma SwapKeepsEntries(m: Mat, m': Mat, t: seq<int>, f: int, k: int, p: int, q: int, i: int)
    requires Swapped(m, m', f, p, q)
    requires Blocks(t, k) && k <= p <= q < f && 0 <= i < f
    ensures forall c | 0 <= c < k ::
      L(m', t, i, c) == L(m, t, Swap(p, q, i), c) && LD(m', t, i, c) == LD(m, t, Swap(p, q, i), c)
  {
    var si := Swap(p, q, i);
    forall c | 0 <= c < k
      ensures L(m', t, i, c) == L(m, t, si, c)
      ensures At(m', c, c) == At(m, c, c)
      ensures Tag(t, c) == FIRST ==> At(m', c + 1, c) == At(m, c + 1, c)
    {
      assert Swap(p, q, c) == c && InBlock(t, k, c);
      if i > c { assert At(m', i, c) == Sym(m, si, c); }
      assert At(m', c, c) == Sym(m, c, c);
      if Tag(t, c) == FIRST {
        assert Swap(p, q, c + 1) == c + 1;
        assert At(m', c + 1, c) == Sym(m, c + 1, c);
      }
    }
    forall c | 0 <= c < k
      ensures LD(m', t, i, c) == LD(m, t, si, c)
    {
      assert InBlock(t, k, c);
    }
  }

  lemma SwapKeepsSums(m: Mat, m': Mat, t: seq<int>, f: int, k: int, p: int, q: int, i: int, j: int, hi: int)
    requires Swapped(m, m', f, p, q)
    requires Blocks(t, k) && 0 <= hi <= k <= p <= q < f
    requires 0 <= i < f && 0 <= j < f
    ensures LDLt(m', t, i, j, 0, hi) == LDLt(m, t, Swap(p, q, i), Swap(p, q, j), 0, hi)
  {
    SwapKeepsEntries(m, m', t, f, k, p, q, i);
    SwapKeepsEntries(m, m', t, f, k, p, q, j);
    LDLtFrame(m', t, i, j, m, t, Swap(p, q, i), Swap(p, q, j), hi);
  }

  /** Exchanging two rows and columns of the same stage keeps the relation. */
  lemma SwapKeepsLagging(A: (int, int) -> real, m: Mat, m': Mat, rows: seq<int>, rows': seq<int>,
                         t: seq<int>, g: Lag, p: int, q: int)
    requires Symmetric(A)
    requires Lagging(A, m, rows, t, g)
    requires g.k <= p <= q < |rows| && Level(g, p, q)
    requires Swapped(m, m', |rows|, p, q) && RowsSwapped(rows, rows', p, q)
    ensures Lagging(A, m', rows', t, g)
  {
    forall i, j | 0 <= j <= i < |rows'|
      ensures EntryLags(A, m', rows', t, g, i, j)
    {
      var si, sj := Swap(p, q, i), Swap(p, q, j);
      var h := Depth(g, j);
      assert rows'[i] == rows[si] && rows'[j] == rows[sj];
      SwapKeepsSums(m, m', t, |rows|, g.k, p, q, i, j, h);
      assert At(m', i, j) == Sym(m, si, sj);
      BlocksEndAtBoundary(t, g.k);
      assert Boundary(t, h);
      if j != sj { assert Stage(g, j) == Stage(g, p) == Stage(g, sj); }
      if si >= sj {
        assert EntryLags(A, m, rows, t, g, si, sj);
      } else {
        assert p <= si <= q && p <= sj <= q;
        assert Stage(g, si) == Stage(g, p) == Stage(g, sj);
        assert EntryLags(A, m, rows, t, g, sj, si);
        assert A(rows[si], rows[sj]) == A(rows[sj], rows[si]);
        LDLtSymmetric(m, t, si, sj, h);
      }
    }
  }

  // The columns [0, k) hold the same L and D, and the tags there are the same.
  ghost predicate SameFactor(m: Mat, t: seq<int>, m': Mat, t': seq<int>, f: int, k: int) {
    && (forall i, c | 0 <= c < k && c <= i < f :: At(m', i, c) == At(m, i, c))
    && (forall c | 0 <= c < k :: Tag(t', c) == Tag(t, c))
  }

  lemma SameFactorSums(m: Mat, t: seq<int>, m': Mat, t': seq<int>, f: int, k: int, i: int, j: int, hi: int)
    requires SameFactor(m, t, m', t', f, k) && Blocks(t, k) && 0 <= hi <= k <= f
    requires 0 <= i < f && 0 <= j < f
    ensures LDLt(m', t', i, j, 0, hi) == LDLt(m, t, i, j, 0, hi)
  {
    SameFactorEntries(m, t, m', t', f, k, i);
    SameFactorEntries(m, t, m', t', f, k, j);
    LDLtFrame(m, t, i, j, m', t', i, j, hi);
  }

  lemma SameFactorEntries(m: Mat, t: seq<int>, m': Mat, t': seq<int>, f: int, k: int, i: int)
    requires SameFactor(m, t, m', t', f, k) && Blocks(t, k) && k <= f
    requires 0 <= i < f
    ensures forall c | 0 <= c < k :: L(m', t', i, c) == L(m, t, i, c) && LD(m', t', i, c) == LD(m, t, i, c)
  {
    forall c | 0 <= c < k
      ensures L(m', t', i, c) == L(m, t, i, c) && LD(m', t', i, c) == LD(m, t, i, c)
    {
      assert InBlock(t, k, c);
      assert Tag(t, c) == FIRST ==> Tag(t', c + 1) == SECOND;
      assert Tag(t, c) == SECOND ==> Tag(t', c - 1) == FIRST;
    }
  }

  // Behind the pivot columns [k, k'), the columns before ucol gain those pivots.
  ghost predicate Advanced(g: Lag, g': Lag, ucol: int, f: int) {
    && g.k < g'.k <= g.e && g'.e == g.e && g'.base == g.base && g'.base <= g'.ps <= g.k
    && (forall j | g.k <= j < g'.k || g.k <= j < ucol :: Stage(g, j) == g.k)
    && (forall j | g'.k <= j < f :: Stage(g', j) == if j < ucol then g'.k else Stage(g, j))
  }

  ghost function Updated1(m: Mat, k: int, i: int, j: int, inv: real): real {
    At(m, i, j) - At(m, i, k) * (At(m, j, k) * inv)
  }

  ghost function Result1(m: Mat, k: int, ucol: int, i: int, j: int, inv: real): real {
    if j == k && i > k then At(m, i, k) * inv
    else if k < j < ucol then Updated1(m, k, i, j, inv)
    else At(m, i, j)
  }

  // Column k times `inv`, the columns (k, ucol) updated by the 1x1 pivot.
  ghost predicate Eliminated1(m: Mat, m': Mat, f: int, k: int, ucol: int, inv: real)
  {
    && inv * At(m, k, k) == 1.0
    && forall i, j | 0 <= j <= i < f :: At(m', i, j) == Result1(m, k, ucol, i, j, inv)
  }

  lemma Pivot1(x: real, y: real, inv: real, d: real)
    requires inv * d == 1.0
    ensures (x * inv) * ((y * inv) * d) == x * (y * inv)
    ensures (x * inv) * d == x
    ensures (x * inv) * (1.0 * d) == x
  {
    assert (y * inv) * d == y * (inv * d);
    assert (x * inv) * d == x * (inv * d);
    assert (x * inv) * y == x * (y * inv);
  }

  lemma Gain1(m: Mat, m': Mat, t': seq<int>, f: int, k: int, ucol: int, inv: real, i: int, j: int)
      returns (gain: real)
    requires Eliminated1(m, m', f, k, ucol, inv) && Tag(t', k) == ONE
    requires 0 <= j <= i < f && 0 <= k < f
    ensures gain == Gain(m', t', i, j, k)
    ensures j < k ==> gain == 0.0
    ensures j == k ==> gain == At(m, i, k)
    ensures k < j < ucol ==> gain == At(m, i, j) - At(m', i, j)
    ensures j > k && j >= ucol ==> At(m', i, j) == At(m, i, j)
  {
    var d := At(m, k, k);
    assert At(m', k, k) == d;
    gain := Gain(m', t', i, j, k);
    if j < k {
      assert L(m', t', j, k) == 0.0;
    } else if j == k {
      if i > k {
        assert L(m', t', i, k) == At(m, i, k) * inv;
        Pivot1(At(m, i, k), 0.0, inv, d);
      }
    } else {
      assert L(m', t', i, k) == At(m, i, k) * inv && L(m', t', j, k) == At(m, j, k) * inv;
      Pivot1(At(m, i, k), At(m, j, k), inv, d);
    }
  }

  // What entry (i, j) of L D L^T gains from the pivots [g.k, g'.k) it loses from the front.
  lemma AdvanceEntry(A: (int, int) -> real, m: Mat, m': Mat, rows: seq<int>, t: seq<int>, t': seq<int>,
                     g: Lag, g': Lag, ucol: int, i: int, j: int, gain: real)
    requires 0 <= j <= i < |rows| && Advanced(g, g', ucol, |rows|)
    requires EntryLags(A, m, rows, t, g, i, j)
    requires LDLt(m', t', i, j, 0, Depth(g, j)) == LDLt(m, t, i, j, 0, Depth(g, j))
    requires LDLt(m', t', i, j, 0, g'.k) == LDLt(m', t', i, j, 0, g.k) + gain
    requires j < g.k ==> gain == 0.0
    requires g.k <= j < g'.k ==> gain == At(m, i, j)
    requires g'.k <= j < ucol ==> gain == At(m, i, j) - At(m', i, j)
    requires g'.k <= j && ucol <= j ==> At(m', i, j) == At(m, i, j)
    ensures EntryLags(A, m', rows, t', g', i, j)
  {
  }

  lemma Eliminate1Entry(A: (int, int) -> real, m: Mat, m': Mat, rows: seq<int>, t: seq<int>, t': seq<int>,
                        g: Lag, g': Lag, ucol: int, inv: real, i: int, j: int)
    requires Lagging(A, m, rows, t, g)
    requires g'.k == g.k + 1 && Advanced(g, g', ucol, |rows|)
    requires t' == t[g.k := ONE] && SameFactor(m, t, m', t', |rows|, g.k)
    requires Eliminated1(m, m', |rows|, g.k, ucol, inv)
    requires 0 <= j <= i < |rows|
    ensures EntryLags(A, m', rows, t', g', i, j)
  {
    SameFactorSums(m, t, m', t', |rows|, g.k, i, j, Depth(g, j));
    var gain := Gain1(m, m', t', |rows|, g.k, ucol, inv, i, j);
    AdvanceEntry(A, m, m', rows, t, t', g, g', ucol, i, j, gain);
  }

  /** Eliminating a 1x1 pivot moves it into L D L^T. */
  lemma Eliminate1KeepsLagging(A: (int, int) -> real, m: Mat, m': Mat, rows: seq<int>, t: seq<int>, t': seq<int>,
                               g: Lag, g': Lag, ucol: int, inv: real)
    requires Lagging(A, m, rows, t, g)
    requires g'.k == g.k + 1 && Advanced(g, g', ucol, |rows|) && Boundary(t, g'.ps)
    requires t' == t[g.k := ONE]
    requires Eliminated1(m, m', |rows|, g.k, ucol, inv)
    ensures Lagging(A, m', rows, t', g')
  {
    var k := g.k;
    var k' := g'.k;
    assert SameFactor(m, t, m', t', |rows|, k);
    forall c | 0 <= c < k' ensures InBlock(t', k', c) {
      if c < k { assert InBlock(t, k, c); }
    }
    forall i, j | 0 <= j <= i < |rows| ensures EntryLags(A, m', rows, t', g', i, j) {
      Eliminate1Entry(A, m, m', rows, t, t', g, g', ucol, inv, i, j);
    }
  }

  // Entries of the inverse of [d00 d10; d10 d11], as the kernel scales it.
  function Scale2(d00: real, d10: real, d11: real): (s: real)
    ensures s >= Abs(d00) && s >= Abs(d10) && s >= Abs(d11)
    ensures s == 0.0 <==> d00 == 0.0 && d10 == 0.0 && d11 == 0.0
  {
    Max(Max(Abs(d00), Abs(d10)), Abs(d11))
  }

  function ScaledDet(d00: real, d10: real, d11: real): real {
    var s := Scale2(d00, d10, d11);
    if s == 0.0 then 0.0 else (d00 / s) * (d11 / s) - (d10 / s) * (d10 / s)
  }

  /** The inverse of a 2x2 pivot block: the adjugate of the block scaled to
      (a, b, c), times `inv`. */
  datatype Inverse = Inverse(a: real, b: real, c: real, inv: real) {
    function I00(): real { c * inv }
    function I10(): real { -b * inv }
    function I11(): real { a * inv }
  }

  // v is the inverse of [d00 d10; d10 d11], built from the block scaled by s.
  ghost predicate IsInverse(d00: real, d10: real, d11: real, s: real, v: Inverse) {
    && v.a * s == d00 && v.b * s == d10 && v.c * s == d11
    && v.inv * ((v.a * v.c - v.b * v.b) * s) == 1.0
  }

  ghost predicate ScaledFrom(d00: real, d10: real, d11: real, v: Inverse) {
    var s := Scale2(d00, d10, d11);
    && s != 0.0 && v.a == d00 / s && v.b == d10 / s && v.c == d11 / s
    && IsReciprocal(v.inv, ScaledDet(d00, d10, d11), s)
  }

  ghost predicate IsReciprocal(inv: real, det: real, s: real) {
    inv * (det * s) == 1.0
  }

  method Inverse2x2(d00: real, d10: real, d11: real) returns (v: Inverse)
    requires ScaledDet(d00, d10, d11) != 0.0
    ensures IsInverse(d00, d10, d11, Scale2(d00, d10, d11), v)
    ensures ScaledFrom(d00, d10, d11, v)
  {
    var s := Scale2(d00, d10, d11);
    var det := ScaledDet(d00, d10, d11);
    v := InvertScaled(d00 / s, d10 / s, d11 / s, det, s);
    assert IsInverse(d00, d10, d11, s, v) by { ScaledParts(d00, d10, d11, s, v, det); }
  }

  method InvertScaled(a: real, b: real, c: real, det: real, s: real) returns (v: Inverse)
    requires det != 0.0 && s != 0.0
    ensures v.a == a && v.b == b && v.c == c
    ensures IsReciprocal(v.inv, det, s)
  {
    ProductNonzero(det, s);
    DivCancel(1.0, det * s);
    v := Inverse(a, b, c, 1.0 / (det * s));
  }

  lemma ScaledParts(d00: real, d10: real, d11: real, s: real, v: Inverse, det: real)
    requires s != 0.0 && v.a == d00 / s && v.b == d10 / s && v.c == d11 / s
    requires det == v.a * v.c - v.b * v.b
    requires IsReciprocal(v.inv, det, s)
    ensures IsInverse(d00, d10, d11, s, v)
  {
    DivCancel(d00, s); DivCancel(d10, s); DivCancel(d11, s);
  }

  ghost predicate Inverts(d00: real, d10: real, d11: real, v: Inverse) {
    && d00 * v.I00() + d10 * v.I10() == 1.0 && d00 * v.I10() + d10 * v.I11() == 0.0
    && d10 * v.I00() + d11 * v.I10() == 0.0 && d10 * v.I10() + d11 * v.I11() == 1.0
  }

  lemma ProductNonzero(x: real, y: real)
    requires x != 0.0 && y != 0.0
    ensures x * y != 0.0
  {
  }

  // D D^-1 is the identity.
  lemma InverseIdentity(d00: real, d10: real, d11: real, s: real, v: Inverse)
    requires IsInverse(d00, d10, d11, s, v)
    ensures Inverts(d00, d10, d11, v)
  {
    var det := v.a * v.c - v.b * v.b;
    Distribute(v.a, v.b, v.c, s);
    Cofactors(d00, d10, v.c, -v.b, v.inv, det * s);
    Cofactors(d00, d10, -v.b, v.a, v.inv, 0.0);
    Cofactors(d10, d11, v.c, -v.b, v.inv, 0.0);
    Cofactors(d10, d11, -v.b, v.a, v.inv, det * s);
  }

  lemma Cofactors(x: real, y: real, v: real, w: real, inv: real, z: real)
    requires x * v + y * w == z
    ensures x * (v * inv) + y * (w * inv) == inv * z
  {
    assert x * (v * inv) == (x * v) * inv;
    assert y * (w * inv) == (y * w) * inv;
    assert (x * v) * inv + (y * w) * inv == (x * v + y * w) * inv;
  }

  lemma Distribute(a: real, b: real, c: real, s: real)
    ensures (a * s) * c + (b * s) * -b == (a * c - b * b) * s
    ensures (b * s) * -b + (c * s) * a == (a * c - b * b) * s
    ensures (a * s) * -b + (b * s) * a == 0.0
    ensures (b * s) * c + (c * s) * -b == 0.0
  {
    assert (a * s) * c == (a * c) * s;
    assert (c * s) * a == (a * c) * s;
    assert (b * s) * -b == -((b * b) * s);
    assert (a * s) * -b == -((a * s) * b);
    assert (b * s) * a == (a * s) * b;
    assert (c * s) * -b == -((b * s) * c);
  }

  // Row i of L for the columns (k, k + 1) of a 2x2 pivot.
  function Solve0(m: Mat, v: Inverse, i: int, k: int): real {
    Dot(v.I00(), v.I10(), At(m, i, k), At(m, i, k + 1))
  }

  function Solve1(m: Mat, v: Inverse, i: int, k: int): real {
    Dot(v.I10(), v.I11(), At(m, i, k), At(m, i, k + 1))
  }

  function Dot(p: real, q: real, x: real, y: real): real {
    p * x + q * y
  }

  ghost function Updated2(m: Mat, k: int, i: int, j: int, v: Inverse): real {
    At(m, i, j) - (At(m, i, k) * Solve0(m, v, j, k) + At(m, i, k + 1) * Solve1(m, v, j, k))
  }

  ghost function Result2(m: Mat, k: int, ucol: int, i: int, j: int, v: Inverse): real {
    if j == k && i > k + 1 then Solve0(m, v, i, k)
    else if j == k + 1 && i > k + 1 then Solve1(m, v, i, k)
    else if k + 1 < j < ucol then Updated2(m, k, i, j, v)
    else At(m, i, j)
  }

  // Columns k and k + 1 times the inverse of their block, the columns (k + 1, ucol) updated.
  ghost predicate Eliminated2(m: Mat, m': Mat, f: int, k: int, ucol: int, v: Inverse)
  {
    && Inverts(At(m, k, k), At(m, k + 1, k), At(m, k + 1, k + 1), v)
    && forall i, j | 0 <= j <= i < f :: At(m', i, j) == Result2(m, k, ucol, i, j, v)
  }

  lemma SolveBlock(d00: real, d10: real, d11: real, v: Inverse, a0: real, a1: real, l0: real, l1: real)
    requires Inverts(d00, d10, d11, v)
    requires l0 == Dot(v.I00(), v.I10(), a0, a1) && l1 == Dot(v.I10(), v.I11(), a0, a1)
    ensures Dot(l0, l1, d00, d10) == a0 && Dot(l0, l1, d10, d11) == a1
  {
    SolveRow(d00, d10, v.I00(), v.I10(), v.I11(), a0, a1, 1.0, 0.0);
    SolveRow(d10, d11, v.I00(), v.I10(), v.I11(), a0, a1, 0.0, 1.0);
  }

  lemma SolveRow(x: real, y: real, p: real, q: real, r: real, a0: real, a1: real, e0: real, e1: real)
    requires x * p + y * q == e0 && x * q + y * r == e1
    ensures (p * a0 + q * a1) * x + (q * a0 + r * a1) * y == e0 * a0 + e1 * a1
  {
    assert (p * a0 + q * a1) * x == (x * p) * a0 + (x * q) * a1;
    assert (q * a0 + r * a1) * y == (y * q) * a0 + (y * r) * a1;
    assert (x * p) * a0 + (y * q) * a0 == (x * p + y * q) * a0;
    assert (x * q) * a1 + (y * r) * a1 == (x * q + y * r) * a1;
  }

  // L D of the columns (k, k + 1) is what they held before the elimination.
  lemma Unscaled2(m: Mat, m': Mat, t': seq<int>, f: int, k: int, ucol: int, v: Inverse, i: int)
    requires Eliminated2(m, m', f, k, ucol, v) && Tag(t', k) == FIRST && Tag(t', k + 1) == SECOND
    requires 0 <= i < f && 0 <= k && k + 1 < f
    ensures i < k ==> LD(m', t', i, k) == 0.0 && LD(m', t', i, k + 1) == 0.0
    ensures i == k ==> LD(m', t', i, k) == At(m, k, k) && LD(m', t', i, k + 1) == At(m, k + 1, k)
    ensures i > k ==> LD(m', t', i, k) == At(m, i, k) && LD(m', t', i, k + 1) == At(m, i, k + 1)
  {
    var d00, d10, d11 := At(m, k, k), At(m, k + 1, k), At(m, k + 1, k + 1);
    assert At(m', k, k) == d00 && At(m', k + 1, k) == d10 && At(m', k + 1, k + 1) == d11;
    if i > k + 1 {
      assert L(m', t', i, k) == Solve0(m, v, i, k) && L(m', t', i, k + 1) == Solve1(m, v, i, k);
      SolveBlock(d00, d10, d11, v, At(m, i, k), At(m, i, k + 1), Solve0(m, v, i, k), Solve1(m, v, i, k));
    }
  }

  lemma Rows2(m: Mat, m': Mat, t': seq<int>, f: int, k: int, ucol: int, v: Inverse, i: int)
    requires Eliminated2(m, m', f, k, ucol, v) && Tag(t', k) == FIRST && Tag(t', k + 1) == SECOND
    requires k + 1 < i < f && 0 <= k
    ensures L(m', t', i, k) == Solve0(m, v, i, k) && L(m', t', i, k + 1) == Solve1(m, v, i, k)
  {
  }

  lemma Exchange2(m: Mat, v: Inverse, i: int, j: int, k: int)
    ensures Solve0(m, v, i, k) * At(m, j, k) + Solve1(m, v, i, k) * At(m, j, k + 1)
         == At(m, i, k) * Solve0(m, v, j, k) + At(m, i, k + 1) * Solve1(m, v, j, k)
  {
    ExchangeRows(v.I00(), v.I10(), v.I11(), At(m, i, k), At(m, i, k + 1), At(m, j, k), At(m, j, k + 1));
  }

  lemma ExchangeRows(p: real, q: real, r: real, x0: real, x1: real, y0: real, y1: real)
    ensures (p * x0 + q * x1) * y0 + (q * x0 + r * x1) * y1 == x0 * (p * y0 + q * y1) + x1 * (q * y0 + r * y1)
  {
    assert (p * x0 + q * x1) * y0 == (p * x0) * y0 + (q * x1) * y0;
    assert (q * x0 + r * x1) * y1 == (q * x0) * y1 + (r * x1) * y1;
    assert x0 * (p * y0 + q * y1) == x0 * (p * y0) + x0 * (q * y1);
    assert x1 * (q * y0 + r * y1) == x1 * (q * y0) + x1 * (r * y1);
    assert (p * x0) * y0 == x0 * (p * y0);
    assert (q * x1) * y0 == x1 * (q * y0);
    assert (q * x0) * y1 == x0 * (q * y1);
    assert (r * x1) * y1 == x1 * (r * y1);
  }

  lemma Gain2(m: Mat, m': Mat, t': seq<int>, f: int, k: int, ucol: int, v: Inverse, i: int, j: int)
      returns (gain: real)
    requires Eliminated2(m, m', f, k, ucol, v) && Tag(t', k) == FIRST && Tag(t', k + 1) == SECOND
    requires 0 <= j <= i < f && 0 <= k && k + 1 < f
    ensures gain == Gain(m', t', i, j, k) + Gain(m', t', i, j, k + 1)
    ensures j < k ==> gain == 0.0
    ensures k <= j <= k + 1 ==> gain == At(m, i, j)
    ensures k + 1 < j < ucol ==> gain == At(m, i, j) - At(m', i, j)
    ensures j > k + 1 && j >= ucol ==> At(m', i, j) == At(m, i, j)
  {
    gain := Gain(m', t', i, j, k) + Gain(m', t', i, j, k + 1);
    if j < k {
      assert L(m', t', j, k) == 0.0 && L(m', t', j, k + 1) == 0.0;
    } else if j <= k + 1 {
      GainInBlock(m, m', t', f, k, ucol, v, i, j);
    } else {
      GainBehind(m, m', t', f, k, ucol, v, i, j);
    }
  }

  lemma GainInBlock(m: Mat, m': Mat, t': seq<int>, f: int, k: int, ucol: int, v: Inverse, i: int, j: int)
    requires Eliminated2(m, m', f, k, ucol, v) && Tag(t', k) == FIRST && Tag(t', k + 1) == SECOND
    requires 0 <= k <= j <= k + 1 && j <= i < f && k + 1 < f
    ensures Gain(m', t', i, j, k) + Gain(m', t', i, j, k + 1) == At(m, i, j)
  {
    var d00, d10, d11 := At(m, k, k), At(m, k + 1, k), At(m, k + 1, k + 1);
    Unscaled2(m, m', t', f, k, ucol, v, j);
    var p, q := if j == k then d00 else d10, if j == k then d10 else d11;
    var l0, l1 := L(m', t', i, k), L(m', t', i, k + 1);
    GainOfRow(m', t', i, j, k, l0, l1, p, q);
    if i > k + 1 {
      Rows2(m, m', t', f, k, ucol, v, i);
      SolveBlock(d00, d10, d11, v, At(m, i, k), At(m, i, k + 1), l0, l1);
    } else {
      DotUnit(p, q);
    }
  }

  lemma GainOfRow(m: Mat, t: seq<int>, i: int, j: int, k: int, l0: real, l1: real, p: real, q: real)
    requires L(m, t, i, k) == l0 && L(m, t, i, k + 1) == l1 && LD(m, t, j, k) == p && LD(m, t, j, k + 1) == q
    ensures Gain(m, t, i, j, k) + Gain(m, t, i, j, k + 1) == Dot(l0, l1, p, q)
  {
  }

  lemma DotUnit(p: real, q: real)
    ensures Dot(1.0, 0.0, p, q) == p && Dot(0.0, 1.0, p, q) == q
  {
  }

  lemma GainBehind(m: Mat, m': Mat, t': seq<int>, f: int, k: int, ucol: int, v: Inverse, i: int, j: int)
    requires Eliminated2(m, m', f, k, ucol, v) && Tag(t', k) == FIRST && Tag(t', k + 1) == SECOND
    requires 0 <= k && k + 1 < j <= i < f
    ensures j < ucol ==> Gain(m', t', i, j, k) + Gain(m', t', i, j, k + 1) == At(m, i, j) - At(m', i, j)
    ensures j >= ucol ==> At(m', i, j) == At(m, i, j)
  {
    assert LD(m', t', j, k) == At(m, j, k) && LD(m', t', j, k + 1) == At(m, j, k + 1)
      by { Unscaled2(m, m', t', f, k, ucol, v, j); }
    Rows2(m, m', t', f, k, ucol, v, i);
    Exchange2(m, v, i, j, k);
  }

  lemma Eliminate2Entry(A: (int, int) -> real, m: Mat, m': Mat, rows: seq<int>, t: seq<int>, t': seq<int>,
                        g: Lag, g': Lag, ucol: int, v: Inverse, i: int, j: int)
    requires Lagging(A, m, rows, t, g)
    requires g'.k == g.k + 2 && Advanced(g, g', ucol, |rows|)
    requires t' == t[g.k := FIRST][g.k + 1 := SECOND] && SameFactor(m, t, m', t', |rows|, g.k)
    requires Eliminated2(m, m', |rows|, g.k, ucol, v)
    requires 0 <= j <= i < |rows|
    ensures EntryLags(A, m', rows, t', g', i, j)
  {
    SameFactorSums(m, t, m', t', |rows|, g.k, i, j, Depth(g, j));
    var gain := Gain2(m, m', t', |rows|, g.k, ucol, v, i, j);
    assert LDLt(m', t', i, j, 0, g.k + 1) == LDLt(m', t', i, j, 0, g.k) + Gain(m', t', i, j, g.k);
    AdvanceEntry(A, m, m', rows, t, t', g, g', ucol, i, j, gain);
  }

  /** Eliminating a 2x2 pivot moves it into L D L^T. */
  lemma Eliminate2KeepsLagging(A: (int, int) -> real, m: Mat, m': Mat, rows: seq<int>, t: seq<int>, t': seq<int>,
                               g: Lag, g': Lag, ucol: int, v: Inverse)
    requires Lagging(A, m, rows, t, g)
    requires g'.k == g.k + 2 && Advanced(g, g', ucol, |rows|) && Boundary(t, g'.ps)
    requires t' == t[g.k := FIRST][g.k + 1 := SECOND]
    requires Eliminated2(m, m', |rows|, g.k, ucol, v)
    ensures Lagging(A, m', rows, t', g')
  {
    var k, k' := g.k, g'.k;
    assert SameFactor(m, t, m', t', |rows|, k);
    forall c | 0 <= c < k' ensures InBlock(t', k', c) {
      if c < k { assert InBlock(t, k, c); }
    }
    forall i, j | 0 <= j <= i < |rows| ensures EntryLags(A, m', rows, t', g', i, j) {
      Eliminate2Entry(A, m, m', rows, t, t', g, g', ucol, v, i, j);
    }
  }

  // Columns [c0, c1) caught up with the pivots [lo, hi).
  ghost predicate CaughtUp(m: Mat, m': Mat, t: seq<int>, f: int, lo: int, hi: int, c0: int, c1: int) {
    forall i, j | 0 <= j <= i < f ::
      At(m', i, j) == if c0 <= j < c1 then At(m, i, j) - LDLt(m, t, i, j, lo, hi) else At(m, i, j)
  }

  /** Applying the missing pivots late gives what applying them at once would have. */
  lemma CatchUpKeepsLagging(A: (int, int) -> real, m: Mat, m': Mat, rows: seq<int>, t: seq<int>,
                            g: Lag, g': Lag, lo: int, c0: int, c1: int)
    requires Lagging(A, m, rows, t, g)
    requires g'.k == g.k && g'.e == g.e && g.k <= c0 && 0 <= lo <= g.k
    requires CaughtUp(m, m', t, |rows|, lo, g.k, c0, c1)
    requires forall j | c0 <= j < c1 && j < |rows| :: Stage(g, j) == lo && Stage(g', j) == g.k
    requires forall j | g.k <= j < |rows| && !(c0 <= j < c1) :: Stage(g', j) == Stage(g, j)
    requires WellTagged(t, g')
    ensures Lagging(A, m', rows, t, g')
  {
    assert SameFactor(m, t, m', t, |rows|, g.k);
    forall i, j | 0 <= j <= i < |rows| ensures EntryLags(A, m', rows, t, g', i, j) {
      var h := Depth(g, j);
      assert EntryLags(A, m, rows, t, g, i, j);
      SameFactorSums(m, t, m', t, |rows|, g.k, i, j, h);
      SameFactorSums(m, t, m', t, |rows|, g.k, i, j, g.k);
      if c0 <= j < c1 {
        LDLtSplit(m, t, i, j, 0, lo, g.k);
        assert At(m', i, j) == At(m, i, j) - LDLt(m, t, i, j, lo, g.k);
      } else {
        assert At(m', i, j) == At(m, i, j);
      }
    }
  }

  // W holds the unscaled columns (rows of L D) of the pivots [ps, k).
  ghost predicate Saved(w: Mat, m: Mat, t: seq<int>, ps: int, k: int, f: int) {
    forall i, c | ps <= c < k <= i < f :: At(w, i, c - ps) == LD(m, t, i, c)
  }

  // W gains, behind its first n columns, the `width` columns of m from k on.
  ghost predicate KeptColumns(w: Mat, w': Mat, m: Mat, f: int, k: int, width: int, n: int) {
    && (forall i, c | 0 <= i < f && 0 <= c < n :: At(w', i, c) == At(w, i, c))
    && (forall i, c | k + width <= i < f && n <= c < n + width :: At(w', i, c) == At(m, i, k + (c - n)))
  }

  lemma SwapKeepsSaved(w: Mat, w': Mat, m: Mat, m': Mat, t: seq<int>, f: int, ps: int, k: int, p: int, q: int)
    requires Swapped(m, m', f, p, q) && Saved(w, m, t, ps, k, f)
    requires Blocks(t, k) && 0 <= ps <= k <= p <= q < f
    requires forall i, c | 0 <= i < f && 0 <= c < k - ps :: At(w', i, c) == At(w, Swap(p, q, i), c)
    ensures Saved(w', m', t, ps, k, f)
  {
    forall i, c | ps <= c < k <= i < f
      ensures At(w', i, c - ps) == LD(m', t, i, c)
    {
      var si := Swap(p, q, i);
      SwapKeepsEntries(m, m', t, f, k, p, q, i);
      assert LD(m, t, si, c) == LD(m', t, i, c);
    }
  }

  lemma SavedAfter1(w: Mat, w': Mat, m: Mat, m': Mat, t: seq<int>, t': seq<int>, f: int, ps: int, k: int, ucol: int, inv: real)
    requires Eliminated1(m, m', f, k, ucol, inv) && Saved(w, m, t, ps, k, f)
    requires Blocks(t, k) && k < |t| && 0 <= ps <= k < f && t' == t[k := ONE]
    requires KeptColumns(w, w', m, f, k, 1, k - ps)
    ensures Saved(w', m', t', ps, k + 1, f)
  {
    assert SameFactor(m, t, m', t', f, k);
    var k1 := k + 1;
    forall i, c | ps <= c < k1 <= i < f
      ensures At(w', i, c - ps) == LD(m', t', i, c)
    {
      if c < k {
        SameFactorEntries(m, t, m', t', f, k, i);
        assert At(w, i, c - ps) == LD(m, t, i, c);
      } else {
        assert At(m', k, k) == At(m, k, k);
        assert LD(m', t', i, k) == (At(m, i, k) * inv) * At(m, k, k);
        Pivot1(At(m, i, k), 0.0, inv, At(m, k, k));
      }
    }
  }

  lemma SavedAfter2(w: Mat, w': Mat, m: Mat, m': Mat, t: seq<int>, t': seq<int>, f: int, ps: int, k: int, ucol: int, v: Inverse)
    requires Eliminated2(m, m', f, k, ucol, v) && Saved(w, m, t, ps, k, f)
    requires Blocks(t, k) && k + 1 < |t| && 0 <= ps <= k && k + 1 < f && t' == t[k := FIRST][k + 1 := SECOND]
    requires KeptColumns(w, w', m, f, k, 2, k - ps)
    ensures Saved(w', m', t', ps, k + 2, f)
  {
    assert SameFactor(m, t, m', t', f, k);
    var k2 := k + 2;
    forall i, c | ps <= c < k2 <= i < f
      ensures At(w', i, c - ps) == LD(m', t', i, c)
    {
      if c < k {
        SameFactorEntries(m, t, m', t', f, k, i);
        assert At(w, i, c - ps) == LD(m, t, i, c);
      } else {
        Unscaled2(m, m', t', f, k, ucol, v, i);
      }
    }
  }
}
