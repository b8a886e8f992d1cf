/** Inertia counts of the accepted pivots. */
module Inertia {
  import opened Reals
  import opened FrontSteps

  datatype Counts = Counts(positive: int, negative: int, zero: int) {
    function Total(): int { positive + negative + zero }

    function Plus(o: Counts): (sum: Counts)
      ensures sum.Total() == Total() + o.Total()
    {
      Counts(positive + o.positive, negative + o.negative, zero + o.zero)
    }
  }

  // The pivots [lo, hi) are all counted.
  ghost predicate Counted(c: Counts, hi: int, lo: int) {
    c.Total() == hi - lo
  }

  lemma CountMore(c: Counts, d: Counts, hi: int, mid: int, lo: int)
    requires Counted(c, mid, lo) && Counted(d, hi, mid)
    ensures Counted(c.Plus(d), hi, lo)
  {
  }

  const NONE := Counts(0, 0, 0)
  const POSITIVE := Counts(1, 0, 0)
  const NEGATIVE := Counts(0, 1, 0)
  const ZERO := Counts(0, 0, 1)

  function Of1x1(d: real, small: real): Counts {
    if Abs(d) < small then ZERO else if d > 0.0 then POSITIVE else NEGATIVE
  }

  // Sign classification of the eigenvalues of [d00 d10; d10 d11] from its scaled
  // determinant and trace.
  function Of2x2(d00: real, d10: real, d11: real, small: real): Counts {
    if d10 == 0.0 then Of1x1(d00, small).Plus(Of1x1(d11, small))
    else
      var s := Scale2(d00, d10, d11);
      var det := ScaledDet(d00, d10, d11);
      var tr := d00 / s + d11 / s;
      if det < -small then POSITIVE.Plus(NEGATIVE)
      else if Abs(det) <= small then
        ZERO.Plus(if tr > small then POSITIVE else if tr < -small then NEGATIVE else ZERO)
      else if tr > 0.0 then POSITIVE.Plus(POSITIVE)
      else if tr < 0.0 then NEGATIVE.Plus(NEGATIVE)
      else ZERO.Plus(ZERO)
  }

  lemma CountsNonneg(d00: real, d10: real, d11: real, small: real)
    ensures var c := Of2x2(d00, d10, d11, small); c.positive >= 0 && c.negative >= 0 && c.zero >= 0
  {
  }

  method Count1x1(d: real, small: real) returns (c: Counts)
    ensures c == Of1x1(d, small) && c.Total() == 1
  {
    c := Of1x1(d, small);
  }

  method Count2x2(d00: real, d10: real, d11: real, small: real) returns (c: Counts)
    ensures c == Of2x2(d00, d10, d11, small) && c.Total() == 2
  {
    c := Of2x2(d00, d10, d11, small);
  }

  // x^T D x for the block.
  function Quadratic(d00: real, d10: real, d11: real, x: real, y: real): real {
    x * (d00 * x + d10 * y) + y * (d10 * x + d11 * y)
  }

  function Det(d00: real, d10: real, d11: real): real {
    d00 * d11 - d10 * d10
  }

  /** A block counted as one positive and one negative eigenvalue takes both signs. */
  lemma OppositeSigns(d00: real, d10: real, d11: real, small: real) returns (x: real, y: real, v: real, w: real)
    requires small >= 0.0 && d10 != 0.0 && ScaledDet(d00, d10, d11) < -small
    ensures Of2x2(d00, d10, d11, small) == Counts(1, 1, 0)
    ensures Quadratic(d00, d10, d11, x, y) > 0.0 && Quadratic(d00, d10, d11, v, w) < 0.0
  {
    DetScales(d00, d10, d11);
    if d00 != 0.0 {
      x, y, v, w := Orthogonal(d00, d10, d11);
    } else {
      // (t, 1) with t d10 large or small enough.
      x, y, v, w := (1.0 - d11) / (2.0 * d10), 1.0, (-1.0 - d11) / (2.0 * d10), 1.0;
      QuadraticLine(d00, d10, d11, x, 1.0);
      QuadraticLine(d00, d10, d11, v, -1.0);
    }
  }

  /** A block counted as two eigenvalues of one sign is definite, of that sign. */
  lemma DefiniteSigns(d00: real, d10: real, d11: real, small: real)
    requires small >= 0.0 && d10 != 0.0 && ScaledDet(d00, d10, d11) > small
    ensures Of2x2(d00, d10, d11, small) == if d00 > 0.0 then Counts(2, 0, 0) else Counts(0, 2, 0)
    ensures forall x, y | x != 0.0 || y != 0.0 ::
      if d00 > 0.0 then Quadratic(d00, d10, d11, x, y) > 0.0 else Quadratic(d00, d10, d11, x, y) < 0.0
  {
    DetScales(d00, d10, d11);
    SameSign(d00, d10, d11);
    TraceSign(d00, d11, Scale2(d00, d10, d11));
    forall x, y | x != 0.0 || y != 0.0
      ensures if d00 > 0.0 then Quadratic(d00, d10, d11, x, y) > 0.0 else Quadratic(d00, d10, d11, x, y) < 0.0
    {
      Completed(d00, d10, d11, x, y);
      SquaresPositive(d00, d10, d11, x, y);
      SignFromProduct(d00, Quadratic(d00, d10, d11, x, y));
    }
  }

  /** A singular block has one eigenvalue 0, with the null vector (d10, -d00); the other is
      counted with the sign the form takes elsewhere. */
  lemma SingularSigns(d00: real, d10: real, d11: real, small: real)
    requires 0.0 <= small < 1.0 && d10 != 0.0 && ScaledDet(d00, d10, d11) == 0.0
    ensures Of2x2(d00, d10, d11, small) == if d00 > 0.0 then Counts(1, 0, 1) else Counts(0, 1, 1)
    ensures Quadratic(d00, d10, d11, d10, -d00) == 0.0
    ensures forall x, y :: if d00 > 0.0 then Quadratic(d00, d10, d11, x, y) >= 0.0 else Quadratic(d00, d10, d11, x, y) <= 0.0
  {
    var s := Scale2(d00, d10, d11);
    SingularScaled(d00, d10, d11, s, d00 / s, d10 / s, d11 / s);
    QuadraticOrthogonal(d00, d10, d11);
    forall x, y
      ensures if d00 > 0.0 then Quadratic(d00, d10, d11, x, y) >= 0.0 else Quadratic(d00, d10, d11, x, y) <= 0.0
    {
      Completed(d00, d10, d11, x, y);
      SquarePositive(d00 * x + d10 * y);
      if d00 * Quadratic(d00, d10, d11, x, y) > 0.0 { SignFromProduct(d00, Quadratic(d00, d10, d11, x, y)); }
      if d00 * Quadratic(d00, d10, d11, x, y) == 0.0 { ZeroFactor(d00, Quadratic(d00, d10, d11, x, y)); }
    }
  }

  lemma {:induction false} ZeroFactor(x: real, y: real)
    requires x * y == 0.0
    ensures x == 0.0 || y == 0.0
  {
  }

  // Scaled, the larger diagonal entry of a singular block is 1 in size and the smaller has its sign.
  lemma {:induction false} SingularScaled(d00: real, d10: real, d11: real, s: real, a: real, b: real, c: real)
    requires d10 != 0.0 && s == Scale2(d00, d10, d11) && a == d00 / s && b == d10 / s && c == d11 / s
    requires Det(a, b, c) == 0.0
    ensures d00 != 0.0 && Det(d00, d10, d11) == 0.0
    ensures if d00 > 0.0 then a + c >= 1.0 else a + c <= -1.0
  {
    SingularDet(d00, d10, d11, s, a, b, c);
    ScaledSize(d00, s); ScaledSize(d10, s); ScaledSize(d11, s);
    SingularSameSign(d00, d10, d11);
    SingularSameSign(a, b, c);
    LargestOnDiagonal(a, b, c);
    QuotientSign(d00, s);
  }

  lemma {:induction false} SingularDet(d00: real, d10: real, d11: real, s: real, a: real, b: real, c: real)
    requires s > 0.0 && a == d00 / s && b == d10 / s && c == d11 / s && Det(a, b, c) == 0.0
    ensures Det(d00, d10, d11) == 0.0
  {
    DivCancel(d00, s); DivCancel(d10, s); DivCancel(d11, s);
    Regrouped(d00, d10, d11, a, b, c, s);
  }

  lemma {:induction false} SingularSameSign(d00: real, d10: real, d11: real)
    requires d10 != 0.0 && Det(d00, d10, d11) == 0.0
    ensures (d00 > 0.0 && d11 > 0.0) || (d00 < 0.0 && d11 < 0.0)
  {
    SquarePositive(d10);
    SignFromProduct(d00, d11);
  }

  lemma {:induction false} ScaledSize(x: real, s: real)
    requires s > 0.0 && Abs(x) <= s
    ensures Abs(x / s) <= 1.0 && (Abs(x) == s ==> Abs(x / s) == 1.0) && (x != 0.0 ==> x / s != 0.0)
  {
  }

  lemma {:induction false} LargestOnDiagonal(a: real, b: real, c: real)
    requires Det(a, b, c) == 0.0 && Abs(a) <= 1.0 && Abs(c) <= 1.0
    requires (a > 0.0 && c > 0.0) || (a < 0.0 && c < 0.0)
    requires Abs(a) == 1.0 || Abs(b) == 1.0 || Abs(c) == 1.0
    ensures Abs(a + c) >= 1.0
  {
    if Abs(b) == 1.0 {
      assert b * b == 1.0 by { if b < 0.0 { assert b == -1.0; } else { assert b == 1.0; } }
      if a > 0.0 { UnitProduct(a, c); } else {
        assert -a * -c == a * c;
        UnitProduct(-a, -c);
      }
    }
  }

  lemma {:induction false} UnitProduct(a: real, c: real)
    requires a * c == 1.0 && 0.0 < a && 0.0 < c <= 1.0
    ensures a >= 1.0
  {
    if a < 1.0 { MulMono(c, 1.0, a); }
  }

  lemma {:induction false} SameSign(d00: real, d10: real, d11: real)
    requires Det(d00, d10, d11) > 0.0
    ensures (d00 > 0.0 && d11 > 0.0) || (d00 < 0.0 && d11 < 0.0)
  {
    assert d10 * d10 >= 0.0;
    SignFromProduct(d00, d11);
  }

  lemma {:induction false} SignFromProduct(x: real, y: real)
    requires x * y > 0.0
    ensures (x > 0.0 && y > 0.0) || (x < 0.0 && y < 0.0)
  {
  }

  lemma {:induction false} TraceSign(d00: real, d11: real, s: real)
    requires s > 0.0 && ((d00 > 0.0 && d11 > 0.0) || (d00 < 0.0 && d11 < 0.0))
    ensures if d00 > 0.0 then d00 / s + d11 / s > 0.0 else d00 / s + d11 / s < 0.0
  {
    QuotientSign(d00, s);
    QuotientSign(d11, s);
  }

  lemma {:induction false} QuotientSign(x: real, s: real)
    requires s > 0.0
    ensures (x > 0.0 ==> x / s > 0.0) && (x < 0.0 ==> x / s < 0.0)
  {
  }

  function Square(x: real): real {
    x * x
  }

  lemma {:induction false} SquarePositive(x: real)
    ensures Square(x) >= 0.0 && (x != 0.0 ==> Square(x) > 0.0)
  {
    if x > 0.0 { ProductPositive(x, x); }
    if x < 0.0 {
      ProductPositive(-x, -x);
      assert -x * -x == x * x;
    }
  }

  // d00 times the form is a sum of two squares.
  lemma {:induction false} Completed(d00: real, d10: real, d11: real, x: real, y: real)
    ensures d00 * Quadratic(d00, d10, d11, x, y) == Square(d00 * x + d10 * y) + Product(Det(d00, d10, d11), Square(y))
  {
    var a, b := d00 * x, d10 * y;
    assert d00 * (x * (a + b)) == a * (a + b);
    assert Square(a + b) == a * a + (a * b + a * b) + b * b;
    assert y * (d10 * x + d11 * y) == b * x + d11 * Square(y);
    assert d00 * (b * x + d11 * Square(y)) == a * b + (d00 * d11) * Square(y);
    assert b * b == (d10 * d10) * Square(y);
  }

  lemma {:induction false} SquaresPositive(d00: real, d10: real, d11: real, x: real, y: real)
    requires d00 != 0.0 && Det(d00, d10, d11) > 0.0 && (x != 0.0 || y != 0.0)
    ensures Square(d00 * x + d10 * y) + Product(Det(d00, d10, d11), Square(y)) > 0.0
  {
    SquarePositive(y);
    SquarePositive(d00 * x + d10 * y);
    if y == 0.0 {
      assert d00 * x + d10 * y == d00 * x != 0.0;
      assert Product(Det(d00, d10, d11), Square(y)) == 0.0;
    } else {
      ProductPositive(Det(d00, d10, d11), Square(y));
    }
  }

  lemma {:induction false} ProductPositive(x: real, y: real)
    requires x > 0.0 && y > 0.0
    ensures Product(x, y) > 0.0
  {
  }

  // Positive on every vector but 0.
  ghost predicate Definite(d00: real, d10: real, d11: real) {
    forall x, y | x != 0.0 || y != 0.0 :: Quadratic(d00, d10, d11, x, y) > 0.0
  }

  lemma {:induction false} DiagonalForm(d00: real, d11: real, x: real, y: real)
    ensures Quadratic(d00, 0.0, d11, x, y) == Product(d00, Square(x)) + Product(d11, Square(y))
  {
  }

  /** Only positive eigenvalues counted: the block is positive definite. */
  lemma CountedPositive(d00: real, d10: real, d11: real, small: real)
    requires small >= 0.0 && Of2x2(d00, d10, d11, small).negative == 0 && Of2x2(d00, d10, d11, small).zero == 0
    ensures Definite(d00, d10, d11)
  {
    if d10 == 0.0 {
      forall x, y | x != 0.0 || y != 0.0
        ensures Quadratic(d00, d10, d11, x, y) > 0.0
      {
        DiagonalForm(d00, d11, x, y);
        SquarePositive(x);
        SquarePositive(y);
        if x != 0.0 { ProductPositive(d00, Square(x)); }
        if y != 0.0 { ProductPositive(d11, Square(y)); }
      }
    } else {
      DefiniteSigns(d00, d10, d11, small);
    }
  }

  /** A positive definite block has no eigenvalue counted negative. */
  lemma DefiniteCounted(d00: real, d10: real, d11: real, small: real)
    requires small >= 0.0 && Definite(d00, d10, d11)
    ensures Of2x2(d00, d10, d11, small).negative == 0
  {
    QuadraticUnit(d00, d10, d11);
    assert Quadratic(d00, d10, d11, 0.0, 1.0) == d11 && Quadratic(d00, d10, d11, 0.0, 0.0) == 0.0;
    if d10 != 0.0 {
      TraceSign(d00, d11, Scale2(d00, d10, d11));
      if ScaledDet(d00, d10, d11) < -small {
        var x, y, v, w := OppositeSigns(d00, d10, d11, small);
      }
    }
  }

  /** A 1x1 pivot counted as positive or negative has that sign as a form; one counted
      as neither is below the tolerance. A tolerance of 0 counts 0 as negative: that is the
      one value whose count is not its sign. */
  lemma SingleSign(d: real, small: real)
    requires small >= 0.0
    ensures Of1x1(d, small) == POSITIVE <==> Abs(d) >= small && forall x | x != 0.0 :: Product(d, Square(x)) > 0.0
    ensures Of1x1(d, small) == NEGATIVE <==>
            Abs(d) >= small && ((forall x | x != 0.0 :: Product(d, Square(x)) < 0.0) || (d == 0.0 && small == 0.0))
    ensures Of1x1(d, small) == ZERO <==> Abs(d) < small
  {
    SquarePositive(1.0);
    assert Square(1.0) == 1.0 && Product(d, Square(1.0)) == d;
    forall x | x != 0.0
      ensures (d > 0.0 ==> Product(d, Square(x)) > 0.0) && (d < 0.0 ==> Product(d, Square(x)) < 0.0)
    {
      SquarePositive(x);
      SignTimes(d, Square(x));
    }
  }

  lemma {:induction false} SignTimes(d: real, y: real)
    requires y > 0.0
    ensures (d > 0.0 ==> Product(d, y) > 0.0) && (d < 0.0 ==> Product(d, y) < 0.0)
  {
  }

  lemma DetScales(d00: real, d10: real, d11: real)
    requires d10 != 0.0
    ensures ScaledDet(d00, d10, d11) < 0.0 ==> Det(d00, d10, d11) < 0.0
    ensures ScaledDet(d00, d10, d11) > 0.0 ==> Det(d00, d10, d11) > 0.0
  {
    var s := Scale2(d00, d10, d11);
    DetTimes(d00, d10, d11, s, d00 / s, d10 / s, d11 / s);
  }

  lemma DetTimes(d00: real, d10: real, d11: real, s: real, a: real, b: real, c: real)
    requires s > 0.0 && a == d00 / s && b == d10 / s && c == d11 / s
    ensures Det(a, b, c) < 0.0 ==> Det(d00, d10, d11) < 0.0
    ensures Det(a, b, c) > 0.0 ==> Det(d00, d10, d11) > 0.0
  {
    DivCancel(d00, s); DivCancel(d10, s); DivCancel(d11, s);
    Regrouped(d00, d10, d11, a, b, c, s);
    if Det(a, b, c) < 0.0 { NegativeProduct(Det(a, b, c), s); }
    if Det(a, b, c) > 0.0 { PositiveProduct(Det(a, b, c), s); }
  }

  lemma Regrouped(d00: real, d10: real, d11: real, a: real, b: real, c: real, s: real)
    requires d00 == a * s && d10 == b * s && d11 == c * s
    ensures Det(d00, d10, d11) == Twice(Det(a, b, c), s)
  {
    assert (a * s) * (c * s) == ((a * c) * s) * s;
    assert (b * s) * (b * s) == ((b * b) * s) * s;
  }

  function Twice(x: real, s: real): real {
    (x * s) * s
  }

  lemma NegativeProduct(det: real, s: real)
    requires det < 0.0 && s > 0.0
    ensures Twice(det, s) < 0.0
  {
    NegativeTimes(det, s);
    NegativeTimes(det * s, s);
  }

  lemma {:induction false} PositiveProduct(det: real, s: real)
    requires det > 0.0 && s > 0.0
    ensures Twice(det, s) > 0.0
  {
    ProductPositive(det, s);
    ProductPositive(det * s, s);
  }

  lemma NegativeTimes(x: real, s: real)
    requires x < 0.0 && s > 0.0
    ensures x * s < 0.0
  {
  }

  // (1, 0) has the sign of d00, and (d10, -d00) that of d00 times the determinant.
  lemma Orthogonal(d00: real, d10: real, d11: real) returns (x: real, y: real, v: real, w: real)
    requires d00 != 0.0 && Det(d00, d10, d11) < 0.0
    ensures Quadratic(d00, d10, d11, x, y) > 0.0 && Quadratic(d00, d10, d11, v, w) < 0.0
  {
    QuadraticUnit(d00, d10, d11);
    QuadraticOrthogonal(d00, d10, d11);
    SignOfProduct(d00, Det(d00, d10, d11));
    if d00 > 0.0 {
      x, y, v, w := 1.0, 0.0, d10, -d00;
    } else {
      x, y, v, w := d10, -d00, 1.0, 0.0;
    }
  }

  lemma QuadraticUnit(d00: real, d10: real, d11: real)
    ensures Quadratic(d00, d10, d11, 1.0, 0.0) == d00
  {
  }

  lemma QuadraticOrthogonal(d00: real, d10: real, d11: real)
    ensures Quadratic(d00, d10, d11, d10, -d00) == Product(d00, Det(d00, d10, d11))
  {
    assert d00 * d10 + d10 * -d00 == 0.0;
    assert d10 * d10 + d11 * -d00 == -(d00 * d11 - d10 * d10);
  }

  lemma SignOfProduct(x: real, y: real)
    requires y < 0.0
    ensures x > 0.0 ==> Product(x, y) < 0.0
    ensures x < 0.0 ==> Product(x, y) > 0.0
  {
  }

  lemma QuadraticLine(d00: real, d10: real, d11: real, t: real, target: real)
    requires d00 == 0.0 && d10 != 0.0 && t == (target - d11) / (2.0 * d10)
    ensures Quadratic(d00, d10, d11, t, 1.0) == target
  {
    DivCancel(target - d11, 2.0 * d10);
    assert t * (2.0 * d10) == 2.0 * (t * d10);
    assert t * (d00 * t + d10 * 1.0) == t * d10;
  }
}
