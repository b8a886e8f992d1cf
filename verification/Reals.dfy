// Exact real arithmetic shared by the numerical modules.
module Reals {

  function Abs(x: real): (r: real)
    ensures r >= 0.0 && (r == x || r == -x) && (r == 0.0 <==> x == 0.0)
  {
    if x < 0.0 then -x else x
  }

  function Max(x: real, y: real): (r: real)
    ensures r >= x && r >= y && (r == x || r == y)
  {
    if x < y then y else x
  }

  // A product by name: equal factors have equal products, whatever the factors are.
  function Product(x: real, y: real): real { x * y }

  lemma AbsProduct(x: real, y: real)
    ensures Abs(x * y) == Abs(x) * Abs(y)
  {
    if x >= 0.0 && y < 0.0 {
      assert x * y == -(x * -y);
      MulNonneg(x, -y);
    } else if x < 0.0 && y >= 0.0 {
      assert x * y == -(-x * y);
      MulNonneg(-x, y);
    } else if x < 0.0 {
      assert x * y == -x * -y;
      MulNonneg(-x, -y);
    } else {
      MulNonneg(x, y);
    }
  }

  lemma MulNonneg(x: real, y: real)
    requires x >= 0.0 && y >= 0.0
    ensures x * y >= 0.0
  {
  }

  lemma MulMono(x: real, y: real, z: real)
    requires x <= y && z >= 0.0
    ensures x * z <= y * z && z * x <= z * y
  {
    MulNonneg(y - x, z);
  }

  lemma AbsSum(x: real, y: real)
    ensures Abs(x + y) <= Abs(x) + Abs(y)
  {
  }

  // x / d * d == x, in the form the elimination needs it.
  lemma DivCancel(x: real, d: real)
    requires d != 0.0
    ensures x / d * d == x
  {
  }
}
