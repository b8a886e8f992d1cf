/** Quadratic forms x^T A x over the rows [0, n), as sums of one product per column of L. */
module QuadraticForms {
  import opened Reals

  lemma Distribute(x: real, y: real, z: real)
    ensures Product(x + y, z) == Product(x, z) + Product(y, z)
    ensures Product(z, x + y) == Product(z, x) + Product(z, y)
  {
  }

  lemma Regroup(x: real, y: real, z: real)
    ensures Product(Product(x, y), z) == Product(x, Product(y, z))
    ensures Product(Product(x, y), z) == Product(Product(x, z), y)
  {
  }

  lemma ZeroProduct(x: real, y: real)
    requires x == 0.0 || y == 0.0
    ensures Product(x, y) == 0.0
  {
  }

  ghost function Inner(l: int -> real, x: int -> real, n: int): real
    decreases n
  {
    if n <= 0 then 0.0 else Inner(l, x, n - 1) + Product(l(n - 1), x(n - 1))
  }

  // Entry a of A x.
  ghost function RowForm(A: (int, int) -> real, x: int -> real, a: int, k: int): real
    decreases k
  {
    if k <= 0 then 0.0 else RowForm(A, x, a, k - 1) + Product(A(a, k - 1), x(k - 1))
  }

  // The first k rows' part of x^T A x.
  ghost function Form(A: (int, int) -> real, x: int -> real, k: int, n: int): real
    decreases k
  {
    if k <= 0 then 0.0 else Form(A, x, k - 1, n) + Product(x(k - 1), RowForm(A, x, k - 1, n))
  }

  /** x^T A x is positive for every vector that is not 0. */
  ghost predicate PositiveDefinite(A: (int, int) -> real, n: int) {
    forall x: int -> real :: Nonzero(x, n) ==> Form(A, x, n, n) > 0.0
  }

  ghost predicate Nonzero(x: int -> real, n: int) {
    exists a :: 0 <= a < n && x(a) != 0.0
  }

  // ---- sums of matrices ----

  lemma {:induction false} RowFormSum(F: (int, int) -> real, G: (int, int) -> real, H: (int, int) -> real, x: int -> real, a: int, k: int)
    requires forall b | 0 <= b < k :: F(a, b) == G(a, b) + H(a, b)
    ensures RowForm(F, x, a, k) == RowForm(G, x, a, k) + RowForm(H, x, a, k)
    decreases k
  {
    if k > 0 {
      RowFormSum(F, G, H, x, a, k - 1);
      Distribute(G(a, k - 1), H(a, k - 1), x(k - 1));
    }
  }

  lemma {:induction false} FormSum(F: (int, int) -> real, G: (int, int) -> real, H: (int, int) -> real, x: int -> real, k: int, n: int)
    requires forall a, b | 0 <= a < k && 0 <= b < n :: F(a, b) == G(a, b) + H(a, b)
    ensures Form(F, x, k, n) == Form(G, x, k, n) + Form(H, x, k, n)
    decreases k
  {
    if k > 0 {
      FormSum(F, G, H, x, k - 1, n);
      RowFormSum(F, G, H, x, k - 1, n);
      Distribute(RowForm(G, x, k - 1, n), RowForm(H, x, k - 1, n), x(k - 1));
    }
  }

  lemma {:induction false} RowFormSame(F: (int, int) -> real, G: (int, int) -> real, x: int -> real, a: int, k: int)
    requires forall b | 0 <= b < k :: F(a, b) == G(a, b)
    ensures RowForm(F, x, a, k) == RowForm(G, x, a, k)
    decreases k
  {
    if k > 0 { RowFormSame(F, G, x, a, k - 1); }
  }

  lemma {:induction false} FormSame(F: (int, int) -> real, G: (int, int) -> real, x: int -> real, k: int, n: int)
    requires forall a, b | 0 <= a < k && 0 <= b < n :: F(a, b) == G(a, b)
    ensures Form(F, x, k, n) == Form(G, x, k, n)
    decreases k
  {
    if k > 0 {
      FormSame(F, G, x, k - 1, n);
      RowFormSame(F, G, x, k - 1, n);
    }
  }

  lemma {:induction false} RowFormZero(F: (int, int) -> real, x: int -> real, a: int, k: int)
    requires forall b | 0 <= b < k :: F(a, b) == 0.0
    ensures RowForm(F, x, a, k) == 0.0
    decreases k
  {
    if k > 0 {
      RowFormZero(F, x, a, k - 1);
      ZeroProduct(F(a, k - 1), x(k - 1));
    }
  }

  lemma {:induction false} FormZero(F: (int, int) -> real, x: int -> real, k: int, n: int)
    requires forall a, b | 0 <= a < k && 0 <= b < n :: F(a, b) == 0.0
    ensures Form(F, x, k, n) == 0.0
    decreases k
  {
    if k > 0 {
      FormZero(F, x, k - 1, n);
      RowFormZero(F, x, k - 1, n);
      ZeroProduct(x(k - 1), RowForm(F, x, k - 1, n));
    }
  }

  // ---- one column's part ----

  lemma {:induction false} RankOneRow(H: (int, int) -> real, l: real, w: int -> real, x: int -> real, a: int, k: int)
    requires forall b | 0 <= b < k :: H(a, b) == Product(l, w(b))
    ensures RowForm(H, x, a, k) == Product(l, Inner(w, x, k))
    decreases k
  {
    if k > 0 {
      RankOneRow(H, l, w, x, a, k - 1);
      Regroup(l, w(k - 1), x(k - 1));
      Distribute(Inner(w, x, k - 1), Product(w(k - 1), x(k - 1)), l);
    }
  }

  /** The form of l w^T is the product of the two inner products. */
  lemma {:induction false} RankOneForm(H: (int, int) -> real, l: int -> real, w: int -> real, x: int -> real, k: int, n: int)
    requires forall a, b | 0 <= a < k && 0 <= b < n :: H(a, b) == Product(l(a), w(b))
    ensures Form(H, x, k, n) == Product(Inner(l, x, k), Inner(w, x, n))
    decreases k
  {
    if k > 0 {
      RankOneForm(H, l, w, x, k - 1, n);
      RankOneRow(H, l(k - 1), w, x, k - 1, n);
      RankOneStep(Inner(l, x, k - 1), l(k - 1), x(k - 1), Inner(w, x, n));
    }
  }

  lemma RankOneStep(before: real, l: real, x: real, w: real)
    ensures Product(before, w) + Product(x, Product(l, w)) == Product(before + Product(l, x), w)
  {
    Distribute(before, Product(l, x), w);
    Regroup(l, x, w);
    Regroup(l, w, x);
    assert Product(x, Product(l, w)) == Product(Product(l, w), x);
  }

  // ---- inner products ----

  lemma {:induction false} InnerCombined(w: int -> real, l: int -> real, d: real, l': int -> real, d': real, x: int -> real, n: int)
    requires forall b | 0 <= b < n :: w(b) == Product(l(b), d) + Product(l'(b), d')
    ensures Inner(w, x, n) == Product(Inner(l, x, n), d) + Product(Inner(l', x, n), d')
    decreases n
  {
    if n > 0 {
      InnerCombined(w, l, d, l', d', x, n - 1);
      Distribute(Product(l(n - 1), d), Product(l'(n - 1), d'), x(n - 1));
      Regroup(l(n - 1), d, x(n - 1));
      Regroup(l'(n - 1), d', x(n - 1));
      Distribute(Inner(l, x, n - 1), Product(l(n - 1), x(n - 1)), d);
      Distribute(Inner(l', x, n - 1), Product(l'(n - 1), x(n - 1)), d');
    }
  }

  lemma {:induction false} InnerSame(l: int -> real, l': int -> real, x: int -> real, n: int)
    requires forall a | 0 <= a < n :: l(a) == l'(a)
    ensures Inner(l, x, n) == Inner(l', x, n)
    decreases n
  {
    if n > 0 { InnerSame(l, l', x, n - 1); }
  }

  // Where the other terms vanish the inner product is row r's term.
  lemma {:induction false} InnerAt(l: int -> real, x: int -> real, n: int, r: int)
    requires 0 <= r && forall a | 0 <= a < n && a != r :: l(a) == 0.0 || x(a) == 0.0
    ensures Inner(l, x, n) == if r < n then Product(l(r), x(r)) else 0.0
    decreases n
  {
    if n > 0 {
      InnerAt(l, x, n - 1, r);
      if n - 1 != r { ZeroProduct(l(n - 1), x(n - 1)); }
    }
  }

  function Changed(x: int -> real, r: int, v: real): int -> real {
    a => if a == r then v else x(a)
  }

  lemma {:induction false} InnerChanged(l: int -> real, x: int -> real, n: int, r: int, v: real)
    requires 0 <= r
    ensures Inner(l, Changed(x, r, v), n) == Inner(l, x, n) + if r < n then Product(l(r), v - x(r)) else 0.0
    decreases n
  {
    if n > 0 {
      InnerChanged(l, x, n - 1, r, v);
      if n - 1 == r { Distribute(x(r), v - x(r), l(r)); }
    }
  }
}
