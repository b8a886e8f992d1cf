/** The pivot blocks of D in the order they were taken, and their inertia. */
module PivotSigns {
  import opened FrontAlgebra
  import opened FrontSteps
  import opened PivotChoice
  import opened Inertia

  datatype Pivot = Single(d: real) | Double(d00: real, d10: real, d11: real)

  // The block that ends at column c: a 2x2 block ends at its second column.
  function PivotAt(m: Mat, t: seq<int>, c: int): seq<Pivot> {
    if Tag(t, c) == ONE then [Single(At(m, c, c))]
    else if Tag(t, c) == SECOND then [Double(At(m, c - 1, c - 1), At(m, c, c - 1), At(m, c, c))]
    else []
  }

  // The blocks of the first k columns.
  function DiagonalOf(m: Mat, t: seq<int>, k: int): seq<Pivot>
    decreases k
  {
    if k <= 0 then [] else DiagonalOf(m, t, k - 1) + PivotAt(m, t, k - 1)
  }

  // Eigenvalue signs as the kernel counts them.
  function Signs(p: Pivot, prm: Params): Counts {
    match p
    case Single(d) => Of1x1(d, prm.effSmall)
    case Double(d00, d10, d11) => Of2x2(d00, d10, d11, prm.smallPivot)
  }

  function SignsBy(prm: Params): Pivot -> Counts {
    p => Signs(p, prm)
  }

  datatype Sign = Positive | Negative | Null

  function Of(c: Counts, g: Sign): int {
    match g
    case Positive => c.positive
    case Negative => c.negative
    case Null => c.zero
  }

  // Eigenvalues of one sign in a list of blocks.
  function Tally(ds: seq<Pivot>, sign: Pivot -> Counts, g: Sign): int {
    if |ds| == 0 then 0 else Tally(ds[..|ds| - 1], sign, g) + Of(sign(ds[|ds| - 1]), g)
  }

  /** The inertia of a list of pivot blocks. */
  function AllSigns(ds: seq<Pivot>, prm: Params): Counts {
    Counts(Tally(ds, SignsBy(prm), Positive), Tally(ds, SignsBy(prm), Negative), Tally(ds, SignsBy(prm), Null))
  }

  // c counts the blocks that ds' has more than ds. The quantifier keeps the arithmetic of
  // the signs out of proofs that only pass the fact on.
  ghost predicate Adds(ds: seq<Pivot>, ds': seq<Pivot>, c: Counts, sign: Pivot -> Counts) {
    forall f, g {:trigger Tally(ds', f, g)} | f == sign :: Tally(ds', f, g) == Tally(ds, f, g) + Of(c, g)
  }

  lemma {:induction false} AddsNothing(ds: seq<Pivot>, sign: Pivot -> Counts)
    ensures Adds(ds, ds, NONE, sign)
  {
    forall g ensures Of(NONE, g) == 0 {}
  }

  lemma {:induction false} AddsOne(ds: seq<Pivot>, p: Pivot, c: Counts, sign: Pivot -> Counts)
    requires c == sign(p)
    ensures Adds(ds, ds + [p], c, sign)
  {
    assert (ds + [p])[..|ds|] == ds;
  }

  lemma {:induction false} AddsMore(ds: seq<Pivot>, ds1: seq<Pivot>, ds2: seq<Pivot>, c: Counts, d: Counts, sign: Pivot -> Counts)
    requires Adds(ds, ds1, c, sign) && Adds(ds1, ds2, d, sign)
    ensures Adds(ds, ds2, c.Plus(d), sign)
  {
  }

  // The block that ends at column c is the same in both fronts.
  ghost predicate SameBlock(m: Mat, t: seq<int>, m': Mat, t': seq<int>, c: int) {
    PivotAt(m', t', c) == PivotAt(m, t, c)
  }

  lemma {:induction false} PivotsFrame(m: Mat, t: seq<int>, m': Mat, t': seq<int>, k: int)
    requires forall c | 0 <= c < k :: SameBlock(m, t, m', t', c)
    ensures DiagonalOf(m', t', k) == DiagonalOf(m, t, k)
    decreases k
  {
    if k > 0 {
      PivotsFrame(m, t, m', t', k - 1);
      assert SameBlock(m, t, m', t', k - 1);
    }
  }

  lemma {:induction false} SwapKeepsPivots(m: Mat, m': Mat, t: seq<int>, f: int, k: int, p: int, q: int)
    requires Swapped(m, m', f, p, q) && Blocks(t, k) && k <= p <= q < f
    ensures DiagonalOf(m', t, k) == DiagonalOf(m, t, k)
  {
    forall c | 0 <= c < k
      ensures SameBlock(m, t, m', t, c)
    {
      assert InBlock(t, k, c);
      assert Swap(p, q, c) == c && At(m', c, c) == Sym(m, c, c);
      if Tag(t, c) == SECOND {
        assert Swap(p, q, c - 1) == c - 1;
        assert At(m', c - 1, c - 1) == Sym(m, c - 1, c - 1) && At(m', c, c - 1) == Sym(m, c, c - 1);
      }
    }
    PivotsFrame(m, t, m', t, k);
  }

  lemma {:induction false} SameFactorPivots(m: Mat, t: seq<int>, m': Mat, t': seq<int>, f: int, k: int)
    requires SameFactor(m, t, m', t', f, k) && Blocks(t, k) && k <= f
    ensures DiagonalOf(m', t', k) == DiagonalOf(m, t, k)
  {
    forall c | 0 <= c < k
      ensures SameBlock(m, t, m', t', c)
    {
      assert InBlock(t, k, c);
    }
    PivotsFrame(m, t, m', t', k);
  }

  // An elimination appends its pivot.
  lemma {:induction false} Eliminate1Pivots(m: Mat, m': Mat, t: seq<int>, f: int, k: int, ucol: int, inv: real)
    requires Eliminated1(m, m', f, k, ucol, inv) && Blocks(t, k) && 0 <= k < f && k < |t|
    ensures DiagonalOf(m', t[k := ONE], k + 1) == DiagonalOf(m, t, k) + [Single(At(m, k, k))]
  {
    assert SameFactor(m, t, m', t[k := ONE], f, k);
    SameFactorPivots(m, t, m', t[k := ONE], f, k);
    assert At(m', k, k) == At(m, k, k);
  }

  lemma {:induction false} Eliminate2Pivots(m: Mat, m': Mat, t: seq<int>, f: int, k: int, ucol: int, v: Inverse)
    requires Eliminated2(m, m', f, k, ucol, v) && Blocks(t, k) && 0 <= k && k + 1 < f && k + 1 < |t|
    ensures DiagonalOf(m', t[k := FIRST][k + 1 := SECOND], k + 2)
         == DiagonalOf(m, t, k) + [Double(At(m, k, k), At(m, k + 1, k), At(m, k + 1, k + 1))]
  {
    var t' := t[k := FIRST][k + 1 := SECOND];
    assert SameFactor(m, t, m', t', f, k);
    SameFactorPivots(m, t, m', t', f, k);
    assert At(m', k, k) == At(m, k, k) && At(m', k + 1, k) == At(m, k + 1, k) && At(m', k + 1, k + 1) == At(m, k + 1, k + 1);
    assert DiagonalOf(m', t', k + 1) == DiagonalOf(m', t', k);
  }

  lemma {:induction false} CatchUpKeepsPivots(m: Mat, m': Mat, t: seq<int>, f: int, lo: int, k: int, c0: int, c1: int)
    requires CaughtUp(m, m', t, f, lo, k, c0, c1) && Blocks(t, k) && 0 <= k <= c0 && k <= f
    ensures DiagonalOf(m', t, k) == DiagonalOf(m, t, k)
  {
    assert SameFactor(m, t, m', t, f, k);
    SameFactorPivots(m, t, m', t, f, k);
  }
}
