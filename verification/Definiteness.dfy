/** What the inertia of a factorization says about the matrix: P A P^T = L D L^T with unit
    lower triangular L is positive definite exactly when D is. */
module Definiteness {
  import opened Sequences
  import opened Reals
  import opened FrontAlgebra
  import opened PivotChoice
  import opened Inertia
  import opened PivotSigns
  import opened StoredSigns
  import opened FrontTerms
  import opened GlobalFactor
  import opened QuadraticForms

  // ---- one front ----

  function ColumnL(st: Step, c: int): int -> real {
    a => RowL(st, a, c)
  }

  function RowLD(st: Step, b: int, c: int): real {
    var y := IndexOf(st.rows, b);
    if y < 0 then 0.0 else StoredLD(st.m, st.tags, y, c)
  }

  function ColumnLD(st: Step, c: int): int -> real {
    b => RowLD(st, b, c)
  }

  // Entry c of L^T x, and of D L^T x.
  ghost function Y(st: Step, x: int -> real, c: int, n: int): real { Inner(ColumnL(st, c), x, n) }

  ghost function Z(st: Step, x: int -> real, c: int, n: int): real { Inner(ColumnLD(st, c), x, n) }

  // The first k columns' part of the front's L D L^T.
  ghost function PartOf(st: Step, a: int, b: int, k: int): real {
    var i, j := IndexOf(st.rows, a), IndexOf(st.rows, b);
    if i < 0 || j < 0 then 0.0 else StoredLDLt(st.m, st.tags, i, j, k)
  }

  ghost function PartMatrix(st: Step, k: int): (int, int) -> real {
    (a, b) => PartOf(st, a, b, k)
  }

  ghost function GainMatrix(st: Step, c: int): (int, int) -> real {
    (a, b) => Product(RowL(st, a, c), RowLD(st, b, c))
  }

  // y^T D y over the first k columns.
  ghost function Terms(st: Step, x: int -> real, n: int, k: int): real
    decreases k
  {
    if k <= 0 then 0.0 else Terms(st, x, n, k - 1) + Product(Y(st, x, k - 1, n), Z(st, x, k - 1, n))
  }

  lemma PartNext(st: Step, a: int, b: int, k: int)
    requires k > 0
    ensures PartOf(st, a, b, k) == PartOf(st, a, b, k - 1) + Product(RowL(st, a, k - 1), RowLD(st, b, k - 1))
  {
    if IndexOf(st.rows, a) < 0 || IndexOf(st.rows, b) < 0 { ZeroProduct(RowL(st, a, k - 1), RowLD(st, b, k - 1)); }
  }

  lemma {:induction false} FrontForm(st: Step, x: int -> real, n: int, k: int)
    requires 0 <= k
    ensures Form(PartMatrix(st, k), x, n, n) == Terms(st, x, n, k)
    decreases k
  {
    if k == 0 {
      FormZero(PartMatrix(st, 0), x, n, n);
    } else {
      FrontForm(st, x, n, k - 1);
      forall a, b ensures PartMatrix(st, k)(a, b) == PartMatrix(st, k - 1)(a, b) + GainMatrix(st, k - 1)(a, b) { PartNext(st, a, b, k); }
      FormSum(PartMatrix(st, k), PartMatrix(st, k - 1), GainMatrix(st, k - 1), x, n, n);
      RankOneForm(GainMatrix(st, k - 1), ColumnL(st, k - 1), ColumnLD(st, k - 1), x, n, n);
    }
  }

  // ---- its blocks ----

  // A column of L D is a combination of the block's columns of L.
  lemma Combined(st: Step, x: int -> real, n: int, c: int, c0: int, d0: real, c1: int, d1: real)
    requires forall b :: RowLD(st, b, c) == Product(RowL(st, b, c0), d0) + Product(RowL(st, b, c1), d1)
    ensures Z(st, x, c, n) == Product(Y(st, x, c0, n), d0) + Product(Y(st, x, c1, n), d1)
  {
    InnerCombined(ColumnLD(st, c), ColumnL(st, c0), d0, ColumnL(st, c1), d1, x, n);
  }

  // A block on the entries of y it meets.
  function BlockForm(p: Pivot, u: real, v: real): real {
    match p
    case Single(d) => Product(d, Square(u))
    case Double(d00, d10, d11) => Quadratic(d00, d10, d11, u, v)
  }

  lemma SingleTerm(st: Step, x: int -> real, n: int, c: int)
    requires Tag(st.tags, c) != FIRST && Tag(st.tags, c) != SECOND && 0 <= c
    ensures Terms(st, x, n, c + 1) == Terms(st, x, n, c) + BlockForm(Single(At(st.m, c, c)), Y(st, x, c, n), 0.0)
  {
    var d, y := At(st.m, c, c), Y(st, x, c, n);
    forall b ensures RowLD(st, b, c) == Product(RowL(st, b, c), d) + Product(RowL(st, b, c), 0.0) {}
    Combined(st, x, n, c, c, d, c, 0.0);
    assert Product(y, Product(y, d)) == Product(d, Square(y));
  }

  lemma DoubleTerm(st: Step, x: int -> real, n: int, c: int)
    requires Tag(st.tags, c) == FIRST && Tag(st.tags, c + 1) == SECOND && 0 <= c
    ensures Terms(st, x, n, c + 2) == Terms(st, x, n, c)
         + BlockForm(Double(At(st.m, c, c), At(st.m, c, c + 1), At(st.m, c + 1, c + 1)), Y(st, x, c, n), Y(st, x, c + 1, n))
  {
    var d00, d10, d11 := At(st.m, c, c), At(st.m, c, c + 1), At(st.m, c + 1, c + 1);
    forall b ensures RowLD(st, b, c) == Product(RowL(st, b, c), d00) + Product(RowL(st, b, c + 1), d10) {}
    forall b ensures RowLD(st, b, c + 1) == Product(RowL(st, b, c), d10) + Product(RowL(st, b, c + 1), d11) {}
    Combined(st, x, n, c, c, d00, c + 1, d10);
    Combined(st, x, n, c + 1, c, d10, c + 1, d11);
    DoubleIs(d00, d10, d11, Y(st, x, c, n), Y(st, x, c + 1, n));
    assert Terms(st, x, n, c + 1) == Terms(st, x, n, c) + Product(Y(st, x, c, n), Z(st, x, c, n));
  }

  lemma DoubleIs(d00: real, d10: real, d11: real, u: real, v: real)
    ensures Product(u, Product(u, d00) + Product(v, d10)) + Product(v, Product(u, d10) + Product(v, d11)) == Quadratic(d00, d10, d11, u, v)
  {
  }

  // ---- positive blocks make a positive form ----

  ghost predicate PositiveBlock(p: Pivot) {
    match p
    case Single(d) => d > 0.0
    case Double(d00, d10, d11) => Definite(d00, d10, d11)
  }

  ghost predicate AllPositive(ds: seq<Pivot>) {
    forall i | 0 <= i < |ds| :: PositiveBlock(ds[i])
  }

  lemma BlockPositive(p: Pivot, u: real, v: real)
    requires PositiveBlock(p)
    ensures BlockForm(p, u, v) >= 0.0 && (BlockForm(p, u, v) == 0.0 ==> u == 0.0 && (p.Double? ==> v == 0.0))
  {
    match p
    case Single(d) =>
      SquarePositive(u);
      if u != 0.0 { ProductPositive(d, Square(u)); }
    case Double(d00, d10, d11) =>
      if u == 0.0 && v == 0.0 { assert Quadratic(d00, d10, d11, u, v) == 0.0; }
  }

  // Blocks end before column k.
  predicate Between(st: Step, k: int) { k == 0 || Tag(st.tags, k - 1) != FIRST }

  // p is the block of front st that starts at column c.
  ghost predicate BlockStarts(st: Step, c: int, p: Pivot) {
    && 0 <= c && Between(st, c)
    && match p
       case Single(d) => c < st.p && Tag(st.tags, c) != FIRST && Tag(st.tags, c) != SECOND && d == At(st.m, c, c)
       case Double(d00, d10, d11) =>
         && c + 1 < st.p && Tag(st.tags, c) == FIRST && Tag(st.tags, c + 1) == SECOND
         && d00 == At(st.m, c, c) && d10 == At(st.m, c, c + 1) && d11 == At(st.m, c + 1, c + 1)
  }

  // The last block of the first k columns and where it starts.
  lemma LastBlock(st: Step, k: int) returns (c: int, p: Pivot)
    requires WholeTags(st) && 0 < k <= st.p && Between(st, k)
    ensures 0 <= c < k && Between(st, c) && StoredPivots(st.m, st.tags, k) == StoredPivots(st.m, st.tags, c) + [p]
    ensures BlockStarts(st, c, p) && k == if p.Double? then c + 2 else c + 1
    ensures forall x, n :: Terms(st, x, n, k) == Terms(st, x, n, c) + BlockForm(p, Y(st, x, c, n), if p.Double? then Y(st, x, c + 1, n) else 0.0)
  {
    assert TagWhole(st, k - 1);
    if Tag(st.tags, k - 1) == SECOND {
      c, p := k - 2, Double(At(st.m, k - 2, k - 2), At(st.m, k - 2, k - 1), At(st.m, k - 1, k - 1));
      if c > 0 { assert TagWhole(st, c - 1); }
      assert StoredPivots(st.m, st.tags, k - 1) == StoredPivots(st.m, st.tags, c);
      forall x, n ensures Terms(st, x, n, k) == Terms(st, x, n, c) + BlockForm(p, Y(st, x, c, n), Y(st, x, c + 1, n)) { DoubleTerm(st, x, n, c); }
    } else {
      c, p := k - 1, Single(At(st.m, k - 1, k - 1));
      if c > 0 { assert TagWhole(st, c - 1); }
      forall x, n ensures Terms(st, x, n, k) == Terms(st, x, n, c) + BlockForm(p, Y(st, x, c, n), 0.0) { SingleTerm(st, x, n, c); }
    }
  }

  ghost predicate NoY(st: Step, x: int -> real, n: int, k: int) {
    forall c | 0 <= c < k :: Y(st, x, c, n) == 0.0
  }

  lemma {:induction false} FrontPositive(st: Step, x: int -> real, n: int, k: int)
    requires WholeTags(st) && 0 <= k <= st.p && Between(st, k) && AllPositive(StoredPivots(st.m, st.tags, k))
    ensures Terms(st, x, n, k) >= 0.0 && (Terms(st, x, n, k) == 0.0 ==> NoY(st, x, n, k))
    decreases k
  {
    if k > 0 {
      var c, p := LastBlock(st, k);
      LastPositive(StoredPivots(st.m, st.tags, c), p);
      FrontPositive(st, x, n, c);
      BlockPositive(p, Y(st, x, c, n), if p.Double? then Y(st, x, c + 1, n) else 0.0);
    }
  }

  lemma LastPositive(ds: seq<Pivot>, p: Pivot)
    requires AllPositive(ds + [p])
    ensures AllPositive(ds) && PositiveBlock(p)
  {
    assert (ds + [p])[|ds|] == p;
    forall i | 0 <= i < |ds| ensures PositiveBlock(ds[i]) { assert (ds + [p])[i] == ds[i]; }
  }

  // ---- all fronts ----

  ghost function RunForm(steps: seq<Step>, x: int -> real, n: int): real {
    if |steps| == 0 then 0.0
    else RunForm(steps[..|steps| - 1], x, n) + Terms(steps[|steps| - 1], x, n, steps[|steps| - 1].p)
  }

  ghost function StepsMatrix(steps: seq<Step>): (int, int) -> real {
    (a, b) => StepsSum(steps, a, b)
  }

  lemma {:induction false} StepsForm(steps: seq<Step>, x: int -> real, n: int)
    requires forall d | 0 <= d < |steps| :: steps[d].p >= 0
    ensures Form(StepsMatrix(steps), x, n, n) == RunForm(steps, x, n)
    decreases |steps|
  {
    if |steps| == 0 {
      FormZero(StepsMatrix(steps), x, n, n);
    } else {
      var init, st := steps[..|steps| - 1], steps[|steps| - 1];
      StepsForm(init, x, n);
      FrontForm(st, x, n, st.p);
      FormSum(StepsMatrix(steps), StepsMatrix(init), PartMatrix(st, st.p), x, n, n);
    }
  }

  lemma WholeEnd(st: Step)
    requires WholeTags(st) && 0 <= st.p
    ensures Between(st, st.p)
  {
    if st.p > 0 { assert TagWhole(st, st.p - 1); }
  }

  // L^T x is 0 at every pivot of these fronts.
  ghost predicate NoRunY(steps: seq<Step>, x: int -> real, n: int) {
    forall d | 0 <= d < |steps| :: NoY(steps[d], x, n, steps[d].p)
  }

  lemma JoinedPositive(a: seq<Pivot>, b: seq<Pivot>)
    requires AllPositive(a + b)
    ensures AllPositive(a) && AllPositive(b)
  {
    forall i | 0 <= i < |a| ensures PositiveBlock(a[i]) { assert (a + b)[i] == a[i]; }
    forall i | 0 <= i < |b| ensures PositiveBlock(b[i]) { assert (a + b)[|a| + i] == b[i]; }
  }

  lemma {:induction false} RunPositive(steps: seq<Step>, x: int -> real, n: int)
    requires AllFormed(steps) && AllPositive(RunPivots(steps))
    ensures RunForm(steps, x, n) >= 0.0 && (RunForm(steps, x, n) == 0.0 ==> NoRunY(steps, x, n))
    decreases |steps|
  {
    if |steps| > 0 {
      var init, st := steps[..|steps| - 1], steps[|steps| - 1];
      FormedInit(steps);
      JoinedPositive(RunPivots(init), StepPivots(st));
      RunPositive(init, x, n);
      WholeEnd(st);
      FrontPositive(st, x, n, st.p);
    }
  }

  // ---- L^T x is 0 only for x = 0 ----

  function GlobalL(steps: seq<Step>, j: int): int -> real {
    a => RowOfL(steps, a, j)
  }

  // Entry j of L^T x in the pivot order.
  ghost function GlobalY(steps: seq<Step>, x: int -> real, j: int, n: int): real { Inner(GlobalL(steps, j), x, n) }

  // Position of column c of front d.
  function Position(steps: seq<Step>, d: int, c: int): int
    requires 0 <= d <= |steps|
  {
    |PivotOrder(steps[..d])| + c
  }

  lemma {:induction false} PositionInside(steps: seq<Step>, d: int, c: int)
    requires 0 <= d < |steps| && 0 <= c < |PivotsOf(steps[d])|
    ensures Position(steps, d, c) < |PivotOrder(steps)|
    ensures forall a :: RowOfL(steps, a, Position(steps, d, c)) == RowL(steps[d], a, c)
    decreases |steps|
  {
    var init := steps[..|steps| - 1];
    if d < |init| {
      assert init[..d] == steps[..d];
      PositionInside(init, d, c);
    }
  }

  lemma {:induction false} Located(steps: seq<Step>, j: int) returns (d: int, c: int)
    requires 0 <= j < |PivotOrder(steps)|
    ensures 0 <= d < |steps| && 0 <= c < |PivotsOf(steps[d])| && j == Position(steps, d, c)
    decreases |steps|
  {
    var init := steps[..|steps| - 1];
    if j < |PivotOrder(init)| {
      d, c := Located(init, j);
      assert init[..d] == steps[..d];
    } else {
      d, c := |steps| - 1, j - |PivotOrder(init)|;
    }
  }

  lemma {:induction false} LocalY(steps: seq<Step>, x: int -> real, n: int, d: int, c: int)
    requires 0 <= d < |steps| && 0 <= c < |PivotsOf(steps[d])|
    ensures GlobalY(steps, x, Position(steps, d, c), n) == Y(steps[d], x, c, n)
  {
    PositionInside(steps, d, c);
    InnerSame(GlobalL(steps, Position(steps, d, c)), ColumnL(steps[d], c), x, n);
  }

  lemma {:induction false} NoGlobalY(steps: seq<Step>, x: int -> real, n: int, j: int)
    requires NoRunY(steps, x, n) && AllFormed(steps) && 0 <= j < |PivotOrder(steps)|
    ensures GlobalY(steps, x, j, n) == 0.0
  {
    var d, c := Located(steps, j);
    LocalY(steps, x, n, d, c);
    assert Formed(steps, d) && NoY(steps[d], x, n, steps[d].p);
  }

  // Row r of an earlier or later position has nothing in column j, or x has nothing there.
  lemma {:induction false} OtherRows(steps: seq<Step>, x: int -> real, n: int, j: int, a: int)
    requires Permutes(PivotOrder(steps), n) && UnitLower(steps) && 0 <= j < n && 0 <= a < n && a != PivotOrder(steps)[j]
    requires forall i | j < i < n :: x(PivotOrder(steps)[i]) == 0.0
    ensures RowOfL(steps, a, j) == 0.0 || x(a) == 0.0
  {
    var i := PermutationHits(PivotOrder(steps), n, a);
    if i < j { assert FactorL(steps, i, j) == 0.0; }
  }

  lemma {:induction false} UnitEntry(steps: seq<Step>, j: int)
    requires UnitLower(steps) && 0 <= j < |PivotOrder(steps)|
    ensures RowOfL(steps, PivotOrder(steps)[j], j) == 1.0
  {
    assert FactorL(steps, j, j) == 1.0;
  }

  lemma {:induction false} Vanishes(steps: seq<Step>, x: int -> real, n: int, j: int)
    requires Permutes(PivotOrder(steps), n) && UnitLower(steps) && 0 <= j <= n
    requires forall i | 0 <= i < n :: GlobalY(steps, x, i, n) == 0.0
    ensures forall i | j <= i < n :: x(PivotOrder(steps)[i]) == 0.0
    decreases n - j
  {
    if j < n {
      Vanishes(steps, x, n, j + 1);
      var r := PivotOrder(steps)[j];
      forall a | 0 <= a < n && a != r ensures GlobalL(steps, j)(a) == 0.0 || x(a) == 0.0 { OtherRows(steps, x, n, j, a); }
      InnerAt(GlobalL(steps, j), x, n, r);
      UnitEntry(steps, j);
      assert x(r) == Product(1.0, x(r)) == GlobalY(steps, x, j, n);
    }
  }

  lemma {:induction false} FormIsRun(steps: seq<Step>, A: (int, int) -> real, n: int, x: int -> real)
    requires AllFormed(steps) && forall a, b | 0 <= a < n && 0 <= b < n :: A(a, b) == StepsSum(steps, a, b)
    ensures Form(A, x, n, n) == RunForm(steps, x, n)
  {
    FormSame(A, StepsMatrix(steps), x, n, n);
    forall d | 0 <= d < |steps| ensures steps[d].p >= 0 { assert Formed(steps, d); }
    StepsForm(steps, x, n);
  }

  /** With positive blocks x^T A x is positive. */
  lemma {:induction false} PositiveForm(steps: seq<Step>, A: (int, int) -> real, n: int, x: int -> real)
    requires AllFormed(steps) && Permutes(PivotOrder(steps), n) && AllPositive(RunPivots(steps)) && Nonzero(x, n)
    requires forall a, b | 0 <= a < n && 0 <= b < n :: A(a, b) == StepsSum(steps, a, b)
    ensures Form(A, x, n, n) > 0.0
  {
    FormIsRun(steps, A, n, x);
    RunPositive(steps, x, n);
    FactorIsUnitLower(steps);
    if NoRunY(steps, x, n) {
      forall j | 0 <= j < n ensures GlobalY(steps, x, j, n) == 0.0 { NoGlobalY(steps, x, n, j); }
      Vanishes(steps, x, n, 0);
      var a :| 0 <= a < n && x(a) != 0.0;
      var i := PermutationHits(PivotOrder(steps), n, a);
    }
  }

  // ---- L^T x can be anything ----

  lemma {:induction false} Solve(steps: seq<Step>, target: int -> real, n: int, j: int) returns (x: int -> real)
    requires Permutes(PivotOrder(steps), n) && UnitLower(steps) && 0 <= j <= n
    ensures forall i | j <= i < n :: GlobalY(steps, x, i, n) == target(i)
    ensures forall i | 0 <= i < j :: x(PivotOrder(steps)[i]) == 0.0
    decreases n - j
  {
    if j == n {
      x := a => 0.0;
    } else {
      var w := Solve(steps, target, n, j + 1);
      var r := PivotOrder(steps)[j];
      var v := target(j) - GlobalY(steps, w, j, n);
      x := Changed(w, r, v);
      UnitEntry(steps, j);
      forall i | j <= i < n
        ensures GlobalY(steps, x, i, n) == target(i)
      {
        InnerChanged(GlobalL(steps, i), w, n, r, v);
        if i > j {
          assert FactorL(steps, j, i) == 0.0;
          ZeroProduct(GlobalL(steps, i)(r), v - w(r));
        }
      }
    }
  }

  // ---- a positive form has positive blocks ----

  // Outside the block at column c of front d, with entries u and v, L^T x is 0.
  ghost predicate OnlyAt(steps: seq<Step>, x: int -> real, n: int, d: int, c: int, p: Pivot, u: real, v: real)
    requires 0 <= d < |steps|
  {
    && (forall e | 0 <= e < |steps| && e != d :: NoY(steps[e], x, n, steps[e].p))
    && (forall i | 0 <= i < steps[d].p && i != c && !(p.Double? && i == c + 1) :: Y(steps[d], x, i, n) == 0.0)
    && Y(steps[d], x, c, n) == u && (p.Double? ==> Y(steps[d], x, c + 1, n) == v)
  }

  lemma {:induction false} BlockFound(st: Step, k: int, i: int) returns (c: int)
    requires WholeTags(st) && 0 <= k <= st.p && Between(st, k) && 0 <= i < |StoredPivots(st.m, st.tags, k)|
    ensures BlockStarts(st, c, StoredPivots(st.m, st.tags, k)[i])
    decreases k
  {
    if k > 0 {
      var b, p := LastBlock(st, k);
      if i < |StoredPivots(st.m, st.tags, b)| {
        c := BlockFound(st, b, i);
      } else {
        c := b;
      }
    }
  }

  lemma {:induction false} RunBlockFound(steps: seq<Step>, i: int) returns (d: int, c: int)
    requires AllFormed(steps) && 0 <= i < |RunPivots(steps)|
    ensures 0 <= d < |steps| && BlockStarts(steps[d], c, RunPivots(steps)[i])
    decreases |steps|
  {
    var init, st := steps[..|steps| - 1], steps[|steps| - 1];
    FormedInit(steps);
    if i < |RunPivots(init)| {
      d, c := RunBlockFound(init, i);
    } else {
      WholeEnd(st);
      d := |steps| - 1;
      c := BlockFound(st, st.p, i - |RunPivots(init)|);
    }
  }

  lemma {:induction false} NoTerms(st: Step, x: int -> real, n: int, lo: int, k: int)
    requires 0 <= lo <= k && forall c | lo <= c < k :: Y(st, x, c, n) == 0.0
    ensures Terms(st, x, n, k) == Terms(st, x, n, lo)
    decreases k
  {
    if k > lo {
      NoTerms(st, x, n, lo, k - 1);
      ZeroProduct(Y(st, x, k - 1, n), Z(st, x, k - 1, n));
    }
  }

  lemma {:induction false} OneBlock(st: Step, x: int -> real, n: int, c: int, p: Pivot, u: real, v: real)
    requires BlockStarts(st, c, p) && forall i | 0 <= i < st.p && i != c && !(p.Double? && i == c + 1) :: Y(st, x, i, n) == 0.0
    requires Y(st, x, c, n) == u && (p.Double? ==> Y(st, x, c + 1, n) == v)
    ensures Terms(st, x, n, st.p) == BlockForm(p, u, v)
  {
    NoTerms(st, x, n, 0, c);
    if p.Double? {
      DoubleTerm(st, x, n, c);
      NoTerms(st, x, n, c + 2, st.p);
    } else {
      SingleTerm(st, x, n, c);
      NoTerms(st, x, n, c + 1, st.p);
    }
  }

  lemma {:induction false} NoRunTerms(steps: seq<Step>, x: int -> real, n: int)
    requires AllFormed(steps) && NoRunY(steps, x, n)
    ensures RunForm(steps, x, n) == 0.0
    decreases |steps|
  {
    if |steps| > 0 {
      var st := steps[|steps| - 1];
      FormedInit(steps);
      NoRunTerms(steps[..|steps| - 1], x, n);
      assert NoY(st, x, n, st.p);
      NoTerms(st, x, n, 0, st.p);
    }
  }

  lemma {:induction false} OneTerm(steps: seq<Step>, x: int -> real, n: int, d: int, c: int, p: Pivot, u: real, v: real)
    requires AllFormed(steps) && 0 <= d < |steps|
    requires BlockStarts(steps[d], c, p) && OnlyAt(steps, x, n, d, c, p, u, v)
    ensures RunForm(steps, x, n) == BlockForm(p, u, v)
    decreases |steps|
  {
    var init, st := steps[..|steps| - 1], steps[|steps| - 1];
    FormedInit(steps);
    if d < |init| {
      OneTerm(init, x, n, d, c, p, u, v);
      assert NoY(st, x, n, st.p);
      NoTerms(st, x, n, 0, st.p);
    } else {
      NoRunTerms(init, x, n);
      OneBlock(st, x, n, c, p, u, v);
    }
  }

  lemma {:induction false} PositionsApart(steps: seq<Step>, d: int, c: int, e: int, i: int)
    requires 0 <= d < |steps| && 0 <= c < |PivotsOf(steps[d])| && 0 <= e < d && 0 <= i < |PivotsOf(steps[e])|
    ensures Position(steps, e, i) < Position(steps, d, c)
  {
    PositionInside(steps[..d], e, i);
    assert steps[..d][..e] == steps[..e];
  }

  // 1 at the block's positions, as u and v say.
  function Target(at: int, p: Pivot, u: real, v: real): int -> real {
    i => if i == at then u else if p.Double? && i == at + 1 then v else 0.0
  }

  lemma {:induction false} NothingElsewhere(steps: seq<Step>, d: int, c: int, p: Pivot, u: real, v: real, e: int, i: int)
    requires AllFormed(steps) && 0 <= d < |steps| && BlockStarts(steps[d], c, p) && 0 <= e < |steps| && 0 <= i < steps[e].p
    requires e != d || (i != c && !(p.Double? && i == c + 1))
    ensures Target(Position(steps, d, c), p, u, v)(Position(steps, e, i)) == 0.0
  {
    assert Formed(steps, d) && Formed(steps, e);
    if e < d { PositionsApart(steps, d, c, e, i); }
    if d < e {
      PositionsApart(steps, e, i, d, c);
      if p.Double? { PositionsApart(steps, e, i, d, c + 1); }
    }
  }

  // A vector that only the block at column c of front d sees.
  lemma {:induction false} BlockVector(steps: seq<Step>, n: int, d: int, c: int, p: Pivot, u: real, v: real) returns (x: int -> real)
    requires AllFormed(steps) && Permutes(PivotOrder(steps), n) && 0 <= d < |steps| && BlockStarts(steps[d], c, p)
    ensures OnlyAt(steps, x, n, d, c, p, u, v)
  {
    FactorIsUnitLower(steps);
    var target := Target(Position(steps, d, c), p, u, v);
    x := Solve(steps, target, n, 0);
    forall e, i | 0 <= e < |steps| && 0 <= i < steps[e].p
      ensures Y(steps[e], x, i, n) == target(Position(steps, e, i))
    {
      assert Formed(steps, e);
      PositionInside(steps, e, i);
      LocalY(steps, x, n, e, i);
    }
    forall e, i | 0 <= e < |steps| && 0 <= i < steps[e].p && (e != d || (i != c && !(p.Double? && i == c + 1)))
      ensures Y(steps[e], x, i, n) == 0.0
    {
      NothingElsewhere(steps, d, c, p, u, v, e, i);
    }
  }

  lemma {:induction false} SeenIsNonzero(st: Step, x: int -> real, c: int, n: int)
    requires Y(st, x, c, n) != 0.0
    ensures Nonzero(x, n)
  {
    if !Nonzero(x, n) {
      InnerAt(ColumnL(st, c), x, n, if n < 0 then 0 else n);
    }
  }

  lemma {:induction false} SeenNonzero(steps: seq<Step>, x: int -> real, n: int, d: int, c: int, p: Pivot, u: real, v: real)
    requires 0 <= d < |steps| && OnlyAt(steps, x, n, d, c, p, u, v) && (u != 0.0 || (p.Double? && v != 0.0))
    ensures Nonzero(x, n)
  {
    if u != 0.0 { SeenIsNonzero(steps[d], x, c, n); } else { SeenIsNonzero(steps[d], x, c + 1, n); }
  }

  // The form of the matrix on the block's vector.
  lemma {:induction false} BlockSeen(steps: seq<Step>, A: (int, int) -> real, n: int, d: int, c: int, p: Pivot, u: real, v: real)
    requires AllFormed(steps) && Permutes(PivotOrder(steps), n) && 0 <= d < |steps| && BlockStarts(steps[d], c, p)
    requires forall a, b | 0 <= a < n && 0 <= b < n :: A(a, b) == StepsSum(steps, a, b)
    requires PositiveDefinite(A, n) && (u != 0.0 || (p.Double? && v != 0.0))
    ensures BlockForm(p, u, v) > 0.0
  {
    var x := BlockVector(steps, n, d, c, p, u, v);
    SeenNonzero(steps, x, n, d, c, p, u, v);
    FormIsRun(steps, A, n, x);
    OneTerm(steps, x, n, d, c, p, u, v);
    FormPositive(A, n, x);
  }

  lemma {:induction false} FormPositive(A: (int, int) -> real, n: int, x: int -> real)
    requires PositiveDefinite(A, n) && Nonzero(x, n)
    ensures Form(A, x, n, n) > 0.0
  {
  }

  lemma {:induction false} BlockIsPositive(steps: seq<Step>, A: (int, int) -> real, n: int, i: int)
    requires AllFormed(steps) && Permutes(PivotOrder(steps), n) && 0 <= i < |RunPivots(steps)|
    requires forall a, b | 0 <= a < n && 0 <= b < n :: A(a, b) == StepsSum(steps, a, b)
    requires PositiveDefinite(A, n)
    ensures PositiveBlock(RunPivots(steps)[i])
  {
    var p := RunPivots(steps)[i];
    var d, c := RunBlockFound(steps, i);
    match p
    case Single(e) =>
      BlockSeen(steps, A, n, d, c, p, 1.0, 0.0);
      assert Product(e, Square(1.0)) == e;
    case Double(d00, d10, d11) =>
      forall u, v | u != 0.0 || v != 0.0
        ensures Quadratic(d00, d10, d11, u, v) > 0.0
      {
        BlockSeen(steps, A, n, d, c, p, u, v);
      }
  }

  /** The matrix is positive definite exactly when every pivot block is. */
  lemma {:induction false} PositiveBlocks(steps: seq<Step>, A: (int, int) -> real, n: int)
    requires AllFormed(steps) && Permutes(PivotOrder(steps), n)
    requires forall a, b | 0 <= a < n && 0 <= b < n :: A(a, b) == StepsSum(steps, a, b)
    ensures PositiveDefinite(A, n) <==> AllPositive(RunPivots(steps))
  {
    if PositiveDefinite(A, n) {
      forall i | 0 <= i < |RunPivots(steps)| ensures PositiveBlock(RunPivots(steps)[i]) { BlockIsPositive(steps, A, n, i); }
    }
    if AllPositive(RunPivots(steps)) {
      forall x: int -> real | Nonzero(x, n) ensures Form(A, x, n, n) > 0.0 { PositiveForm(steps, A, n, x); }
    }
  }

  // ---- and the counts say which ----

  lemma SingleSigns(d: real, prm: Params)
    requires prm.Valid()
    ensures var c := Signs(Single(d), prm);
      && c.positive >= 0 && c.negative >= 0 && c.zero >= 0
      && (c.negative == 0 && c.zero == 0 ==> d > 0.0) && (d > 0.0 ==> c.negative == 0) && (d == 0.0 ==> c.zero == 1)
  {
  }

  lemma DoubleSigns(d00: real, d10: real, d11: real, prm: Params)
    requires prm.Valid()
    ensures var c := Signs(Double(d00, d10, d11), prm);
      && c.positive >= 0 && c.negative >= 0 && c.zero >= 0
      && (c.negative == 0 && c.zero == 0 ==> Definite(d00, d10, d11)) && (Definite(d00, d10, d11) ==> c.negative == 0)
  {
    CountsNonneg(d00, d10, d11, prm.smallPivot);
    if Of2x2(d00, d10, d11, prm.smallPivot).negative == 0 && Of2x2(d00, d10, d11, prm.smallPivot).zero == 0 {
      CountedPositive(d00, d10, d11, prm.smallPivot);
    }
    if Definite(d00, d10, d11) { DefiniteCounted(d00, d10, d11, prm.smallPivot); }
  }

  lemma BlockSigns(p: Pivot, prm: Params)
    requires prm.Valid()
    ensures var c := Signs(p, prm);
      && c.positive >= 0 && c.negative >= 0 && c.zero >= 0
      && (c.negative == 0 && c.zero == 0 ==> PositiveBlock(p)) && (PositiveBlock(p) ==> c.negative == 0)
      && (p == Single(0.0) ==> c.zero == 1)
  {
    match p
    case Single(d) => SingleSigns(d, prm);
    case Double(d00, d10, d11) => DoubleSigns(d00, d10, d11, prm);
  }

  lemma {:induction false} TallyZero(ds: seq<Pivot>, sign: Pivot -> Counts, g: Sign)
    requires forall p :: Of(sign(p), g) >= 0
    ensures Tally(ds, sign, g) >= 0 && (Tally(ds, sign, g) == 0 <==> forall i | 0 <= i < |ds| :: Of(sign(ds[i]), g) == 0)
    decreases |ds|
  {
    if |ds| > 0 {
      var init := ds[..|ds| - 1];
      TallyZero(init, sign, g);
      assert forall i | 0 <= i < |init| :: init[i] == ds[i];
    }
  }

  lemma SignsNonneg(prm: Params, g: Sign)
    requires prm.Valid()
    ensures forall p :: Of(SignsBy(prm)(p), g) >= 0
  {
    forall p ensures Of(SignsBy(prm)(p), g) >= 0 { BlockSigns(p, prm); }
  }

  /** A run that counts no zero eigenvalue counts n positive ones exactly when its matrix is
      positive definite. */
  lemma {:induction false} DefiniteInertia(steps: seq<Step>, A: (int, int) -> real, n: int, prm: Params, counts: Counts)
    requires AllFormed(steps) && Permutes(PivotOrder(steps), n) && prm.Valid()
    requires forall a, b | 0 <= a < n && 0 <= b < n :: A(a, b) == StepsSum(steps, a, b)
    requires counts == AllSigns(RunPivots(steps), prm) && counts.Total() == n && counts.zero == 0
    ensures counts.positive == n <==> PositiveDefinite(A, n)
  {
    var ds, sign := RunPivots(steps), SignsBy(prm);
    PositiveBlocks(steps, A, n);
    SignsNonneg(prm, Negative);
    SignsNonneg(prm, Null);
    TallyZero(ds, sign, Negative);
    TallyZero(ds, sign, Null);
    forall i | 0 <= i < |ds|
      ensures PositiveBlock(ds[i]) <==> sign(ds[i]).negative == 0
    {
      BlockSigns(ds[i], prm);
      assert Of(sign(ds[i]), Null) == 0;
    }
  }

  // ---- a forced zero pivot is counted ----

  lemma {:induction false} ZeroListed(st: Step, k: int, c: int)
    requires WholeTags(st) && 0 <= c < k <= st.p && Tag(st.tags, c) == 0
    ensures Single(0.0) in StoredPivots(st.m, st.tags, k)
    decreases k
  {
    assert TagWhole(st, c);
    if c < k - 1 { ZeroListed(st, k - 1, c); }
  }

  lemma {:induction false} ZeroInRun(steps: seq<Step>, d: int, c: int)
    requires AllFormed(steps) && 0 <= d < |steps| && 0 <= c < steps[d].p && Tag(steps[d].tags, c) == 0
    ensures Single(0.0) in RunPivots(steps)
    decreases |steps|
  {
    FormedInit(steps);
    if d < |steps| - 1 { ZeroInRun(steps[..|steps| - 1], d, c); } else { ZeroListed(steps[d], steps[d].p, c); }
  }

  lemma ZeroCounted(steps: seq<Step>, prm: Params, d: int, c: int)
    requires AllFormed(steps) && prm.Valid() && 0 <= d < |steps| && 0 <= c < steps[d].p && Tag(steps[d].tags, c) == 0
    ensures AllSigns(RunPivots(steps), prm).zero > 0
  {
    ZeroInRun(steps, d, c);
    SignsNonneg(prm, Null);
    TallyZero(RunPivots(steps), SignsBy(prm), Null);
    var i :| 0 <= i < |RunPivots(steps)| && RunPivots(steps)[i] == Single(0.0);
    BlockSigns(RunPivots(steps)[i], prm);
    assert Of(SignsBy(prm)(RunPivots(steps)[i]), Null) == 1;
  }
}
