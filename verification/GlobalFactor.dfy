/** The stored fronts as one factorization: the pivot order of the whole matrix, its unit
    lower L and its block diagonal D. */
module GlobalFactor {
  import opened Sequences
  import opened Reals
  import opened FrontAlgebra
  import opened FrontTerms

  // ---- the order ----

  // The pivots of all fronts, front by front: position j of P A P^T is column order[j].
  function PivotOrder(steps: seq<Step>): seq<int> {
    if |steps| == 0 then [] else PivotOrder(steps[..|steps| - 1]) + PivotsOf(steps[|steps| - 1])
  }

  lemma {:induction false} OrderCounts(steps: seq<Step>, x: int)
    ensures Count(PivotOrder(steps), x) == PivotCount(steps, x)
    decreases |steps|
  {
    if |steps| > 0 {
      OrderCounts(steps[..|steps| - 1], x);
      CountSum(PivotOrder(steps[..|steps| - 1]), PivotsOf(steps[|steps| - 1]), x);
    }
  }

  /** When every column is stored once the order is a permutation. */
  lemma OrderPermutes(steps: seq<Step>, n: nat)
    requires forall x :: PivotCount(steps, x) == Once(0 <= x < n)
    ensures Permutes(PivotOrder(steps), n)
  {
    var order := PivotOrder(steps);
    forall x ensures Count(order, x) == Once(0 <= x < n) { OrderCounts(steps, x); }
    forall i | 0 <= i < |order|
      ensures 0 <= order[i] < n
    {
      CountAbsent(order, order[i]);
    }
    OnceEach(order, n);
  }

  // ---- the fronts' shape ----

  // Whole pivot blocks; a zero tag is a zero pivot.
  ghost predicate TagWhole(st: Step, c: int) {
    && (Tag(st.tags, c) == FIRST ==> c + 1 < st.p && Tag(st.tags, c + 1) == SECOND)
    && (Tag(st.tags, c) == SECOND ==> c > 0 && Tag(st.tags, c - 1) == FIRST)
    && (Tag(st.tags, c) == 0 ==> At(st.m, c, c) == 0.0)
  }

  ghost predicate WholeTags(st: Step) {
    forall c | 0 <= c < st.p :: TagWhole(st, c)
  }

  // Front d's rows are distinct, its pivots lead, and none of its rows was a pivot before.
  ghost predicate Formed(steps: seq<Step>, d: int)
    requires 0 <= d < |steps|
  {
    && 0 <= steps[d].p <= |steps[d].rows| && Distinct(steps[d].rows) && WholeTags(steps[d])
    && forall r | r in steps[d].rows :: PivotCount(steps[..d], r) == 0
  }

  ghost predicate AllFormed(steps: seq<Step>) {
    forall d | 0 <= d < |steps| :: Formed(steps, d)
  }

  lemma FormedInit(steps: seq<Step>)
    requires AllFormed(steps) && |steps| > 0
    ensures AllFormed(steps[..|steps| - 1]) && Formed(steps, |steps| - 1)
  {
    var init := steps[..|steps| - 1];
    forall d | 0 <= d < |init|
      ensures Formed(init, d)
    {
      assert Formed(steps, d);
      assert init[..d] == steps[..d];
    }
  }

  lemma FormedMore(steps: seq<Step>, st: Step)
    requires AllFormed(steps) && 0 <= st.p <= |st.rows| && Distinct(st.rows) && WholeTags(st)
    requires forall r | r in st.rows :: PivotCount(steps, r) == 0
    ensures AllFormed(steps + [st])
  {
    forall d | 0 <= d < |steps + [st]|
      ensures Formed(steps + [st], d)
    {
      assert (steps + [st])[..d] == steps[..d];
      if d < |steps| { assert Formed(steps, d); } else { assert steps[..d] == steps; }
    }
  }

  // ---- L and D ----

  // Row r of a front's L, 0 for a row the front does not have.
  function RowL(st: Step, r: int, c: int): real {
    var x := IndexOf(st.rows, r);
    if x < 0 then 0.0 else StoredL(st.m, x, c)
  }

  function LocalD(st: Step, x: int, y: int): real {
    if x == y then At(st.m, x, x)
    else if y == x + 1 && Tag(st.tags, x) == FIRST then At(st.m, x, y)
    else if x == y + 1 && Tag(st.tags, y) == FIRST then At(st.m, y, x)
    else 0.0
  }

  // Entry of L in the row of column r at pivot position j.
  function RowOfL(steps: seq<Step>, r: int, j: int): real {
    if |steps| == 0 then 0.0
    else
      var init := steps[..|steps| - 1];
      var off := |PivotOrder(init)|;
      if j < off then RowOfL(init, r, j) else RowL(steps[|steps| - 1], r, j - off)
  }

  /** L of the whole matrix, in pivot positions. */
  function FactorL(steps: seq<Step>, i: int, j: int): real
    requires 0 <= i < |PivotOrder(steps)|
  {
    RowOfL(steps, PivotOrder(steps)[i], j)
  }

  /** D of the whole matrix: the fronts' pivot blocks down the diagonal. */
  function FactorD(steps: seq<Step>, i: int, j: int): real {
    if |steps| == 0 then 0.0
    else
      var init := steps[..|steps| - 1];
      var off := |PivotOrder(init)|;
      if i < off && j < off then FactorD(init, i, j)
      else if i >= off && j >= off then LocalD(steps[|steps| - 1], i - off, j - off)
      else 0.0
  }

  // Entry (c, r) of D L^T summed over the first k positions.
  ghost function TimesD(steps: seq<Step>, c: int, r: int, k: int): real
    decreases k
  {
    if k <= 0 then 0.0 else TimesD(steps, c, r, k - 1) + FactorD(steps, c, k - 1) * RowOfL(steps, r, k - 1)
  }

  // The first k columns' part of L D L^T in the rows of columns r and s.
  ghost function Sum(steps: seq<Step>, r: int, s: int, k: int): real
    decreases k
  {
    if k <= 0 then 0.0
    else Sum(steps, r, s, k - 1) + Term(steps, r, s, k - 1)
  }

  ghost function Term(steps: seq<Step>, r: int, s: int, c: int): real {
    Product(RowOfL(steps, r, c), TimesD(steps, c, s, |PivotOrder(steps)|))
  }

  /** Entry (i, j) of L D L^T. */
  ghost function FactorLDLt(steps: seq<Step>, i: int, j: int): real
    requires 0 <= i < |PivotOrder(steps)| && 0 <= j < |PivotOrder(steps)|
  {
    Sum(steps, PivotOrder(steps)[i], PivotOrder(steps)[j], |PivotOrder(steps)|)
  }

  // ---- L is unit lower triangular ----

  ghost predicate UnitLower(steps: seq<Step>) {
    forall i, j | 0 <= i < |PivotOrder(steps)| && 0 <= j < |PivotOrder(steps)| ::
      && (i == j ==> FactorL(steps, i, j) == 1.0)
      && (i < j ==> FactorL(steps, i, j) == 0.0)
  }

  lemma {:induction false} TriangularEntry(steps: seq<Step>, i: int, j: int)
    requires AllFormed(steps) && 0 <= i <= j < |PivotOrder(steps)|
    ensures FactorL(steps, i, j) == if i == j then 1.0 else 0.0
    decreases |steps|
  {
    FormedInit(steps);
    var init, st := steps[..|steps| - 1], steps[|steps| - 1];
    var off := |PivotOrder(init)|;
    if j < off {
      TriangularEntry(init, i, j);
    } else if i < off {
      var r := PivotOrder(init)[i];
      OrderCounts(init, r);
      CountAbsent(PivotOrder(init), r);
    } else {
      IndexOfDistinct(st.rows, i - off);
    }
  }

  /** L is unit lower triangular in the pivot order: no front has a row that was a pivot of
      an earlier one. */
  lemma FactorIsUnitLower(steps: seq<Step>)
    requires AllFormed(steps)
    ensures UnitLower(steps)
  {
    forall i, j | 0 <= i < |PivotOrder(steps)| && 0 <= j < |PivotOrder(steps)|
      ensures (i == j ==> FactorL(steps, i, j) == 1.0) && (i < j ==> FactorL(steps, i, j) == 0.0)
    {
      if i <= j { TriangularEntry(steps, i, j); }
    }
  }

  // ---- D is symmetric with blocks of order 1 and 2 ----

  ghost predicate BlockDiagonal(steps: seq<Step>) {
    forall i, j :: FactorD(steps, i, j) == FactorD(steps, j, i) && (j > i + 1 ==> FactorD(steps, i, j) == 0.0)
  }

  lemma {:induction false} FactorIsBlockDiagonal(steps: seq<Step>)
    ensures BlockDiagonal(steps)
    decreases |steps|
  {
    if |steps| > 0 { FactorIsBlockDiagonal(steps[..|steps| - 1]); }
  }

  // ---- the product ----

  // A stored column of L D, from the block diagonal D.
  ghost function LocalTimesD(st: Step, x: int, r: int, k: int): real
    decreases k
  {
    if k <= 0 then 0.0 else LocalTimesD(st, x, r, k - 1) + LocalD(st, x, k - 1) * RowL(st, r, k - 1)
  }

  lemma ZeroTimes(x: real, y: real)
    requires x == 0.0 || y == 0.0
    ensures x * y == 0.0
  {
  }

  // The part of row x of D that lies before column k.
  function Before(st: Step, x: int, r: int, k: int): real {
    (if Tag(st.tags, x) == SECOND && x - 1 < k then At(st.m, x - 1, x) * RowL(st, r, x - 1) else 0.0)
    + (if x < k then At(st.m, x, x) * RowL(st, r, x) else 0.0)
    + (if Tag(st.tags, x) == FIRST && x + 1 < k then At(st.m, x, x + 1) * RowL(st, r, x + 1) else 0.0)
  }

  lemma {:induction false} LocalTimesIs(st: Step, x: int, r: int, k: int)
    requires WholeTags(st) && 0 <= x < st.p && 0 <= k <= st.p
    ensures LocalTimesD(st, x, r, k) == Before(st, x, r, k)
    decreases k
  {
    assert TagWhole(st, x);
    if k > 0 {
      LocalTimesIs(st, x, r, k - 1);
      assert TagWhole(st, k - 1);
      if x != k - 1 && x != k && x != k - 2 { ZeroTimes(LocalD(st, x, k - 1), RowL(st, r, k - 1)); }
      if x == k && Tag(st.tags, x) != SECOND { ZeroTimes(LocalD(st, x, k - 1), RowL(st, r, k - 1)); }
      if x == k - 2 && Tag(st.tags, x) != FIRST { ZeroTimes(LocalD(st, x, k - 1), RowL(st, r, k - 1)); }
    }
  }

  lemma LocalTimesStored(st: Step, x: int, r: int)
    requires WholeTags(st) && 0 <= x < st.p && IndexOf(st.rows, r) >= 0
    ensures LocalTimesD(st, x, r, st.p) == StoredLD(st.m, st.tags, IndexOf(st.rows, r), x)
  {
    LocalTimesIs(st, x, r, st.p);
    assert TagWhole(st, x);
  }

  lemma {:induction false} NoRowTimes(st: Step, x: int, r: int, k: int)
    requires IndexOf(st.rows, r) < 0
    ensures LocalTimesD(st, x, r, k) == 0.0
    decreases k
  {
    if k > 0 {
      NoRowTimes(st, x, r, k - 1);
      ZeroTimes(LocalD(st, x, k - 1), RowL(st, r, k - 1));
    }
  }

  // One front's L D L^T.
  ghost function LocalSum(st: Step, r: int, s: int, k: int): real
    decreases k
  {
    if k <= 0 then 0.0 else LocalSum(st, r, s, k - 1) + LocalTerm(st, r, s, k - 1)
  }

  ghost function LocalTerm(st: Step, r: int, s: int, x: int): real {
    Product(RowL(st, r, x), LocalTimesD(st, x, s, st.p))
  }

  lemma {:induction false} LocalSumIs(st: Step, r: int, s: int, k: int)
    requires WholeTags(st) && 0 <= k <= st.p
    ensures var x, y := IndexOf(st.rows, r), IndexOf(st.rows, s);
      LocalSum(st, r, s, k) == if x < 0 || y < 0 then 0.0 else StoredLDLt(st.m, st.tags, x, y, k)
    decreases k
  {
    if k > 0 {
      LocalSumIs(st, r, s, k - 1);
      if IndexOf(st.rows, s) < 0 {
        NoRowTimes(st, k - 1, s, st.p);
        ZeroTimes(RowL(st, r, k - 1), LocalTimesD(st, k - 1, s, st.p));
      } else if IndexOf(st.rows, r) < 0 {
        ZeroTimes(RowL(st, r, k - 1), LocalTimesD(st, k - 1, s, st.p));
      } else {
        LocalTimesStored(st, k - 1, s);
      }
    }
  }

  // D L^T in the earlier fronts' positions does not see the last front.
  lemma {:induction false} TimesInit(steps: seq<Step>, c: int, r: int, k: int)
    requires |steps| > 0 && 0 <= k
    requires var init := steps[..|steps| - 1]; 0 <= c < |PivotOrder(init)|
    ensures var init := steps[..|steps| - 1]; var off := |PivotOrder(init)|;
      TimesD(steps, c, r, k) == TimesD(init, c, r, if k < off then k else off)
    decreases k
  {
    if k > 0 {
      TimesInit(steps, c, r, k - 1);
      if k > |PivotOrder(steps[..|steps| - 1])| { ZeroTimes(FactorD(steps, c, k - 1), RowOfL(steps, r, k - 1)); }
    }
  }

  // In the last front's positions it is the front's own.
  lemma {:induction false} TimesLast(steps: seq<Step>, x: int, r: int, k: int)
    requires |steps| > 0 && 0 <= k && 0 <= x
    ensures var off := |PivotOrder(steps[..|steps| - 1])|;
      TimesD(steps, off + x, r, k) == LocalTimesD(steps[|steps| - 1], x, r, k - off)
    decreases k
  {
    if k > 0 {
      var off := |PivotOrder(steps[..|steps| - 1])|;
      TimesLast(steps, x, r, k - 1);
      if k <= off { ZeroTimes(FactorD(steps, off + x, k - 1), RowOfL(steps, r, k - 1)); }
    }
  }

  lemma TermInit(steps: seq<Step>, r: int, s: int, c: int)
    requires |steps| > 0 && 0 <= c < |PivotOrder(steps[..|steps| - 1])|
    ensures Term(steps, r, s, c) == Term(steps[..|steps| - 1], r, s, c)
  {
    TimesInit(steps, c, s, |PivotOrder(steps)|);
  }

  lemma {:induction false} SumInit(steps: seq<Step>, r: int, s: int, k: int)
    requires |steps| > 0 && 0 <= k <= |PivotOrder(steps[..|steps| - 1])|
    ensures Sum(steps, r, s, k) == Sum(steps[..|steps| - 1], r, s, k)
    decreases k
  {
    if k > 0 {
      SumInit(steps, r, s, k - 1);
      TermInit(steps, r, s, k - 1);
    }
  }

  lemma TermLast(steps: seq<Step>, r: int, s: int, x: int)
    requires |steps| > 0 && 0 <= x < steps[|steps| - 1].p <= |steps[|steps| - 1].rows|
    ensures var st := steps[|steps| - 1];
      Term(steps, r, s, |PivotOrder(steps[..|steps| - 1])| + x) == LocalTerm(st, r, s, x)
  {
    TimesLast(steps, x, s, |PivotOrder(steps)|);
  }

  lemma {:induction false} SumLast(steps: seq<Step>, r: int, s: int, k: int)
    requires |steps| > 0 && 0 <= k <= steps[|steps| - 1].p <= |steps[|steps| - 1].rows|
    ensures var init, st := steps[..|steps| - 1], steps[|steps| - 1];
      Sum(steps, r, s, |PivotOrder(init)| + k) == Sum(init, r, s, |PivotOrder(init)|) + LocalSum(st, r, s, k)
    decreases k
  {
    if k > 0 {
      SumLast(steps, r, s, k - 1);
      TermLast(steps, r, s, k - 1);
    } else {
      SumInit(steps, r, s, |PivotOrder(steps[..|steps| - 1])|);
    }
  }

  lemma {:induction false} FrontTerm(st: Step, r: int, s: int)
    requires WholeTags(st) && 0 <= st.p
    ensures LocalSum(st, r, s, st.p) == StepTerm(st, r, s)
  {
    LocalSumIs(st, r, s, st.p);
  }

  lemma {:induction false} LastFormed(steps: seq<Step>)
    requires AllFormed(steps) && |steps| > 0
    ensures var st := steps[|steps| - 1]; 0 <= st.p <= |st.rows| && WholeTags(st)
  {
    FormedInit(steps);
  }

  lemma {:induction false} NextSum(steps: seq<Step>, r: int, s: int)
    requires |steps| > 0
    requires var st := steps[|steps| - 1]; 0 <= st.p <= |st.rows| && WholeTags(st)
    ensures var init := steps[..|steps| - 1];
      Sum(steps, r, s, |PivotOrder(steps)|) == Sum(init, r, s, |PivotOrder(init)|) + StepTerm(steps[|steps| - 1], r, s)
  {
    SumLast(steps, r, s, steps[|steps| - 1].p);
    FrontTerm(steps[|steps| - 1], r, s);
  }

  /** The stored fronts add up to L D L^T. */
  lemma {:induction false} StepsAreProduct(steps: seq<Step>, r: int, s: int)
    requires AllFormed(steps)
    ensures StepsSum(steps, r, s) == Sum(steps, r, s, |PivotOrder(steps)|)
    decreases |steps|
  {
    if |steps| > 0 {
      FormedInit(steps);
      LastFormed(steps);
      StepsAreProduct(steps[..|steps| - 1], r, s);
      NextSum(steps, r, s);
    }
  }
}
