/** A finished auction is near-optimal: its matching costs at most (sparse columns) x
    eps_final more than any perfect matching of the sparse part. */
module AuctionOptimality {
  import opened AuctionModel
  import opened AuctionSafety
  import opened AuctionRuns

  // ---- nothing free is forgotten ----

  // Every free sparse column is queued, unless one was dropped.
  ghost predicate Complete(p: Problem, s: State)
    requires Shape(p, s)
  {
    !s.dropped ==> forall j {:trigger s.colToRow[j]} | SparseCol(p, j) && s.colToRow[j] < 0 :: j in Live(s)
  }

  lemma WonComplete(p: Problem, t: State, j: int, q1: int, b2: real)
    requires Shape(p, t) && SparseCol(p, j) && Sparse(p.cols[j], p.dense, q1)
    requires !t.dropped ==> forall k {:trigger t.colToRow[k]} | SparseCol(p, k) && t.colToRow[k] < 0 && k != j :: k in Live(t)
    ensures Shape(p, Won(p, t, j, q1, b2)) && Complete(p, Won(p, t, j, q1, b2))
  {
    var r := Won(p, t, j, q1, b2);
    var d := t.rowMatch[p.cols[j][q1].row];
    assert Live(r) == if d >= 0 then Live(t) + [d] else Live(t);
  }

  lemma PlacedComplete(p: Problem, t: State, j: int, sc: Scan)
    requires Shape(p, t) && SparseCol(p, j) && Sparse(p.cols[j], p.dense, sc.q1)
    requires !t.dropped ==> forall k {:trigger t.colToRow[k]} | SparseCol(p, k) && t.colToRow[k] < 0 && k != j :: k in Live(t)
    ensures Complete(p, Placed(p, t, j, sc))
  {
    var b, b2 := t.(bids := t.bids + 1), Bidding(sc, t.eps, t.range);
    assert Live(b) == Live(t);
    WonComplete(p, b, j, sc.q1, b2);
    CompactedLive(Won(p, b, j, sc.q1, b2));
  }

  lemma {:induction false} PoppedComplete(p: Problem, s: State)
    requires Inv(p, s) == true && Complete(p, s) && s.head < |s.queue|
    ensures var t := Pop(p, s);
      !t.dropped ==> forall k {:trigger t.colToRow[k]} | SparseCol(p, k) && t.colToRow[k] < 0 && k != s.queue[s.head] :: k in Live(t)
    ensures SparseCol(p, s.queue[s.head])
  {
    Popped(p, s);
    var t := Pop(p, s);
    LiveTail(s, t);
    if !t.dropped {
      forall k {:trigger t.colToRow[k]} | SparseCol(p, k) && t.colToRow[k] < 0 && k != s.queue[s.head]
        ensures k in Live(t)
      {
        assert s.colToRow[k] < 0;
        InTail(s.queue[s.head], Live(t), k);
      }
    }
  }

  lemma {:induction false} LiveTail(s: State, t: State)
    requires 0 <= s.head < |s.queue| && t.queue == s.queue && t.head == s.head + 1
    ensures Live(s) == [s.queue[s.head]] + Live(t)
  {
  }

  lemma InTail(x: int, rest: seq<int>, k: int)
    requires k in [x] + rest && k != x
    ensures k in rest
  {
  }

  lemma BidComplete(p: Instance, s: State)
    requires Inv(p, s) && Complete(p, s) && s.head < |s.queue|
    ensures Complete(p, Bid(p, s))
  {
    var j := s.queue[s.head];
    PoppedComplete(p, s);
    var sc := ScanCol(p.cols[j], s.u, p.dense, |p.cols[j]|);
    ScanFinds(p.cols[j], s.u, p.dense, |p.cols[j]|);
    if sc.q1 >= 0 { PlacedComplete(p, Pop(p, s), j, sc); }
  }

  lemma CompactedLive(s: State)
    requires 0 <= s.head <= |s.queue|
    ensures Live(Compacted(s)) == Live(s)
  {
  }

  lemma ReleaseOneComplete(p: Problem, s: State, j: int)
    requires Shape(p, s) && 0 <= j < |p.cols| && Complete(p, s)
    ensures Complete(p, ReleaseOne(p, s, j))
  {
    var t := ReleaseOne(p, s, j);
    if t.queue != s.queue { assert Live(t) == Live(s) + [j]; } else { assert Live(t) == Live(s); }
  }

  lemma {:induction false} ReleaseComplete(p: Problem, s: State, k: int)
    requires Shape(p, s) && k <= |p.cols| && Complete(p, s)
    ensures Complete(p, Release(p, s, k))
    decreases k
  {
    if k > 0 {
      var j := k - 1;
      ReleaseComplete(p, s, j);
      ReleaseOneComplete(p, Release(p, s, j), j);
    }
  }

  lemma NextPhaseComplete(p: Instance, s: State)
    requires Shape(p, s) && Complete(p, s) && s.head == |s.queue|
    ensures Complete(p, NextPhase(p, s))
  {
    var r := Rescaled(p, s);
    assert Live(s) == [];
    assert Complete(p, r);
    ReleaseComplete(p, r, |p.cols|);
  }

  lemma StepComplete(p: Instance, s: State, budget: int)
    requires Inv(p, s) && Complete(p, s) && Step(p, s, budget).Go?
    ensures Complete(p, Step(p, s, budget).next)
  {
    if s.head == |s.queue| { NextPhaseComplete(p, s); } else { BidComplete(p, s); }
  }

  lemma {:induction false} RunComplete(p: Instance, s: State, budget: int)
    requires Inv(p, s) && Complete(p, s)
    ensures Complete(p, Run(p, s, budget).final)
    decreases PhasesLeft(p.opt, s.eps), s.limit - s.bids, |s.queue| - s.head
  {
    if Step(p, s, budget).Go? {
      StepKeeps(p, s, budget);
      Shrinks(p, s, budget);
      StepComplete(p, s, budget);
      RunComplete(p, Step(p, s, budget).next, budget);
    }
  }

  // ---- costs ----

  // Cost of the column's edge to row r.
  function EdgeCost(col: seq<Edge>, r: int): real {
    if |col| == 0 then 0.0
    else if col[|col| - 1].row == r then col[|col| - 1].cost
    else EdgeCost(col[..|col| - 1], r)
  }

  lemma {:induction false} EdgeCostAt(col: seq<Edge>, q: int)
    requires 0 <= q < |col| && forall x, y | 0 <= x < y < |col| :: col[x].row != col[y].row
    ensures EdgeCost(col, col[q].row) == col[q].cost
    decreases |col|
  {
    if q < |col| - 1 { EdgeCostAt(col[..|col| - 1], q); }
  }

  predicate HasEdge(p: Problem, j: int, r: int)
    requires 0 <= j < |p.cols|
  {
    exists q :: 0 <= q < |p.cols[j]| && p.cols[j][q].row == r
  }

  /** A perfect matching of the sparse part, as the row of every sparse column. */
  ghost predicate Perfect(p: Problem, M: seq<int>) {
    && |M| == |p.cols|
    && (forall j {:trigger M[j]} | SparseCol(p, j) :: SparseCol(p, M[j]) && HasEdge(p, j, M[j]))
    && (forall j, k {:trigger M[j], M[k]} | SparseCol(p, j) && SparseCol(p, k) && j != k :: M[j] != M[k])
  }

  function CostOf(p: Problem, M: seq<int>, k: int): real
    requires k <= |p.cols| == |M|
    decreases k
  {
    if k <= 0 then 0.0 else CostOf(p, M, k - 1) + (if SparseCol(p, k - 1) then EdgeCost(p.cols[k - 1], M[k - 1]) else 0.0)
  }

  function Price(u: seq<real>, r: int): real { if 0 <= r < |u| then u[r] else 0.0 }

  function PriceSum(p: Problem, u: seq<real>, M: seq<int>, k: int): real
    requires k <= |p.cols| == |M|
    decreases k
  {
    if k <= 0 then 0.0 else PriceSum(p, u, M, k - 1) + (if SparseCol(p, k - 1) then Price(u, M[k - 1]) else 0.0)
  }

  function SparseCount(p: Problem, k: int): nat
    decreases k
  {
    if k <= 0 then 0 else SparseCount(p, k - 1) + (if SparseCol(p, k - 1) then 1 else 0)
  }

  // eps per sparse column.
  function Allowance(p: Problem, eps: real, k: int): real
    decreases k
  {
    if k <= 0 then 0.0 else Allowance(p, eps, k - 1) + (if SparseCol(p, k - 1) then eps else 0.0)
  }

  lemma {:induction false} AllowanceIs(p: Problem, eps: real, k: int)
    ensures Allowance(p, eps, k) == SparseCount(p, k) as real * eps
    decreases k
  {
    if k > 0 { AllowanceIs(p, eps, k - 1); }
  }

  // (sparse columns) x eps_final
  function Excess(p: Problem): real {
    SparseCount(p, |p.cols|) as real * p.opt.epsFinal
  }

  // ---- the prices cancel: both matchings use every sparse row once ----

  // The prices of the rows of S below n.
  ghost function SumBelow(S: set<int>, u: seq<real>, n: int): real
    decreases n
  {
    if n <= 0 then 0.0 else SumBelow(S, u, n - 1) + (if n - 1 in S then Price(u, n - 1) else 0.0)
  }

  lemma {:induction false} SumAdded(S: set<int>, u: seq<real>, n: int, r: int)
    requires r !in S && 0 <= r
    ensures SumBelow(S + {r}, u, n) == SumBelow(S, u, n) + (if r < n then Price(u, r) else 0.0)
    decreases n
  {
    if n > 0 { SumAdded(S, u, n - 1, r); }
  }

  // The rows of the first k sparse columns.
  ghost function Rows(p: Problem, M: seq<int>, k: int): set<int>
    requires k <= |M|
    decreases k
  {
    if k <= 0 then {} else if SparseCol(p, k - 1) then Rows(p, M, k - 1) + {M[k - 1]} else Rows(p, M, k - 1)
  }

  ghost function SparseRows(p: Problem, k: int): set<int>
    decreases k
  {
    if k <= 0 then {} else if SparseCol(p, k - 1) then SparseRows(p, k - 1) + {k - 1} else SparseRows(p, k - 1)
  }

  lemma {:induction false} InSparseRows(p: Problem, k: int, r: int)
    ensures r in SparseRows(p, k) <==> 0 <= r < k && SparseCol(p, r)
    decreases k
  {
    if k > 0 { InSparseRows(p, k - 1, r); }
  }

  lemma {:induction false} RowFrom(p: Problem, M: seq<int>, k: int, r: int) returns (j: int)
    requires k <= |M| && r in Rows(p, M, k)
    ensures 0 <= j < k && SparseCol(p, j) && M[j] == r
    decreases k
  {
    if SparseCol(p, k - 1) && M[k - 1] == r { j := k - 1; } else { j := RowFrom(p, M, k - 1, r); }
  }

  lemma FreshRow(p: Problem, M: seq<int>, j: int)
    requires Perfect(p, M) && SparseCol(p, j)
    ensures M[j] !in Rows(p, M, j) && 0 <= M[j] < |p.cols|
  {
    if M[j] in Rows(p, M, j) { var i := RowFrom(p, M, j, M[j]); }
  }

  lemma {:induction false} RowsSum(p: Problem, u: seq<real>, M: seq<int>, k: int)
    requires Perfect(p, M) && 0 <= k <= |p.cols|
    ensures PriceSum(p, u, M, k) == SumBelow(Rows(p, M, k), u, |p.cols|)
    decreases k
  {
    if k == 0 {
      EmptySum(u, |p.cols|);
    } else {
      RowsSum(p, u, M, k - 1);
      if SparseCol(p, k - 1) {
        FreshRow(p, M, k - 1);
        SumAdded(Rows(p, M, k - 1), u, |p.cols|, M[k - 1]);
      }
    }
  }

  lemma {:induction false} EmptySum(u: seq<real>, n: int)
    ensures SumBelow({}, u, n) == 0.0
    decreases n
  {
    if n > 0 { EmptySum(u, n - 1); }
  }

  lemma SizeAdded(S: set<int>, r: int)
    requires r !in S
    ensures |S + {r}| == |S| + 1
  {
  }

  lemma {:induction false} RowsSize(p: Problem, M: seq<int>, k: int)
    requires Perfect(p, M) && 0 <= k <= |p.cols|
    ensures |Rows(p, M, k)| == |SparseRows(p, k)|
    decreases k
  {
    if k > 0 {
      RowsSize(p, M, k - 1);
      if SparseCol(p, k - 1) {
        FreshRow(p, M, k - 1);
        InSparseRows(p, k - 1, k - 1);
        SizeAdded(Rows(p, M, k - 1), M[k - 1]);
        SizeAdded(SparseRows(p, k - 1), k - 1);
      }
    }
  }

  // A perfect matching of the sparse columns covers the sparse rows.
  lemma CoversRows(p: Problem, M: seq<int>)
    requires Perfect(p, M)
    ensures Rows(p, M, |p.cols|) == SparseRows(p, |p.cols|)
  {
    var n := |p.cols|;
    RowsSize(p, M, n);
    forall r | r in Rows(p, M, n)
      ensures r in SparseRows(p, n)
    {
      var j := RowFrom(p, M, n, r);
      InSparseRows(p, n, r);
    }
    SameSize(Rows(p, M, n), SparseRows(p, n));
  }

  lemma SameSize(A: set<int>, B: set<int>)
    requires A <= B && |A| == |B|
    ensures A == B
  {
    assert |B - A| == |B| - |A|;
  }

  // Whatever the perfect matching, its rows' prices add up to the same.
  lemma PricesCancel(p: Problem, u: seq<real>, M: seq<int>, M': seq<int>)
    requires Perfect(p, M) && Perfect(p, M')
    ensures PriceSum(p, u, M, |p.cols|) == PriceSum(p, u, M', |p.cols|)
  {
    RowsSum(p, u, M, |p.cols|);
    RowsSum(p, u, M', |p.cols|);
    CoversRows(p, M);
    CoversRows(p, M');
  }

  // ---- near-optimality ----

  // A column's own edge costs at most eps more than any other, net of prices.
  lemma ColumnBound(p: Instance, s: State, j: int, r: int)
    requires Shape(p, s) && EpsCS(p, s) && Matched(p, s, j) && SparseCol(p, r) && HasEdge(p, j, r)
    ensures EdgeCost(p.cols[j], s.colToRow[j]) - Price(s.u, s.colToRow[j]) <= EdgeCost(p.cols[j], r) - Price(s.u, r) + s.eps
  {
    assert Close(p, s, j);
    var q :| WithinEps(p, s, j, q, s.eps);
    var q' :| 0 <= q' < |p.cols[j]| && p.cols[j][q'].row == r;
    EdgeCostAt(p.cols[j], q);
    EdgeCostAt(p.cols[j], q');
    assert Sparse(p.cols[j], p.dense, q');
  }

  // Every sparse column costs at most eps more than with M, net of prices.
  ghost predicate ColumnBounds(p: Problem, u: seq<real>, C: seq<int>, M: seq<int>, eps: real)
    requires |C| == |M| == |p.cols|
  {
    forall j | SparseCol(p, j) ::
      EdgeCost(p.cols[j], C[j]) - Price(u, C[j]) <= EdgeCost(p.cols[j], M[j]) - Price(u, M[j]) + eps
  }

  lemma {:induction false} CostBound(p: Problem, u: seq<real>, C: seq<int>, M: seq<int>, eps: real, k: int)
    requires |C| == |M| == |p.cols| && ColumnBounds(p, u, C, M, eps) && 0 <= k <= |p.cols|
    ensures CostOf(p, C, k) - PriceSum(p, u, C, k) <= CostOf(p, M, k) - PriceSum(p, u, M, k) + Allowance(p, eps, k)
    decreases k
  {
    if k > 0 { CostBound(p, u, C, M, eps, k - 1); }
  }

  lemma AllColumnBounds(p: Instance, s: State, M: seq<int>)
    requires Inv(p, s) && Perfect(p, M) && forall j | SparseCol(p, j) :: s.colToRow[j] >= 0
    ensures ColumnBounds(p, s.u, s.colToRow, M, s.eps)
  {
    forall j | SparseCol(p, j)
      ensures EdgeCost(p.cols[j], s.colToRow[j]) - Price(s.u, s.colToRow[j]) <= EdgeCost(p.cols[j], M[j]) - Price(s.u, M[j]) + s.eps
    {
      ColumnBound(p, s, j, M[j]);
    }
  }

  lemma DoneIsPerfect(p: Instance, s: State)
    requires Inv(p, s) && Complete(p, s) && Step(p, s, -1) == Stop(Done)
    ensures Perfect(p, s.colToRow) && forall j | SparseCol(p, j) :: s.colToRow[j] >= 0
  {
    assert Live(s) == [];
    assert forall j {:trigger s.colToRow[j]} | SparseCol(p, j) :: s.colToRow[j] >= 0;
    forall j | SparseCol(p, j)
      ensures SparseCol(p, s.colToRow[j]) && HasEdge(p, j, s.colToRow[j])
    {
      assert Matched(p, s, j) && Close(p, s, j);
      var q :| WithinEps(p, s, j, q, s.eps);
    }
    forall j, k | SparseCol(p, j) && SparseCol(p, k) && j != k
      ensures s.colToRow[j] != s.colToRow[k]
    {
      assert Matched(p, s, j) && Matched(p, s, k);
    }
  }

  lemma AllowanceMono(p: Problem, eps: real, eps': real, k: int)
    requires eps <= eps'
    ensures Allowance(p, eps, k) <= Allowance(p, eps', k)
    decreases k
  {
    if k > 0 { AllowanceMono(p, eps, eps', k - 1); }
  }

  lemma DoneBound(p: Instance, t: State, M: seq<int>)
    requires Inv(p, t) && Complete(p, t) && Step(p, t, -1) == Stop(Done) && Perfect(p, M)
    ensures Perfect(p, t.colToRow)
    ensures CostOf(p, t.colToRow, |p.cols|) <= CostOf(p, M, |p.cols|) + Allowance(p, p.opt.epsFinal, |p.cols|)
  {
    DoneIsPerfect(p, t);
    AllColumnBounds(p, t, M);
    CostBound(p, t.u, t.colToRow, M, t.eps, |p.cols|);
    PricesCancel(p, t.u, t.colToRow, M);
    AllowanceMono(p, t.eps, p.opt.epsFinal, |p.cols|);
  }

  /** If every free sparse column is queued, a run that ends Done has matched all sparse
      columns to distinct sparse rows along their own edges. */
  lemma DoneMatchesAll(p: Instance, s: State, budget: int)
    requires Inv(p, s) && Complete(p, s) && Run(p, s, budget).status == Done
    ensures Perfect(p, Run(p, s, budget).final.colToRow)
  {
    StopsThere(p, s, budget);
    RunComplete(p, s, budget);
    DoneAnyBudget(p, Run(p, s, budget).final, budget);
    DoneIsPerfect(p, Run(p, s, budget).final);
  }

  // No perfect sparse matching is cheaper by more than (sparse columns) x eps_final.
  ghost predicate CheapestWithin(p: Problem, m: seq<int>) {
    Perfect(p, m) && forall M | Perfect(p, M) :: CostOf(p, m, |p.cols|) <= CostOf(p, M, |p.cols|) + Excess(p)
  }

  /** That matching costs at most (sparse columns) x eps_final more than any perfect sparse
      matching. */
  lemma NearOptimal(p: Instance, s: State, budget: int)
    requires Inv(p, s) && Complete(p, s) && Run(p, s, budget).status == Done
    ensures CheapestWithin(p, Run(p, s, budget).final.colToRow)
  {
    var t := Run(p, s, budget).final;
    DoneMatchesAll(p, s, budget);
    StopsThere(p, s, budget);
    RunComplete(p, s, budget);
    DoneAnyBudget(p, t, budget);
    forall M | Perfect(p, M)
      ensures CostOf(p, t.colToRow, |p.cols|) <= CostOf(p, M, |p.cols|) + Excess(p)
    {
      DoneBound(p, t, M);
      ExcessIs(p);
    }
  }

  lemma StartComplete(p: Instance, s: State, first: seq<int>)
    requires |p.dense| == |p.cols| && Shape(p, s.(queue := first, head := 0))
    requires forall j {:trigger s.colToRow[j]} | SparseCol(p, j) && s.colToRow[j] < 0 :: j in first
    ensures Shape(p, Start(p, s, first)) && Complete(p, Start(p, s, first))
  {
    var t := Start(p, s, first);
    assert Live(t) == first;
  }

  lemma DoneAnyBudget(p: Instance, t: State, budget: int)
    requires Shape(p, t) && Step(p, t, budget) == Stop(Done)
    ensures Step(p, t, -1) == Stop(Done)
  {
  }

  lemma ExcessIs(p: Problem)
    ensures Allowance(p, p.opt.epsFinal, |p.cols|) == Excess(p)
  {
    AllowanceIs(p, p.opt.epsFinal, |p.cols|);
  }
}
