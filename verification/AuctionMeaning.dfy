/** The auction's rounds and ends on the graph alone: when a run stops and how, what a bid
    and a phase change do, and the bounds a run starts from. */
module AuctionMeaning {
  import Reals
  import opened AuctionModel
  import opened AuctionSafety
  import opened AuctionRuns
  import opened AuctionOptimality

  // ---- how a run ends ----

  // A sparse column without an entry in a sparse row.
  ghost predicate Rowless(p: Problem, j: int) {
    SparseCol(p, j) && forall q :: !Sparse(p.cols[j], p.dense, q)
  }

  ghost predicate AllMatched(p: Problem, s: State)
    requires Shape(p, s)
  {
    forall j {:trigger s.colToRow[j]} | SparseCol(p, j) :: s.colToRow[j] >= 0
  }

  // The last eps, and no sparse column free.
  ghost predicate EndsDone(p: Problem, s: State)
    requires Shape(p, s)
  {
    s.eps <= p.opt.epsFinal && AllMatched(p, s)
  }

  // A queued column is left after all bids of the phase, or nothing is queued at the last
  // eps although a sparse column can never be matched.
  ghost predicate EndsCapped(p: Problem, s: State)
    requires Shape(p, s)
  {
    if Live(s) != [] then s.bids >= s.limit
    else s.eps <= p.opt.epsFinal && exists j :: Rowless(p, j)
  }

  // A column is to bid and may, but the budget is spent.
  predicate EndsPaused(p: Problem, s: State, budget: int)
    requires Shape(p, s)
  {
    Live(s) != [] && s.bids < s.limit && 0 <= budget <= s.work
  }

  ghost predicate Ends(p: Problem, s: State, budget: int, status: Status)
    requires Shape(p, s)
  {
    match status
    case Done => EndsDone(p, s)
    case Capped => EndsCapped(p, s)
    case Paused => EndsPaused(p, s, budget)
  }

  // A column was dropped only for want of a sparse row.
  ghost predicate DroppedWhy(p: Problem, s: State) {
    s.dropped ==> exists j :: Rowless(p, j)
  }

  // Reachable with every free sparse column in the queue.
  ghost predicate Accounted(p: Problem, s: State) {
    Inv(p, s) && Complete(p, s) && DroppedWhy(p, s)
  }

  lemma MatchedHasRow(p: Problem, s: State, j: int)
    requires Inv(p, s) && Matched(p, s, j)
    ensures !Rowless(p, j)
  {
    assert Close(p, s, j);
    var q :| WithinEps(p, s, j, q, s.eps);
  }

  lemma SomeRowless(p: Problem, s: State)
    requires Inv(p, s) && exists j :: Rowless(p, j)
    ensures !AllMatched(p, s)
  {
    var j :| Rowless(p, j);
    if Matched(p, s, j) { MatchedHasRow(p, s, j); }
    assert s.colToRow[j] < 0;
  }

  lemma SomeQueued(p: Problem, s: State)
    requires Inv(p, s) && Live(s) != []
    ensures !AllMatched(p, s)
  {
    var j := Live(s)[0];
    assert SparseCol(p, j) && s.colToRow[j] < 0;
  }

  lemma {:induction false} BidDroppedWhy(p: Instance, s: State)
    requires Inv(p, s) && DroppedWhy(p, s) && s.head < |s.queue|
    ensures DroppedWhy(p, Bid(p, s))
  {
    var j := s.queue[s.head];
    Popped(p, s);
    ScanFinds(p.cols[j], s.u, p.dense, |p.cols[j]|);
    if ScanCol(p.cols[j], s.u, p.dense, |p.cols[j]|).q1 < 0 { assert Rowless(p, j); }
  }

  lemma {:induction false} StepAccounted(p: Instance, s: State, budget: int)
    requires Accounted(p, s) && Step(p, s, budget).Go?
    ensures Accounted(p, Step(p, s, budget).next)
  {
    StepKeeps(p, s, budget);
    StepComplete(p, s, budget);
    if s.head == |s.queue| { ReleaseFrame(p, Rescaled(p, s), |p.cols|); } else { BidDroppedWhy(p, s); }
  }

  lemma {:induction false} MatchedOrQueued(p: Problem, s: State)
    requires Accounted(p, s)
    ensures AllMatched(p, s) <==> Live(s) == [] && !s.dropped
  {
    if Live(s) != [] {
      SomeQueued(p, s);
    } else if s.dropped {
      SomeRowless(p, s);
    } else {
      forall j {:trigger s.colToRow[j]} | SparseCol(p, j) ensures s.colToRow[j] >= 0 {}
    }
  }

  lemma {:induction false} DroppedIff(p: Problem, s: State)
    requires Accounted(p, s) && Live(s) == []
    ensures s.dropped <==> exists j :: Rowless(p, j)
  {
    MatchedOrQueued(p, s);
    if exists j :: Rowless(p, j) { SomeRowless(p, s); }
  }

  // A state stops the auction with a status exactly when it meets that status' condition.
  lemma {:induction false} StopMeaning(p: Instance, s: State, budget: int, status: Status)
    requires Accounted(p, s)
    ensures Step(p, s, budget) == Stop(status) <==> Ends(p, s, budget, status)
  {
    MatchedOrQueued(p, s);
    if s.head == |s.queue| { DroppedIff(p, s); }
    assert Live(s) == [] <==> s.head == |s.queue|;
  }

  /** The last state of a run tells its status: Done exactly when at the last eps every sparse
      column is matched; Capped exactly when a queued column is left after all bids of its
      phase, or the last eps leaves a column that has no sparse row; Paused exactly when a
      column could bid but the budget is spent. */
  lemma {:induction false} RunEnds(p: Instance, s: State, budget: int, status: Status)
    requires Accounted(p, s)
    ensures Accounted(p, Run(p, s, budget).final)
    ensures Run(p, s, budget).status == status <==> Ends(p, Run(p, s, budget).final, budget, status)
    decreases PhasesLeft(p.opt, s.eps), s.limit - s.bids, |s.queue| - s.head
  {
    StopMeaning(p, s, budget, status);
    if Step(p, s, budget).Go? {
      StepKeeps(p, s, budget);
      Shrinks(p, s, budget);
      StepAccounted(p, s, budget);
      RunEnds(p, Step(p, s, budget).next, budget, status);
    }
  }

  lemma {:induction false} StatusTold(p: Instance, s: State, budget: int)
    requires Accounted(p, s)
    ensures forall status :: Run(p, s, budget).status == status <==> Ends(p, Run(p, s, budget).final, budget, status)
  {
    forall status ensures Run(p, s, budget).status == status <==> Ends(p, Run(p, s, budget).final, budget, status) {
      RunEnds(p, s, budget, status);
    }
  }

  /** And no earlier state of the run meets any of these conditions. */
  lemma {:induction false} StopsAtOnce(p: Instance, s: State, budget: int, i: int, status: Status)
    requires Accounted(p, s) && 0 <= i < |Trace(p, s, budget)| - 1
    ensures Inv(p, Trace(p, s, budget)[i]) && !Ends(p, Trace(p, s, budget)[i], budget, status)
    decreases i
  {
    StopMeaning(p, s, budget, status);
    StepKeeps(p, s, budget);
    Shrinks(p, s, budget);
    if i > 0 {
      StepAccounted(p, s, budget);
      StopsAtOnce(p, Step(p, s, budget).next, budget, i - 1, status);
    }
  }

  /** Without a budget a run ends Capped exactly when a queued column is left after all bids of
      its phase or some sparse column has no sparse row; otherwise it is Done. */
  lemma {:induction false} UnbudgetedEnds(p: Instance, s: State, budget: int)
    requires Accounted(p, s) && budget < 0
    ensures var r := Run(p, s, budget);
      && r.status != Paused
      && (r.status == Capped <==> (Live(r.final) != [] && r.final.bids >= r.final.limit) || exists j :: Rowless(p, j))
  {
    var r := Run(p, s, budget);
    RunEnds(p, s, budget, Done);
    RunEnds(p, s, budget, Capped);
    RunEnds(p, s, budget, Paused);
    if exists j :: Rowless(p, j) { SomeRowless(p, r.final); }
  }

  // ---- what a bid does ----

  // Entry q is the first of least reduced cost among the sparse entries of column j.
  ghost predicate Cheapest(p: Problem, s: State, j: int, q: int)
    requires 0 <= j < |p.cols|
  {
    && Sparse(p.cols[j], p.dense, q)
    && (forall x | Sparse(p.cols[j], p.dense, x) :: Reduced(p.cols[j], s.u, q) <= Reduced(p.cols[j], s.u, x))
    && (forall x | Sparse(p.cols[j], p.dense, x) && x < q :: Reduced(p.cols[j], s.u, q) < Reduced(p.cols[j], s.u, x))
  }

  // b is the least reduced cost of the other sparse entries, or a step above q's without one.
  ghost predicate SecondBest(p: Problem, s: State, j: int, q: int, b: real)
    requires 0 <= j < |p.cols|
  {
    if exists x :: x != q && Sparse(p.cols[j], p.dense, x) then
      && (forall x | x != q && Sparse(p.cols[j], p.dense, x) :: b <= Reduced(p.cols[j], s.u, x))
      && exists x :: x != q && Sparse(p.cols[j], p.dense, x) && b == Reduced(p.cols[j], s.u, x)
    else b == Reduced(p.cols[j], s.u, q) + Reals.Max(s.eps, s.range)
  }

  // Only entry k differs.
  predicate Differ<T(==)>(a: seq<T>, b: seq<T>, k: int) {
    |a| == |b| && forall x | 0 <= x < |a| && x != k :: a[x] == b[x]
  }

  // Row i goes to column j from column k, if it had one, for a price that leaves the edge's
  // cost c eps above the two duals.
  ghost predicate Moves(p: Problem, s: State, t: State, j: int, i: int, c: real)
    requires Shape(p, s) && Shape(p, t) && 0 <= j < |p.cols| && 0 <= i < |p.cols|
  {
    && t.u[i] == c - t.v[j] - s.eps && Differ(s.u, t.u, i) && Differ(s.v, t.v, j)
    && t.colToRow[j] == i && t.rowMatch[i] == j && Differ(s.rowMatch, t.rowMatch, i)
    && forall x | 0 <= x < |p.cols| && x != j ::
         t.colToRow[x] == if s.rowMatch[i] >= 0 && x == s.rowMatch[i] then -1 else s.colToRow[x]
  }

  // Column j, first in the queue, takes the row of its cheapest entry q; its dual becomes the
  // second best, and the column that had the row goes to the end of the queue.
  ghost predicate TakesRow(p: Problem, s: State, t: State, j: int, q: int)
    requires Shape(p, s) && Shape(p, t) && 0 <= j < |p.cols|
  {
    && Cheapest(p, s, j, q) && SecondBest(p, s, j, q, t.v[j])
    && var i := p.cols[j][q].row;
    && Moves(p, s, t, j, i, p.cols[j][q].cost)
    && Live(s) != [] && Live(t) == Live(s)[1..] + (if s.rowMatch[i] >= 0 then [s.rowMatch[i]] else [])
    && t.bids == s.bids + 1 && t.dropped == s.dropped
  }

  // Column j is given up and nothing else changes.
  ghost predicate GivesUp(p: Problem, s: State, t: State, j: int)
    requires Shape(p, s) && Shape(p, t)
  {
    && Rowless(p, j) && t.dropped && t.u == s.u && t.v == s.v && t.rowMatch == s.rowMatch && t.colToRow == s.colToRow
    && Live(s) != [] && Live(t) == Live(s)[1..] && t.bids == s.bids
  }

  lemma {:induction false} ScanMeans(p: Problem, s: State, j: int, sc: Scan)
    requires 0 <= j < |p.cols| && sc == ScanCol(p.cols[j], s.u, p.dense, |p.cols[j]|)
    ensures sc.q1 < 0 <==> forall q :: !Sparse(p.cols[j], p.dense, q)
    ensures sc.q1 >= 0 ==> Cheapest(p, s, j, sc.q1) && SecondBest(p, s, j, sc.q1, Bidding(sc, s.eps, s.range))
  {
    ScanFinds(p.cols[j], s.u, p.dense, |p.cols[j]|);
  }

  lemma {:induction false} WonLive(p: Problem, s: State, j: int, q: int, b2: real)
    requires Shape(p, s) && 0 <= j < |p.cols| && 0 <= q < |p.cols[j]| && 0 <= p.cols[j][q].row < |p.cols|
    ensures Shape(p, Won(p, s, j, q, b2))
    ensures var k := s.rowMatch[p.cols[j][q].row]; Live(Won(p, s, j, q, b2)) == Live(s) + if k >= 0 then [k] else []
  {
  }

  lemma {:induction false} WonMoves(p: Problem, s: State, b: State, j: int, q: int, b2: real)
    requires Shape(p, s) && Shape(p, b) && 0 <= j < |p.cols|
    requires 0 <= q < |p.cols[j]| && 0 <= p.cols[j][q].row < |p.cols| && s.rowMatch[p.cols[j][q].row] != j
    requires b.u == s.u && b.v == s.v && b.rowMatch == s.rowMatch && b.colToRow == s.colToRow && b.eps == s.eps
    ensures var w := Won(p, b, j, q, b2); Shape(p, w) && w.v[j] == b2 && Moves(p, s, w, j, p.cols[j][q].row, p.cols[j][q].cost)
  {
    WonLive(p, b, j, q, b2);
  }

  lemma {:induction false} WonTakes(p: Problem, s: State, b: State, j: int, q: int, b2: real)
    requires Shape(p, s) && 0 <= j < |p.cols| && Cheapest(p, s, j, q) && SecondBest(p, s, j, q, b2)
    requires Shape(p, b) && Live(s) != [] && Live(b) == Live(s)[1..] && b == s.(head := b.head, work := b.work, bids := s.bids + 1)
    requires 0 <= p.cols[j][q].row < |p.cols| && s.rowMatch[p.cols[j][q].row] != j
    ensures Shape(p, Won(p, b, j, q, b2)) && TakesRow(p, s, Won(p, b, j, q, b2), j, q)
  {
    WonMoves(p, s, b, j, q, b2);
    WonLive(p, b, j, q, b2);
  }

  // Compacting the queue changes none of it.
  lemma {:induction false} SameTakes(p: Problem, s: State, w: State, j: int, q: int)
    requires Shape(p, s) && Shape(p, w) && 0 <= j < |p.cols| && TakesRow(p, s, w, j, q) && 0 <= p.cols[j][q].row < |p.cols|
    ensures Shape(p, Compacted(w)) && TakesRow(p, s, Compacted(w), j, q)
  {
    CompactedLive(w);
    var t := Compacted(w);
    assert t == w.(queue := t.queue, head := t.head);
  }

  lemma {:induction false} PlacedTakes(p: Problem, s: State, t: State, j: int, sc: Scan)
    requires Shape(p, s) && 0 <= j < |p.cols| && sc == ScanCol(p.cols[j], s.u, p.dense, |p.cols[j]|)
    requires Shape(p, t) && Live(s) != [] && Live(t) == Live(s)[1..] && t == s.(head := t.head, work := t.work)
    requires 0 <= sc.q1 < |p.cols[j]| && 0 <= p.cols[j][sc.q1].row < |p.cols| && s.rowMatch[p.cols[j][sc.q1].row] != j
    ensures TakesRow(p, s, Placed(p, t, j, sc), j, sc.q1)
  {
    ScanMeans(p, s, j, sc);
    var b, b2 := t.(bids := t.bids + 1), Bidding(sc, t.eps, t.range);
    WonTakes(p, s, b, j, sc.q1, b2);
    SameTakes(p, s, Won(p, b, j, sc.q1, b2), j, sc.q1);
    assert Placed(p, t, j, sc) == Compacted(Won(p, b, j, sc.q1, b2));
  }

  // t follows s by the bid of the first queued column.
  ghost predicate BidOf(p: Problem, s: State, t: State) {
    && Shape(p, s) && Shape(p, t) && Live(s) != []
    && var j := Live(s)[0];
    && SparseCol(p, j) && t.eps == s.eps && t.phase == s.phase && t.limit == s.limit && t.range == s.range
    && t.work == s.work + |p.cols[j]|
    && (GivesUp(p, s, t, j) || exists q :: TakesRow(p, s, t, j, q))
  }

  /** One bid. */
  lemma {:induction false} BidMeaning(p: Instance, s: State)
    requires Inv(p, s) && s.head < |s.queue|
    ensures BidOf(p, s, Bid(p, s))
  {
    var j, t := s.queue[s.head], Pop(p, s);
    var sc := ScanCol(p.cols[j], s.u, p.dense, |p.cols[j]|);
    Popped(p, s);
    ScanMeans(p, s, j, sc);
    assert Live(t) == Live(s)[1..];
    if sc.q1 >= 0 {
      assert s.rowMatch[p.cols[j][sc.q1].row] != j;
      PlacedTakes(p, s, t, j, sc);
    }
  }

  // ---- what a phase change does ----

  // Column j's matched edge is within eps of its cheapest.
  ghost predicate CloseUnder(p: Problem, s: State, j: int, eps: real)
    requires Shape(p, s) && 0 <= j < |p.cols|
  {
    exists q :: WithinEps(p, s, j, q, eps)
  }

  // Entries scanned for the matched columns before k.
  function MatchedEdges(p: Problem, s: State, k: int): int
    requires Shape(p, s) && k <= |p.cols|
    decreases k
  {
    if k <= 0 then 0
    else MatchedEdges(p, s, k - 1) + if SparseCol(p, k - 1) && s.colToRow[k - 1] >= 0 then |p.cols[k - 1]| else 0
  }

  // Of the columns before k, exactly the matched ones that are not close are free and queued, in order.
  ghost predicate Released(p: Problem, s: State, t: State, k: int)
    requires Shape(p, s) && Shape(p, t)
  {
    && (forall j | 0 <= j < |p.cols| ::
          t.colToRow[j] == if j < k && s.colToRow[j] >= 0 && !CloseUnder(p, s, j, s.eps) then -1 else s.colToRow[j])
    && (forall j :: j in t.queue <==> 0 <= j < k && j < |p.cols| && s.colToRow[j] >= 0 && !CloseUnder(p, s, j, s.eps))
    && (forall x, y | 0 <= x < y < |t.queue| :: t.queue[x] < t.queue[y])
    && t.u == s.u && t.v == s.v && t.eps == s.eps && t.phase == s.phase && t.bids == s.bids && t.limit == s.limit
    && t.range == s.range && t.dropped == s.dropped && t.head == s.head
  }

  lemma {:induction false} LooseMeaning(p: Instance, s: State, j: int)
    requires Shape(p, s) && Matched(p, s, j) && OnEdge(p, s, j)
    ensures Loose(SlackCol(p.cols[j], s.u, p.dense, s.colToRow[j], |p.cols[j]|), s.eps) <==> !CloseUnder(p, s, j, s.eps)
  {
    var col, r := p.cols[j], s.colToRow[j];
    SlackFinds(col, s.u, p.dense, r, |col|);
    SlackAttained(col, s.u, p.dense, r, |col|);
    var q :| Sparse(col, p.dense, q) && col[q].row == r;
    var sl := SlackCol(col, s.u, p.dense, r, |col|);
    if CloseUnder(p, s, j, s.eps) {
      var x :| WithinEps(p, s, j, x, s.eps);
    } else {
      assert !WithinEps(p, s, j, q, s.eps);
    }
  }

  lemma {:induction false} SlackAttained(col: seq<Edge>, u: seq<real>, dense: seq<bool>, r: int, m: int)
    requires 0 <= m <= |col|
    ensures var sl := SlackCol(col, u, dense, r, m);
      sl.colMin.Fin? ==> exists q :: 0 <= q < m && Sparse(col, dense, q) && sl.colMin.val == Reduced(col, u, q)
    decreases m
  {
    if m > 0 {
      SlackAttained(col, u, dense, r, m - 1);
      var sl := SlackCol(col, u, dense, r, m - 1);
      if sl.colMin.Fin? {
        var q :| 0 <= q < m - 1 && Sparse(col, dense, q) && sl.colMin.val == Reduced(col, u, q);
        assert 0 <= q < m;
      }
      assert 0 <= m - 1 < m;
    }
  }

  lemma {:induction false} StillLoose(p: Instance, s: State, t: State, j: int)
    requires Shape(p, s) && Shape(p, t) && Matched(p, s, j) && OnEdge(p, s, j)
    requires t.u == s.u && t.eps == s.eps && t.colToRow[j] == s.colToRow[j]
    ensures Loose(SlackCol(p.cols[j], t.u, p.dense, t.colToRow[j], |p.cols[j]|), t.eps) <==> !CloseUnder(p, s, j, s.eps)
  {
    LooseMeaning(p, s, j);
  }

  ghost predicate AllOnEdge(p: Problem, s: State)
    requires Shape(p, s)
  {
    forall j | Matched(p, s, j) :: SparseCol(p, j) && OnEdge(p, s, j)
  }

  // The same, with the scans it took.
  ghost predicate ReleasedAll(p: Problem, s: State, t: State, k: int)
    requires Shape(p, s) && Shape(p, t) && k <= |p.cols|
  {
    Released(p, s, t, k) && t.work == s.work + MatchedEdges(p, s, k)
  }

  lemma {:induction false} ReleasedNext(p: Problem, s: State, t: State, j: int)
    requires Shape(p, s) && Shape(p, t) && 0 <= j < |p.cols| && ReleasedAll(p, s, t, j)
    requires Matched(p, s, j) ==> SparseCol(p, j)
    requires Matched(p, s, j) ==> (Loose(SlackCol(p.cols[j], t.u, p.dense, t.colToRow[j], |p.cols[j]|), t.eps) <==> !CloseUnder(p, s, j, s.eps))
    ensures ReleasedAll(p, s, ReleaseOne(p, t, j), j + 1)
  {
    var r := ReleaseOne(p, t, j);
    assert t.colToRow[j] == s.colToRow[j];
    forall x, y | 0 <= x < y < |r.queue| ensures r.queue[x] < r.queue[y] {
      assert t.queue[x] in t.queue;
    }
  }

  lemma {:induction false} ReleaseOneMeaning(p: Instance, s: State, t: State, j: int)
    requires Shape(p, s) && Shape(p, t) && 0 <= j < |p.cols| && AllOnEdge(p, s) && ReleasedAll(p, s, t, j)
    ensures ReleasedAll(p, s, ReleaseOne(p, t, j), j + 1)
  {
    if Matched(p, s, j) { StillLoose(p, s, t, j); }
    ReleasedNext(p, s, t, j);
  }

  lemma {:induction false} ReleaseMeaning(p: Instance, s: State, k: int)
    requires Shape(p, s) && 0 <= k <= |p.cols| && s.queue == [] && s.head == 0 && AllOnEdge(p, s)
    ensures ReleasedAll(p, s, Release(p, s, k), k)
    decreases k
  {
    if k > 0 {
      ReleaseMeaning(p, s, k - 1);
      ReleaseOneMeaning(p, s, Release(p, s, k - 1), k - 1);
    }
  }

  // t follows s by a phase change: eps falls by its factor, not below the last, and exactly
  // the matched columns whose edge is more than the new eps above their cheapest are freed.
  ghost predicate PhaseOf(p: Problem, s: State, t: State)
    requires p.opt.Valid()
  {
    var r := s.(eps := Reals.Max(s.eps / p.opt.epsFactor, p.opt.epsFinal), phase := s.phase + 1, queue := [], head := 0, bids := 0);
    Shape(p, r) && Shape(p, t) && ReleasedAll(p, r, t, |p.cols|)
  }

  /** One phase change. */
  lemma {:induction false} PhaseMeaning(p: Instance, s: State)
    requires Inv(p, s)
    ensures PhaseOf(p, s, NextPhase(p, s))
  {
    var r := Rescaled(p, s);
    RescaledReleasing(p, s);
    forall j | Matched(p, r, j) ensures SparseCol(p, j) && OnEdge(p, r, j) { assert Matched(p, s, j); }
    ReleaseMeaning(p, r, |p.cols|);
  }

  /** A run bids while a column is queued and changes the phase when none is. */
  lemma {:induction false} TraceMeaning(p: Instance, s: State, budget: int, i: int)
    requires Inv(p, s) && 0 <= i < |Trace(p, s, budget)| - 1
    ensures var a, b := Trace(p, s, budget)[i], Trace(p, s, budget)[i + 1];
      Inv(p, a) && if Live(a) != [] then BidOf(p, a, b) else a.eps > p.opt.epsFinal && PhaseOf(p, a, b)
    decreases i
  {
    StepKeeps(p, s, budget);
    Shrinks(p, s, budget);
    var t := Step(p, s, budget).next;
    if i > 0 {
      TraceMeaning(p, t, budget, i - 1);
    } else {
      assert Trace(p, s, budget)[1] == Trace(p, t, budget)[0] == t;
      if s.head < |s.queue| { BidMeaning(p, s); } else { PhaseMeaning(p, s); }
    }
  }

  // ---- what a run starts from ----

  predicate SparseEntry(p: Problem, j: int, q: int) {
    SparseCol(p, j) && Sparse(p.cols[j], p.dense, q)
  }

  // One of the entries of the columns before k and of the first m of column k.
  predicate Among(p: Problem, k: int, m: int, j: int, q: int) {
    SparseEntry(p, j, q) && (j < k || (j == k && q < m))
  }

  // c is the greatest cost of a sparse entry; 0 without one.
  ghost predicate Largest(p: Problem, k: int, m: int, c: real) {
    && c >= 0.0
    && (forall j, q | Among(p, k, m, j, q) :: p.cols[j][q].cost <= c)
    && (c > 0.0 ==> exists j, q :: Among(p, k, m, j, q) && p.cols[j][q].cost == c)
  }

  // c is the least cost of a sparse entry; infinite without one.
  ghost predicate Smallest(p: Problem, k: int, m: int, c: Cost) {
    match c
    case Inf => forall j, q :: !Among(p, k, m, j, q)
    case Fin(c) => (forall j, q | Among(p, k, m, j, q) :: c <= p.cols[j][q].cost)
                   && exists j, q :: Among(p, k, m, j, q) && p.cols[j][q].cost == c
  }

  ghost function SparseCols(p: Problem, k: int): set<int> {
    set j | 0 <= j < k && SparseCol(p, j)
  }

  // Entries scanned for the sparse columns before k.
  function SparseEdges(p: Problem, k: int): int
    requires k <= |p.cols|
    decreases k
  {
    if k <= 0 then 0 else SparseEdges(p, k - 1) + if SparseCol(p, k - 1) then |p.cols[k - 1]| else 0
  }

  lemma {:induction false} EntryBoundsMean(p: Instance, k: int, m: int, b: Bounds)
    requires SparseCol(p, k) && 0 <= m < |p.cols[k]| && Sparse(p.cols[k], p.dense, m)
    requires Largest(p, k, m, b.cmax) && Smallest(p, k, m, b.cmin)
    ensures var r := EntryBounds(b, p.cols[k][m].cost); Largest(p, k, m + 1, r.cmax) && Smallest(p, k, m + 1, r.cmin)
  {
    assert p.cols[k][m].cost >= 0.0;
    LargestNext(p, k, m, b.cmax);
    SmallestNext(p, k, m, b.cmin);
  }

  lemma {:induction false} LargestNext(p: Problem, k: int, m: int, c: real)
    requires SparseCol(p, k) && 0 <= m < |p.cols[k]| && Sparse(p.cols[k], p.dense, m) && p.cols[k][m].cost >= 0.0
    requires Largest(p, k, m, c)
    ensures Largest(p, k, m + 1, Reals.Max(c, p.cols[k][m].cost))
  {
    assert Among(p, k, m + 1, k, m);
    forall j, q ensures Among(p, k, m + 1, j, q) <==> Among(p, k, m, j, q) || (j == k && q == m) {}
    if c > 0.0 {
      var j, q :| Among(p, k, m, j, q) && p.cols[j][q].cost == c;
      assert Among(p, k, m + 1, j, q);
    }
  }

  lemma {:induction false} SmallestNext(p: Problem, k: int, m: int, c: Cost)
    requires SparseCol(p, k) && 0 <= m < |p.cols[k]| && Sparse(p.cols[k], p.dense, m) && Smallest(p, k, m, c)
    ensures Smallest(p, k, m + 1, if Less(p.cols[k][m].cost, c) then Fin(p.cols[k][m].cost) else c)
  {
    var x := p.cols[k][m].cost;
    var d := if Less(x, c) then Fin(x) else c;
    forall j, q | Among(p, k, m + 1, j, q) ensures d.Fin? && d.val <= p.cols[j][q].cost {
      if j != k || q != m { assert Among(p, k, m, j, q); }
    }
    if Less(x, c) {
      assert Among(p, k, m + 1, k, m) && p.cols[k][m].cost == x;
    } else {
      var j, q :| Among(p, k, m, j, q) && p.cols[j][q].cost == c.val;
      assert Among(p, k, m + 1, j, q) && p.cols[j][q].cost == d.val;
    }
  }

  // The same entries, the same bounds.
  lemma {:induction false} SameBounds(p: Problem, k: int, m: int, k': int, m': int, b: Bounds)
    requires Largest(p, k, m, b.cmax) && Smallest(p, k, m, b.cmin)
    requires forall j, q :: Among(p, k, m, j, q) <==> Among(p, k', m', j, q)
    ensures Largest(p, k', m', b.cmax) && Smallest(p, k', m', b.cmin)
  {
    if b.cmax > 0.0 {
      var j, q :| Among(p, k, m, j, q) && p.cols[j][q].cost == b.cmax;
      assert Among(p, k', m', j, q);
    }
    if b.cmin.Fin? {
      var j, q :| Among(p, k, m, j, q) && p.cols[j][q].cost == b.cmin.val;
      assert Among(p, k', m', j, q);
    }
  }

  lemma {:induction false} ColumnBoundsMean(p: Instance, k: int, m: int, b: Bounds)
    requires SparseCol(p, k) && 0 <= m <= |p.cols[k]| && Largest(p, k, 0, b.cmax) && Smallest(p, k, 0, b.cmin)
    ensures var r := AuctionModel.ColumnBounds(p.cols[k], p.dense, b, m);
      Largest(p, k, m, r.cmax) && Smallest(p, k, m, r.cmin) && r.sparse == b.sparse && r.work == b.work
    decreases m
  {
    if m > 0 {
      ColumnBoundsMean(p, k, m - 1, b);
      var r := AuctionModel.ColumnBounds(p.cols[k], p.dense, b, m - 1);
      if Sparse(p.cols[k], p.dense, m - 1) {
        EntryBoundsMean(p, k, m - 1, r);
      } else {
        forall j, q ensures Among(p, k, m - 1, j, q) <==> Among(p, k, m, j, q) {}
        SameBounds(p, k, m - 1, k, m, r);
      }
    }
  }

  // A whole sparse column.
  lemma {:induction false} WholeColumn(p: Instance, k: int, b: Bounds)
    requires SparseCol(p, k) && Largest(p, k, 0, b.cmax) && Smallest(p, k, 0, b.cmin)
    ensures var r := AuctionModel.ColumnBounds(p.cols[k], p.dense, b, |p.cols[k]|);
      Largest(p, k + 1, 0, r.cmax) && Smallest(p, k + 1, 0, r.cmin) && r.sparse == b.sparse && r.work == b.work
  {
    ColumnBoundsMean(p, k, |p.cols[k]|, b);
    SameBounds(p, k, |p.cols[k]|, k + 1, 0, AuctionModel.ColumnBounds(p.cols[k], p.dense, b, |p.cols[k]|));
  }

  lemma {:induction false} NextCol(p: Problem, k: int)
    requires 0 <= k
    ensures |SparseCols(p, k + 1)| == |SparseCols(p, k)| + if SparseCol(p, k) then 1 else 0
  {
    assert SparseCols(p, k + 1) == SparseCols(p, k) + if SparseCol(p, k) then {k} else {};
  }

  // b tells about the columns before k.
  ghost predicate BoundsMean(p: Problem, work: int, k: int, b: Bounds)
    requires k <= |p.cols|
  {
    && Largest(p, k, 0, b.cmax) && Smallest(p, k, 0, b.cmin)
    && b.sparse == |SparseCols(p, k)| && b.work == work + SparseEdges(p, k)
  }

  lemma {:induction false} NextBounds(p: Instance, work: int, k: int, b: Bounds)
    requires 0 <= k < |p.cols| && BoundsMean(p, work, k, b)
    ensures BoundsMean(p, work, k + 1,
                       if p.dense[k] then b
                       else AuctionModel.ColumnBounds(p.cols[k], p.dense, b.(sparse := b.sparse + 1, work := b.work + |p.cols[k]|), |p.cols[k]|))
  {
    NextCol(p, k);
    if SparseCol(p, k) {
      WholeColumn(p, k, b.(sparse := b.sparse + 1, work := b.work + |p.cols[k]|));
    } else {
      SameBounds(p, k, 0, k + 1, 0, b);
    }
  }

  lemma {:induction false} CostBoundsMean(p: Instance, work: int, k: int)
    requires 0 <= k <= |p.cols|
    ensures BoundsMean(p, work, k, CostBounds(p, work, k))
    decreases k
  {
    if k > 0 {
      CostBoundsMean(p, work, k - 1);
      NextBounds(p, work, k - 1, CostBounds(p, work, k - 1));
    } else {
      assert SparseCols(p, k) == {};
    }
  }

  // n is the least integer that is at least x.
  predicate RoundsUp(n: int, x: real) { (n - 1) as real < x <= n as real }

  /** The range of costs, the bid limit and the first eps of a run: the phase may make bid_cap
      bids for each sparse column, rounded up; eps is eps_start where that is positive, else the
      largest sparse cost by its factor, and no less than the last eps. */
  lemma {:induction false} StartMeaning(p: Instance, s: State, first: seq<int>)
    ensures exists c, d ::
      && Largest(p, |p.cols|, 0, c) && Smallest(p, |p.cols|, 0, d)
      && var t := Start(p, s, first);
      && t.range == (match d case Inf => 0.0 case Fin(d) => c - d)
      && t.eps == Reals.Max(if p.opt.epsStart > 0.0 then p.opt.epsStart else c / p.opt.epsFactor, p.opt.epsFinal)
      && RoundsUp(t.limit, p.opt.bidCap * |SparseCols(p, |p.cols|)| as real)
      && t.work == s.work + SparseEdges(p, |p.cols|) && t.bids == 0 && t.phase == 0 && t.queue == first && t.head == 0
      && t.u == s.u && t.v == s.v && t.rowMatch == s.rowMatch && t.colToRow == s.colToRow && t.dropped == s.dropped
  {
    CostBoundsMean(p, s.work, |p.cols|);
    var b := CostBounds(p, s.work, |p.cols|);
    assert Largest(p, |p.cols|, 0, b.cmax) && Smallest(p, |p.cols|, 0, b.cmin);
  }

  /** A whole auction from its warm start: it keeps the invariant; if every free sparse
      column was queued and none dropped, it ends as its last state says and, when Done, its
      matching is perfect and near-optimal; and under
      validated options with a positive eps_start every state it visits is in one of the
      first 86 phase changes, within bid_limit bids of the phase's start, and it makes at most
      87 bid_limit bids in all. */
  lemma WholeAuction(p: Instance, s: State, first: seq<int>, budget: int)
    requires |p.dense| == |p.cols| && Warm(p, s.(queue := first, head := 0))
    ensures Inv(p, Start(p, s, first)) && Inv(p, Run(p, Start(p, s, first), budget).final)
    ensures (forall j {:trigger s.colToRow[j]} | SparseCol(p, j) && s.colToRow[j] < 0 :: j in first)
              && Run(p, Start(p, s, first), budget).status == Done ==>
              CheapestWithin(p, Run(p, Start(p, s, first), budget).final.colToRow)
    ensures (forall j {:trigger s.colToRow[j]} | SparseCol(p, j) && s.colToRow[j] < 0 :: j in first) && !s.dropped ==>
              forall status :: Run(p, Start(p, s, first), budget).status == status <==>
                               Ends(p, Run(p, Start(p, s, first), budget).final, budget, status)
    ensures Clamped(p.opt) ==>
              forall t | t in Trace(p, Start(p, s, first), budget) :: t.phase <= 86 && t.bids <= t.limit
    ensures Clamped(p.opt) ==> Bids(p, Start(p, s, first), budget) <= 87 * Start(p, s, first).limit
  {
    var t := Start(p, s, first);
    StartKeeps(p, s, first);
    if forall j {:trigger s.colToRow[j]} | SparseCol(p, j) && s.colToRow[j] < 0 :: j in first {
      StartComplete(p, s, first);
      if Run(p, t, budget).status == Done { NearOptimal(p, t, budget); }
      if !s.dropped {
        StatusTold(p, t, budget);
      }
    }
    if Clamped(p.opt) {
      StartPhaseOk(p, s, first);
      PhaseBound(p, t, budget);
      BidBound(p, t, budget);
    }
  }
}
