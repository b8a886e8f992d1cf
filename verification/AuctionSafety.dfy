/** What every step of the auction keeps: feasible duals, epsilon-complementary
    slackness, two match arrays that agree, and a queue of distinct free columns. */
module AuctionSafety {
  import opened AuctionModel

  predicate SparseCol(p: Problem, j: int) {
    0 <= j < |p.cols| && j < |p.dense| && !p.dense[j]
  }

  // c - u - v >= 0 on every sparse edge.
  ghost predicate Feasible(p: Problem, s: State)
    requires Shape(p, s)
  {
    forall j, q | SparseCol(p, j) && Sparse(p.cols[j], p.dense, q) :: s.v[j] <= Reduced(p.cols[j], s.u, q)
  }

  // Entry q of column j is its matched row's, within eps of the column's minimum.
  ghost predicate WithinEps(p: Problem, s: State, j: int, q: int, eps: real)
    requires Shape(p, s) && 0 <= j < |p.cols|
  {
    && Sparse(p.cols[j], p.dense, q) && p.cols[j][q].row == s.colToRow[j]
    && forall q' | Sparse(p.cols[j], p.dense, q') :: Reduced(p.cols[j], s.u, q) <= Reduced(p.cols[j], s.u, q') + eps
  }

  ghost predicate Matched(p: Problem, s: State, j: int)
    requires Shape(p, s)
  {
    0 <= j < |p.cols| && s.colToRow[j] >= 0
  }

  // Column j's matched edge is within the current eps of its minimum.
  ghost predicate Close(p: Problem, s: State, j: int)
    requires Shape(p, s) && 0 <= j < |p.cols|
  {
    exists q :: WithinEps(p, s, j, q, s.eps)
  }

  ghost predicate EpsCS(p: Problem, s: State)
    requires Shape(p, s)
  {
    forall j | Matched(p, s, j) :: Close(p, s, j)
  }

  // The matching pairs sparse columns with sparse rows, and both arrays say so.
  ghost predicate Agree(p: Problem, s: State)
    requires Shape(p, s)
  {
    && (forall j | Matched(p, s, j) :: SparseCol(p, j) && SparseCol(p, s.colToRow[j]) && s.rowMatch[s.colToRow[j]] == j)
    && (forall i | 0 <= i < |p.cols| && s.rowMatch[i] >= 0 :: s.colToRow[s.rowMatch[i]] == i)
  }

  // The entries not popped yet.
  function Live(s: State): seq<int>
    requires 0 <= s.head <= |s.queue|
  {
    s.queue[s.head..]
  }

  // Live queue entries are distinct free sparse columns.
  ghost predicate Queued(p: Problem, s: State)
    requires Shape(p, s)
  {
    && (forall t | 0 <= t < |Live(s)| :: SparseCol(p, Live(s)[t]) && s.colToRow[Live(s)[t]] < 0)
    && (forall t, t' | 0 <= t < t' < |Live(s)| :: Live(s)[t] != Live(s)[t'])
  }

  ghost predicate Inv(p: Problem, s: State) {
    match s
    case State(_, _, _, _, eps, _, _, _, bids, _, limit, _, _) =>
      && Shape(p, s) && eps > 0.0 && 0 <= bids <= limit
      && Feasible(p, s) && EpsCS(p, s) && Agree(p, s) && Queued(p, s)
  }

  // The invariant depends on the duals, the matching, eps and the live queue.
  lemma SameInv(p: Problem, s: State, t: State, d: int)
    requires Inv(p, s) && Shape(p, t) && 0 <= d <= |Live(s)| && Live(t) == Live(s)[d..]
    requires t.u == s.u && t.v == s.v && t.eps == s.eps && t.colToRow == s.colToRow && t.rowMatch == s.rowMatch
    requires 0 <= t.bids <= t.limit
    ensures Inv(p, t)
  {
    SameDuals(p, s, t);
  }

  lemma SameDuals(p: Problem, s: State, t: State)
    requires Shape(p, s) && Shape(p, t) && Feasible(p, s) && EpsCS(p, s) && Agree(p, s)
    requires t.u == s.u && t.v == s.v && t.eps == s.eps && t.colToRow == s.colToRow && t.rowMatch == s.rowMatch
    ensures Feasible(p, t) && EpsCS(p, t) && Agree(p, t)
  {
    forall j | Matched(p, t, j)
      ensures Close(p, t, j)
    {
      assert Matched(p, s, j) && Close(p, s, j);
      var q :| WithinEps(p, s, j, q, s.eps);
      assert WithinEps(p, t, j, q, t.eps);
    }
    assert forall j | Matched(p, t, j) :: Matched(p, s, j);
  }

  // ---- a bid ----

  // The facts a winning bid of column j for entry q1 rests on.
  ghost predicate Winning(p: Problem, s: State, j: int, q1: int, b2: real)
    requires Shape(p, s)
  {
    && SparseCol(p, j) && Sparse(p.cols[j], p.dense, q1) && Reduced(p.cols[j], s.u, q1) <= b2
    && forall q | q != q1 && Sparse(p.cols[j], p.dense, q) :: b2 <= Reduced(p.cols[j], s.u, q)
  }

  lemma BidWins(p: Problem, s: State, j: int)
    requires Shape(p, s) && s.eps > 0.0 && SparseCol(p, j)
    requires ScanCol(p.cols[j], s.u, p.dense, |p.cols[j]|).q1 >= 0
    ensures var sc := ScanCol(p.cols[j], s.u, p.dense, |p.cols[j]|);
      Winning(p, s, j, sc.q1, Bidding(sc, s.eps, s.range))
  {
    var sc := ScanCol(p.cols[j], s.u, p.dense, |p.cols[j]|);
    ScanFinds(p.cols[j], s.u, p.dense, |p.cols[j]|);
  }

  // The won row's price rises by at least eps; the others' do not change.
  lemma PriceRises(p: Instance, s: State, j: int, q1: int, b2: real)
    requires Shape(p, s) && s.eps > 0.0 && Winning(p, s, j, q1, b2)
    ensures var s' := Won(p, s, j, q1, b2); var i := p.cols[j][q1].row;
      s'.u[i] <= s.u[i] - s.eps && (forall x | 0 <= x < |s.u| && x != i :: s'.u[x] == s.u[x])
  {
  }

  // Reduced costs only rise; those of other rows stay, and the won edge is eps above b2.
  lemma ReducedAfter(p: Instance, s: State, j: int, q1: int, b2: real, k: int, q: int)
    requires Shape(p, s) && s.eps > 0.0 && Winning(p, s, j, q1, b2) && 0 <= k < |p.cols| && Sparse(p.cols[k], p.dense, q)
    ensures var s' := Won(p, s, j, q1, b2);
      && Reduced(p.cols[k], s.u, q) <= Reduced(p.cols[k], s'.u, q)
      && (p.cols[k][q].row != p.cols[j][q1].row ==> Reduced(p.cols[k], s'.u, q) == Reduced(p.cols[k], s.u, q))
      && (k == j && q == q1 ==> Reduced(p.cols[k], s'.u, q) == b2 + s.eps)
      && (k == j && q != q1 ==> Reduced(p.cols[k], s'.u, q) >= b2)
  {
    PriceRises(p, s, j, q1, b2);
    if k == j && q != q1 { assert p.cols[j][q].row != p.cols[j][q1].row; }
  }

  lemma WonFeasible(p: Instance, s: State, j: int, q1: int, b2: real)
    requires Shape(p, s) && s.eps > 0.0 && Winning(p, s, j, q1, b2) && Feasible(p, s) && Agree(p, s) && s.colToRow[j] < 0
    ensures Shape(p, Won(p, s, j, q1, b2)) && Feasible(p, Won(p, s, j, q1, b2))
  {
    var s' := Won(p, s, j, q1, b2);
    forall k, q | SparseCol(p, k) && Sparse(p.cols[k], p.dense, q)
      ensures s'.v[k] <= Reduced(p.cols[k], s'.u, q)
    {
      ReducedAfter(p, s, j, q1, b2, k, q);
    }
  }

  lemma WonAgrees(p: Instance, s: State, j: int, q1: int, b2: real)
    requires Shape(p, s) && Winning(p, s, j, q1, b2) && Agree(p, s) && s.colToRow[j] < 0
    ensures Shape(p, Won(p, s, j, q1, b2)) && Agree(p, Won(p, s, j, q1, b2))
  {
  }

  lemma WonEpsCS(p: Instance, s: State, j: int, q1: int, b2: real)
    requires Shape(p, s) && s.eps > 0.0 && Winning(p, s, j, q1, b2) && EpsCS(p, s) && Agree(p, s) && s.colToRow[j] < 0
    ensures Shape(p, Won(p, s, j, q1, b2)) && EpsCS(p, Won(p, s, j, q1, b2))
  {
    var s' := Won(p, s, j, q1, b2);
    forall k | Matched(p, s', k)
      ensures Close(p, s', k)
    {
      if k == j {
        forall q | Sparse(p.cols[j], p.dense, q)
          ensures Reduced(p.cols[j], s'.u, q1) <= Reduced(p.cols[j], s'.u, q) + s.eps
        {
          ReducedAfter(p, s, j, q1, b2, j, q1);
          ReducedAfter(p, s, j, q1, b2, j, q);
        }
        assert WithinEps(p, s', j, q1, s'.eps);
      } else {
        KeepsEps(p, s, j, q1, b2, k);
      }
    }
  }

  // A column matched before and after the bid stays within eps.
  lemma KeepsEps(p: Instance, s: State, j: int, q1: int, b2: real, k: int)
    requires Shape(p, s) && s.eps > 0.0 && Winning(p, s, j, q1, b2) && EpsCS(p, s) && Agree(p, s) && s.colToRow[j] < 0
    requires Shape(p, Won(p, s, j, q1, b2)) && k != j && Matched(p, Won(p, s, j, q1, b2), k)
    ensures Close(p, Won(p, s, j, q1, b2), k)
  {
    var s' := Won(p, s, j, q1, b2);
    assert s.colToRow[k] == s'.colToRow[k] && Matched(p, s, k);
    var q :| WithinEps(p, s, k, q, s.eps);
    assert p.cols[k][q].row != p.cols[j][q1].row;
    forall q' | Sparse(p.cols[k], p.dense, q')
      ensures Reduced(p.cols[k], s'.u, q) <= Reduced(p.cols[k], s'.u, q') + s.eps
    {
      ReducedAfter(p, s, j, q1, b2, k, q);
      ReducedAfter(p, s, j, q1, b2, k, q');
    }
    assert WithinEps(p, s', k, q, s.eps);
  }

  // The popped column is gone from the queue; the displaced one joins it.
  lemma WonQueued(p: Instance, s: State, j: int, q1: int, b2: real)
    requires Shape(p, s) && Winning(p, s, j, q1, b2) && Agree(p, s) && Queued(p, s) && s.colToRow[j] < 0
    requires j !in Live(s)
    ensures Shape(p, Won(p, s, j, q1, b2)) && Queued(p, Won(p, s, j, q1, b2))
  {
    var s' := Won(p, s, j, q1, b2);
    var k := s.rowMatch[p.cols[j][q1].row];
    LiveFree(p, s);
    if k >= 0 {
      assert Matched(p, s, k);
      assert Live(s') == Live(s) + [k];
      QueuedAppend(p, s, s', k);
    } else {
      assert Live(s') == Live(s);
    }
  }

  lemma LiveFree(p: Problem, s: State)
    requires Shape(p, s) && Queued(p, s)
    ensures forall c | c in Live(s) :: SparseCol(p, c) && s.colToRow[c] < 0
  {
    forall c | c in Live(s)
      ensures SparseCol(p, c) && s.colToRow[c] < 0
    {
      var t :| 0 <= t < |Live(s)| && Live(s)[t] == c;
    }
  }

  // A newly freed column joins the queue.
  lemma QueuedAppend(p: Problem, s: State, s': State, k: int)
    requires Shape(p, s) && Shape(p, s') && Queued(p, s) && Live(s') == Live(s) + [k]
    requires SparseCol(p, k) && s'.colToRow[k] < 0 && s.colToRow[k] >= 0
    requires forall c | c in Live(s) :: s'.colToRow[c] < 0
    ensures Queued(p, s')
  {
    forall t | 0 <= t < |Live(s)|
      ensures Live(s)[t] != k
    {
      assert Live(s)[t] in Live(s);
    }
  }

  lemma CompactedKeeps(p: Problem, s: State)
    requires Inv(p, s)
    ensures Inv(p, Compacted(s))
  {
    SameInv(p, s, Compacted(s), 0);
  }

  lemma Popped(p: Problem, s: State)
    requires Inv(p, s) && s.head < |s.queue|
    ensures var j := s.queue[s.head]; SparseCol(p, j) && s.colToRow[j] < 0 && j !in Live(Pop(p, s))
    ensures Inv(p, Pop(p, s))
  {
    assert Live(s)[0] == s.queue[s.head];
    assert Live(Pop(p, s)) == Live(s)[1..];
    SameInv(p, s, Pop(p, s), 1);
  }

  lemma CountedWins(p: Instance, t: State, b: State, j: int, sc: Scan, b2: real)
    requires Inv(p, t) && SparseCol(p, j) && t.bids < t.limit && b == t.(bids := t.bids + 1)
    requires sc == ScanCol(p.cols[j], t.u, p.dense, |p.cols[j]|) && 0 <= sc.q1 < |p.cols[j]| && b2 == Bidding(sc, t.eps, t.range)
    ensures Inv(p, b) == true && Winning(p, b, j, sc.q1, b2) == true && Live(b) == Live(t)
  {
    SameInv(p, t, b, 0);
    BidWins(p, b, j);
  }

  lemma {:induction false} PlacedKeeps(p: Instance, t: State, j: int, sc: Scan)
    requires Inv(p, t) && SparseCol(p, j) && t.colToRow[j] < 0 && j !in Live(t) && t.bids < t.limit
    requires sc == ScanCol(p.cols[j], t.u, p.dense, |p.cols[j]|) && 0 <= sc.q1 < |p.cols[j]|
    ensures Inv(p, Placed(p, t, j, sc)) == true
  {
    var b, b2 := t.(bids := t.bids + 1), Bidding(sc, t.eps, t.range);
    CountedWins(p, t, b, j, sc, b2);
    WonKeeps(p, b, j, sc.q1, b2);
  }

  lemma DroppedKeeps(p: Instance, t: State)
    requires Inv(p, t)
    ensures Inv(p, t.(dropped := true))
  {
    SameInv(p, t, t.(dropped := true), 0);
  }

  /** A bid keeps the invariant. */
  lemma BidKeeps(p: Instance, s: State)
    requires Inv(p, s) && s.head < |s.queue| && s.bids < s.limit
    ensures Inv(p, Bid(p, s))
  {
    var j, t := s.queue[s.head], Pop(p, s);
    Popped(p, s);
    var sc := ScanCol(p.cols[j], s.u, p.dense, |p.cols[j]|);
    ScanFinds(p.cols[j], s.u, p.dense, |p.cols[j]|);
    if sc.q1 >= 0 {
      PlacedKeeps(p, t, j, sc);
    } else {
      DroppedKeeps(p, t);
    }
  }

  lemma WonKeeps(p: Instance, s: State, j: int, q1: int, b2: real)
    requires Inv(p, s) == true && Winning(p, s, j, q1, b2) == true && s.colToRow[j] < 0 && j !in Live(s)
    ensures Inv(p, Compacted(Won(p, s, j, q1, b2))) == true
  {
    WonFeasible(p, s, j, q1, b2);
    WonAgrees(p, s, j, q1, b2);
    WonEpsCS(p, s, j, q1, b2);
    WonQueued(p, s, j, q1, b2);
    CompactedKeeps(p, Won(p, s, j, q1, b2));
  }

  // ---- a phase change ----

  // What the slack scan finds for a column with distinct rows.
  ghost predicate SlackIs(col: seq<Edge>, u: seq<real>, dense: seq<bool>, r: int, m: int, sl: Slack) {
    && (forall q | 0 <= q < m && Sparse(col, dense, q) :: sl.colMin.Fin? && sl.colMin.val <= Reduced(col, u, q))
    && (forall q | 0 <= q < m && Sparse(col, dense, q) && col[q].row == r :: sl.matched == Fin(Reduced(col, u, q)))
  }

  lemma {:induction false} SlackFinds(col: seq<Edge>, u: seq<real>, dense: seq<bool>, r: int, m: int)
    requires 0 <= m <= |col| && forall q, q' | 0 <= q < q' < |col| :: col[q].row != col[q'].row
    ensures SlackIs(col, u, dense, r, m, SlackCol(col, u, dense, r, m))
    decreases m
  {
    if m > 0 { SlackFinds(col, u, dense, r, m - 1); }
  }

  // Column j's matched row is the row of one of its sparse entries.
  ghost predicate OnEdge(p: Problem, s: State, j: int)
    requires Shape(p, s) && 0 <= j < |p.cols|
  {
    exists q :: Sparse(p.cols[j], p.dense, q) && p.cols[j][q].row == s.colToRow[j]
  }

  // Columns before k are within the new eps.
  ghost predicate EpsCSBefore(p: Problem, s: State, k: int)
    requires Shape(p, s)
  {
    forall j | Matched(p, s, j) :: if j < k then Close(p, s, j) else OnEdge(p, s, j)
  }

  // Queued during a phase change: only released columns before k.
  ghost predicate ReleasedBefore(p: Problem, s: State, k: int)
    requires Shape(p, s)
  {
    Queued(p, s) && s.head == 0 && forall t | 0 <= t < |Live(s)| :: Live(s)[t] < k
  }

  ghost predicate Releasing(p: Problem, s: State, k: int) {
    match s
    case State(_, _, _, _, _, _, _, _, _, _, _, _, _) =>
      Shape(p, s) && Feasible(p, s) && Agree(p, s) && EpsCSBefore(p, s, k) && ReleasedBefore(p, s, k)
  }

  lemma StaysClose(p: Problem, s: State, t: State, j: int)
    requires Shape(p, s) && Shape(p, t) && 0 <= j < |p.cols| && Close(p, s, j)
    requires t.u == s.u && t.eps == s.eps && t.colToRow[j] == s.colToRow[j]
    ensures Close(p, t, j)
  {
    var q :| WithinEps(p, s, j, q, s.eps);
    assert WithinEps(p, t, j, q, t.eps);
  }

  // A column that is not loose is within the new eps.
  lemma NotLoose(p: Instance, s: State, j: int)
    requires Shape(p, s) && Matched(p, s, j) && OnEdge(p, s, j)
    requires !Loose(SlackCol(p.cols[j], s.u, p.dense, s.colToRow[j], |p.cols[j]|), s.eps)
    ensures Close(p, s, j)
  {
    SlackFinds(p.cols[j], s.u, p.dense, s.colToRow[j], |p.cols[j]|);
    var q :| Sparse(p.cols[j], p.dense, q) && p.cols[j][q].row == s.colToRow[j];
    assert WithinEps(p, s, j, q, s.eps);
  }

  lemma ReleasedEps(p: Instance, s: State, j: int)
    requires Releasing(p, s, j) && 0 <= j < |p.cols|
    ensures EpsCSBefore(p, ReleaseOne(p, s, j), j + 1)
  {
    var t := ReleaseOne(p, s, j);
    forall k | Matched(p, t, k)
      ensures if k < j + 1 then Close(p, t, k) else OnEdge(p, t, k)
    {
      assert Matched(p, s, k) && t.colToRow[k] == s.colToRow[k];
      if k < j {
        StaysClose(p, s, t, k);
      } else if k == j {
        NotLoose(p, s, j);
        StaysClose(p, s, t, j);
      } else {
        var q :| Sparse(p.cols[k], p.dense, q) && p.cols[k][q].row == s.colToRow[k];
        assert Sparse(p.cols[k], p.dense, q) && p.cols[k][q].row == t.colToRow[k];
      }
    }
  }

  lemma ReleasedQueue(p: Instance, s: State, j: int)
    requires Releasing(p, s, j) && 0 <= j < |p.cols|
    ensures ReleasedBefore(p, ReleaseOne(p, s, j), j + 1)
  {
    var t := ReleaseOne(p, s, j);
    if t.queue != s.queue {
      assert Matched(p, s, j);
      assert Live(t) == Live(s) + [j];
      LiveFree(p, s);
      QueuedAppend(p, s, t, j);
    } else {
      assert Live(t) == Live(s);
    }
  }

  lemma ReleasedMatch(p: Instance, s: State, j: int)
    requires Releasing(p, s, j) && 0 <= j < |p.cols|
    ensures Feasible(p, ReleaseOne(p, s, j)) && Agree(p, ReleaseOne(p, s, j))
  {
    var t := ReleaseOne(p, s, j);
    if Matched(p, s, j) && t.colToRow[j] < 0 {
      assert forall k | Matched(p, t, k) :: k != j && Matched(p, s, k);
    } else {
      assert t.u == s.u && t.v == s.v && t.colToRow == s.colToRow && t.rowMatch == s.rowMatch;
    }
  }

  lemma ReleaseOneKeeps(p: Instance, s: State, j: int)
    requires Releasing(p, s, j) && 0 <= j < |p.cols|
    ensures Releasing(p, ReleaseOne(p, s, j), j + 1)
  {
    ReleasedEps(p, s, j);
    ReleasedQueue(p, s, j);
    ReleasedMatch(p, s, j);
  }

  lemma {:induction false} ReleaseKeeps(p: Instance, s: State, k: int)
    requires Releasing(p, s, 0) && 0 <= k <= |p.cols|
    ensures Releasing(p, Release(p, s, k), k)
    decreases k
  {
    if k > 0 {
      var j := k - 1;
      ReleaseKeeps(p, s, j);
      ReleaseOneKeeps(p, Release(p, s, j), j);
      assert Release(p, s, k) == ReleaseOne(p, Release(p, s, j), j);
    }
  }

  // Fields a phase change leaves alone.
  lemma {:induction false} ReleaseFrame(p: Instance, s: State, k: int)
    requires Shape(p, s) && k <= |p.cols|
    ensures var t := Release(p, s, k);
      t.eps == s.eps && t.bids == s.bids && t.limit == s.limit && t.u == s.u && t.v == s.v && t.phase == s.phase
      && t.head == s.head && t.range == s.range && t.dropped == s.dropped
    decreases k
  {
    if k > 0 { ReleaseFrame(p, s, k - 1); }
  }

  /** A phase change keeps the invariant, now with the smaller eps. */
  lemma NextPhaseKeeps(p: Instance, s: State)
    requires Inv(p, s)
    ensures Inv(p, NextPhase(p, s))
  {
    var r := Rescaled(p, s);
    RescaledReleasing(p, s);
    ReleaseKeeps(p, r, |p.cols|);
    ReleaseFrame(p, r, |p.cols|);
  }

  lemma RescaledReleasing(p: Instance, s: State)
    requires Inv(p, s)
    ensures Releasing(p, Rescaled(p, s), 0)
  {
    var r := Rescaled(p, s);
    forall j | Matched(p, r, j)
      ensures OnEdge(p, r, j) && Matched(p, s, j)
    {
      assert Matched(p, s, j) && Close(p, s, j);
      var q :| WithinEps(p, s, j, q, s.eps);
    }
  }

  /** Every step keeps the invariant. */
  lemma StepKeeps(p: Instance, s: State, budget: int)
    requires Inv(p, s)
    ensures Step(p, s, budget).Go? ==> Inv(p, Step(p, s, budget).next)
  {
    if s.head < |s.queue| {
      if s.bids < s.limit { BidKeeps(p, s); }
    } else {
      NextPhaseKeeps(p, s);
    }
  }

  // ---- the start ----

  // Column j's matched edge is tight.
  ghost predicate TightEdge(p: Problem, s: State, j: int)
    requires Shape(p, s) && 0 <= j < |p.cols|
  {
    exists q :: Sparse(p.cols[j], p.dense, q) && p.cols[j][q].row == s.colToRow[j] && Reduced(p.cols[j], s.u, q) == s.v[j]
  }

  /** The warm start: feasible duals, tight matched edges, agreeing arrays, and a queue
      of distinct free sparse columns. */
  ghost predicate Warm(p: Problem, s: State) {
    && Shape(p, s) && s.head == 0 && Feasible(p, s) && Agree(p, s) && Queued(p, s)
    && forall j | Matched(p, s, j) :: TightEdge(p, s, j)
  }

  lemma {:induction false} SparseCounted(p: Problem, work: int, k: int)
    requires 0 <= k <= |p.cols| == |p.dense|
    ensures CostBounds(p, work, k).sparse >= 0
    decreases k
  {
    if k > 0 {
      SparseCounted(p, work, k - 1);
      if !p.dense[k - 1] {
        var b := CostBounds(p, work, k - 1);
        BoundsKeepCount(p.cols[k - 1], p.dense, b.(sparse := b.sparse + 1, work := b.work + |p.cols[k - 1]|), |p.cols[k - 1]|);
      }
    }
  }

  lemma {:induction false} BoundsKeepCount(col: seq<Edge>, dense: seq<bool>, b: Bounds, m: int)
    ensures ColumnBounds(col, dense, b, m).sparse == b.sparse
    decreases m
  {
    if m > 0 && m <= |col| { BoundsKeepCount(col, dense, b, m - 1); }
  }

  lemma CeilNonneg(x: real)
    requires x >= 0.0
    ensures Ceil(x) >= 0 && Ceil(x) as real >= x
  {
  }

  /** The auction starts with the invariant. */
  lemma StartKeeps(p: Instance, s: State, first: seq<int>)
    requires |p.dense| == |p.cols| && Warm(p, s.(queue := first, head := 0))
    ensures Inv(p, Start(p, s, first))
  {
    var t, w := Start(p, s, first), s.(queue := first, head := 0);
    SparseCounted(p, s.work, |p.cols|);
    var b := CostBounds(p, s.work, |p.cols|);
    NonnegProduct(p.opt.bidCap, b.sparse as real);
    CeilNonneg(p.opt.bidCap * b.sparse as real);
    assert t.u == w.u && t.v == w.v && t.rowMatch == w.rowMatch && t.colToRow == w.colToRow && Live(t) == Live(w);
    forall j | Matched(p, t, j)
      ensures Close(p, t, j)
    {
      assert Matched(p, w, j) && TightEdge(p, w, j);
      var q :| Sparse(p.cols[j], p.dense, q) && p.cols[j][q].row == w.colToRow[j] && Reduced(p.cols[j], w.u, q) == w.v[j];
      assert WithinEps(p, t, j, q, t.eps);
    }
    assert forall j | Matched(p, t, j) :: Matched(p, w, j);
  }

  lemma NonnegProduct(x: real, y: real)
    requires x >= 0.0 && y >= 0.0
    ensures x * y >= 0.0
  {
  }
}
