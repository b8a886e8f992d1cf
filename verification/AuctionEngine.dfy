/** The auction in place: duals, both match arrays and the resumable state are updated
    by one loop, which takes exactly the steps of the model. */
module AuctionEngine {
  import Reals
  import opened AuctionModel
  import opened AuctionSafety
  import opened AuctionRuns
  import Meaning = AuctionMeaning

  // The resumable part; phase -1 is not started.
  datatype AuctionState = AuctionState(eps: real, phase: int, queue: seq<int>, head: int, bids: int,
                                       range: real, limit: int, dropped: bool)

  function Whole(u: seq<real>, v: seq<real>, rowMatch: seq<int>, colToRow: seq<int>, st: AuctionState, work: int): State {
    State(u, v, rowMatch, colToRow, st.eps, st.phase, st.queue, st.head, st.bids, st.range, st.limit, st.dropped, work)
  }

  method ScanColumn(col: seq<Edge>, u: array<real>, dense: seq<bool>) returns (sc: Scan)
    requires forall q | 0 <= q < |col| :: 0 <= col[q].row < |dense| == u.Length
    ensures sc == ScanCol(col, u[..], dense, |col|)
  {
    var b1, b2: Cost, q1 := Inf, Inf, -1;
    for q := 0 to |col|
      invariant Scan(b1, b2, q1) == ScanCol(col, u[..], dense, q)
    {
      var i := col[q].row;
      if !dense[i] {
        var d := col[q].cost - u[i];
        if Less(d, b1) {
          b1, b2, q1 := Fin(d), b1, q;
        } else if Less(d, b2) {
          b2 := Fin(d);
        }
      }
    }
    sc := Scan(b1, b2, q1);
  }

  method SlackColumn(col: seq<Edge>, u: array<real>, dense: seq<bool>, r: int) returns (sl: Slack)
    requires forall q | 0 <= q < |col| :: 0 <= col[q].row < |dense| == u.Length
    ensures sl == SlackCol(col, u[..], dense, r, |col|)
  {
    var colMin: Cost, matched := Inf, Inf;
    for q := 0 to |col|
      invariant Slack(colMin, matched) == SlackCol(col, u[..], dense, r, q)
    {
      var i := col[q].row;
      if !dense[i] {
        var d := col[q].cost - u[i];
        if Less(d, colMin) { colMin := Fin(d); }
        if i == r { matched := Fin(d); }
      }
    }
    sl := Slack(colMin, matched);
  }

  method ScanCosts(p: Instance, work0: int) returns (b: Bounds)
    requires |p.cols| == |p.dense|
    ensures b == CostBounds(p, work0, |p.cols|)
  {
    b := Bounds(0.0, Inf, 0, work0);
    for j := 0 to |p.cols|
      invariant b == CostBounds(p, work0, j)
    {
      if !p.dense[j] {
        b := b.(sparse := b.sparse + 1, work := b.work + |p.cols[j]|);
        ghost var b0 := b;
        for q := 0 to |p.cols[j]|
          invariant b == ColumnBounds(p.cols[j], p.dense, b0, q)
        {
          if !p.dense[p.cols[j][q].row] { b := EntryBounds(b, p.cols[j][q].cost); }
        }
      }
    }
  }

  class Auction {
    const p: Instance
    const u: array<real>
    const v: array<real>
    const rowMatch: array<int>
    const colToRow: array<int>
    var st: AuctionState
    var work: int

    constructor (p: Instance, u: array<real>, v: array<real>, rowMatch: array<int>, colToRow: array<int>)
      requires u.Length == v.Length == rowMatch.Length == colToRow.Length == |p.cols|
      requires u != v && rowMatch != colToRow
      ensures this.p == p && this.u == u && this.v == v && this.rowMatch == rowMatch && this.colToRow == colToRow
      ensures Sized() && st.phase == -1 && work == 0
    {
      this.p, this.u, this.v, this.rowMatch, this.colToRow := p, u, v, rowMatch, colToRow;
      st, work := AuctionState(0.0, -1, [], 0, 0, 0.0, 0, false), 0;
    }

    ghost predicate Sized()
      reads this
    {
      u.Length == v.Length == rowMatch.Length == colToRow.Length == |p.cols| && u != v && rowMatch != colToRow
    }

    ghost function Abs(): State
      reads this, u, v, rowMatch, colToRow
    {
      Whole(u[..], v[..], rowMatch[..], colToRow[..], st, work)
    }

    method PopFront() returns (j: int)
      requires Sized() && Shape(p, Abs()) && st.head < |st.queue|
      modifies this
      ensures Sized() && j == old(st.queue[st.head]) && Abs() == Pop(p, old(Abs()))
    {
      j := st.queue[st.head];
      st := st.(head := st.head + 1);
      work := work + |p.cols[j]|;
    }

    method Place(j: int, sc: Scan)
      requires Sized() && Shape(p, Abs()) && 0 <= j < |p.cols| && 0 <= sc.q1 < |p.cols[j]|
      modifies this, u, v, rowMatch, colToRow
      ensures Abs() == Placed(p, old(Abs()), j, sc)
    {
      st := st.(bids := st.bids + 1);
      Win(j, sc.q1, Bidding(sc, st.eps, st.range));
      Compact();
    }

    // The front column bids.
    method PlaceBid()
      requires Sized() && Shape(p, Abs()) && st.head < |st.queue|
      modifies this, u, v, rowMatch, colToRow
      ensures Abs() == Bid(p, old(Abs()))
    {
      var j := PopFront();
      var sc := ScanColumn(p.cols[j], u, p.dense);
      ScanFinds(p.cols[j], u[..], p.dense, |p.cols[j]|);
      if sc.q1 < 0 {
        st := st.(dropped := true);
      } else {
        Place(j, sc);
      }
    }

    // Column j takes the row of its entry q1; the displaced column goes to the back.
    method Win(j: int, q1: int, b2: real)
      requires Sized() && Shape(p, Abs()) && 0 <= j < |p.cols| && 0 <= q1 < |p.cols[j]|
      modifies this`st, u, v, rowMatch, colToRow
      ensures Abs() == Won(p, old(Abs()), j, q1, b2)
    {
      var i := p.cols[j][q1].row;
      v[j] := b2;
      u[i] := p.cols[j][q1].cost - b2 - st.eps;
      var k := rowMatch[i];
      if k >= 0 {
        colToRow[k] := -1;
        st := st.(queue := st.queue + [k]);
      }
      rowMatch[i] := j;
      colToRow[j] := i;
    }

    // Drops the popped front once it is long and at least half of the queue.
    method Compact()
      requires Sized() && Shape(p, Abs())
      modifies this`st
      ensures Abs() == Compacted(old(Abs()))
    {
      if st.head >= COMPACT_MIN && 2 * st.head >= |st.queue| {
        st := st.(queue := st.queue[st.head..], head := 0);
      }
    }

    method ReleaseColumn(j: int)
      requires Sized() && Shape(p, Abs()) && 0 <= j < |p.cols|
      modifies this, rowMatch, colToRow
      ensures Abs() == ReleaseOne(p, old(Abs()), j)
    {
      var r := colToRow[j];
      if p.dense[j] || r < 0 { return; }
      work := work + |p.cols[j]|;
      var sl := SlackColumn(p.cols[j], u, p.dense, r);
      if Loose(sl, st.eps) {
        rowMatch[r] := -1;
        colToRow[j] := -1;
        st := st.(queue := st.queue + [j]);
      }
    }

    // A smaller eps; columns it makes too loose become free again.
    method ChangePhase()
      requires Sized() && Shape(p, Abs())
      modifies this, rowMatch, colToRow
      ensures Abs() == NextPhase(p, old(Abs()))
    {
      st := st.(eps := Reals.Max(st.eps / p.opt.epsFactor, p.opt.epsFinal), phase := st.phase + 1, queue := [], head := 0, bids := 0);
      ghost var s0 := Rescaled(p, old(Abs()));
      assert Abs() == s0;
      for j := 0 to |p.cols|
        invariant Abs() == Release(p, s0, j)
      {
        ReleaseColumn(j);
      }
    }

    method Begin(first: seq<int>)
      requires Sized() && |p.dense| == |p.cols|
      modifies this
      ensures Abs() == Start(p, old(Abs()), first)
    {
      var b := ScanCosts(p, work);
      st := AuctionState(
        Reals.Max(if p.opt.epsStart > 0.0 then p.opt.epsStart else b.cmax / p.opt.epsFactor, p.opt.epsFinal),
        0, first, 0, 0, if b.cmin.Inf? then 0.0 else b.cmax - b.cmin.val,
        Ceil(p.opt.bidCap * b.sparse as real), st.dropped);
      work := b.work;
    }

    // One round of the loop: a step, or the reason to stop.
    method Round(budget: int) returns (going: bool, status: Status)
      requires Sized() && Shape(p, Abs())
      modifies this, u, v, rowMatch, colToRow
      ensures going ==> Step(p, old(Abs()), budget) == Go(Abs())
      ensures !going ==> Step(p, old(Abs()), budget) == Stop(status) && Abs() == old(Abs())
    {
      going, status := false, Done;
      if st.head == |st.queue| {
        if st.eps <= p.opt.epsFinal {
          status := if st.dropped then Capped else Done;
        } else {
          ChangePhase();
          going := true;
        }
      } else if st.bids >= st.limit {
        status := Capped;
      } else if budget >= 0 && work >= budget {
        status := Paused;
      } else {
        PlaceBid();
        going := true;
      }
    }

    /** The fields end where `Run` takes them, with its status, whatever the budget; where every
        free sparse column was queued, they alone tell the status. */
    method Advance(first: seq<int>, budget: int) returns (status: Status)
      requires Sized() && |p.dense| == |p.cols|
      requires if st.phase == -1 then Warm(p, Abs().(queue := first, head := 0)) else Inv(p, Abs())
      modifies this, u, v, rowMatch, colToRow
      ensures Inv(p, Begun(p, old(Abs()), first))
      ensures Result(status, Abs()) == Run(p, Begun(p, old(Abs()), first), budget)
      ensures Inv(p, Abs())
      ensures Meaning.Accounted(p, Begun(p, old(Abs()), first)) ==>
                forall x :: status == x <==> Meaning.Ends(p, Abs(), budget, x)
    {
      ghost var s0 := Begun(p, Abs(), first);
      if st.phase == -1 {
        StartKeeps(p, Abs(), first);
        Begin(first);
      }
      while true
        invariant Inv(p, s0) && Inv(p, Abs()) && Run(p, Abs(), budget) == Run(p, s0, budget)
        decreases PhasesLeft(p.opt, st.eps), st.limit - st.bids, |st.queue| - st.head
      {
        ghost var s := Abs();
        StepKeeps(p, s, budget);
        var going;
        going, status := Round(budget);
        if !going { break; }
        Shrinks(p, s, budget);
      }
      if Meaning.Accounted(p, s0) { Meaning.StatusTold(p, s0, budget); }
    }
  }

  // The state the run continues from.
  ghost function Begun(p: Instance, s: State, first: seq<int>): State
    requires |p.dense| == |p.cols|
  {
    if s.phase == -1 then Start(p, s, first) else s
  }
}
