/** The epsilon-scaling auction as a deterministic step relation on values. */
module AuctionModel {
  import Reals

  // A sparse or dense entry of a column of the cost graph.
  datatype Edge = Edge(row: int, cost: real)

  datatype Options = Options(epsFactor: real, epsFinal: real, bidCap: real, epsStart: real) {
    predicate Valid() { epsFactor > 1.0 && epsFinal > 0.0 && bidCap > 0.0 }
  }

  /** The cost graph, its dense rows and columns, and the auction's options. */
  datatype Problem = Problem(cols: seq<seq<Edge>>, dense: seq<bool>, opt: Options) {
    ghost predicate Valid() {
      && |dense| == |cols| && opt.Valid()
      && (forall j, q | 0 <= j < |cols| && 0 <= q < |cols[j]| :: 0 <= cols[j][q].row < |cols| && cols[j][q].cost >= 0.0)
      && (forall j, q, q' | 0 <= j < |cols| && 0 <= q < q' < |cols[j]| :: cols[j][q].row != cols[j][q'].row)
    }
  }

  type Instance = p: Problem | p.Valid() witness Problem([], [], Options(2.0, 1.0, 1.0, 0.0))

  datatype Cost = Inf | Fin(val: real)

  // x < c
  predicate Less(x: real, c: Cost) { c.Inf? || x < c.val }

  /** Everything the auction reads and updates. */
  datatype State = State(u: seq<real>, v: seq<real>, rowMatch: seq<int>, colToRow: seq<int>,
                         eps: real, phase: int, queue: seq<int>, head: int, bids: int,
                         range: real, limit: int, dropped: bool, work: int)

  ghost predicate Shape(p: Problem, s: State) {
    && |s.u| == |s.v| == |s.rowMatch| == |s.colToRow| == |p.cols| == |p.dense|
    && 0 <= s.head <= |s.queue|
    && (forall t | 0 <= t < |s.queue| :: 0 <= s.queue[t] < |p.cols|)
    && (forall i | 0 <= i < |s.rowMatch| :: s.rowMatch[i] < |p.cols|)
    && (forall j | 0 <= j < |s.colToRow| :: s.colToRow[j] < |p.cols|)
  }

  // ---- one column ----

  // Reduced cost of entry q.
  function Reduced(col: seq<Edge>, u: seq<real>, q: int): real {
    if 0 <= q < |col| && 0 <= col[q].row < |u| then col[q].cost - u[col[q].row] else 0.0
  }

  predicate Sparse(col: seq<Edge>, dense: seq<bool>, q: int) {
    0 <= q < |col| && 0 <= col[q].row < |dense| && !dense[col[q].row]
  }

  // The two smallest reduced costs of a column and where the smallest is.
  datatype Scan = Scan(b1: Cost, b2: Cost, q1: int)

  function Seen(sc: Scan, d: real, q: int): Scan {
    if Less(d, sc.b1) then Scan(Fin(d), sc.b1, q)
    else if Less(d, sc.b2) then sc.(b2 := Fin(d))
    else sc
  }

  // After the first m entries.
  function ScanCol(col: seq<Edge>, u: seq<real>, dense: seq<bool>, m: int): Scan
    decreases m
  {
    if m <= 0 then Scan(Inf, Inf, -1)
    else
      var sc := ScanCol(col, u, dense, m - 1);
      if Sparse(col, dense, m - 1) then Seen(sc, Reduced(col, u, m - 1), m - 1) else sc
  }

  /** What the scan finds: the first entry of least reduced cost, and the least reduced
      cost of the others. */
  ghost predicate BestTwo(col: seq<Edge>, u: seq<real>, dense: seq<bool>, m: int, sc: Scan) {
    if sc.q1 < 0 then
      sc == Scan(Inf, Inf, -1) && forall q | 0 <= q < m :: !Sparse(col, dense, q)
    else
      && sc.q1 < m && Sparse(col, dense, sc.q1) && sc.b1 == Fin(Reduced(col, u, sc.q1))
      && (forall q | 0 <= q < m && Sparse(col, dense, q) :: sc.b1.val <= Reduced(col, u, q))
      && (forall q | 0 <= q < sc.q1 && Sparse(col, dense, q) :: sc.b1.val < Reduced(col, u, q))
      && (forall q | 0 <= q < m && q != sc.q1 && Sparse(col, dense, q) :: sc.b2.Fin? && sc.b2.val <= Reduced(col, u, q))
      && (sc.b2.Fin? ==> exists q :: 0 <= q < m && q != sc.q1 && Sparse(col, dense, q) && sc.b2.val == Reduced(col, u, q))
  }

  lemma {:induction false} ScanFinds(col: seq<Edge>, u: seq<real>, dense: seq<bool>, m: int)
    requires 0 <= m <= |col|
    ensures BestTwo(col, u, dense, m, ScanCol(col, u, dense, m))
    decreases m
  {
    if m > 0 {
      ScanFinds(col, u, dense, m - 1);
      var sc := ScanCol(col, u, dense, m - 1);
      if Sparse(col, dense, m - 1) && sc.q1 >= 0 {
        SeenFinds(col, u, dense, m - 1, sc);
      }
    }
  }

  lemma SeenFinds(col: seq<Edge>, u: seq<real>, dense: seq<bool>, m: int, sc: Scan)
    requires 0 <= m < |col| && Sparse(col, dense, m) && sc.q1 >= 0 && BestTwo(col, u, dense, m, sc)
    ensures BestTwo(col, u, dense, m + 1, Seen(sc, Reduced(col, u, m), m))
  {
    var d := Reduced(col, u, m);
    if Less(d, sc.b1) {
      assert 0 <= sc.q1 < m + 1 && sc.q1 != m && sc.b1.val == Reduced(col, u, sc.q1);
    } else if Less(d, sc.b2) {
      assert 0 <= m < m + 1 && m != sc.q1 && d == Reduced(col, u, m);
    } else {
      var q :| 0 <= q < m && q != sc.q1 && Sparse(col, dense, q) && sc.b2.val == Reduced(col, u, q);
      assert 0 <= q < m + 1;
    }
  }

  // Column minimum and the matched row's reduced cost, after m entries.
  datatype Slack = Slack(colMin: Cost, matched: Cost)

  function SlackCol(col: seq<Edge>, u: seq<real>, dense: seq<bool>, r: int, m: int): Slack
    decreases m
  {
    if m <= 0 then Slack(Inf, Inf)
    else
      var sl := SlackCol(col, u, dense, r, m - 1);
      if Sparse(col, dense, m - 1) then
        var d := Reduced(col, u, m - 1);
        Slack(if Less(d, sl.colMin) then Fin(d) else sl.colMin, if col[m - 1].row == r then Fin(d) else sl.matched)
      else sl
  }

  // matched - colMin > eps; an infinite matched cost is never within eps of a finite minimum.
  predicate Loose(sl: Slack, eps: real) {
    sl.colMin.Fin? && (sl.matched.Inf? || sl.matched.val - sl.colMin.val > eps)
  }

  // ---- bids ----

  const COMPACT_MIN := 1024

  function Compacted(s: State): State
    requires 0 <= s.head <= |s.queue|
  {
    if s.head >= COMPACT_MIN && 2 * s.head >= |s.queue| then s.(queue := s.queue[s.head..], head := 0) else s
  }

  // The column's dual after its bid.
  function Bidding(sc: Scan, eps: real, range: real): real {
    match sc.b2
    case Fin(b2) => b2
    case Inf => (match sc.b1 case Fin(b1) => b1 + Reals.Max(eps, range) case Inf => 0.0)
  }

  // Column j wins row i for the price that makes its second best its dual.
  function Won(p: Problem, s: State, j: int, q1: int, b2: real): State
    requires Shape(p, s) && 0 <= j < |p.cols| && 0 <= q1 < |p.cols[j]| && 0 <= p.cols[j][q1].row < |p.cols|
  {
    var i := p.cols[j][q1].row;
    var k := s.rowMatch[i];
    s.(v := s.v[j := b2], u := s.u[i := p.cols[j][q1].cost - b2 - s.eps],
       colToRow := (if k >= 0 then s.colToRow[k := -1] else s.colToRow)[j := i],
       queue := if k >= 0 then s.queue + [k] else s.queue,
       rowMatch := s.rowMatch[i := j])
  }

  // The column at the front leaves the queue.
  function Pop(p: Problem, s: State): (r: State)
    requires Shape(p, s) && s.head < |s.queue|
    ensures Shape(p, r)
  {
    s.(head := s.head + 1, work := s.work + |p.cols[s.queue[s.head]]|)
  }

  // The popped column's bid, for the row its scan found.
  function Placed(p: Problem, t: State, j: int, sc: Scan): (r: State)
    requires Shape(p, t) && 0 <= j < |p.cols| && 0 <= sc.q1 < |p.cols[j]| && 0 <= p.cols[j][sc.q1].row < |p.cols|
    ensures Shape(p, r)
  {
    Compacted(Won(p, t.(bids := t.bids + 1), j, sc.q1, Bidding(sc, t.eps, t.range)))
  }

  function Bid(p: Instance, s: State): (r: State)
    requires Shape(p, s) && s.head < |s.queue|
    ensures Shape(p, r)
  {
    var j := s.queue[s.head];
    var t := Pop(p, s);
    var sc := ScanCol(p.cols[j], s.u, p.dense, |p.cols[j]|);
    ScanFinds(p.cols[j], s.u, p.dense, |p.cols[j]|);
    if sc.q1 < 0 then t.(dropped := true) else Placed(p, t, j, sc)
  }

  // ---- phases ----

  // Column j leaves its row if the new eps makes it too loose.
  function ReleaseOne(p: Problem, s: State, j: int): (r: State)
    requires Shape(p, s) && 0 <= j < |p.cols|
    ensures Shape(p, r)
  {
    var row := s.colToRow[j];
    if p.dense[j] || row < 0 then s
    else
      var t := s.(work := s.work + |p.cols[j]|);
      if Loose(SlackCol(p.cols[j], s.u, p.dense, row, |p.cols[j]|), s.eps) then
        t.(rowMatch := t.rowMatch[row := -1], colToRow := t.colToRow[j := -1], queue := t.queue + [j])
      else t
  }

  function Release(p: Problem, s: State, k: int): (r: State)
    requires Shape(p, s) && k <= |p.cols|
    ensures Shape(p, r)
    decreases k
  {
    if k <= 0 then s else ReleaseOne(p, Release(p, s, k - 1), k - 1)
  }

  function Rescaled(p: Problem, s: State): (r: State)
    requires Shape(p, s) && p.opt.Valid()
    ensures Shape(p, r)
  {
    s.(eps := Reals.Max(s.eps / p.opt.epsFactor, p.opt.epsFinal), phase := s.phase + 1, queue := [], head := 0, bids := 0)
  }

  function NextPhase(p: Instance, s: State): (r: State)
    requires Shape(p, s)
    ensures Shape(p, r)
  {
    Release(p, Rescaled(p, s), |p.cols|)
  }

  // ---- steps ----

  datatype Status = Done | Paused | Capped
  datatype Outcome = Go(next: State) | Stop(status: Status)

  // One round of the main loop; a negative budget is none.
  function Step(p: Instance, s: State, budget: int): Outcome
    requires Shape(p, s)
  {
    if s.head == |s.queue| then
      if s.eps <= p.opt.epsFinal then Stop(if s.dropped then Capped else Done)
      else Go(NextPhase(p, s))
    else if s.bids >= s.limit then Stop(Capped)
    else if budget >= 0 && s.work >= budget then Stop(Paused)
    else Go(Bid(p, s))
  }

  // ---- the start ----

  datatype Bounds = Bounds(cmax: real, cmin: Cost, sparse: int, work: int)

  function EntryBounds(b: Bounds, c: real): Bounds {
    b.(cmax := Reals.Max(b.cmax, c), cmin := if Less(c, b.cmin) then Fin(c) else b.cmin)
  }

  function ColumnBounds(col: seq<Edge>, dense: seq<bool>, b: Bounds, m: int): Bounds
    decreases m
  {
    if m <= 0 || m > |col| then b
    else
      var r := ColumnBounds(col, dense, b, m - 1);
      if Sparse(col, dense, m - 1) then EntryBounds(r, col[m - 1].cost) else r
  }

  function CostBounds(p: Problem, work: int, k: int): Bounds
    requires k <= |p.cols| == |p.dense|
    decreases k
  {
    if k <= 0 then Bounds(0.0, Inf, 0, work)
    else
      var b := CostBounds(p, work, k - 1);
      if p.dense[k - 1] then b
      else
        var b' := b.(sparse := b.sparse + 1, work := b.work + |p.cols[k - 1]|);
        ColumnBounds(p.cols[k - 1], p.dense, b', |p.cols[k - 1]|)
  }

  function Ceil(x: real): int { -((-x).Floor) }

  function Start(p: Instance, s: State, first: seq<int>): State
    requires |p.dense| == |p.cols|
  {
    var b := CostBounds(p, s.work, |p.cols|);
    s.(range := if b.cmin.Inf? then 0.0 else b.cmax - b.cmin.val,
       limit := Ceil(p.opt.bidCap * b.sparse as real),
       eps := Reals.Max(if p.opt.epsStart > 0.0 then p.opt.epsStart else b.cmax / p.opt.epsFactor, p.opt.epsFinal),
       queue := first, head := 0, bids := 0, phase := 0, work := b.work)
  }
}
