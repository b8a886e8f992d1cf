/** The first pass over a front's panels: a panel that stalls pulls in the partners
    its failed columns wait for, or parks its failed columns behind the untried ones. */
module PartnerPass {
  import opened Sequences
  import opened Reals
  import opened FrontAlgebra
  import opened FrontSteps
  import opened PivotChoice
  import opened PivotSearch
  import opened Inertia
  import opened PivotSigns
  import opened FrontKernel
  import opened FrontPanels

  // The row outside the panel [k, pl) holding column pos's largest entry, when it
  // exceeds every entry inside; -1 otherwise.
  function PulledPartner(m: Mat, k: int, pl: int, e: int, pos: int): int {
    var r := Partner(m, pos, pl, e);
    if r >= 0 && MaxOff(m, pos, pl, e, -1) > MaxOff(m, pos, k, pl, -1) then r else -1
  }

  // The (failed column, partner) row ids of the positions [k, pos), partners distinct.
  function PairOrder(m: Mat, rows: seq<int>, k: int, pl: int, e: int, maxPairs: int, pos: int): seq<int>
    requires 0 <= k && pos <= pl <= e <= |rows|
    decreases pos - k
  {
    if pos <= k then []
    else AddPair(m, rows, k, pl, e, maxPairs, pos - 1, PairOrder(m, rows, k, pl, e, maxPairs, pos - 1))
  }

  // The list o after position pos: it gains pos's pair unless it is full, pos has no
  // partner to pull or the partner is taken.
  function AddPair(m: Mat, rows: seq<int>, k: int, pl: int, e: int, maxPairs: int, pos: int, o: seq<int>): seq<int>
    requires 0 <= pos < pl <= e <= |rows|
  {
    if |o| / 2 >= maxPairs then o
    else
      var r := PulledPartner(m, k, pl, e, pos);
      if !(pl <= r < e) || Taken(o, rows[r]) then o else o + [rows[pos], rows[r]]
  }

  // id is the partner of an earlier pair.
  predicate Taken(o: seq<int>, id: int) {
    exists t | 0 <= t < |o| :: t % 2 == 1 && o[t] == id
  }

  // The ids of a pair list sit in the panel (failed columns) and behind it (partners).
  ghost predicate PairsFrom(o: seq<int>, rows: seq<int>, k: int, pl: int, e: int, pos: int)
    requires 0 <= k <= pl && pos <= pl <= e <= |rows|
  {
    && |o| % 2 == 0
    && (forall t | 0 <= t < |o| && t % 2 == 0 :: o[t] in rows[k..if pos < k then k else pos])
    && (forall t | 0 <= t < |o| && t % 2 == 1 :: o[t] in rows[pl..e])
  }

  lemma {:induction false} PairOrderIds(m: Mat, rows: seq<int>, k: int, pl: int, e: int, maxPairs: int, pos: int)
    requires 0 <= k <= pl && pos <= pl <= e <= |rows| && Distinct(rows) && 0 <= maxPairs
    ensures var o := PairOrder(m, rows, k, pl, e, maxPairs, pos);
      && PairsFrom(o, rows, k, pl, e, pos) && Distinct(o) && |o| <= 2 * maxPairs
    decreases pos - k
  {
    if pos > k {
      PairOrderIds(m, rows, k, pl, e, maxPairs, pos - 1);
      AddPairIds(m, rows, k, pl, e, maxPairs, pos - 1, PairOrder(m, rows, k, pl, e, maxPairs, pos - 1));
    }
  }

  lemma AddPairIds(m: Mat, rows: seq<int>, k: int, pl: int, e: int, maxPairs: int, pos: int, o: seq<int>)
    requires 0 <= k <= pos < pl <= e <= |rows| && Distinct(rows) && 0 <= maxPairs
    requires PairsFrom(o, rows, k, pl, e, pos) && Distinct(o) && |o| <= 2 * maxPairs
    ensures var o' := AddPair(m, rows, k, pl, e, maxPairs, pos, o);
      && PairsFrom(o', rows, k, pl, e, pos + 1) && Distinct(o') && |o'| <= 2 * maxPairs
  {
    assert rows[k..pos + 1] == rows[k..pos] + [rows[pos]];
    var o' := AddPair(m, rows, k, pl, e, maxPairs, pos, o);
    if o' != o {
      var r := PulledPartner(m, k, pl, e, pos);
      NewIds(o, rows, k, pl, e, pos, r);
      assert rows[r] in rows[pl..e];
    }
  }

  lemma NewIds(o: seq<int>, rows: seq<int>, k: int, pl: int, e: int, pos: int, r: int)
    requires 0 <= k <= pos < pl <= r < e <= |rows| && Distinct(rows)
    requires PairsFrom(o, rows, k, pl, e, pos) && !Taken(o, rows[r])
    ensures rows[pos] !in o && rows[r] !in o && rows[pos] != rows[r]
  {
    forall t | 0 <= t < |o| ensures o[t] != rows[pos] && o[t] != rows[r] {
      if t % 2 == 0 {
        assert o[t] in rows[k..pos];
      } else {
        assert o[t] in rows[pl..e];
      }
    }
  }

  // Column x waits for row y: the first of its largest entries behind the panel, larger than
  // every entry inside.
  ghost predicate Pulls(m: Mat, k: int, pl: int, e: int, x: int, y: int) {
    && k <= x < pl <= y < e && Mag(m, y, x) > 0.0
    && (forall i | pl <= i < e :: Mag(m, i, x) <= Mag(m, y, x) && (i < y ==> Mag(m, i, x) < Mag(m, y, x)))
    && forall j | k <= j < pl && j != x :: Mag(m, j, x) < Mag(m, y, x)
  }

  lemma {:induction false} PulledMeaning(m: Mat, k: int, pl: int, e: int, x: int, y: int)
    requires 0 <= k <= x < pl <= e && y >= 0
    ensures PulledPartner(m, k, pl, e, x) == y <==> Pulls(m, k, pl, e, x, y)
  {
    PartnerMeaning(m, x, pl, e);
    var r, top, inside := Partner(m, x, pl, e), MaxOff(m, x, pl, e, -1), MaxOff(m, x, k, pl, -1);
    forall i | pl <= i < e ensures Mag(m, i, x) <= top { MaxOffBounds(m, x, pl, e, -1, i); }
    forall j | k <= j < pl && j != x ensures Mag(m, j, x) <= inside { MaxOffBounds(m, x, k, pl, -1, j); }
    var j := MaxOffAttained(m, x, k, pl, -1);
    if Pulls(m, k, pl, e, x, y) {
      assert r != -1 && r == y;
      assert inside < top;
    }
  }

  // The pair at t of the list is a column with the row it waits for, columns ascending.
  ghost predicate PairsWait(m: Mat, rows: seq<int>, k: int, pl: int, e: int, o: seq<int>, at: seq<int>) {
    && 0 <= k <= pl <= e <= |rows| && |o| == 2 * |at| && (forall t | 0 <= t < |at| :: k <= at[t] < pl)
    && (forall s, t | 0 <= s < t < |at| :: at[s] < at[t])
    && forall t | 0 <= t < |at| :: PairWaits(m, rows, k, pl, e, o, t, at[t])
  }

  ghost predicate PairWaits(m: Mat, rows: seq<int>, k: int, pl: int, e: int, o: seq<int>, t: int, x: int) {
    0 <= k <= x < pl <= e <= |rows| && 0 <= t && 2 * t + 1 < |o| && o[2 * t] == rows[x]
    && exists y :: Pulls(m, k, pl, e, x, y) && o[2 * t + 1] == rows[y]
  }

  // Unless the list is full, the row a column waits for is in it.
  ghost predicate NoneForgotten(m: Mat, rows: seq<int>, k: int, pl: int, e: int, maxPairs: int, pos: int, o: seq<int>) {
    0 <= k <= pl <= e <= |rows| &&
    (|o| / 2 >= maxPairs || forall x, y | k <= x < pos && Pulls(m, k, pl, e, x, y) :: Taken(o, rows[y]))
  }

  lemma {:induction false} AddPairWaits(m: Mat, rows: seq<int>, k: int, pl: int, e: int, maxPairs: int, pos: int, o: seq<int>, at: seq<int>)
      returns (at': seq<int>)
    requires 0 <= k <= pos < pl <= e <= |rows| && PairsWait(m, rows, k, pl, e, o, at) && (forall t | 0 <= t < |at| :: at[t] < pos)
    requires NoneForgotten(m, rows, k, pl, e, maxPairs, pos, o)
    ensures var o' := AddPair(m, rows, k, pl, e, maxPairs, pos, o);
      && PairsWait(m, rows, k, pl, e, o', at') && (forall t | 0 <= t < |at'| :: at'[t] <= pos)
      && NoneForgotten(m, rows, k, pl, e, maxPairs, pos + 1, o')
  {
    var o' := AddPair(m, rows, k, pl, e, maxPairs, pos, o);
    var r := PulledPartner(m, k, pl, e, pos);
    at' := at;
    forall y | Pulls(m, k, pl, e, pos, y) ensures y == r { PulledMeaning(m, k, pl, e, pos, y); }
    if o' != o {
      PulledMeaning(m, k, pl, e, pos, r);
      at' := at + [pos];
      forall t | 0 <= t < |at'| ensures PairWaits(m, rows, k, pl, e, o', t, at'[t]) {
        if t < |at| {
          assert PairWaits(m, rows, k, pl, e, o, t, at[t]);
          var y :| Pulls(m, k, pl, e, at[t], y) && o[2 * t + 1] == rows[y];
          assert o'[2 * t + 1] == rows[y];
        } else {
          assert o'[2 * t + 1] == rows[r];
        }
      }
      assert o'[|o| + 1] == rows[r] && (|o| + 1) % 2 == 1;
      forall id | Taken(o, id) ensures Taken(o', id) {
        var t :| 0 <= t < |o| && t % 2 == 1 && o[t] == id;
        assert o'[t] == id;
      }
    }
  }

  /** The pair list of a stalled panel: its pairs are failed columns with the rows they wait
      for, and unless it is full every row waited for is in one. */
  lemma {:induction false} PairListMeaning(m: Mat, rows: seq<int>, k: int, pl: int, e: int, maxPairs: int, pos: int) returns (at: seq<int>)
    requires 0 <= k <= pos <= pl <= e <= |rows|
    ensures var o := PairOrder(m, rows, k, pl, e, maxPairs, pos);
      && PairsWait(m, rows, k, pl, e, o, at) && (forall t | 0 <= t < |at| :: at[t] < pos)
      && NoneForgotten(m, rows, k, pl, e, maxPairs, pos, o)
    decreases pos - k
  {
    if pos == k {
      at := [];
    } else {
      at := PairListMeaning(m, rows, k, pl, e, maxPairs, pos - 1);
      at := AddPairWaits(m, rows, k, pl, e, maxPairs, pos - 1, PairOrder(m, rows, k, pl, e, maxPairs, pos - 1), at);
    }
  }

  // The partner of one failed column, from its largest entries inside and outside
  // the panel.
  method FindPartner(F: array2<real>, k: int, pl: int, e: int, pos: int) returns (r: int)
    requires F.Length0 == F.Length1 && 0 <= k <= pos < pl <= e <= F.Length0
    ensures r == PulledPartner(Snapshot(F), k, pl, e, pos)
    ensures r == -1 || pl <= r < e
  {
    ghost var m := Snapshot(F);
    var inMax := 0.0;
    for i := k to pos
      invariant inMax == MaxOff(m, pos, k, i, -1)
    {
      assert Abs(F[pos, i]) == Mag(m, i, pos);
      inMax := Max(inMax, Abs(F[pos, i]));
    }
    for i := pos + 1 to pl
      invariant inMax == MaxOff(m, pos, k, i, -1)
    {
      assert Abs(F[i, pos]) == Mag(m, i, pos);
      inMax := Max(inMax, Abs(F[i, pos]));
    }
    var outMax := 0.0;
    r := -1;
    for i := pl to e
      invariant outMax == MaxOff(m, pos, pl, i, -1) && r == Partner(m, pos, pl, i) && (r == -1 || pl <= r < i)
    {
      var v := Abs(F[i, pos]);
      assert v == Mag(m, i, pos);
      if v > outMax {
        outMax, r := v, i;
      }
    }
    if r < 0 || !(outMax > inMax) { r := -1; }
  }

  // The pair list of a stalled panel: at most nb / 2 pairs and at most 64.
  method FindPairs(F: array2<real>, k: int, pl: int, e: int, rows: array<int>, nb: int) returns (order: array<int>, np: int)
    requires F.Length0 == F.Length1 == rows.Length && 0 <= k < pl <= e <= rows.Length && 2 <= nb && Distinct(rows[..])
    ensures fresh(order) && order.Length == 128 && 0 <= np <= 128
    ensures order[..np] == PairOrder(Snapshot(F), rows[..], k, pl, e, MaxPairs(nb), pl)
    ensures exists at :: PairsWait(Snapshot(F), rows[..], k, pl, e, order[..np], at)
    ensures NoneForgotten(Snapshot(F), rows[..], k, pl, e, MaxPairs(nb), pl, order[..np])
  {
    ghost var m, r0 := Snapshot(F), rows[..];
    order, np := new int[128], 0;
    var maxPairs := MaxPairs(nb);
    var pos := k;
    while pos < pl && np / 2 < maxPairs
      invariant k <= pos <= pl && 0 <= np <= 2 * maxPairs && np % 2 == 0
      invariant order[..np] == PairOrder(m, r0, k, pl, e, maxPairs, pos)
    {
      np := TryPair(F, k, pl, e, pos, rows, order, np, maxPairs);
      pos := pos + 1;
    }
    PairOrderFull(m, r0, k, pl, e, maxPairs, pos, pl);
    ghost var at := PairListMeaning(m, r0, k, pl, e, maxPairs, pl);
  }

  method TryPair(F: array2<real>, k: int, pl: int, e: int, pos: int, rows: array<int>, order: array<int>, np: int, maxPairs: int)
      returns (np': int)
    requires F.Length0 == F.Length1 == rows.Length && 0 <= k <= pos < pl <= e <= rows.Length && order != rows
    requires 0 <= np && np % 2 == 0 && np / 2 < maxPairs && 2 * maxPairs <= order.Length
    modifies order
    ensures np <= np' <= 2 * maxPairs && np' % 2 == 0
    ensures order[..np'] == AddPair(Snapshot(F), rows[..], k, pl, e, maxPairs, pos, old(order[..np]))
  {
    var r := FindPartner(F, k, pl, e, pos);
    if r < 0 { return np; }
    var taken := IsTaken(order, np, rows[r]);
    if taken { return np; }
    order[np], order[np + 1] := rows[pos], rows[r];
    np' := np + 2;
    assert order[..np'] == old(order[..np]) + [rows[pos], rows[r]];
  }

  method IsTaken(order: array<int>, np: int, id: int) returns (taken: bool)
    requires 0 <= np <= order.Length
    ensures taken == Taken(order[..np], id)
  {
    taken := false;
    var t := 1;
    while t < np
      invariant 1 <= t <= np + 1 && t % 2 == 1
      invariant taken <==> exists i | 0 <= i < np :: i < t && i % 2 == 1 && order[i] == id
    {
      taken := taken || order[t] == id;
      t := t + 2;
    }
  }

  function MaxPairs(nb: int): int {
    if nb / 2 < 64 then nb / 2 else 64
  }

  // A full list takes no further pair.
  lemma {:induction false} PairOrderFull(m: Mat, rows: seq<int>, k: int, pl: int, e: int, maxPairs: int, pos: int, end: int)
    requires 0 <= k <= pos <= end <= pl <= e <= |rows|
    requires pos == end || |PairOrder(m, rows, k, pl, e, maxPairs, pos)| / 2 >= maxPairs
    ensures PairOrder(m, rows, k, pl, e, maxPairs, end) == PairOrder(m, rows, k, pl, e, maxPairs, pos)
    decreases end - pos
  {
    if pos < end { PairOrderFull(m, rows, k, pl, e, maxPairs, pos, end - 1); }
  }

  // A swap of two eligible positions while every eligible column is current.
  method Exchange(F: array2<real>, p: int, q: int, k: int, e: int, rows: array<int>, ghost t: seq<int>, W: array2<real>,
                  prm: Params, ghost A: (int, int) -> real, ghost first: int, ghost ds: seq<Pivot>)
    requires F.Length0 == F.Length1 == rows.Length && W != F && W.Length0 == rows.Length
    requires Symmetric(A) && Good(A, Snapshot(F), rows[..], t, Ready(k, e, first), prm, first, ds)
    requires 0 <= k <= p <= q < e <= rows.Length
    modifies F, rows, W
    ensures Good(A, Snapshot(F), rows[..], t, Ready(k, e, first), prm, first, ds)
    ensures RowsSwapped(old(rows[..]), rows[..], p, q)
    ensures PermutedWithin(old(rows[..]), rows[..], k, e)
  {
    Bring(F, p, q, rows, t, W, 0, prm, A, Ready(k, e, first), first, ds);
    SwapPermutes(old(rows[..]), old(rows[..]), rows[..], k, e, p, q);
  }

  // The column with row id x is still behind position k + t.
  lemma StillBehind(r0: seq<int>, r: seq<int>, o: seq<int>, k: int, e: int, t: int) returns (q: int)
    requires PermutedWithin(r0, r, k, e) && Distinct(r0) && Distinct(o)
    requires 0 <= k <= e <= |r| && 0 <= t < |o| && k + t <= e
    requires forall i | k <= i < k + t :: r[i] == o[i - k]
    requires o[t] in r0[k..e]
    ensures k + t <= q < e && r[q] == o[t]
  {
    var i :| k <= i < e && r0[i] == o[t];
    assert o[t] in multiset(r0);
    assert o[t] in multiset(r);
    q :| 0 <= q < |r| && r[q] == o[t];
  }

  /** Brings the listed columns to the front of the stalled panel, in order: the
      search for each stays inside the eligible columns. */
  method BringPairs(F: array2<real>, k: int, e: int, rows: array<int>, ghost tg: seq<int>, W: array2<real>, order: array<int>, np: int,
                    prm: Params, ghost A: (int, int) -> real, ghost first: int, ghost ds: seq<Pivot>)
    requires F.Length0 == F.Length1 == rows.Length && W != F && W.Length0 == rows.Length && order != rows
    requires Symmetric(A) && Good(A, Snapshot(F), rows[..], tg, Ready(k, e, first), prm, first, ds)
    requires 0 <= k <= e <= rows.Length && 0 <= np <= order.Length && Distinct(rows[..]) && Distinct(order[..np])
    requires forall t | 0 <= t < np :: order[t] in rows[k..e]
    modifies F, rows, W
    ensures Good(A, Snapshot(F), rows[..], tg, Ready(k, e, first), prm, first, ds)
    ensures PermutedWithin(old(rows[..]), rows[..], k, e)
    ensures k + np <= e && rows[k..k + np] == order[..np]
  {
    ghost var r0, o := rows[..], order[..np];
    for t := 0 to np
      invariant k + t <= e && order[..np] == o
      invariant Good(A, Snapshot(F), rows[..], tg, Ready(k, e, first), prm, first, ds)
      invariant PermutedWithin(r0, rows[..], k, e)
      invariant forall i | k <= i < k + t :: rows[i] == o[i - k]
    {
      BringOne(F, k, e, rows, tg, W, order, t, prm, A, first, ds, r0, o);
    }
    assert rows[k..k + np] == order[..np];
  }

  method BringOne(F: array2<real>, k: int, e: int, rows: array<int>, ghost tg: seq<int>, W: array2<real>, order: array<int>, t: int,
                  prm: Params, ghost A: (int, int) -> real, ghost first: int, ghost ds: seq<Pivot>, ghost r0: seq<int>, ghost o: seq<int>)
    requires F.Length0 == F.Length1 == rows.Length && W != F && W.Length0 == rows.Length && order != rows
    requires Symmetric(A) && Good(A, Snapshot(F), rows[..], tg, Ready(k, e, first), prm, first, ds)
    requires 0 <= k <= e <= rows.Length && 0 <= t < |o| <= order.Length && order[..|o|] == o && k + t <= e
    requires Distinct(r0) && Distinct(o) && PermutedWithin(r0, rows[..], k, e) && o[t] in r0[k..e]
    requires forall i | k <= i < k + t :: rows[i] == o[i - k]
    modifies F, rows, W
    ensures k + t < e
    ensures Good(A, Snapshot(F), rows[..], tg, Ready(k, e, first), prm, first, ds)
    ensures PermutedWithin(r0, rows[..], k, e)
    ensures forall i | k <= i <= k + t :: rows[i] == o[i - k]
  {
    ghost var at := StillBehind(r0, rows[..], o, k, e, t);
    var q := k + t;
    while rows[q] != order[t]
      invariant k + t <= q <= at
      decreases at - q
    {
      q := q + 1;
    }
    ghost var r := rows[..];
    Exchange(F, k + t, q, k, e, rows, tg, W, prm, A, first, ds);
    PermutedTrans(r0, r, rows[..], k, e, k, e);
  }

  // Where the entry at i was before [k, k + t) and [j, j + t) traded places.
  function Traded(k: int, j: int, t: int, i: int): int {
    if k <= i < k + t then j + (i - k) else if j <= i < j + t then k + (i - j) else i
  }

  ghost predicate AllTraded(r0: seq<int>, r: seq<int>, k: int, j: int, t: int)
    requires |r| == |r0| && 0 <= k && 0 <= t && k + t <= j && j + t <= |r0|
  {
    forall i | 0 <= i < |r| :: r[i] == r0[Traded(k, j, t, i)]
  }

  lemma TradeOne(r0: seq<int>, r: seq<int>, r': seq<int>, k: int, j: int, t: int)
    requires |r| == |r0| && 0 <= k && 0 <= t && k + t < j && j + t < |r0|
    requires AllTraded(r0, r, k, j, t) && RowsSwapped(r, r', k + t, j + t)
    ensures AllTraded(r0, r', k, j, t + 1)
  {
  }

  lemma TradedBlocks(r0: seq<int>, r: seq<int>, k: int, pl: int, live: int, mv: int)
    requires 0 <= k < pl <= live <= |r0| == |r| && mv == (if pl - k < live - pl then pl - k else live - pl)
    requires AllTraded(r0, r, k, live - mv, mv)
    ensures forall i | live - (pl - k) <= i < live :: r[i] in r0[k..pl]
    ensures forall i | k <= i < live - (pl - k) :: r[i] in r0[pl..live]
  {
    forall i | live - (pl - k) <= i < live ensures r[i] in r0[k..pl] {
      assert r[i] == r0[k..pl][Traded(k, live - mv, mv, i) - k];
    }
    forall i | k <= i < live - (pl - k) ensures r[i] in r0[pl..live] {
      assert r[i] == r0[pl..live][Traded(k, live - mv, mv, i) - pl];
    }
  }

  /** Trades the failed columns [k, pl) for the last untried ones: they end in the
      last pl - k positions before `live`. */
  method ParkFailed(F: array2<real>, k: int, pl: int, live: int, e: int, rows: array<int>, ghost tg: seq<int>, W: array2<real>,
                    prm: Params, ghost A: (int, int) -> real, ghost first: int, ghost ds: seq<Pivot>)
    requires F.Length0 == F.Length1 == rows.Length && W != F && W.Length0 == rows.Length
    requires Symmetric(A) && Good(A, Snapshot(F), rows[..], tg, Ready(k, e, first), prm, first, ds)
    requires 0 <= k < pl <= live <= e <= rows.Length
    modifies F, rows, W
    ensures Good(A, Snapshot(F), rows[..], tg, Ready(k, e, first), prm, first, ds)
    ensures PermutedWithin(old(rows[..]), rows[..], k, e)
    ensures forall i | live - (pl - k) <= i < live :: rows[i] in old(rows[k..pl])
    ensures forall i | k <= i < live - (pl - k) :: rows[i] in old(rows[pl..live])
  {
    ghost var r0 := rows[..];
    var mv := if pl - k < live - pl then pl - k else live - pl;
    TradeBlocks(F, k, live - mv, mv, k, e, rows, tg, W, prm, A, first, ds);
    TradedBlocks(r0, rows[..], k, pl, live, mv);
  }

  // Exchanges the blocks [p, p + n) and [j, j + n).
  method TradeBlocks(F: array2<real>, p: int, j: int, n: int, k: int, e: int, rows: array<int>, ghost tg: seq<int>, W: array2<real>,
                     prm: Params, ghost A: (int, int) -> real, ghost first: int, ghost ds: seq<Pivot>)
    requires F.Length0 == F.Length1 == rows.Length && W != F && W.Length0 == rows.Length
    requires Symmetric(A) && Good(A, Snapshot(F), rows[..], tg, Ready(k, e, first), prm, first, ds)
    requires 0 <= k <= p <= p + n <= j <= j + n <= e <= rows.Length
    modifies F, rows, W
    ensures Good(A, Snapshot(F), rows[..], tg, Ready(k, e, first), prm, first, ds)
    ensures PermutedWithin(old(rows[..]), rows[..], k, e)
    ensures AllTraded(old(rows[..]), rows[..], p, j, n)
  {
    ghost var r0 := rows[..];
    for t := 0 to n
      invariant Good(A, Snapshot(F), rows[..], tg, Ready(k, e, first), prm, first, ds)
      invariant PermutedWithin(r0, rows[..], k, e)
      invariant AllTraded(r0, rows[..], p, j, t)
    {
      TradeStep(F, p, j, t, k, e, rows, tg, W, prm, A, first, ds, r0);
    }
  }

  method TradeStep(F: array2<real>, p: int, j: int, t: int, k: int, e: int, rows: array<int>, ghost tg: seq<int>, W: array2<real>,
                   prm: Params, ghost A: (int, int) -> real, ghost first: int, ghost ds: seq<Pivot>, ghost r0: seq<int>)
    requires F.Length0 == F.Length1 == rows.Length && W != F && W.Length0 == rows.Length
    requires Symmetric(A) && Good(A, Snapshot(F), rows[..], tg, Ready(k, e, first), prm, first, ds)
    requires 0 <= k <= p <= p + t < j <= j + t < e <= rows.Length
    requires PermutedWithin(r0, rows[..], k, e) && AllTraded(r0, rows[..], p, j, t)
    modifies F, rows, W
    ensures Good(A, Snapshot(F), rows[..], tg, Ready(k, e, first), prm, first, ds)
    ensures PermutedWithin(r0, rows[..], k, e) && AllTraded(r0, rows[..], p, j, t + 1)
  {
    ghost var r := rows[..];
    Exchange(F, p + t, j + t, k, e, rows, tg, W, prm, A, first, ds);
    PermutedTrans(r0, r, rows[..], k, e, k, e);
    TradeOne(r0, r, rows[..], p, j, t);
  }

  // What a stalled panel does: pulls partners in (np > 0) or parks its failed columns.
  method HandleStall(F: array2<real>, k: int, pl: int, live: int, e: int, mayPair: bool, rows: array<int>, ghost tg: seq<int>,
                     W: array2<real>, prm: Params, ghost A: (int, int) -> real, ghost first: int, ghost ds: seq<Pivot>)
      returns (np: int)
    requires F.Length0 == F.Length1 == rows.Length && W != F && W.Length0 == rows.Length && 2 <= prm.nb
    requires Symmetric(A) && Good(A, Snapshot(F), rows[..], tg, Ready(k, e, first), prm, first, ds)
    requires 0 <= k < pl <= live <= e <= rows.Length && Distinct(rows[..])
    modifies F, rows, W
    ensures Good(A, Snapshot(F), rows[..], tg, Ready(k, e, first), prm, first, ds)
    ensures PermutedWithin(old(rows[..]), rows[..], k, e)
    ensures 0 <= np && k + np <= e && (np > 0 ==> mayPair)
    ensures np > 0 ==> rows[k..k + np] == PairOrder(old(Snapshot(F)), old(rows[..]), k, pl, e, MaxPairs(prm.nb), pl)
    ensures np == 0 ==> forall i | live - (pl - k) <= i < live :: rows[i] in old(rows[k..pl])
    ensures np == 0 ==> forall i | k <= i < live - (pl - k) :: rows[i] in old(rows[pl..live])
  {
    np := 0;
    if mayPair {
      np := PullPartners(F, k, pl, e, rows, tg, W, prm, A, first, ds);
    }
    if np == 0 {
      ParkFailed(F, k, pl, live, e, rows, tg, W, prm, A, first, ds);
    }
  }

  // Finds the stalled panel's pairs and brings them to its front.
  method PullPartners(F: array2<real>, k: int, pl: int, e: int, rows: array<int>, ghost tg: seq<int>, W: array2<real>,
                      prm: Params, ghost A: (int, int) -> real, ghost first: int, ghost ds: seq<Pivot>)
      returns (np: int)
    requires F.Length0 == F.Length1 == rows.Length && W != F && W.Length0 == rows.Length && 2 <= prm.nb
    requires Symmetric(A) && Good(A, Snapshot(F), rows[..], tg, Ready(k, e, first), prm, first, ds)
    requires 0 <= k < pl <= e <= rows.Length && Distinct(rows[..])
    modifies F, rows, W
    ensures Good(A, Snapshot(F), rows[..], tg, Ready(k, e, first), prm, first, ds)
    ensures PermutedWithin(old(rows[..]), rows[..], k, e)
    ensures 0 <= np && k + np <= e && (np == 0 ==> rows[..] == old(rows[..]))
    ensures rows[k..k + np] == PairOrder(old(Snapshot(F)), old(rows[..]), k, pl, e, MaxPairs(prm.nb), pl)
  {
    ghost var m, r0 := Snapshot(F), rows[..];
    var order;
    order, np := FindPairs(F, k, pl, e, rows, prm.nb);
    PairOrderIds(m, r0, k, pl, e, MaxPairs(prm.nb), pl);
    InEligible(order[..np], r0, k, pl, e);
    if np > 0 {
      BringPairs(F, k, e, rows, tg, W, order, np, prm, A, first, ds);
    }
  }

  lemma InEligible(o: seq<int>, rows: seq<int>, k: int, pl: int, e: int)
    requires 0 <= k <= pl <= e <= |rows| && PairsFrom(o, rows, k, pl, e, pl)
    ensures forall t | 0 <= t < |o| :: o[t] in rows[k..e]
  {
    forall t | 0 <= t < |o| ensures o[t] in rows[k..e] {
      if t % 2 == 0 {
        assert o[t] in rows[k..pl];
        var i :| 0 <= i < pl - k && rows[k..pl][i] == o[t];
        assert rows[k..e][i] == o[t];
      } else {
        assert o[t] in rows[pl..e];
        var i :| 0 <= i < e - pl && rows[pl..e][i] == o[t];
        assert rows[k..e][i + (pl - k)] == o[t];
      }
    }
  }

  /** The first pass: panels over the live columns, never searching outside the panel.
      It ends because every round eliminates a pivot, spends the right to pair at this
      k, or shrinks the live columns. */
  method FirstPass(F: array2<real>, k0: int, e: int, rows: array<int>, tags: array<int>, W: array2<real>,
                   prm: Params, ghost A: (int, int) -> real, ghost first: int, ghost ds: seq<Pivot>)
      returns (k: int, counts: Counts, ghost ds': seq<Pivot>)
    requires prm.Valid() && 2 <= prm.nb && F.Length0 == F.Length1 == rows.Length <= tags.Length && rows != tags
    requires W != F && W.Length0 == rows.Length && prm.nb <= W.Length1
    requires Symmetric(A) && 0 <= k0 <= e <= rows.Length && Distinct(rows[..])
    requires Good(A, Snapshot(F), rows[..], tags[..], Ready(k0, e, first), prm, first, ds)
    modifies F, rows, tags, W
    ensures k0 <= k <= e && Counted(counts, k, k0) && Adds(ds, ds', counts, SignsBy(prm))
    ensures Good(A, Snapshot(F), rows[..], tags[..], Ready(k, e, first), prm, first, ds')
    ensures PermutedWithin(old(rows[..]), rows[..], k0, e)
  {
    k, ds' := k0, ds;
    counts := NothingCounted(k0, ds, prm);
    var live, paired := e, -1;
    while k < live
      invariant k0 <= k <= live <= e && Counted(counts, k, k0) && Adds(ds, ds', counts, SignsBy(prm))
      invariant Good(A, Snapshot(F), rows[..], tags[..], Ready(k, e, first), prm, first, ds')
      invariant PermutedWithin(old(rows[..]), rows[..], k0, e)
      decreases e - k, k != paired, live - k
    {
      var c;
      k, live, paired, c, ds' := Round(F, k, live, paired, e, rows, tags, W, prm, A, first, ds', k0, old(rows[..]), ds, counts);
      counts := c;
    }
  }

  method NothingCounted(k: int, ghost ds: seq<Pivot>, prm: Params) returns (counts: Counts)
    ensures Counted(counts, k, k) && Adds(ds, ds, counts, SignsBy(prm))
  {
    counts := NONE;
    AddsNothing(ds, SignsBy(prm));
  }

  // One panel of the first pass and what its stall asks for.
  method Round(F: array2<real>, k: int, live: int, paired: int, e: int, rows: array<int>, tags: array<int>, W: array2<real>,
               prm: Params, ghost A: (int, int) -> real, ghost first: int, ghost ds: seq<Pivot>, ghost k0: int, ghost r0: seq<int>, ghost ds0: seq<Pivot>, counts: Counts)
      returns (k': int, live': int, paired': int, counts': Counts, ghost ds': seq<Pivot>)
    requires prm.Valid() && 2 <= prm.nb && F.Length0 == F.Length1 == rows.Length <= tags.Length && rows != tags
    requires W != F && W.Length0 == rows.Length && prm.nb <= W.Length1
    requires Symmetric(A) && 0 <= k0 <= k < live <= e <= rows.Length && Distinct(r0) && Counted(counts, k, k0)
    requires Good(A, Snapshot(F), rows[..], tags[..], Ready(k, e, first), prm, first, ds)
    requires PermutedWithin(r0, rows[..], k0, e) && Adds(ds0, ds, counts, SignsBy(prm))
    modifies F, rows, tags, W
    ensures k <= k' <= live' <= e && Counted(counts', k', k0) && Adds(ds0, ds', counts', SignsBy(prm))
    ensures Good(A, Snapshot(F), rows[..], tags[..], Ready(k', e, first), prm, first, ds')
    ensures PermutedWithin(r0, rows[..], k0, e)
    ensures k' > k || (paired' == k && k != paired) || (paired' == paired && live' < live)
  {
    var pl := if k + prm.nb < live then k + prm.nb else live;
    ghost var r := rows[..];
    var stalled, c;
    k', stalled, c, ds' := Panel(F, k, pl, e, rows, tags, W, prm, A, first, ds);
    PermutedTrans(r0, r, rows[..], k0, e, k, e);
    CountMore(counts, c, k', k, k0);
    AddsMore(ds0, ds, ds', counts, c, SignsBy(prm));
    counts' := counts.Plus(c);
    live', paired' := live, paired;
    if stalled {
      DistinctKept(r0, rows[..]);
      r := rows[..];
      var np := HandleStall(F, k', pl, live, e, k' != paired, rows, tags[..], W, prm, A, first, ds');
      PermutedTrans(r0, r, rows[..], k0, e, k', e);
      if np > 0 {
        live' := if live < k' + np then k' + np else live;
        paired' := k';
      } else {
        live' := live - (pl - k');
      }
    }
  }
}
