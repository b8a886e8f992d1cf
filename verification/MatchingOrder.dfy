/** The compressed ordering from a matching: trails walked and split in place, pairs
    become nodes, and a node order expands with pair members adjacent. */
module MatchingOrder {
  import opened Sequences
  import opened MatchingPairs

  // ---- walking ----

  // t is walked and marked.
  ghost predicate Walked(sigma: seq<int>, before: seq<bool>, seen: seq<bool>, t: seq<int>) {
    && Chain(sigma, t) && |seen| == |before| == |sigma|
    && (forall i | 0 <= i < |t| :: !before[t[i]])
    && forall c | 0 <= c < |seen| :: seen[c] == (before[c] || c in t)
  }

  lemma WalkStarts(sigma: seq<int>, before: seq<bool>, c: int)
    requires |before| == |sigma| && 0 <= c < |sigma| && !before[c]
    ensures Walked(sigma, before, before[c := true], [c])
  {
  }

  lemma WalkNext(sigma: seq<int>, before: seq<bool>, seen: seq<bool>, t: seq<int>, c: int)
    requires Walked(sigma, before, seen, t) && c == sigma[t[|t| - 1]] && 0 <= c < |seen| && !seen[c]
    ensures Walked(sigma, before, seen[c := true], t + [c])
  {
    DistinctMore(t, c);
    forall i | 0 < i < |t + [c]|
      ensures Follows(sigma, t + [c], i)
    {
      if i < |t| { assert Follows(sigma, t, i); }
    }
  }

  lemma ChainFits(sigma: seq<int>, t: seq<int>)
    requires Chain(sigma, t)
    ensures |t| <= |sigma|
  {
    var all := seq(|sigma|, i => i);
    forall y | y in t ensures y in all { assert all[y] == y; }
    FitsInto(t, all);
  }

  method Walk(sigma: seq<int>, start: int, seen: array<bool>) returns (cyc: seq<int>)
    requires Matching(sigma) && seen.Length == |sigma| && 0 <= start < |sigma| && !seen[start] && Closed(sigma, seen[..])
    modifies seen
    ensures Walked(sigma, old(seen[..]), seen[..], cyc) && cyc[0] == start
    ensures sigma[cyc[|cyc| - 1]] == -1 || Cycle(sigma, cyc)
  {
    ghost var before := seen[..];
    WalkStarts(sigma, before, start);
    seen[start] := true;
    assert seen[..] == before[start := true];
    cyc := [start];
    var c := sigma[start];
    while c >= 0 && !seen[c]
      invariant Walked(sigma, before, seen[..], cyc) && cyc[0] == start && c == sigma[cyc[|cyc| - 1]]
      decreases |sigma| - |cyc|
    {
      ghost var now := seen[..];
      WalkNext(sigma, before, now, cyc, c);
      seen[c] := true;
      assert seen[..] == now[c := true];
      cyc := cyc + [c];
      ChainFits(sigma, cyc);
      c := sigma[c];
    }
    WalkEnds(sigma, before, cyc);
  }

  // ---- choosing where pairs start ----

  method Alternations(t: seq<int>, w: seq<real>) returns (w0: real, w1: real)
    requires forall i | 0 <= i < |t| :: 0 <= t[i] < |w|
    ensures w0 == AltSum(t, w, false, |t|) && w1 == AltSum(t, w, true, |t|)
  {
    w0, w1 := 0.0, 0.0;
    for x := 0 to |t|
      invariant w0 == AltSum(t, w, false, x) && w1 == AltSum(t, w, true, x)
    {
      if x % 2 == 0 { w0 := w0 + w[t[x]]; } else { w1 := w1 + w[t[x]]; }
    }
  }

  method BestDiagonal(t: seq<int>, diag: seq<real>) returns (single: int)
    requires |t| > 0 && forall i | 0 <= i < |t| :: 0 <= t[i] < |diag|
    ensures single == Best(t, diag, |t|)
  {
    single := 0;
    for x := 1 to |t|
      invariant single == Best(t, diag, x)
    {
      if diag[t[x]] > diag[t[single]] { single := x; }
    }
  }

  method ChooseFirst(sigma: seq<int>, t: seq<int>, diag: seq<real>, w: seq<real>) returns (first: int)
    requires |t| > 0 && |diag| == |w| == |sigma| && forall i | 0 <= i < |t| :: 0 <= t[i] < |sigma|
    ensures first == First(sigma, t, diag, w)
  {
    first := 0;
    if |t| < 2 || sigma[t[|t| - 1]] != t[0] { return; }
    if |t| % 2 == 0 {
      var w0, w1 := Alternations(t, w);
      first := if w1 > w0 then 1 else 0;
    } else {
      var single := BestDiagonal(t, diag);
      first := single + 1;
    }
  }

  // ---- writing partners ----

  function Written(partner: seq<int>, diag: seq<real>, tol: real, a: int, b: int): seq<int>
    requires 0 <= a < |partner| == |diag| && 0 <= b < |partner|
  {
    if diag[a] < tol || diag[b] < tol then partner[a := b][b := a] else partner
  }

  lemma PairNext(r: seq<int>, diag: seq<real>, tol: real, partner: seq<int>, m: int)
    requires Distinct(r) && PairedTo(r, diag, tol, partner, m) && m % 2 == 0 && 0 <= m && m + 1 < |r|
    ensures PairedTo(r, diag, tol, Written(partner, diag, tol, r[m], r[m + 1]), m + 2)
  {
    var a, b := r[m], r[m + 1];
    var partner', m' := Written(partner, diag, tol, a, b), m + 2;
    assert PairedAt(r, diag, tol, partner, m, m) && PairedAt(r, diag, tol, partner, m, m + 1);
    forall x | 0 <= x < |r|
      ensures PairedAt(r, diag, tol, partner', m', x)
    {
      assert PairedAt(r, diag, tol, partner, m, x);
      if x != m && x != m + 1 { OtherValue(r, x, m); OtherValue(r, x, m + 1); }
    }
  }

  lemma OtherValue(r: seq<int>, x: int, y: int)
    requires Distinct(r) && 0 <= x < |r| && 0 <= y < |r| && x != y
    ensures r[x] != r[y]
  {
    if x < y { assert r[x] != r[y]; } else { assert r[y] != r[x]; }
  }

  lemma OddLeftOver(r: seq<int>, diag: seq<real>, tol: real, partner: seq<int>)
    requires PairedTo(r, diag, tol, partner, 2 * (|r| / 2))
    ensures PairedTo(r, diag, tol, partner, |r|)
  {
    forall x | 0 <= x < |r|
      ensures PairedAt(r, diag, tol, partner, |r|, x)
    {
      assert PairedAt(r, diag, tol, partner, 2 * (|r| / 2), x);
    }
  }

  // One pair: partners only when a diagonal is too small.
  method PairUp(partner: array<int>, diag: seq<real>, tol: real, a: int, b: int)
    requires partner.Length == |diag| && 0 <= a < |diag| && 0 <= b < |diag|
    modifies partner
    ensures partner[..] == Written(old(partner[..]), diag, tol, a, b)
  {
    if (if diag[a] < diag[b] then diag[a] else diag[b]) < tol {
      partner[a] := b;
      partner[b] := a;
    }
  }

  ghost predicate Unchanged(before: seq<int>, now: seq<int>, t: seq<int>) {
    |before| == |now| && forall c | 0 <= c < |now| && c !in t :: now[c] == before[c]
  }

  // The columns of pair q.
  lemma PairAt(t: seq<int>, f: int, q: int)
    requires |t| > 0 && f >= 0 && 0 <= q < |t| / 2
    ensures t[(f + 2 * q) % |t|] == Rotated(t, f)[2 * q] && t[(f + 2 * q + 1) % |t|] == Rotated(t, f)[2 * q + 1]
    ensures t[(f + 2 * q) % |t|] in t && t[(f + 2 * q + 1) % |t|] in t
  {
    assert (f + 2 * q) + 1 == f + (2 * q + 1);
  }

  method SplitPairs(sigma: seq<int>, cyc: seq<int>, diag: seq<real>, w: seq<real>, tol: real, partner: array<int>)
    requires partner.Length == |diag| == |w| == |sigma| && Trail(sigma, cyc)
    requires forall i | 0 <= i < |cyc| :: partner[cyc[i]] == -1
    modifies partner
    ensures SplitTrail(sigma, diag, w, tol, cyc, partner[..]) && Unchanged(old(partner[..]), partner[..], cyc)
  {
    var first := ChooseFirst(sigma, cyc, diag, w);
    TurnedChain(sigma, cyc, diag, w);
    NonePaired(cyc, first, diag, tol, partner[..]);
    WritePairs(cyc, first, diag, tol, partner);
  }

  method WritePairs(cyc: seq<int>, first: int, diag: seq<real>, tol: real, partner: array<int>)
    requires partner.Length == |diag| && |cyc| > 0 && 0 <= first <= |cyc| && Inside(cyc, |diag|) && Distinct(Rotated(cyc, first))
    requires PairedTo(Rotated(cyc, first), diag, tol, partner[..], 0)
    modifies partner
    ensures PairedTo(Rotated(cyc, first), diag, tol, partner[..], |cyc|) && Unchanged(old(partner[..]), partner[..], cyc)
  {
    var k := |cyc|;
    ghost var r, before := Rotated(cyc, first), partner[..];
    for q := 0 to k / 2
      invariant PairedTo(r, diag, tol, partner[..], 2 * q) && Unchanged(before, partner[..], cyc)
    {
      PairAt(cyc, first, q);
      PairNext(r, diag, tol, partner[..], 2 * q);
      PairUp(partner, diag, tol, cyc[(first + 2 * q) % k], cyc[(first + 2 * q + 1) % k]);
    }
    OddLeftOver(r, diag, tol, partner[..]);
  }

  lemma NonePaired(t: seq<int>, f: int, diag: seq<real>, tol: real, partner: seq<int>)
    requires |t| > 0 && 0 <= f <= |t| && |partner| == |diag| && Inside(t, |diag|)
    requires forall i | 0 <= i < |t| :: partner[t[i]] == -1
    ensures PairedTo(Rotated(t, f), diag, tol, partner, 0)
  {
    forall x | 0 <= x < |t| ensures 0 <= Rotated(t, f)[x] < |diag| && partner[Rotated(t, f)[x]] == -1 { RotatedAt(t, f, x); }
    forall x | 0 <= x < |t| ensures PairedAt(Rotated(t, f), diag, tol, partner, 0, x) {}
  }

  // ---- all trails ----

  ghost predicate Progress(sigma: seq<int>, diag: seq<real>, w: seq<real>, tol: real, trails: seq<seq<int>>, partner: seq<int>, seen: seq<bool>) {
    && |partner| == |diag| == |w| == |sigma| && Closed(sigma, seen)
    && (forall i | 0 <= i < |trails| :: SplitTrail(sigma, diag, w, tol, trails[i], partner))
    && (forall c | 0 <= c < |sigma| :: seen[c] == InSome(trails, c))
    && (forall i, j | 0 <= i < j < |trails| :: Disjoint(trails[i], trails[j]))
    && (forall c | 0 <= c < |sigma| && !seen[c] :: partner[c] == -1)
  }

  // Partners of a finished trail stay when another trail is split.
  lemma SplitStays(sigma: seq<int>, diag: seq<real>, w: seq<real>, tol: real, s: seq<int>, t: seq<int>, partner: seq<int>, partner': seq<int>)
    requires SplitTrail(sigma, diag, w, tol, s, partner) && Unchanged(partner, partner', t) && Disjoint(s, t)
    ensures SplitTrail(sigma, diag, w, tol, s, partner')
  {
    var r := Turned(sigma, s, diag, w);
    forall x | 0 <= x < |r|
      ensures PairedAt(r, diag, tol, partner', |r|, x)
    {
      assert PairedAt(r, diag, tol, partner, |r|, x);
      assert r[x] in r;
      RotatedHolds(s, First(sigma, s, diag, w), r[x]);
    }
  }

  lemma WalkedClosed(sigma: seq<int>, before: seq<bool>, seen: seq<bool>, t: seq<int>)
    requires Matching(sigma) && Closed(sigma, before) && Walked(sigma, before, seen, t) && Trail(sigma, t)
    ensures Closed(sigma, seen)
  {
    forall c | 0 <= c < |sigma| && 0 <= sigma[c] < |sigma|
      ensures c in t <==> sigma[c] in t
    {
      if c in t {
        var i :| 0 <= i < |t| && t[i] == c;
        if i + 1 < |t| { assert Follows(sigma, t, i + 1); }
      }
      if sigma[c] in t { PredInTrail(sigma, t, c); }
    }
  }

  lemma OnePred(sigma: seq<int>, i: int, j: int)
    requires Matching(sigma) && 0 <= i < |sigma| && 0 <= j < |sigma| && sigma[i] == sigma[j] && sigma[i] != -1
    ensures i == j
  {
  }

  lemma PredInTrail(sigma: seq<int>, t: seq<int>, c: int)
    requires Matching(sigma) && Trail(sigma, t) && 0 <= c < |sigma| && sigma[c] in t
    ensures c in t
  {
    var i :| 0 <= i < |t| && t[i] == sigma[c];
    if i > 0 {
      assert Follows(sigma, t, i);
      OnePred(sigma, t[i - 1], c);
    } else {
      assert HasPred(sigma, t[0]);
      OnePred(sigma, t[|t| - 1], c);
    }
  }

  lemma InSomeMore(trails: seq<seq<int>>, t: seq<int>, c: int)
    ensures InSome(trails + [t], c) <==> InSome(trails, c) || c in t
  {
    if InSome(trails, c) {
      var i :| 0 <= i < |trails| && c in trails[i];
      assert (trails + [t])[i] == trails[i];
    }
    if c in t { assert (trails + [t])[|trails|] == t; }
  }

  lemma TrailAdded(sigma: seq<int>, diag: seq<real>, w: seq<real>, tol: real, trails: seq<seq<int>>, t: seq<int>,
                   partner: seq<int>, partner': seq<int>, before: seq<bool>, seen: seq<bool>)
    requires Matching(sigma) && Progress(sigma, diag, w, tol, trails, partner, before) && Walked(sigma, before, seen, t)
    requires SplitTrail(sigma, diag, w, tol, t, partner') && Unchanged(partner, partner', t)
    ensures Progress(sigma, diag, w, tol, trails + [t], partner', seen)
  {
    WalkedClosed(sigma, before, seen, t);
    forall i | 0 <= i < |trails|
      ensures Disjoint(trails[i], t)
    {
      forall c | c in trails[i]
        ensures c !in t
      {
        assert SplitTrail(sigma, diag, w, tol, trails[i], partner);
        assert InSome(trails, c);
      }
    }
    forall i | 0 <= i < |trails + [t]|
      ensures SplitTrail(sigma, diag, w, tol, (trails + [t])[i], partner')
    {
      if i < |trails| { SplitStays(sigma, diag, w, tol, trails[i], t, partner, partner'); }
    }
    forall c | 0 <= c < |sigma|
      ensures seen[c] == InSome(trails + [t], c)
    {
      InSomeMore(trails, t, c);
    }
  }

  method DoTrail(sigma: seq<int>, diag: seq<real>, w: seq<real>, tol: real, start: int, seen: array<bool>, partner: array<int>, ghost trails: seq<seq<int>>)
      returns (ghost trails': seq<seq<int>>)
    requires Matching(sigma) && seen.Length == partner.Length == |sigma| && 0 <= start < |sigma| && !seen[start]
    requires Progress(sigma, diag, w, tol, trails, partner[..], seen[..])
    requires !HasPred(sigma, start) || (HeadsSeen(sigma, seen[..], |sigma|) && SeenTo(seen[..], start))
    modifies seen, partner
    ensures Progress(sigma, diag, w, tol, trails', partner[..], seen[..])
    ensures seen[start] && forall c | 0 <= c < |sigma| && old(seen[c]) :: seen[c]
  {
    ghost var before, partners := seen[..], partner[..];
    var cyc := Walk(sigma, start, seen);
    WalkedIsTrail(sigma, before, seen[..], cyc);
    assert partners == partner[..];
    SplitPairs(sigma, cyc, diag, w, tol, partner);
    TrailAdded(sigma, diag, w, tol, trails, cyc, partners, partner[..], before, seen[..]);
    trails' := trails + [cyc];
    assert cyc[0] in cyc && seen[..][start] == (before[start] || start in cyc);
    forall c | 0 <= c < |sigma| && before[c] ensures seen[c] { assert seen[..][c] == (before[c] || c in cyc); }
  }

  lemma WalkedIsTrail(sigma: seq<int>, before: seq<bool>, seen: seq<bool>, t: seq<int>)
    requires Matching(sigma) && Closed(sigma, before) && Walked(sigma, before, seen, t)
    requires sigma[t[|t| - 1]] == -1 || Cycle(sigma, t)
    requires !HasPred(sigma, t[0]) || (HeadsSeen(sigma, before, |sigma|) && SeenTo(before, t[0]))
    ensures Trail(sigma, t)
  {
    if !HasPred(sigma, t[0]) {
      assert sigma[t[|t| - 1]] != t[0];
    } else {
      OnlyCyclesLeft(sigma, before, t[|t| - 1]);
    }
  }

  method FindPreds(sigma: seq<int>) returns (has: array<bool>)
    requires Matching(sigma)
    ensures fresh(has) && has.Length == |sigma| && forall c | 0 <= c < |sigma| :: has[c] == HasPred(sigma, c)
  {
    has := new bool[|sigma|](_ => false);
    for j := 0 to |sigma|
      invariant forall c | 0 <= c < |sigma| :: has[c] == exists i :: 0 <= i < j && sigma[i] == c
    {
      if sigma[j] >= 0 { has[sigma[j]] := true; }
    }
  }

  // Columns below k without a predecessor are seen.
  ghost predicate HeadsSeen(sigma: seq<int>, seen: seq<bool>, k: int) {
    |seen| == |sigma| && forall c | 0 <= c < k <= |sigma| && !seen[c] :: HasPred(sigma, c)
  }

  ghost predicate SeenTo(seen: seq<bool>, k: int) {
    forall c | 0 <= c < k <= |seen| :: seen[c]
  }

  lemma MoreSeen(sigma: seq<int>, before: seq<bool>, seen: seq<bool>, start: int)
    requires |before| == |seen| == |sigma| && 0 <= start < |sigma|
    requires forall c | 0 <= c < |sigma| && before[c] :: seen[c]
    ensures HeadsSeen(sigma, before, |sigma|) ==> HeadsSeen(sigma, seen, |sigma|)
    ensures HeadsSeen(sigma, before, start) && (seen[start] || HasPred(sigma, start)) ==> HeadsSeen(sigma, seen, start + 1)
    ensures SeenTo(before, start) && seen[start] ==> SeenTo(seen, start + 1)
  {
  }

  // One start: its trail is split unless it is skipped.
  method VisitStart(sigma: seq<int>, diag: seq<real>, w: seq<real>, tol: real, start: int, skip: bool, seen: array<bool>,
                    partner: array<int>, ghost trails: seq<seq<int>>) returns (ghost trails': seq<seq<int>>)
    requires Matching(sigma) && seen.Length == partner.Length == |sigma| && 0 <= start < |sigma|
    requires Progress(sigma, diag, w, tol, trails, partner[..], seen[..])
    requires !skip ==> !seen[start] && (!HasPred(sigma, start) || (HeadsSeen(sigma, seen[..], |sigma|) && SeenTo(seen[..], start)))
    modifies seen, partner
    ensures Progress(sigma, diag, w, tol, trails', partner[..], seen[..])
    ensures old(HeadsSeen(sigma, seen[..], |sigma|)) ==> HeadsSeen(sigma, seen[..], |sigma|)
    ensures old(HeadsSeen(sigma, seen[..], start) && (!skip || seen[start] || HasPred(sigma, start))) ==> HeadsSeen(sigma, seen[..], start + 1)
    ensures old(SeenTo(seen[..], start) && (!skip || seen[start])) ==> SeenTo(seen[..], start + 1)
  {
    ghost var before := seen[..];
    trails' := trails;
    if !skip { trails' := DoTrail(sigma, diag, w, tol, start, seen, partner, trails); }
    MoreSeen(sigma, before, seen[..], start);
  }

  method PathPass(sigma: seq<int>, diag: seq<real>, w: seq<real>, tol: real, seen: array<bool>, partner: array<int>)
      returns (ghost trails: seq<seq<int>>)
    requires Matching(sigma) && seen.Length == partner.Length == |sigma|
    requires Progress(sigma, diag, w, tol, [], partner[..], seen[..])
    modifies seen, partner
    ensures Progress(sigma, diag, w, tol, trails, partner[..], seen[..]) && HeadsSeen(sigma, seen[..], |sigma|)
  {
    var preds := FindPreds(sigma);
    var has := preds[..];
    trails := [];
    for start := 0 to |sigma|
      invariant Progress(sigma, diag, w, tol, trails, partner[..], seen[..])
      invariant HeadsSeen(sigma, seen[..], start)
    {
      trails := VisitStart(sigma, diag, w, tol, start, seen[start] || has[start], seen, partner, trails);
    }
  }

  method CyclePass(sigma: seq<int>, diag: seq<real>, w: seq<real>, tol: real, seen: array<bool>, partner: array<int>, ghost paths: seq<seq<int>>)
      returns (ghost trails: seq<seq<int>>)
    requires Matching(sigma) && seen.Length == partner.Length == |sigma| && HeadsSeen(sigma, seen[..], |sigma|)
    requires Progress(sigma, diag, w, tol, paths, partner[..], seen[..])
    modifies seen, partner
    ensures Progress(sigma, diag, w, tol, trails, partner[..], seen[..]) && SeenTo(seen[..], |sigma|)
  {
    trails := paths;
    for start := 0 to |sigma|
      invariant Progress(sigma, diag, w, tol, trails, partner[..], seen[..])
      invariant HeadsSeen(sigma, seen[..], |sigma|) && SeenTo(seen[..], start)
    {
      trails := VisitStart(sigma, diag, w, tol, start, seen[start], seen, partner, trails);
    }
  }

  lemma NoTrails(sigma: seq<int>, diag: seq<real>, w: seq<real>, tol: real, partner: seq<int>, seen: seq<bool>)
    requires |partner| == |diag| == |w| == |sigma| == |seen|
    requires forall c | 0 <= c < |sigma| :: partner[c] == -1 && !seen[c]
    ensures Progress(sigma, diag, w, tol, [], partner, seen)
  {
    forall c ensures !InSome([], c) {}
  }

  /** Paths from their heads first, then cycles: every column's partner. */
  method PairColumns(sigma: seq<int>, diag: seq<real>, w: seq<real>, tol: real) returns (partner: array<int>, ghost trails: seq<seq<int>>)
    requires Matching(sigma) && |diag| == |w| == |sigma|
    ensures fresh(partner) && Split(sigma, diag, w, tol, trails, partner[..])
  {
    partner := new int[|sigma|](_ => -1);
    var seen := new bool[|sigma|](_ => false);
    NoTrails(sigma, diag, w, tol, partner[..], seen[..]);
    trails := PathPass(sigma, diag, w, tol, seen, partner);
    trails := CyclePass(sigma, diag, w, tol, seen, partner, trails);
    AllSeen(sigma, diag, w, tol, trails, partner[..], seen[..]);
  }

  lemma AllSeen(sigma: seq<int>, diag: seq<real>, w: seq<real>, tol: real, trails: seq<seq<int>>, partner: seq<int>, seen: seq<bool>)
    requires Progress(sigma, diag, w, tol, trails, partner, seen) && forall c | 0 <= c < |seen| :: seen[c]
    ensures Split(sigma, diag, w, tol, trails, partner)
  {
  }

  // ---- nodes ----

  // Partners, read both ways.
  ghost predicate Involution(partner: seq<int>) {
    forall a | 0 <= a < |partner| && partner[a] != -1 ::
      0 <= partner[a] < |partner| && partner[a] != a && partner[partner[a]] == a
  }

  lemma SplitIsInvolution(sigma: seq<int>, diag: seq<real>, w: seq<real>, tol: real, trails: seq<seq<int>>, partner: seq<int>)
    requires Split(sigma, diag, w, tol, trails, partner)
    ensures Involution(partner)
  {
    forall a | 0 <= a < |partner| && partner[a] != -1
      ensures 0 <= partner[a] < |partner| && partner[a] != a && partner[partner[a]] == a
    {
      PairsInvolute(sigma, diag, w, tol, trails, partner, a);
    }
  }

  // The first member of its node.
  predicate Leads(partner: seq<int>, i: int)
    requires 0 <= i < |partner|
  {
    !(0 <= partner[i] < i)
  }

  // First members below k, ascending: node J is the J-th of them.
  function Leaders(partner: seq<int>, k: int): (r: seq<int>)
    requires k <= |partner|
    ensures forall J | 0 <= J < |r| :: 0 <= r[J] < k && Leads(partner, r[J])
    decreases k
  {
    if k <= 0 then [] else if Leads(partner, k - 1) then Leaders(partner, k - 1) + [k - 1] else Leaders(partner, k - 1)
  }

  function FirstOf(partner: seq<int>): seq<int> { Leaders(partner, |partner|) }

  function NodeOf(partner: seq<int>, i: int): int
    requires 0 <= i < |partner|
  {
    |Leaders(partner, if Leads(partner, i) then i else partner[i])|
  }

  lemma {:induction false} LeaderAt(partner: seq<int>, k: int, c: int)
    requires 0 <= c < k <= |partner| && Leads(partner, c)
    ensures |Leaders(partner, c)| < |Leaders(partner, k)| && Leaders(partner, k)[|Leaders(partner, c)|] == c
    decreases k
  {
    if c < k - 1 { LeaderAt(partner, k - 1, c); }
  }

  lemma {:induction false} LeaderNode(partner: seq<int>, k: int, J: int)
    requires 0 <= k <= |partner| && 0 <= J < |Leaders(partner, k)|
    ensures |Leaders(partner, Leaders(partner, k)[J])| == J
    decreases k
  {
    if J < |Leaders(partner, k - 1)| { LeaderNode(partner, k - 1, J); }
  }

  ghost predicate NodesTo(partner: seq<int>, nodeOf: seq<int>, k: int) {
    |nodeOf| == |partner| && forall i {:trigger nodeOf[i]} | 0 <= i < k <= |partner| :: nodeOf[i] == NodeOf(partner, i)
  }

  lemma NodeNext(partner: seq<int>, nodeOf: seq<int>, i: int)
    requires Involution(partner) && 0 <= i < |partner| && NodesTo(partner, nodeOf, i)
    ensures NodesTo(partner, nodeOf[i := if 0 <= partner[i] < i then nodeOf[partner[i]] else |Leaders(partner, i)|], i + 1)
  {
    if 0 <= partner[i] < i { assert Leads(partner, partner[i]); }
  }

  method BuildNodes(partner: seq<int>) returns (nodeOf: array<int>, firstOf: seq<int>)
    requires Involution(partner)
    ensures nodeOf.Length == |partner| && firstOf == FirstOf(partner)
    ensures forall i | 0 <= i < |partner| :: nodeOf[i] == NodeOf(partner, i)
  {
    nodeOf := new int[|partner|];
    firstOf := [];
    for i := 0 to |partner|
      invariant firstOf == Leaders(partner, i) && NodesTo(partner, nodeOf[..], i)
    {
      ghost var before := nodeOf[..];
      NodeNext(partner, before, i);
      var p := partner[i];
      if p >= 0 && p < i {
        nodeOf[i] := nodeOf[p];
        assert nodeOf[..] == before[i := before[p]];
      } else {
        nodeOf[i] := |firstOf|;
        assert nodeOf[..] == before[i := |firstOf|];
        firstOf := firstOf + [i];
      }
    }
    assert forall i | 0 <= i < |partner| :: nodeOf[i] == nodeOf[..][i];
  }

  // ---- expanding a node order ----

  // Members of a node, the first in front.
  function Cell(partner: seq<int>, J: int): seq<int> {
    var firsts := FirstOf(partner);
    if !(0 <= J < |firsts|) then []
    else if partner[firsts[J]] >= 0 then [firsts[J], partner[firsts[J]]] else [firsts[J]]
  }

  function Expanded(partner: seq<int>, order: seq<int>): seq<int> {
    if |order| == 0 then [] else Expanded(partner, order[..|order| - 1]) + Cell(partner, order[|order| - 1])
  }

  method Expand(partner: seq<int>, firstOf: seq<int>, order: seq<int>) returns (perm: seq<int>)
    requires firstOf == FirstOf(partner) && Inside(order, |firstOf|)
    ensures perm == Expanded(partner, order)
  {
    perm := [];
    for x := 0 to |order|
      invariant perm == Expanded(partner, order[..x])
    {
      assert order[..x + 1][..x] == order[..x];
      var a := firstOf[order[x]];
      perm := perm + [a];
      var b := partner[a];
      if b >= 0 {
        perm := perm + [b];
        assert Cell(partner, order[x]) == [a] + [b];
      }
    }
    assert order[..|order|] == order;
  }

  // Column c belongs to node J alone.
  lemma CellCounts(partner: seq<int>, J: int, c: int)
    requires Involution(partner) && 0 <= c < |partner| && 0 <= J < |FirstOf(partner)|
    ensures Count(Cell(partner, J), c) == if J == NodeOf(partner, c) then 1 else 0
  {
    var a := FirstOf(partner)[J];
    var b := partner[a];
    LeaderNode(partner, |partner|, J);
    LeaderAt(partner, |partner|, if Leads(partner, c) then c else partner[c]);
    assert Cell(partner, J) == if b >= 0 then [a, b] else [a];
    CountPair(a, b, c);
  }

  lemma CountPair(a: int, b: int, c: int)
    ensures Count([a], c) == (if a == c then 1 else 0)
    ensures Count([a, b], c) == (if a == c then 1 else 0) + (if b == c then 1 else 0)
  {
    assert [a][..0] == [];
    assert [a, b][..1] == [a];
  }

  lemma {:induction false} ExpandedCounts(partner: seq<int>, order: seq<int>, c: int)
    requires Involution(partner) && 0 <= c < |partner| && Inside(order, |FirstOf(partner)|)
    ensures Count(Expanded(partner, order), c) == Count(order, NodeOf(partner, c))
    decreases |order|
  {
    if |order| > 0 {
      var init, J := order[..|order| - 1], order[|order| - 1];
      ExpandedCounts(partner, init, c);
      CountSum(Expanded(partner, init), Cell(partner, J), c);
      CellCounts(partner, J, c);
    }
  }

  lemma CellInside(partner: seq<int>, J: int)
    requires Involution(partner)
    ensures Inside(Cell(partner, J), |partner|)
  {
  }

  lemma {:induction false} ExpandedInside(partner: seq<int>, order: seq<int>)
    requires Involution(partner)
    ensures Inside(Expanded(partner, order), |partner|)
    decreases |order|
  {
    if |order| > 0 {
      ExpandedInside(partner, order[..|order| - 1]);
      CellInside(partner, order[|order| - 1]);
    }
  }

  lemma NodeInside(partner: seq<int>, c: int)
    requires Involution(partner) && 0 <= c < |partner|
    ensures 0 <= NodeOf(partner, c) < |FirstOf(partner)|
  {
    LeaderAt(partner, |partner|, if Leads(partner, c) then c else partner[c]);
  }

  /** Any order of the nodes expands to a permutation of all variables. */
  lemma ExpandedPermutes(partner: seq<int>, order: seq<int>)
    requires Involution(partner) && Permutes(order, |FirstOf(partner)|)
    ensures Permutes(Expanded(partner, order), |partner|)
  {
    var out := Expanded(partner, order);
    forall c | 0 <= c < |partner|
      ensures Count(out, c) == 1
    {
      ExpandedCounts(partner, order, c);
      NodeInside(partner, c);
      DistinctCounts(order, NodeOf(partner, c));
      var k := PermutationHits(order, |FirstOf(partner)|, NodeOf(partner, c));
    }
    ExpandedInside(partner, order);
    OnceEach(out, |partner|);
  }

  // c stands at place x of s.
  predicate Stands(s: seq<int>, x: int, c: seq<int>) {
    0 <= x && x + |c| <= |s| && s[x..x + |c|] == c
  }

  lemma StandsLast(a: seq<int>, c: seq<int>)
    ensures Stands(a + c, |a|, c)
  {
  }

  lemma StillStands(a: seq<int>, b: seq<int>, x: int, c: seq<int>)
    requires Stands(a, x, c)
    ensures Stands(a + b, x, c)
  {
  }

  // A node's members stand together wherever the node is.
  lemma {:induction false} CellPlaced(partner: seq<int>, order: seq<int>, k: int) returns (x: int)
    requires 0 <= k < |order|
    ensures Stands(Expanded(partner, order), x, Cell(partner, order[k]))
    decreases |order|
  {
    var init := order[..|order| - 1];
    if k == |init| {
      x := |Expanded(partner, init)|;
      StandsLast(Expanded(partner, init), Cell(partner, order[k]));
    } else {
      x := CellPlaced(partner, init, k);
      StillStands(Expanded(partner, init), Cell(partner, order[|init|]), x, Cell(partner, order[k]));
    }
  }

  /** The members of every pair are adjacent in the expanded order, the smaller first. */
  lemma PairsAdjacent(partner: seq<int>, order: seq<int>, a: int) returns (x: int)
    requires Involution(partner) && Permutes(order, |FirstOf(partner)|)
    requires 0 <= a < |partner| && a < partner[a] < |partner|
    ensures 0 <= x && x + 1 < |Expanded(partner, order)|
    ensures Expanded(partner, order)[x] == a && Expanded(partner, order)[x + 1] == partner[a]
  {
    LeaderAt(partner, |partner|, a);
    var J := NodeOf(partner, a);
    var k := PermutationHits(order, |FirstOf(partner)|, J);
    x := CellPlaced(partner, order, k);
    assert Cell(partner, J) == [a, partner[a]];
    assert Expanded(partner, order)[x..x + 2][0] == a && Expanded(partner, order)[x..x + 2][1] == partner[a];
  }

  // Every pair stands together in the order, the smaller member first.
  ghost predicate PairsTogether(partner: seq<int>, perm: seq<int>) {
    forall a | 0 <= a < |partner| && a < partner[a] < |partner| :: Together(perm, a, partner[a])
  }

  ghost predicate Together(perm: seq<int>, a: int, b: int) {
    exists x :: 0 <= x < |perm| - 1 && perm[x] == a && perm[x + 1] == b
  }

  // ---- what the nodes are ----

  // Two variables share a node exactly when they are partners, and nodes are numbered by
  // their first members.
  ghost predicate NodesMean(partner: seq<int>, nodeOf: seq<int>, n: int) {
    && |nodeOf| == |partner| && Inside(nodeOf, n)
    && (forall i, j | 0 <= i < |partner| && 0 <= j < |partner| :: nodeOf[i] == nodeOf[j] <==> i == j || partner[i] == j)
    && (forall i, j | 0 <= i < j < |partner| && Leads(partner, i) && Leads(partner, j) :: nodeOf[i] < nodeOf[j])
    && forall J | 0 <= J < n :: J in nodeOf
  }

  lemma {:induction false} LeadersNumbered(partner: seq<int>, i: int, j: int)
    requires 0 <= i < j < |partner| && Leads(partner, i)
    ensures |Leaders(partner, i)| < |Leaders(partner, j)|
  {
    LeaderAt(partner, j, i);
  }

  lemma {:induction false} SameNode(partner: seq<int>, i: int, j: int)
    requires Involution(partner) && 0 <= i < |partner| && 0 <= j < |partner|
    ensures NodeOf(partner, i) == NodeOf(partner, j) <==> i == j || partner[i] == j
  {
    var a, b := if Leads(partner, i) then i else partner[i], if Leads(partner, j) then j else partner[j];
    if a < b { LeadersNumbered(partner, a, b); }
    if b < a { LeadersNumbered(partner, b, a); }
  }

  lemma {:induction false} NodesMeaning(partner: seq<int>, nodeOf: seq<int>)
    requires Involution(partner) && NodesTo(partner, nodeOf, |partner|)
    ensures NodesMean(partner, nodeOf, |FirstOf(partner)|)
  {
    var n := |FirstOf(partner)|;
    forall i | 0 <= i < |nodeOf| ensures 0 <= nodeOf[i] < n { NodeInside(partner, i); }
    forall i, j | 0 <= i < |partner| && 0 <= j < |partner|
      ensures nodeOf[i] == nodeOf[j] <==> i == j || partner[i] == j
    {
      SameNode(partner, i, j);
    }
    forall i, j | 0 <= i < j < |partner| && Leads(partner, i) && Leads(partner, j) ensures nodeOf[i] < nodeOf[j] {
      LeadersNumbered(partner, i, j);
    }
    forall J | 0 <= J < n ensures J in nodeOf {
      LeaderNode(partner, |partner|, J);
      assert nodeOf[FirstOf(partner)[J]] == J;
    }
  }

  // ---- members follow their nodes ----

  lemma {:induction false} InCell(partner: seq<int>, J: int, c: int)
    requires Involution(partner) && 0 <= c < |partner| && NodeOf(partner, c) == J
    ensures c in Cell(partner, J)
  {
    NodeInside(partner, c);
    CellCounts(partner, J, c);
    CountAbsent(Cell(partner, J), c);
  }

  lemma {:induction false} InExpanded(partner: seq<int>, order: seq<int>, x: int, c: int)
    requires Involution(partner) && Inside(order, |FirstOf(partner)|) && 0 <= x < |order|
    requires 0 <= c < |partner| && NodeOf(partner, c) == order[x]
    ensures c in Expanded(partner, order)
  {
    ExpandedCounts(partner, order, c);
    CountAbsent(order, order[x]);
    CountAbsent(Expanded(partner, order), c);
  }

  // Members of the x-th node come before those of the y-th.
  lemma {:induction false} NodesInOrder(partner: seq<int>, order: seq<int>, x: int, y: int, i: int, j: int)
    requires Involution(partner) && Inside(order, |FirstOf(partner)|) && 0 <= x < y < |order|
    requires 0 <= i < |partner| && NodeOf(partner, i) == order[x]
    requires 0 <= j < |partner| && NodeOf(partner, j) == order[y]
    ensures Precedes(Expanded(partner, order), i, j)
    decreases |order|
  {
    var init, J := order[..|order| - 1], order[|order| - 1];
    if y < |init| {
      NodesInOrder(partner, init, x, y, i, j);
      PrecedesExtends(Expanded(partner, init), Cell(partner, J), i, j);
    } else {
      InExpanded(partner, init, x, i);
      InCell(partner, J, j);
      PrecedesAcross(Expanded(partner, init), Cell(partner, J), i, j);
    }
  }

  // Every member of an earlier node of the order stands before every member of a later one.
  ghost predicate FollowsNodes(nodeOf: seq<int>, order: seq<int>, perm: seq<int>) {
    forall x, y, i, j | 0 <= x < y < |order| && 0 <= i < |nodeOf| && 0 <= j < |nodeOf| && nodeOf[i] == order[x] && nodeOf[j] == order[y] ::
      Precedes(perm, i, j)
  }

  lemma {:induction false} ExpandedFollows(partner: seq<int>, nodeOf: seq<int>, order: seq<int>)
    requires Involution(partner) && Inside(order, |FirstOf(partner)|) && NodesTo(partner, nodeOf, |partner|)
    ensures FollowsNodes(nodeOf, order, Expanded(partner, order))
  {
    forall x, y, i, j | 0 <= x < y < |order| && 0 <= i < |nodeOf| && 0 <= j < |nodeOf| && nodeOf[i] == order[x] && nodeOf[j] == order[y]
      ensures Precedes(Expanded(partner, order), i, j)
    {
      NodesInOrder(partner, order, x, y, i, j);
    }
  }

  /** The whole order from a matching. The pairs are those of the split of the matching; the
      nodes are the pairs and the other columns, numbered by their first members; the
      variables are permuted, stand in the order the nodes are given, and pairs together. */
  method OrderFrom(sigma: seq<int>, diag: seq<real>, w: seq<real>, tol: real, orderNodes: (seq<int>, nat) -> seq<int>)
      returns (perm: seq<int>, partner: array<int>, ghost trails: seq<seq<int>>, ghost nodes: seq<int>, ghost n: nat)
    requires Matching(sigma) && |diag| == |w| == |sigma|
    requires forall nodeOf, n: nat :: Permutes(orderNodes(nodeOf, n), n)
    ensures Split(sigma, diag, w, tol, trails, partner[..])
    ensures Permutes(perm, |sigma|) && PairsTogether(partner[..], perm)
    ensures NodesMean(partner[..], nodes, n) && FollowsNodes(nodes, orderNodes(nodes, n), perm)
  {
    partner, trails := PairColumns(sigma, diag, w, tol);
    ghost var ps := partner[..];
    SplitIsInvolution(sigma, diag, w, tol, trails, ps);
    var nodeOf, firstOf := BuildNodes(partner[..]);
    var order := orderNodes(nodeOf[..], |firstOf|);
    assert Permutes(order, |firstOf|);
    perm := Expand(partner[..], firstOf, order);
    ExpandedPermutes(ps, order);
    nodes, n := nodeOf[..], |firstOf|;
    NodesMeaning(ps, nodes);
    ExpandedFollows(ps, nodes, order);
    forall a | 0 <= a < |ps| && a < ps[a] < |ps|
      ensures Together(perm, a, ps[a])
    {
      var x := PairsAdjacent(ps, order, a);
    }
  }
}
