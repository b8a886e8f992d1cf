/** Splitting the paths and cycles of a partial matching into 2x2 pivot candidates. */
module MatchingPairs {
  import opened Sequences

  // Column j is matched to row sigma[j] (-1: free), no row twice.
  ghost predicate Matching(sigma: seq<int>) {
    && (forall j | 0 <= j < |sigma| :: -1 <= sigma[j] < |sigma|)
    && (forall i, j | 0 <= i < j < |sigma| && sigma[i] == sigma[j] :: sigma[i] == -1)
  }

  ghost predicate HasPred(sigma: seq<int>, c: int) {
    exists j :: 0 <= j < |sigma| && sigma[j] == c
  }

  predicate Follows(sigma: seq<int>, t: seq<int>, i: int)
    requires 0 < i < |t| && 0 <= t[i - 1] < |sigma|
  {
    t[i] == sigma[t[i - 1]]
  }

  // Columns linked by the matching, in order.
  ghost predicate Chain(sigma: seq<int>, t: seq<int>) {
    && |t| > 0 && Inside(t, |sigma|) && Distinct(t)
    && forall i | 0 < i < |t| :: Follows(sigma, t, i)
  }

  predicate Cycle(sigma: seq<int>, t: seq<int>) {
    |t| > 0 && 0 <= t[|t| - 1] < |sigma| && sigma[t[|t| - 1]] == t[0]
  }

  ghost predicate LeastFirst(t: seq<int>) {
    |t| > 0 && forall i | 0 <= i < |t| :: t[0] <= t[i]
  }

  /** A whole cycle from its smallest column, or a whole open path from its head to its free
      column. */
  ghost predicate Trail(sigma: seq<int>, t: seq<int>) {
    Chain(sigma, t) && ((Cycle(sigma, t) && LeastFirst(t)) || (sigma[t[|t| - 1]] == -1 && !HasPred(sigma, t[0])))
  }

  // ---- where the pairs of a trail start ----

  // Sum of w over the positions of t below k with the given parity.
  function AltSum(t: seq<int>, w: seq<real>, odd: bool, k: int): real
    requires k <= |t| && forall i | 0 <= i < |t| :: 0 <= t[i] < |w|
    decreases k
  {
    if k <= 0 then 0.0
    else AltSum(t, w, odd, k - 1) + (if (k - 1) % 2 == (if odd then 1 else 0) then w[t[k - 1]] else 0.0)
  }

  // First position of the greatest diagonal among the first k.
  function Best(t: seq<int>, diag: seq<real>, k: int): (b: int)
    requires 0 < k <= |t| && forall i | 0 <= i < |t| :: 0 <= t[i] < |diag|
    ensures 0 <= b < k && forall i | 0 <= i < k :: diag[t[i]] <= diag[t[b]]
    ensures forall i | 0 <= i < b :: diag[t[i]] < diag[t[b]]
    decreases k
  {
    if k == 1 then 0
    else
      var b := Best(t, diag, k - 1);
      if diag[t[k - 1]] > diag[t[b]] then k - 1 else b
  }

  function First(sigma: seq<int>, t: seq<int>, diag: seq<real>, w: seq<real>): (f: int)
    requires |t| > 0 && |diag| == |w| == |sigma| && forall i | 0 <= i < |t| :: 0 <= t[i] < |sigma|
    ensures 0 <= f <= |t|
  {
    if |t| < 2 || !Cycle(sigma, t) then 0
    else if |t| % 2 == 0 then (if AltSum(t, w, true, |t|) > AltSum(t, w, false, |t|) then 1 else 0)
    else Best(t, diag, |t|) + 1
  }

  // t read from position f around.
  function Rotated(t: seq<int>, f: int): (r: seq<int>)
    requires |t| > 0 && f >= 0
    ensures |r| == |t| && forall x | 0 <= x < |t| :: r[x] == t[(f + x) % |t|]
  {
    seq(|t|, x requires 0 <= x < |t| => t[(f + x) % |t|])
  }

  lemma Around(k: int, f: int, x: int)
    requires 0 <= f <= k && 0 <= x < k
    ensures (f + x) % k == if f + x < k then f + x else f + x - k
  {
  }

  // Position x of a rotation.
  function Turn(k: int, f: int, x: int): int { if f + x < k then f + x else f + x - k }

  lemma RotatedAt(t: seq<int>, f: int, x: int)
    requires 0 <= f <= |t| && 0 <= x < |t|
    ensures 0 <= Turn(|t|, f, x) < |t| && Rotated(t, f)[x] == t[Turn(|t|, f, x)]
  {
    Around(|t|, f, x);
  }

  lemma RotatedHolds(t: seq<int>, f: int, c: int)
    requires |t| > 0 && 0 <= f <= |t|
    ensures c in Rotated(t, f) <==> c in t
  {
    if c in t {
      var i :| 0 <= i < |t| && t[i] == c;
      var x := if i < f then i - f + |t| else i - f;
      RotatedAt(t, f, x);
    }
  }

  lemma RotatedDistinct(t: seq<int>, f: int)
    requires Distinct(t) && |t| > 0 && 0 <= f <= |t|
    ensures Distinct(Rotated(t, f))
  {
    forall x, y | 0 <= x < y < |t|
      ensures Rotated(t, f)[x] != Rotated(t, f)[y]
    {
      RotatedAt(t, f, x);
      RotatedAt(t, f, y);
      var i, j := Turn(|t|, f, x), Turn(|t|, f, y);
      assert if i < j then t[i] != t[j] else t[j] != t[i];
    }
  }

  // A rotation of a chain is a chain if only cycles are turned.
  lemma RotatedChain(sigma: seq<int>, t: seq<int>, f: int)
    requires Chain(sigma, t) && 0 <= f <= |t| && (f == 0 || Cycle(sigma, t))
    ensures Chain(sigma, Rotated(t, f))
  {
    var r := Rotated(t, f);
    RotatedDistinct(t, f);
    forall x | 0 < x < |t|
      ensures Follows(sigma, r, x)
    {
      RotatedAt(t, f, x);
      RotatedAt(t, f, x - 1);
      var i := Turn(|t|, f, x);
      if i > 0 { assert Follows(sigma, t, i); }
    }
  }

  // ---- the pairs ----

  // The partner of r[x]: its neighbour in the pair, if one of the diagonals is too small.
  function Mate(r: seq<int>, diag: seq<real>, tol: real, x: int): int
    requires 0 <= x < |r| && forall i | 0 <= i < |r| :: 0 <= r[i] < |diag|
  {
    var y := if x % 2 == 0 then x + 1 else x - 1;
    if y < |r| && (diag[r[x]] < tol || diag[r[y]] < tol) then r[y] else -1
  }

  // The first m positions of r have their partners, the others none.
  ghost predicate PairedTo(r: seq<int>, diag: seq<real>, tol: real, partner: seq<int>, m: int) {
    && |partner| == |diag| && Inside(r, |diag|)
    && forall x | 0 <= x < |r| :: PairedAt(r, diag, tol, partner, m, x)
  }

  predicate PairedAt(r: seq<int>, diag: seq<real>, tol: real, partner: seq<int>, m: int, x: int)
    requires 0 <= x < |r| && |partner| == |diag| && forall i | 0 <= i < |r| :: 0 <= r[i] < |diag|
  {
    partner[r[x]] == if x < m then Mate(r, diag, tol, x) else -1
  }

  predicate InSome(trails: seq<seq<int>>, c: int) {
    exists i :: 0 <= i < |trails| && c in trails[i]
  }

  predicate Disjoint(s: seq<int>, t: seq<int>) {
    forall c | c in s :: c !in t
  }

  /** Every trail is split from its own start; every column is in exactly one trail. */
  ghost predicate Split(sigma: seq<int>, diag: seq<real>, w: seq<real>, tol: real, trails: seq<seq<int>>, partner: seq<int>) {
    && |partner| == |diag| == |w| == |sigma|
    && (forall i | 0 <= i < |trails| :: SplitTrail(sigma, diag, w, tol, trails[i], partner))
    && (forall c | 0 <= c < |sigma| :: InSome(trails, c))
    && (forall i, j | 0 <= i < j < |trails| :: Disjoint(trails[i], trails[j]))
  }

  ghost predicate SplitTrail(sigma: seq<int>, diag: seq<real>, w: seq<real>, tol: real, t: seq<int>, partner: seq<int>) {
    && |partner| == |diag| == |w| == |sigma| && Trail(sigma, t)
    && PairedTo(Turned(sigma, t, diag, w), diag, tol, partner, |t|)
  }

  // A trail as it is split into pairs.
  function Turned(sigma: seq<int>, t: seq<int>, diag: seq<real>, w: seq<real>): (r: seq<int>)
    requires |t| > 0 && |diag| == |w| == |sigma| && forall i | 0 <= i < |t| :: 0 <= t[i] < |sigma|
    ensures |r| == |t|
  {
    Rotated(t, First(sigma, t, diag, w))
  }

  lemma TurnedChain(sigma: seq<int>, t: seq<int>, diag: seq<real>, w: seq<real>)
    requires Trail(sigma, t) && |diag| == |w| == |sigma|
    ensures Chain(sigma, Turned(sigma, t, diag, w))
  {
    RotatedChain(sigma, t, First(sigma, t, diag, w));
  }

  // What holds of the partner of position x of a chain.
  lemma MateOf(sigma: seq<int>, r: seq<int>, diag: seq<real>, tol: real, partner: seq<int>, x: int)
    requires Chain(sigma, r) && |diag| == |sigma| && PairedTo(r, diag, tol, partner, |r|) && 0 <= x < |r|
    ensures var y := if x % 2 == 0 then x + 1 else x - 1;
      if partner[r[x]] == -1 then
        if y < |r| then diag[r[x]] >= tol && diag[r[y]] >= tol else |r| % 2 == 1 && x == |r| - 1
      else
        && y < |r| && partner[r[x]] == r[y] && r[y] != r[x] && partner[r[y]] == r[x]
        && (sigma[r[x]] == r[y] || sigma[r[y]] == r[x]) && (diag[r[x]] < tol || diag[r[y]] < tol)
  {
    var y := if x % 2 == 0 then x + 1 else x - 1;
    assert PairedAt(r, diag, tol, partner, |r|, x);
    if y < |r| {
      assert PairedAt(r, diag, tol, partner, |r|, y);
      assert Follows(sigma, r, if x < y then y else x);
    }
  }

  /** The partners are an involution without fixed points, every pair is a matched
      coupling, and one of its diagonals is below the tolerance. */
  lemma PairsInvolute(sigma: seq<int>, diag: seq<real>, w: seq<real>, tol: real, trails: seq<seq<int>>, partner: seq<int>, a: int)
    requires Split(sigma, diag, w, tol, trails, partner) && 0 <= a < |sigma| && partner[a] != -1
    ensures var b := partner[a];
      && 0 <= b < |sigma| && b != a && partner[b] == a
      && (sigma[a] == b || sigma[b] == a)
      && (diag[a] < tol || diag[b] < tol)
  {
    assert InSome(trails, a);
    var i :| 0 <= i < |trails| && a in trails[i];
    assert SplitTrail(sigma, diag, w, tol, trails[i], partner);
    TrailPairs(sigma, diag, w, tol, trails[i], partner, a);
  }

  lemma TrailPairs(sigma: seq<int>, diag: seq<real>, w: seq<real>, tol: real, t: seq<int>, partner: seq<int>, a: int)
    requires SplitTrail(sigma, diag, w, tol, t, partner) && a in t && 0 <= a < |partner| && partner[a] != -1
    ensures var b := partner[a];
      && 0 <= b < |sigma| && b != a && partner[b] == a
      && (sigma[a] == b || sigma[b] == a)
      && (diag[a] < tol || diag[b] < tol)
  {
    TurnedChain(sigma, t, diag, w);
    var r := Turned(sigma, t, diag, w);
    RotatedHolds(t, First(sigma, t, diag, w), a);
    var x :| 0 <= x < |r| && r[x] == a;
    MateOf(sigma, r, diag, tol, partner, x);
  }

  /** Neighbours in a trail stay unpaired only where both diagonals reach the tolerance,
      and only an odd trail leaves a column over. */
  lemma UnpairedWhy(sigma: seq<int>, diag: seq<real>, w: seq<real>, tol: real, t: seq<int>, partner: seq<int>, x: int)
    requires SplitTrail(sigma, diag, w, tol, t, partner) && 0 <= x < |t|
    requires partner[Turned(sigma, t, diag, w)[x]] == -1
    ensures var r := Turned(sigma, t, diag, w); var y := if x % 2 == 0 then x + 1 else x - 1;
      if y < |r| then diag[r[x]] >= tol && diag[r[y]] >= tol else |r| % 2 == 1 && x == |r| - 1
  {
    TurnedChain(sigma, t, diag, w);
    MateOf(sigma, Turned(sigma, t, diag, w), diag, tol, partner, x);
  }

  // ---- the choices ----

  // Sum of w over the columns that lead a pair.
  function LeadSum(r: seq<int>, w: seq<real>, k: int): real
    requires k <= |r| && forall i | 0 <= i < |r| :: 0 <= r[i] < |w|
  {
    AltSum(r, w, false, k)
  }

  lemma {:induction false} TurnedSum(t: seq<int>, w: seq<real>, k: int)
    requires 0 <= k < |t| && forall i | 0 <= i < |t| :: 0 <= t[i] < |w|
    ensures AltSum(Rotated(t, 1), w, false, k) == AltSum(t, w, true, k + 1)
    decreases k
  {
    if k > 0 {
      TurnedSum(t, w, k - 1);
      Around(|t|, 1, k - 1);
    } else {
      assert AltSum(t, w, true, 0) == 0.0;
    }
  }

  // The alternation that starts at position 1 of an even cycle leads with the odd positions.
  lemma OddLeads(t: seq<int>, w: seq<real>)
    requires |t| > 0 && |t| % 2 == 0 && forall i | 0 <= i < |t| :: 0 <= t[i] < |w|
    ensures LeadSum(Rotated(t, 1), w, |t|) == AltSum(t, w, true, |t|)
  {
    TurnedSum(t, w, |t| - 1);
  }

  lemma {:induction false} EvenLeads(t: seq<int>, w: seq<real>, k: int)
    requires 0 <= k <= |t| && |t| > 0 && forall i | 0 <= i < |t| :: 0 <= t[i] < |w|
    ensures LeadSum(Rotated(t, 0), w, k) == AltSum(t, w, false, k)
    decreases k
  {
    if k > 0 {
      EvenLeads(t, w, k - 1);
      Around(|t|, 0, k - 1);
    }
  }

  /** Even cycles take the alternation whose couplings have the greater sum, the first of two
      equal ones. */
  lemma HeavierAlternation(sigma: seq<int>, t: seq<int>, diag: seq<real>, w: seq<real>)
    requires Trail(sigma, t) && Cycle(sigma, t) && |t| % 2 == 0 && |diag| == |w| == |sigma|
    ensures var f := First(sigma, t, diag, w);
      && 0 <= f <= 1
      && (f == 1 <==> LeadSum(Rotated(t, 1), w, |t|) > LeadSum(Rotated(t, 0), w, |t|))
  {
    OddLeads(t, w);
    EvenLeads(t, w, |t|);
  }

  /** Odd cycles leave out the first member with the greatest diagonal. */
  lemma OddLeavesBest(sigma: seq<int>, t: seq<int>, diag: seq<real>, w: seq<real>, c: int)
    requires Trail(sigma, t) && Cycle(sigma, t) && |t| % 2 == 1 && |t| > 1 && |diag| == |w| == |sigma| && c in t
    ensures var r := Turned(sigma, t, diag, w); diag[c] <= diag[r[|r| - 1]]
    ensures var r := Turned(sigma, t, diag, w);
      forall i, b | 0 <= i < b < |t| && t[b] == r[|r| - 1] :: diag[t[i]] < diag[t[b]]
  {
    var k := |t|;
    var b := Best(t, diag, k);
    Around(k, b + 1, k - 1);
    var i :| 0 <= i < k && t[i] == c;
  }

  // ---- walking a trail ----

  // Seen columns are whole trails.
  ghost predicate Closed(sigma: seq<int>, seen: seq<bool>) {
    |seen| == |sigma| && forall c | 0 <= c < |sigma| && 0 <= sigma[c] < |sigma| :: seen[c] == seen[sigma[c]]
  }

  // The last column is not matched back into the middle.
  lemma NotBackInside(sigma: seq<int>, t: seq<int>, i: int)
    requires Matching(sigma) && Chain(sigma, t) && 0 < i < |t|
    ensures sigma[t[|t| - 1]] != t[i]
  {
    assert Follows(sigma, t, i);
    assert t[i - 1] != t[|t| - 1];
  }

  // A walk that cannot go on has reached a free column or closed a cycle.
  lemma WalkEnds(sigma: seq<int>, seen: seq<bool>, t: seq<int>)
    requires Matching(sigma) && Closed(sigma, seen) && Chain(sigma, t) && forall i | 0 <= i < |t| :: !seen[t[i]]
    requires var c := sigma[t[|t| - 1]]; c < 0 || seen[c] || c in t
    ensures sigma[t[|t| - 1]] == -1 || Cycle(sigma, t)
  {
    forall i | 0 < i < |t| ensures sigma[t[|t| - 1]] != t[i] { NotBackInside(sigma, t, i); }
  }

  // Unseen columns below n.
  function Unseen(seen: seq<bool>, n: int): (r: seq<int>)
    requires n <= |seen|
    ensures Distinct(r) && forall c :: c in r <==> 0 <= c < n && !seen[c]
    decreases n
  {
    if n <= 0 then []
    else if seen[n - 1] then Unseen(seen, n - 1)
    else
      DistinctMore(Unseen(seen, n - 1), n - 1);
      Unseen(seen, n - 1) + [n - 1]
  }

  // Columns matched to the listed ones.
  lemma {:induction false} Preds(sigma: seq<int>, cs: seq<int>) returns (ps: seq<int>)
    requires forall c | c in cs :: HasPred(sigma, c)
    ensures |ps| == |cs| && Inside(ps, |sigma|) && forall i | 0 <= i < |cs| :: sigma[ps[i]] == cs[i]
    decreases |cs|
  {
    if |cs| == 0 {
      ps := [];
    } else {
      var last := cs[|cs| - 1];
      assert last in cs;
      var j :| 0 <= j < |sigma| && sigma[j] == last;
      ps := Preds(sigma, cs[..|cs| - 1]);
      ps := ps + [j];
    }
  }

  /** When every column without a predecessor is seen, the unseen ones lie on cycles. */
  lemma OnlyCyclesLeft(sigma: seq<int>, seen: seq<bool>, e: int)
    requires Closed(sigma, seen) && 0 <= e < |sigma| && !seen[e]
    requires forall c | 0 <= c < |sigma| && !seen[c] :: HasPred(sigma, c)
    ensures sigma[e] != -1
  {
    var u := Unseen(seen, |seen|);
    var ps := Preds(sigma, u);
    if sigma[e] == -1 {
      forall i | 0 <= i < |ps| ensures ps[i] in u && ps[i] != e { assert u[i] in u; }
      forall i, j | 0 <= i < j < |ps| ensures ps[i] != ps[j] { assert u[i] != u[j]; }
      assert e !in ps;
      DistinctMore(ps, e);
      FitsInto(ps + [e], u);
    }
  }
}
