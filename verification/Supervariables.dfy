/** Exact compression: vertices with equal closed neighbourhoods share a supervariable. */
module Supervariables {
  import opened Sequences

  // Keys are 64-bit words.
  const WORD: int := 0x1_0000_0000_0000_0000

  ghost predicate Ranged(rows: seq<seq<int>>) {
    forall v | 0 <= v < |rows| :: Inside(rows[v], |rows|)
  }

  // x is v or a neighbour of v.
  predicate Closed(rows: seq<seq<int>>, v: int, x: int) {
    0 <= v < |rows| && (x == v || x in rows[v])
  }

  ghost predicate SameNeighbourhood(rows: seq<seq<int>>, i: int, j: int) {
    forall x :: Closed(rows, i, x) <==> Closed(rows, j, x)
  }

  /** Symmetric adjacency without self loops or repeated entries. */
  ghost predicate Simple(rows: seq<seq<int>>) {
    && Ranged(rows)
    && (forall v | 0 <= v < |rows| :: v !in rows[v] && Distinct(rows[v]))
    && (forall v, u | 0 <= v < |rows| && 0 <= u < |rows| :: u in rows[v] <==> v in rows[u])
  }

  // Symmetric, without self loops, entries possibly repeated.
  ghost predicate Symmetric(rows: seq<seq<int>>) {
    && Ranged(rows) && (forall v | 0 <= v < |rows| :: v !in rows[v])
    && forall v, u | 0 <= v < |rows| && 0 <= u < |rows| :: u in rows[v] <==> v in rows[u]
  }

  // ---- what the algorithm does ----

  function Sum(row: seq<int>): int {
    if |row| == 0 then 0 else Sum(row[..|row| - 1]) + row[|row| - 1]
  }

  function Key(rows: seq<seq<int>>, v: int): int
    requires 0 <= v < |rows|
  {
    (v + Sum(rows[v])) % WORD
  }

  // Neighbour j of i joins i: later, still free, equal key and degree, covered by i.
  predicate Joins(rows: seq<seq<int>>, i: int, j: int, rep: seq<int>)
    requires 0 <= i < |rows|
  {
    && i < j < |rows| && |rep| == |rows| && rep[j] < 0
    && Key(rows, j) == Key(rows, i) && |rows[j]| == |rows[i]|
    && forall q | 0 <= q < |rows[j]| :: Closed(rows, i, rows[j][q])
  }

  // Representatives after the first p neighbours of i are tried.
  function Adopt(rows: seq<seq<int>>, i: int, p: int, rep: seq<int>): (r: seq<int>)
    requires 0 <= i < |rows| && p <= |rows[i]|
    ensures |r| == |rep|
    decreases p
  {
    if p <= 0 then rep
    else
      var before, j := Adopt(rows, i, p - 1, rep), rows[i][p - 1];
      if Joins(rows, i, j, before) then before[j := i] else before
  }

  // Representatives after the first k vertices.
  function Reps(rows: seq<seq<int>>, k: int): (r: seq<int>)
    requires k <= |rows|
    ensures |r| == |rows|
    decreases k
  {
    if k <= 0 then seq(|rows|, v => -1)
    else
      var before, i := Reps(rows, k - 1), k - 1;
      if before[i] >= 0 then before else Adopt(rows, i, |rows[i]|, before[i := i])
  }

  // Representatives below k.
  function Leaders(rep: seq<int>, k: int): nat
    requires k <= |rep|
    decreases k
  {
    if k <= 0 then 0 else Leaders(rep, k - 1) + (if rep[k - 1] == k - 1 then 1 else 0)
  }

  // ---- every vertex gets a representative ----

  // The first k vertices are placed under themselves or an earlier leader.
  ghost predicate Placed(rep: seq<int>, k: int) {
    && 0 <= k <= |rep|
    && (forall v | 0 <= v < k :: rep[v] >= 0)
    && (forall v | 0 <= v < |rep| && rep[v] >= 0 :: rep[v] <= v && rep[v] < k && rep[rep[v]] == rep[v])
  }

  lemma {:induction false} AdoptPlaces(rows: seq<seq<int>>, i: int, p: int, rep: seq<int>)
    requires 0 <= i < |rows| == |rep| && 0 <= p <= |rows[i]| && rep[i] == i && Placed(rep, i + 1)
    ensures var r := Adopt(rows, i, p, rep); Placed(r, i + 1) && r[i] == i
    decreases p
  {
    if p > 0 { AdoptPlaces(rows, i, p - 1, rep); }
  }

  lemma {:induction false} RepsPlace(rows: seq<seq<int>>, k: int)
    requires 0 <= k <= |rows|
    ensures Placed(Reps(rows, k), k)
    decreases k
  {
    if k > 0 {
      RepsPlace(rows, k - 1);
      var before, i := Reps(rows, k - 1), k - 1;
      if before[i] < 0 { AdoptPlaces(rows, i, |rows[i]|, before[i := i]); }
    }
  }

  // ---- equal neighbourhoods have equal keys ----

  // Everything in s is in t.
  ghost predicate Covers(t: seq<int>, s: seq<int>) {
    forall x | x in s :: x in t
  }

  lemma {:induction false} Without(t: seq<int>, x: int) returns (u: seq<int>)
    requires Distinct(t) && x in t
    ensures |u| == |t| - 1 && Distinct(u) && Sum(u) == Sum(t) - x
    ensures forall y :: y in u <==> y in t && y != x
    decreases |t|
  {
    var init, last := t[..|t| - 1], t[|t| - 1];
    assert t == init + [last];
    if last == x {
      u := init;
    } else {
      var w := Without(init, x);
      SumLast(w, last);
      assert last !in init;
      DistinctMore(w, last);
      u := w + [last];
    }
  }

  // Distinct lists of one length, one covered by the other, hold the same and sum the same.
  lemma {:induction false} CoveredIsEqual(s: seq<int>, t: seq<int>)
    requires Distinct(s) && Distinct(t) && Covers(t, s) && |s| >= |t|
    ensures |s| == |t| && Covers(s, t) && Sum(s) == Sum(t)
    decreases |s|
  {
    if |s| > 0 {
      var init, x := s[..|s| - 1], s[|s| - 1];
      assert s == init + [x];
      var u := Without(t, x);
      CoveredIsEqual(init, u);
    }
  }

  lemma SameKey(rows: seq<seq<int>>, i: int, j: int)
    requires Simple(rows) && 0 <= i < |rows| && 0 <= j < |rows| && SameNeighbourhood(rows, i, j)
    ensures |rows[i]| == |rows[j]| && Key(rows, i) == Key(rows, j)
  {
    var s, t := rows[i] + [i], rows[j] + [j];
    forall x ensures x in s <==> x in t { assert Closed(rows, i, x) <==> Closed(rows, j, x); }
    if |s| >= |t| { CoveredIsEqual(s, t); } else { CoveredIsEqual(t, s); }
    SumLast(rows[i], i);
    SumLast(rows[j], j);
  }

  lemma SumLast(s: seq<int>, x: int)
    ensures Sum(s + [x]) == Sum(s) + x
  {
    assert (s + [x])[..|s|] == s;
  }

  // Covered with equal degree: the same neighbourhood.
  lemma CoveredIsSame(rows: seq<seq<int>>, i: int, j: int)
    requires Simple(rows) && 0 <= i < |rows| && 0 <= j < |rows| && j in rows[i] && |rows[j]| == |rows[i]|
    requires forall q | 0 <= q < |rows[j]| :: Closed(rows, i, rows[j][q])
    ensures SameNeighbourhood(rows, i, j)
  {
    var s, t := rows[j] + [j], rows[i] + [i];
    assert Covers(t, s);
    CoveredIsEqual(s, t);
    forall x
      ensures Closed(rows, i, x) <==> Closed(rows, j, x)
    {
      assert x in t <==> x in s;
    }
  }

  // ---- when the tests tell neighbourhoods apart ----

  // i is the least vertex with its closed neighbourhood.
  ghost predicate First(rows: seq<seq<int>>, i: int) {
    forall u | 0 <= u < i :: !SameNeighbourhood(rows, u, i)
  }

  // No vertex below i has j's closed neighbourhood.
  ghost predicate NoneBelow(rows: seq<seq<int>>, i: int, j: int) {
    forall u | 0 <= u < i :: !SameNeighbourhood(rows, u, j)
  }

  // The tests of a free neighbour: degree, key, and coverage by i's marks.
  ghost predicate Passes(rows: seq<seq<int>>, i: int, j: int)
    requires 0 <= i < |rows| && 0 <= j < |rows|
  {
    && |rows[j]| == |rows[i]| && Key(rows, j) == Key(rows, i)
    && forall q | 0 <= q < |rows[j]| :: Closed(rows, i, rows[j][q])
  }

  /** Neighbours i < j: equal neighbourhoods have equal degrees and keys, and a neighbour
      that passes the tests of a first vertex, unlike all vertices before it, is like it. */
  ghost predicate TestRight(rows: seq<seq<int>>, i: int, j: int)
    requires 0 <= i < |rows| && 0 <= j < |rows|
  {
    && (SameNeighbourhood(rows, i, j) ==> |rows[i]| == |rows[j]| && Key(rows, i) == Key(rows, j))
    && (First(rows, i) && NoneBelow(rows, i, j) && Passes(rows, i, j) ==> SameNeighbourhood(rows, i, j))
  }

  ghost predicate TestsRight(rows: seq<seq<int>>) {
    forall i, j | 0 <= i < j < |rows| && j in rows[i] :: TestRight(rows, i, j)
  }

  /** On symmetric lists without repetition the tests are right. */
  lemma SimpleTestsRight(rows: seq<seq<int>>)
    requires Simple(rows)
    ensures TestsRight(rows)
  {
    forall i, j | 0 <= i < j < |rows| && j in rows[i]
      ensures TestRight(rows, i, j)
    {
      if SameNeighbourhood(rows, i, j) { SameKey(rows, i, j); }
      if Passes(rows, i, j) { CoveredIsSame(rows, i, j); }
    }
  }

  // ---- exactness ----

  // Placed vertices have their leader's neighbourhood; vertices like an earlier one are placed.
  ghost predicate Exact(rows: seq<seq<int>>, rep: seq<int>, k: int) {
    && |rep| == |rows|
    && (forall v | 0 <= v < |rows| && rep[v] >= 0 :: SameNeighbourhood(rows, rep[v], v))
    && (forall u, v | 0 <= u < k && u <= v < |rows| && SameNeighbourhood(rows, u, v) :: rep[v] >= 0)
    && (forall u, v | 0 <= u < v < |rows| && SameNeighbourhood(rows, u, v) :: rep[v] != v)
  }

  // While i's neighbours are tried.
  ghost predicate Adopting(rows: seq<seq<int>>, i: int, p: int, rep: seq<int>) {
    && 0 <= i < |rows| == |rep| && 0 <= p <= |rows[i]|
    && (forall v | 0 <= v < |rows| && rep[v] >= 0 :: SameNeighbourhood(rows, rep[v], v))
    && (forall u, v | 0 <= u < i && u <= v < |rows| && SameNeighbourhood(rows, u, v) :: rep[v] >= 0)
    && (forall u, v | 0 <= u < v < |rows| && SameNeighbourhood(rows, u, v) :: rep[v] != v)
    && (forall q | 0 <= q < p && i < rows[i][q] < |rows| && SameNeighbourhood(rows, i, rows[i][q]) :: rep[rows[i][q]] >= 0)
  }

  // A free vertex is unlike every earlier leader.
  lemma FreeIsNew(rows: seq<seq<int>>, rep: seq<int>, i: int)
    requires Exact(rows, rep, i) && 0 <= i < |rows| && rep[i] < 0
    ensures forall u | 0 <= u < i :: !SameNeighbourhood(rows, u, i)
  {
  }

  lemma {:induction false} AdoptExact(rows: seq<seq<int>>, i: int, p: int, rep: seq<int>)
    requires TestsRight(rows) && 0 <= i < |rows| && 0 <= p <= |rows[i]| && Adopting(rows, i, 0, rep) && First(rows, i)
    ensures Adopting(rows, i, p, Adopt(rows, i, p, rep))
    decreases p
  {
    if p > 0 {
      AdoptExact(rows, i, p - 1, rep);
      var before, j := Adopt(rows, i, p - 1, rep), rows[i][p - 1];
      if Joins(rows, i, j, before) {
        JoinsRight(rows, i, p, before);
        JoinedExact(rows, i, p, before);
      } else {
        RefusedExact(rows, i, p, before);
      }
    }
  }

  lemma JoinsRight(rows: seq<seq<int>>, i: int, p: int, before: seq<int>)
    requires TestsRight(rows) && 0 <= i < |rows| && 0 < p <= |rows[i]| && Adopting(rows, i, p - 1, before) && First(rows, i)
    requires Joins(rows, i, rows[i][p - 1], before)
    ensures SameNeighbourhood(rows, i, rows[i][p - 1])
  {
    var j := rows[i][p - 1];
    assert j in rows[i] && TestRight(rows, i, j);
    assert NoneBelow(rows, i, j) && Passes(rows, i, j);
  }

  lemma RefusedExact(rows: seq<seq<int>>, i: int, p: int, before: seq<int>)
    requires TestsRight(rows) && 0 <= i < |rows| && 0 < p <= |rows[i]| && Adopting(rows, i, p - 1, before)
    requires !Joins(rows, i, rows[i][p - 1], before)
    ensures Adopting(rows, i, p, before)
  {
    var j := rows[i][p - 1];
    if i < j < |rows| && SameNeighbourhood(rows, i, j) {
      assert j in rows[i] && TestRight(rows, i, j);
      forall q | 0 <= q < |rows[j]|
        ensures Closed(rows, i, rows[j][q])
      {
        assert Closed(rows, j, rows[j][q]);
      }
    }
  }

  lemma JoinedExact(rows: seq<seq<int>>, i: int, p: int, before: seq<int>)
    requires 0 <= i < |rows| && 0 < p <= |rows[i]| && Adopting(rows, i, p - 1, before)
    requires Joins(rows, i, rows[i][p - 1], before) && SameNeighbourhood(rows, i, rows[i][p - 1])
    ensures Adopting(rows, i, p, before[rows[i][p - 1] := i])
  {
  }

  // Vertices like i are neighbours of i.
  lemma LikeIsNeighbour(rows: seq<seq<int>>, i: int, v: int)
    requires SameNeighbourhood(rows, i, v) && 0 <= i < |rows| && 0 <= v < |rows| && i != v
    ensures v in rows[i]
  {
    assert Closed(rows, v, v);
  }

  // A leader that tried all its neighbours has placed every vertex like it.
  lemma LeaderTried(rows: seq<seq<int>>, i: int, rep: seq<int>)
    requires Ranged(rows) && 0 <= i < |rows| && Adopting(rows, i, |rows[i]|, rep) && rep[i] == i
    ensures Exact(rows, rep, i + 1)
  {
    forall v | i <= v < |rows| && SameNeighbourhood(rows, i, v)
      ensures rep[v] >= 0
    {
      if v > i {
        LikeIsNeighbour(rows, i, v);
        var q :| 0 <= q < |rows[i]| && rows[i][q] == v;
      }
    }
  }

  lemma LeaderStarts(rows: seq<seq<int>>, i: int, rep: seq<int>)
    requires Exact(rows, rep, i) && 0 <= i < |rows| && rep[i] < 0
    ensures Adopting(rows, i, 0, rep[i := i])
  {
    FreeIsNew(rows, rep, i);
  }

  lemma {:induction false} RepsExact(rows: seq<seq<int>>, k: int)
    requires Ranged(rows) && TestsRight(rows) && 0 <= k <= |rows|
    ensures Exact(rows, Reps(rows, k), k)
    decreases k
  {
    if k > 0 {
      var before, i := Reps(rows, k - 1), k - 1;
      RepsExact(rows, i);
      RepsPlace(rows, i);
      if before[i] < 0 {
        LeaderStarts(rows, i, before);
        FreeIsNew(rows, before, i);
        AdoptPlaces(rows, i, |rows[i]|, before[i := i]);
        AdoptExact(rows, i, |rows[i]|, before[i := i]);
        LeaderTried(rows, i, Reps(rows, k));
      } else {
        SameAsLeader(rows, before, i);
      }
    }
  }

  lemma SameAsLeader(rows: seq<seq<int>>, rep: seq<int>, i: int)
    requires Exact(rows, rep, i) && Placed(rep, i) && 0 <= i < |rows| && rep[i] >= 0
    ensures Exact(rows, rep, i + 1)
  {
    var l := rep[i];
    forall v | i <= v < |rows| && SameNeighbourhood(rows, i, v)
      ensures rep[v] >= 0
    {
      assert SameNeighbourhood(rows, l, i);
      assert SameNeighbourhood(rows, l, v);
    }
  }

  // ---- the supervariables ----

  // Supervariables are the leaders' numbers.
  ghost predicate Numbered(rep: seq<int>, superOf: seq<int>, ns: int) {
    && Placed(rep, |rep|) && |superOf| == |rep| && ns == Leaders(rep, |rep|)
    && forall v {:trigger superOf[v]} | 0 <= v < |rep| :: superOf[v] == Leaders(rep, rep[v])
  }

  lemma NumberInRange(rep: seq<int>, superOf: seq<int>, ns: int, v: int)
    requires Numbered(rep, superOf, ns) && 0 <= v < |rep|
    ensures 0 <= superOf[v] < ns
  {
    var l := rep[v];
    assert rep[l] == l;
    LeadersGrow(rep, l, |rep|);
  }

  lemma {:induction false} LeadersGrow(rep: seq<int>, a: int, b: int)
    requires 0 <= a <= b <= |rep|
    ensures Leaders(rep, a) <= Leaders(rep, b)
    ensures a < b && rep[a] == a ==> Leaders(rep, a) < Leaders(rep, b)
    decreases b
  {
    if a < b { LeadersGrow(rep, a, b - 1); }
  }

  lemma {:induction false} LeaderNumbered(rep: seq<int>, k: int, s: int) returns (v: int)
    requires 0 <= k <= |rep| && 0 <= s < Leaders(rep, k)
    ensures 0 <= v < k && rep[v] == v && Leaders(rep, v) == s
    decreases k
  {
    if s < Leaders(rep, k - 1) { v := LeaderNumbered(rep, k - 1, s); } else { v := k - 1; }
  }

  // The least vertex with v's neighbourhood.
  ghost predicate Least(rows: seq<seq<int>>, l: int, v: int) {
    0 <= l < |rows| && SameNeighbourhood(rows, l, v) && forall u | 0 <= u < l :: !SameNeighbourhood(rows, u, v)
  }

  lemma LeaderIsLeast(rows: seq<seq<int>>, rep: seq<int>, v: int)
    requires Exact(rows, rep, |rows|) && Placed(rep, |rows|) && 0 <= v < |rows|
    ensures Least(rows, rep[v], v)
  {
    var l := rep[v];
    forall u | 0 <= u < l
      ensures !SameNeighbourhood(rows, u, v)
    {
      assert rep[l] == l && SameNeighbourhood(rows, l, v);
      if SameNeighbourhood(rows, u, v) { assert SameNeighbourhood(rows, u, l); }
    }
  }

  /** Where the tests are right, as on symmetric lists without repetition, two vertices share
      a supervariable exactly when their closed neighbourhoods are equal, and supervariables
      are numbered by their smallest members. */
  lemma CompressionIsExact(rows: seq<seq<int>>, superOf: seq<int>, ns: int, u: int, v: int, l: int, m: int)
    requires Ranged(rows) && TestsRight(rows) && Numbered(Reps(rows, |rows|), superOf, ns)
    requires 0 <= u < |rows| && 0 <= v < |rows| && Least(rows, l, u) && Least(rows, m, v)
    ensures 0 <= superOf[u] < ns
    ensures superOf[u] == superOf[v] <==> SameNeighbourhood(rows, u, v)
    ensures superOf[u] < superOf[v] <==> l < m
  {
    var rep := Reps(rows, |rows|);
    RepsExact(rows, |rows|);
    LeaderIsLeast(rows, rep, u);
    LeaderIsLeast(rows, rep, v);
    OneLeast(rows, l, u, rep[u], u);
    OneLeast(rows, m, v, rep[v], v);
    LeadersGrow(rep, l, |rep|);
    if l < m { LeadersGrow(rep, l, m); } else { LeadersGrow(rep, m, l); }
    if SameNeighbourhood(rows, u, v) { OneLeast(rows, l, u, m, v); }
    assert l == m ==> SameNeighbourhood(rows, l, u) && SameNeighbourhood(rows, l, v);
  }

  lemma OneLeast(rows: seq<seq<int>>, a: int, v: int, b: int, w: int)
    requires Least(rows, a, v) && Least(rows, b, w) && SameNeighbourhood(rows, v, w)
    ensures a == b
  {
    assert SameNeighbourhood(rows, a, w) && SameNeighbourhood(rows, b, v);
  }

  /** Every supervariable number is used. */
  lemma EveryNumberUsed(rows: seq<seq<int>>, superOf: seq<int>, ns: int, s: int) returns (v: int)
    requires Numbered(Reps(rows, |rows|), superOf, ns) && 0 <= s < ns
    ensures 0 <= v < |rows| && superOf[v] == s
  {
    v := LeaderNumbered(Reps(rows, |rows|), |rows|, s);
  }

  // ---- the tests are all there is ----

  lemma {:induction false} AdoptKeys(rows: seq<seq<int>>, i: int, p: int, rep: seq<int>)
    requires 0 <= i < |rows| == |rep| && 0 <= p <= |rows[i]| && rep[i] == i && KeysAgree(rows, rep)
    ensures KeysAgree(rows, Adopt(rows, i, p, rep))
    decreases p
  {
    if p > 0 { AdoptKeys(rows, i, p - 1, rep); }
  }

  // A placed vertex has its leader's degree and key.
  ghost predicate KeysAgree(rows: seq<seq<int>>, rep: seq<int>) {
    |rep| == |rows| && forall v | 0 <= v < |rows| && 0 <= rep[v] < |rows| ::
      |rows[rep[v]]| == |rows[v]| && Key(rows, rep[v]) == Key(rows, v)
  }

  lemma {:induction false} RepsKeys(rows: seq<seq<int>>, k: int)
    requires 0 <= k <= |rows|
    ensures KeysAgree(rows, Reps(rows, k))
    decreases k
  {
    if k > 0 {
      RepsKeys(rows, k - 1);
      var before, i := Reps(rows, k - 1), k - 1;
      if before[i] < 0 { AdoptKeys(rows, i, |rows[i]|, before[i := i]); }
    }
  }

  // A placed vertex stays placed.
  lemma {:induction false} AdoptStays(rows: seq<seq<int>>, i: int, p: int, rep: seq<int>, v: int)
    requires 0 <= i < |rows| == |rep| && 0 <= p <= |rows[i]| && 0 <= v < |rows| && rep[v] >= 0
    ensures Adopt(rows, i, p, rep)[v] == rep[v]
    decreases p
  {
    if p > 0 { AdoptStays(rows, i, p - 1, rep, v); }
  }

  lemma {:induction false} RepsStay(rows: seq<seq<int>>, k: int, k': int, v: int)
    requires 0 <= k <= k' <= |rows| && 0 <= v < |rows| && Reps(rows, k)[v] >= 0
    ensures Reps(rows, k')[v] == Reps(rows, k)[v]
    decreases k'
  {
    if k < k' {
      RepsStay(rows, k, k' - 1, v);
      var before, i := Reps(rows, k' - 1), k' - 1;
      if before[i] < 0 { AdoptStays(rows, i, |rows[i]|, before[i := i], v); }
    }
  }

  // A free neighbour that passes joins.
  lemma {:induction false} PassingJoins(rows: seq<seq<int>>, i: int, p: int, rep: seq<int>, j: int)
    requires 0 <= i < j < |rows| == |rep| && 0 <= p <= |rows[i]| && rep[j] < 0 && Passes(rows, i, j)
    ensures var r := Adopt(rows, i, p, rep); (r[j] < 0 || r[j] == i) && (j in rows[i][..p] ==> r[j] == i)
    decreases p
  {
    if p > 0 {
      PassingJoins(rows, i, p - 1, rep, j);
      assert rows[i][..p] == rows[i][..p - 1] + [rows[i][p - 1]];
    }
  }

  // Vertices share a representative exactly when their neighbourhoods are equal.
  ghost predicate Tells(rows: seq<seq<int>>, rep: seq<int>) {
    |rep| == |rows| && forall u, v | 0 <= u < |rows| && 0 <= v < |rows| :: Told(rows, rep, u, v)
  }

  ghost predicate Told(rows: seq<seq<int>>, rep: seq<int>, u: int, v: int)
    requires 0 <= u < |rep| && 0 <= v < |rep|
  {
    rep[u] == rep[v] <==> SameNeighbourhood(rows, u, v)
  }

  lemma PlacedAt(rep: seq<int>, k: int, v: int)
    requires Placed(rep, k) && 0 <= v < |rep| && rep[v] >= 0
    ensures rep[v] <= v && rep[v] < k && rep[rep[v]] == rep[v]
  {
  }

  // Where vertex v is placed once the first k vertices led.
  lemma {:induction false} RepAt(rows: seq<seq<int>>, k: int, v: int)
    requires 0 <= k <= |rows| && 0 <= v < |rows|
    ensures var l := Reps(rows, k)[v]; (v < k ==> l >= 0) && (l >= 0 ==> l <= v && l < k && Reps(rows, k)[l] == l)
  {
    RepsPlace(rows, k);
    if Reps(rows, k)[v] >= 0 { PlacedAt(Reps(rows, k), k, v); }
  }

  // When the numbering is exact every vertex is like its representative.
  lemma {:induction false} LikeRep(rows: seq<seq<int>>, v: int)
    requires Tells(rows, Reps(rows, |rows|)) && 0 <= v < |rows|
    ensures 0 <= Reps(rows, |rows|)[v] <= v && SameNeighbourhood(rows, Reps(rows, |rows|)[v], v)
  {
    var rep := Reps(rows, |rows|);
    RepAt(rows, |rows|, v);
    assert Told(rows, rep, rep[v], v);
  }

  // Then a first vertex leads itself.
  lemma {:induction false} FirstLeads(rows: seq<seq<int>>, i: int)
    requires Tells(rows, Reps(rows, |rows|)) && 0 <= i < |rows| && First(rows, i)
    ensures Reps(rows, i)[i] < 0 && Reps(rows, |rows|)[i] == i
  {
    LikeRep(rows, i);
    RepAt(rows, i, i);
    if Reps(rows, i)[i] >= 0 { RepsStay(rows, i, |rows|, i); }
  }

  // And a vertex unlike all before i is free when i comes.
  lemma {:induction false} UnlikeIsFree(rows: seq<seq<int>>, i: int, j: int)
    requires Tells(rows, Reps(rows, |rows|)) && 0 <= i < j < |rows| && NoneBelow(rows, i, j)
    ensures Reps(rows, i)[j] < 0
  {
    LikeRep(rows, j);
    RepAt(rows, i, j);
    if Reps(rows, i)[j] >= 0 { RepsStay(rows, i, |rows|, j); }
  }

  lemma {:induction false} PassingIsLike(rows: seq<seq<int>>, i: int, j: int)
    requires Tells(rows, Reps(rows, |rows|)) && 0 <= i < j < |rows| && j in rows[i]
    requires First(rows, i) && NoneBelow(rows, i, j) && Passes(rows, i, j)
    ensures SameNeighbourhood(rows, i, j)
  {
    var before := Reps(rows, i);
    FirstLeads(rows, i);
    UnlikeIsFree(rows, i, j);
    PassingJoins(rows, i, |rows[i]|, before[i := i], j);
    assert rows[i][..|rows[i]|] == rows[i];
    assert Reps(rows, i + 1) == Adopt(rows, i, |rows[i]|, before[i := i]);
    RepsStay(rows, i + 1, |rows|, j);
    assert Told(rows, Reps(rows, |rows|), i, j);
  }

  lemma {:induction false} LikeHaveKeys(rows: seq<seq<int>>, i: int, j: int)
    requires Tells(rows, Reps(rows, |rows|)) && 0 <= i < |rows| && 0 <= j < |rows| && SameNeighbourhood(rows, i, j)
    ensures |rows[i]| == |rows[j]| && Key(rows, i) == Key(rows, j)
  {
    RepsKeys(rows, |rows|);
    LikeRep(rows, i);
    LikeRep(rows, j);
    assert Told(rows, Reps(rows, |rows|), i, j);
  }

  lemma {:induction false} ExactTestsRight(rows: seq<seq<int>>)
    requires Tells(rows, Reps(rows, |rows|))
    ensures TestsRight(rows)
  {
    forall i, j | 0 <= i < j < |rows| && j in rows[i]
      ensures TestRight(rows, i, j)
    {
      if First(rows, i) && NoneBelow(rows, i, j) && Passes(rows, i, j) { PassingIsLike(rows, i, j); }
      if SameNeighbourhood(rows, i, j) { LikeHaveKeys(rows, i, j); }
    }
  }

  // Equal numbers are equal representatives.
  lemma {:induction false} SameNumber(rep: seq<int>, superOf: seq<int>, ns: int, u: int, v: int)
    requires Numbered(rep, superOf, ns) && 0 <= u < |rep| && 0 <= v < |rep|
    ensures superOf[u] == superOf[v] <==> rep[u] == rep[v]
  {
    var l, m := rep[u], rep[v];
    assert rep[l] == l && rep[m] == m;
    if l < m { LeadersGrow(rep, l, m); } else { LeadersGrow(rep, m, l); }
  }

  ghost predicate ExactNumbering(rows: seq<seq<int>>, superOf: seq<int>) {
    |superOf| == |rows| && forall u, v | 0 <= u < |rows| && 0 <= v < |rows| :: superOf[u] == superOf[v] <==> SameNeighbourhood(rows, u, v)
  }

  /** On any lists, repeated entries or not: the numbering is exact if and only if the
      tests are right. */
  lemma {:induction false} ExactIff(rows: seq<seq<int>>, superOf: seq<int>, ns: int)
    requires Ranged(rows) && Numbered(Reps(rows, |rows|), superOf, ns)
    ensures ExactNumbering(rows, superOf) <==> TestsRight(rows)
  {
    var rep := Reps(rows, |rows|);
    if TestsRight(rows) {
      RepsExact(rows, |rows|);
      forall u, v | 0 <= u < |rows| && 0 <= v < |rows|
        ensures superOf[u] == superOf[v] <==> SameNeighbourhood(rows, u, v)
      {
        LeaderIsLeast(rows, rep, u);
        LeaderIsLeast(rows, rep, v);
        CompressionIsExact(rows, superOf, ns, u, v, rep[u], rep[v]);
      }
    }
    if ExactNumbering(rows, superOf) {
      forall u, v | 0 <= u < |rows| && 0 <= v < |rows| ensures Told(rows, rep, u, v) { SameNumber(rep, superOf, ns, u, v); }
      ExactTestsRight(rows);
    }
  }

  // ---- repeated entries ----

  /** A repeated entry can hide an equal neighbourhood: keys and degrees count it. */
  lemma RepetitionHidesEquals(superOf: seq<int>, ns: int)
    requires Numbered(Reps([[1, 1], [0, 0]], 2), superOf, ns)
    ensures Symmetric([[1, 1], [0, 0]]) && SameNeighbourhood([[1, 1], [0, 0]], 0, 1) && superOf[0] != superOf[1]
  {
    var rows := [[1, 1], [0, 0]];
    assert Sum([1, 1]) == 2 by { assert [1, 1][..1] == [1]; assert [1][..0] == []; }
    assert Sum([0, 0]) == 0 by { assert [0, 0][..1] == [0]; assert [0][..0] == []; }
    assert Reps(rows, 0) == [-1, -1];
    var r0 := [0, -1];
    assert Reps(rows, 0)[0 := 0] == r0;
    assert !Joins(rows, 0, 1, r0);
    assert Adopt(rows, 0, 1, r0) == r0 && Adopt(rows, 0, 2, r0) == r0;
    assert Reps(rows, 1) == r0;
    var r1 := [0, 1];
    assert Adopt(rows, 1, 1, r1) == r1 && Adopt(rows, 1, 2, r1) == r1;
    assert Reps(rows, 2) == r1;
  }

  const MERGING := [[1], [3, 3, 2, 0], [3, 3, 1], [1, 1, 2, 2]]

  lemma SumMore(s: seq<int>, x: int, total: int)
    requires Sum(s) == total
    ensures Sum(s + [x]) == total + x
  {
    SumLast(s, x);
  }

  lemma MergingKeys()
    ensures Key(MERGING, 0) == 1 && Key(MERGING, 1) == 9 && Key(MERGING, 2) == 9 && Key(MERGING, 3) == 9
  {
    SumMore([], 1, 0);
    SumMore([1], 1, 1);
    SumMore([1, 1], 2, 2);
    SumMore([1, 1, 2], 2, 4);
    SumMore([], 3, 0);
    SumMore([3], 3, 3);
    SumMore([3, 3], 1, 6);
    SumMore([3, 3], 2, 6);
    SumMore([3, 3, 2], 0, 8);
    assert [] + [1] == [1] && [1] + [1] == [1, 1] && [1, 1] + [2] == [1, 1, 2] && [1, 1, 2] + [2] == [1, 1, 2, 2];
    assert [] + [3] == [3] && [3] + [3] == [3, 3] && [3, 3] + [1] == [3, 3, 1];
    assert [3, 3] + [2] == [3, 3, 2] && [3, 3, 2] + [0] == [3, 3, 2, 0];
  }

  lemma {:induction false} MergingFirst()
    ensures Reps(MERGING, 1) == [0, -1, -1, -1]
  {
    var rows, r0 := MERGING, [0, -1, -1, -1];
    MergingKeys();
    assert Reps(rows, 0) == [-1, -1, -1, -1];
    assert Reps(rows, 0)[0 := 0] == r0;
    assert Adopt(rows, 0, 0, r0) == r0 && !Joins(rows, 0, 1, r0);
    assert Adopt(rows, 0, 1, r0) == r0;
  }

  // Vertex 1 adopts vertex 3.
  lemma {:induction false} MergingSecond()
    ensures Adopt(MERGING, 1, 4, [0, 1, -1, -1]) == [0, 1, -1, 1]
  {
    var rows, r, r1 := MERGING, [0, 1, -1, -1], [0, 1, -1, 1];
    MergingKeys();
    assert Adopt(rows, 1, 0, r) == r;
    assert Joins(rows, 1, 3, r);
    assert r[3 := 1] == r1 && Adopt(rows, 1, 1, r) == r1;
    assert Adopt(rows, 1, 2, r) == r1;
    assert Adopt(rows, 1, 3, r) == r1;
  }

  /** Repeated entries can also merge unequal neighbourhoods: vertex 3 of MERGING has the
      degree and the key of vertex 1 and is covered by it, without having neighbour 0. */
  lemma {:induction false} RepetitionMergesUnequals(superOf: seq<int>, ns: int)
    requires Numbered(Reps(MERGING, 4), superOf, ns)
    ensures Symmetric(MERGING) && !SameNeighbourhood(MERGING, 1, 3) && superOf[1] == superOf[3]
  {
    var rows := MERGING;
    assert Closed(rows, 1, 0) && !Closed(rows, 3, 0);
    MergingFirst();
    MergingSecond();
    assert [0, -1, -1, -1][1 := 1] == [0, 1, -1, -1];
    assert Reps(rows, 2) == [0, 1, -1, 1];
    RepsStay(rows, 2, 4, 1);
    RepsStay(rows, 2, 4, 3);
    SameNumber(Reps(rows, 4), superOf, ns, 1, 3);
  }

  // ---- the in-place algorithm ----

  method KeyOf(rows: seq<seq<int>>, v: int) returns (k: int)
    requires 0 <= v < |rows|
    ensures k == Key(rows, v)
  {
    var row := rows[v];
    k := v % WORD;
    for p := 0 to |row|
      invariant k == (v + Sum(row[..p])) % WORD
    {
      assert row[..p + 1][..p] == row[..p];
      k := (k + row[p]) % WORD;
    }
    assert row[..|row|] == row;
  }

  method Keys(rows: seq<seq<int>>) returns (key: array<int>)
    ensures fresh(key) && key.Length == |rows| && forall v | 0 <= v < |rows| :: key[v] == Key(rows, v)
  {
    key := new int[|rows|];
    for v := 0 to |rows|
      invariant forall u | 0 <= u < v :: key[u] == Key(rows, u)
    {
      key[v] := KeyOf(rows, v);
    }
  }

  // Marks of earlier vertices are smaller.
  ghost predicate MarksBelow(mark: seq<int>, i: int) {
    forall x | 0 <= x < |mark| :: mark[x] < i
  }

  // Exactly i and its neighbours carry i's mark.
  ghost predicate MarksOf(rows: seq<seq<int>>, mark: seq<int>, i: int) {
    |mark| == |rows| && forall x | 0 <= x < |mark| :: mark[x] <= i && (mark[x] == i <==> Closed(rows, i, x))
  }

  method Mark(rows: seq<seq<int>>, i: int, mark: array<int>)
    requires Ranged(rows) && 0 <= i < |rows| == mark.Length && MarksBelow(mark[..], i)
    modifies mark
    ensures MarksOf(rows, mark[..], i)
  {
    mark[i] := i;
    for q := 0 to |rows[i]|
      invariant forall x | 0 <= x < |rows| :: mark[x] <= i && (mark[x] == i <==> x == i || x in rows[i][..q])
    {
      mark[rows[i][q]] := i;
      assert rows[i][..q + 1] == rows[i][..q] + [rows[i][q]];
    }
    assert rows[i][..|rows[i]|] == rows[i];
  }

  // Whether every neighbour of j is marked.
  method AllMarked(rows: seq<seq<int>>, i: int, j: int, mark: array<int>) returns (same: bool)
    requires Ranged(rows) && 0 <= i < |rows| && 0 <= j < |rows| && MarksOf(rows, mark[..], i)
    ensures same <==> forall q | 0 <= q < |rows[j]| :: Closed(rows, i, rows[j][q])
  {
    same := true;
    var q := 0;
    while q < |rows[j]| && same
      invariant 0 <= q <= |rows[j]|
      invariant same ==> forall x | 0 <= x < q :: Closed(rows, i, rows[j][x])
      invariant !same ==> exists x :: 0 <= x < q && !Closed(rows, i, rows[j][x])
    {
      assert mark[..][rows[j][q]] == mark[rows[j][q]];
      same := mark[rows[j][q]] == i;
      q := q + 1;
    }
  }

  // One candidate neighbour; the marks are set when the first candidate needs them.
  method TryNeighbour(rows: seq<seq<int>>, i: int, p: int, key: array<int>, rep: array<int>, mark: array<int>, marked: bool)
      returns (m: bool)
    requires Ranged(rows) && 0 <= i < |rows| == key.Length == rep.Length == mark.Length && 0 <= p < |rows[i]|
    requires rep != mark && key != rep && key != mark && forall v | 0 <= v < |rows| :: key[v] == Key(rows, v)
    requires if marked then MarksOf(rows, mark[..], i) else MarksBelow(mark[..], i)
    modifies rep, mark
    ensures if m then MarksOf(rows, mark[..], i) else MarksBelow(mark[..], i)
    ensures rep[..] == (if Joins(rows, i, rows[i][p], old(rep[..])) then old(rep[..])[rows[i][p] := i] else old(rep[..]))
  {
    m := marked;
    var j := rows[i][p];
    if j <= i || rep[j] >= 0 || key[j] != key[i] || |rows[j]| != |rows[i]| { return; }
    if !m {
      Mark(rows, i, mark);
      m := true;
    }
    var same := AllMarked(rows, i, j, mark);
    if same { rep[j] := i; }
  }

  method TryNeighbours(rows: seq<seq<int>>, i: int, key: array<int>, rep: array<int>, mark: array<int>)
    requires Ranged(rows) && 0 <= i < |rows| == key.Length == rep.Length == mark.Length
    requires rep != mark && key != rep && key != mark && forall v | 0 <= v < |rows| :: key[v] == Key(rows, v)
    requires MarksBelow(mark[..], i)
    modifies rep, mark
    ensures MarksBelow(mark[..], i + 1)
    ensures rep[..] == Adopt(rows, i, |rows[i]|, old(rep[..]))
  {
    ghost var r0 := rep[..];
    var marked := false;
    for p := 0 to |rows[i]|
      invariant forall v | 0 <= v < |rows| :: key[v] == Key(rows, v)
      invariant if marked then MarksOf(rows, mark[..], i) else MarksBelow(mark[..], i)
      invariant rep[..] == Adopt(rows, i, p, r0)
    {
      marked := TryNeighbour(rows, i, p, key, rep, mark, marked);
    }
  }

  method Representatives(rows: seq<seq<int>>) returns (rep: array<int>)
    requires Ranged(rows)
    ensures fresh(rep) && rep.Length == |rows| && rep[..] == Reps(rows, |rows|)
  {
    var n := |rows|;
    var key := Keys(rows);
    rep := new int[n](_ => -1);
    var mark := new int[n](_ => -1);
    assert rep[..] == Reps(rows, 0);
    for i := 0 to n
      invariant forall v | 0 <= v < |rows| :: key[v] == Key(rows, v)
      invariant MarksBelow(mark[..], i) && rep[..] == Reps(rows, i)
    {
      if rep[i] < 0 {
        rep[i] := i;
        assert rep[..] == Reps(rows, i)[i := i];
        TryNeighbours(rows, i, key, rep, mark);
      }
    }
  }

  // The first v vertices are numbered.
  ghost predicate NumberedTo(rep: seq<int>, superOf: seq<int>, v: int) {
    |superOf| == |rep| && forall u {:trigger superOf[u]} | 0 <= u < v <= |rep| && rep[u] <= |rep| :: superOf[u] == Leaders(rep, rep[u])
  }

  lemma NumberNext(rep: seq<int>, superOf: seq<int>, v: int)
    requires Placed(rep, |rep|) && 0 <= v < |rep| && NumberedTo(rep, superOf, v)
    ensures 0 <= rep[v] <= v
    ensures NumberedTo(rep, superOf[v := if rep[v] == v then Leaders(rep, v) else superOf[rep[v]]], v + 1)
  {
  }

  method CompressClosedAdjacency(rows: seq<seq<int>>) returns (superOf: array<int>, ns: int)
    requires Ranged(rows)
    ensures superOf.Length == |rows| && Numbered(Reps(rows, |rows|), superOf[..], ns)
  {
    var rep := Representatives(rows);
    RepsPlace(rows, |rows|);
    superOf, ns := Number(rep[..]);
  }

  method Number(rep: seq<int>) returns (superOf: array<int>, ns: int)
    requires Placed(rep, |rep|)
    ensures superOf.Length == |rep| && Numbered(rep, superOf[..], ns)
  {
    superOf := new int[|rep|](_ => -1);
    ns := 0;
    for v := 0 to |rep|
      invariant ns == Leaders(rep, v) && NumberedTo(rep, superOf[..], v)
    {
      NumberNext(rep, superOf[..], v);
      ghost var before := superOf[..];
      if rep[v] == v {
        superOf[v] := ns;
        assert superOf[..] == before[v := ns];
        ns := ns + 1;
      } else {
        superOf[v] := superOf[rep[v]];
        assert superOf[..] == before[v := before[rep[v]]];
      }
    }
  }
}
