/** The compressed graph: one vertex per supervariable, read off its first member. */
module CompressedGraph {
  import opened Sequences
  import opened Supervariables

  // Members of s below m, ascending.
  function MembersBelow(superOf: seq<int>, s: int, m: int): (r: seq<int>)
    requires m <= |superOf|
    ensures forall i | 0 <= i < |r| :: 0 <= r[i] < m && superOf[r[i]] == s
    ensures forall i, j | 0 <= i < j < |r| :: r[i] < r[j]
    decreases m
  {
    if m <= 0 then []
    else if superOf[m - 1] == s then MembersBelow(superOf, s, m - 1) + [m - 1]
    else MembersBelow(superOf, s, m - 1)
  }

  function Members(superOf: seq<int>, s: int): seq<int> { MembersBelow(superOf, s, |superOf|) }

  lemma {:induction false} MemberIn(superOf: seq<int>, s: int, m: int, v: int)
    requires 0 <= v < m <= |superOf| && superOf[v] == s
    ensures v in MembersBelow(superOf, s, m)
    decreases m
  {
    if v < m - 1 { MemberIn(superOf, s, m - 1, v); }
  }

  ghost predicate Ascending(s: seq<int>) {
    forall i, j | 0 <= i < j < |s| :: s[i] < s[j]
  }

  lemma {:induction false} AscendingUnique(s: seq<int>, t: seq<int>)
    requires Ascending(s) && Ascending(t) && forall x :: x in s <==> x in t
    ensures s == t
    decreases |s|
  {
    assert |s| > 0 ==> s[|s| - 1] in s;
    assert |t| > 0 ==> t[|t| - 1] in t;
    if |s| > 0 {
      var a, b, x := s[..|s| - 1], t[..|t| - 1], s[|s| - 1];
      assert x == t[|t| - 1];
      assert s == a + [x] && t == b + [x];
      forall y
        ensures y in a <==> y in b
      {
        assert y in a <==> y in s && y != x;
        assert y in b <==> y in t && y != x;
      }
      AscendingUnique(a, b);
    }
  }

  // t is another supervariable next to vertex r of s.
  ghost predicate Beside(rows: seq<seq<int>>, superOf: seq<int>, s: int, r: int, t: int) {
    0 <= r < |rows| && t != s && exists p :: 0 <= p < |rows[r]| && 0 <= rows[r][p] < |superOf| && superOf[rows[r][p]] == t
  }

  /** Row s lists, ascending, the other supervariables beside the first member of s. */
  ghost predicate IsQuotient(rows: seq<seq<int>>, superOf: seq<int>, ns: int, crows: seq<seq<int>>) {
    && |crows| == ns && |superOf| == |rows|
    && forall s | 0 <= s < ns :: |Members(superOf, s)| > 0 && Ascending(crows[s])
         && forall t :: t in crows[s] <==> Beside(rows, superOf, s, Members(superOf, s)[0], t)
  }

  // Only vertices with equal closed neighbourhoods share a supervariable.
  ghost predicate MergesAlike(rows: seq<seq<int>>, superOf: seq<int>) {
    forall u, v | 0 <= u < |rows| == |superOf| && 0 <= v < |rows| && superOf[u] == superOf[v] :: SameNeighbourhood(rows, u, v)
  }

  /** Where the tests are right, so always without repetition, only such vertices are merged. */
  lemma RightTestsMergeAlike(rows: seq<seq<int>>, superOf: seq<int>, ns: int)
    requires Ranged(rows) && TestsRight(rows) && Numbered(Reps(rows, |rows|), superOf, ns)
    ensures MergesAlike(rows, superOf)
  {
    var rep := Reps(rows, |rows|);
    RepsExact(rows, |rows|);
    forall u, v | 0 <= u < |rows| && 0 <= v < |rows| && superOf[u] == superOf[v]
      ensures SameNeighbourhood(rows, u, v)
    {
      LeaderIsLeast(rows, rep, u);
      LeaderIsLeast(rows, rep, v);
      CompressionIsExact(rows, superOf, ns, u, v, rep[u], rep[v]);
    }
  }

  /** Which member is read does not matter: vertices of different supervariables are
      adjacent exactly when the supervariables are. */
  lemma QuotientEdges(rows: seq<seq<int>>, superOf: seq<int>, ns: int, crows: seq<seq<int>>, u: int, v: int)
    requires Symmetric(rows) && MergesAlike(rows, superOf)
    requires Numbered(Reps(rows, |rows|), superOf, ns) && IsQuotient(rows, superOf, ns, crows)
    requires 0 <= u < |rows| && 0 <= v < |rows| && superOf[u] != superOf[v]
    ensures 0 <= superOf[u] < ns && (v in rows[u] <==> superOf[v] in crows[superOf[u]])
  {
    SuperInRange(rows, superOf, ns, u);
    var s, t := superOf[u], superOf[v];
    var r := Members(superOf, s)[0];
    assert SameNeighbourhood(rows, r, u);
    if v in rows[u] {
      assert Closed(rows, u, v) && Closed(rows, r, v);
      var p :| 0 <= p < |rows[r]| && rows[r][p] == v;
      assert Beside(rows, superOf, s, r, t);
    }
    if t in crows[s] {
      assert Beside(rows, superOf, s, r, t);
      var p :| 0 <= p < |rows[r]| && 0 <= rows[r][p] < |superOf| && superOf[rows[r][p]] == t;
      var w := rows[r][p];
      assert SameNeighbourhood(rows, w, v);
      assert Closed(rows, u, w) by { assert Closed(rows, r, w); }
      assert Closed(rows, w, u) && Closed(rows, v, u);
    }
  }

  lemma SuperInRange(rows: seq<seq<int>>, superOf: seq<int>, ns: int, u: int)
    requires Numbered(Reps(rows, |rows|), superOf, ns) && 0 <= u < |rows|
    ensures 0 <= superOf[u] < ns
  {
    NumberInRange(Reps(rows, |rows|), superOf, ns, u);
  }

  /** The compressed graph is symmetric without self loops or repetition. */
  lemma QuotientSimple(rows: seq<seq<int>>, superOf: seq<int>, ns: int, crows: seq<seq<int>>)
    requires Symmetric(rows) && MergesAlike(rows, superOf)
    requires Numbered(Reps(rows, |rows|), superOf, ns) && IsQuotient(rows, superOf, ns, crows)
    ensures Simple(crows)
  {
    forall s | 0 <= s < ns
      ensures Inside(crows[s], ns) && s !in crows[s] && Distinct(crows[s])
    {
      forall i | 0 <= i < |crows[s]|
        ensures 0 <= crows[s][i] < ns && crows[s][i] != s
      {
        EdgeBack(rows, superOf, ns, crows, s, crows[s][i]);
      }
    }
    forall s, t | 0 <= s < ns && 0 <= t < ns
      ensures t in crows[s] <==> s in crows[t]
    {
      if t in crows[s] { EdgeBack(rows, superOf, ns, crows, s, t); }
      if s in crows[t] { EdgeBack(rows, superOf, ns, crows, t, s); }
    }
  }

  lemma EdgeBack(rows: seq<seq<int>>, superOf: seq<int>, ns: int, crows: seq<seq<int>>, s: int, t: int)
    requires Symmetric(rows) && MergesAlike(rows, superOf)
    requires Numbered(Reps(rows, |rows|), superOf, ns) && IsQuotient(rows, superOf, ns, crows)
    requires 0 <= s < ns && t in crows[s]
    ensures 0 <= t < ns && t != s && s in crows[t]
  {
    var r := Members(superOf, s)[0];
    assert Beside(rows, superOf, s, r, t);
    var p :| 0 <= p < |rows[r]| && 0 <= rows[r][p] < |superOf| && superOf[rows[r][p]] == t;
    var v := rows[r][p];
    SuperInRange(rows, superOf, ns, v);
    assert v in rows[r] && r in rows[v];
    QuotientEdges(rows, superOf, ns, crows, v, r);
  }

  // ---- the clean input ----

  ghost predicate Clean(rows: seq<seq<int>>) {
    forall v | 0 <= v < |rows| :: Ascending(rows[v]) && v !in rows[v]
  }

  lemma {:induction false} AllLead(rep: seq<int>, k: int)
    requires 0 <= k <= |rep|
    ensures Leaders(rep, k) <= k && (Leaders(rep, k) == k ==> forall v | 0 <= v < k :: rep[v] == v && Leaders(rep, v) == v)
    decreases k
  {
    if k > 0 { AllLead(rep, k - 1); }
  }

  /** When nothing merges and the lists are ascending without self loops, the input is
      already the compressed graph. */
  lemma CleanIsQuotient(rows: seq<seq<int>>, superOf: seq<int>, ns: int, crows: seq<seq<int>>)
    requires Ranged(rows) && Numbered(Reps(rows, |rows|), superOf, ns) && IsQuotient(rows, superOf, ns, crows)
    requires ns == |rows| && Clean(rows)
    ensures crows == rows
  {
    var rep := Reps(rows, |rows|);
    AllLead(rep, |rows|);
    forall s | 0 <= s < ns
      ensures crows[s] == rows[s]
    {
      assert superOf[s] == s;
      var ms := Members(superOf, s);
      assert superOf[ms[0]] == ms[0] == s;
      forall t
        ensures t in crows[s] <==> t in rows[s]
      {
        if t in rows[s] {
          var p :| 0 <= p < |rows[s]| && rows[s][p] == t;
          assert superOf[t] == t;
          assert Beside(rows, superOf, s, s, t);
        }
        if t in crows[s] {
          assert Beside(rows, superOf, s, s, t);
          var p :| 0 <= p < |rows[s]| && 0 <= rows[s][p] < |superOf| && superOf[rows[s][p]] == t;
          assert superOf[rows[s][p]] == rows[s][p];
        }
      }
      AscendingUnique(crows[s], rows[s]);
    }
  }

  predicate Rising(row: seq<int>, v: int, p: int)
    requires 0 <= p < |row|
  {
    row[p] != v && (p > 0 ==> row[p] > row[p - 1])
  }

  lemma {:induction false} RisingAscends(row: seq<int>, v: int, m: int)
    requires 0 <= m <= |row| && forall p | 0 <= p < m :: Rising(row, v, p)
    ensures Ascending(row[..m]) && v !in row[..m]
    decreases m
  {
    if m > 0 {
      assert Rising(row, v, m - 1);
      RisingAscends(row, v, m - 1);
      assert row[..m] == row[..m - 1] + [row[m - 1]];
      if m > 1 { assert row[m - 2] == row[..m - 1][m - 2]; }
    }
  }

  method AdjacencyIsClean(rows: seq<seq<int>>) returns (clean: bool)
    ensures clean <==> Clean(rows)
  {
    for v := 0 to |rows|
      invariant forall u | 0 <= u < v :: Ascending(rows[u]) && u !in rows[u]
    {
      for p := 0 to |rows[v]|
        invariant forall q | 0 <= q < p :: Rising(rows[v], v, q)
      {
        if rows[v][p] == v || (p > 0 && rows[v][p] <= rows[v][p - 1]) { return false; }
      }
      RisingAscends(rows[v], v, |rows[v]|);
      assert rows[v][..|rows[v]|] == rows[v];
    }
    return true;
  }

  // ---- building it ----

  // The values of [0, m) that occur in row, ascending.
  function Sorted(row: seq<int>, m: int): (r: seq<int>)
    ensures Ascending(r) && forall i | 0 <= i < |r| :: 0 <= r[i] < m
    ensures forall x :: x in r <==> 0 <= x < m && x in row
    decreases m
  {
    if m <= 0 then [] else if m - 1 in row then Sorted(row, m - 1) + [m - 1] else Sorted(row, m - 1)
  }

  ghost predicate Supers(superOf: seq<int>, ns: int) {
    && (forall v | 0 <= v < |superOf| :: 0 <= superOf[v] < ns)
    && (forall s | 0 <= s < ns :: |Members(superOf, s)| > 0)
  }

  // What the first p neighbours of r contribute to row s; marks carry s.
  ghost predicate Gathered(rows: seq<seq<int>>, superOf: seq<int>, s: int, r: int, p: int, row: seq<int>, mark: seq<int>) {
    && 0 <= r < |rows| && 0 <= p <= |rows[r]|
    && (forall t | 0 <= t < |mark| :: mark[t] <= s && (mark[t] == s <==> t == s || t in row))
    && (forall q | 0 <= q < p && 0 <= rows[r][q] < |superOf| && superOf[rows[r][q]] != s :: superOf[rows[r][q]] in row)
    && (forall t | t in row :: 0 <= t < |mark| && Beside(rows, superOf, s, r, t))
  }

  method GatherRow(rows: seq<seq<int>>, superOf: seq<int>, ns: int, s: int, mark: array<int>) returns (row: seq<int>)
    requires Ranged(rows) && |superOf| == |rows| && Supers(superOf, ns) && mark.Length == ns && 0 <= s < ns
    requires MarksBelow(mark[..], s)
    modifies mark
    ensures MarksBelow(mark[..], s + 1)
    ensures Ascending(row) && forall t :: t in row <==> Beside(rows, superOf, s, Members(superOf, s)[0], t)
  {
    var r := Members(superOf, s)[0];
    mark[s] := s;
    var list := [];
    for p := 0 to |rows[r]|
      invariant Gathered(rows, superOf, s, r, p, list, mark[..])
    {
      var t := superOf[rows[r][p]];
      assert mark[..][t] == mark[t];
      if mark[t] != s {
        assert t != s ==> Beside(rows, superOf, s, r, t);
        mark[t] := s;
        list := list + [t];
      }
    }
    row := Sorted(list, ns);
  }

  method BuildRows(rows: seq<seq<int>>, superOf: seq<int>, ns: int) returns (crows: seq<seq<int>>)
    requires Ranged(rows) && |superOf| == |rows| && Supers(superOf, ns) && ns >= 0
    ensures IsQuotient(rows, superOf, ns, crows)
  {
    var mark := new int[ns](_ => -1);
    crows := [];
    for s := 0 to ns
      invariant |crows| == s && MarksBelow(mark[..], s)
      invariant forall x | 0 <= x < s :: Ascending(crows[x]) && forall t :: t in crows[x] <==> Beside(rows, superOf, x, Members(superOf, x)[0], t)
    {
      var row := GatherRow(rows, superOf, ns, s, mark);
      crows := crows + [row];
    }
  }

  lemma SupersOf(rep: seq<int>, superOf: seq<int>, ns: int)
    requires Numbered(rep, superOf, ns)
    ensures Supers(superOf, ns)
  {
    forall v | 0 <= v < |superOf| ensures 0 <= superOf[v] < ns { NumberInRange(rep, superOf, ns, v); }
    forall s | 0 <= s < ns ensures |Members(superOf, s)| > 0 { NumberUsed(rep, superOf, ns, s); }
  }

  lemma NumberUsed(rep: seq<int>, superOf: seq<int>, ns: int, s: int)
    requires Numbered(rep, superOf, ns) && 0 <= s < ns
    ensures |Members(superOf, s)| > 0
  {
    var v := LeaderNumbered(rep, |rep|, s);
    assert superOf[v] == s;
    HasMember(superOf, s, v);
  }

  lemma HasMember(superOf: seq<int>, s: int, v: int)
    requires 0 <= v < |superOf| && superOf[v] == s
    ensures |Members(superOf, s)| > 0
  {
    MemberIn(superOf, s, |superOf|, v);
  }

  // A supervariable weighs what its members do.
  ghost predicate Weigh(weights: seq<int>, superOf: seq<int>, w: seq<int>) {
    forall s | 0 <= s < |weights| :: weights[s] == ClassWeight(superOf, w, s, |superOf|)
  }

  // The weights of the listed vertices.
  function Added(w: seq<int>, ms: seq<int>): int
    requires Inside(ms, |w|)
  {
    if |ms| == 0 then 0 else w[ms[0]] + Added(w, ms[1..])
  }

  lemma {:induction false} AddedSnoc(w: seq<int>, ms: seq<int>, v: int)
    requires Inside(ms, |w|) && 0 <= v < |w|
    ensures Inside(ms + [v], |w|) && Added(w, ms + [v]) == Added(w, ms) + w[v]
    decreases |ms|
  {
    if |ms| > 0 {
      assert (ms + [v])[1..] == ms[1..] + [v];
      AddedSnoc(w, ms[1..], v);
    }
  }

  /** The weight of a class is what its members weigh. */
  lemma {:induction false} ClassWeightMeaning(labels: seq<int>, w: seq<int>, c: int, m: int)
    requires 0 <= m <= |labels| <= |w|
    ensures Inside(MembersBelow(labels, c, m), |w|) && ClassWeight(labels, w, c, m) == Added(w, MembersBelow(labels, c, m))
    decreases m
  {
    if m > 0 {
      ClassWeightMeaning(labels, w, c, m - 1);
      if labels[m - 1] == c { AddedSnoc(w, MembersBelow(labels, c, m - 1), m - 1); }
    }
  }

  lemma {:induction false} MembersWeigh(weights: seq<int>, superOf: seq<int>, w: seq<int>)
    requires |superOf| == |w| && Weigh(weights, superOf, w)
    ensures forall s | 0 <= s < |weights| :: Inside(Members(superOf, s), |w|) && weights[s] == Added(w, Members(superOf, s))
  {
    forall s | 0 <= s < |weights| ensures Inside(Members(superOf, s), |w|) && weights[s] == Added(w, Members(superOf, s)) {
      ClassWeightMeaning(superOf, w, s, |superOf|);
    }
  }

  method AddWeights(superOf: array<int>, ns: int, w: seq<int>) returns (weights: array<int>)
    requires |w| == superOf.Length && 0 <= ns && forall v | 0 <= v < superOf.Length :: 0 <= superOf[v] < ns
    ensures fresh(weights) && weights.Length == ns && Weigh(weights[..], superOf[..], w)
  {
    weights := new int[ns](_ => 0);
    for v := 0 to superOf.Length
      invariant forall s | 0 <= s < ns :: weights[s] == ClassWeight(superOf[..], w, s, v)
    {
      weights[superOf[v]] := weights[superOf[v]] + w[v];
    }
  }

  /** The supervariables, their weights and the compressed graph. */
  method Compress(rows: seq<seq<int>>, w: seq<int>)
      returns (superOf: array<int>, ns: int, weights: array<int>, crows: seq<seq<int>>)
    requires Ranged(rows) && |w| == |rows|
    ensures superOf.Length == |rows| && Numbered(Reps(rows, |rows|), superOf[..], ns)
    ensures weights.Length == ns && Weigh(weights[..], superOf[..], w)
    ensures forall s | 0 <= s < ns :: Inside(Members(superOf[..], s), |w|) && weights[s] == Added(w, Members(superOf[..], s))
    ensures IsQuotient(rows, superOf[..], ns, crows)
  {
    superOf, ns := CompressClosedAdjacency(rows);
    SupersOf(Reps(rows, |rows|), superOf[..], ns);
    weights := AddWeights(superOf, ns, w);
    MembersWeigh(weights[..], superOf[..], w);
    if ns == |rows| {
      var clean := AdjacencyIsClean(rows);
      if clean {
        CleanQuotient(rows, superOf[..], ns);
        return superOf, ns, weights, rows;
      }
    }
    crows := BuildRows(rows, superOf[..], ns);
  }

  lemma CleanQuotient(rows: seq<seq<int>>, superOf: seq<int>, ns: int)
    requires Ranged(rows) && Numbered(Reps(rows, |rows|), superOf, ns) && ns == |rows| && Clean(rows)
    ensures IsQuotient(rows, superOf, ns, rows)
  {
    AllLead(Reps(rows, |rows|), |rows|);
    forall s | 0 <= s < ns
      ensures |Members(superOf, s)| > 0 && forall t :: t in rows[s] <==> Beside(rows, superOf, s, Members(superOf, s)[0], t)
    {
      assert superOf[s] == s;
      MemberIn(superOf, s, |superOf|, s);
      var ms := Members(superOf, s);
      assert superOf[ms[0]] == ms[0] == s;
      forall t | t in rows[s]
        ensures Beside(rows, superOf, s, s, t)
      {
        var p :| 0 <= p < |rows[s]| && rows[s][p] == t;
        assert superOf[rows[s][p]] == t;
      }
    }
  }
}
