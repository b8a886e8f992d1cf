/** Sequences without repetition and how often a value occurs in one. */
module Sequences {

  ghost predicate Distinct(s: seq<int>) {
    forall i, j | 0 <= i < j < |s| :: s[i] != s[j]
  }

  lemma DistinctMore(s: seq<int>, x: int)
    requires Distinct(s) && x !in s
    ensures Distinct(s + [x])
  {
    forall i, j | 0 <= i < j < |s + [x]|
      ensures (s + [x])[i] != (s + [x])[j]
    {
      assert s[i] in s;
    }
  }

  // First position of a in s, or -1.
  function IndexOf(s: seq<int>, a: int): (i: int)
    ensures -1 <= i < |s|
    ensures i >= 0 ==> s[i] == a
    ensures i < 0 <==> a !in s
    decreases |s|
  {
    if |s| == 0 then -1
    else
      var i := IndexOf(s[..|s| - 1], a);
      if i >= 0 then i else if s[|s| - 1] == a then |s| - 1 else -1
  }

  lemma IndexOfDistinct(s: seq<int>, i: int)
    requires Distinct(s) && 0 <= i < |s|
    ensures IndexOf(s, s[i]) == i
  {
  }

  function Count(s: seq<int>, x: int): nat {
    if |s| == 0 then 0 else Count(s[..|s| - 1], x) + (if s[|s| - 1] == x then 1 else 0)
  }

  lemma {:induction false} CountSum(s: seq<int>, t: seq<int>, x: int)
    ensures Count(s + t, x) == Count(s, x) + Count(t, x)
    decreases |t|
  {
    if |t| == 0 {
      assert s + t == s;
    } else {
      assert (s + t)[..|s + t| - 1] == s + t[..|t| - 1];
      CountSum(s, t[..|t| - 1], x);
    }
  }

  lemma {:induction false} CountIsMultiplicity(s: seq<int>, x: int)
    ensures Count(s, x) == multiset(s)[x]
    decreases |s|
  {
    if |s| > 0 {
      CountIsMultiplicity(s[..|s| - 1], x);
      assert s == s[..|s| - 1] + [s[|s| - 1]];
    }
  }

  lemma {:induction false} CountAbsent(s: seq<int>, x: int)
    ensures Count(s, x) >= 1 <==> x in s
    decreases |s|
  {
    if |s| > 0 {
      CountAbsent(s[..|s| - 1], x);
      assert s == s[..|s| - 1] + [s[|s| - 1]];
    }
  }

  lemma CountFound(s: seq<int>, x: int) returns (i: int)
    requires Count(s, x) >= 1
    ensures 0 <= i < |s| && s[i] == x
  {
    CountAbsent(s, x);
    i :| 0 <= i < |s| && s[i] == x;
  }

  lemma {:induction false} CountTwice(s: seq<int>, i: int, j: int)
    requires 0 <= i < j < |s| && s[i] == s[j]
    ensures Count(s, s[i]) >= 2
    decreases |s|
  {
    var init := s[..|s| - 1];
    if j < |init| {
      CountTwice(init, i, j);
    } else {
      assert init[i] == s[i];
      CountAbsent(init, s[i]);
    }
  }

  // Values counted at most once do not repeat, and the other way round.
  lemma CountsDistinct(s: seq<int>)
    requires forall x | x in s :: Count(s, x) <= 1
    ensures Distinct(s)
  {
    forall i, j | 0 <= i < j < |s|
      ensures s[i] != s[j]
    {
      if s[i] == s[j] { CountTwice(s, i, j); }
    }
  }

  lemma {:induction false} DistinctCounts(s: seq<int>, x: int)
    requires Distinct(s)
    ensures Count(s, x) == if x in s then 1 else 0
    decreases |s|
  {
    if |s| > 0 {
      var init := s[..|s| - 1];
      DistinctCounts(init, x);
      assert s == init + [s[|s| - 1]];
    }
  }

  // Rearranging distinct values leaves them distinct.
  lemma DistinctKept(s: seq<int>, t: seq<int>)
    requires Distinct(s) && multiset(s) == multiset(t)
    ensures Distinct(t)
  {
    forall x | x in t
      ensures Count(t, x) <= 1
    {
      CountIsMultiplicity(s, x);
      CountIsMultiplicity(t, x);
      DistinctCounts(s, x);
    }
    CountsDistinct(t);
  }

  // Distinct values that all occur in t are no more than t has.
  lemma {:induction false} FitsInto(s: seq<int>, t: seq<int>)
    requires Distinct(s) && forall x | x in s :: x in t
    ensures |s| <= |t|
    decreases |s|
  {
    if |s| > 0 {
      var init, x := s[..|s| - 1], s[|s| - 1];
      assert s == init + [x];
      assert x in s && x in t;
      var a :| 0 <= a < |t| && t[a] == x;
      var u := t[..a] + t[a + 1..];
      forall y | y in init
        ensures y in u
      {
        assert y in s && y != x;
        var b :| 0 <= b < |t| && t[b] == y;
        assert u[if b < a then b else b - 1] == y;
      }
      FitsInto(init, u);
    }
  }

  ghost predicate Inside(s: seq<int>, n: int) {
    forall i | 0 <= i < |s| :: 0 <= s[i] < n
  }

  // p lists every value of [0, m) once.
  ghost predicate Permutes(p: seq<int>, m: int) {
    |p| == m && Inside(p, m) && Distinct(p)
  }

  // A permutation reaches every value.
  lemma PermutationHits(p: seq<int>, m: int, x: int) returns (k: int)
    requires Permutes(p, m) && 0 <= x < m
    ensures 0 <= k < |p| && p[k] == x
  {
    if x !in p { TooMany(p, m, x); }
    k :| 0 <= k < |p| && p[k] == x;
  }

  lemma TooMany(p: seq<int>, m: int, x: int)
    requires Inside(p, m) && Distinct(p) && 0 <= x < m && x !in p
    ensures |p| < m
  {
    var all := seq(m, i => i);
    DistinctMore(p, x);
    forall y | y in p + [x] ensures y in all { assert all[y] == y; }
    FitsInto(p + [x], all);
  }

  // a stands before b.
  ghost predicate Precedes(s: seq<int>, a: int, b: int) {
    exists x, y :: 0 <= x < y < |s| && s[x] == a && s[y] == b
  }

  lemma {:induction false} PrecedesAcross(s: seq<int>, t: seq<int>, a: int, b: int)
    requires a in s && b in t
    ensures Precedes(s + t, a, b)
  {
    var x :| 0 <= x < |s| && s[x] == a;
    var y :| 0 <= y < |t| && t[y] == b;
    var z := |s| + y;
    assert (s + t)[x] == a && (s + t)[z] == b;
  }

  lemma {:induction false} PrecedesExtends(s: seq<int>, t: seq<int>, a: int, b: int)
    requires Precedes(s, a, b)
    ensures Precedes(s + t, a, b)
  {
    var x, y :| 0 <= x < y < |s| && s[x] == a && s[y] == b;
    assert (s + t)[x] == a && (s + t)[y] == b;
  }

  lemma {:induction false} PrecedesShifts(s: seq<int>, t: seq<int>, a: int, b: int)
    requires Precedes(t, a, b)
    ensures Precedes(s + t, a, b)
  {
    var x, y :| 0 <= x < y < |t| && t[x] == a && t[y] == b;
    var x', y' := |s| + x, |s| + y;
    assert (s + t)[x'] == a && (s + t)[y'] == b;
  }

  // Distinct values have one place each, so the order is strict.
  lemma PrecedesStrict(s: seq<int>, a: int, b: int)
    requires Distinct(s) && Precedes(s, a, b)
    ensures !Precedes(s, b, a)
  {
  }

  // Of two distinct values of s one stands before the other.
  lemma {:induction false} PrecedesTotal(s: seq<int>, a: int, b: int)
    requires a in s && b in s && a != b
    ensures Precedes(s, a, b) || Precedes(s, b, a)
  {
    var x :| 0 <= x < |s| && s[x] == a;
    var y :| 0 <= y < |s| && s[y] == b;
    if x < y { assert Precedes(s, a, b); } else { assert Precedes(s, b, a); }
  }

  // ---- weights of labelled classes ----

  function WeightAt(w: seq<int>, v: int): int {
    if 0 <= v < |w| then w[v] else 0
  }

  // What the entries below n with label c weigh.
  function ClassWeight(labels: seq<int>, w: seq<int>, c: int, n: int): int
    requires n <= |labels|
    decreases n
  {
    if n <= 0 then 0 else ClassWeight(labels, w, c, n - 1) + (if labels[n - 1] == c then WeightAt(w, n - 1) else 0)
  }

  lemma {:induction false} Relabelled(labels: seq<int>, w: seq<int>, u: int, c: int, d: int, n: int)
    requires 0 <= u < |labels| && 0 <= n <= |labels|
    ensures ClassWeight(labels[u := c], w, d, n) == ClassWeight(labels, w, d, n)
         + (if u < n && d == c then WeightAt(w, u) else 0) - (if u < n && d == labels[u] then WeightAt(w, u) else 0)
    decreases n
  {
    if n > 0 { Relabelled(labels, w, u, c, d, n - 1); }
  }

  lemma {:induction false} NoneLabelled(labels: seq<int>, w: seq<int>, c: int, n: int)
    requires 0 <= n <= |labels| && forall v | 0 <= v < n :: labels[v] != c
    ensures ClassWeight(labels, w, c, n) == 0
    decreases n
  {
    if n > 0 { NoneLabelled(labels, w, c, n - 1); }
  }

  // ---- length from counts ----

  function Total(s: seq<int>, n: int): nat
    decreases n
  {
    if n <= 0 then 0 else Total(s, n - 1) + Count(s, n - 1)
  }

  lemma {:induction false} TotalNext(s: seq<int>, n: int)
    requires |s| > 0
    ensures Total(s, n) == Total(s[..|s| - 1], n) + (if 0 <= s[|s| - 1] < n then 1 else 0)
    decreases n
  {
    if n > 0 { TotalNext(s, n - 1); }
  }

  lemma {:induction false} TotalNone(n: int)
    ensures Total([], n) == 0
    decreases n
  {
    if n > 0 { TotalNone(n - 1); }
  }

  lemma {:induction false} TotalIsLength(s: seq<int>, n: int)
    requires Inside(s, n)
    ensures Total(s, n) == |s|
    decreases |s|
  {
    if |s| > 0 {
      TotalIsLength(s[..|s| - 1], n);
      TotalNext(s, n);
    } else {
      TotalNone(n);
    }
  }

  lemma {:induction false} TotalOnes(s: seq<int>, n: int, m: int)
    requires 0 <= n <= m && forall x | 0 <= x < m :: Count(s, x) == 1
    ensures Total(s, n) == n
    decreases n
  {
    if n > 0 { TotalOnes(s, n - 1, m); }
  }

  // Every value of [0, n) once and no other: n values without repetition.
  lemma OnceEach(s: seq<int>, n: nat)
    requires Inside(s, n) && forall x | 0 <= x < n :: Count(s, x) == 1
    ensures |s| == n && Distinct(s)
  {
    TotalOnes(s, n, n);
    TotalIsLength(s, n);
    CountsDistinct(s);
  }
}
