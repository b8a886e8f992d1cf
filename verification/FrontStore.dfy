/** What a factored front leaves behind: its pivot columns in the solve layout, and
    its Schur complement as a contribution block. */
module FrontStore {
  import opened Sequences
  import opened Reals
  import opened FrontAlgebra
  import opened PivotChoice
  import opened GrowthBound
  import opened FrontTerms

  // The square of m behind position p.
  function Trailing(m: Mat, p: int, f: int): (r: Mat)
    requires 0 <= p <= f
    ensures |r| == f - p
    ensures forall i, j | 0 <= i < f - p && 0 <= j < f - p :: At(r, i, j) == At(m, p + i, p + j)
  {
    seq(f - p, i requires 0 <= i => seq(f - p, j requires 0 <= j => At(m, p + i, p + j)))
  }

  // The first p columns of a front.
  function Columns(F: array2<real>, p: int): (m: Mat)
    requires 0 <= p <= F.Length1
    reads F
    ensures |m| == F.Length0
    ensures forall i, c | 0 <= i < F.Length0 && 0 <= c < p :: At(m, i, c) == F[i, c]
  {
    seq(F.Length0, i requires 0 <= i < F.Length0 reads F =>
      seq(p, c requires 0 <= c < p reads F => F[i, c]))
  }

  function SchurBlock(rows: seq<int>, m: Mat, p: int, delayed: int): Block
    requires 0 <= p <= |rows|
  {
    if p == |rows| then EMPTY else Block(rows[p..], Trailing(m, p, |rows|), delayed)
  }

  ghost predicate ZeroOutside(A: (int, int) -> real, rows: seq<int>) {
    forall a, b :: a !in rows || b !in rows ==> A(a, b) == 0.0
  }

  lemma IndexOfSuffix(rows: seq<int>, p: int, i: int)
    requires Distinct(rows) && 0 <= p <= |rows| && 0 <= i < |rows|
    ensures IndexOf(rows[p..], rows[i]) == if i < p then -1 else i - p
  {
    if i >= p {
      assert rows[p..][i - p] == rows[i];
      IndexOfDistinct(rows[p..], i - p);
    } else {
      assert rows[i] !in rows[p..];
    }
  }

  // The block's term at front positions (i, j), i >= j.
  lemma SchurTerm(rows: seq<int>, m: Mat, p: int, delayed: int, i: int, j: int)
    requires Distinct(rows) && 0 <= p <= |rows| && 0 <= j <= i < |rows|
    ensures BlockTerm(SchurBlock(rows, m, p, delayed), rows[i], rows[j]) == if j < p then 0.0 else At(m, i, j)
    ensures BlockTerm(SchurBlock(rows, m, p, delayed), rows[j], rows[i]) == if j < p then 0.0 else At(m, i, j)
  {
    IndexOfSuffix(rows, p, i);
    IndexOfSuffix(rows, p, j);
  }

  /** A factored front is its stored columns' L D L^T plus its Schur block. */
  lemma FrontSplits(A: (int, int) -> real, m: Mat, rows: seq<int>, t: seq<int>, k: int, e: int, st: Step, delayed: int)
    requires Symmetric(A) && Factored(A, m, rows, t, k, e) && Distinct(rows) && ZeroOutside(A, rows)
    requires st.rows == rows && k <= st.p <= |rows| && StoredFrom(m, t, k, st.m, st.tags, st.p, |rows|)
    ensures Represents(A, st, SchurBlock(rows, m, k, delayed))
  {
    forall a, b
      ensures A(a, b) == StepTerm(st, a, b) + BlockTerm(SchurBlock(rows, m, k, delayed), a, b)
    {
      if a in rows && b in rows {
        var i, j := IndexOf(rows, a), IndexOf(rows, b);
        SplitsAt(A, m, rows, t, k, e, st, delayed, i, j);
      } else {
        OutsideBlock(rows, m, k, delayed, a, b);
      }
    }
  }

  lemma OutsideBlock(rows: seq<int>, m: Mat, p: int, delayed: int, a: int, b: int)
    requires 0 <= p <= |rows| && (a !in rows || b !in rows)
    ensures BlockTerm(SchurBlock(rows, m, p, delayed), a, b) == 0.0
  {
    assert forall i | 0 <= i < |rows[p..]| :: rows[p..][i] in rows;
  }

  lemma SplitsAt(A: (int, int) -> real, m: Mat, rows: seq<int>, t: seq<int>, k: int, e: int, st: Step, delayed: int,
                 i: int, j: int)
    requires Symmetric(A) && Factored(A, m, rows, t, k, e) && Distinct(rows)
    requires st.rows == rows && k <= st.p <= |rows| && StoredFrom(m, t, k, st.m, st.tags, st.p, |rows|)
    requires 0 <= i < |rows| && 0 <= j < |rows|
    ensures A(rows[i], rows[j]) == StepTerm(st, rows[i], rows[j]) + BlockTerm(SchurBlock(rows, m, k, delayed), rows[i], rows[j])
  {
    IndexOfDistinct(rows, i);
    IndexOfDistinct(rows, j);
    StoreKeepsSum(m, t, k, st.m, st.tags, st.p, |rows|, i, j, st.p);
    assert StepTerm(st, rows[i], rows[j]) == LDLt(m, t, i, j, 0, k);
    BlocksEndAtBoundary(t, k);
    LDLtSymmetric(m, t, i, j, k);
    if i >= j {
      SchurTerm(rows, m, k, delayed, i, j);
      assert EntryLags(A, m, rows, t, Lag(k, |rows|, k, e, k), i, j);
    } else {
      SchurTerm(rows, m, k, delayed, j, i);
      assert EntryLags(A, m, rows, t, Lag(k, |rows|, k, e, k), j, i);
      assert A(rows[i], rows[j]) == A(rows[j], rows[i]);
    }
  }

  // ---- the store ----

  // Columns [0, c) are in the solve layout, up to the slot of a 2x2 pivot whose second
  // column is still to come: its off-diagonal is in d10.
  ghost predicate StoredUpTo(m0: Mat, m: Mat, t: seq<int>, p: int, f: int, c: int, d10: real) {
    && (forall i, j | 0 <= i < f && c <= j < f :: At(m, i, j) == At(m0, i, j))
    && (forall i, j | 0 <= j < c && j < p && j <= i < f ::
          At(m, i, j) == if Tag(t, j) == FIRST && i == j + 1 then 0.0 else At(m0, i, j))
    && (forall j | 0 <= j < c && p <= j :: At(m, j, j) == 0.0)
    && (forall j | 0 <= j < c && j < p && Tag(t, j) == FIRST ::
          if j == c - 1 then d10 == At(m0, c, j) else At(m, j, j + 1) == At(m0, j + 1, j))
  }

  method StoreColumn(F: array2<real>, c: int, tag: int, d10: real) returns (d10': real)
    requires F.Length0 == F.Length1 && 0 <= c < F.Length0
    requires (tag == FIRST ==> c + 1 < F.Length0) && (tag == SECOND ==> c > 0)
    modifies F
    ensures d10' == if tag == FIRST then old(F[c + 1, c]) else d10
    ensures forall i, j | 0 <= i < F.Length0 && 0 <= j < F.Length0 && j != c :: F[i, j] == old(F[i, j])
    ensures forall i | c <= i < F.Length0 :: F[i, c] == if tag == 0 || (tag == FIRST && i == c + 1) then 0.0 else old(F[i, c])
    ensures forall i | 0 <= i < c :: F[i, c] == if tag == SECOND && i == c - 1 then d10 else 0.0
  {
    d10' := d10;
    if tag == 0 {
      for i := c + 1 to F.Length0
        invariant forall x, y | 0 <= x < F.Length0 && 0 <= y < F.Length0 ::
          F[x, y] == if y == c && c < x < i then 0.0 else old(F[x, y])
      {
        F[i, c] := 0.0;
      }
      F[c, c] := 0.0;
    } else if tag == FIRST {
      d10' := F[c + 1, c];
      F[c + 1, c] := 0.0;
    }
    ghost var m := Snapshot(F);
    for i := 0 to c
      invariant forall x, y | 0 <= x < F.Length0 && 0 <= y < F.Length0 :: F[x, y] == if y == c && x < i then 0.0 else At(m, x, y)
    {
      F[i, c] := 0.0;
    }
    if tag == SECOND { F[c - 1, c] := d10; }
  }

  lemma StoredNext(m0: Mat, m: Mat, m': Mat, t: seq<int>, p: int, f: int, c: int, d10: real, d10': real)
    requires StoredUpTo(m0, m, t, p, f, c, d10) && Blocks(t, p) && 0 <= c < f && p <= f
    requires forall j | p <= j <= c :: Tag(t, j) == 0
    requires d10' == if Tag(t, c) == FIRST then At(m, c + 1, c) else d10
    requires forall i, j | 0 <= i < f && 0 <= j < f && j != c :: At(m', i, j) == At(m, i, j)
    requires forall i | c <= i < f :: At(m', i, c) == if Tag(t, c) == 0 || (Tag(t, c) == FIRST && i == c + 1) then 0.0 else At(m, i, c)
    requires Tag(t, c) == SECOND ==> At(m', c - 1, c) == d10
    ensures StoredUpTo(m0, m', t, p, f, c + 1, d10')
  {
    if c < p { assert InBlock(t, p, c); }
    if 0 < c <= p { assert InBlock(t, p, c - 1); }
    forall j | 0 <= j < c + 1 && j < p && Tag(t, j) == FIRST
      ensures if j == c then d10' == At(m0, c + 1, j) else At(m', j, j + 1) == At(m0, j + 1, j)
    {
      assert InBlock(t, p, j);
    }
  }

  /** The first ps columns into the solve layout, in place: d on the diagonal, the
      off-diagonal of a 2x2 pivot in its strictly upper slot, zero pivots cleared. */
  method StoreColumns(F: array2<real>, tags: array<int>, ghost t: seq<int>, p: int, ps: int)
    requires F.Length0 == F.Length1 && 0 <= p <= ps <= F.Length0 <= tags.Length
    requires Blocks(t, p) && (forall j | 0 <= j < p :: tags[j] == t[j]) && (forall j | p <= j < ps :: tags[j] == 0)
    modifies F
    ensures StoredFrom(old(Snapshot(F)), t, p, Columns(F, ps), tags[..ps], ps, F.Length0)
    ensures forall i, c | 0 <= i < c < ps && !(tags[c] == SECOND && i == c - 1) :: F[i, c] == 0.0
    ensures forall i, j | 0 <= i < F.Length0 && ps <= j < F.Length0 :: F[i, j] == old(F[i, j])
  {
    ghost var m0, f := Snapshot(F), F.Length0;
    ghost var t' := tags[..];
    assert Blocks(t', p) by { SameBlocks(t, t', p); }
    var d10 := 0.0;
    for c := 0 to ps
      invariant StoredUpTo(m0, Snapshot(F), t', p, f, c, d10)
      invariant forall i, j | 0 <= i < j < c && !(tags[j] == SECOND && i == j - 1) :: F[i, j] == 0.0
    {
      ghost var m := Snapshot(F);
      if c < p { assert InBlock(t', p, c); }
      var d := StoreColumn(F, c, tags[c], d10);
      StoredNext(m0, m, Snapshot(F), t', p, f, c, d10, d);
      d10 := d;
    }
    StoredAll(m0, Snapshot(F), t, t', Columns(F, ps), p, f, ps, d10);
  }

  lemma SameBlocks(t: seq<int>, t': seq<int>, p: int)
    requires Blocks(t, p) && p <= |t'| && forall j | 0 <= j < p :: t'[j] == t[j]
    ensures Blocks(t', p)
  {
    forall c | 0 <= c < p
      ensures InBlock(t', p, c)
    {
      assert InBlock(t, p, c);
    }
  }

  lemma StoredAll(m0: Mat, m: Mat, t: seq<int>, t': seq<int>, sm: Mat, p: int, f: int, ps: int, d10: real)
    requires StoredUpTo(m0, m, t', p, f, ps, d10) && Blocks(t, p) && 0 <= p <= ps <= f && ps <= |t'|
    requires (forall j | 0 <= j < p :: t'[j] == t[j]) && (forall j | p <= j < ps :: t'[j] == 0)
    requires forall i, c | 0 <= i < f && 0 <= c < ps :: At(sm, i, c) == At(m, i, c)
    ensures StoredFrom(m0, t, p, sm, t'[..ps], ps, f)
  {
    forall c | 0 <= c < p && Tag(t, c) == FIRST
      ensures At(sm, c, c + 1) == At(m0, c + 1, c)
    {
      assert InBlock(t, p, c);
    }
  }

  // ---- the growth bound of the stored columns ----

  ghost predicate StepBounded(st: Step, u: real) {
    forall i, c | 0 <= c < st.p && c < i < |st.rows| && Tag(st.tags, c) != 0 :: Below(Abs(StoredL(st.m, i, c)), 1.0, u)
  }

  lemma StoreKeepsBound(m: Mat, t: seq<int>, p: int, st: Step, u: real)
    requires StoredFrom(m, t, p, st.m, st.tags, st.p, |st.rows|) && Blocks(t, p) && p <= st.p <= |st.rows|
    requires Bounded(m, t, u, 0, p, |st.rows|)
    ensures StepBounded(st, u)
  {
    forall i, c | 0 <= c < st.p && c < i < |st.rows| && Tag(st.tags, c) != 0
      ensures Below(Abs(StoredL(st.m, i, c)), 1.0, u)
    {
      assert Below(Abs(L(m, t, i, c)), 1.0, u);
      StoredEntries(m, t, p, st.m, st.tags, st.p, |st.rows|, i);
    }
  }
}
