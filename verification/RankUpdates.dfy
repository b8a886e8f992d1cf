/** The late updates: columns that skipped a run of pivots receive them as one
    matrix product. */
module RankUpdates {
  import opened Reals
  import opened FrontAlgebra
  import opened FrontSteps

  lemma GainIs(m: Mat, t: seq<int>, i: int, j: int, c: int, x: real, b: real)
    requires x == L(m, t, i, c) && b == LD(m, t, j, c)
    ensures Gain(m, t, i, j, c) == x * b
  {
  }

  lemma ZeroGain(m: Mat, t: seq<int>, i: int, j: int, c: int)
    requires LD(m, t, j, c) == 0.0
    ensures Gain(m, t, i, j, c) == 0.0
  {
  }

  // Rows [r0, r1) of column j minus b times those of column c.
  method SubtractColumn(F: array2<real>, j: int, c: int, r0: int, r1: int, b: real, ghost m: Mat, ghost t: seq<int>, ghost lo: int)
    requires 0 <= lo <= c < j < F.Length1 && 0 <= r0 && r1 <= F.Length0 && b == LD(m, t, j, c)
    requires forall i | r0 <= i < r1 :: F[i, c] == L(m, t, i, c)
    requires forall i | r0 <= i < r1 :: F[i, j] == At(m, i, j) - LDLt(m, t, i, j, lo, c)
    modifies F
    ensures forall r, k | 0 <= r < F.Length0 && 0 <= k < F.Length1 ::
      F[r, k] == if k == j && r0 <= r < r1 then At(m, r, j) - LDLt(m, t, r, j, lo, c + 1) else old(F[r, k])
  {
    var i := r0;
    while i < r1
      invariant r0 <= i
      invariant forall r, k | 0 <= r < F.Length0 && 0 <= k < F.Length1 ::
        F[r, k] == if k == j && r0 <= r < i && r < r1 then At(m, r, j) - LDLt(m, t, r, j, lo, c + 1) else old(F[r, k])
    {
      GainIs(m, t, i, j, c, F[i, c], b);
      F[i, j] := F[i, j] - F[i, c] * b;
      i := i + 1;
    }
  }

  // Rows [r0, r1) of column j minus the product of the columns [p0, p1) with row j
  // of W.
  method SubtractSaved(F: array2<real>, W: array2<real>, j: int, p0: int, p1: int, r0: int, r1: int, ghost m: Mat, ghost t: seq<int>)
    requires W != F && 0 <= p0 <= p1 <= j < F.Length1 && p1 <= r0 && r1 <= F.Length0
    requires j < W.Length0 && p1 - p0 <= W.Length1
    requires forall c | p0 <= c < p1 :: W[j, c - p0] == LD(m, t, j, c)
    requires forall i, c | p0 <= c < p1 && r0 <= i < r1 :: F[i, c] == L(m, t, i, c)
    requires forall i | r0 <= i < r1 :: F[i, j] == At(m, i, j)
    modifies F
    ensures forall r, k | 0 <= r < F.Length0 && 0 <= k < F.Length1 ::
      F[r, k] == if k == j && r0 <= r < r1 then At(m, r, j) - LDLt(m, t, r, j, p0, p1) else old(F[r, k])
  {
    for c := p0 to p1
      invariant forall r, k | 0 <= r < F.Length0 && 0 <= k < F.Length1 ::
        F[r, k] == if k == j && r0 <= r < r1 then At(m, r, j) - LDLt(m, t, r, j, p0, c) else old(F[r, k])
    {
      var b := W[j, c - p0];
      assert b == LD(m, t, j, c);
      if b == 0.0 {
        forall i | r0 <= i < r1 ensures LDLt(m, t, i, j, p0, c + 1) == LDLt(m, t, i, j, p0, c) {
          ZeroGain(m, t, i, j, c);
        }
      } else {
        SubtractColumn(F, j, c, r0, r1, b, m, t, p0);
      }
    }
  }

  /** The eligible columns [c0, e) receive the pivots [p0, p1) saved in W: a lower
      product on the [c0, e) square and a plain one on the rows below it. */
  method DeferredUpdate(F: array2<real>, p0: int, p1: int, c0: int, e: int, W: array2<real>, ghost t: seq<int>)
    requires F.Length0 == F.Length1 == W.Length0 && W != F && 0 <= p0 <= p1 <= c0 && e <= F.Length0
    requires p1 - p0 <= W.Length1 && Blocks(t, p1)
    requires forall i, c | p0 <= c < p1 && p1 <= i < F.Length0 :: W[i, c - p0] == LD(Snapshot(F), t, i, c)
    modifies F
    ensures CaughtUp(old(Snapshot(F)), Snapshot(F), t, F.Length0, p0, p1, c0, e)
  {
    ghost var m := Snapshot(F);
    if p1 <= p0 || e <= c0 {
      forall i, j | 0 <= j <= i < F.Length0
        ensures At(Snapshot(F), i, j) == if c0 <= j < e then At(m, i, j) - LDLt(m, t, i, j, p0, p1) else At(m, i, j)
      {
      }
      return;
    }
    forall i, c | p0 <= c < p1 && p1 <= i < F.Length0 ensures F[i, c] == L(m, t, i, c) {
      assert InBlock(t, p1, c);
    }
    for j := c0 to e
      invariant forall r, k | 0 <= r < F.Length0 && 0 <= k < F.Length1 ::
        F[r, k] == if c0 <= k < j && k <= r < e then At(m, r, k) - LDLt(m, t, r, k, p0, p1) else At(m, r, k)
    {
      SubtractSaved(F, W, j, p0, p1, j, e, m, t);
    }
    for j := c0 to e
      invariant forall r, k | 0 <= r < F.Length0 && 0 <= k < F.Length1 ::
        F[r, k] == if c0 <= k < e && (k <= r < e || (e <= r && k < j)) then At(m, r, k) - LDLt(m, t, r, k, p0, p1)
                   else At(m, r, k)
    {
      SubtractSaved(F, W, j, p0, p1, e, F.Length0, m, t);
    }
    forall i, j | 0 <= j <= i < F.Length0
      ensures At(Snapshot(F), i, j) == if c0 <= j < e then At(m, i, j) - LDLt(m, t, i, j, p0, p1) else At(m, i, j)
    {
      assert At(Snapshot(F), i, j) == F[i, j];
    }
  }

  // Forms (L D)^T of the rows [e, f) in the strict upper triangle, F[p0..p, e..f].
  method FormScaledRows(F: array2<real>, p0: int, p: int, e: int, tags: array<int>)
    requires F.Length0 == F.Length1 && 0 <= p0 <= p <= e <= F.Length0 && p <= tags.Length
    requires Blocks(tags[..], p) && Boundary(tags[..], p0)
    modifies F
    ensures forall r, c | 0 <= r < F.Length0 && 0 <= c < F.Length0 ::
      F[r, c] == if p0 <= r < p && e <= c then LD(old(Snapshot(F)), tags[..], c, r) else old(F[r, c])
  {
    ghost var m, t := Snapshot(F), tags[..];
    var c := p0;
    while c < p
      invariant p0 <= c <= p && Boundary(t, c)
      invariant forall r, k | 0 <= r < F.Length0 && 0 <= k < F.Length0 ::
        F[r, k] == if p0 <= r < c && e <= k then LD(m, t, k, r) else At(m, r, k)
    {
      assert InBlock(t, p, c);
      if c > p0 { assert InBlock(t, p, c - 1); }
      if tags[c] == FIRST {
        ScaledPair(F, c, e, m, t);
        c := c + 2;
      } else {
        ScaledSingle(F, c, e, m, t);
        c := c + 1;
      }
    }
  }

  method ScaledSingle(F: array2<real>, c: int, e: int, ghost m: Mat, ghost t: seq<int>)
    requires F.Length0 == F.Length1 && 0 <= c < e <= F.Length0 && Tag(t, c) == ONE
    requires F[c, c] == At(m, c, c) && forall i | e <= i < F.Length0 :: F[i, c] == At(m, i, c)
    modifies F
    ensures forall r, k | 0 <= r < F.Length0 && 0 <= k < F.Length0 ::
      F[r, k] == if r == c && e <= k then LD(m, t, k, c) else old(F[r, k])
  {
    var d := F[c, c];
    for i := e to F.Length0
      invariant forall r, k | 0 <= r < F.Length0 && 0 <= k < F.Length0 ::
        F[r, k] == if r == c && e <= k < i then LD(m, t, k, c) else old(F[r, k])
    {
      assert L(m, t, i, c) == F[i, c];
      F[c, i] := F[i, c] * d;
      LDSingle(m, t, i, c, F[i, c], d);
    }
  }

  lemma LDSingle(m: Mat, t: seq<int>, i: int, c: int, x: real, d: real)
    requires Tag(t, c) == ONE && x == L(m, t, i, c) && d == At(m, c, c)
    ensures LD(m, t, i, c) == x * d
  {
  }

  method ScaledPair(F: array2<real>, c: int, e: int, ghost m: Mat, ghost t: seq<int>)
    requires F.Length0 == F.Length1 && 0 <= c && c + 1 < e <= F.Length0
    requires Tag(t, c) == FIRST && Tag(t, c + 1) == SECOND
    requires F[c, c] == At(m, c, c) && F[c + 1, c] == At(m, c + 1, c) && F[c + 1, c + 1] == At(m, c + 1, c + 1)
    requires forall i | e <= i < F.Length0 :: F[i, c] == At(m, i, c) && F[i, c + 1] == At(m, i, c + 1)
    modifies F
    ensures forall r, k | 0 <= r < F.Length0 && 0 <= k < F.Length0 ::
      F[r, k] == if c <= r <= c + 1 && e <= k then LD(m, t, k, r) else old(F[r, k])
  {
    var d00, d10, d11 := F[c, c], F[c + 1, c], F[c + 1, c + 1];
    for i := e to F.Length0
      invariant forall r, k | 0 <= r < F.Length0 && 0 <= k < F.Length0 ::
        F[r, k] == if c <= r <= c + 1 && e <= k < i then LD(m, t, k, r) else old(F[r, k])
    {
      var x0, x1 := F[i, c], F[i, c + 1];
      assert L(m, t, i, c) == x0 && L(m, t, i, c + 1) == x1;
      LDPair(m, t, i, c, x0, x1, d00, d10, d11);
      F[c, i] := x0 * d00 + x1 * d10;
      F[c + 1, i] := x0 * d10 + x1 * d11;
    }
  }

  lemma LDPair(m: Mat, t: seq<int>, i: int, c: int, x0: real, x1: real, d00: real, d10: real, d11: real)
    requires Tag(t, c) == FIRST && Tag(t, c + 1) == SECOND
    requires x0 == L(m, t, i, c) && x1 == L(m, t, i, c + 1)
    requires d00 == At(m, c, c) && d10 == At(m, c + 1, c) && d11 == At(m, c + 1, c + 1)
    ensures LD(m, t, i, c) == x0 * d00 + x1 * d10 && LD(m, t, i, c + 1) == x0 * d10 + x1 * d11
  {
  }

  // Rows [j, f) of column j minus the product of the columns [p0, p) with the row of
  // L D kept above the diagonal.
  method SubtractFormed(F: array2<real>, j: int, p0: int, p: int, ghost m: Mat, ghost t: seq<int>)
    requires F.Length0 == F.Length1 && 0 <= p0 <= p <= j < F.Length0
    requires forall c | p0 <= c < p :: F[c, j] == LD(m, t, j, c)
    requires forall i, c | p0 <= c < p && j <= i < F.Length0 :: F[i, c] == L(m, t, i, c)
    requires forall i | j <= i < F.Length0 :: F[i, j] == At(m, i, j)
    modifies F
    ensures forall r, k | 0 <= r < F.Length0 && 0 <= k < F.Length1 ::
      F[r, k] == if k == j && j <= r then At(m, r, j) - LDLt(m, t, r, j, p0, p) else old(F[r, k])
  {
    for c := p0 to p
      invariant forall r, k | 0 <= r < F.Length0 && 0 <= k < F.Length1 ::
        F[r, k] == if k == j && j <= r then At(m, r, j) - LDLt(m, t, r, j, p0, c) else old(F[r, k])
    {
      var b := F[c, j];
      assert b == LD(m, t, j, c);
      if b == 0.0 {
        forall i | j <= i < F.Length0 ensures LDLt(m, t, i, j, p0, c + 1) == LDLt(m, t, i, j, p0, c) {
          ZeroGain(m, t, i, j, c);
        }
      } else {
        SubtractColumn(F, j, c, j, F.Length0, b, m, t, p0);
      }
    }
  }

  /** The trailing block [e, f) receives all the pivots [p0, p) at once. L D
      lives above the diagonal while it is needed, where no lower entry is lost. */
  method SchurUpdate(F: array2<real>, p0: int, p: int, e: int, tags: array<int>)
    requires F.Length0 == F.Length1 && 0 <= p0 <= p <= e <= F.Length0 && p <= tags.Length
    requires Blocks(tags[..], p) && Boundary(tags[..], p0)
    modifies F
    ensures CaughtUp(old(Snapshot(F)), Snapshot(F), tags[..], F.Length0, p0, p, e, F.Length0)
  {
    ghost var m, t := Snapshot(F), tags[..];
    if p <= p0 || F.Length0 <= e {
      forall i, j | 0 <= j <= i < F.Length0
        ensures At(Snapshot(F), i, j) ==
          if e <= j < F.Length0 then At(m, i, j) - LDLt(m, t, i, j, p0, p) else At(m, i, j)
      {
      }
      return;
    }
    FormScaledRows(F, p0, p, e, tags);
    forall i, c | p0 <= c < p && e <= i < F.Length0 ensures F[i, c] == L(m, t, i, c) {
      assert InBlock(t, p, c);
    }
    for j := e to F.Length0
      invariant forall r, k | 0 <= r < F.Length0 && 0 <= k < F.Length0 ::
        F[r, k] == if p0 <= r < p && e <= k then LD(m, t, k, r)
                   else if e <= k < j && k <= r then At(m, r, k) - LDLt(m, t, r, k, p0, p)
                   else At(m, r, k)
    {
      SubtractFormed(F, j, p0, p, m, t);
    }
    forall i, j | 0 <= j <= i < F.Length0
      ensures At(Snapshot(F), i, j) ==
        if e <= j < F.Length0 then At(m, i, j) - LDLt(m, t, i, j, p0, p) else At(m, i, j)
    {
      assert At(Snapshot(F), i, j) == F[i, j];
    }
  }
}
