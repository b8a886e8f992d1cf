/** The in-place updates of the front kernel: symmetric swap, 1x1 and 2x2
    elimination with saved columns, and the late rank updates. */
module FrontUpdates {
  import opened Reals
  import opened FrontAlgebra
  import opened FrontSteps

  // Exchanges positions p <= q of the lower-stored front, of `rows` and of the
  // first wCols columns of W.
  method SymSwap(F: array2<real>, p: int, q: int, rows: array<int>, W: array2<real>, wCols: int)
    requires F.Length0 == F.Length1 == rows.Length && 0 <= p <= q < rows.Length
    requires W != F && W.Length0 == rows.Length && 0 <= wCols <= W.Length1
    modifies F, rows, W
    ensures Swapped(old(Snapshot(F)), Snapshot(F), rows.Length, p, q)
    ensures forall i, j | 0 <= i < j < rows.Length :: F[i, j] == old(F[i, j])
    ensures RowsSwapped(old(rows[..]), rows[..], p, q)
    ensures forall i, c | 0 <= i < W.Length0 && 0 <= c < W.Length1 ::
      W[i, c] == if c < wCols then old(W[Swap(p, q, i), c]) else old(W[i, c])
  {
    if p == q { return; }
    var f := rows.Length;
    SwapEntries(F, p, q);
    rows[p], rows[q] := rows[q], rows[p];
    SwapSaved(W, p, q, wCols);
  }

  method SwapSaved(W: array2<real>, p: int, q: int, wCols: int)
    requires 0 <= p < W.Length0 && 0 <= q < W.Length0 && 0 <= wCols <= W.Length1
    modifies W
    ensures forall i, c | 0 <= i < W.Length0 && 0 <= c < W.Length1 ::
      W[i, c] == if c < wCols then old(W[Swap(p, q, i), c]) else old(W[i, c])
  {
    for c := 0 to wCols
      invariant forall i, j | 0 <= i < W.Length0 && 0 <= j < W.Length1 ::
        W[i, j] == if j < c then old(W[Swap(p, q, i), j]) else old(W[i, j])
    {
      W[p, c], W[q, c] := W[q, c], W[p, c];
    }
  }

  method SwapEntries(F: array2<real>, p: int, q: int)
    requires F.Length0 == F.Length1 && 0 <= p < q < F.Length0
    modifies F
    ensures Swapped(old(Snapshot(F)), Snapshot(F), F.Length0, p, q)
    ensures forall i, j | 0 <= i < j < F.Length0 :: F[i, j] == old(F[i, j])
  {
    var f := F.Length0;
    F[p, p], F[q, q] := F[q, q], F[p, p];
    for m := 0 to p
      invariant forall i, j | 0 <= i < f && 0 <= j < f ::
        F[i, j] == if i == j then old(F[Swap(p, q, i), Swap(p, q, i)])
                   else if j < m && (i == p || i == q) then old(F[Swap(p, q, i), j])
                   else old(F[i, j])
    {
      F[p, m], F[q, m] := F[q, m], F[p, m];
    }
    for m := p + 1 to q
      invariant forall i, j | 0 <= i < f && 0 <= j < f ::
        F[i, j] == if i == j then old(F[Swap(p, q, i), Swap(p, q, i)])
                   else if j < p && (i == p || i == q) then old(F[Swap(p, q, i), j])
                   else if j == p && p < i < m then old(F[q, i])
                   else if i == q && p < j < m then old(F[j, p])
                   else old(F[i, j])
    {
      F[m, p], F[q, m] := F[q, m], F[m, p];
    }
    for m := q + 1 to f
      invariant forall i, j | 0 <= i < f && 0 <= j < f ::
        F[i, j] == if i == j then old(F[Swap(p, q, i), Swap(p, q, i)])
                   else if j < p && (i == p || i == q) then old(F[Swap(p, q, i), j])
                   else if j == p && p < i < q then old(F[q, i])
                   else if i == q && p < j < q then old(F[j, p])
                   else if (j == p || j == q) && q < i < m then old(F[i, Swap(p, q, j)])
                   else old(F[i, j])
    {
      F[m, p], F[m, q] := F[m, q], F[m, p];
    }
    forall i, j | 0 <= j <= i < f
      ensures At(Snapshot(F), i, j) == Sym(old(Snapshot(F)), Swap(p, q, i), Swap(p, q, j))
    {
      assert At(Snapshot(F), i, j) == F[i, j];
    }
  }

  // Saves rows [from, f) of column k in column w of W.
  method SaveColumn(F: array2<real>, k: int, from: int, W: array2<real>, w: int)
    requires F.Length0 == F.Length1 == W.Length0 && W != F && 0 <= k < F.Length0 && 0 <= from && 0 <= w < W.Length1
    modifies W
    ensures forall i, c | 0 <= i < W.Length0 && 0 <= c < W.Length1 ::
      W[i, c] == if c == w && i >= from then F[i, k] else old(W[i, c])
  {
    var i := from;
    while i < F.Length0
      invariant from <= i
      invariant forall r, c | 0 <= r < W.Length0 && 0 <= c < W.Length1 ::
        W[r, c] == if c == w && from <= r < i then F[r, k] else old(W[r, c])
    {
      W[i, w] := F[i, k];
      i := i + 1;
    }
  }

  // Eliminates the 1x1 pivot at k: the columns (k, ucol) are updated at once; with
  // `save`, the unscaled column is kept in W's column w.
  method Eliminate1x1(F: array2<real>, k: int, ucol: int, W: array2<real>, save: bool, w: int) returns (ghost inv: real)
    requires F.Length0 == F.Length1 && 0 <= k < F.Length0 && ucol <= F.Length0
    requires F[k, k] != 0.0
    requires W != F && W.Length0 == F.Length0 && (save ==> 0 <= w < W.Length1)
    modifies F, W
    ensures Eliminated1(old(Snapshot(F)), Snapshot(F), F.Length0, k, ucol, inv)
    ensures forall i, c | 0 <= i < W.Length0 && 0 <= c < W.Length1 ::
      W[i, c] == if save && c == w && i > k then old(F[i, k]) else old(W[i, c])
  {
    ghost var m := Snapshot(F);
    var invD := 1.0 / F[k, k];
    inv := invD;
    DivCancel(1.0, F[k, k]);
    assert inv * At(m, k, k) == 1.0;
    if save { SaveColumn(F, k, k + 1, W, w); }
    UpdateColumns1(F, k, ucol, invD, m);
    ScaleColumn(F, k, invD, m);
    forall i, j | 0 <= j <= i < F.Length0
      ensures At(Snapshot(F), i, j) == Result1(m, k, ucol, i, j, inv)
    {
      assert At(Snapshot(F), i, j) == F[i, j];
    }
  }

  method UpdateColumns1(F: array2<real>, k: int, ucol: int, invD: real, ghost m: Mat)
    requires F.Length0 == F.Length1 && 0 <= k < F.Length0 && ucol <= F.Length0
    requires forall i, j | 0 <= i < F.Length0 && 0 <= j < F.Length0 :: F[i, j] == At(m, i, j)
    modifies F
    ensures forall r, c | 0 <= c <= r < F.Length0 ::
      F[r, c] == if k < c < ucol then Updated1(m, k, r, c, invD) else At(m, r, c)
  {
    var f := F.Length0;
    var j := k + 1;
    while j < ucol
      invariant k < j && (j <= ucol || j == k + 1)
      invariant forall r, c | 0 <= c <= r < f ::
        F[r, c] == if k < c < j then Updated1(m, k, r, c, invD) else At(m, r, c)
    {
      var lj := F[j, k] * invD;
      if lj == 0.0 {
        forall r | j <= r < f ensures Updated1(m, k, r, j, invD) == At(m, r, j) {
          SkippedUpdate1(m, k, r, j, invD);
        }
      } else {
        UpdateColumn1(F, k, j, lj, m, invD);
      }
      j := j + 1;
    }
  }

  lemma SkippedUpdate1(m: Mat, k: int, i: int, j: int, inv: real)
    requires At(m, j, k) * inv == 0.0
    ensures Updated1(m, k, i, j, inv) == At(m, i, j)
  {
  }

  // Column j minus column k times lj.
  method UpdateColumn1(F: array2<real>, k: int, j: int, lj: real, ghost m: Mat, ghost inv: real)
    requires F.Length0 == F.Length1 && 0 <= k < j < F.Length0
    requires lj == At(m, j, k) * inv
    requires forall i | j <= i < F.Length0 :: F[i, j] == At(m, i, j) && F[i, k] == At(m, i, k)
    modifies F
    ensures forall r, c | 0 <= r < F.Length0 && 0 <= c < F.Length0 ::
      F[r, c] == if c == j && r >= j then Updated1(m, k, r, j, inv) else old(F[r, c])
  {
    for i := j to F.Length0
      invariant forall r, c | 0 <= r < F.Length0 && 0 <= c < F.Length0 ::
        F[r, c] == if c == j && j <= r < i then Updated1(m, k, r, j, inv) else old(F[r, c])
    {
      assert Updated1(m, k, i, j, inv) == F[i, j] - F[i, k] * lj;
      F[i, j] := F[i, j] - F[i, k] * lj;
    }
  }

  // Column k below the diagonal times invD.
  method ScaleColumn(F: array2<real>, k: int, invD: real, ghost m: Mat)
    requires F.Length0 == F.Length1 && 0 <= k < F.Length0
    requires forall i | k < i < F.Length0 :: F[i, k] == At(m, i, k)
    modifies F
    ensures forall r, c | 0 <= r < F.Length0 && 0 <= c < F.Length0 ::
      F[r, c] == if c == k && r > k then At(m, r, k) * invD else old(F[r, c])
  {
    for i := k + 1 to F.Length0
      invariant forall r, c | 0 <= r < F.Length0 && 0 <= c < F.Length0 ::
        F[r, c] == if c == k && k < r < i then At(m, r, k) * invD else old(F[r, c])
    {
      F[i, k] := F[i, k] * invD;
    }
  }

  // Eliminates the 2x2 pivot at (k, k + 1); the same contract, with two saved columns.
  method Eliminate2x2(F: array2<real>, k: int, ucol: int, W: array2<real>, save: bool, w: int) returns (ghost v: Inverse)
    requires F.Length0 == F.Length1 && 0 <= k && k + 1 < F.Length0 && ucol <= F.Length0
    requires ScaledDet(F[k, k], F[k + 1, k], F[k + 1, k + 1]) != 0.0
    requires W != F && W.Length0 == F.Length0 && (save ==> 0 <= w && w + 1 < W.Length1)
    modifies F, W
    ensures Eliminated2(old(Snapshot(F)), Snapshot(F), F.Length0, k, ucol, v)
    ensures ScaledFrom(old(F[k, k]), old(F[k + 1, k]), old(F[k + 1, k + 1]), v)
    ensures forall i, c | 0 <= i < W.Length0 && 0 <= c < W.Length1 ::
      W[i, c] == if save && c == w && i > k + 1 then old(F[i, k])
                 else if save && c == w + 1 && i > k + 1 then old(F[i, k + 1])
                 else old(W[i, c])
  {
    ghost var m := Snapshot(F);
    var inv := Inverse2x2(F[k, k], F[k + 1, k], F[k + 1, k + 1]);
    v := inv;
    InverseIdentity(F[k, k], F[k + 1, k], F[k + 1, k + 1], Scale2(F[k, k], F[k + 1, k], F[k + 1, k + 1]), inv);
    assert Inverts(At(m, k, k), At(m, k + 1, k), At(m, k + 1, k + 1), v);
    if save {
      SaveColumn(F, k, k + 2, W, w);
      SaveColumn(F, k + 1, k + 2, W, w + 1);
    }
    UpdateColumns2(F, k, ucol, inv, m);
    SolveColumns(F, k, inv, m);
    forall i, j | 0 <= j <= i < F.Length0
      ensures At(Snapshot(F), i, j) == Result2(m, k, ucol, i, j, v)
    {
      assert At(Snapshot(F), i, j) == F[i, j];
    }
  }

  method UpdateColumns2(F: array2<real>, k: int, ucol: int, inv: Inverse, ghost m: Mat)
    requires F.Length0 == F.Length1 && 0 <= k && k + 1 < F.Length0 && ucol <= F.Length0
    requires forall i, j | 0 <= i < F.Length0 && 0 <= j < F.Length0 :: F[i, j] == At(m, i, j)
    modifies F
    ensures forall r, c | 0 <= c <= r < F.Length0 ::
      F[r, c] == if k + 1 < c < ucol then Updated2(m, k, r, c, inv) else At(m, r, c)
  {
    var f := F.Length0;
    var j := k + 2;
    while j < ucol
      invariant k + 1 < j && (j <= ucol || j == k + 2)
      invariant forall r, c | 0 <= c <= r < f ::
        F[r, c] == if k + 1 < c < j then Updated2(m, k, r, c, inv) else At(m, r, c)
    {
      var a0, a1 := F[j, k], F[j, k + 1];
      var l0, l1 := Dot(inv.I00(), inv.I10(), a0, a1), Dot(inv.I10(), inv.I11(), a0, a1);
      assert l0 == Solve0(m, inv, j, k) && l1 == Solve1(m, inv, j, k);
      if l0 == 0.0 && l1 == 0.0 {
        forall r | j <= r < f ensures Updated2(m, k, r, j, inv) == At(m, r, j) {
          SkippedUpdate2(m, k, r, j, inv);
        }
      } else {
        UpdateColumn2(F, k, j, l0, l1, m, inv);
      }
      j := j + 1;
    }
  }

  lemma SkippedUpdate2(m: Mat, k: int, i: int, j: int, v: Inverse)
    requires Solve0(m, v, j, k) == 0.0 && Solve1(m, v, j, k) == 0.0
    ensures Updated2(m, k, i, j, v) == At(m, i, j)
  {
  }

  method UpdateColumn2(F: array2<real>, k: int, j: int, l0: real, l1: real, ghost m: Mat, ghost v: Inverse)
    requires F.Length0 == F.Length1 && 0 <= k && k + 1 < j < F.Length0
    requires l0 == Solve0(m, v, j, k) && l1 == Solve1(m, v, j, k)
    requires forall i | j <= i < F.Length0 ::
      F[i, j] == At(m, i, j) && F[i, k] == At(m, i, k) && F[i, k + 1] == At(m, i, k + 1)
    modifies F
    ensures forall r, c | 0 <= r < F.Length0 && 0 <= c < F.Length0 ::
      F[r, c] == if c == j && r >= j then Updated2(m, k, r, j, v) else old(F[r, c])
  {
    for i := j to F.Length0
      invariant forall r, c | 0 <= r < F.Length0 && 0 <= c < F.Length0 ::
        F[r, c] == if c == j && j <= r < i then Updated2(m, k, r, j, v) else old(F[r, c])
    {
      var x := F[i, j] - (F[i, k] * l0 + F[i, k + 1] * l1);
      assert x == Updated2(m, k, i, j, v);
      F[i, j] := x;
    }
  }

  // Columns k and k + 1 below the block times its inverse.
  method SolveColumns(F: array2<real>, k: int, inv: Inverse, ghost m: Mat)
    requires F.Length0 == F.Length1 && 0 <= k && k + 1 < F.Length0
    requires forall i | k + 1 < i < F.Length0 :: F[i, k] == At(m, i, k) && F[i, k + 1] == At(m, i, k + 1)
    modifies F
    ensures forall r, c | 0 <= r < F.Length0 && 0 <= c < F.Length0 ::
      F[r, c] == if c == k && r > k + 1 then Solve0(m, inv, r, k)
                 else if c == k + 1 && r > k + 1 then Solve1(m, inv, r, k)
                 else old(F[r, c])
  {
    for i := k + 2 to F.Length0
      invariant forall r, c | 0 <= r < F.Length0 && 0 <= c < F.Length0 ::
        F[r, c] == if c == k && k + 1 < r < i then Solve0(m, inv, r, k)
                   else if c == k + 1 && k + 1 < r < i then Solve1(m, inv, r, k)
                   else old(F[r, c])
    {
      var a0, a1 := F[i, k], F[i, k + 1];
      F[i, k] := Dot(inv.I00(), inv.I10(), a0, a1);
      F[i, k + 1] := Dot(inv.I10(), inv.I11(), a0, a1);
    }
  }
}
