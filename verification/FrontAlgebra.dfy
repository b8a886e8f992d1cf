/** The algebra of a partly factored front.

    A front is a square array whose lower triangle holds, in its leading columns,
    a unit lower L with D on the diagonal blocks, and behind them entries that lag
    the factorization by a number of pivots depending on the column. `Lagging` is
    the one relation every elimination path keeps. */
module FrontAlgebra {
  import opened Reals

  type Mat = seq<seq<real>>

  // Pivot tags of the eliminated columns.
  const ONE: int := 1      // 1x1 pivot
  const FIRST: int := 2    // first column of a 2x2 pivot
  const SECOND: int := -1  // second column of a 2x2 pivot

  function At(m: Mat, i: int, j: int): real {
    if 0 <= i < |m| && 0 <= j < |m[i]| then m[i][j] else 0.0
  }

  // Entry (i, j) of the symmetric matrix stored in the lower triangle.
  function Sym(m: Mat, i: int, j: int): real {
    if i >= j then At(m, i, j) else At(m, j, i)
  }

  // m holds the entries of F.
  ghost predicate Holds(F: array2<real>, m: Mat)
    reads F
  {
    && |m| == F.Length0
    && (forall i | 0 <= i < |m| :: |m[i]| == F.Length1)
    && forall i, j | 0 <= i < F.Length0 && 0 <= j < F.Length1 :: At(m, i, j) == F[i, j]
  }

  ghost function Snapshot(F: array2<real>): (m: Mat)
    reads F
    ensures |m| == F.Length0
    ensures forall i | 0 <= i < |m| :: |m[i]| == F.Length1
    ensures forall i, j | 0 <= i < F.Length0 && 0 <= j < F.Length1 :: At(m, i, j) == F[i, j]
  {
    assert Holds(F, seq(F.Length0, i requires 0 <= i < F.Length0 reads F =>
                          seq(F.Length1, j requires 0 <= j < F.Length1 reads F => F[i, j])));
    var m :| Holds(F, m);
    m
  }

  function Tag(t: seq<int>, c: int): int {
    if 0 <= c < |t| then t[c] else 0
  }

  // The tags of [0, k) are whole pivot blocks.
  ghost predicate Blocks(t: seq<int>, k: int) {
    0 <= k <= |t| && forall c | 0 <= c < k :: InBlock(t, k, c)
  }

  ghost predicate InBlock(t: seq<int>, k: int, c: int) {
    || Tag(t, c) == ONE
    || (Tag(t, c) == FIRST && c + 1 < k && Tag(t, c + 1) == SECOND)
    || (Tag(t, c) == SECOND && c > 0 && Tag(t, c - 1) == FIRST)
  }

  // No pivot block straddles column c.
  predicate Boundary(t: seq<int>, c: int) {
    c == 0 || Tag(t, c - 1) != FIRST
  }

  // Entry (i, c) of the unit lower L.
  function L(m: Mat, t: seq<int>, i: int, c: int): real {
    if i < c then 0.0
    else if i == c then 1.0
    else if Tag(t, c) == FIRST && i == c + 1 then 0.0
    else At(m, i, c)
  }

  // Entry (i, c) of L D.
  function LD(m: Mat, t: seq<int>, i: int, c: int): real {
    if Tag(t, c) == FIRST then L(m, t, i, c) * At(m, c, c) + L(m, t, i, c + 1) * At(m, c + 1, c)
    else if Tag(t, c) == SECOND then L(m, t, i, c - 1) * At(m, c, c - 1) + L(m, t, i, c) * At(m, c, c)
    else L(m, t, i, c) * At(m, c, c)
  }

  // What column c adds to entry (i, j) of L D L^T.
  function Gain(m: Mat, t: seq<int>, i: int, j: int, c: int): real {
    L(m, t, i, c) * LD(m, t, j, c)
  }

  // Entry (i, j) of L D L^T summed over the pivot columns [lo, hi).
  ghost function LDLt(m: Mat, t: seq<int>, i: int, j: int, lo: int, hi: int): real
    decreases hi - lo
  {
    if hi <= lo then 0.0
    else LDLt(m, t, i, j, lo, hi - 1) + Gain(m, t, i, j, hi - 1)
  }

  // How many pivots the entries of each column have received: those before `pl`
  // all k, the other eligible ones (before e) `ps`, the rest `base`.
  datatype Lag = Lag(k: int, pl: int, ps: int, e: int, base: int)

  function Stage(g: Lag, j: int): int {
    if j < g.pl then g.k else if j < g.e then g.ps else g.base
  }

  ghost predicate Symmetric(A: (int, int) -> real) {
    forall a, b :: A(a, b) == A(b, a)
  }

  // Entry (i, j), i >= j, of the part of the front that is not in L D L^T yet.
  function Rest(m: Mat, g: Lag, i: int, j: int): real {
    if j < g.k then 0.0 else At(m, i, j)
  }

  function Depth(g: Lag, j: int): int {
    if j < g.k then g.k else Stage(g, j)
  }

  ghost predicate EntryLags(A: (int, int) -> real, m: Mat, rows: seq<int>, t: seq<int>, g: Lag, i: int, j: int)
    requires 0 <= j <= i < |rows|
  {
    A(rows[i], rows[j]) == LDLt(m, t, i, j, 0, Depth(g, j)) + Rest(m, g, i, j)
  }

  ghost predicate WellTagged(t: seq<int>, g: Lag) {
    && 0 <= g.base <= g.ps <= g.k <= g.e
    && Blocks(t, g.k)
    && Boundary(t, g.base) && Boundary(t, g.ps)
  }

  /** The front `m`, its rows permuted as `rows` says, represents the symmetric A:
      every entry is A's minus the pivots its column has received. */
  ghost predicate Lagging(A: (int, int) -> real, m: Mat, rows: seq<int>, t: seq<int>, g: Lag) {
    && WellTagged(t, g)
    && g.e <= |rows| <= |t|
    && forall i, j | 0 <= j <= i < |rows| :: EntryLags(A, m, rows, t, g, i, j)
  }

  // Every column is up to date: P A P^T = L D L^T + Schur complement.
  ghost predicate Factored(A: (int, int) -> real, m: Mat, rows: seq<int>, t: seq<int>, k: int, e: int) {
    Lagging(A, m, rows, t, Lag(k, |rows|, k, e, k))
  }

  lemma {:induction false} LDLtSplit(m: Mat, t: seq<int>, i: int, j: int, lo: int, mid: int, hi: int)
    requires lo <= mid <= hi
    ensures LDLt(m, t, i, j, lo, hi) == LDLt(m, t, i, j, lo, mid) + LDLt(m, t, i, j, mid, hi)
    decreases hi - mid
  {
    if mid < hi {
      LDLtSplit(m, t, i, j, lo, mid, hi - 1);
    }
  }

  // The block (c, c + 1) contributes symmetrically.
  lemma BlockSymmetric(li0: real, li1: real, lj0: real, lj1: real, d00: real, d10: real, d11: real)
    ensures li0 * (lj0 * d00 + lj1 * d10) + li1 * (lj0 * d10 + lj1 * d11)
         == lj0 * (li0 * d00 + li1 * d10) + lj1 * (li0 * d10 + li1 * d11)
  {
    assert li0 * (lj0 * d00 + lj1 * d10) == li0 * (lj0 * d00) + li0 * (lj1 * d10);
    assert li1 * (lj0 * d10 + lj1 * d11) == li1 * (lj0 * d10) + li1 * (lj1 * d11);
    assert lj0 * (li0 * d00 + li1 * d10) == lj0 * (li0 * d00) + lj0 * (li1 * d10);
    assert lj1 * (li0 * d10 + li1 * d11) == lj1 * (li0 * d10) + lj1 * (li1 * d11);
    assert li0 * (lj0 * d00) == lj0 * (li0 * d00);
    assert li0 * (lj1 * d10) == lj1 * (li0 * d10);
    assert li1 * (lj0 * d10) == lj0 * (li1 * d10);
    assert li1 * (lj1 * d11) == lj1 * (li1 * d11);
  }

  lemma BlocksEndAtBoundary(t: seq<int>, k: int)
    requires Blocks(t, k)
    ensures Boundary(t, k)
  {
    if k > 0 { assert InBlock(t, k, k - 1); }
  }

  // L D L^T is symmetric at every block boundary.
  lemma {:induction false} LDLtSymmetric(m: Mat, t: seq<int>, i: int, j: int, hi: int)
    requires 0 <= hi
    requires exists k :: hi <= k && Blocks(t, k)
    requires Boundary(t, hi)
    ensures LDLt(m, t, i, j, 0, hi) == LDLt(m, t, j, i, 0, hi)
    decreases hi
  {
    if hi > 0 {
      var c := hi - 1;
      var k :| hi <= k && Blocks(t, k);
      assert InBlock(t, k, c);
      if Tag(t, c) == SECOND {
        assert Boundary(t, c - 1) by { if c - 1 > 0 { assert InBlock(t, k, c - 2); } }
        LDLtSymmetric(m, t, i, j, c - 1);
        PairSymmetric(m, t, i, j, c);
        LDLtPair(m, t, i, j, c);
        LDLtPair(m, t, j, i, c);
      } else {
        assert Boundary(t, c) by { if c > 0 { assert InBlock(t, k, c - 1); } }
        LDLtSymmetric(m, t, i, j, c);
        SingleSymmetric(m, t, i, j, c);
      }
    }
  }

  lemma LDLtPair(m: Mat, t: seq<int>, i: int, j: int, c: int)
    requires c > 0
    ensures LDLt(m, t, i, j, 0, c + 1) == LDLt(m, t, i, j, 0, c - 1) + PairTerm(m, t, i, j, c)
  {
    assert LDLt(m, t, i, j, 0, c) == LDLt(m, t, i, j, 0, c - 1) + Gain(m, t, i, j, c - 1);
  }

  // What the 2x2 block at (c - 1, c) adds to L D L^T.
  function PairTerm(m: Mat, t: seq<int>, i: int, j: int, c: int): real {
    Gain(m, t, i, j, c - 1) + Gain(m, t, i, j, c)
  }

  lemma PairSymmetric(m: Mat, t: seq<int>, i: int, j: int, c: int)
    requires Tag(t, c) == SECOND && Tag(t, c - 1) == FIRST
    ensures PairTerm(m, t, i, j, c) == PairTerm(m, t, j, i, c)
  {
    BlockSymmetric(L(m, t, i, c - 1), L(m, t, i, c), L(m, t, j, c - 1), L(m, t, j, c),
                   At(m, c - 1, c - 1), At(m, c, c - 1), At(m, c, c));
  }

  lemma SingleSymmetric(m: Mat, t: seq<int>, i: int, j: int, c: int)
    requires Tag(t, c) == ONE
    ensures Gain(m, t, i, j, c) == Gain(m, t, j, i, c)
  {
    Exchange(L(m, t, i, c), L(m, t, j, c), At(m, c, c));
  }

  lemma Exchange(x: real, y: real, d: real)
    ensures x * (y * d) == y * (x * d)
  {
  }

  // Where row i of two fronts agrees in the columns [0, hi) and their D agree,
  // so do their sums (the rows may sit at different positions).
  lemma {:induction false} LDLtFrame(m: Mat, t: seq<int>, i: int, j: int, m': Mat, t': seq<int>, i': int, j': int, hi: int)
    requires 0 <= hi
    requires forall c | 0 <= c < hi :: L(m, t, i, c) == L(m', t', i', c)
    requires forall c | 0 <= c < hi :: LD(m, t, j, c) == LD(m', t', j', c)
    ensures LDLt(m, t, i, j, 0, hi) == LDLt(m', t', i', j', 0, hi)
    decreases hi
  {
    if hi > 0 {
      LDLtFrame(m, t, i, j, m', t', i', j', hi - 1);
    }
  }
}
