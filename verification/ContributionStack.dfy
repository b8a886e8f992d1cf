/** The contribution stack of a postorder run: where each waiting block lies, popping
    the children of a front, pushing its own block, and the symbolic plan of the peak. */
module ContributionStack {
  import opened Reals
  import opened FrontAlgebra
  import opened SymbolicTree
  import opened FrontTerms
  import opened FrontAssembly
  import opened FrontStore

  // What is recorded of every supernode's block.
  datatype Records = Records(valueOff: seq<int>, rowOff: seq<int>, size: seq<int>, delayed: seq<int>)

  // Front d has run and its parent has not.
  predicate Waiting(keep: Keep, d: int, s: int) {
    0 <= d < s && d < |keep.sn| && keep.sn[d].parent >= s
  }

  // Total weight of the waiting blocks below hi.
  function WaitingSum(keep: Keep, w: seq<int>, hi: int, s: int): int
    decreases hi
  {
    if hi <= 0 then 0
    else WaitingSum(keep, w, hi - 1, s) + (if Waiting(keep, hi - 1, s) && hi - 1 < |w| then w[hi - 1] else 0)
  }

  function Areas(size: seq<int>): (r: seq<int>)
    ensures |r| == |size| && forall d | 0 <= d < |size| :: r[d] == Tri(size[d])
  {
    seq(|size|, d requires 0 <= d < |size| => Tri(size[d]))
  }

  ghost predicate Nonneg(w: seq<int>) {
    forall d | 0 <= d < |w| :: w[d] >= 0
  }

  lemma {:induction false} WaitingSumGrows(keep: Keep, w: seq<int>, lo: int, hi: int, s: int)
    requires Nonneg(w) && lo <= hi
    ensures WaitingSum(keep, w, lo, s) <= WaitingSum(keep, w, hi, s)
    ensures 0 <= WaitingSum(keep, w, hi, s)
    decreases hi
  {
    if hi > 0 {
      WaitingSumGrows(keep, w, if lo < hi then lo else hi - 1, hi - 1, s);
    }
  }

  // Nothing with weight waits in [lo, hi).
  lemma {:induction false} WaitingSumGap(keep: Keep, w: seq<int>, lo: int, hi: int, s: int)
    requires 0 <= lo <= hi && forall d | lo <= d < hi && d < |w| && Waiting(keep, d, s) :: w[d] == 0
    ensures WaitingSum(keep, w, lo, s) == WaitingSum(keep, w, hi, s)
    decreases hi
  {
    if lo < hi { WaitingSumGap(keep, w, lo, hi - 1, s); }
  }

  lemma {:induction false} WaitingSumSame(keep: Keep, w: seq<int>, w': seq<int>, hi: int, s: int, s': int)
    requires forall d | 0 <= d < hi :: Waiting(keep, d, s) == Waiting(keep, d, s')
    requires |w| == |w'| && forall d | 0 <= d < hi && d < |w| && Waiting(keep, d, s) :: w[d] == w'[d]
    ensures WaitingSum(keep, w, hi, s) == WaitingSum(keep, w', hi, s')
    decreases hi
  {
    if hi > 0 { WaitingSumSame(keep, w, w', hi - 1, s, s'); }
  }

  // Every waiting block starts where the blocks before it end.
  ghost predicate Stacked(keep: Keep, w: seq<int>, off: seq<int>, s: int) {
    |off| == |w| && forall d {:trigger off[d]} | Waiting(keep, d, s) && d < |w| && w[d] > 0 :: off[d] == WaitingSum(keep, w, d, s)
  }

  /** Waiting blocks are disjoint and in order, and none reaches past the sum of all. */
  lemma WaitingDisjoint(keep: Keep, w: seq<int>, off: seq<int>, s: int, c: int, d: int)
    requires Stacked(keep, w, off, s) && Nonneg(w) && 0 <= c < |w| && Waiting(keep, c, s) && w[c] > 0
    requires c < d <= s && (d < s ==> d < |w| && Waiting(keep, d, s) && w[d] > 0)
    ensures 0 <= off[c] && off[c] + w[c] <= if d < s then off[d] else WaitingSum(keep, w, s, s)
  {
    WaitingSumGrows(keep, w, c + 1, d, s);
    WaitingSumGrows(keep, w, c, c, s);
  }

  // ---- popping ----

  // Between two consecutive children of s, and below the last one, no other front of s waits.
  lemma OnlyKidsWait(keep: Keep, s: int, i: int, d: int)
    requires keep.Tree() && 0 <= s < |keep.sn| && 0 <= i <= |keep.kids[s]| && Waiting(keep, d, s)
    requires d < (if i == 0 then s else keep.kids[s][i - 1]) && (i < |keep.kids[s]| ==> d > keep.kids[s][i])
    ensures i == |keep.kids[s]| && keep.sn[d].parent > s
  {
    if keep.sn[d].parent == s {
      var j := keep.KidIndex(d);
      assert false;
    }
  }

  // The stack below child i of s.
  ghost function Below(keep: Keep, w: seq<int>, s: int, i: int): int
    requires 0 <= s < |keep.sn| && |keep.kids| == |keep.sn| && 0 <= i <= |keep.kids[s]|
  {
    WaitingSum(keep, w, if i == 0 then s else keep.kids[s][i - 1], s)
  }

  lemma PopOne(keep: Keep, w: seq<int>, s: int, i: int)
    requires keep.Tree() && 0 <= s < |keep.sn| == |w| && 0 <= i < |keep.kids[s]|
    ensures Below(keep, w, s, i) == Below(keep, w, s, i + 1) + w[keep.kids[s][i]]
    ensures Waiting(keep, keep.kids[s][i], s)
  {
    var c := keep.kids[s][i];
    var hi := if i == 0 then s else keep.kids[s][i - 1];
    assert i > 0 ==> keep.kids[s][i - 1] > c;
    forall d | c + 1 <= d < hi && Waiting(keep, d, s)
      ensures false
    {
      OnlyKidsWait(keep, s, i, d);
    }
    WaitingSumGap(keep, w, c + 1, hi, s);
  }

  // What is left once s has consumed its children is what waits for later fronts.
  lemma PopAll(keep: Keep, w: seq<int>, s: int)
    requires keep.Tree() && 0 <= s < |keep.sn| == |w|
    ensures Below(keep, w, s, |keep.kids[s]|) == WaitingSum(keep, w, s, s + 1)
  {
    var kids := keep.kids[s];
    var lo := if |kids| == 0 then s else kids[|kids| - 1];
    var s' := s + 1;
    forall d | lo <= d < s && Waiting(keep, d, s')
      ensures false
    {
    }
    WaitingSumGap(keep, w, lo, s, s + 1);
    forall d | 0 <= d < lo
      ensures Waiting(keep, d, s) == Waiting(keep, d, s + 1)
    {
      if Waiting(keep, d, s) { OnlyKidsWait(keep, s, |kids|, d); }
    }
    WaitingSumSame(keep, w, w, lo, s, s + 1);
  }

  // A held first child occupies no stack.
  ghost function BelowFrom(keep: Keep, w: seq<int>, s: int, i: int, held: bool): int
    requires 0 <= s < |keep.sn| && |keep.kids| == |keep.sn| && 0 <= i <= |keep.kids[s]|
  {
    if held && i == 0 && |keep.kids[s]| > 0 then Below(keep, w, s, 1) else Below(keep, w, s, i)
  }

  // The stack when front s is assembled: w weighs the blocks of the given sizes.
  ghost predicate StackBefore(keep: Keep, s: int, off: seq<int>, size: seq<int>, w: seq<int>) {
    && keep.Tree() && 0 <= s < |keep.sn| == |w| == |size| && Nonneg(w) && Stacked(keep, w, off, s)
    && forall d | Waiting(keep, d, s) :: (size[d] > 0 <==> w[d] > 0)
  }

  lemma PopStart(keep: Keep, s: int, off: seq<int>, size: seq<int>, w: seq<int>, held: bool)
    requires StackBefore(keep, s, off, size, w) && (held ==> s > 0 && keep.sn[s - 1].parent == s)
    ensures BelowFrom(keep, w, s, 0, held) == WaitingSum(keep, w, if held then s - 1 else s, s)
    ensures held ==> |keep.kids[s]| > 0
  {
    if held { HeldIsFirst(keep, s); }
  }

  function Lowered(top: int, size: int, off: int): int {
    if size > 0 && off < top then off else top
  }

  lemma PopStep(keep: Keep, s: int, off: seq<int>, size: seq<int>, w: seq<int>, i: int, top: int, held: bool)
    requires StackBefore(keep, s, off, size, w)
    requires 0 <= i < |keep.kids[s]| && top == BelowFrom(keep, w, s, i, held)
    ensures 0 <= keep.kids[s][i] < |w|
    ensures Lowered(top, size[keep.kids[s][i]], off[keep.kids[s][i]]) == BelowFrom(keep, w, s, i + 1, held)
  {
    PopOne(keep, w, s, i);
  }

  /** Popping takes the lowest offset of the nonempty children; a last child held
      outside the stack has the top as its offset. The result is exactly the end of
      the blocks still waiting for later fronts. */
  method PopChildren(keep: Keep, s: int, off: seq<int>, size: seq<int>, top: int, ghost w: seq<int>, ghost held: bool)
      returns (top': int)
    requires StackBefore(keep, s, off, size, w)
    requires top == WaitingSum(keep, w, if held then s - 1 else s, s)
    requires held ==> s > 0 && keep.sn[s - 1].parent == s
    ensures top' == WaitingSum(keep, w, s, s + 1)
  {
    top' := top;
    PopStart(keep, s, off, size, w, held);
    var kids := keep.kids[s];
    for i := 0 to |kids|
      invariant top' == BelowFrom(keep, w, s, i, held)
    {
      PopStep(keep, s, off, size, w, i, top', held);
      top' := Lowered(top', size[kids[i]], off[kids[i]]);
    }
    PopAll(keep, w, s);
  }

  lemma HeldIsFirst(keep: Keep, s: int)
    requires keep.Tree() && 0 < s < |keep.sn| && keep.sn[s - 1].parent == s
    ensures |keep.kids[s]| > 0 && keep.kids[s][0] == s - 1
  {
    var j := keep.KidIndex(s - 1);
  }

  // ---- pushing ----

  method Grow<T>(v: seq<T>, need: int, fill: T) returns (r: seq<T>)
    requires need >= 0
    ensures |r| >= need && |r| >= |v| && r[..|v|] == v
  {
    r := if |v| >= need then v else v + seq(need - |v|, _ => fill);
  }

  // Column jj of the trailing square behind p has been copied to the packed block at
  // `top`, and nothing below it has changed.
  ghost predicate ColumnCopied(r: seq<real>, r': seq<real>, top: int, m: Mat, p: int, q: int, jj: int, hi: int) {
    && |r'| == |r|
    && (forall x | 0 <= x < |r| && x < top + PackedStart(q, jj) :: r'[x] == r[x])
    && (forall i | jj <= i < hi ::
          0 <= top + PackedAt(q, i, jj) < |r| && r'[top + PackedAt(q, i, jj)] == At(m, p + i, p + jj))
  }

  method CopyColumn(F: array2<real>, p: int, q: int, jj: int, vals: seq<real>, dst: int, ghost top: int)
      returns (r: seq<real>)
    requires F.Length0 == F.Length1 == p + q && 0 <= p && 0 <= jj < q && 0 <= top <= dst == top + PackedStart(q, jj)
    requires dst + (q - jj) <= |vals|
    ensures ColumnCopied(vals, r, top, Snapshot(F), p, q, jj, q)
  {
    r := vals;
    for i := jj to q
      invariant ColumnCopied(vals, r, top, Snapshot(F), p, q, jj, i)
    {
      r := r[dst + (i - jj) := F[p + i, p + jj]];
    }
  }

  // The first jj columns of the packed block at `top` are copied.
  ghost predicate CopiedUpTo(r: seq<real>, top: int, m: Mat, p: int, q: int, jj: int) {
    forall i, j | 0 <= j <= i < q && j < jj ::
      0 <= top + PackedAt(q, i, j) < |r| && r[top + PackedAt(q, i, j)] == At(m, p + i, p + j)
  }

  lemma {:induction false} PackedOrder(q: int, i: int, j: int, jj: int)
    requires 0 <= j <= i < q && j < jj <= q
    ensures 0 <= PackedAt(q, i, j) < PackedStart(q, jj) <= Tri(q)
  {
    PackedEnd(q, j);
    PackedEnd(q, jj);
    PackedGrows(q, j + 1, jj);
  }

  lemma {:induction false} PackedGrows(q: int, j: int, jj: int)
    requires 0 <= j <= jj <= q
    ensures PackedStart(q, j) <= PackedStart(q, jj)
    decreases jj
  {
    if j < jj { PackedGrows(q, j, jj - 1); }
  }

  lemma CopyNext(r: seq<real>, r': seq<real>, top: int, m: Mat, p: int, q: int, jj: int)
    requires CopiedUpTo(r, top, m, p, q, jj) && 0 <= jj < q && 0 <= top && top + Tri(q) <= |r|
    requires ColumnCopied(r, r', top, m, p, q, jj, q)
    ensures CopiedUpTo(r', top, m, p, q, jj + 1)
  {
    forall i, j | 0 <= j <= i < q && j < jj + 1
      ensures 0 <= top + PackedAt(q, i, j) < |r'| && r'[top + PackedAt(q, i, j)] == At(m, p + i, p + j)
    {
      if j < jj { PackedOrder(q, i, j, jj); }
    }
  }

  lemma CopiedAll(r: seq<real>, top: int, m: Mat, p: int, q: int)
    requires CopiedUpTo(r, top, m, p, q, q) && 0 <= top && top + Tri(q) <= |r| && 0 <= p && 0 <= q
    ensures PackedHolds(r[top..top + Tri(q)], Trailing(m, p, p + q), q)
  {
    forall i, j | 0 <= j <= i < q
      ensures 0 <= PackedAt(q, i, j) < Tri(q) && r[top..top + Tri(q)][PackedAt(q, i, j)] == At(Trailing(m, p, p + q), i, j)
    {
      PackedOrder(q, i, j, q);
      assert r[top + PackedAt(q, i, j)] == At(m, p + i, p + j);
    }
  }

  /** Pushes the packed lower triangle behind position p; everything below the old top
      stays. */
  method PushBlock(F: array2<real>, p: int, vals: seq<real>, top: int) returns (r: seq<real>)
    requires F.Length0 == F.Length1 && 0 <= p <= F.Length0 && 0 <= top <= |vals|
    ensures |r| >= top + Tri(F.Length0 - p) && r[..top] == vals[..top]
    ensures PackedHolds(r[top..top + Tri(F.Length0 - p)], Trailing(Snapshot(F), p, F.Length0), F.Length0 - p)
  {
    var q := F.Length0 - p;
    r := Grow(vals, top + Tri(q), 0.0);
    var dst := top;
    for jj := 0 to q
      invariant dst == top + PackedStart(q, jj) && |r| >= top + Tri(q)
      invariant r[..top] == vals[..top]
      invariant CopiedUpTo(r, top, Snapshot(F), p, q, jj)
    {
      PackedEnd(q, jj);
      var r' := CopyColumn(F, p, q, jj, r, dst, top);
      CopyNext(r, r', top, Snapshot(F), p, q, jj);
      assert r'[..top] == r[..top];
      r := r';
      dst := dst + (q - jj);
    }
    CopiedAll(r, top, Snapshot(F), p, q);
  }
}
