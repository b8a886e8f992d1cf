/** The matrices the multifrontal engine moves around, as functions of global row
    ids: original entries, contribution blocks, stored fronts, and their sums. */
module FrontTerms {
  import opened Sequences
  import opened Reals
  import opened FrontAlgebra
  import opened SymbolicTree

  // ---- original entries ----

  function ColSum(es: seq<Entry>, r: int): real {
    if |es| == 0 then 0.0
    else ColSum(es[..|es| - 1], r) + (if es[|es| - 1].row == r then es[|es| - 1].val else 0.0)
  }

  function Lower(a: int, b: int): int { if a < b then a else b }
  function Upper(a: int, b: int): int { if a < b then b else a }

  // Entry (a, b) of the symmetric matrix given by its lower columns; duplicates add.
  function Original(cols: seq<seq<Entry>>, a: int, b: int): real {
    if 0 <= Lower(a, b) < |cols| then ColSum(cols[Lower(a, b)], Upper(a, b)) else 0.0
  }

  lemma {:induction false} ColSumJoins(es: seq<Entry>, fs: seq<Entry>, r: int)
    ensures ColSum(es + fs, r) == ColSum(es, r) + ColSum(fs, r)
    decreases |fs|
  {
    if |fs| == 0 {
      assert es + fs == es;
    } else {
      assert (es + fs)[..|es + fs| - 1] == es + fs[..|fs| - 1];
      ColSumJoins(es, fs[..|fs| - 1], r);
    }
  }

  // The columns with e put at place p of column j.
  function WithEntry(cols: seq<seq<Entry>>, j: int, p: int, e: Entry): seq<seq<Entry>>
    requires 0 <= j < |cols| && 0 <= p <= |cols[j]|
  {
    cols[j := cols[j][..p] + [e] + cols[j][p..]]
  }

  /** Columns without entries give the matrix 0, and an entry put anywhere in column j adds its
      value at (j, row) and (row, j) and nothing elsewhere. */
  lemma {:induction false} OriginalAdds(cols: seq<seq<Entry>>, j: int, p: int, e: Entry, a: int, b: int)
    requires 0 <= j < |cols| && 0 <= p <= |cols[j]| && e.row >= j
    ensures Original(WithEntry(cols, j, p, e), a, b)
         == Original(cols, a, b) + if (a == j && b == e.row) || (a == e.row && b == j) then e.val else 0.0
    ensures (forall c | 0 <= c < |cols| :: cols[c] == []) ==> Original(cols, a, b) == 0.0
  {
    var es, r := cols[j], Upper(a, b);
    ColSumJoins(es[..p], [e], r);
    ColSumJoins(es[..p] + [e], es[p..], r);
    ColSumJoins(es[..p], es[p..], r);
    assert es[..p] + es[p..] == es;
    assert ColSum([e], r) == if e.row == r then e.val else 0.0 by { assert [e][..0] == []; }
  }

  // The part of it in the columns [lo, hi).
  function ColumnsPart(cols: seq<seq<Entry>>, lo: int, hi: int, a: int, b: int): real {
    if lo <= Lower(a, b) < hi then Original(cols, a, b) else 0.0
  }

  lemma {:induction false} ColSumAbsent(es: seq<Entry>, r: int)
    requires forall k | 0 <= k < |es| :: es[k].row != r
    ensures ColSum(es, r) == 0.0
  {
    if |es| > 0 { ColSumAbsent(es[..|es| - 1], r); }
  }

  // ---- contribution blocks ----

  /** A contribution block: its rows, delayed columns first, and the lower triangle
      of its values. */
  datatype Block = Block(rows: seq<int>, m: Mat, delayed: int)

  const EMPTY := Block([], [], 0)

  function BlockTerm(bl: Block, a: int, b: int): real {
    var x, y := IndexOf(bl.rows, a), IndexOf(bl.rows, b);
    if x < 0 || y < 0 then 0.0 else Sym(bl.m, x, y)
  }

  function BlocksSum(bs: seq<Block>, a: int, b: int): real {
    if |bs| == 0 then 0.0 else BlocksSum(bs[..|bs| - 1], a, b) + BlockTerm(bs[|bs| - 1], a, b)
  }

  function KidsSum(bs: seq<Block>, kids: seq<int>, a: int, b: int): real
    requires forall i | 0 <= i < |kids| :: 0 <= kids[i] < |bs|
  {
    if |kids| == 0 then 0.0
    else KidsSum(bs, kids[..|kids| - 1], a, b) + BlockTerm(bs[kids[|kids| - 1]], a, b)
  }

  // The blocks with the listed ones consumed.
  function Cleared(bs: seq<Block>, kids: seq<int>): (r: seq<Block>)
    requires forall i | 0 <= i < |kids| :: 0 <= kids[i] < |bs|
    ensures |r| == |bs|
    ensures forall c | 0 <= c < |bs| :: r[c] == if c in kids then EMPTY else bs[c]
  {
    seq(|bs|, c requires 0 <= c < |bs| => if c in kids then EMPTY else bs[c])
  }

  lemma ClearedStep(bs: seq<Block>, kids: seq<int>)
    requires |kids| > 0 && (forall i | 0 <= i < |kids| :: 0 <= kids[i] < |bs|) && Distinct(kids)
    ensures var init, c := kids[..|kids| - 1], kids[|kids| - 1];
      && (forall i | 0 <= i < |init| :: 0 <= init[i] < |bs|) && Distinct(init)
      && Cleared(bs, kids) == Cleared(bs, init)[c := EMPTY] && Cleared(bs, init)[c] == bs[c]
  {
    var init, c := kids[..|kids| - 1], kids[|kids| - 1];
    assert c !in init;
    assert kids == init + [c];
    assert Cleared(bs, kids) == Cleared(bs, init)[c := EMPTY];
  }

  lemma {:induction false} BlocksUpdate(bs: seq<Block>, c: int, x: Block, a: int, b: int)
    requires 0 <= c < |bs|
    ensures BlocksSum(bs[c := x], a, b) == BlocksSum(bs, a, b) - BlockTerm(bs[c], a, b) + BlockTerm(x, a, b)
    decreases |bs|
  {
    var n := |bs| - 1;
    if c < n {
      assert bs[c := x][..n] == bs[..n][c := x];
      BlocksUpdate(bs[..n], c, x, a, b);
    } else {
      assert bs[c := x][..n] == bs[..n];
    }
  }

  lemma EmptyTerm(a: int, b: int)
    ensures BlockTerm(EMPTY, a, b) == 0.0
  {
  }

  lemma {:induction false} ClearedSum(bs: seq<Block>, kids: seq<int>, a: int, b: int)
    requires forall i | 0 <= i < |kids| :: 0 <= kids[i] < |bs|
    requires Distinct(kids)
    ensures BlocksSum(Cleared(bs, kids), a, b) == BlocksSum(bs, a, b) - KidsSum(bs, kids, a, b)
    decreases |kids|
  {
    if |kids| == 0 {
      assert Cleared(bs, kids) == bs;
    } else {
      var init, c := kids[..|kids| - 1], kids[|kids| - 1];
      ClearedStep(bs, kids);
      ClearedSum(bs, init, a, b);
      BlocksUpdate(Cleared(bs, init), c, EMPTY, a, b);
      EmptyTerm(a, b);
    }
  }

  // ---- stored fronts ----

  /** The stored factor of a front: p columns of unit lower L in the first columns of
      m, whose diagonal keeps d and whose strictly upper slot (c, c + 1) the
      off-diagonal of a 2x2 pivot. */
  datatype Step = Step(rows: seq<int>, m: Mat, tags: seq<int>, p: int)

  function StoredL(m: Mat, i: int, c: int): real {
    if i < c then 0.0 else if i == c then 1.0 else At(m, i, c)
  }

  function StoredLD(m: Mat, t: seq<int>, i: int, c: int): real {
    if Tag(t, c) == FIRST then StoredL(m, i, c) * At(m, c, c) + StoredL(m, i, c + 1) * At(m, c, c + 1)
    else if Tag(t, c) == SECOND then StoredL(m, i, c - 1) * At(m, c - 1, c) + StoredL(m, i, c) * At(m, c, c)
    else StoredL(m, i, c) * At(m, c, c)
  }

  function StoredGain(m: Mat, t: seq<int>, i: int, j: int, c: int): real {
    StoredL(m, i, c) * StoredLD(m, t, j, c)
  }

  ghost function StoredLDLt(m: Mat, t: seq<int>, i: int, j: int, hi: int): real
    decreases hi
  {
    if hi <= 0 then 0.0 else StoredLDLt(m, t, i, j, hi - 1) + StoredGain(m, t, i, j, hi - 1)
  }

  ghost function StepTerm(st: Step, a: int, b: int): real {
    var x, y := IndexOf(st.rows, a), IndexOf(st.rows, b);
    if x < 0 || y < 0 then 0.0 else StoredLDLt(st.m, st.tags, x, y, st.p)
  }

  ghost function StepsSum(steps: seq<Step>, a: int, b: int): real {
    if |steps| == 0 then 0.0 else StepsSum(steps[..|steps| - 1], a, b) + StepTerm(steps[|steps| - 1], a, b)
  }

  // The stored layout of the kernel's first p columns and of the zero pivots [p, ps)
  // a root front adds.
  ghost predicate StoredFrom(m: Mat, t: seq<int>, p: int, sm: Mat, st: seq<int>, ps: int, f: int) {
    && (forall c | 0 <= c < p :: Tag(st, c) == Tag(t, c))
    && (forall c | p <= c < ps :: Tag(st, c) == 0 && At(sm, c, c) == 0.0)
    && (forall i, c | 0 <= c < p && c <= i < f :: At(sm, i, c) == if Tag(t, c) == FIRST && i == c + 1 then 0.0 else At(m, i, c))
    && (forall c | 0 <= c < p && Tag(t, c) == FIRST :: At(sm, c, c + 1) == At(m, c + 1, c))
  }

  lemma StoredGainIs(m: Mat, t: seq<int>, sm: Mat, st: seq<int>, i: int, j: int, c: int)
    requires StoredL(sm, i, c) == L(m, t, i, c) && StoredLD(sm, st, j, c) == LD(m, t, j, c)
    ensures StoredGain(sm, st, i, j, c) == Gain(m, t, i, j, c)
  {
  }

  lemma StoredEntries(m: Mat, t: seq<int>, p: int, sm: Mat, st: seq<int>, ps: int, f: int, i: int)
    requires StoredFrom(m, t, p, sm, st, ps, f) && Blocks(t, p) && p <= ps <= f && 0 <= i < f
    ensures forall c | 0 <= c < p :: StoredL(sm, i, c) == L(m, t, i, c) && StoredLD(sm, st, i, c) == LD(m, t, i, c)
  {
    forall c | 0 <= c < p
      ensures StoredL(sm, i, c) == L(m, t, i, c)
    {
      assert InBlock(t, p, c);
    }
    forall c | 0 <= c < p
      ensures StoredLD(sm, st, i, c) == LD(m, t, i, c)
    {
      assert InBlock(t, p, c);
      assert At(sm, c, c) == At(m, c, c);
      if Tag(t, c) == FIRST {
        StoredFirst(m, t, sm, st, i, c);
      } else if Tag(t, c) == SECOND {
        assert At(sm, c - 1, c) == At(m, c, c - 1);
        StoredSecond(m, t, sm, st, i, c);
      } else {
        StoredSingle(m, t, sm, st, i, c);
      }
    }
  }

  lemma StoredFirst(m: Mat, t: seq<int>, sm: Mat, st: seq<int>, i: int, c: int)
    requires Tag(t, c) == FIRST == Tag(st, c)
    requires StoredL(sm, i, c) == L(m, t, i, c) && StoredL(sm, i, c + 1) == L(m, t, i, c + 1)
    requires At(sm, c, c) == At(m, c, c) && At(sm, c, c + 1) == At(m, c + 1, c)
    ensures StoredLD(sm, st, i, c) == LD(m, t, i, c)
  {
  }

  lemma StoredSecond(m: Mat, t: seq<int>, sm: Mat, st: seq<int>, i: int, c: int)
    requires Tag(t, c) == SECOND == Tag(st, c)
    requires StoredL(sm, i, c) == L(m, t, i, c) && StoredL(sm, i, c - 1) == L(m, t, i, c - 1)
    requires At(sm, c, c) == At(m, c, c) && At(sm, c - 1, c) == At(m, c, c - 1)
    ensures StoredLD(sm, st, i, c) == LD(m, t, i, c)
  {
  }

  lemma StoredSingle(m: Mat, t: seq<int>, sm: Mat, st: seq<int>, i: int, c: int)
    requires Tag(t, c) == ONE == Tag(st, c)
    requires StoredL(sm, i, c) == L(m, t, i, c) && At(sm, c, c) == At(m, c, c)
    ensures StoredLD(sm, st, i, c) == LD(m, t, i, c)
  {
  }

  /** Storing keeps L D L^T, and zero pivots add nothing. */
  lemma {:induction false} StoreKeepsSum(m: Mat, t: seq<int>, p: int, sm: Mat, st: seq<int>, ps: int, f: int, i: int, j: int, hi: int)
    requires StoredFrom(m, t, p, sm, st, ps, f) && Blocks(t, p) && p <= ps <= f && 0 <= i < f && 0 <= j < f
    requires 0 <= hi <= ps
    ensures StoredLDLt(sm, st, i, j, hi) == LDLt(m, t, i, j, 0, if hi < p then hi else p)
    decreases hi
  {
    if hi > 0 {
      StoreKeepsSum(m, t, p, sm, st, ps, f, i, j, hi - 1);
      var c := hi - 1;
      if c < p {
        StoredEntries(m, t, p, sm, st, ps, f, i);
        StoredEntries(m, t, p, sm, st, ps, f, j);
        StoredGainIs(m, t, sm, st, i, j, c);
      } else {
        assert StoredLD(sm, st, j, c) == 0.0;
      }
    }
  }

  // ---- what every front keeps ----

  /** The original matrix is the stored fronts' L D L^T, plus the blocks waiting to be
      assembled, plus the columns not read yet. */
  ghost predicate Conserved(cols: seq<seq<Entry>>, steps: seq<Step>, bs: seq<Block>, start: int) {
    forall a, b {:trigger StepsSum(steps, a, b)} :: Original(cols, a, b) ==
      StepsSum(steps, a, b) + BlocksSum(bs, a, b) + ColumnsPart(cols, start, |cols|, a, b)
  }

  // The matrix a front assembles: its own columns and its children's blocks.
  function Assembled(cols: seq<seq<Entry>>, lo: int, hi: int, bs: seq<Block>, kids: seq<int>, a: int, b: int): real
    requires forall i | 0 <= i < |kids| :: 0 <= kids[i] < |bs|
  {
    ColumnsPart(cols, lo, hi, a, b) + KidsSum(bs, kids, a, b)
  }

  // A is the stored front plus the block.
  ghost predicate Represents(A: (int, int) -> real, st: Step, nb: Block) {
    forall a, b {:trigger StepTerm(st, a, b)} :: A(a, b) == StepTerm(st, a, b) + BlockTerm(nb, a, b)
  }

  /** Replacing a front's children by its own step and block keeps the sum. */
  lemma FrontConserves(cols: seq<seq<Entry>>, steps: seq<Step>, bs: seq<Block>, lo: int, hi: int, kids: seq<int>,
                       s: int, st: Step, nb: Block)
    requires Conserved(cols, steps, bs, lo) && 0 <= lo <= hi <= |cols|
    requires (forall i | 0 <= i < |kids| :: 0 <= kids[i] < s) && Distinct(kids) && 0 <= s < |bs| && bs[s] == EMPTY
    requires Represents((a, b) => Assembled(cols, lo, hi, bs, kids, a, b), st, nb)
    ensures Conserved(cols, steps + [st], Cleared(bs, kids)[s := nb], hi)
  {
    forall a, b
      ensures Original(cols, a, b) == StepsSum(steps + [st], a, b) + BlocksSum(Cleared(bs, kids)[s := nb], a, b)
                                      + ColumnsPart(cols, hi, |cols|, a, b)
    {
      assert (steps + [st])[..|steps|] == steps;
      ClearedSum(bs, kids, a, b);
      BlocksUpdate(Cleared(bs, kids), s, nb, a, b);
      EmptyTerm(a, b);
      assert Assembled(cols, lo, hi, bs, kids, a, b) == StepTerm(st, a, b) + BlockTerm(nb, a, b);
    }
  }

  // ---- pivots ----

  function PivotsOf(st: Step): seq<int> {
    if 0 <= st.p <= |st.rows| then st.rows[..st.p] else []
  }

  // How often column x is stored as a pivot.
  function PivotCount(steps: seq<Step>, x: int): nat {
    if |steps| == 0 then 0
    else PivotCount(steps[..|steps| - 1], x) + Count(PivotsOf(steps[|steps| - 1]), x)
  }

  function DelayedOf(bl: Block): seq<int> {
    if 0 <= bl.delayed <= |bl.rows| then bl.rows[..bl.delayed] else []
  }

  // How often column x waits in a block.
  function DelayedCount(bs: seq<Block>, x: int): nat {
    if |bs| == 0 then 0 else DelayedCount(bs[..|bs| - 1], x) + Count(DelayedOf(bs[|bs| - 1]), x)
  }

  function KidsDelayed(bs: seq<Block>, kids: seq<int>): seq<int>
    requires forall i | 0 <= i < |kids| :: 0 <= kids[i] < |bs|
  {
    if |kids| == 0 then [] else KidsDelayed(bs, kids[..|kids| - 1]) + DelayedOf(bs[kids[|kids| - 1]])
  }

  function Once(b: bool): nat { if b then 1 else 0 }

  /** Every column read so far is a stored pivot of one front or waits in one block,
      and no other column is either. */
  ghost predicate PivotsConserved(steps: seq<Step>, bs: seq<Block>, start: int) {
    forall x :: PivotCount(steps, x) + DelayedCount(bs, x) == Once(0 <= x < start)
  }

  lemma {:induction false} DelayedUpdate(bs: seq<Block>, c: int, b: Block, x: int)
    requires 0 <= c < |bs|
    ensures DelayedCount(bs[c := b], x) + Count(DelayedOf(bs[c]), x) == DelayedCount(bs, x) + Count(DelayedOf(b), x)
    decreases |bs|
  {
    var n := |bs| - 1;
    if c < n {
      assert bs[c := b][..n] == bs[..n][c := b];
      DelayedUpdate(bs[..n], c, b, x);
    } else {
      assert bs[c := b][..n] == bs[..n];
    }
  }

  lemma KidsDelayedInit(bs: seq<Block>, kids: seq<int>)
    requires |kids| > 0 && forall i | 0 <= i < |kids| :: 0 <= kids[i] < |bs|
    ensures KidsDelayed(bs, kids) == KidsDelayed(bs, kids[..|kids| - 1]) + DelayedOf(bs[kids[|kids| - 1]])
  {
  }

  lemma ClearOneDelayed(bs: seq<Block>, c: int, x: int)
    requires 0 <= c < |bs|
    ensures DelayedCount(bs[c := EMPTY], x) + Count(DelayedOf(bs[c]), x) == DelayedCount(bs, x)
  {
    DelayedUpdate(bs, c, EMPTY, x);
    assert DelayedOf(EMPTY) == [];
  }

  lemma {:induction false} ClearedDelayed(bs: seq<Block>, kids: seq<int>, x: int)
    requires forall i | 0 <= i < |kids| :: 0 <= kids[i] < |bs|
    requires Distinct(kids)
    ensures DelayedCount(Cleared(bs, kids), x) + Count(KidsDelayed(bs, kids), x) == DelayedCount(bs, x)
    decreases |kids|
  {
    if |kids| == 0 {
      assert Cleared(bs, kids) == bs;
    } else {
      var init, c := kids[..|kids| - 1], kids[|kids| - 1];
      ClearedStep(bs, kids);
      ClearedDelayed(bs, init, x);
      ClearOneDelayed(Cleared(bs, init), c, x);
      KidsDelayedInit(bs, kids);
      CountSum(KidsDelayed(bs, init), DelayedOf(bs[c]), x);
    }
  }

  lemma {:induction false} CountRange(lo: int, own: seq<int>, x: int)
    requires forall t | 0 <= t < |own| :: own[t] == lo + t
    ensures Count(own, x) == Once(lo <= x < lo + |own|)
    decreases |own|
  {
    if |own| > 0 { CountRange(lo, own[..|own| - 1], x); }
  }

  /** A front that stores `st`'s pivots and delays the rest of its children's delayed
      columns and its own keeps the count. */
  lemma FrontConservesPivots(steps: seq<Step>, bs: seq<Block>, lo: int, hi: int, kids: seq<int>, own: seq<int>,
                             s: int, st: Step, nb: Block)
    requires PivotsConserved(steps, bs, lo) && 0 <= lo <= hi
    requires |own| == hi - lo && forall t | 0 <= t < |own| :: own[t] == lo + t
    requires (forall i | 0 <= i < |kids| :: 0 <= kids[i] < s) && Distinct(kids) && 0 <= s < |bs| && bs[s] == EMPTY
    requires forall x :: Count(KidsDelayed(bs, kids), x) + Count(own, x) == Count(PivotsOf(st), x) + Count(DelayedOf(nb), x)
    ensures PivotsConserved(steps + [st], Cleared(bs, kids)[s := nb], hi)
  {
    assert (steps + [st])[..|steps|] == steps;
    assert DelayedOf(EMPTY) == [];
    forall x
      ensures PivotCount(steps + [st], x) + DelayedCount(Cleared(bs, kids)[s := nb], x) == Once(0 <= x < hi)
    {
      ClearedDelayed(bs, kids, x);
      DelayedUpdate(Cleared(bs, kids), s, nb, x);
      CountRange(lo, own, x);
      assert Count(KidsDelayed(bs, kids), x) + Count(own, x) == Count(PivotsOf(st), x) + Count(DelayedOf(nb), x);
    }
  }

  // ---- how many columns wait ----

  function DelayedTotal(bs: seq<Block>): nat {
    if |bs| == 0 then 0 else DelayedTotal(bs[..|bs| - 1]) + |DelayedOf(bs[|bs| - 1])|
  }

  lemma {:induction false} TotalUpdate(bs: seq<Block>, c: int, b: Block)
    requires 0 <= c < |bs|
    ensures DelayedTotal(bs[c := b]) + |DelayedOf(bs[c])| == DelayedTotal(bs) + |DelayedOf(b)|
    decreases |bs|
  {
    var n := |bs| - 1;
    if c < n {
      assert bs[c := b][..n] == bs[..n][c := b];
      TotalUpdate(bs[..n], c, b);
    } else {
      assert bs[c := b][..n] == bs[..n];
    }
  }

  lemma ClearOne(bs: seq<Block>, c: int)
    requires 0 <= c < |bs|
    ensures DelayedTotal(bs[c := EMPTY]) + |DelayedOf(bs[c])| == DelayedTotal(bs)
  {
    TotalUpdate(bs, c, EMPTY);
    assert DelayedOf(EMPTY) == [];
  }

  lemma {:induction false} ClearedTotal(bs: seq<Block>, kids: seq<int>)
    requires forall i | 0 <= i < |kids| :: 0 <= kids[i] < |bs|
    requires Distinct(kids)
    ensures DelayedTotal(Cleared(bs, kids)) + |KidsDelayed(bs, kids)| == DelayedTotal(bs)
    decreases |kids|
  {
    if |kids| == 0 {
      assert Cleared(bs, kids) == bs;
    } else {
      var init, c := kids[..|kids| - 1], kids[|kids| - 1];
      ClearedStep(bs, kids);
      ClearedTotal(bs, init);
      ClearOne(Cleared(bs, init), c);
      KidsDelayedInit(bs, kids);
    }
  }
}
