/** What a front passes on is spent: no delayed column has an acceptable pivot left in the
    block, alone or with its partner. */
module SpentBlocks {
  import opened Reals
  import opened FrontAlgebra
  import opened SymbolicTree
  import opened PivotChoice
  import opened FrontTerms
  import opened FrontStore

  // The first d columns of the block have no acceptable pivot.
  ghost predicate Spent(bl: Block, d: int, prm: Params) {
    prm.Valid() && Exhausted(bl.m, |bl.rows|, 0, d, d, prm)
  }

  lemma MagBehind(m: Mat, p: int, f: int, i: int, j: int)
    requires 0 <= p <= f && 0 <= i < f - p && 0 <= j < f - p
    ensures Mag(Trailing(m, p, f), i, j) == Mag(m, p + i, p + j)
  {
  }

  lemma Acceptable1Behind(m: Mat, p: int, f: int, a: int, prm: Params)
    requires 0 <= p <= f && 0 <= a < f - p && Acceptable1(Trailing(m, p, f), f - p, 0, a, prm)
    ensures Acceptable1(m, f, p, p + a, prm)
  {
    var c := p + a;
    MagBehind(m, p, f, a, a);
    forall i | p <= i < f && i != c
      ensures Below(Mag(m, i, c), Mag(m, c, c), prm.u)
    {
      MagBehind(m, p, f, i - p, a);
      assert Below(Mag(Trailing(m, p, f), i - p, a), Mag(Trailing(m, p, f), a, a), prm.u);
    }
  }

  lemma {:induction false} PartnerBehind(m: Mat, p: int, f: int, a: int, hi: int, r: int)
    requires 0 <= p <= f && 0 <= a < f - p && 0 <= hi <= f - p && IsPartner(Trailing(m, p, f), a, 0, hi, r)
    ensures IsPartner(m, p + a, p, p + hi, p + r)
  {
    var c, top := p + a, p + hi;
    MagBehind(m, p, f, r, a);
    forall i | p <= i < top && i != c
      ensures Mag(m, i, c) == Mag(Trailing(m, p, f), i - p, a)
    {
      MagBehind(m, p, f, i - p, a);
    }
  }

  lemma SymBehind(m: Mat, p: int, f: int, i: int, j: int)
    requires 0 <= p <= f && 0 <= i < f - p && 0 <= j < f - p
    ensures Sym(Trailing(m, p, f), i, j) == Sym(m, p + i, p + j)
  {
  }

  lemma {:induction false} Acceptable2Behind(m: Mat, p: int, f: int, a: int, b: int, prm: Params)
    requires 0 <= p <= f && 0 <= a < f - p && 0 <= b < f - p && Acceptable2(Trailing(m, p, f), f - p, 0, a, b, prm)
    ensures Acceptable2(m, f, p, p + a, p + b, prm)
  {
    SymBehind(m, p, f, a, a);
    SymBehind(m, p, f, b, a);
    SymBehind(m, p, f, b, b);
    var t, c, d := Trailing(m, p, f), p + a, p + b;
    var d00, d10, d11 := Sym(t, a, a), Sym(t, b, a), Sym(t, b, b);
    forall i, j | p <= i < f && i != c && i != d && p <= j < f && j != c && j != d
      ensures Contained(d00, d10, d11, Mag(m, i, c), Mag(m, j, d), prm.u)
    {
      MagBehind(m, p, f, i - p, a);
      MagBehind(m, p, f, j - p, b);
      assert Contained(d00, d10, d11, Mag(t, i - p, a), Mag(t, j - p, b), prm.u);
    }
  }

  /** A front that ran out of pivots leaves a spent block. */
  lemma {:induction false} SchurSpent(rows: seq<int>, m: Mat, k: int, e: int, delayed: int, prm: Params)
    requires prm.Valid() && 0 <= k <= e <= |rows| && (k < e ==> Exhausted(m, |rows|, k, e, e, prm))
    ensures Spent(SchurBlock(rows, m, k, delayed), e - k, prm)
  {
    var bl, f := SchurBlock(rows, m, k, delayed), |rows|;
    forall a | 0 <= a < e - k
      ensures !Acceptable1(bl.m, |bl.rows|, 0, a, prm)
    {
      if Acceptable1(Trailing(m, k, f), f - k, 0, a, prm) { Acceptable1Behind(m, k, f, a, prm); }
    }
    forall a, r | 0 <= a < e - k && 0 <= r < e - k && IsPartner(bl.m, a, 0, e - k, r)
      ensures !Acceptable2(bl.m, |bl.rows|, 0, a, r, prm)
    {
      PartnerBehind(m, k, f, a, e - k, r);
      if Acceptable2(Trailing(m, k, f), f - k, 0, a, r, prm) { Acceptable2Behind(m, k, f, a, r, prm); }
    }
  }

  /** Every block left by a finished front is spent; a root gives up only on a spent residual. */
  ghost predicate AllSpent(keep: Keep, bs: seq<Block>, prm: Params, s: int) {
    s <= |bs| && s <= |keep.sn| && forall d | 0 <= d < s :: Spent(bs[d], Unaccepted(keep, bs[d], d), prm)
  }

  // The columns front d could not accept.
  function Unaccepted(keep: Keep, bl: Block, d: int): int
    requires 0 <= d < |keep.sn|
  {
    if keep.sn[d].parent == -1 then |bl.rows| else bl.delayed
  }

  lemma AllSpentNext(keep: Keep, bs: seq<Block>, prm: Params, kids: seq<int>, s: int, nb: Block)
    requires prm.Valid() && 0 <= s < |keep.sn| == |bs| && AllSpent(keep, bs, prm, s)
    requires (forall i | 0 <= i < |kids| :: 0 <= kids[i] < s) && Spent(nb, Unaccepted(keep, nb, s), prm)
    ensures AllSpent(keep, Cleared(bs, kids)[s := nb], prm, s + 1)
  {
    var bs' := Cleared(bs, kids)[s := nb];
    forall d | 0 <= d < s + 1
      ensures Spent(bs'[d], Unaccepted(keep, bs'[d], d), prm)
    {
      if d < s { assert Spent(bs[d], Unaccepted(keep, bs[d], d), prm); }
    }
  }
}
