/** The pivot blocks a run stores, and the inertia of all of D. */
module StoredSigns {
  import opened FrontAlgebra
  import opened FrontSteps
  import opened PivotChoice
  import opened Inertia
  import opened PivotSigns
  import opened FrontTerms

  // The block that ends at column c of the solve layout; a forced zero pivot is one of its own.
  function StoredAt(m: Mat, t: seq<int>, c: int): seq<Pivot> {
    if Tag(t, c) == FIRST then []
    else if Tag(t, c) == SECOND then [Double(At(m, c - 1, c - 1), At(m, c - 1, c), At(m, c, c))]
    else [Single(At(m, c, c))]
  }

  function StoredPivots(m: Mat, t: seq<int>, k: int): seq<Pivot>
    decreases k
  {
    if k <= 0 then [] else StoredPivots(m, t, k - 1) + StoredAt(m, t, k - 1)
  }

  function StepPivots(st: Step): seq<Pivot> { StoredPivots(st.m, st.tags, st.p) }

  /** All blocks of D, front by front. */
  function RunPivots(steps: seq<Step>): seq<Pivot> {
    if |steps| == 0 then [] else RunPivots(steps[..|steps| - 1]) + StepPivots(steps[|steps| - 1])
  }

  lemma {:induction false} StoreKeepsPivots(m: Mat, t: seq<int>, p: int, sm: Mat, st: seq<int>, ps: int, f: int, k: int)
    requires StoredFrom(m, t, p, sm, st, ps, f) && Blocks(t, p) && 0 <= k <= p <= ps <= f
    ensures StoredPivots(sm, st, k) == DiagonalOf(m, t, k)
    decreases k
  {
    if k > 0 {
      StoreKeepsPivots(m, t, p, sm, st, ps, f, k - 1);
      assert InBlock(t, p, k - 1);
    }
  }

  lemma {:induction false} TallyMore(ds: seq<Pivot>, p: Pivot, sign: Pivot -> Counts, g: Sign)
    ensures Tally(ds + [p], sign, g) == Tally(ds, sign, g) + Of(sign(p), g)
  {
    assert (ds + [p])[..|ds|] == ds;
  }

  lemma {:induction false} TallySum(a: seq<Pivot>, b: seq<Pivot>, sign: Pivot -> Counts, g: Sign)
    ensures Tally(a + b, sign, g) == Tally(a, sign, g) + Tally(b, sign, g)
    decreases |b|
  {
    if |b| == 0 {
      assert a + b == a;
    } else {
      var init, last := b[..|b| - 1], b[|b| - 1];
      assert a + b == (a + init) + [last];
      TallySum(a, init, sign, g);
      TallyMore(a + init, last, sign, g);
    }
  }

  lemma ZeroStored(m: Mat, t: seq<int>, p: int, sm: Mat, st: seq<int>, ps: int, f: int, k: int)
    requires StoredFrom(m, t, p, sm, st, ps, f) && 0 <= p < k <= ps
    ensures StoredPivots(sm, st, k) == StoredPivots(sm, st, k - 1) + [Single(0.0)]
  {
  }

  // The zero pivots [p, k) count as such.
  lemma {:induction false} ZerosCount(m: Mat, t: seq<int>, p: int, sm: Mat, st: seq<int>, ps: int, f: int, k: int,
                                      sign: Pivot -> Counts, g: Sign)
    requires StoredFrom(m, t, p, sm, st, ps, f) && Blocks(t, p) && 0 <= p <= k <= ps <= f
    requires Of(sign(Single(0.0)), g) == if g == Null then 1 else 0
    ensures Tally(StoredPivots(sm, st, k), sign, g) == Tally(DiagonalOf(m, t, p), sign, g) + if g == Null then k - p else 0
    decreases k
  {
    if k == p {
      StoreKeepsPivots(m, t, p, sm, st, ps, f, p);
    } else {
      ZerosCount(m, t, p, sm, st, ps, f, k - 1, sign, g);
      ZeroStored(m, t, p, sm, st, ps, f, k);
      TallyMore(StoredPivots(sm, st, k - 1), Single(0.0), sign, g);
    }
  }

  // c is the inertia of these blocks.
  ghost predicate CountedBy(ds: seq<Pivot>, c: Counts, prm: Params) { Adds([], ds, c, SignsBy(prm)) }

  lemma {:induction false} CountsAre(ds: seq<Pivot>, c: Counts, sign: Pivot -> Counts)
    ensures Adds([], ds, c, sign) <==> forall g :: Tally(ds, sign, g) == Of(c, g)
  {
  }

  /** A stored front's counts are the kernel's and its zero pivots. */
  lemma {:induction false} StepCounts(m: Mat, t: seq<int>, p: int, st: Step, f: int, c: Counts, prm: Params)
    requires StoredFrom(m, t, p, st.m, st.tags, st.p, f) && Blocks(t, p) && 0 <= p <= st.p <= f && prm.Valid()
    requires CountedBy(DiagonalOf(m, t, p), c, prm)
    ensures CountedBy(StepPivots(st), c.(zero := c.zero + (st.p - p)), prm)
  {
    CountsAre(DiagonalOf(m, t, p), c, SignsBy(prm));
    forall g
      ensures Tally(StepPivots(st), SignsBy(prm), g) == Of(c.(zero := c.zero + (st.p - p)), g)
    {
      ZerosCount(m, t, p, st.m, st.tags, st.p, f, st.p, SignsBy(prm), g);
    }
    CountsAre(StepPivots(st), c.(zero := c.zero + (st.p - p)), SignsBy(prm));
  }

  lemma {:induction false} RunCounts(steps: seq<Step>, st: Step, counts: Counts, c: Counts, prm: Params)
    requires CountedBy(RunPivots(steps), counts, prm) && CountedBy(StepPivots(st), c, prm)
    ensures CountedBy(RunPivots(steps + [st]), counts.Plus(c), prm)
  {
    assert (steps + [st])[..|steps|] == steps;
    JoinedCount(RunPivots(steps), StepPivots(st), counts, c, SignsBy(prm));
  }

  lemma {:induction false} JoinedCount(a: seq<Pivot>, b: seq<Pivot>, c: Counts, d: Counts, sign: Pivot -> Counts)
    requires Adds([], a, c, sign) && Adds([], b, d, sign)
    ensures Adds([], a + b, c.Plus(d), sign)
  {
    CountsAre(a, c, sign);
    CountsAre(b, d, sign);
    forall g ensures Tally(a + b, sign, g) == Of(c.Plus(d), g) { TallySum(a, b, sign, g); }
    CountsAre(a + b, c.Plus(d), sign);
  }

  lemma {:induction false} RunSigns(steps: seq<Step>, counts: Counts, prm: Params)
    requires CountedBy(RunPivots(steps), counts, prm)
    ensures counts == AllSigns(RunPivots(steps), prm)
  {
    CountsAre(RunPivots(steps), counts, SignsBy(prm));
  }
}
