/** How a part is bisected: along its components when it has several, else by a separator. */
module Bisection {
  import opened Sequences
  import opened Supervariables
  import opened CompressedGraph
  import opened Dissection
  import opened Components

  // ---- components by weight ----

  // Component k among those listed, behind all that weigh no less.
  function Inserted(cw: seq<int>, order: seq<int>, k: int): seq<int> {
    if |order| == 0 || WeightAt(cw, order[|order| - 1]) >= WeightAt(cw, k) then order + [k]
    else Inserted(cw, order[..|order| - 1], k) + [order[|order| - 1]]
  }

  // The first k components, heaviest first, equal weights in the order of their labels.
  function ByWeight(cw: seq<int>, k: int): seq<int> {
    if k <= 0 then [] else Inserted(cw, ByWeight(cw, k - 1), k - 1)
  }

  lemma {:induction false} InsertedCount(cw: seq<int>, order: seq<int>, k: int, c: int)
    ensures Count(Inserted(cw, order, k), c) == Count(order, c) + if c == k then 1 else 0
    decreases |order|
  {
    if |order| == 0 || WeightAt(cw, order[|order| - 1]) >= WeightAt(cw, k) {
      assert (order + [k])[..|order|] == order;
    } else {
      var init, last := order[..|order| - 1], order[|order| - 1];
      InsertedCount(cw, init, k, c);
      assert (Inserted(cw, init, k) + [last])[..|Inserted(cw, init, k)|] == Inserted(cw, init, k);
    }
  }

  lemma {:induction false} ByWeightCount(cw: seq<int>, k: int, c: int)
    requires 0 <= k
    ensures Count(ByWeight(cw, k), c) == if 0 <= c < k then 1 else 0
    decreases k
  {
    if k > 0 {
      ByWeightCount(cw, k - 1, c);
      ByWeightMore(cw, k, c, ByWeight(cw, k), ByWeight(cw, k - 1));
    }
  }

  lemma ByWeightMore(cw: seq<int>, k: int, c: int, now: seq<int>, before: seq<int>)
    requires now == Inserted(cw, before, k - 1)
    ensures Count(now, c) == Count(before, c) + if c == k - 1 then 1 else 0
  {
    InsertedCount(cw, before, k - 1, c);
  }

  // a comes before b: heavier, or as heavy with the smaller label.
  predicate Ahead(cw: seq<int>, a: int, b: int) {
    WeightAt(cw, a) > WeightAt(cw, b) || (WeightAt(cw, a) == WeightAt(cw, b) && a < b)
  }

  ghost predicate Descending(cw: seq<int>, order: seq<int>) {
    forall i, j | 0 <= i < j < |order| :: Ahead(cw, order[i], order[j])
  }

  lemma {:induction false} InsertedDescends(cw: seq<int>, order: seq<int>, k: int)
    requires Inside(order, k) && Descending(cw, order)
    ensures Descending(cw, Inserted(cw, order, k)) && forall c :: c in Inserted(cw, order, k) <==> c in order || c == k
    decreases |order|
  {
    if |order| == 0 || WeightAt(cw, order[|order| - 1]) >= WeightAt(cw, k) {
      forall i | 0 <= i < |order|
        ensures Ahead(cw, order[i], k)
      {
        if i < |order| - 1 { assert Ahead(cw, order[i], order[|order| - 1]); }
      }
    } else {
      var init, last := order[..|order| - 1], order[|order| - 1];
      InsertedDescends(cw, init, k);
      assert order == init + [last];
      LastDescends(cw, Inserted(cw, init, k), init, k, last);
    }
  }

  lemma LastDescends(cw: seq<int>, now: seq<int>, init: seq<int>, k: int, last: int)
    requires Descending(cw, now) && Descending(cw, init + [last]) && WeightAt(cw, k) > WeightAt(cw, last)
    requires forall c | c in now :: c in init || c == k
    ensures Descending(cw, now + [last])
  {
    forall i | 0 <= i < |now|
      ensures Ahead(cw, now[i], last)
    {
      assert now[i] in now;
      if now[i] in init {
        var a :| 0 <= a < |init| && init[a] == now[i];
        assert Ahead(cw, (init + [last])[a], (init + [last])[|init|]);
      }
    }
  }

  lemma ByWeightPermutes(cw: seq<int>, k: int)
    requires 0 <= k
    ensures Permutes(ByWeight(cw, k), k)
  {
    var order := ByWeight(cw, k);
    forall c ensures Count(order, c) == if 0 <= c < k then 1 else 0 { ByWeightCount(cw, k, c); }
    forall i | 0 <= i < |order| ensures 0 <= order[i] < k { CountAbsent(order, order[i]); }
    OnceEach(order, k);
  }

  /** Every component once, heaviest first. */
  lemma {:induction false} ByWeightSorts(cw: seq<int>, k: int)
    requires 0 <= k
    ensures Permutes(ByWeight(cw, k), k) && Descending(cw, ByWeight(cw, k))
    decreases k
  {
    ByWeightPermutes(cw, k);
    if k > 0 {
      ByWeightSorts(cw, k - 1);
      InsertedDescends(cw, ByWeight(cw, k - 1), k - 1);
    }
  }

  // ---- each to the lighter side ----

  datatype Load = Load(to: seq<int>, w0: int, w1: int)

  function Put(cw: seq<int>, l: Load, k: int): Load
    requires |l.to| == |cw| && 0 <= k < |cw|
  {
    if l.w0 <= l.w1 then Load(l.to[k := 0], l.w0 + cw[k], l.w1) else Load(l.to[k := 1], l.w0, l.w1 + cw[k])
  }

  // After the first i components of the order.
  function Spread(cw: seq<int>, order: seq<int>, i: int): (l: Load)
    requires Inside(order, |cw|) && 0 <= i <= |order|
    ensures |l.to| == |cw|
    decreases i
  {
    if i == 0 then Load(seq(|cw|, _ => -1), 0, 0) else Put(cw, Spread(cw, order, i - 1), order[i - 1])
  }

  // Sides of all components.
  function Balanced(cw: seq<int>): (l: Load)
    ensures |l.to| == |cw|
  {
    var order := ByWeight(cw, |cw|);
    ByWeightPermutes(cw, |cw|);
    Spread(cw, order, |order|)
  }

  lemma {:induction false} SpreadPlaces(cw: seq<int>, order: seq<int>, i: int)
    requires Inside(order, |cw|) && Distinct(order) && 0 <= i <= |order|
    ensures var l := Spread(cw, order, i);
      && (forall c | 0 <= c < |cw| :: if c in order[..i] then 0 <= l.to[c] <= 1 else l.to[c] == -1)
      && l.w0 == ClassWeight(l.to, cw, 0, |cw|) && l.w1 == ClassWeight(l.to, cw, 1, |cw|)
    decreases i
  {
    if i == 0 {
      NoneLabelled(seq(|cw|, _ => -1), cw, 0, |cw|);
      NoneLabelled(seq(|cw|, _ => -1), cw, 1, |cw|);
    } else {
      SpreadPlaces(cw, order, i - 1);
      var l, k := Spread(cw, order, i - 1), order[i - 1];
      assert order[..i] == order[..i - 1] + [k];
      assert k !in order[..i - 1];
      var h := if l.w0 <= l.w1 then 0 else 1;
      Relabelled(l.to, cw, k, h, 0, |cw|);
      Relabelled(l.to, cw, k, h, 1, |cw|);
    }
  }

  // The sides never differ by more than the heaviest component.
  lemma {:induction false} SpreadBalances(cw: seq<int>, order: seq<int>, i: int, most: int)
    requires Inside(order, |cw|) && 0 <= i <= |order|
    requires forall c | 0 <= c < |cw| :: 0 <= cw[c] <= most
    ensures var l := Spread(cw, order, i); -most <= l.w0 - l.w1 <= most || i == 0
    ensures var l := Spread(cw, order, i); l.w0 >= 0 && l.w1 >= 0
    decreases i
  {
    if i > 0 { SpreadBalances(cw, order, i - 1, most); }
  }

  // Of two components with positive weight, one goes to each side.
  lemma {:induction false} SpreadUsesBoth(cw: seq<int>, order: seq<int>, i: int)
    requires Inside(order, |cw|) && 2 <= i <= |order| && forall c | 0 <= c < |cw| :: cw[c] > 0
    ensures var l := Spread(cw, order, i); l.w0 > 0 && l.w1 > 0
    decreases i
  {
    if i > 2 {
      SpreadUsesBoth(cw, order, i - 1);
    } else {
      assert Spread(cw, order, 0).w0 == 0 && Spread(cw, order, 0).w1 == 0;
      assert Spread(cw, order, 1).w0 > 0 && Spread(cw, order, 1).w1 == 0;
    }
  }

  lemma BalancedPlaces(cw: seq<int>)
    ensures var l := Balanced(cw);
      && (forall c | 0 <= c < |cw| :: 0 <= l.to[c] <= 1)
      && l.w0 == ClassWeight(l.to, cw, 0, |cw|) && l.w1 == ClassWeight(l.to, cw, 1, |cw|)
  {
    var order := ByWeight(cw, |cw|);
    ByWeightSorts(cw, |cw|);
    SpreadPlaces(cw, order, |order|);
    assert order[..|order|] == order;
    forall c | 0 <= c < |cw|
      ensures c in order
    {
      var k := PermutationHits(order, |cw|, c);
    }
  }

  method Balance(cw: seq<int>) returns (to: seq<int>)
    ensures to == Balanced(cw).to
  {
    var order := ByWeight(cw, |cw|);
    ByWeightPermutes(cw, |cw|);
    var w0, w1 := 0, 0;
    to := seq(|cw|, _ => -1);
    for i := 0 to |order|
      invariant Load(to, w0, w1) == Spread(cw, order, i)
    {
      var k := order[i];
      if w0 <= w1 {
        to := to[k := 0];
        w0 := w0 + cw[k];
      } else {
        to := to[k := 1];
        w1 := w1 + cw[k];
      }
    }
  }

  // ---- the bisection ----

  // A separator counts only when both halves have vertices.
  function Settled(cut: Cut): Cut {
    match cut
    case Splits(side) => if 0 in side && 1 in side then cut else Stays
    case _ => cut
  }

  function Attempt(separator: Plan): Plan {
    match separator
    case Now(cut) => Now(Settled(cut))
    case Later(runs, cut) => if |runs| == 0 then Now(Settled(cut)) else Later(runs, Settled(cut))
  }

  function CutBy(separator: Plan): Cut { separator.cut }

  ghost predicate Labelling(local: seq<seq<int>>, w: seq<int>, comp: seq<int>, first: seq<int>, cw: seq<int>) {
    Labels(local, comp, first) && |cw| == |first| && Weights(cw, comp, w)
  }

  // What the components ask for.
  ghost function Chosen(local: seq<seq<int>>, w: seq<int>, comp: seq<int>, first: seq<int>, cw: seq<int>, separator: Plan): Plan
    requires Labelling(local, w, comp, first, cw)
  {
    if |cw| > 1 then Now(Splits(Sides(comp, Balanced(cw).to))) else Attempt(separator)
  }

  ghost predicate IsBisect(local: seq<seq<int>>, w: seq<int>, separator: Plan, plan: Plan) {
    exists comp, first, cw :: Labelling(local, w, comp, first, cw) && plan == Chosen(local, w, comp, first, cw, separator)
  }

  method WriteSides(comp: array<int>, to: seq<int>) returns (side: array<int>)
    requires forall v | 0 <= v < comp.Length :: 0 <= comp[v] < |to|
    ensures fresh(side) && side[..] == Sides(comp[..], to)
  {
    side := new int[comp.Length];
    for v := 0 to comp.Length
      invariant forall u | 0 <= u < v :: side[u] == to[comp[u]]
    {
      side[v] := to[comp[v]];
    }
  }

  method Bisect(local: seq<seq<int>>, w: seq<int>, separator: Plan) returns (plan: Plan)
    requires Simple(local) && |w| == |local|
    ensures IsBisect(local, w, separator, plan) && Bisects(local, w, separator, plan)
  {
    ghost var first;
    var comp, cw;
    comp, first, cw := LabelComponents(local, w);
    assert Labelling(local, w, comp[..], first, cw);
    if |cw| > 1 {
      var to := Balance(cw);
      var side := WriteSides(comp, to);
      plan := Now(Splits(side[..]));
    } else {
      plan := Attempt(separator);
    }
    assert plan == Chosen(local, w, comp[..], first, cw, separator);
    BisectMeaning(local, w, separator, plan);
  }

  /** No edge joins the halves, whichever way the part is cut, and a run that is to come
      is one of at least one. */
  lemma BisectIsSound(local: seq<seq<int>>, w: seq<int>, separator: Plan, plan: Plan)
    requires Simple(local) && CutSound(local, CutBy(separator)) && IsBisect(local, w, separator, plan)
    ensures CutSound(local, Outcome(plan)) && (plan.Later? ==> |plan.runs| > 0)
  {
    var comp, first, cw :| Labelling(local, w, comp, first, cw) && plan == Chosen(local, w, comp, first, cw, separator);
    if |cw| > 1 {
      BalancedPlaces(cw);
      ComponentsSplit(local, comp, first, Balanced(cw).to);
    }
  }

  /** Tools that bisect this way are sound when their separators are. */
  lemma BisectMeetsKit(t: Tools, separator: (seq<seq<int>>, seq<int>, int) -> Plan)
    requires forall local, w, depth :: Simple(local) ==> CutSound(local, CutBy(separator(local, w, depth)))
    requires forall local, w, depth :: Simple(local) ==> IsBisect(local, w, separator(local, w, depth), t.bisect(local, w, depth))
    requires forall local, w :: t.OrdersSound(local, w)
    ensures t.Sound()
  {
    forall local, w, depth
      ensures t.BisectSound(local, w, depth)
    {
      if Simple(local) { BisectIsSound(local, w, separator(local, w, depth), t.bisect(local, w, depth)); }
    }
  }

  // ---- one result ----

  lemma RisingAscending(first: seq<int>)
    requires Components.Rising(first)
    ensures Ascending(first)
  {
    forall c, d | 0 <= c < d < |first| ensures first[c] < first[d] { assert Earlier(first, c, d); }
  }

  // Two labellings name the same smallest vertices.
  lemma FirstIn(local: seq<seq<int>>, comp: seq<int>, first: seq<int>, comp': seq<int>, first': seq<int>, x: int)
    requires Labels(local, comp, first) && Labels(local, comp', first') && x in first
    ensures x in first'
  {
    var c :| 0 <= c < |first| && first[c] == x;
    var y := first'[comp'[x]];
    assert comp'[y] == comp'[x];
    assert Connected(local, x, y);
    assert comp[x] == comp[y] == c;
    assert first[comp[y]] <= y;
  }

  lemma LabelsUnique(local: seq<seq<int>>, comp: seq<int>, first: seq<int>, comp': seq<int>, first': seq<int>)
    requires Labels(local, comp, first) && Labels(local, comp', first')
    ensures comp == comp' && first == first'
  {
    forall x
      ensures x in first <==> x in first'
    {
      if x in first { FirstIn(local, comp, first, comp', first', x); }
      if x in first' { FirstIn(local, comp', first', comp, first, x); }
    }
    RisingAscending(first);
    RisingAscending(first');
    AscendingUnique(first, first');
    forall v | 0 <= v < |local|
      ensures comp[v] == comp'[v]
    {
      var x := first[comp[v]];
      assert comp[x] == comp[v];
      assert Connected(local, x, v);
      assert comp'[x] == comp'[v];
      assert first[comp'[x]] == x by { assert first'[comp[v]] == x; }
    }
  }

  lemma WeightsUnique(comp: seq<int>, w: seq<int>, cw: seq<int>, cw': seq<int>)
    requires |cw| == |cw'| && Weights(cw, comp, w) && Weights(cw', comp, w)
    ensures cw == cw'
  {
  }

  /** Labels, weights and sides are determined by the graph: so is the plan. */
  lemma {:induction false} BisectUnique(local: seq<seq<int>>, w: seq<int>, separator: Plan, plan: Plan, plan': Plan)
    requires IsBisect(local, w, separator, plan) && IsBisect(local, w, separator, plan')
    ensures plan == plan'
  {
    var comp, first, cw :| Labelling(local, w, comp, first, cw) && plan == Chosen(local, w, comp, first, cw, separator);
    var comp', first', cw' :| Labelling(local, w, comp', first', cw') && plan' == Chosen(local, w, comp', first', cw', separator);
    LabelsUnique(local, comp, first, comp', first');
    WeightsUnique(comp, w, cw, cw');
  }

  // ---- balance ----

  // What the classes that go to side h weigh, of the first m.
  function SideWeight(to: seq<int>, comp: seq<int>, w: seq<int>, h: int, m: int, n: int): int
    requires m <= |to| && n <= |comp|
    decreases m
  {
    if m <= 0 then 0 else SideWeight(to, comp, w, h, m - 1, n) + if to[m - 1] == h then ClassWeight(comp, w, m - 1, n) else 0
  }

  lemma {:induction false} SideWeightNext(to: seq<int>, comp: seq<int>, w: seq<int>, h: int, m: int, n: int)
    requires 0 <= m <= |to| && 0 < n <= |comp|
    ensures SideWeight(to, comp, w, h, m, n) == SideWeight(to, comp, w, h, m, n - 1)
         + if 0 <= comp[n - 1] < m && to[comp[n - 1]] == h then WeightAt(w, n - 1) else 0
    decreases m
  {
    if m > 0 { SideWeightNext(to, comp, w, h, m - 1, n); }
  }

  lemma {:induction false} SideWeightNone(to: seq<int>, comp: seq<int>, w: seq<int>, h: int, m: int)
    requires 0 <= m <= |to|
    ensures SideWeight(to, comp, w, h, m, 0) == 0
    decreases m
  {
    if m > 0 { SideWeightNone(to, comp, w, h, m - 1); }
  }

  lemma {:induction false} SidesWeigh(to: seq<int>, comp: seq<int>, w: seq<int>, h: int, n: int)
    requires 0 <= n <= |comp| && forall v | 0 <= v < |comp| :: 0 <= comp[v] < |to|
    ensures ClassWeight(Sides(comp, to), w, h, n) == SideWeight(to, comp, w, h, |to|, n)
    decreases n
  {
    if n > 0 {
      SidesWeigh(to, comp, w, h, n - 1);
      SideWeightNext(to, comp, w, h, |to|, n);
    } else {
      SideWeightNone(to, comp, w, h, |to|);
    }
  }

  lemma {:induction false} WeighedClasses(to: seq<int>, comp: seq<int>, w: seq<int>, cw: seq<int>, h: int, m: int)
    requires 0 <= m <= |to| == |cw| && Weights(cw, comp, w)
    ensures SideWeight(to, comp, w, h, m, |comp|) == ClassWeight(to, cw, h, m)
    decreases m
  {
    if m > 0 { WeighedClasses(to, comp, w, cw, h, m - 1); }
  }

  /** Cut along components, the halves differ by at most the heaviest component; with
      positive weights neither is empty. The separator is empty. */
  lemma ComponentsBalance(local: seq<seq<int>>, w: seq<int>, comp: seq<int>, first: seq<int>, cw: seq<int>, most: int)
    requires Simple(local) && |w| == |local| && Labelling(local, w, comp, first, cw) && |cw| > 1
    requires forall c | 0 <= c < |cw| :: 0 <= cw[c] <= most
    ensures var side := Sides(comp, Balanced(cw).to);
      && 2 !in side
      && -most <= ClassWeight(side, w, 0, |local|) - ClassWeight(side, w, 1, |local|) <= most
      && ((forall c | 0 <= c < |cw| :: cw[c] > 0) ==> 0 in side && 1 in side)
  {
    var to, order := Balanced(cw).to, ByWeight(cw, |cw|);
    BalancedPlaces(cw);
    ComponentsSplit(local, comp, first, to);
    ByWeightSorts(cw, |cw|);
    SpreadBalances(cw, order, |order|, most);
    SideIs(local, w, comp, first, cw, 0);
    SideIs(local, w, comp, first, cw, 1);
    if forall c | 0 <= c < |cw| :: cw[c] > 0 {
      SpreadUsesBoth(cw, order, |order|);
      NonemptySide(Sides(comp, to), w, 0);
      NonemptySide(Sides(comp, to), w, 1);
    }
  }

  lemma SideIs(local: seq<seq<int>>, w: seq<int>, comp: seq<int>, first: seq<int>, cw: seq<int>, h: int)
    requires Labelling(local, w, comp, first, cw)
    ensures ClassWeight(Sides(comp, Balanced(cw).to), w, h, |local|) == ClassWeight(Balanced(cw).to, cw, h, |cw|)
  {
    SidesWeigh(Balanced(cw).to, comp, w, h, |local|);
    WeighedClasses(Balanced(cw).to, comp, w, cw, h, |cw|);
  }

  lemma NonemptySide(side: seq<int>, w: seq<int>, h: int)
    requires ClassWeight(side, w, h, |side|) > 0
    ensures h in side
  {
    if h !in side { NoneLabelled(side, w, h, |side|); }
  }

  lemma {:induction false} ClassPositive(labels: seq<int>, w: seq<int>, v: int, n: int)
    requires |w| == |labels| && 0 <= n <= |labels| && 0 <= v < |labels| && forall u | 0 <= u < |w| :: w[u] > 0
    ensures ClassWeight(labels, w, labels[v], n) >= 0 && (v < n ==> ClassWeight(labels, w, labels[v], n) > 0)
    decreases n
  {
    if n > 0 { ClassPositive(labels, w, v, n - 1); }
  }

  /** Whichever way a part of positive weights is split, both halves have vertices. */
  lemma {:induction false} BothHalves(local: seq<seq<int>>, w: seq<int>, separator: Plan, plan: Plan)
    requires Simple(local) && |w| == |local| && IsBisect(local, w, separator, plan)
    requires forall v | 0 <= v < |w| :: w[v] > 0
    ensures Outcome(plan).Splits? ==> 0 in Outcome(plan).side && 1 in Outcome(plan).side
  {
    var comp, first, cw :| Labelling(local, w, comp, first, cw) && plan == Chosen(local, w, comp, first, cw, separator);
    if |cw| > 1 { BothSides(local, w, comp, first, cw); }
  }

  lemma {:induction false} BothSides(local: seq<seq<int>>, w: seq<int>, comp: seq<int>, first: seq<int>, cw: seq<int>)
    requires Simple(local) && |w| == |local| && Labelling(local, w, comp, first, cw) && |cw| > 1
    requires forall v | 0 <= v < |w| :: w[v] > 0
    ensures var side := Sides(comp, Balanced(cw).to); 0 in side && 1 in side
  {
    forall c | 0 <= c < |cw|
      ensures 0 < cw[c] <= Heaviest(cw)
    {
      ClassPositive(comp, w, first[c], |comp|);
      assert comp[first[c]] == c;
      HeaviestIs(cw, c);
    }
    ComponentsBalance(local, w, comp, first, cw, Heaviest(cw));
  }

  function Heaviest(cw: seq<int>): int {
    if |cw| == 0 then 0
    else if Heaviest(cw[..|cw| - 1]) > cw[|cw| - 1] then Heaviest(cw[..|cw| - 1]) else cw[|cw| - 1]
  }

  lemma {:induction false} HeaviestIs(cw: seq<int>, c: int)
    requires 0 <= c < |cw|
    ensures cw[c] <= Heaviest(cw)
    decreases |cw|
  {
    if c < |cw| - 1 { HeaviestIs(cw[..|cw| - 1], c); }
  }

  // ---- the bisection on the graph's components ----

  // What the components ahead of k on side h weigh, of the first n.
  function AheadWeight(cw: seq<int>, to: seq<int>, k: int, h: int, n: int): int
    requires n <= |cw| == |to|
    decreases n
  {
    if n <= 0 then 0
    else AheadWeight(cw, to, k, h, n - 1) + if to[n - 1] == h && Ahead(cw, n - 1, k) then cw[n - 1] else 0
  }

  // Each component is on the side where those ahead of it weigh less, on side 0 if they
  // weigh the same.
  ghost predicate EachToLighter(cw: seq<int>, to: seq<int>) {
    |to| == |cw| && forall k | 0 <= k < |cw| ::
      to[k] == if AheadWeight(cw, to, k, 0, |cw|) <= AheadWeight(cw, to, k, 1, |cw|) then 0 else 1
  }

  // What is placed stays placed.
  lemma {:induction false} SpreadKeeps(cw: seq<int>, order: seq<int>, i: int, j: int)
    requires Inside(order, |cw|) && Distinct(order) && 0 <= i <= j <= |order|
    ensures forall x | 0 <= x < i :: Spread(cw, order, j).to[order[x]] == Spread(cw, order, i).to[order[x]]
    decreases j
  {
    if i < j { SpreadKeeps(cw, order, i, j - 1); }
  }

  // In a sorted order the components ahead of one are those listed before it.
  lemma {:induction false} ListedAhead(cw: seq<int>, order: seq<int>, i: int, c: int)
    requires Permutes(order, |cw|) && Descending(cw, order) && 0 <= i < |order| && 0 <= c < |cw|
    ensures c in order[..i] <==> Ahead(cw, c, order[i])
  {
    var x := PermutationHits(order, |cw|, c);
    if x < i {
      assert Ahead(cw, order[x], order[i]) && order[..i][x] == c;
    } else {
      if x > i { assert Ahead(cw, order[i], order[x]); }
      forall y | 0 <= y < i ensures order[y] != c { assert order[y] != order[x]; }
    }
  }

  lemma {:induction false} LoadIs(cw: seq<int>, before: seq<int>, to: seq<int>, k: int, h: int, n: int)
    requires 0 <= n <= |cw| == |to| == |before| && 0 <= h <= 1
    requires forall c | 0 <= c < |cw| :: before[c] == if Ahead(cw, c, k) then to[c] else -1
    ensures ClassWeight(before, cw, h, n) == AheadWeight(cw, to, k, h, n)
    decreases n
  {
    if n > 0 { LoadIs(cw, before, to, k, h, n - 1); }
  }

  lemma {:induction false} PlacedByLoad(cw: seq<int>, order: seq<int>, i: int)
    requires Permutes(order, |cw|) && Descending(cw, order) && 0 <= i < |order|
    ensures var to, k := Spread(cw, order, |order|).to, order[i];
      to[k] == if AheadWeight(cw, to, k, 0, |cw|) <= AheadWeight(cw, to, k, 1, |cw|) then 0 else 1
  {
    var l, to, k := Spread(cw, order, i), Spread(cw, order, |order|).to, order[i];
    SpreadPlaces(cw, order, i);
    SpreadKeeps(cw, order, i, |order|);
    SpreadKeeps(cw, order, i + 1, |order|);
    assert to[order[i]] == Spread(cw, order, i + 1).to[order[i]];
    forall c | 0 <= c < |cw| ensures l.to[c] == if Ahead(cw, c, k) then to[c] else -1 {
      ListedAhead(cw, order, i, c);
      if c in order[..i] {
        var x :| 0 <= x < i && order[..i][x] == c;
        assert to[order[x]] == l.to[order[x]];
      }
    }
    LoadIs(cw, l.to, to, k, 0, |cw|);
    LoadIs(cw, l.to, to, k, 1, |cw|);
  }

  lemma {:induction false} BalancedByLoad(cw: seq<int>)
    ensures EachToLighter(cw, Balanced(cw).to)
  {
    var order := ByWeight(cw, |cw|);
    ByWeightSorts(cw, |cw|);
    forall k | 0 <= k < |cw|
      ensures var to := Balanced(cw).to;
        to[k] == if AheadWeight(cw, to, k, 0, |cw|) <= AheadWeight(cw, to, k, 1, |cw|) then 0 else 1
    {
      var i := PermutationHits(order, |cw|, k);
      PlacedByLoad(cw, order, i);
    }
  }

  // The separator's plan with its cut, which counts if both halves have a vertex.
  ghost predicate BySeparator(separator: Plan, plan: Plan) {
    && (plan.Later? <==> separator.Later? && separator.runs != []) && (plan.Later? ==> plan.runs == separator.runs)
    && (plan.cut == Fails <==> separator.cut == Fails)
    && (plan.cut.Splits? <==> separator.cut.Splits? && TwoHalves(separator.cut.side))
    && (plan.cut.Splits? ==> plan.cut == separator.cut)
  }

  ghost predicate TwoHalves(side: seq<int>) {
    exists a, b :: 0 <= a < |side| && 0 <= b < |side| && side[a] == 0 && side[b] == 1
  }

  // Several components: at once, each on the lighter side, heaviest first. One: by the separator.
  ghost predicate Bisects(local: seq<seq<int>>, w: seq<int>, separator: Plan, plan: Plan) {
    exists comp, first, cw, to :: Labelling(local, w, comp, first, cw)
      && if |first| > 1 then EachToLighter(cw, to) && plan.Now? && SidesBy(comp, to, plan.cut) else BySeparator(separator, plan)
  }

  ghost predicate SidesBy(comp: seq<int>, to: seq<int>, cut: Cut) {
    cut.Splits? && |cut.side| == |comp| && forall v | 0 <= v < |comp| :: 0 <= comp[v] < |to| && cut.side[v] == to[comp[v]]
  }

  /** How a part is bisected. */
  lemma {:induction false} BisectMeaning(local: seq<seq<int>>, w: seq<int>, separator: Plan, plan: Plan)
    requires IsBisect(local, w, separator, plan)
    ensures Bisects(local, w, separator, plan)
  {
    var comp, first, cw :| Labelling(local, w, comp, first, cw) && plan == Chosen(local, w, comp, first, cw, separator);
    var to := Balanced(cw).to;
    BalancedByLoad(cw);
    if |first| > 1 {
      assert SidesBy(comp, to, plan.cut);
    } else {
      AttemptMeaning(separator);
    }
    assert Labelling(local, w, comp, first, cw)
      && if |first| > 1 then EachToLighter(cw, to) && plan.Now? && SidesBy(comp, to, plan.cut) else BySeparator(separator, plan);
  }

  lemma {:induction false} AttemptMeaning(separator: Plan)
    ensures BySeparator(separator, Attempt(separator))
  {
    if separator.cut.Splits? && 0 in separator.cut.side && 1 in separator.cut.side {
      var a :| 0 <= a < |separator.cut.side| && separator.cut.side[a] == 0;
      var b :| 0 <= b < |separator.cut.side| && separator.cut.side[b] == 1;
      assert TwoHalves(separator.cut.side);
    }
  }
}
