/** Connected components of a part's local graph, by a depth-first search with a stack. */
module Components {
  import opened Sequences
  import opened Supervariables
  import opened Dissection

  // ---- the specification ----

  ghost predicate Path(local: seq<seq<int>>, p: seq<int>) {
    && |p| > 0 && (forall i | 0 <= i < |p| :: 0 <= p[i] < |local|)
    && forall i | 0 < i < |p| :: p[i] in local[p[i - 1]]
  }

  ghost predicate Connected(local: seq<seq<int>>, u: int, v: int) {
    exists p :: Path(local, p) && p[0] == u && p[|p| - 1] == v
  }

  predicate Earlier(first: seq<int>, c: int, d: int)
    requires 0 <= c < d < |first|
  {
    first[c] < first[d]
  }

  ghost predicate Rising(first: seq<int>) {
    forall c, d | 0 <= c < d < |first| :: Earlier(first, c, d)
  }

  lemma RisesBy(first: seq<int>, s: int)
    requires Rising(first) && forall c | 0 <= c < |first| :: first[c] < s
    ensures Rising(first + [s])
  {
    forall c, d | 0 <= c < d < |first + [s]|
      ensures Earlier(first + [s], c, d)
    {
      if d < |first| { assert Earlier(first, c, d); }
    }
  }

  /** Labels of the connected components, numbered by smallest vertex: first[c] is the
      smallest vertex of component c. */
  ghost predicate Labels(local: seq<seq<int>>, comp: seq<int>, first: seq<int>) {
    && |comp| == |local|
    && (forall v | 0 <= v < |local| :: 0 <= comp[v] < |first| && 0 <= first[comp[v]] <= v)
    && (forall u, v | 0 <= u < |local| && 0 <= v < |local| :: comp[u] == comp[v] <==> Connected(local, u, v))
    && (forall c | 0 <= c < |first| :: 0 <= first[c] < |local| && comp[first[c]] == c)
    && Rising(first)
  }

  lemma Extended(local: seq<seq<int>>, u: int, v: int, w: int)
    requires Connected(local, u, v) && 0 <= v < |local| && w in local[v] && 0 <= w < |local|
    ensures Connected(local, u, w)
  {
    var p :| Path(local, p) && p[0] == u && p[|p| - 1] == v;
    var q := p + [w];
    assert Path(local, q) && q[0] == u && q[|q| - 1] == w;
  }

  lemma Alone(local: seq<seq<int>>, v: int)
    requires 0 <= v < |local|
    ensures Connected(local, v, v)
  {
    assert Path(local, [v]);
  }

  // Labels that agree along edges agree along paths.
  lemma {:induction false} SameAlong(local: seq<seq<int>>, comp: seq<int>, p: seq<int>, i: int)
    requires Path(local, p) && 0 <= i < |p| && |comp| == |local|
    requires forall v, u | 0 <= v < |local| && 0 <= u < |local| && u in local[v] :: comp[u] == comp[v]
    ensures comp[p[i]] == comp[p[0]]
    decreases i
  {
    if i > 0 { SameAlong(local, comp, p, i - 1); }
  }

  lemma {:induction false} Turned(local: seq<seq<int>>, p: seq<int>) returns (q: seq<int>)
    requires Simple(local) && Path(local, p)
    ensures Path(local, q) && q[0] == p[|p| - 1] && q[|q| - 1] == p[0]
    decreases |p|
  {
    if |p| == 1 {
      q := p;
    } else {
      var last := |p| - 1;
      var r := Turned(local, p[..last]);
      q := [p[last]] + r;
      assert p[last] in local[p[last - 1]];
    }
  }

  lemma Joined(local: seq<seq<int>>, s: int, u: int, v: int)
    requires Simple(local) && Connected(local, s, u) && Connected(local, s, v)
    ensures Connected(local, u, v)
  {
    var p :| Path(local, p) && p[0] == s && p[|p| - 1] == u;
    var q :| Path(local, q) && q[0] == s && q[|q| - 1] == v;
    var r := Turned(local, p);
    var w := r + q[1..];
    forall i | 0 < i < |w|
      ensures w[i] in local[w[i - 1]]
    {
      if i >= |r| {
        assert w[i] == q[i - |r| + 1];
        assert w[i - 1] == q[i - |r|];
      }
    }
    assert Path(local, w) && w[0] == u && w[|w| - 1] == v;
  }

  // ---- the search ----

  // The components of the vertices below s are labelled, and nothing else.
  ghost predicate Labelled(local: seq<seq<int>>, comp: seq<int>, first: seq<int>, s: int) {
    && |comp| == |local| && 0 <= s <= |local|
    && (forall v | 0 <= v < |local| :: -1 <= comp[v] < |first|)
    && (forall v | 0 <= v < s :: comp[v] >= 0)
    && (forall v | 0 <= v < |local| && comp[v] >= 0 :: 0 <= first[comp[v]] <= v && Connected(local, first[comp[v]], v))
    && (forall v, u | 0 <= v < |local| && 0 <= u < |local| && u in local[v] :: comp[u] == comp[v])
    && (forall c | 0 <= c < |first| :: 0 <= first[c] < s && comp[first[c]] == c)
    && Rising(first)
  }

  lemma AllLabelled(local: seq<seq<int>>, comp: seq<int>, first: seq<int>)
    requires Simple(local) && Labelled(local, comp, first, |local|)
    ensures Labels(local, comp, first)
  {
    forall u, v | 0 <= u < |local| && 0 <= v < |local|
      ensures comp[u] == comp[v] <==> Connected(local, u, v)
    {
      if comp[u] == comp[v] { Joined(local, first[comp[u]], u, v); }
      if Connected(local, u, v) {
        var p :| Path(local, p) && p[0] == u && p[|p| - 1] == v;
        SameAlong(local, comp, p, |p| - 1);
      }
    }
  }

  // Only vertices of component c that are still on the stack have unlabelled neighbours.
  ghost predicate EdgesOpen(local: seq<seq<int>>, comp: seq<int>, c: int, stack: seq<int>) {
    && |comp| == |local|
    && forall v, u | 0 <= v < |local| && 0 <= u < |local| && u in local[v] && comp[v] != -1 && comp[v] != comp[u] ::
         comp[v] == c && comp[u] == -1 && v in stack
  }

  // While component |first| - 1 is searched: open vertices on the stack, closed ones behind.
  ghost predicate Flooding(local: seq<seq<int>>, comp: seq<int>, first: seq<int>, s: int, stack: seq<int>) {
    && |comp| == |local| && 0 <= s < |local| && |first| > 0 && first[|first| - 1] == s && comp[s] == |first| - 1
    && (forall i | 0 <= i < |stack| :: 0 <= stack[i] < |local| && comp[stack[i]] == |first| - 1)
    && (forall v | 0 <= v < |local| :: -1 <= comp[v] < |first|)
    && (forall v | 0 <= v < s :: comp[v] >= 0)
    && (forall v | 0 <= v < |local| && comp[v] >= 0 :: 0 <= first[comp[v]] <= v && Connected(local, first[comp[v]], v))
    && EdgesOpen(local, comp, |first| - 1, stack)
    && (forall c | 0 <= c < |first| :: 0 <= first[c] <= s && comp[first[c]] == c)
    && Rising(first)
  }

  lemma FloodStarts(local: seq<seq<int>>, comp: seq<int>, first: seq<int>, s: int)
    requires Simple(local) && Labelled(local, comp, first, s) && s < |local| && comp[s] == -1
    ensures Flooding(local, comp[s := |first|], first + [s], s, [s])
  {
    Alone(local, s);
    RisesBy(first, s);
    var comp', first' := comp[s := |first|], first + [s];
    forall v | 0 <= v < |local| && comp'[v] >= 0
      ensures 0 <= first'[comp'[v]] <= v && Connected(local, first'[comp'[v]], v)
    {
      if v != s { assert first'[comp[v]] == first[comp[v]]; }
    }
    assert EdgesOpen(local, comp', |first|, [s]);
  }

  lemma FloodEnds(local: seq<seq<int>>, comp: seq<int>, first: seq<int>, s: int)
    requires Simple(local) && Flooding(local, comp, first, s, [])
    ensures Labelled(local, comp, first, s + 1)
  {
    forall v, u | 0 <= v < |local| && 0 <= u < |local| && u in local[v]
      ensures comp[u] == comp[v]
    {
      assert v in local[u];
      assert comp[v] == -1 || comp[u] == -1 || comp[u] == comp[v];
    }
  }

  // Vertices below n without a label.
  function Unlabelled(comp: seq<int>, n: int): nat
    requires n <= |comp|
    decreases n
  {
    if n <= 0 then 0 else Unlabelled(comp, n - 1) + (if comp[n - 1] == -1 then 1 else 0)
  }

  lemma {:induction false} LabelOne(comp: seq<int>, u: int, c: int, n: int)
    requires 0 <= u < |comp| && comp[u] == -1 && c >= 0 && 0 <= n <= |comp|
    ensures Unlabelled(comp[u := c], n) == Unlabelled(comp, n) - (if u < n then 1 else 0)
    decreases n
  {
    if n > 0 { LabelOne(comp, u, c, n - 1); }
  }

  // The popped vertex v with its first p neighbours seen.
  ghost predicate Opening(local: seq<seq<int>>, comp: seq<int>, first: seq<int>, s: int, stack: seq<int>, v: int, p: int) {
    && 0 <= v < |local| && 0 <= p <= |local[v]| && |comp| == |local|
    && (forall q | 0 <= q < p :: 0 <= local[v][q] < |comp| && comp[local[v][q]] != -1)
    && Flooding(local, comp, first, s, stack + [v])
  }

  lemma PushedEdges(local: seq<seq<int>>, comp: seq<int>, c: int, stack: seq<int>, v: int, u: int)
    requires Simple(local) && EdgesOpen(local, comp, c, stack + [v]) && 0 <= u < |local| && comp[u] == -1 && c >= 0
    requires 0 <= v < |local| && comp[v] == c && u in local[v]
    ensures EdgesOpen(local, comp[u := c], c, stack + [u] + [v])
  {
    var was, now := stack + [v], stack + [u] + [v];
    forall a | a in was || a == u
      ensures a in now
    {
      if a in stack {
        var i :| 0 <= i < |stack| && stack[i] == a;
        assert now[i] == a;
      } else if a == v {
        assert now[|stack| + 1] == v;
      } else {
        assert now[|stack|] == u;
      }
    }
    NeighboursOf(local, comp, c, was, u);
  }

  // Labelled neighbours of an unlabelled vertex are in the component being searched.
  lemma NeighboursOf(local: seq<seq<int>>, comp: seq<int>, c: int, stack: seq<int>, u: int)
    requires Simple(local) && EdgesOpen(local, comp, c, stack) && 0 <= u < |local| && comp[u] == -1
    ensures forall b | 0 <= b < |local| && b in local[u] :: comp[b] == -1 || comp[b] == c
  {
    forall b | 0 <= b < |local| && b in local[u]
      ensures comp[b] == -1 || comp[b] == c
    {
      assert u in local[b];
    }
  }

  lemma Pushed(local: seq<seq<int>>, comp: seq<int>, first: seq<int>, s: int, stack: seq<int>, v: int, p: int)
    requires Simple(local) && Opening(local, comp, first, s, stack, v, p) && p < |local[v]| && comp[local[v][p]] == -1
    ensures Opening(local, comp[local[v][p] := |first| - 1], first, s, stack + [local[v][p]], v, p + 1)
  {
    var u, c := local[v][p], |first| - 1;
    assert (stack + [v])[|stack|] == v;
    PushedEdges(local, comp, c, stack, v, u);
    PushedLabels(local, comp, first, s, stack, v, u);
  }

  lemma PushedLabels(local: seq<seq<int>>, comp: seq<int>, first: seq<int>, s: int, stack: seq<int>, v: int, u: int)
    requires Flooding(local, comp, first, s, stack + [v]) && 0 <= u < |local| && comp[u] == -1
    requires 0 <= v < |local| && comp[v] == |first| - 1 && u in local[v]
    requires EdgesOpen(local, comp[u := |first| - 1], |first| - 1, stack + [u] + [v])
    ensures Flooding(local, comp[u := |first| - 1], first, s, stack + [u] + [v])
  {
    var was, now := stack + [v], stack + [u] + [v];
    Extended(local, s, v, u);
    forall i | 0 <= i < |now|
      ensures 0 <= now[i] < |local| && comp[u := |first| - 1][now[i]] == |first| - 1
    {
      if i < |stack| { assert was[i] == now[i]; }
    }
  }

  lemma Popped(local: seq<seq<int>>, comp: seq<int>, first: seq<int>, s: int, stack: seq<int>, v: int)
    requires Simple(local) && 0 <= v < |local| && Opening(local, comp, first, s, stack, v, |local[v]|)
    ensures Flooding(local, comp, first, s, stack)
  {
    var was := stack + [v];
    forall i | 0 <= i < |stack|
      ensures 0 <= stack[i] < |local| && comp[stack[i]] == |first| - 1
    {
      assert was[i] == stack[i];
    }
    forall b | b in local[v]
      ensures 0 <= b < |comp| && comp[b] != -1
    {
      var q :| 0 <= q < |local[v]| && local[v][q] == b;
    }
    assert EdgesOpen(local, comp, |first| - 1, stack);
  }

  function StackWeight(stack: seq<int>, w: seq<int>): int {
    if |stack| == 0 then 0 else StackWeight(stack[..|stack| - 1], w) + WeightAt(w, stack[|stack| - 1])
  }

  // Between two states of a search, label c gains what the stack gains and no other label
  // gains anything.
  ghost predicate Weighed(comp: seq<int>, stack: seq<int>, comp': seq<int>, stack': seq<int>, w: seq<int>, c: int) {
    && |comp| == |comp'|
    && forall d | d >= 0 :: ClassWeight(comp', w, d, |comp|) ==
         ClassWeight(comp, w, d, |comp|) + if d == c then StackWeight(stack', w) - StackWeight(stack, w) else 0
  }

  lemma StackedMore(comp: seq<int>, stack: seq<int>, u: int, w: seq<int>, c: int)
    requires 0 <= u < |comp| && comp[u] == -1
    ensures Weighed(comp, stack, comp[u := c], stack + [u], w, c)
  {
    assert (stack + [u])[..|stack|] == stack;
    forall d | d >= 0
      ensures ClassWeight(comp[u := c], w, d, |comp|) == ClassWeight(comp, w, d, |comp|) + if d == c then WeightAt(w, u) else 0
    {
      Relabelled(comp, w, u, c, d, |comp|);
    }
  }

  lemma WeighedMore(comp: seq<int>, stack: seq<int>, comp1: seq<int>, stack1: seq<int>, comp2: seq<int>, stack2: seq<int>,
                    w: seq<int>, c: int)
    requires Weighed(comp, stack, comp1, stack1, w, c) && Weighed(comp1, stack1, comp2, stack2, w, c)
    ensures Weighed(comp, stack, comp2, stack2, w, c)
  {
  }

  // One neighbour: labelled and stacked if it has no label yet.
  method VisitOne(local: seq<seq<int>>, ghost w: seq<int>, comp: array<int>, ghost first: seq<int>, c: int, ghost s: int,
                  stack: seq<int>, v: int, p: int)
      returns (stack': seq<int>)
    requires Simple(local) && comp.Length == |local| && c == |first| - 1 && 0 <= v < |local| && 0 <= p < |local[v]|
    requires Opening(local, comp[..], first, s, stack, v, p)
    modifies comp
    ensures Opening(local, comp[..], first, s, stack', v, p + 1)
    ensures Weighed(old(comp[..]), stack, comp[..], stack', w, c)
    ensures Unlabelled(comp[..], comp.Length) + |stack'| == old(Unlabelled(comp[..], comp.Length)) + |stack| && |stack'| >= |stack|
  {
    var u := local[v][p];
    ghost var before := comp[..];
    stack' := stack;
    if comp[u] < 0 {
      assert before[u] == -1;
      Pushed(local, before, first, s, stack, v, p);
      LabelOne(before, u, c, |before|);
      StackedMore(before, stack, u, w, c);
      comp[u] := c;
      assert comp[..] == before[u := c];
      stack' := stack + [u];
    } else {
      assert before[u] != -1;
      SeenNext(local, before, first, s, stack, v, p);
    }
  }

  lemma SeenNext(local: seq<seq<int>>, comp: seq<int>, first: seq<int>, s: int, stack: seq<int>, v: int, p: int)
    requires Opening(local, comp, first, s, stack, v, p) && p < |local[v]| && 0 <= local[v][p] < |comp| && comp[local[v][p]] != -1
    ensures Opening(local, comp, first, s, stack, v, p + 1)
  {
  }

  lemma VisitStarts(local: seq<seq<int>>, comp: seq<int>, first: seq<int>, s: int, stack: seq<int>, v: int)
    requires Flooding(local, comp, first, s, stack + [v])
    ensures Opening(local, comp, first, s, stack, v, 0)
  {
    assert (stack + [v])[|stack|] == v;
  }

  method Visit(local: seq<seq<int>>, ghost w: seq<int>, comp: array<int>, ghost first: seq<int>, c: int, ghost s: int,
               stack: seq<int>, v: int)
      returns (stack': seq<int>)
    requires Simple(local) && comp.Length == |local| && c == |first| - 1 && 0 <= v < |local|
    requires Opening(local, comp[..], first, s, stack, v, 0)
    modifies comp
    ensures Flooding(local, comp[..], first, s, stack')
    ensures Weighed(old(comp[..]), stack, comp[..], stack', w, c)
    ensures Unlabelled(comp[..], comp.Length) + |stack'| == old(Unlabelled(comp[..], comp.Length)) + |stack| && |stack'| >= |stack|
  {
    stack' := stack;
    for p := 0 to |local[v]|
      invariant Opening(local, comp[..], first, s, stack', v, p)
      invariant Weighed(old(comp[..]), stack, comp[..], stack', w, c)
      invariant Unlabelled(comp[..], comp.Length) + |stack'| == old(Unlabelled(comp[..], comp.Length)) + |stack| && |stack'| >= |stack|
    {
      ghost var comp1, stack1 := comp[..], stack';
      stack' := VisitOne(local, w, comp, first, c, s, stack', v, p);
      WeighedMore(old(comp[..]), stack, comp1, stack1, comp[..], stack', w, c);
    }
    Popped(local, comp[..], first, s, stack', v);
  }

  // The closed components' weights, and of the open one what is off the stack.
  ghost predicate Weights(cw: seq<int>, comp: seq<int>, w: seq<int>) {
    forall d | 0 <= d < |cw| :: cw[d] == ClassWeight(comp, w, d, |comp|)
  }

  ghost predicate OpenWeights(cw: seq<int>, weight: int, stack: seq<int>, comp: seq<int>, w: seq<int>) {
    Weights(cw, comp, w) && ClassWeight(comp, w, |cw|, |comp|) == weight + StackWeight(stack, w)
  }

  lemma WeightsStart(cw: seq<int>, comp: seq<int>, w: seq<int>, s: int)
    requires Weights(cw, comp, w) && 0 <= s < |comp| && comp[s] == -1 && forall v | 0 <= v < |comp| :: comp[v] < |cw|
    ensures OpenWeights(cw, 0, [s], comp[s := |cw|], w)
  {
    StackedMore(comp, [], s, w, |cw|);
    assert [] + [s] == [s];
    NoneLabelled(comp, w, |cw|, |comp|);
  }

  lemma WeightsNext(cw: seq<int>, weight: int, stack: seq<int>, comp: seq<int>, stack': seq<int>, comp': seq<int>, w: seq<int>)
    requires |stack| > 0 && OpenWeights(cw, weight, stack, comp, w)
    requires Weighed(comp, stack[..|stack| - 1], comp', stack', w, |cw|)
    ensures OpenWeights(cw, weight + WeightAt(w, stack[|stack| - 1]), stack', comp', w)
  {
  }

  lemma WeightsEnd(cw: seq<int>, weight: int, comp: seq<int>, w: seq<int>)
    requires OpenWeights(cw, weight, [], comp, w)
    ensures Weights(cw + [weight], comp, w)
  {
  }

  // Labels one component; returns its weight.
  method Flood(local: seq<seq<int>>, w: seq<int>, comp: array<int>, ghost first: seq<int>, ghost cw: seq<int>, c: int, s: int)
      returns (weight: int)
    requires Simple(local) && comp.Length == |local| == |w| && 0 <= s < |local| && c == |first| - 1 == |cw|
    requires Flooding(local, comp[..], first, s, [s]) && OpenWeights(cw, 0, [s], comp[..], w)
    modifies comp
    ensures Labelled(local, comp[..], first, s + 1) && Weights(cw + [weight], comp[..], w)
  {
    var stack := [s];
    weight := 0;
    while |stack| > 0
      invariant Flooding(local, comp[..], first, s, stack) && OpenWeights(cw, weight, stack, comp[..], w)
      decreases 2 * Unlabelled(comp[..], comp.Length) + |stack|
    {
      var v := stack[|stack| - 1];
      ghost var comp0, stack0 := comp[..], stack;
      assert stack == stack[..|stack| - 1] + [v];
      VisitStarts(local, comp[..], first, s, stack[..|stack| - 1], v);
      stack := Visit(local, w, comp, first, c, s, stack[..|stack| - 1], v);
      WeightsNext(cw, weight, stack0, comp0, stack, comp[..], w);
      weight := weight + w[v];
    }
    FloodEnds(local, comp[..], first, s);
    WeightsEnd(cw, weight, comp[..], w);
  }

  /** Labels by connectivity, and what every component weighs. */
  method LabelComponents(local: seq<seq<int>>, w: seq<int>) returns (comp: array<int>, ghost first: seq<int>, cw: seq<int>)
    requires Simple(local) && |w| == |local|
    ensures fresh(comp) && Labels(local, comp[..], first)
    ensures |cw| == |first| && Weights(cw, comp[..], w)
  {
    comp := new int[|local|](_ => -1);
    first, cw := [], [];
    for s := 0 to |local|
      invariant fresh(comp) && |cw| == |first| && Labelled(local, comp[..], first, s) && Weights(cw, comp[..], w)
    {
      if comp[s] < 0 {
        ghost var before := comp[..];
        FloodStarts(local, before, first, s);
        StillBelow(local, before, first, s);
        WeightsStart(cw, before, w, s);
        comp[s] := |cw|;
        assert comp[..] == before[s := |cw|];
        first := first + [s];
        var weight := Flood(local, w, comp, first, cw, |cw|, s);
        cw := cw + [weight];
      } else {
        Skipped(local, comp[..], first, s);
      }
    }
    AllLabelled(local, comp[..], first);
  }

  lemma StillBelow(local: seq<seq<int>>, comp: seq<int>, first: seq<int>, s: int)
    requires Labelled(local, comp, first, s)
    ensures forall v | 0 <= v < |comp| :: comp[v] < |first|
  {
  }

  lemma Skipped(local: seq<seq<int>>, comp: seq<int>, first: seq<int>, s: int)
    requires Labelled(local, comp, first, s) && s < |local| && comp[s] >= 0
    ensures Labelled(local, comp, first, s + 1)
  {
  }

  // ---- splitting along components ----

  // Every vertex goes where its component goes.
  function Sides(comp: seq<int>, to: seq<int>): seq<int>
    requires forall v | 0 <= v < |comp| :: 0 <= comp[v] < |to|
  {
    seq(|comp|, v requires 0 <= v < |comp| => to[comp[v]])
  }

  /** Whole components on either side: no edge is cut and the separator is empty. */
  lemma ComponentsSplit(local: seq<seq<int>>, comp: seq<int>, first: seq<int>, to: seq<int>)
    requires Simple(local) && Labels(local, comp, first) && |to| == |first|
    requires forall c | 0 <= c < |to| :: 0 <= to[c] <= 1
    ensures CutSound(local, Splits(Sides(comp, to))) && 2 !in Sides(comp, to)
  {
    forall a, b | 0 <= a < |local| && 0 <= b < |local| && b in local[a]
      ensures comp[a] == comp[b]
    {
      Alone(local, a);
      Extended(local, a, a, b);
    }
  }
}
