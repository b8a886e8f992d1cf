/** Nested dissection as a recursion: split a part, order both sides, then the separator. */
module Dissection {
  import opened Sequences
  import opened Supervariables
  import opened CompressedGraph

  // Parts with fewer supervariables are not split.
  const MIN_SPLIT := 64

  datatype Option<T> = None | Some(value: T)

  // The original graph, its supervariables and the compressed graph.
  datatype Graph = Graph(rows: seq<seq<int>>, superOf: seq<int>, crows: seq<seq<int>>, weights: seq<int>) {
    ghost predicate Valid() {
      && |superOf| == |rows| && |weights| == |crows|
      && (forall v {:trigger RowOk(v)} | 0 <= v < |crows| :: RowOk(v))
      && (forall o {:trigger VertexOk(o)} | 0 <= o < |rows| :: VertexOk(o))
    }

    // Row v of the compressed graph is symmetric, without self loops or repetition, and has members.
    ghost predicate RowOk(v: int)
      requires 0 <= v < |crows|
    {
      && Inside(crows[v], |crows|) && v !in crows[v] && Distinct(crows[v]) && |Members(superOf, v)| > 0
      && forall u | 0 <= u < |crows| :: u in crows[v] <==> v in crows[u]
    }

    ghost predicate VertexOk(o: int)
      requires |superOf| == |rows| && 0 <= o < |rows|
    {
      && Inside(rows[o], |rows|) && 0 <= superOf[o] < |crows|
      && forall p | 0 <= p < |rows[o]| :: Linked(o, rows[o][p])
    }

    // Neighbours are in one supervariable or in adjacent ones.
    predicate Linked(o: int, u: int)
      requires |superOf| == |rows|
    {
      && 0 <= o < |rows| && 0 <= u < |rows| && 0 <= superOf[o] < |crows|
      && (superOf[u] == superOf[o] || superOf[u] in crows[superOf[o]])
    }
  }

  type Compressed = g: Graph | g.Valid() witness Graph([], [], [], [])

  lemma GraphIsValid(g: Graph)
    requires |g.superOf| == |g.rows| && |g.weights| == |g.crows|
    requires Ranged(g.rows) && Simple(g.crows) && Supers(g.superOf, |g.crows|)
    requires forall o, p | 0 <= o < |g.rows| && 0 <= p < |g.rows[o]| :: g.Linked(o, g.rows[o][p])
    ensures g.Valid()
  {
  }

  // What holds of supervariable v.
  lemma RowFacts(g: Compressed, v: int)
    requires 0 <= v < |g.crows|
    ensures Inside(g.crows[v], |g.crows|) && v !in g.crows[v] && Distinct(g.crows[v]) && |Members(g.superOf, v)| > 0
    ensures forall u | 0 <= u < |g.crows| :: u in g.crows[v] <==> v in g.crows[u]
  {
    assert g.RowOk(v);
  }

  lemma VertexFacts(g: Compressed, o: int)
    requires 0 <= o < |g.rows|
    ensures Inside(g.rows[o], |g.rows|) && 0 <= g.superOf[o] < |g.crows|
    ensures forall p | 0 <= p < |g.rows[o]| :: g.Linked(o, g.rows[o][p])
  {
    assert g.VertexOk(o);
  }

  lemma CompressedIsValid(rows: seq<seq<int>>, superOf: seq<int>, ns: int, crows: seq<seq<int>>, weights: seq<int>)
    requires Symmetric(rows) && MergesAlike(rows, superOf) && |weights| == ns
    requires Numbered(Reps(rows, |rows|), superOf, ns) && IsQuotient(rows, superOf, ns, crows)
    ensures Graph(rows, superOf, crows, weights).Valid()
  {
    var g := Graph(rows, superOf, crows, weights);
    QuotientSimple(rows, superOf, ns, crows);
    SupersOf(Reps(rows, |rows|), superOf, ns);
    forall o, p | 0 <= o < |rows| && 0 <= p < |rows[o]|
      ensures g.Linked(o, rows[o][p])
    {
      var u := rows[o][p];
      if superOf[u] != superOf[o] { QuotientEdges(rows, superOf, ns, crows, o, u); }
    }
    GraphIsValid(g);
  }

  // ---- the ordering tools ----

  // Sides 0 and 1 are the halves, 2 the separator.
  datatype Cut = Fails | Stays | Splits(side: seq<int>)

  /** How a part is split: at once, or by separate runs (false: the run fails) followed by
      a choice. */
  datatype Plan = Now(cut: Cut) | Later(runs: seq<bool>, cut: Cut)

  function Outcome(plan: Plan): Cut {
    match plan
    case Now(cut) => cut
    case Later(runs, cut) => if false in runs then Fails else cut
  }

  // No edge joins the two halves.
  ghost predicate CutSound(local: seq<seq<int>>, cut: Cut) {
    cut.Splits? ==>
      && |cut.side| == |local|
      && (forall a | 0 <= a < |local| :: 0 <= cut.side[a] <= 2)
      && forall a, b | 0 <= a < |local| && 0 <= b < |local| && b in local[a] :: cut.side[a] == 0 ==> cut.side[b] != 1
  }

  datatype Tools = Tools(levels: int, leafMax: int,
                         bisect: (seq<seq<int>>, seq<int>, int) -> Plan,
                         amd: seq<seq<int>> -> Option<seq<int>>,
                         nodeNd: (seq<seq<int>>, seq<int>) -> Option<seq<int>>)
  {
    ghost predicate BisectSound(local: seq<seq<int>>, w: seq<int>, depth: int) {
      Simple(local) ==>
        && CutSound(local, Outcome(bisect(local, w, depth)))
        && (bisect(local, w, depth).Later? ==> |bisect(local, w, depth).runs| > 0)
    }

    ghost predicate OrdersSound(local: seq<seq<int>>, w: seq<int>) {
      && (amd(local).Some? ==> Permutes(amd(local).value, |local|))
      && (nodeNd(local, w).Some? ==> Permutes(nodeNd(local, w).value, |local|))
    }

    ghost predicate Sound() {
      && (forall local, w, depth :: BisectSound(local, w, depth))
      && (forall local, w :: OrdersSound(local, w))
    }
  }

  type Kit = t: Tools | t.Sound() witness Tools(0, 0, (l, w, d) => Now(Stays), l => None, (l, w) => None)

  // ---- a part's local graph ----

  // Original vertices of the listed supervariables.
  function Originals(g: Graph, ss: seq<int>): seq<int> {
    if |ss| == 0 then [] else Originals(g, ss[..|ss| - 1]) + Members(g.superOf, ss[|ss| - 1])
  }

  /** A local graph is fine, on original vertices, or coarse, on supervariables: its cells,
      their neighbours, and the supervariable of a cell. */
  function Cells(g: Graph, part: seq<int>, fine: bool): seq<int> {
    if fine then Originals(g, part) else part
  }

  function Refs(g: Graph, fine: bool, c: int): seq<int> {
    if fine then (if 0 <= c < |g.rows| then g.rows[c] else []) else (if 0 <= c < |g.crows| then g.crows[c] else [])
  }

  function SuperOf(g: Graph, fine: bool, c: int): int {
    if !fine then c else if 0 <= c < |g.superOf| then g.superOf[c] else -1
  }

  // The first p references of a cell that stay in the part, by local index.
  function LocalRow(g: Graph, part: seq<int>, fine: bool, c: int, p: int): seq<int>
    requires p <= |Refs(g, fine, c)|
    decreases p
  {
    if p <= 0 then []
    else
      var u := Refs(g, fine, c)[p - 1];
      LocalRow(g, part, fine, c, p - 1) + (if SuperOf(g, fine, u) in part then [IndexOf(Cells(g, part, fine), u)] else [])
  }

  function LocalRows(g: Graph, part: seq<int>, fine: bool, k: int): (r: seq<seq<int>>)
    requires k <= |Cells(g, part, fine)|
    ensures k >= 0 ==> |r| == k
    decreases k
  {
    if k <= 0 then []
    else
      var c := Cells(g, part, fine)[k - 1];
      LocalRows(g, part, fine, k - 1) + [LocalRow(g, part, fine, c, |Refs(g, fine, c)|)]
  }

  function Local(g: Graph, part: seq<int>, fine: bool): seq<seq<int>> {
    LocalRows(g, part, fine, |Cells(g, part, fine)|)
  }

  function LocalWeights(g: Graph, part: seq<int>): seq<int> {
    seq(|part|, k requires 0 <= k < |part| => if 0 <= part[k] < |g.weights| then g.weights[part[k]] else 0)
  }

  // ---- the recursion ----

  function Half(part: seq<int>, side: seq<int>, h: int): (r: seq<int>)
    ensures |r| <= |part|
  {
    if |part| == 0 then []
    else
      var last := |part| - 1;
      Half(part[..last], side, h) + (if last < |side| && side[last] == h then [part[last]] else [])
  }

  // The supervariables of original vertices in order of first appearance.
  function Firsts(g: Graph, orig: seq<int>, lp: seq<int>): seq<int> {
    if |lp| == 0 then []
    else
      var before, k := Firsts(g, orig, lp[..|lp| - 1]), lp[|lp| - 1];
      var s := SuperOf(g, true, if 0 <= k < |orig| then orig[k] else -1);
      if s in before then before else before + [s]
  }

  function Arranged(part: seq<int>, lp: seq<int>): seq<int> {
    seq(|lp|, k requires 0 <= k < |lp| => if 0 <= lp[k] < |part| then part[lp[k]] else -1)
  }

  // Small leaves are ordered on original vertices, others on supervariables.
  function Fine(t: Tools, part: seq<int>): bool { |part| < t.leafMax }

  function LeafFrom(g: Graph, t: Tools, part: seq<int>, local: seq<seq<int>>): Option<seq<int>> {
    if Fine(t, part) then
      match t.amd(local)
      case None => None
      case Some(lp) => Some(Originals(g, Firsts(g, Originals(g, part), lp)))
    else
      match t.nodeNd(local, LocalWeights(g, part))
      case None => None
      case Some(lp) => Some(Originals(g, Arranged(part, lp)))
  }

  function LeafOrder(g: Graph, t: Tools, part: seq<int>): Option<seq<int>> {
    LeafFrom(g, t, part, Local(g, part, Fine(t, part)))
  }

  // Whether a part is large and shallow enough to split.
  function Tries(t: Tools, part: seq<int>, depth: int): bool { depth < t.levels && |part| >= MIN_SPLIT }

  // The cut tried for a part, if it is tried at all.
  function CutOf(g: Graph, t: Tools, part: seq<int>, depth: int): Cut {
    if Tries(t, part, depth) then Outcome(t.bisect(Local(g, part, false), LocalWeights(g, part), depth))
    else Stays
  }

  /** The order of a part: both halves, then their separator. */
  function Dissect(g: Graph, t: Tools, part: seq<int>, depth: int): Option<seq<int>>
    decreases t.levels - depth
  {
    match CutOf(g, t, part, depth)
    case Fails => None
    case Stays => LeafOrder(g, t, part)
    case Splits(side) =>
      var a, b := Dissect(g, t, Half(part, side, 0), depth + 1), Dissect(g, t, Half(part, side, 1), depth + 1);
      if a.None? || b.None? then None else Some(a.value + b.value + Originals(g, Half(part, side, 2)))
  }

  // The recursion at a part that splits.
  lemma DissectSplits(g: Graph, t: Tools, part: seq<int>, depth: int)
    requires CutOf(g, t, part, depth).Splits?
    ensures var side := CutOf(g, t, part, depth).side;
      var a, b := Dissect(g, t, Half(part, side, 0), depth + 1), Dissect(g, t, Half(part, side, 1), depth + 1);
      Dissect(g, t, part, depth) == if a.None? || b.None? then None else Some(a.value + b.value + Originals(g, Half(part, side, 2)))
  {
  }

  // Supervariables, each at most once.
  ghost predicate Part(g: Graph, part: seq<int>) {
    Inside(part, |g.crows|) && forall v :: Count(part, v) <= 1
  }

  lemma PartDistinct(g: Graph, part: seq<int>)
    requires Part(g, part)
    ensures Distinct(part)
  {
    CountsDistinct(part);
  }

  lemma WholePart(g: Graph)
    ensures Part(g, Whole(g))
  {
    forall v ensures Count(Whole(g), v) <= 1 { DistinctCounts(Whole(g), v); }
  }

  function Whole(g: Graph): (r: seq<int>)
    ensures |r| == |g.crows| && forall k | 0 <= k < |r| :: r[k] == k
  {
    seq(|g.crows|, k requires 0 <= k < |g.crows| => k)
  }

  // ---- the local graph is a graph ----

  // Cells of the part are those of its supervariables, each once.
  lemma {:induction false} OriginalsIn(g: Compressed, ss: seq<int>, o: int)
    ensures o in Originals(g, ss) <==> 0 <= o < |g.rows| && g.superOf[o] in ss
    decreases |ss|
  {
    if |ss| > 0 {
      var init, s := ss[..|ss| - 1], ss[|ss| - 1];
      assert ss == init + [s];
      OriginalsIn(g, init, o);
      if 0 <= o < |g.rows| && g.superOf[o] == s { MemberIn(g.superOf, s, |g.superOf|, o); }
    }
  }

  lemma {:induction false} OriginalsCount(g: Compressed, ss: seq<int>, o: int)
    requires 0 <= o < |g.rows|
    ensures Count(Originals(g, ss), o) == Count(ss, g.superOf[o])
    decreases |ss|
  {
    if |ss| > 0 {
      var s := ss[|ss| - 1];
      OriginalsCount(g, ss[..|ss| - 1], o);
      CountSum(Originals(g, ss[..|ss| - 1]), Members(g.superOf, s), o);
      MembersCount(g, s, o);
    }
  }

  lemma MembersCount(g: Compressed, s: int, o: int)
    requires 0 <= o < |g.rows|
    ensures Count(Members(g.superOf, s), o) == if g.superOf[o] == s then 1 else 0
  {
    var ms := Members(g.superOf, s);
    DistinctCounts(ms, o);
    if g.superOf[o] == s { MemberIn(g.superOf, s, |g.superOf|, o); }
  }

  lemma CellsDistinct(g: Compressed, part: seq<int>, fine: bool)
    requires Part(g, part)
    ensures Distinct(Cells(g, part, fine))
  {
    if fine {
      var os := Originals(g, part);
      forall o | o in os
        ensures Count(os, o) <= 1
      {
        OriginalsIn(g, part, o);
        OriginalsCount(g, part, o);
      }
      CountsDistinct(os);
    } else {
      PartDistinct(g, part);
    }
  }

  lemma CellIn(g: Compressed, part: seq<int>, fine: bool, c: int)
    requires if fine then 0 <= c < |g.rows| else true
    ensures c in Cells(g, part, fine) <==> SuperOf(g, fine, c) in part
  {
    if fine { OriginalsIn(g, part, c); }
  }

  lemma RefsInside(g: Compressed, fine: bool, c: int, p: int)
    requires 0 <= p < |Refs(g, fine, c)|
    ensures var u := Refs(g, fine, c)[p];
      0 <= u < (if fine then |g.rows| else |g.crows|) && 0 <= SuperOf(g, fine, u) < |g.crows|
  {
    if fine { VertexFacts(g, c); VertexFacts(g, g.rows[c][p]); } else { RowFacts(g, c); }
  }

  lemma {:induction false} PlaceIs(cells: seq<int>, u: int, b: int)
    requires Distinct(cells) && u in cells
    ensures IndexOf(cells, u) == b <==> 0 <= b < |cells| && cells[b] == u
  {
  }

  lemma {:induction false} LocalRowHolds(g: Compressed, part: seq<int>, fine: bool, c: int, p: int, b: int)
    requires Part(g, part) && 0 <= p <= |Refs(g, fine, c)|
    ensures b in LocalRow(g, part, fine, c, p) <==>
            0 <= b < |Cells(g, part, fine)| && Cells(g, part, fine)[b] in Refs(g, fine, c)[..p]
    decreases p
  {
    if p > 0 {
      var refs, cells := Refs(g, fine, c), Cells(g, part, fine);
      var u := refs[p - 1];
      RefsInside(g, fine, c, p - 1);
      CellIn(g, part, fine, u);
      CellsDistinct(g, part, fine);
      if u in cells { PlaceIs(cells, u, b); }
      LocalRowHolds(g, part, fine, c, p - 1, b);
      assert refs[..p] == refs[..p - 1] + [u];
    }
  }

  lemma {:induction false} LocalRowsAt(g: Graph, part: seq<int>, fine: bool, k: int, a: int)
    requires 0 <= a < k <= |Cells(g, part, fine)|
    ensures var c := Cells(g, part, fine)[a]; LocalRows(g, part, fine, k)[a] == LocalRow(g, part, fine, c, |Refs(g, fine, c)|)
    decreases k
  {
    if a < k - 1 { LocalRowsAt(g, part, fine, k - 1, a); }
  }

  // a and b are joined locally exactly when their cells are.
  lemma LocalEdge(g: Compressed, part: seq<int>, fine: bool, a: int, b: int)
    requires Part(g, part) && 0 <= a < |Cells(g, part, fine)|
    ensures var cells := Cells(g, part, fine);
      b in Local(g, part, fine)[a] <==> 0 <= b < |cells| && cells[b] in Refs(g, fine, cells[a])
  {
    var c := Cells(g, part, fine)[a];
    LocalRowsAt(g, part, fine, |Cells(g, part, fine)|, a);
    LocalRowHolds(g, part, fine, c, |Refs(g, fine, c)|, b);
    assert Refs(g, fine, c)[..|Refs(g, fine, c)|] == Refs(g, fine, c);
  }

  lemma {:induction false} LocalRowDistinct(g: Compressed, part: seq<int>, c: int, p: int)
    requires Part(g, part) && 0 <= c < |g.crows| && 0 <= p <= |g.crows[c]|
    ensures Distinct(LocalRow(g, part, false, c, p))
    decreases p
  {
    if p > 0 {
      var row, u := g.crows[c], g.crows[c][p - 1];
      LocalRowDistinct(g, part, c, p - 1);
      RowFacts(g, c);
      if u in part {
        LocalRowHolds(g, part, false, c, p - 1, IndexOf(part, u));
        DistinctMore(LocalRow(g, part, false, c, p - 1), IndexOf(part, u));
      }
    }
  }

  /** The coarse local graph is again symmetric, without self loops or repetition. */
  lemma LocalSimple(g: Compressed, part: seq<int>)
    requires Part(g, part)
    ensures Simple(Local(g, part, false)) && |Local(g, part, false)| == |part|
  {
    var local := Local(g, part, false);
    PartDistinct(g, part);
    forall a | 0 <= a < |part|
      ensures Inside(local[a], |part|) && a !in local[a] && Distinct(local[a])
    {
      forall i | 0 <= i < |local[a]|
        ensures 0 <= local[a][i] < |part|
      {
        LocalEdge(g, part, false, a, local[a][i]);
      }
      LocalEdge(g, part, false, a, a);
      RowFacts(g, part[a]);
      LocalRowsAt(g, part, false, |part|, a);
      LocalRowDistinct(g, part, part[a], |g.crows[part[a]]|);
    }
    forall a, b | 0 <= a < |part| && 0 <= b < |part|
      ensures b in local[a] <==> a in local[b]
    {
      LocalEdge(g, part, false, a, b);
      LocalEdge(g, part, false, b, a);
      RowFacts(g, part[a]);
    }
  }

  // ---- the halves ----

  lemma {:induction false} HalfHolds(part: seq<int>, side: seq<int>, h: int, v: int)
    requires |side| >= |part|
    ensures v in Half(part, side, h) <==> exists k :: 0 <= k < |part| && part[k] == v && side[k] == h
    decreases |part|
  {
    if |part| > 0 {
      var last := |part| - 1;
      HalfHolds(part[..last], side, h, v);
      if v in Half(part[..last], side, h) {
        var k :| 0 <= k < last && part[..last][k] == v && side[k] == h;
        assert part[k] == v;
      }
      if k :| 0 <= k < |part| && part[k] == v && side[k] == h {
        if k < last { assert part[..last][k] == v; }
      }
    }
  }

  lemma {:induction false} HalfCount(part: seq<int>, side: seq<int>, h: int, v: int)
    requires |side| >= |part|
    ensures Count(Half(part, side, h), v) <= Count(part, v)
    decreases |part|
  {
    if |part| > 0 {
      HalfCount(part[..|part| - 1], side, h, v);
      HalfNext(part, side, h, v);
    }
  }

  lemma HalfPart(g: Graph, part: seq<int>, side: seq<int>, h: int)
    requires Part(g, part) && |side| >= |part|
    ensures Part(g, Half(part, side, h))
  {
    var half := Half(part, side, h);
    forall v ensures Count(half, v) <= 1 { HalfCount(part, side, h, v); }
    forall i | 0 <= i < |half|
      ensures 0 <= half[i] < |g.crows|
    {
      assert half[i] in half;
      HalfHolds(part, side, h, half[i]);
    }
  }

  lemma {:induction false} HalvesCount(part: seq<int>, side: seq<int>, v: int)
    requires |side| >= |part| && forall k | 0 <= k < |part| :: 0 <= side[k] <= 2
    ensures Count(Half(part, side, 0), v) + Count(Half(part, side, 1), v) + Count(Half(part, side, 2), v) == Count(part, v)
    decreases |part|
  {
    if |part| > 0 {
      var last := |part| - 1;
      HalvesCount(part[..last], side, v);
      HalvesNext(part, side, v);
    }
  }

  lemma HalvesNext(part: seq<int>, side: seq<int>, v: int)
    requires 0 < |part| <= |side| && 0 <= side[|part| - 1] <= 2
    ensures var last := |part| - 1; var init := part[..last];
      Count(Half(part, side, 0), v) + Count(Half(part, side, 1), v) + Count(Half(part, side, 2), v)
      == Count(Half(init, side, 0), v) + Count(Half(init, side, 1), v) + Count(Half(init, side, 2), v) + if part[last] == v then 1 else 0
  {
    HalfNext(part, side, 0, v);
    HalfNext(part, side, 1, v);
    HalfNext(part, side, 2, v);
  }

  lemma HalfNext(part: seq<int>, side: seq<int>, h: int, v: int)
    requires 0 < |part| <= |side|
    ensures var last := |part| - 1;
      Count(Half(part, side, h), v) == Count(Half(part[..last], side, h), v) + if side[last] == h && part[last] == v then 1 else 0
  {
    var last := |part| - 1;
    var before := Half(part[..last], side, h);
    if side[last] == h {
      assert (before + [part[last]])[..|before|] == before;
    } else {
      assert Half(part, side, h) == before;
    }
  }

  lemma CutIsSound(g: Compressed, t: Kit, part: seq<int>, depth: int)
    requires Part(g, part) && CutOf(g, t, part, depth).Splits?
    ensures var side := CutOf(g, t, part, depth).side;
      |side| == |part| && (forall k | 0 <= k < |part| :: 0 <= side[k] <= 2)
      && CutSound(Local(g, part, false), CutOf(g, t, part, depth))
  {
    LocalSimple(g, part);
    assert t.BisectSound(Local(g, part, false), LocalWeights(g, part), depth);
  }

  // Disjoint, and no edge from one to the other.
  ghost predicate Apart(g: Graph, a: seq<int>, b: seq<int>) {
    forall x | x in a :: x !in b && forall u | 0 <= x < |g.crows| && u in g.crows[x] :: u !in b
  }

  lemma HalvesApart(g: Compressed, t: Kit, part: seq<int>, depth: int)
    requires Part(g, part) && CutOf(g, t, part, depth).Splits?
    ensures var side := CutOf(g, t, part, depth).side;
      Apart(g, Half(part, side, 0), Half(part, side, 1)) && Apart(g, Half(part, side, 1), Half(part, side, 0))
  {
    CutIsSound(g, t, part, depth);
    var side := CutOf(g, t, part, depth).side;
    forall x, u | x in Half(part, side, 0) && u in Half(part, side, 1)
      ensures Unjoined(g, x, u)
    {
      SidesUnjoined(g, part, side, x, u);
    }
    UnjoinedApart(g, Half(part, side, 0), Half(part, side, 1));
  }

  ghost predicate Unjoined(g: Graph, x: int, u: int) {
    x != u && (0 <= x < |g.crows| ==> u !in g.crows[x]) && (0 <= u < |g.crows| ==> x !in g.crows[u])
  }

  lemma UnjoinedApart(g: Graph, a: seq<int>, b: seq<int>)
    requires forall x, u | x in a && u in b :: Unjoined(g, x, u)
    ensures Apart(g, a, b) && Apart(g, b, a)
  {
  }

  lemma SidesUnjoined(g: Compressed, part: seq<int>, side: seq<int>, x: int, u: int)
    requires Part(g, part) && |side| == |part| && CutSound(Local(g, part, false), Splits(side))
    requires x in Half(part, side, 0) && u in Half(part, side, 1)
    ensures Unjoined(g, x, u)
  {
    HalfHolds(part, side, 0, x);
    HalfHolds(part, side, 1, u);
    var i :| 0 <= i < |part| && part[i] == x && side[i] == 0;
    var j :| 0 <= j < |part| && part[j] == u && side[j] == 1;
    PlacesUnjoined(g, part, side, i, j);
  }

  lemma PlacesUnjoined(g: Compressed, part: seq<int>, side: seq<int>, i: int, j: int)
    requires Part(g, part) && |side| == |part| && CutSound(Local(g, part, false), Splits(side))
    requires 0 <= i < |part| && 0 <= j < |part| && side[i] == 0 && side[j] == 1
    ensures Unjoined(g, part[i], part[j])
  {
    PartDistinct(g, part);
    LocalEdge(g, part, false, i, j);
    CutMisses(Local(g, part, false), side, i, j);
    assert part[j] !in g.crows[part[i]];
    RowFacts(g, part[i]);
  }

  lemma CutMisses(local: seq<seq<int>>, side: seq<int>, i: int, j: int)
    requires CutSound(local, Splits(side)) && 0 <= i < |local| && 0 <= j < |local| && side[i] == 0 && side[j] == 1
    ensures j !in local[i]
  {
  }

  // ---- every vertex once ----

  lemma {:induction false} FirstsHold(g: Graph, orig: seq<int>, lp: seq<int>, s: int)
    requires Inside(lp, |orig|)
    ensures Distinct(Firsts(g, orig, lp))
    ensures s in Firsts(g, orig, lp) <==> exists k :: 0 <= k < |lp| && SuperOf(g, true, orig[lp[k]]) == s
    decreases |lp|
  {
    if |lp| > 0 {
      var init, last := lp[..|lp| - 1], lp[|lp| - 1];
      FirstsHold(g, orig, init, s);
      FirstsHold(g, orig, init, SuperOf(g, true, orig[last]));
      assert forall k | 0 <= k < |init| :: init[k] == lp[k];
      if SuperOf(g, true, orig[last]) !in Firsts(g, orig, init) {
        DistinctMore(Firsts(g, orig, init), SuperOf(g, true, orig[last]));
      }
    }
  }

  // Gathering at first appearance keeps the part's supervariables, each once.
  lemma GatheredCount(g: Compressed, part: seq<int>, lp: seq<int>, s: int)
    requires Part(g, part) && Permutes(lp, |Originals(g, part)|)
    ensures Count(Firsts(g, Originals(g, part), lp), s) == Count(part, s)
  {
    var orig := Originals(g, part);
    FirstsHold(g, orig, lp, s);
    DistinctCounts(Firsts(g, orig, lp), s);
    PartDistinct(g, part);
    DistinctCounts(part, s);
    if s in part {
      RowFacts(g, s);
      var o := Members(g.superOf, s)[0];
      OriginalsIn(g, part, o);
      var k := PermutationHits(lp, |orig|, IndexOf(orig, o));
      assert SuperOf(g, true, orig[lp[k]]) == s;
    }
    if s in Firsts(g, orig, lp) {
      var k :| 0 <= k < |lp| && SuperOf(g, true, orig[lp[k]]) == s;
      OriginalsIn(g, part, orig[lp[k]]);
    }
  }

  lemma ArrangedCount(g: Graph, part: seq<int>, lp: seq<int>, s: int)
    requires Part(g, part) && Permutes(lp, |part|)
    ensures Count(Arranged(part, lp), s) == Count(part, s)
  {
    var r := Arranged(part, lp);
    PartDistinct(g, part);
    forall i, j | 0 <= i < j < |r|
      ensures r[i] != r[j]
    {
      assert lp[i] != lp[j];
      assert part[lp[i]] != part[lp[j]];
    }
    DistinctCounts(r, s);
    PartDistinct(g, part);
    DistinctCounts(part, s);
    if s in part {
      var k := PermutationHits(lp, |part|, IndexOf(part, s));
      assert r[k] == s;
    }
  }

  // ---- members together ----

  lemma {:induction false} OriginalsSum(g: Graph, a: seq<int>, b: seq<int>)
    ensures Originals(g, a + b) == Originals(g, a) + Originals(g, b)
    decreases |b|
  {
    if |b| == 0 {
      assert a + b == a;
    } else {
      assert (a + b)[..|a + b| - 1] == a + b[..|b| - 1];
      OriginalsSum(g, a, b[..|b| - 1]);
    }
  }

  // ss orders the part's supervariables, and expands to the part's order.
  ghost predicate Expands(g: Graph, t: Tools, part: seq<int>, depth: int, ss: seq<int>) {
    && Dissect(g, t, part, depth) == Some(Originals(g, ss))
    && forall s :: Count(ss, s) == Count(part, s)
  }

  /** A part's order expands an order of its supervariables: the members of each stand
      together, and a separator's behind both halves'. */
  lemma {:induction false} DissectExpands(g: Compressed, t: Kit, part: seq<int>, depth: int) returns (ss: seq<int>)
    requires Part(g, part) && Dissect(g, t, part, depth).Some?
    ensures Expands(g, t, part, depth, ss)
    decreases t.levels - depth, 1
  {
    match CutOf(g, t, part, depth)
    case Fails => assert false;
    case Stays => ss := LeafExpands(g, t, part, depth);
    case Splits(side) => ss := HalvesExpand(g, t, part, depth, side);
  }

  lemma {:induction false} HalvesExpand(g: Compressed, t: Kit, part: seq<int>, depth: int, side: seq<int>) returns (ss: seq<int>)
    requires Part(g, part) && Dissect(g, t, part, depth).Some? && CutOf(g, t, part, depth) == Splits(side)
    ensures Expands(g, t, part, depth, ss)
    decreases t.levels - depth, 0
  {
    HalvesAreParts(g, t, part, depth, side);
    HalvesOrdered(g, t, part, depth, side);
    var a := DissectExpands(g, t, Half(part, side, 0), depth + 1);
    var b := DissectExpands(g, t, Half(part, side, 1), depth + 1);
    ss := SplitExpands(g, t, part, depth, side, a, b);
  }

  lemma HalvesAreParts(g: Compressed, t: Kit, part: seq<int>, depth: int, side: seq<int>)
    requires Part(g, part) && CutOf(g, t, part, depth) == Splits(side)
    ensures Part(g, Half(part, side, 0)) && Part(g, Half(part, side, 1))
  {
    CutIsSound(g, t, part, depth);
    HalfPart(g, part, side, 0);
    HalfPart(g, part, side, 1);
  }

  lemma HalvesOrdered(g: Graph, t: Tools, part: seq<int>, depth: int, side: seq<int>)
    requires CutOf(g, t, part, depth) == Splits(side) && Dissect(g, t, part, depth).Some?
    ensures depth < t.levels
    ensures Dissect(g, t, Half(part, side, 0), depth + 1).Some? && Dissect(g, t, Half(part, side, 1), depth + 1).Some?
  {
    DissectSplits(g, t, part, depth);
  }

  lemma SplitExpands(g: Compressed, t: Kit, part: seq<int>, depth: int, side: seq<int>, a: seq<int>, b: seq<int>) returns (ss: seq<int>)
    requires Part(g, part) && CutOf(g, t, part, depth) == Splits(side)
    requires Expands(g, t, Half(part, side, 0), depth + 1, a) && Expands(g, t, Half(part, side, 1), depth + 1, b)
    ensures Expands(g, t, part, depth, ss)
  {
    CutIsSound(g, t, part, depth);
    DissectSplits(g, t, part, depth);
    ss := JoinedExpands(g, part, side, a, b);
  }

  lemma JoinedExpands(g: Graph, part: seq<int>, side: seq<int>, a: seq<int>, b: seq<int>) returns (ss: seq<int>)
    requires |side| == |part| && forall k | 0 <= k < |part| :: 0 <= side[k] <= 2
    requires forall s :: Count(a, s) == Count(Half(part, side, 0), s)
    requires forall s :: Count(b, s) == Count(Half(part, side, 1), s)
    ensures Originals(g, ss) == Originals(g, a) + Originals(g, b) + Originals(g, Half(part, side, 2))
    ensures forall s :: Count(ss, s) == Count(part, s)
  {
    var sep := Half(part, side, 2);
    ss := a + b + sep;
    OriginalsSum(g, a, b);
    OriginalsSum(g, a + b, sep);
    forall s ensures Count(ss, s) == Count(part, s) {
      CountSum(a, b, s);
      CountSum(a + b, sep, s);
      HalvesCount(part, side, s);
    }
  }

  lemma LeafExpands(g: Compressed, t: Kit, part: seq<int>, depth: int) returns (ss: seq<int>)
    requires Part(g, part) && CutOf(g, t, part, depth) == Stays && Dissect(g, t, part, depth).Some?
    ensures Expands(g, t, part, depth, ss)
  {
    if Fine(t, part) {
      assert t.OrdersSound(Local(g, part, true), []);
      var lp := t.amd(Local(g, part, true)).value;
      ss := Firsts(g, Originals(g, part), lp);
      forall s ensures Count(ss, s) == Count(part, s) { GatheredCount(g, part, lp, s); }
    } else {
      assert t.OrdersSound(Local(g, part, false), LocalWeights(g, part));
      var lp := t.nodeNd(Local(g, part, false), LocalWeights(g, part)).value;
      ss := Arranged(part, lp);
      forall s ensures Count(ss, s) == Count(part, s) { ArrangedCount(g, part, lp, s); }
    }
  }

  /** A part's order holds every original vertex of the part once and no other. */
  lemma {:induction false} DissectCounts(g: Compressed, t: Kit, part: seq<int>, depth: int, o: int)
    requires Part(g, part) && Dissect(g, t, part, depth).Some?
    ensures var order := Dissect(g, t, part, depth).value;
      && (0 <= o < |g.rows| ==> Count(order, o) == Count(part, g.superOf[o]))
      && (o in order ==> 0 <= o < |g.rows|)
  {
    var ss := DissectExpands(g, t, part, depth);
    OriginalsIn(g, ss, o);
    if 0 <= o < |g.rows| { OriginalsCount(g, ss, o); }
  }

  /** The order of the whole graph is a permutation of its vertices. */
  lemma DissectPermutes(g: Compressed, t: Kit)
    requires Dissect(g, t, Whole(g), 0).Some?
    ensures Permutes(Dissect(g, t, Whole(g), 0).value, |g.rows|)
  {
    var order := Dissect(g, t, Whole(g), 0).value;
    WholePart(g);
    forall o
      ensures (o in order ==> 0 <= o < |g.rows|) && (0 <= o < |g.rows| ==> Count(order, o) == 1)
    {
      DissectCounts(g, t, Whole(g), 0, o);
      if 0 <= o < |g.rows| {
        VertexFacts(g, o);
        DistinctCounts(Whole(g), g.superOf[o]);
        assert Whole(g)[g.superOf[o]] == g.superOf[o];
      }
    }
    forall i | 0 <= i < |order| ensures 0 <= order[i] < |g.rows| { assert order[i] in order; }
    OnceEach(order, |g.rows|);
  }
}
