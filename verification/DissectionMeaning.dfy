/** The recursion's order told place by place: which parts are reached, when one is split, and
    where the members of halves, separators and leaves stand. */
module DissectionMeaning {
  import opened Sequences
  import opened Supervariables
  import opened CompressedGraph
  import opened Dissection

  // ---- what the tools are given ----

  // Local vertex a stands for cell a: its row lists, in their order, the references of the
  // cell that stay in the part.
  ghost predicate LocalMeans(g: Graph, cells: seq<int>, fine: bool, local: seq<seq<int>>) {
    && |local| == |cells|
    && forall a | 0 <= a < |cells| :: RowMeans(cells, Refs(g, fine, cells[a]), local[a])
  }

  ghost predicate RowMeans(cells: seq<int>, refs: seq<int>, row: seq<int>) {
    && Inside(row, |cells|)
    && (forall b | 0 <= b < |cells| :: Count(row, b) == Count(refs, cells[b]))
    && forall b, c | 0 <= b < |cells| && 0 <= c < |cells| :: Precedes(row, b, c) <==> Precedes(refs, cells[b], cells[c])
  }

  lemma {:induction false} PrecedesSnoc(s: seq<int>, x: int, a: int, b: int)
    ensures Precedes(s + [x], a, b) <==> Precedes(s, a, b) || (a in s && b == x)
  {
    if Precedes(s, a, b) { PrecedesExtends(s, [x], a, b); }
    if a in s && b == x { PrecedesAcross(s, [x], a, b); }
    if Precedes(s + [x], a, b) {
      var i, j :| 0 <= i < j < |s + [x]| && (s + [x])[i] == a && (s + [x])[j] == b;
      assert s[i] == a;
      if j < |s| { assert s[j] == b; }
    }
  }

  lemma {:induction false} RowNext(cells: seq<int>, refs: seq<int>, u: int, row: seq<int>)
    requires Distinct(cells) && RowMeans(cells, refs, row)
    ensures RowMeans(cells, refs + [u], row + if u in cells then [IndexOf(cells, u)] else [])
  {
    var more := if u in cells then [IndexOf(cells, u)] else [];
    forall b | 0 <= b < |cells| ensures Count(row + more, b) == Count(refs + [u], cells[b]) {
      CountSum(row, more, b);
      CountSum(refs, [u], cells[b]);
      if u in cells { PlaceIs(cells, u, b); }
      assert Count([u], cells[b]) == if u == cells[b] then 1 else 0 by { CountOne(u, cells[b]); }
      if u in cells { CountOne(more[0], b); }
    }
    forall b, c | 0 <= b < |cells| && 0 <= c < |cells|
      ensures Precedes(row + more, b, c) <==> Precedes(refs + [u], cells[b], cells[c])
    {
      PrecedesSnoc(refs, u, cells[b], cells[c]);
      CountAbsent(row, b);
      CountAbsent(refs, cells[b]);
      if u in cells {
        PlaceIs(cells, u, c);
        PrecedesSnoc(row, more[0], b, c);
      } else {
        assert row + more == row;
      }
    }
  }

  lemma CountOne(u: int, x: int)
    ensures Count([u], x) == if u == x then 1 else 0
  {
    assert [u][..0] == [];
  }

  lemma {:induction false} LocalRowMeans(g: Compressed, part: seq<int>, fine: bool, c: int, p: int)
    requires Part(g, part) && 0 <= p <= |Refs(g, fine, c)|
    ensures RowMeans(Cells(g, part, fine), Refs(g, fine, c)[..p], LocalRow(g, part, fine, c, p))
    decreases p
  {
    if p > 0 {
      var refs, cells := Refs(g, fine, c), Cells(g, part, fine);
      LocalRowMeans(g, part, fine, c, p - 1);
      RefsInside(g, fine, c, p - 1);
      CellIn(g, part, fine, refs[p - 1]);
      CellsDistinct(g, part, fine);
      RowNext(cells, refs[..p - 1], refs[p - 1], LocalRow(g, part, fine, c, p - 1));
      assert refs[..p] == refs[..p - 1] + [refs[p - 1]];
    }
  }

  /** A part's local graph is the graph its cells induce, rows in their order. */
  lemma {:induction false} LocalMeaning(g: Compressed, part: seq<int>, fine: bool)
    requires Part(g, part)
    ensures LocalMeans(g, Cells(g, part, fine), fine, Local(g, part, fine))
  {
    var cells := Cells(g, part, fine);
    forall a | 0 <= a < |cells| ensures RowMeans(cells, Refs(g, fine, cells[a]), Local(g, part, fine)[a]) {
      LocalRowsAt(g, part, fine, |cells|, a);
      var refs := Refs(g, fine, cells[a]);
      LocalRowMeans(g, part, fine, cells[a], |refs|);
      assert refs[..|refs|] == refs;
    }
  }

  ghost predicate WeightsOfPart(g: Graph, part: seq<int>, w: seq<int>) {
    |w| == |part| && forall k | 0 <= k < |part| && 0 <= part[k] < |g.weights| :: w[k] == g.weights[part[k]]
  }

  lemma LocalWeightsMean(g: Graph, part: seq<int>)
    ensures WeightsOfPart(g, part, LocalWeights(g, part))
  {
  }

  // ---- the parts ----

  // A plan's runs all succeed and its choice is the cut, or one fails.
  ghost predicate Comes(plan: Plan, cut: Cut) {
    match plan
    case Now(c) => cut == c
    case Later(runs, c) => if exists i :: 0 <= i < |runs| && !runs[i] then cut == Fails else cut == c
  }

  // Large parts above the last level are bisected; others stay.
  ghost predicate IsCut(g: Graph, t: Tools, part: seq<int>, depth: int, cut: Cut) {
    if depth < t.levels && |part| >= MIN_SPLIT then Comes(t.bisect(Local(g, part, false), LocalWeights(g, part), depth), cut)
    else cut == Stays
  }

  lemma {:induction false} CutMeaning(g: Graph, t: Tools, part: seq<int>, depth: int, cut: Cut)
    ensures IsCut(g, t, part, depth, cut) <==> CutOf(g, t, part, depth) == cut
  {
  }

  // The vertices of the part on side h, in the part's order.
  ghost predicate IsHalf(part: seq<int>, side: seq<int>, h: int, half: seq<int>) {
    exists places :: Selects(part, side, h, half, places)
  }

  ghost predicate Selects(part: seq<int>, side: seq<int>, h: int, half: seq<int>, places: seq<int>) {
    && |half| == |places| && Ascending(places)
    && (forall k :: k in places <==> 0 <= k < |part| && k < |side| && side[k] == h)
    && forall i | 0 <= i < |places| :: 0 <= places[i] < |part| && half[i] == part[places[i]]
  }

  lemma {:induction false} SelectsNext(part: seq<int>, side: seq<int>, h: int, half: seq<int>, places: seq<int>)
    requires |part| > 0 && Selects(part[..|part| - 1], side, h, half, places)
    ensures var last := |part| - 1;
      if last < |side| && side[last] == h then Selects(part, side, h, half + [part[last]], places + [last])
      else Selects(part, side, h, half, places)
  {
    var last := |part| - 1;
    assert forall i | 0 <= i < |places| :: 0 <= places[i] < last && part[..last][places[i]] == part[places[i]];
    assert forall k :: k in places <==> 0 <= k < last && k < |side| && side[k] == h;
    if last < |side| && side[last] == h {
      forall k ensures k in places + [last] <==> k in places || k == last {}
    }
  }

  lemma {:induction false} HalfSelects(part: seq<int>, side: seq<int>, h: int) returns (places: seq<int>)
    ensures Selects(part, side, h, Half(part, side, h), places)
    decreases |part|
  {
    if |part| == 0 {
      places := [];
    } else {
      var last := |part| - 1;
      places := HalfSelects(part[..last], side, h);
      SelectsNext(part, side, h, Half(part[..last], side, h), places);
      if last < |side| && side[last] == h { places := places + [last]; }
    }
  }

  lemma {:induction false} HalfMeaning(part: seq<int>, side: seq<int>, h: int, half: seq<int>)
    ensures IsHalf(part, side, h, half) <==> half == Half(part, side, h)
  {
    var places := HalfSelects(part, side, h);
    if IsHalf(part, side, h, half) {
      var places' :| Selects(part, side, h, half, places');
      AscendingUnique(places, places');
    }
  }

  /** The part at a path of halves, from the whole graph. */
  ghost predicate Reached(g: Graph, t: Tools, path: seq<int>, part: seq<int>)
    decreases |path|
  {
    if |path| == 0 then |part| == |g.crows| && forall k | 0 <= k < |part| :: part[k] == k
    else exists parent, side :: Halves(g, t, path, parent, side, part) && Reached(g, t, path[..|path| - 1], parent)
  }

  ghost predicate Halves(g: Graph, t: Tools, path: seq<int>, parent: seq<int>, side: seq<int>, part: seq<int>)
    requires |path| > 0
  {
    && IsCut(g, t, parent, |path| - 1, Splits(side))
    && 0 <= path[|path| - 1] <= 1 && IsHalf(parent, side, path[|path| - 1], part)
  }

  // ---- pieces of the order ----

  ghost predicate Within(a: seq<int>, s: seq<int>) {
    exists u, v :: s == u + a + v
  }

  lemma {:induction false} WithinJoin(a: seq<int>, b: seq<int>, c: seq<int>)
    ensures Within(a, a + b + c) && Within(b, a + b + c)
  {
    assert a + b + c == [] + a + (b + c);
  }

  lemma {:induction false} WithinWithin(a: seq<int>, b: seq<int>, s: seq<int>)
    requires Within(a, b) && Within(b, s)
    ensures Within(a, s)
  {
    var u, v :| b == u + a + v;
    var x, y :| s == x + b + y;
    assert s == (x + u) + a + (v + y);
  }

  lemma {:induction false} PrecedesWithin(a: seq<int>, s: seq<int>, c: int, d: int)
    requires Within(a, s) && Precedes(a, c, d)
    ensures Precedes(s, c, d)
  {
    var u, v :| s == u + a + v;
    PrecedesShifts(u, a, c, d);
    PrecedesExtends(u + a, v, c, d);
  }

  // The part is ordered, and its order is a piece of the whole.
  ghost predicate Piece(g: Graph, t: Tools, part: seq<int>, depth: int, order: seq<int>) {
    Dissect(g, t, part, depth).Some? && Within(Dissect(g, t, part, depth).value, order)
  }

  // What holds of the whole graph and passes to halves holds of every reached part.
  lemma {:induction false} ReachedInduction(g: Graph, t: Tools, path: seq<int>, part: seq<int>, P: (int, seq<int>) -> bool)
    requires Reached(g, t, path, part) == true && P(0, Whole(g))
    requires forall path, parent, side, part | |path| > 0 && P(|path| - 1, parent) && Halves(g, t, path, parent, side, part) == true ::
               P(|path|, part)
    ensures P(|path|, part)
    decreases |path|
  {
    if |path| == 0 {
      assert part == Whole(g);
    } else {
      var parent, side := HalfOf(g, t, path, part);
      ReachedInduction(g, t, path[..|path| - 1], parent, P);
    }
  }

  lemma {:induction false} ReachedParts(g: Compressed, t: Kit, path: seq<int>, part: seq<int>)
    requires Reached(g, t, path, part)
    ensures Part(g, part)
  {
    WholePart(g);
    forall path, parent, side, part | |path| > 0 && Part(g, parent) && Halves(g, t, path, parent, side, part) == true
      ensures Part(g, part)
    {
      HalfPartOf(g, t, path, parent, side, part);
    }
    ReachedInduction(g, t, path, part, (d, x) => Part(g, x));
  }

  lemma {:induction false} HalfPartOf(g: Compressed, t: Kit, path: seq<int>, parent: seq<int>, side: seq<int>, part: seq<int>)
    requires |path| > 0 && Halves(g, t, path, parent, side, part) == true && Part(g, parent)
    ensures Part(g, part)
  {
    HalvesMean(g, t, path, parent, side, part);
    HalvesAreParts(g, t, parent, |path| - 1, side);
  }

  lemma {:induction false} PieceOf(g: Graph, t: Tools, path: seq<int>, part: seq<int>, order: seq<int>)
    requires Piece(g, t, Whole(g), 0, order) == true && Reached(g, t, path, part) == true
    ensures Piece(g, t, part, |path|, order) == true
  {
    forall path, parent, side, part
      | |path| > 0 && Piece(g, t, parent, |path| - 1, order) == true && Halves(g, t, path, parent, side, part) == true
      ensures Piece(g, t, part, |path|, order)
    {
      HalfPiece(g, t, path, parent, side, part, order);
    }
    ReachedInduction(g, t, path, part, (d, x) => Piece(g, t, x, d, order));
  }

  lemma {:induction false} HalfOf(g: Graph, t: Tools, path: seq<int>, part: seq<int>) returns (parent: seq<int>, side: seq<int>)
    requires |path| > 0 && Reached(g, t, path, part)
    ensures Halves(g, t, path, parent, side, part) == true && Reached(g, t, path[..|path| - 1], parent) == true
  {
    parent, side :| Halves(g, t, path, parent, side, part) && Reached(g, t, path[..|path| - 1], parent);
  }

  lemma {:induction false} HalfPiece(g: Graph, t: Tools, path: seq<int>, parent: seq<int>, side: seq<int>, part: seq<int>, order: seq<int>)
    requires |path| > 0 && Halves(g, t, path, parent, side, part) == true && Piece(g, t, parent, |path| - 1, order) == true
    ensures Piece(g, t, part, |path|, order)
  {
    HalvesMean(g, t, path, parent, side, part);
    HalfWithin(g, t, parent, |path| - 1, side, path[|path| - 1]);
    WithinWithin(Dissect(g, t, part, |path|).value, Dissect(g, t, parent, |path| - 1).value, order);
  }

  // The recursion's own terms for a half.
  lemma {:induction false} HalvesMean(g: Graph, t: Tools, path: seq<int>, parent: seq<int>, side: seq<int>, part: seq<int>)
    requires |path| > 0 && Halves(g, t, path, parent, side, part)
    ensures var h := path[|path| - 1];
      0 <= h <= 1 && CutOf(g, t, parent, |path| - 1) == Splits(side) && part == Half(parent, side, h)
  {
    CutMeaning(g, t, parent, |path| - 1, Splits(side));
    HalfMeaning(parent, side, path[|path| - 1], part);
  }

  lemma {:induction false} HalfWithin(g: Graph, t: Tools, parent: seq<int>, depth: int, side: seq<int>, h: int)
    requires Dissect(g, t, parent, depth).Some? && CutOf(g, t, parent, depth) == Splits(side) && 0 <= h <= 1
    ensures Dissect(g, t, Half(parent, side, h), depth + 1).Some?
    ensures Within(Dissect(g, t, Half(parent, side, h), depth + 1).value, Dissect(g, t, parent, depth).value)
  {
    HalvesWithin(g, t, parent, depth, side);
    assert h == 0 || h == 1;
  }

  lemma {:induction false} HalvesWithin(g: Graph, t: Tools, parent: seq<int>, depth: int, side: seq<int>)
    requires Dissect(g, t, parent, depth).Some? && CutOf(g, t, parent, depth) == Splits(side)
    ensures Dissect(g, t, Half(parent, side, 0), depth + 1).Some? && Dissect(g, t, Half(parent, side, 1), depth + 1).Some?
    ensures Within(Dissect(g, t, Half(parent, side, 0), depth + 1).value, Dissect(g, t, parent, depth).value)
    ensures Within(Dissect(g, t, Half(parent, side, 1), depth + 1).value, Dissect(g, t, parent, depth).value)
  {
    DissectSplits(g, t, parent, depth);
    var a, b := Dissect(g, t, Half(parent, side, 0), depth + 1), Dissect(g, t, Half(parent, side, 1), depth + 1);
    WithinJoin(a.value, b.value, Originals(g, Half(parent, side, 2)));
  }

  // ---- members follow their supervariables ----

  predicate MemberOf(g: Graph, o: int, s: int) {
    0 <= o < |g.rows| && |g.superOf| == |g.rows| && g.superOf[o] == s
  }

  // Every member of s stands before every member of s'.
  ghost predicate SuperBefore(g: Graph, order: seq<int>, s: int, s': int) {
    forall o, o' | MemberOf(g, o, s) && MemberOf(g, o', s') :: Precedes(order, o, o')
  }

  lemma {:induction false} OriginalsBefore(g: Compressed, ss: seq<int>, s: int, s': int, o: int, o': int)
    requires Precedes(ss, s, s') && MemberOf(g, o, s) && MemberOf(g, o', s')
    ensures Precedes(Originals(g, ss), o, o')
    decreases |ss|
  {
    var init, last := ss[..|ss| - 1], ss[|ss| - 1];
    assert ss == init + [last];
    PrecedesSnoc(init, last, s, s');
    if Precedes(init, s, s') {
      OriginalsBefore(g, init, s, s', o, o');
      PrecedesExtends(Originals(g, init), Members(g.superOf, last), o, o');
    } else {
      OriginalsIn(g, init, o);
      MemberIn(g.superOf, s', |g.superOf|, o');
      PrecedesAcross(Originals(g, init), Members(g.superOf, last), o, o');
    }
  }

  lemma {:induction false} MembersAscend(g: Compressed, s: int, o: int, o': int)
    requires MemberOf(g, o, s) && MemberOf(g, o', s) && o < o'
    ensures Precedes(Members(g.superOf, s), o, o')
  {
    var ms := Members(g.superOf, s);
    MemberIn(g.superOf, s, |g.superOf|, o);
    MemberIn(g.superOf, s, |g.superOf|, o');
    assert Ascending(ms);
    var i :| 0 <= i < |ms| && ms[i] == o;
    var j :| 0 <= j < |ms| && ms[j] == o';
  }

  lemma {:induction false} OriginalsAscend(g: Compressed, ss: seq<int>, s: int, o: int, o': int)
    requires s in ss && MemberOf(g, o, s) && MemberOf(g, o', s) && o < o'
    ensures Precedes(Originals(g, ss), o, o')
    decreases |ss|
  {
    var init, last := ss[..|ss| - 1], ss[|ss| - 1];
    assert ss == init + [last];
    if s in init {
      OriginalsAscend(g, init, s, o, o');
      PrecedesExtends(Originals(g, init), Members(g.superOf, last), o, o');
    } else {
      MembersAscend(g, s, o, o');
      PrecedesShifts(Originals(g, init), Members(g.superOf, last), o, o');
    }
  }

  // ---- leaves ----

  // In the order lp of the leaf's vertices a member of s comes before all members of s'.
  ghost predicate ComesFirst(g: Graph, orig: seq<int>, lp: seq<int>, s: int, s': int) {
    exists k :: 0 <= k < |lp| && MemberAt(g, orig, lp[k], s) && forall j | 0 <= j < k :: !MemberAt(g, orig, lp[j], s')
  }

  predicate MemberAt(g: Graph, orig: seq<int>, k: int, s: int) {
    0 <= k < |orig| && MemberOf(g, orig[k], s)
  }

  // A fine leaf: one supervariable before another exactly when it appears first.
  ghost predicate FineStands(g: Graph, part: seq<int>, lp: seq<int>, order: seq<int>) {
    forall s, s' | s in part && s' in part && s != s' ::
      if ComesFirst(g, Originals(g, part), lp, s, s') then SuperBefore(g, order, s, s') else SuperBefore(g, order, s', s)
  }

  // A coarse leaf: supervariables in the order they are given.
  ghost predicate CoarseStands(g: Graph, part: seq<int>, lp: seq<int>, order: seq<int>) {
    forall k, k' | 0 <= k < k' < |lp| && 0 <= lp[k] < |part| && 0 <= lp[k'] < |part| ::
      SuperBefore(g, order, part[lp[k]], part[lp[k']])
  }

  // A split part: side 0, then side 1, then the separator in the part's order.
  ghost predicate SidesStand(g: Graph, part: seq<int>, side: seq<int>, order: seq<int>) {
    forall k, k' | 0 <= k < |part| && 0 <= k' < |part| && k < |side| && k' < |side|
                   && (side[k] < side[k'] || (k < k' && side[k] == side[k'] == 2)) ::
      SuperBefore(g, order, part[k], part[k'])
  }

  lemma {:induction false} FirstsBefore(g: Graph, orig: seq<int>, lp: seq<int>, s: int, s': int)
    requires |g.superOf| == |g.rows| && Inside(lp, |orig|) && Inside(orig, |g.rows|)
    requires s != s' && ComesFirst(g, orig, lp, s, s') && s' in Firsts(g, orig, lp)
    ensures Precedes(Firsts(g, orig, lp), s, s')
    decreases |lp|
  {
    var init, last := lp[..|lp| - 1], lp[|lp| - 1];
    var x := SuperOf(g, true, orig[last]);
    var k :| 0 <= k < |lp| && MemberAt(g, orig, lp[k], s) && forall j | 0 <= j < k :: !MemberAt(g, orig, lp[j], s');
    FirstsHold(g, orig, init, s);
    FirstsHold(g, orig, init, s');
    if s' in Firsts(g, orig, init) {
      var m :| 0 <= m < |init| && SuperOf(g, true, orig[init[m]]) == s';
      assert MemberAt(g, orig, lp[m], s');
      assert k < m && init[k] == lp[k];
      FirstsBefore(g, orig, init, s, s');
      if x !in Firsts(g, orig, init) { PrecedesExtends(Firsts(g, orig, init), [x], s, s'); }
    } else {
      assert k < |init| && SuperOf(g, true, orig[init[k]]) == s;
      PrecedesAcross(Firsts(g, orig, init), [x], s, s');
    }
  }

  // Of two supervariables that appear, one comes first.
  lemma {:induction false} OneComesFirst(g: Graph, orig: seq<int>, lp: seq<int>, s: int, s': int, n: int)
    requires 0 <= n < |lp| && (MemberAt(g, orig, lp[n], s) || MemberAt(g, orig, lp[n], s')) && s != s'
    ensures ComesFirst(g, orig, lp, s, s') || ComesFirst(g, orig, lp, s', s)
    decreases n
  {
    if j :| 0 <= j < n && (MemberAt(g, orig, lp[j], s) || MemberAt(g, orig, lp[j], s')) {
      OneComesFirst(g, orig, lp, s, s', j);
    } else if MemberAt(g, orig, lp[n], s) {
      assert ComesFirst(g, orig, lp, s, s');
    } else {
      assert ComesFirst(g, orig, lp, s', s);
    }
  }

  lemma {:induction false} GatheredBefore(g: Compressed, part: seq<int>, lp: seq<int>, s: int, s': int)
    requires Part(g, part) && Permutes(lp, |Originals(g, part)|) && s in part && s' in part && s != s'
    requires ComesFirst(g, Originals(g, part), lp, s, s')
    ensures SuperBefore(g, Originals(g, Firsts(g, Originals(g, part), lp)), s, s')
  {
    var orig := Originals(g, part);
    var ss := Firsts(g, orig, lp);
    forall i | 0 <= i < |orig| ensures 0 <= orig[i] < |g.rows| { OriginalsIn(g, part, orig[i]); }
    GatheredCount(g, part, lp, s');
    CountAbsent(part, s');
    CountAbsent(ss, s');
    FirstsBefore(g, orig, lp, s, s');
    forall o, o' | MemberOf(g, o, s) && MemberOf(g, o', s') ensures Precedes(Originals(g, ss), o, o') {
      OriginalsBefore(g, ss, s, s', o, o');
    }
  }

  lemma {:induction false} GatheredStands(g: Compressed, part: seq<int>, lp: seq<int>)
    requires Part(g, part) && Permutes(lp, |Originals(g, part)|)
    ensures FineStands(g, part, lp, Originals(g, Firsts(g, Originals(g, part), lp)))
  {
    var orig := Originals(g, part);
    forall s, s' | s in part && s' in part && s != s'
      ensures ComesFirst(g, orig, lp, s, s') || ComesFirst(g, orig, lp, s', s)
    {
      RowFacts(g, s);
      var o := Members(g.superOf, s)[0];
      OriginalsIn(g, part, o);
      var n := PermutationHits(lp, |orig|, IndexOf(orig, o));
      OneComesFirst(g, orig, lp, s, s', n);
    }
    forall s, s' | s in part && s' in part && s != s' && ComesFirst(g, orig, lp, s, s')
      ensures SuperBefore(g, Originals(g, Firsts(g, orig, lp)), s, s')
    {
      GatheredBefore(g, part, lp, s, s');
    }
  }

  lemma {:induction false} ArrangedStands(g: Compressed, part: seq<int>, lp: seq<int>)
    ensures CoarseStands(g, part, lp, Originals(g, Arranged(part, lp)))
  {
    var ss := Arranged(part, lp);
    forall k, k', o, o' | 0 <= k < k' < |lp| && 0 <= lp[k] < |part| && 0 <= lp[k'] < |part|
                          && MemberOf(g, o, part[lp[k]]) && MemberOf(g, o', part[lp[k']])
      ensures Precedes(Originals(g, ss), o, o')
    {
      assert ss[k] == part[lp[k]] && ss[k'] == part[lp[k']];
      OriginalsBefore(g, ss, ss[k], ss[k'], o, o');
    }
  }

  // ---- split parts ----

  lemma {:induction false} SelectedBefore(part: seq<int>, side: seq<int>, h: int, k: int, k': int)
    requires 0 <= k < k' < |part| && k' < |side| && side[k] == side[k'] == h
    ensures Precedes(Half(part, side, h), part[k], part[k'])
  {
    var places := HalfSelects(part, side, h);
    assert k in places && k' in places;
    var i :| 0 <= i < |places| && places[i] == k;
    var j :| 0 <= j < |places| && places[j] == k';
    assert i < j;
  }

  // Members of a half are in its order.
  lemma {:induction false} InHalf(g: Compressed, t: Kit, part: seq<int>, side: seq<int>, h: int, k: int, o: int, depth: int)
    requires Part(g, part) && |side| == |part| && 0 <= k < |part| && side[k] == h && MemberOf(g, o, part[k])
    requires Dissect(g, t, Half(part, side, h), depth).Some?
    ensures o in Dissect(g, t, Half(part, side, h), depth).value
  {
    HalfPart(g, part, side, h);
    HalfHolds(part, side, h, part[k]);
    DissectCounts(g, t, Half(part, side, h), depth, o);
    CountAbsent(Half(part, side, h), part[k]);
    CountAbsent(Dissect(g, t, Half(part, side, h), depth).value, o);
  }

  lemma {:induction false} InSeparator(g: Compressed, part: seq<int>, side: seq<int>, k: int, o: int)
    requires |side| == |part| && 0 <= k < |part| && side[k] == 2 && MemberOf(g, o, part[k])
    ensures o in Originals(g, Half(part, side, 2))
  {
    HalfHolds(part, side, 2, part[k]);
    OriginalsIn(g, Half(part, side, 2), o);
  }

  lemma {:induction false} JoinedBefore(a: seq<int>, b: seq<int>, c: seq<int>, o: int, o': int)
    requires (o in a && (o' in b || o' in c)) || (o in b && o' in c) || Precedes(c, o, o')
    ensures Precedes(a + b + c, o, o')
  {
    if o in a && o' in b {
      PrecedesAcross(a, b, o, o');
      PrecedesExtends(a + b, c, o, o');
    } else if Precedes(c, o, o') {
      PrecedesShifts(a + b, c, o, o');
    } else {
      PrecedesAcross(a + b, c, o, o');
    }
  }

  lemma {:induction false} SplitStands(g: Compressed, t: Kit, part: seq<int>, depth: int, side: seq<int>)
    requires Part(g, part) && CutOf(g, t, part, depth) == Splits(side) && Dissect(g, t, part, depth).Some?
    ensures SidesStand(g, part, side, Dissect(g, t, part, depth).value)
  {
    CutIsSound(g, t, part, depth);
    HalvesOrdered(g, t, part, depth, side);
    DissectSplits(g, t, part, depth);
    var a, b, sep := Dissect(g, t, Half(part, side, 0), depth + 1).value, Dissect(g, t, Half(part, side, 1), depth + 1).value, Half(part, side, 2);
    forall k, k', o, o' | 0 <= k < |part| && 0 <= k' < |part| && (side[k] < side[k'] || (k < k' && side[k] == side[k'] == 2))
                          && MemberOf(g, o, part[k]) && MemberOf(g, o', part[k'])
      ensures Precedes(a + b + Originals(g, sep), o, o')
    {
      if side[k] == 0 { InHalf(g, t, part, side, 0, k, o, depth + 1); }
      if side[k] == 1 { InHalf(g, t, part, side, 1, k, o, depth + 1); }
      if side[k'] == 1 { InHalf(g, t, part, side, 1, k', o', depth + 1); }
      if side[k'] == 2 { InSeparator(g, part, side, k', o'); }
      if side[k] == 2 {
        SelectedBefore(part, side, 2, k, k');
        OriginalsBefore(g, sep, part[k], part[k'], o, o');
      }
      JoinedBefore(a, b, Originals(g, sep), o, o');
    }
  }

  // ---- the whole order ----

  // What the cut and, on a leaf, the tool's order of a part say about the order of the graph.
  ghost predicate PartStands(g: Graph, t: Tools, part: seq<int>, depth: int, order: seq<int>) {
    forall cut | IsCut(g, t, part, depth, cut) :: CutStands(g, t, part, cut, order)
  }

  ghost predicate CutStands(g: Graph, t: Tools, part: seq<int>, cut: Cut, order: seq<int>) {
    match cut
    case Fails => false
    case Splits(side) => SidesStand(g, part, side, order)
    case Stays =>
      if |part| < t.leafMax then
        var lp := t.amd(Local(g, part, true));
        lp.Some? && FineStands(g, part, lp.value, order)
      else
        var lp := t.nodeNd(Local(g, part, false), LocalWeights(g, part));
        lp.Some? && CoarseStands(g, part, lp.value, order)
  }

  /** Every part the recursion reaches stands in the order as its cut or its leaf's tool says,
      and members of one supervariable ascend. */
  ghost predicate Stands(g: Graph, t: Tools, order: seq<int>) {
    && (forall path, part | Reached(g, t, path, part) :: PartStands(g, t, part, |path|, order))
    && forall o, o', s | MemberOf(g, o, s) && MemberOf(g, o', s) && o < o' :: Precedes(order, o, o')
  }

  lemma {:induction false} OwnStands(g: Compressed, t: Kit, part: seq<int>, depth: int, cut: Cut)
    requires Part(g, part) && Dissect(g, t, part, depth).Some? && IsCut(g, t, part, depth, cut)
    ensures CutStands(g, t, part, cut, Dissect(g, t, part, depth).value)
  {
    CutMeaning(g, t, part, depth, cut);
    match cut
    case Fails => assert false;
    case Splits(side) => SplitStands(g, t, part, depth, side);
    case Stays =>
      if Fine(t, part) {
        assert t.OrdersSound(Local(g, part, true), []);
        GatheredStands(g, part, t.amd(Local(g, part, true)).value);
      } else {
        ArrangedStands(g, part, t.nodeNd(Local(g, part, false), LocalWeights(g, part)).value);
      }
  }

  lemma {:induction false} SuperWithin(g: Graph, a: seq<int>, order: seq<int>, s: int, s': int)
    requires Within(a, order) && SuperBefore(g, a, s, s')
    ensures SuperBefore(g, order, s, s')
  {
    forall o, o' | MemberOf(g, o, s) && MemberOf(g, o', s') ensures Precedes(order, o, o') { PrecedesWithin(a, order, o, o'); }
  }

  lemma {:induction false} StandsWithin(g: Graph, t: Tools, part: seq<int>, cut: Cut, a: seq<int>, order: seq<int>)
    requires Within(a, order) && CutStands(g, t, part, cut, a)
    ensures CutStands(g, t, part, cut, order)
  {
    forall s, s' | SuperBefore(g, a, s, s') ensures SuperBefore(g, order, s, s') { SuperWithin(g, a, order, s, s'); }
  }

  /** The recursion's order. */
  lemma {:induction false} DissectStands(g: Compressed, t: Kit)
    requires Dissect(g, t, Whole(g), 0).Some?
    ensures Stands(g, t, Dissect(g, t, Whole(g), 0).value)
  {
    var order := Dissect(g, t, Whole(g), 0).value;
    WithinJoin([], order, []);
    assert [] + order + [] == order;
    forall path, part, cut | Reached(g, t, path, part) && IsCut(g, t, part, |path|, cut)
      ensures CutStands(g, t, part, cut, order)
    {
      ReachedParts(g, t, path, part);
      PieceOf(g, t, path, part, order);
      OwnStands(g, t, part, |path|, cut);
      StandsWithin(g, t, part, cut, Dissect(g, t, part, |path|).value, order);
    }
    WholePart(g);
    var ss := DissectExpands(g, t, Whole(g), 0);
    forall o, o', s | MemberOf(g, o, s) && MemberOf(g, o', s) && o < o' ensures Precedes(order, o, o') {
      VertexFacts(g, o);
      assert Whole(g)[s] == s;
      CountAbsent(Whole(g), s);
      CountAbsent(ss, s);
      OriginalsAscend(g, ss, s, o, o');
    }
  }

  // ---- failures ----

  // The cut or the leaf's tool fails on the part.
  ghost predicate Stuck(g: Graph, t: Tools, part: seq<int>, depth: int) {
    || IsCut(g, t, part, depth, Fails)
    || (IsCut(g, t, part, depth, Stays)
        && if |part| < t.leafMax then t.amd(Local(g, part, true)).None? else t.nodeNd(Local(g, part, false), LocalWeights(g, part)).None?)
  }

  // The part has no order.
  ghost predicate Unordered(g: Graph, t: Tools, part: seq<int>, depth: int) {
    Dissect(g, t, part, depth).None?
  }

  // A split part without an order has a half without one.
  lemma {:induction false} HalfStuck(g: Graph, t: Tools, path: seq<int>, part: seq<int>, side: seq<int>) returns (h: int)
    requires Reached(g, t, path, part) && Unordered(g, t, part, |path|) && CutOf(g, t, part, |path|) == Splits(side)
    ensures 0 <= h <= 1 && Unordered(g, t, Half(part, side, h), |path| + 1) && Reached(g, t, path + [h], Half(part, side, h))
  {
    DissectSplits(g, t, part, |path|);
    h := if Dissect(g, t, Half(part, side, 0), |path| + 1).None? then 0 else 1;
    HalfReached(g, t, path, part, side, h);
  }

  lemma {:induction false} HalfReached(g: Graph, t: Tools, path: seq<int>, part: seq<int>, side: seq<int>, h: int)
    requires Reached(g, t, path, part) && CutOf(g, t, part, |path|) == Splits(side) && 0 <= h <= 1
    ensures Reached(g, t, path + [h], Half(part, side, h))
  {
    CutMeaning(g, t, part, |path|, Splits(side));
    HalfMeaning(part, side, h, Half(part, side, h));
    assert (path + [h])[..|path|] == path;
    ReachedNext(g, t, path + [h], part, side, Half(part, side, h));
  }

  lemma {:induction false} ReachedNext(g: Graph, t: Tools, path: seq<int>, parent: seq<int>, side: seq<int>, part: seq<int>)
    requires |path| > 0 && Halves(g, t, path, parent, side, part) && Reached(g, t, path[..|path| - 1], parent)
    ensures Reached(g, t, path, part)
  {
  }

  // A part without an order is stuck or has a half without one.
  lemma {:induction false} StuckOrBelow(g: Graph, t: Tools, path: seq<int>, part: seq<int>) returns (path': seq<int>, part': seq<int>)
    requires Reached(g, t, path, part) == true && Unordered(g, t, part, |path|) == true
    ensures Stuck(g, t, part, |path|) == true ||
            (|path'| == |path| + 1 <= t.levels && Reached(g, t, path', part') == true && Unordered(g, t, part', |path'|) == true)
  {
    path', part' := path, part;
    if CutOf(g, t, part, |path|).Splits? {
      var side := CutOf(g, t, part, |path|).side;
      var h := HalfStuck(g, t, path, part, side);
      path', part' := path + [h], Half(part, side, h);
    } else {
      StuckHere(g, t, part, |path|);
    }
  }

  lemma {:induction false} StuckHere(g: Graph, t: Tools, part: seq<int>, depth: int)
    requires Unordered(g, t, part, depth) && !CutOf(g, t, part, depth).Splits?
    ensures Stuck(g, t, part, depth)
  {
    CutMeaning(g, t, part, depth, CutOf(g, t, part, depth));
  }

  lemma {:induction false} StuckBelow(g: Graph, t: Tools, path: seq<int>, part: seq<int>) returns (path': seq<int>, part': seq<int>)
    requires Reached(g, t, path, part) == true && Unordered(g, t, part, |path|) == true
    ensures Reached(g, t, path', part') == true && Stuck(g, t, part', |path'|) == true
    decreases t.levels - |path|
  {
    path', part' := StuckOrBelow(g, t, path, part);
    if Stuck(g, t, part, |path|) == true {
      path', part' := path, part;
    } else {
      path', part' := StuckBelow(g, t, path', part');
    }
  }

  /** There is no order exactly when a tool fails on some part that is reached. */
  lemma {:induction false} NoneMeaning(g: Compressed, t: Kit)
    ensures Dissect(g, t, Whole(g), 0).None? <==> exists path, part :: Reached(g, t, path, part) && Stuck(g, t, part, |path|)
  {
    if Dissect(g, t, Whole(g), 0).None? {
      assert Reached(g, t, [], Whole(g));
      var path, part := StuckBelow(g, t, [], Whole(g));
    } else {
      DissectStands(g, t);
      forall path, part | Reached(g, t, path, part) ensures !Stuck(g, t, part, |path|) {
        assert PartStands(g, t, part, |path|, Dissect(g, t, Whole(g), 0).value);
      }
    }
  }

  // ---- these conditions leave one order ----

  // a and b place o and o' the same way round.
  ghost predicate Agree(a: seq<int>, b: seq<int>, o: int, o': int) {
    (Precedes(a, o, o') && Precedes(b, o, o')) || (Precedes(a, o', o) && Precedes(b, o', o))
  }

  lemma {:induction false} SupersAgree(g: Graph, a: seq<int>, b: seq<int>, s: int, s': int, o: int, o': int)
    requires (SuperBefore(g, a, s, s') && SuperBefore(g, b, s, s')) || (SuperBefore(g, a, s', s) && SuperBefore(g, b, s', s))
    requires MemberOf(g, o, s) && MemberOf(g, o', s')
    ensures Agree(a, b, o, o')
  {
  }

  lemma {:induction false} LeafAgree(g: Compressed, t: Kit, part: seq<int>, a: seq<int>, b: seq<int>, s: int, s': int, o: int, o': int)
    requires Part(g, part) && CutStands(g, t, part, Stays, a) && CutStands(g, t, part, Stays, b)
    requires s in part && s' in part && s != s' && MemberOf(g, o, s) && MemberOf(g, o', s')
    ensures Agree(a, b, o, o')
  {
    if |part| >= t.leafMax {
      var local, w := Local(g, part, false), LocalWeights(g, part);
      assert t.OrdersSound(local, w);
      var lp := t.nodeNd(local, w).value;
      var k := PermutationHits(lp, |part|, IndexOf(part, s));
      var k' := PermutationHits(lp, |part|, IndexOf(part, s'));
      if k < k' {
        CoarsePair(g, part, lp, a, k, k');
        CoarsePair(g, part, lp, b, k, k');
      } else {
        CoarsePair(g, part, lp, a, k', k);
        CoarsePair(g, part, lp, b, k', k);
      }
    }
    SupersAgree(g, a, b, s, s', o, o');
  }

  lemma {:induction false} CoarsePair(g: Graph, part: seq<int>, lp: seq<int>, order: seq<int>, k: int, k': int)
    requires CoarseStands(g, part, lp, order) && 0 <= k < k' < |lp| && 0 <= lp[k] < |part| && 0 <= lp[k'] < |part|
    ensures SuperBefore(g, order, part[lp[k]], part[lp[k']])
  {
  }

  lemma {:induction false} SidesAgree(g: Graph, part: seq<int>, side: seq<int>, a: seq<int>, b: seq<int>, k: int, k': int, o: int, o': int)
    requires SidesStand(g, part, side, a) && SidesStand(g, part, side, b) && |side| == |part|
    requires 0 <= k < |part| && 0 <= k' < |part| && k != k' && (side[k] != side[k'] || side[k] == 2)
    requires MemberOf(g, o, part[k]) && MemberOf(g, o', part[k'])
    ensures Agree(a, b, o, o')
  {
    SupersAgree(g, a, b, part[k], part[k'], o, o');
  }

  lemma {:induction false} PartAgrees(g: Compressed, t: Kit, path: seq<int>, part: seq<int>, a: seq<int>, b: seq<int>, s: int, s': int, o: int, o': int)
    requires Stands(g, t, a) && Stands(g, t, b) && Reached(g, t, path, part)
    requires s in part && s' in part && s != s' && MemberOf(g, o, s) && MemberOf(g, o', s')
    ensures Agree(a, b, o, o')
    decreases t.levels - |path|
  {
    var cut := CutOf(g, t, part, |path|);
    ReachedParts(g, t, path, part);
    CutMeaning(g, t, part, |path|, cut);
    assert PartStands(g, t, part, |path|, a) && PartStands(g, t, part, |path|, b);
    assert CutStands(g, t, part, cut, a) && CutStands(g, t, part, cut, b);
    if cut.Splits? {
      CutIsSound(g, t, part, |path|);
      var k, k' := IndexOf(part, s), IndexOf(part, s');
      var h := cut.side[k];
      if h == cut.side[k'] && h != 2 {
        HalfHolds(part, cut.side, h, s);
        HalfHolds(part, cut.side, h, s');
        HalfReached(g, t, path, part, cut.side, h);
        PartAgrees(g, t, path + [h], Half(part, cut.side, h), a, b, s, s', o, o');
      } else {
        SidesAgree(g, part, cut.side, a, b, k, k', o, o');
      }
    } else {
      LeafAgree(g, t, part, a, b, s, s', o, o');
    }
  }

  /** One permutation at most stands like this. */
  lemma {:induction false} StandsUnique(g: Compressed, t: Kit, a: seq<int>, b: seq<int>)
    requires Stands(g, t, a) && Stands(g, t, b) && Permutes(a, |g.rows|) && Permutes(b, |g.rows|)
    ensures a == b
  {
    assert Reached(g, t, [], Whole(g));
    forall o, o' | 0 <= o < |g.rows| && 0 <= o' < |g.rows| && o != o'
      ensures Agree(a, b, o, o')
    {
      VertexFacts(g, o);
      VertexFacts(g, o');
      var s, s' := g.superOf[o], g.superOf[o'];
      if s != s' {
        assert Whole(g)[s] == s && Whole(g)[s'] == s';
        PartAgrees(g, t, [], Whole(g), a, b, s, s', o, o');
      } else {
        assert MemberOf(g, o, s) && MemberOf(g, o', s);
      }
    }
    AgreeingEqual(a, b, |g.rows|);
  }

  lemma {:induction false} AgreeingEqual(a: seq<int>, b: seq<int>, n: int)
    requires Permutes(a, n) && Permutes(b, n) && forall o, o' | 0 <= o < n && 0 <= o' < n && o != o' :: Agree(a, b, o, o')
    ensures a == b
  {
    forall o ensures o in a <==> o in b {
      if 0 <= o < n {
        var k := PermutationHits(a, n, o);
        var k' := PermutationHits(b, n, o);
      }
    }
    forall x, y | Precedes(a, x, y) ensures Precedes(b, x, y) {
      assert Agree(a, b, x, y);
      PrecedesStrict(a, x, y);
    }
    SameOrderEqual(a, b);
  }

  lemma {:induction false} SameOrderEqual(a: seq<int>, b: seq<int>)
    requires Distinct(a) && Distinct(b) && (forall x :: x in a <==> x in b) && forall x, y | Precedes(a, x, y) :: Precedes(b, x, y)
    ensures a == b
    decreases |a|
  {
    if |a| == 0 {
      FitsInto(b, a);
    } else {
      var x, c := a[|a| - 1], a[..|a| - 1];
      assert a == c + [x] && x in b;
      var d, y := b[..|b| - 1], b[|b| - 1];
      assert b == d + [y];
      if x != y {
        assert y in a && y in c;
        PrecedesAcross(c, [x], y, x);
        assert Precedes(b, y, x);
        LastIsLast(b, x);
      } else {
        forall z ensures z in c <==> z in d {
          assert z in c <==> z in a && z != x;
          assert z in d <==> z in b && z != x;
        }
        forall u, v | Precedes(c, u, v) ensures Precedes(d, u, v) {
          PrecedesExtends(c, [x], u, v);
          PrecedesSnoc(d, x, u, v);
          assert v in c;
        }
        SameOrderEqual(c, d);
      }
    }
  }

  // Nothing distinct from the last stands behind it.
  lemma {:induction false} LastIsLast(s: seq<int>, x: int)
    requires Distinct(s) && |s| > 0
    ensures !Precedes(s, s[|s| - 1], x)
  {
  }
}
