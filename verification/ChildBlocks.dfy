/** Reading the children's blocks of the front about to be assembled, wherever they are,
    and assembling it. */
module ChildBlocks {
  import opened Sequences
  import opened Reals
  import opened FrontAlgebra
  import opened SymbolicTree
  import opened FrontTerms
  import opened FrontAssembly
  import opened ContributionStack
  import opened FrontLedger

  // A small-front buffer: free, or holding the block of front `node` for its parent.
  datatype Buffer = Free | Holding(node: int, v: array2<real>, off: int, rows: seq<int>)

  function Owned(b: Buffer): set<object> {
    if b.Holding? then {b.v} else {}
  }

  /** Where blocks are read from: the stack and the two buffers. */
  datatype View = View(rec: Records, vals: seq<real>, ids: seq<int>, buf0: Buffer, buf1: Buffer)

  ghost predicate HeldRight(h: Buffer, b: Block)
    reads Owned(h)
  {
    h.Holding? && h.rows == b.rows && Carries(Held(h.v, h.off), b.m, |b.rows|)
  }

  // Block b of child c can be read.
  ghost predicate KidReady(w: View, b: Block, c: int)
    reads Owned(w.buf0), Owned(w.buf1)
  {
    match w
    case View(rec, vals, ids, buf0, buf1) =>
      && 0 <= c < |rec.valueOff| && c < |rec.rowOff| && c < |rec.size| && c < |rec.delayed|
      && rec.size[c] == |b.rows| && rec.delayed[c] == b.delayed && 0 <= b.delayed <= |b.rows|
      && if buf0.Holding? && buf0.node == c then HeldRight(buf0, b)
         else if buf1.Holding? && buf1.node == c then HeldRight(buf1, b)
         else |b.rows| > 0 ==> OnStack(vals, ids, b, rec.valueOff[c], rec.rowOff[c], |b.rows|)
  }

  ghost predicate KidsReady(w: View, bs: seq<Block>, kids: seq<int>)
    reads Owned(w.buf0), Owned(w.buf1)
  {
    forall i | 0 <= i < |kids| :: 0 <= kids[i] < |bs| && KidReady(w, bs[kids[i]], kids[i])
  }

  lemma {:induction false} KidsDelayedPrefix(bs: seq<Block>, kids: seq<int>, i: int)
    requires (forall j | 0 <= j < |kids| :: 0 <= kids[j] < |bs|) && 0 <= i <= |kids|
    ensures KidsDelayed(bs, kids[..i]) <= KidsDelayed(bs, kids)
    decreases |kids|
  {
    if i < |kids| {
      KidsDelayedPrefix(bs, kids[..|kids| - 1], i);
      assert kids[..|kids| - 1][..i] == kids[..i];
    } else {
      assert kids[..i] == kids;
    }
  }

  lemma KidsDelayedStep(bs: seq<Block>, kids: seq<int>, i: int)
    requires (forall j | 0 <= j < |kids| :: 0 <= kids[j] < |bs|) && 0 <= i < |kids|
    ensures KidsDelayed(bs, kids[..i + 1]) == KidsDelayed(bs, kids[..i]) + DelayedOf(bs[kids[i]])
    ensures KidsDelayed(bs, kids[..i]) + DelayedOf(bs[kids[i]]) <= KidsDelayed(bs, kids)
  {
    KidsDelayedPrefix(bs, kids, i + 1);
    KidsDelayedLast(bs, kids, i);
  }

  lemma KidsDelayedLast(bs: seq<Block>, kids: seq<int>, i: int)
    requires (forall j | 0 <= j < |kids| :: 0 <= kids[j] < |bs|) && 0 <= i < |kids|
    ensures KidsDelayed(bs, kids[..i + 1]) == KidsDelayed(bs, kids[..i]) + DelayedOf(bs[kids[i]])
  {
    var k := kids[..i + 1];
    assert k[..|k| - 1] == kids[..i] && k[|k| - 1] == kids[i];
  }

  lemma KidsSumStep(bs: seq<Block>, kids: seq<int>, i: int, a: int, b: int)
    requires (forall j | 0 <= j < |kids| :: 0 <= kids[j] < |bs|) && 0 <= i < |kids|
    ensures KidsSum(bs, kids[..i + 1], a, b) == KidsSum(bs, kids[..i], a, b) + BlockTerm(bs[kids[i]], a, b)
  {
    assert kids[..i + 1][..i] == kids[..i];
  }

  lemma PrefixDistinct(all: seq<int>, s: seq<int>, n: int)
    requires Distinct(all) && RowIds(all, n) && s <= all
    ensures Distinct(s) && RowIds(s, n)
  {
    assert forall i | 0 <= i < |s| :: s[i] == all[i];
  }

  // Row ids of a child's block: from the buffer holding it, else from the stack.
  method ChildRows(w: View, c: int, ghost b: Block) returns (r: seq<int>)
    requires KidReady(w, b, c)
    ensures r == b.rows
  {
    if w.buf0.Holding? && w.buf0.node == c {
      r := w.buf0.rows;
    } else if w.buf1.Holding? && w.buf1.node == c {
      r := w.buf1.rows;
    } else if w.rec.size[c] > 0 {
      r := w.ids[w.rec.rowOff[c]..w.rec.rowOff[c] + w.rec.size[c]];
    } else {
      r := [];
    }
  }

  method ChildSource(w: View, c: int, ghost b: Block) returns (src: Source)
    requires KidReady(w, b, c) && w.rec.size[c] > 0
    ensures Carries(src, b.m, |b.rows|)
    ensures src.Held? ==> src.v in Owned(w.buf0) + Owned(w.buf1)
  {
    if w.buf0.Holding? && w.buf0.node == c {
      src := Held(w.buf0.v, w.buf0.off);
    } else if w.buf1.Holding? && w.buf1.node == c {
      src := Held(w.buf1.v, w.buf1.off);
    } else {
      var at := w.rec.valueOff[c];
      src := Packed(w.vals[at..at + Tri(w.rec.size[c])]);
    }
  }

  // How many columns the children delay.
  method CountDelayed(w: View, kids: seq<int>, ghost bs: seq<Block>) returns (nd: int)
    requires KidsReady(w, bs, kids)
    ensures nd == |KidsDelayed(bs, kids)|
  {
    nd := 0;
    for i := 0 to |kids|
      invariant nd == |KidsDelayed(bs, kids[..i])|
    {
      KidsDelayedStep(bs, kids, i);
      nd := nd + w.rec.delayed[kids[i]];
    }
    assert kids[..|kids|] == kids;
  }

  // The delayed columns of the first i children are the first front rows.
  ghost predicate KidsPlaced(bs: seq<Block>, kids: seq<int>, i: int, ids: seq<int>, pos: seq<int>)
    requires forall j | 0 <= j < |kids| :: 0 <= kids[j] < |bs|
  {
    && 0 <= i <= |kids| && ids == KidsDelayed(bs, kids[..i]) && |ids| <= |KidsDelayed(bs, kids)| && Positions(pos, ids)
  }

  lemma {:induction false} LastIds(a: seq<int>, d: seq<int>, n: int)
    requires RowIds(a + d, n)
    ensures RowIds(d, n)
  {
    forall j | 0 <= j < |d| ensures 0 <= d[j] < n { assert (a + d)[|a| + j] == d[j]; }
  }

  method PlaceKid(w: View, kids: seq<int>, i: int, rows: array<int>, f: int, pos: array<int>, ghost bs: seq<Block>)
      returns (f': int)
    requires KidsReady(w, bs, kids) == true && 0 <= i < |kids| && rows != pos
    requires Distinct(KidsDelayed(bs, kids)) == true && RowIds(KidsDelayed(bs, kids), pos.Length) == true
    requires |KidsDelayed(bs, kids)| <= rows.Length
    requires 0 <= f <= rows.Length && KidsPlaced(bs, kids, i, rows[..f], pos[..]) == true
    modifies rows, pos
    ensures 0 <= f' <= rows.Length && KidsPlaced(bs, kids, i + 1, rows[..f'], pos[..]) == true
  {
    KidsDelayedStep(bs, kids, i);
    var r := ChildRows(w, kids[i], bs[kids[i]]);
    var d := r[..w.rec.delayed[kids[i]]];
    assert d == DelayedOf(bs[kids[i]]);
    PrefixDistinct(KidsDelayed(bs, kids), rows[..f] + d, pos.Length);
    LastIds(rows[..f], d, pos.Length);
    f' := PlaceRows(rows, f, d, pos);
  }

  method PlaceKids(w: View, kids: seq<int>, rows: array<int>, pos: array<int>, ghost bs: seq<Block>) returns (f: int)
    requires KidsReady(w, bs, kids) == true && rows != pos && Positions(pos[..], []) == true
    requires Distinct(KidsDelayed(bs, kids)) == true && RowIds(KidsDelayed(bs, kids), pos.Length) == true
    requires |KidsDelayed(bs, kids)| <= rows.Length
    modifies rows, pos
    ensures f == |KidsDelayed(bs, kids)| && rows[..f] == KidsDelayed(bs, kids) && Positions(pos[..], rows[..f]) == true
  {
    f := 0;
    for i := 0 to |kids|
      invariant 0 <= f <= rows.Length && KidsPlaced(bs, kids, i, rows[..f], pos[..]) == true
    {
      f := PlaceKid(w, kids, i, rows, f, pos, bs);
    }
    assert kids[..|kids|] == kids;
  }

  lemma JoinedRows(ds: seq<int>, own: seq<int>, n: int)
    requires Distinct(ds + own) && RowIds(ds + own, n)
    ensures Distinct(ds) && RowIds(ds, n) && RowIds(own, n)
  {
    PrefixDistinct(ds + own, ds, n);
    forall j | 0 <= j < |own| ensures 0 <= own[j] < n { assert (ds + own)[|ds| + j] == own[j]; }
  }

  // Front rows: delayed columns from the children, own pivots, extension rows.
  method GatherRows(w: View, kids: seq<int>, own: seq<int>, pos: array<int>, ghost bs: seq<Block>)
      returns (rows: array<int>, nd: int)
    requires KidsReady(w, bs, kids) && Positions(pos[..], [])
    requires Distinct(KidsDelayed(bs, kids) + own) && RowIds(KidsDelayed(bs, kids) + own, pos.Length)
    modifies pos
    ensures fresh(rows) && rows[..] == KidsDelayed(bs, kids) + own
    ensures nd == |KidsDelayed(bs, kids)|
    ensures Positions(pos[..], rows[..])
  {
    nd := CountDelayed(w, kids, bs);
    rows := new int[nd + |own|];
    JoinedRows(KidsDelayed(bs, kids), own, pos.Length);
    var f := PlaceKids(w, kids, rows, pos, bs);
    f := PlaceRows(rows, f, own, pos);
    assert rows[..f] == rows[..];
  }

  // One child's block, if it has one.
  method AddKid(w: View, kids: seq<int>, i: int, F: array2<real>, pos: array<int>, ghost bs: seq<Block>, ghost rows: seq<int>)
    requires KidsReady(w, bs, kids) && 0 <= i < |kids|
    requires F !in Owned(w.buf0) && F !in Owned(w.buf1)
    requires F.Length0 == F.Length1 == |rows| && Positions(pos[..], rows) && Distinct(rows)
    requires RowIds(bs[kids[i]].rows, pos.Length) && Distinct(bs[kids[i]].rows)
    requires forall r | r in bs[kids[i]].rows :: r in rows
    modifies F
    ensures forall x, y | 0 <= y <= x < |rows| :: F[x, y] == old(F[x, y]) + BlockTerm(bs[kids[i]], rows[x], rows[y])
  {
    var c := kids[i];
    if w.rec.size[c] > 0 {
      var brows := ChildRows(w, c, bs[c]);
      var src := ChildSource(w, c, bs[c]);
      AddBlock(F, pos, src, brows, bs[c], rows);
    }
  }

  // The columns [lo, hi) and their entries are in the front's rows.
  ghost predicate EntriesFit(cols: seq<seq<Entry>>, lo: int, hi: int, rows: seq<int>, n: int)
    requires 0 <= lo <= hi <= |cols|
  {
    && (forall j | lo <= j < hi :: j in rows)
    && (forall j, k | lo <= j < hi && 0 <= k < |cols[j]| :: j <= cols[j][k].row < n && cols[j][k].row in rows)
  }

  // So are the children's blocks.
  ghost predicate BlocksFit(bs: seq<Block>, kids: seq<int>, rows: seq<int>, n: int)
    requires forall i | 0 <= i < |kids| :: 0 <= kids[i] < |bs|
  {
    && (forall i | 0 <= i < |kids| :: RowIds(bs[kids[i]].rows, n) && Distinct(bs[kids[i]].rows))
    && (forall i, r | 0 <= i < |kids| && r in bs[kids[i]].rows :: r in rows)
  }

  // Everything assembled into the front with these rows finds its place there.
  ghost predicate FrontFits(cols: seq<seq<Entry>>, lo: int, hi: int, bs: seq<Block>, kids: seq<int>, rows: seq<int>, n: int)
    requires forall i | 0 <= i < |kids| :: 0 <= kids[i] < |bs|
  {
    && 0 <= lo <= hi <= |cols| == n && Distinct(rows) && RowIds(rows, n) && AscendFrom(rows, lo)
    && EntriesFit(cols, lo, hi, rows, n) && BlocksFit(bs, kids, rows, n)
  }

  /** The assembled front: its own columns of the original matrix plus its children's
      blocks. */
  method AssembleFront(w: View, kids: seq<int>, cols: seq<seq<Entry>>, lo: int, hi: int, pos: array<int>,
                       f: int, ghost rows: seq<int>, ghost bs: seq<Block>) returns (F: array2<real>)
    requires KidsReady(w, bs, kids) && f == |rows| && Positions(pos[..], rows)
    requires FrontFits(cols, lo, hi, bs, kids, rows, pos.Length)
    ensures fresh(F) && F.Length0 == F.Length1 == |rows|
    ensures forall x, y | 0 <= y <= x < |rows| :: F[x, y] == Assembled(cols, lo, hi, bs, kids, rows[x], rows[y])
  {
    F := new real[f, f];
    ZeroFront(F);
    AddOriginal(F, pos, cols, lo, hi, rows);
    for i := 0 to |kids|
      invariant KidsReady(w, bs, kids)
      invariant forall x, y | 0 <= y <= x < |rows| :: F[x, y] == Assembled(cols, lo, hi, bs, kids[..i], rows[x], rows[y])
    {
      AddKid(w, kids, i, F, pos, bs, rows);
      forall x, y | 0 <= y <= x < |rows|
        ensures F[x, y] == Assembled(cols, lo, hi, bs, kids[..i + 1], rows[x], rows[y])
      {
        KidsSumStep(bs, kids, i, rows[x], rows[y]);
      }
    }
    assert kids[..|kids|] == kids;
  }
}
