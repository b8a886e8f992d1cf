/** Assembly of one front: row positions, original entries, and the extend-add of the
    children's contribution blocks, packed or held in place. */
module FrontAssembly {
  import opened Sequences
  import opened Reals
  import opened FrontAlgebra
  import opened SymbolicTree
  import opened FrontTerms

  // ---- positions ----

  // The position map of the front with these rows; of no front when rows is empty.
  ghost predicate Positions(pos: seq<int>, rows: seq<int>) {
    forall r | 0 <= r < |pos| :: pos[r] == IndexOf(rows, r)
  }

  ghost predicate RowIds(rows: seq<int>, n: int) {
    forall i | 0 <= i < |rows| :: 0 <= rows[i] < n
  }

  lemma PlaceRow(pos: seq<int>, rows: seq<int>, r: int)
    requires Positions(pos, rows) && 0 <= r < |pos| && r !in rows
    ensures Positions(pos[r := |rows|], rows + [r])
  {
    var rows' := rows + [r];
    assert rows'[..|rows|] == rows;
  }

  lemma NextIsNew(r0: seq<int>, more: seq<int>, t: int)
    requires 0 <= t < |more| && Distinct(r0 + more)
    ensures more[t] !in r0 + more[..t]
  {
    var was := r0 + more[..t];
    forall i | 0 <= i < |was|
      ensures was[i] != more[t]
    {
      assert was[i] == (r0 + more)[i] && (r0 + more)[|r0| + t] == more[t];
    }
  }

  // Row r at position f of the front.
  method PlaceOne(rows: array<int>, f: int, r: int, pos: array<int>)
    requires 0 <= f < rows.Length && rows != pos && 0 <= r < pos.Length
    requires Positions(pos[..], rows[..f]) && r !in rows[..f]
    modifies rows, pos
    ensures rows[..f + 1] == old(rows[..f]) + [r] && Positions(pos[..], rows[..f + 1])
  {
    ghost var p, was := pos[..], rows[..f];
    PlaceRow(p, was, r);
    rows[f] := r;
    pos[r] := f;
    assert rows[..f + 1] == was + [r];
    assert pos[..] == p[r := |was|];
  }

  // Appends `more` to the first f rows of the front.
  method PlaceRows(rows: array<int>, f: int, more: seq<int>, pos: array<int>) returns (f': int)
    requires 0 <= f && f + |more| <= rows.Length && rows != pos
    requires Positions(pos[..], rows[..f]) && RowIds(more, pos.Length) && Distinct(rows[..f] + more)
    modifies rows, pos
    ensures f' == f + |more| && rows[..f'] == old(rows[..f]) + more
    ensures Positions(pos[..], rows[..f'])
  {
    f' := f;
    ghost var r0 := rows[..f];
    for t := 0 to |more|
      invariant f' == f + t && rows[..f'] == r0 + more[..t]
      invariant Positions(pos[..], rows[..f'])
    {
      NextIsNew(r0, more, t);
      PlaceOne(rows, f', more[t], pos);
      f' := f' + 1;
    }
  }

  // Back to -1 everywhere.
  method ClearRows(rows: array<int>, pos: array<int>)
    requires rows != pos && RowIds(rows[..], pos.Length)
    requires forall r | 0 <= r < pos.Length && r !in rows[..] :: pos[r] == -1
    modifies pos
    ensures Positions(pos[..], [])
  {
    for t := 0 to rows.Length
      invariant forall r | 0 <= r < pos.Length && r !in rows[..] :: pos[r] == -1
      invariant forall i | 0 <= i < t :: 0 <= rows[i] < pos.Length && pos[rows[i]] == -1
    {
      assert rows[..][t] == rows[t];
      pos[rows[t]] := -1;
    }
    forall r | 0 <= r < pos.Length ensures pos[r] == -1 {
      if r in rows[..] { var i :| 0 <= i < rows.Length && rows[i] == r; }
    }
  }

  // ---- original entries ----

  // Rows at or above lo come in ascending order.
  ghost predicate AscendFrom(rows: seq<int>, lo: int) {
    forall x, y | 0 <= y <= x < |rows| && rows[y] >= lo :: rows[x] >= rows[y]
  }

  // Entry (x, y) once the columns [lo, j) and k entries of column j are in.
  ghost function ReadSoFar(cols: seq<seq<Entry>>, rows: seq<int>, lo: int, j: int, k: int, x: int, y: int): real
    requires 0 <= x < |rows| && 0 <= y < |rows| && 0 <= lo <= j <= |cols| && (j < |cols| ==> 0 <= k <= |cols[j]|)
  {
    if lo <= rows[y] < j then ColSum(cols[rows[y]], rows[x])
    else if rows[y] == j && j < |cols| then ColSum(cols[j][..k], rows[x])
    else 0.0
  }

  ghost predicate ReadUpTo(m: Mat, cols: seq<seq<Entry>>, rows: seq<int>, lo: int, j: int, k: int)
    requires 0 <= lo <= j <= |cols| && (j < |cols| ==> 0 <= k <= |cols[j]|)
  {
    forall x, y | 0 <= y <= x < |rows| :: At(m, x, y) == ReadSoFar(cols, rows, lo, j, k, x, y)
  }

  method ZeroFront(F: array2<real>)
    requires F.Length0 == F.Length1
    modifies F
    ensures forall x, y | 0 <= y <= x < F.Length0 :: F[x, y] == 0.0
  {
    for j := 0 to F.Length0
      invariant forall x, y | 0 <= y <= x < F.Length0 && y < j :: F[x, y] == 0.0
    {
      for i := j to F.Length0
        invariant forall x, y | 0 <= y <= x < F.Length0 && (y < j || (y == j && x < i)) :: F[x, y] == 0.0
      {
        F[i, j] := 0.0;
      }
    }
  }

  lemma ReadNext(m: Mat, m': Mat, cols: seq<seq<Entry>>, rows: seq<int>, lo: int, j: int, k: int, X: int, Y: int)
    requires 0 <= lo <= j < |cols| && 0 <= k < |cols[j]| && ReadUpTo(m, cols, rows, lo, j, k) && Distinct(rows)
    requires 0 <= Y <= X < |rows| && rows[Y] == j && rows[X] == cols[j][k].row
    requires forall x, y | 0 <= y <= x < |rows| :: At(m', x, y) == At(m, x, y) + (if x == X && y == Y then cols[j][k].val else 0.0)
    ensures ReadUpTo(m', cols, rows, lo, j, k + 1)
  {
    assert cols[j][..k + 1][..k] == cols[j][..k];
    forall x, y | 0 <= y <= x < |rows|
      ensures At(m', x, y) == ReadSoFar(cols, rows, lo, j, k + 1, x, y)
    {
      assert At(m, x, y) == ReadSoFar(cols, rows, lo, j, k, x, y);
      assert rows[y] == j ==> y == Y;
      assert rows[x] == cols[j][k].row ==> x == X;
    }
  }

  lemma ReadColumn(m: Mat, cols: seq<seq<Entry>>, rows: seq<int>, lo: int, j: int)
    requires 0 <= lo <= j < |cols| && ReadUpTo(m, cols, rows, lo, j, |cols[j]|)
    ensures ReadUpTo(m, cols, rows, lo, j + 1, 0)
  {
    assert cols[j][..|cols[j]|] == cols[j];
    forall x, y | 0 <= y <= x < |rows|
      ensures At(m, x, y) == ReadSoFar(cols, rows, lo, j + 1, 0, x, y)
    {
      assert At(m, x, y) == ReadSoFar(cols, rows, lo, j, |cols[j]|, x, y);
      assert j + 1 < |cols| ==> cols[j + 1][..0] == [];
    }
  }

  lemma AboveDiagonal(rows: seq<int>, lo: int, x: int, y: int)
    requires AscendFrom(rows, lo) && Distinct(rows) && 0 <= x < |rows| && 0 <= y < |rows| && lo <= rows[y] <= rows[x]
    ensures x >= y
  {
  }

  // The columns [lo, hi) into a zeroed front.
  method AddOriginal(F: array2<real>, pos: array<int>, cols: seq<seq<Entry>>, lo: int, hi: int, ghost rows: seq<int>)
    requires F.Length0 == F.Length1 == |rows| && 0 <= lo <= hi <= |cols| == pos.Length
    requires Positions(pos[..], rows) && Distinct(rows) && AscendFrom(rows, lo)
    requires forall j | lo <= j < hi :: j in rows
    requires forall j, k | lo <= j < hi && 0 <= k < |cols[j]| :: j <= cols[j][k].row < pos.Length && cols[j][k].row in rows
    requires forall x, y | 0 <= y <= x < F.Length0 :: F[x, y] == 0.0
    modifies F
    ensures forall x, y | 0 <= y <= x < |rows| :: F[x, y] == ColumnsPart(cols, lo, hi, rows[x], rows[y])
  {
    ReadNothing(Snapshot(F), cols, rows, lo);
    for j := lo to hi
      invariant ReadUpTo(Snapshot(F), cols, rows, lo, j, 0)
    {
      assert pos[j] == IndexOf(rows, j);
      var y := pos[j];
      for k := 0 to |cols[j]|
        invariant ReadUpTo(Snapshot(F), cols, rows, lo, j, k)
      {
        ghost var m := Snapshot(F);
        var r := cols[j][k].row;
        assert pos[r] == IndexOf(rows, r);
        var x := pos[r];
        AboveDiagonal(rows, lo, x, y);
        F[x, y] := F[x, y] + cols[j][k].val;
        ReadNext(m, Snapshot(F), cols, rows, lo, j, k, x, y);
      }
      ReadColumn(Snapshot(F), cols, rows, lo, j);
    }
    ReadAll(Snapshot(F), cols, rows, lo, hi);
  }

  lemma ReadNothing(m: Mat, cols: seq<seq<Entry>>, rows: seq<int>, lo: int)
    requires 0 <= lo <= |cols| && forall x, y | 0 <= y <= x < |rows| :: At(m, x, y) == 0.0
    ensures ReadUpTo(m, cols, rows, lo, lo, 0)
  {
    assert lo < |cols| ==> cols[lo][..0] == [];
  }

  lemma ReadAll(m: Mat, cols: seq<seq<Entry>>, rows: seq<int>, lo: int, hi: int)
    requires 0 <= lo <= hi <= |cols| && ReadUpTo(m, cols, rows, lo, hi, 0) && AscendFrom(rows, lo)
    ensures forall x, y | 0 <= y <= x < |rows| :: At(m, x, y) == ColumnsPart(cols, lo, hi, rows[x], rows[y])
  {
    forall x, y | 0 <= y <= x < |rows|
      ensures At(m, x, y) == ColumnsPart(cols, lo, hi, rows[x], rows[y])
    {
      assert At(m, x, y) == ReadSoFar(cols, rows, lo, hi, 0, x, y);
      assert hi < |cols| ==> cols[hi][..0] == [];
    }
  }

  // ---- packed blocks ----

  // Entries of a packed lower triangle of order q.
  function Tri(q: int): nat
    decreases q
  {
    if q <= 0 then 0 else Tri(q - 1) + q
  }

  lemma {:induction false} TriClosed(q: nat)
    ensures Tri(q) == q * (q + 1) / 2
  {
    if q > 0 { TriClosed(q - 1); }
  }

  // Where packed column jj starts.
  function PackedStart(q: int, jj: int): int
    decreases jj
  {
    if jj <= 0 then 0 else PackedStart(q, jj - 1) + (q - (jj - 1))
  }

  // Where entry (i, j) of the lower triangle is.
  function PackedAt(q: int, i: int, j: int): int {
    PackedStart(q, j) + (i - j)
  }

  lemma {:induction false} PackedEnd(q: int, jj: int)
    requires 0 <= jj <= q
    ensures PackedStart(q, jj) + Tri(q - jj) == Tri(q)
    ensures PackedStart(q, jj) >= 0
    decreases jj
  {
    if jj > 0 { PackedEnd(q, jj - 1); }
  }

  /** A child's block as the parent reads it: packed on the stack, or in place in the
      child's own front from row and column `off` on. */
  datatype Source = Packed(values: seq<real>) | Held(v: array2<real>, off: int)

  // The packed lower triangle of the leading q rows of m.
  ghost predicate PackedHolds(values: seq<real>, m: Mat, q: int) {
    && |values| == Tri(q)
    && forall i, j | 0 <= j <= i < q :: 0 <= PackedAt(q, i, j) < |values| && values[PackedAt(q, i, j)] == At(m, i, j)
  }

  ghost predicate Carries(src: Source, m: Mat, q: int)
    reads if src.Held? then {src.v} else {}
  {
    0 <= q &&
    match src
    case Packed(values) => PackedHolds(values, m, q)
    case Held(v, off) =>
      0 <= off && off + q <= v.Length0 && off + q <= v.Length1 &&
      forall i, j | 0 <= j <= i < q :: v[off + i, off + j] == At(m, i, j)
  }

  // The part of a block's term whose entries come before entry (ii, jj) in packed order.
  ghost function PartTerm(bl: Block, a: int, b: int, jj: int, ii: int): real {
    PartAt(bl, IndexOf(bl.rows, a), IndexOf(bl.rows, b), jj, ii)
  }

  ghost function PartAt(bl: Block, x: int, y: int, jj: int, ii: int): real {
    if x < 0 || y < 0 then 0.0
    else if Lower(x, y) < jj || (Lower(x, y) == jj && Upper(x, y) < ii) then Sym(bl.m, x, y)
    else 0.0
  }

  ghost predicate AddedUpTo(m0: Mat, m: Mat, bl: Block, rows: seq<int>, jj: int, ii: int) {
    forall x, y | 0 <= y <= x < |rows| :: At(m, x, y) == At(m0, x, y) + PartTerm(bl, rows[x], rows[y], jj, ii)
  }

  // cm sends the block's positions to the front's.
  ghost predicate ChildMap(cm: seq<int>, brows: seq<int>, rows: seq<int>) {
    |cm| == |brows| && forall t | 0 <= t < |cm| :: 0 <= cm[t] < |rows| && rows[cm[t]] == brows[t]
  }

  lemma AddNext(m0: Mat, m: Mat, m': Mat, bl: Block, rows: seq<int>, cm: seq<int>, jj: int, ii: int)
    requires AddedUpTo(m0, m, bl, rows, jj, ii) && Distinct(rows) && Distinct(bl.rows) && ChildMap(cm, bl.rows, rows)
    requires 0 <= jj <= ii < |cm|
    requires forall x, y | 0 <= y <= x < |rows| ::
      At(m', x, y) == At(m, x, y) + (if x == Upper(cm[ii], cm[jj]) && y == Lower(cm[ii], cm[jj]) then At(bl.m, ii, jj) else 0.0)
    ensures AddedUpTo(m0, m', bl, rows, jj, ii + 1)
  {
    forall x, y | 0 <= y <= x < |rows|
      ensures At(m', x, y) == At(m0, x, y) + PartTerm(bl, rows[x], rows[y], jj, ii + 1)
    {
      assert At(m, x, y) == At(m0, x, y) + PartTerm(bl, rows[x], rows[y], jj, ii);
      AtTarget(bl, rows, cm, jj, ii, x, y);
    }
  }

  // Entry (ii, jj) lands in exactly one place of the lower triangle.
  lemma {:induction false} AtTarget(bl: Block, rows: seq<int>, cm: seq<int>, jj: int, ii: int, x: int, y: int)
    requires Distinct(rows) && Distinct(bl.rows) && ChildMap(cm, bl.rows, rows) && 0 <= jj <= ii < |cm|
    requires 0 <= y <= x < |rows|
    ensures PartTerm(bl, rows[x], rows[y], jj, ii + 1) == PartTerm(bl, rows[x], rows[y], jj, ii)
         + (if x == Upper(cm[ii], cm[jj]) && y == Lower(cm[ii], cm[jj]) then At(bl.m, ii, jj) else 0.0)
  {
    TargetOf(bl.rows, rows, cm, ii, x);
    TargetOf(bl.rows, rows, cm, ii, y);
    TargetOf(bl.rows, rows, cm, jj, x);
    TargetOf(bl.rows, rows, cm, jj, y);
    NextPart(bl, IndexOf(bl.rows, rows[x]), IndexOf(bl.rows, rows[y]), jj, ii);
  }

  // The row of the front at x is row t of the block exactly when the map says so.
  lemma TargetOf(brows: seq<int>, rows: seq<int>, cm: seq<int>, t: int, x: int)
    requires Distinct(rows) && Distinct(brows) && ChildMap(cm, brows, rows) && 0 <= t < |cm| && 0 <= x < |rows|
    ensures IndexOf(brows, rows[x]) == t <==> cm[t] == x
  {
    IndexOfDistinct(brows, t);
  }

  // Of the entries of a block, (ii, jj) alone is in the next part and not in this one.
  lemma NextPart(bl: Block, x: int, y: int, jj: int, ii: int)
    requires 0 <= jj <= ii
    ensures PartAt(bl, x, y, jj, ii + 1) == PartAt(bl, x, y, jj, ii)
         + (if (x == ii && y == jj) || (x == jj && y == ii) then At(bl.m, ii, jj) else 0.0)
  {
  }

  lemma AddColumnDone(m0: Mat, m: Mat, bl: Block, rows: seq<int>, jj: int, q: int)
    requires AddedUpTo(m0, m, bl, rows, jj, q) && |bl.rows| == q
    ensures AddedUpTo(m0, m, bl, rows, jj + 1, jj + 1)
  {
    forall x, y | 0 <= y <= x < |rows|
      ensures At(m, x, y) == At(m0, x, y) + PartTerm(bl, rows[x], rows[y], jj + 1, jj + 1)
    {
      assert At(m, x, y) == At(m0, x, y) + PartTerm(bl, rows[x], rows[y], jj, q);
    }
  }

  // The next value in packed order: behind the running position cv, or strided.
  method ReadEntry(src: Source, q: int, jj: int, ii: int, cv: int, ghost m: Mat) returns (val: real)
    requires Carries(src, m, q) && 0 <= jj <= ii < q && cv == PackedAt(q, ii, jj)
    ensures val == At(m, ii, jj)
  {
    match src
    case Packed(values) => val := values[cv];
    case Held(v, off) => val := v[off + ii, off + jj];
  }

  // One entry; with a monotone child map the target is below the diagonal unchecked.
  method AddEntry(F: array2<real>, li: int, lj: int, val: real, monotone: bool)
    requires 0 <= li < F.Length0 && 0 <= lj < F.Length0 == F.Length1 && (monotone ==> li >= lj)
    modifies F
    ensures forall x, y | 0 <= y <= x < F.Length0 ::
      F[x, y] == old(F[x, y]) + (if x == Upper(li, lj) && y == Lower(li, lj) then val else 0.0)
  {
    if monotone || li >= lj {
      F[li, lj] := F[li, lj] + val;
    } else {
      F[lj, li] := F[lj, li] + val;
    }
  }

  // Column jj of the block; a monotone child map keeps it in one column of the front.
  method AddColumn(F: array2<real>, cm: array<int>, src: Source, q: int, jj: int, monotone: bool,
                   ghost m0: Mat, ghost bl: Block, ghost rows: seq<int>)
    requires F.Length0 == F.Length1 == |rows| && (src.Held? ==> src.v != F)
    requires 0 <= jj < q == cm.Length && ChildMap(cm[..], bl.rows, rows) && Distinct(rows) && Distinct(bl.rows)
    requires Carries(src, bl.m, q) && AddedUpTo(m0, Snapshot(F), bl, rows, jj, jj)
    requires monotone ==> forall s, t | 0 <= s < t < q :: cm[s] < cm[t]
    modifies F
    ensures AddedUpTo(m0, Snapshot(F), bl, rows, jj, q)
  {
    var cv := PackedStart(q, jj);
    ghost var map0 := cm[..];
    for ii := jj to q
      invariant cv == PackedAt(q, ii, jj) && cm[..] == map0
      invariant AddedUpTo(m0, Snapshot(F), bl, rows, jj, ii)
    {
      var val := ReadEntry(src, q, jj, ii, cv, bl.m);
      ghost var m := Snapshot(F);
      assert cm[ii] == map0[ii] && cm[jj] == map0[jj];
      AddEntry(F, cm[ii], cm[jj], val, monotone);
      AddNext(m0, m, Snapshot(F), bl, rows, map0, jj, ii);
      cv := cv + 1;
    }
  }

  // Front positions of the block's rows, and whether they ascend.
  method MapRows(brows: seq<int>, pos: array<int>, ghost rows: seq<int>) returns (cm: array<int>, monotone: bool)
    requires Positions(pos[..], rows) && RowIds(brows, pos.Length) && forall r | r in brows :: r in rows
    ensures fresh(cm) && cm.Length == |brows| && ChildMap(cm[..], brows, rows)
    ensures monotone ==> forall s, t | 0 <= s < t < cm.Length :: cm[s] < cm[t]
  {
    cm := new int[|brows|];
    monotone := true;
    var prev := -1;
    for t := 0 to |brows|
      invariant forall i | 0 <= i < t :: 0 <= cm[i] < |rows| && rows[cm[i]] == brows[i]
      invariant prev == if t > 0 then cm[t - 1] else -1
      invariant monotone ==> forall i, j | 0 <= i < j < t :: cm[i] < cm[j]
    {
      assert brows[t] in brows;
      var l := pos[brows[t]];
      assert l == IndexOf(rows, brows[t]);
      cm[t] := l;
      monotone := monotone && l > prev;
      prev := l;
    }
  }

  // Extend-add.
  method AddBlock(F: array2<real>, pos: array<int>, src: Source, brows: seq<int>, ghost bl: Block, ghost rows: seq<int>)
    requires F.Length0 == F.Length1 == |rows| && (src.Held? ==> src.v != F)
    requires Positions(pos[..], rows) && RowIds(brows, pos.Length) && Distinct(rows) && Distinct(brows)
    requires bl.rows == brows && (forall r | r in brows :: r in rows) && Carries(src, bl.m, |brows|)
    modifies F
    ensures forall x, y | 0 <= y <= x < |rows| :: F[x, y] == old(F[x, y]) + BlockTerm(bl, rows[x], rows[y])
  {
    var q := |brows|;
    var cm, monotone := MapRows(brows, pos, rows);
    ghost var m0, map0 := Snapshot(F), cm[..];
    for jj := 0 to q
      invariant cm[..] == map0
      invariant AddedUpTo(m0, Snapshot(F), bl, rows, jj, jj)
    {
      AddColumn(F, cm, src, q, jj, monotone, m0, bl, rows);
      AddColumnDone(m0, Snapshot(F), bl, rows, jj, q);
    }
    AddedAll(m0, Snapshot(F), bl, rows);
  }

  lemma AddedAll(m0: Mat, m: Mat, bl: Block, rows: seq<int>)
    requires AddedUpTo(m0, m, bl, rows, |bl.rows|, |bl.rows|)
    ensures forall x, y | 0 <= y <= x < |rows| :: At(m, x, y) == At(m0, x, y) + BlockTerm(bl, rows[x], rows[y])
  {
    forall x, y | 0 <= y <= x < |rows|
      ensures At(m, x, y) == At(m0, x, y) + BlockTerm(bl, rows[x], rows[y])
    {
      assert At(m, x, y) == At(m0, x, y) + PartTerm(bl, rows[x], rows[y], |bl.rows|, |bl.rows|);
    }
  }
}
