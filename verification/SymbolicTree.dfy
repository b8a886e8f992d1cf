/** What the symbolic analysis hands to the numeric factorization: supernodes numbered
    in postorder, their tree, and the rows of every front. */
module SymbolicTree {

  datatype Supernode = Supernode(colStart: int, colEnd: int, parent: int)

  // A lower-triangle entry of a column.
  datatype Entry = Entry(row: int, val: real)

  datatype Keep = Keep(n: int, sn: seq<Supernode>, frontRows: seq<seq<int>>, kids: seq<seq<int>>) {

    function Width(s: nat): int
      requires s < |sn|
    {
      sn[s].colEnd - sn[s].colStart
    }

    // First column not yet assembled once the fronts before s are done.
    function Start(s: nat): int
      requires s <= |sn|
    {
      if s < |sn| then sn[s].colStart else n
    }

    ghost predicate Columns() {
      && n >= 0 && (|sn| == 0 ==> n == 0)
      && (forall s | 0 <= s < |sn| :: 0 <= sn[s].colStart < sn[s].colEnd <= n)
      && (|sn| > 0 ==> sn[0].colStart == 0)
      && (forall s, s' {:trigger sn[s], Start(s')} | 0 <= s < |sn| && s' == s + 1 :: sn[s].colEnd == Start(s'))
    }

    // Children before parents, and subtrees contiguous.
    ghost predicate Postordered() {
      && (forall s | 0 <= s < |sn| :: sn[s].parent == -1 || s < sn[s].parent < |sn|)
      && (forall s, t | 0 <= s < t < |sn| && t < sn[s].parent :: t < sn[t].parent <= sn[s].parent)
    }

    // Children lists are complete and descending.
    ghost predicate Children() {
      && |kids| == |sn|
      && (forall s, i | 0 <= s < |sn| && 0 <= i < |kids[s]| :: 0 <= kids[s][i] < s && sn[kids[s][i]].parent == s)
      && (forall s, i, j | 0 <= s < |sn| && 0 <= i < j < |kids[s]| :: kids[s][i] > kids[s][j])
      && (forall c | 0 <= c < |sn| && sn[c].parent != -1 :: 0 <= sn[c].parent < |sn| && c in kids[sn[c].parent])
    }

    function RowAt(s: int, t: int): int {
      if 0 <= s < |frontRows| && 0 <= t < |frontRows[s]| then frontRows[s][t] else -1
    }

    // Front rows ascend, start with the pivot columns, and what extends below them is
    // in the parent's front; a root has no such rows.
    ghost predicate Fronts() {
      && |frontRows| == |sn|
      && (forall s | 0 <= s < |sn| :: 0 <= Width(s) <= |frontRows[s]|)
      && (forall s, t | 0 <= s < |sn| && 0 <= t < Width(s) && t < |frontRows[s]| :: frontRows[s][t] == sn[s].colStart + t)
      && (forall s, t | 0 <= s < |sn| && 0 <= t < |frontRows[s]| :: 0 <= frontRows[s][t] < n)
      && (forall s, t, u | 0 <= s < |sn| && 0 <= t < u < |frontRows[s]| :: frontRows[s][t] < frontRows[s][u])
      && (forall s | 0 <= s < |sn| && sn[s].parent == -1 :: |frontRows[s]| == Width(s))
      && (forall s, t {:trigger RowAt(s, t)} | 0 <= s < |sn| && 0 <= sn[s].parent < |sn| && 0 <= Width(s) <= t < |frontRows[s]| ::
            RowAt(s, t) in frontRows[sn[s].parent])
    }

    ghost predicate Tree() {
      Postordered() && Children()
    }

    ghost predicate Valid() {
      Columns() && Tree() && Fronts()
    }

    // Where a front stands among the children of its parent.
    ghost function KidIndex(c: nat): (i: nat)
      requires Children() && c < |sn| && sn[c].parent != -1
      ensures 0 <= sn[c].parent < |sn| && i < |kids[sn[c].parent]| && kids[sn[c].parent][i] == c
    {
      var i: nat :| i < |kids[sn[c].parent]| && kids[sn[c].parent][i] == c;
      i
    }

    // The rows of front s below its pivot columns.
    function ExtRows(s: nat): seq<int>
      requires s < |sn| && |frontRows| == |sn| && 0 <= Width(s) <= |frontRows[s]|
    {
      frontRows[s][Width(s)..]
    }

    // The lower-CSC matrix fits the structure: an entry of a column lies at or below
    // the diagonal, in a row of the column's front.
    ghost predicate Fits(cols: seq<seq<Entry>>) {
      && |cols| == n && |frontRows| == |sn|
      && forall s, j, k | 0 <= s < |sn| && sn[s].colStart <= j < sn[s].colEnd && 0 <= j < n && 0 <= k < |cols[j]| ::
           cols[j][k].row >= j && cols[j][k].row in frontRows[s]
    }
  }

  // A valid symbolic analysis.
  type Analysis = keep: Keep | keep.Valid() witness Keep(0, [], [], [])
}
