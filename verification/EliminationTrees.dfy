/** An elimination tree with its postorder and height. */
module EliminationTrees {
  import opened Etree
  import opened Forest
  import opened Postorder
  import opened PostorderBuffer

  function Identity(n: nat): seq<nat> { seq(n, v => v) }

  // Parents of an elimination tree are later vertices.
  lemma EtreeClimbs(rows: seq<seq<int>>, parent: seq<int>, j: int)
    requires IsEtree(rows, parent) && 0 <= j < |rows| && parent[j] != -1
    ensures j < parent[j] < |rows|
  {
    var p :| Through(rows, j, parent[j], p);
    assert Adjacent(rows, p[|p| - 2], p[|p| - 1]);
  }

  /** Elimination trees are forests ranked by vertex number. */
  lemma EtreeRanked(rows: seq<seq<int>>, parent: seq<int>)
    requires IsEtree(rows, parent)
    ensures Ranked(parent, Identity(|parent|))
  {
    forall v | 0 <= v < |parent|
      ensures parent[v] == -1 || v < parent[v] < |parent|
    {
      if parent[v] != -1 { EtreeClimbs(rows, parent, v); }
    }
  }

  /** The recursive postorder and the exact height of an elimination tree. */
  method FinishEliminationTree(parent: seq<int>, ghost rows: seq<seq<int>>) returns (postorder: array<int>, maxDepth: int)
    requires IsEtree(rows, parent)
    ensures Ranked(parent, Identity(|parent|))
    ensures postorder[..] == PostForest(parent, Identity(|parent|)) && ForestHeight(parent, Identity(|parent|), maxDepth)
  {
    EtreeRanked(rows, parent);
    var work := new int[4 * |parent| + 1];
    postorder := new int[|parent|];
    maxDepth := EtreePostorder(parent, postorder, work, Identity(|parent|));
  }
}
