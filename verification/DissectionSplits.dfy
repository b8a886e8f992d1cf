/** The steps that hand a part over to its halves keep the invariant of the tasks. */
module DissectionSplits {
  import opened Sequences
  import opened Supervariables
  import opened CompressedGraph
  import opened Dissection
  import opened DissectionTasks
  import opened DissectionSafety

  // ---- allocating the children ----

  lemma AllocatedFrame(g: Compressed, s: State, id: int, side: seq<int>)
    requires 0 <= id < |s.nodes| && s.nodes[id].status == Parting(side)
    ensures Framed(g, s, Allocated(s, id, side), id)
  {
  }

  lemma AllocatedSelf(g: Compressed, t: Kit, s: State, id: int, side: seq<int>)
    requires Shape(g, s) && 0 <= id < |s.nodes| && s.nodes[id].status == Parting(side) && NodeOk(g, t, s, id)
    ensures NodeOk(g, t, Allocated(s, id, side), id)
  {
    var nd, s', n := s.nodes[id], Allocated(s, id, side), |s.nodes|;
    CutIsSound(g, t, nd.part, nd.depth);
    assert Halves(g, t, s', id, n, false);
    assert Handing(s', id, nd.part, side, n);
  }

  lemma AllocatedKid(g: Compressed, t: Kit, s: State, id: int, side: seq<int>, h: int)
    requires Shape(g, s) && 0 <= id < |s.nodes| && s.nodes[id].status == Parting(side) && NodeOk(g, t, s, id) && 0 <= h <= 1
    ensures NodeOk(g, t, Allocated(s, id, side), |s.nodes| + h)
  {
    CutIsSound(g, t, s.nodes[id].part, s.nodes[id].depth);
    HalfPart(g, s.nodes[id].part, side, h);
  }

  lemma AllocatedNodes(g: Compressed, t: Kit, s: State, id: int, side: seq<int>)
    requires Shape(g, s) && NodesOk(g, t, s) && PartsApart(g, s) && 0 <= id < |s.nodes| && s.nodes[id].status == Parting(side)
    ensures NodesOk(g, t, Allocated(s, id, side))
  {
    var s', n := Allocated(s, id, side), |s.nodes|;
    AllocatedFrame(g, s, id, side);
    assert NodeOk(g, t, s, id);
    forall x | 0 <= x < |s'.nodes|
      ensures NodeOk(g, t, s', x)
    {
      if x == id {
        AllocatedSelf(g, t, s, id, side);
      } else if x < n {
        OtherKept(g, t, s, s', id, x);
      } else {
        AllocatedKid(g, t, s, id, side, x - n);
      }
    }
  }

  // Children lie behind their parent and exist.
  lemma KidInside(g: Compressed, t: Kit, s: State, p: int, x: int)
    requires NodesOk(g, t, s) && ChildOf(s, p, x)
    ensures p < x < |s.nodes|
  {
    assert NodeOk(g, t, s, p);
  }

  lemma AllocatedParents(g: Compressed, t: Kit, s: State, id: int, side: seq<int>)
    requires NodesOk(g, t, s) && AllHaveParents(s) && 0 <= id < |s.nodes| && s.nodes[id].status == Parting(side)
    ensures AllHaveParents(Allocated(s, id, side))
  {
    var s', n := Allocated(s, id, side), |s.nodes|;
    forall p, x
      ensures ChildOf(s', p, x) <==> ChildOf(s, p, x) || (p == id && (x == n || x == n + 1))
    {
    }
    forall x | 0 <= x < |s'.nodes|
      ensures HasParent(s', x)
    {
      if x < n { ParentKept(s, s', x); } else { assert ChildOf(s', id, x); }
    }
    forall a, b, c | ChildOf(s', a, c) && ChildOf(s', b, c)
      ensures a == b
    {
      if ChildOf(s, a, c) { KidInside(g, t, s, a, c); }
      if ChildOf(s, b, c) { KidInside(g, t, s, b, c); }
    }
  }

  lemma AllocatedShape(g: Compressed, s: State, id: int, side: seq<int>)
    requires Shape(g, s) && 0 <= id < |s.nodes| && s.nodes[id].status == Parting(side)
    ensures Shape(g, Allocated(s, id, side))
  {
    var nd := s.nodes[id];
    var a, b := Node(Half(nd.part, side, 0), nd.depth + 1, Unborn), Node(Half(nd.part, side, 1), nd.depth + 1, Unborn);
    var mid := s.nodes[id := nd.(status := Writing(side, |s.nodes|))];
    WeightsUpdate(s.nodes, id, mid[id]);
    WeightsMore(mid, a);
    WeightsMore(mid + [a], b);
    assert mid + [a] + [b] == mid + [a, b];
  }

  lemma AllocateKeeps(g: Compressed, t: Kit, s: State, s': State, id: int)
    requires Inv(g, t, s) && Step(g, t, s, s', Allocate(id))
    ensures Inv(g, t, s')
  {
    var side := s.nodes[id].status.side;
    AllocatedShape(g, s, id, side);
    AllocatedNodes(g, t, s, id, side);
    AllocatedParents(g, t, s, id, side);
    AllocatedApart(g, s, id, side);
    if s.failed { DoomedKept(g, t, s, s'); }
  }

  lemma AllocatedApart(g: Compressed, s: State, id: int, side: seq<int>)
    requires PartsApart(g, s) && 0 <= id < |s.nodes| && s.nodes[id].status == Parting(side)
    ensures PartsApart(g, Allocated(s, id, side))
  {
  }

  // ---- writing owners ----

  // What one owner write does: an entry of the part goes to its half or the separator.
  ghost predicate Handed(s: State, s': State, id: int, k: int)
    requires 0 <= id < |s.nodes| && s.nodes[id].status.Writing?
  {
    var nd := s.nodes[id];
    && 0 <= k < |nd.part| == |nd.status.side| && 0 <= nd.part[k] < |s.owner| && s.owner[nd.part[k]] == id
    && id < nd.status.first && 0 <= nd.status.side[k] <= 2
    && s' == s.(owner := s.owner[nd.part[k] := Target(nd.status.first, nd.status.side[k])])
  }

  lemma OwnHands(g: Compressed, t: Kit, s: State, s': State, id: int, k: int)
    requires Shape(g, s) && Step(g, t, s, s', Own(id, k)) && NodeOk(g, t, s, id)
    ensures Handed(s, s', id, k) && s.nodes[id].status.first + 1 < |s.nodes|
  {
    CutIsSound(g, t, s.nodes[id].part, s.nodes[id].depth);
  }

  lemma HandedOwns(s: State, s': State, id: int, k: int, x: int, part: seq<int>)
    requires 0 <= id < |s.nodes| && s.nodes[id].status.Writing? && Handed(s, s', id, k)
    requires x >= 0 && x != id && x != s.nodes[id].status.first && x != s.nodes[id].status.first + 1
    ensures OwnsExactly(s, x, part) ==> OwnsExactly(s', x, part)
    ensures OwnsWithin(s, x, part) ==> OwnsWithin(s', x, part)
  {
  }

  lemma HandedOther(g: Compressed, t: Kit, s: State, s': State, id: int, k: int, x: int)
    requires Shape(g, s) && PartsApart(g, s) && 0 <= id < |s.nodes| && s.nodes[id].status.Writing? && Handed(s, s', id, k)
    requires 0 <= x < |s.nodes| && x != id && x != s.nodes[id].status.first && x != s.nodes[id].status.first + 1 && NodeOk(g, t, s, x)
    ensures NodeOk(g, t, s', x)
  {
    HandedOwns(s, s', id, k, x, s.nodes[x].part);
    HandedOwns(s, s', id, k, x, []);
    if s.nodes[x].status.Writing? { HandedWriting(g, t, s, s', id, k, x); }
    if s.nodes[x].status.Split? { HandedHalves(g, t, s, s', x, s.nodes[x].status.first, true); }
  }

  lemma HandedWriting(g: Compressed, t: Kit, s: State, s': State, id: int, k: int, x: int)
    requires Shape(g, s) && PartsApart(g, s) && 0 <= id < |s.nodes| && s.nodes[id].status.Writing? && Handed(s, s', id, k)
    requires 0 <= x < |s.nodes| && x != id && s.nodes[x].status.Writing? && NodeOk(g, t, s, x)
    requires OwnsWithin(s', x, s.nodes[x].part)
    ensures NodeOk(g, t, s', x)
  {
    var nd := s.nodes[x];
    assert NodesApart(g, s.nodes[id], nd);
    HandingKept(s, s', id, k, x, nd.part, nd.status.side, nd.status.first);
    HandedHalves(g, t, s, s', x, nd.status.first, false);
  }

  // Owner writes leave the children as they are.
  lemma HandedHalves(g: Graph, t: Tools, s: State, s': State, x: int, first: int, born: bool)
    requires s'.nodes == s.nodes && Halves(g, t, s, x, first, born)
    ensures Halves(g, t, s', x, first, born)
  {
  }

  lemma HandingKept(s: State, s': State, id: int, k: int, x: int, part: seq<int>, side: seq<int>, first: int)
    requires 0 <= id < |s.nodes| && s.nodes[id].status.Writing? && Handed(s, s', id, k)
    requires Handing(s, x, part, side, first) && s.nodes[id].part[k] !in part
    ensures Handing(s', x, part, side, first)
  {
    forall j | 0 <= j < |part| && 0 <= part[j] < |s.owner|
      ensures s'.owner[part[j]] == s.owner[part[j]]
    {
      assert part[j] in part;
    }
  }

  lemma HandedSelf(g: Compressed, t: Kit, s: State, s': State, id: int, k: int)
    requires Shape(g, s) && 0 <= id < |s.nodes| && s.nodes[id].status.Writing? && Handed(s, s', id, k) && NodeOk(g, t, s, id)
    ensures NodeOk(g, t, s', id)
  {
    HandedHalves(g, t, s, s', id, s.nodes[id].status.first, false);
    PartDistinct(g, s.nodes[id].part);
    HandedTable(s, s', id, k);
  }

  lemma HandedTable(s: State, s': State, id: int, k: int)
    requires 0 <= id < |s.nodes| && s.nodes[id].status.Writing? && Handed(s, s', id, k) && Distinct(s.nodes[id].part)
    ensures OwnsWithin(s, id, s.nodes[id].part) ==> OwnsWithin(s', id, s.nodes[id].part)
    ensures var nd := s.nodes[id];
      Handing(s, id, nd.part, nd.status.side, nd.status.first) ==> Handing(s', id, nd.part, nd.status.side, nd.status.first)
  {
  }

  lemma HandedKid(g: Compressed, t: Kit, s: State, s': State, id: int, k: int, h: int)
    requires Shape(g, s) && 0 <= id < |s.nodes| && s.nodes[id].status.Writing? && Handed(s, s', id, k) && NodeOk(g, t, s, id)
    requires 0 <= h <= 1 && 0 <= s.nodes[id].status.first + h < |s.nodes| && NodeOk(g, t, s, s.nodes[id].status.first + h)
    ensures NodeOk(g, t, s', s.nodes[id].status.first + h)
  {
    var nd := s.nodes[id];
    var x := nd.status.first + h;
    assert s.nodes[x].status.Unborn?;
    HalfHolds(nd.part, nd.status.side, h, nd.part[k]);
    assert OwnsWithin(s', x, s.nodes[x].part);
  }

  lemma OwnKeeps(g: Compressed, t: Kit, s: State, s': State, id: int, k: int)
    requires Inv(g, t, s) && Step(g, t, s, s', Own(id, k))
    ensures Inv(g, t, s')
  {
    assert NodeOk(g, t, s, id);
    OwnHands(g, t, s, s', id, k);
    HandedNodes(g, t, s, s', id, k);
    OwnRest(g, t, s, s', id, k);
  }

  lemma HandedNodes(g: Compressed, t: Kit, s: State, s': State, id: int, k: int)
    requires Shape(g, s) && NodesOk(g, t, s) && PartsApart(g, s)
    requires 0 <= id < |s.nodes| && s.nodes[id].status.Writing? && Handed(s, s', id, k)
    ensures NodesOk(g, t, s')
  {
    assert NodeOk(g, t, s, id);
    var first := s.nodes[id].status.first;
    forall x | 0 <= x < |s'.nodes|
      ensures NodeOk(g, t, s', x)
    {
      if x == id {
        HandedSelf(g, t, s, s', id, k);
      } else if x == first || x == first + 1 {
        HandedKid(g, t, s, s', id, k, x - first);
      } else {
        HandedOther(g, t, s, s', id, k, x);
      }
    }
  }

  lemma OwnRest(g: Compressed, t: Kit, s: State, s': State, id: int, k: int)
    requires Inv(g, t, s) && 0 <= id < |s.nodes| && s.nodes[id].status.Writing? && Handed(s, s', id, k)
    requires s.nodes[id].status.first + 1 < |s.nodes|
    ensures Shape(g, s') && AllHaveParents(s') && PartsApart(g, s') && (s'.failed ==> Doomed(g, t, s'))
  {
    forall p, x ensures ChildOf(s', p, x) <==> ChildOf(s, p, x) {}
    forall x | 0 <= x < |s'.nodes| ensures HasParent(s', x) { ParentKept(s, s', x); }
    if s.failed { DoomedKept(g, t, s, s'); }
  }

  // ---- publishing the halves ----

  ghost predicate Publishing(g: Graph, t: Tools, s: State, id: int, side: seq<int>, first: int) {
    && 0 <= id < |s.nodes| && s.nodes[id].status == Writing(side, first) && id < first && first + 1 < |s.nodes|
    && AllOwned(s, s.nodes[id].part, side, first)
  }

  lemma PublishedSelf(g: Compressed, t: Kit, s: State, id: int, side: seq<int>, first: int)
    requires Shape(g, s) && Publishing(g, t, s, id, side, first) && NodeOk(g, t, s, id)
    ensures NodeOk(g, t, Published(s, id, side, first), id)
  {
    var part, s' := s.nodes[id].part, Published(s, id, side, first);
    CutIsSound(g, t, part, s.nodes[id].depth);
    NoneLeft(s, id, part, side, first);
  }

  // When all entries are handed over nothing is left to the part.
  lemma NoneLeft(s: State, id: int, part: seq<int>, side: seq<int>, first: int)
    requires OwnsWithin(s, id, part) && AllOwned(s, part, side, first) && 0 <= id < first && |side| == |part|
    requires forall k | 0 <= k < |part| :: 0 <= side[k] <= 2
    ensures OwnsWithin(s, id, [])
  {
    forall v | 0 <= v < |s.owner|
      ensures s.owner[v] != id
    {
      if v in part {
        var k :| 0 <= k < |part| && part[k] == v;
        assert s.owner[part[k]] == Target(first, side[k]);
      }
    }
  }

  lemma PublishedKid(g: Compressed, t: Kit, s: State, id: int, side: seq<int>, first: int, h: int)
    requires Shape(g, s) && Publishing(g, t, s, id, side, first) && NodeOk(g, t, s, id)
    requires 0 <= h <= 1 && NodeOk(g, t, s, first + h)
    ensures NodeOk(g, t, Published(s, id, side, first), first + h)
  {
    var part, x := s.nodes[id].part, first + h;
    assert s.nodes[x].status.Unborn?;
    forall v | 0 <= v < |s.owner| && v in s.nodes[x].part
      ensures s.owner[v] == x
    {
      HalfHolds(part, side, h, v);
      var k :| 0 <= k < |part| && part[k] == v && side[k] == h;
      assert s.owner[part[k]] == Target(first, side[k]);
    }
    assert OwnsExactly(Published(s, id, side, first), x, s.nodes[x].part);
  }

  // Another node's children are not the published ones.
  lemma OtherKids(s: State, id: int, first: int, x: int, c: int)
    requires AllHaveParents(s) && ChildOf(s, id, first) && ChildOf(s, id, first + 1) && ChildOf(s, x, c) && x != id
    ensures c != first && c != first + 1
  {
  }

  lemma PublishedHalves(g: Compressed, t: Kit, s: State, id: int, side: seq<int>, first: int, x: int, fx: int, born: bool)
    requires Publishing(g, t, s, id, side, first)
    requires 0 <= x < |s.nodes| && x != id && x != first && x != first + 1 && Halves(g, t, s, x, fx, born)
    requires fx != first && fx != first + 1 && fx + 1 != first
    ensures Halves(g, t, Published(s, id, side, first), x, fx, born)
  {
  }

  lemma PublishedOther(g: Compressed, t: Kit, s: State, id: int, side: seq<int>, first: int, x: int)
    requires Publishing(g, t, s, id, side, first) && AllHaveParents(s)
    requires 0 <= x < |s.nodes| && x != id && x != first && x != first + 1 && NodeOk(g, t, s, x)
    ensures NodeOk(g, t, Published(s, id, side, first), x)
  {
    var s' := Published(s, id, side, first);
    assert s'.nodes[x] == s.nodes[x];
    if s.nodes[x].status.Writing? || s.nodes[x].status.Split? {
      var fx := s.nodes[x].status.first;
      OtherKids(s, id, first, x, fx);
      OtherKids(s, id, first, x, fx + 1);
      PublishedHalves(g, t, s, id, side, first, x, fx, s.nodes[x].status.Split?);
    }
  }

  lemma PublishedNodes(g: Compressed, t: Kit, s: State, id: int, side: seq<int>, first: int)
    requires Shape(g, s) && NodesOk(g, t, s) && AllHaveParents(s) && Publishing(g, t, s, id, side, first)
    ensures NodesOk(g, t, Published(s, id, side, first))
  {
    var s' := Published(s, id, side, first);
    assert NodeOk(g, t, s, id);
    forall x | 0 <= x < |s'.nodes|
      ensures NodeOk(g, t, s', x)
    {
      if x == id {
        PublishedSelf(g, t, s, id, side, first);
      } else if x == first || x == first + 1 {
        PublishedKid(g, t, s, id, side, first, x - first);
      } else {
        PublishedOther(g, t, s, id, side, first, x);
      }
    }
  }

  lemma PublishedShape(g: Compressed, t: Kit, s: State, id: int, side: seq<int>, first: int)
    requires Shape(g, s) && Publishing(g, t, s, id, side, first) && NodeOk(g, t, s, id)
    ensures Shape(g, Published(s, id, side, first))
  {
    assert s.nodes[first].status.Unborn? && s.nodes[first + 1].status.Unborn?;
    PublishedWeights(s, id, side, first);
  }

  lemma PublishedWeights(s: State, id: int, side: seq<int>, first: int)
    requires 0 <= id < first && first + 1 < |s.nodes| && Weight(s.nodes[id].status) == 1
    requires s.nodes[first].status.Unborn? && s.nodes[first + 1].status.Unborn?
    ensures Weights(Published(s, id, side, first).nodes) == Weights(s.nodes) + 1
  {
    var nd, a, b := s.nodes[id], s.nodes[first], s.nodes[first + 1];
    var n1 := s.nodes[id := nd.(status := Split(first, Half(nd.part, side, 2)))];
    var n2 := n1[first := a.(status := Queued)];
    WeightsUpdate(s.nodes, id, n1[id]);
    WeightsUpdate(n1, first, n2[first]);
    WeightsUpdate(n2, first + 1, b.(status := Queued));
  }

  lemma PublishedParents(g: Compressed, t: Kit, s: State, id: int, side: seq<int>, first: int)
    requires AllHaveParents(s) && Publishing(g, t, s, id, side, first) && NodeOk(g, t, s, id)
    ensures AllHaveParents(Published(s, id, side, first))
  {
    assert s.nodes[first].status.Unborn? && s.nodes[first + 1].status.Unborn?;
    forall p, x ensures ChildOf(Published(s, id, side, first), p, x) <==> ChildOf(s, p, x) { SameChildren(s, id, side, first, p, x); }
    SameParents(s, Published(s, id, side, first));
  }

  lemma SameChildren(s: State, id: int, side: seq<int>, first: int, p: int, x: int)
    requires 0 <= id < first && first + 1 < |s.nodes| && s.nodes[id].status == Writing(side, first)
    requires s.nodes[first].status.Unborn? && s.nodes[first + 1].status.Unborn?
    ensures ChildOf(Published(s, id, side, first), p, x) <==> ChildOf(s, p, x)
  {
  }

  lemma SameParents(s: State, s': State)
    requires AllHaveParents(s) && |s'.nodes| == |s.nodes| && forall p, x :: ChildOf(s', p, x) <==> ChildOf(s, p, x)
    ensures AllHaveParents(s')
  {
    forall x | 0 <= x < |s'.nodes| ensures HasParent(s', x) { ParentKept(s, s', x); }
  }

  lemma HalfWithin(g: Compressed, t: Kit, part: seq<int>, depth: int, h: int, v: int)
    requires Part(g, part) && CutOf(g, t, part, depth).Splits? && v in Half(part, CutOf(g, t, part, depth).side, h)
    ensures v in part
  {
    CutIsSound(g, t, part, depth);
    HalfHolds(part, CutOf(g, t, part, depth).side, h, v);
  }

  // A half is apart from whatever its part is apart from.
  lemma HalfApart(g: Compressed, t: Kit, part: seq<int>, depth: int, h: int, other: seq<int>)
    requires Part(g, part) && CutOf(g, t, part, depth).Splits? && Apart(g, part, other) && Apart(g, other, part)
    ensures Apart(g, Half(part, CutOf(g, t, part, depth).side, h), other)
    ensures Apart(g, other, Half(part, CutOf(g, t, part, depth).side, h))
  {
    var half := Half(part, CutOf(g, t, part, depth).side, h);
    forall v | v in half ensures v in part { HalfWithin(g, t, part, depth, h, v); }
  }

  lemma KidApart(g: Compressed, t: Kit, s: State, id: int, first: int, h: int, y: int)
    requires PartsApart(g, s) && 0 <= id < |s.nodes| && s.nodes[id].status.Writing? && Part(g, s.nodes[id].part)
    requires 0 <= y < |s.nodes| && y != id && Live(s.nodes[y].status) && 0 <= first + h < |s.nodes|
    requires CutOf(g, t, s.nodes[id].part, s.nodes[id].depth).Splits?
    requires s.nodes[first + h].part == Half(s.nodes[id].part, CutOf(g, t, s.nodes[id].part, s.nodes[id].depth).side, h)
    ensures Apart(g, s.nodes[first + h].part, s.nodes[y].part) && Apart(g, s.nodes[y].part, s.nodes[first + h].part)
  {
    assert NodesApart(g, s.nodes[id], s.nodes[y]) && NodesApart(g, s.nodes[y], s.nodes[id]);
    HalfApart(g, t, s.nodes[id].part, s.nodes[id].depth, h, s.nodes[y].part);
  }

  lemma PublishedApart(g: Compressed, t: Kit, s: State, id: int, side: seq<int>, first: int)
    requires Shape(g, s) && NodesOk(g, t, s) && PartsApart(g, s) && Publishing(g, t, s, id, side, first)
    ensures PartsApart(g, Published(s, id, side, first))
  {
    var s', nd := Published(s, id, side, first), s.nodes[id];
    assert NodeOk(g, t, s, id);
    HalvesApart(g, t, nd.part, nd.depth);
    forall a, b | 0 <= a < |s'.nodes| && 0 <= b < |s'.nodes| && a != b
      ensures NodesApart(g, s'.nodes[a], s'.nodes[b])
    {
      if Live(s'.nodes[a].status) && Live(s'.nodes[b].status) {
        PairApart(g, t, s, id, side, first, a, b);
      }
    }
  }

  lemma PairApart(g: Compressed, t: Kit, s: State, id: int, side: seq<int>, first: int, a: int, b: int)
    requires PartsApart(g, s) && Publishing(g, t, s, id, side, first) && Part(g, s.nodes[id].part)
    requires CutOf(g, t, s.nodes[id].part, s.nodes[id].depth).Splits?
    requires s.nodes[first].part == Half(s.nodes[id].part, CutOf(g, t, s.nodes[id].part, s.nodes[id].depth).side, 0)
    requires s.nodes[first + 1].part == Half(s.nodes[id].part, CutOf(g, t, s.nodes[id].part, s.nodes[id].depth).side, 1)
    requires Apart(g, s.nodes[first].part, s.nodes[first + 1].part) && Apart(g, s.nodes[first + 1].part, s.nodes[first].part)
    requires 0 <= a < |s.nodes| && 0 <= b < |s.nodes| && a != b && a != id && b != id
    requires (a == first || a == first + 1 || Live(s.nodes[a].status)) && (b == first || b == first + 1 || Live(s.nodes[b].status))
    ensures Apart(g, s.nodes[a].part, s.nodes[b].part)
  {
    var ka, kb := a == first || a == first + 1, b == first || b == first + 1;
    if ka && !kb {
      KidApart(g, t, s, id, first, a - first, b);
    } else if kb && !ka {
      KidApart(g, t, s, id, first, b - first, a);
    } else if !ka && !kb {
      assert NodesApart(g, s.nodes[a], s.nodes[b]);
    }
  }

  lemma PublishKeeps(g: Compressed, t: Kit, s: State, s': State, id: int)
    requires Inv(g, t, s) && Step(g, t, s, s', Publish(id))
    ensures Inv(g, t, s')
  {
    var side, first := s.nodes[id].status.side, s.nodes[id].status.first;
    assert NodeOk(g, t, s, id);
    PublishedShape(g, t, s, id, side, first);
    PublishedNodes(g, t, s, id, side, first);
    PublishedParents(g, t, s, id, side, first);
    PublishedApart(g, t, s, id, side, first);
    if s.failed { PublishedDoomed(g, t, s, id, side, first); }
  }

  lemma PublishedDoomed(g: Compressed, t: Kit, s: State, id: int, side: seq<int>, first: int)
    requires 0 <= id < first && first + 1 < |s.nodes| && Doomed(g, t, s)
    ensures Doomed(g, t, Published(s, id, side, first))
  {
    DoomedKept(g, t, s, Published(s, id, side, first));
  }
}
