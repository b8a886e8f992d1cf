/** Whole runs: whatever the schedule, tasks touch disjoint entries, nothing gets stuck,
    and a finished run has the order of the recursion. */
module DissectionRuns {
  import opened Sequences
  import opened Supervariables
  import opened CompressedGraph
  import opened Dissection
  import opened DissectionTasks
  import opened DissectionSafety
  import opened DissectionSplits

  // ---- runs ----

  lemma StartOk(g: Compressed, t: Kit, s: State)
    requires Start(g, s)
    ensures Inv(g, t, s)
  {
    WholePart(g);
    assert Weights(s.nodes) == 1 by { assert s.nodes[..0] == []; }
    forall v | 0 <= v < |s.owner| ensures v in Whole(g) { assert Whole(g)[v] == v; }
    assert NodeOk(g, t, s, 0);
  }

  lemma RetireOther(g: Compressed, t: Kit, s: State, s': State, x: int)
    requires s' == s.(ending := s.ending - 1, pending := s.pending - 1) && 0 <= x < |s.nodes| && NodeOk(g, t, s, x)
    ensures NodeOk(g, t, s', x)
  {
    if s.nodes[x].status.Writing? { HandedHalves(g, t, s, s', x, s.nodes[x].status.first, false); }
    if s.nodes[x].status.Split? { HandedHalves(g, t, s, s', x, s.nodes[x].status.first, true); }
  }

  lemma RetireKeeps(g: Compressed, t: Kit, s: State, s': State)
    requires Inv(g, t, s) && Step(g, t, s, s', Retire)
    ensures Inv(g, t, s')
  {
    forall x | 0 <= x < |s'.nodes|
      ensures NodeOk(g, t, s', x)
    {
      assert NodeOk(g, t, s, x);
      RetireOther(g, t, s, s', x);
    }
    forall p, x ensures ChildOf(s', p, x) <==> ChildOf(s, p, x) {}
    forall x | 0 <= x < |s'.nodes| ensures HasParent(s', x) { ParentKept(s, s', x); }
    if s.failed { DoomedKept(g, t, s, s'); }
  }

  /** Every step of every task keeps the invariant. */
  lemma StepKeeps(g: Compressed, t: Kit, s: State, s': State, a: Action)
    requires Inv(g, t, s) && Step(g, t, s, s', a)
    ensures Inv(g, t, s')
  {
    match a
    case Take(id) => TakeKeeps(g, t, s, s', id);
    case Look(id) => LookKeeps(g, t, s, s', id);
    case Decide(id) => DecideKeeps(g, t, s, s', id);
    case TakeRun(id, i) => TakeRunKeeps(g, t, s, s', id, i);
    case EndRun(id, i) => EndRunKeeps(g, t, s, s', id, i);
    case Allocate(id) => AllocateKeeps(g, t, s, s', id);
    case Own(id, k) => OwnKeeps(g, t, s, s', id, k);
    case Publish(id) => PublishKeeps(g, t, s, s', id);
    case Retire => RetireKeeps(g, t, s, s');
  }

  // A run: one enabled step after the other, in any order.
  ghost predicate IsRun(g: Graph, t: Tools, states: seq<State>, acts: seq<Action>) {
    && |states| == |acts| + 1 && Start(g, states[0])
    && forall i | 0 <= i < |acts| :: Step(g, t, states[i], states[i + 1], acts[i])
  }

  lemma {:induction false} RunKeeps(g: Compressed, t: Kit, states: seq<State>, acts: seq<Action>)
    requires IsRun(g, t, states, acts)
    ensures Inv(g, t, states[|acts|])
    decreases |acts|
  {
    var m := |acts| - 1;
    if m < 0 {
      StartOk(g, t, states[0]);
    } else {
      assert IsRun(g, t, states[..m + 1], acts[..m]);
      RunKeeps(g, t, states[..m + 1], acts[..m]);
      StepKeeps(g, t, states[m], states[m + 1], acts[m]);
    }
  }

  // ---- no two tasks meet ----

  /** Two live parts: what one task writes (owners and local indices of its own part) the
      other neither writes nor reads, when it scans the references of its own cells. */
  lemma TasksDisjoint(g: Compressed, t: Kit, s: State, a: int, b: int, v: int, fine: bool, c: int, p: int)
    requires Inv(g, t, s) && 0 <= a < |s.nodes| && 0 <= b < |s.nodes| && a != b
    requires Live(s.nodes[a].status) && Live(s.nodes[b].status) && v in s.nodes[a].part
    requires c in Cells(g, s.nodes[b].part, fine) && 0 <= p < |Refs(g, fine, c)|
    ensures v !in s.nodes[b].part
    ensures SuperOf(g, fine, c) != v && SuperOf(g, fine, Refs(g, fine, c)[p]) != v
  {
    assert NodesApart(g, s.nodes[a], s.nodes[b]) && NodesApart(g, s.nodes[b], s.nodes[a]);
    assert NodeOk(g, t, s, b);
    ReadsStay(g, s.nodes[b].part, fine, c, p);
  }

  // A reference leads into the part or along an edge of the compressed graph.
  lemma ReadsStay(g: Compressed, part: seq<int>, fine: bool, c: int, p: int)
    requires Part(g, part) && c in Cells(g, part, fine) && 0 <= p < |Refs(g, fine, c)|
    ensures var x, y := SuperOf(g, fine, c), SuperOf(g, fine, Refs(g, fine, c)[p]);
      0 <= x < |g.crows| && x in part && (y == x || y in g.crows[x])
  {
    CellInside(g, part, fine, c);
    if fine { VertexFacts(g, c); assert g.Linked(c, g.rows[c][p]); }
  }

  // ---- nothing gets stuck ----

  ghost predicate CanStep(g: Graph, t: Tools, s: State) {
    exists a, s' :: Step(g, t, s, s', a)
  }

  lemma {:induction false} HeavyNode(nodes: seq<Node>) returns (id: int)
    requires Weights(nodes) > 0
    ensures 0 <= id < |nodes| && Weight(nodes[id].status) > 0
    decreases |nodes|
  {
    if Weight(nodes[|nodes| - 1].status) > 0 { id := |nodes| - 1; } else { id := HeavyNode(nodes[..|nodes| - 1]); }
  }

  lemma {:induction false} BusyRun(runs: seq<Run>) returns (i: int)
    requires Busy(runs) > 0
    ensures 0 <= i < |runs| && (runs[i].Waits? || runs[i].Goes?)
    decreases |runs|
  {
    var last := runs[|runs| - 1];
    if last.Waits? || last.Goes? { i := |runs| - 1; } else { i := BusyRun(runs[..|runs| - 1]); }
  }

  lemma ReadingCanStep(g: Compressed, t: Kit, s: State, id: int)
    requires Shape(g, s) && 0 <= id < |s.nodes| && s.nodes[id].status.Reading? && NodeOk(g, t, s, id)
    ensures CanStep(g, t, s)
  {
    var nd := s.nodes[id];
    var tries, sc, part := nd.status.tries, nd.status.scan, nd.part;
    var fine := IsFine(t, part, tries);
    var cells := Cells(g, part, fine);
    if sc.k == |cells| {
      assert Step(g, t, s, Decided(g, t, s, id, tries, sc.rows), Decide(id));
    } else {
      LookEnabled(g, t, s, id, tries, sc);
      var next := Looked(g, t, s, id, tries, sc);
      assert Step(g, t, s, next.value, Look(id));
    }
  }

  lemma LookEnabled(g: Compressed, t: Kit, s: State, id: int, tries: bool, sc: Scan)
    requires Shape(g, s) && 0 <= id < |s.nodes| && ReadingOk(g, t, s, id, tries, sc)
    requires sc.k < |Cells(g, s.nodes[id].part, IsFine(t, s.nodes[id].part, tries))|
    ensures Looked(g, t, s, id, tries, sc).Some?
  {
    var part := s.nodes[id].part;
    var fine := IsFine(t, part, tries);
    var cells := Cells(g, part, fine);
    if sc.put < |cells| {
      CellInside(g, part, fine, cells[sc.put]);
    } else if sc.p < |Refs(g, fine, cells[sc.k])| {
      RefsInside(g, fine, cells[sc.k], sc.p);
    }
  }

  lemma WritingCanStep(g: Compressed, t: Kit, s: State, id: int)
    requires Shape(g, s) && 0 <= id < |s.nodes| && s.nodes[id].status.Writing? && NodeOk(g, t, s, id)
    ensures CanStep(g, t, s)
  {
    var part, side, first := s.nodes[id].part, s.nodes[id].status.side, s.nodes[id].status.first;
    if AllOwned(s, part, side, first) {
      assert Step(g, t, s, Published(s, id, side, first), Publish(id));
    } else {
      var k :| 0 <= k < |part| && k < |side| && 0 <= part[k] < |s.owner| && s.owner[part[k]] != Target(first, side[k]);
      assert Step(g, t, s, s.(owner := s.owner[part[k] := Target(first, side[k])]), Own(id, k));
    }
  }

  lemma SeparatingCanStep(g: Compressed, t: Kit, s: State, id: int)
    requires 0 <= id < |s.nodes| && s.nodes[id].status.Separating? && Busy(s.nodes[id].status.runs) > 0 && !s.failed
    ensures CanStep(g, t, s)
  {
    var st := s.nodes[id].status;
    var i := BusyRun(st.runs);
    if st.runs[i].Waits? {
      assert Step(g, t, s, With(s, id, st.(runs := st.runs[i := Goes])), TakeRun(id, i));
    } else {
      assert Step(g, t, s, Ended(g, t, s, id, i, st.local, st.runs, st.left), EndRun(id, i));
    }
  }

  /** As long as tasks are pending and none failed, some step is enabled. */
  lemma NeverStuck(g: Compressed, t: Kit, s: State)
    requires Inv(g, t, s) && s.pending > 0 && !s.failed
    ensures CanStep(g, t, s)
  {
    if s.ending > 0 {
      assert Step(g, t, s, s.(ending := s.ending - 1, pending := s.pending - 1), Retire);
    } else {
      var id := HeavyNode(s.nodes);
      assert NodeOk(g, t, s, id);
      var nd := s.nodes[id];
      match nd.status
      case Queued =>
        var tries := Tries(t, nd.part, nd.depth);
        assert Step(g, t, s, With(s, id, Reading(tries, Begin(g, id, nd.part, tries))), Take(id));
      case Reading(_, _) => ReadingCanStep(g, t, s, id);
      case Separating(_, _, _) => SeparatingCanStep(g, t, s, id);
      case Parting(side) => assert Step(g, t, s, Allocated(s, id, side), Allocate(id));
      case Writing(_, _) => WritingCanStep(g, t, s, id);
    }
  }

  // ---- finished runs ----

  // Every node is an ordered leaf or split, with its children behind it.
  predicate Settled(nodes: seq<Node>) {
    forall id | 0 <= id < |nodes| ::
      nodes[id].status.Leaf? || (nodes[id].status.Split? && id < nodes[id].status.first && nodes[id].status.first + 1 < |nodes|)
  }

  // Children before their separator.
  function Emitted(g: Graph, nodes: seq<Node>, id: int): seq<int>
    requires Settled(nodes) && 0 <= id < |nodes|
    decreases |nodes| - id
  {
    match nodes[id].status
    case Leaf(order) => order
    case Split(first, sep) => Emitted(g, nodes, first) + Emitted(g, nodes, first + 1) + Originals(g, sep)
  }

  lemma SettledAt(g: Compressed, t: Kit, s: State, id: int)
    requires Inv(g, t, s) && s.pending == 0 && !s.failed && 0 <= id < |s.nodes|
    ensures s.nodes[id].status.Leaf? || s.nodes[id].status.Split?
  {
    assert NodeOk(g, t, s, id);
    WeightAtMost(s.nodes, id);
    match s.nodes[id].status
    case Unborn =>
      assert HasParent(s, id);
      var p :| 0 <= p < id && ChildOf(s, p, id);
      assert NodeOk(g, t, s, p);
      WeightAtMost(s.nodes, p);
      KidsBorn(g, t, s, p, id);
    case Separating(_, runs, left) => BusyLeft(runs);
    case _ =>
  }

  // The children of a split node are born.
  lemma KidsBorn(g: Compressed, t: Kit, s: State, p: int, id: int)
    requires ChildOf(s, p, id) && NodeOk(g, t, s, p)
    ensures p < id < |s.nodes| && (s.nodes[p].status.Split? ==> !s.nodes[id].status.Unborn?)
  {
    assert id == s.nodes[p].status.first || id == s.nodes[p].status.first + 1;
  }

  lemma FinishedSettled(g: Compressed, t: Kit, s: State)
    requires Inv(g, t, s) && s.pending == 0 && !s.failed
    ensures Settled(s.nodes)
  {
    forall id | 0 <= id < |s.nodes|
      ensures s.nodes[id].status.Leaf? || (s.nodes[id].status.Split? && id < s.nodes[id].status.first && s.nodes[id].status.first + 1 < |s.nodes|)
    {
      SettledAt(g, t, s, id);
      assert NodeOk(g, t, s, id);
    }
  }

  // The children of a node carry its halves.
  ghost predicate Carries(g: Graph, t: Tools, s: State, id: int, first: int) {
    && 0 <= id < first && first + 1 < |s.nodes|
    && var nd := s.nodes[id]; var cut := CutOf(g, t, nd.part, nd.depth);
    && cut.Splits?
    && s.nodes[first].part == Half(nd.part, cut.side, 0) && s.nodes[first].depth == nd.depth + 1
    && s.nodes[first + 1].part == Half(nd.part, cut.side, 1) && s.nodes[first + 1].depth == nd.depth + 1
    && (nd.status.Split? ==> nd.status.sep == Half(nd.part, cut.side, 2))
  }

  lemma KidsCarryHalves(g: Graph, t: Tools, s: State, id: int)
    requires 0 <= id < |s.nodes| && NodeOk(g, t, s, id) && (s.nodes[id].status.Split? || s.nodes[id].status.Writing?)
    ensures Carries(g, t, s, id, s.nodes[id].status.first)
  {
  }

  function Ordered(g: Graph, t: Tools, nd: Node): Option<seq<int>> { Dissect(g, t, nd.part, nd.depth) }

  // A node's order comes from its children's.
  lemma KidsOrder(g: Graph, t: Tools, s: State, id: int, first: int)
    requires Carries(g, t, s, id, first)
    ensures var a, b := Ordered(g, t, s.nodes[first]), Ordered(g, t, s.nodes[first + 1]);
      && (a.None? || b.None? ==> Ordered(g, t, s.nodes[id]) == None)
      && (s.nodes[id].status.Split? && a.Some? && b.Some? ==>
            Ordered(g, t, s.nodes[id]) == Some(a.value + b.value + Originals(g, s.nodes[id].status.sep)))
  {
    DissectSplits(g, t, s.nodes[id].part, s.nodes[id].depth);
  }

  // Orders of all nodes.
  function Orders(g: Graph, t: Tools, nodes: seq<Node>): (r: seq<Option<seq<int>>>)
    ensures |r| == |nodes| && forall id | 0 <= id < |nodes| :: r[id] == Ordered(g, t, nodes[id])
  {
    seq(|nodes|, id requires 0 <= id < |nodes| => Ordered(g, t, nodes[id]))
  }

  // A leaf's order is its own, a split or splitting node's comes from its children's.
  ghost predicate AddsUp(g: Graph, nodes: seq<Node>, ord: seq<Option<seq<int>>>, id: int)
    requires 0 <= id < |nodes| == |ord|
  {
    match nodes[id].status
    case Leaf(order) => ord[id] == Some(order)
    case Split(first, sep) =>
      && id < first && first + 1 < |nodes|
      && ord[id] == (if ord[first].None? || ord[first + 1].None? then None
                     else Some(ord[first].value + ord[first + 1].value + Originals(g, sep)))
    case Writing(_, first) => id < first && first + 1 < |nodes| && (ord[first].None? || ord[first + 1].None? ==> ord[id].None?)
    case _ => true
  }

  ghost predicate AllAddUp(g: Graph, nodes: seq<Node>, ord: seq<Option<seq<int>>>)
    requires |nodes| == |ord|
  {
    forall id | 0 <= id < |nodes| :: AddsUp(g, nodes, ord, id)
  }

  lemma LeafOrdered(g: Graph, t: Tools, s: State, id: int)
    requires 0 <= id < |s.nodes| && NodeOk(g, t, s, id) && s.nodes[id].status.Leaf?
    ensures Ordered(g, t, s.nodes[id]) == Some(s.nodes[id].status.order)
  {
  }

  lemma KidsAddUp(g: Graph, t: Tools, s: State, id: int, first: int)
    requires Carries(g, t, s, id, first) && (s.nodes[id].status.Split? || s.nodes[id].status.Writing?)
    requires s.nodes[id].status.first == first
    ensures AddsUp(g, s.nodes, Orders(g, t, s.nodes), id)
  {
    KidsOrder(g, t, s, id, first);
    KidsSum(g, s.nodes, Orders(g, t, s.nodes), id, first);
  }

  lemma KidsSum(g: Graph, nodes: seq<Node>, ord: seq<Option<seq<int>>>, id: int, first: int)
    requires 0 <= id < first && first + 1 < |nodes| == |ord|
    requires (nodes[id].status.Split? || nodes[id].status.Writing?) && nodes[id].status.first == first
    requires ord[first].None? || ord[first + 1].None? ==> ord[id] == None
    requires nodes[id].status.Split? && ord[first].Some? && ord[first + 1].Some? ==>
               ord[id] == Some(ord[first].value + ord[first + 1].value + Originals(g, nodes[id].status.sep))
    ensures AddsUp(g, nodes, ord, id)
  {
  }

  lemma OrdersAddUp(g: Compressed, t: Kit, s: State)
    requires NodesOk(g, t, s)
    ensures AllAddUp(g, s.nodes, Orders(g, t, s.nodes))
  {
    forall id | 0 <= id < |s.nodes|
      ensures AddsUp(g, s.nodes, Orders(g, t, s.nodes), id)
    {
      assert NodeOk(g, t, s, id);
      if s.nodes[id].status.Leaf? { LeafOrdered(g, t, s, id); }
      if s.nodes[id].status.Split? || s.nodes[id].status.Writing? {
        KidsCarryHalves(g, t, s, id);
        KidsAddUp(g, t, s, id, s.nodes[id].status.first);
      }
    }
  }

  // A settled node emits its order.
  lemma {:induction false} EmitsOrder(g: Graph, nodes: seq<Node>, ord: seq<Option<seq<int>>>, id: int)
    requires Settled(nodes) && 0 <= id < |nodes| == |ord| && AllAddUp(g, nodes, ord)
    ensures ord[id] == Some(Emitted(g, nodes, id))
    decreases |nodes| - id
  {
    assert AddsUp(g, nodes, ord, id);
    if nodes[id].status.Split? {
      EmitsOrder(g, nodes, ord, nodes[id].status.first);
      EmitsOrder(g, nodes, ord, nodes[id].status.first + 1);
    }
  }

  // ---- failure ----

  // When a node's part cannot be ordered neither can its parent's, up to the root.
  lemma {:induction false} DoomReachesRoot(g: Graph, s: State, ord: seq<Option<seq<int>>>, id: int)
    requires |ord| == |s.nodes| && AllAddUp(g, s.nodes, ord) && AllHaveParents(s) && 0 <= id < |s.nodes| && ord[id].None?
    ensures ord[0].None?
    decreases id
  {
    if id > 0 {
      assert HasParent(s, id);
      var p :| 0 <= p < id && ChildOf(s, p, id);
      assert AddsUp(g, s.nodes, ord, p);
      DoomReachesRoot(g, s, ord, p);
    }
  }

  /** Whatever the schedule and however many threads: a run that ends without a failure has
      the recursion's order, a permutation of the vertices; a run in which a task failed is
      one whose recursion fails. */
  lemma OutcomeIsScheduleFree(g: Compressed, t: Kit, states: seq<State>, acts: seq<Action>)
    requires IsRun(g, t, states, acts)
    ensures var s := states[|acts|];
      && (s.failed ==> Dissect(g, t, Whole(g), 0) == None)
      && (s.pending == 0 && !s.failed ==>
            && Settled(s.nodes) && |s.nodes| > 0
            && Dissect(g, t, Whole(g), 0) == Some(Emitted(g, s.nodes, 0))
            && Permutes(Emitted(g, s.nodes, 0), |g.rows|))
  {
    var s := states[|acts|];
    RunKeeps(g, t, states, acts);
    var ord := Orders(g, t, s.nodes);
    OrdersAddUp(g, t, s);
    if s.failed {
      var id :| 0 <= id < |s.nodes| && Dissect(g, t, s.nodes[id].part, s.nodes[id].depth) == None;
      assert ord[id] == Ordered(g, t, s.nodes[id]);
      DoomReachesRoot(g, s, ord, id);
    } else if s.pending == 0 {
      FinishedSettled(g, t, s);
      EmitsOrder(g, s.nodes, ord, 0);
      DissectPermutes(g, t);
    }
    assert ord[0] == Dissect(g, t, Whole(g), 0);
  }

  // ---- writing the permutation ----

  method PutAll(perm: array<int>, pos: int, order: seq<int>) returns (end: int)
    requires 0 <= pos && pos + |order| <= perm.Length
    modifies perm
    ensures end == pos + |order| && perm[..end] == old(perm[..pos]) + order
  {
    end := pos;
    for i := 0 to |order|
      invariant end == pos + i && perm[..end] == old(perm[..pos]) + order[..i]
    {
      perm[end] := order[i];
      end := end + 1;
      assert order[..i + 1] == order[..i] + [order[i]];
    }
    assert order[..|order|] == order;
  }

  method Emit(g: Graph, nodes: seq<Node>, id: int, perm: array<int>, pos: int) returns (end: int)
    requires Settled(nodes) && 0 <= id < |nodes| && 0 <= pos && pos + |Emitted(g, nodes, id)| <= perm.Length
    modifies perm
    ensures end == pos + |Emitted(g, nodes, id)| && perm[..end] == old(perm[..pos]) + Emitted(g, nodes, id)
    decreases |nodes| - id
  {
    match nodes[id].status
    case Leaf(order) => end := PutAll(perm, pos, order);
    case Split(first, sep) =>
      end := Emit(g, nodes, first, perm, pos);
      end := Emit(g, nodes, first + 1, perm, end);
      end := PutAll(perm, end, Originals(g, sep));
  }

  /** The permutation a finished run leaves, and whether it is complete. */
  method EmitOrder(g: Compressed, t: Kit, nodes: seq<Node>, perm: array<int>, ghost states: seq<State>, ghost acts: seq<Action>)
      returns (complete: bool)
    requires IsRun(g, t, states, acts) && nodes == states[|acts|].nodes
    requires states[|acts|].pending == 0 && !states[|acts|].failed && perm.Length == |g.rows|
    modifies perm
    ensures complete && Permutes(perm[..], |g.rows|) && Dissect(g, t, Whole(g), 0) == Some(perm[..])
  {
    OutcomeIsScheduleFree(g, t, states, acts);
    var end := Emit(g, nodes, 0, perm, 0);
    complete := end == |g.rows|;
    assert perm[..] == perm[..end];
  }
}
