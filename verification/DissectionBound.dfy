/** Every schedule of the tasks is finite: a bound on its steps that depends on the graph and
    the tools alone, and a finished run behind every unfinished one. */
module DissectionBound {
  import opened Sequences
  import opened Supervariables
  import opened CompressedGraph
  import opened Dissection
  import opened DissectionTasks
  import opened DissectionSafety
  import opened DissectionRuns

  // ---- steps of one part ----

  // Looks of the cells from k on: their references, and one to close each row.
  function LooksFrom(g: Graph, cells: seq<int>, fine: bool, k: int): (n: int)
    requires 0 <= k
    ensures n >= 0
    decreases |cells| - k
  {
    if k >= |cells| then 0 else |Refs(g, fine, cells[k])| + 1 + LooksFrom(g, cells, fine, k + 1)
  }

  // Steps of a scan that is at sc.
  function ScanLeft(g: Graph, cells: seq<int>, fine: bool, sc: Scan): int {
    if 0 <= sc.k < |cells| then |cells| - sc.put + LooksFrom(g, cells, fine, sc.k) - sc.p else 0
  }

  function ReadCost(g: Graph, part: seq<int>, fine: bool): int {
    ScanLeft(g, Cells(g, part, fine), fine, FRESH)
  }

  // Reading a leaf, ordering it, and leaving.
  function LeafCost(g: Graph, t: Tools, part: seq<int>): int {
    ReadCost(g, part, Fine(t, part)) + 2
  }

  // Every run is taken, ended and left; so is the step that queued them.
  function RunsCost(plan: Plan): int {
    if plan.Later? then 3 * |plan.runs| + 1 else 0
  }

  function PlanOf(g: Graph, t: Tools, part: seq<int>, depth: int): Plan {
    t.bisect(Local(g, part, false), LocalWeights(g, part), depth)
  }

  /** Steps that a part and all parts below it can take. */
  function Work(g: Graph, t: Tools, part: seq<int>, depth: int): int
    decreases t.levels - depth, 1
  {
    if Tries(t, part, depth)
    then ReadCost(g, part, false) + 2 + RunsCost(PlanOf(g, t, part, depth)) + CutCost(g, t, part, depth)
    else LeafCost(g, t, part) + 1
  }

  // What is left once the cut is known.
  function CutCost(g: Graph, t: Tools, part: seq<int>, depth: int): int
    decreases t.levels - depth, 0
  {
    match CutOf(g, t, part, depth)
    case Fails => 1
    case Stays => LeafCost(g, t, part)
    case Splits(side) =>
      3 + |part| + Work(g, t, Half(part, side, 0), depth + 1) + Work(g, t, Half(part, side, 1), depth + 1)
  }

  // ---- steps left to a node ----

  function RunLeft(r: Run): int {
    match r
    case Waits => 3
    case Goes => 2
    case Over | Broken => 0
  }

  function RunsLeft(runs: seq<Run>): int {
    if |runs| == 0 then 0 else RunsLeft(runs[..|runs| - 1]) + RunLeft(runs[|runs| - 1])
  }

  // Owners of the first k members still to be written.
  function ToOwn(owner: seq<int>, part: seq<int>, side: seq<int>, first: int, k: int): (n: int)
    requires k <= |part| && k <= |side|
    ensures 0 <= n && (k >= 0 ==> n <= k)
    decreases k
  {
    if k <= 0 then 0
    else
      var v := part[k - 1];
      ToOwn(owner, part, side, first, k - 1) + (if 0 <= v < |owner| && owner[v] != Target(first, side[k - 1]) then 1 else 0)
  }

  function OwnsLeft(owner: seq<int>, part: seq<int>, side: seq<int>, first: int): (n: int)
    ensures 0 <= n <= |part|
  {
    if |side| == |part| then ToOwn(owner, part, side, first, |part|) else 0
  }

  function Left(g: Graph, t: Tools, nd: Node, owner: seq<int>): int {
    match nd.status
    case Unborn | Queued => Work(g, t, nd.part, nd.depth)
    case Reading(tries, sc) =>
      var fine := IsFine(t, nd.part, tries);
      ScanLeft(g, Cells(g, nd.part, fine), fine, sc)
      + (if tries then 1 + RunsCost(PlanOf(g, t, nd.part, nd.depth)) + CutCost(g, t, nd.part, nd.depth) else 2)
    case Separating(_, runs, _) => RunsLeft(runs) + CutCost(g, t, nd.part, nd.depth)
    case Parting(_) => CutCost(g, t, nd.part, nd.depth)
    case Writing(side, first) => OwnsLeft(owner, nd.part, side, first) + 2
    case Leaf(_) | Split(_, _) | Failed => 0
  }

  function Lefts(g: Graph, t: Tools, s: State): (r: seq<int>)
    ensures |r| == |s.nodes| && forall id | 0 <= id < |s.nodes| :: r[id] == Left(g, t, s.nodes[id], s.owner)
  {
    seq(|s.nodes|, id requires 0 <= id < |s.nodes| => Left(g, t, s.nodes[id], s.owner))
  }

  // Steps left to all nodes, and the tasks that have yet to leave.
  function Measure(g: Graph, t: Tools, s: State): int {
    Sum(Lefts(g, t, s)) + s.ending
  }

  lemma {:induction false} SumChange(a: seq<int>, b: seq<int>, id: int)
    requires |a| == |b| && 0 <= id < |a| && forall x | 0 <= x < |a| && x != id :: b[x] == a[x]
    ensures Sum(b) == Sum(a) - a[id] + b[id]
    decreases |a|
  {
    var last := |a| - 1;
    if id < last {
      SumChange(a[..last], b[..last], id);
    } else {
      assert a[..last] == b[..last];
    }
  }

  lemma {:induction false} SumPositive(a: seq<int>)
    requires forall x | 0 <= x < |a| :: a[x] >= 0
    ensures Sum(a) >= 0
    decreases |a|
  {
    if |a| > 0 { SumPositive(a[..|a| - 1]); }
  }

  // ---- never negative ----

  lemma ReadCostPositive(g: Graph, part: seq<int>, fine: bool)
    ensures ReadCost(g, part, fine) >= 0
  {
  }

  lemma {:induction false} WorkPositive(g: Graph, t: Tools, part: seq<int>, depth: int)
    ensures Work(g, t, part, depth) >= 0 && CutCost(g, t, part, depth) >= 0
    decreases t.levels - depth
  {
    ReadCostPositive(g, part, false);
    ReadCostPositive(g, part, Fine(t, part));
    var cut := CutOf(g, t, part, depth);
    if cut.Splits? {
      WorkPositive(g, t, Half(part, cut.side, 0), depth + 1);
      WorkPositive(g, t, Half(part, cut.side, 1), depth + 1);
    }
  }

  lemma {:induction false} RunsLeftPositive(runs: seq<Run>)
    ensures RunsLeft(runs) >= 0
    decreases |runs|
  {
    if |runs| > 0 { RunsLeftPositive(runs[..|runs| - 1]); }
  }

  lemma ScanLeftPositive(g: Graph, part: seq<int>, fine: bool, sc: Scan, table: seq<int>)
    requires ScanOk(g, part, fine, sc, table)
    ensures ScanLeft(g, Cells(g, part, fine), fine, sc) >= 0
  {
  }

  lemma LeftPositive(g: Graph, t: Tools, s: State, id: int)
    requires 0 <= id < |s.nodes| && NodeOk(g, t, s, id)
    ensures Left(g, t, s.nodes[id], s.owner) >= 0
  {
    var nd := s.nodes[id];
    WorkPositive(g, t, nd.part, nd.depth);
    match nd.status
    case Reading(tries, sc) => ScanLeftPositive(g, nd.part, IsFine(t, nd.part, tries), sc, Table(s, IsFine(t, nd.part, tries)));
    case Separating(_, runs, _) => RunsLeftPositive(runs);
    case _ =>
  }

  lemma MeasurePositive(g: Graph, t: Tools, s: State)
    requires Inv(g, t, s)
    ensures Measure(g, t, s) >= 0
  {
    forall id | 0 <= id < |s.nodes| ensures Lefts(g, t, s)[id] >= 0 {
      assert NodeOk(g, t, s, id);
      LeftPositive(g, t, s, id);
    }
    SumPositive(Lefts(g, t, s));
  }

  // ---- every step spends ----

  // One node's steps and the tasks to leave: together less than before.
  lemma OneSpends(g: Graph, t: Tools, s: State, s': State, id: int)
    requires 0 <= id < |s.nodes| == |s'.nodes| && s'.owner == s.owner
    requires forall x | 0 <= x < |s.nodes| && x != id :: s'.nodes[x] == s.nodes[x]
    requires Left(g, t, s'.nodes[id], s.owner) + s'.ending < Left(g, t, s.nodes[id], s.owner) + s.ending
    ensures Measure(g, t, s') < Measure(g, t, s)
  {
    SumChange(Lefts(g, t, s), Lefts(g, t, s'), id);
  }

  lemma TakeSpends(g: Graph, t: Tools, s: State, s': State, id: int)
    requires Step(g, t, s, s', Take(id))
    ensures Measure(g, t, s') < Measure(g, t, s)
  {
    var nd := s.nodes[id];
    var tries := Tries(t, nd.part, nd.depth);
    ReadCostPositive(g, nd.part, IsFine(t, nd.part, tries));
    OneSpends(g, t, s, s', id);
  }

  // A look shortens the scan by one.
  lemma ScanShrinks(g: Graph, s: State, id: int, part: seq<int>, fine: bool, sc: Scan, table: seq<int>)
    requires ScanOk(g, part, fine, sc, table) && sc.put == |Cells(g, part, fine)| && 0 <= sc.k < sc.put
    requires Onward(g, s, id, part, fine, sc) != sc
    ensures var cells := Cells(g, part, fine); ScanLeft(g, cells, fine, Onward(g, s, id, part, fine, sc)) < ScanLeft(g, cells, fine, sc)
  {
  }

  // What a look leaves of the node it reads for.
  lemma LookedLeft(g: Graph, t: Tools, s: State, s': State, id: int, tries: bool, sc: Scan)
    requires 0 <= id < |s.nodes| && s.nodes[id].status == Reading(tries, sc) && ReadingOk(g, t, s, id, tries, sc)
    requires Looked(g, t, s, id, tries, sc) == Some(s') && |s.owner| == |s.loc|
    ensures |s'.nodes| == |s.nodes| && s'.owner == s.owner && s'.ending == s.ending
    ensures forall x | 0 <= x < |s.nodes| && x != id :: s'.nodes[x] == s.nodes[x]
    ensures Left(g, t, s'.nodes[id], s.owner) < Left(g, t, s.nodes[id], s.owner)
  {
    var part := s.nodes[id].part;
    var fine := IsFine(t, part, tries);
    if sc.put == |Cells(g, part, fine)| {
      LookedIsOnward(g, t, s, s', id, tries, sc);
      ScanShrinks(g, s, id, part, fine, sc, Table(s, fine));
    } else {
      PutShrinks(g, part, fine, sc);
    }
  }

  lemma PutShrinks(g: Graph, part: seq<int>, fine: bool, sc: Scan)
    requires sc.k == 0 && sc.put < |Cells(g, part, fine)| && sc.put >= 0
    ensures var cells := Cells(g, part, fine); ScanLeft(g, cells, fine, sc.(put := sc.put + 1)) < ScanLeft(g, cells, fine, sc)
  {
  }

  lemma LookSpends(g: Graph, t: Tools, s: State, s': State, id: int)
    requires Inv(g, t, s) && Step(g, t, s, s', Look(id))
    ensures Measure(g, t, s') < Measure(g, t, s)
  {
    assert NodeOk(g, t, s, id);
    ReadingIs(g, t, s, id);
    LookedLeft(g, t, s, s', id, s.nodes[id].status.tries, s.nodes[id].status.scan);
    OneSpends(g, t, s, s', id);
  }

  // A cut applied leaves what was counted for it.
  lemma AppliedLeft(g: Graph, t: Tools, s: State, id: int, cut: Cut)
    requires 0 <= id < |s.nodes| && CutOf(g, t, s.nodes[id].part, s.nodes[id].depth) == cut
    ensures var s' := Applied(s, id, cut); var nd := s.nodes[id];
      Left(g, t, s'.nodes[id], s.owner) + s'.ending == s.ending + CutCost(g, t, nd.part, nd.depth)
  {
  }

  lemma {:induction false} WaitingLeft(m: nat)
    ensures RunsLeft(seq(m, i => Waits)) == 3 * m
    decreases m
  {
    if m > 0 {
      WaitingLeft(m - 1);
      assert seq(m, i => Waits)[..m - 1] == seq(m - 1, i => Waits);
    }
  }

  // A read part of known cells: nothing of the scan is left.
  lemma DecidedLeft(g: Graph, t: Tools, s: State, id: int, tries: bool, sc: Scan)
    requires 0 <= id < |s.nodes| && s.nodes[id].status == Reading(tries, sc) && ReadingOk(g, t, s, id, tries, sc)
    requires sc.k == |Cells(g, s.nodes[id].part, IsFine(t, s.nodes[id].part, tries))|
    ensures var s' := Decided(g, t, s, id, tries, sc.rows);
      Left(g, t, s'.nodes[id], s.owner) + s'.ending < Left(g, t, s.nodes[id], s.owner) + s.ending
  {
    var nd := s.nodes[id];
    if tries {
      match PlanOf(g, t, nd.part, nd.depth)
      case Now(cut) => AppliedLeft(g, t, s, id, cut);
      case Later(runs, _) => WaitingLeft(|runs|);
    }
  }

  lemma DecideSpends(g: Graph, t: Tools, s: State, s': State, id: int)
    requires NodesOk(g, t, s) && Step(g, t, s, s', Decide(id))
    ensures Measure(g, t, s') < Measure(g, t, s)
  {
    assert NodeOk(g, t, s, id);
    ReadingIs(g, t, s, id);
    DecidedLeft(g, t, s, id, s.nodes[id].status.tries, s.nodes[id].status.scan);
    OneSpends(g, t, s, s', id);
  }

  lemma {:induction false} RunsChange(runs: seq<Run>, i: int, r: Run)
    requires 0 <= i < |runs|
    ensures RunsLeft(runs[i := r]) == RunsLeft(runs) - RunLeft(runs[i]) + RunLeft(r)
    decreases |runs|
  {
    var last := |runs| - 1;
    if i < last {
      assert runs[i := r][..last] == runs[..last][i := r];
      RunsChange(runs[..last], i, r);
    } else {
      assert runs[i := r][..last] == runs[..last];
    }
  }

  lemma {:induction false} RunCounts(runs: seq<Run>, i: int)
    requires 0 <= i < |runs|
    ensures RunsLeft(runs) >= RunLeft(runs[i])
    decreases |runs|
  {
    RunsLeftPositive(runs[..|runs| - 1]);
    if i < |runs| - 1 { RunCounts(runs[..|runs| - 1], i); }
  }

  lemma TakeRunSpends(g: Graph, t: Tools, s: State, s': State, id: int, i: int)
    requires Step(g, t, s, s', TakeRun(id, i))
    ensures Measure(g, t, s') < Measure(g, t, s)
  {
    RunsChange(s.nodes[id].status.runs, i, Goes);
    OneSpends(g, t, s, s', id);
  }

  lemma EndedLeft(g: Graph, t: Tools, s: State, id: int, i: int, local: seq<seq<int>>, runs: seq<Run>, left: int)
    requires 0 <= id < |s.nodes| && s.nodes[id].status == Separating(local, runs, left)
    requires SeparatingOk(g, t, s, id, local, runs, left) && 0 <= i < |runs| && runs[i].Goes?
    ensures var s' := Ended(g, t, s, id, i, local, runs, left);
      Left(g, t, s'.nodes[id], s.owner) + s'.ending < Left(g, t, s.nodes[id], s.owner) + s.ending
  {
    var nd := s.nodes[id];
    var plan := PlanOf(g, t, nd.part, nd.depth);
    RunCounts(runs, i);
    if !plan.runs[i] {
      RunsChange(runs, i, Broken);
    } else if left == 1 {
      AllSucceeded(plan, runs, i, left, s.failed);
      AppliedLeft(g, t, s, id, plan.cut);
    } else {
      RunsChange(runs, i, Over);
    }
  }

  lemma EndRunSpends(g: Graph, t: Tools, s: State, s': State, id: int, i: int)
    requires Inv(g, t, s) && Step(g, t, s, s', EndRun(id, i))
    ensures Measure(g, t, s') < Measure(g, t, s)
  {
    assert NodeOk(g, t, s, id);
    SeparatingIs(g, t, s, id);
    var status := s.nodes[id].status;
    EndedLeft(g, t, s, id, i, status.local, status.runs, status.left);
    OneSpends(g, t, s, s', id);
  }

  lemma SumUpdated(a: seq<int>, id: int, x: int)
    requires 0 <= id < |a|
    ensures Sum(a[id := x]) == Sum(a) - a[id] + x
  {
    SumChange(a, a[id := x], id);
  }

  // The steps counted for a cut go to its own writes and to both new nodes.
  lemma {:induction false} AllocatedLeft(g: Graph, t: Tools, s: State, id: int, side: seq<int>) returns (c: int, w0: int, w1: int)
    requires 0 <= id < |s.nodes| && s.nodes[id].status == Parting(side)
    requires CutOf(g, t, s.nodes[id].part, s.nodes[id].depth) == Splits(side)
    ensures Lefts(g, t, s)[id] == 3 + |s.nodes[id].part| + w0 + w1 && c <= |s.nodes[id].part| + 2
    ensures Lefts(g, t, Allocated(s, id, side)) == Lefts(g, t, s)[id := c] + [w0] + [w1]
  {
    var nd, s' := s.nodes[id], Allocated(s, id, side);
    w0, w1 := Work(g, t, Half(nd.part, side, 0), nd.depth + 1), Work(g, t, Half(nd.part, side, 1), nd.depth + 1);
    c := Left(g, t, s'.nodes[id], s.owner);
    assert s'.nodes == With(s, id, Writing(side, |s.nodes|)).nodes
                       + [Node(Half(nd.part, side, 0), nd.depth + 1, Unborn)] + [Node(Half(nd.part, side, 1), nd.depth + 1, Unborn)];
  }

  lemma SumGrows(was: seq<int>, now: seq<int>, id: int, c: int, w0: int, w1: int, most: int)
    requires 0 <= id < |was| && now == was[id := c] + [w0] + [w1] && was[id] == most + 1 + w0 + w1 && c <= most
    ensures Sum(now) < Sum(was)
  {
    SumUpdated(was, id, c);
    SumLast(was[id := c], w0);
    SumLast(was[id := c] + [w0], w1);
  }

  lemma AllocateSpends(g: Graph, t: Tools, s: State, s': State, id: int)
    requires NodesOk(g, t, s) && Step(g, t, s, s', Allocate(id))
    ensures Measure(g, t, s') < Measure(g, t, s)
  {
    PartingIs(g, t, s, id);
    AllocatedSpends(g, t, s, id, s.nodes[id].status.side);
  }

  lemma {:induction false} AllocatedSpends(g: Graph, t: Tools, s: State, id: int, side: seq<int>)
    requires 0 <= id < |s.nodes| && s.nodes[id].status == Parting(side)
    requires CutOf(g, t, s.nodes[id].part, s.nodes[id].depth) == Splits(side)
    ensures Measure(g, t, Allocated(s, id, side)) < Measure(g, t, s)
  {
    var c, w0, w1 := AllocatedLeft(g, t, s, id, side);
    SumGrows(Lefts(g, t, s), Lefts(g, t, Allocated(s, id, side)), id, c, w0, w1, |s.nodes[id].part| + 2);
  }

  lemma PartingIs(g: Graph, t: Tools, s: State, id: int)
    requires NodesOk(g, t, s) && 0 <= id < |s.nodes| && s.nodes[id].status.Parting?
    ensures CutOf(g, t, s.nodes[id].part, s.nodes[id].depth) == Splits(s.nodes[id].status.side)
  {
    assert NodeOk(g, t, s, id);
  }

  // ---- owners ----

  lemma {:induction false} ToOwnElsewhere(owner: seq<int>, part: seq<int>, side: seq<int>, first: int, k: int, v: int, x: int)
    requires 0 <= k <= |part| && k <= |side| && 0 <= v < |owner| && v !in part
    ensures ToOwn(owner[v := x], part, side, first, k) == ToOwn(owner, part, side, first, k)
    decreases k
  {
    if k > 0 { ToOwnElsewhere(owner, part, side, first, k - 1, v, x); }
  }

  // Writing the owner of member j.
  lemma {:induction false} ToOwnOne(owner: seq<int>, part: seq<int>, side: seq<int>, first: int, k: int, j: int)
    requires 0 <= k <= |part| && k <= |side| && 0 <= j < |part| && j < |side| && Distinct(part) && 0 <= part[j] < |owner|
    requires owner[part[j]] != Target(first, side[j])
    ensures ToOwn(owner[part[j] := Target(first, side[j])], part, side, first, k)
         == ToOwn(owner, part, side, first, k) - if j < k then 1 else 0
    decreases k
  {
    if k > 0 { ToOwnOne(owner, part, side, first, k - 1, j); }
  }

  // Another node's steps do not depend on an owner outside its part.
  lemma LeftElsewhere(g: Graph, t: Tools, nd: Node, owner: seq<int>, v: int, x: int)
    requires 0 <= v < |owner| && (nd.status.Writing? ==> v !in nd.part)
    ensures Left(g, t, nd, owner[v := x]) == Left(g, t, nd, owner)
  {
    if nd.status.Writing? && |nd.status.side| == |nd.part| {
      ToOwnElsewhere(owner, nd.part, nd.status.side, nd.status.first, |nd.part|, v, x);
    }
  }

  lemma OwnSpends(g: Graph, t: Tools, s: State, s': State, id: int, k: int)
    requires Inv(g, t, s) && Step(g, t, s, s', Own(id, k))
    ensures Measure(g, t, s') < Measure(g, t, s)
  {
    assert NodeOk(g, t, s, id);
    var nd := s.nodes[id];
    var side, first, v := nd.status.side, nd.status.first, nd.part[k];
    PartDistinct(g, nd.part);
    ToOwnOne(s.owner, nd.part, side, first, |nd.part|, k);
    forall x | 0 <= x < |s.nodes| && x != id
      ensures Lefts(g, t, s')[x] == Lefts(g, t, s)[x]
    {
      assert NodesApart(g, s.nodes[id], s.nodes[x]);
      LeftElsewhere(g, t, s.nodes[x], s.owner, v, Target(first, side[k]));
    }
    SumChange(Lefts(g, t, s), Lefts(g, t, s'), id);
  }

  // A published node has no steps left, and its children count as before.
  lemma PublishedLeft(g: Graph, t: Tools, s: State, id: int, side: seq<int>, first: int)
    requires 0 <= id < first && first + 1 < |s.nodes| && s.nodes[id].status == Writing(side, first)
    requires s.nodes[first].status.Unborn? && s.nodes[first + 1].status.Unborn?
    ensures Lefts(g, t, Published(s, id, side, first)) == Lefts(g, t, s)[id := 0]
    ensures Lefts(g, t, s)[id] >= 2
  {
    var s' := Published(s, id, side, first);
    forall x | 0 <= x < |s.nodes|
      ensures Left(g, t, s'.nodes[x], s'.owner) == if x == id then 0 else Left(g, t, s.nodes[x], s.owner)
    {
    }
  }

  lemma PublishSpends(g: Graph, t: Tools, s: State, s': State, id: int)
    requires NodesOk(g, t, s) && Step(g, t, s, s', Publish(id))
    ensures Measure(g, t, s') < Measure(g, t, s)
  {
    assert NodeOk(g, t, s, id);
    var side, first := s.nodes[id].status.side, s.nodes[id].status.first;
    KidsUnborn(g, t, s, id, first);
    PublishedLeft(g, t, s, id, side, first);
    SumUpdated(Lefts(g, t, s), id, 0);
  }

  lemma KidsUnborn(g: Graph, t: Tools, s: State, id: int, first: int)
    requires Halves(g, t, s, id, first, false)
    ensures s.nodes[first].status.Unborn? && s.nodes[first + 1].status.Unborn?
  {
  }

  /** Every step of every task spends some of the measure. */
  lemma StepSpends(g: Compressed, t: Kit, s: State, s': State, a: Action)
    requires Inv(g, t, s) && Step(g, t, s, s', a)
    ensures Measure(g, t, s') < Measure(g, t, s)
  {
    match a
    case Take(id) => TakeSpends(g, t, s, s', id);
    case Look(id) => LookSpends(g, t, s, s', id);
    case Decide(id) => DecideSpends(g, t, s, s', id);
    case TakeRun(id, i) => TakeRunSpends(g, t, s, s', id, i);
    case EndRun(id, i) => EndRunSpends(g, t, s, s', id, i);
    case Allocate(id) => AllocateSpends(g, t, s, s', id);
    case Own(id, k) => OwnSpends(g, t, s, s', id, k);
    case Publish(id) => PublishSpends(g, t, s, s', id);
    case Retire => assert Lefts(g, t, s') == Lefts(g, t, s);
  }

  // ---- whole runs ----

  lemma StartMeasure(g: Graph, t: Tools, s: State)
    requires Start(g, s)
    ensures Measure(g, t, s) == Work(g, t, Whole(g), 0)
  {
    SumLast([], Work(g, t, Whole(g), 0));
    assert Lefts(g, t, s) == [] + [Work(g, t, Whole(g), 0)];
  }

  lemma {:induction false} RunSpends(g: Compressed, t: Kit, states: seq<State>, acts: seq<Action>)
    requires IsRun(g, t, states, acts)
    ensures |acts| + Measure(g, t, states[|acts|]) <= Work(g, t, Whole(g), 0)
    decreases |acts|
  {
    var m := |acts| - 1;
    if m < 0 {
      StartMeasure(g, t, states[0]);
    } else {
      assert IsRun(g, t, states[..m + 1], acts[..m]);
      RunSpends(g, t, states[..m + 1], acts[..m]);
      RunKeeps(g, t, states[..m + 1], acts[..m]);
      StepSpends(g, t, states[m], states[m + 1], acts[m]);
    }
  }

  /** No schedule, of however many threads, takes more steps than the work of the root. */
  lemma SchedulesAreFinite(g: Compressed, t: Kit, states: seq<State>, acts: seq<Action>)
    requires IsRun(g, t, states, acts)
    ensures |acts| <= Work(g, t, Whole(g), 0)
  {
    RunSpends(g, t, states, acts);
    RunKeeps(g, t, states, acts);
    MeasurePositive(g, t, states[|acts|]);
  }

  // No task is pending, or one failed.
  predicate Finished(s: State) { s.pending == 0 || s.failed }

  // The longer run begins with the shorter one.
  ghost predicate Extends(states': seq<State>, acts': seq<Action>, states: seq<State>, acts: seq<Action>) {
    |states| <= |states'| && |acts| <= |acts'| && states'[..|states|] == states && acts'[..|acts|] == acts
  }

  lemma ExtendsMore(states'': seq<State>, acts'': seq<Action>, states: seq<State>, acts: seq<Action>, next: State, a: Action)
    requires Extends(states'', acts'', states + [next], acts + [a])
    ensures Extends(states'', acts'', states, acts)
  {
    assert states''[..|states|] == states''[..|states| + 1][..|states|] == (states + [next])[..|states|];
    assert acts''[..|acts|] == acts''[..|acts| + 1][..|acts|] == (acts + [a])[..|acts|];
  }

  /** Whatever has been scheduled so far, some schedule finishes from there. */
  lemma {:induction false} EveryRunFinishes(g: Compressed, t: Kit, states: seq<State>, acts: seq<Action>)
      returns (states': seq<State>, acts': seq<Action>)
    requires IsRun(g, t, states, acts)
    ensures IsRun(g, t, states', acts') && Extends(states', acts', states, acts)
    ensures Finished(states'[|acts'|])
    decreases Work(g, t, Whole(g), 0) - |acts|
  {
    SchedulesAreFinite(g, t, states, acts);
    if Finished(states[|acts|]) {
      return states, acts;
    }
    var a, next := NextStep(g, t, states, acts);
    SchedulesAreFinite(g, t, states + [next], acts + [a]);
    states', acts' := EveryRunFinishes(g, t, states + [next], acts + [a]);
    ExtendsMore(states', acts', states, acts, next, a);
  }

  lemma NextStep(g: Compressed, t: Kit, states: seq<State>, acts: seq<Action>) returns (a: Action, next: State)
    requires IsRun(g, t, states, acts) && !Finished(states[|acts|])
    ensures IsRun(g, t, states + [next], acts + [a])
  {
    var s := states[|acts|];
    RunKeeps(g, t, states, acts);
    PendingCounts(s);
    NeverStuck(g, t, s);
    a, next :| Step(g, t, s, next, a);
    RunMore(g, t, states, acts, next, a);
  }

  lemma PendingCounts(s: State)
    requires s.ending >= 0 && s.pending == s.ending + Weights(s.nodes)
    ensures s.pending >= 0
  {
  }

  lemma RunMore(g: Graph, t: Tools, states: seq<State>, acts: seq<Action>, next: State, a: Action)
    requires IsRun(g, t, states, acts) && Step(g, t, states[|acts|], next, a)
    ensures IsRun(g, t, states + [next], acts + [a])
  {
    forall i | 0 <= i < |acts + [a]|
      ensures Step(g, t, (states + [next])[i], (states + [next])[i + 1], (acts + [a])[i])
    {
      if i < |acts| { assert Step(g, t, states[i], states[i + 1], acts[i]); }
    }
  }
}
