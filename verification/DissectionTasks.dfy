/** Nested dissection as tasks: parts are split and leaves ordered by threads that share
    one owner table and two tables of local indices. Every step below is one access to a
    shared entry or one locked section; any enabled step may come next. */
module DissectionTasks {
  import opened Sequences
  import opened Supervariables
  import opened CompressedGraph
  import opened Dissection

  // How far a task has read its part's local graph.
  datatype Scan = Scan(put: int, k: int, p: int, row: seq<int>, rows: seq<seq<int>>)

  datatype Run = Waits | Goes | Over | Broken

  datatype Status =
    | Unborn
    | Queued
    | Reading(tries: bool, scan: Scan)
    | Separating(local: seq<seq<int>>, runs: seq<Run>, left: int)
    | Parting(side: seq<int>)
    | Writing(side: seq<int>, first: int)
    | Leaf(order: seq<int>)
    | Split(first: int, sep: seq<int>)
    | Failed

  datatype Node = Node(part: seq<int>, depth: int, status: Status)

  /** owner: the node a supervariable is in (-1: a separator); loc and oloc: local indices
      of supervariables and of original vertices; ending: tasks done but not yet taken off
      pending. */
  datatype State = State(nodes: seq<Node>, owner: seq<int>, loc: seq<int>, oloc: seq<int>,
                         ending: int, pending: int, failed: bool)

  datatype Action =
    | Take(id: int)
    | Look(id: int)
    | Decide(id: int)
    | TakeRun(id: int, run: int)
    | EndRun(id: int, run: int)
    | Allocate(id: int)
    | Own(id: int, k: int)
    | Publish(id: int)
    | Retire

  ghost predicate Start(g: Graph, s: State) {
    && s.nodes == [Node(Whole(g), 0, Queued)]
    && |s.owner| == |s.loc| == |g.crows| && |s.oloc| == |g.rows|
    && (forall v | 0 <= v < |s.owner| :: s.owner[v] == 0)
    && s.ending == 0 && s.pending == 1 && !s.failed
  }

  // ---- steps ----

  function With(s: State, id: int, status: Status): State
    requires 0 <= id < |s.nodes|
  {
    s.(nodes := s.nodes[id := s.nodes[id].(status := status)])
  }

  const FRESH: Scan := Scan(0, 0, 0, [], [])

  // The root's local graph is the compressed graph itself.
  function Begin(g: Graph, id: int, part: seq<int>, tries: bool): Scan {
    if tries && id == 0 && |part| == |g.crows| then Scan(|part|, |part|, 0, [], g.crows) else FRESH
  }

  function IsFine(t: Tools, part: seq<int>, tries: bool): bool { !tries && Fine(t, part) }

  function Table(s: State, fine: bool): seq<int> { if fine then s.oloc else s.loc }

  function WithTable(s: State, fine: bool, table: seq<int>): State {
    if fine then s.(oloc := table) else s.(loc := table)
  }

  // The next write or read of a scan.
  function Looked(g: Graph, t: Tools, s: State, id: int, tries: bool, sc: Scan): Option<State>
    requires 0 <= id < |s.nodes|
  {
    var part := s.nodes[id].part;
    var fine := IsFine(t, part, tries);
    var cells, table := Cells(g, part, fine), Table(s, fine);
    if 0 <= sc.put < |cells| && 0 <= cells[sc.put] < |table| then
      Some(With(WithTable(s, fine, table[cells[sc.put] := sc.put]), id, Reading(tries, sc.(put := sc.put + 1))))
    else if sc.put == |cells| && 0 <= sc.k < |cells| then
      var refs := Refs(g, fine, cells[sc.k]);
      if 0 <= sc.p < |refs| then
        var u := refs[sc.p];
        var x := SuperOf(g, fine, u);
        if !(0 <= x < |s.owner| && 0 <= u < |table|) then None
        else Some(With(s, id, Reading(tries, sc.(p := sc.p + 1, row := sc.row + if s.owner[x] == id then [table[u]] else []))))
      else
        Some(With(s, id, Reading(tries, sc.(k := sc.k + 1, p := 0, row := [], rows := sc.rows + [sc.row]))))
    else None
  }

  // A known cut is applied.
  function Applied(s: State, id: int, cut: Cut): State
    requires 0 <= id < |s.nodes|
  {
    match cut
    case Fails => With(s, id, Failed).(failed := true, ending := s.ending + 1)
    case Stays => With(s, id, Reading(false, FRESH))
    case Splits(side) => With(s, id, Parting(side))
  }

  function Decided(g: Graph, t: Tools, s: State, id: int, tries: bool, local: seq<seq<int>>): State
    requires 0 <= id < |s.nodes|
  {
    var nd := s.nodes[id];
    if tries then
      match t.bisect(local, LocalWeights(g, nd.part), nd.depth)
      case Now(cut) => Applied(s, id, cut)
      case Later(runs, _) =>
        With(s, id, Separating(local, seq(|runs|, i => Waits), |runs|)).(ending := s.ending + 1, pending := s.pending + |runs|)
    else
      match LeafFrom(g, t, nd.part, local)
      case None => With(s, id, Failed).(failed := true, ending := s.ending + 1)
      case Some(order) => With(s, id, Leaf(order)).(ending := s.ending + 1)
  }

  // A run fails, or counts down; the one that counts to zero applies the cut.
  function Ended(g: Graph, t: Tools, s: State, id: int, i: int, local: seq<seq<int>>, runs: seq<Run>, left: int): State
    requires 0 <= id < |s.nodes| && 0 <= i < |runs|
  {
    var nd := s.nodes[id];
    match t.bisect(local, LocalWeights(g, nd.part), nd.depth)
    case Now(_) => s
    case Later(oks, cut) =>
      if !(i < |oks| && oks[i]) then
        With(s, id, Separating(local, runs[i := Broken], left)).(failed := true, ending := s.ending + 1)
      else if left == 1 then Applied(s, id, cut)
      else With(s, id, Separating(local, runs[i := Over], left - 1)).(ending := s.ending + 1)
  }

  function Target(first: int, h: int): int { if h == 2 then -1 else first + h }

  ghost predicate AllOwned(s: State, part: seq<int>, side: seq<int>, first: int) {
    forall k | 0 <= k < |part| && k < |side| && 0 <= part[k] < |s.owner| :: s.owner[part[k]] == Target(first, side[k])
  }

  function Allocated(s: State, id: int, side: seq<int>): State
    requires 0 <= id < |s.nodes|
  {
    var nd := s.nodes[id];
    var s' := With(s, id, Writing(side, |s.nodes|));
    s'.(nodes := s'.nodes + [Node(Half(nd.part, side, 0), nd.depth + 1, Unborn), Node(Half(nd.part, side, 1), nd.depth + 1, Unborn)])
  }

  function Published(s: State, id: int, side: seq<int>, first: int): (r: State)
    requires 0 <= id < first && first + 1 < |s.nodes|
    ensures |r.nodes| == |s.nodes|
    ensures forall x | 0 <= x < |s.nodes| :: r.nodes[x].part == s.nodes[x].part && r.nodes[x].depth == s.nodes[x].depth
    ensures forall x | 0 <= x < |s.nodes| && x != id && x != first && x != first + 1 :: r.nodes[x] == s.nodes[x]
  {
    var nd, a, b := s.nodes[id], s.nodes[first], s.nodes[first + 1];
    var nodes := s.nodes[id := nd.(status := Split(first, Half(nd.part, side, 2)))];
    s.(nodes := nodes[first := a.(status := Queued)][first + 1 := b.(status := Queued)],
       ending := s.ending + 1, pending := s.pending + 2)
  }

  ghost predicate Step(g: Graph, t: Tools, s: State, s': State, a: Action) {
    if a.Retire? then s.ending > 0 && s' == s.(ending := s.ending - 1, pending := s.pending - 1)
    else 0 <= a.id < |s.nodes| && var nd := s.nodes[a.id];
      match a
      case Take(id) =>
        && nd.status.Queued? && !s.failed
        && var tries := Tries(t, nd.part, nd.depth); s' == With(s, id, Reading(tries, Begin(g, id, nd.part, tries)))
      case Look(id) => nd.status.Reading? && Looked(g, t, s, id, nd.status.tries, nd.status.scan) == Some(s')
      case Decide(id) =>
        && nd.status.Reading? && nd.status.scan.k == |Cells(g, nd.part, IsFine(t, nd.part, nd.status.tries))|
        && s' == Decided(g, t, s, id, nd.status.tries, nd.status.scan.rows)
      case TakeRun(id, i) =>
        && nd.status.Separating? && !s.failed && 0 <= i < |nd.status.runs| && nd.status.runs[i].Waits?
        && s' == With(s, id, nd.status.(runs := nd.status.runs[i := Goes]))
      case EndRun(id, i) =>
        && nd.status.Separating? && 0 <= i < |nd.status.runs| && nd.status.runs[i].Goes?
        && s' == Ended(g, t, s, id, i, nd.status.local, nd.status.runs, nd.status.left)
      case Allocate(id) => nd.status.Parting? && s' == Allocated(s, id, nd.status.side)
      case Own(id, k) =>
        && nd.status.Writing? && 0 <= k < |nd.part| && k < |nd.status.side| && 0 <= nd.part[k] < |s.owner|
        && var v, x := nd.part[k], Target(nd.status.first, nd.status.side[k]);
           s.owner[v] != x && s' == s.(owner := s.owner[v := x])
      case Publish(id) =>
        && nd.status.Writing? && id < nd.status.first && nd.status.first + 1 < |s.nodes|
        && AllOwned(s, nd.part, nd.status.side, nd.status.first)
        && s' == Published(s, id, nd.status.side, nd.status.first)
      case Retire => true
  }

  // ---- the invariant ----

  function NotOver(runs: seq<Run>): nat {
    if |runs| == 0 then 0 else NotOver(runs[..|runs| - 1]) + (if runs[|runs| - 1].Over? then 0 else 1)
  }

  // Runs queued or going: each is one pending task.
  function Busy(runs: seq<Run>): nat {
    if |runs| == 0 then 0
    else Busy(runs[..|runs| - 1]) + (if runs[|runs| - 1].Waits? || runs[|runs| - 1].Goes? then 1 else 0)
  }

  // Pending tasks of a node.
  function Weight(status: Status): nat {
    match status
    case Separating(_, runs, _) => Busy(runs)
    case Queued | Reading(_, _) | Parting(_) | Writing(_, _) => 1
    case Unborn | Leaf(_) | Split(_, _) | Failed => 0
  }

  function Weights(nodes: seq<Node>): nat {
    if |nodes| == 0 then 0 else Weights(nodes[..|nodes| - 1]) + Weight(nodes[|nodes| - 1].status)
  }

  // Holding a part: no longer unborn, not yet split.
  predicate Live(status: Status) { !status.Unborn? && !status.Split? }

  ghost predicate OwnsExactly(s: State, id: int, part: seq<int>) {
    forall v | 0 <= v < |s.owner| :: s.owner[v] == id <==> v in part
  }

  ghost predicate OwnsWithin(s: State, id: int, part: seq<int>) {
    forall v | 0 <= v < |s.owner| && s.owner[v] == id :: v in part
  }

  // Entries of a part being split are still its own or already their new owner's.
  ghost predicate Handing(s: State, id: int, part: seq<int>, side: seq<int>, first: int) {
    && |side| == |part|
    && forall k | 0 <= k < |part| && 0 <= part[k] < |s.owner| :: s.owner[part[k]] == id || s.owner[part[k]] == Target(first, side[k])
  }

  ghost predicate ScanOk(g: Graph, part: seq<int>, fine: bool, sc: Scan, table: seq<int>) {
    var cells := Cells(g, part, fine);
    && 0 <= sc.put <= |cells| && 0 <= sc.k <= |cells|
    && (sc.put < |cells| ==> sc.k == 0)
    && sc.rows == LocalRows(g, part, fine, sc.k)
    && (sc.k < |cells| ==>
          && Indexed(cells, sc.put, table)
          && 0 <= sc.p <= |Refs(g, fine, cells[sc.k])| && (sc.put < |cells| ==> sc.p == 0)
          && sc.row == LocalRow(g, part, fine, cells[sc.k], sc.p))
  }

  // The first cells carry their local index.
  ghost predicate Indexed(cells: seq<int>, put: int, table: seq<int>) {
    forall i | 0 <= i < put <= |cells| && 0 <= cells[i] < |table| :: table[cells[i]] == i
  }

  ghost predicate RunsOk(plan: Plan, runs: seq<Run>, left: int, failed: bool) {
    && plan.Later? && |runs| == |plan.runs| && left == NotOver(runs) && left >= 1
    && forall i | 0 <= i < |runs| ::
         && (runs[i].Over? ==> plan.runs[i])
         && (runs[i].Broken? ==> !plan.runs[i] && failed)
  }

  // The children a node has or is about to have.
  ghost predicate Halves(g: Graph, t: Tools, s: State, id: int, first: int, born: bool) {
    && 0 <= id < first && first + 1 < |s.nodes|
    && var nd := s.nodes[id]; var cut := CutOf(g, t, nd.part, nd.depth);
       cut.Splits? && IsHalf(nd, cut.side, s.nodes[first], 0, born) && IsHalf(nd, cut.side, s.nodes[first + 1], 1, born)
  }

  predicate IsHalf(nd: Node, side: seq<int>, kid: Node, h: int, born: bool) {
    kid.part == Half(nd.part, side, h) && kid.depth == nd.depth + 1 && kid.status.Unborn? == !born
  }

  ghost predicate NodeOk(g: Graph, t: Tools, s: State, id: int)
    requires 0 <= id < |s.nodes|
  {
    var nd := s.nodes[id];
    var part := nd.part;
    Part(g, part) &&
    match nd.status
    case Unborn => OwnsWithin(s, id, part)
    case Queued => OwnsExactly(s, id, part)
    case Reading(tries, sc) =>
      && OwnsExactly(s, id, part)
      && (if tries then Tries(t, part, nd.depth) else CutOf(g, t, part, nd.depth) == Stays)
      && ScanOk(g, part, IsFine(t, part, tries), sc, Table(s, IsFine(t, part, tries)))
    case Separating(local, runs, left) =>
      && OwnsExactly(s, id, part) && Tries(t, part, nd.depth) && local == Local(g, part, false)
      && RunsOk(t.bisect(local, LocalWeights(g, part), nd.depth), runs, left, s.failed)
    case Parting(side) => OwnsExactly(s, id, part) && CutOf(g, t, part, nd.depth) == Splits(side)
    case Writing(side, first) =>
      && CutOf(g, t, part, nd.depth) == Splits(side) && Halves(g, t, s, id, first, false)
      && OwnsWithin(s, id, part) && Handing(s, id, part, side, first)
    case Leaf(order) =>
      && OwnsExactly(s, id, part) && CutOf(g, t, part, nd.depth) == Stays && LeafOrder(g, t, part) == Some(order)
    case Split(first, sep) =>
      && Halves(g, t, s, id, first, true) && sep == Half(part, CutOf(g, t, part, nd.depth).side, 2)
      && OwnsWithin(s, id, [])
    case Failed => OwnsExactly(s, id, part) && s.failed && Dissect(g, t, part, nd.depth) == None
  }

  // id is a child of p.
  predicate ChildOf(s: State, p: int, id: int) {
    && 0 <= p < |s.nodes|
    && match s.nodes[p].status
       case Writing(_, first) => id == first || id == first + 1
       case Split(first, _) => id == first || id == first + 1
       case _ => false
  }

  ghost predicate HasParent(s: State, id: int) {
    id == 0 || exists p | 0 <= p < id :: ChildOf(s, p, id)
  }

  ghost predicate NodesApart(g: Graph, a: Node, b: Node) {
    Live(a.status) && Live(b.status) ==> Apart(g, a.part, b.part)
  }

  // Live parts are disjoint and joined by no edge.
  ghost predicate PartsApart(g: Graph, s: State) {
    forall a, b | 0 <= a < |s.nodes| && 0 <= b < |s.nodes| && a != b :: NodesApart(g, s.nodes[a], s.nodes[b])
  }

  ghost predicate Doomed(g: Graph, t: Tools, s: State) {
    exists id :: 0 <= id < |s.nodes| && Dissect(g, t, s.nodes[id].part, s.nodes[id].depth) == None
  }

  ghost predicate Shape(g: Graph, s: State) {
    && |s.owner| == |s.loc| == |g.crows| && |s.oloc| == |g.rows|
    && |s.nodes| > 0 && s.nodes[0].part == Whole(g) && s.nodes[0].depth == 0 && !s.nodes[0].status.Unborn?
    && (forall v | 0 <= v < |s.owner| :: s.owner[v] < |s.nodes|)
    && s.ending >= 0 && s.pending == s.ending + Weights(s.nodes)
  }

  ghost predicate NodesOk(g: Graph, t: Tools, s: State) {
    forall id | 0 <= id < |s.nodes| :: NodeOk(g, t, s, id)
  }

  // Every node but the root has exactly one parent.
  ghost predicate AllHaveParents(s: State) {
    && (forall id | 0 <= id < |s.nodes| :: HasParent(s, id))
    && (forall a, b, c :: ChildOf(s, a, c) && ChildOf(s, b, c) ==> a == b)
  }

  /** Between any two steps of any schedule. */
  ghost predicate Inv(g: Graph, t: Tools, s: State) {
    && Shape(g, s) && NodesOk(g, t, s) && AllHaveParents(s) && PartsApart(g, s)
    && (s.failed ==> Doomed(g, t, s))
  }
}
