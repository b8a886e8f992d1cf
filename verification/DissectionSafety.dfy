/** Every step of every schedule keeps the invariant of the tasks. */
module DissectionSafety {
  import opened Sequences
  import opened Supervariables
  import opened CompressedGraph
  import opened Dissection
  import opened DissectionTasks

  // ---- counting tasks ----

  lemma {:induction false} WeightsUpdate(nodes: seq<Node>, id: int, nd: Node)
    requires 0 <= id < |nodes|
    ensures Weights(nodes[id := nd]) == Weights(nodes) - Weight(nodes[id].status) + Weight(nd.status)
    decreases |nodes|
  {
    var last := |nodes| - 1;
    if id < last {
      assert nodes[id := nd][..last] == nodes[..last][id := nd];
      WeightsUpdate(nodes[..last], id, nd);
    } else {
      assert nodes[id := nd][..last] == nodes[..last];
    }
  }

  lemma WeightsMore(nodes: seq<Node>, nd: Node)
    ensures Weights(nodes + [nd]) == Weights(nodes) + Weight(nd.status)
  {
    assert (nodes + [nd])[..|nodes|] == nodes;
  }

  lemma {:induction false} WeightAtMost(nodes: seq<Node>, id: int)
    requires 0 <= id < |nodes|
    ensures Weight(nodes[id].status) <= Weights(nodes)
    decreases |nodes|
  {
    if id < |nodes| - 1 { WeightAtMost(nodes[..|nodes| - 1], id); }
  }

  lemma {:induction false} RunsUpdate(runs: seq<Run>, i: int, r: Run)
    requires 0 <= i < |runs|
    ensures Busy(runs[i := r]) == Busy(runs) - (if runs[i].Waits? || runs[i].Goes? then 1 else 0) + (if r.Waits? || r.Goes? then 1 else 0)
    ensures NotOver(runs[i := r]) == NotOver(runs) - (if runs[i].Over? then 0 else 1) + (if r.Over? then 0 else 1)
    decreases |runs|
  {
    var last := |runs| - 1;
    if i < last {
      assert runs[i := r][..last] == runs[..last][i := r];
      RunsUpdate(runs[..last], i, r);
    } else {
      assert runs[i := r][..last] == runs[..last];
    }
  }

  lemma {:induction false} FreshRuns(m: nat)
    ensures var runs := seq(m, i => Waits); Busy(runs) == m && NotOver(runs) == m
    decreases m
  {
    if m > 0 {
      FreshRuns(m - 1);
      assert seq(m, i => Waits)[..m - 1] == seq(m - 1, i => Waits);
    }
  }

  lemma {:induction false} BusyLeft(runs: seq<Run>)
    ensures Busy(runs) <= NotOver(runs)
    ensures (forall i | 0 <= i < |runs| :: !runs[i].Broken?) ==> Busy(runs) == NotOver(runs)
    decreases |runs|
  {
    if |runs| > 0 {
      var init := runs[..|runs| - 1];
      BusyLeft(init);
      assert forall i | 0 <= i < |init| :: init[i] == runs[i];
    }
  }

  // The run that brings the count to zero is the last one.
  lemma {:induction false} LastRun(runs: seq<Run>, i: int, j: int)
    requires 0 <= i < |runs| && 0 <= j < |runs| && i != j && !runs[i].Over? && NotOver(runs) == 1
    ensures runs[j].Over?
  {
    if !runs[j].Over? {
      RunsUpdate(runs, i, Over);
      RunsUpdate(runs[i := Over], j, Over);
    }
  }

  // ---- steps that touch one part only ----

  ghost predicate SameElsewhere(g: Graph, s: State, s': State, part: seq<int>) {
    && |s'.loc| == |s.loc| && |s'.oloc| == |s.oloc|
    && (forall c | 0 <= c < |s.loc| && c !in part :: s'.loc[c] == s.loc[c])
    && (forall c | 0 <= c < |s.oloc| && SuperOf(g, true, c) !in part :: s'.oloc[c] == s.oloc[c])
  }

  ghost predicate SameNodes(s: State, s': State, id: int) {
    && 0 <= id < |s.nodes| <= |s'.nodes|
    && (forall x | 0 <= x < |s.nodes| && x != id :: s'.nodes[x] == s.nodes[x])
    && s'.nodes[id].part == s.nodes[id].part && s'.nodes[id].depth == s.nodes[id].depth
  }

  predicate Plain(status: Status) { Live(status) && !status.Writing? }

  // A live part's step: nothing of the others changes.
  ghost predicate Framed(g: Graph, s: State, s': State, id: int) {
    && SameNodes(s, s', id) && Live(s.nodes[id].status) && Live(s'.nodes[id].status)
    && s'.owner == s.owner && SameElsewhere(g, s, s', s.nodes[id].part) && (s.failed ==> s'.failed)
  }

  ghost predicate Quiet(g: Graph, s: State, s': State, id: int) {
    Framed(g, s, s', id) && |s'.nodes| == |s.nodes| && Plain(s.nodes[id].status) && Plain(s'.nodes[id].status)
  }

  lemma IndexedKept(g: Compressed, part: seq<int>, other: seq<int>, fine: bool, put: int, s: State, s': State)
    requires Part(g, part) && Apart(g, part, other) && SameElsewhere(g, s, s', other)
    requires |s.loc| == |g.crows| && |s.oloc| == |g.rows|
    requires Indexed(Cells(g, part, fine), put, Table(s, fine))
    ensures Indexed(Cells(g, part, fine), put, Table(s', fine))
  {
    var cells := Cells(g, part, fine);
    forall i | 0 <= i < put <= |cells| && 0 <= cells[i] < |Table(s', fine)|
      ensures Table(s', fine)[cells[i]] == i
    {
      assert cells[i] in cells;
      CellIn(g, part, fine, cells[i]);
    }
  }

  lemma HalvesKept(g: Compressed, t: Kit, s: State, s': State, id: int, x: int, first: int, born: bool)
    requires Framed(g, s, s', id) && x != id && Halves(g, t, s, x, first, born)
    ensures Halves(g, t, s', x, first, born)
  {
  }

  lemma OtherReading(g: Compressed, t: Kit, s: State, s': State, id: int, x: int)
    requires Shape(g, s) && Framed(g, s, s', id) && 0 <= x < |s.nodes| && x != id && NodeOk(g, t, s, x)
    requires s.nodes[x].status.Reading? && Apart(g, s.nodes[x].part, s.nodes[id].part)
    ensures NodeOk(g, t, s', x)
  {
    var nd := s.nodes[x];
    var sc, fine := nd.status.scan, IsFine(t, nd.part, nd.status.tries);
    if sc.k < |Cells(g, nd.part, fine)| { IndexedKept(g, nd.part, s.nodes[id].part, fine, sc.put, s, s'); }
  }

  lemma OtherKept(g: Compressed, t: Kit, s: State, s': State, id: int, x: int)
    requires Shape(g, s) && Framed(g, s, s', id) && 0 <= x < |s.nodes| && x != id && NodeOk(g, t, s, x) && PartsApart(g, s)
    ensures NodeOk(g, t, s', x)
  {
    var nd := s.nodes[x];
    match nd.status
    case Reading(_, _) =>
      assert NodesApart(g, nd, s.nodes[id]);
      OtherReading(g, t, s, s', id, x);
    case Writing(side, first) => HalvesKept(g, t, s, s', id, x, first, false);
    case Split(first, sep) => HalvesKept(g, t, s, s', id, x, first, true);
    case _ =>
  }

  lemma ParentsKept(s: State, s': State, id: int)
    requires SameNodes(s, s', id) && |s'.nodes| == |s.nodes| && Plain(s.nodes[id].status) && Plain(s'.nodes[id].status)
    requires AllHaveParents(s)
    ensures AllHaveParents(s')
  {
    forall p, x ensures ChildOf(s', p, x) <==> ChildOf(s, p, x) {}
    forall x | 0 <= x < |s'.nodes| ensures HasParent(s', x) { ParentKept(s, s', x); }
  }

  lemma ParentKept(s: State, s': State, x: int)
    requires HasParent(s, x) && forall p, y :: ChildOf(s, p, y) ==> ChildOf(s', p, y)
    ensures HasParent(s', x)
  {
    if x != 0 {
      var p :| 0 <= p < x && ChildOf(s, p, x);
      assert ChildOf(s', p, x);
    }
  }

  lemma DoomedKept(g: Compressed, t: Kit, s: State, s': State)
    requires Doomed(g, t, s) && |s.nodes| <= |s'.nodes|
    requires forall x | 0 <= x < |s.nodes| :: s'.nodes[x].part == s.nodes[x].part && s'.nodes[x].depth == s.nodes[x].depth
    ensures Doomed(g, t, s')
  {
    var x :| 0 <= x < |s.nodes| && Dissect(g, t, s.nodes[x].part, s.nodes[x].depth) == None;
    assert Dissect(g, t, s'.nodes[x].part, s'.nodes[x].depth) == None;
  }

  ghost predicate Balanced(s: State, s': State, id: int)
    requires 0 <= id < |s.nodes| == |s'.nodes|
  {
    && s'.ending >= 0
    && s'.pending - s'.ending - Weight(s'.nodes[id].status) == s.pending - s.ending - Weight(s.nodes[id].status)
  }

  lemma ShapeKept(g: Compressed, s: State, s': State, id: int)
    requires Shape(g, s) && Quiet(g, s, s', id) && Balanced(s, s', id)
    ensures Shape(g, s')
  {
    assert s'.nodes == s.nodes[id := s'.nodes[id]];
    WeightsUpdate(s.nodes, id, s'.nodes[id]);
  }

  lemma OthersKept(g: Compressed, t: Kit, s: State, s': State, id: int)
    requires Shape(g, s) && Quiet(g, s, s', id) && NodesOk(g, t, s) && PartsApart(g, s) && NodeOk(g, t, s', id)
    ensures NodesOk(g, t, s')
  {
    forall x | 0 <= x < |s'.nodes|
      ensures NodeOk(g, t, s', x)
    {
      if x != id { OtherKept(g, t, s, s', id, x); }
    }
  }

  lemma QuietKeeps(g: Compressed, t: Kit, s: State, s': State, id: int)
    requires Inv(g, t, s) && Quiet(g, s, s', id) && NodeOk(g, t, s', id) && Balanced(s, s', id)
    requires s'.failed && !s.failed ==> Dissect(g, t, s.nodes[id].part, s.nodes[id].depth) == None
    ensures Inv(g, t, s')
  {
    ShapeKept(g, s, s', id);
    OthersKept(g, t, s, s', id);
    ParentsKept(s, s', id);
    ApartKept(g, s, s', id);
    if s.failed { DoomedKept(g, t, s, s'); }
  }

  lemma ApartKept(g: Compressed, s: State, s': State, id: int)
    requires SameNodes(s, s', id) && |s'.nodes| == |s.nodes| && Live(s.nodes[id].status) && PartsApart(g, s)
    ensures PartsApart(g, s')
  {
  }

  // Only this node's status, the failure flag and the counts change.
  function Changed(s: State, id: int, status: Status, ending: int, pending: int, failed: bool): State
    requires 0 <= id < |s.nodes|
  {
    With(s, id, status).(ending := ending, pending := pending, failed := failed)
  }

  lemma ChangedQuiet(g: Graph, s: State, id: int, status: Status, ending: int, pending: int, failed: bool)
    requires 0 <= id < |s.nodes| && Plain(s.nodes[id].status) && Plain(status) && (s.failed ==> failed)
    ensures Quiet(g, s, Changed(s, id, status, ending, pending, failed), id)
  {
  }

  // ---- taking a part ----

  lemma {:induction false} WholeRow(g: Compressed, c: int, p: int)
    requires 0 <= c < |g.crows| && 0 <= p <= |g.crows[c]|
    ensures LocalRow(g, Whole(g), false, c, p) == g.crows[c][..p]
    decreases p
  {
    if p > 0 {
      WholeRow(g, c, p - 1);
      RefsInside(g, false, c, p - 1);
      var u := g.crows[c][p - 1];
      assert Whole(g)[u] == u;
    }
  }

  lemma WholeRowFull(g: Compressed, c: int)
    requires 0 <= c < |g.crows|
    ensures LocalRow(g, Whole(g), false, c, |Refs(g, false, c)|) == g.crows[c]
  {
    WholeRow(g, c, |g.crows[c]|);
    assert g.crows[c][..|g.crows[c]|] == g.crows[c];
  }

  lemma {:induction false} WholeRows(g: Compressed, k: int)
    requires 0 <= k <= |g.crows|
    ensures LocalRows(g, Whole(g), false, k) == g.crows[..k]
    decreases k
  {
    if k > 0 {
      WholeRows(g, k - 1);
      WholeRowFull(g, k - 1);
      assert g.crows[..k] == g.crows[..k - 1] + [g.crows[k - 1]];
    }
  }

  /** The root's local graph is the compressed graph. */
  lemma WholeLocal(g: Compressed)
    ensures Local(g, Whole(g), false) == g.crows
  {
    WholeRows(g, |g.crows|);
    assert g.crows[..|g.crows|] == g.crows;
  }

  lemma FreshScan(g: Compressed, part: seq<int>, fine: bool, table: seq<int>)
    ensures ScanOk(g, part, fine, FRESH, table)
  {
  }

  lemma TakeKeeps(g: Compressed, t: Kit, s: State, s': State, id: int)
    requires Inv(g, t, s) && Step(g, t, s, s', Take(id))
    ensures Inv(g, t, s')
  {
    var nd := s.nodes[id];
    var tries := Tries(t, nd.part, nd.depth);
    assert NodeOk(g, t, s, id);
    if tries && id == 0 && |nd.part| == |g.crows| {
      WholeLocal(g);
    } else {
      FreshScan(g, nd.part, IsFine(t, nd.part, tries), Table(s, IsFine(t, nd.part, tries)));
    }
    assert NodeOk(g, t, s', id);
    QuietKeeps(g, t, s, s', id);
  }

  // ---- reading ----

  lemma PutNext(g: Compressed, part: seq<int>, fine: bool, sc: Scan, table: seq<int>)
    requires Part(g, part) && ScanOk(g, part, fine, sc, table) && sc.put < |Cells(g, part, fine)|
    requires 0 <= Cells(g, part, fine)[sc.put] < |table|
    ensures ScanOk(g, part, fine, sc.(put := sc.put + 1), table[Cells(g, part, fine)[sc.put] := sc.put])
  {
    CellsDistinct(g, part, fine);
  }

  // What a reference reads: its owner says whether it is in the part, and then its table entry is its place.
  lemma ReadRight(g: Compressed, s: State, id: int, part: seq<int>, fine: bool, u: int)
    requires Part(g, part) && OwnsExactly(s, id, part) && |s.owner| == |s.loc| == |g.crows| && |s.oloc| == |g.rows|
    requires 0 <= u < |Table(s, fine)| && Indexed(Cells(g, part, fine), |Cells(g, part, fine)|, Table(s, fine))
    ensures 0 <= SuperOf(g, fine, u) < |s.owner|
    ensures s.owner[SuperOf(g, fine, u)] == id <==> SuperOf(g, fine, u) in part
    ensures SuperOf(g, fine, u) in part ==> Table(s, fine)[u] == IndexOf(Cells(g, part, fine), u)
  {
    var cells := Cells(g, part, fine);
    CellIn(g, part, fine, u);
    if fine { VertexFacts(g, u); }
    if SuperOf(g, fine, u) in part {
      assert cells[IndexOf(cells, u)] == u;
    }
  }

  lemma PutQuiet(g: Compressed, s: State, id: int, fine: bool, c: int, put: int, status: Status)
    requires 0 <= id < |s.nodes| && Plain(s.nodes[id].status) && Plain(status)
    requires 0 <= c < |Table(s, fine)| && SuperOf(g, fine, c) in s.nodes[id].part
    ensures Quiet(g, s, With(WithTable(s, fine, Table(s, fine)[c := put]), id, status), id)
  {
  }

  // Facts about a part being read.
  ghost predicate ReadingOk(g: Graph, t: Tools, s: State, id: int, tries: bool, sc: Scan)
    requires 0 <= id < |s.nodes|
  {
    var part := s.nodes[id].part;
    && Part(g, part) && OwnsExactly(s, id, part)
    && (if tries then Tries(t, part, s.nodes[id].depth) else CutOf(g, t, part, s.nodes[id].depth) == Stays)
    && ScanOk(g, part, IsFine(t, part, tries), sc, Table(s, IsFine(t, part, tries)))
  }

  lemma ReadingIs(g: Graph, t: Tools, s: State, id: int)
    requires 0 <= id < |s.nodes| && s.nodes[id].status.Reading?
    ensures NodeOk(g, t, s, id) <==> ReadingOk(g, t, s, id, s.nodes[id].status.tries, s.nodes[id].status.scan)
  {
  }

  lemma PutOk(g: Compressed, t: Kit, s: State, id: int, tries: bool, sc: Scan)
    requires Shape(g, s) && 0 <= id < |s.nodes| && ReadingOk(g, t, s, id, tries, sc)
    requires sc.put < |Cells(g, s.nodes[id].part, IsFine(t, s.nodes[id].part, tries))|
    ensures var part := s.nodes[id].part; var fine := IsFine(t, part, tries); var c := Cells(g, part, fine)[sc.put];
      && 0 <= c < |Table(s, fine)| && SuperOf(g, fine, c) in part
      && ReadingOk(g, t, With(WithTable(s, fine, Table(s, fine)[c := sc.put]), id, Reading(tries, sc.(put := sc.put + 1))), id,
                   tries, sc.(put := sc.put + 1))
  {
    var part := s.nodes[id].part;
    var fine := IsFine(t, part, tries);
    var c := Cells(g, part, fine)[sc.put];
    assert c in Cells(g, part, fine);
    CellInside(g, part, fine, c);
    PutNext(g, part, fine, sc, Table(s, fine));
  }

  lemma CellInside(g: Compressed, part: seq<int>, fine: bool, c: int)
    requires Part(g, part) && c in Cells(g, part, fine)
    ensures 0 <= c < (if fine then |g.rows| else |g.crows|) && SuperOf(g, fine, c) in part
  {
    if fine { OriginalsIn(g, part, c); }
  }

  // The scan a look leaves when it reads.
  function Onward(g: Graph, s: State, id: int, part: seq<int>, fine: bool, sc: Scan): Scan
    requires 0 <= sc.k < |Cells(g, part, fine)|
  {
    var refs := Refs(g, fine, Cells(g, part, fine)[sc.k]);
    if 0 <= sc.p < |refs| then
      var u := refs[sc.p];
      var x := SuperOf(g, fine, u);
      if !(0 <= x < |s.owner| && 0 <= u < |Table(s, fine)|) then sc
      else sc.(p := sc.p + 1, row := sc.row + if s.owner[x] == id then [Table(s, fine)[u]] else [])
    else sc.(k := sc.k + 1, p := 0, row := [], rows := sc.rows + [sc.row])
  }

  lemma {:induction false} ReadNext(g: Compressed, s: State, id: int, part: seq<int>, fine: bool, sc: Scan)
    requires Part(g, part) && OwnsExactly(s, id, part) && |s.owner| == |s.loc| == |g.crows| && |s.oloc| == |g.rows|
    requires ScanOk(g, part, fine, sc, Table(s, fine)) && sc.put == |Cells(g, part, fine)| && 0 <= sc.k < sc.put
    requires sc.p < |Refs(g, fine, Cells(g, part, fine)[sc.k])|
    ensures ScanOk(g, part, fine, Onward(g, s, id, part, fine, sc), Table(s, fine)) == true
  {
    var c := Cells(g, part, fine)[sc.k];
    RefsInside(g, fine, c, sc.p);
    var u := Refs(g, fine, c)[sc.p];
    var x := SuperOf(g, fine, u);
    ReadRight(g, s, id, part, fine, u);
    var more := if s.owner[x] == id then [Table(s, fine)[u]] else [];
    ScanReads(g, part, fine, sc, Table(s, fine), more);
    assert Onward(g, s, id, part, fine, sc) == sc.(p := sc.p + 1, row := sc.row + more);
  }

  // The row gains what the reference contributes.
  lemma {:induction false} ScanReads(g: Graph, part: seq<int>, fine: bool, sc: Scan, table: seq<int>, more: seq<int>)
    requires ScanOk(g, part, fine, sc, table) && sc.put == |Cells(g, part, fine)| && 0 <= sc.k < sc.put
    requires sc.p < |Refs(g, fine, Cells(g, part, fine)[sc.k])|
    requires var u := Refs(g, fine, Cells(g, part, fine)[sc.k])[sc.p];
      more == if SuperOf(g, fine, u) in part then [IndexOf(Cells(g, part, fine), u)] else []
    ensures ScanOk(g, part, fine, sc.(p := sc.p + 1, row := sc.row + more), table) == true
  {
  }

  lemma {:induction false} RowNext(g: Graph, s: State, id: int, part: seq<int>, fine: bool, sc: Scan)
    requires ScanOk(g, part, fine, sc, Table(s, fine)) && sc.put == |Cells(g, part, fine)| && 0 <= sc.k < sc.put
    requires sc.p == |Refs(g, fine, Cells(g, part, fine)[sc.k])|
    ensures ScanOk(g, part, fine, Onward(g, s, id, part, fine, sc), Table(s, fine))
  {
  }

  ghost predicate LookedWell(g: Graph, t: Tools, s: State, s': State, id: int)
    requires 0 <= id < |s.nodes|
  {
    && Quiet(g, s, s', id) && s'.nodes[id].status.Reading?
    && ReadingOk(g, t, s', id, s'.nodes[id].status.tries, s'.nodes[id].status.scan)
    && s'.pending == s.pending && s'.ending == s.ending && s'.failed == s.failed
  }

  lemma LookedPut(g: Compressed, t: Kit, s: State, s': State, id: int, tries: bool, sc: Scan)
    requires Shape(g, s) && 0 <= id < |s.nodes| && Plain(s.nodes[id].status) && ReadingOk(g, t, s, id, tries, sc)
    requires Looked(g, t, s, id, tries, sc) == Some(s') && sc.put < |Cells(g, s.nodes[id].part, IsFine(t, s.nodes[id].part, tries))|
    ensures LookedWell(g, t, s, s', id)
  {
    var part := s.nodes[id].part;
    var fine := IsFine(t, part, tries);
    PutOk(g, t, s, id, tries, sc);
    PutQuiet(g, s, id, fine, Cells(g, part, fine)[sc.put], sc.put, Reading(tries, sc.(put := sc.put + 1)));
  }

  lemma OnwardOk(g: Compressed, s: State, id: int, part: seq<int>, fine: bool, sc: Scan)
    requires Part(g, part) && OwnsExactly(s, id, part) && |s.owner| == |s.loc| == |g.crows| && |s.oloc| == |g.rows|
    requires ScanOk(g, part, fine, sc, Table(s, fine)) && sc.put == |Cells(g, part, fine)| && 0 <= sc.k < sc.put
    ensures ScanOk(g, part, fine, Onward(g, s, id, part, fine, sc), Table(s, fine))
  {
    if sc.p < |Refs(g, fine, Cells(g, part, fine)[sc.k])| {
      ReadNext(g, s, id, part, fine, sc);
    } else {
      RowNext(g, s, id, part, fine, sc);
    }
  }

  lemma LookedIsOnward(g: Graph, t: Tools, s: State, s': State, id: int, tries: bool, sc: Scan)
    requires 0 <= id < |s.nodes| && Looked(g, t, s, id, tries, sc) == Some(s')
    requires var part := s.nodes[id].part; sc.put == |Cells(g, part, IsFine(t, part, tries))|
    ensures var part := s.nodes[id].part; var fine := IsFine(t, part, tries);
      && 0 <= sc.k < |Cells(g, part, fine)|
      && s' == Changed(s, id, Reading(tries, Onward(g, s, id, part, fine, sc)), s.ending, s.pending, s.failed)
  {
  }

  lemma LookedRead(g: Compressed, t: Kit, s: State, s': State, id: int, tries: bool, sc: Scan)
    requires Shape(g, s) && 0 <= id < |s.nodes| && Plain(s.nodes[id].status) && ReadingOk(g, t, s, id, tries, sc)
    requires Looked(g, t, s, id, tries, sc) == Some(s') && sc.put == |Cells(g, s.nodes[id].part, IsFine(t, s.nodes[id].part, tries))|
    ensures LookedWell(g, t, s, s', id)
  {
    var part := s.nodes[id].part;
    var fine := IsFine(t, part, tries);
    LookedIsOnward(g, t, s, s', id, tries, sc);
    OnwardOk(g, s, id, part, fine, sc);
    ChangedQuiet(g, s, id, Reading(tries, Onward(g, s, id, part, fine, sc)), s.ending, s.pending, s.failed);
  }

  lemma LookKeeps(g: Compressed, t: Kit, s: State, s': State, id: int)
    requires Inv(g, t, s) && Step(g, t, s, s', Look(id))
    ensures Inv(g, t, s')
  {
    var tries, sc := s.nodes[id].status.tries, s.nodes[id].status.scan;
    assert NodeOk(g, t, s, id);
    ReadingIs(g, t, s, id);
    if sc.put < |Cells(g, s.nodes[id].part, IsFine(t, s.nodes[id].part, tries))| {
      LookedPut(g, t, s, s', id, tries, sc);
    } else {
      LookedRead(g, t, s, s', id, tries, sc);
    }
    ReadingIs(g, t, s', id);
    QuietKeeps(g, t, s, s', id);
  }

  // ---- deciding ----

  // What a step that concerns one part must establish.
  ghost predicate DoneWell(g: Graph, t: Tools, s: State, s': State, id: int)
    requires 0 <= id < |s.nodes|
  {
    && Quiet(g, s, s', id) && NodeOk(g, t, s', id) && Balanced(s, s', id)
    && (s'.failed && !s.failed ==> Dissect(g, t, s.nodes[id].part, s.nodes[id].depth) == None)
  }

  // Applying the cut of a part that was tried.
  lemma AppliedOk(g: Compressed, t: Kit, s: State, id: int)
    requires 0 <= id < |s.nodes| && Part(g, s.nodes[id].part) && OwnsExactly(s, id, s.nodes[id].part)
    requires Plain(s.nodes[id].status) && Weight(s.nodes[id].status) == 1 && s.ending >= 0
    ensures DoneWell(g, t, s, Applied(s, id, CutOf(g, t, s.nodes[id].part, s.nodes[id].depth)), id)
  {
    var nd := s.nodes[id];
    match CutOf(g, t, nd.part, nd.depth)
    case Fails => FailedWell(g, t, s, id);
    case Stays => StaysWell(g, t, s, id);
    case Splits(side) => SplitsWell(g, t, s, id, side);
  }

  lemma StaysWell(g: Compressed, t: Kit, s: State, id: int)
    requires 0 <= id < |s.nodes| && Part(g, s.nodes[id].part) && OwnsExactly(s, id, s.nodes[id].part)
    requires Plain(s.nodes[id].status) && Weight(s.nodes[id].status) == 1 && s.ending >= 0
    requires CutOf(g, t, s.nodes[id].part, s.nodes[id].depth) == Stays
    ensures DoneWell(g, t, s, Changed(s, id, Reading(false, FRESH), s.ending, s.pending, s.failed), id)
  {
    var part, s' := s.nodes[id].part, Changed(s, id, Reading(false, FRESH), s.ending, s.pending, s.failed);
    FreshScan(g, part, IsFine(t, part, false), Table(s, IsFine(t, part, false)));
    ChangedQuiet(g, s, id, Reading(false, FRESH), s.ending, s.pending, s.failed);
    assert ReadingOk(g, t, s', id, false, FRESH);
    ReadingIs(g, t, s', id);
  }

  lemma SplitsWell(g: Compressed, t: Kit, s: State, id: int, side: seq<int>)
    requires 0 <= id < |s.nodes| && Part(g, s.nodes[id].part) && OwnsExactly(s, id, s.nodes[id].part)
    requires Plain(s.nodes[id].status) && Weight(s.nodes[id].status) == 1 && s.ending >= 0
    requires CutOf(g, t, s.nodes[id].part, s.nodes[id].depth) == Splits(side)
    ensures DoneWell(g, t, s, Changed(s, id, Parting(side), s.ending, s.pending, s.failed), id)
  {
    ChangedQuiet(g, s, id, Parting(side), s.ending, s.pending, s.failed);
  }

  // A part whose tool failed.
  lemma FailedWell(g: Compressed, t: Kit, s: State, id: int)
    requires 0 <= id < |s.nodes| && Part(g, s.nodes[id].part) && OwnsExactly(s, id, s.nodes[id].part)
    requires Plain(s.nodes[id].status) && Weight(s.nodes[id].status) == 1 && s.ending >= 0
    requires Dissect(g, t, s.nodes[id].part, s.nodes[id].depth) == None
    ensures DoneWell(g, t, s, Changed(s, id, Failed, s.ending + 1, s.pending, true), id)
  {
    ChangedQuiet(g, s, id, Failed, s.ending + 1, s.pending, true);
  }

  lemma DecidedCut(g: Compressed, t: Kit, s: State, id: int, scan: Scan)
    requires Shape(g, s) && 0 <= id < |s.nodes| && Plain(s.nodes[id].status) && Weight(s.nodes[id].status) == 1
    requires ReadingOk(g, t, s, id, true, scan) && scan.k == |Cells(g, s.nodes[id].part, false)|
    ensures DoneWell(g, t, s, Decided(g, t, s, id, true, scan.rows), id)
  {
    var nd := s.nodes[id];
    var plan := t.bisect(scan.rows, LocalWeights(g, nd.part), nd.depth);
    if plan.Now? {
      AppliedOk(g, t, s, id);
    } else {
      LocalSimple(g, nd.part);
      assert t.BisectSound(scan.rows, LocalWeights(g, nd.part), nd.depth);
      FreshRuns(|plan.runs|);
    }
  }

  lemma DecidedLeaf(g: Compressed, t: Kit, s: State, id: int, scan: Scan)
    requires Shape(g, s) && 0 <= id < |s.nodes| && Plain(s.nodes[id].status) && Weight(s.nodes[id].status) == 1
    requires ReadingOk(g, t, s, id, false, scan) && scan.k == |Cells(g, s.nodes[id].part, Fine(t, s.nodes[id].part))|
    ensures DoneWell(g, t, s, Decided(g, t, s, id, false, scan.rows), id)
  {
    var nd := s.nodes[id];
    assert LeafFrom(g, t, nd.part, scan.rows) == LeafOrder(g, t, nd.part);
    match LeafOrder(g, t, nd.part)
    case None => FailedWell(g, t, s, id);
    case Some(order) => LeafWell(g, t, s, id, order);
  }

  lemma LeafWell(g: Compressed, t: Kit, s: State, id: int, order: seq<int>)
    requires 0 <= id < |s.nodes| && Part(g, s.nodes[id].part) && OwnsExactly(s, id, s.nodes[id].part)
    requires Plain(s.nodes[id].status) && Weight(s.nodes[id].status) == 1 && s.ending >= 0
    requires CutOf(g, t, s.nodes[id].part, s.nodes[id].depth) == Stays && LeafOrder(g, t, s.nodes[id].part) == Some(order)
    ensures DoneWell(g, t, s, Changed(s, id, Leaf(order), s.ending + 1, s.pending, s.failed), id)
  {
    ChangedQuiet(g, s, id, Leaf(order), s.ending + 1, s.pending, s.failed);
  }

  lemma DecideKeeps(g: Compressed, t: Kit, s: State, s': State, id: int)
    requires Inv(g, t, s) && Step(g, t, s, s', Decide(id))
    ensures Inv(g, t, s')
  {
    assert NodeOk(g, t, s, id);
    ReadingIs(g, t, s, id);
    var status := s.nodes[id].status;
    if status.tries { DecidedCut(g, t, s, id, status.scan); } else { DecidedLeaf(g, t, s, id, status.scan); }
    QuietKeeps(g, t, s, s', id);
  }

  // Facts about a part whose runs are out.
  ghost predicate SeparatingOk(g: Graph, t: Tools, s: State, id: int, local: seq<seq<int>>, runs: seq<Run>, left: int)
    requires 0 <= id < |s.nodes|
  {
    var nd := s.nodes[id];
    && Part(g, nd.part) && OwnsExactly(s, id, nd.part) && Tries(t, nd.part, nd.depth) && local == Local(g, nd.part, false)
    && RunsOk(t.bisect(local, LocalWeights(g, nd.part), nd.depth), runs, left, s.failed)
  }

  lemma SeparatingIs(g: Graph, t: Tools, s: State, id: int)
    requires 0 <= id < |s.nodes| && s.nodes[id].status.Separating?
    ensures NodeOk(g, t, s, id) <==>
            SeparatingOk(g, t, s, id, s.nodes[id].status.local, s.nodes[id].status.runs, s.nodes[id].status.left)
  {
  }

  lemma TakeRunKeeps(g: Compressed, t: Kit, s: State, s': State, id: int, i: int)
    requires Inv(g, t, s) && Step(g, t, s, s', TakeRun(id, i))
    ensures Inv(g, t, s')
  {
    assert NodeOk(g, t, s, id);
    SeparatingIs(g, t, s, id);
    var status := s.nodes[id].status;
    RunsUpdate(status.runs, i, Goes);
    ChangedQuiet(g, s, id, status.(runs := status.runs[i := Goes]), s.ending, s.pending, s.failed);
    SeparatingIs(g, t, s', id);
    QuietKeeps(g, t, s, s', id);
  }

  lemma RunEnded(plan: Plan, runs: seq<Run>, i: int, left: int, failed: bool)
    requires RunsOk(plan, runs, left, failed) && 0 <= i < |runs| && runs[i].Goes?
    ensures if !plan.runs[i] then RunsOk(plan, runs[i := Broken], left, true) && Outcome(plan) == Fails
            else if left == 1 then Outcome(plan) == plan.cut && Busy(runs) == 1
            else RunsOk(plan, runs[i := Over], left - 1, failed)
    ensures Busy(runs[i := Broken]) == Busy(runs) - 1 && Busy(runs[i := Over]) == Busy(runs) - 1
  {
    RunsUpdate(runs, i, Broken);
    RunsUpdate(runs, i, Over);
    if plan.runs[i] && left == 1 { AllSucceeded(plan, runs, i, left, failed); }
  }

  lemma EndedOk(g: Compressed, t: Kit, s: State, id: int, i: int, local: seq<seq<int>>, runs: seq<Run>, left: int)
    requires 0 <= id < |s.nodes| && s.ending >= 0 && s.nodes[id].status == Separating(local, runs, left)
    requires SeparatingOk(g, t, s, id, local, runs, left) && 0 <= i < |runs| && runs[i].Goes?
    ensures DoneWell(g, t, s, Ended(g, t, s, id, i, local, runs, left), id)
  {
    var nd := s.nodes[id];
    var plan := t.bisect(local, LocalWeights(g, nd.part), nd.depth);
    RunEnded(plan, runs, i, left, s.failed);
    if !plan.runs[i] {
      ChangedQuiet(g, s, id, Separating(local, runs[i := Broken], left), s.ending + 1, s.pending, true);
    } else if left == 1 {
      AppliedOk(g, t, s, id);
    } else {
      ChangedQuiet(g, s, id, Separating(local, runs[i := Over], left - 1), s.ending + 1, s.pending, s.failed);
    }
  }

  lemma EndRunKeeps(g: Compressed, t: Kit, s: State, s': State, id: int, i: int)
    requires Inv(g, t, s) && Step(g, t, s, s', EndRun(id, i))
    ensures Inv(g, t, s')
  {
    assert NodeOk(g, t, s, id);
    SeparatingIs(g, t, s, id);
    var status := s.nodes[id].status;
    EndedOk(g, t, s, id, i, status.local, status.runs, status.left);
    QuietKeeps(g, t, s, s', id);
  }

  // When the last run ends well, all runs have.
  lemma AllSucceeded(plan: Plan, runs: seq<Run>, i: int, left: int, failed: bool)
    requires RunsOk(plan, runs, left, failed) && 0 <= i < |runs| && runs[i].Goes? && plan.runs[i] && left == 1
    ensures Outcome(plan) == plan.cut && Busy(runs) == 1
  {
    forall j | 0 <= j < |runs| && j != i
      ensures runs[j].Over? && plan.runs[j]
    {
      LastRun(runs, i, j);
    }
    BusyLeft(runs);
  }
}
