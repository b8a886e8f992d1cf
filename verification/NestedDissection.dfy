/** The whole ordering: compression, the tasks under some schedule, emission. */
module NestedDissection {
  import opened Sequences
  import opened Supervariables
  import opened CompressedGraph
  import opened Dissection
  import opened DissectionTasks
  import opened DissectionRuns
  import opened DissectionBound
  import opened DissectionMeaning

  // What the threads did, step by step.
  datatype Schedule = Schedule(states: seq<State>, acts: seq<Action>)

  // The threads are done: no task is pending or one failed.
  ghost predicate Completed(g: Graph, t: Tools, done: Schedule) {
    IsRun(g, t, done.states, done.acts) && Finished(done.states[|done.acts|])
  }

  /** There is such a schedule, whatever the tools. */
  lemma SomeScheduleCompletes(g: Compressed, t: Kit) returns (done: Schedule)
    ensures Completed(g, t, done)
  {
    var s := State([Node(Whole(g), 0, Queued)], seq(|g.crows|, _ => 0), seq(|g.crows|, _ => 0), seq(|g.rows|, _ => 0), 0, 1, false);
    var states, acts := EveryRunFinishes(g, t, [s], []);
    done := Schedule(states, acts);
  }

  // The graph of the tasks, built from the input.
  ghost predicate IsCompressed(rows: seq<seq<int>>, w: seq<int>, g: Graph) {
    && g.rows == rows && |g.weights| == |g.crows|
    && Numbered(Reps(rows, |rows|), g.superOf, |g.crows|) && Weigh(g.weights, g.superOf, w)
    && IsQuotient(rows, g.superOf, |g.crows|, g.crows)
  }

  // Whatever compression merges is alike.
  ghost predicate OnlyAlikeMerge(rows: seq<seq<int>>) {
    forall superOf, ns :: Numbered(Reps(rows, |rows|), superOf, ns) ==> MergesAlike(rows, superOf)
  }

  /** Lists without repetition are such an input. */
  lemma SimpleMergesAlike(rows: seq<seq<int>>)
    requires Simple(rows)
    ensures Symmetric(rows) && OnlyAlikeMerge(rows)
  {
    SimpleTestsRight(rows);
    forall superOf, ns | Numbered(Reps(rows, |rows|), superOf, ns)
      ensures MergesAlike(rows, superOf)
    {
      RightTestsMergeAlike(rows, superOf, ns);
    }
  }

  // One per vertex when no weights are given.
  function WeightsOf(n: int, vwgt: Option<seq<int>>): seq<int> {
    match vwgt
    case Some(w) => w
    case None => seq(if n < 0 then 0 else n, _ => 1)
  }

  // What the ordering returns.
  ghost predicate IsOrder(rows: seq<seq<int>>, w: seq<int>, t: Tools, ok: bool, perm: seq<int>) {
    if |rows| <= 2 then ok && perm == seq(|rows|, i => i)
    else exists g :: IsCompressed(rows, w, g) && (ok <==> Dissect(g, t, Whole(g), 0).Some?)
                     && (ok ==> Dissect(g, t, Whole(g), 0) == Some(perm))
  }

  // What the result says of the input and the tools: there is no order exactly when a tool
  // fails on a part that is reached, and an order places every part as its tool says.
  ghost predicate FollowsTools(rows: seq<seq<int>>, w: seq<int>, t: Tools, ok: bool, perm: seq<int>) {
    if |rows| <= 2 then ok && perm == seq(|rows|, i => i)
    else exists g :: IsCompressed(rows, w, g) && ToolsPlace(g, t, ok, perm)
  }

  ghost predicate ToolsPlace(g: Graph, t: Tools, ok: bool, perm: seq<int>) {
    && (!ok <==> exists path, part :: Reached(g, t, path, part) && Stuck(g, t, part, |path|))
    && (ok ==> Stands(g, t, perm))
  }

  /** The recursion's order is the one its tools ask for. */
  lemma {:induction false} OrderFollows(rows: seq<seq<int>>, w: seq<int>, t: Kit, ok: bool, perm: seq<int>)
    requires Symmetric(rows) && OnlyAlikeMerge(rows) && IsOrder(rows, w, t, ok, perm)
    ensures FollowsTools(rows, w, t, ok, perm)
  {
    if |rows| > 2 {
      var g :| IsCompressed(rows, w, g) && (ok <==> Dissect(g, t, Whole(g), 0).Some?)
               && (ok ==> Dissect(g, t, Whole(g), 0) == Some(perm));
      CompressedIsValid(rows, g.superOf, |g.crows|, g.crows, g.weights);
      RecursionPlaces(g, t, ok, perm);
    }
  }

  lemma {:induction false} RecursionPlaces(g: Compressed, t: Kit, ok: bool, perm: seq<int>)
    requires (ok <==> Dissect(g, t, Whole(g), 0).Some?) && (ok ==> Dissect(g, t, Whole(g), 0) == Some(perm))
    ensures ToolsPlace(g, t, ok, perm)
  {
    NoneMeaning(g, t);
    if ok { DissectStands(g, t); }
  }

  /** The tools ask for one permutation at most. */
  lemma {:induction false} FollowsOnce(rows: seq<seq<int>>, w: seq<int>, t: Kit, ok: bool, perm: seq<int>, ok': bool, perm': seq<int>)
    requires Symmetric(rows) && OnlyAlikeMerge(rows) && FollowsTools(rows, w, t, ok, perm) && FollowsTools(rows, w, t, ok', perm')
    requires Permutes(perm, |rows|) && Permutes(perm', |rows|)
    ensures ok == ok' && (ok ==> perm == perm')
  {
    if |rows| > 2 {
      var g :| IsCompressed(rows, w, g) && ToolsPlace(g, t, ok, perm);
      var g' :| IsCompressed(rows, w, g') && ToolsPlace(g', t, ok', perm');
      CompressedUnique(rows, w, g, g');
      CompressedIsValid(rows, g.superOf, |g.crows|, g.crows, g.weights);
      if ok { StandsUnique(g, t, perm, perm'); }
    }
  }

  /** The order of the input graph: small graphs stay as they are; otherwise the order is the
      recursion's on the compressed graph, and there is none exactly when that fails. So its
      halves stand before their separators and its leaves as AMD or METIS order them. The
      threads' schedule is arbitrary. */
  method ParallelNdOrder(rows: seq<seq<int>>, vwgt: Option<seq<int>>, t: Kit, threads: Graph -> Schedule, perm: array<int>)
      returns (ok: bool)
    requires Symmetric(rows) && OnlyAlikeMerge(rows) && perm.Length == |rows|
    requires vwgt.Some? ==> |vwgt.value| == |rows|
    requires forall g: Graph {:trigger threads(g)} | g.Valid() :: Completed(g, t, threads(g))
    modifies perm
    ensures IsOrder(rows, WeightsOf(|rows|, vwgt), t, ok, perm[..])
    ensures FollowsTools(rows, WeightsOf(|rows|, vwgt), t, ok, perm[..])
    ensures ok ==> Permutes(perm[..], |rows|)
  {
    if |rows| <= 2 {
      for i := 0 to |rows|
        invariant forall j | 0 <= j < i :: perm[j] == j
      {
        perm[i] := i;
      }
      return true;
    }
    var superOf, ns, weights, crows := Compress(rows, WeightsOf(|rows|, vwgt));
    CompressedIsValid(rows, superOf[..], ns, crows, weights[..]);
    var g := Graph(rows, superOf[..], crows, weights[..]);
    assert IsCompressed(rows, WeightsOf(|rows|, vwgt), g);
    var done := threads(g);
    var last := done.states[|done.acts|];
    OutcomeIsScheduleFree(g, t, done.states, done.acts);
    if last.failed {
      RecursionPlaces(g, t, false, perm[..]);
      return false;
    }
    ok := EmitOrder(g, t, last.nodes, perm, done.states, done.acts);
    RecursionPlaces(g, t, ok, perm[..]);
  }

  // ---- the result depends on the graph alone ----

  lemma QuotientUnique(rows: seq<seq<int>>, superOf: seq<int>, ns: int, crows: seq<seq<int>>, crows': seq<seq<int>>)
    requires IsQuotient(rows, superOf, ns, crows) && IsQuotient(rows, superOf, ns, crows')
    ensures crows == crows'
  {
    forall s | 0 <= s < ns
      ensures crows[s] == crows'[s]
    {
      forall x ensures x in crows[s] <==> x in crows'[s] {
        assert Beside(rows, superOf, s, Members(superOf, s)[0], x) <==> x in crows[s];
      }
      AscendingUnique(crows[s], crows'[s]);
    }
  }

  lemma CompressedUnique(rows: seq<seq<int>>, w: seq<int>, g: Graph, g': Graph)
    requires IsCompressed(rows, w, g) && IsCompressed(rows, w, g')
    ensures g == g'
  {
    assert g.superOf == g'.superOf;
    QuotientUnique(rows, g.superOf, |g.crows|, g.crows, g'.crows);
    assert g.weights == g'.weights;
  }

  /** Neither the schedule nor the number of threads changes the result: the same success
      and, with it, the same permutation. */
  lemma OrderIsUnique(rows: seq<seq<int>>, w: seq<int>, t: Tools, ok: bool, perm: seq<int>, ok': bool, perm': seq<int>)
    requires IsOrder(rows, w, t, ok, perm) && IsOrder(rows, w, t, ok', perm')
    ensures ok == ok' && (ok ==> perm == perm')
  {
    if |rows| > 2 {
      var g :| IsCompressed(rows, w, g) && (ok <==> Dissect(g, t, Whole(g), 0).Some?)
               && (ok ==> Dissect(g, t, Whole(g), 0) == Some(perm));
      var g' :| IsCompressed(rows, w, g') && (ok' <==> Dissect(g', t, Whole(g'), 0).Some?)
                && (ok' ==> Dissect(g', t, Whole(g'), 0) == Some(perm'));
      CompressedUnique(rows, w, g, g');
    }
  }

  /** Supervariables are written out whole: the order is one of the supervariables with the
      members of each, ascending, in its place. */
  lemma OrderExpands(rows: seq<seq<int>>, w: seq<int>, t: Kit, perm: seq<int>) returns (g: Graph, ss: seq<int>)
    requires Symmetric(rows) && OnlyAlikeMerge(rows) && |rows| > 2 && IsOrder(rows, w, t, true, perm)
    ensures IsCompressed(rows, w, g) && Permutes(ss, |g.crows|) && perm == Originals(g, ss)
  {
    g :| IsCompressed(rows, w, g) && Dissect(g, t, Whole(g), 0) == Some(perm);
    CompressedIsValid(rows, g.superOf, |g.crows|, g.crows, g.weights);
    WholePart(g);
    ss := DissectExpands(g, t, Whole(g), 0);
    CountsOfWhole(g, ss);
  }

  lemma CountsOfWhole(g: Graph, ss: seq<int>)
    requires forall s :: Count(ss, s) == Count(Whole(g), s)
    ensures Permutes(ss, |g.crows|)
  {
    var all := Whole(g);
    forall i | 0 <= i < |ss|
      ensures 0 <= ss[i] < |g.crows|
    {
      CountAbsent(ss, ss[i]);
      var k := CountFound(all, ss[i]);
    }
    forall s | 0 <= s < |g.crows|
      ensures Count(ss, s) == 1
    {
      DistinctCounts(all, s);
      assert all[s] == s;
    }
    OnceEach(ss, |g.crows|);
  }
}
