/** The addressable 4-ary min-heap: an entry per id, a position index, and sifts that move
    a hole instead of swapping. */
module IndexedHeap {

  datatype Entry = Entry(key: real, id: int)

  // Lexicographic order.
  predicate Before(a: Entry, b: Entry) {
    a.key < b.key || (a.key == b.key && a.id < b.id)
  }

  const ARITY := 4

  function Up(k: int): int { (k - 1) / ARITY }

  // ---- the index ----

  // pos is the exact inverse of heap's ids.
  ghost predicate Inverse(heap: seq<Entry>, pos: seq<int>) {
    && (forall k | 0 <= k < |heap| :: 0 <= heap[k].id < |pos| && pos[heap[k].id] == k)
    && (forall id | 0 <= id < |pos| :: pos[id] == -1 || (0 <= pos[id] < |heap| && heap[pos[id]].id == id))
  }

  // The map the heap stands for.
  ghost function MapOf(heap: seq<Entry>, pos: seq<int>): map<int, real> {
    map id | 0 <= id < |pos| && 0 <= pos[id] < |heap| :: heap[pos[id]].key
  }

  // Two entries change places.
  function Swap(heap: seq<Entry>, a: int, b: int): seq<Entry>
    requires 0 <= a < |heap| && 0 <= b < |heap|
  {
    heap[a := heap[b]][b := heap[a]]
  }

  lemma SwapIndex(heap: seq<Entry>, pos: seq<int>, a: int, b: int)
    requires Inverse(heap, pos) && 0 <= a < |heap| && 0 <= b < |heap| && a != b
    ensures var pos' := pos[heap[a].id := b][heap[b].id := a];
      && Inverse(Swap(heap, a, b), pos') == true && MapOf(Swap(heap, a, b), pos') == MapOf(heap, pos)
  {
    assert heap[a].id != heap[b].id;
    var pos', heap' := pos[heap[a].id := b][heap[b].id := a], Swap(heap, a, b);
    forall id
      ensures id in MapOf(heap', pos') <==> id in MapOf(heap, pos)
      ensures id in MapOf(heap, pos) ==> MapOf(heap', pos')[id] == MapOf(heap, pos)[id]
    {
    }
  }

  // ---- the order ----

  ghost predicate Ordered(heap: seq<Entry>) {
    forall j | 0 < j < |heap| :: !Before(heap[j], heap[Up(j)])
  }

  // Ordered but for entry k, which may be too small for its place.
  ghost predicate OrderedBelow(heap: seq<Entry>, k: int) {
    && 0 <= k < |heap|
    && (forall j | 0 < j < |heap| && j != k :: !Before(heap[j], heap[Up(j)]))
    && (forall j | 0 < j < |heap| && Up(j) == k && k > 0 :: !Before(heap[j], heap[Up(k)]))
  }

  // Ordered but for entry k, which may be too large for its place.
  ghost predicate OrderedAbove(heap: seq<Entry>, k: int) {
    && 0 <= k < |heap|
    && (forall j | 0 < j < |heap| && Up(j) != k :: !Before(heap[j], heap[Up(j)]))
    && (forall j | 0 < j < |heap| && Up(j) == k && k > 0 :: !Before(heap[j], heap[Up(k)]))
  }

  lemma RiseKeeps(heap: seq<Entry>, k: int)
    requires OrderedBelow(heap, k) && k > 0 && Before(heap[k], heap[Up(k)])
    ensures OrderedBelow(Swap(heap, k, Up(k)), Up(k)) == true
  {
  }

  lemma RiseEnds(heap: seq<Entry>, k: int)
    requires OrderedBelow(heap, k) && (k == 0 || !Before(heap[k], heap[Up(k)]))
    ensures Ordered(heap)
  {
  }

  // best is the least child of k.
  ghost predicate LeastChild(heap: seq<Entry>, k: int, best: int) {
    && 0 <= k < best < |heap| && Up(best) == k
    && forall j | 0 < j < |heap| && Up(j) == k :: !Before(heap[j], heap[best])
  }

  lemma SinkKeeps(heap: seq<Entry>, k: int, best: int)
    requires OrderedAbove(heap, k) && LeastChild(heap, k, best) && Before(heap[best], heap[k])
    ensures OrderedAbove(Swap(heap, k, best), best) == true
  {
  }

  lemma SinkEnds(heap: seq<Entry>, k: int)
    requires OrderedAbove(heap, k)
    requires 4 * k + 1 >= |heap| || exists best :: LeastChild(heap, k, best) && !Before(heap[best], heap[k])
    ensures Ordered(heap)
  {
    if 4 * k + 1 < |heap| {
      var best :| LeastChild(heap, k, best) && !Before(heap[best], heap[k]);
    }
  }

  lemma {:induction false} TopFirst(heap: seq<Entry>, k: int)
    requires Ordered(heap) && 0 <= k < |heap|
    ensures !Before(heap[k], heap[0])
    decreases k
  {
    if k > 0 { TopFirst(heap, Up(k)); }
  }

  // ---- the pop order of a map ----

  // (m[id], id) is the least of the map.
  ghost predicate Least(m: map<int, real>, id: int) {
    id in m && forall x | x in m && x != id :: Before(Entry(m[id], id), Entry(m[x], x))
  }

  lemma OneLeast(m: map<int, real>, a: int, b: int)
    requires Least(m, a) && Least(m, b)
    ensures a == b
  {
  }

  // es lists the map in ascending (key, id) order.
  ghost predicate Drains(m: map<int, real>, es: seq<Entry>)
    decreases |es|
  {
    if |es| == 0 then |m| == 0
    else Least(m, es[0].id) && es[0].key == m[es[0].id] && Drains(m - {es[0].id}, es[1..])
  }

  /** The pop sequence depends on the map alone. */
  lemma {:induction false} DrainsUnique(m: map<int, real>, es: seq<Entry>, fs: seq<Entry>)
    requires Drains(m, es) && Drains(m, fs)
    ensures es == fs
    decreases |es|
  {
    if |es| > 0 && |fs| > 0 {
      OneLeast(m, es[0].id, fs[0].id);
      DrainsUnique(m - {es[0].id}, es[1..], fs[1..]);
      assert es == [es[0]] + es[1..] && fs == [fs[0]] + fs[1..];
    }
  }

  lemma TopIsLeast(heap: seq<Entry>, pos: seq<int>)
    requires Inverse(heap, pos) && Ordered(heap) && |heap| > 0
    ensures Least(MapOf(heap, pos), heap[0].id) && MapOf(heap, pos)[heap[0].id] == heap[0].key
  {
    var m := MapOf(heap, pos);
    forall x | x in m && x != heap[0].id
      ensures Before(heap[0], Entry(m[x], x))
    {
      TopFirst(heap, pos[x]);
    }
  }

  // ---- the class ----

  class IndexedMinHeap {
    var heap: seq<Entry>
    var pos: seq<int>

    ghost predicate Valid()
      reads this
    {
      Inverse(heap, pos) && Ordered(heap)
    }

    ghost function Contents(): map<int, real>
      reads this
    {
      MapOf(heap, pos)
    }

    constructor (n: nat)
      ensures Valid() && Contents() == map[] && |pos| == n
    {
      heap, pos := [], seq(n, _ => -1);
    }

    // No id below n has a key yet.
    method Reset(n: nat)
      modifies this
      ensures Valid() && Contents() == map[] && |pos| == n
    {
      heap, pos := [], seq(n, _ => -1);
    }

    method Contains(id: int) returns (b: bool)
      requires Valid() && 0 <= id < |pos|
      ensures b <==> id in Contents()
    {
      b := pos[id] >= 0;
    }

    /** The least (key, id). */
    method Top() returns (key: real, id: int)
      requires Valid() && |heap| > 0
      ensures Least(Contents(), id) && Contents()[id] == key && id == heap[0].id
    {
      TopIsLeast(heap, pos);
      key, id := heap[0].key, heap[0].id;
    }

    method Place(k: int, e: Entry)
      requires 0 <= k < |heap| && 0 <= e.id < |pos|
      modifies this
      ensures heap == old(heap)[k := e] && pos == old(pos)[e.id := k]
    {
      heap := heap[k := e];
      pos := pos[e.id := k];
    }

    // The heap with x in the hole at k, and the index that goes with it.
    ghost predicate Holds(k: int, x: Entry, m: map<int, real>)
      reads this
    {
      && 0 <= k < |heap| && 0 <= x.id < |pos|
      && Inverse(heap[k := x], pos[x.id := k]) && MapOf(heap[k := x], pos[x.id := k]) == m
    }

    // The hole moves from k to b, whose entry moves into it.
    method MoveHole(k: int, b: int, x: Entry, ghost m: map<int, real>)
      requires Holds(k, x, m) && 0 <= b < |heap| && b != k
      modifies this
      ensures Holds(b, x, m) && |pos| == old(|pos|) && |heap| == old(|heap|)
      ensures heap[b := x] == Swap(old(heap)[k := x], k, b)
    {
      ghost var h, p := heap[k := x], pos[x.id := k];
      SwapIndex(h, p, k, b);
      assert h[b] == heap[b] && h[k] == x;
      Place(k, heap[b]);
      assert heap[b := x] == Swap(h, k, b);
      assert h[b].id != x.id;
      assert pos[x.id := b] == p[x.id := b][h[b].id := k];
    }

    method SiftUp(k0: int, ghost m: map<int, real>)
      requires 0 <= k0 < |heap| && Holds(k0, heap[k0], m) && OrderedBelow(heap, k0)
      modifies this
      ensures Valid() && Contents() == m && |pos| == old(|pos|)
    {
      var k, x := k0, heap[k0];
      assert heap[k := x] == heap;
      while k > 0
        invariant Holds(k, x, m) && |pos| == old(|pos|)
        invariant OrderedBelow(heap[k := x], k) == true
      {
        var up := (k - 1) / ARITY;
        if !Before(x, heap[up]) { break; }
        RiseKeeps(heap[k := x], k);
        MoveHole(k, up, x, m);
        k := up;
      }
      RiseEnds(heap[k := x], k);
      Place(k, x);
    }

    method FindLeast(k: int, x: Entry) returns (best: int)
      requires 0 <= k < |heap| && 4 * k + 1 < |heap|
      ensures LeastChild(heap[k := x], k, best)
    {
      var c0 := ARITY * k + 1;
      var c1 := if c0 + ARITY < |heap| then c0 + ARITY else |heap|;
      best := c0;
      for c := c0 + 1 to c1
        invariant c0 <= best < c && forall j | c0 <= j < c :: !Before(heap[j], heap[best])
      {
        if Before(heap[c], heap[best]) { best := c; }
      }
      forall j | 0 < j < |heap| && Up(j) == k
        ensures !Before(heap[j], heap[best])
      {
      }
    }

    method SiftDown(x: Entry, ghost m: map<int, real>)
      requires |heap| > 0 && Holds(0, x, m) && OrderedAbove(heap[0 := x], 0)
      modifies this
      ensures Valid() && Contents() == m && |pos| == old(|pos|) && |heap| == old(|heap|)
    {
      var k := 0;
      while true
        invariant Holds(k, x, m) && |pos| == old(|pos|) && |heap| == old(|heap|)
        invariant OrderedAbove(heap[k := x], k) == true
        decreases |heap| - k
      {
        if ARITY * k + 1 >= |heap| { break; }
        var best := FindLeast(k, x);
        if !Before(heap[best], x) { break; }
        SinkKeeps(heap[k := x], k, best);
        MoveHole(k, best, x, m);
        k := best;
      }
      SinkEnds(heap[k := x], k);
      Place(k, x);
    }

    /** Inserts id, or lowers its key. */
    method PushOrDecrease(id: int, key: real)
      requires Valid() && 0 <= id < |pos| && (id in Contents() ==> key <= Contents()[id])
      modifies this
      ensures Valid() && Contents() == old(Contents())[id := key] && |pos| == old(|pos|)
    {
      ghost var m := Contents()[id := key];
      var p := pos[id];
      if p < 0 {
        PushedHolds(heap, pos, id, key);
        heap := heap + [Entry(key, id)];
        assert heap[|heap| - 1 := heap[|heap| - 1]] == heap;
        SiftUp(|heap| - 1, m);
      } else {
        DecreasedHolds(heap, pos, p, key);
        heap := heap[p := heap[p].(key := key)];
        assert heap[p := heap[p]] == heap && pos[id := p] == pos;
        SiftUp(p, m);
      }
    }

    /** Forgets the key of the least (key, id) and keeps every other. */
    method Pop()
      requires Valid() && |heap| > 0
      modifies this
      ensures Valid() && Contents() == old(Contents()) - {old(heap[0].id)} && |pos| == old(|pos|) && |heap| == old(|heap|) - 1
    {
      PoppedHolds(heap, pos);
      ghost var m := Contents() - {heap[0].id};
      var last := heap[|heap| - 1];
      pos := pos[heap[0].id := -1];
      heap := heap[..|heap| - 1];
      if |heap| > 0 { SiftDown(last, m); }
    }

    /** Removes every entry. */
    method Clear()
      requires Valid()
      modifies this
      ensures Valid() && Contents() == map[] && |pos| == old(|pos|)
    {
      for k := 0 to |heap|
        invariant heap == old(heap) && |pos| == old(|pos|)
        invariant forall id | 0 <= id < |pos| :: pos[id] == if 0 <= old(pos)[id] < k then -1 else old(pos)[id]
      {
        pos := pos[heap[k].id := -1];
      }
      heap := [];
    }

    /** Popping until empty lists the map in ascending (key, id) order. */
    method Drain() returns (es: seq<Entry>)
      requires Valid()
      modifies this
      ensures Valid() && Contents() == map[] && Drains(old(Contents()), es)
      decreases |heap|
    {
      if |heap| == 0 {
        es := [];
        assert Contents() == map[];
      } else {
        TopIsLeast(heap, pos);
        var key, id := Top();
        Pop();
        var rest := Drain();
        es := [Entry(key, id)] + rest;
        assert es[1..] == rest;
      }
    }
  }

  lemma PushedHolds(heap: seq<Entry>, pos: seq<int>, id: int, key: real)
    requires Inverse(heap, pos) && Ordered(heap) && 0 <= id < |pos| && pos[id] < 0
    ensures var h, p := heap + [Entry(key, id)], pos[id := |heap|];
      && Inverse(h, p) == true && MapOf(h, p) == MapOf(heap, pos)[id := key] && OrderedBelow(h, |heap|) == true
  {
  }

  lemma DecreasedHolds(heap: seq<Entry>, pos: seq<int>, k: int, key: real)
    requires Inverse(heap, pos) && Ordered(heap) && 0 <= k < |heap| && key <= heap[k].key
    ensures var h := heap[k := heap[k].(key := key)];
      && Inverse(h, pos) == true && MapOf(h, pos) == MapOf(heap, pos)[heap[k].id := key] && OrderedBelow(h, k) == true
  {
    var h := heap[k := heap[k].(key := key)];
    forall j | 0 < j < |h| && j != k
      ensures !Before(h[j], h[Up(j)])
    {
      assert !Before(heap[j], heap[Up(j)]);
    }
    forall j | 0 < j < |h| && Up(j) == k && k > 0
      ensures !Before(h[j], h[Up(k)])
    {
      assert !Before(heap[j], heap[k]) && !Before(heap[k], heap[Up(k)]);
    }
  }

  lemma PoppedHolds(heap: seq<Entry>, pos: seq<int>)
    requires Inverse(heap, pos) && Ordered(heap) && |heap| > 0
    ensures var h, p, last := heap[..|heap| - 1], pos[heap[0].id := -1], heap[|heap| - 1];
      && MapOf(heap, pos) - {heap[0].id} == (if |h| == 0 then map[] else MapOf(h[0 := last], p[last.id := 0]))
      && (if |h| == 0 then Inverse(h, p) == true && MapOf(h, p) == map[]
          else Inverse(h[0 := last], p[last.id := 0]) == true && OrderedAbove(h[0 := last], 0) == true)
  {
    var h, p, last := heap[..|heap| - 1], pos[heap[0].id := -1], heap[|heap| - 1];
    if |h| > 0 {
      assert last.id != heap[0].id;
      forall j | 0 < j < |h| && Up(j) != 0
        ensures !Before(h[0 := last][j], h[0 := last][Up(j)])
      {
        assert !Before(heap[j], heap[Up(j)]);
      }
    }
  }
}
