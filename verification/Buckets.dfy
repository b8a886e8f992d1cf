/** Counting sort into compressed lists: count, prefix sums, fill by cursors. */
module Buckets {

  // A value filed under a key.
  datatype Item = Item(key: int, value: int)

  // Values of the first m items under key k, in order.
  function Bucket(items: seq<Item>, m: int, k: int): seq<int>
    decreases m
  {
    if m <= 0 || m > |items| then []
    else if items[m - 1].key == k then Bucket(items, m - 1, k) + [items[m - 1].value]
    else Bucket(items, m - 1, k)
  }

  // How many items have a key in [0, k).
  function Before(items: seq<Item>, m: int, k: int): nat
    decreases k
  {
    if k <= 0 then 0 else Before(items, m, k - 1) + |Bucket(items, m, k - 1)|
  }

  ghost predicate Keyed(items: seq<Item>, n: int) {
    forall i | 0 <= i < |items| :: 0 <= items[i].key < n
  }

  lemma {:induction false} BucketGrows(items: seq<Item>, m: int, m': int, k: int)
    requires 0 <= m <= m' <= |items|
    ensures Bucket(items, m, k) <= Bucket(items, m', k)
    decreases m'
  {
    if m < m' { BucketGrows(items, m, m' - 1, k); }
  }

  lemma {:induction false} BeforeGrows(items: seq<Item>, m: int, k: int, k': int)
    requires k <= k'
    ensures Before(items, m, k) <= Before(items, m, k')
    decreases k'
  {
    if k < k' && k' > 0 { BeforeGrows(items, m, k, k' - 1); }
  }

  // One more item moves every start behind its key up by one.
  lemma {:induction false} BeforeNext(items: seq<Item>, m: int, k: int)
    requires 0 <= m < |items| && items[m].key >= 0
    ensures Before(items, m + 1, k) == Before(items, m, k) + (if items[m].key < k then 1 else 0)
    decreases k
  {
    if k > 0 { BeforeNext(items, m, k - 1); }
  }

  lemma {:induction false} BeforeAll(items: seq<Item>, m: int, n: int)
    requires 0 <= m <= |items| && Keyed(items, n)
    ensures Before(items, m, n) == m
    decreases m
  {
    if m > 0 {
      BeforeAll(items, m - 1, n);
      BeforeNext(items, m - 1, n);
    } else {
      BeforeNone(items, n);
    }
  }

  lemma {:induction false} BeforeNone(items: seq<Item>, k: int)
    ensures Before(items, 0, k) == 0
    decreases k
  {
    if k > 0 { BeforeNone(items, k - 1); }
  }

  // ---- counting ----

  // cnt[k + 1] counts key k.
  ghost predicate Counted(items: seq<Item>, m: int, cnt: seq<int>, n: int) {
    && |cnt| > n >= 0 && cnt[0] == 0
    && forall k {:trigger cnt[k]} | 0 < k <= n :: cnt[k] == |Bucket(items, m, k - 1)|
  }

  lemma CountNext(items: seq<Item>, m: int, cnt: seq<int>, n: int)
    requires 0 <= m < |items| && Keyed(items, n) && Counted(items, m, cnt, n)
    ensures var k := items[m].key; Counted(items, m + 1, cnt[k + 1 := cnt[k + 1] + 1], n)
  {
  }

  // Entries below k are already starts.
  ghost predicate Summed(items: seq<Item>, st: seq<int>, n: int, k: int) {
    && |st| > n >= 0 && 0 <= k <= n
    && (forall x {:trigger st[x]} | 0 <= x <= k :: st[x] == Before(items, |items|, x))
    && (forall x {:trigger st[x]} | k < x <= n :: st[x] == |Bucket(items, |items|, x - 1)|)
  }

  lemma SumNext(items: seq<Item>, st: seq<int>, n: int, k: int)
    requires Summed(items, st, n, k) && k < n
    ensures Summed(items, st[k + 1 := st[k + 1] + st[k]], n, k + 1)
  {
  }

  // ---- filling ----

  function Slot(items: seq<Item>, m: int, k: int): int {
    Before(items, |items|, k) + |Bucket(items, m, k)|
  }

  // The first m items sit in their buckets.
  ghost predicate Filled(items: seq<Item>, m: int, d: seq<int>, n: int) {
    forall k {:trigger Slot(items, m, k)} | 0 <= k < n :: 0 <= Slot(items, m, k) <= |d|
      && d[Before(items, |items|, k)..Slot(items, m, k)] == Bucket(items, m, k)
  }

  // The next slot of a key is inside its own bucket.
  lemma SlotInside(items: seq<Item>, m: int, n: int)
    requires 0 <= m < |items| && Keyed(items, n)
    ensures var k := items[m].key; Slot(items, m, k) < Before(items, |items|, k + 1) <= |items|
  {
    var k := items[m].key;
    BucketGrows(items, m + 1, |items|, k);
    BeforeGrows(items, |items|, k + 1, n);
    BeforeAll(items, |items|, n);
  }

  lemma FillNext(items: seq<Item>, m: int, d: seq<int>, n: int)
    requires 0 <= m < |items| && Keyed(items, n) && |items| <= |d| && Filled(items, m, d, n)
    ensures var k := items[m].key; 0 <= Slot(items, m, k) < |d| && Filled(items, m + 1, d[Slot(items, m, k) := items[m].value], n)
  {
    var k := items[m].key;
    SlotInside(items, m, n);
    var d' := d[Slot(items, m, k) := items[m].value];
    forall x | 0 <= x < n
      ensures 0 <= Slot(items, m + 1, x) <= |d'| && d'[Before(items, |items|, x)..Slot(items, m + 1, x)] == Bucket(items, m + 1, x)
    {
      FillOther(items, m, d, n, x);
    }
  }

  lemma SliceKept(d: seq<int>, at: int, v: int, lo: int, hi: int)
    requires 0 <= at < |d| && 0 <= lo <= hi <= |d| && (at < lo || hi <= at)
    ensures d[at := v][lo..hi] == d[lo..hi]
  {
  }

  lemma SliceGrown(d: seq<int>, at: int, v: int, lo: int)
    requires 0 <= lo <= at < |d|
    ensures d[at := v][lo..at + 1] == d[lo..at] + [v]
  {
  }

  // Another key's bucket lies before or behind the slot.
  lemma SlotApart(items: seq<Item>, m: int, n: int, x: int)
    requires 0 <= m < |items| && Keyed(items, n) && 0 <= x < n && x != items[m].key
    ensures var at := Slot(items, m, items[m].key); at < Before(items, |items|, x) || Slot(items, m, x) <= at
  {
    var k := items[m].key;
    SlotInside(items, m, n);
    BucketGrows(items, m, |items|, x);
    if x < k { BeforeGrows(items, |items|, x + 1, k); } else { BeforeGrows(items, |items|, k + 1, x); }
  }

  lemma FillOther(items: seq<Item>, m: int, d: seq<int>, n: int, x: int)
    requires 0 <= m < |items| && Keyed(items, n) && Filled(items, m, d, n) && 0 <= x < n
    requires 0 <= Slot(items, m, items[m].key) < |d|
    ensures var d' := d[Slot(items, m, items[m].key) := items[m].value];
      0 <= Slot(items, m + 1, x) <= |d'| && d'[Before(items, |items|, x)..Slot(items, m + 1, x)] == Bucket(items, m + 1, x)
  {
    var k := items[m].key;
    var at, lo, hi := Slot(items, m, k), Before(items, |items|, x), Slot(items, m, x);
    assert d[lo..hi] == Bucket(items, m, x);
    if x == k {
      SliceGrown(d, at, items[m].value, lo);
    } else {
      SlotApart(items, m, n, x);
      SliceKept(d, at, items[m].value, lo, hi);
      assert Bucket(items, m + 1, x) == Bucket(items, m, x);
      assert Slot(items, m + 1, x) == hi;
    }
  }

  lemma FillNone(items: seq<Item>, d: seq<int>, n: int)
    requires Keyed(items, n) && |items| <= |d|
    ensures Filled(items, 0, d, n)
  {
    forall k | 0 <= k < n
      ensures 0 <= Slot(items, 0, k) <= |d|
    {
      BeforeGrows(items, |items|, k, n);
      BeforeAll(items, |items|, n);
    }
  }

  // The full buckets, between their starts.
  lemma FilledAll(items: seq<Item>, d: seq<int>, n: int, k: int)
    requires Filled(items, |items|, d, n) && 0 <= k < n
    ensures Slot(items, |items|, k) == Before(items, |items|, k + 1)
    ensures Before(items, |items|, k + 1) <= |d| && d[Before(items, |items|, k)..Before(items, |items|, k + 1)] == Bucket(items, |items|, k)
  {
  }
}
