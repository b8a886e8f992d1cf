/** The early stop of a work-limited factorization: decided over the fronts in postorder
    whatever order they run in, by threads that store their fronts' works, add them to
    a shared total and walk a cursor under a lock. */
module EarlyStop {
  import opened Sequences

  datatype Verdict = Open | GoOn | Halt

  /** The finished factorization's works and delay-free works in postorder, and the two
      thresholds. */
  datatype Fronts = Fronts(w: seq<int>, free: seq<real>, at: int, proj: real) {
    ghost predicate Valid() {
      |w| == |free| && forall k | 0 <= k < |w| :: w[k] >= 0
    }
  }

  type Tree = t: Fronts | t.Valid() witness Fronts([], [], 0, 0.0)

  function Prefix(w: seq<int>, k: int): int
    requires k <= |w|
    decreases k
  {
    if k <= 0 then 0 else Prefix(w, k - 1) + w[k - 1]
  }

  function FreePrefix(free: seq<real>, k: int): real
    requires k <= |free|
    decreases k
  {
    if k <= 0 then 0.0 else FreePrefix(free, k - 1) + free[k - 1]
  }

  // The running work passes the limit at front k.
  predicate Crosses(t: Tree, k: int) {
    0 <= k < |t.w| && Prefix(t.w, k) <= t.at < Prefix(t.w, k + 1)
  }

  function Decision(t: Tree, k: int): Verdict
    requires 0 <= k < |t.w|
  {
    if Prefix(t.w, k + 1) as real > t.proj * FreePrefix(t.free, k + 1) then Halt else GoOn
  }

  // The serial verdict after the first k fronts.
  function Serial(t: Tree, k: int): Verdict
    requires k <= |t.w|
    decreases k
  {
    if k <= 0 then Open else if Crosses(t, k - 1) then Decision(t, k - 1) else Serial(t, k - 1)
  }

  lemma {:induction false} PrefixGrows(t: Tree, j: int, k: int)
    requires 0 <= j <= k <= |t.w|
    ensures Prefix(t.w, j) <= Prefix(t.w, k)
    decreases k
  {
    if j < k { PrefixGrows(t, j, k - 1); }
  }

  lemma CrossesOnce(t: Tree, j: int, k: int)
    requires Crosses(t, j) && Crosses(t, k)
    ensures j == k
  {
    if j < k { PrefixGrows(t, j + 1, k); }
    if k < j { PrefixGrows(t, k + 1, j); }
  }

  /** The serial verdict is open up to the crossing and the crossing's decision after. */
  lemma {:induction false} SerialIs(t: Tree, k: int, c: int)
    requires 0 <= k <= |t.w| && Crosses(t, c)
    ensures Serial(t, k) == if k <= c then Open else Decision(t, c)
    decreases k
  {
    if k > 0 {
      SerialIs(t, k - 1, c);
      if Crosses(t, k - 1) { CrossesOnce(t, k - 1, c); }
    }
  }

  lemma {:induction false} SomeCrossing(t: Tree, k: int) returns (c: int)
    requires 0 <= k <= |t.w| && Serial(t, k) != Open
    ensures 0 <= c < k && Crosses(t, c) && Serial(t, k) == Decision(t, c)
    decreases k
  {
    if Crosses(t, k - 1) { c := k - 1; } else { c := SomeCrossing(t, k - 1); }
  }

  // ---- the verdict on the fronts' works ----

  function Total(xs: seq<int>): int {
    if |xs| == 0 then 0 else xs[0] + Total(xs[1..])
  }

  function TotalFree(xs: seq<real>): real {
    if |xs| == 0 then 0.0 else xs[0] + TotalFree(xs[1..])
  }

  // Reported in postorder, the works first exceed the limit with front c's.
  predicate Passes(t: Tree, c: int) {
    0 <= c < |t.w| && Total(t.w[..c]) <= t.at < Total(t.w[..c + 1])
  }

  // By front c the work is more than proj times what it would be without delays.
  predicate TooMuch(t: Tree, c: int)
    requires 0 <= c < |t.w|
  {
    Total(t.w[..c + 1]) as real > t.proj * TotalFree(t.free[..c + 1])
  }

  // v is the verdict once the fronts before k are accounted: none before the limit is passed,
  // then to halt exactly when there had been too much work.
  ghost predicate Told(t: Tree, k: int, v: Verdict) {
    && (v == Open <==> forall c :: c < k ==> !Passes(t, c))
    && (v == Halt <==> exists c :: c < k && Passes(t, c) && TooMuch(t, c))
  }

  lemma {:induction false} TotalSnoc(xs: seq<int>, x: int)
    ensures Total(xs + [x]) == Total(xs) + x
    decreases |xs|
  {
    if |xs| > 0 {
      assert (xs + [x])[1..] == xs[1..] + [x];
      TotalSnoc(xs[1..], x);
    }
  }

  lemma {:induction false} TotalFreeSnoc(xs: seq<real>, x: real)
    ensures TotalFree(xs + [x]) == TotalFree(xs) + x
    decreases |xs|
  {
    if |xs| > 0 {
      assert (xs + [x])[1..] == xs[1..] + [x];
      TotalFreeSnoc(xs[1..], x);
    }
  }

  lemma {:induction false} PrefixIsTotal(t: Tree, k: int)
    requires 0 <= k <= |t.w|
    ensures Prefix(t.w, k) == Total(t.w[..k]) && FreePrefix(t.free, k) == TotalFree(t.free[..k])
    decreases k
  {
    if k > 0 {
      PrefixIsTotal(t, k - 1);
      assert t.w[..k] == t.w[..k - 1] + [t.w[k - 1]] && t.free[..k] == t.free[..k - 1] + [t.free[k - 1]];
      TotalSnoc(t.w[..k - 1], t.w[k - 1]);
      TotalFreeSnoc(t.free[..k - 1], t.free[k - 1]);
    }
  }

  lemma {:induction false} CrossesPasses(t: Tree, c: int)
    ensures Crosses(t, c) <==> Passes(t, c)
    ensures Crosses(t, c) ==> Decision(t, c) == if TooMuch(t, c) then Halt else GoOn
  {
    if 0 <= c < |t.w| {
      PrefixIsTotal(t, c);
      PrefixIsTotal(t, c + 1);
    }
  }

  /** The serial verdict on the works alone. */
  lemma {:induction false} SerialMeaning(t: Tree, k: int, v: Verdict)
    requires 0 <= k <= |t.w|
    ensures Serial(t, k) == v <==> Told(t, k, v)
  {
    forall c ensures Crosses(t, c) <==> Passes(t, c) { CrossesPasses(t, c); }
    if Serial(t, k) == Open {
      forall c | c < k ensures !Passes(t, c) {
        if Crosses(t, c) { SerialIs(t, k, c); }
      }
    } else {
      var c := SomeCrossing(t, k);
      CrossesPasses(t, c);
      forall x | Passes(t, x) ensures x == c { CrossesOnce(t, x, c); }
    }
  }

  lemma {:induction false} TotalFreeNonneg(xs: seq<real>)
    requires forall i | 0 <= i < |xs| :: xs[i] >= 0.0
    ensures TotalFree(xs) >= 0.0
    decreases |xs|
  {
    if |xs| > 0 { TotalFreeNonneg(xs[1..]); }
  }

  lemma TimesGrows(a: real, b: real, x: real)
    requires a <= b && x >= 0.0
    ensures a * x <= b * x
  {
  }

  lemma {:induction false} LargerTooMuch(t: Tree, proj: real, c: int)
    requires t.proj <= proj && (forall i | 0 <= i < |t.free| :: t.free[i] >= 0.0)
    requires 0 <= c < |t.w| && TooMuch(t.(proj := proj), c)
    ensures TooMuch(t, c)
  {
    TotalFreeNonneg(t.free[..c + 1]);
    TimesGrows(t.proj, proj, TotalFree(t.free[..c + 1]));
  }

  /** A larger factor never turns a verdict to go on into one to halt. */
  lemma {:induction false} LargerFactor(t: Tree, proj: real, k: int, v: Verdict, v': Verdict)
    requires t.proj <= proj && (forall i | 0 <= i < |t.free| :: t.free[i] >= 0.0)
    requires Told(t, k, v) && Told(t.(proj := proj), k, v')
    ensures v == Open <==> v' == Open
    ensures v == GoOn ==> v' == GoOn
  {
    var t' := t.(proj := proj);
    forall c ensures Passes(t', c) <==> Passes(t, c) {}
    if v' == Halt {
      var c :| c < k && Passes(t', c) && TooMuch(t', c);
      LargerTooMuch(t, proj, c);
    }
  }

  // ---- the concurrent gate ----

  /** Where the thread that runs a front stands in `reach`. */
  datatype Pc = Idle | Checked | Stored | Waiting | Walking | Finished(how: How)

  // How the call ended: the verdict was already set; the total was not past the limit;
  // or the walk stopped with the cursor at `stop`.
  datatype How = Early | Below | Walked(stop: int)

  datatype Gate = Gate(pc: seq<Pc>, added: seq<int>, cursor: int, done: int, freeDone: real, verdict: Verdict, holder: int)

  function WorkOf(w: seq<int>, k: int): int { if 0 <= k < |w| then w[k] else 0 }

  // The shared total once these fronts have added.
  function SumOf(w: seq<int>, fs: seq<int>): int {
    if |fs| == 0 then 0 else SumOf(w, fs[..|fs| - 1]) + WorkOf(w, fs[|fs| - 1])
  }

  // Front k's work is in its slot.
  predicate HasStored(g: Gate, k: int) {
    0 <= k < |g.pc| && (g.pc[k].Stored? || HasAdded(g.pc[k]))
  }

  // Front f's add comes no later than front h's, so h sees f's store.
  ghost predicate SeenBy(added: seq<int>, f: int, h: int) {
    exists i, j :: 0 <= i <= j < |added| && added[i] == f && added[j] == h
  }

  function Start(t: Tree): Gate {
    Gate(seq(|t.w|, _ => Idle), [], 0, 0, 0.0, Open, -1)
  }

  // The front at the cursor is accounted.
  function Step(t: Tree, g: Gate): Gate
    requires 0 <= g.cursor < |t.w|
  {
    var k := g.cursor;
    var done, freeDone := g.done + t.w[k], g.freeDone + t.free[k];
    g.(cursor := k + 1, done := done, freeDone := freeDone,
       verdict := if g.done <= t.at && done > t.at then (if done as real > t.proj * freeDone then Halt else GoOn) else g.verdict)
  }

  /** One atomic action of the thread running front f. The first read of the verdict may be
      stale; a read of a slot under the lock may miss a store that was not published by an
      add before the walker's own. */
  ghost predicate Acts(t: Tree, g: Gate, g': Gate, f: int)
  {
    0 <= f < |g.pc| == |t.w| && 0 <= g.cursor &&
    match g.pc[f]
    case Idle =>
      || g' == g.(pc := g.pc[f := Checked])
      || (g.verdict != Open && g' == g.(pc := g.pc[f := Finished(Early)]))
    case Checked => g' == g.(pc := g.pc[f := Stored])
    case Stored =>
      var added := g.added + [f];
      if SumOf(t.w, added) <= t.at then g' == g.(pc := g.pc[f := Finished(Below)], added := added)
      else g' == g.(pc := g.pc[f := Waiting], added := added)
    case Waiting => g.holder == -1 && g' == g.(pc := g.pc[f := Walking], holder := f)
    case Walking =>
      && g.holder == f
      && (|| (g.verdict == Open && g.cursor < |t.w| && HasStored(g, g.cursor) && g' == Step(t, g))
          || ((g.verdict != Open || g.cursor == |t.w| || !SeenBy(g.added, g.cursor, f))
              && g' == g.(pc := g.pc[f := Finished(Walked(g.cursor))], holder := -1)))
    case Finished(_) => false
  }

  // ---- the invariant ----

  // The cursor and its sums are the serial prefix's, and so is the verdict.
  ghost predicate CursorRight(t: Tree, g: Gate) {
    && 0 <= g.cursor <= |t.w|
    && g.done == Prefix(t.w, g.cursor) && g.freeDone == FreePrefix(t.free, g.cursor)
    && g.verdict == Serial(t, g.cursor)
  }

  // A front has added its work exactly when it is past the add.
  predicate HasAdded(pc: Pc) {
    pc.Waiting? || pc.Walking? || (pc.Finished? && !pc.how.Early?)
  }

  ghost predicate AddsRight(t: Tree, g: Gate) {
    && |g.pc| == |t.w| && Distinct(g.added)
    && (forall i | 0 <= i < |g.added| :: 0 <= g.added[i] < |t.w| && HasAdded(g.pc[g.added[i]]))
    && (forall f | 0 <= f < |t.w| && HasAdded(g.pc[f]) :: f in g.added)
  }

  // Where front f stands in the order of the adds.
  ghost predicate AddedAt(added: seq<int>, f: int, i: int) {
    0 <= i < |added| && added[i] == f
  }

  // What a finished call of front f knew.
  ghost predicate Justified(t: Tree, g: Gate, f: int)
    requires |g.pc| == |t.w| && 0 <= f < |t.w|
  {
    match g.pc[f]
    case Finished(how) =>
      (match how
       case Early => g.verdict != Open
       case Below => forall i | AddedAt(g.added, f, i) :: SumOf(t.w, g.added[..i + 1]) <= t.at
       case Walked(stop) =>
         g.verdict != Open || (0 <= stop <= g.cursor && (stop == |t.w| || !SeenBy(g.added, stop, f))))
    case _ => true
  }

  ghost predicate Inv(t: Tree, g: Gate) {
    && CursorRight(t, g) && AddsRight(t, g)
    && forall f | 0 <= f < |t.w| :: Justified(t, g, f)
  }

  lemma StartInv(t: Tree)
    ensures Inv(t, Start(t))
  {
  }

  lemma StepRight(t: Tree, g: Gate)
    requires CursorRight(t, g) && g.cursor < |t.w| && g.verdict == Open
    ensures CursorRight(t, Step(t, g))
  {
  }

  lemma VerdictStays(t: Tree, g: Gate, g': Gate, f: int)
    requires Inv(t, g) && 0 <= f < |t.w| && Acts(t, g, g', f)
    ensures g.verdict != Open ==> g'.verdict == g.verdict
    ensures g.cursor <= g'.cursor && g.added <= g'.added
  {
  }

  lemma PrefixExtends(fs: seq<int>, x: int, i: int)
    requires 0 <= i < |fs|
    ensures (fs + [x])[..i + 1] == fs[..i + 1]
  {
  }

  // An add at the end changes nobody's earlier view.
  lemma SeenExtends(added: seq<int>, x: int, f: int, h: int)
    requires h in added && x !in added && h != x
    ensures Distinct(added) ==> (SeenBy(added + [x], f, h) <==> SeenBy(added, f, h))
  {
    if Distinct(added) {
      if SeenBy(added + [x], f, h) {
        var i, j :| 0 <= i <= j < |added + [x]| && (added + [x])[i] == f && (added + [x])[j] == h;
        assert j < |added|;
        assert added[i] == f && added[j] == h;
      }
      if SeenBy(added, f, h) {
        var i, j :| 0 <= i <= j < |added| && added[i] == f && added[j] == h;
        assert (added + [x])[i] == f && (added + [x])[j] == h;
      }
    }
  }

  lemma {:induction false} JustifiedKept(t: Tree, g: Gate, g': Gate, f: int, h: int)
    requires Inv(t, g) && 0 <= f < |t.w| && 0 <= h < |t.w| && h != f && Acts(t, g, g', f)
    requires AddsRight(t, g')
    ensures Justified(t, g', h)
  {
    VerdictStays(t, g, g', f);
    assert Justified(t, g, h) && g'.pc[h] == g.pc[h];
    if g'.added != g.added && g.pc[h].Finished? && !g.pc[h].how.Early? {
      assert g'.added == g.added + [f] && h in g.added && f !in g.added;
      match g.pc[h].how
      case Below =>
        forall i | AddedAt(g'.added, h, i)
          ensures SumOf(t.w, g'.added[..i + 1]) <= t.at
        {
          assert i < |g.added|;
          assert AddedAt(g.added, h, i);
          PrefixExtends(g.added, f, i);
        }
      case Walked(stop) => SeenExtends(g.added, f, stop, h);
    }
  }

  lemma {:induction false} AddsKept(t: Tree, g: Gate, g': Gate, f: int)
    requires Inv(t, g) && 0 <= f < |t.w| && Acts(t, g, g', f)
    ensures AddsRight(t, g')
  {
    if g.pc[f].Stored? {
      assert f !in g.added;
      AddedMore(t, g, f, g'.pc[f]);
    } else {
      assert g'.added == g.added;
      SameAdded(t, g, f, g'.pc[f]);
    }
  }

  lemma {:induction false} AddedMore(t: Tree, g: Gate, f: int, pc: Pc)
    requires AddsRight(t, g) && 0 <= f < |t.w| && f !in g.added && HasAdded(pc)
    ensures AddsRight(t, g.(pc := g.pc[f := pc], added := g.added + [f]))
  {
    DistinctMore(g.added, f);
  }

  lemma {:induction false} SameAdded(t: Tree, g: Gate, f: int, pc: Pc)
    requires AddsRight(t, g) && 0 <= f < |t.w| && (HasAdded(pc) <==> HasAdded(g.pc[f]))
    ensures AddsRight(t, g.(pc := g.pc[f := pc]))
  {
  }

  lemma OwnJustified(t: Tree, g: Gate, g': Gate, f: int)
    requires Inv(t, g) && 0 <= f < |t.w| && Acts(t, g, g', f) && AddsRight(t, g')
    ensures Justified(t, g', f)
  {
    if g.pc[f].Stored? {
      assert f !in g.added;
      forall i | AddedAt(g'.added, f, i)
        ensures g'.added[..i + 1] == g'.added
      {
        assert i == |g.added|;
      }
    }
  }

  /** Every action of every thread keeps the invariant. */
  lemma ActsKeeps(t: Tree, g: Gate, g': Gate, f: int)
    requires Inv(t, g) && 0 <= f < |t.w| && Acts(t, g, g', f)
    ensures Inv(t, g')
  {
    AddsKept(t, g, g', f);
    if g' != g && g.pc[f].Walking? && g'.pc == g.pc { StepRight(t, g); }
    OwnJustified(t, g, g', f);
    forall h | 0 <= h < |t.w|
      ensures Justified(t, g', h)
    {
      if h != f { JustifiedKept(t, g, g', f, h); }
    }
  }

  // ---- schedules ----

  // Some thread takes one action.
  ghost predicate Moves(t: Tree, g: Gate, g': Gate) {
    exists f :: Acts(t, g, g', f)
  }

  ghost predicate Schedule(t: Tree, run: seq<Gate>) {
    && |run| > 0 && run[0] == Start(t)
    && forall i | 0 < i < |run| :: Moves(t, run[i - 1], run[i])
  }

  lemma {:induction false} ScheduleInv(t: Tree, run: seq<Gate>, i: int)
    requires Schedule(t, run) && 0 <= i < |run|
    ensures Inv(t, run[i])
    decreases i
  {
    if i == 0 {
      StartInv(t);
    } else {
      ScheduleInv(t, run, i - 1);
      assert Moves(t, run[i - 1], run[i]);
      var f :| Acts(t, run[i - 1], run[i], f);
      ActsKeeps(t, run[i - 1], run[i], f);
    }
  }

  /** Safety: whatever the schedule, a verdict once set is the serial one: there is one front
      with which the works reported in postorder pass the limit, and the verdict is to halt
      exactly when the works up to that front are more than proj times the delay-free ones. */
  lemma {:induction false} VerdictIsSerial(t: Tree, run: seq<Gate>, i: int)
    requires Schedule(t, run) && 0 <= i < |run| && run[i].verdict != Open
    ensures run[i].verdict == Serial(t, |t.w|) && Told(t, |t.w|, run[i].verdict)
    ensures exists c :: Passes(t, c) && (forall x | Passes(t, x) :: x == c) && (run[i].verdict == Halt <==> TooMuch(t, c))
  {
    ScheduleInv(t, run, i);
    var c := SomeCrossing(t, run[i].cursor);
    SerialIs(t, |t.w|, c);
    SerialMeaning(t, |t.w|, run[i].verdict);
    CrossesPasses(t, c);
    forall x | Passes(t, x) ensures x == c {
      CrossesPasses(t, x);
      CrossesOnce(t, x, c);
    }
  }

  /** Under a larger factor no schedule halts what some schedule let go on. */
  lemma {:induction false} LargerFactorGoesOn(t: Tree, proj: real, run: seq<Gate>, run': seq<Gate>, i: int, i': int)
    requires t.proj <= proj && (forall i | 0 <= i < |t.free| :: t.free[i] >= 0.0)
    requires Schedule(t, run) && 0 <= i < |run| && run[i].verdict == GoOn
    requires Schedule(t.(proj := proj), run') && 0 <= i' < |run'|
    ensures run'[i'].verdict != Halt
  {
    var t' := t.(proj := proj);
    if run'[i'].verdict == Halt {
      VerdictIsSerial(t, run, i);
      VerdictIsSerial(t', run', i');
      LargerFactor(t, proj, |t.w|, run[i].verdict, run'[i'].verdict);
    }
  }

  /** Two schedules never disagree. */
  lemma SchedulesAgree(t: Tree, run: seq<Gate>, run': seq<Gate>, i: int, i': int)
    requires Schedule(t, run) && 0 <= i < |run| && run[i].verdict != Open
    requires Schedule(t, run') && 0 <= i' < |run'| && run'[i'].verdict != Open
    ensures run[i].verdict == run'[i'].verdict
  {
    VerdictIsSerial(t, run, i);
    VerdictIsSerial(t, run', i');
  }

  // ---- a reached crossing is decided ----

  predicate Has(fs: seq<int>, k: int) { k in fs }

  lemma At(fs: seq<int>, k: int) returns (i: int)
    requires Has(fs, k)
    ensures 0 <= i < |fs| && fs[i] == k
  {
    i :| 0 <= i < |fs| && fs[i] == k;
  }

  // All of the fronts [0, c] are in fs.
  ghost predicate Covers(fs: seq<int>, c: int) {
    forall k {:trigger Has(fs, k)} | 0 <= k <= c :: Has(fs, k)
  }

  // The last of the fronts [0, c] to add; all of them have.
  lemma {:induction false} LastAdder(added: seq<int>, c: int) returns (j: int)
    requires 0 <= c && Covers(added, c)
    ensures 0 <= j < |added| && 0 <= added[j] <= c && Covers(added[..j + 1], c)
    decreases |added|
  {
    var n := |added| - 1;
    assert Has(added, 0);
    if 0 <= added[n] <= c {
      j := n;
      assert added[..n + 1] == added;
    } else {
      forall k | 0 <= k <= c
        ensures Has(added[..n], k)
      {
        assert Has(added, k);
        var i := At(added, k);
        assert added[..n][i] == k;
      }
      j := LastAdder(added[..n], c);
      assert added[..n][..j + 1] == added[..j + 1];
    }
  }

  // Fronts that include [0, c] weigh at least its prefix.
  lemma {:induction false} SumCovers(t: Tree, fs: seq<int>, c: int)
    requires -1 <= c < |t.w| && Covers(fs, c)
    ensures SumOf(t.w, fs) >= Prefix(t.w, c + 1)
    decreases c
  {
    if c < 0 {
      SumNonneg(t, fs);
    } else {
      assert Has(fs, c);
      var i := At(fs, c);
      SumWithout(t, fs, i);
      var rest := fs[..i] + fs[i + 1..];
      forall k | 0 <= k <= c - 1
        ensures Has(rest, k)
      {
        assert Has(fs, k);
        var x := At(fs, k);
        if x < i { assert rest[x] == k; } else { assert rest[x - 1] == k; }
      }
      SumCovers(t, rest, c - 1);
    }
  }

  lemma {:induction false} SumNonneg(t: Tree, fs: seq<int>)
    ensures SumOf(t.w, fs) >= 0
    decreases |fs|
  {
    if |fs| > 0 { SumNonneg(t, fs[..|fs| - 1]); }
  }

  lemma {:induction false} SumWithout(t: Tree, fs: seq<int>, i: int)
    requires 0 <= i < |fs|
    ensures SumOf(t.w, fs) == SumOf(t.w, fs[..i] + fs[i + 1..]) + WorkOf(t.w, fs[i])
    decreases |fs|
  {
    var n := |fs| - 1;
    var rest := fs[..i] + fs[i + 1..];
    if i == n {
      assert rest == fs[..n];
    } else {
      SumWithout(t, fs[..n], i);
      assert rest[..|rest| - 1] == fs[..n][..i] + fs[..n][i + 1..];
    }
  }

  /** Liveness: once every front of the crossing prefix has finished its call, the
      verdict is set. */
  lemma ReachedIsDecided(t: Tree, run: seq<Gate>, i: int, c: int)
    requires Schedule(t, run) && 0 <= i < |run| && Passes(t, c)
    requires forall k | 0 <= k <= c :: |run[i].pc| == |t.w| && run[i].pc[k].Finished?
    ensures run[i].verdict == if TooMuch(t, c) then Halt else GoOn
  {
    CrossesPasses(t, c);
    var g := run[i];
    ScheduleInv(t, run, i);
    if g.verdict == Open {
      forall k | 0 <= k <= c
        ensures Has(g.added, k)
      {
        assert Justified(t, g, k);
        assert HasAdded(g.pc[k]);
      }
      var j := LastAdder(g.added, c);
      LastAdderDecides(t, g, c, j);
    }
    SerialIs(t, g.cursor, c);
  }

  lemma PrefixSeen(added: seq<int>, c: int, j: int, k: int)
    requires 0 <= j < |added| && Covers(added[..j + 1], c) && 0 <= k <= c
    ensures SeenBy(added, k, added[j])
  {
    assert Has(added[..j + 1], k);
    var x := At(added[..j + 1], k);
    assert added[x] == k;
  }

  // The last adder of the prefix finds the total past the limit and the whole prefix
  // stored, so its walk ends past the crossing.
  lemma LastAdderDecides(t: Tree, g: Gate, c: int, j: int)
    requires |g.pc| == |t.w| && Crosses(t, c) && g.verdict == Open && 0 <= j < |g.added| && 0 <= g.added[j] <= c
    requires Justified(t, g, g.added[j]) && g.pc[g.added[j]].Finished? && Covers(g.added[..j + 1], c)
    ensures g.cursor > c
  {
    var f := g.added[j];
    match g.pc[f].how
    case Below =>
      assert AddedAt(g.added, f, j);
      SumCovers(t, g.added[..j + 1], c);
    case Walked(stop) =>
      if stop <= c { PrefixSeen(g.added, c, j, stop); }
  }

  // ---- the gate as an object: the cursor and its step ----

  class EarlyGate {
    const t: Tree
    var cursor: int
    var done: int
    var freeDone: real
    var verdict: Verdict

    ghost predicate Valid()
      reads this
    {
      && 0 <= cursor <= |t.w|
      && done == Prefix(t.w, cursor) && freeDone == FreePrefix(t.free, cursor)
      && verdict == Serial(t, cursor)
    }

    constructor (t: Tree)
      ensures Valid() && this.t == t && cursor == 0 && verdict == Open
    {
      this.t := t;
      cursor, done, freeDone, verdict := 0, 0, 0.0, Open;
    }

    // The front at the cursor, with its work.
    method Step(w: int)
      requires Valid() && cursor < |t.w| && w == t.w[cursor]
      modifies this
      ensures Valid() && cursor == old(cursor) + 1
    {
      freeDone := freeDone + t.free[cursor];
      if done <= t.at && done + w > t.at {
        verdict := if (done + w) as real > t.proj * freeDone then Halt else GoOn;
      }
      done := done + w;
      cursor := cursor + 1;
    }

    /** The serial engine reports its fronts in postorder: front s stops the run exactly when
        the works up to it passed the limit at a front by which there was too much of it. */
    method Reach(s: int, w: int) returns (stop: bool)
      requires Valid() && 0 <= s < |t.w| && w == t.w[s] && cursor <= s
      requires verdict == Open ==> cursor == s
      modifies this
      ensures Valid() && cursor <= s + 1 && (verdict == Open ==> cursor == s + 1)
      ensures Told(t, s + 1, verdict)
      ensures stop <==> exists c :: c <= s && Passes(t, c) && TooMuch(t, c)
    {
      if verdict == Open { Step(w); }
      SerialStays(t, cursor, s + 1);
      SerialMeaning(t, s + 1, verdict);
      stop := verdict == Halt;
    }

    /** The locked walk: it accounts every reported front from the cursor on until the
        verdict is set or a report is missing. */
    method Walk(works: seq<int>)
      requires Valid() && |works| == |t.w| && forall k | 0 <= k < |works| :: works[k] == -1 || works[k] == t.w[k]
      modifies this
      ensures Valid() && old(cursor) <= cursor
      ensures verdict != Open || cursor == |t.w| || works[cursor] < 0
      ensures Told(t, cursor, verdict)
    {
      while verdict == Open && cursor < |t.w|
        invariant Valid() && old(cursor) <= cursor
        decreases |t.w| - cursor
      {
        if works[cursor] < 0 { break; }
        Step(works[cursor]);
      }
      SerialMeaning(t, cursor, verdict);
    }
  }

  // A verdict once set is the serial verdict from there on.
  lemma {:induction false} SerialStays(t: Tree, j: int, k: int)
    requires 0 <= j <= k <= |t.w| && (Serial(t, j) != Open || j == k)
    ensures Serial(t, k) == Serial(t, j)
  {
    if j < k {
      var c := SomeCrossing(t, j);
      SerialIs(t, j, c);
      SerialIs(t, k, c);
    }
  }
}
