/** Whole runs of the auction: they end, they can be paused and resumed without a
    trace, and validated options bound their phases. */
module AuctionRuns {
  import Reals
  import opened AuctionModel
  import opened AuctionSafety

  // ---- termination ----

  // A bound on the phase changes left at this eps.
  ghost function PhasesLeft(o: Options, eps: real): nat
    requires o.Valid()
  {
    if eps <= o.epsFinal then 0 else Rounds(eps / o.epsFinal, o.epsFactor)
  }

  ghost function Rounds(x: real, f: real): (r: nat)
    requires x > 0.0 && f > 1.0
    ensures r >= 1
  {
    Positive(x, f - 1.0);
    (x / (f - 1.0)).Floor + 1
  }

  lemma Positive(x: real, y: real)
    requires x > 0.0 && y > 0.0
    ensures x / y > 0.0
  {
  }

  lemma PhaseShrinks(o: Options, eps: real)
    requires o.Valid() && eps > o.epsFinal
    ensures PhasesLeft(o, Reals.Max(eps / o.epsFactor, o.epsFinal)) < PhasesLeft(o, eps)
  {
    var y := eps / o.epsFactor;
    if y > o.epsFinal { ShrinksTo(o, eps, y); } else { Positive(eps, o.epsFinal); }
  }

  lemma ShrinksTo(o: Options, eps: real, y: real)
    requires o.Valid() && eps > o.epsFinal && y == eps / o.epsFactor && y > o.epsFinal
    ensures PhasesLeft(o, y) < PhasesLeft(o, eps)
  {
    var x, z := eps / o.epsFinal, y / o.epsFinal;
    Scaled(eps, o.epsFactor, o.epsFinal);
    Positive(eps, o.epsFinal);
    RoundsShrink(x, z, o.epsFactor);
  }

  // Dividing by both in either order, and what eps / f > e means for the ratios.
  lemma Scaled(eps: real, f: real, e: real)
    requires f > 1.0 && e > 0.0 && eps / f > e
    ensures (eps / f) / e == (eps / e) / f > 1.0
  {
    var y := eps / f;
    assert y * f == eps;
    var z := y / e;
    assert z * e == y;
    assert z > 1.0 by { if z <= 1.0 { TimesMono(z, 1.0, e); } }
    Regroup(z, e, f, eps);
  }

  lemma TimesMono(x: real, y: real, z: real)
    requires x <= y && z >= 0.0
    ensures x * z <= y * z
  {
  }

  lemma Regroup(z: real, e: real, f: real, eps: real)
    requires e > 0.0 && f > 0.0 && (z * e) * f == eps
    ensures (eps / e) / f == z
  {
    assert (z * f) * e == eps;
    assert eps / e == z * f;
  }

  lemma RoundsShrink(x: real, y: real, f: real)
    requires f > 1.0 && x > 0.0 && y == x / f && y > 1.0
    ensures Rounds(y, f) < Rounds(x, f)
  {
    var g := f - 1.0;
    var b := y / g;
    assert b * g == y;
    assert y * f == x;
    // x / g == b + y
    Sum(b, y, g, f, x);
    Positive(x, g);
    Positive(y, g);
    FloorSteps(b, x / g);
  }

  lemma Sum(b: real, y: real, g: real, f: real, x: real)
    requires g > 0.0 && f == g + 1.0 && b * g == y && y * f == x
    ensures x / g == b + y
  {
    assert (b + y) * g == b * g + y * g;
    assert y * f == y * g + y;
    assert (b + y) * g == x;
  }

  lemma FloorSteps(b: real, a: real)
    requires a > b + 1.0
    ensures a.Floor > b.Floor
  {
  }

  lemma {:induction false} BidMeasure(p: Instance, s: State)
    requires Shape(p, s) && s.head < |s.queue|
    ensures var r := Bid(p, s);
      && r.eps == s.eps && r.limit == s.limit && r.phase == s.phase
      && (r.bids == s.bids + 1 || (r.bids == s.bids && |r.queue| - r.head == |s.queue| - s.head - 1))
      && s.bids <= r.bids && r.work >= s.work
  {
    var j := s.queue[s.head];
    var sc := ScanCol(p.cols[j], s.u, p.dense, |p.cols[j]|);
    ScanFinds(p.cols[j], s.u, p.dense, |p.cols[j]|);
  }

  lemma NextPhaseMeasure(p: Instance, s: State)
    requires Shape(p, s)
    ensures var r := NextPhase(p, s);
      r.eps == Reals.Max(s.eps / p.opt.epsFactor, p.opt.epsFinal) && r.phase == s.phase + 1 && r.bids == 0 && r.limit == s.limit
  {
    ReleaseFrame(p, Rescaled(p, s), |p.cols|);
  }

  // ---- runs ----

  datatype Result = Result(status: Status, final: State)

  /** A run under a work budget; a negative budget is none. It always ends. */
  ghost function Run(p: Instance, s: State, budget: int): (r: Result)
    requires Inv(p, s)
    ensures Inv(p, r.final)
    decreases PhasesLeft(p.opt, s.eps), s.limit - s.bids, |s.queue| - s.head
  {
    StepKeeps(p, s, budget);
    match Step(p, s, budget)
    case Stop(status) => Result(status, s)
    case Go(next) =>
      Shrinks(p, s, budget);
      Run(p, next, budget)
  }

  lemma Shrinks(p: Instance, s: State, budget: int)
    requires Inv(p, s) && Step(p, s, budget).Go?
    ensures var r := Step(p, s, budget).next;
      || PhasesLeft(p.opt, r.eps) < PhasesLeft(p.opt, s.eps)
      || (r.eps == s.eps && (r.limit - r.bids < s.limit - s.bids
          || (r.limit - r.bids == s.limit - s.bids && |r.queue| - r.head < |s.queue| - s.head)))
  {
    if s.head == |s.queue| {
      NextPhaseMeasure(p, s);
      PhaseShrinks(p.opt, s.eps);
    } else {
      BidMeasure(p, s);
    }
  }

  // Where a run stops, another one stops at once.
  lemma {:induction false} StopsThere(p: Instance, s: State, budget: int)
    requires Inv(p, s)
    ensures var r := Run(p, s, budget); Step(p, r.final, budget) == Stop(r.status)
    decreases PhasesLeft(p.opt, s.eps), s.limit - s.bids, |s.queue| - s.head
  {
    if Step(p, s, budget).Go? {
      StepKeeps(p, s, budget);
      Shrinks(p, s, budget);
      StopsThere(p, Step(p, s, budget).next, budget);
    }
  }

  /** Done and Capped are absorbing: whatever the next budget, the run stops at once
      with the same status and the same state. */
  lemma Absorbing(p: Instance, s: State, budget: int, budget': int)
    requires Inv(p, s) && Run(p, s, budget).status != Paused
    ensures var r := Run(p, s, budget); Run(p, r.final, budget') == r
  {
    StopsThere(p, s, budget);
  }

  /** Pausing under a budget and resuming under a larger one, or none, is the straight
      run: same status, same state. */
  lemma {:induction false} PauseResume(p: Instance, s: State, budget: int, budget': int)
    requires Inv(p, s) && 0 <= budget && (budget' < 0 || budget <= budget')
    ensures Run(p, Run(p, s, budget).final, budget') == Run(p, s, budget')
    decreases PhasesLeft(p.opt, s.eps), s.limit - s.bids, |s.queue| - s.head
  {
    if Step(p, s, budget).Go? {
      assert Step(p, s, budget') == Step(p, s, budget);
      StepKeeps(p, s, budget);
      Shrinks(p, s, budget);
      PauseResume(p, Step(p, s, budget).next, budget, budget');
    }
  }

  /** Any sequence of growing budgets, ended without one, reaches the straight run's end. */
  ghost function RunAll(p: Instance, s: State, budgets: seq<int>): (r: Result)
    requires Inv(p, s)
    ensures Inv(p, r.final)
    decreases |budgets|
  {
    if |budgets| == 0 then Run(p, s, -1) else RunAll(p, Run(p, s, budgets[0]).final, budgets[1..])
  }

  lemma {:induction false} AnyPauses(p: Instance, s: State, budgets: seq<int>)
    requires Inv(p, s) && forall i | 0 <= i < |budgets| :: budgets[i] >= 0
    ensures RunAll(p, s, budgets) == Run(p, s, -1)
    decreases |budgets|
  {
    if |budgets| > 0 {
      PauseResume(p, s, budgets[0], -1);
      AnyPauses(p, Run(p, s, budgets[0]).final, budgets[1..]);
    }
  }

  // ---- validated options ----

  datatype Field = Finite(x: real) | NonFinite

  datatype RawOptions = RawOptions(epsFactor: Field, epsFinal: Field, bidCap: Field, epsStart: Field)

  const MIN_EPS_FACTOR := 1.5
  const MIN_EPS_FINAL := 0.000000000001
  const MAX_BID_CAP := 1000000.0
  const MAX_EPS_START := 1000.0

  function MinR(x: real, y: real): real { if y < x then y else x }

  // The field if finite and above its bound, else the default.
  function Taken(f: Field, above: real, def: real): real {
    match f
    case Finite(x) => if x > above then x else def
    case NonFinite => def
  }

  function Validated(o: RawOptions, def: Options): Options {
    Options(Reals.Max(Taken(o.epsFactor, 1.0, def.epsFactor), MIN_EPS_FACTOR),
            Reals.Max(Taken(o.epsFinal, 0.0, def.epsFinal), MIN_EPS_FINAL),
            MinR(Taken(o.bidCap, 0.0, def.bidCap), MAX_BID_CAP),
            MinR(Taken(o.epsStart, 0.0, def.epsStart), MAX_EPS_START))
  }

  /** Validated options are usable exactly when a positive bid cap comes from one side. */
  lemma ValidatedIsValid(o: RawOptions, def: Options)
    ensures Validated(o, def).Valid() <==> (o.bidCap.Finite? && o.bidCap.x > 0.0) || def.bidCap > 0.0
    ensures var v := Validated(o, def);
      v.epsFactor >= MIN_EPS_FACTOR && v.epsFinal >= MIN_EPS_FINAL && v.bidCap <= MAX_BID_CAP && v.epsStart <= MAX_EPS_START
  {
  }

  function Raw(o: Options): RawOptions {
    RawOptions(Finite(o.epsFactor), Finite(o.epsFinal), Finite(o.bidCap), Finite(o.epsStart))
  }

  /** Validating validated options again changes nothing exactly when every field that is
      not positive is what the second default brings; the same default always does. */
  lemma ValidatedTwice(o: RawOptions, def: Options, def': Options)
    ensures var v := Validated(o, def);
      Validated(Raw(v), def') == v <==>
        && (v.epsStart > 0.0 || MinR(def'.epsStart, MAX_EPS_START) == v.epsStart)
        && (v.bidCap > 0.0 || MinR(def'.bidCap, MAX_BID_CAP) == v.bidCap)
    ensures Validated(Raw(Validated(o, def)), def) == Validated(o, def)
  {
  }

  // ---- the phase bound ----

  function Pow(n: nat): real {
    if n == 0 then 1.0 else MIN_EPS_FACTOR * Pow(n - 1)
  }

  lemma {:induction false} PowSum(m: nat, n: nat)
    ensures Pow(m + n) == Pow(m) * Pow(n)
  {
    if m > 0 { PowSum(m - 1, n); Assoc(MIN_EPS_FACTOR, Pow(m - 1), Pow(n)); }
  }

  lemma Assoc(x: real, y: real, z: real)
    ensures (x * y) * z == x * (y * z)
  {
  }

  lemma {:induction false} PowGrows(m: nat, n: nat)
    requires m <= n
    ensures 1.0 <= Pow(m) <= Pow(n)
    decreases n
  {
    if m < n {
      PowGrows(m, n - 1);
    } else if n > 0 {
      PowGrows(n - 1, n - 1);
    }
  }

  lemma AtLeast(m: nat, n: nat, x: real, y: real)
    requires 0.0 <= x <= Pow(m) && 0.0 <= y <= Pow(n)
    ensures x * y <= Pow(m + n)
  {
    PowSum(m, n);
    ProductMono(x, Pow(m), y, Pow(n));
  }

  lemma ProductMono(x: real, x': real, y: real, y': real)
    requires 0.0 <= x <= x' && 0.0 <= y <= y'
    ensures x * y <= x' * y'
  {
    TimesMono(x, x', y);
    TimesMono(y, y', x');
  }

  lemma ThirtyTwo()
    ensures Pow(2) >= 2.25 && Pow(4) >= 5.0625 && Pow(16) >= 656.3 && Pow(32) >= 430700.0
  {
    AtLeast(2, 2, 2.25, 2.25);
    AtLeast(4, 4, 5.0625, 5.0625);
    AtLeast(8, 8, 25.62, 25.62);
    AtLeast(16, 16, 656.3, 656.3);
  }

  // 1.5^86 >= 10^15.
  lemma EightySix()
    ensures Pow(86) >= 1000000000000000.0
  {
    ThirtyTwo();
    AtLeast(32, 32, 430700.0, 430700.0);
    AtLeast(64, 16, 185500000000.0, 656.3);
    AtLeast(80, 4, 121740000000000.0, 5.0625);
    AtLeast(84, 2, 616300000000000.0, 2.25);
  }

  // eps with n divisions by the smallest factor undone.
  ghost function Spread(eps: real, n: nat): real { eps * Pow(n) }

  // How far eps has come down after s.phase divisions.
  ghost predicate PhaseOk(p: Problem, s: State) {
    && 0 <= s.phase <= 86
    && (s.eps <= p.opt.epsFinal || Spread(s.eps, s.phase) <= MAX_EPS_START)
  }

  ghost predicate Clamped(o: Options) {
    o.Valid() && o.epsFactor >= MIN_EPS_FACTOR && o.epsFinal >= MIN_EPS_FINAL && 0.0 < o.epsStart <= MAX_EPS_START
  }

  lemma StartPhaseOk(p: Instance, s: State, first: seq<int>)
    requires |p.dense| == |p.cols| && Clamped(p.opt)
    ensures PhaseOk(p, Start(p, s, first))
  {
    assert Pow(0) == 1.0;
  }

  // No eps above the smallest eps_final survives 86 divisions.
  lemma TooMany(eps: real, n: nat)
    requires eps > MIN_EPS_FINAL && n >= 86
    ensures Spread(eps, n) > MAX_EPS_START
  {
    EightySix();
    PowGrows(86, n);
    Exceeds(eps, Pow(n));
  }

  lemma Exceeds(eps: real, pw: real)
    requires eps > MIN_EPS_FINAL && pw >= 1000000000000000.0
    ensures eps * pw > MAX_EPS_START
  {
    StrictTimes(MIN_EPS_FINAL, eps, pw);
  }

  lemma PhaseStep(p: Instance, eps: real, phase: nat)
    requires Clamped(p.opt) && eps > p.opt.epsFinal && Spread(eps, phase) <= MAX_EPS_START
    ensures phase < 86
    ensures var e := Reals.Max(eps / p.opt.epsFactor, p.opt.epsFinal); e <= p.opt.epsFinal || Spread(e, phase + 1) <= MAX_EPS_START
  {
    if phase >= 86 { TooMany(eps, phase); }
    PowGrows(0, phase);
    var f := p.opt.epsFactor;
    var e := eps / f;
    assert e * f == eps;
    Lowered(e, f, eps, Pow(phase));
  }

  lemma StrictTimes(x: real, y: real, z: real)
    requires x < y && z > 0.0
    ensures x * z < y * z
  {
  }

  lemma Lowered(e: real, f: real, eps: real, pw: real)
    requires e * f == eps && f >= MIN_EPS_FACTOR && eps > 0.0 && pw >= 1.0 && eps * pw <= MAX_EPS_START
    ensures e * (MIN_EPS_FACTOR * pw) <= MAX_EPS_START
  {
    assert e > 0.0 by { if e <= 0.0 { TimesMono(e, 0.0, f); } }
    TimesMono(MIN_EPS_FACTOR, f, e);
    TimesMono(e * MIN_EPS_FACTOR, eps, pw);
    Assoc(e, MIN_EPS_FACTOR, pw);
  }

  lemma StepPhaseOk(p: Instance, s: State, budget: int)
    requires Inv(p, s) && PhaseOk(p, s) && Clamped(p.opt) && Step(p, s, budget).Go?
    ensures PhaseOk(p, Step(p, s, budget).next)
  {
    if s.head == |s.queue| {
      NextPhaseMeasure(p, s);
      PhaseStep(p, s.eps, s.phase);
    } else {
      BidMeasure(p, s);
    }
  }

  // The states a run visits.
  ghost function Trace(p: Instance, s: State, budget: int): (r: seq<State>)
    requires Inv(p, s)
    ensures |r| > 0 && r[|r| - 1] == Run(p, s, budget).final
    decreases PhasesLeft(p.opt, s.eps), s.limit - s.bids, |s.queue| - s.head
  {
    StepKeeps(p, s, budget);
    match Step(p, s, budget)
    case Stop(_) => [s]
    case Go(next) =>
      Shrinks(p, s, budget);
      [s] + Trace(p, next, budget)
  }

  /** With validated options and a positive eps_start every state of a run is within 86
      phase changes of the start and within bid_limit bids of its phase's start. */
  lemma {:induction false} PhaseBound(p: Instance, s: State, budget: int)
    requires Inv(p, s) && PhaseOk(p, s) && Clamped(p.opt)
    ensures forall t | t in Trace(p, s, budget) :: PhaseOk(p, t) && t.phase <= 86 && t.bids <= t.limit
    decreases PhasesLeft(p.opt, s.eps), s.limit - s.bids, |s.queue| - s.head
  {
    if Step(p, s, budget).Go? {
      StepKeeps(p, s, budget);
      Shrinks(p, s, budget);
      StepPhaseOk(p, s, budget);
      PhaseBound(p, Step(p, s, budget).next, budget);
    }
  }

  // The bids a run makes.
  ghost function Bids(p: Instance, s: State, budget: int): nat
    requires Inv(p, s)
    decreases PhasesLeft(p.opt, s.eps), s.limit - s.bids, |s.queue| - s.head
  {
    StepKeeps(p, s, budget);
    match Step(p, s, budget)
    case Stop(_) => 0
    case Go(next) =>
      Shrinks(p, s, budget);
      IsBid(s, next) + Bids(p, next, budget)
  }

  function IsBid(s: State, next: State): nat { if s.head < |s.queue| && next.bids > s.bids then 1 else 0 }

  // What is left of the phases' bid limits.
  function BidsLeft(phase: int, bids: int, limit: int): int { (86 - phase) * limit + limit - bids }

  lemma PhaseSpends(phase: int, bids: int, limit: int)
    requires bids <= limit
    ensures BidsLeft(phase + 1, 0, limit) <= BidsLeft(phase, bids, limit)
  {
    assert (86 - phase) * limit == (86 - (phase + 1)) * limit + limit;
  }

  lemma LimitLeft(phase: int, bids: int, limit: int)
    requires phase <= 86 && 0 <= bids <= limit
    ensures BidsLeft(phase, bids, limit) >= 0
  {
  }

  /** In all, such a run makes at most bid_limit bids in each of its at most 87 phases. */
  lemma {:induction false} BidBound(p: Instance, s: State, budget: int)
    requires Inv(p, s) && PhaseOk(p, s) && Clamped(p.opt)
    ensures Bids(p, s, budget) <= BidsLeft(s.phase, s.bids, s.limit)
    decreases PhasesLeft(p.opt, s.eps), s.limit - s.bids, |s.queue| - s.head
  {
    if Step(p, s, budget).Go? {
      StepKeeps(p, s, budget);
      Shrinks(p, s, budget);
      StepPhaseOk(p, s, budget);
      BidBound(p, Step(p, s, budget).next, budget);
      BidSpends(p, s, budget);
    } else {
      LimitLeft(s.phase, s.bids, s.limit);
    }
  }

  lemma BidSpends(p: Instance, s: State, budget: int)
    requires Inv(p, s) && Step(p, s, budget).Go?
    ensures var next := Step(p, s, budget).next;
      IsBid(s, next) + BidsLeft(next.phase, next.bids, next.limit) <= BidsLeft(s.phase, s.bids, s.limit)
  {
    if s.head == |s.queue| {
      NextPhaseMeasure(p, s);
      PhaseSpends(s.phase, s.bids, s.limit);
    } else {
      BidMeasure(p, s);
    }
  }
}
