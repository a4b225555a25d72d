/** One channel's filter state with the control thread resetting it while the capture
    thread filters. Neither takes a lock: loading the previous input, loading the previous
    output, storing each of them, and each half of a reset is a step of its own. */
module DcRace {

  import opened Pcm
  import opened Dsp

  datatype Loaded = Not | Got(value: real)

  datatype Capture =
    | Ready
    | Loading(x: int, px: Loaded, py: Loaded)
    | StoredX(y: real)                       // previous input stored, previous output not yet

  /** `debt` is history: how many times the previous input was cleared, with effect, since
      the previous output was. */
  datatype State = State(s: Dc, capture: Capture, clearing: bool, debt: nat)

  datatype Step = Begin(x: int) | LoadX | LoadY | StoreX | StoreY | ClearX | ClearY

  const Init := State(DcZero, Ready, false, 0)

  predicate Enabled(w: width, st: State, step: Step) {
    match step
    case Begin(x) => st.capture.Ready? && InRange(w, x)
    case LoadX => st.capture.Loading? && st.capture.px.Not?
    case LoadY => st.capture.Loading? && st.capture.py.Not?
    case StoreX => st.capture.Loading? && st.capture.px.Got? && st.capture.py.Got?
    case StoreY => st.capture.StoredX?
    case ClearX => !st.clearing
    case ClearY => st.clearing
  }

  /** A store by the control thread is lost when the capture thread has loaded the old
      value and has its own store still to come. */
  predicate XLost(st: State) { st.capture.Loading? && st.capture.px.Got? }

  predicate YLost(st: State) {
    st.capture.StoredX? || (st.capture.Loading? && st.capture.py.Got?)
  }

  function Next(w: width, st: State, step: Step): State
    requires Enabled(w, st, step)
  {
    match step
    case Begin(x) => st.(capture := Loading(x, Not, Not))
    case LoadX => st.(capture := st.capture.(px := Got(st.s.x)))
    case LoadY => st.(capture := st.capture.(py := Got(st.s.y)))
    case StoreX =>
      var c := st.capture;
      var y := c.x as real - c.px.value + ALPHA * c.py.value;
      st.(s := st.s.(x := c.x as real), capture := StoredX(y))
    case StoreY => st.(s := st.s.(y := st.capture.y), capture := Ready)
    case ClearX =>
      st.(s := st.s.(x := 0.0), clearing := true, debt := if XLost(st) then st.debt else st.debt + 1)
    case ClearY =>
      st.(s := st.s.(y := 0.0), clearing := false, debt := if YLost(st) then st.debt else 0)
  }

  ghost predicate Legal(w: width, st: State, steps: seq<Step>)
    decreases |steps|
  {
    steps == [] || (Enabled(w, st, steps[0]) && Legal(w, Next(w, st, steps[0]), steps[1..]))
  }

  ghost function Run(w: width, st: State, steps: seq<Step>): State
    requires Legal(w, st, steps)
    decreases |steps|
  {
    if steps == [] then st else Run(w, Next(w, st, steps[0]), steps[1..])
  }

  // ------------------------------------------------------------ linear view

  function Or(l: Loaded, v: real): real { if l.Got? then l.value else v }

  /** The state the next sample will be computed from. */
  function Effective(st: State): Dc {
    match st.capture
    case Ready => st.s
    case Loading(_, px, py) => Dc(Or(px, st.s.x), Or(py, st.s.y))
    case StoredX(y) => Dc(st.s.x, y)
  }

  /** On the effective state the racing steps are one atomic filter step, the stores of the
      control thread that are not lost, and nothing else. */
  lemma StepRefines(w: width, st: State, step: Step)
    requires Enabled(w, st, step)
    ensures var e := Effective(st);
      Effective(Next(w, st, step)) ==
        (match step
         case StoreX => DcFilter(e, st.capture.x)
         case ClearX => if XLost(st) then e else e.(x := 0.0)
         case ClearY => if YLost(st) then e else e.(y := 0.0)
         case _ => e)
  {
  }

  // ------------------------------------------------------- bounds by the debt

  /** The largest output at each debt. */
  function Reach(w: width, debt: nat): (r: real)
    ensures (2 * Half(w) - 1) as real <= r <= 1000.0 * Half(w) as real
  {
    if debt == 0 then (2 * Half(w) - 1) as real else Half(w) as real + ALPHA * Reach(w, debt - 1)
  }

  predicate Within(y: real, bound: real) { -bound <= y <= bound }

  predicate SampleBound(w: width, x: real) { -(Half(w) as real) <= x <= Half(w) as real - 1.0 }

  predicate EstimateInv(w: width, e: Dc, debt: nat) {
    && SampleBound(w, e.x)
    && if debt == 0 then SampleBound(w, Offset(e))
       else (e.x == 0.0 && Within(e.y, Reach(w, debt - 1)))
            || Within(Offset(e), ALPHA * Reach(w, debt - 1))
  }

  predicate Inv(w: width, st: State) {
    EstimateInv(w, Effective(st), st.debt) && (st.capture.Loading? ==> InRange(w, st.capture.x))
  }

  lemma OutputWithin(w: width, e: Dc, debt: nat)
    requires EstimateInv(w, e, debt)
    ensures Within(e.y, Reach(w, debt))
  {
  }

  lemma FilterInv(w: width, e: Dc, debt: nat, x: int)
    requires EstimateInv(w, e, debt) && InRange(w, x)
    ensures EstimateInv(w, DcFilter(e, x), debt)
  {
    assert Offset(DcFilter(e, x)) == (1.0 - ALPHA) * e.x + ALPHA * Offset(e);
  }

  lemma NextInv(w: width, st: State, step: Step)
    requires Inv(w, st) && Enabled(w, st, step)
    ensures Inv(w, Next(w, st, step))
  {
    StepRefines(w, st, step);
    match step
    case StoreX => FilterInv(w, Effective(st), st.debt, st.capture.x);
    case ClearX => OutputWithin(w, Effective(st), st.debt);
    case ClearY =>
    case _ =>
  }

  lemma {:induction false} RunInv(w: width, st: State, steps: seq<Step>)
    requires Inv(w, st) && Legal(w, st, steps)
    ensures Inv(w, Run(w, st, steps))
    decreases |steps|
  {
    if steps != [] {
      NextInv(w, st, steps[0]);
      RunInv(w, Next(w, st, steps[0]), steps[1..]);
    }
  }

  ghost predicate Reached(w: width, st: State) {
    exists steps :: Legal(w, Init, steps) && Run(w, Init, steps) == st
  }

  lemma ReachedInv(w: width, st: State)
    requires Reached(w, st)
    ensures Inv(w, st)
  {
    var steps :| Legal(w, Init, steps) && Run(w, Init, steps) == st;
    RunInv(w, Init, steps);
  }

  /** In every interleaving the last output computed stays within the reach of the debt;
      while no reset is owed that is 2^B - 1. */
  lemma OutputByDebt(w: width, st: State)
    requires Reached(w, st)
    ensures Within(Effective(st).y, Reach(w, st.debt))
    ensures st.debt == 0 ==> Within(Effective(st).y, (2 * Half(w) - 1) as real)
    ensures st.debt == 1 ==> Within(Effective(st).y, (3 * Half(w)) as real)
  {
    ReachedInv(w, st);
    OutputWithin(w, Effective(st), st.debt);
    assert Reach(w, 1) == Half(w) as real + ALPHA * Reach(w, 0);
  }

  // ------------------------------------------------------------ making runs

  lemma {:induction false} Append(w: width, st: State, a: seq<Step>, b: seq<Step>)
    requires Legal(w, st, a) && Legal(w, Run(w, st, a), b)
    ensures Legal(w, st, a + b) && Run(w, st, a + b) == Run(w, Run(w, st, a), b)
    decreases |a|
  {
    if a == [] {
      assert [] + b == b;
    } else {
      Append(w, Next(w, st, a[0]), a[1..], b);
      assert (a + b)[1..] == a[1..] + b;
    }
  }

  lemma Then(w: width, st: State, step: Step)
    requires Reached(w, st) && Enabled(w, st, step)
    ensures Reached(w, Next(w, st, step))
  {
    var steps :| Legal(w, Init, steps) && Run(w, Init, steps) == st;
    Append(w, Init, steps, [step]);
    assert Legal(w, Init, steps + [step]) && Run(w, Init, steps + [step]) == Next(w, st, step);
  }

  function Quiet(s: Dc, debt: nat): State { State(s, Ready, false, debt) }

  lemma Filtering(w: width, s: Dc, debt: nat, x: int)
    requires Reached(w, Quiet(s, debt)) && InRange(w, x)
    ensures var n := DcFilter(s, x);
      Reached(w, State(Dc(n.x, s.y), StoredX(n.y), false, debt))
  {
    var st := Quiet(s, debt);
    Then(w, st, Begin(x));
    st := Next(w, st, Begin(x));
    Then(w, st, LoadX);
    st := Next(w, st, LoadX);
    Then(w, st, LoadY);
    st := Next(w, st, LoadY);
    Then(w, st, StoreX);
  }

  lemma Undisturbed(w: width, s: Dc, debt: nat, x: int)
    requires Reached(w, Quiet(s, debt)) && InRange(w, x)
    ensures Reached(w, Quiet(DcFilter(s, x), debt))
  {
    Filtering(w, s, debt, x);
    var n := DcFilter(s, x);
    Then(w, State(Dc(n.x, s.y), StoredX(n.y), false, debt), StoreY);
  }

  /** A whole reset between the two stores leaves the previous output standing. */
  lemma Torn(w: width, s: Dc, debt: nat, x: int)
    requires Reached(w, Quiet(s, debt)) && InRange(w, x)
    ensures Reached(w, Quiet(Dc(0.0, DcFilter(s, x).y), debt + 1))
  {
    Filtering(w, s, debt, x);
    var n := DcFilter(s, x);
    var st := State(Dc(n.x, s.y), StoredX(n.y), false, debt);
    Then(w, st, ClearX);
    st := Next(w, st, ClearX);
    Then(w, st, ClearY);
    st := Next(w, st, ClearY);
    Then(w, st, StoreY);
  }

  lemma Started(w: width)
    ensures Reached(w, Quiet(DcZero, 0))
  {
    assert Legal(w, Init, []) && Run(w, Init, []) == Quiet(DcZero, 0);
  }

  // ------------------------------------------------------------ main results

  ghost predicate StableUpTo(w: width, k: nat) {
    forall st | Reached(w, st) && !st.clearing && st.debt <= k ::
      Within(Effective(st).y, (2 * Half(w) - 1) as real)
  }

  /** With no reset in progress the output bound 2^B - 1 holds of all runs exactly when no
      reset may be torn: when none clears the previous input and has its clearing of the
      previous output overwritten. One is enough to break it, at every width. */
  lemma StableIff(w: width, k: nat)
    ensures StableUpTo(w, k) <==> k == 0
  {
    if k == 0 {
      forall st | Reached(w, st) && st.debt <= 0
        ensures Within(Effective(st).y, (2 * Half(w) - 1) as real)
      {
        OutputByDebt(w, st);
      }
    } else {
      var st := PastTheBound(w);
      assert !Within(Effective(st).y, (2 * Half(w) - 1) as real);
    }
  }

  /** Every second half of a reset takes effect. */
  ghost predicate Guarded(w: width, st: State, steps: seq<Step>)
    requires Legal(w, st, steps)
    decreases |steps|
  {
    steps == [] || ((steps[0].ClearY? ==> !YLost(st)) && Guarded(w, Next(w, st, steps[0]), steps[1..]))
  }

  /** Every half of a reset comes between two samples. */
  ghost predicate BetweenSamples(w: width, st: State, steps: seq<Step>)
    requires Legal(w, st, steps)
    decreases |steps|
  {
    steps == [] ||
      ((steps[0].ClearX? || steps[0].ClearY? ==> st.capture.Ready?)
       && BetweenSamples(w, Next(w, st, steps[0]), steps[1..]))
  }

  /** Then no reset is torn: the bound holds whenever none is in progress, and every
      conversion fits, at every width. A control thread that resets only while the callback
      is not running gets this. */
  lemma GuardedIsStable(w: width, steps: seq<Step>)
    requires Legal(w, Init, steps) && (Guarded(w, Init, steps) || BetweenSamples(w, Init, steps))
    ensures var st := Run(w, Init, steps);
      && (if st.clearing then st.debt <= 1 else st.debt == 0)
      && (!st.clearing ==> Within(Effective(st).y, (2 * Half(w) - 1) as real))
      && (st.capture.StoredX? ==> CastFits(w, Trunc(st.capture.y)))
  {
    var st := Run(w, Init, steps);
    assert Reached(w, st);
    if BetweenSamples(w, Init, steps) {
      BetweenIsGuarded(w, Init, steps);
    }
    GuardedDebt(w, Init, steps);
    OutputByDebt(w, st);
    CastsFitIff(w, st.debt);
  }

  lemma {:induction false} BetweenIsGuarded(w: width, st: State, steps: seq<Step>)
    requires Legal(w, st, steps) && BetweenSamples(w, st, steps)
    ensures Guarded(w, st, steps)
    decreases |steps|
  {
    if steps != [] {
      BetweenIsGuarded(w, Next(w, st, steps[0]), steps[1..]);
    }
  }

  lemma {:induction false} GuardedDebt(w: width, st: State, steps: seq<Step>)
    requires Legal(w, st, steps) && Guarded(w, st, steps)
    requires if st.clearing then st.debt <= 1 else st.debt == 0
    ensures var done := Run(w, st, steps); if done.clearing then done.debt <= 1 else done.debt == 0
    decreases |steps|
  {
    if steps != [] {
      GuardedDebt(w, Next(w, st, steps[0]), steps[1..]);
    }
  }

  lemma PastTheBound(w: width) returns (st: State)
    ensures Reached(w, st) && !st.clearing && st.debt == 1
    ensures !Within(Effective(st).y, (2 * Half(w) - 1) as real)
  {
    var lo, hi := -Half(w), Half(w) - 1;
    Started(w);
    Undisturbed(w, DcZero, 0, hi);
    var s := DcFilter(DcZero, hi);
    Undisturbed(w, s, 0, hi);
    s := DcFilter(s, hi);
    Torn(w, s, 0, lo);
    s := Dc(0.0, DcFilter(s, lo).y);
    Undisturbed(w, s, 1, lo);
    st := Quiet(DcFilter(s, lo), 1);
    var h := Half(w) as real;
    assert hi as real == h - 1.0 && lo as real == -h;
  }

  /** From any filter state, undisturbed: every later output stays within 2^B - 1 for all
      samples exactly when the estimate is in range. After a torn reset that left (0, y) this
      asks for -Half <= -ALPHA * y <= Half - 1. */
  lemma StaysStableIff(w: width, s: Dc)
    ensures (forall xs | xs != [] && AllInRange(w, xs) ::
               Within(DcAfter(s, xs).y, (2 * Half(w) - 1) as real))
       <==> SampleBound(w, Estimate(s))
  {
    var h := Half(w) as real;
    if SampleBound(w, Estimate(s)) {
      forall xs | xs != [] && AllInRange(w, xs)
        ensures Within(DcAfter(s, xs).y, (2 * Half(w) - 1) as real)
      {
        StaysInRange(w, s, xs);
      }
    } else {
      var lo, hi := [-Half(w)], [Half(w) - 1];
      assert DcAfter(s, lo) == DcFilter(s, -Half(w)) && DcAfter(s, hi) == DcFilter(s, Half(w) - 1) by {
        assert lo[..0] == [] && hi[..0] == [];
      }
      assert (-Half(w)) as real == -h && (Half(w) - 1) as real == h - 1.0;
      assert AllInRange(w, lo) && AllInRange(w, hi);
    }
  }

  lemma {:induction false} StaysInRange(w: width, s: Dc, xs: seq<int>)
    requires SampleBound(w, Estimate(s))
    requires xs != [] && AllInRange(w, xs)
    ensures var e := DcAfter(s, xs);
      SampleBound(w, e.x) && SampleBound(w, Offset(e)) && Within(e.y, (2 * Half(w) - 1) as real)
  {
    var init, x := xs[..|xs| - 1], xs[|xs| - 1];
    assert InRange(w, x);
    var e := DcAfter(s, init);
    if init != [] {
      StaysInRange(w, s, init);
    }
    assert Offset(DcFilter(e, x)) == (1.0 - ALPHA) * e.x + ALPHA * Offset(e);
  }

  ghost predicate CastsFitUpTo(w: width, k: nat) {
    forall st | Reached(w, st) && st.capture.StoredX? && st.debt <= k ::
      CastFits(w, Trunc(st.capture.y))
  }

  /** Without resets every conversion fits, from any state whose estimate is in range, and
      such a state follows. */
  lemma UndisturbedCastsFit(w: width, s: Dc, xs: seq<int>)
    requires SampleBound(w, Estimate(s)) && xs != [] && AllInRange(w, xs)
    ensures CastFits(w, Trunc(DcAfter(s, xs).y)) && SampleBound(w, Estimate(DcAfter(s, xs)))
  {
    StaysInRange(w, s, xs);
  }

  /** The output is converted to an integer while it waits to be stored. At 16 and at 32 bits
      that never overflows, whatever the resets do; at 24 bits it is safe for all runs exactly
      up to a debt of 293. */
  lemma CastsFitIff(w: width, k: nat)
    ensures CastsFitUpTo(w, k) <==> (w != 3 || k <= 293)
  {
    if w != 3 || k <= 293 {
      forall st | Reached(w, st) && st.capture.StoredX? && st.debt <= k
        ensures CastFits(w, Trunc(st.capture.y))
      {
        OutputByDebt(w, st);
        if w == 3 {
          var n: nat := 586 / 2;
          ReachMonotone(w, st.debt, n);
          Reach24(n);
        }
      }
    } else {
      var st := Overflow(294, 9000);
      assert !CastFits(w, Trunc(st.capture.y));
    }
  }

  lemma {:induction false} ReachIs(w: width, debt: nat)
    ensures Reach(w, debt) == 1000.0 * Half(w) as real - (998 * Half(w) + 1) as real * Decay(debt)
  {
    if debt > 0 {
      ReachIs(w, debt - 1);
    }
  }

  lemma {:induction false} ReachMonotone(w: width, a: nat, b: nat)
    requires a <= b
    ensures Reach(w, a) <= Reach(w, b)
    decreases b - a
  {
    if a < b {
      ReachMonotone(w, a + 1, b);
    }
  }

  lemma {:induction false} DecayAdd(i: nat, j: nat)
    ensures Decay(i + j) == Decay(i) * Decay(j)
  {
    if i > 0 {
      DecayAdd(i - 1, j);
    }
  }

  // ALPHA to the 293 by repeated squaring, along the binary digits of 293.

  ghost predicate DecayIn(n: nat, lo: real, hi: real) { 0.0 < lo <= Decay(n) <= hi }

  lemma Doubled(n: nat, lo: real, hi: real, a: real, b: real)
    requires DecayIn(n, lo, hi) && 0.0 < a <= lo * lo && hi * hi <= b
    ensures DecayIn(2 * n, a, b) && DecayIn(2 * n + 1, ALPHA * a, ALPHA * b)
  {
    DecayAdd(n, n);
    Squared(Decay(n), lo, hi);
    assert Decay(2 * n + 1) == ALPHA * Decay(2 * n);
  }

  lemma Squared(d: real, lo: real, hi: real)
    requires 0.0 < lo <= d <= hi
    ensures lo * lo <= d * d <= hi * hi
  {
    assert lo * lo <= lo * d <= d * d;
    assert d * d <= d * hi <= hi * hi;
  }

  /** The arguments of Decay are kept from being literals here, so that the solver uses the
      lemmas instead of unfolding it some hundred times. */
  lemma Decay36(one: nat) returns (n: nat)
    requires 0 < one < 2
    ensures 2 * n == 72 && DecayIn(n, 0.96460, 0.96463)
  {
    assert DecayIn(one, 0.999, 0.999) by {
      assert Decay(one) == ALPHA * Decay(one - 1) && Decay(one - 1) == 1.0;
    }
    Doubled(one, 0.999, 0.999, 0.998001, 0.998001);
    n := 2 * one;
    Doubled(n, 0.998001, 0.998001, 0.996005, 0.996006);
    n := 2 * n;
    Doubled(n, 0.996005, 0.996006, 0.992025, 0.992028);
    n := 2 * n + 1;
    Doubled(n, 0.991032975, 0.991035972, 0.982144, 0.982153);
    n := 2 * n;
    Doubled(n, 0.982144, 0.982153, 0.96460, 0.96463);
    n := 2 * n;
  }

  lemma Decay146() returns (n: nat)
    ensures 2 * n == 292 && DecayIn(n, 0.8640, 0.8642)
  {
    var one: nat :| 0 < one < 2;
    var k := Decay36(one);
    Doubled(k, 0.96460, 0.96463, 0.93045, 0.93052);
    n := DecayStep(2 * k + 1);
  }

  lemma DecayStep(k: nat) returns (n: nat)
    requires DecayIn(k, ALPHA * 0.93045, ALPHA * 0.93052)
    ensures n == 2 * k && DecayIn(n, 0.8640, 0.8642)
  {
    n := 2 * k;
    Doubled(k, ALPHA * 0.93045, ALPHA * 0.93052, 0.8640, 0.8642);
  }

  lemma Decay293(n: nat)
    requires 2 * n == 586
    ensures 0.7455 <= Decay(n) && Decay(n + 1) <= 0.74536
  {
    var k := Decay146();
    Doubled(k, 0.8640, 0.8642, 0.7464, 0.74685);
    assert 2 * k + 1 == n;
    assert Decay(n + 1) == ALPHA * Decay(n);
  }

  lemma Reach24(n: nat)
    requires 2 * n == 586
    ensures Reach(3, n) < 0x8000_0000 as real
    ensures Reach(3, n + 1) > 0x8000_0001 as real + 0.1 * 0x80_0000 as real
  {
    Decay293(n);
    ReachIs(3, n);
    ReachIs(3, n + 1);
  }

  /** A long constant at the top of the range, then samples at the bottom, each with a torn
      reset. */
  lemma Overflow(n: nat, m: nat) returns (st: State)
    requires 2 * n == 588 && m >= 9000
    ensures Reached(3, st) && st.capture.StoredX? && st.debt == n
    ensures Trunc(st.capture.y) < -0x8000_0000
  {
    var s := Saturated(3, m);
    SmallDecay(Decay(m), m);
    var slack := 0.1 * 0x80_0000 as real;
    var y := TornFall(3, s, slack, n);
    Filtering(3, Dc(0.0, y), n, -Half(3));
    var next := DcFilter(Dc(0.0, y), -Half(3));
    st := State(Dc(next.x, y), StoredX(next.y), false, n);
    Reach24(n - 1);
    assert Reach(3, n) == Half(3) as real + ALPHA * Reach(3, n - 1);
  }

  lemma SmallDecay(d: real, m: nat)
    requires d == Decay(m) && m >= 9000
    ensures 0.0 < d <= 0.1
  {
    DecayBound(m);
    ScaledLe(d, 10000.0, (1000 + m) as real);
  }

  lemma {:induction false} Saturated(w: width, n: nat) returns (s: Dc)
    ensures s == Dc((Half(w) - 1) as real, Decay(n) * (Half(w) - 1) as real)
    ensures Reached(w, Quiet(s, 0))
  {
    if n == 0 {
      Started(w);
      Undisturbed(w, DcZero, 0, Half(w) - 1);
      s := DcFilter(DcZero, Half(w) - 1);
    } else {
      var before := Saturated(w, n - 1);
      Undisturbed(w, before, 0, Half(w) - 1);
      s := DcFilter(before, Half(w) - 1);
    }
  }

  lemma {:induction false} TornFall(w: width, s: Dc, slack: real, n: nat) returns (y: real)
    requires n > 0 && Reached(w, Quiet(s, 0)) && s.x == (Half(w) - 1) as real && s.y <= slack
    requires 0.0 <= slack
    ensures Reached(w, Quiet(Dc(0.0, y), n)) && y <= slack - Reach(w, n - 1)
  {
    if n == 1 {
      Torn(w, s, 0, -Half(w));
      y := DcFilter(s, -Half(w)).y;
    } else {
      var before := TornFall(w, s, slack, n - 1);
      Torn(w, Dc(0.0, before), n - 1, -Half(w));
      y := DcFilter(Dc(0.0, before), -Half(w)).y;
    }
  }
}
