/** The 17.14 fixed-point arithmetic of the multi-level feedback queue, in 32-bit words, and
    the bounds that keep its two update formulas from overflowing. */
module Mlfqs {
  import opened Common
  import opened Arithmetic

  const F := 16384
  const TIMER_FREQ := 100
  const NICE_MIN := -20
  const NICE_MAX := 20

  // ---------- fixed-point.h ----------

  function IntToFp(n: int): I32 { ToI32(n * F) }

  function FpToIntNearest(x: I32): I32 {
    if x >= 0 then ToI32(Truncated(ToI32((x as int) + F / 2), F)) else ToI32(Truncated(ToI32((x as int) - F / 2), F))
  }

  function FpAddFp(x: I32, y: I32): I32 { ToI32((x as int) + (y as int)) }

  function FpAddInt(x: I32, n: I32): I32 { ToI32((x as int) + (ToI32((n as int) * F) as int)) }

  function FpTimeFp(x: I32, y: I32): I32 { ToI32(Truncated(ToI64((x as int) * (y as int)), F)) }

  function FpTimeInt(x: I32, n: I32): I32 { ToI32((x as int) * (n as int)) }

  function FpDivideByFp(x: I32, y: I32): I32
    requires y != 0
  {
    ToI32(Truncated(ToI64((x as int) * F), y))
  }

  function FpDivideByInt(x: I32, n: I32): I32
    requires n != 0
  {
    ToI32(Truncated(x, n))
  }

  // ---------- the two formulas ----------

  /** calc_load_avg with this many ready or running threads. */
  function LoadAvg(load: I32, ready: I32): I32 {
    FpAddFp(FpTimeFp(FpDivideByInt(IntToFp(59), 60), load),
            FpTimeInt(FpDivideByInt(IntToFp(1), 60), ready))
  }

  /** calc_recent_cpu, which divides by 2 * load_avg + 1. */
  function RecentCpu(load: I32, recent: I32, nice: I32): I32
    requires FpAddInt(FpTimeInt(load, 2), 1) != 0
  {
    var coef := FpDivideByFp(FpTimeInt(load, 2), FpAddInt(FpTimeInt(load, 2), 1));
    FpAddInt(FpTimeFp(coef, recent), nice)
  }

  /** The formulas without overflow, on unbounded integers. */
  function ExactLoadAvg(load: int, ready: int): int {
    Truncated(16110 * load, F) + 273 * ready
  }

  function ExactRecentCpu(load: int, recent: int, nice: int): int
    requires load >= 0
  {
    Truncated(Truncated(2 * load * F, 2 * load + F) * recent, F) + nice * F
  }

  const MAX_THREADS := 545

  /** The bound on |recent_cpu| right after an update, and just before one. */
  function Settled(r: int): int { (240 * r + 20) * F }

  function Peak(r: int): int { (240 * r + 120) * F }

  lemma Fits32(x: int)
    requires -0x8000_0000 <= x < 0x8000_0000
    ensures ToI32(x) == x
  {
  }

  lemma Fits64(x: int)
    requires INT64_MIN <= x < -INT64_MIN
    ensures ToI64(x) == x
  {
  }

  lemma TruncatedF(n: int)
    ensures Abs(Truncated(n, F)) * F <= Abs(n)
    ensures n >= 0 ==> Truncated(n, F) >= 0
  {
  }

  lemma Constants()
    ensures FpDivideByInt(IntToFp(59), 60) == 16110 && FpDivideByInt(IntToFp(1), 60) == 273
  {
  }

  /** The load average stays between zero and the largest number of threads ever ready or
      running, and its formula does not overflow. */
  lemma LoadAvgBounded(load: I32, ready: I32, r: nat)
    requires r <= MAX_THREADS && 0 <= load <= r * F && 0 <= ready <= r
    ensures LoadAvg(load, ready) == ExactLoadAvg(load, ready)
    ensures 0 <= LoadAvg(load, ready) <= r * F
  {
    var x: int := 16110 * (load as int);
    Constants();
    TruncatedF(x);
    Fits64(x);
    Fits32(Truncated(x, F));
    Fits32(273 * (ready as int));
    Fits32(Truncated(x, F) + 273 * (ready as int));
    hide ToI32, ToI64, Truncated, FpDivideByInt, IntToFp;
  }

  /** The coefficient 2L / (2L + 1) is at most 2R / (2R + 1). */
  lemma CoefBounded(load: nat, r: nat)
    requires load <= r * F
    ensures var c := Truncated(2 * load * F, 2 * load + F);
      0 <= c < F && c * (2 * r + 1) <= 2 * r * F
  {
    var n, d := 2 * load * F, 2 * load + F;
    var c := Truncated(n, d);
    assert n == c * d + n % d;
    CoefStep(load, r, c);
  }

  lemma CoefStep(load: nat, r: nat, c: nat)
    requires load <= r * F && c * (2 * load + F) <= 2 * load * F
    ensures c < F && c * (2 * r + 1) <= 2 * r * F
  {
    if c >= F {
      assert false;
    }
    assert c * F <= 2 * load * (F - c);
    assert (r * F - load) * (F - c) >= 0;
    assert c * F <= (2 * r * (F - c)) * F;
  }

  /** The nice values that keep recent_cpu within bounds: -120 to 20, as they come out of the
      conversion to fixed point, which takes them modulo 2^18. */
  predicate Fair(nice: I32) { -120 * F <= IntToFp(nice) <= NICE_MAX * F }

  lemma InRangeIsFair(nice: I32)
    requires -0x2_0000 <= nice < 0x2_0000
    ensures IntToFp(nice) == nice * F && (Fair(nice) <==> -120 <= nice <= NICE_MAX)
  {
  }

  function Coef(load: nat): nat { Truncated(2 * load * F, 2 * load + F) }

  /** One update brings any value up to the peak back to the settled bound. */
  lemma Settles(c: nat, recent: int, nice: int, r: nat)
    requires c < F && c * (2 * r + 1) <= 2 * r * F
    requires Abs(recent) <= Peak(r) && -120 * F <= nice <= NICE_MAX * F
    ensures Abs(Truncated(c * recent, F)) <= 240 * r * F
    ensures -Peak(r) <= Truncated(c * recent, F) + nice <= Settled(r)
  {
    var t := Truncated(c * recent, F);
    TruncatedF(c * recent);
    AbsProduct(c, recent);
    MulLe(Abs(recent), Peak(r), c);
    hide Truncated;
    assert c * Peak(r) == 120 * (c * (2 * r + 1)) * F;
    assert Abs(t) * F <= 240 * r * F * F;
  }

  lemma AbsProduct(c: nat, x: int)
    ensures Abs(c * x) == c * Abs(x)
  {
  }

  lemma LessThanOne(c: nat, x: I32)
    requires c < F
    ensures Abs(c * x) <= F * 0x8000_0000 && Abs(Truncated(c * x, F)) <= Abs(x)
  {
    AbsProduct(c, x);
    MulLe(c, F, Abs(x));
    TruncatedF(c * x);
    assert Abs(Truncated(c * x, F)) * F <= Abs(x) * F;
    hide Truncated;
  }

  /** calc_recent_cpu overflows at its last addition only, and never divides by zero. */
  lemma RecentCpuIs(load: I32, recent: I32, nice: I32)
    requires 0 <= load <= MAX_THREADS * F
    ensures FpAddInt(FpTimeInt(load, 2), 1) == 2 * load + F
    ensures Coef(load) < F && RecentCpu(load, recent, nice) == ToI32(Truncated(Coef(load) * recent, F) + IntToFp(nice))
  {
    var c := Coef(load);
    CoefBounded(load, MAX_THREADS);
    LessThanOne(c, recent);
    Fits32(F);
    Fits32(2 * load);
    Fits32(2 * load + F);
    Fits64(2 * load * F);
    Fits32(c);
    Fits64(c * recent);
    Truncated32(c, recent);
    hide ToI32, ToI64, Truncated, Abs;
  }

  lemma Truncated32(c: nat, recent: I32)
    requires c < F
    ensures ToI32(Truncated(c * recent, F)) == Truncated(c * recent, F)
  {
    AbsProduct(c, recent);
    MulLe(c, F - 1, Abs(recent));
    TruncatedF(c * recent);
    var t := Truncated(c * recent, F);
    assert Abs(t) * F <= Abs(recent) * (F - 1);
    hide Truncated;
    if Abs(t) >= 0x8000_0000 {
      MulLe(0x8000_0000, Abs(t), F);
    }
    Fits32(t);
  }

  /** recent_cpu comes back to the settled bound, and its formula does not overflow. */
  lemma RecentCpuBounded(load: I32, recent: I32, nice: I32, r: nat)
    requires r <= MAX_THREADS && 0 <= load <= r * F
    requires Abs(recent) <= Peak(r) && Fair(nice)
    ensures FpAddInt(FpTimeInt(load, 2), 1) == 2 * load + F
    ensures RecentCpu(load, recent, nice) == Truncated(Coef(load) * recent, F) + IntToFp(nice)
    ensures -Peak(r) <= RecentCpu(load, recent, nice) <= Settled(r)
    ensures NICE_MIN <= nice <= NICE_MAX ==> RecentCpu(load, recent, nice) == ExactRecentCpu(load, recent, nice)
  {
    CoefBounded(load, r);
    Settles(Coef(load), recent, IntToFp(nice), r);
    RecentCpuIs(load, recent, nice);
    Fits32(Truncated(Coef(load) * recent, F) + IntToFp(nice));
    if NICE_MIN <= nice <= NICE_MAX {
      InRangeIsFair(nice);
    }
    hide ToI32, ToI64, Truncated, Abs, IntToFp;
  }

  // ---------- runs ----------

  datatype Usage = Usage(recent: I32, nice: I32)

  /** What the formulas read and write; `ticks` counts timer ticks. */
  datatype Feedback = Feedback(loadAvg: I32, ticks: nat, threads: seq<Usage>)

  datatype Step =
    | DoTick(running: Option<nat>, ready: I32)
    | DoSetNice(t: nat, nice: I32)
    | DoCreate(parent: nat)

  predicate Enabled(s: Feedback, step: Step) {
    match step
    case DoTick(running, ready) => (running.Some? ==> running.value < |s.threads|) && ready >= 0
    case DoSetNice(t, _) => t < |s.threads|
    case DoCreate(p) => p < |s.threads|
  }

  /** The running thread, unless it is the idle thread, is charged for the tick. */
  function Charge(threads: seq<Usage>, running: Option<nat>): seq<Usage>
    requires running.Some? ==> running.value < |threads|
  {
    if running.None? then threads
    else threads[running.value := threads[running.value].(recent := FpAddInt(threads[running.value].recent, 1))]
  }

  /** The loop over all threads once a second; a zero divisor would trap. */
  function Decay(load: I32, threads: seq<Usage>): (r: seq<Usage>)
    ensures |r| == |threads|
  {
    seq(|threads|, i requires 0 <= i < |threads| => Decayed(load, threads[i]))
  }

  function Decayed(load: I32, u: Usage): Usage {
    if FpAddInt(FpTimeInt(load, 2), 1) == 0 then u
    else u.(recent := RecentCpu(load, u.recent, u.nice))
  }

  function Next(s: Feedback, step: Step): Feedback
    requires Enabled(s, step)
  {
    match step
    case DoTick(running, ready) =>
      var ticks, threads := s.ticks + 1, Charge(s.threads, running);
      if ticks % TIMER_FREQ == 0 then Feedback(LoadAvg(s.loadAvg, ready), ticks, Decay(s.loadAvg, threads))
      else Feedback(s.loadAvg, ticks, threads)
    case DoSetNice(t, nice) => s.(threads := s.threads[t := s.threads[t].(nice := nice)])
    case DoCreate(parent) => s.(threads := s.threads + [s.threads[parent]])
  }

  function Boot(): Feedback {
    Feedback(0, 0, [Usage(0, 0)])
  }

  /** At most r threads are ever ready or running, and nice values are fair. */
  predicate Keeps(step: Step, r: nat) {
    match step
    case DoTick(_, ready) => ready <= r
    case DoSetNice(_, nice) => Fair(nice)
    case DoCreate(_) => true
  }

  ghost predicate UsageOk(u: Usage, r: nat, limit: int) {
    -Peak(r) <= u.recent <= limit && Fair(u.nice)
  }

  function Limit(r: nat, ticks: nat): int { Settled(r) + F * (ticks % TIMER_FREQ) }

  lemma Seconds(r: nat, ticks: nat)
    requires r <= MAX_THREADS
    ensures Limit(r, ticks) + F <= Peak(r) < 0x8000_0000
    ensures (ticks + 1) % TIMER_FREQ == 0 ==> Limit(r, ticks) + F == Peak(r) && Limit(r, ticks + 1) == Settled(r)
    ensures (ticks + 1) % TIMER_FREQ != 0 ==> Limit(r, ticks + 1) == Limit(r, ticks) + F
  {
  }

  /** recent_cpu exceeds the settled bound by at most one for each tick of this second. */
  ghost predicate Bounded(s: Feedback, r: nat) {
    && 0 <= s.loadAvg <= r * F
    && forall t :: 0 <= t < |s.threads| ==> UsageOk(s.threads[t], r, Limit(r, s.ticks))
  }

  lemma ChargeBounded(recent: I32, low: int, limit: int)
    requires low <= recent <= limit && limit + F < 0x8000_0000
    ensures FpAddInt(recent, 1) == recent + F && low <= FpAddInt(recent, 1) <= limit + F
  {
  }

  lemma TickBounded(s: Feedback, step: Step, r: nat)
    requires r <= MAX_THREADS && Bounded(s, r) && Enabled(s, step) && Keeps(step, r) && step.DoTick?
    ensures Bounded(Next(s, step), r)
  {
    var threads := Charge(s.threads, step.running);
    var limit := Limit(r, s.ticks);
    Seconds(r, s.ticks);
    hide Limit, Settled, Peak, FpAddInt, Decay, LoadAvg;
    forall t | 0 <= t < |threads|
      ensures UsageOk(threads[t], r, limit + F)
    {
      assert UsageOk(s.threads[t], r, limit);
      ChargeBounded(s.threads[t].recent, -Peak(r), limit);
    }
    if (s.ticks + 1) % TIMER_FREQ == 0 {
      LoadAvgBounded(s.loadAvg, step.ready, r);
      DecayBounded(s.loadAvg, threads, r);
    }
  }

  lemma DecayBounded(load: I32, threads: seq<Usage>, r: nat)
    requires r <= MAX_THREADS && 0 <= load <= r * F
    requires forall t :: 0 <= t < |threads| ==> UsageOk(threads[t], r, Peak(r))
    ensures forall t :: 0 <= t < |threads| ==> UsageOk(Decay(load, threads)[t], r, Settled(r))
  {
    hide FpAddInt, FpTimeInt, RecentCpu, Settled, Peak;
    forall t | 0 <= t < |threads|
      ensures UsageOk(Decay(load, threads)[t], r, Settled(r))
    {
      assert UsageOk(threads[t], r, Peak(r));
      RecentCpuBounded(load, threads[t].recent, threads[t].nice, r);
    }
  }

  lemma StepBounded(s: Feedback, step: Step, r: nat)
    requires r <= MAX_THREADS && Bounded(s, r) && Enabled(s, step) && Keeps(step, r)
    ensures Bounded(Next(s, step), r)
  {
    if step.DoTick? {
      TickBounded(s, step, r);
    } else {
      hide Limit;
    }
  }

  ghost predicate Goes(s: Feedback, step: Step, t: Feedback) {
    Enabled(s, step) && t == Next(s, step)
  }

  ghost predicate IsRun(states: seq<Feedback>, steps: seq<Step>) {
    && |states| == |steps| + 1
    && forall i :: 0 <= i < |steps| ==> Goes(states[i], steps[i], states[i + 1])
  }

  /** Forever: with at most r <= 545 threads ready or running and fair nice values, the load
      average stays in 0..r and |recent_cpu| below 240r + 120. */
  lemma {:induction false} RunBounded(states: seq<Feedback>, steps: seq<Step>, r: nat, i: nat)
    requires IsRun(states, steps) && r <= MAX_THREADS && states[0] == Boot() && i < |states|
    requires forall j :: 0 <= j < |steps| ==> Keeps(steps[j], r)
    ensures Bounded(states[i], r)
    ensures 0 <= states[i].loadAvg <= r * F
    ensures forall t :: 0 <= t < |states[i].threads| ==> Abs(states[i].threads[t].recent) <= Peak(r)
    decreases i
  {
    if i > 0 {
      RunBounded(states, steps, r, i - 1);
      assert Goes(states[i - 1], steps[i - 1], states[i]);
      StepBounded(states[i - 1], steps[i - 1], r);
    }
    Seconds(r, states[i].ticks);
    hide Next, Limit, Peak;
    assert forall t :: 0 <= t < |states[i].threads| ==> UsageOk(states[i].threads[t], r, Limit(r, states[i].ticks));
  }

  /** At this tick neither formula overflows for thread t, nor divides by zero. */
  ghost predicate Exact(s: Feedback, step: Step, t: nat)
    requires step.DoTick? && Enabled(s, step) && t < |s.threads|
  {
    var u := Charge(s.threads, step.running)[t];
    && u.recent == s.threads[t].recent + (if step.running == Some(t) then F else 0)
    && LoadAvg(s.loadAvg, step.ready) == ExactLoadAvg(s.loadAvg, step.ready)
    && FpAddInt(FpTimeInt(s.loadAvg, 2), 1) == 2 * s.loadAvg + F > 0
    && s.loadAvg >= 0
    && RecentCpu(s.loadAvg, u.recent, u.nice) == ExactRecentCpu(s.loadAvg, u.recent, u.nice)
  }

  lemma TickIsExact(s: Feedback, step: Step, r: nat, t: nat)
    requires r <= MAX_THREADS && Bounded(s, r) && step.DoTick? && Enabled(s, step) && Keeps(step, r) && t < |s.threads|
    requires NICE_MIN <= s.threads[t].nice <= NICE_MAX
    ensures Exact(s, step, t)
  {
    var limit := Limit(r, s.ticks);
    Seconds(r, s.ticks);
    assert UsageOk(s.threads[t], r, limit);
    ChargeBounded(s.threads[t].recent, -Peak(r), limit);
    LoadAvgBounded(s.loadAvg, step.ready, r);
    hide FpAddInt, FpTimeInt, RecentCpu, LoadAvg, ExactLoadAvg, ExactRecentCpu, Settled, Peak;
    RecentCpuBounded(s.loadAvg, Charge(s.threads, step.running)[t].recent, s.threads[t].nice, r);
  }

  /** Nice values are in the range that the documentation gives. */
  predicate InNiceRange(step: Step) {
    step.DoSetNice? ==> NICE_MIN <= step.nice <= NICE_MAX
  }

  lemma {:induction false} RunIsNice(states: seq<Feedback>, steps: seq<Step>, i: nat, t: nat)
    requires IsRun(states, steps) && states[0] == Boot() && i < |states| && t < |states[i].threads|
    requires forall j :: 0 <= j < |steps| ==> InNiceRange(steps[j])
    ensures NICE_MIN <= states[i].threads[t].nice <= NICE_MAX
  {
    if i > 0 {
      assert Goes(states[i - 1], steps[i - 1], states[i]);
      assert InNiceRange(steps[i - 1]);
      var before := if t < |states[i - 1].threads| then t else steps[i - 1].parent;
      RunIsNice(states, steps, i - 1, before);
      hide LoadAvg, FpAddInt, FpTimeInt, RecentCpu;
    }
  }

  /** In every such run with nice values in -20..20 neither formula overflows at any update, nor
      divides by zero. */
  lemma RunIsExact(states: seq<Feedback>, steps: seq<Step>, r: nat, i: nat, t: nat)
    requires IsRun(states, steps) && r <= MAX_THREADS && states[0] == Boot() && i < |steps|
    requires forall j :: 0 <= j < |steps| ==> InNiceRange(steps[j]) && (steps[j].DoTick? ==> steps[j].ready <= r)
    requires steps[i].DoTick? && t < |states[i].threads|
    ensures Goes(states[i], steps[i], states[i + 1]) && Exact(states[i], steps[i], t)
  {
    forall j | 0 <= j < |steps|
      ensures Keeps(steps[j], r)
    {
      assert InNiceRange(steps[j]);
      if steps[j].DoSetNice? {
        InRangeIsFair(steps[j].nice);
      }
    }
    RunBounded(states, steps, r, i);
    RunIsNice(states, steps, i, t);
    assert Goes(states[i], steps[i], states[i + 1]);
    hide Next, Exact;
    TickIsExact(states[i], steps[i], r, t);
  }

  /** fp_to_int_rtn rounds to the nearest integer, halves away from zero. */
  lemma RoundsToNearest(x: I32)
    requires Abs(x) + F / 2 < 0x8000_0000
    ensures 2 * Abs(FpToIntNearest(x) * F - x) <= F
    ensures FpToIntNearest(-(x as int)) == -(FpToIntNearest(x) as int)
  {
    var n: int := if x >= 0 then x + F / 2 else x - F / 2;
    Fits32(n);
    Fits32(-n);
    Fits32(Truncated(n, F));
    Fits32(Truncated(-n, F));
    hide ToI32;
  }

  /** A hundred times the load average always fits; a hundred times recent_cpu overflows as
      soon as recent_cpu passes 21474836, which is below the peak of six threads. */
  lemma HundredfoldFits(load: I32, recent: I32, r: nat)
    requires r <= MAX_THREADS && 0 <= load <= r * F && Abs(recent) <= Peak(r)
    ensures FpTimeInt(load, 100) == load * 100
    ensures FpTimeInt(recent, 100) == recent * 100 <==> Abs(recent) <= 21474836
    ensures 21474836 < Peak(6)
  {
  }

  // ---------- the tick in place ----------

  class Accounting {
    var loadAvg: I32
    var ticks: nat
    var threads: seq<Usage>

    ghost function St(): Feedback
      reads this
    {
      Feedback(loadAvg, ticks, threads)
    }

    /** The accounting of thread_tick with thread_mlfqs true.  The idle thread runs when
        `running` is absent. */
    method Tick(running: Option<nat>, ready: I32)
      requires Enabled(St(), DoTick(running, ready)) && FpAddInt(FpTimeInt(loadAvg, 2), 1) != 0
      modifies this
      ensures St() == Next(old(St()), DoTick(running, ready))
    {
      hide FpAddInt, FpTimeInt, RecentCpu, LoadAvg;
      ticks := ticks + 1;
      if running.Some? {
        var u := threads[running.value];
        threads := threads[running.value := u.(recent := FpAddInt(u.recent, 1))];
      }
      if ticks % TIMER_FREQ == 0 {
        ghost var was := threads;
        var i := 0;
        while i < |threads|
          invariant 0 <= i <= |threads| == |was|
          invariant forall k :: 0 <= k < |was| ==> threads[k] == if k < i then Decayed(loadAvg, was[k]) else was[k]
          invariant FpAddInt(FpTimeInt(loadAvg, 2), 1) != 0
          invariant loadAvg == old(loadAvg) && ticks == old(ticks) + 1
        {
          var u := threads[i];
          threads := threads[i := u.(recent := RecentCpu(loadAvg, u.recent, u.nice))];
          i := i + 1;
        }
        assert threads == Decay(loadAvg, was);
        loadAvg := LoadAvg(loadAvg, ready);
      }
    }
  }
}
