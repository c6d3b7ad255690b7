/** Runs of the feedback arithmetic that reach its limits: exactly which nice values keep
    recent_cpu within bounds, and how many ready threads drive that of a thread that waits
    beyond what thread_get_recent_cpu can return. */
module NiceRuns {
  import opened Common
  import opened Arithmetic
  import opened Mlfqs

  // ---------- a long run with one thread on the processor ----------

  /** The state n ticks on, while thread w runs and this many threads are ready or running. */
  function AfterTicks(s: Feedback, w: nat, ready: I32, n: nat): (r: Feedback)
    requires w < |s.threads| && ready >= 0
    ensures |r.threads| == |s.threads| && r.ticks == s.ticks + n
  {
    if n == 0 then s else Next(AfterTicks(s, w, ready, n - 1), DoTick(Some(w), ready))
  }

  /** The recent_cpu of thread 0 after n ticks. */
  function Recent(s: Feedback, w: nat, ready: I32, n: nat): I32
    requires w < |s.threads| && ready >= 0
  {
    AfterTicks(s, w, ready, n).threads[0].recent
  }

  /** What thread 0 is charged for n ticks. */
  function Fee(w: nat, n: nat): int { if w == 0 then n * F else 0 }

  lemma TickWithin(s: Feedback, w: nat, ready: I32)
    requires w < |s.threads| && ready >= 0 && (s.ticks + 1) % TIMER_FREQ != 0
    requires s.threads[0].recent + F < 0x8000_0000
    ensures var r := Next(s, DoTick(Some(w), ready));
      r.loadAvg == s.loadAvg && r.threads[0] == s.threads[0].(recent := s.threads[0].recent + Fee(w, 1))
  {
    Fits32(s.threads[0].recent + F);
    Fits32(F);
    hide ToI32;
  }

  lemma TickOver(s: Feedback, w: nat, ready: I32)
    requires w < |s.threads| && ready >= 0 && (s.ticks + 1) % TIMER_FREQ == 0
    requires s.threads[0].recent + F < 0x8000_0000
    ensures var r := Next(s, DoTick(Some(w), ready));
      && r.loadAvg == LoadAvg(s.loadAvg, ready)
      && r.threads[0] == Decayed(s.loadAvg, s.threads[0].(recent := s.threads[0].recent + Fee(w, 1)))
  {
    Fits32(s.threads[0].recent + F);
    Fits32(F);
    hide ToI32, LoadAvg, Decayed;
  }

  lemma OneMore(s: Feedback, w: nat, ready: I32, n: nat, m: nat)
    requires w < |s.threads| && ready >= 0 && m == n + 1
    ensures AfterTicks(s, w, ready, m) == Next(AfterTicks(s, w, ready, n), DoTick(Some(w), ready))
  {
    hide Next;
  }

  /** Within a second the load average stands still and thread 0 is charged tick by tick. */
  lemma {:induction false} WithinSecond(s: Feedback, w: nat, ready: I32, n: nat, i: nat, m: nat)
    requires w < |s.threads| && ready >= 0 && s.ticks == 0 && n % TIMER_FREQ == 0 && i < TIMER_FREQ && m == n + i
    requires Recent(s, w, ready, n) + 100 * F < 0x8000_0000
    ensures var a, b := AfterTicks(s, w, ready, n), AfterTicks(s, w, ready, m);
      b.loadAvg == a.loadAvg && b.threads[0] == a.threads[0].(recent := a.threads[0].recent + Fee(w, i))
  {
    hide Next, AfterTicks;
    if i > 0 {
      WithinSecond(s, w, ready, n, i - 1, m - 1);
      OneMore(s, w, ready, m - 1, m);
      TickWithin(AfterTicks(s, w, ready, m - 1), w, ready);
    }
  }

  /** From one second to the next. */
  lemma NextSecond(s: Feedback, w: nat, ready: I32, n: nat, m: nat)
    requires w < |s.threads| && ready >= 0 && s.ticks == 0 && n % TIMER_FREQ == 0 && m == n + 100
    requires Recent(s, w, ready, n) + 100 * F < 0x8000_0000
    requires 0 <= AfterTicks(s, w, ready, n).loadAvg <= MAX_THREADS * F
    ensures var a, b := AfterTicks(s, w, ready, n), AfterTicks(s, w, ready, m);
      && b.loadAvg == LoadAvg(a.loadAvg, ready)
      && b.threads[0].nice == a.threads[0].nice
      && b.threads[0].recent ==
         ToI32(Truncated(Coef(a.loadAvg) * (a.threads[0].recent + Fee(w, 100)), F) + IntToFp(a.threads[0].nice))
  {
    hide Next, AfterTicks, LoadAvg, IntToFp, Coef, ToI32, Truncated;
    var a, l := AfterTicks(s, w, ready, n), AfterTicks(s, w, ready, n + 99);
    WithinSecond(s, w, ready, n, 99, n + 99);
    OneMore(s, w, ready, n + 99, m);
    TickOver(l, w, ready);
    hide FpAddInt, FpTimeInt, RecentCpu;
    RecentCpuIs(a.loadAvg, l.threads[0].recent + Fee(w, 1), a.threads[0].nice);
  }

  // ---------- the load average climbs ----------

  /** Below `top` the load average of this many threads rises every second, and never above. */
  ghost predicate Rises(ready: I32, top: nat) {
    forall load: I32 :: 0 <= load <= top ==>
      load <= LoadAvg(load, ready) <= top && (load < top ==> LoadAvg(load, ready) > load)
  }

  lemma RisesTo(ready: I32, top: nat)
    requires ready == 1 && top == 16265
    ensures Rises(ready, top)
  {
    forall load: I32 | 0 <= load <= top
      ensures load <= LoadAvg(load, ready) <= top && (load < top ==> LoadAvg(load, ready) > load)
    {
      LoadAvgBounded(load, ready, 1);
      hide LoadAvg;
      StepUp(load);
    }
  }

  lemma Floor(x: nat)
    ensures Truncated(x, F) * F <= x < Truncated(x, F) * F + F
  {
  }

  lemma StepUp(load: nat)
    requires load <= 16265
    ensures load <= Truncated(16110 * load, F) + 273 <= 16265 && (load < 16265 ==> Truncated(16110 * load, F) + 273 > load)
  {
    Floor(16110 * load);
    hide Truncated;
  }

  ghost predicate AtSecond(s: Feedback, w: nat, ready: I32, k: nat, top: nat, nice: I32)
    requires w < |s.threads| && ready >= 0
  {
    var a := AfterTicks(s, w, ready, 100 * k);
    && 0 <= a.loadAvg <= top && (k >= top ==> a.loadAvg == top) && a.loadAvg >= (if k < top then k else top)
    && a.threads[0].nice == nice
  }

  /** Up to second n, thread 0 never has more than limit + 99, nor less than -limit - 99. */
  ghost predicate Tame(s: Feedback, w: nat, ready: I32, n: nat, low: int, high: int)
    requires w < |s.threads| && ready >= 0
  {
    forall i :: 0 <= i <= 100 * n + 99 ==> low <= Recent(s, w, ready, i) <= high
  }

  // ---------- a running thread climbs ----------

  lemma Grows(c: nat, recent: int, nice: nat, limit: int)
    requires c < F && 0 <= recent <= limit && c * (limit + 100 * F) + nice * F - limit * F >= F
    ensures Truncated(c * (recent + 100 * F), F) + nice >= recent + 1
  {
    MulLe(0, limit - recent, F - c);
    assert (F - c) * (limit - recent) == F * limit - F * recent - c * limit + c * recent;
    assert c * (recent + 100 * F) >= (recent + 1 - nice) * F;
    FloorAtLeast(c * (recent + 100 * F), recent + 1 - nice);
  }

  lemma FloorAtLeast(x: nat, q: int)
    requires x >= q * F
    ensures Truncated(x, F) >= q
  {
  }

  lemma AtMostAll(c: nat, x: nat)
    requires c < F
    ensures 0 <= Truncated(c * x, F) <= x
  {
    MulLe(c, F, x);
    TruncatedF(c * x);
  }

  /** What an update makes of recent_cpu. */
  function Updated(load: nat, recent: int, nice: I32): I32 {
    ToI32(Truncated(Coef(load) * recent, F) + IntToFp(nice))
  }

  lemma ClimbStep(load: nat, top: nat, recent: int, limit: int, nice: I32)
    requires load <= top <= MAX_THREADS * F && 0 <= recent <= limit && IntToFp(nice) >= 0
    requires limit + 100 * F + IntToFp(nice) < 0x8000_0000
    requires Coef(top) * (limit + 100 * F) + IntToFp(nice) * F - limit * F >= F
    ensures Updated(load, recent + 100 * F, nice) >= 0
    ensures load == top ==> Updated(load, recent + 100 * F, nice) >= recent + 1
  {
    CoefBounded(load, MAX_THREADS);
    AtMostAll(Coef(load), recent + 100 * F);
    Fits32(Truncated(Coef(load) * (recent + 100 * F), F) + IntToFp(nice));
    hide ToI32, IntToFp, Truncated, Coef;
    if load == top {
      Grows(Coef(top), recent, IntToFp(nice), limit);
    }
  }

  /** The start of a run in which thread 0 has this nice value. */
  ghost predicate Fresh(s: Feedback, w: nat, ready: I32, nice: I32) {
    w < |s.threads| && ready >= 0 && s.ticks == 0 && s.loadAvg == 0 && s.threads[0] == Usage(0, nice)
  }

  lemma LoadRises(s: Feedback, w: nat, ready: I32, top: nat, nice: I32, k: nat)
    requires Fresh(s, w, ready, nice) && k > 0 && top <= MAX_THREADS * F && Rises(ready, top)
    requires AtSecond(s, w, ready, k - 1, top, nice)
    requires Recent(s, w, ready, 100 * (k - 1)) + 100 * F < 0x8000_0000
    ensures AtSecond(s, w, ready, k, top, nice)
    ensures Recent(s, w, ready, 100 * k) ==
      Updated(AfterTicks(s, w, ready, 100 * (k - 1)).loadAvg, Recent(s, w, ready, 100 * (k - 1)) + Fee(w, 100), nice)
  {
    hide AfterTicks, LoadAvg, IntToFp, Coef, ToI32, Truncated;
    NextSecond(s, w, ready, 100 * (k - 1), 100 * k);
    var b := AfterTicks(s, w, ready, 100 * (k - 1));
    assert b.loadAvg <= LoadAvg(b.loadAvg, ready) <= top;
  }

  /** While it stays tame, a thread that always runs gains something every second once the load
      average has settled. */
  lemma {:induction false} Climbs(s: Feedback, ready: I32, top: nat, limit: int, nice: I32, k: nat)
    requires Fresh(s, 0, ready, nice) && top <= MAX_THREADS * F && Rises(ready, top) && IntToFp(nice) >= 0
    requires 0 <= limit && limit + 200 * F + IntToFp(nice) < 0x8000_0000
    requires Coef(top) * (limit + 100 * F) + IntToFp(nice) * F - limit * F >= F
    requires Tame(s, 0, ready, k, -0x8000_0000, limit + 99 * F)
    ensures AtSecond(s, 0, ready, k, top, nice)
    ensures 0 <= Recent(s, 0, ready, 100 * k) <= limit && Recent(s, 0, ready, 100 * k) >= k - top
  {
    hide Rises, AfterTicks, Updated, IntToFp, Coef;
    if k > 0 {
      TameBefore(s, 0, ready, k, -0x8000_0000, limit + 99 * F);
      Climbs(s, ready, top, limit, nice, k - 1);
      LoadRises(s, 0, ready, top, nice, k);
      var b := AfterTicks(s, 0, ready, 100 * (k - 1));
      ClimbStep(b.loadAvg, top, b.threads[0].recent, limit, nice);
    } else {
      AtStart(s, 0, ready, top, nice);
    }
    TameAtEnd(s, ready, k, limit);
  }

  lemma AtStart(s: Feedback, w: nat, ready: I32, top: nat, nice: I32)
    requires Fresh(s, w, ready, nice)
    ensures AtSecond(s, w, ready, 0, top, nice) && Recent(s, w, ready, 0) == 0
  {
  }

  lemma TameBefore(s: Feedback, w: nat, ready: I32, k: nat, low: int, high: int)
    requires w < |s.threads| && ready >= 0 && k > 0 && Tame(s, w, ready, k, low, high)
    ensures Tame(s, w, ready, k - 1, low, high)
  {
    hide Recent;
  }

  /** A second ends 99 ticks above its start, so tame seconds start lower. */
  lemma TameAtEnd(s: Feedback, ready: I32, k: nat, limit: int)
    requires |s.threads| > 0 && ready >= 0 && s.ticks == 0
    requires Tame(s, 0, ready, k, -0x8000_0000, limit + 99 * F) && limit + 199 * F < 0x8000_0000
    ensures Recent(s, 0, ready, 100 * k) <= limit
  {
    assert Recent(s, 0, ready, 100 * k) <= limit + 99 * F;
    WithinSecond(s, 0, ready, 100 * k, 99, 100 * k + 99);
    assert Recent(s, 0, ready, 100 * k + 99) <= limit + 99 * F;
  }

  // ---------- a sleeping thread sinks ----------

  lemma Sinks(c: nat, recent: int, nice: nat, limit: nat)
    requires c < F && -(limit as int) <= recent <= 0 && c * limit + nice * F - limit * F >= F
    ensures Truncated(c * recent, F) - nice <= recent - 1
  {
    var depth := -recent;
    MulLe(0, limit - depth, F - c);
    assert (F - c) * (limit - depth) == F * limit - F * depth - c * limit + c * depth;
    assert c * depth >= (depth + 1 - nice) * F;
    FloorAtLeast(c * depth, depth + 1 - nice);
    NegativeTruncates(c, recent);
  }

  lemma NegativeTruncates(c: nat, recent: int)
    requires recent <= 0
    ensures Truncated(c * recent, F) == -Truncated(c * -recent, F)
  {
    assert c * -recent == -(c * recent);
    MulLe(0, -recent, c);
  }

  lemma NoneGained(c: nat, recent: int)
    requires c < F && recent <= 0
    ensures recent <= Truncated(c * recent, F) <= 0
  {
    NegativeTruncates(c, recent);
    AtMostAll(c, -recent);
    hide Truncated;
  }

  lemma SinkStep(load: nat, top: nat, recent: int, limit: nat, nice: I32)
    requires load <= top <= MAX_THREADS * F && -(limit as int) <= recent <= 0 && IntToFp(nice) <= 0
    requires limit - IntToFp(nice) < 0x8000_0000
    requires Coef(top) * limit - IntToFp(nice) * F - limit * F >= F
    ensures Updated(load, recent, nice) <= 0
    ensures load == top ==> Updated(load, recent, nice) <= recent - 1
  {
    CoefBounded(load, MAX_THREADS);
    NoneGained(Coef(load), recent);
    Fits32(Truncated(Coef(load) * recent, F) + IntToFp(nice));
    hide ToI32, IntToFp, Truncated, Coef;
    if load == top {
      Sinks(Coef(top), recent, -(IntToFp(nice) as int), limit);
    }
  }

  /** While it stays tame, a thread that sleeps loses something every second once the load
      average has settled. */
  lemma {:induction false} Descends(s: Feedback, ready: I32, top: nat, limit: nat, nice: I32, k: nat)
    requires Fresh(s, 1, ready, nice) && top <= MAX_THREADS * F && Rises(ready, top) && IntToFp(nice) <= 0
    requires limit - IntToFp(nice) < 0x8000_0000
    requires Coef(top) * limit - IntToFp(nice) * F - limit * F >= F
    requires Tame(s, 1, ready, k, -(limit as int), 0x7FFF_FFFF)
    ensures AtSecond(s, 1, ready, k, top, nice)
    ensures -(limit as int) <= Recent(s, 1, ready, 100 * k) <= 0 && Recent(s, 1, ready, 100 * k) <= top - k
  {
    hide Rises, AfterTicks, Updated, IntToFp, Coef;
    if k > 0 {
      TameBefore(s, 1, ready, k, -(limit as int), 0x7FFF_FFFF);
      Descends(s, ready, top, limit, nice, k - 1);
      LoadRises(s, 1, ready, top, nice, k);
      var b := AfterTicks(s, 1, ready, 100 * (k - 1));
      SinkStep(b.loadAvg, top, b.threads[0].recent, limit, nice);
    } else {
      AtStart(s, 1, ready, top, nice);
    }
    TameNow(s, 1, ready, k, -(limit as int), 0x7FFF_FFFF);
  }

  lemma TameNow(s: Feedback, w: nat, ready: I32, k: nat, low: int, high: int)
    requires w < |s.threads| && ready >= 0 && Tame(s, w, ready, k, low, high)
    ensures low <= Recent(s, w, ready, 100 * k) <= high
  {
    hide Recent;
  }

  // ---------- the runs themselves ----------

  /** The run `states`, followed by n ticks of thread w. */
  function Prolonged(states: seq<Feedback>, w: nat, ready: I32, n: nat): seq<Feedback>
    requires states != [] && w < |states[|states| - 1].threads| && ready >= 0
  {
    states[..|states| - 1] + seq(n + 1, i requires 0 <= i < n + 1 => AfterTicks(states[|states| - 1], w, ready, i))
  }

  function Ticks(w: nat, ready: I32, n: nat): seq<Step> {
    seq(n, _ => DoTick(Some(w), ready))
  }

  lemma ProlongedRuns(states: seq<Feedback>, steps: seq<Step>, w: nat, ready: I32, n: nat)
    requires IsRun(states, steps) && w < |states[|steps|].threads| && ready >= 0
    ensures IsRun(Prolonged(states, w, ready, n), steps + Ticks(w, ready, n))
    ensures Prolonged(states, w, ready, n)[0] == states[0]
  {
    var last := states[|steps|];
    var all, allSteps := Prolonged(states, w, ready, n), steps + Ticks(w, ready, n);
    hide Next;
    forall i | 0 <= i < |allSteps|
      ensures Goes(all[i], allSteps[i], all[i + 1])
    {
      if i < |steps| {
        assert Goes(states[i], steps[i], states[i + 1]);
        assert all[i + 1] == states[i + 1];
      } else {
        OneMore(last, w, ready, i - |steps|, i - |steps| + 1);
      }
    }
  }

  /** Two threads, one of which sets its nice value. */
  function PairRun(nice: I32): seq<Feedback> {
    [Boot(),
     Feedback(0, 0, [Usage(0, 0), Usage(0, 0)]),
     Feedback(0, 0, [Usage(0, nice), Usage(0, 0)])]
  }

  function PairSteps(nice: I32): seq<Step> {
    [DoCreate(0), DoSetNice(0, nice)]
  }

  lemma PairRuns(nice: I32)
    ensures IsRun(PairRun(nice), PairSteps(nice))
  {
    var states, steps := PairRun(nice), PairSteps(nice);
    hide LoadAvg, FpAddInt, RecentCpu;
    assert Goes(states[0], steps[0], states[1]);
    assert Goes(states[1], steps[1], states[2]);
  }

  /** At most one thread is ever ready or running, and this is the only value that anybody
      passes to thread_set_nice. */
  predicate Uses(step: Step, nice: I32) {
    match step
    case DoTick(_, ready) => ready <= 1
    case DoSetNice(_, n) => n == nice
    case DoCreate(_) => true
  }

  lemma Coefs()
    ensures Coef(0) == 0 && Coef(16265) == 10896
  {
  }

  lemma WholeFp(nice: I32)
    ensures IntToFp(nice) > NICE_MAX * F ==> IntToFp(nice) >= 21 * F
    ensures IntToFp(nice) < -120 * F ==> IntToFp(nice) <= -121 * F
  {
  }

  /** A value far out of range leaves the bound with the first update. */
  lemma LeavesAtOnce(s: Feedback, w: nat, nice: I32)
    requires Fresh(s, w, 1, nice) && Abs(IntToFp(nice)) > Peak(1)
    ensures Abs(Recent(s, w, 1, 100)) > Peak(1)
  {
    AtStart(s, w, 1, 0, nice);
    Coefs();
    TruncatedF(0);
    Fits32(IntToFp(nice));
    hide ToI32, IntToFp, Coef, AfterTicks, Truncated, LoadAvg;
    NextSecond(s, w, 1, 0, 100);
    assert Coef(0) * (0 + Fee(w, 100)) == 0;
  }

  const SECONDS := 16265 + 360 * F + 1

  lemma RunningLeaves(s: Feedback, nice: I32)
    requires Fresh(s, 0, 1, nice) && NICE_MAX * F < IntToFp(nice) <= Peak(1)
    ensures !Tame(s, 0, 1, SECONDS, -Peak(1), Peak(1))
  {
    RisesTo(1, 16265);
    Coefs();
    WholeFp(nice);
    hide Rises, IntToFp, Coef, Recent;
    if Tame(s, 0, 1, SECONDS, -Peak(1), Peak(1)) {
      assert Tame(s, 0, 1, SECONDS, -0x8000_0000, 261 * F + 99 * F);
      Climbs(s, 1, 16265, 261 * F, nice, SECONDS);
      assert false;
    }
  }

  lemma SleepingLeaves(s: Feedback, nice: I32)
    requires Fresh(s, 1, 1, nice) && -Peak(1) <= IntToFp(nice) < -120 * F
    ensures !Tame(s, 1, 1, SECONDS, -Peak(1), Peak(1))
  {
    RisesTo(1, 16265);
    Coefs();
    WholeFp(nice);
    hide Rises, IntToFp, Coef, Recent;
    if Tame(s, 1, 1, SECONDS, -Peak(1), Peak(1)) {
      assert Tame(s, 1, 1, SECONDS, -((360 * F) as int), 0x7FFF_FFFF);
      Descends(s, 1, 16265, 360 * F, nice, SECONDS);
      assert false;
    }
  }

  /** For every nice value that is not fair there is a run from boot, with one thread ready at a
      time and no other nice value, that leaves the bound of one thread. */
  lemma NiceEscapes(nice: I32) returns (states: seq<Feedback>, steps: seq<Step>, i: nat)
    requires !Fair(nice)
    ensures IsRun(states, steps) && states[0] == Boot() && forall j :: 0 <= j < |steps| ==> Uses(steps[j], nice)
    ensures i < |states| && |states[i].threads| > 0 && Abs(states[i].threads[0].recent) > Peak(1)
  {
    var w := if IntToFp(nice) > 0 then 0 else 1;
    var s := PairRun(nice)[2];
    var n: nat := 100 * SECONDS + 99;
    PairRuns(nice);
    ProlongedRuns(PairRun(nice), PairSteps(nice), w, 1, n);
    var k: nat := EscapesAt(s, w, nice);
    hide AfterTicks, IntToFp, IsRun;
    states, steps, i := Prolonged(PairRun(nice), w, 1, n), PairSteps(nice) + Ticks(w, 1, n), 2 + k;
    assert states[i] == AfterTicks(s, w, 1, k);
  }

  lemma EscapesAt(s: Feedback, w: nat, nice: I32) returns (k: nat)
    requires Fresh(s, w, 1, nice) && !Fair(nice) && |s.threads| == 2 && w == (if IntToFp(nice) > 0 then 0 else 1)
    ensures k <= 100 * SECONDS + 99 && Abs(Recent(s, w, 1, k)) > Peak(1)
  {
    hide IntToFp, Recent;
    if Abs(IntToFp(nice)) > Peak(1) {
      k := 100;
      LeavesAtOnce(s, w, nice);
    } else {
      if w == 0 {
        RunningLeaves(s, nice);
      } else {
        SleepingLeaves(s, nice);
      }
      k :| 0 <= k <= 100 * SECONDS + 99 && !(-Peak(1) <= Recent(s, w, 1, k) <= Peak(1));
    }
  }

  /** A run from boot with at most one thread ready at a time, in which thread_set_nice is
      called with this value alone. */
  ghost predicate IsNiceRun(states: seq<Feedback>, steps: seq<Step>, nice: I32) {
    IsRun(states, steps) && states[0] == Boot() && forall j :: 0 <= j < |steps| ==> Uses(steps[j], nice)
  }

  ghost predicate InBound(s: Feedback) {
    forall t :: 0 <= t < |s.threads| ==> Abs(s.threads[t].recent) <= Peak(1)
  }

  /** In every such run |recent_cpu| stays within the bound of one thread. */
  ghost predicate NiceIsSafe(nice: I32) {
    forall states: seq<Feedback>, steps: seq<Step>, i: nat ::
      IsNiceRun(states, steps, nice) && i < |states| ==> InBound(states[i])
  }

  lemma FairIsSafe(states: seq<Feedback>, steps: seq<Step>, nice: I32, i: nat)
    requires Fair(nice) && IsNiceRun(states, steps, nice) && i < |states|
    ensures InBound(states[i])
  {
    forall j | 0 <= j < |steps|
      ensures Keeps(steps[j], 1)
    {
      assert Uses(steps[j], nice);
    }
    RunBounded(states, steps, 1, i);
  }

  /** The exact condition on the argument of thread_set_nice, which stores it as it comes: in
      fixed point it is between -120 and 20. */
  lemma NiceIsExact(nice: I32)
    ensures NiceIsSafe(nice) <==> Fair(nice)
  {
    hide Fair, IsRun, Peak;
    if Fair(nice) {
      forall states: seq<Feedback>, steps: seq<Step>, i: nat | IsNiceRun(states, steps, nice) && i < |states|
        ensures InBound(states[i])
      {
        FairIsSafe(states, steps, nice, i);
      }
    } else {
      var states, steps, i := NiceEscapes(nice);
      assert IsNiceRun(states, steps, nice) && !InBound(states[i]);
    }
  }

  /** The value is stored before it is clamped: with a nice value of 1000 the bound breaks. */
  lemma NiceOutOfRange()
    ensures !NiceIsSafe(1000) && !NiceIsSafe(21) && NiceIsSafe(20) && NiceIsSafe(-120) && !NiceIsSafe(-121)
  {
    InRangeIsFair(1000);
    InRangeIsFair(21);
    InRangeIsFair(20);
    InRangeIsFair(-120);
    InRangeIsFair(-121);
    hide NiceIsSafe, Fair;
    NiceIsExact(1000);
    NiceIsExact(21);
    NiceIsExact(20);
    NiceIsExact(-120);
    NiceIsExact(-121);
  }

  // ---------- a thread that never runs ----------

  const CROWD := 33

  /** Where the load average of that many threads settles, and the coefficient there. */
  const CROWD_LOAD := 538639
  const CROWD_COEF := 16138

  /** The largest recent_cpu of which thread_get_recent_cpu can return the hundredfold. */
  const HUNDREDTH := 21474836

  lemma LoadOfCrowd(load: I32)
    requires 0 <= load <= CROWD * F
    ensures 0 <= LoadAvg(load, CROWD) <= CROWD * F
    ensures load < CROWD_LOAD ==> LoadAvg(load, CROWD) > load
    ensures load >= CROWD_LOAD ==> LoadAvg(load, CROWD) >= CROWD_LOAD
  {
    LoadAvgBounded(load, CROWD, CROWD);
    Floor(16110 * (load as int));
    hide Truncated, LoadAvg;
  }

  lemma QuotientAtLeast(n: nat, d: nat, k: nat)
    requires d > 0 && k * d <= n
    ensures Truncated(n, d) >= k
  {
    var q := Truncated(n, d);
    assert q * d <= n < q * d + d;
    assert (q + 1) * d == q * d + d;
    if q < k {
      MulLe(q + 1, k, d);
    }
  }

  lemma CoefOfCrowd(load: nat)
    requires CROWD_LOAD <= load <= CROWD * F
    ensures CROWD_COEF <= Coef(load) < F
  {
    QuotientAtLeast(2 * load * F, 2 * load + F, CROWD_COEF);
    CoefBounded(load, CROWD);
    hide Truncated;
  }

  /** Once the load average has settled, an update adds something until the hundredfold does
      not fit, and never takes it back below that. */
  lemma CrowdGrows(c: nat, recent: int)
    requires CROWD_COEF <= c < F
    ensures 0 <= recent <= HUNDREDTH ==> Truncated(c * recent, F) + NICE_MAX * F >= recent + 1
    ensures recent > HUNDREDTH ==> Truncated(c * recent, F) + NICE_MAX * F > HUNDREDTH
  {
    if 0 <= recent <= HUNDREDTH {
      MulLe(CROWD_COEF, c, recent);
      FloorAtLeast(c * recent, recent + 1 - NICE_MAX * F);
    } else if recent > HUNDREDTH {
      MulLe(CROWD_COEF, c, recent);
      FloorAtLeast(c * recent, HUNDREDTH + 1 - NICE_MAX * F);
    }
    hide Truncated;
  }

  /** What thread 0 has at least after this many updates. */
  function Low(updates: nat): int {
    if updates <= CROWD_LOAD then -Peak(CROWD)
    else Min(HUNDREDTH + 1, updates - CROWD_LOAD - Peak(CROWD))
  }

  function Min(a: int, b: int): int { if a < b then a else b }

  ghost predicate Starved(s: Feedback, updates: nat) {
    && s.threads != [] && s.threads[0].nice == NICE_MAX
    && s.loadAvg >= Min(updates, CROWD_LOAD)
    && s.threads[0].recent >= Low(updates)
  }

  lemma StarvedUpdate(load: I32, u: Usage, updates: nat)
    requires Min(updates, CROWD_LOAD) <= load <= CROWD * F && u.nice == NICE_MAX
    requires Low(updates) <= u.recent <= Peak(CROWD)
    ensures Decayed(load, u).recent >= Low(updates + 1) && Decayed(load, u).nice == NICE_MAX
  {
    LowIsAbove(updates);
    InRangeIsFair(NICE_MAX);
    RecentCpuBounded(load, u.recent, u.nice, CROWD);
    var r := Decayed(load, u).recent;
    assert r == Truncated(Coef(load) * u.recent, F) + NICE_MAX * F;
    if updates >= CROWD_LOAD {
      CoefOfCrowd(load);
      if u.recent < 0 {
        NoneGained(Coef(load), u.recent);
      } else {
        CrowdGrows(Coef(load), u.recent);
      }
    }
    hide Truncated, Coef, IntToFp, RecentCpu, ToI32;
  }

  lemma LowIsAbove(updates: nat)
    ensures -Peak(CROWD) <= Low(updates) <= HUNDREDTH + 1
  {
  }

  /** Another thread runs for a tick. */
  lemma StarvedTick(s: Feedback, w: nat, updates: nat)
    requires Bounded(s, CROWD) && Starved(s, updates) && 0 < w < |s.threads|
    ensures Starved(Next(s, DoTick(Some(w), CROWD)), updates + One((s.ticks + 1) % TIMER_FREQ == 0))
  {
    Seconds(CROWD, s.ticks);
    assert UsageOk(s.threads[0], CROWD, Limit(CROWD, s.ticks));
    hide Limit, Peak, LoadAvg, Decayed, FpAddInt, Low;
    if (s.ticks + 1) % TIMER_FREQ == 0 {
      LoadOfCrowd(s.loadAvg);
      StarvedUpdate(s.loadAvg, s.threads[0], updates);
    }
  }

  /** From step a on another thread runs at every tick, and this many are ready or running;
      which of them runs is open. */
  ghost predicate OthersRun(steps: seq<Step>, a: nat, ready: I32) {
    forall j :: a <= j < |steps| ==> steps[j].DoTick? && steps[j].running.Some? && steps[j].running.value > 0 && steps[j].ready == ready
  }

  lemma {:induction false} StarvedRun(states: seq<Feedback>, steps: seq<Step>, a: nat, i: nat)
    requires IsRun(states, steps) && states[0] == Boot() && a <= i < |states| && OthersRun(steps, a, CROWD)
    requires forall j :: 0 <= j < |steps| ==> Keeps(steps[j], CROWD)
    requires states[a].threads != [] && states[a].threads[0].nice == NICE_MAX
    ensures states[i].ticks == states[a].ticks + (i - a)
    ensures Starved(states[i], states[i].ticks / TIMER_FREQ - states[a].ticks / TIMER_FREQ)
  {
    hide Next, Starved, Bounded, Keeps;
    RunBounded(states, steps, CROWD, i);
    if i > a {
      StarvedRun(states, steps, a, i - 1);
      RunBounded(states, steps, CROWD, i - 1);
      assert Goes(states[i - 1], steps[i - 1], states[i]);
      StarvedTick(states[i - 1], steps[i - 1].running.value, states[i - 1].ticks / TIMER_FREQ - states[a].ticks / TIMER_FREQ);
      OneTickOn(states[i - 1], steps[i - 1]);
      Hundreds(states[i - 1].ticks);
    } else {
      StarvedAtFirst(states[a]);
    }
  }

  lemma OneTickOn(s: Feedback, step: Step)
    requires Enabled(s, step) && step.DoTick?
    ensures Next(s, step).ticks == s.ticks + 1
  {
    hide LoadAvg, Decay, FpAddInt;
  }

  lemma Hundreds(ticks: nat)
    ensures (ticks + 1) / TIMER_FREQ == ticks / TIMER_FREQ + One((ticks + 1) % TIMER_FREQ == 0)
  {
  }

  lemma StarvedAtFirst(s: Feedback)
    requires Bounded(s, CROWD) && s.threads != [] && s.threads[0].nice == NICE_MAX
    ensures Starved(s, 0)
  {
    assert UsageOk(s.threads[0], CROWD, Limit(CROWD, s.ticks));
    hide Limit, Peak;
  }

  const STARVING := CROWD_LOAD + (240 * CROWD + 120) * F + HUNDREDTH + 1

  /** In every run from boot, whatever happened before: from step a on thread 0, with a nice
      value of 20, does not run while 33 other threads are ready or running, in any order.  Then
      from some second on, and for as long as that lasts, a hundred times its recent_cpu does not
      fit in an int. */
  lemma StarvedOverflows(states: seq<Feedback>, steps: seq<Step>, a: nat, i: nat)
    requires IsRun(states, steps) && states[0] == Boot() && a <= i < |states| && OthersRun(steps, a, CROWD)
    requires forall j :: 0 <= j < |steps| ==> Keeps(steps[j], CROWD)
    requires states[a].threads != [] && states[a].threads[0].nice == NICE_MAX
    requires i - a >= TIMER_FREQ * (STARVING + 1)
    ensures states[i].threads != []
    ensures FpTimeInt(states[i].threads[0].recent, 100) != states[i].threads[0].recent * 100
  {
    StarvedRun(states, steps, a, i);
    var before, after := states[a].ticks, states[i].ticks;
    assert after / TIMER_FREQ - before / TIMER_FREQ >= STARVING;
    hide IsRun, OthersRun;
    Fits32Only(states[i].threads[0].recent * 100);
  }

  lemma Fits32Only(x: int)
    requires x >= 0x8000_0000
    ensures ToI32(x) != x
  {
  }

  // ---------- with one thread less it fits ----------

  /** A thread that does not run stays within 1300 as long as 32 threads at most are ready. */
  lemma StarvedStays(load: I32, u: Usage)
    requires 0 <= load <= 32 * F && Abs(u.recent) <= 1300 * F && NICE_MIN <= u.nice <= NICE_MAX
    ensures Abs(Decayed(load, u).recent) <= 1300 * F
  {
    var c := Coef(load);
    CoefBounded(load, 32);
    InRangeIsFair(u.nice);
    RecentCpuBounded(load, u.recent, u.nice, 32);
    hide Truncated, Coef, IntToFp, RecentCpu, ToI32;
    KeptOf1300(c, u.recent);
  }

  lemma KeptOf1300(c: nat, recent: int)
    requires c * 65 <= 64 * F && Abs(recent) <= 1300 * F
    ensures Abs(Truncated(c * recent, F)) <= 1280 * F
  {
    AbsProduct(c, recent);
    MulLe(Abs(recent), 1300 * F, c);
    TruncatedF(c * recent);
    hide Truncated;
    assert Abs(Truncated(c * recent, F)) * F <= 1280 * F * F;
  }

  lemma StayingTick(s: Feedback, w: nat, ready: I32)
    requires Bounded(s, 32) && s.threads != [] && 0 < w < |s.threads| && 0 <= ready <= 32
    requires Abs(s.threads[0].recent) <= 1300 * F && NICE_MIN <= s.threads[0].nice <= NICE_MAX
    ensures var r := Next(s, DoTick(Some(w), ready));
      |r.threads| == |s.threads| && Abs(r.threads[0].recent) <= 1300 * F && r.threads[0].nice == s.threads[0].nice
  {
    hide Limit, LoadAvg, FpAddInt, FpTimeInt, RecentCpu;
    StarvedStays(s.loadAvg, s.threads[0]);
  }

  /** Partner of the above: with 32 threads or fewer a hundred times the recent_cpu of a thread
      that does not run always fits, so 33 is the least number that makes it overflow. */
  lemma {:induction false} StarvedFits(states: seq<Feedback>, steps: seq<Step>, a: nat, i: nat, ready: I32)
    requires IsRun(states, steps) && states[0] == Boot() && a <= i < |states| && OthersRun(steps, a, ready) && ready <= 32
    requires forall j :: 0 <= j < |steps| ==> Keeps(steps[j], 32)
    requires states[a].threads != [] && NICE_MIN <= states[a].threads[0].nice <= NICE_MAX
    requires Abs(states[a].threads[0].recent) <= 1300 * F
    ensures states[i].threads != [] && states[i].threads[0].nice == states[a].threads[0].nice
    ensures Abs(states[i].threads[0].recent) <= 1300 * F
    ensures FpTimeInt(states[i].threads[0].recent, 100) == states[i].threads[0].recent * 100
  {
    if i > a {
      StarvedFits(states, steps, a, i - 1, ready);
      RunBounded(states, steps, 32, i - 1);
      assert Goes(states[i - 1], steps[i - 1], states[i]);
      StayingTick(states[i - 1], steps[i - 1].running.value, ready);
    }
    hide IsRun, Next, Bounded;
    Fits32(states[i].threads[0].recent * 100);
  }

  // ---------- such runs from boot ----------

  /** The state after these threads ran for one tick each, in this order. */
  function AfterBy(s: Feedback, who: seq<nat>, ready: I32): (r: Feedback)
    requires ready >= 0 && forall i :: 0 <= i < |who| ==> who[i] < |s.threads|
    ensures |r.threads| == |s.threads|
  {
    if who == [] then s
    else Next(AfterBy(s, who[..|who| - 1], ready), DoTick(Some(who[|who| - 1]), ready))
  }

  /** n + 1 threads that have not run, the first with this nice value. */
  function Threads(n: nat, nice: I32): Feedback {
    Feedback(0, 0, seq(n + 1, i => Usage(0, if i == 0 then nice else 0)))
  }

  function CrowdStates(who: seq<nat>): seq<Feedback>
    requires forall i :: 0 <= i < |who| ==> 0 < who[i] <= CROWD
  {
    seq(CROWD + 1, n requires 0 <= n <= CROWD => Threads(n, 0)) +
    seq(|who| + 1, i requires 0 <= i <= |who| => AfterBy(Threads(CROWD, NICE_MAX), who[..i], CROWD))
  }

  function CrowdSteps(who: seq<nat>): seq<Step> {
    seq(CROWD, _ => DoCreate(0)) + [DoSetNice(0, NICE_MAX)] + seq(|who|, i requires 0 <= i < |who| => DoTick(Some(who[i]), CROWD))
  }

  lemma CrowdGoes(who: seq<nat>, i: nat)
    requires (forall i :: 0 <= i < |who| ==> 0 < who[i] <= CROWD) && i < |CrowdSteps(who)|
    ensures Goes(CrowdStates(who)[i], CrowdSteps(who)[i], CrowdStates(who)[i + 1])
  {
    hide LoadAvg, FpAddInt, RecentCpu, Decay;
    if i < CROWD {
      assert Threads(i + 1, 0).threads == Threads(i, 0).threads + [Usage(0, 0)];
    } else if i == CROWD {
      assert Threads(CROWD, NICE_MAX).threads == Threads(CROWD, 0).threads[0 := Usage(0, NICE_MAX)];
    } else {
      var k := i - CROWD - 1;
      assert who[..k + 1][..k] == who[..k];
    }
  }

  /** Whatever the order in which the 33 others run, there is such a run from boot. */
  lemma CrowdRuns(who: seq<nat>)
    requires forall i :: 0 <= i < |who| ==> 0 < who[i] <= CROWD
    ensures var states, steps := CrowdStates(who), CrowdSteps(who);
      && IsRun(states, steps) && states[0] == Boot() && |steps| == CROWD + 1 + |who|
      && OthersRun(steps, CROWD + 1, CROWD) && (forall j :: 0 <= j < |steps| ==> Keeps(steps[j], CROWD))
      && |states[CROWD + 1].threads| == CROWD + 1 && states[CROWD + 1].threads[0].nice == NICE_MAX
  {
    var states, steps := CrowdStates(who), CrowdSteps(who);
    InRangeIsFair(NICE_MAX);
    assert Threads(0, 0).threads == [Usage(0, 0)];
    assert who[..0] == [];
    hide IntToFp, AfterBy;
    forall i | 0 <= i < |steps|
      ensures Goes(states[i], steps[i], states[i + 1])
    {
      CrowdGoes(who, i);
    }
  }
}
