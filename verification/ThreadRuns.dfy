/** Whole runs of the scheduler: what every run keeps, when preemption is in order, what
    donation does and gives back, and when sleepers wake. */
module ThreadRuns {
  import opened Common
  import opened ThreadState
  import opened ThreadInvariants
  import opened ThreadSteps

  // ---------- what every run keeps ----------

  /** A bare thread_unblock of a thread that outranks the running one. */
  ghost predicate Breaks(s: State, step: Step)
    requires Wf(s) && Fits(s, step)
  {
    step.DoUnblock? && PriorityOf(s, step.tid) > PriorityOf(s, s.current)
  }

  /** The next timer interrupt wakes a sleeper. */
  ghost predicate SomeoneDue(s: State)
    requires Wf(s)
  {
    exists i :: 0 <= i < |s.sleepers| && s.threads[s.sleepers[i]].wakeup <= s.ticks + 1
  }

  /** The steps that let a ready thread run that outranks the running one: those that give up
      the processor, and those that end by comparing the two. */
  ghost predicate Restores(s: State, step: Step)
    requires Wf(s) && Fits(s, step)
  {
    match step
    case DoCreate(_) => true
    case DoExit => true
    case DoBlock => true
    case DoYield => true
    case DoSetPriority(_) => true
    case DoUp(_) => true
    case DoRelease(_) => true
    case DeviceIntr(_) => true
    case DoDown(q) => s.semas[q].value == 0
    case DoAcquire(l) => s.locks[l].holder.Some?
    case DoSleep(n) => n > 0
    case Resume => Rewaits(s)
    case TimerIntr => SomeoneDue(s)
    case DoUnblock(_) => false
    case DoSemaInit(_) => false
    case DoLockInit => false
    case DoTryDown(_) => false
    case DoTryAcquire(_) => false
  }

  /** A thread back in sema_down finds nothing to take. */
  ghost predicate Rewaits(s: State)
    requires Wf(s) && s.threads[s.current].cont.Down?
  {
    assert ThreadWf(s.threads[s.current], |s.threads|, |s.semas|, |s.locks|);
    s.semas[s.threads[s.current].cont.sema].value == 0
  }

  /** A step leaves the scheduler in order, and a ready thread outranks the running one after
      it exactly if the step breaks the order, or did not restore it. */
  ghost predicate InOrder(s: State, step: Step, r: State)
    requires Wf(s) && Fits(s, step)
  {
    && Mid(r, Steady)
    && (Outranked(r) <==> Breaks(s, step) || (Outranked(s) && !Restores(s, step)))
  }

  lemma UnblockOrder(s: State, t: Tid)
    requires Wf(s) && t < |s.threads|
    ensures Outranked(Unblock(s, t)) <==> PriorityOf(s, t) > PriorityOf(s, s.current) || Outranked(s)
  {
  }

  lemma InitOrder(s: State, value: nat)
    requires Wf(s)
    ensures Outranked(SemaInit(s, value)) == Outranked(s) && Outranked(LockInit(s)) == Outranked(s)
  {
  }

  lemma OnThreadsInOrder(s: State, step: Step)
    requires Inv(s) && Enabled(s, step) && OnThreads(step)
    ensures InOrder(s, step, Next(s, step))
  {
    hide Rest, Placed, Outranked;
    hide Create, Exit, Block, Unblock, Yield, SetOwnPriority;
    match step
    case DoCreate(p) => CreateKeeps(s, p);
    case DoExit => ExitKeeps(s);
    case DoBlock => BlockKeeps(s);
    case DoUnblock(t) => UnblockKeeps(s, t); UnblockOrder(s, t);
    case DoYield => YieldKeeps(s);
    case DoSetPriority(p) => OwnPriorityKeeps(s, p);
  }

  lemma LockOrder(s: State, l: nat)
    requires Mid(s, Steady) && l < |s.locks|
    ensures s.locks[l].holder.None? ==> Outranked(LockAcquire(s, l)) == Outranked(s)
    ensures Outranked(LockTryAcquire(s, l)) == Outranked(s)
  {
    LockIsOwned(s, l);
    DownOrder(s, s.locks[l].sema, Some(l));
  }

  lemma OnLocksInOrder(s: State, step: Step)
    requires Inv(s) && Enabled(s, step) && OnLocks(step)
    ensures InOrder(s, step, Next(s, step))
  {
    hide Rest, Placed, Outranked;
    hide LockInit, LockAcquire, LockTryAcquire, LockRelease;
    match step
    case DoLockInit => LockInitKeeps(s); InitOrder(s, 0);
    case DoAcquire(l) => LockAcquireKeeps(s, l); LockOrder(s, l);
    case DoTryAcquire(l) => LockTryAcquireKeeps(s, l); LockOrder(s, l);
    case DoRelease(l) => LockReleaseKeeps(s, l);
  }

  lemma ResumeOrder(s: State)
    requires Mid(s, Steady) && s.threads[s.current].cont.Down?
    ensures ThreadWf(s.threads[s.current], |s.threads|, |s.semas|, |s.locks|)
    ensures var c := s.threads[s.current].cont;
      && Mid(DownOnce(s, c.sema, c.onto), Steady)
      && (Outranked(DownOnce(s, c.sema, c.onto)) <==> Outranked(s) && !Rewaits(s))
  {
    hide Rest, Placed, DownOnce, Outranked;
    var c := s.threads[s.current].cont;
    ResumeIsRight(s);
    DownOnceKeeps(s, c.sema, c.onto);
    DownOrder(s, c.sema, c.onto);
  }

  lemma OnSemasInOrder(s: State, step: Step)
    requires Inv(s) && Enabled(s, step) && !OnThreads(step) && !OnLocks(step) && !step.TimerIntr? && !step.DoSleep?
    ensures InOrder(s, step, Next(s, step))
  {
    hide Rest, Placed, Outranked;
    hide SemaInit, DownOnce, SemaTryDown, SemaUp, DeviceStep;
    match step
    case DoSemaInit(v) => SemaInitKeeps(s, v); InitOrder(s, v);
    case DoDown(q) => DownOnceKeeps(s, q, None); DownOrder(s, q, None);
    case DoTryDown(q) => SemaTryDownKeeps(s, q); DownOrder(s, q, None);
    case DoUp(q) => SemaUpKeeps(s, q);
    case Resume => ResumeOrder(s);
    case DeviceIntr(q) => DeviceStepKeeps(s, q);
  }

  /** Waking a sleeper rings for preemption whatever was the case before. */
  lemma {:induction false} WakeSleepersRings(s: State, i: nat)
    requires IntrMid(s, false) && i <= |s.sleepers|
    requires exists j :: i <= j < |s.sleepers| && s.threads[s.sleepers[j]].wakeup <= s.ticks
    ensures IntrMid(WakeSleepers(s, i), true)
    decreases |s.sleepers| - i
  {
    hide Rest, Placed, Rings, Wake, Ring;
    if s.ticks >= s.threads[s.sleepers[i]].wakeup {
      var r := DropSleeper(Ring(Wake(s, s.threads[s.sleepers[i]].sema)), i);
      WakeOne(s, i);
      WakeSleepersMid(r, i, true);
    } else {
      WakeSleepersRings(s, i + 1);
    }
  }

  lemma {:induction false} WakesNobody(s: State, i: nat)
    requires Wf(s) && i <= |s.sleepers|
    requires forall j :: i <= j < |s.sleepers| ==> s.ticks < s.threads[s.sleepers[j]].wakeup
    ensures WakeSleepers(s, i) == s
    decreases |s.sleepers| - i
  {
    if i < |s.sleepers| {
      WakesNobody(s, i + 1);
    }
  }

  lemma TimerOrder(s: State)
    requires Inv(s)
    ensures Outranked(TimerStep(s)) <==> Outranked(s) && !SomeoneDue(s)
  {
    hide Outranked, Rest, Placed, LeaveIntr, ThreadTick, WakeSleepers;
    TickMid(s);
    if SomeoneDue(s) {
      TimerRings(s);
    } else if Outranked(s) {
      TimerWakesNobody(s);
    } else {
      TimerStepKeeps(s);
    }
  }

  lemma TimerRings(s: State)
    requires Inv(s) && SomeoneDue(s)
    ensures !Outranked(TimerStep(s))
  {
    hide Outranked, Rest, Placed, LeaveIntr, ThreadTick, WakeSleepers;
    var e := Tick(EnterIntr(s));
    TickMid(s);
    WakeSleepersRings(e, 0);
    ThreadTickKeeps(WakeSleepers(e, 0), true);
    LeaveIntrKeeps(ThreadTick(WakeSleepers(e, 0)), true);
  }

  lemma TimerWakesNobody(s: State)
    requires Wf(s) && Outranked(s) && !SomeoneDue(s)
    ensures Outranked(TimerStep(s))
  {
    hide LeaveIntr, ThreadTick, WakeSleepers;
    var e := Tick(EnterIntr(s));
    WakesNobody(e, 0);
    TickLeavesOutranked(e);
  }

  /** The time slice does not preempt for a thread of higher priority, only for one of the
      same. */
  lemma TickLeavesOutranked(s: State)
    requires Wf(s) && Outranked(s) && !s.yieldOnReturn
    ensures Outranked(LeaveIntr(ThreadTick(s)))
  {
  }

  lemma OnTimeInOrder(s: State, step: Step)
    requires Inv(s) && Enabled(s, step) && (step.TimerIntr? || step.DoSleep?)
    ensures InOrder(s, step, Next(s, step)) && Inv(Next(s, step))
  {
    hide Outranked, Rest, Placed, TimerStep;
    if step.TimerIntr? {
      TimerStepKeeps(s);
      TimerOrder(s);
    } else if step.n > 0 {
      SleepKeeps(s, step.n);
    }
  }

  /** Every step keeps the invariant, and says exactly when preemption is in order after it. */
  lemma StepKeeps(s: State, step: Step)
    requires Inv(s) && Enabled(s, step)
    ensures Inv(Next(s, step))
    ensures Outranked(Next(s, step)) <==> Breaks(s, step) || (Outranked(s) && !Restores(s, step))
  {
    hide Outranked, Breaks, Restores, Rest, Placed, NoneDue, Quiet, Next;
    MidWaits(s);
    if step.TimerIntr? || step.DoSleep? {
      OnTimeInOrder(s, step);
    } else {
      var r := Next(s, step);
      NextQuiet(s, step);
      if OnThreads(step) {
        OnThreadsInOrder(s, step);
      } else if OnLocks(step) {
        OnLocksInOrder(s, step);
      } else {
        OnSemasInOrder(s, step);
      }
      QuietNoneDue(s, r, Own(s, step));
    }
  }

  lemma StepInv(s: State, step: Step)
    requires Inv(s) && Enabled(s, step)
    ensures Wf(s) && WaitHeld(s.threads, s.locks) && Inv(Next(s, step))
  {
    assert WaitHeld(s.threads, s.locks);
    hide Outranked, Breaks, Restores, Rest, Placed;
    StepKeeps(s, step);
  }

  // ---------- the theorems over runs ----------

  const MAIN_PRIORITY := 31

  /** After thread_start: the initial thread runs, the idle thread has blocked. */
  function Boot(): State {
    State(
      [Thread(Running, MAIN_PRIORITY, 0, [], None, 0, 0, Free, {}, MAIN_PRIORITY),
       Thread(Blocked, PRI_MIN, 0, [], None, 1, 0, Free, {}, PRI_MIN)],
      [],
      [Semaphore(0, [], OfThread(0), 0, 0, 0), Semaphore(0, [], OfThread(1), 0, 0, 0)],
      [], [], 0, 1, 0, 0, false, false)
  }

  lemma BootWf()
    ensures Wf(Boot()) && Sorted(Boot().ready, Boot().threads) && !Outranked(Boot())
  {
  }

  lemma BootPlaced()
    ensures Wf(Boot()) && Placed(Boot(), true)
  {
  }

  lemma BootOwned(ts: seq<Thread>, semas: seq<Semaphore>)
    requires ts == Boot().threads && semas == Boot().semas
    ensures Owned(ts, semas, [])
  {
    forall t, q | 0 <= t < |ts| && 0 <= q < |semas|
      ensures Rightly(ts[t], semas[q], q)
    {
    }
  }

  lemma BootRest(ts: seq<Thread>, semas: seq<Semaphore>)
    requires ts == Boot().threads && semas == Boot().semas
    ensures Conserved(semas) && Exclusive(ts, semas, [], None) && SleepOk(ts, semas, [], None)
  {
  }

  lemma BootBooks(ts: seq<Thread>)
    requires ts == Boot().threads
    ensures Books(ts, []) && WaitHeld(ts, []) && WaitBlocked(ts, [], None)
  {
  }

  lemma BootKeeps()
    ensures Inv(Boot()) && !Outranked(Boot())
  {
    BootWf();
    BootPlaced();
    BootOwned(Boot().threads, Boot().semas);
    BootRest(Boot().threads, Boot().semas);
    BootBooks(Boot().threads);
  }

  /** A step, and what it makes of a state in order. */
  ghost predicate Goes(s: State, step: Step, r: State) {
    Wf(s) && WaitHeld(s.threads, s.locks) ==> Enabled(s, step) && r == Next(s, step)
  }

  ghost predicate GoesAt(states: seq<State>, steps: seq<Step>, i: nat)
    requires i < |steps| && |states| == |steps| + 1
  {
    Goes(states[i], steps[i], states[i + 1])
  }

  /** A run from any state in order, such as Boot(). */
  ghost predicate IsRun(states: seq<State>, steps: seq<Step>) {
    && |states| == |steps| + 1
    && forall i :: 0 <= i < |steps| ==> GoesAt(states, steps, i)
  }

  lemma GoesKeeps(s: State, step: Step, r: State)
    requires Inv(s) && Goes(s, step, r)
    ensures Inv(r) && Wf(r) && Wf(s) && Fits(s, step)
    ensures Outranked(r) <==> Breaks(s, step) || (Outranked(s) && !Restores(s, step))
  {
    StepKeeps(s, step);
  }

  /** In every state of every run the ready list is sorted, every thread is in exactly the one
      list of its status, semaphores conserve their value, locks exclude, and the donation
      records are in order. */
  lemma {:induction false} RunKeeps(states: seq<State>, steps: seq<Step>, i: nat)
    requires IsRun(states, steps) && i < |states| && Inv(states[0])
    ensures Inv(states[i])
  {
    hide Goes, Rest, Placed;
    if i > 0 {
      RunKeeps(states, steps, i - 1);
      assert GoesAt(states, steps, i - 1);
      GoesKeeps(states[i - 1], steps[i - 1], states[i]);
    }
  }

  ghost predicate BreaksAt(states: seq<State>, steps: seq<Step>, k: nat)
    requires k < |steps| && |states| == |steps| + 1
  {
    Wf(states[k]) && Fits(states[k], steps[k]) && Breaks(states[k], steps[k])
  }

  ghost predicate RestoresAt(states: seq<State>, steps: seq<Step>, k: nat)
    requires k < |steps| && |states| == |steps| + 1
  {
    Wf(states[k]) && Fits(states[k], steps[k]) && Restores(states[k], steps[k])
  }

  /** Step k broke the order of preemption, and no step since then, before state i, restored
      it. */
  ghost predicate BrokenSince(states: seq<State>, steps: seq<Step>, k: nat, i: nat)
    requires k < i <= |steps| && |states| == |steps| + 1
  {
    BreaksAt(states, steps, k) && forall m :: k < m < i ==> !RestoresAt(states, steps, m)
  }

  /** In every state of every run: a ready thread outranks the running one if and only if some
      bare thread_unblock of a thread that outranked the running one was followed by no step
      that gives up the processor or compares the two. */
  lemma {:induction false} RunPreempts(states: seq<State>, steps: seq<Step>, i: nat)
    requires IsRun(states, steps) && i < |states| && Inv(states[0]) && !Outranked(states[0])
    ensures Wf(states[i])
    ensures Outranked(states[i]) <==> exists k :: 0 <= k < i && BrokenSince(states, steps, k, i)
  {
    hide Goes, Rest, Placed, Outranked, Breaks, Restores;
    if i > 0 {
      RunPreempts(states, steps, i - 1);
      RunKeeps(states, steps, i - 1);
      assert GoesAt(states, steps, i - 1);
      GoesKeeps(states[i - 1], steps[i - 1], states[i]);
      BrokenStill(states, steps, i - 1, i);
    }
  }

  lemma BrokenStill(states: seq<State>, steps: seq<Step>, i: nat, n: nat)
    requires IsRun(states, steps) && i < |steps| && n == i + 1
    ensures (exists k :: 0 <= k < n && BrokenSince(states, steps, k, n)) <==>
      (BreaksAt(states, steps, i) ||
       ((exists k :: 0 <= k < i && BrokenSince(states, steps, k, i)) && !RestoresAt(states, steps, i)))
  {
    hide BreaksAt, RestoresAt;
    if BreaksAt(states, steps, i) {
      assert BrokenSince(states, steps, i, n);
    } else if k :| 0 <= k < i && BrokenSince(states, steps, k, i) {
      assert RestoresAt(states, steps, i) || BrokenSince(states, steps, k, n);
    }
    if k :| 0 <= k < n && BrokenSince(states, steps, k, n) {
      assert k == i || BrokenSince(states, steps, k, i);
    }
  }

  // ---------- sleepers wake on time ----------

  /** Thread t sleeps until tick `due`, and its semaphore was upped `ups` times so far. */
  ghost predicate SleepsUntil(s: State, t: Tid, due: int, ups: nat) {
    && Wf(s) && t < |s.threads|
    && t in s.sleepers && s.threads[t].wakeup == due && s.ticks < due
    && Ups(s, t) == ups
  }

  lemma DownSleepUps(s: State, n: int, t: Tid)
    requires Inv(s) && n > 0 && s.current != s.idle && s.threads[s.current].cont == Free && t < |s.threads|
    ensures Wf(Sleep(s, n)) && t < |Sleep(s, n).threads|
    ensures Ups(Sleep(s, n), t) == Ups(s, t)
    ensures t != s.current ==> Sleep(s, n).threads[t].wakeup == s.threads[t].wakeup
    ensures Sleep(s, n).ticks == s.ticks
  {
    AlarmUps(s, n, t);
    var q := s.threads[s.current].sema;
    assert ThreadWf(s.threads[s.current], |s.threads|, |s.semas|, |s.locks|);
    DownQuiet(SetAlarm(s, n), q, None);
    QuietUps(SetAlarm(s, n), Sleep(s, n), t, None);
  }

  lemma AlarmUps(s: State, n: int, t: Tid)
    requires Wf(s) && t < |s.threads|
    ensures Ups(SetAlarm(s, n), t) == Ups(s, t)
    ensures t != s.current ==> SetAlarm(s, n).threads[t].wakeup == s.threads[t].wakeup
  {
  }

  lemma QuietUps(s: State, r: State, t: Tid, own: Option<Tid>)
    requires Wf(s) && Wf(r) && Quiet(s, r, own) && t < |s.threads|
    ensures t < |r.threads| && r.sleepers == s.sleepers && r.ticks == s.ticks
    ensures Ups(r, t) == Ups(s, t) && r.threads[t].wakeup == s.threads[t].wakeup
  {
  }

  lemma NotCurrent(s: State, t: Tid)
    requires Inv(s) && t in s.sleepers && t < |s.threads|
    ensures t != s.current
  {
    assert multiset(s.sleepers)[t] > 0;
    assert s.threads[s.current].status == Running;
  }

  /** A sleeper stays asleep through every step before its tick, and at its tick it is upped
      once and leaves the sleep list. */
  lemma SleeperStep(s: State, step: Step, r: State, t: Tid, due: int, ups: nat)
    requires Inv(s) && Goes(s, step, r) && SleepsUntil(s, t, due, ups)
    ensures Wf(r) && t < |r.threads| && r.ticks <= due
    ensures r.ticks < due ==> SleepsUntil(r, t, due, ups)
    ensures r.ticks == due ==> step.TimerIntr? && t !in r.sleepers && Ups(r, t) == ups + 1
  {
    hide Mid, NoneDue, Ups, TimerStep, Quiet, Sleep, WaitHeld;
    MidWaits(s);
    if step.TimerIntr? {
      TimerStepAlarms(s);
    } else if Timeless(step) {
      NextQuiet(s, step);
      QuietUps(s, r, t, Own(s, step));
    } else {
      NotCurrent(s, t);
      DownSleepUps(s, step.n, t);
      SleepKeeps(s, step.n);
    }
  }

  lemma FallsAsleep(s: State, step: Step, r: State)
    requires Inv(s) && Goes(s, step, r) && step.DoSleep? && step.n > 0
    ensures SleepsUntil(r, s.current, s.ticks + step.n, Ups(s, s.current))
  {
    SleepKeeps(s, step.n);
    DownSleepUps(s, step.n, s.current);
  }

  /** The wake-up at tick `due`. */
  ghost predicate WokeAt(s: State, step: Step, r: State, t: Tid, due: int, ups: nat) {
    && Wf(r) && t < |r.threads|
    && step.TimerIntr? && r.ticks == due && s.ticks == due - 1
    && t !in r.sleepers && Ups(r, t) == ups + 1
  }

  /** Up to state j, t sleeps on, or it was woken at `due` by one of the steps before. */
  ghost predicate OnTime(states: seq<State>, steps: seq<Step>, i: nat, j: nat, t: Tid, due: int, ups: nat)
    requires |states| == |steps| + 1 && j < |states|
  {
    SleepsUntil(states[j], t, due, ups) ||
    exists m :: i < m < j && WokeAt(states[m], steps[m], states[m + 1], t, due, ups)
  }

  lemma SleeperTurns(s: State, step: Step, r: State, t: Tid, due: int, ups: nat)
    requires Inv(s) && Goes(s, step, r) && SleepsUntil(s, t, due, ups)
    ensures SleepsUntil(r, t, due, ups) || WokeAt(s, step, r, t, due, ups)
  {
    SleeperStep(s, step, r, t, due, ups);
    if step.TimerIntr? {
      TimerStepAlarms(s);
    }
  }

  lemma SleeperGoes(states: seq<State>, steps: seq<Step>, i: nat, j: nat, t: Tid, due: int, ups: nat)
    requires i < j < |steps| && |states| == |steps| + 1
    requires Inv(states[j]) && GoesAt(states, steps, j) && OnTime(states, steps, i, j, t, due, ups)
    ensures OnTime(states, steps, i, j + 1, t, due, ups)
  {
    hide SleepsUntil, WokeAt, Rest, Placed, Goes;
    if SleepsUntil(states[j], t, due, ups) {
      SleeperTurns(states[j], steps[j], states[j + 1], t, due, ups);
    }
  }

  /** From the step in which t calls timer_sleep(n) at tick k: in every later state t is
      still asleep with its semaphore untouched, or some step before was the interrupt that
      brought tick k + n and upped it exactly once. */
  lemma {:induction false} SleepsExactly(states: seq<State>, steps: seq<Step>, i: nat, j: nat)
    requires IsRun(states, steps) && i < j < |states| && steps[i].DoSleep? && steps[i].n > 0
    requires Inv(states[0]) && Inv(states[i])
    ensures OnTime(states, steps, i, j, states[i].current, states[i].ticks + steps[i].n, Ups(states[i], states[i].current))
  {
    hide Goes, Rest, Placed, SleepsUntil, WokeAt;
    if j == i + 1 {
      assert GoesAt(states, steps, i);
      FallsAsleep(states[i], steps[i], states[j]);
    } else {
      SleepsExactly(states, steps, i, j - 1);
      RunKeeps(states, steps, j - 1);
      assert GoesAt(states, steps, j - 1);
      SleeperGoes(states, steps, i, j - 1, states[i].current, states[i].ticks + steps[i].n, Ups(states[i], states[i].current));
    }
  }

  // ---------- what donation does ----------

  /** donation gives exactly the holders it visits, ten at most, exactly the priority of the
      donor, and reorders the ready list to match; it lowers nobody if and only if no visited
      holder had more. */
  lemma DonationRaises(s: State, l: nat)
    requires DonationPre(s, l)
    ensures var h, p, r := s.locks[l].holder.value, PriorityOf(s, s.current), Donation(s, l);
      var v := Visited(RecordDonation(s, l, h), h, 0);
      && 1 <= |v| <= 10 && v[0] == h
      && |r.threads| == |s.threads|
      && (forall t :: 0 <= t < |s.threads| ==> PriorityOf(r, t) == if t in v then p else PriorityOf(s, t))
      && multiset(r.ready) == multiset(s.ready) && Sorted(r.ready, r.threads)
      && ((forall t :: 0 <= t < |s.threads| ==> PriorityOf(r, t) >= PriorityOf(s, t)) <==>
          (forall t :: 0 <= t < |s.threads| && t in v ==> PriorityOf(s, t) <= p))
  {
    hide Rest, Placed, WaitHeld, RecordDonation, Donation, Visited, Sorted;
    MidWaits(s);
    HolderInRange(s, l);
    var h := s.locks[l].holder.value;
    var m := RecordDonation(s, l, h);
    DonationEffect(s, l, h);
    VisitedIsShort(m, h, 0);
    LowersNobody(s, Donation(s, l), Visited(m, h, 0), PriorityOf(s, s.current));
  }

  lemma LowersNobody(s: State, r: State, v: seq<Tid>, p: int)
    requires |r.threads| == |s.threads|
    requires forall t :: 0 <= t < |s.threads| ==> PriorityOf(r, t) == if t in v then p else PriorityOf(s, t)
    ensures (forall t :: 0 <= t < |s.threads| ==> PriorityOf(r, t) >= PriorityOf(s, t)) <==>
      (forall t :: 0 <= t < |s.threads| && t in v ==> PriorityOf(s, t) <= p)
  {
    if forall t :: 0 <= t < |s.threads| ==> PriorityOf(r, t) >= PriorityOf(s, t) {
      forall t | 0 <= t < |s.threads| && t in v
        ensures PriorityOf(s, t) <= p
      {
        assert PriorityOf(r, t) == p;
      }
    }
  }

  lemma DonationEffect(s: State, l: nat, h: Tid)
    requires Wf(s) && WaitHeld(s.threads, s.locks) && l < |s.locks|
    requires s.locks[l].holder == Some(h) && h != s.current
    ensures h < |s.threads|
    ensures var r, v := Donation(s, l), Visited(RecordDonation(s, l, h), h, 0);
      && |r.threads| == |s.threads|
      && (forall t :: 0 <= t < |s.threads| ==>
          PriorityOf(r, t) == if t in v then PriorityOf(s, s.current) else PriorityOf(s, t))
      && multiset(r.ready) == multiset(s.ready) && Sorted(r.ready, r.threads)
  {
    hide Wf, WaitHeld, DonateFrom, Visited, RecordDonation, Sorted;
    HolderInRange(s, l);
    RecordPrices(s, l, h);
    DonateFromEffect(RecordDonation(s, l, h), h, PriorityOf(s, s.current), 0);
    ReadySorted(DonateFrom(RecordDonation(s, l, h), h, PriorityOf(s, s.current), 0));
  }

  lemma ReadySorted(s: State)
    requires Wf(s)
    ensures Sorted(SortReady(s).ready, SortReady(s).threads) && multiset(SortReady(s).ready) == multiset(s.ready)
  {
    StableSortSorted(s.ready, s.threads);
  }

  lemma HolderInRange(s: State, l: nat)
    requires Wf(s) && l < |s.locks|
    ensures s.current < |s.threads| && (s.locks[l].holder.Some? ==> s.locks[l].holder.value < |s.threads|)
  {
    assert LockWf(s.locks[l], |s.threads|, |s.semas|);
  }

  lemma RecordPrices(s: State, l: nat, h: Tid)
    requires Wf(s) && l < |s.locks| && s.locks[l].holder == Some(h) && h < |s.threads| && h != s.current
    ensures var m := RecordDonation(s, l, h);
      |m.threads| == |s.threads| && m.ready == s.ready && forall t :: 0 <= t < |s.threads| ==> PriorityOf(m, t) == PriorityOf(s, t)
  {
  }

  // ---------- what release gives back ----------

  /** In a run, a step changes no base priority but thread_set_priority that of its caller. */
  lemma BaseStep(s: State, step: Step, r: State)
    requires Inv(s) && Goes(s, step, r)
    ensures |s.threads| <= |r.threads|
    ensures forall t :: 0 <= t < |s.threads| && !(step.DoSetPriority? && t == s.current) ==>
      r.threads[t].base == s.threads[t].base
  {
    if step.TimerIntr? {
      hide Rest, Placed;
      TimerBase(s);
    } else if Timeless(step) {
      QuietBase(s, step);
    } else {
      hide Rest, Placed;
      SleepBase(s, step.n);
    }
  }

  lemma QuietBase(s: State, step: Step)
    requires Inv(s) && Enabled(s, step) && Timeless(step)
    ensures Wf(s) && WaitHeld(s.threads, s.locks) && |s.threads| <= |Next(s, step).threads|
    ensures forall t :: 0 <= t < |s.threads| && !(step.DoSetPriority? && t == s.current) ==>
      Next(s, step).threads[t].base == s.threads[t].base
  {
    hide Next, Rest, Placed, Quiet;
    MidWaits(s);
    NextQuiet(s, step);
    QuietBases(s, Next(s, step), Own(s, step));
  }

  lemma QuietBases(s: State, r: State, own: Option<Tid>)
    requires Quiet(s, r, own)
    ensures |s.threads| <= |r.threads|
    ensures forall t :: 0 <= t < |s.threads| && own != Some(t) ==> r.threads[t].base == s.threads[t].base
  {
    assert forall t :: 0 <= t < |s.threads| && own != Some(t) ==> SameBase(s.threads[t], r.threads[t]);
  }

  lemma TimerBase(s: State)
    requires Inv(s)
    ensures |TimerStep(s).threads| == |s.threads|
    ensures forall t :: 0 <= t < |s.threads| ==> SameBase(s.threads[t], TimerStep(s).threads[t])
  {
    var s2 := Tick(EnterIntr(s));
    var m := ThreadTick(WakeSleepers(s2, 0));
    TickMid(s);
    TimerLoopMid(s2, !Outranked(s));
    TimerLoopDue(s2);
    LeaveIntrKeeps(m, !Outranked(s));
    BothSameBase(s2, m, TimerStep(s));
  }

  lemma BothSameBase(s: State, m: State, r: State)
    requires Wf(s) && Wf(m) && WokeDue(s, m) && Switched(m, r)
    ensures |r.threads| == |s.threads|
    ensures forall t :: 0 <= t < |s.threads| ==> SameBase(s.threads[t], r.threads[t])
  {
  }

  lemma SleepBase(s: State, n: int)
    requires Wf(s) && n > 0
    ensures |Sleep(s, n).threads| == |s.threads|
    ensures forall t :: 0 <= t < |s.threads| ==> Sleep(s, n).threads[t].base == s.threads[t].base
  {
  }

  /** Nobody calls thread_set_priority as thread t between states i and j. */
  ghost predicate KeepsPriority(states: seq<State>, steps: seq<Step>, i: nat, j: nat, t: Tid)
    requires |states| == |steps| + 1 && j <= |steps|
  {
    forall k :: i <= k < j ==> !(steps[k].DoSetPriority? && states[k].current == t)
  }

  /** Over any run in which t does not set its own priority: whatever was donated to t and by
      whom, once nobody donates to it any more it has the priority it had at the start. */
  lemma {:induction false} DonationsAreReturned(states: seq<State>, steps: seq<Step>, i: nat, j: nat, t: Tid)
    requires IsRun(states, steps) && i <= j < |states| && Inv(states[0]) && Inv(states[i])
    requires t < |states[i].threads| && KeepsPriority(states, steps, i, j, t)
    ensures t < |states[j].threads| && Inv(states[j])
    ensures states[j].threads[t].base == states[i].threads[t].base
    ensures states[i].threads[t].donors == [] && states[j].threads[t].donors == [] ==>
      states[j].threads[t].priority == states[i].threads[t].priority
  {
    hide Goes, Rest, Placed;
    RunKeeps(states, steps, j);
    if i < j {
      DonationsAreReturned(states, steps, i, j - 1, t);
      assert GoesAt(states, steps, j - 1);
      assert !(steps[j - 1].DoSetPriority? && states[j - 1].current == t);
      BaseStep(states[j - 1], steps[j - 1], states[j]);
    }
    BaseIsPriority(states[i], t);
    BaseIsPriority(states[j], t);
  }

  lemma BaseIsPriority(s: State, t: Tid)
    requires Inv(s) && t < |s.threads|
    ensures s.threads[t].donors == [] ==> s.threads[t].base == s.threads[t].priority
  {
  }

  /** The call of thread_set_priority keeps the base or makes it the new priority. */
  lemma SetPriorityBase(s: State, priority: int)
    requires Inv(s)
    ensures var th := s.threads[s.current];
      SetOwnPriority(s, priority).threads[s.current].base ==
        if th.donors == [] || priority <= th.priority then priority else th.oriPriority
  {
    hide Owned, Conserved, Exclusive, SleepOk, WaitHeld, WaitBlocked, Placed, Sorted;
    var th := s.threads[s.current];
    var m := SetThread(s, s.current, WithPriority(th, priority));
    assert th.base == if th.donors == [] then th.priority else th.oriPriority;
    SuperYieldQuiet(m);
    assert SameBase(m.threads[s.current], SuperYield(m).threads[s.current]);
  }

  /** Over every run: thread t calls thread_set_priority(p) in step i and not again before state
      j, in which nobody donates to it.  Then it has priority p if and only if, at the call,
      nobody donated to it, or p did not exceed its priority, or p was the saved one anyway. */
  lemma SetPriorityIsRestored(states: seq<State>, steps: seq<Step>, i: nat, j: nat)
    requires IsRun(states, steps) && i < j < |states| && Inv(states[0]) && Inv(states[i])
    requires steps[i].DoSetPriority? && KeepsPriority(states, steps, i + 1, j, states[i].current)
    ensures var t, p := states[i].current, steps[i].priority;
      var th := states[i].threads[t];
      && t < |states[j].threads|
      && (states[j].threads[t].donors == [] ==>
          (states[j].threads[t].priority == p <==> th.donors == [] || p <= th.priority || p == th.oriPriority))
  {
    var t, p := states[i].current, steps[i].priority;
    assert GoesAt(states, steps, i);
    SetPriorityGoes(states[i], p, states[i + 1]);
    hide Inv, Goes, GoesAt;
    RunKeeps(states, steps, i + 1);
    DonationsAreReturned(states, steps, i + 1, j, t);
    BaseIsPriority(states[j], t);
  }

  lemma SetPriorityGoes(s: State, priority: int, r: State)
    requires Inv(s) && Goes(s, DoSetPriority(priority), r)
    ensures s.current < |s.threads| == |r.threads|
    ensures var th := s.threads[s.current];
      r.threads[s.current].base == if th.donors == [] || priority <= th.priority then priority else th.oriPriority
  {
    SetPriorityBase(s, priority);
  }

  // ---------- locks exclude ----------

  /** The value of a lock's semaphore and the number of threads between acquiring and
      releasing it always sum to one. */
  lemma LockSum(s: State, l: nat)
    requires Inv(s) && l < |s.locks|
    ensures s.locks[l].sema < |s.semas|
    ensures s.semas[s.locks[l].sema].value + |set t | 0 <= t < |s.threads| && l in s.threads[t].held| == 1
  {
    LockIsOwned(s, l);
    var holders := set t | 0 <= t < |s.threads| && l in s.threads[t].held;
    HoldersOf(s, l);
    match s.locks[l].holder
    case None => assert holders == {};
    case Some(h) =>
      assert LockWf(s.locks[l], |s.threads|, |s.semas|);
      assert holders == {h};
  }

  lemma HoldersOf(s: State, l: nat)
    requires Inv(s) && l < |s.locks|
    ensures forall t :: 0 <= t < |s.threads| ==> (l in s.threads[t].held <==> s.locks[l].holder == Some(t))
  {
  }
}
