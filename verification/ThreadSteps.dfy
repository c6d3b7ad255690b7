/** The steps of a run of the scheduler, and what each of them keeps. */
module ThreadSteps {
  import opened Common
  import opened ThreadState
  import opened ThreadInvariants

  // ---------- timer_sleep and timer_interrupt ----------

  lemma AlarmBooks(ts: seq<Thread>, ts': seq<Thread>, locks: seq<Lock>, t: Tid, wakeup: int)
    requires t < |ts| && ts' == ts[t := ts[t].(wakeup := wakeup)]
    requires Books(ts, locks) && WaitHeld(ts, locks) && WaitBlocked(ts, locks, None)
    ensures Books(ts', locks) && WaitHeld(ts', locks) && WaitBlocked(ts', locks, None)
    ensures AllSeated(ts, ts')
  {
  }

  lemma AlarmSleepOk(ts: seq<Thread>, ts': seq<Thread>, semas: seq<Semaphore>, sleepers: seq<Tid>, t: Tid, wakeup: int)
    requires t < |ts| && ts' == ts[t := ts[t].(wakeup := wakeup)] && ts[t].cont == Free
    requires SleepOk(ts, semas, sleepers, None)
    ensures SleepOk(ts', semas, sleepers + [t], Some(t))
  {
  }

  lemma AlarmRest(s: State, n: int)
    requires Wf(s) && Rest(s, Steady) && s.threads[s.current].cont == Free
    ensures Rest(SetAlarm(s, n), Phase(true, None, None, Some(s.current)))
    ensures AllSeated(s.threads, SetAlarm(s, n).threads)
  {
    var ts' := SetAlarm(s, n).threads;
    AlarmBooks(s.threads, ts', s.locks, s.current, s.ticks + n);
    AlarmSleepOk(s.threads, ts', s.semas, s.sleepers, s.current, s.ticks + n);
    SeatedOwned(s.threads, ts', s.semas, s.locks);
    SeatedLists(s.threads, ts', s.semas, s.locks, s.sleepers, None, None);
  }

  lemma OwnSema(ts: seq<Thread>, semas: seq<Semaphore>, locks: seq<Lock>, sleepers: seq<Tid>, t: Tid)
    requires t < |ts| && ts[t].sema < |semas| && ts[t].cont == Free
    requires Owned(ts, semas, locks) && SleepOk(ts, semas, sleepers, None)
    ensures semas[ts[t].sema].owner == OfThread(t) && semas[ts[t].sema].value == 0
  {
  }

  lemma AlarmKeeps(s: State, n: int)
    requires Mid(s, Steady) && s.threads[s.current].cont == Free
    ensures Mid(SetAlarm(s, n), Phase(true, None, None, Some(s.current)))
  {
    AlarmRest(s, n);
    SeatedPlaced(s, SetAlarm(s, n), true);
  }

  lemma AlarmEffect(s: State, n: int)
    requires Wf(s) && NoneDue(s.threads, s.sleepers, s.ticks) && n > 0
    ensures var r := Sleep(s, n); var q := s.threads[s.current].sema;
      && r == DownOnce(SetAlarm(s, n), q, None)
      && r.sleepers == s.sleepers + [s.current]
      && NoneDue(r.threads, r.sleepers, r.ticks)
      && r.threads[s.current].wakeup == s.ticks + n
      && r.inIntr == s.inIntr
  {
    var a, q := SetAlarm(s, n), s.threads[s.current].sema;
    assert ThreadWf(s.threads[s.current], |s.threads|, |s.semas|, |s.locks|);
    assert NoneDue(a.threads, a.sleepers, a.ticks);
    DownQuiet(a, q, None);
    hide DownOnce;
    QuietNoneDue(a, DownOnce(a, q, None), None);
    assert SameAlarm(a.threads[s.current], DownOnce(a, q, None).threads[s.current], a.semas, DownOnce(a, q, None).semas);
  }

  /** After timer_sleep the caller is asleep until its tick comes. */
  lemma SleepKeeps(s: State, n: int)
    requires Inv(s) && n > 0 && s.current != s.idle && s.threads[s.current].cont == Free
    ensures Inv(Sleep(s, n)) && !Outranked(Sleep(s, n))
    ensures Sleep(s, n).sleepers == s.sleepers + [s.current]
    ensures Sleep(s, n).threads[s.current].wakeup == s.ticks + n
  {
    AlarmEffect(s, n);
    SleepMid(s, n);
  }

  lemma SleepMid(s: State, n: int)
    requires Mid(s, Steady) && n > 0 && s.current != s.idle && s.threads[s.current].cont == Free
    ensures Mid(Sleep(s, n), Steady) && !Outranked(Sleep(s, n))
  {
    OwnSema(s.threads, s.semas, s.locks, s.sleepers, s.current);
    AlarmKeeps(s, n);
    DownSleeps(SetAlarm(s, n), s.threads[s.current].sema);
  }

  lemma DownSleeps(s: State, q: nat)
    requires Mid(s, Phase(true, None, None, Some(s.current))) && s.current != s.idle
    requires q < |s.semas| && s.semas[q].owner == OfThread(s.current) && s.semas[q].value == 0
    requires s.threads[s.current].cont == Free
    ensures Mid(DownOnce(s, q, None), Steady) && !Outranked(DownOnce(s, q, None))
  {
    JoinKeeps(s, q, None, None);
    ScheduleKeeps(JoinWaiters(s, q, None));
  }

  /** In an interrupt, preemption that is due is recorded for the return. */
  ghost predicate Rings(s: State)
    requires Wf(s)
  {
    !Outranked(s) || s.yieldOnReturn
  }

  /** sema_up in an interrupt handler. */
  lemma IntrUp(s: State, q: nat)
    requires UpPre(s, q, None) && s.inIntr
    ensures Ring(Wake(s, q)) == Wake(s, q).(yieldOnReturn := Ring(Wake(s, q)).yieldOnReturn)
    ensures s.yieldOnReturn ==> Ring(Wake(s, q)).yieldOnReturn
    ensures Mid(Ring(Wake(s, q)), Phase(true, None, None, Due(s.semas[q].owner)))
    ensures Rings(Ring(Wake(s, q)))
  {
    WakeKeeps(s, q, None);
  }

  /** The only waiter of a thread's own semaphore is that thread. */
  lemma WaitsAlone(ts: seq<Thread>, semas: seq<Semaphore>, locks: seq<Lock>, t: Tid, q: nat)
    requires t < |ts| && q < |semas| && semas[q].owner == OfThread(t)
    requires Owned(ts, semas, locks) && WaitPlaced(ts, semas) && InRange(semas[q].waiters, |ts|)
    ensures forall u :: u in semas[q].waiters ==> u == t
  {
    forall u | u in semas[q].waiters
      ensures u == t
    {
      assert multiset(semas[q].waiters)[u] > 0;
      assert Waits(ts[u], q);
      assert Rightly(ts[u], semas[q], q);
    }
  }

  lemma SleeperSema(s: State, t: Tid)
    requires Wf(s) && t < |s.threads| && t in s.sleepers
    requires Owned(s.threads, s.semas, s.locks) && SleepOk(s.threads, s.semas, s.sleepers, None)
    requires WaitPlaced(s.threads, s.semas)
    ensures Asleep(s.threads[t]) && s.threads[t].sema < |s.semas|
    ensures s.semas[s.threads[t].sema].owner == OfThread(t)
    ensures s.semas[s.threads[t].sema].waiters != []
  {
    assert ThreadWf(s.threads[t], |s.threads|, |s.semas|, |s.locks|);
    var q := s.threads[t].sema;
    assert multiset(s.sleepers)[t] > 0;
    assert Waits(s.threads[t], q);
    assert multiset(s.semas[q].waiters)[t] == 1;
  }

  lemma SleeperWaitsAlone(s: State, t: Tid)
    requires Mid(s, Steady) && t < |s.threads| && t in s.sleepers
    ensures Asleep(s.threads[t])
    ensures s.semas[s.threads[t].sema].owner == OfThread(t)
    ensures s.semas[s.threads[t].sema].waiters != []
    ensures forall u :: u in s.semas[s.threads[t].sema].waiters ==> u == t
  {
    SleeperSema(s, t);
    WaitsAlone(s.threads, s.semas, s.locks, t, s.threads[t].sema);
  }

  lemma DropSleepOk(ts: seq<Thread>, semas: seq<Semaphore>, sleepers: seq<Tid>, i: nat)
    requires i < |sleepers| && InRange(sleepers, |ts|) && SleepOk(ts, semas, sleepers, Some(sleepers[i]))
    requires !Asleep(ts[sleepers[i]])
    ensures SleepOk(ts, semas, sleepers[..i] + sleepers[i + 1..], None)
  {
    assert sleepers == sleepers[..i] + [sleepers[i]] + sleepers[i + 1..];
    assert forall t :: 0 <= t < |ts| ==> multiset(sleepers)[t] == One(Asleep(ts[t]) || sleepers[i] == t);
  }

  /** One due sleeper: its semaphore is upped, and it leaves the sleep list. */
  lemma WakeOne(s: State, i: nat)
    requires Mid(s, Steady) && s.inIntr && i < |s.sleepers|
    ensures var t := s.sleepers[i]; var q := s.threads[t].sema;
      var r := DropSleeper(Ring(Wake(s, q)), i);
      && Mid(r, Steady)
      && r.inIntr && r.ticks == s.ticks && r.current == s.current
      && Rings(r)
      && r.sleepers == s.sleepers[..i] + s.sleepers[i + 1..]
      && Asleep(s.threads[t])
      && r.threads == s.threads[t := s.threads[t].(status := Ready)]
      && r.semas == UpSemas(s.semas, q, r.semas[q].waiters)
  {
    var t := s.sleepers[i];
    var q := s.threads[t].sema;
    assert t in s.sleepers;
    SleeperWaitsAlone(s, t);
    WokenIsMaximal(s, q);
    IntrUp(s, q);
    WakeEffect(s, q);
    var w := Ring(Wake(s, q));
    DropSleepOk(w.threads, w.semas, w.sleepers, i);
  }

  ghost predicate IsDue(s: State, t: Tid)
    requires Wf(s) && t < |s.threads|
  {
    t in s.sleepers && s.threads[t].wakeup <= s.ticks
  }

  /** From s to r every sleeper that is due is made ready by one up, and nobody else is. */
  ghost predicate WokeDue(s: State, r: State)
    requires Wf(s) && Wf(r)
  {
    && |r.threads| == |s.threads| && |r.semas| == |s.semas|
    && (forall t :: 0 <= t < |s.threads| ==>
      r.threads[t] == if IsDue(s, t) then s.threads[t].(status := Ready) else s.threads[t])
    && (forall t {:trigger IsDue(s, t)} :: 0 <= t < |s.threads| && s.threads[t].sema < |s.semas| ==>
      r.semas[s.threads[t].sema].ups == s.semas[s.threads[t].sema].ups + One(IsDue(s, t)))
  }

  /** `rings` tells whether preemption was in order when the interrupt came. */
  ghost predicate IntrMid(s: State, rings: bool) {
    Mid(s, Steady) && s.inIntr && (rings ==> Rings(s))
  }

  lemma WakeOneMid(s: State, i: nat, rings: bool)
    requires IntrMid(s, rings) && i < |s.sleepers|
    ensures IntrMid(DropSleeper(Ring(Wake(s, s.threads[s.sleepers[i]].sema)), i), rings)
  {
    WakeOne(s, i);
  }

  lemma {:induction false} WakeSleepersMid(s: State, i: nat, rings: bool)
    requires IntrMid(s, rings) && i <= |s.sleepers|
    ensures IntrMid(WakeSleepers(s, i), rings)
    decreases |s.sleepers| - i
  {
    hide Rest, Placed, Rings;
    if i < |s.sleepers| {
      if s.ticks >= s.threads[s.sleepers[i]].wakeup {
        WakeOneMid(s, i, rings);
        WakeSleepersMid(DropSleeper(Ring(Wake(s, s.threads[s.sleepers[i]].sema)), i), i, rings);
      } else {
        WakeSleepersMid(s, i + 1, rings);
      }
    }
  }

  lemma {:induction false} WakeSleepersDue(s: State, i: nat)
    requires Mid(s, Steady) && s.inIntr && i <= |s.sleepers|
    requires forall j :: 0 <= j < i ==> s.ticks < s.threads[s.sleepers[j]].wakeup
    ensures var r := WakeSleepers(s, i);
      NoneDue(r.threads, r.sleepers, r.ticks) && WokeDue(s, r)
    decreases |s.sleepers| - i
  {
    hide Rest, Placed;
    if i == |s.sleepers| {
      NobodyDue(s);
    } else if s.ticks >= s.threads[s.sleepers[i]].wakeup {
      var s1 := DropSleeper(Ring(Wake(s, s.threads[s.sleepers[i]].sema)), i);
      DueStep(s, s1, i);
      WakeSleepersDue(s1, i);
      assert WokeDue(s, WakeSleepers(s1, i));
    } else {
      WakeSleepersDue(s, i + 1);
    }
  }

  lemma DueStep(s: State, s1: State, i: nat)
    requires Mid(s, Steady) && s.inIntr && i < |s.sleepers| && IsDue(s, s.sleepers[i])
    requires s1 == DropSleeper(Ring(Wake(s, s.threads[s.sleepers[i]].sema)), i)
    requires forall j :: 0 <= j < i ==> s.ticks < s.threads[s.sleepers[j]].wakeup
    ensures Mid(s1, Steady) && s1.inIntr && |s1.sleepers| == |s.sleepers| - 1
    ensures forall j :: 0 <= j < i ==> s1.ticks < s1.threads[s1.sleepers[j]].wakeup
    ensures forall r :: Wf(r) && WokeDue(s1, r) ==> WokeDue(s, r)
  {
    SleeperFacts(s, i);
    WakeOne(s, i);
    EarlierNotDue(s, s1, i);
    forall r | Wf(r) && WokeDue(s1, r)
      ensures WokeDue(s, r)
    {
      WokeDueStep(s, s1, r, i);
    }
  }

  lemma SleeperFacts(s: State, i: nat)
    requires Mid(s, Steady) && i < |s.sleepers|
    ensures multiset(s.sleepers)[s.sleepers[i]] <= 1
    ensures forall u :: 0 <= u < |s.threads| && s.threads[u].sema == s.threads[s.sleepers[i]].sema ==> u == s.sleepers[i]
  {
  }

  lemma NobodyDue(s: State)
    requires Wf(s) && NoneDue(s.threads, s.sleepers, s.ticks)
    ensures WokeDue(s, s)
  {
  }

  lemma EarlierNotDue(s: State, s1: State, i: nat)
    requires Wf(s) && Wf(s1) && i < |s.sleepers|
    requires s1.ticks == s.ticks && s1.sleepers == s.sleepers[..i] + s.sleepers[i + 1..]
    requires s1.threads == s.threads[s.sleepers[i] := s.threads[s.sleepers[i]].(status := Ready)]
    requires forall j :: 0 <= j < i ==> s.ticks < s.threads[s.sleepers[j]].wakeup
    ensures forall j :: 0 <= j < i ==> s1.ticks < s1.threads[s1.sleepers[j]].wakeup
  {
  }

  lemma DropOne(l: seq<Tid>, i: nat, u: Tid)
    requires i < |l| && multiset(l)[l[i]] <= 1
    ensures u in l[..i] + l[i + 1..] <==> u in l && u != l[i]
  {
    var l' := l[..i] + l[i + 1..];
    assert l == l[..i] + [l[i]] + l[i + 1..];
    assert multiset(l) == multiset(l') + multiset{l[i]};
    assert u in l' <==> u in multiset(l');
    assert u in l <==> u in multiset(l);
  }

  lemma WokeDueStep(s: State, s1: State, r: State, i: nat)
    requires Wf(s) && Wf(s1) && Wf(r) && i < |s.sleepers| && IsDue(s, s.sleepers[i])
    requires multiset(s.sleepers)[s.sleepers[i]] <= 1
    requires forall u :: 0 <= u < |s.threads| && s.threads[u].sema == s.threads[s.sleepers[i]].sema ==> u == s.sleepers[i]
    requires s1.threads == s.threads[s.sleepers[i] := s.threads[s.sleepers[i]].(status := Ready)]
    requires s1.ticks == s.ticks && |s1.semas| == |s.semas|
    requires s1.sleepers == s.sleepers[..i] + s.sleepers[i + 1..]
    requires s1.semas == UpSemas(s.semas, s.threads[s.sleepers[i]].sema, s1.semas[s.threads[s.sleepers[i]].sema].waiters)
    requires WokeDue(s1, r)
    ensures WokeDue(s, r)
  {
    var t := s.sleepers[i];
    forall u | 0 <= u < |s.threads|
      ensures IsDue(s1, u) == (IsDue(s, u) && u != t)
    {
      DropOne(s.sleepers, i, u);
    }
    forall u | 0 <= u < |s.threads| && s.threads[u].sema < |s.semas|
      ensures r.semas[s.threads[u].sema].ups == s.semas[s.threads[u].sema].ups + One(IsDue(s, u))
    {
      assert s1.threads[u].sema == s.threads[u].sema;
      assert IsDue(s1, u) == (IsDue(s, u) && u != t);
    }
  }

  /** Statuses of threads that are not blocked, and who runs, may differ: nothing else. */
  ghost predicate Switched(s: State, r: State) {
    && |r.threads| == |s.threads|
    && r.semas == s.semas && r.locks == s.locks && r.sleepers == s.sleepers && r.ticks == s.ticks
    && (forall t :: 0 <= t < |s.threads| ==> r.threads[t] == s.threads[t].(status := r.threads[t].status))
  }

  lemma YieldSwitches(s: State)
    requires Wf(s)
    ensures Switched(s, Yield(s)) && Yield(s).inIntr == s.inIntr
  {
  }

  lemma LeaveIntrKeeps(s: State, rings: bool)
    requires IntrMid(s, rings)
    ensures Mid(LeaveIntr(s), Steady) && !LeaveIntr(s).inIntr
    ensures rings ==> !Outranked(LeaveIntr(s))
    ensures Switched(s, LeaveIntr(s))
  {
    if s.yieldOnReturn {
      YieldSwitches(s.(inIntr := false));
      YieldKeeps(s.(inIntr := false));
    }
  }

  lemma NoneDueAfter(s: State, r: State)
    requires Wf(s) && Wf(r) && Switched(s, r) && NoneDue(s.threads, s.sleepers, s.ticks)
    ensures NoneDue(r.threads, r.sleepers, r.ticks)
  {
  }

  /** What happens to sleepers at a timer interrupt: those whose tick it is are upped once
      and leave the sleep list, the others stay as they are. */
  ghost predicate Alarms(s: State, r: State)
    requires Wf(s) && Wf(r)
  {
    && |r.threads| == |s.threads| && |r.semas| == |s.semas|
    && r.ticks == s.ticks + 1
    && (forall t :: 0 <= t < |s.threads| ==>
      && r.threads[t].sema == s.threads[t].sema && r.threads[t].wakeup == s.threads[t].wakeup
      && Ups(r, t) == Ups(s, t) + One(t in s.sleepers && s.threads[t].wakeup == s.ticks + 1)
      && (t in r.sleepers <==> t in s.sleepers && s.threads[t].wakeup != s.ticks + 1))
  }

  /** How often the semaphore of thread t was upped. */
  ghost function Ups(s: State, t: Tid): nat
    requires Wf(s) && t < |s.threads|
  {
    assert ThreadWf(s.threads[t], |s.threads|, |s.semas|, |s.locks|);
    s.semas[s.threads[t].sema].ups
  }

  lemma ThreadTickKeeps(s: State, rings: bool)
    requires IntrMid(s, rings)
    ensures IntrMid(ThreadTick(s), rings)
    ensures ThreadTick(s).threads == s.threads && ThreadTick(s).semas == s.semas
    ensures ThreadTick(s).sleepers == s.sleepers && ThreadTick(s).ticks == s.ticks
  {
  }

  lemma TickMid(s: State)
    requires Mid(s, Steady)
    ensures IntrMid(Tick(EnterIntr(s)), !Outranked(s))
  {
  }

  lemma TimerLoopMid(s: State, rings: bool)
    requires IntrMid(s, rings)
    ensures IntrMid(ThreadTick(WakeSleepers(s, 0)), rings)
  {
    WakeSleepersMid(s, 0, rings);
    ThreadTickKeeps(WakeSleepers(s, 0), rings);
  }

  lemma TimerLoopDue(s: State)
    requires Mid(s, Steady) && s.inIntr
    ensures var m := ThreadTick(WakeSleepers(s, 0));
      WokeDue(s, m) && NoneDue(m.threads, m.sleepers, m.ticks) && m.ticks == s.ticks
  {
    WakeSleepersDue(s, 0);
    hide WakeSleepers, WokeDue, NoneDue, ThreadTick, Mid, Wf;
    SliceDue(s, WakeSleepers(s, 0));
  }

  lemma SliceDue(s: State, w: State)
    requires Wf(s) && Wf(w) && WokeDue(s, w) && NoneDue(w.threads, w.sleepers, w.ticks)
    ensures var m := ThreadTick(w);
      WokeDue(s, m) && NoneDue(m.threads, m.sleepers, m.ticks) && m.ticks == w.ticks
  {
  }

  /** A timer interrupt with its deferred yield. */
  lemma TimerStepKeeps(s: State)
    requires Inv(s)
    ensures Inv(TimerStep(s))
    ensures !Outranked(s) ==> !Outranked(TimerStep(s))
  {
    var m := ThreadTick(WakeSleepers(Tick(EnterIntr(s)), 0));
    TickMid(s);
    TimerLoopMid(Tick(EnterIntr(s)), !Outranked(s));
    TimerLoopDue(Tick(EnterIntr(s)));
    LeaveIntrKeeps(m, !Outranked(s));
    NoneDueAfter(m, TimerStep(s));
  }

  lemma TimerStepAlarms(s: State)
    requires Inv(s)
    ensures Alarms(s, TimerStep(s))
  {
    var s2 := Tick(EnterIntr(s));
    var m := ThreadTick(WakeSleepers(s2, 0));
    TickMid(s);
    TimerLoopMid(s2, !Outranked(s));
    TimerLoopDue(s2);
    LeaveIntrKeeps(m, !Outranked(s));
    DueIsNext(s, s2, m, TimerStep(s));
  }

  lemma DueIsNext(s: State, s2: State, m: State, r: State)
    requires Inv(s) && s2 == Tick(EnterIntr(s)) && Mid(m, Steady) && WokeDue(s2, m) && Wf(r) && Switched(m, r)
    requires m.ticks == s2.ticks
    ensures Alarms(s, r)
  {
    hide Owned, Conserved, Exclusive, Books, WaitHeld, WaitBlocked, Placed;
    forall t | 0 <= t < |s.threads|
      ensures IsDue(s2, t) <==> t in s.sleepers && s.threads[t].wakeup == s.ticks + 1
      ensures t in r.sleepers <==> t in s.sleepers && s.threads[t].wakeup != s.ticks + 1
    {
      DueNow(s, t);
      StillAsleep(s.threads, m.threads, s.semas, m.semas, s.sleepers, m.sleepers, t);
    }
  }

  lemma DueNow(s: State, t: Tid)
    requires Wf(s) && NoneDue(s.threads, s.sleepers, s.ticks) && t < |s.threads|
    ensures IsDue(Tick(EnterIntr(s)), t) <==> t in s.sleepers && s.threads[t].wakeup == s.ticks + 1
  {
  }

  lemma StillAsleep(ts: seq<Thread>, ts': seq<Thread>, semas: seq<Semaphore>, semas': seq<Semaphore>,
                    sleepers: seq<Tid>, sleepers': seq<Tid>, t: Tid)
    requires t < |ts| == |ts'| && SleepOk(ts, semas, sleepers, None) && SleepOk(ts', semas', sleepers', None)
    ensures t in sleepers' <==> Asleep(ts'[t])
    ensures t in sleepers <==> Asleep(ts[t])
  {
  }

  // ---------- the other steps ----------

  lemma OwnPriorityBooks(ts: seq<Thread>, ts': seq<Thread>, locks: seq<Lock>, t: Tid, priority: int)
    requires t < |ts| && Books(ts, locks) && WaitHeld(ts, locks) && WaitBlocked(ts, locks, None)
    requires ts' == ts[t := WithPriority(ts[t], priority)]
    ensures Books(ts', locks) && WaitHeld(ts', locks) && WaitBlocked(ts', locks, None)
    ensures AllSeated(ts, ts')
  {
  }

  lemma NotReady(s: State, t: Tid)
    requires Wf(s) && t < |s.threads| && ReadyPlaced(s.threads, s.ready, s.idle) && s.threads[t].status != Ready
    ensures t !in s.ready
  {
  }

  lemma SortedWithout(l: seq<Tid>, ts: seq<Thread>, ts': seq<Thread>, t: Tid)
    requires InRange(l, |ts|) && Sorted(l, ts) && t !in l && t < |ts| == |ts'| && ts' == ts[t := ts'[t]]
    ensures Sorted(l, ts')
  {
  }

  /** thread_set_priority before it considers to yield. */
  lemma OwnPriorityMid(s: State, priority: int)
    requires Mid(s, Steady)
    ensures Mid(SetThread(s, s.current, WithPriority(s.threads[s.current], priority)), Steady)
  {
    var r := SetThread(s, s.current, WithPriority(s.threads[s.current], priority));
    hide Owned, Conserved, Exclusive, SleepOk, Books, WaitHeld, WaitBlocked, WaitPlaced, Sorted;
    assert s.threads[s.current].status == Running;
    OwnPriorityBooks(s.threads, r.threads, s.locks, s.current, priority);
    NotReady(s, s.current);
    SortedWithout(s.ready, s.threads, r.threads, s.current);
    SeatedPlaced(s, r, true);
    SeatedRest(s, r, Steady, None);
  }

  lemma OwnPriorityKeeps(s: State, priority: int)
    requires Mid(s, Steady) && !s.inIntr
    ensures Mid(SetOwnPriority(s, priority), Steady) && !Outranked(SetOwnPriority(s, priority))
  {
    OwnPriorityMid(s, priority);
    SuperYieldKeeps(SetThread(s, s.current, WithPriority(s.threads[s.current], priority)));
  }

  lemma NewThreadGrows(s: State, priority: int)
    requires Wf(s)
    ensures var t := Thread(Blocked, priority, 0, [], None, |s.semas|, 0, Free, {}, priority);
      Grown(s, NewThread(s, priority), Semaphore(0, [], OfThread(|s.threads|), 0, 0, 0), [], [t])
  {
  }

  lemma CreateKeeps(s: State, priority: int)
    requires Mid(s, Steady) && !s.inIntr
    ensures Mid(Create(s, priority), Steady) && !Outranked(Create(s, priority))
  {
    var n, t := NewThread(s, priority), |s.threads|;
    NewThreadGrows(s, priority);
    GrownKeeps(s, n, Semaphore(0, [], OfThread(|s.threads|), 0, 0, 0), [],
      [Thread(Blocked, priority, 0, [], None, |s.semas|, 0, Free, {}, priority)]);
    UnblockKeeps(n, t);
    SuperYieldKeeps(Unblock(n, t));
  }

  lemma SemaInitKeeps(s: State, value: nat)
    requires Mid(s, Steady)
    ensures Mid(SemaInit(s, value), Steady)
  {
    hide Rest, Placed, Sorted, Grown, SemaInit;
    SemaInitGrows(s, value);
    GrownKeeps(s, SemaInit(s, value), Semaphore(value, [], User, value, 0, 0), [], []);
  }

  lemma SemaInitGrows(s: State, value: nat)
    requires Wf(s)
    ensures Grown(s, SemaInit(s, value), Semaphore(value, [], User, value, 0, 0), [], [])
  {
  }

  lemma LockInitKeeps(s: State)
    requires Mid(s, Steady)
    ensures Mid(LockInit(s), Steady)
  {
    GrownKeeps(s, LockInit(s), Semaphore(1, [], OfLock(|s.locks|), 1, 0, 0), [Lock(None, |s.semas|)], []);
  }

  lemma SemaUpKeeps(s: State, q: nat)
    requires Mid(s, Steady) && !s.inIntr && q < |s.semas| && s.semas[q].owner == User
    ensures Mid(SemaUp(s, q), Steady) && !Outranked(SemaUp(s, q))
  {
    WakeKeeps(s, q, None);
    SuperYieldKeeps(Wake(s, q));
  }

  lemma EnteredUpPre(s: State, q: nat)
    requires Mid(s, Steady) && q < |s.semas| && s.semas[q].owner == User
    ensures UpPre(EnterIntr(s), q, None) && EnterIntr(s).semas == s.semas && EnterIntr(s).inIntr
  {
  }

  lemma DeviceStepKeeps(s: State, q: nat)
    requires Mid(s, Steady) && !s.inIntr && q < |s.semas| && s.semas[q].owner == User
    ensures Mid(DeviceStep(s, q), Steady) && !Outranked(DeviceStep(s, q))
  {
    EnteredUpPre(s, q);
    hide UpPre, Wake, Ring, Rest, Placed, LeaveIntr, Sorted;
    IntrUp(EnterIntr(s), q);
    LeaveIntrKeeps(Ring(Wake(EnterIntr(s), q)), true);
  }

  lemma TakeOwnedSleep(ts: seq<Thread>, semas: seq<Semaphore>, locks: seq<Lock>, sleepers: seq<Tid>, q: nat)
    requires q < |semas| && semas[q].value > 0 && semas[q].owner == User
    requires Owned(ts, semas, locks) && SleepOk(ts, semas, sleepers, None) && Exclusive(ts, semas, locks, None)
    ensures Owned(ts, TakeSemas(semas, q), locks) && SleepOk(ts, TakeSemas(semas, q), sleepers, None)
    ensures Exclusive(ts, TakeSemas(semas, q), locks, None)
  {
  }

  lemma TakeWaitPlaced(ts: seq<Thread>, semas: seq<Semaphore>, q: nat)
    requires q < |semas| && semas[q].value > 0 && WaitPlaced(ts, semas)
    ensures WaitPlaced(ts, TakeSemas(semas, q))
  {
  }

  lemma SemaTryDownKeeps(s: State, q: nat)
    requires Mid(s, Steady) && q < |s.semas| && s.semas[q].owner == User
    ensures Mid(SemaTryDown(s, q), Steady)
  {
    if s.semas[q].value > 0 {
      TakeOwnedSleep(s.threads, s.semas, s.locks, s.sleepers, q);
      TakeWaitPlaced(s.threads, s.semas, q);
    }
  }

  /** sema_down, entered anew or resumed after a wake-up. */
  lemma DownOnceKeeps(s: State, q: nat, onto: Option<nat>)
    requires Mid(s, Steady) && DownOk(s, q, onto)
    requires (s.threads[s.current].cont == Free && !s.semas[q].owner.OfThread?) || s.threads[s.current].cont == Down(q, onto)
    ensures Mid(DownOnce(s, q, onto), Steady)
    ensures s.semas[q].value == 0 ==> !Outranked(DownOnce(s, q, onto))
  {
    if s.semas[q].value == 0 {
      NotOwnWhenZero(s, q, onto);
      JoinKeeps(s, q, onto, None);
      ScheduleKeeps(JoinWaiters(s, q, onto));
    } else {
      ProceedKeeps(s, q, onto);
    }
  }

  lemma NotOwnWhenZero(s: State, q: nat, onto: Option<nat>)
    requires Mid(s, Steady) && DownOk(s, q, onto) && s.semas[q].value == 0
    requires (s.threads[s.current].cont == Free && !s.semas[q].owner.OfThread?) || s.threads[s.current].cont == Down(q, onto)
    ensures !s.semas[q].owner.OfThread?
  {
    assert s.threads[s.current].status == Running;
  }

  lemma LockIsOwned(s: State, l: nat)
    requires Mid(s, Steady) && l < |s.locks|
    ensures s.locks[l].sema < |s.semas| && s.semas[s.locks[l].sema].owner == OfLock(l)
    ensures s.semas[s.locks[l].sema].value == One(s.locks[l].holder.None?)
  {
  }

  lemma LockAcquireKeeps(s: State, l: nat)
    requires Mid(s, Steady) && l < |s.locks| && s.current != s.idle
    requires s.locks[l].holder != Some(s.current) && s.threads[s.current].cont == Free
    ensures Mid(LockAcquire(s, l), Steady)
    ensures s.locks[l].holder.Some? ==> !Outranked(LockAcquire(s, l))
  {
    LockIsOwned(s, l);
    if s.locks[l].holder.Some? {
      DonationKeeps(s, l);
      DonationShape(s, l);
      AcquireWaits(s, Donation(s, l), l);
    } else {
      DownOnceKeeps(s, s.locks[l].sema, Some(l));
    }
  }

  lemma DonationShape(s: State, l: nat)
    requires Wf(s) && WaitHeld(s.threads, s.locks) && l < |s.locks| && s.locks[l].holder.Some?
    requires s.locks[l].holder != Some(s.current)
    ensures SameShape(s, Donation(s, l)) && Donation(s, l).semas == s.semas && Donation(s, l).locks == s.locks
  {
  }

  lemma AcquireWaits(s: State, d: State, l: nat)
    requires l < |s.locks| && d.locks == s.locks && d.semas == s.semas && d.current == s.current && d.idle == s.idle
    requires Mid(d, Phase(true, Some(d.current), None, None)) && d.current != d.idle
    requires d.threads[d.current].waitLock == Some(l) && d.threads[d.current].cont == Free
    requires s.locks[l].sema < |s.semas| && s.semas[s.locks[l].sema].owner == OfLock(l) && s.semas[s.locks[l].sema].value == 0
    ensures Mid(DownOnce(d, s.locks[l].sema, Some(l)), Steady) && !Outranked(DownOnce(d, s.locks[l].sema, Some(l)))
  {
    var q := s.locks[l].sema;
    JoinKeeps(d, q, Some(l), Some(d.current));
    ScheduleKeeps(JoinWaiters(d, q, Some(l)));
  }

  lemma LockTryAcquireKeeps(s: State, l: nat)
    requires Mid(s, Steady) && l < |s.locks| && s.current != s.idle && s.threads[s.current].cont == Free
    ensures Mid(LockTryAcquire(s, l), Steady)
  {
    LockIsOwned(s, l);
    if s.semas[s.locks[l].sema].value > 0 {
      ProceedKeeps(s, s.locks[l].sema, Some(l));
    }
  }

  lemma LockReleaseKeeps(s: State, l: nat)
    requires ReleasePre(s, l) && !s.inIntr
    ensures Mid(LockRelease(s, l), Steady) && !Outranked(LockRelease(s, l))
  {
    LockIsOwned(s, l);
    LetGoKeeps(s, l);
    var g, q := LetGo(s, l), s.locks[l].sema;
    LetGoEffect(s, l);
    WakeKeeps(g, q, Some(l));
    SuperYieldKeeps(Wake(g, q));
  }

  // ---------- runs ----------

  /** The steps of a run: what the running thread calls, its return from a wait inside
      sema_down (Resume), and interrupts. */
  datatype Step =
    | DoCreate(priority: int)
    | DoExit
    | DoBlock
    | DoUnblock(tid: Tid)
    | DoYield
    | DoSetPriority(priority: int)
    | DoSemaInit(value: nat)
    | DoLockInit
    | DoDown(sema: nat)
    | DoTryDown(sema: nat)
    | DoUp(sema: nat)
    | DoAcquire(lock: nat)
    | DoTryAcquire(lock: nat)
    | DoRelease(lock: nat)
    | DoSleep(n: int)
    | Resume
    | TimerIntr
    | DeviceIntr(sema: nat)

  predicate IsUserSema(s: State, q: nat) {
    q < |s.semas| && s.semas[q].owner == User
  }

  /** What the kernel asserts of the arguments of its primitives; a thread exits without
      holding locks. */
  predicate Fits(s: State, step: Step)
    requires Wf(s)
  {
    match step
    case DoCreate(p) => PRI_MIN <= p <= PRI_MAX
    case DoExit => s.threads[s.current].held == {}
    case DoUnblock(t) =>
      t < |s.threads| && t != s.idle && s.threads[t].status == Blocked && s.threads[t].cont == Free
    case DoDown(q) => IsUserSema(s, q)
    case DoTryDown(q) => IsUserSema(s, q)
    case DoUp(q) => IsUserSema(s, q)
    case DoAcquire(l) => l < |s.locks| && s.locks[l].holder != Some(s.current)
    case DoTryAcquire(l) => l < |s.locks| && s.locks[l].holder != Some(s.current)
    case DoRelease(l) => l < |s.locks| && s.locks[l].holder == Some(s.current)
    case DeviceIntr(q) => IsUserSema(s, q)
    case Resume => s.threads[s.current].cont.Down?
    case DoBlock => true
    case DoYield => true
    case DoSetPriority(_) => true
    case DoSemaInit(_) => true
    case DoLockInit => true
    case DoSleep(_) => true
    case TimerIntr => true
  }

  /** Interrupts come at any step.  A thread woken inside sema_down first returns from it.
      The idle thread does nothing but block and yield. */
  predicate Enabled(s: State, step: Step)
    requires Wf(s)
  {
    && Fits(s, step)
    && (step.TimerIntr? || step.DeviceIntr? || step.Resume? ||
        (s.threads[s.current].cont == Free && (step.DoBlock? || step.DoYield? || s.current != s.idle)))
  }

  function Next(s: State, step: Step): (r: State)
    requires Wf(s) && WaitHeld(s.threads, s.locks) && Enabled(s, step)
    ensures Wf(r)
  {
    match step
    case DoCreate(p) => Create(s, p)
    case DoExit => Exit(s)
    case DoBlock => Block(s)
    case DoUnblock(t) => Unblock(s, t)
    case DoYield => Yield(s)
    case DoSetPriority(p) => SetOwnPriority(s, p)
    case DoSemaInit(v) => SemaInit(s, v)
    case DoLockInit => LockInit(s)
    case DoDown(q) => DownOnce(s, q, None)
    case DoTryDown(q) => SemaTryDown(s, q)
    case DoUp(q) => SemaUp(s, q)
    case DoAcquire(l) => LockAcquire(s, l)
    case DoTryAcquire(l) => LockTryAcquire(s, l)
    case DoRelease(l) => LockRelease(s, l)
    case DoSleep(n) => Sleep(s, n)
    case Resume =>
      assert ThreadWf(s.threads[s.current], |s.threads|, |s.semas|, |s.locks|);
      DownOnce(s, s.threads[s.current].cont.sema, s.threads[s.current].cont.onto)
    case TimerIntr => TimerStep(s)
    case DeviceIntr(q) => DeviceStep(s, q)
  }

  function UpsOf(semas: seq<Semaphore>, q: nat): nat {
    if q < |semas| then semas[q].ups else 0
  }

  ghost predicate SameAlarm(a: Thread, b: Thread, semas: seq<Semaphore>, semas': seq<Semaphore>) {
    b.wakeup == a.wakeup && b.sema == a.sema && UpsOf(semas', a.sema) == UpsOf(semas, a.sema)
  }

  ghost predicate SameBase(a: Thread, b: Thread) {
    b.base == a.base
  }

  /** Time, alarms and the sleep list are as they were, and so are the base priorities but
      that of `own`. */
  ghost predicate Quiet(s: State, r: State, own: Option<Tid>) {
    && |s.threads| <= |r.threads|
    && r.sleepers == s.sleepers && r.ticks == s.ticks && r.inIntr == s.inIntr
    && (forall t :: 0 <= t < |s.threads| ==> SameAlarm(s.threads[t], r.threads[t], s.semas, r.semas))
    && (forall t :: 0 <= t < |s.threads| && own != Some(t) ==> SameBase(s.threads[t], r.threads[t]))
  }

  lemma QuietSelf(s: State)
    ensures Quiet(s, s, None)
  {
  }

  lemma MidWaits(s: State)
    requires Mid(s, Steady)
    ensures Wf(s) && WaitHeld(s.threads, s.locks)
  {
  }

  lemma QuietThen(s: State, m: State, r: State, own: Option<Tid>)
    requires Quiet(s, m, own) && Quiet(m, r, None)
    ensures Quiet(s, r, own)
  {
  }

  lemma QuietNoneDue(s: State, r: State, own: Option<Tid>)
    requires Wf(s) && Wf(r) && Quiet(s, r, own) && NoneDue(s.threads, s.sleepers, s.ticks)
    ensures NoneDue(r.threads, r.sleepers, r.ticks)
  {
  }

  lemma ScheduleQuiet(s: State)
    requires Wf(s)
    ensures Quiet(s, Schedule(s), None)
  {
  }

  lemma SwitchQuiet(s: State, status: Status, ready: seq<Tid>)
    requires Wf(s) && InRange(ready, |s.threads|)
    ensures Quiet(s, Schedule(SetStatus(s.(ready := ready), s.current, status)), None)
  {
  }

  lemma YieldQuiet(s: State)
    requires Wf(s)
    ensures Quiet(s, Yield(s), None)
  {
  }

  lemma SuperYieldQuiet(s: State)
    requires Wf(s)
    ensures Quiet(s, SuperYield(s), None) && Quiet(s, Ring(s), None)
  {
    YieldQuiet(s);
  }

  lemma RecordQuiet(s: State, l: nat, h: Tid)
    requires Wf(s) && l < |s.locks| && s.locks[l].holder == Some(h) && h < |s.threads| && h != s.current
    ensures Quiet(s, RecordDonation(s, l, h), None)
  {
  }

  lemma RepriceQuiet(s: State, r: State)
    requires |r.threads| == |s.threads|
    requires r.semas == s.semas && r.sleepers == s.sleepers && r.ticks == s.ticks && r.inIntr == s.inIntr
    requires forall t :: 0 <= t < |s.threads| ==> r.threads[t] == s.threads[t].(priority := r.threads[t].priority)
    ensures Quiet(s, r, None)
  {
  }

  lemma DonationQuiet(s: State, l: nat)
    requires Wf(s) && WaitHeld(s.threads, s.locks) && l < |s.locks| && s.locks[l].holder.Some?
    requires s.locks[l].holder != Some(s.current)
    ensures Quiet(s, Donation(s, l), None)
  {
    var h := s.locks[l].holder.value;
    var m := RecordDonation(s, l, h);
    RecordQuiet(s, l, h);
    DonateFromEffect(m, h, PriorityOf(s, s.current), 0);
    hide Wf, WaitHeld, RecordDonation, DonateFrom;
    RepriceQuiet(m, Donation(s, l));
    QuietThen(s, m, Donation(s, l), None);
  }

  lemma WakeQuiet(s: State, q: nat)
    requires Wf(s) && q < |s.semas|
    requires forall t :: 0 <= t < |s.threads| ==> s.threads[t].sema != q
    ensures Quiet(s, Wake(s, q), None)
  {
    WakeEffect(s, q);
    hide Wake, Wf, WokeFirst;
    if s.semas[q].waiters == [] {
      CountQuiet(s, Wake(s, q), q, [], s.current, s.threads[s.current].status);
    } else {
      WokeQuiet(s, Wake(s, q), q, StableSort(s.semas[q].waiters, s.threads));
    }
  }

  lemma WokeQuiet(s: State, r: State, q: nat, w: seq<Tid>)
    requires Wf(s) && q < |s.semas| && w != [] && InRange(w, |s.threads|) && WokeFirst(s, r, q, w)
    requires forall t :: 0 <= t < |s.threads| ==> s.threads[t].sema != q
    ensures Quiet(s, r, None)
  {
    assert w[0] < |s.threads|;
    hide Wf, InRange;
    CountQuiet(s, r, q, w[1..], w[0], Ready);
  }

  lemma CountQuiet(s: State, r: State, q: nat, ws: seq<Tid>, t: Tid, status: Status)
    requires q < |s.semas| && t < |s.threads|
    requires forall u :: 0 <= u < |s.threads| ==> s.threads[u].sema != q
    requires r == s.(semas := UpSemas(s.semas, q, ws), ready := r.ready, threads := r.threads)
    requires r.threads == s.threads[t := s.threads[t].(status := status)]
    ensures Quiet(s, r, None)
  {
  }

  lemma SharedSema(s: State, q: nat)
    requires Mid(s, Steady) && q < |s.semas| && !s.semas[q].owner.OfThread?
    ensures forall t :: 0 <= t < |s.threads| ==> s.threads[t].sema != q
  {
    hide Placed, Sorted, WaitHeld;
    NobodysSema(s.threads, s.semas, s.locks, q);
  }

  lemma NobodysSema(ts: seq<Thread>, semas: seq<Semaphore>, locks: seq<Lock>, q: nat)
    requires Owned(ts, semas, locks) && q < |semas| && !semas[q].owner.OfThread?
    ensures forall t :: 0 <= t < |ts| ==> ts[t].sema != q
  {
  }

  lemma TakeQuiet(s: State, q: nat, onto: Option<nat>)
    requires Wf(s) && q < |s.semas| && (onto.Some? ==> onto.value < |s.locks|)
    ensures Quiet(s, SemaTryDown(s, q), None)
    ensures s.semas[q].value > 0 ==> Quiet(s, Proceed(s, q, onto), None)
  {
  }

  lemma JoinQuiet(s: State, q: nat, onto: Option<nat>)
    requires Wf(s) && q < |s.semas| && (onto.Some? ==> onto.value < |s.locks|)
    ensures Quiet(s, JoinWaiters(s, q, onto), None)
  {
  }

  lemma DownQuiet(s: State, q: nat, onto: Option<nat>)
    requires Wf(s) && q < |s.semas| && (onto.Some? ==> onto.value < |s.locks|)
    ensures Quiet(s, DownOnce(s, q, onto), None)
    ensures Quiet(s, SemaTryDown(s, q), None)
    ensures s.semas[q].value > 0 ==> Quiet(s, Proceed(s, q, onto), None)
  {
    hide Quiet;
    TakeQuiet(s, q, onto);
    if s.semas[q].value == 0 {
      var j := JoinWaiters(s, q, onto);
      JoinQuiet(s, q, onto);
      ScheduleQuiet(j);
      QuietThen(s, j, Schedule(j), None);
    }
  }

  lemma LetGoQuiet(s: State, l: nat)
    requires ReleasePre(s, l)
    ensures Quiet(s, LetGo(s, l), None)
  {
    LetGoEffect(s, l);
    GivenBackQuiet(s, LetGo(s, l), l);
  }

  lemma GivenBackQuiet(s: State, r: State, l: nat)
    requires GivenBack(s.threads, r.threads, l, s.current)
    requires r.semas == s.semas && r.sleepers == s.sleepers && r.ticks == s.ticks && r.inIntr == s.inIntr
    ensures Quiet(s, r, None)
  {
  }

  lemma ReleaseQuiet(s: State, l: nat)
    requires ReleasePre(s, l)
    ensures Quiet(s, LockRelease(s, l), None)
  {
    var g, q := LetGo(s, l), s.locks[l].sema;
    LockIsOwned(s, l);
    SharedSema(s, q);
    LetGoQuiet(s, l);
    UpQuiet(s, g, q);
  }

  lemma UpQuiet(s: State, g: State, q: nat)
    requires Wf(s) && Wf(g) && Quiet(s, g, None) && q < |g.semas| && |g.threads| == |s.threads|
    requires forall t :: 0 <= t < |s.threads| ==> s.threads[t].sema != q
    ensures Quiet(s, SemaUp(g, q), None) && Quiet(s, Ring(Wake(g, q)), None)
  {
    forall t | 0 <= t < |g.threads|
      ensures g.threads[t].sema != q
    {
      assert SameAlarm(s.threads[t], g.threads[t], s.semas, g.semas);
    }
    WakeQuiet(g, q);
    SuperYieldQuiet(Wake(g, q));
    QuietThen(g, Wake(g, q), SemaUp(g, q), None);
    QuietThen(g, Wake(g, q), Ring(Wake(g, q)), None);
    QuietThen(s, g, SemaUp(g, q), None);
    QuietThen(s, g, Ring(Wake(g, q)), None);
  }

  lemma AcquireQuiet(s: State, l: nat)
    requires Wf(s) && WaitHeld(s.threads, s.locks) && l < |s.locks| && s.locks[l].holder != Some(s.current)
    ensures Quiet(s, LockAcquire(s, l), None) && Quiet(s, LockTryAcquire(s, l), None)
  {
    assert LockWf(s.locks[l], |s.threads|, |s.semas|);
    DownQuiet(s, s.locks[l].sema, Some(l));
    if s.locks[l].holder.Some? {
      var d := Donation(s, l);
      DonationQuiet(s, l);
      DownQuiet(d, s.locks[l].sema, Some(l));
      QuietThen(s, d, DownOnce(d, s.locks[l].sema, Some(l)), None);
    }
  }

  lemma CreateQuiet(s: State, priority: int)
    requires Wf(s)
    ensures Quiet(s, Create(s, priority), None)
  {
    var n := NewThread(s, priority);
    NewThreadQuiet(s, priority);
    var u := Unblock(n, |s.threads|);
    assert Quiet(n, u, None);
    SuperYieldQuiet(u);
    QuietThen(s, n, u, None);
    QuietThen(s, u, SuperYield(u), None);
  }

  lemma NewThreadQuiet(s: State, priority: int)
    requires Wf(s)
    ensures Quiet(s, NewThread(s, priority), None) && Quiet(s, LockInit(s), None)
    ensures priority >= 0 ==> Quiet(s, SemaInit(s, priority), None)
  {
  }

  lemma DeviceQuiet(s: State, q: nat)
    requires Mid(s, Steady) && !s.inIntr && q < |s.semas| && s.semas[q].owner == User
    ensures Quiet(s, DeviceStep(s, q), None)
  {
    SharedSema(s, q);
    var e := EnterIntr(s);
    var w := Ring(Wake(e, q));
    UpQuiet(e, e, q);
    YieldQuiet(w.(inIntr := false));
    LeaveQuiet(s, e, w);
  }

  lemma LeaveQuiet(s: State, e: State, w: State)
    requires Wf(s) && e == EnterIntr(s) && Wf(w) && Quiet(e, w, None) && !s.inIntr
    requires Quiet(w.(inIntr := false), Yield(w.(inIntr := false)), None)
    ensures Quiet(s, LeaveIntr(w), None)
  {
  }

  /** The steps that do not deal with alarms. */
  predicate Timeless(step: Step) {
    !step.TimerIntr? && !(step.DoSleep? && step.n > 0)
  }

  /** The thread whose base priority the step may change. */
  function Own(s: State, step: Step): Option<Tid> {
    if step.DoSetPriority? then Some(s.current) else None
  }

  predicate OnThreads(step: Step) {
    step.DoCreate? || step.DoExit? || step.DoBlock? || step.DoUnblock? || step.DoYield? || step.DoSetPriority?
  }

  predicate OnLocks(step: Step) {
    step.DoAcquire? || step.DoTryAcquire? || step.DoRelease? || step.DoLockInit?
  }

  lemma UnblockQuiet(s: State, t: Tid)
    requires Wf(s) && t < |s.threads|
    ensures Quiet(s, Unblock(s, t), None)
  {
  }

  lemma NextQuietOnThreads(s: State, step: Step)
    requires Inv(s) && Enabled(s, step) && OnThreads(step)
    ensures Quiet(s, Next(s, step), Own(s, step))
  {
    hide Rest, Placed, Quiet;
    hide Create, Unblock, Yield, SetOwnPriority;
    match step
    case DoCreate(p) => CreateQuiet(s, p);
    case DoExit => SwitchQuiet(s, Dying, s.ready);
    case DoBlock => SwitchQuiet(s, Blocked, s.ready);
    case DoUnblock(t) => UnblockQuiet(s, t);
    case DoYield => YieldQuiet(s);
    case DoSetPriority(p) => OwnPriorityQuiet(s, p);
  }

  lemma NextQuietOnLocks(s: State, step: Step)
    requires Inv(s) && Enabled(s, step) && OnLocks(step)
    ensures Quiet(s, Next(s, step), Own(s, step))
  {
    hide Rest, Placed, Quiet, LockAcquire, LockTryAcquire, LockRelease, LockInit;
    MidWaits(s);
    match step
    case DoLockInit => NewThreadQuiet(s, 0);
    case DoAcquire(l) => AcquireQuiet(s, l);
    case DoTryAcquire(l) => AcquireQuiet(s, l);
    case DoRelease(l) => ReleaseQuiet(s, l);
  }

  lemma NextQuietOnSemas(s: State, step: Step)
    requires Inv(s) && Enabled(s, step) && Timeless(step) && !OnThreads(step) && !OnLocks(step)
    ensures Quiet(s, Next(s, step), Own(s, step))
  {
    hide Rest, Placed, Quiet, SemaInit, DownOnce, SemaTryDown, SemaUp, DeviceStep, NoneDue;
    QuietSelf(s);
    match step
    case DoSemaInit(v) => NewThreadQuiet(s, v);
    case DoDown(q) => DownQuiet(s, q, None);
    case DoTryDown(q) => DownQuiet(s, q, None);
    case DoUp(q) => SharedSema(s, q); UpQuiet(s, s, q);
    case DoSleep(n) =>
    case Resume => ResumeQuiet(s);
    case DeviceIntr(q) => DeviceQuiet(s, q);
  }

  lemma NextQuiet(s: State, step: Step)
    requires Inv(s) && Enabled(s, step) && Timeless(step)
    ensures Quiet(s, Next(s, step), Own(s, step))
  {
    if OnThreads(step) {
      NextQuietOnThreads(s, step);
    } else if OnLocks(step) {
      NextQuietOnLocks(s, step);
    } else {
      NextQuietOnSemas(s, step);
    }
  }

  lemma OwnPriorityQuiet(s: State, priority: int)
    requires Wf(s)
    ensures Quiet(s, SetOwnPriority(s, priority), Some(s.current))
  {
    var m := SetThread(s, s.current, WithPriority(s.threads[s.current], priority));
    assert Quiet(s, m, Some(s.current));
    SuperYieldQuiet(m);
    QuietThen(s, m, SuperYield(m), Some(s.current));
  }

  lemma ResumeQuiet(s: State)
    requires Wf(s) && s.threads[s.current].cont.Down?
    ensures ThreadWf(s.threads[s.current], |s.threads|, |s.semas|, |s.locks|)
    ensures Quiet(s, DownOnce(s, s.threads[s.current].cont.sema, s.threads[s.current].cont.onto), None)
  {
    assert ThreadWf(s.threads[s.current], |s.threads|, |s.semas|, |s.locks|);
    DownQuiet(s, s.threads[s.current].cont.sema, s.threads[s.current].cont.onto);
  }

  lemma ResumeIsRight(s: State)
    requires Mid(s, Steady) && s.threads[s.current].cont.Down?
    ensures ThreadWf(s.threads[s.current], |s.threads|, |s.semas|, |s.locks|)
    ensures DownOk(s, s.threads[s.current].cont.sema, s.threads[s.current].cont.onto)
  {
  }

  /** The steps that take a value without switching leave priorities and the ready list. */
  lemma DownOrder(s: State, q: nat, onto: Option<nat>)
    requires Wf(s) && q < |s.semas| && (onto.Some? ==> onto.value < |s.locks|)
    ensures s.semas[q].value > 0 ==> Outranked(DownOnce(s, q, onto)) == Outranked(s)
    ensures s.semas[q].value > 0 ==> Outranked(Proceed(s, q, onto)) == Outranked(s)
    ensures Outranked(SemaTryDown(s, q)) == Outranked(s)
  {
  }
}
