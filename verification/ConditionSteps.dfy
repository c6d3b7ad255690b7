/** What the primitives of the scheduler leave alone: a semaphore nobody names, and where every
    thread but the caller is in its code. */
module ConditionSteps {
  import opened Common
  import opened ThreadState
  import opened ThreadInvariants
  import opened ThreadSteps
  import opened ThreadRuns
  import opened Condition

  // ---------- what a step leaves alone ----------

  ghost predicate SameWait(a: Thread, b: Thread, q: nat, acts: bool) {
    && (!acts ==> b.cont == a.cont && b.held == a.held)
    && (b.cont.Down? && b.cont.sema == q ==> a.cont == b.cont)
  }

  /** Semaphore q is as it was, nobody new goes down on it, and only `actor` moves on in its
      own code. */
  ghost predicate Leaves(s: State, r: State, q: nat, actor: Option<Tid>) {
    && |s.threads| <= |r.threads| && |s.semas| <= |r.semas| && |s.locks| <= |r.locks|
    && r.idle == s.idle
    && q < |s.semas| && r.semas[q] == s.semas[q]
    && (forall u :: 0 <= u < |s.threads| ==> SameWait(s.threads[u], r.threads[u], q, actor == Some(u)))
    && (forall u :: |s.threads| <= u < |r.threads| ==> r.threads[u].cont == Free)
  }

  lemma LeavesThen(s: State, m: State, r: State, q: nat, actor: Option<Tid>)
    requires Leaves(s, m, q, actor) && Leaves(m, r, q, None)
    ensures Leaves(s, r, q, actor)
  {
    forall u | 0 <= u < |s.threads|
      ensures SameWait(s.threads[u], r.threads[u], q, actor == Some(u))
    {
      assert SameWait(s.threads[u], m.threads[u], q, actor == Some(u));
      assert SameWait(m.threads[u], r.threads[u], q, false);
    }
    forall u | |s.threads| <= u < |r.threads|
      ensures r.threads[u].cont == Free
    {
      if u < |m.threads| {
        assert SameWait(m.threads[u], r.threads[u], q, false);
      }
    }
  }

  lemma LeavesMore(s: State, r: State, q: nat, actor: Option<Tid>)
    requires Leaves(s, r, q, None)
    ensures Leaves(s, r, q, actor)
  {
    forall u | 0 <= u < |s.threads|
      ensures SameWait(s.threads[u], r.threads[u], q, actor == Some(u))
    {
      assert SameWait(s.threads[u], r.threads[u], q, false);
    }
  }

  lemma ScheduleLeaves(s: State, q: nat)
    requires Wf(s) && q < |s.semas|
    ensures Leaves(s, Schedule(s), q, None)
  {
  }

  lemma SwitchLeaves(s: State, status: Status, ready: seq<Tid>, q: nat)
    requires Wf(s) && InRange(ready, |s.threads|) && q < |s.semas|
    ensures Leaves(s, Schedule(SetStatus(s.(ready := ready), s.current, status)), q, None)
  {
  }

  lemma YieldLeaves(s: State, q: nat)
    requires Wf(s) && q < |s.semas|
    ensures Leaves(s, Yield(s), q, None)
  {
    var ready := if s.current != s.idle then InsertOrdered(s.ready, s.threads, s.current) else s.ready;
    SwitchLeaves(s, Ready, ready, q);
  }

  lemma SuperYieldLeaves(s: State, q: nat)
    requires Wf(s) && q < |s.semas|
    ensures Leaves(s, SuperYield(s), q, None) && Leaves(s, Ring(s), q, None)
  {
    YieldLeaves(s, q);
  }

  lemma UnblockLeaves(s: State, t: Tid, q: nat)
    requires Wf(s) && t < |s.threads| && q < |s.semas|
    ensures Leaves(s, Unblock(s, t), q, None)
  {
  }

  lemma GrowLeaves(s: State, priority: int, value: nat, q: nat)
    requires Wf(s) && q < |s.semas|
    ensures Leaves(s, NewThread(s, priority), q, None)
    ensures Leaves(s, SemaInit(s, value), q, None)
    ensures Leaves(s, LockInit(s), q, None)
  {
  }

  lemma CreateLeaves(s: State, priority: int, q: nat)
    requires Wf(s) && q < |s.semas|
    ensures Leaves(s, Create(s, priority), q, None)
  {
    GrowLeaves(s, priority, 0, q);
    var m := NewThread(s, priority);
    UnblockLeaves(m, |s.threads|, q);
    var u := Unblock(m, |s.threads|);
    SuperYieldLeaves(u, q);
    LeavesThen(s, m, u, q, None);
    LeavesThen(s, u, SuperYield(u), q, None);
  }

  lemma OwnPriorityLeaves(s: State, priority: int, q: nat)
    requires Wf(s) && q < |s.semas|
    ensures Leaves(s, SetOwnPriority(s, priority), q, None)
  {
    var m := SetThread(s, s.current, WithPriority(s.threads[s.current], priority));
    assert Leaves(s, m, q, None);
    SuperYieldLeaves(m, q);
    LeavesThen(s, m, SuperYield(m), q, None);
  }

  lemma DownLeaves(s: State, x: nat, onto: Option<nat>, q: nat)
    requires Wf(s) && x < |s.semas| && (onto.Some? ==> onto.value < |s.locks|)
    requires q < |s.semas| && q != x
    ensures Leaves(s, DownOnce(s, x, onto), q, Some(s.current))
  {
    hide Leaves, JoinWaiters, Proceed, Wf, Schedule;
    if s.semas[x].value == 0 {
      var j := JoinWaiters(s, x, onto);
      JoinLeaves(s, x, onto, q);
      ScheduleLeaves(j, q);
      LeavesThen(s, j, Schedule(j), q, Some(s.current));
    } else {
      ProceedLeaves(s, x, onto, q);
    }
  }

  lemma JoinLeaves(s: State, x: nat, onto: Option<nat>, q: nat)
    requires Wf(s) && x < |s.semas| && (onto.Some? ==> onto.value < |s.locks|)
    requires q < |s.semas| && q != x
    ensures Leaves(s, JoinWaiters(s, x, onto), q, Some(s.current))
  {
  }

  lemma ProceedLeaves(s: State, x: nat, onto: Option<nat>, q: nat)
    requires Wf(s) && x < |s.semas| && (onto.Some? ==> onto.value < |s.locks|) && s.semas[x].value > 0
    requires q < |s.semas| && q != x
    ensures Leaves(s, Proceed(s, x, onto), q, Some(s.current))
  {
  }

  lemma TryDownLeaves(s: State, x: nat, q: nat)
    requires Wf(s) && x < |s.semas| && q < |s.semas| && q != x
    ensures Leaves(s, SemaTryDown(s, x), q, None)
  {
  }

  lemma WokeLeaves(s: State, r: State, x: nat, q: nat, w: seq<Tid>)
    requires Wf(s) && x < |s.semas| && q < |s.semas| && q != x && w != [] && InRange(w, |s.threads|)
    requires WokeFirst(s, r, x, w)
    ensures Leaves(s, r, q, None)
  {
    assert w[0] < |s.threads|;
    hide Wf, InRange;
  }

  lemma WakeLeaves(s: State, x: nat, q: nat)
    requires Wf(s) && x < |s.semas| && q < |s.semas| && q != x
    ensures Leaves(s, Wake(s, x), q, None)
  {
    WakeEffect(s, x);
    hide Wake, WokeFirst, Wf;
    if s.semas[x].waiters != [] {
      WokeLeaves(s, Wake(s, x), x, q, StableSort(s.semas[x].waiters, s.threads));
    }
  }

  lemma UpLeaves(s: State, x: nat, q: nat)
    requires Wf(s) && x < |s.semas| && q < |s.semas| && q != x
    ensures Leaves(s, SemaUp(s, x), q, None) && Leaves(s, Ring(Wake(s, x)), q, None)
  {
    WakeLeaves(s, x, q);
    SuperYieldLeaves(Wake(s, x), q);
    LeavesThen(s, Wake(s, x), SemaUp(s, x), q, None);
    LeavesThen(s, Wake(s, x), Ring(Wake(s, x)), q, None);
  }

  lemma DonationLeaves(s: State, l: nat, q: nat)
    requires Wf(s) && WaitHeld(s.threads, s.locks) && l < |s.locks| && s.locks[l].holder.Some?
    requires s.locks[l].holder != Some(s.current) && q < |s.semas|
    ensures Leaves(s, Donation(s, l), q, None) && Donation(s, l).current == s.current
  {
    assert LockWf(s.locks[l], |s.threads|, |s.semas|);
    var h := s.locks[l].holder.value;
    var m := RecordDonation(s, l, h);
    RecordShape(s, l, h);
    DonateFromEffect(m, h, PriorityOf(s, s.current), 0);
  }

  lemma AcquireByDonation(s: State, l: nat, q: nat)
    requires Wf(s) && WaitHeld(s.threads, s.locks) && l < |s.locks| && s.locks[l].holder.Some?
    requires s.locks[l].holder != Some(s.current) && q < |s.semas| && s.locks[l].sema != q
    ensures Leaves(s, LockAcquire(s, l), q, Some(s.current))
  {
    hide Leaves;
    hide Donation;
    hide DownOnce;
    var d, x := Donation(s, l), s.locks[l].sema;
    assert LockWf(s.locks[l], |s.threads|, |s.semas|);
    DonationLeaves(s, l, q);
    DownLeaves(d, x, Some(l), q);
    LeavesFirst(s, d, DownOnce(d, x, Some(l)), q, Some(s.current));
  }

  lemma AcquireFree(s: State, l: nat, q: nat)
    requires Wf(s) && WaitHeld(s.threads, s.locks) && l < |s.locks| && s.locks[l].sema != q && q < |s.semas|
    ensures s.locks[l].holder.None? ==> Leaves(s, LockAcquire(s, l), q, Some(s.current))
    ensures Leaves(s, LockTryAcquire(s, l), q, Some(s.current))
  {
    hide Leaves;
    assert LockWf(s.locks[l], |s.threads|, |s.semas|);
    DownLeaves(s, s.locks[l].sema, Some(l), q);
    LeavesSelf(s, q);
    LeavesMore(s, s, q, Some(s.current));
  }

  lemma AcquireLeaves(s: State, l: nat, q: nat)
    requires Mid(s, Steady) && l < |s.locks| && s.locks[l].holder != Some(s.current)
    requires q < |s.semas| && s.semas[q].owner == User
    ensures Leaves(s, LockAcquire(s, l), q, Some(s.current))
    ensures Leaves(s, LockTryAcquire(s, l), q, Some(s.current))
  {
    LockIsOwned(s, l);
    MidWaits(s);
    hide Rest, Placed, Leaves, LockAcquire, LockTryAcquire;
    AcquireFree(s, l, q);
    if s.locks[l].holder.Some? {
      AcquireByDonation(s, l, q);
    }
  }

  lemma LeavesSelf(s: State, q: nat)
    requires q < |s.semas|
    ensures Leaves(s, s, q, None)
  {
  }

  lemma LeavesFirst(s: State, m: State, r: State, q: nat, actor: Option<Tid>)
    requires Leaves(s, m, q, None) && Leaves(m, r, q, actor) && |m.threads| == |s.threads|
    ensures Leaves(s, r, q, actor)
  {
    forall u | 0 <= u < |s.threads|
      ensures SameWait(s.threads[u], r.threads[u], q, actor == Some(u))
    {
      assert SameWait(s.threads[u], m.threads[u], q, false);
      assert SameWait(m.threads[u], r.threads[u], q, actor == Some(u));
    }
  }

  lemma GivenBackLeaves(s: State, r: State, l: nat, q: nat)
    requires GivenBack(s.threads, r.threads, l, s.current) && q < |s.semas|
    requires r.semas == s.semas && r.idle == s.idle && |r.locks| == |s.locks|
    ensures Leaves(s, r, q, Some(s.current))
    ensures r.threads[s.current].held == s.threads[s.current].held - {l}
    ensures r.threads[s.current].cont == s.threads[s.current].cont
  {
  }

  /** lock_release takes the lock from its caller, and nothing else that matters here. */
  lemma ReleaseLeaves(s: State, l: nat, q: nat)
    requires ReleasePre(s, l) && q < |s.semas| && s.semas[q].owner == User
    ensures Leaves(s, LockRelease(s, l), q, Some(s.current))
    ensures LockRelease(s, l).threads[s.current].held == s.threads[s.current].held - {l}
    ensures LockRelease(s, l).threads[s.current].cont == s.threads[s.current].cont
  {
    hide Rest, Placed, LetGo, Leaves, GivenBack, Sorted, SemaUp;
    var g, x := LetGo(s, l), s.locks[l].sema;
    LockIsOwned(s, l);
    LetGoEffect(s, l);
    GivenBackLeaves(s, g, l, q);
    UpLeaves(g, x, q);
    LeavesOther(g, SemaUp(g, x), q, s.current);
    LeavesThen(s, g, SemaUp(g, x), q, Some(s.current));
  }

  lemma LeavesOther(s: State, r: State, q: nat, t: Tid)
    requires Leaves(s, r, q, None) && t < |s.threads|
    ensures t < |r.threads| && r.threads[t].cont == s.threads[t].cont && r.threads[t].held == s.threads[t].held
  {
    assert SameWait(s.threads[t], r.threads[t], q, false);
  }

  lemma AlarmLeaves(s: State, n: int, q: nat)
    requires Wf(s) && q < |s.semas|
    ensures Leaves(s, SetAlarm(s, n), q, None)
  {
  }

  lemma SleepLeaves(s: State, n: int, q: nat)
    requires Mid(s, Steady) && n > 0 && s.threads[s.current].cont == Free
    requires q < |s.semas| && s.semas[q].owner == User
    ensures Leaves(s, Sleep(s, n), q, Some(s.current))
  {
    hide Placed, Leaves, DownOnce;
    var x := s.threads[s.current].sema;
    assert ThreadWf(s.threads[s.current], |s.threads|, |s.semas|, |s.locks|);
    OwnSema(s.threads, s.semas, s.locks, s.sleepers, s.current);
    var a := SetAlarm(s, n);
    AlarmLeaves(s, n, q);
    DownLeaves(a, x, None, q);
    LeavesFirst(s, a, DownOnce(a, x, None), q, Some(s.current));
  }

  lemma SameSema(s: State, r: State, q: nat)
    requires Leaves(s, r, q, None)
    ensures q < |s.semas| && q < |r.semas| && r.semas[q] == s.semas[q]
  {
  }

  lemma SleeperElsewhere(s: State, t: Tid, q: nat)
    requires Mid(s, Steady) && t in s.sleepers && t < |s.threads|
    requires q < |s.semas| && s.semas[q].owner == User
    ensures s.threads[t].sema < |s.semas| && s.threads[t].sema != q
  {
    SleeperSema(s, t);
  }

  lemma DropLeaves(s: State, x: nat, i: nat, q: nat)
    requires Wf(s) && x < |s.semas| && q < |s.semas| && q != x && i < |s.sleepers|
    ensures i < |Ring(Wake(s, x)).sleepers|
    ensures Leaves(s, DropSleeper(Ring(Wake(s, x)), i), q, None)
  {
    UpLeaves(s, x, q);
  }

  lemma SleeperLeaves(s: State, i: nat, q: nat)
    requires Mid(s, Steady) && s.inIntr && i < |s.sleepers|
    requires q < |s.semas| && s.semas[q].owner == User
    ensures s.threads[s.sleepers[i]].sema < |s.semas|
    ensures Leaves(s, DropSleeper(Ring(Wake(s, s.threads[s.sleepers[i]].sema)), i), q, None)
  {
    SleeperElsewhere(s, s.sleepers[i], q);
    DropLeaves(s, s.threads[s.sleepers[i]].sema, i, q);
  }

  lemma {:induction false} WakeSleepersLeave(s: State, i: nat, q: nat)
    requires Mid(s, Steady) && s.inIntr && i <= |s.sleepers|
    requires q < |s.semas| && s.semas[q].owner == User
    ensures Leaves(s, WakeSleepers(s, i), q, None)
    decreases |s.sleepers| - i
  {
    hide Rest, Placed, Leaves;
    if i == |s.sleepers| {
      LeavesSelf(s, q);
    } else if s.ticks >= s.threads[s.sleepers[i]].wakeup {
      var r := DropSleeper(Ring(Wake(s, s.threads[s.sleepers[i]].sema)), i);
      WakeOne(s, i);
      SleeperLeaves(s, i, q);
      SameSema(s, r, q);
      WakeSleepersLeave(r, i, q);
      LeavesThen(s, r, WakeSleepers(r, i), q, None);
    } else {
      WakeSleepersLeave(s, i + 1, q);
    }
  }

  lemma LeaveIntrLeaves(s: State, q: nat)
    requires Wf(s) && q < |s.semas|
    ensures Leaves(s, LeaveIntr(s), q, None)
  {
    var s' := s.(inIntr := false);
    assert Leaves(s, s', q, None);
    YieldLeaves(s', q);
    LeavesThen(s, s', Yield(s'), q, None);
  }

  lemma TimerLeaves(s: State, q: nat)
    requires Inv(s) && q < |s.semas| && s.semas[q].owner == User
    ensures Leaves(s, TimerStep(s), q, None)
  {
    hide Rest, Placed;
    var a := Tick(EnterIntr(s));
    assert Leaves(s, a, q, None);
    TickMid(s);
    WakeSleepersLeave(a, 0, q);
    var w := WakeSleepers(a, 0);
    LeavesThen(s, a, w, q, None);
    assert Leaves(w, ThreadTick(w), q, None);
    LeavesThen(s, w, ThreadTick(w), q, None);
    LeaveIntrLeaves(ThreadTick(w), q);
    LeavesThen(s, ThreadTick(w), TimerStep(s), q, None);
  }

  lemma DeviceLeaves(s: State, x: nat, q: nat)
    requires Wf(s) && x < |s.semas| && q < |s.semas| && q != x
    ensures Leaves(s, DeviceStep(s, x), q, None)
  {
    var e := EnterIntr(s);
    assert Leaves(s, e, q, None);
    UpLeaves(e, x, q);
    var w := Ring(Wake(e, x));
    LeavesThen(s, e, w, q, None);
    LeaveIntrLeaves(w, q);
    LeavesThen(s, w, LeaveIntr(w), q, None);
  }

  function Actor(s: State, step: Step): Option<Tid> {
    if Outside(step) then None else Some(s.current)
  }

  lemma ThreadsLeave(s: State, step: Step, q: nat)
    requires Inv(s) && Enabled(s, step) && OnThreads(step) && q < |s.semas|
    ensures Leaves(s, Next(s, step), q, None)
  {
    hide Rest, Placed, Leaves;
    match step
    case DoCreate(p) => CreateLeaves(s, p, q);
    case DoExit => SwitchLeaves(s, Dying, s.ready, q);
    case DoBlock => SwitchLeaves(s, Blocked, s.ready, q);
    case DoUnblock(t) => UnblockLeaves(s, t, q);
    case DoYield => YieldLeaves(s, q);
    case DoSetPriority(p) => OwnPriorityLeaves(s, p, q);
  }

  lemma LocksLeave(s: State, step: Step, q: nat)
    requires Inv(s) && Enabled(s, step) && OnLocks(step) && q < |s.semas| && s.semas[q].owner == User
    ensures Leaves(s, Next(s, step), q, Some(s.current))
  {
    hide Rest, Placed;
    match step
    case DoLockInit => GrowLeaves(s, 0, 0, q); LeavesMore(s, LockInit(s), q, Some(s.current));
    case DoAcquire(l) => AcquireLeaves(s, l, q);
    case DoTryAcquire(l) => AcquireLeaves(s, l, q);
    case DoRelease(l) => ReleaseLeaves(s, l, q);
  }

  lemma ResumeLeaves(s: State, q: nat)
    requires Inv(s) && s.threads[s.current].cont.Down? && q < |s.semas|
    requires s.threads[s.current].cont.sema != q
    ensures ThreadWf(s.threads[s.current], |s.threads|, |s.semas|, |s.locks|)
    ensures Leaves(s, DownOnce(s, s.threads[s.current].cont.sema, s.threads[s.current].cont.onto), q, Some(s.current))
  {
    assert ThreadWf(s.threads[s.current], |s.threads|, |s.semas|, |s.locks|);
    DownLeaves(s, s.threads[s.current].cont.sema, s.threads[s.current].cont.onto, q);
  }

  /** The step neither names q nor resumes a thread on it. */
  predicate Spares(s: State, step: Step, q: nat)
    requires Wf(s)
  {
    Named(step) != Some(q) &&
    (step.Resume? && s.threads[s.current].cont.Down? ==> s.threads[s.current].cont.sema != q)
  }

  lemma SemasLeave(s: State, step: Step, q: nat)
    requires Inv(s) && Enabled(s, step) && !OnThreads(step) && !OnLocks(step)
    requires q < |s.semas| && s.semas[q].owner == User && Spares(s, step, q)
    ensures Leaves(s, Next(s, step), q, Actor(s, step))
  {
    hide Rest, Placed, Leaves, NoneDue, SemaInit, DownOnce, SemaTryDown, SemaUp, TimerStep, DeviceStep;
    match step
    case DoSemaInit(v) => GrowLeaves(s, 0, v, q); LeavesMore(s, SemaInit(s, v), q, Some(s.current));
    case DoDown(x) => DownLeaves(s, x, None, q);
    case DoTryDown(x) => TryDownLeaves(s, x, q); LeavesMore(s, SemaTryDown(s, x), q, Some(s.current));
    case DoUp(x) => UpLeaves(s, x, q); LeavesMore(s, SemaUp(s, x), q, Some(s.current));
    case DoSleep(n) =>
      if n > 0 {
        SleepLeaves(s, n, q);
      } else {
        LeavesSelf(s, q);
        LeavesMore(s, s, q, Some(s.current));
      }
    case Resume => ResumeLeaves(s, q);
    case TimerIntr => TimerLeaves(s, q);
    case DeviceIntr(x) => DeviceLeaves(s, x, q);
  }

  /** A primitive that neither names q nor resumes on it leaves q, and every thread but its
      caller, where they were in their code. */
  lemma NextLeaves(s: State, step: Step, q: nat)
    requires Inv(s) && Enabled(s, step) && q < |s.semas| && s.semas[q].owner == User && Spares(s, step, q)
    ensures Leaves(s, Next(s, step), q, Actor(s, step))
  {
    hide Rest, Placed, Leaves, Next;
    MidWaits(s);
    if OnThreads(step) {
      ThreadsLeave(s, step, q);
      LeavesMore(s, Next(s, step), q, Some(s.current));
    } else if OnLocks(step) {
      LocksLeave(s, step, q);
    } else {
      SemasLeave(s, step, q);
    }
  }
}
