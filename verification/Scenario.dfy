/** A short run from boot, step by step: the initial thread takes a lock, a thread of higher
    priority preempts it and waits for the lock, and the lock is released. */
module Scenario {
  import opened Common
  import opened ThreadState
  import opened ThreadInvariants
  import opened ThreadSteps
  import opened ThreadRuns

  const MAIN := 0
  const HIGH := 2
  const HIGH_PRIORITY := 40
  const LOCK_SEMA := 2

  /** The initial thread has the lock. */
  function Locked(): State {
    Boot().(
      threads := [Thread(Running, MAIN_PRIORITY, 0, [], None, 0, 0, Free, {0}, MAIN_PRIORITY), Boot().threads[1]],
      semas := Boot().semas + [Semaphore(0, [], OfLock(0), 1, 0, 1)],
      locks := [Lock(Some(MAIN), LOCK_SEMA)])
  }

  /** A thread of higher priority was created, and has preempted it. */
  function Preempted(): State {
    Locked().(
      threads := [Locked().threads[0].(status := Ready), Locked().threads[1],
                  Thread(Running, HIGH_PRIORITY, 0, [], None, 3, 0, Free, {}, HIGH_PRIORITY)],
      semas := Locked().semas + [Semaphore(0, [], OfThread(HIGH), 0, 0, 0)],
      ready := [MAIN],
      current := HIGH)
  }

  /** That thread waits for the lock, and donates its priority. */
  function Donated(): State {
    Preempted().(
      threads := [Thread(Running, HIGH_PRIORITY, MAIN_PRIORITY, [HIGH], None, 0, 0, Free, {0}, MAIN_PRIORITY),
                  Boot().threads[1],
                  Thread(Blocked, HIGH_PRIORITY, 0, [], Some(0), 3, 0, Down(LOCK_SEMA, Some(0)), {}, HIGH_PRIORITY)],
      semas := Preempted().semas[LOCK_SEMA := Semaphore(0, [HIGH], OfLock(0), 1, 0, 1)],
      ready := [],
      current := MAIN)
  }

  /** The initial thread has released the lock and is preempted; `extra` are further
      semaphores. */
  function Unlocked(extra: seq<Semaphore>): State {
    Donated().(
      threads := [Thread(Ready, MAIN_PRIORITY, MAIN_PRIORITY, [], None, 0, 0, Free, {}, MAIN_PRIORITY),
                  Boot().threads[1],
                  Thread(Running, HIGH_PRIORITY, 0, [], None, 3, 0, Down(LOCK_SEMA, Some(0)), {}, HIGH_PRIORITY)],
      semas := Donated().semas[LOCK_SEMA := Semaphore(1, [], OfLock(0), 1, 1, 1)] + extra,
      locks := [Lock(None, LOCK_SEMA)],
      ready := [MAIN],
      current := HIGH)
  }

  /** The holder runs with priority p, whatever that is, and its donor waits. */
  function Holding(p: int, extra: seq<Semaphore>): State {
    Donated().(
      threads := [Thread(Running, p, MAIN_PRIORITY, [HIGH], None, 0, 0, Free, {0}, MAIN_PRIORITY),
                  Donated().threads[1], Donated().threads[2]],
      semas := Donated().semas + extra)
  }

  lemma LockedIs(s: State)
    requires Wf(s) && WaitHeld(s.threads, s.locks) && s == LockInit(Boot())
    ensures LockAcquire(s, 0) == Locked()
  {
    assert s.locks[0] == Lock(None, LOCK_SEMA) && s.semas[LOCK_SEMA] == Semaphore(1, [], OfLock(0), 1, 0, 0);
    assert Proceed(s, LOCK_SEMA, Some(0)).threads[0].held == {} + {0} == {0};
    assert Proceed(s, LOCK_SEMA, Some(0)) == Locked();
  }

  lemma PreemptedIs()
    requires Wf(Locked())
    ensures Create(Locked(), HIGH_PRIORITY) == Preempted()
  {
    var m := NewThread(Locked(), HIGH_PRIORITY);
    var u := Unblock(m, HIGH);
    assert u.ready == [HIGH];
    assert InsertOrdered([HIGH], u.threads, MAIN) == [HIGH] + InsertOrdered([], u.threads, MAIN);
    var y := Yield(u);
    assert y.threads == Preempted().threads && y.semas == Preempted().semas && y.ready == Preempted().ready;
  }

  lemma DonatedIs(s: State)
    requires Wf(s) && WaitHeld(s.threads, s.locks) && s == Preempted()
    ensures LockAcquire(s, 0) == Donated()
  {
    var r := RecordDonation(s, 0, MAIN);
    var d := DonateFrom(r, MAIN, HIGH_PRIORITY, 0);
    OneStays(MAIN, d.threads);
    var n := Donation(s, 0);
    assert n.threads[0].donors == [HIGH] + [] == [HIGH];
    assert n.ready == [MAIN] && n.threads[0] == Donated().threads[0].(status := Ready);
    DonatedBlocks(n);
  }

  lemma DonatedBlocks(n: State)
    requires Wf(n) && |n.threads| == 3 && n.threads[0] == Donated().threads[0].(status := Ready)
    requires n.threads[1] == Donated().threads[1]
    requires n.threads[2] == Preempted().threads[2].(waitLock := Some(0))
    requires n == Preempted().(threads := n.threads)
    ensures LOCK_SEMA < |n.semas| && DownOnce(n, LOCK_SEMA, Some(0)) == Donated()
  {
    var j := JoinWaiters(n, LOCK_SEMA, Some(0));
    assert InsertOrdered([], n.threads, HIGH) == [HIGH];
    var x := Schedule(j);
    assert x.ready == [];
    assert x.threads[0] == Donated().threads[0] && x.threads[1] == Donated().threads[1] && x.threads[2] == Donated().threads[2];
    assert x.semas == Donated().semas;
    assert x.threads == Donated().threads;
  }

  lemma OneStays(t: Tid, ts: seq<Thread>)
    requires t < |ts|
    ensures StableSort([t], ts) == [t] && StableSort([], ts) == []
  {
    assert [t][..0] == [];
  }

  lemma BackIs(ts: seq<Thread>, p: int)
    requires |ts| == 3 && ts[0] == Holding(p, []).threads[0].(held := {}) && ts[1] == Donated().threads[1]
    requires ts[2] == Donated().threads[2]
    ensures InRange(ts[0].donors, |ts|)
    ensures BackThreads(ts, MAIN, 0) == Unlocked([]).threads[0 := Unlocked([]).threads[0].(status := Running)]
                                                            [2 := Unlocked([]).threads[2].(status := Blocked)]
  {
    var cleared := ts[HIGH := ts[HIGH].(waitLock := None)];
    assert [HIGH][1..] == [];
    assert OtherDonors([HIGH], ts, 0) == [] + OtherDonors([], ts, 0);
    assert ClearWaits(ts, [HIGH], 0) == ClearWaits(cleared, [], 0) == cleared;
  }

  lemma GivenBackIs(s: State, g: State, p: int, extra: seq<Semaphore>)
    requires Wf(s) && s == Holding(p, extra) && g == LetGo(s, 0)
    ensures g == s.(threads := g.threads, locks := [Lock(None, LOCK_SEMA)])
    ensures |g.threads| == 3 && g.threads[0] == Unlocked([]).threads[0].(status := Running)
    ensures g.threads[1] == Unlocked([]).threads[1] && g.threads[2] == Unlocked([]).threads[2].(status := Blocked)
  {
    hide Wf, BackThreads, ThreadWf, LockWf, InRange;
    var th := s.threads[MAIN];
    assert th.held - {0} == {} && th.donors == [HIGH] && s.semas[LOCK_SEMA].waiters == [HIGH];
    assert s.locks[0 := s.locks[0].(holder := None)] == [Lock(None, LOCK_SEMA)];
    var ts := s.threads[MAIN := th.(held := {})];
    BackIs(ts, p);
    assert StableSort([], BackThreads(ts, MAIN, 0)) == [];
    assert g == s.(locks := [Lock(None, LOCK_SEMA)], threads := BackThreads(ts, MAIN, 0), ready := []);
  }

  lemma WokenIs(g: State, extra: seq<Semaphore>)
    requires Wf(g) && |g.threads| == 3 && g.threads[0] == Unlocked([]).threads[0].(status := Running)
    requires g.threads[1] == Unlocked([]).threads[1] && g.threads[2] == Unlocked([]).threads[2].(status := Blocked)
    requires g == Donated().(threads := g.threads, locks := [Lock(None, LOCK_SEMA)], semas := Donated().semas + extra)
    ensures LOCK_SEMA < |g.semas| && SemaUp(g, LOCK_SEMA) == Unlocked(extra)
  {
    OneStays(HIGH, g.threads);
    var w := Wake(g, LOCK_SEMA);
    assert InsertOrdered([], g.threads, HIGH) == [HIGH];
    assert w.ready == [HIGH] && w.semas == Unlocked(extra).semas;
    assert InsertOrdered([HIGH], w.threads, MAIN) == [HIGH] + InsertOrdered([], w.threads, MAIN);
    var y, r := Yield(w), Unlocked(extra);
    assert y.threads[0] == r.threads[0] && y.threads[1] == r.threads[1] && y.threads[2] == r.threads[2];
    assert y.threads == r.threads && y.ready == r.ready;
  }

  /** Whatever priority the holder has, the release gives it back the one it started with. */
  lemma ReleasedIs(s: State, p: int, extra: seq<Semaphore>)
    requires Wf(s) && s == Holding(p, extra)
    ensures LockRelease(s, 0) == Unlocked(extra)
  {
    var g := LetGo(s, 0);
    GivenBackIs(s, g, p, extra);
    WokenIs(g, extra);
  }

  lemma InvWaits(s: State)
    requires Inv(s)
    ensures Wf(s) && WaitHeld(s.threads, s.locks)
  {
  }

  lemma DoesLockInit(s: State)
    requires Wf(s) && WaitHeld(s.threads, s.locks) && s == Boot()
    ensures Enabled(s, DoLockInit) && Next(s, DoLockInit) == LockInit(Boot())
  {
  }

  lemma DoesAcquire(s: State)
    requires Wf(s) && WaitHeld(s.threads, s.locks) && s == LockInit(Boot())
    ensures Enabled(s, DoAcquire(0)) && Next(s, DoAcquire(0)) == Locked()
  {
    hide Wf, WaitHeld;
    LockedIs(s);
  }

  lemma DoesCreate(s: State)
    requires Wf(s) && WaitHeld(s.threads, s.locks) && s == Locked()
    ensures Enabled(s, DoCreate(HIGH_PRIORITY)) && Next(s, DoCreate(HIGH_PRIORITY)) == Preempted()
  {
    hide Wf, WaitHeld;
    PreemptedIs();
  }

  lemma DoesDonate(s: State)
    requires Wf(s) && WaitHeld(s.threads, s.locks) && s == Preempted()
    ensures Enabled(s, DoAcquire(0)) && Next(s, DoAcquire(0)) == Donated()
  {
    hide Wf, WaitHeld, LockAcquire, Donated;
    DonatedIs(s);
  }

  lemma FirstStates()
    ensures Inv(Boot()) && Inv(LockInit(Boot())) && Inv(Locked())
  {
    BootKeeps();
    hide Inv, Locked, LockInit, Boot, Enabled, Next, Wf, WaitHeld;
    InvWaits(Boot());
    DoesLockInit(Boot());
    StepInv(Boot(), DoLockInit);
    InvWaits(LockInit(Boot()));
    DoesAcquire(LockInit(Boot()));
    StepInv(LockInit(Boot()), DoAcquire(0));
  }

  lemma MiddleStates()
    requires Inv(Locked())
    ensures Inv(Preempted()) && Inv(Donated())
  {
    hide Inv, Locked, Preempted, Donated, Enabled, Next, Wf, WaitHeld;
    InvWaits(Locked());
    DoesCreate(Locked());
    StepInv(Locked(), DoCreate(HIGH_PRIORITY));
    InvWaits(Preempted());
    DoesDonate(Preempted());
    StepInv(Preempted(), DoAcquire(0));
  }
}
