/** Two runs from boot: thread_set_priority above a donated priority is forgotten, and donation
    lowers a holder. */
module Priorities {
  import opened Common
  import opened ThreadState
  import opened ThreadInvariants
  import opened ThreadSteps
  import opened ThreadRuns
  import opened Scenario

  const NEW_PRIORITY := 50

  // ---------- a priority is forgotten ----------

  /** The holder of the lock raises itself above what was donated. */
  function Raised(): State {
    Holding(NEW_PRIORITY, [])
  }

  lemma RaisedIs(s: State)
    requires Wf(s) && s == Donated()
    ensures SetOwnPriority(s, NEW_PRIORITY) == Raised()
  {
    var m := SetThread(s, MAIN, WithPriority(s.threads[MAIN], NEW_PRIORITY));
    assert m.threads == Raised().threads && m.semas == Raised().semas;
  }

  lemma DoesRaise(s: State)
    requires Wf(s) && WaitHeld(s.threads, s.locks) && s == Donated()
    ensures Enabled(s, DoSetPriority(NEW_PRIORITY)) && Next(s, DoSetPriority(NEW_PRIORITY)) == Raised()
  {
    hide Wf, WaitHeld;
    RaisedIs(s);
  }

  lemma DoesRelease(s: State)
    requires Wf(s) && WaitHeld(s.threads, s.locks) && s == Raised()
    ensures Enabled(s, DoRelease(0)) && Next(s, DoRelease(0)) == Unlocked([])
  {
    hide Wf, WaitHeld, LockRelease, Unlocked;
    ReleasedIs(s, NEW_PRIORITY, []);
    NextReleases(s, 0);
  }

  lemma NextReleases(s: State, l: nat)
    requires Wf(s) && WaitHeld(s.threads, s.locks) && Enabled(s, DoRelease(l))
    ensures Next(s, DoRelease(l)) == LockRelease(s, l)
  {
    hide LockRelease;
  }

  function ForgettingRun(): seq<State> {
    [Boot(), LockInit(Boot()), Locked(), Preempted(), Donated(), Raised(), Unlocked([])]
  }

  function ForgettingSteps(): seq<Step> {
    [DoLockInit, DoAcquire(0), DoCreate(HIGH_PRIORITY), DoAcquire(0), DoSetPriority(NEW_PRIORITY), DoRelease(0)]
  }

  lemma GoesIf(s: State, step: Step, r: State)
    requires Wf(s) && WaitHeld(s.threads, s.locks) && Enabled(s, step) && r == Next(s, step)
    ensures Goes(s, step, r)
  {
  }

  lemma FirstGoes()
    requires Inv(Boot()) && Inv(LockInit(Boot())) && Inv(Locked())
    ensures Goes(Boot(), DoLockInit, LockInit(Boot())) && Goes(LockInit(Boot()), DoAcquire(0), Locked())
    ensures Goes(Locked(), DoCreate(HIGH_PRIORITY), Preempted())
  {
    hide Inv, Goes, Locked, LockInit, Boot, Preempted, Enabled, Next;
    InvWaits(Boot());
    InvWaits(LockInit(Boot()));
    InvWaits(Locked());
    DoesLockInit(Boot());
    DoesAcquire(LockInit(Boot()));
    DoesCreate(Locked());
    hide Wf, WaitHeld;
    GoesIf(Boot(), DoLockInit, LockInit(Boot()));
    GoesIf(LockInit(Boot()), DoAcquire(0), Locked());
    GoesIf(Locked(), DoCreate(HIGH_PRIORITY), Preempted());
  }

  lemma LaterGoes()
    requires Inv(Preempted()) && Inv(Donated())
    ensures Goes(Preempted(), DoAcquire(0), Donated()) && Goes(Donated(), DoSetPriority(NEW_PRIORITY), Raised())
    ensures Goes(Raised(), DoRelease(0), Unlocked([]))
  {
    hide Inv, Goes, Preempted, Donated, Raised, Unlocked, Enabled, Next;
    InvWaits(Preempted());
    InvWaits(Donated());
    DoesDonate(Preempted());
    DoesRaise(Donated());
    GoesIf(Preempted(), DoAcquire(0), Donated());
    GoesIf(Donated(), DoSetPriority(NEW_PRIORITY), Raised());
    GoesKeeps(Donated(), DoSetPriority(NEW_PRIORITY), Raised());
    InvWaits(Raised());
    DoesRelease(Raised());
    GoesIf(Raised(), DoRelease(0), Unlocked([]));
  }

  /** The initial thread sets its priority to 50 while 40 is donated to it; once it has released
      the lock and nobody donates to it, it has the 31 that it had before. */
  lemma PriorityIsForgotten()
    ensures IsRun(ForgettingRun(), ForgettingSteps()) && ForgettingRun()[0] == Boot()
    ensures ForgettingSteps()[4] == DoSetPriority(NEW_PRIORITY) && ForgettingRun()[4].current == MAIN
    ensures |ForgettingRun()[6].threads| == 3
    ensures var th := ForgettingRun()[6].threads[MAIN]; th.donors == [] && th.priority == MAIN_PRIORITY
  {
    var states, steps := ForgettingRun(), ForgettingSteps();
    hide Inv, Goes, LockInit;
    FirstStates();
    MiddleStates();
    FirstGoes();
    LaterGoes();
    forall i | 0 <= i < |steps|
      ensures GoesAt(states, steps, i)
    {
      assert i == 0 || i == 1 || i == 2 || i == 3 || i == 4 || i == 5;
    }
  }

  // ---------- donation lowers ----------

  /** The holder of the lock, still without donors, raises itself. */
  function High(): State {
    Locked().(threads := Locked().threads[MAIN := Locked().threads[MAIN].(priority := NEW_PRIORITY, base := NEW_PRIORITY)])
  }

  /** A thread of lower priority is created, and stays ready. */
  function Joined(): State {
    High().(
      threads := High().threads + [Thread(Ready, HIGH_PRIORITY, 0, [], None, 3, 0, Free, {}, HIGH_PRIORITY)],
      semas := High().semas + [Semaphore(0, [], OfThread(HIGH), 0, 0, 0)],
      ready := [HIGH])
  }

  /** The holder blocks, and the other thread runs. */
  function Parked(): State {
    Joined().(
      threads := [Joined().threads[MAIN].(status := Blocked), Joined().threads[1], Joined().threads[HIGH].(status := Running)],
      ready := [],
      current := HIGH)
  }

  lemma DoesRaiseFreely(s: State)
    requires Wf(s) && WaitHeld(s.threads, s.locks) && s == Locked()
    ensures Enabled(s, DoSetPriority(NEW_PRIORITY)) && Next(s, DoSetPriority(NEW_PRIORITY)) == High()
  {
    hide Wf, WaitHeld;
  }

  lemma DoesJoin(s: State)
    requires Wf(s) && WaitHeld(s.threads, s.locks) && s == High()
    ensures Enabled(s, DoCreate(HIGH_PRIORITY)) && Next(s, DoCreate(HIGH_PRIORITY)) == Joined()
  {
    hide Wf, WaitHeld;
    var m := NewThread(s, HIGH_PRIORITY);
    assert InsertOrdered([], m.threads, HIGH) == [HIGH];
    var u := Unblock(m, HIGH);
    assert u.threads == Joined().threads && u == Joined();
  }

  lemma DoesPark(s: State)
    requires Wf(s) && WaitHeld(s.threads, s.locks) && s == Joined()
    ensures Enabled(s, DoBlock) && Next(s, DoBlock) == Parked()
  {
    hide Wf, WaitHeld;
    assert Block(s).threads == Parked().threads && Block(s).ready == [];
  }

  function LoweringRun(): seq<State> {
    [Boot(), LockInit(Boot()), Locked(), High(), Joined(), Parked()]
  }

  function LoweringSteps(): seq<Step> {
    [DoLockInit, DoAcquire(0), DoSetPriority(NEW_PRIORITY), DoCreate(HIGH_PRIORITY), DoBlock]
  }

  lemma ParkedGoes()
    requires Inv(Locked())
    ensures Goes(Locked(), DoSetPriority(NEW_PRIORITY), High()) && Goes(High(), DoCreate(HIGH_PRIORITY), Joined())
    ensures Goes(Joined(), DoBlock, Parked()) && Inv(Parked())
  {
    hide Inv, Goes, Locked, High, Joined, Parked, Enabled, Next;
    InvWaits(Locked());
    DoesRaiseFreely(Locked());
    GoesIf(Locked(), DoSetPriority(NEW_PRIORITY), High());
    GoesKeeps(Locked(), DoSetPriority(NEW_PRIORITY), High());
    InvWaits(High());
    DoesJoin(High());
    GoesIf(High(), DoCreate(HIGH_PRIORITY), Joined());
    GoesKeeps(High(), DoCreate(HIGH_PRIORITY), Joined());
    InvWaits(Joined());
    DoesPark(Joined());
    GoesIf(Joined(), DoBlock, Parked());
    GoesKeeps(Joined(), DoBlock, Parked());
  }

  /** A reachable state in which the running thread, of priority 40, wants a lock whose holder
      has 50: donation leaves the holder with 40. */
  lemma DonationLowers()
    ensures IsRun(LoweringRun(), LoweringSteps()) && LoweringRun()[0] == Boot() && LoweringRun()[5] == Parked()
    ensures DonationPre(Parked(), 0) && Enabled(Parked(), DoAcquire(0))
    ensures |Donation(Parked(), 0).threads| == 3 && PriorityOf(Parked(), MAIN) == NEW_PRIORITY
    ensures PriorityOf(Donation(Parked(), 0), MAIN) == HIGH_PRIORITY
  {
    hide Inv, Goes, LockInit, Enabled, DonationPre, Donation, Locked, High, Joined, Parked, Boot;
    var states, steps := LoweringRun(), LoweringSteps();
    FirstStates();
    ParkedGoes();
    FirstGoes();
    LowersHolder(Parked());
    forall i | 0 <= i < |steps|
      ensures GoesAt(states, steps, i)
    {
      assert i == 0 || i == 1 || i == 2 || i == 3 || i == 4;
    }
  }

  lemma LowersHolder(s: State)
    requires Inv(s) && s == Parked()
    ensures DonationPre(s, 0) && Enabled(s, DoAcquire(0))
    ensures |Donation(s, 0).threads| == 3 && PriorityOf(s, MAIN) == NEW_PRIORITY
    ensures PriorityOf(Donation(s, 0), MAIN) == HIGH_PRIORITY
  {
    hide Rest, Placed, Sorted;
    DonationRaises(s, 0);
  }
}
