/** cond_wait compares its caller with the threads that wait already, and panics when one of
    them has not yet gone down on its semaphore. */
module ConditionPanic {
  import opened Common
  import opened ThreadState
  import opened ThreadInvariants
  import opened ThreadSteps
  import opened ThreadRuns
  import opened Condition
  import opened ConditionRuns
  import opened Scenario

  // ---------- when cond_wait panics ----------

  /** The waiter at i has not gone down yet, and the walk of the list gets as far as i. */
  ghost predicate Trips(s: State, ws: seq<nat>, priority: int, i: nat)
    requires Wf(s) && InRange(ws, |s.semas|) && i < |ws|
  {
    && s.semas[ws[i]].waiters == []
    && forall j :: 0 <= j < i ==>
         s.semas[ws[j]].waiters != [] && priority <= PriorityOf(s, s.semas[ws[j]].waiters[0])
  }

  /** cond_wait panics if and only if its walk of the list reaches a waiter that has not gone
      down on its semaphore: the comparison takes the front of an empty list. */
  lemma {:induction false} PanicsWhen(s: State, ws: seq<nat>, q: nat, priority: int)
    requires Wf(s) && InRange(ws, |s.semas|)
    ensures InsertWaiter(s, ws, q, priority).None? <==> exists i :: 0 <= i < |ws| && Trips(s, ws, priority, i)
  {
    if ws != [] {
      PanicsWhen(s, ws[1..], q, priority);
      var front := s.semas[ws[0]].waiters;
      if front == [] {
        assert Trips(s, ws, priority, 0);
      } else if priority <= PriorityOf(s, front[0]) {
        TripsLater(s, ws, priority);
      }
    }
  }

  lemma TripsLater(s: State, ws: seq<nat>, priority: int)
    requires Wf(s) && InRange(ws, |s.semas|) && ws != [] && s.semas[ws[0]].waiters != []
    requires priority <= PriorityOf(s, s.semas[ws[0]].waiters[0])
    ensures (exists i :: 0 <= i < |ws| && Trips(s, ws, priority, i)) <==>
      (exists i :: 0 <= i < |ws[1..]| && Trips(s, ws[1..], priority, i))
  {
    forall i | 0 <= i < |ws| - 1
      ensures Trips(s, ws[1..], priority, i) <==> Trips(s, ws, priority, i + 1)
    {
      if Trips(s, ws, priority, i + 1) {
        forall j | 0 <= j < i
          ensures s.semas[ws[1..][j]].waiters != [] && priority <= PriorityOf(s, s.semas[ws[1..][j]].waiters[0])
        {
          assert ws[1..][j] == ws[j + 1];
        }
      }
    }
    if i :| 0 <= i < |ws| && Trips(s, ws, priority, i) {
      assert i > 0;
      assert Trips(s, ws[1..], priority, i - 1);
    }
  }

  /** The initial thread, in cond_wait, has released the lock and is preempted. */
  function LetGoOf(): State {
    Unlocked([Semaphore(0, [], User, 0, 0, 0)])
  }

  /** The thread of higher priority has the lock. */
  function Taken(): State {
    LetGoOf().(
      threads := [LetGoOf().threads[0], Boot().threads[1],
                  Thread(Running, HIGH_PRIORITY, 0, [], None, 3, 0, Free, {0}, HIGH_PRIORITY)],
      semas := LetGoOf().semas[LOCK_SEMA := Semaphore(0, [], OfLock(0), 1, 1, 2)],
      locks := [Lock(Some(HIGH), LOCK_SEMA)])
  }

  lemma LetGoOfIs(s: State)
    requires Wf(Donated()) && s == SemaInit(Donated(), 0)
    ensures LockRelease(s, 0) == LetGoOf()
  {
    assert s == Holding(HIGH_PRIORITY, [Semaphore(0, [], User, 0, 0, 0)]);
    ReleasedIs(s, HIGH_PRIORITY, [Semaphore(0, [], User, 0, 0, 0)]);
  }

  lemma TakenIs(s: State)
    requires Wf(s) && s == LetGoOf()
    ensures DownOnce(s, LOCK_SEMA, Some(0)) == Taken()
  {
    var r := DownOnce(s, LOCK_SEMA, Some(0));
    assert r.threads[2].held == {} + {0} == {0};
    assert r.threads[0] == Taken().threads[0] && r.threads[1] == Taken().threads[1] && r.threads[2] == Taken().threads[2];
    assert r.threads == Taken().threads && r.semas == Taken().semas && r.locks == Taken().locks;
  }

  lemma DoesReleaseInWait(s: State)
    requires Wf(s) && WaitHeld(s.threads, s.locks) && s == SemaInit(Donated(), 0) && Wf(Donated())
    ensures Enabled(s, DoRelease(0)) && Next(s, DoRelease(0)) == LetGoOf()
  {
    hide Wf, WaitHeld, LockRelease;
    LetGoOfIs(s);
  }

  lemma DoesSemaInit(s: State)
    requires Wf(s) && WaitHeld(s.threads, s.locks) && s == Donated()
    ensures Enabled(s, DoSemaInit(0)) && Next(s, DoSemaInit(0)) == SemaInit(s, 0)
  {
    hide Wf, WaitHeld, SemaInit;
  }

  lemma LastStates()
    requires Inv(Donated())
    ensures Inv(LetGoOf()) && Inv(Taken())
  {
    InvWaits(Donated());
    hide Inv, Donated, LetGoOf, Taken, Enabled, Next, Wf, WaitHeld, SemaInit;
    var s := SemaInit(Donated(), 0);
    DoesSemaInit(Donated());
    StepInv(Donated(), DoSemaInit(0));
    InvWaits(s);
    DoesReleaseInWait(s);
    StepInv(s, DoRelease(0));
    InvWaits(LetGoOf());
    DoesResume(LetGoOf());
    StepInv(LetGoOf(), Resume);
  }

  lemma MonitorIsWf(m: Monitor)
    requires Inv(m.s) && CondsWf(m.conds, |m.s.semas|)
    ensures MonitorWf(m)
  {
    InvWaits(m.s);
  }

  lemma GoesDo(m: Monitor, p: Step, n: Monitor)
    requires MonitorWf(m) && Enabled(m.s, p) && m.waits == map[] && n == m.(s := Next(m.s, p))
    ensures CondGoes(m, Do(p), n)
  {
  }

  lemma DoesResume(s: State)
    requires Wf(s) && WaitHeld(s.threads, s.locks) && s == LetGoOf()
    ensures Enabled(s, Resume) && Next(s, Resume) == Taken()
  {
    hide Wf, WaitHeld;
    TakenIs(s);
  }

  lemma FirstSteps(ms: seq<Monitor>, steps: seq<CondStep>)
    requires ms == PanicRun() && steps == PanicSteps()
    requires Inv(Boot()) && Inv(LockInit(Boot()))
    ensures CondGoes(ms[0], steps[0], ms[1]) && CondGoes(ms[2], steps[2], ms[3])
  {
    hide Inv, CondGoes, Donated, Preempted, Locked, LockInit, Boot, Enabled, Next;
    MonitorIsWf(ms[0]);
    MonitorIsWf(ms[2]);
    DoesLockInit(ms[0].s);
    GoesDo(ms[0], DoLockInit, ms[1]);
    DoesAcquire(ms[2].s);
    GoesDo(ms[2], DoAcquire(0), ms[3]);
  }

  lemma MiddleSteps(ms: seq<Monitor>, steps: seq<CondStep>)
    requires ms == PanicRun() && steps == PanicSteps()
    requires Inv(Locked()) && Inv(Preempted())
    ensures CondGoes(ms[3], steps[3], ms[4]) && CondGoes(ms[4], steps[4], ms[5])
  {
    hide Inv, CondGoes, Donated, Preempted, Locked, LockInit, Boot, Enabled, Next;
    MonitorIsWf(ms[3]);
    MonitorIsWf(ms[4]);
    DoesCreate(ms[3].s);
    GoesDo(ms[3], DoCreate(HIGH_PRIORITY), ms[4]);
    DoesDonate(ms[4].s);
    GoesDo(ms[4], DoAcquire(0), ms[5]);
  }

  lemma NewCondGoes(b: State, m: Monitor)
    requires Wf(b) && b == Boot() && Inv(m.s) && m == Monitor(LockInit(b), [], map[])
    ensures CondGoes(m, NewCond, m.(conds := [[]]))
  {
    hide Inv, MonitorWf;
  }

  lemma BegunIs(m: Monitor, n: Monitor)
    requires MonitorWf(m) && m == Monitor(Donated(), [[]], map[])
    requires n == Monitor(LetGoOf(), [[4]], map[MAIN := Wait(4, 0, 0, false)])
    requires LockRelease(SemaInit(m.s, 0), 0) == LetGoOf()
    ensures AtLarge(m) && Holds(m, 0) && Begun(m, 0, 0) == Some(n)
  {
    hide Wf, WaitHeld, LockRelease, SemaInit, LetGoOf;
    assert |m.s.semas| == 4 && m.s.current == MAIN && m.conds[0] == [];
    assert m.conds[0 := [4]] == n.conds && m.waits[MAIN := Wait(4, 0, 0, false)] == n.waits;
  }

  lemma MonitorParts(m: Monitor)
    requires MonitorWf(m)
    ensures Wf(m.s)
  {
  }

  lemma BeginDoes(m: Monitor, c: nat, l: nat, n: Monitor)
    requires MonitorWf(m) && AtLarge(m) && Holds(m, l) && c < |m.conds| && Begun(m, c, l) == Some(n)
    ensures CondGoes(m, BeginWait(c, l), n)
  {
    hide AtLarge, Holds, Begun, MonitorWf;
  }

  lemma BegunReleases(m: Monitor)
    requires MonitorWf(m) && m.s == Donated()
    ensures LockRelease(SemaInit(m.s, 0), 0) == LetGoOf()
  {
    MonitorParts(m);
    hide Wf, WaitHeld, Donated, LetGoOf, MonitorWf, SemaInit, LockRelease;
    LetGoOfIs(SemaInit(m.s, 0));
  }

  lemma BeginGoes(m: Monitor, n: Monitor)
    requires MonitorWf(m) && m == Monitor(Donated(), [[]], map[])
    requires n == Monitor(LetGoOf(), [[4]], map[MAIN := Wait(4, 0, 0, false)])
    ensures CondGoes(m, BeginWait(0, 0), n)
  {
    MonitorParts(m);
    hide Wf, WaitHeld, Donated, LetGoOf, MonitorWf, AtLarge, Holds, Begun, CondGoes, SemaInit, LockRelease;
    BegunReleases(m);
    BegunIs(m, n);
    BeginDoes(m, 0, 0, n);
  }

  lemma ResumeGoes(m: Monitor, n: Monitor)
    requires MonitorWf(m) && m == Monitor(LetGoOf(), [[4]], map[MAIN := Wait(4, 0, 0, false)])
    requires n == m.(s := Taken())
    ensures CondGoes(m, Do(Resume), n)
  {
    hide Wf, WaitHeld;
    DoesResume(m.s);
  }

  /** The second call of cond_wait finds that the first has not gone down yet. */
  lemma Panics(m: Monitor)
    requires MonitorWf(m) && m == Monitor(Taken(), [[4]], map[MAIN := Wait(4, 0, 0, false)])
    ensures AtLarge(m) && Holds(m, 0) && Begun(m, 0, 0) == None
  {
    hide Wf, WaitHeld;
    assert m.s.semas[4].waiters == [];
  }

  lemma LastSteps(ms: seq<Monitor>, steps: seq<CondStep>)
    requires ms == PanicRun() && steps == PanicSteps()
    requires Inv(Donated()) && Inv(LetGoOf()) && Inv(Taken())
    ensures CondGoes(ms[5], steps[5], ms[6]) && CondGoes(ms[6], steps[6], ms[7])
    ensures MonitorWf(ms[7]) && AtLarge(ms[7]) && Holds(ms[7], 0) && Begun(ms[7], 0, 0) == None
  {
    FiveSemas();
    hide Inv, CondGoes, Donated, LetGoOf, Taken, MonitorWf;
    MonitorIsWf(ms[5]);
    MonitorIsWf(ms[6]);
    MonitorIsWf(ms[7]);
    BeginGoes(ms[5], ms[6]);
    ResumeGoes(ms[6], ms[7]);
    Panics(ms[7]);
  }

  lemma FiveSemas()
    ensures |LetGoOf().semas| == 5 && |Taken().semas| == 5
  {
  }

  function PanicRun(): seq<Monitor> {
    [Start(),
     Monitor(LockInit(Boot()), [], map[]),
     Monitor(LockInit(Boot()), [[]], map[]),
     Monitor(Locked(), [[]], map[]),
     Monitor(Preempted(), [[]], map[]),
     Monitor(Donated(), [[]], map[]),
     Monitor(LetGoOf(), [[4]], map[MAIN := Wait(4, 0, 0, false)]),
     Monitor(Taken(), [[4]], map[MAIN := Wait(4, 0, 0, false)])]
  }

  function PanicSteps(): seq<CondStep> {
    [Do(DoLockInit), NewCond, Do(DoAcquire(0)), Do(DoCreate(HIGH_PRIORITY)), Do(DoAcquire(0)), BeginWait(0, 0), Do(Resume)]
  }

  /** A run from boot in which two threads use one condition variable as its documentation
      asks, and the second call of cond_wait panics. */
  lemma CondWaitCanPanic()
    ensures IsCondRun(PanicRun(), PanicSteps()) && PanicRun()[0] == Start()
    ensures var m := PanicRun()[7];
      MonitorWf(m) && AtLarge(m) && Holds(m, 0) && Begun(m, 0, 0) == None
  {
    var ms, steps := PanicRun(), PanicSteps();
    hide Inv, CondGoes, Donated, Preempted, LetGoOf, Taken, Locked, LockInit, MonitorWf, AtLarge, Holds, Begun;
    FirstStates();
    MiddleStates();
    LastStates();
    FirstSteps(ms, steps);
    NewCondGoes(Boot(), ms[1]);
    MiddleSteps(ms, steps);
    LastSteps(ms, steps);
    forall i | 0 <= i < |steps|
      ensures CondGoesAt(ms, steps, i)
    {
      assert i == 0 || i == 1 || i == 2 || i == 3 || i == 4 || i == 5 || i == 6;
    }
  }
}
