/** What every step of the scheduler keeps. */
module ThreadInvariants {
  import opened Common
  import opened ThreadState

  // ---------- the invariant ----------

  ghost predicate Waits(th: Thread, q: nat) {
    th.status == Blocked && th.cont.Down? && th.cont.sema == q
  }

  ghost predicate Asleep(th: Thread) {
    th.status == Blocked && th.cont == Down(th.sema, None)
  }

  ghost predicate Donates(th: Thread, locks: seq<Lock>, h: Tid) {
    th.waitLock.Some? && th.waitLock.value < |locks| && locks[th.waitLock.value].holder == Some(h)
  }

  ghost predicate OneRuns(ts: seq<Thread>, current: Tid, running: bool) {
    forall t :: 0 <= t < |ts| ==> (ts[t].status == Running <==> running && t == current)
  }

  ghost predicate ReadyPlaced(ts: seq<Thread>, ready: seq<Tid>, idle: Tid) {
    forall t :: 0 <= t < |ts| ==> multiset(ready)[t] == One(ts[t].status == Ready && t != idle)
  }

  ghost predicate WaitPlaced(ts: seq<Thread>, semas: seq<Semaphore>) {
    forall q, t {:trigger multiset(semas[q].waiters)[t]} {:trigger Waits(ts[t], q)} ::
      0 <= q < |semas| && 0 <= t < |ts| ==>
      multiset(semas[q].waiters)[t] == One(Waits(ts[t], q))
  }

  ghost predicate IdleOk(idle: Thread) {
    idle.cont == Free && idle.status != Dying
  }

  /** Each thread is in exactly the one list that its status dictates, and there once.
      `running` is false in the middle of a switch, when no thread runs. */
  ghost predicate Placed(s: State, running: bool)
    requires Wf(s)
  {
    && OneRuns(s.threads, s.current, running)
    && ReadyPlaced(s.threads, s.ready, s.idle)
    && WaitPlaced(s.threads, s.semas)
    && IdleOk(s.threads[s.idle])
  }

  /** Who owns a semaphore decides who waits on it, and on behalf of what. */
  ghost predicate Owned(ts: seq<Thread>, semas: seq<Semaphore>, locks: seq<Lock>) {
    && (forall l, q :: 0 <= l < |locks| && 0 <= q < |semas| ==>
      (locks[l].sema == q <==> semas[q].owner == OfLock(l)))
    && (forall t, q :: 0 <= t < |ts| && 0 <= q < |semas| ==>
      (ts[t].sema == q <==> semas[q].owner == OfThread(t)))
    && (forall q :: 0 <= q < |semas| ==>
      match semas[q].owner
      case User => true
      case OfLock(l) => l < |locks|
      case OfThread(t) => t < |ts|)
    && (forall t, q :: 0 <= t < |ts| && 0 <= q < |semas| ==> Rightly(ts[t], semas[q], q))
  }

  /** A thread waits on the semaphore of a lock only for that lock, and on the semaphore of
      a thread only if it is its own. */
  ghost predicate Rightly(th: Thread, sema: Semaphore, q: nat) {
    th.cont.Down? && th.cont.sema == q ==>
      match sema.owner
      case User => th.cont.onto == None
      case OfLock(l) => th.cont.onto == Some(l)
      case OfThread(t) => th.cont.onto == None && th.sema == q
  }

  /** Semaphores conserve their value. */
  ghost predicate Conserved(semas: seq<Semaphore>) {
    forall q :: 0 <= q < |semas| ==> semas[q].value == semas[q].initial + semas[q].ups - semas[q].downs
  }

  /** A lock is free or between acquire and release in exactly one thread, its holder;
      the lock `freeing` is past its release but not yet up. */
  ghost predicate Exclusive(ts: seq<Thread>, semas: seq<Semaphore>, locks: seq<Lock>, freeing: Option<nat>) {
    && (forall l, q {:trigger locks[l], semas[q]} :: 0 <= l < |locks| && 0 <= q < |semas| && locks[l].sema == q ==>
      semas[q].value + One(locks[l].holder.Some?) == One(Some(l) != freeing))
    && (forall l, t {:trigger locks[l], ts[t]} {:trigger l in ts[t].held} :: 0 <= l < |locks| && 0 <= t < |ts| ==> (l in ts[t].held <==> locks[l].holder == Some(t)))
    && (forall l, t :: 0 <= t < |ts| && l in ts[t].held ==> l < |locks|)
  }

  /** The sleep list holds exactly the threads that block in timer_sleep, and `due`, which
      is being woken; the semaphore of a thread is up only between wake-up and return. */
  ghost predicate SleepOk(ts: seq<Thread>, semas: seq<Semaphore>, sleepers: seq<Tid>, due: Option<Tid>) {
    && (forall t {:trigger multiset(sleepers)[t]} {:trigger ts[t]} :: 0 <= t < |ts| ==>
      multiset(sleepers)[t] == One(Asleep(ts[t]) || due == Some(t)))
    && (forall t, q :: 0 <= t < |ts| && 0 <= q < |semas| && ts[t].sema == q ==>
      semas[q].value == One(ts[t].cont == Down(q, None) && ts[t].status != Blocked))
  }

  ghost predicate NoneDue(ts: seq<Thread>, sleepers: seq<Tid>, ticks: int)
    requires InRange(sleepers, |ts|)
  {
    forall i {:trigger ts[sleepers[i]]} :: 0 <= i < |sleepers| ==> ticks < ts[sleepers[i]].wakeup
  }

  /** Donor lists hold exactly the threads whose wait_lock the thread holds, each once; a
      thread without donors has its base priority, one with donors has it saved. */
  ghost predicate Books(ts: seq<Thread>, locks: seq<Lock>) {
    && (forall h, t {:trigger multiset(ts[h].donors)[t]} {:trigger Donates(ts[t], locks, h)} ::
      0 <= h < |ts| && 0 <= t < |ts| ==>
      multiset(ts[h].donors)[t] == One(Donates(ts[t], locks, h)))
    && (forall h :: 0 <= h < |ts| ==>
      ts[h].base == if ts[h].donors == [] then ts[h].priority else ts[h].oriPriority)
  }

  /** A thread with a wait_lock is blocked on the semaphore of that lock; `but` exempts the
      running thread between donation and sema_down. */
  ghost predicate WaitBlocked(ts: seq<Thread>, locks: seq<Lock>, but: Option<Tid>) {
    forall t :: 0 <= t < |ts| && ts[t].waitLock.Some? && ts[t].waitLock.value < |locks| ==>
      Some(t) == but || (ts[t].status == Blocked && ts[t].cont == Down(locks[ts[t].waitLock.value].sema, ts[t].waitLock))
  }

  /** How far a primitive has got: whether a thread runs, the thread between donation and
      sema_down, the lock between release and up, the sleeper between up and removal. */
  datatype Phase = Phase(running: bool, but: Option<Tid>, freeing: Option<nat>, due: Option<Tid>)

  const Steady := Phase(true, None, None, None)
  const Switching := Phase(false, None, None, None)

  ghost predicate Mid(s: State, p: Phase) {
    && Wf(s)
    && Placed(s, p.running)
    && Sorted(s.ready, s.threads)
    && Rest(s, p)
  }

  ghost predicate Rest(s: State, p: Phase) {
    && Owned(s.threads, s.semas, s.locks)
    && Conserved(s.semas)
    && Exclusive(s.threads, s.semas, s.locks, p.freeing)
    && SleepOk(s.threads, s.semas, s.sleepers, p.due)
    && Books(s.threads, s.locks)
    && WaitHeld(s.threads, s.locks)
    && WaitBlocked(s.threads, s.locks, p.but)
  }

  /** The invariant at step boundaries, apart from the order of preemption. */
  ghost predicate Inv(s: State) {
    && Mid(s, Steady)
    && NoneDue(s.threads, s.sleepers, s.ticks)
    && !s.inIntr
  }

  // ---------- changes of status only ----------

  /** b is a but for its status, and is blocked only as a is, unless it waits for nothing. */
  ghost predicate Alike(a: Thread, b: Thread) {
    && b == a.(status := b.status)
    && ((a.status == Blocked <==> b.status == Blocked) || (a.cont == Free && a.waitLock == None))
  }

  ghost predicate AllAlike(ts: seq<Thread>, ts': seq<Thread>) {
    |ts'| == |ts| && forall t :: 0 <= t < |ts| ==> Alike(ts[t], ts'[t])
  }

  lemma AlikeOwned(ts: seq<Thread>, ts': seq<Thread>, semas: seq<Semaphore>, locks: seq<Lock>)
    requires AllAlike(ts, ts') && Owned(ts, semas, locks)
    ensures Owned(ts', semas, locks)
  {
  }

  lemma AlikeExclusive(ts: seq<Thread>, ts': seq<Thread>, semas: seq<Semaphore>, locks: seq<Lock>, freeing: Option<nat>)
    requires AllAlike(ts, ts') && Exclusive(ts, semas, locks, freeing)
    ensures Exclusive(ts', semas, locks, freeing)
  {
  }

  lemma AlikeSleepOk(ts: seq<Thread>, ts': seq<Thread>, semas: seq<Semaphore>, sleepers: seq<Tid>, due: Option<Tid>)
    requires AllAlike(ts, ts') && SleepOk(ts, semas, sleepers, due)
    ensures SleepOk(ts', semas, sleepers, due)
  {
  }

  lemma AlikeBooks(ts: seq<Thread>, ts': seq<Thread>, locks: seq<Lock>)
    requires AllAlike(ts, ts') && Books(ts, locks)
    ensures Books(ts', locks)
  {
  }

  lemma AlikeWaits(ts: seq<Thread>, ts': seq<Thread>, locks: seq<Lock>, but: Option<Tid>)
    requires AllAlike(ts, ts') && WaitBlocked(ts, locks, but) && WaitHeld(ts, locks)
    ensures WaitBlocked(ts', locks, but) && WaitHeld(ts', locks)
  {
  }

  lemma AlikeWaitPlaced(ts: seq<Thread>, ts': seq<Thread>, semas: seq<Semaphore>)
    requires AllAlike(ts, ts') && WaitPlaced(ts, semas)
    ensures WaitPlaced(ts', semas)
  {
  }

  lemma AlikeKeeps(s: State, r: State, p: Phase, p': Phase)
    requires AllAlike(s.threads, r.threads) && Rest(s, p) && p' == p.(running := p'.running)
    requires WaitPlaced(s.threads, s.semas)
    requires r.semas == s.semas && r.locks == s.locks && r.sleepers == s.sleepers
    ensures Rest(r, p') && WaitPlaced(r.threads, r.semas)
  {
    AlikeOwned(s.threads, r.threads, s.semas, s.locks);
    AlikeExclusive(s.threads, r.threads, s.semas, s.locks, p.freeing);
    AlikeSleepOk(s.threads, r.threads, s.semas, s.sleepers, p.due);
    AlikeBooks(s.threads, r.threads, s.locks);
    AlikeWaits(s.threads, r.threads, s.locks, p.but);
    AlikeWaitPlaced(s.threads, r.threads, s.semas);
  }

  // ---------- switching ----------

  lemma PopFront(l: seq<Tid>)
    requires l != []
    ensures multiset(l) == multiset{l[0]} + multiset(l[1..])
  {
    assert l == [l[0]] + l[1..];
  }

  lemma ScheduleAlike(s: State)
    requires Wf(s) && Placed(s, false) && WaitBlocked(s.threads, s.locks, None)
    ensures AllAlike(s.threads, Schedule(s).threads)
    ensures OneRuns(Schedule(s).threads, Schedule(s).current, true)
    ensures ReadyPlaced(Schedule(s).threads, Schedule(s).ready, s.idle)
  {
    hide Wf;
    var next := ScheduleIs(s);
    Switches(s.threads, s.locks, s.current, next);
    if s.ready != [] {
      TakesFront(s.threads, s.ready, s.idle);
    } else {
      TakesIdle(s.threads, s.idle);
    }
  }

  /** The thread that a switch runs next. */
  lemma ScheduleIs(s: State) returns (next: Tid)
    requires Wf(s) && Placed(s, false)
    ensures next < |s.threads| && next == if s.ready == [] then s.idle else s.ready[0]
    ensures Schedule(s).current == next
    ensures Schedule(s).threads == s.threads[next := s.threads[next].(status := Running)]
    ensures Schedule(s).ready == if s.ready == [] then [] else s.ready[1..]
    ensures s.idle < |s.threads| && InRange(s.ready, |s.threads|)
    ensures s.threads[next].waitLock.Some? ==> s.threads[next].waitLock.value < |s.locks|
    ensures s.threads[next].status == Ready || (next == s.idle && s.threads[next].cont == Free)
  {
    next := Schedule(s).current;
    assert ThreadWf(s.threads[next], |s.threads|, |s.semas|, |s.locks|);
    if s.ready != [] {
      assert multiset(s.ready)[next] > 0;
    }
  }

  lemma Switches(ts: seq<Thread>, locks: seq<Lock>, current: Tid, next: Tid)
    requires next < |ts| && OneRuns(ts, current, false) && WaitBlocked(ts, locks, None)
    requires ts[next].status == Ready || ts[next].cont == Free
    requires ts[next].waitLock.Some? ==> ts[next].waitLock.value < |locks|
    ensures AllAlike(ts, ts[next := ts[next].(status := Running)])
    ensures OneRuns(ts[next := ts[next].(status := Running)], next, true)
  {
  }

  lemma TakesFront(ts: seq<Thread>, ready: seq<Tid>, idle: Tid)
    requires ready != [] && InRange(ready, |ts|) && ReadyPlaced(ts, ready, idle)
    ensures ReadyPlaced(ts[ready[0] := ts[ready[0]].(status := Running)], ready[1..], idle)
  {
    PopFront(ready);
    var ts' := ts[ready[0] := ts[ready[0]].(status := Running)];
    forall t | 0 <= t < |ts|
      ensures multiset(ready[1..])[t] == One(ts'[t].status == Ready && t != idle)
    {
      assert multiset(ready)[t] == One(ts[t].status == Ready && t != idle);
    }
  }

  lemma TakesIdle(ts: seq<Thread>, idle: Tid)
    requires idle < |ts| && ReadyPlaced(ts, [], idle)
    ensures ReadyPlaced(ts[idle := ts[idle].(status := Running)], [], idle)
  {
    var ts' := ts[idle := ts[idle].(status := Running)];
    forall t | 0 <= t < |ts|
      ensures multiset([])[t] == One(ts'[t].status == Ready && t != idle)
    {
      assert multiset([])[t] == One(ts[t].status == Ready && t != idle);
    }
  }

  /** After any switch the order of preemption holds, whatever was the case before. */
  lemma ScheduleKeeps(s: State)
    requires Mid(s, Switching)
    ensures Mid(Schedule(s), Steady)
    ensures !Outranked(Schedule(s))
  {
    var r := Schedule(s);
    PoppedSorted(s);
    ScheduleAlike(s);
    hide Sorted;
    AlikeKeeps(s, r, Switching, Steady);
  }

  lemma PoppedSorted(s: State)
    requires Wf(s) && Sorted(s.ready, s.threads)
    ensures Sorted(Schedule(s).ready, Schedule(s).threads) && !Outranked(Schedule(s))
  {
    var r := Schedule(s);
    assert forall i :: 0 <= i < |r.ready| ==> r.ready[i] == s.ready[i + 1];
  }

  lemma EnterReady(ts: seq<Thread>, ts': seq<Thread>, ready: seq<Tid>, idle: Tid, t: Tid)
    requires t < |ts| && InRange(ready, |ts|) && Sorted(ready, ts)
    requires ReadyPlaced(ts, ready, idle)
    requires ts[t].status != Ready && t != idle
    requires ts' == ts[t := ts[t].(status := Ready)]
    ensures ReadyPlaced(ts', InsertOrdered(ready, ts, t), idle)
    ensures Sorted(InsertOrdered(ready, ts, t), ts')
  {
    InsertOrderedSorted(ready, ts, t);
    forall u | 0 <= u < |ts|
      ensures multiset(InsertOrdered(ready, ts, t))[u] == One(ts'[u].status == Ready && u != idle)
    {
      assert multiset(ready)[u] == One(ts[u].status == Ready && u != idle);
    }
  }

  lemma StatusAlike(ts: seq<Thread>, t: Tid, status: Status)
    requires t < |ts|
    requires (ts[t].status != Blocked && status != Blocked) || (ts[t].cont == Free && ts[t].waitLock == None)
    ensures AllAlike(ts, ts[t := ts[t].(status := status)])
  {
  }

  /** A thread that waits for no semaphore has no wait_lock. */
  lemma FreeWaitsForNothing(s: State, t: Tid)
    requires Wf(s) && t < |s.threads| && s.threads[t].cont == Free && WaitBlocked(s.threads, s.locks, None)
    ensures s.threads[t].waitLock == None
  {
  }

  lemma StopRunning(ts: seq<Thread>, current: Tid, status: Status)
    requires OneRuns(ts, current, true) && current < |ts| && status != Running
    ensures OneRuns(ts[current := ts[current].(status := status)], current, false)
  {
  }

  lemma LeaveReady(ts: seq<Thread>, ready: seq<Tid>, idle: Tid, t: Tid, status: Status)
    requires t < |ts| && ReadyPlaced(ts, ready, idle) && InRange(ready, |ts|) && Sorted(ready, ts)
    requires ts[t].status != Ready && (status == Ready ==> t == idle)
    ensures ReadyPlaced(ts[t := ts[t].(status := status)], ready, idle)
    ensures Sorted(ready, ts[t := ts[t].(status := status)])
  {
  }

  /** The running thread leaves the processor: as the idle thread, for good, or for a wait
      outside of any list. */
  lemma DescheduleKeeps(s: State, status: Status)
    requires Mid(s, Steady) && status != Running
    requires status == Ready ==> s.current == s.idle
    requires status == Blocked ==> s.threads[s.current].cont == Free
    requires status == Dying ==> s.current != s.idle
    ensures Mid(SetStatus(s, s.current, status), Switching)
  {
    if s.threads[s.current].cont == Free {
      FreeWaitsForNothing(s, s.current);
    }
    assert s.threads[s.current].status == Running;
    StatusAlike(s.threads, s.current, status);
    StopRunning(s.threads, s.current, status);
    LeaveReady(s.threads, s.ready, s.idle, s.current, status);
    AlikeKeeps(s, SetStatus(s, s.current, status), Steady, Switching);
  }

  lemma YieldKeeps(s: State)
    requires Mid(s, Steady)
    ensures Mid(Yield(s), Steady) && !Outranked(Yield(s))
  {
    if s.current == s.idle {
      DescheduleKeeps(s, Ready);
      ScheduleKeeps(SetStatus(s, s.current, Ready));
    } else {
      var r := SetStatus(s.(ready := InsertOrdered(s.ready, s.threads, s.current)), s.current, Ready);
      assert s.threads[s.current].status == Running;
      EnterReady(s.threads, r.threads, s.ready, s.idle, s.current);
      StatusAlike(s.threads, s.current, Ready);
      StopRunning(s.threads, s.current, Ready);
      AlikeKeeps(s, r, Steady, Switching);
      ScheduleKeeps(r);
    }
  }

  lemma SuperYieldKeeps(s: State)
    requires Mid(s, Steady)
    ensures Mid(SuperYield(s), Steady)
    ensures !Outranked(SuperYield(s)) || (s.inIntr && SuperYield(s).yieldOnReturn)
  {
    if Outranked(s) && !s.inIntr {
      YieldKeeps(s);
    }
  }

  /** thread_block outside of any wait list, as the idle thread and device queues use it. */
  lemma BlockKeeps(s: State)
    requires Mid(s, Steady) && s.threads[s.current].cont == Free
    ensures Mid(Block(s), Steady) && !Outranked(Block(s))
  {
    DescheduleKeeps(s, Blocked);
    ScheduleKeeps(SetStatus(s, s.current, Blocked));
  }

  lemma ExitKeeps(s: State)
    requires Mid(s, Steady) && s.current != s.idle
    ensures Mid(Exit(s), Steady) && !Outranked(Exit(s))
  {
    DescheduleKeeps(s, Dying);
    ScheduleKeeps(SetStatus(s, s.current, Dying));
  }

  /** thread_unblock of a thread that waits on no semaphore. */
  lemma UnblockKeeps(s: State, t: Tid)
    requires Mid(s, Steady) && t < |s.threads| && t != s.idle
    requires s.threads[t].status == Blocked && s.threads[t].cont == Free
    ensures Mid(Unblock(s, t), Steady)
  {
    hide Owned, Conserved, Exclusive, SleepOk, Books, WaitHeld, WaitBlocked, Sorted;
    var r := Unblock(s, t);
    FreeWaitsForNothing(s, t);
    EnterReady(s.threads, r.threads, s.ready, s.idle, t);
    StatusAlike(s.threads, t, Ready);
    AlikeKeeps(s, r, Steady, Steady);
  }

  // ---------- sema_up ----------

  /** The thread that sema_up wakes waits on the semaphore, and none that does outranks it. */
  lemma WokenIsMaximal(s: State, q: nat)
    requires Wf(s) && q < |s.semas| && s.semas[q].waiters != []
    ensures StableSort(s.semas[q].waiters, s.threads) != []
    ensures var w := StableSort(s.semas[q].waiters, s.threads);
      && w[0] in s.semas[q].waiters
      && (forall u :: u in s.semas[q].waiters ==> PriorityOf(s, u) <= PriorityOf(s, w[0]))
      && Wake(s, q).threads == s.threads[w[0] := s.threads[w[0]].(status := Ready)]
  {
    var ws := s.semas[q].waiters;
    var w := StableSort(ws, s.threads);
    StableSortSorted(ws, s.threads);
    assert |multiset(w)| == |multiset(ws)|;
    assert w[0] in multiset(w);
    forall u | u in ws
      ensures PriorityOf(s, u) <= PriorityOf(s, w[0])
    {
      assert u in multiset(w);
      var i :| 0 <= i < |w| && w[i] == u;
    }
  }

  lemma UpOwned(ts: seq<Thread>, semas: seq<Semaphore>, locks: seq<Lock>, q: nat, ws: seq<Tid>, t: Tid, status: Status)
    requires q < |semas| && t < |ts| && Owned(ts, semas, locks)
    ensures Owned(ts[t := ts[t].(status := status)], UpSemas(semas, q, ws), locks)
  {
  }

  lemma UpExclusive(ts: seq<Thread>, semas: seq<Semaphore>, locks: seq<Lock>, q: nat, ws: seq<Tid>, t: Tid, status: Status, freeing: Option<nat>)
    requires q < |semas| && t < |ts| && Exclusive(ts, semas, locks, freeing) && Owned(ts, semas, locks)
    requires freeing == match semas[q].owner case OfLock(l) => Some(l) case _ => None
    ensures Exclusive(ts[t := ts[t].(status := status)], UpSemas(semas, q, ws), locks, None)
  {
  }

  lemma UpSleepOk(ts: seq<Thread>, semas: seq<Semaphore>, locks: seq<Lock>, sleepers: seq<Tid>, q: nat, ws: seq<Tid>, t: Tid)
    requires q < |semas| && t < |ts| && Owned(ts, semas, locks) && SleepOk(ts, semas, sleepers, None)
    requires Waits(ts[t], q)
    ensures SleepOk(ts[t := ts[t].(status := Ready)], UpSemas(semas, q, ws), sleepers, Due(semas[q].owner))
  {
  }

  lemma StatusBooks(ts: seq<Thread>, locks: seq<Lock>, t: Tid, status: Status)
    requires t < |ts| && Books(ts, locks)
    ensures Books(ts[t := ts[t].(status := status)], locks)
  {
  }

  lemma UpWaitPlaced(ts: seq<Thread>, semas: seq<Semaphore>, q: nat, w: seq<Tid>)
    requires q < |semas| && WaitPlaced(ts, semas) && w != [] && multiset(w) == multiset(semas[q].waiters)
    requires w[0] < |ts|
    ensures WaitPlaced(ts[w[0] := ts[w[0]].(status := Ready)], UpSemas(semas, q, w[1..]))
    ensures Waits(ts[w[0]], q)
  {
    PopFront(w);
    var ts', semas' := ts[w[0] := ts[w[0]].(status := Ready)], UpSemas(semas, q, w[1..]);
    assert multiset(semas[q].waiters)[w[0]] > 0;
    forall p, u | 0 <= p < |semas| && 0 <= u < |ts|
      ensures multiset(semas'[p].waiters)[u] == One(Waits(ts'[u], p))
    {
      assert multiset(semas[p].waiters)[u] == One(Waits(ts[u], p));
    }
  }

  lemma UpWaits(ts: seq<Thread>, locks: seq<Lock>, t: Tid, status: Status)
    requires t < |ts| && WaitHeld(ts, locks) && WaitBlocked(ts, locks, None) && ts[t].waitLock == None
    ensures WaitHeld(ts[t := ts[t].(status := status)], locks)
    ensures WaitBlocked(ts[t := ts[t].(status := status)], locks, None)
  {
  }

  lemma UpOneRuns(ts: seq<Thread>, current: Tid, t: Tid)
    requires t < |ts| && OneRuns(ts, current, true) && ts[t].status == Blocked
    ensures OneRuns(ts[t := ts[t].(status := Ready)], current, true)
  {
  }

  function Due(owner: Owner): Option<Tid> {
    match owner case OfThread(t) => Some(t) case _ => None
  }

  function Freeing(owner: Owner): Option<nat> {
    match owner case OfLock(l) => Some(l) case _ => None
  }

  /** Between release and up, nobody records waiting for the lock any more. */
  ghost predicate Released(ts: seq<Thread>, freeing: Option<nat>) {
    forall t :: 0 <= t < |ts| ==> ts[t].waitLock.None? || ts[t].waitLock != freeing
  }

  ghost predicate UpPre(s: State, q: nat, freeing: Option<nat>) {
    && Mid(s, Phase(true, None, freeing, None))
    && q < |s.semas|
    && freeing == Freeing(s.semas[q].owner)
    && (s.semas[q].owner.OfThread? ==> s.semas[q].waiters != [])
    && Released(s.threads, freeing)
  }

  /** A waiter of the semaphore records waiting for no lock. */
  lemma WaiterReleased(s: State, q: nat, t: Tid)
    requires Wf(s) && q < |s.semas| && t < |s.threads| && Waits(s.threads[t], q)
    requires Released(s.threads, Freeing(s.semas[q].owner))
    requires Owned(s.threads, s.semas, s.locks) && WaitBlocked(s.threads, s.locks, None)
    ensures s.threads[t].waitLock == None
  {
  }

  /** What sema_up of q does when w, not empty, is the sorted list of waiters. */
  ghost predicate WokeFirst(s: State, r: State, q: nat, w: seq<Tid>)
    requires Wf(s) && q < |s.semas| && w != [] && InRange(w, |s.threads|)
  {
    r == s.(threads := s.threads[w[0] := s.threads[w[0]].(status := Ready)],
            ready := InsertOrdered(s.ready, s.threads, w[0]),
            semas := UpSemas(s.semas, q, w[1..]))
  }

  lemma WakeEffect(s: State, q: nat)
    requires Wf(s) && q < |s.semas|
    ensures var w := StableSort(s.semas[q].waiters, s.threads);
      if s.semas[q].waiters == [] then Wake(s, q) == s.(semas := UpSemas(s.semas, q, []))
      else w != [] && multiset(w) == multiset(s.semas[q].waiters) && WokeFirst(s, Wake(s, q), q, w)
  {
  }

  lemma WakeKeeps(s: State, q: nat, freeing: Option<nat>)
    requires UpPre(s, q, freeing)
    ensures Mid(Wake(s, q), Phase(true, None, None, Due(s.semas[q].owner)))
  {
    var r := Wake(s, q);
    WakeEffect(s, q);
    if s.semas[q].waiters == [] {
      WakeNobody(s, r, q, freeing);
    } else {
      WakeSomebody(s, r, q, freeing, StableSort(s.semas[q].waiters, s.threads));
    }
  }

  lemma WokenPlaced(s: State, r: State, q: nat, w: seq<Tid>)
    requires Wf(s) && q < |s.semas| && Placed(s, true) && Sorted(s.ready, s.threads)
    requires InRange(w, |s.threads|) && w != [] && multiset(w) == multiset(s.semas[q].waiters)
    requires WokeFirst(s, r, q, w) && Wf(r)
    ensures Placed(r, true) && Sorted(r.ready, r.threads)
    ensures Waits(s.threads[w[0]], q)
  {
    UpWaitPlaced(s.threads, s.semas, q, w);
    UpOneRuns(s.threads, s.current, w[0]);
    EnterReady(s.threads, r.threads, s.ready, s.idle, w[0]);
  }

  lemma WokenRest(s: State, r: State, q: nat, freeing: Option<nat>, w: seq<Tid>)
    requires Wf(s) && q < |s.semas| && Rest(s, Phase(true, None, freeing, None))
    requires freeing == Freeing(s.semas[q].owner) && Released(s.threads, freeing)
    requires InRange(w, |s.threads|) && w != []
    requires WokeFirst(s, r, q, w) && Waits(s.threads[w[0]], q)
    ensures Rest(r, Phase(true, None, None, Due(s.semas[q].owner)))
  {
    var t := w[0];
    WaiterReleased(s, q, t);
    UpOwned(s.threads, s.semas, s.locks, q, w[1..], t, Ready);
    UpExclusive(s.threads, s.semas, s.locks, q, w[1..], t, Ready, freeing);
    UpSleepOk(s.threads, s.semas, s.locks, s.sleepers, q, w[1..], t);
    StatusBooks(s.threads, s.locks, t, Ready);
    UpWaits(s.threads, s.locks, t, Ready);
  }

  lemma WakeSomebody(s: State, r: State, q: nat, freeing: Option<nat>, w: seq<Tid>)
    requires UpPre(s, q, freeing)
    requires InRange(w, |s.threads|) && w != [] && multiset(w) == multiset(s.semas[q].waiters)
    requires WokeFirst(s, r, q, w) && Wf(r)
    ensures Mid(r, Phase(true, None, None, Due(s.semas[q].owner)))
  {
    WokenPlaced(s, r, q, w);
    WokenRest(s, r, q, freeing, w);
  }

  lemma UpIdle(ts: seq<Thread>, semas: seq<Semaphore>, locks: seq<Lock>, sleepers: seq<Tid>, q: nat)
    requires q < |semas| && semas[q].waiters == [] && !semas[q].owner.OfThread?
    requires Owned(ts, semas, locks) && SleepOk(ts, semas, sleepers, None) && WaitPlaced(ts, semas)
    ensures SleepOk(ts, UpSemas(semas, q, []), sleepers, None) && WaitPlaced(ts, UpSemas(semas, q, []))
  {
  }

  lemma WakeNobody(s: State, r: State, q: nat, freeing: Option<nat>)
    requires UpPre(s, q, freeing) && s.semas[q].waiters == []
    requires r == s.(semas := UpSemas(s.semas, q, [])) && Wf(r)
    ensures Mid(r, Phase(true, None, None, Due(s.semas[q].owner)))
  {
    var c, status := s.current, s.threads[s.current].status;
    SameStatus(s.threads, c);
    UpOwned(s.threads, s.semas, s.locks, q, [], c, status);
    UpExclusive(s.threads, s.semas, s.locks, q, [], c, status, freeing);
    UpIdle(s.threads, s.semas, s.locks, s.sleepers, q);
  }

  lemma SameStatus(ts: seq<Thread>, t: Tid)
    requires t < |ts|
    ensures ts[t := ts[t].(status := ts[t].status)] == ts
  {
  }

  // ---------- sema_down ----------

  /** The running thread goes down on q, on behalf of a lock exactly if q belongs to it. */
  ghost predicate DownOk(s: State, q: nat, onto: Option<nat>) {
    && q < |s.semas|
    && s.current < |s.threads|
    && s.current != s.idle
    && (onto.Some? ==> onto.value < |s.locks|)
    && (match s.semas[q].owner
        case User => onto == None
        case OfLock(l) => onto == Some(l)
        case OfThread(t) => onto == None && t == s.current)
  }

  lemma JoinPlaced(ts: seq<Thread>, ts': seq<Thread>, semas: seq<Semaphore>, q: nat, t: Tid, onto: Option<nat>)
    requires q < |semas| && t < |ts| && InRange(semas[q].waiters, |ts|) && WaitPlaced(ts, semas)
    requires ts[t].status != Blocked
    requires ts' == ts[t := ts[t].(cont := Down(q, onto), status := Blocked)]
    ensures WaitPlaced(ts', semas[q := semas[q].(waiters := InsertOrdered(semas[q].waiters, ts, t))])
  {
  }

  lemma JoinOwned(ts: seq<Thread>, ts': seq<Thread>, semas: seq<Semaphore>, locks: seq<Lock>, q: nat, ws: seq<Tid>, t: Tid, onto: Option<nat>)
    requires q < |semas| && t < |ts| && Owned(ts, semas, locks)
    requires ts' == ts[t := ts[t].(cont := Down(q, onto), status := Blocked)]
    requires match semas[q].owner
             case User => onto == None
             case OfLock(l) => onto == Some(l)
             case OfThread(u) => onto == None && u == t
    ensures Owned(ts', semas[q := semas[q].(waiters := ws)], locks)
  {
  }

  lemma JoinSleepOk(ts: seq<Thread>, ts': seq<Thread>, semas: seq<Semaphore>, locks: seq<Lock>, sleepers: seq<Tid>, q: nat, ws: seq<Tid>, t: Tid, onto: Option<nat>)
    requires q < |semas| && t < |ts| && Owned(ts, semas, locks)
    requires SleepOk(ts, semas, sleepers, Due(semas[q].owner))
    requires ts[t].status != Blocked && semas[q].value == 0
    requires ts' == ts[t := ts[t].(cont := Down(q, onto), status := Blocked)]
    requires ts[t].cont == Free || ts[t].cont == Down(q, onto)
    requires match semas[q].owner
             case User => onto == None
             case OfLock(l) => onto == Some(l)
             case OfThread(u) => onto == None && u == t
    ensures SleepOk(ts', semas[q := semas[q].(waiters := ws)], sleepers, None)
  {
  }

  lemma JoinExclusive(ts: seq<Thread>, ts': seq<Thread>, semas: seq<Semaphore>, locks: seq<Lock>, q: nat, ws: seq<Tid>, t: Tid, cont: Cont)
    requires q < |semas| && t < |ts| && Exclusive(ts, semas, locks, None)
    requires ts' == ts[t := ts[t].(cont := cont, status := Blocked)]
    ensures Exclusive(ts', semas[q := semas[q].(waiters := ws)], locks, None)
  {
  }

  lemma JoinBooks(ts: seq<Thread>, ts': seq<Thread>, locks: seq<Lock>, t: Tid, cont: Cont)
    requires t < |ts| && Books(ts, locks)
    requires ts' == ts[t := ts[t].(cont := cont, status := Blocked)]
    ensures Books(ts', locks)
  {
  }

  lemma JoinWaits(ts: seq<Thread>, ts': seq<Thread>, locks: seq<Lock>, q: nat, t: Tid, onto: Option<nat>, but: Option<Tid>)
    requires t < |ts| && WaitHeld(ts, locks) && WaitBlocked(ts, locks, but) && (but == None || but == Some(t))
    requires ts' == ts[t := ts[t].(cont := Down(q, onto), status := Blocked)]
    requires ts[t].waitLock == None || (onto.Some? && ts[t].waitLock == onto && onto.value < |locks| && locks[onto.value].sema == q)
    ensures WaitHeld(ts', locks) && WaitBlocked(ts', locks, None)
  {
  }

  /** When the loop of sema_down finds zero: the thread is placed among the waiters. */
  lemma JoinKeeps(s: State, q: nat, onto: Option<nat>, but: Option<Tid>)
    requires DownOk(s, q, onto) && s.semas[q].value == 0
    requires Mid(s, Phase(true, but, None, Due(s.semas[q].owner)))
    requires but == None || (but == Some(s.current) && onto.Some? && s.threads[s.current].waitLock == onto)
    requires s.threads[s.current].cont == Free || s.threads[s.current].cont == Down(q, onto)
    ensures Mid(JoinWaiters(s, q, onto), Switching)
  {
    var r := JoinWaiters(s, q, onto);
    var t := s.current;
    assert s.threads[t].status == Running;
    JoinPlaced(s.threads, r.threads, s.semas, q, t, onto);
    JoinRest(s, r, q, onto, but);
    LeaveReadyTo(s.threads, r.threads, s.ready, s.idle, t);
  }

  lemma LeaveReadyTo(ts: seq<Thread>, ts': seq<Thread>, ready: seq<Tid>, idle: Tid, t: Tid)
    requires t < |ts| == |ts'| && ReadyPlaced(ts, ready, idle) && InRange(ready, |ts|) && Sorted(ready, ts)
    requires OneRuns(ts, t, true) && ts'[t].status == Blocked
    requires ts'[t].priority == ts[t].priority && ts' == ts[t := ts'[t]]
    ensures ReadyPlaced(ts', ready, idle) && Sorted(ready, ts') && OneRuns(ts', t, false)
  {
  }

  lemma JoinRest(s: State, r: State, q: nat, onto: Option<nat>, but: Option<Tid>)
    requires Wf(s) && DownOk(s, q, onto) && s.semas[q].value == 0
    requires Rest(s, Phase(true, but, None, Due(s.semas[q].owner)))
    requires but == None || (but == Some(s.current) && onto.Some? && s.threads[s.current].waitLock == onto)
    requires s.threads[s.current].cont == Free || s.threads[s.current].cont == Down(q, onto)
    requires s.threads[s.current].status == Running
    requires r == JoinWaiters(s, q, onto)
    ensures Rest(r, Switching)
  {
    hide Owned, Exclusive, SleepOk, Books, WaitHeld, WaitBlocked;
    var t := s.current;
    var ws := r.semas[q].waiters;
    assert r.semas == s.semas[q := s.semas[q].(waiters := ws)];
    if but == None {
      RunnerWaitsForNothing(s);
    }
    JoinOwned(s.threads, r.threads, s.semas, s.locks, q, ws, t, onto);
    JoinSleepOk(s.threads, r.threads, s.semas, s.locks, s.sleepers, q, ws, t, onto);
    JoinExclusive(s.threads, r.threads, s.semas, s.locks, q, ws, t, Down(q, onto));
    JoinBooks(s.threads, r.threads, s.locks, t, Down(q, onto));
    OntoIts(s, q, onto);
    JoinWaits(s.threads, r.threads, s.locks, q, t, onto, but);
  }

  lemma OntoIts(s: State, q: nat, onto: Option<nat>)
    requires DownOk(s, q, onto) && Owned(s.threads, s.semas, s.locks)
    ensures onto.Some? ==> s.locks[onto.value].sema == q
  {
  }

  lemma RunnerWaitsForNothing(s: State)
    requires Wf(s) && WaitBlocked(s.threads, s.locks, None) && s.threads[s.current].status == Running
    ensures s.threads[s.current].waitLock == None
  {
  }

  // ---------- the end of sema_down and of lock_acquire ----------

  ghost predicate Proceeds(s: State, r: State, q: nat, onto: Option<nat>)
    requires q < |s.semas| && s.semas[q].value > 0 && s.current < |s.threads|
    requires onto.Some? ==> onto.value < |s.locks|
  {
    var t, th := s.current, s.threads[s.current];
    && r == s.(semas := TakeSemas(s.semas, q), threads := r.threads, locks := r.locks)
    && match onto
       case None => r.threads == s.threads[t := th.(cont := Free)] && r.locks == s.locks
       case Some(l) =>
         && r.threads == s.threads[t := th.(cont := Free, held := th.held + {l})]
         && r.locks == s.locks[l := s.locks[l].(holder := Some(t))]
  }

  ghost predicate ProceedPre(s: State, r: State, q: nat, onto: Option<nat>) {
    && Wf(s)
    && DownOk(s, q, onto)
    && s.semas[q].value > 0
    && s.threads[s.current].status == Running
    && Proceeds(s, r, q, onto)
  }

  lemma ProceedPlaced(s: State, r: State, q: nat, onto: Option<nat>)
    requires ProceedPre(s, r, q, onto) && Placed(s, true) && Sorted(s.ready, s.threads) && Wf(r)
    ensures Placed(r, true) && Sorted(r.ready, r.threads)
  {
    hide Wf;
    if onto.None? {
      TakenPlaced(s, r, q, Free, s.threads[s.current].held);
    } else {
      TakenPlaced(s, r, q, Free, s.threads[s.current].held + {onto.value});
    }
  }

  lemma TakenPlaced(s: State, r: State, q: nat, cont: Cont, held: set<nat>)
    requires Wf(s) && Wf(r) && Placed(s, true) && Sorted(s.ready, s.threads)
    requires q < |s.semas| && s.semas[q].value > 0 && s.current != s.idle
    requires r.threads == s.threads[s.current := s.threads[s.current].(cont := cont, held := held)]
    requires r.semas == TakeSemas(s.semas, q) && r.ready == s.ready && r.current == s.current && r.idle == s.idle
    ensures Placed(r, true) && Sorted(r.ready, r.threads)
  {
  }

  lemma ProceedOwned(s: State, r: State, q: nat, onto: Option<nat>)
    requires ProceedPre(s, r, q, onto) && Owned(s.threads, s.semas, s.locks)
    ensures Owned(r.threads, r.semas, r.locks)
  {
    hide Wf;
  }

  lemma ProceedExclusive(s: State, r: State, q: nat, onto: Option<nat>)
    requires ProceedPre(s, r, q, onto) && Owned(s.threads, s.semas, s.locks)
    requires Exclusive(s.threads, s.semas, s.locks, None)
    ensures Exclusive(r.threads, r.semas, r.locks, None)
    ensures onto.Some? ==> s.locks[onto.value].holder == None
  {
    hide Wf;
  }

  lemma ProceedSleepOk(s: State, r: State, q: nat, onto: Option<nat>)
    requires ProceedPre(s, r, q, onto) && Owned(s.threads, s.semas, s.locks)
    requires SleepOk(s.threads, s.semas, s.sleepers, None)
    requires s.threads[s.current].cont == Free || s.threads[s.current].cont == Down(q, onto)
    ensures SleepOk(r.threads, r.semas, r.sleepers, None)
  {
    var c := s.current;
    forall t, p | 0 <= t < |s.threads| && 0 <= p < |s.semas| && r.threads[t].sema == p
      ensures r.semas[p].value == One(r.threads[t].cont == Down(p, None) && r.threads[t].status != Blocked)
    {
      assert s.threads[t].sema == p;
      assert s.semas[p].owner == OfThread(t);
      if p == q {
        assert s.semas[q].value == One(s.threads[c].cont == Down(q, None));
      }
    }
    forall t | 0 <= t < |s.threads|
      ensures Asleep(r.threads[t]) == Asleep(s.threads[t])
    {
    }
  }

  lemma ProceedBooks(s: State, r: State, q: nat, onto: Option<nat>)
    requires ProceedPre(s, r, q, onto) && Books(s.threads, s.locks) && WaitHeld(s.threads, s.locks)
    requires onto.Some? ==> s.locks[onto.value].holder == None
    ensures Books(r.threads, r.locks)
  {
  }

  lemma ProceedWaits(s: State, r: State, q: nat, onto: Option<nat>)
    requires ProceedPre(s, r, q, onto) && WaitHeld(s.threads, s.locks) && WaitBlocked(s.threads, s.locks, None)
    ensures WaitHeld(r.threads, r.locks) && WaitBlocked(r.threads, r.locks, None)
  {
  }

  lemma ProceedRest(s: State, r: State, q: nat, onto: Option<nat>)
    requires ProceedPre(s, r, q, onto) && Rest(s, Steady)
    requires s.threads[s.current].cont == Free || s.threads[s.current].cont == Down(q, onto)
    ensures Rest(r, Steady)
  {
    ProceedOwned(s, r, q, onto);
    ProceedExclusive(s, r, q, onto);
    ProceedSleepOk(s, r, q, onto);
    ProceedBooks(s, r, q, onto);
    ProceedWaits(s, r, q, onto);
  }

  lemma ProceedKeeps(s: State, q: nat, onto: Option<nat>)
    requires DownOk(s, q, onto) && s.semas[q].value > 0
    requires Mid(s, Steady)
    requires s.threads[s.current].cont == Free || s.threads[s.current].cont == Down(q, onto)
    ensures Mid(Proceed(s, q, onto), Steady)
  {
    var r := Proceed(s, q, onto);
    ProceedPlaced(s, r, q, onto);
    ProceedRest(s, r, q, onto);
  }

  // ---------- donation ----------

  lemma {:induction false} VisitedDependsOnWaits(s: State, r: State, h: Tid, depth: nat)
    requires Wf(s) && WaitHeld(s.threads, s.locks) && Wf(r) && WaitHeld(r.threads, r.locks)
    requires r.locks == s.locks && |r.threads| == |s.threads| && h < |s.threads| && depth <= MAX_DEPTH + 1
    requires forall t :: 0 <= t < |s.threads| ==> r.threads[t].waitLock == s.threads[t].waitLock
    ensures Visited(r, h, depth) == Visited(s, h, depth)
    decreases MAX_DEPTH + 1 - depth
  {
    var w := s.threads[h].waitLock;
    if w.Some? && depth <= MAX_DEPTH {
      VisitedDependsOnWaits(s, r, s.locks[w.value].holder.value, depth + 1);
    }
  }

  /** donation visits at most ten holders, cyclic chains included. */
  lemma {:induction false} VisitedIsShort(s: State, h: Tid, depth: nat)
    requires Wf(s) && WaitHeld(s.threads, s.locks) && h < |s.threads| && depth <= MAX_DEPTH + 1
    ensures 1 <= |Visited(s, h, depth)| <= MAX_DEPTH + 2 - depth
    ensures Visited(s, h, depth)[0] == h
    decreases MAX_DEPTH + 1 - depth
  {
    var w := s.threads[h].waitLock;
    if w.Some? && depth <= MAX_DEPTH {
      VisitedIsShort(s, s.locks[w.value].holder.value, depth + 1);
    }
  }

  /** From s to r the threads of v get this priority, and nothing else changes. */
  ghost predicate Gave(s: State, r: State, v: seq<Tid>, priority: int) {
    && r == s.(threads := r.threads) && |r.threads| == |s.threads|
    && (forall t :: 0 <= t < |s.threads| ==>
      r.threads[t] == if t in v then s.threads[t].(priority := priority) else s.threads[t])
  }

  lemma GaveOn(s: State, m: State, r: State, h: Tid, v: seq<Tid>, priority: int)
    requires h < |s.threads| && m == s.(threads := s.threads[h := s.threads[h].(priority := priority)])
    requires Gave(m, r, v, priority)
    ensures Gave(s, r, [h] + v, priority)
  {
    assert forall t :: t in [h] + v <==> t == h || t in v;
  }

  lemma DonateLast(s: State, h: Tid, priority: int, depth: nat)
    requires Wf(s) && WaitHeld(s.threads, s.locks) && h < |s.threads| && depth <= MAX_DEPTH + 1
    requires s.threads[h].waitLock.None? || depth > MAX_DEPTH
    ensures Gave(s, DonateFrom(s, h, priority, depth), Visited(s, h, depth), priority)
  {
  }

  lemma DonateNext(s: State, h: Tid, priority: int, depth: nat) returns (m: State, h': Tid)
    requires Wf(s) && WaitHeld(s.threads, s.locks) && h < |s.threads| && depth <= MAX_DEPTH
    requires s.threads[h].waitLock.Some?
    ensures m == s.(threads := s.threads[h := s.threads[h].(priority := priority)])
    ensures Wf(m) && WaitHeld(m.threads, m.locks) && h' < |s.threads| == |m.threads|
    ensures DonateFrom(s, h, priority, depth) == DonateFrom(m, h', priority, depth + 1)
    ensures Visited(s, h, depth) == [h] + Visited(m, h', depth + 1)
  {
    m := SetPriority(s, h, priority);
    h' := s.locks[s.threads[h].waitLock.value].holder.value;
    VisitedDependsOnWaits(s, m, h', depth + 1);
  }

  /** donation gives every visited holder exactly the priority of the donor, and changes
      nothing else. */
  lemma {:induction false} DonateFromEffect(s: State, h: Tid, priority: int, depth: nat)
    requires Wf(s) && WaitHeld(s.threads, s.locks) && h < |s.threads| && depth <= MAX_DEPTH + 1
    ensures Gave(s, DonateFrom(s, h, priority, depth), Visited(s, h, depth), priority)
    decreases MAX_DEPTH + 1 - depth
  {
    hide Gave, Wf, WaitHeld, DonateFrom, Visited;
    if s.threads[h].waitLock.None? || depth > MAX_DEPTH {
      DonateLast(s, h, priority, depth);
    } else {
      var m, h' := DonateNext(s, h, priority, depth);
      DonateFromEffect(m, h', priority, depth + 1);
      GaveOn(s, m, DonateFrom(m, h', priority, depth + 1), h, Visited(m, h', depth + 1), priority);
    }
  }

  /** Every holder that donation visits has donors: what it overwrites is not a base. */
  lemma {:induction false} VisitedHaveDonors(s: State, h: Tid, depth: nat)
    requires Wf(s) && WaitHeld(s.threads, s.locks) && Books(s.threads, s.locks)
    requires h < |s.threads| && depth <= MAX_DEPTH + 1 && s.threads[h].donors != []
    ensures forall t :: t in Visited(s, h, depth) ==> t < |s.threads| && s.threads[t].donors != []
    decreases MAX_DEPTH + 1 - depth
  {
    var w := s.threads[h].waitLock;
    if w.Some? && depth <= MAX_DEPTH {
      var h' := s.locks[w.value].holder.value;
      assert Donates(s.threads[h], s.locks, h');
      assert multiset(s.threads[h'].donors)[h] == 1;
      VisitedHaveDonors(s, h', depth + 1);
    }
  }

  /** b stays in the lists of a: only priorities and donation records differ. */
  ghost predicate Seated(a: Thread, b: Thread) {
    b == a.(priority := b.priority, oriPriority := b.oriPriority, base := b.base,
            donors := b.donors, waitLock := b.waitLock, wakeup := b.wakeup)
  }

  ghost predicate AllSeated(ts: seq<Thread>, ts': seq<Thread>) {
    |ts'| == |ts| && forall t :: 0 <= t < |ts| ==> Seated(ts[t], ts'[t])
  }

  lemma SeatedOwned(ts: seq<Thread>, ts': seq<Thread>, semas: seq<Semaphore>, locks: seq<Lock>)
    requires AllSeated(ts, ts') && Owned(ts, semas, locks)
    ensures Owned(ts', semas, locks)
  {
  }

  lemma SeatedLists(ts: seq<Thread>, ts': seq<Thread>, semas: seq<Semaphore>, locks: seq<Lock>, sleepers: seq<Tid>, freeing: Option<nat>, due: Option<Tid>)
    requires AllSeated(ts, ts') && Exclusive(ts, semas, locks, freeing) && SleepOk(ts, semas, sleepers, due)
    ensures Exclusive(ts', semas, locks, freeing) && SleepOk(ts', semas, sleepers, due)
  {
  }

  lemma SeatedPlaced(s: State, r: State, running: bool)
    requires Wf(s) && Wf(r) && Placed(s, running) && AllSeated(s.threads, r.threads)
    requires r.idle == s.idle && r.current == s.current && r.semas == s.semas
    requires multiset(r.ready) == multiset(s.ready)
    ensures Placed(r, running)
  {
  }

  /** The part of Rest that donation records do not touch. */
  lemma SeatedRest(s: State, r: State, p: Phase, but: Option<Tid>)
    requires Rest(s, p) && AllSeated(s.threads, r.threads)
    requires r.semas == s.semas && r.locks == s.locks && r.sleepers == s.sleepers
    requires Books(r.threads, r.locks) && WaitHeld(r.threads, r.locks) && WaitBlocked(r.threads, r.locks, but)
    ensures Rest(r, p.(but := but))
  {
    SeatedOwned(s.threads, r.threads, s.semas, s.locks);
    SeatedLists(s.threads, r.threads, s.semas, s.locks, s.sleepers, p.freeing, p.due);
  }

  /** Threads differ in priority only, and only where there are donors. */
  ghost predicate Repriced(a: Thread, b: Thread) {
    b == a.(priority := b.priority) && (b.priority == a.priority || a.donors != [])
  }

  ghost predicate AllRepriced(ts: seq<Thread>, ts': seq<Thread>) {
    |ts'| == |ts| && forall t :: 0 <= t < |ts| ==> Repriced(ts[t], ts'[t])
  }

  lemma RepricedBooks(ts: seq<Thread>, ts': seq<Thread>, locks: seq<Lock>, but: Option<Tid>)
    requires AllRepriced(ts, ts') && Books(ts, locks) && WaitHeld(ts, locks) && WaitBlocked(ts, locks, but)
    ensures Books(ts', locks) && WaitHeld(ts', locks) && WaitBlocked(ts', locks, but)
    ensures AllSeated(ts, ts')
  {
  }

  /** New priorities and a sort of the ready list, as at the end of donation. */
  lemma RepriceKeeps(s: State, r: State, p: Phase)
    requires Wf(s) && Placed(s, p.running) && Rest(s, p)
    requires AllRepriced(s.threads, r.threads)
    requires r == s.(threads := r.threads, ready := StableSort(s.ready, r.threads)) && Wf(r)
    ensures Mid(r, p)
  {
    RepricedBooks(s.threads, r.threads, s.locks, p.but);
    StableSortSorted(s.ready, r.threads);
    SeatedPlaced(s, r, p.running);
    SeatedRest(s, r, p, p.but);
  }

  ghost predicate DonationPre(s: State, l: nat) {
    && Mid(s, Steady)
    && l < |s.locks|
    && s.locks[l].holder.Some?
    && s.locks[l].holder != Some(s.current)
  }

  lemma RecordBooks(ts: seq<Thread>, ts': seq<Thread>, locks: seq<Lock>, l: nat, h: Tid, t: Tid)
    requires h < |ts| && t < |ts| && h != t && l < |locks| && locks[l].holder == Some(h)
    requires ts[t].waitLock == None && Books(ts, locks)
    requires ts' == ts[t := ts[t].(waitLock := Some(l))]
                      [h := ts[h].(donors := [t] + ts[h].donors,
                                   oriPriority := if ts[h].donors == [] then ts[h].priority else ts[h].oriPriority)]
    ensures Books(ts', locks)
  {
  }

  lemma RecordShape(s: State, l: nat, h: Tid)
    requires Wf(s) && l < |s.locks| && s.locks[l].holder == Some(h) && h < |s.threads| && h != s.current
    ensures var r := RecordDonation(s, l, h);
      && AllSeated(s.threads, r.threads)
      && r == s.(threads := r.threads)
      && r.threads[h].donors != []
      && PriorityOf(r, s.current) == PriorityOf(s, s.current)
      && r.threads[s.current] == s.threads[s.current].(waitLock := Some(l))
  {
  }

  lemma RecordWaits(ts: seq<Thread>, ts': seq<Thread>, locks: seq<Lock>, l: nat, h: Tid, t: Tid)
    requires h < |ts| && t < |ts| && h != t && l < |locks| && locks[l].holder == Some(h)
    requires WaitBlocked(ts, locks, None) && WaitHeld(ts, locks)
    requires ts' == ts[t := ts[t].(waitLock := Some(l))]
                      [h := ts[h].(donors := [t] + ts[h].donors,
                                   oriPriority := if ts[h].donors == [] then ts[h].priority else ts[h].oriPriority)]
    ensures WaitBlocked(ts', locks, Some(t)) && WaitHeld(ts', locks)
  {
  }

  lemma RecordRest(s: State, r: State, l: nat, h: Tid)
    requires DonationPre(s, l) && s.locks[l].holder == Some(h) && h < |s.threads|
    requires r == RecordDonation(s, l, h)
    ensures Placed(r, true) && Rest(r, Phase(true, Some(s.current), None, None))
  {
    RecordShape(s, l, h);
    RunnerWaitsForNothing(s);
    RecordBooks(s.threads, r.threads, s.locks, l, h, s.current);
    RecordWaits(s.threads, r.threads, s.locks, l, h, s.current);
    SeatedPlaced(s, r, true);
    SeatedRest(s, r, Steady, Some(s.current));
  }

  lemma DonateRepriced(s: State, h: Tid, priority: int)
    requires Wf(s) && WaitHeld(s.threads, s.locks) && Books(s.threads, s.locks)
    requires h < |s.threads| && s.threads[h].donors != []
    ensures AllRepriced(s.threads, DonateFrom(s, h, priority, 0).threads)
    ensures DonateFrom(s, h, priority, 0) == s.(threads := DonateFrom(s, h, priority, 0).threads)
  {
    DonateFromEffect(s, h, priority, 0);
    VisitedHaveDonors(s, h, 0);
  }

  lemma DonationKeeps(s: State, l: nat)
    requires DonationPre(s, l)
    ensures Mid(Donation(s, l), Phase(true, Some(s.current), None, None))
    ensures Donation(s, l).threads[s.current].waitLock == Some(l)
    ensures Donation(s, l).threads[s.current].cont == s.threads[s.current].cont
    ensures Donation(s, l).current == s.current
  {
    var h := s.locks[l].holder.value;
    var r1 := RecordDonation(s, l, h);
    RecordShape(s, l, h);
    RecordRest(s, r1, l, h);
    DonateRepriced(r1, h, PriorityOf(s, s.current));
    var r := Donation(s, l);
    RepriceKeeps(r1, r, Phase(true, Some(s.current), None, None));
    assert Repriced(r1.threads[s.current], r.threads[s.current]);
  }

  // ---------- lock_release ----------

  /** The locks after the holder of l is cleared. */
  function Unheld(locks: seq<Lock>, l: nat): seq<Lock>
    requires l < |locks|
  {
    locks[l := locks[l].(holder := None)]
  }

  /** Whoever records waiting for a lock of the running thread is its donor and a waiter. */
  lemma WaiterIsDonor(s: State, l: nat, u: Tid)
    requires Mid(s, Steady) && l < |s.locks| && u < |s.threads| && s.threads[u].waitLock == Some(l)
    requires s.locks[l].holder == Some(s.current)
    ensures u in s.threads[s.current].donors
    ensures u in s.semas[s.locks[l].sema].waiters
    ensures u != s.current
  {
    assert Donates(s.threads[u], s.locks, s.current);
    assert multiset(s.threads[s.current].donors)[u] == 1;
    assert Waits(s.threads[u], s.locks[l].sema);
    assert multiset(s.semas[s.locks[l].sema].waiters)[u] == 1;
  }

  /** The threads after the running thread t gives back what was donated for lock l. */
  ghost predicate GivenBack(ts: seq<Thread>, ts': seq<Thread>, l: nat, t: Tid) {
    && t < |ts| == |ts'|
    && (forall u :: 0 <= u < |ts| && u != t ==>
      ts'[u] == if ts[u].waitLock == Some(l) then ts[u].(waitLock := None) else ts[u])
    && ts'[t] == ts[t].(held := ts[t].held - {l}, donors := ts'[t].donors, priority := ts'[t].priority)
    && (forall u :: 0 <= u < |ts| ==>
      multiset(ts'[t].donors)[u] == if ts[u].waitLock == Some(l) then 0 else multiset(ts[t].donors)[u])
    && (if ts'[t].donors == [] then ts'[t].priority == ts'[t].base else ts'[t].base == ts'[t].oriPriority)
  }

  ghost predicate ReleasePre(s: State, l: nat) {
    && Mid(s, Steady)
    && l < |s.locks|
    && s.locks[l].holder == Some(s.current)
  }

  lemma LetGoEffect(s: State, l: nat)
    requires ReleasePre(s, l)
    ensures var r := LetGo(s, l);
      && r == s.(threads := r.threads, locks := Unheld(s.locks, l), ready := r.ready)
      && multiset(r.ready) == multiset(s.ready)
      && GivenBack(s.threads, r.threads, l, s.current)
      && Sorted(r.ready, r.threads)
  {
    RunnerWaitsForNothing(s);
    var th := s.threads[s.current];
    assert th.base == if th.donors == [] then th.priority else th.oriPriority;
    forall u | 0 <= u < |s.threads| && s.threads[u].waitLock == Some(l)
      ensures u in th.donors && s.semas[s.locks[l].sema].waiters != []
    {
      WaiterIsDonor(s, l, u);
    }
    hide Rest, Placed, LetGo, GivenBack;
    if th.donors != [] && s.semas[s.locks[l].sema].waiters != [] {
      GiveBackEffect(s, l);
    } else {
      NothingToGive(s, l);
    }
  }

  lemma NothingToGive(s: State, l: nat)
    requires Wf(s) && l < |s.locks| && Sorted(s.ready, s.threads)
    requires s.threads[s.current].donors == [] || s.semas[s.locks[l].sema].waiters == []
    requires forall u :: 0 <= u < |s.threads| ==> s.threads[u].waitLock != Some(l)
    requires var th := s.threads[s.current]; th.base == if th.donors == [] then th.priority else th.oriPriority
    ensures var r := LetGo(s, l);
      && r == s.(threads := r.threads, locks := Unheld(s.locks, l), ready := r.ready)
      && multiset(r.ready) == multiset(s.ready)
      && GivenBack(s.threads, r.threads, l, s.current)
      && Sorted(r.ready, r.threads)
  {
  }

  lemma BackThreadsGive(ts: seq<Thread>, t: Tid, l: nat)
    requires t < |ts| && InRange(ts[t].donors, |ts|) && ts[t].waitLock == None
    requires ts[t].base == ts[t].oriPriority
    requires forall u :: 0 <= u < |ts| && ts[u].waitLock == Some(l) ==> u in ts[t].donors
    ensures GivenBack(ts, BackThreads(ts[t := ts[t].(held := ts[t].held - {l})], t, l), l, t)
  {
    hide OtherDonors, ClearWaits;
    var ts' := ts[t := ts[t].(held := ts[t].held - {l})];
    assert forall u :: 0 <= u < |ts| ==> ts'[u].waitLock == ts[u].waitLock;
    assert BackThreads(ts', t, l)[t].donors == OtherDonors(ts'[t].donors, ts', l);
  }

  lemma GiveBackEffect(s: State, l: nat)
    requires Wf(s) && l < |s.locks|
    requires s.threads[s.current].donors != [] && s.semas[s.locks[l].sema].waiters != []
    requires s.threads[s.current].waitLock == None
    requires s.threads[s.current].base == s.threads[s.current].oriPriority
    requires forall u :: 0 <= u < |s.threads| && s.threads[u].waitLock == Some(l) ==> u in s.threads[s.current].donors
    ensures var r := LetGo(s, l);
      && r == s.(threads := r.threads, locks := Unheld(s.locks, l), ready := r.ready)
      && multiset(r.ready) == multiset(s.ready)
      && GivenBack(s.threads, r.threads, l, s.current)
      && Sorted(r.ready, r.threads)
  {
    BackThreadsGive(s.threads, s.current, l);
    StableSortSorted(s.ready, LetGo(s, l).threads);
  }

  lemma GivenBackBooks(ts: seq<Thread>, ts': seq<Thread>, locks: seq<Lock>, l: nat, t: Tid)
    requires GivenBack(ts, ts', l, t) && l < |locks| && locks[l].holder == Some(t)
    requires Books(ts, locks) && ts[t].waitLock == None
    ensures Books(ts', Unheld(locks, l))
  {
  }

  lemma GivenBackOwned(ts: seq<Thread>, ts': seq<Thread>, semas: seq<Semaphore>, locks: seq<Lock>, l: nat, t: Tid)
    requires GivenBack(ts, ts', l, t) && l < |locks| && Owned(ts, semas, locks)
    ensures Owned(ts', semas, Unheld(locks, l))
  {
  }

  lemma GivenBackExclusive(ts: seq<Thread>, ts': seq<Thread>, semas: seq<Semaphore>, locks: seq<Lock>, l: nat, t: Tid)
    requires GivenBack(ts, ts', l, t) && l < |locks| && locks[l].holder == Some(t)
    requires Exclusive(ts, semas, locks, None)
    ensures Exclusive(ts', semas, Unheld(locks, l), Some(l))
  {
  }

  lemma GivenBackSleepOk(ts: seq<Thread>, ts': seq<Thread>, semas: seq<Semaphore>, sleepers: seq<Tid>, l: nat, t: Tid)
    requires GivenBack(ts, ts', l, t) && SleepOk(ts, semas, sleepers, None)
    ensures SleepOk(ts', semas, sleepers, None)
  {
  }

  lemma GivenBackWaits(ts: seq<Thread>, ts': seq<Thread>, locks: seq<Lock>, l: nat, t: Tid)
    requires GivenBack(ts, ts', l, t) && l < |locks| && ts[t].waitLock == None
    requires WaitHeld(ts, locks) && WaitBlocked(ts, locks, None)
    ensures WaitHeld(ts', Unheld(locks, l)) && WaitBlocked(ts', Unheld(locks, l), None)
    ensures Released(ts', Some(l))
  {
  }

  lemma GivenBackPlaced(s: State, r: State, l: nat)
    requires Wf(s) && Wf(r) && Placed(s, true) && GivenBack(s.threads, r.threads, l, s.current)
    requires r.idle == s.idle && r.current == s.current && r.semas == s.semas
    requires multiset(r.ready) == multiset(s.ready)
    ensures Placed(r, true)
  {
  }

  lemma LetGoKeeps(s: State, l: nat)
    requires ReleasePre(s, l)
    ensures Mid(LetGo(s, l), Phase(true, None, Some(l), None))
    ensures Released(LetGo(s, l).threads, Some(l))
  {
    var r := LetGo(s, l);
    LetGoEffect(s, l);
    RunnerWaitsForNothing(s);
    GivenBackPlaced(s, r, l);
    LetGoRest(s, r, l);
  }

  lemma LetGoRest(s: State, r: State, l: nat)
    requires l < |s.locks| && s.locks[l].holder == Some(s.current) && Rest(s, Steady)
    requires GivenBack(s.threads, r.threads, l, s.current) && s.threads[s.current].waitLock == None
    requires r == s.(threads := r.threads, locks := Unheld(s.locks, l), ready := r.ready)
    ensures Rest(r, Phase(true, None, Some(l), None))
    ensures Released(r.threads, Some(l))
  {
    GivenBackOwned(s.threads, r.threads, s.semas, s.locks, l, s.current);
    GivenBackExclusive(s.threads, r.threads, s.semas, s.locks, l, s.current);
    GivenBackSleepOk(s.threads, r.threads, s.semas, s.sleepers, l, s.current);
    GivenBackBooks(s.threads, r.threads, s.locks, l, s.current);
    GivenBackWaits(s.threads, r.threads, s.locks, l, s.current);
  }

  // ---------- creation of threads, semaphores and locks ----------

  /** One new semaphore, for nobody, for one new lock, or for one new thread. */
  ghost predicate Grown(s: State, r: State, sema: Semaphore, newLocks: seq<Lock>, newThreads: seq<Thread>) {
    && Wf(s)
    && r == s.(threads := s.threads + newThreads, semas := s.semas + [sema], locks := s.locks + newLocks)
    && sema.waiters == [] && sema.ups == 0 && sema.downs == 0 && sema.value == sema.initial
    && (match sema.owner
        case User => newLocks == [] && newThreads == []
        case OfLock(l) => l == |s.locks| && newLocks == [Lock(None, |s.semas|)] && newThreads == [] && sema.value == 1
        case OfThread(t) =>
          && t == |s.threads| && newLocks == [] && |newThreads| == 1 && sema.value == 0
          && newThreads[0].sema == |s.semas| && IsNew(newThreads[0]))
  }

  ghost predicate IsNew(th: Thread) {
    && th.status == Blocked && th.cont == Free
    && th.donors == [] && th.waitLock == None && th.held == {} && th.base == th.priority
  }

  lemma GrownWf(s: State, r: State, sema: Semaphore, newLocks: seq<Lock>, newThreads: seq<Thread>)
    requires Grown(s, r, sema, newLocks, newThreads)
    ensures Wf(r)
    ensures forall t :: 0 <= t < |r.threads| ==>
      if t < |s.threads| then r.threads[t] == s.threads[t] && ThreadWf(s.threads[t], |s.threads|, |s.semas|, |s.locks|)
      else IsNew(r.threads[t]) && r.threads[t].sema == |s.semas|
    ensures forall q :: 0 <= q < |r.semas| ==> r.semas[q] == if q < |s.semas| then s.semas[q] else sema
    ensures forall l :: 0 <= l < |r.locks| ==> r.locks[l] == if l < |s.locks| then s.locks[l] else Lock(None, |s.semas|)
  {
  }

  /** A bound on the elements of a list, as a fact about its multiset. */
  lemma OutOfRange(l: seq<Tid>, n: nat, t: nat)
    requires InRange(l, n) && t >= n
    ensures multiset(l)[t] == 0
  {
  }

  lemma GrownPlaced(s: State, r: State, sema: Semaphore, newLocks: seq<Lock>, newThreads: seq<Thread>)
    requires Grown(s, r, sema, newLocks, newThreads) && Wf(r) && Placed(s, true) && Sorted(s.ready, s.threads)
    ensures Placed(r, true) && Sorted(r.ready, r.threads)
  {
    GrownWf(s, r, sema, newLocks, newThreads);
    forall t | 0 <= t < |r.threads|
      ensures multiset(r.ready)[t] == One(r.threads[t].status == Ready && t != r.idle)
    {
      if t >= |s.threads| {
        OutOfRange(s.ready, |s.threads|, t);
      }
    }
    forall q, t | 0 <= q < |r.semas| && 0 <= t < |r.threads|
      ensures multiset(r.semas[q].waiters)[t] == One(Waits(r.threads[t], q))
    {
      if t >= |s.threads| && q < |s.semas| {
        OutOfRange(s.semas[q].waiters, |s.threads|, t);
      } else if q < |s.semas| {
        assert multiset(s.semas[q].waiters)[t] == One(Waits(s.threads[t], q));
      }
    }
  }

  lemma GrownOwned(s: State, r: State, sema: Semaphore, newLocks: seq<Lock>, newThreads: seq<Thread>)
    requires Grown(s, r, sema, newLocks, newThreads) && Owned(s.threads, s.semas, s.locks)
    ensures Owned(r.threads, r.semas, r.locks)
  {
    GrownWf(s, r, sema, newLocks, newThreads);
    forall t, q | 0 <= t < |r.threads| && 0 <= q < |r.semas|
      ensures Rightly(r.threads[t], r.semas[q], q)
    {
      if t < |s.threads| && q < |s.semas| {
        assert Rightly(s.threads[t], s.semas[q], q);
      }
    }
    forall l, q | 0 <= l < |r.locks| && 0 <= q < |r.semas|
      ensures r.locks[l].sema == q <==> r.semas[q].owner == OfLock(l)
    {
      if l < |s.locks| {
        assert LockWf(s.locks[l], |s.threads|, |s.semas|);
      } else if q < |s.semas| {
        assert s.semas[q].owner == s.semas[q].owner;
      }
    }
  }

  lemma GrownExclusive(s: State, r: State, sema: Semaphore, newLocks: seq<Lock>, newThreads: seq<Thread>)
    requires Grown(s, r, sema, newLocks, newThreads) && Exclusive(s.threads, s.semas, s.locks, None)
    ensures Exclusive(r.threads, r.semas, r.locks, None)
  {
  }

  lemma GrownSleepOk(s: State, r: State, sema: Semaphore, newLocks: seq<Lock>, newThreads: seq<Thread>)
    requires Grown(s, r, sema, newLocks, newThreads) && SleepOk(s.threads, s.semas, s.sleepers, None)
    ensures SleepOk(r.threads, r.semas, r.sleepers, None)
  {
  }

  lemma GrownBooks(s: State, r: State, sema: Semaphore, newLocks: seq<Lock>, newThreads: seq<Thread>)
    requires Grown(s, r, sema, newLocks, newThreads) && Books(s.threads, s.locks)
    requires WaitHeld(s.threads, s.locks) && WaitBlocked(s.threads, s.locks, None)
    ensures Books(r.threads, r.locks)
    ensures WaitHeld(r.threads, r.locks) && WaitBlocked(r.threads, r.locks, None)
  {
    GrownWf(s, r, sema, newLocks, newThreads);
    forall h, t | 0 <= h < |r.threads| && 0 <= t < |r.threads|
      ensures multiset(r.threads[h].donors)[t] == One(Donates(r.threads[t], r.locks, h))
    {
      if t < |s.threads| && s.threads[t].waitLock.Some? {
        assert LockWf(s.locks[s.threads[t].waitLock.value], |s.threads|, |s.semas|);
      }
      if h < |s.threads| && t < |s.threads| {
        assert multiset(s.threads[h].donors)[t] == One(Donates(s.threads[t], s.locks, h));
      } else if h < |s.threads| {
        OutOfRange(s.threads[h].donors, |s.threads|, t);
      }
    }
  }

  lemma GrownKeeps(s: State, r: State, sema: Semaphore, newLocks: seq<Lock>, newThreads: seq<Thread>)
    requires Grown(s, r, sema, newLocks, newThreads) && Mid(s, Steady)
    ensures Mid(r, Steady)
  {
    GrownWf(s, r, sema, newLocks, newThreads);
    GrownPlaced(s, r, sema, newLocks, newThreads);
    GrownOwned(s, r, sema, newLocks, newThreads);
    GrownExclusive(s, r, sema, newLocks, newThreads);
    GrownSleepOk(s, r, sema, newLocks, newThreads);
    GrownBooks(s, r, sema, newLocks, newThreads);
  }
}
