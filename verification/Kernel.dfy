/** The scheduler as the kernel runs it: global lists and thread records updated in place.
    Every method is proved to do what the function of ThreadState of the same name says. */
module Kernel {
  import opened Common
  import opened ThreadState
  import opened ThreadInvariants
  import opened ThreadSteps

  class Scheduler {
    var threads: seq<Thread>
    var ready: seq<Tid>
    var semas: seq<Semaphore>
    var locks: seq<Lock>
    var sleepers: seq<Tid>
    var current: Tid
    var idle: Tid
    var ticks: int
    var threadTicks: nat
    var inIntr: bool
    var yieldOnReturn: bool

    function St(): State
      reads this
    {
      State(threads, ready, semas, locks, sleepers, current, idle, ticks, threadTicks, inIntr, yieldOnReturn)
    }

    // ---------- thread.c ----------

    method NextThreadToRun() returns (next: Tid)
      requires Wf(St())
      modifies this`ready
      ensures next == if old(ready) == [] then idle else old(ready)[0]
      ensures ready == if old(ready) == [] then [] else old(ready)[1..]
    {
      if ready == [] {
        next := idle;
      } else {
        next := ready[0];
        ready := ready[1..];
      }
    }

    method RunSchedule()
      requires Wf(St())
      modifies this
      ensures St() == Schedule(old(St()))
    {
      var next := NextThreadToRun();
      current := next;
      threads := threads[next := threads[next].(status := Running)];
      threadTicks := 0;
    }

    method ThreadBlock()
      requires Wf(St())
      modifies this
      ensures St() == Block(old(St()))
    {
      threads := threads[current := threads[current].(status := Blocked)];
      RunSchedule();
    }

    method ThreadUnblock(t: Tid)
      requires Wf(St()) && t < |threads| && threads[t].status == Blocked
      modifies this
      ensures St() == Unblock(old(St()), t)
    {
      ready := InsertOrdered(ready, threads, t);
      threads := threads[t := threads[t].(status := Ready)];
    }

    method ThreadYield()
      requires Wf(St())
      modifies this
      ensures St() == Yield(old(St()))
    {
      if current != idle {
        ready := InsertOrdered(ready, threads, current);
      }
      threads := threads[current := threads[current].(status := Ready)];
      RunSchedule();
    }

    method ThreadExit()
      requires Wf(St())
      modifies this
      ensures St() == Exit(old(St()))
    {
      threads := threads[current := threads[current].(status := Dying)];
      RunSchedule();
    }

    method ThreadSuperYield()
      requires Wf(St())
      modifies this
      ensures St() == SuperYield(old(St()))
    {
      if ready != [] {
        var t := ready[0];
        if !inIntr {
          if threads[current].priority < threads[t].priority {
            ThreadYield();
          }
        } else if threads[current].priority < threads[t].priority {
          yieldOnReturn := true;
        }
      }
    }

    method ThreadSetPriority(priority: int)
      requires Wf(St())
      modifies this
      ensures St() == SetOwnPriority(old(St()), priority)
    {
      var th := threads[current];
      if th.donors != [] {
        if priority > th.priority {
          threads := threads[current := th.(priority := priority)];
        } else {
          threads := threads[current := th.(oriPriority := priority, base := priority)];
        }
      } else {
        threads := threads[current := th.(priority := priority, base := priority)];
      }
      ThreadSuperYield();
    }

    /** thread_create; `memory` tells whether there is a page for the thread, and None is
        TID_ERROR. */
    method ThreadCreate(priority: int, memory: bool) returns (r: Option<Tid>)
      requires Wf(St())
      modifies this
      ensures r == if memory then Some(|old(threads)|) else None
      ensures St() == if memory then Create(old(St()), priority) else old(St())
    {
      if !memory {
        return None;
      }
      var tid := |threads|;
      r := Some(tid);
      threads := threads + [Thread(Blocked, priority, 0, [], None, |semas|, 0, Free, {}, priority)];
      semas := semas + [Semaphore(0, [], OfThread(tid), 0, 0, 0)];
      ghost var made := St();
      assert made == NewThread(old(St()), priority);
      ThreadUnblock(tid);
      ThreadSuperYield();
    }

    // ---------- donation ----------

    /** The records of donation. */
    method RecordDonor(l: nat) returns (holder: Tid)
      requires Wf(St()) && l < |locks| && locks[l].holder.Some? && locks[l].holder != Some(current)
      modifies this`threads
      ensures holder < |threads| && locks[l].holder == Some(holder)
      ensures St() == RecordDonation(old(St()), l, holder)
    {
      holder := locks[l].holder.value;
      assert LockWf(locks[l], |threads|, |semas|);
      var t := current;
      if threads[holder].donors == [] {
        threads := threads[holder := threads[holder].(oriPriority := threads[holder].priority)];
      }
      threads := threads[t := threads[t].(waitLock := Some(l))];
      threads := threads[holder := threads[holder].(donors := [t] + threads[holder].donors)];
    }

    /** The walk along the chain of holders: at most nine further ones, even when the chain
        is a cycle. */
    method RaiseHolders(holder: Tid, priority: int)
      requires Wf(St()) && WaitHeld(threads, locks) && holder < |threads|
      modifies this`threads
      ensures St() == DonateFrom(old(St()), holder, priority, 0)
    {
      hide DonateFrom, Wf, WaitHeld;
      ghost var s := St();
      ghost var result := DonateFrom(s, holder, priority, 0);
      var donated := holder;
      var depth := 0;
      threads := threads[donated := threads[donated].(priority := priority)];
      assert St() == SetPriority(s, donated, priority);
      DonateAgain(s, donated, priority, 0);
      while threads[donated].waitLock.Some? && depth <= MAX_DEPTH
        invariant Wf(St()) && WaitHeld(threads, locks) && donated < |threads|
        invariant 0 <= depth <= MAX_DEPTH + 1
        invariant SetPriority(St(), donated, priority) == St()
        invariant DonateFrom(St(), donated, priority, depth) == result
        decreases MAX_DEPTH + 1 - depth
      {
        s := St();
        NextHolder(s, donated);
        DonateOn(s, donated, priority, depth);
        depth := depth + 1;
        donated := locks[threads[donated].waitLock.value].holder.value;
        threads := threads[donated := threads[donated].(priority := priority)];
        assert St() == SetPriority(s, donated, priority);
        DonateAgain(s, donated, priority, depth);
      }
      DonateEnd(St(), donated, priority, depth);
    }

    /** donation. */
    method Donate(l: nat)
      requires Wf(St()) && WaitHeld(threads, locks) && l < |locks| && locks[l].holder.Some?
      requires locks[l].holder != Some(current)
      modifies this`threads, this`ready
      ensures St() == Donation(old(St()), l)
    {
      var priority := threads[current].priority;
      var holder := RecordDonor(l);
      RaiseHolders(holder, priority);
      ready := StableSort(ready, threads);
    }

    /** The loop of donation_back: donors that wait for l leave the list and stop waiting. */
    method DropDonors(l: nat) returns (left: seq<Tid>)
      requires current < |threads| && InRange(threads[current].donors, |threads|)
      requires NoRepeats(threads[current].donors)
      modifies this`threads
      ensures threads == ClearWaits(old(threads), old(threads[current].donors), l)
      ensures left == OtherDonors(old(threads[current].donors), old(threads), l)
    {
      ghost var donors, ts := threads[current].donors, threads;
      left := threads[current].donors;
      var e := 0;
      while e < |left|
        invariant Dropping(donors, ts, left, threads, e, l)
        decreases |left| - e
      {
        var d := left[e];
        if threads[d].waitLock == Some(l) {
          DropWaiting(donors, ts, left, threads, e, l);
          threads := threads[d := threads[d].(waitLock := None)];
          left := left[..e] + left[e + 1..];
        } else {
          DropOther(donors, ts, left, threads, e, l);
          e := e + 1;
        }
      }
      DropEnd(donors, ts, left, threads, e, l);
    }

    /** donation_back. */
    method GiveBack(l: nat)
      requires Wf(St()) && l < |locks|
      requires NoRepeats(threads[current].donors)
      modifies this`threads, this`ready
      ensures St() == DonationBack(old(St()), l)
    {
      hide BackThreads, ClearWaits, OtherDonors, DonationBack, StableSort, Wf;
      ghost var s := St();
      GivesBack(s, l);
      var left := DropDonors(l);
      var priority := if left != [] then threads[left[0]].priority else threads[current].oriPriority;
      threads := threads[current := threads[current].(donors := left, priority := priority)];
      ready := StableSort(ready, threads);
    }

    // ---------- synch.c ----------

    method InitSema(value: nat) returns (q: nat)
      requires Wf(St())
      modifies this`semas
      ensures q == |old(semas)| && St() == SemaInit(old(St()), value)
    {
      q := |semas|;
      semas := semas + [Semaphore(value, [], User, value, 0, 0)];
    }

    method InitLock() returns (l: nat)
      requires Wf(St())
      modifies this`semas, this`locks
      ensures l == |old(locks)| && St() == LockInit(old(St()))
    {
      l := |locks|;
      semas := semas + [Semaphore(1, [], OfLock(l), 1, 0, 0)];
      locks := locks + [Lock(None, |semas| - 1)];
    }

    /** One pass of the loop of sema_down, which ends by waiting or by returning; `onto` is
        the lock when lock_acquire is the caller. */
    method DownPass(q: nat, onto: Option<nat>)
      requires Wf(St()) && q < |semas| && (onto.Some? ==> onto.value < |locks|)
      modifies this
      ensures St() == DownOnce(old(St()), q, onto)
    {
      if semas[q].value == 0 {
        semas := semas[q := semas[q].(waiters := InsertOrdered(semas[q].waiters, threads, current))];
        threads := threads[current := threads[current].(cont := Down(q, onto))];
        threads := threads[current := threads[current].(status := Blocked)];
        assert St() == JoinWaiters(old(St()), q, onto);
        RunSchedule();
      } else {
        semas := semas[q := semas[q].(value := semas[q].value - 1, downs := semas[q].downs + 1)];
        threads := threads[current := threads[current].(cont := Free)];
        if onto.Some? {
          locks := locks[onto.value := locks[onto.value].(holder := Some(current))];
          threads := threads[current := threads[current].(held := threads[current].held + {onto.value})];
        }
        assert St() == Proceed(old(St()), q, onto);
      }
    }

    method TryDown(q: nat) returns (success: bool)
      requires Wf(St()) && q < |semas|
      modifies this`semas
      ensures St() == SemaTryDown(old(St()), q)
      ensures success <==> old(semas)[q].value > 0
    {
      success := false;
      if semas[q].value > 0 {
        semas := semas[q := semas[q].(value := semas[q].value - 1, downs := semas[q].downs + 1)];
        success := true;
      }
    }

    /** thread_unblock of the front of the sorted waiters. */
    method UnblockFront(q: nat)
      requires Wf(St()) && q < |semas| && semas[q].waiters != []
      requires forall u :: u in semas[q].waiters ==> u < |threads| && threads[u].status == Blocked
      modifies this
      ensures St() == FrontUnblocked(old(St()), q)
    {
      hide Wake, InsertOrdered, StableSort;
      WakeUnfolds(St(), q);
      var w := StableSort(semas[q].waiters, threads);
      semas := semas[q := semas[q].(waiters := w[1..])];
      ThreadUnblock(w[0]);
    }

    /** sema_up before thread_super_yield. */
    method WakeFront(q: nat)
      requires Wf(St()) && q < |semas|
      requires forall u :: u in semas[q].waiters ==> u < |threads| && threads[u].status == Blocked
      modifies this
      ensures St() == Wake(old(St()), q)
    {
      hide Wake, StableSort, InsertOrdered;
      ghost var s := St();
      WakeUnfolds(s, q);
      if semas[q].waiters != [] {
        UnblockFront(q);
      }
      UpTwice(s.semas, q, semas[q].waiters);
      semas := semas[q := semas[q].(value := semas[q].value + 1, ups := semas[q].ups + 1)];
    }

    method Up(q: nat)
      requires Wf(St()) && q < |semas|
      requires forall u :: u in semas[q].waiters ==> u < |threads| && threads[u].status == Blocked
      modifies this
      ensures St() == SemaUp(old(St()), q)
    {
      WakeFront(q);
      ThreadSuperYield();
    }

    method Acquire(l: nat)
      requires Wf(St()) && WaitHeld(threads, locks) && l < |locks| && locks[l].holder != Some(current)
      modifies this
      ensures St() == LockAcquire(old(St()), l)
    {
      assert LockWf(locks[l], |threads|, |semas|);
      if locks[l].holder.Some? {
        Donate(l);
      }
      DownPass(locks[l].sema, Some(l));
    }

    method TryAcquire(l: nat) returns (success: bool)
      requires Wf(St()) && l < |locks| && locks[l].holder != Some(current) && threads[current].cont == Free
      modifies this
      ensures St() == LockTryAcquire(old(St()), l)
    {
      assert LockWf(locks[l], |threads|, |semas|);
      success := TryDown(locks[l].sema);
      if success {
        locks := locks[l := locks[l].(holder := Some(current))];
        threads := threads[current := threads[current].(held := threads[current].held + {l})];
        assert St() == Proceed(old(St()), locks[l].sema, Some(l));
      }
    }

    /** lock_release before sema_up. */
    method Unhold(l: nat)
      requires Wf(St()) && l < |locks| && NoRepeats(threads[current].donors)
      modifies this`locks, this`threads, this`ready
      ensures St() == LetGo(old(St()), l)
    {
      locks := locks[l := locks[l].(holder := None)];
      threads := threads[current := threads[current].(held := threads[current].held - {l})];
      if threads[current].donors != [] && semas[locks[l].sema].waiters != [] {
        GiveBack(l);
      }
    }

    method Release(l: nat)
      requires Inv(St()) && l < |locks| && locks[l].holder == Some(current)
      modifies this
      ensures St() == LockRelease(old(St()), l)
    {
      ghost var s := St();
      ReleasedWaitersBlocked(s, l);
      DonorsDiffer(s);
      Unhold(l);
      Up(locks[l].sema);
    }

    // ---------- timer.c ----------

    method TimerSleep(n: int)
      requires Wf(St())
      modifies this
      ensures St() == Sleep(old(St()), n)
    {
      if n > 0 {
        threads := threads[current := threads[current].(wakeup := ticks + n)];
        sleepers := sleepers + [current];
        assert St() == SetAlarm(old(St()), n);
        DownPass(threads[current].sema, None);
      }
    }

    /** thread_tick with thread_mlfqs false. */
    method Tock()
      requires Wf(St())
      modifies this`threadTicks, this`yieldOnReturn
      ensures St() == ThreadTick(old(St()))
    {
      threadTicks := threadTicks + 1;
      if threadTicks >= TIME_SLICE {
        if ready != [] {
          if threads[current].priority == threads[ready[0]].priority {
            yieldOnReturn := true;
          }
        } else {
          threadTicks := 0;
        }
      }
    }

    /** sema_up in an interrupt. */
    method UpInIntr(q: nat)
      requires Mid(St(), Steady) && inIntr && q < |semas|
      modifies this
      ensures St() == Ring(Wake(old(St()), q))
    {
      WaitersBlocked(St(), q);
      Up(q);
    }

    /** The loop of timer_interrupt, which takes sleepers off the list while it walks it. */
    method WakeDue()
      requires Mid(St(), Steady) && inIntr
      modifies this
      ensures St() == WakeSleepers(old(St()), 0)
    {
      hide Rest, Placed, Sorted, Wf, WakeSleepers, Wake, Ring;
      MidIsWf(St());
      ghost var result := WakeSleepers(St(), 0);
      var e := 0;
      while e < |sleepers|
        invariant 0 <= e <= |sleepers| && IntrMid(St(), false)
        invariant WakeSleepers(St(), e) == result
        decreases |sleepers| - e
      {
        ghost var s := St();
        StepOfLoop(s, e);
        var t := sleepers[e];
        if ticks >= threads[t].wakeup {
          UpInIntr(threads[t].sema);
          sleepers := sleepers[..e] + sleepers[e + 1..];
          assert St() == DropSleeper(Ring(Wake(s, s.threads[t].sema)), e);
        } else {
          e := e + 1;
        }
      }
      LoopEnds(St());
    }

    method TimerInterrupt()
      requires Mid(St(), Steady) && inIntr
      modifies this
      ensures St() == ThreadTick(WakeSleepers(Tick(old(St())), 0))
    {
      hide Rest, Placed, Sorted, Wf, WakeSleepers;
      ghost var s := St();
      MidIsWf(s);
      ticks := ticks + 1;
      TickedMid(s);
      WakeDue();
      Tock();
    }

    /** intr_handler for the timer, with the deferred yield. */
    method OnTimer()
      requires Inv(St())
      modifies this
      ensures St() == TimerStep(old(St()))
    {
      hide Mid;
      ghost var s := St();
      TickMid(s);
      TimerLoopMid(Tick(EnterIntr(s)), false);
      EnteredMid(s);
      MidIsWf(ThreadTick(WakeSleepers(Tick(EnterIntr(s)), 0)));
      inIntr := true;
      yieldOnReturn := false;
      TimerInterrupt();
      inIntr := false;
      if yieldOnReturn {
        ThreadYield();
      }
    }

    /** intr_handler for a device whose handler ups a semaphore. */
    method OnDevice(q: nat)
      requires Inv(St()) && q < |semas| && semas[q].owner == User
      modifies this
      ensures St() == DeviceStep(old(St()), q)
    {
      inIntr := true;
      yieldOnReturn := false;
      UpInIntr(q);
      inIntr := false;
      if yieldOnReturn {
        ThreadYield();
      }
    }
  }

  lemma WaitersBlocked(s: State, q: nat)
    requires Mid(s, Steady) && q < |s.semas|
    ensures forall u :: u in s.semas[q].waiters ==> u < |s.threads| && s.threads[u].status == Blocked
  {
    forall u | u in s.semas[q].waiters
      ensures u < |s.threads| && s.threads[u].status == Blocked
    {
      assert multiset(s.semas[q].waiters)[u] > 0;
      assert Waits(s.threads[u], q);
    }
  }

  lemma MidIsWf(s: State)
    requires Mid(s, Steady)
    ensures Wf(s)
  {
  }

  lemma EnteredMid(s: State)
    requires Mid(s, Steady)
    ensures Mid(EnterIntr(s), Steady)
  {
  }

  lemma TickedMid(s: State)
    requires Mid(s, Steady) && s.inIntr
    ensures Wf(s) && Mid(Tick(s), Steady) && Tick(s).inIntr
    ensures Wf(WakeSleepers(Tick(s), 0))
  {
    WakeSleepersMid(Tick(s), 0, false);
  }

  lemma LoopEnds(s: State)
    requires Wf(s)
    ensures WakeSleepers(s, |s.sleepers|) == s
  {
  }

  lemma StepOfLoop(s: State, e: nat)
    requires IntrMid(s, false) && e < |s.sleepers|
    ensures Wf(s) && Mid(s, Steady) && s.sleepers[e] < |s.threads| && s.threads[s.sleepers[e]].sema < |s.semas|
    ensures var t := s.sleepers[e];
      var r := if s.ticks >= s.threads[t].wakeup then DropSleeper(Ring(Wake(s, s.threads[t].sema)), e) else s;
      var e' := if s.ticks >= s.threads[t].wakeup then e else e + 1;
      IntrMid(r, false) && e' <= |r.sleepers| && WakeSleepers(s, e) == WakeSleepers(r, e')
  {
    hide Rest, Placed, Sorted;
    assert ThreadWf(s.threads[s.sleepers[e]], |s.threads|, |s.semas|, |s.locks|);
    if s.ticks >= s.threads[s.sleepers[e]].wakeup {
      WakeOneMid(s, e, false);
    }
    hide Mid, Wf, Wake, Ring;
  }

  lemma DonateAgain(s: State, h: Tid, priority: int, depth: nat)
    requires Wf(s) && WaitHeld(s.threads, s.locks) && h < |s.threads| && depth <= MAX_DEPTH + 1
    ensures var s' := SetPriority(s, h, priority);
      WaitHeld(s'.threads, s'.locks) &&
      SetPriority(s', h, priority) == s' &&
      DonateFrom(s', h, priority, depth) == DonateFrom(s, h, priority, depth)
  {
    var s' := SetPriority(s, h, priority);
    assert SetPriority(s', h, priority).threads == s'.threads;
  }

  lemma NextHolder(s: State, h: Tid)
    requires Wf(s) && WaitHeld(s.threads, s.locks) && h < |s.threads| && s.threads[h].waitLock.Some?
    ensures s.threads[h].waitLock.value < |s.locks| && s.locks[s.threads[h].waitLock.value].holder.Some?
    ensures s.locks[s.threads[h].waitLock.value].holder.value < |s.threads|
  {
  }

  lemma DonateOn(s: State, h: Tid, priority: int, depth: nat)
    requires Wf(s) && WaitHeld(s.threads, s.locks) && h < |s.threads| && depth <= MAX_DEPTH
    requires SetPriority(s, h, priority) == s && s.threads[h].waitLock.Some?
    ensures var h' := s.locks[s.threads[h].waitLock.value].holder.value;
      h' < |s.threads| && DonateFrom(s, h, priority, depth) == DonateFrom(s, h', priority, depth + 1)
  {
  }

  lemma DonateEnd(s: State, h: Tid, priority: int, depth: nat)
    requires Wf(s) && WaitHeld(s.threads, s.locks) && h < |s.threads| && depth <= MAX_DEPTH + 1
    requires SetPriority(s, h, priority) == s && (s.threads[h].waitLock.None? || depth > MAX_DEPTH)
    ensures DonateFrom(s, h, priority, depth) == s
  {
  }

  ghost predicate NoRepeats(l: seq<Tid>) {
    forall i, j :: 0 <= i < j < |l| ==> l[i] != l[j]
  }

  /** Where the loop of donation_back stands at position e of the list that is left. */
  ghost predicate Dropping(donors: seq<Tid>, ts: seq<Thread>, left: seq<Tid>, ts': seq<Thread>, e: int, l: nat) {
    && DropsInto(ts, left, ts', e)
    && InRange(donors, |ts|)
    && ClearWaits(ts', left[e..], l) == ClearWaits(ts, donors, l)
    && left[..e] + OtherDonors(left[e..], ts, l) == OtherDonors(donors, ts, l)
  }

  ghost predicate DropsInto(ts: seq<Thread>, left: seq<Tid>, ts': seq<Thread>, e: int) {
    && 0 <= e <= |left| && |ts'| == |ts|
    && InRange(left, |ts|) && NoRepeats(left)
    && InRange(left[e..], |ts|)
    && forall i :: e <= i < |left| ==> ts'[left[i]].waitLock == ts[left[i]].waitLock
  }

  lemma DropShifts(ts: seq<Thread>, left: seq<Tid>, ts': seq<Thread>, e: int)
    requires DropsInto(ts, left, ts', e) && e < |left|
    ensures DropsInto(ts, left[..e] + left[e + 1..], ts'[left[e] := ts'[left[e]].(waitLock := None)], e)
    ensures DropsInto(ts, left, ts', e + 1)
    ensures left[e..] == [left[e]] + left[e + 1..] && InRange(left[e + 1..], |ts|)
    ensures left[..e + 1] == left[..e] + [left[e]]
    ensures (left[..e] + left[e + 1..])[e..] == left[e + 1..]
    ensures (left[..e] + left[e + 1..])[..e] == left[..e]
  {
    var shorter := left[..e] + left[e + 1..];
    assert forall i :: 0 <= i < |shorter| ==> shorter[i] == left[if i < e then i else i + 1];
  }

  lemma DropWaiting(donors: seq<Tid>, ts: seq<Thread>, left: seq<Tid>, ts': seq<Thread>, e: int, l: nat)
    requires Dropping(donors, ts, left, ts', e, l) && e < |left| && ts'[left[e]].waitLock == Some(l)
    ensures Dropping(donors, ts, left[..e] + left[e + 1..],
                     ts'[left[e] := ts'[left[e]].(waitLock := None)], e, l)
  {
    DropShifts(ts, left, ts', e);
    ClearOne(ts', left[e], left[e + 1..], l);
    OtherOne(ts, left[e], left[e + 1..], l);
    hide ClearWaits, OtherDonors, DropsInto, InRange;
  }

  lemma DropOther(donors: seq<Tid>, ts: seq<Thread>, left: seq<Tid>, ts': seq<Thread>, e: int, l: nat)
    requires Dropping(donors, ts, left, ts', e, l) && e < |left| && ts'[left[e]].waitLock != Some(l)
    ensures Dropping(donors, ts, left, ts', e + 1, l)
  {
    DropShifts(ts, left, ts', e);
    ClearOne(ts', left[e], left[e + 1..], l);
    OtherOne(ts, left[e], left[e + 1..], l);
    hide ClearWaits, OtherDonors, DropsInto, InRange;
    Regroup(left[..e], left[e], OtherDonors(left[e + 1..], ts, l));
  }

  lemma Regroup(a: seq<Tid>, d: Tid, b: seq<Tid>)
    ensures a + ([d] + b) == a + [d] + b
  {
  }

  lemma ClearOne(ts: seq<Thread>, d: Tid, rest: seq<Tid>, l: nat)
    requires d < |ts| && InRange(rest, |ts|)
    ensures InRange([d] + rest, |ts|)
    ensures ClearWaits(ts, [d] + rest, l) ==
      ClearWaits(if ts[d].waitLock == Some(l) then ts[d := ts[d].(waitLock := None)] else ts, rest, l)
  {
    assert ([d] + rest)[1..] == rest;
  }

  lemma OtherOne(ts: seq<Thread>, d: Tid, rest: seq<Tid>, l: nat)
    requires d < |ts| && InRange(rest, |ts|)
    ensures InRange([d] + rest, |ts|)
    ensures OtherDonors([d] + rest, ts, l) ==
      if ts[d].waitLock == Some(l) then OtherDonors(rest, ts, l) else [d] + OtherDonors(rest, ts, l)
  {
    assert ([d] + rest)[1..] == rest;
    assert [] + OtherDonors(rest, ts, l) == OtherDonors(rest, ts, l);
  }

  lemma DropEnd(donors: seq<Tid>, ts: seq<Thread>, left: seq<Tid>, ts': seq<Thread>, e: int, l: nat)
    requires Dropping(donors, ts, left, ts', e, l) && e == |left|
    ensures ts' == ClearWaits(ts, donors, l) && left == OtherDonors(donors, ts, l)
  {
    assert left[..e] == left && left[e..] == [];
  }

  lemma GivesBack(s: State, l: nat)
    requires Wf(s) && l < |s.locks|
    ensures s.current < |s.threads| && InRange(s.threads[s.current].donors, |s.threads|) && InRange(s.ready, |s.threads|)
    ensures var ts := ClearWaits(s.threads, s.threads[s.current].donors, l);
      var left := OtherDonors(s.threads[s.current].donors, s.threads, l);
      InRange(left, |ts|) && (left != [] ==> left[0] < |ts|) &&
      var ts' := ts[s.current := ts[s.current].(donors := left,
        priority := if left != [] then ts[left[0]].priority else ts[s.current].oriPriority)];
      InRange(s.ready, |ts'|) && DonationBack(s, l) == s.(threads := ts', ready := StableSort(s.ready, ts'))
  {
  }

  lemma DonorsDiffer(s: State)
    requires Wf(s) && Books(s.threads, s.locks)
    ensures NoRepeats(s.threads[s.current].donors)
  {
    var l := s.threads[s.current].donors;
    forall i, j | 0 <= i < j < |l|
      ensures l[i] != l[j]
    {
      assert multiset(l)[l[i]] <= 1;
      assert l == l[..i] + [l[i]] + l[i + 1..j] + [l[j]] + l[j + 1..];
    }
  }

  /** The first of the sorted waiters of q is taken off the list and unblocked. */
  function FrontUnblocked(s: State, q: nat): (r: State)
    requires Wf(s) && q < |s.semas| && s.semas[q].waiters != []
    ensures Wf(r)
  {
    var w := StableSort(s.semas[q].waiters, s.threads);
    assert |multiset(w)| == |multiset(s.semas[q].waiters)|;
    Unblock(s.(semas := s.semas[q := s.semas[q].(waiters := w[1..])]), w[0])
  }

  lemma WakeUnfolds(s: State, q: nat)
    requires Wf(s) && q < |s.semas|
    ensures var w := StableSort(s.semas[q].waiters, s.threads);
      if s.semas[q].waiters == [] then Wake(s, q) == s.(semas := UpSemas(s.semas, q, []))
      else w != [] && w[0] in s.semas[q].waiters && Wake(s, q) == WakeFirst(s, q, w)
  {
    var w := StableSort(s.semas[q].waiters, s.threads);
    assert |multiset(w)| == |multiset(s.semas[q].waiters)|;
    if w != [] {
      assert w[0] in multiset(w);
    }
  }

  lemma UpTwice(semas: seq<Semaphore>, q: nat, ws: seq<Tid>)
    requires q < |semas|
    ensures semas[q := semas[q].(waiters := ws)]
                 [q := semas[q].(waiters := ws, value := semas[q].value + 1, ups := semas[q].ups + 1)]
            == UpSemas(semas, q, ws)
    ensures semas[q := semas[q].(waiters := semas[q].waiters)] == semas
  {
  }

  /** After the release of l its waiters are still blocked. */
  lemma ReleasedWaitersBlocked(s: State, l: nat)
    requires Inv(s) && l < |s.locks| && s.locks[l].holder == Some(s.current)
    ensures s.locks[l].sema < |s.semas|
    ensures var g := LetGo(s, l);
      forall u :: u in g.semas[s.locks[l].sema].waiters ==> u < |g.threads| && g.threads[u].status == Blocked
  {
    hide LetGo, Owned, Conserved, Exclusive, SleepOk, Books, WaitHeld, WaitBlocked, Sorted;
    var q := s.locks[l].sema;
    assert LockWf(s.locks[l], |s.threads|, |s.semas|);
    LetGoKeeps(s, l);
    LetGoEffect(s, l);
    forall u | u in s.semas[q].waiters
      ensures u < |s.threads| && LetGo(s, l).threads[u].status == Blocked
    {
      assert multiset(s.semas[q].waiters)[u] > 0;
      assert Waits(s.threads[u], q);
    }
  }
}
