/** Threads, semaphores and locks of the strict-priority scheduler, and what each kernel
    primitive does to them.  Every primitive is one function from state to state. */
module ThreadState {

  import opened Common

  /** An index into State.threads: the identity of a thread. */
  type Tid = nat

  const PRI_MIN := 0
  const PRI_MAX := 63
  const MAX_DEPTH := 8
  const TIME_SLICE := 4

  datatype Status = Running | Ready | Blocked | Dying

  /** Where a thread continues when it is next scheduled: in its own code, or at the top of
      the loop of sema_down, reached directly or from lock_acquire of lock `onto`. */
  datatype Cont = Free | Down(sema: nat, onto: Option<nat>)

  /** `held` and `base` are history: the locks acquired and not yet released, and the
      priority that the thread has when nobody donates to it. */
  datatype Thread = Thread(
    status: Status,
    priority: int,
    oriPriority: int,
    donors: seq<Tid>,
    waitLock: Option<nat>,
    sema: nat,
    wakeup: int,
    cont: Cont,
    held: set<nat>,
    base: int)

  datatype Owner = User | OfLock(lock: nat) | OfThread(tid: Tid)

  /** `initial`, `ups` and `downs` are history: the value at sema_init, the calls of sema_up
      and the completed downs. */
  datatype Semaphore = Semaphore(
    value: nat,
    waiters: seq<Tid>,
    owner: Owner,
    initial: nat,
    ups: nat,
    downs: nat)

  datatype Lock = Lock(holder: Option<Tid>, sema: nat)

  datatype State = State(
    threads: seq<Thread>,
    ready: seq<Tid>,
    semas: seq<Semaphore>,
    locks: seq<Lock>,
    sleepers: seq<Tid>,
    current: Tid,
    idle: Tid,
    ticks: int,
    threadTicks: nat,
    inIntr: bool,
    yieldOnReturn: bool)

  // ---------- references stay in range ----------

  ghost predicate InRange(l: seq<Tid>, n: nat) {
    forall i :: 0 <= i < |l| ==> l[i] < n
  }

  ghost predicate ThreadWf(th: Thread, threads: nat, semas: nat, locks: nat) {
    && InRange(th.donors, threads)
    && (th.waitLock.Some? ==> th.waitLock.value < locks)
    && th.sema < semas
    && (th.cont.Down? ==> th.cont.sema < semas)
    && (th.cont.Down? && th.cont.onto.Some? ==> th.cont.onto.value < locks)
  }

  ghost predicate LockWf(l: Lock, threads: nat, semas: nat) {
    && l.sema < semas
    && (l.holder.Some? ==> l.holder.value < threads)
  }

  ghost predicate Wf(s: State) {
    && s.current < |s.threads|
    && s.idle < |s.threads|
    && InRange(s.ready, |s.threads|)
    && InRange(s.sleepers, |s.threads|)
    && (forall t :: 0 <= t < |s.threads| ==> ThreadWf(s.threads[t], |s.threads|, |s.semas|, |s.locks|))
    && (forall q :: 0 <= q < |s.semas| ==> InRange(s.semas[q].waiters, |s.threads|))
    && (forall l :: 0 <= l < |s.locks| ==> LockWf(s.locks[l], |s.threads|, |s.semas|))
  }

  /** A recorded wait_lock always has a holder: what the chain walk of donation relies on. */
  ghost predicate WaitHeld(ts: seq<Thread>, locks: seq<Lock>) {
    forall t :: 0 <= t < |ts| && ts[t].waitLock.Some? && ts[t].waitLock.value < |locks| ==>
      locks[ts[t].waitLock.value].holder.Some?
  }

  // ---------- lists ordered by priority ----------

  /** Descending priority. */
  ghost predicate Sorted(l: seq<Tid>, ts: seq<Thread>)
    requires InRange(l, |ts|)
  {
    forall i, j {:trigger ts[l[i]], ts[l[j]]} :: 0 <= i < j < |l| ==> ts[l[i]].priority >= ts[l[j]].priority
  }

  /** list_insert_ordered with compare_thread_priority: before the first strictly smaller. */
  function InsertOrdered(l: seq<Tid>, ts: seq<Thread>, t: Tid): (r: seq<Tid>)
    requires t < |ts| && InRange(l, |ts|)
    ensures InRange(r, |ts|)
    ensures multiset(r) == multiset(l) + multiset{t}
  {
    if l == [] then [t]
    else if ts[t].priority > ts[l[0]].priority then [t] + l
    else
      assert l == [l[0]] + l[1..];
      [l[0]] + InsertOrdered(l[1..], ts, t)
  }

  /** list_sort with compare_thread_priority: the stable sort by descending priority. */
  function StableSort(l: seq<Tid>, ts: seq<Thread>): (r: seq<Tid>)
    requires InRange(l, |ts|)
    ensures InRange(r, |ts|)
    ensures multiset(r) == multiset(l)
  {
    if l == [] then []
    else
      assert l == l[..|l| - 1] + [l[|l| - 1]];
      InsertOrdered(StableSort(l[..|l| - 1], ts), ts, l[|l| - 1])
  }

  lemma InsertedFrom(l: seq<Tid>, r: seq<Tid>, t: Tid, j: nat)
    requires multiset(r) == multiset(l) + multiset{t} && j < |r|
    ensures r[j] in l || r[j] == t
  {
    assert r[j] in multiset(r);
  }

  lemma {:induction false} InsertOrderedSorted(l: seq<Tid>, ts: seq<Thread>, t: Tid)
    requires t < |ts| && InRange(l, |ts|) && Sorted(l, ts)
    ensures Sorted(InsertOrdered(l, ts, t), ts)
  {
    if l != [] && ts[t].priority <= ts[l[0]].priority {
      InsertOrderedSorted(l[1..], ts, t);
      var rest := InsertOrdered(l[1..], ts, t);
      forall j | 0 <= j < |rest|
        ensures ts[l[0]].priority >= ts[rest[j]].priority
      {
        InsertedFrom(l[1..], rest, t, j);
      }
    }
  }

  lemma {:induction false} StableSortSorted(l: seq<Tid>, ts: seq<Thread>)
    requires InRange(l, |ts|)
    ensures Sorted(StableSort(l, ts), ts)
  {
    if l != [] {
      StableSortSorted(l[..|l| - 1], ts);
      InsertOrderedSorted(StableSort(l[..|l| - 1], ts), ts, l[|l| - 1]);
    }
  }

  /** Nothing is created, and time and the sleep list stand still. */
  ghost predicate SameShape(s: State, r: State) {
    && |r.threads| == |s.threads|
    && |r.semas| == |s.semas|
    && |r.locks| == |s.locks|
    && r.sleepers == s.sleepers
    && r.idle == s.idle
    && r.ticks == s.ticks
    && r.inIntr == s.inIntr
  }

  // ---------- thread.c ----------

  function PriorityOf(s: State, t: Tid): int
    requires t < |s.threads|
  {
    s.threads[t].priority
  }

  function SetThread(s: State, t: Tid, th: Thread): (r: State)
    requires Wf(s) && t < |s.threads| && ThreadWf(th, |s.threads|, |s.semas|, |s.locks|)
    ensures Wf(r)
  {
    s.(threads := s.threads[t := th])
  }

  function SortReady(s: State): (r: State)
    requires Wf(s)
    ensures Wf(r)
  {
    s.(ready := StableSort(s.ready, s.threads))
  }

  function SetStatus(s: State, t: Tid, status: Status): (r: State)
    requires Wf(s) && t < |s.threads|
    ensures Wf(r)
  {
    SetThread(s, t, s.threads[t].(status := status))
  }

  function SetPriority(s: State, t: Tid, priority: int): (r: State)
    requires Wf(s) && t < |s.threads|
    ensures Wf(r)
  {
    SetThread(s, t, s.threads[t].(priority := priority))
  }

  /** next_thread_to_run, schedule and thread_schedule_tail. */
  function Schedule(s: State): (r: State)
    requires Wf(s)
    ensures Wf(r)
    ensures SameShape(s, r)
  {
    var next := if s.ready == [] then s.idle else s.ready[0];
    var rest := if s.ready == [] then [] else s.ready[1..];
    SetStatus(s.(ready := rest, current := next, threadTicks := 0), next, Running)
  }

  /** thread_block. */
  function Block(s: State): (r: State)
    requires Wf(s)
    ensures Wf(r)
    ensures SameShape(s, r)
  {
    Schedule(SetStatus(s, s.current, Blocked))
  }

  /** thread_unblock. */
  function Unblock(s: State, t: Tid): (r: State)
    requires Wf(s) && t < |s.threads|
    ensures Wf(r)
    ensures SameShape(s, r)
  {
    SetStatus(s.(ready := InsertOrdered(s.ready, s.threads, t)), t, Ready)
  }

  /** thread_yield. */
  function Yield(s: State): (r: State)
    requires Wf(s)
    ensures Wf(r)
    ensures SameShape(s, r)
  {
    var ready := if s.current != s.idle then InsertOrdered(s.ready, s.threads, s.current) else s.ready;
    Schedule(SetStatus(s.(ready := ready), s.current, Ready))
  }

  predicate Outranked(s: State)
    requires Wf(s)
  {
    s.ready != [] && PriorityOf(s, s.current) < PriorityOf(s, s.ready[0])
  }

  /** thread_super_yield in an interrupt: deferred to the return. */
  function Ring(s: State): (r: State)
    requires Wf(s)
    ensures Wf(r)
    ensures SameShape(s, r)
  {
    if Outranked(s) then s.(yieldOnReturn := true) else s
  }

  /** thread_super_yield. */
  function SuperYield(s: State): (r: State)
    requires Wf(s)
    ensures Wf(r)
    ensures SameShape(s, r)
  {
    if s.inIntr then Ring(s) else if Outranked(s) then Yield(s) else s
  }

  /** The new thread and its sleep semaphore, as init_thread leaves them. */
  function NewThread(s: State, priority: int): (r: State)
    requires Wf(s)
    ensures Wf(r)
  {
    var t, q := |s.threads|, |s.semas|;
    s.(threads := s.threads + [Thread(Blocked, priority, 0, [], None, q, 0, Free, {}, priority)],
       semas := s.semas + [Semaphore(0, [], OfThread(t), 0, 0, 0)])
  }

  /** thread_create, when a page for the thread is available. */
  function Create(s: State, priority: int): (r: State)
    requires Wf(s)
    ensures Wf(r)
  {
    SuperYield(Unblock(NewThread(s, priority), |s.threads|))
  }

  /** thread_exit. */
  function Exit(s: State): (r: State)
    requires Wf(s)
    ensures Wf(r)
  {
    Schedule(SetStatus(s, s.current, Dying))
  }

  /** What thread_set_priority stores.  `base` follows the value that the last release of a
      donated lock will restore. */
  function WithPriority(th: Thread, priority: int): Thread {
    if th.donors != [] then
      if priority > th.priority then th.(priority := priority)
      else th.(oriPriority := priority, base := priority)
    else th.(priority := priority, base := priority)
  }

  /** thread_set_priority. */
  function SetOwnPriority(s: State, priority: int): (r: State)
    requires Wf(s)
    ensures Wf(r)
  {
    SuperYield(SetThread(s, s.current, WithPriority(s.threads[s.current], priority)))
  }

  // ---------- priority donation ----------

  /** The holders that donation visits, in order, from h. */
  function Visited(s: State, h: Tid, depth: nat): (v: seq<Tid>)
    requires Wf(s) && WaitHeld(s.threads, s.locks) && h < |s.threads| && depth <= MAX_DEPTH + 1
    ensures InRange(v, |s.threads|)
    decreases MAX_DEPTH + 1 - depth
  {
    var w := s.threads[h].waitLock;
    if w.None? || depth > MAX_DEPTH then [h]
    else [h] + Visited(s, s.locks[w.value].holder.value, depth + 1)
  }

  /** The priority assignments of donation, from holder h on. */
  function DonateFrom(s: State, h: Tid, priority: int, depth: nat): (r: State)
    requires Wf(s) && WaitHeld(s.threads, s.locks) && h < |s.threads| && depth <= MAX_DEPTH + 1
    ensures Wf(r)
    ensures SameShape(s, r)
    ensures r.locks == s.locks && r.semas == s.semas
    decreases MAX_DEPTH + 1 - depth
  {
    var s' := SetPriority(s, h, priority);
    var w := s'.threads[h].waitLock;
    if w.None? || depth > MAX_DEPTH then s'
    else DonateFrom(s', s.locks[w.value].holder.value, priority, depth + 1)
  }

  /** The bookkeeping of donation: the holder h saves its priority if nobody donates to it
      yet, and the running thread, which waits for l, joins the donors of h. */
  function RecordDonation(s: State, l: nat, h: Tid): (r: State)
    requires Wf(s) && l < |s.locks| && h < |s.threads|
    requires s.locks[l].holder == Some(h) && h != s.current
    ensures Wf(r)
    ensures WaitHeld(s.threads, s.locks) ==> WaitHeld(r.threads, r.locks)
    ensures SameShape(s, r) && r.locks == s.locks && r.semas == s.semas
  {
    var t, th := s.current, s.threads[h];
    s.(threads := s.threads[t := s.threads[t].(waitLock := Some(l))]
                           [h := th.(donors := [t] + th.donors,
                                     oriPriority := if th.donors == [] then th.priority else th.oriPriority)])
  }

  /** donation. */
  function Donation(s: State, l: nat): (r: State)
    requires Wf(s) && WaitHeld(s.threads, s.locks) && l < |s.locks| && s.locks[l].holder.Some?
    requires s.locks[l].holder != Some(s.current)
    ensures Wf(r)
    ensures SameShape(s, r)
    ensures r.locks == s.locks && r.semas == s.semas
  {
    var h := s.locks[l].holder.value;
    SortReady(DonateFrom(RecordDonation(s, l, h), h, PriorityOf(s, s.current), 0))
  }

  /** The donors whose wait_lock is not l, in order. */
  function OtherDonors(donors: seq<Tid>, ts: seq<Thread>, l: nat): (r: seq<Tid>)
    requires InRange(donors, |ts|)
    ensures InRange(r, |ts|)
    ensures forall x :: 0 <= x < |ts| ==>
      multiset(r)[x] == if ts[x].waitLock == Some(l) then 0 else multiset(donors)[x]
  {
    if donors == [] then []
    else
      assert donors == [donors[0]] + donors[1..];
      (if ts[donors[0]].waitLock == Some(l) then [] else [donors[0]]) + OtherDonors(donors[1..], ts, l)
  }

  /** Threads after wait_lock is cleared in the donors that wait for l. */
  function ClearWaits(ts: seq<Thread>, donors: seq<Tid>, l: nat): (r: seq<Thread>)
    requires InRange(donors, |ts|)
    ensures |r| == |ts|
    ensures forall t :: 0 <= t < |ts| ==>
      r[t] == if t in donors && ts[t].waitLock == Some(l) then ts[t].(waitLock := None) else ts[t]
    decreases |donors|
  {
    if donors == [] then ts
    else
      assert donors == [donors[0]] + donors[1..];
      var d := donors[0];
      var ts' := if ts[d].waitLock == Some(l) then ts[d := ts[d].(waitLock := None)] else ts;
      ClearWaits(ts', donors[1..], l)
  }

  /** The threads after donation_back in thread t: the loop over its donor list, and its
      new priority. */
  function BackThreads(ts: seq<Thread>, t: Tid, l: nat): (r: seq<Thread>)
    requires t < |ts| && InRange(ts[t].donors, |ts|)
    ensures |r| == |ts|
    ensures InRange(r[t].donors, |ts|)
    ensures r[t] == ts[t].(donors := r[t].donors, priority := r[t].priority, waitLock := r[t].waitLock)
    ensures r[t].waitLock.None? || r[t].waitLock == ts[t].waitLock
    ensures forall u :: 0 <= u < |ts| && u != t ==>
      r[u] == if u in ts[t].donors && ts[u].waitLock == Some(l) then ts[u].(waitLock := None) else ts[u]
  {
    var ts' := ClearWaits(ts, ts[t].donors, l);
    var left := OtherDonors(ts[t].donors, ts, l);
    var priority := if left != [] then ts'[left[0]].priority else ts'[t].oriPriority;
    ts'[t := ts'[t].(donors := left, priority := priority)]
  }

  lemma BackThreadsWf(ts: seq<Thread>, t: Tid, l: nat, semas: nat, locks: nat)
    requires t < |ts| && forall u :: 0 <= u < |ts| ==> ThreadWf(ts[u], |ts|, semas, locks)
    ensures InRange(ts[t].donors, |ts|)
    ensures forall u :: 0 <= u < |ts| ==> ThreadWf(BackThreads(ts, t, l)[u], |ts|, semas, locks)
  {
    var r := BackThreads(ts, t, l);
    hide BackThreads;
    forall u | 0 <= u < |ts|
      ensures ThreadWf(r[u], |ts|, semas, locks)
    {
      assert ThreadWf(ts[u], |ts|, semas, locks);
    }
  }

  /** donation_back. */
  function DonationBack(s: State, l: nat): (r: State)
    requires Wf(s) && l < |s.locks|
    ensures Wf(r)
    ensures SameShape(s, r)
  {
    var ts := BackThreads(s.threads, s.current, l);
    BackThreadsWf(s.threads, s.current, l, |s.semas|, |s.locks|);
    s.(threads := ts, ready := StableSort(s.ready, ts))
  }

  // ---------- synch.c ----------

  /** sema_init and lock_init. */
  function SemaInit(s: State, value: nat): (r: State)
    requires Wf(s)
    ensures Wf(r)
  {
    s.(semas := s.semas + [Semaphore(value, [], User, value, 0, 0)])
  }

  function LockInit(s: State): (r: State)
    requires Wf(s)
    ensures Wf(r)
  {
    s.(semas := s.semas + [Semaphore(1, [], OfLock(|s.locks|), 1, 0, 0)],
       locks := s.locks + [Lock(None, |s.semas|)])
  }

  /** The semaphores after the decrement at the end of sema_down and in sema_try_down. */
  function TakeSemas(semas: seq<Semaphore>, q: nat): seq<Semaphore>
    requires q < |semas| && semas[q].value > 0
  {
    semas[q := semas[q].(value := semas[q].value - 1, downs := semas[q].downs + 1)]
  }

  /** The running thread joins the waiters of q, in the loop of sema_down. */
  function JoinWaiters(s: State, q: nat, onto: Option<nat>): (r: State)
    requires Wf(s) && q < |s.semas| && (onto.Some? ==> onto.value < |s.locks|)
    ensures Wf(r)
    ensures SameShape(s, r)
  {
    var th := s.threads[s.current];
    s.(semas := s.semas[q := s.semas[q].(waiters := InsertOrdered(s.semas[q].waiters, s.threads, s.current))],
       threads := s.threads[s.current := th.(cont := Down(q, onto), status := Blocked)])
  }

  /** The end of sema_down and, under lock_acquire, the assignment of the holder. */
  function Proceed(s: State, q: nat, onto: Option<nat>): (r: State)
    requires Wf(s) && q < |s.semas| && (onto.Some? ==> onto.value < |s.locks|)
    requires s.semas[q].value > 0
    ensures Wf(r)
    ensures SameShape(s, r)
  {
    var th := s.threads[s.current];
    match onto
    case None =>
      s.(semas := TakeSemas(s.semas, q), threads := s.threads[s.current := th.(cont := Free)])
    case Some(l) =>
      s.(semas := TakeSemas(s.semas, q),
         threads := s.threads[s.current := th.(cont := Free, held := th.held + {l})],
         locks := s.locks[l := s.locks[l].(holder := Some(s.current))])
  }

  /** One pass of the loop of sema_down: wait when the value is zero, otherwise take it and,
      under lock_acquire, become the holder. */
  function DownOnce(s: State, q: nat, onto: Option<nat>): (r: State)
    requires Wf(s) && q < |s.semas| && (onto.Some? ==> onto.value < |s.locks|)
    ensures Wf(r)
    ensures SameShape(s, r)
  {
    if s.semas[q].value == 0 then Schedule(JoinWaiters(s, q, onto)) else Proceed(s, q, onto)
  }

  /** sema_try_down. */
  function SemaTryDown(s: State, q: nat): (r: State)
    requires Wf(s) && q < |s.semas|
    ensures Wf(r)
    ensures SameShape(s, r)
  {
    if s.semas[q].value > 0 then s.(semas := TakeSemas(s.semas, q)) else s
  }

  /** The semaphores after sema_up of q left these waiters. */
  function UpSemas(semas: seq<Semaphore>, q: nat, waiters: seq<Tid>): seq<Semaphore>
    requires q < |semas|
  {
    semas[q := semas[q].(waiters := waiters, value := semas[q].value + 1, ups := semas[q].ups + 1)]
  }

  /** The first of the sorted waiters w of q becomes ready, and q counts up. */
  function WakeFirst(s: State, q: nat, w: seq<Tid>): (r: State)
    requires Wf(s) && q < |s.semas| && w != [] && InRange(w, |s.threads|)
    ensures Wf(r)
    ensures SameShape(s, r)
  {
    s.(semas := UpSemas(s.semas, q, w[1..]),
       ready := InsertOrdered(s.ready, s.threads, w[0]),
       threads := s.threads[w[0] := s.threads[w[0]].(status := Ready)])
  }

  /** sema_up before its last line: wake the front of the sorted waiters, count up. */
  function Wake(s: State, q: nat): (r: State)
    requires Wf(s) && q < |s.semas|
    ensures Wf(r)
    ensures SameShape(s, r)
  {
    var w := StableSort(s.semas[q].waiters, s.threads);
    if w == [] then s.(semas := UpSemas(s.semas, q, [])) else WakeFirst(s, q, w)
  }

  /** sema_up. */
  function SemaUp(s: State, q: nat): (r: State)
    requires Wf(s) && q < |s.semas|
    ensures Wf(r)
    ensures SameShape(s, r)
  {
    SuperYield(Wake(s, q))
  }

  /** lock_acquire, up to where it returns or waits. */
  function LockAcquire(s: State, l: nat): (r: State)
    requires Wf(s) && WaitHeld(s.threads, s.locks) && l < |s.locks|
    requires s.locks[l].holder != Some(s.current)
    ensures Wf(r)
  {
    var s' := if s.locks[l].holder.Some? then Donation(s, l) else s;
    DownOnce(s', s.locks[l].sema, Some(l))
  }

  /** lock_try_acquire. */
  function LockTryAcquire(s: State, l: nat): (r: State)
    requires Wf(s) && l < |s.locks|
    ensures Wf(r)
  {
    if s.semas[s.locks[l].sema].value > 0 then Proceed(s, s.locks[l].sema, Some(l)) else s
  }

  /** The first half of lock_release: no holder, donations for this lock undone. */
  function LetGo(s: State, l: nat): (r: State)
    requires Wf(s) && l < |s.locks|
    ensures Wf(r)
    ensures SameShape(s, r)
  {
    var th := s.threads[s.current];
    var s' := SetThread(s.(locks := s.locks[l := s.locks[l].(holder := None)]),
                        s.current, th.(held := th.held - {l}));
    if th.donors != [] && s.semas[s.locks[l].sema].waiters != [] then DonationBack(s', l) else s'
  }

  /** lock_release. */
  function LockRelease(s: State, l: nat): (r: State)
    requires Wf(s) && l < |s.locks|
    ensures Wf(r)
  {
    SemaUp(LetGo(s, l), s.locks[l].sema)
  }

  // ---------- timer.c and interrupt.c ----------

  /** timer_sleep up to sema_down: the running thread sets its alarm and joins the sleepers. */
  function SetAlarm(s: State, n: int): (r: State)
    requires Wf(s)
    ensures Wf(r)
  {
    s.(threads := s.threads[s.current := s.threads[s.current].(wakeup := s.ticks + n)],
       sleepers := s.sleepers + [s.current])
  }

  /** timer_sleep. */
  function Sleep(s: State, n: int): (r: State)
    requires Wf(s)
    ensures Wf(r)
  {
    if n <= 0 then s else DownOnce(SetAlarm(s, n), s.threads[s.current].sema, None)
  }

  /** list_remove on the sleep list. */
  function DropSleeper(s: State, i: nat): (r: State)
    requires Wf(s) && i < |s.sleepers|
    ensures Wf(r)
    ensures |r.sleepers| == |s.sleepers| - 1
  {
    s.(sleepers := s.sleepers[..i] + s.sleepers[i + 1..])
  }

  /** The loop of timer_interrupt over the sleep list, from position i. */
  function WakeSleepers(s: State, i: nat): (r: State)
    requires Wf(s) && i <= |s.sleepers|
    ensures Wf(r)
    ensures r.ticks == s.ticks && r.inIntr == s.inIntr
    decreases |s.sleepers| - i
  {
    if i == |s.sleepers| then s
    else
      var t := s.sleepers[i];
      if s.ticks >= s.threads[t].wakeup then
        WakeSleepers(DropSleeper(Ring(Wake(s, s.threads[t].sema)), i), i)
      else WakeSleepers(s, i + 1)
  }

  /** thread_tick with thread_mlfqs false: preemption at the end of a time slice. */
  function ThreadTick(s: State): (r: State)
    requires Wf(s)
    ensures Wf(r)
  {
    var n := s.threadTicks + 1;
    if n < TIME_SLICE then s.(threadTicks := n)
    else if s.ready == [] then s.(threadTicks := 0)
    else if PriorityOf(s, s.current) == PriorityOf(s, s.ready[0]) then s.(threadTicks := n, yieldOnReturn := true)
    else s.(threadTicks := n)
  }

  /** intr_handler on entry to an external interrupt. */
  function EnterIntr(s: State): (r: State)
    requires Wf(s)
    ensures Wf(r)
  {
    s.(inIntr := true, yieldOnReturn := false)
  }

  /** intr_handler on return from an external interrupt. */
  function LeaveIntr(s: State): (r: State)
    requires Wf(s)
    ensures Wf(r)
  {
    var s' := s.(inIntr := false);
    if s'.yieldOnReturn then Yield(s') else s'
  }

  /** The clock advances, on entry to timer_interrupt. */
  function Tick(s: State): (r: State)
    requires Wf(s)
    ensures Wf(r)
  {
    s.(ticks := s.ticks + 1)
  }

  /** intr_handler around timer_interrupt. */
  function TimerStep(s: State): (r: State)
    requires Wf(s)
    ensures Wf(r)
  {
    LeaveIntr(ThreadTick(WakeSleepers(Tick(EnterIntr(s)), 0)))
  }

  /** intr_handler around a device handler that ups a semaphore. */
  function DeviceStep(s: State, q: nat): (r: State)
    requires Wf(s) && q < |s.semas|
    ensures Wf(r)
  {
    LeaveIntr(Ring(Wake(EnterIntr(s), q)))
  }
}
