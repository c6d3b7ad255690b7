/** Condition variables: a monitor client of the scheduler's semaphores and locks.  A call of
    cond_wait takes several steps of a run, since the thread can be switched away from
    between them. */
module Condition {
  import opened Common
  import opened ThreadState
  import opened ThreadInvariants
  import opened ThreadSteps
  import opened Kernel

  /** A call of cond_wait in progress: its semaphore, condition variable and lock, and whether
      it has called lock_acquire to come back. */
  datatype Wait = Wait(sema: nat, cond: nat, lock: nat, back: bool)

  /** `conds` are the waiters of each condition variable, a semaphore apiece. */
  datatype Monitor = Monitor(s: State, conds: seq<seq<nat>>, waits: map<Tid, Wait>)

  ghost predicate CondsWf(conds: seq<seq<nat>>, semas: nat) {
    forall c :: 0 <= c < |conds| ==> InRange(conds[c], semas)
  }

  ghost predicate MonitorWf(m: Monitor) {
    Wf(m.s) && WaitHeld(m.s.threads, m.s.locks) && CondsWf(m.conds, |m.s.semas|)
  }

  // ---------- the two orders ----------

  /** list_insert_ordered with compare_priority_condition_insert, for a thread of this
      priority.  The comparison takes list_front of the other's waiters, which panics when
      that thread has not gone down yet. */
  function InsertWaiter(s: State, ws: seq<nat>, q: nat, priority: int): (r: Option<seq<nat>>)
    requires Wf(s) && InRange(ws, |s.semas|)
    ensures r.Some? ==> multiset(r.value) == multiset(ws) + multiset{q}
  {
    if ws == [] then Some([q])
    else
      var front := s.semas[ws[0]].waiters;
      if front == [] then None
      else if priority > PriorityOf(s, front[0]) then Some([q] + ws)
      else
        assert ws == [ws[0]] + ws[1..];
        match InsertWaiter(s, ws[1..], q, priority)
        case None => None
        case Some(r) => Some([ws[0]] + r)
  }

  /** The walk of list_insert_ordered goes on behind this waiter. */
  ghost predicate Passes(s: State, q: nat, priority: int)
    requires Wf(s) && q < |s.semas|
  {
    s.semas[q].waiters != [] && priority <= PriorityOf(s, s.semas[q].waiters[0])
  }

  lemma PassesOn(s: State, ws: seq<nat>, q: nat, priority: int)
    requires Wf(s) && InRange(ws, |s.semas|) && ws != []
    ensures var rest := InsertWaiter(s, ws[1..], q, priority);
      Passes(s, ws[0], priority) ==>
        InsertWaiter(s, ws, q, priority) == if rest.None? then None else Some([ws[0]] + rest.value)
    ensures s.semas[ws[0]].waiters == [] ==> InsertWaiter(s, ws, q, priority) == None
    ensures s.semas[ws[0]].waiters != [] && !Passes(s, ws[0], priority) ==>
      InsertWaiter(s, ws, q, priority) == Some([q] + ws)
  {
  }

  lemma SpliceFront(ws: seq<nat>, q: nat, e: nat)
    requires e <= |ws|
    ensures e == 0 ==> ws[..e] + [q] + ws[e..] == [q] + ws
    ensures e > 0 ==> [ws[0]] + (ws[1..][..e - 1] + [q] + ws[1..][e - 1..]) == ws[..e] + [q] + ws[e..]
  {
  }

  /** Where the walk of list_insert_ordered stops. */
  lemma {:induction false} InsertStops(s: State, ws: seq<nat>, q: nat, priority: int, e: nat)
    requires Wf(s) && InRange(ws, |s.semas|) && e <= |ws|
    requires forall j :: 0 <= j < e ==> Passes(s, ws[j], priority)
    ensures e < |ws| && s.semas[ws[e]].waiters == [] ==> InsertWaiter(s, ws, q, priority) == None
    ensures e == |ws| || (s.semas[ws[e]].waiters != [] && !Passes(s, ws[e], priority)) ==>
      InsertWaiter(s, ws, q, priority) == Some(ws[..e] + [q] + ws[e..])
  {
    hide Wf, Passes;
    SpliceFront(ws, q, e);
    if ws != [] {
      PassesOn(s, ws, q, priority);
    } else {
      assert [q] + ws == [q];
    }
    if e > 0 {
      assert e < |ws| ==> ws[e] == ws[1..][e - 1];
      InsertStops(s, ws[1..], q, priority, e - 1);
    }
  }

  /** compare_priority_condition_sort. */
  predicate Before(s: State, a: nat, b: nat)
    requires Wf(s) && a < |s.semas| && b < |s.semas|
  {
    s.semas[a].waiters != [] &&
    (s.semas[b].waiters == [] ||
     PriorityOf(s, s.semas[a].waiters[0]) > PriorityOf(s, s.semas[b].waiters[0]))
  }

  function InsertSorted(s: State, ws: seq<nat>, q: nat): (r: seq<nat>)
    requires Wf(s) && InRange(ws, |s.semas|) && q < |s.semas|
    ensures InRange(r, |s.semas|)
    ensures multiset(r) == multiset(ws) + multiset{q}
  {
    if ws == [] then [q]
    else if Before(s, q, ws[0]) then [q] + ws
    else
      assert ws == [ws[0]] + ws[1..];
      [ws[0]] + InsertSorted(s, ws[1..], q)
  }

  /** list_sort with compare_priority_condition_sort. */
  function SortWaiters(s: State, ws: seq<nat>): (r: seq<nat>)
    requires Wf(s) && InRange(ws, |s.semas|)
    ensures InRange(r, |s.semas|)
    ensures multiset(r) == multiset(ws)
  {
    if ws == [] then []
    else
      assert ws == ws[..|ws| - 1] + [ws[|ws| - 1]];
      InsertSorted(s, SortWaiters(s, ws[..|ws| - 1]), ws[|ws| - 1])
  }

  /** The waiter at i is the first of those that no other comes before. */
  ghost predicate FirstBest(s: State, ws: seq<nat>, i: nat)
    requires Wf(s) && InRange(ws, |s.semas|) && i < |ws|
  {
    && (forall j :: 0 <= j < |ws| ==> !Before(s, ws[j], ws[i]))
    && (forall j :: 0 <= j < i ==> Before(s, ws[i], ws[j]))
  }

  /** compare_priority_condition_sort is a strict weak order. */
  lemma BeforeOrder(s: State, a: nat, b: nat, c: nat)
    requires Wf(s) && a < |s.semas| && b < |s.semas| && c < |s.semas|
    ensures Before(s, a, b) && !Before(s, c, b) ==> Before(s, a, c) && !Before(s, c, a)
    ensures !Before(s, a, a)
  {
  }

  lemma OneMore(s: State, ws: seq<nat>, init: seq<nat>, q: nat, i: nat)
    requires Wf(s) && InRange(ws, |s.semas|) && InRange(init, |s.semas|) && ws == init + [q]
    requires q < |s.semas| && i < |init| && FirstBest(s, init, i)
    ensures FirstBest(s, ws, if Before(s, q, init[i]) then |init| else i)
  {
    hide Wf;
    hide Before;
    assert q == ws[|init|] && ws[i] == init[i];
    if Before(s, q, init[i]) {
      assert !Before(s, q, q) by { BeforeOrder(s, q, q, q); }
      forall j | 0 <= j < |init|
        ensures Before(s, q, ws[j]) && !Before(s, ws[j], q)
      {
        BeforeOrder(s, q, init[i], init[j]);
        assert ws[j] == init[j];
      }
    } else {
      assert forall j :: 0 <= j < |init| ==> ws[j] == init[j];
    }
  }

  lemma OnlyOne(s: State, ws: seq<nat>)
    requires Wf(s) && InRange(ws, |s.semas|) && |ws| == 1
    ensures FirstBest(s, ws, 0) && SortWaiters(s, []) == []
  {
    BeforeOrder(s, ws[0], ws[0], ws[0]);
  }

  lemma SortUnfolds(s: State, ws: seq<nat>)
    requires Wf(s) && InRange(ws, |s.semas|) && ws != []
    ensures SortWaiters(s, ws) == InsertSorted(s, SortWaiters(s, ws[..|ws| - 1]), ws[|ws| - 1])
  {
  }

  lemma InsertedFirst(s: State, r: seq<nat>, q: nat)
    requires Wf(s) && InRange(r, |s.semas|) && q < |s.semas|
    ensures var r' := InsertSorted(s, r, q);
      r' != [] && r'[0] == if r == [] || Before(s, q, r[0]) then q else r[0]
  {
  }

  /** cond_signal picks the first of the best waiters. */
  lemma {:induction false} SortedFront(s: State, ws: seq<nat>) returns (i: nat)
    requires Wf(s) && InRange(ws, |s.semas|) && ws != []
    ensures i < |ws| && FirstBest(s, ws, i)
    ensures SortWaiters(s, ws) != [] && SortWaiters(s, ws)[0] == ws[i]
  {
    hide Wf;
    hide Before;
    hide FirstBest;
    hide SortWaiters;
    hide InsertSorted;
    var init, q := ws[..|ws| - 1], ws[|ws| - 1];
    assert ws == init + [q];
    SortUnfolds(s, ws);
    InsertedFirst(s, SortWaiters(s, init), q);
    if init == [] {
      i := 0;
      OnlyOne(s, ws);
    } else {
      var k := SortedFront(s, init);
      OneMore(s, ws, init, q, k);
      i := if Before(s, q, init[k]) then |init| else k;
    }
  }

  // ---------- the steps of a monitor ----------

  datatype CondStep =
    | Do(step: Step)
    | NewCond
    | BeginWait(cond: nat, lock: nat)
    | GoDown
    | Reacquire
    | EndWait
    | Signal(cond: nat, lock: nat)

  /** The semaphore that a primitive is called with. */
  function Named(step: Step): Option<nat> {
    match step
    case DoDown(q) => Some(q)
    case DoTryDown(q) => Some(q)
    case DoUp(q) => Some(q)
    case DeviceIntr(q) => Some(q)
    case _ => None
  }

  predicate Outside(step: Step) {
    step.TimerIntr? || step.DeviceIntr?
  }

  /** The running thread is in its own code, not inside a primitive or cond_wait. */
  predicate AtLarge(m: Monitor)
    requires Wf(m.s)
  {
    m.s.threads[m.s.current].cont == Free && m.s.current != m.s.idle && m.s.current !in m.waits
  }

  predicate Holds(m: Monitor, l: nat)
    requires Wf(m.s)
  {
    l < |m.s.locks| && m.s.locks[l].holder == Some(m.s.current)
  }

  /** The running thread is inside cond_wait, between two primitives. */
  predicate InWait(m: Monitor, back: bool)
    requires Wf(m.s)
  {
    && m.s.current in m.waits
    && m.waits[m.s.current].back == back
    && m.s.threads[m.s.current].cont == Free
  }

  predicate WentDown(m: Monitor)
    requires Wf(m.s) && m.s.current in m.waits
  {
    var q := m.waits[m.s.current].sema;
    q < |m.s.semas| && m.s.semas[q].downs > 0
  }

  /** A waiter's semaphore is a local variable of cond_wait: no other code names it. */
  ghost predicate Can(m: Monitor, step: CondStep)
    requires MonitorWf(m)
  {
    match step
    case Do(p) =>
      && Enabled(m.s, p)
      && (m.s.current in m.waits ==> Outside(p) || p.Resume?)
      && (forall t :: t in m.waits ==> Named(p) != Some(m.waits[t].sema))
    case NewCond => AtLarge(m)
    case BeginWait(c, l) => AtLarge(m) && Holds(m, l) && c < |m.conds| && Begun(m, c, l).Some?
    case GoDown => InWait(m, false) && !WentDown(m) && Enabled(m.s, DoDown(m.waits[m.s.current].sema))
    case Reacquire => InWait(m, false) && WentDown(m) && Enabled(m.s, DoAcquire(m.waits[m.s.current].lock))
    case EndWait => InWait(m, true)
    case Signal(c, l) => AtLarge(m) && Holds(m, l) && c < |m.conds|
  }

  /** cond_wait until lock_release returns; None is the panic of list_front. */
  function Begun(m: Monitor, c: nat, l: nat): (r: Option<Monitor>)
    requires MonitorWf(m) && Holds(m, l) && c < |m.conds|
  {
    var q := |m.s.semas|;
    match InsertWaiter(m.s, m.conds[c], q, PriorityOf(m.s, m.s.current))
    case None => None
    case Some(ws) =>
      Some(Monitor(LockRelease(SemaInit(m.s, 0), l), m.conds[c := ws],
                   m.waits[m.s.current := Wait(q, c, l, false)]))
  }

  /** cond_signal. */
  function Signalled(m: Monitor, c: nat): (r: Monitor)
    requires MonitorWf(m) && c < |m.conds|
  {
    if m.conds[c] == [] then m
    else
      var ws := SortWaiters(m.s, m.conds[c]);
      assert |multiset(ws)| == |multiset(m.conds[c])|;
      m.(s := SemaUp(m.s, ws[0]), conds := m.conds[c := ws[1..]])
  }

  ghost function Then(m: Monitor, step: CondStep): (r: Monitor)
    requires MonitorWf(m) && Can(m, step)
  {
    match step
    case Do(p) => m.(s := Next(m.s, p))
    case NewCond => m.(conds := m.conds + [[]])
    case BeginWait(c, l) => Begun(m, c, l).value
    case GoDown => m.(s := Next(m.s, DoDown(m.waits[m.s.current].sema)))
    case Reacquire =>
      var w := m.waits[m.s.current];
      m.(s := Next(m.s, DoAcquire(w.lock)), waits := m.waits[m.s.current := w.(back := true)])
    case EndWait => m.(waits := m.waits - {m.s.current})
    case Signal(c, l) => Signalled(m, c)
  }

  // ---------- synch.c ----------

  class ConditionVariable {
    var waiters: seq<nat>

    constructor ()
      ensures waiters == []
    {
      waiters := [];
    }

    /** list_insert_ordered; false is the panic of list_front. */
    method InsertInOrder(k: Scheduler, q: nat, priority: int) returns (ok: bool)
      requires Wf(k.St()) && InRange(waiters, |k.semas|)
      modifies this
      ensures ok <==> InsertWaiter(k.St(), old(waiters), q, priority).Some?
      ensures waiters == if ok then InsertWaiter(k.St(), old(waiters), q, priority).value else old(waiters)
    {
      ghost var s := k.St();
      var e := 0;
      while e < |waiters|
        invariant e <= |waiters| && waiters == old(waiters)
        invariant forall j :: 0 <= j < e ==> Passes(s, waiters[j], priority)
      {
        var front := k.semas[waiters[e]].waiters;
        if front == [] {
          InsertStops(s, waiters, q, priority, e);
          return false;
        }
        if priority > k.threads[front[0]].priority {
          break;
        }
        e := e + 1;
      }
      InsertStops(s, waiters, q, priority, e);
      waiters := waiters[..e] + [q] + waiters[e..];
      ok := true;
    }

    /** cond_wait until lock_release returns: None is the panic of list_front. */
    method Begin(k: Scheduler, l: nat) returns (q: Option<nat>)
      requires Inv(k.St()) && l < |k.locks| && k.locks[l].holder == Some(k.current)
      requires InRange(waiters, |k.semas|)
      requires k.threads[k.current].cont == Free && k.current != k.idle
      modifies this, k
      ensures q.Some? <==> InsertWaiter(old(k.St()), old(waiters), |old(k.semas)|, old(k.threads[k.current].priority)).Some?
      ensures q.Some? ==> q.value == |old(k.semas)|
      ensures q.Some? ==> k.St() == LockRelease(SemaInit(old(k.St()), 0), l)
      ensures q.Some? ==>
        Some(waiters) == InsertWaiter(old(k.St()), old(waiters), |old(k.semas)|, old(k.threads[k.current].priority))
    {
      ghost var s := k.St();
      SemaInitKeeps(s, 0);
      var sema := k.InitSema(0);
      ghost var s1 := k.St();
      FreshSemaIsUnseen(s, waiters, sema, k.threads[k.current].priority);
      var ok := InsertInOrder(k, sema, k.threads[k.current].priority);
      if !ok {
        return None;
      }
      k.Release(l);
      q := Some(sema);
    }

    /** cond_signal. */
    method Wakeup(k: Scheduler)
      requires Inv(k.St()) && InRange(waiters, |k.semas|)
      modifies this, k
      ensures if old(waiters) == [] then k.St() == old(k.St()) && waiters == []
        else var ws := SortWaiters(old(k.St()), old(waiters));
          ws != [] && k.St() == SemaUp(old(k.St()), ws[0]) && waiters == ws[1..]
    {
      if waiters != [] {
        var ws := SortWaiters(k.St(), waiters);
        assert |multiset(ws)| == |multiset(waiters)|;
        waiters := ws[1..];
        WaitersBlocked(k.St(), ws[0]);
        k.Up(ws[0]);
      }
    }
  }

  lemma {:induction false} FreshSemaIsUnseen(s: State, ws: seq<nat>, q: nat, priority: int)
    requires Wf(s) && InRange(ws, |s.semas|)
    ensures InRange(ws, |SemaInit(s, 0).semas|)
    ensures InsertWaiter(SemaInit(s, 0), ws, q, priority) == InsertWaiter(s, ws, q, priority)
  {
    if ws != [] {
      FreshSemaIsUnseen(s, ws[1..], q, priority);
    }
  }
}
