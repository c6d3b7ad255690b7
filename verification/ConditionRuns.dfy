/** Condition variables over whole runs: no signal is lost, none wakes two threads, and
    cond_wait returns with the lock. */
module ConditionRuns {
  import opened Common
  import opened ThreadState
  import opened ThreadInvariants
  import opened ThreadSteps
  import opened ThreadRuns
  import opened Condition
  import opened ConditionSteps

  // ---------- the invariant of a monitor ----------

  /** The thread is where its call w of cond_wait has got to. */
  ghost predicate AtWait(th: Thread, w: Wait, sema: Semaphore) {
    if w.back then
      && sema.ups == 1 && sema.downs == 1
      && ((th.cont == Free && w.lock in th.held) || (th.cont.Down? && th.cont.onto == Some(w.lock)))
    else
      && w.lock !in th.held
      && (th.cont == Free || (th.cont == Down(w.sema, None) && sema.downs == 0))
  }

  predicate GoesDownOn(th: Thread, q: nat) {
    th.cont.Down? && th.cont.sema == q
  }

  /** Only t goes down on its semaphore, which is upped once at most and then has no waiter. */
  ghost predicate WaitOk(s: State, t: Tid, w: Wait) {
    && t < |s.threads| && t != s.idle
    && w.sema < |s.semas| && w.lock < |s.locks|
    && s.semas[w.sema].owner == User && s.semas[w.sema].initial == 0 && s.semas[w.sema].ups <= 1
    && (s.semas[w.sema].ups == 1 ==> s.semas[w.sema].waiters == [])
    && (forall u :: 0 <= u < |s.threads| && u != t ==> !GoesDownOn(s.threads[u], w.sema))
    && AtWait(s.threads[t], w, s.semas[w.sema])
  }

  /** The semaphore is in the list of its condition variable, once, until it is upped. */
  ghost predicate ListOk(conds: seq<seq<nat>>, w: Wait, ups: nat) {
    && w.cond < |conds|
    && forall c :: 0 <= c < |conds| ==> multiset(conds[c])[w.sema] == One(c == w.cond && ups == 0)
  }

  ghost predicate Distinct(waits: map<Tid, Wait>) {
    forall t, u :: t in waits && u in waits && waits[t].sema == waits[u].sema ==> t == u
  }

  ghost predicate IsWaiter(waits: map<Tid, Wait>, q: nat) {
    exists t :: t in waits && waits[t].sema == q
  }

  ghost predicate Listed(conds: seq<seq<nat>>, waits: map<Tid, Wait>) {
    forall c, i :: 0 <= c < |conds| && 0 <= i < |conds[c]| ==> IsWaiter(waits, conds[c][i])
  }

  ghost predicate CallOk(m: Monitor, t: Tid, w: Wait) {
    WaitOk(m.s, t, w) && ListOk(m.conds, w, m.s.semas[w.sema].ups)
  }

  ghost predicate CallsOk(m: Monitor) {
    && Distinct(m.waits) && Listed(m.conds, m.waits)
    && forall t :: t in m.waits ==> CallOk(m, t, m.waits[t])
  }

  ghost predicate MonitorInv(m: Monitor) {
    Inv(m.s) && MonitorWf(m) && CallsOk(m)
  }

  lemma InOrderAgain(m: Monitor)
    requires Inv(m.s) && CallsOk(m)
    ensures MonitorInv(m)
  {
    MidWaits(m.s);
    hide Rest, Placed, WaitHeld, Wf;
    forall c, i | 0 <= c < |m.conds| && 0 <= i < |m.conds[c]|
      ensures m.conds[c][i] < |m.s.semas|
    {
      assert IsWaiter(m.waits, m.conds[c][i]);
      var t :| t in m.waits && m.waits[t].sema == m.conds[c][i];
      assert CallOk(m, t, m.waits[t]);
    }
  }

  lemma CallStays(m: Monitor, r: State, t: Tid, w: Wait, actor: Option<Tid>)
    requires CallOk(m, t, w) && Leaves(m.s, r, w.sema, actor) && actor != Some(t)
    ensures CallOk(m.(s := r), t, w)
  {
    assert SameWait(m.s.threads[t], r.threads[t], w.sema, false);
    forall u | 0 <= u < |r.threads| && u != t
      ensures !GoesDownOn(r.threads[u], w.sema)
    {
      if u < |m.s.threads| {
        assert SameWait(m.s.threads[u], r.threads[u], w.sema, actor == Some(u));
        assert !GoesDownOn(m.s.threads[u], w.sema);
      }
    }
  }

  // ---------- going down and coming back ----------

  /** From s to r the running thread joined the waiters of x, or went through. */
  ghost predicate Downed(s: State, r: State, x: nat, onto: Option<nat>)
    requires x < |s.semas| && s.current < |s.threads|
  {
    var t := s.current;
    && |r.threads| == |s.threads| && |r.semas| == |s.semas| && |r.locks| == |s.locks| && r.idle == s.idle
    && (forall u :: 0 <= u < |s.threads| && u != t ==> r.threads[u].cont == s.threads[u].cont)
    && (if s.semas[x].value == 0 then
          && r.threads[t].cont == Down(x, onto) && r.threads[t].held == s.threads[t].held
          && r.semas[x] == s.semas[x].(waiters := r.semas[x].waiters)
        else
          && r.threads[t].cont == Free
          && r.threads[t].held == (if onto.Some? then s.threads[t].held + {onto.value} else s.threads[t].held)
          && r.semas[x] == s.semas[x].(value := s.semas[x].value - 1, downs := s.semas[x].downs + 1))
  }

  lemma JoinEffect(s: State, x: nat, onto: Option<nat>)
    requires Wf(s) && x < |s.semas| && (onto.Some? ==> onto.value < |s.locks|) && s.semas[x].value == 0
    ensures Downed(s, JoinWaiters(s, x, onto), x, onto)
  {
  }

  lemma DownEffect(s: State, x: nat, onto: Option<nat>)
    requires Wf(s) && x < |s.semas| && (onto.Some? ==> onto.value < |s.locks|)
    ensures Downed(s, DownOnce(s, x, onto), x, onto)
  {
    hide JoinWaiters, Proceed;
    if s.semas[x].value == 0 {
      JoinEffect(s, x, onto);
      SwitchEffect(s, JoinWaiters(s, x, onto), x, onto);
    } else {
      ProceedEffect(s, x, onto);
    }
  }

  lemma SwitchEffect(s: State, j: State, x: nat, onto: Option<nat>)
    requires x < |s.semas| && s.current < |s.threads| && s.semas[x].value == 0 && Downed(s, j, x, onto) && Wf(j)
    ensures Downed(s, Schedule(j), x, onto)
  {
  }

  lemma ProceedEffect(s: State, x: nat, onto: Option<nat>)
    requires Wf(s) && x < |s.semas| && (onto.Some? ==> onto.value < |s.locks|) && s.semas[x].value > 0
    ensures Downed(s, Proceed(s, x, onto), x, onto)
  {
  }

  lemma ValueIs(s: State, q: nat)
    requires Inv(s) && q < |s.semas|
    ensures s.semas[q].value == s.semas[q].initial + s.semas[q].ups - s.semas[q].downs
  {
  }

  /** A waiter that was signalled goes through; one that was not stays in the list. */
  lemma WaiterDown(m: Monitor, w: Wait)
    requires Wf(m.s) && CallOk(m, m.s.current, w) && !w.back && m.s.semas[w.sema].downs == 0
    requires m.s.semas[w.sema].value == m.s.semas[w.sema].ups
    ensures CallOk(m.(s := DownOnce(m.s, w.sema, None)), m.s.current, w)
  {
    var s, t := m.s, m.s.current;
    var r := DownOnce(s, w.sema, None);
    DownEffect(s, w.sema, None);
    hide DownOnce, Wf, ListOk;
    assert AtWait(r.threads[t], w, r.semas[w.sema]);
    forall u | 0 <= u < |r.threads| && u != t
      ensures !GoesDownOn(r.threads[u], w.sema)
    {
      assert !GoesDownOn(s.threads[u], w.sema);
    }
  }

  /** lock_acquire on the way back, called or resumed. */
  lemma WaiterBack(m: Monitor, d: State, w: Wait, x: nat)
    requires Wf(d) && CallOk(m, m.s.current, w) && x < |d.semas| && x != w.sema
    requires Leaves(m.s, d, w.sema, None) && |d.threads| == |m.s.threads| && d.current == m.s.current
    requires m.s.semas[w.sema].ups == 1 && m.s.semas[w.sema].downs == 1 && w.lock < |d.locks|
    ensures CallOk(m.(s := DownOnce(d, x, Some(w.lock))), m.s.current, w.(back := true))
  {
    hide DownOnce, Wf;
    var r, t := DownOnce(d, x, Some(w.lock)), m.s.current;
    DownEffect(d, x, Some(w.lock));
    DownLeaves(d, x, Some(w.lock), w.sema);
    LeavesFirst(m.s, d, r, w.sema, Some(t));
    forall u | 0 <= u < |r.threads| && u != t
      ensures !GoesDownOn(r.threads[u], w.sema)
    {
      assert SameWait(m.s.threads[u], r.threads[u], w.sema, false);
      assert !GoesDownOn(m.s.threads[u], w.sema);
    }
  }

  lemma ResumeStays(m: Monitor, w: Wait)
    requires Inv(m.s) && CallOk(m, m.s.current, w) && m.s.threads[m.s.current].cont.Down?
    ensures ThreadWf(m.s.threads[m.s.current], |m.s.threads|, |m.s.semas|, |m.s.locks|)
    ensures var c := m.s.threads[m.s.current].cont;
      CallOk(m.(s := DownOnce(m.s, c.sema, c.onto)), m.s.current, w)
  {
    var s := m.s;
    var c := s.threads[s.current].cont;
    ResumeIsRight(s);
    MidWaits(s);
    if w.back {
      hide Rest, Placed;
      LeavesSelf(s, w.sema);
      WaiterBack(m, s, w, c.sema);
    } else {
      ValueIs(s, w.sema);
      WaiterDown(m, w);
    }
  }

  // ---------- every step of a monitor keeps it in order ----------

  lemma NextResumes(s: State)
    requires Wf(s) && WaitHeld(s.threads, s.locks) && s.threads[s.current].cont.Down?
    ensures ThreadWf(s.threads[s.current], |s.threads|, |s.semas|, |s.locks|)
    ensures Next(s, Resume) == DownOnce(s, s.threads[s.current].cont.sema, s.threads[s.current].cont.onto)
  {
    hide DownOnce;
    assert ThreadWf(s.threads[s.current], |s.threads|, |s.semas|, |s.locks|);
  }

  lemma ResumesInCall(m: Monitor)
    requires MonitorInv(m) && Can(m, Do(Resume)) && m.s.current in m.waits
    ensures Inv(m.s) && Wf(m.s) && WaitHeld(m.s.threads, m.s.locks) && Enabled(m.s, Resume)
    ensures m.s.threads[m.s.current].cont.Down? && CallOk(m, m.s.current, m.waits[m.s.current])
  {
    hide Inv, Wf, WaitHeld, CallOk;
  }

  lemma CallResumes(m: Monitor)
    requires MonitorInv(m) && Can(m, Do(Resume)) && m.s.current in m.waits
    ensures CallOk(m.(s := Next(m.s, Resume)), m.s.current, m.waits[m.s.current])
  {
    ResumesInCall(m);
    hide *;
    NextResumes(m.s);
    ResumeStays(m, m.waits[m.s.current]);
  }

  lemma CallDoes(m: Monitor, p: Step, t: Tid)
    requires MonitorInv(m) && Can(m, Do(p)) && t in m.waits && (p.Resume? ==> t != m.s.current)
    ensures CallOk(m.(s := Next(m.s, p)), t, m.waits[t])
  {
    var w := m.waits[t];
    assert CallOk(m, t, w);
    assert p.Resume? ==> !GoesDownOn(m.s.threads[m.s.current], w.sema);
    SparesCall(m, p, t, w);
    hide Rest, Placed, MonitorInv, CallOk, Leaves, Next;
    NextLeaves(m.s, p, w.sema);
    CallStays(m, Next(m.s, p), t, w, Actor(m.s, p));
  }

  lemma SparesCall(m: Monitor, p: Step, t: Tid, w: Wait)
    requires MonitorWf(m) && Can(m, Do(p)) && t in m.waits && w == m.waits[t] && CallOk(m, t, w)
    requires p.Resume? ==> !GoesDownOn(m.s.threads[m.s.current], w.sema)
    ensures w.sema < |m.s.semas| && m.s.semas[w.sema].owner == User && Spares(m.s, p, w.sema)
  {
  }

  lemma DoKeeps(m: Monitor, p: Step)
    requires MonitorInv(m) && Can(m, Do(p))
    ensures MonitorInv(Then(m, Do(p)))
  {
    var n := m.(s := Next(m.s, p));
    StepInv(m.s, p);
    forall t | t in m.waits
      ensures CallOk(n, t, m.waits[t])
    {
      if p.Resume? && t == m.s.current {
        CallResumes(m);
      } else {
        CallDoes(m, p, t);
      }
    }
    InOrderAgain(n);
  }

  lemma OtherSpared(m: Monitor, p: Step, q: nat)
    requires MonitorInv(m) && Enabled(m.s, p) && Named(p) != Some(q) && !p.Resume?
    ensures Wf(m.s) && WaitHeld(m.s.threads, m.s.locks) && Spares(m.s, p, q)
  {
  }

  lemma OtherStays(m: Monitor, p: Step, t: Tid)
    requires MonitorInv(m) && Enabled(m.s, p) && t in m.waits && t != m.s.current
    requires Named(p) != Some(m.waits[t].sema) && !p.Resume?
    ensures CallOk(m.(s := Next(m.s, p)), t, m.waits[t])
  {
    hide Inv, CallOk, Wf, WaitHeld, CondsWf, Distinct, Listed, Leaves, Next;
    CallHas(m, t);
    OtherSpared(m, p, m.waits[t].sema);
    NextLeaves(m.s, p, m.waits[t].sema);
    CallStays(m, Next(m.s, p), t, m.waits[t], Actor(m.s, p));
  }

  lemma OtherSema(m: Monitor, t: Tid, u: Tid)
    requires CallsOk(m) && t in m.waits && u in m.waits && t != u
    ensures m.waits[t].sema != m.waits[u].sema
  {
  }

  lemma GoesDown(m: Monitor)
    requires MonitorWf(m) && Can(m, GoDown)
    ensures m.s.current in m.waits && Enabled(m.s, DoDown(m.waits[m.s.current].sema))
    ensures m.waits[m.s.current].sema < |m.s.semas|
    ensures Then(m, GoDown) == m.(s := DownOnce(m.s, m.waits[m.s.current].sema, None))
  {
  }

  lemma CallGoesDown(m: Monitor, u: Tid)
    requires MonitorInv(m) && Can(m, GoDown) && u in m.waits
    ensures CallOk(Then(m, GoDown), u, m.waits[u])
  {
    hide Inv, CallsOk, CallOk, DownOnce, Wf, WaitHeld, CondsWf;
    GoesDown(m);
    if u == m.s.current {
      FirstDown(m);
      WaiterDown(m, m.waits[u]);
    } else {
      OtherSema(m, m.s.current, u);
      OtherStays(m, DoDown(m.waits[m.s.current].sema), u);
    }
  }

  lemma FirstDown(m: Monitor)
    requires MonitorInv(m) && Can(m, GoDown)
    ensures var w := m.waits[m.s.current];
      && Wf(m.s) && CallOk(m, m.s.current, w) && !w.back && m.s.semas[w.sema].downs == 0
      && m.s.semas[w.sema].value == m.s.semas[w.sema].ups
  {
    hide Inv, Listed, Distinct, ListOk, WaitHeld, CondsWf;
    assert CallOk(m, m.s.current, m.waits[m.s.current]);
    ValueIs(m.s, m.waits[m.s.current].sema);
  }

  lemma GoDownKeeps(m: Monitor)
    requires MonitorInv(m) && Can(m, GoDown)
    ensures MonitorInv(Then(m, GoDown))
  {
    var n := Then(m, GoDown);
    StepInv(m.s, DoDown(m.waits[m.s.current].sema));
    hide Inv, CallOk, Next, Distinct, Listed;
    forall u | u in m.waits
      ensures CallOk(n, u, m.waits[u])
    {
      CallGoesDown(m, u);
    }
    InOrderAgain(n);
  }

  /** The assertion of lock_acquire never fails when cond_wait calls it. */
  lemma ComesBack(m: Monitor)
    requires MonitorInv(m) && InWait(m, false) && WentDown(m)
    ensures Can(m, Reacquire)
  {
    assert CallOk(m, m.s.current, m.waits[m.s.current]);
  }

  lemma WentThrough(m: Monitor, t: Tid)
    requires MonitorInv(m) && t in m.waits && CallOk(m, t, m.waits[t])
    ensures var sema := m.s.semas[m.waits[t].sema]; sema.downs <= sema.ups
  {
    ValueIs(m.s, m.waits[t].sema);
  }

  lemma BackFacts(m: Monitor)
    requires MonitorInv(m) && Can(m, Reacquire)
    ensures var s, w := m.s, m.waits[m.s.current];
      && Wf(s) && WaitHeld(s.threads, s.locks) && CallOk(m, s.current, w)
      && s.semas[w.sema].ups == 1 && s.semas[w.sema].downs == 1
      && s.locks[w.lock].sema < |s.semas| && s.locks[w.lock].sema != w.sema
      && s.locks[w.lock].holder != Some(s.current)
  {
    hide Rest, Placed, WaitHeld, Sorted, NoneDue, ListOk, Listed, Distinct, CondsWf;
    var s, w := m.s, m.waits[m.s.current];
    assert CallOk(m, s.current, w);
    WentThrough(m, s.current);
    LockIsOwned(s, w.lock);
    MidWaits(s);
  }

  lemma ReturnsTo(m: Monitor, w: Wait)
    requires Wf(m.s) && WaitHeld(m.s.threads, m.s.locks) && CallOk(m, m.s.current, w)
    requires m.s.semas[w.sema].ups == 1 && m.s.semas[w.sema].downs == 1
    requires m.s.locks[w.lock].sema < |m.s.semas| && m.s.locks[w.lock].sema != w.sema
    requires m.s.locks[w.lock].holder != Some(m.s.current)
    ensures CallOk(m.(s := LockAcquire(m.s, w.lock)), m.s.current, w.(back := true))
  {
    var s := m.s;
    assert w.lock < |s.locks| && w.sema < |s.semas|;
    hide CallOk, Leaves, Donation, DownOnce;
    if s.locks[w.lock].holder.Some? {
      DonationLeaves(s, w.lock, w.sema);
      WaiterBack(m, Donation(s, w.lock), w, s.locks[w.lock].sema);
    } else {
      LeavesSelf(s, w.sema);
      WaiterBack(m, s, w, s.locks[w.lock].sema);
    }
  }

  lemma Reacquires(m: Monitor)
    requires MonitorWf(m) && Can(m, Reacquire)
    ensures m.s.current in m.waits && Enabled(m.s, DoAcquire(m.waits[m.s.current].lock))
    ensures m.waits[m.s.current].lock < |m.s.locks| && m.s.locks[m.waits[m.s.current].lock].holder != Some(m.s.current)
    ensures var w := m.waits[m.s.current];
      Then(m, Reacquire) == m.(s := LockAcquire(m.s, w.lock), waits := m.waits[m.s.current := w.(back := true)])
  {
  }

  lemma CallReacquires(m: Monitor, n: Monitor, u: Tid)
    requires MonitorInv(m) && Can(m, Reacquire) && n == Then(m, Reacquire) && u in n.waits
    ensures CallOk(n, u, n.waits[u])
  {
    hide Inv, CallsOk, CallOk, LockAcquire, Wf, WaitHeld, CondsWf;
    Reacquires(m);
    var w := m.waits[m.s.current];
    if u == m.s.current {
      BackFacts(m);
      ReturnsTo(m, w);
      SameLists(m.(s := n.s), n, u, w.(back := true));
    } else {
      OtherStays(m, DoAcquire(w.lock), u);
      SameLists(m.(s := n.s), n, u, m.waits[u]);
    }
  }

  lemma ReacquireListed(m: Monitor)
    requires MonitorInv(m) && Can(m, Reacquire)
    ensures var n := Then(m, Reacquire); Distinct(n.waits) && Listed(n.conds, n.waits)
  {
    hide Inv, CallOk, LockAcquire, Wf, WaitHeld, CondsWf, Distinct, Listed;
    Reacquires(m);
    var n := Then(m, Reacquire);
    SameSemas(m.waits, n.waits, m.conds);
  }

  lemma ReacquireKeeps(m: Monitor)
    requires MonitorInv(m) && Can(m, Reacquire)
    ensures MonitorInv(Then(m, Reacquire))
  {
    var n := Then(m, Reacquire);
    StepInv(m.s, DoAcquire(m.waits[m.s.current].lock));
    ReacquireListed(m);
    hide Inv, CallOk, LockAcquire, Distinct, Listed;
    forall u | u in n.waits
      ensures CallOk(n, u, n.waits[u])
    {
      CallReacquires(m, n, u);
    }
    InOrderAgain(n);
  }

  lemma SameLists(m: Monitor, n: Monitor, t: Tid, w: Wait)
    requires CallOk(m, t, w) && n.s == m.s && n.conds == m.conds
    ensures CallOk(n, t, w)
  {
  }

  lemma SameSemas(waits: map<Tid, Wait>, waits': map<Tid, Wait>, conds: seq<seq<nat>>)
    requires waits'.Keys == waits.Keys && forall t :: t in waits ==> waits'[t].sema == waits[t].sema
    requires Distinct(waits) && Listed(conds, waits)
    ensures Distinct(waits') && Listed(conds, waits')
  {
    forall c, i | 0 <= c < |conds| && 0 <= i < |conds[c]|
      ensures IsWaiter(waits', conds[c][i])
    {
      assert IsWaiter(waits, conds[c][i]);
      var t :| t in waits && waits[t].sema == conds[c][i];
      assert t in waits';
    }
  }

  lemma EndWaitListed(m: Monitor)
    requires CallsOk(m) && m.s.current in m.waits && m.waits[m.s.current].back
    ensures Listed(m.conds, m.waits - {m.s.current})
  {
    var t := m.s.current;
    assert CallOk(m, t, m.waits[t]);
    forall c, i | 0 <= c < |m.conds| && 0 <= i < |m.conds[c]|
      ensures IsWaiter(m.waits - {t}, m.conds[c][i])
    {
      var u := ListedCall(m, c, i);
      assert u in m.waits - {t};
    }
  }

  lemma EndWaitKeeps(m: Monitor)
    requires MonitorInv(m) && Can(m, EndWait)
    ensures MonitorInv(Then(m, EndWait))
  {
    hide Inv, WaitOk, ListOk, Listed, Wf, WaitHeld, CondsWf;
    var n := Then(m, EndWait);
    EndWaitListed(m);
    forall u | u in n.waits
      ensures CallOk(n, u, n.waits[u])
    {
      assert CallOk(m, u, m.waits[u]);
    }
    InOrderAgain(n);
  }

  lemma NewCondKeeps(m: Monitor)
    requires MonitorInv(m) && Can(m, NewCond)
    ensures MonitorInv(Then(m, NewCond))
  {
    hide Inv, CallOk, Listed, Distinct, Wf, WaitHeld, CondsWf;
    var n := Then(m, NewCond);
    MoreConds(m, n);
    InOrderAgain(n);
  }

  lemma MoreConds(m: Monitor, n: Monitor)
    requires CallsOk(m) && n == m.(conds := m.conds + [[]])
    ensures CallsOk(n)
  {
    hide WaitOk;
    forall t | t in n.waits
      ensures CallOk(n, t, n.waits[t])
    {
      assert CallOk(m, t, m.waits[t]);
    }
  }

  // ---------- cond_signal ----------

  lemma SuperYieldEffect(s: State)
    requires Wf(s)
    ensures Switched(s, SuperYield(s)) && SuperYield(s).idle == s.idle
  {
    YieldSwitches(s);
  }

  /** From s to r, q is upped, and threads differ in status only. */
  ghost predicate Upped(s: State, r: State, q: nat) {
    && q < |s.semas| == |r.semas| && |r.threads| == |s.threads| && r.locks == s.locks && r.idle == s.idle
    && (forall u :: 0 <= u < |s.threads| ==> r.threads[u] == s.threads[u].(status := r.threads[u].status))
    && |r.semas[q].waiters| == (if s.semas[q].waiters == [] then 0 else |s.semas[q].waiters| - 1)
    && r.semas[q] == s.semas[q].(waiters := r.semas[q].waiters, value := s.semas[q].value + 1, ups := s.semas[q].ups + 1)
  }

  lemma WokeUpped(s: State, r: State, q: nat, w: seq<Tid>)
    requires Wf(s) && q < |s.semas| && w != [] && InRange(w, |s.threads|) && |w| == |s.semas[q].waiters|
    requires WokeFirst(s, r, q, w)
    ensures Upped(s, r, q)
  {
  }

  lemma WakeUpped(s: State, q: nat)
    requires Wf(s) && q < |s.semas|
    ensures Upped(s, Wake(s, q), q)
  {
    var w := StableSort(s.semas[q].waiters, s.threads);
    WakeEffect(s, q);
    hide Wake, WokeFirst;
    if s.semas[q].waiters != [] {
      assert |multiset(w)| == |multiset(s.semas[q].waiters)|;
      WokeUpped(s, Wake(s, q), q, w);
    }
  }

  lemma UpEffect(s: State, q: nat)
    requires Wf(s) && q < |s.semas|
    ensures Upped(s, SemaUp(s, q), q)
  {
    hide Wf, Wake, SuperYield;
    WakeUpped(s, q);
    SuperYieldEffect(Wake(s, q));
  }

  /** At most the thread itself waits on the semaphore of its call. */
  lemma OneWaiter(s: State, t: Tid, w: Wait)
    requires Inv(s) && WaitOk(s, t, w)
    ensures |s.semas[w.sema].waiters| <= 1
  {
    var l := s.semas[w.sema].waiters;
    forall i | 0 <= i < |l|
      ensures l[i] == t
    {
      assert multiset(l)[l[i]] > 0;
      assert InRange(l, |s.threads|);
      assert Waits(s.threads[l[i]], w.sema);
      assert GoesDownOn(s.threads[l[i]], w.sema);
    }
    AllAlikeCount(l, t);
  }

  lemma {:induction false} AllAlikeCount(l: seq<Tid>, t: Tid)
    requires forall i :: 0 <= i < |l| ==> l[i] == t
    ensures multiset(l)[t] == |l|
  {
    if l != [] {
      assert l == [l[0]] + l[1..];
      AllAlikeCount(l[1..], t);
    }
  }

  lemma ListedCall(m: Monitor, c: nat, i: nat) returns (t: Tid)
    requires CallsOk(m) && c < |m.conds| && i < |m.conds[c]|
    ensures t in m.waits && CallOk(m, t, m.waits[t]) && m.waits[t].sema == m.conds[c][i]
    ensures m.waits[t].cond == c && m.s.semas[m.waits[t].sema].ups == 0 && !m.waits[t].back
  {
    assert IsWaiter(m.waits, m.conds[c][i]);
    t :| t in m.waits && m.waits[t].sema == m.conds[c][i];
    assert CallOk(m, t, m.waits[t]);
    assert m.conds[c][i] in multiset(m.conds[c]);
  }

  lemma FrontIsListed(s: State, ws: seq<nat>) returns (i: nat)
    requires Wf(s) && InRange(ws, |s.semas|) && ws != []
    ensures i < |ws|
    ensures var r := SortWaiters(s, ws);
      r != [] && r[0] == ws[i] && multiset(r[1..]) == multiset(ws) - multiset{ws[i]}
  {
    i := SortedFront(s, ws);
    hide Wf, SortWaiters;
    var r := SortWaiters(s, ws);
    assert r == [r[0]] + r[1..];
  }

  /** The front of the sorted waiters belongs to a call that was not signalled before. */
  lemma FrontWaits(m: Monitor, c: nat) returns (t: Tid)
    requires MonitorInv(m) && c < |m.conds| && m.conds[c] != []
    ensures var ws := SortWaiters(m.s, m.conds[c]);
      && ws != [] && t in m.waits && CallOk(m, t, m.waits[t])
      && m.waits[t].sema == ws[0] && m.waits[t].cond == c
      && m.s.semas[ws[0]].ups == 0 && !m.waits[t].back
      && multiset(ws[1..]) == multiset(m.conds[c]) - multiset{ws[0]}
  {
    assert InRange(m.conds[c], |m.s.semas|);
    hide Inv, Wf, WaitHeld, CallsOk, CallOk;
    var i := FrontIsListed(m.s, m.conds[c]);
    t := ListedCall(m, c, i);
  }

  lemma SignalledCall(m: Monitor, n: Monitor, t: Tid, w: Wait, q: nat)
    requires Wf(m.s) && CallOk(m, t, w) && w.sema == q && m.s.semas[q].ups == 0 && !w.back
    requires |m.s.semas[q].waiters| <= 1
    requires n.s == SemaUp(m.s, q)
    requires |n.conds| == |m.conds| && w.cond < |n.conds|
    requires n.conds == m.conds[w.cond := n.conds[w.cond]]
    requires multiset(n.conds[w.cond]) == multiset(m.conds[w.cond]) - multiset{q}
    ensures CallOk(n, t, w)
  {
    UpEffect(m.s, q);
    hide Wf, SemaUp;
    forall u | 0 <= u < |n.s.threads| && u != t
      ensures !GoesDownOn(n.s.threads[u], q)
    {
      assert !GoesDownOn(m.s.threads[u], q);
    }
    assert WaitOk(n.s, t, w);
  }

  lemma UnsignalledCall(m: Monitor, n: Monitor, t: Tid, w: Wait, q: nat, c: nat)
    requires CallOk(m.(s := n.s), t, w) && w.sema != q && c < |m.conds| == |n.conds|
    requires n.conds == m.conds[c := n.conds[c]]
    requires multiset(n.conds[c]) == multiset(m.conds[c]) - multiset{q}
    ensures CallOk(n, t, w)
  {
  }

  lemma FewerListed(conds: seq<seq<nat>>, conds': seq<seq<nat>>, waits: map<Tid, Wait>, c: nat)
    requires Listed(conds, waits) && c < |conds| == |conds'| && conds' == conds[c := conds'[c]]
    requires multiset(conds'[c]) <= multiset(conds[c])
    ensures Listed(conds', waits)
  {
    forall i | 0 <= i < |conds'[c]|
      ensures IsWaiter(waits, conds'[c][i])
    {
      assert conds'[c][i] in multiset(conds'[c]);
      assert conds'[c][i] in multiset(conds[c]);
      var j :| 0 <= j < |conds[c]| && conds[c][j] == conds'[c][i];
      assert IsWaiter(waits, conds[c][j]);
    }
  }

  lemma CallSignalled(m: Monitor, n: Monitor, c: nat, t: Tid, u: Tid)
    requires MonitorInv(m) && c < |m.conds| == |n.conds| && n.conds == m.conds[c := n.conds[c]]
    requires t in m.waits && CallOk(m, t, m.waits[t]) && m.waits[t].cond == c && !m.waits[t].back
    requires m.s.semas[m.waits[t].sema].ups == 0 && n.s == SemaUp(m.s, m.waits[t].sema)
    requires multiset(n.conds[c]) == multiset(m.conds[c]) - multiset{m.waits[t].sema}
    requires u in m.waits
    ensures CallOk(n, u, m.waits[u])
  {
    var q := m.waits[t].sema;
    if u == t {
      OneWaiter(m.s, t, m.waits[t]);
      hide CallOk, Inv;
      SignalledCall(m, n, t, m.waits[t], q);
    } else {
      assert m.waits[u].sema != q;
      OtherUnsignalled(m, n, u, q, c);
    }
  }

  lemma UpInv(m: Monitor, t: Tid)
    requires Inv(m.s) && AtLarge(m) && t in m.waits && CallOk(m, t, m.waits[t])
    ensures Inv(SemaUp(m.s, m.waits[t].sema))
  {
    hide Rest, Placed, SemaUp;
    StepInv(m.s, DoUp(m.waits[t].sema));
  }

  lemma SignalKeeps(m: Monitor, c: nat, l: nat)
    requires MonitorInv(m) && Can(m, Signal(c, l))
    ensures MonitorInv(Then(m, Signal(c, l)))
  {
    hide Inv, CallOk, SemaUp, Listed, Distinct, SortWaiters, Wf, WaitHeld, CondsWf;
    if m.conds[c] != [] {
      var t := FrontWaits(m, c);
      var n := Signalled(m, c);
      UpInv(m, t);
      forall u | u in m.waits
        ensures CallOk(n, u, m.waits[u])
      {
        CallSignalled(m, n, c, t, u);
      }
      FewerListed(m.conds, n.conds, m.waits, c);
      InOrderAgain(n);
    }
  }

  lemma OtherUnsignalled(m: Monitor, n: Monitor, u: Tid, q: nat, c: nat)
    requires MonitorInv(m) && u in m.waits && m.waits[u].sema != q && q < |m.s.semas| && n.s == SemaUp(m.s, q)
    requires c < |m.conds| == |n.conds| && n.conds == m.conds[c := n.conds[c]]
    requires multiset(n.conds[c]) == multiset(m.conds[c]) - multiset{q}
    ensures CallOk(n, u, m.waits[u])
  {
    assert CallOk(m, u, m.waits[u]);
    hide Rest, Placed;
    UpLeaves(m.s, q, m.waits[u].sema);
    CallStays(m, n.s, u, m.waits[u], None);
    UnsignalledCall(m, n, u, m.waits[u], q, c);
  }

  // ---------- cond_wait begins ----------

  lemma FreshSema(s: State, u: Tid)
    requires Wf(s) && u < |s.threads|
    ensures !GoesDownOn(s.threads[u], |s.semas|)
  {
    assert ThreadWf(s.threads[u], |s.threads|, |s.semas|, |s.locks|);
  }

  lemma FreshCall(s: State, n: Monitor, w: Wait, t: Tid)
    requires Wf(s) && t < |s.threads| && t != s.idle && w.sema == |s.semas| && w.lock < |s.locks| && !w.back
    requires Leaves(SemaInit(s, 0), n.s, w.sema, Some(t))
    requires n.s.threads[t].cont == Free && w.lock !in n.s.threads[t].held
    ensures WaitOk(n.s, t, w)
  {
    var s1 := SemaInit(s, 0);
    forall u | 0 <= u < |n.s.threads| && u != t
      ensures !GoesDownOn(n.s.threads[u], w.sema)
    {
      if u < |s.threads| {
        FreshSema(s, u);
        assert SameWait(s1.threads[u], n.s.threads[u], w.sema, false);
      }
    }
  }

  lemma FreshList(conds: seq<seq<nat>>, conds': seq<seq<nat>>, c: nat, w: Wait)
    requires CondsWf(conds, w.sema) && c < |conds| == |conds'| && conds' == conds[c := conds'[c]] && w.cond == c
    requires multiset(conds'[c]) == multiset(conds[c]) + multiset{w.sema}
    ensures ListOk(conds', w, 0)
  {
    forall d | 0 <= d < |conds'|
      ensures multiset(conds'[d])[w.sema] == One(d == c)
    {
      assert InRange(conds[d], w.sema);
      assert w.sema !in conds[d];
    }
  }

  lemma ReleaseInv(s: State, l: nat)
    requires Inv(s) && Enabled(s, DoRelease(l))
    ensures Inv(LockRelease(s, l)) && ReleasePre(s, l)
  {
    hide Rest, Placed, Sorted, LockRelease;
    StepInv(s, DoRelease(l));
  }

  lemma InitInv(s: State)
    requires Inv(s) && Enabled(s, DoSemaInit(0))
    ensures Inv(SemaInit(s, 0))
  {
    hide Rest, Placed, Sorted, SemaInit;
    StepInv(s, DoSemaInit(0));
  }

  lemma AfterRelease(m: Monitor, l: nat)
    requires MonitorInv(m) && AtLarge(m) && Holds(m, l)
    ensures var s1 := SemaInit(m.s, 0);
      && Inv(s1) && Enabled(s1, DoRelease(l)) && Inv(LockRelease(s1, l))
      && ReleasePre(s1, l)
  {
    hide Inv, LockRelease, ReleasePre, CallsOk, WaitHeld, CondsWf;
    InitInv(m.s);
    ReleaseInv(SemaInit(m.s, 0), l);
  }

  /** What cond_wait makes of a monitor until lock_release returns. */
  lemma BegunParts(m: Monitor, c: nat, l: nat)
    requires MonitorWf(m) && Can(m, BeginWait(c, l))
    ensures AtLarge(m) && Holds(m, l) && c < |m.conds|
    ensures Wf(m.s) && CondsWf(m.conds, |m.s.semas|) && m.s.current < |m.s.threads|
    ensures var n := Then(m, BeginWait(c, l));
      && n.s == LockRelease(SemaInit(m.s, 0), l)
      && n.waits == m.waits[m.s.current := Wait(|m.s.semas|, c, l, false)]
      && |n.conds| == |m.conds| && n.conds == m.conds[c := n.conds[c]]
      && multiset(n.conds[c]) == multiset(m.conds[c]) + multiset{|m.s.semas|}
  {
    hide CondsWf, LockRelease, SemaInit;
  }

  lemma InitIs(s: State)
    requires Wf(s)
    ensures SemaInit(s, 0) == s.(semas := s.semas + [Semaphore(0, [], User, 0, 0, 0)])
  {
  }

  lemma BegunCall(m: Monitor, c: nat, l: nat)
    requires MonitorInv(m) && Can(m, BeginWait(c, l))
    ensures var n := Then(m, BeginWait(c, l));
      CallOk(n, m.s.current, n.waits[m.s.current])
  {
    hide Inv, CallsOk, Can, Then, Wf, WaitHeld, CondsWf, WaitOk, ListOk, Leaves, LockRelease, ReleasePre, SemaInit;
    BegunParts(m, c, l);
    var q, t := |m.s.semas|, m.s.current;
    var n := Then(m, BeginWait(c, l));
    InitIs(m.s);
    AfterRelease(m, l);
    ReleaseLeaves(SemaInit(m.s, 0), l, q);
    FreshCall(m.s, n, n.waits[t], t);
    FreshList(m.conds, n.conds, c, n.waits[t]);
    ReleasedSame(SemaInit(m.s, 0), n.s, q, Some(t));
  }

  lemma ReleasedSame(s: State, r: State, q: nat, actor: Option<Tid>)
    requires Leaves(s, r, q, actor)
    ensures q < |s.semas| && q < |r.semas| && r.semas[q] == s.semas[q]
  {
  }

  lemma OtherBegun(m: Monitor, c: nat, l: nat, t: Tid)
    requires MonitorInv(m) && Can(m, BeginWait(c, l)) && t in m.waits
    ensures CallOk(Then(m, BeginWait(c, l)), t, m.waits[t])
  {
    hide Inv, CallsOk, CallOk, Can, Then, Wf, WaitHeld, CondsWf, Leaves, LockRelease, ReleasePre, SemaInit;
    BegunParts(m, c, l);
    var s, w, n := m.s, m.waits[t], Then(m, BeginWait(c, l));
    var s1 := SemaInit(s, 0);
    InitIs(s);
    CallHas(m, t);
    AfterRelease(m, l);
    GrowLeaves(s, 0, 0, w.sema);
    ReleaseLeaves(s1, l, w.sema);
    LeavesFirst(s, s1, n.s, w.sema, Some(s.current));
    CallStays(m, n.s, t, w, Some(s.current));
    MoreInList(m.(s := n.s), n, c, t, w);
  }

  lemma CallHas(m: Monitor, t: Tid)
    requires CallsOk(m) && t in m.waits
    ensures CallOk(m, t, m.waits[t])
    ensures m.waits[t].sema < |m.s.semas| && m.s.semas[m.waits[t].sema].owner == User
  {
    assert CallOk(m, t, m.waits[t]);
  }

  lemma MoreInList(m: Monitor, n: Monitor, c: nat, t: Tid, w: Wait)
    requires CallOk(m, t, w) && n.s == m.s && |n.conds| == |m.conds| && c < |m.conds|
    requires n.conds == m.conds[c := n.conds[c]]
    requires multiset(n.conds[c])[w.sema] == multiset(m.conds[c])[w.sema]
    ensures CallOk(n, t, w)
  {
  }

  lemma MoreListed(m: Monitor, n: Monitor, c: nat, w: Wait, t: Tid)
    requires Listed(m.conds, m.waits) && Distinct(m.waits) && c < |m.conds| && t !in m.waits
    requires forall u :: u in m.waits ==> m.waits[u].sema < w.sema
    requires n.waits == m.waits[t := w] && |n.conds| == |m.conds| && n.conds == m.conds[c := n.conds[c]]
    requires multiset(n.conds[c]) == multiset(m.conds[c]) + multiset{w.sema}
    ensures Listed(n.conds, n.waits) && Distinct(n.waits)
  {
    forall d, i | 0 <= d < |n.conds| && 0 <= i < |n.conds[d]|
      ensures IsWaiter(n.waits, n.conds[d][i])
    {
      var q := n.conds[d][i];
      assert q in multiset(n.conds[d]);
      if q == w.sema {
        assert t in n.waits && n.waits[t].sema == q;
      } else {
        assert q in multiset(m.conds[d]);
        var j :| 0 <= j < |m.conds[d]| && m.conds[d][j] == q;
        assert IsWaiter(m.waits, m.conds[d][j]);
        var u :| u in m.waits && m.waits[u].sema == q;
        assert u in n.waits && n.waits[u].sema == q;
      }
    }
  }

  lemma BeginListed(m: Monitor, c: nat, l: nat)
    requires MonitorInv(m) && Can(m, BeginWait(c, l))
    ensures var n := Then(m, BeginWait(c, l)); Listed(n.conds, n.waits) && Distinct(n.waits)
  {
    var n := Then(m, BeginWait(c, l));
    forall t | t in m.waits
      ensures m.waits[t].sema < |m.s.semas|
    {
      assert CallOk(m, t, m.waits[t]);
    }
    hide Inv, CallOk, LockRelease, MonitorWf;
    MoreListed(m, n, c, n.waits[m.s.current], m.s.current);
  }

  lemma BeginKeeps(m: Monitor, c: nat, l: nat)
    requires MonitorInv(m) && Can(m, BeginWait(c, l))
    ensures MonitorInv(Then(m, BeginWait(c, l)))
  {
    var n := Then(m, BeginWait(c, l));
    BegunCall(m, c, l);
    BeginListed(m, c, l);
    AfterRelease(m, l);
    forall t | t in n.waits
      ensures CallOk(n, t, n.waits[t])
    {
      if t != m.s.current {
        OtherBegun(m, c, l, t);
      }
    }
    hide Inv, CallOk, LockRelease, ReleasePre, Listed, Distinct;
    InOrderAgain(n);
  }

  lemma CondStepKeeps(m: Monitor, step: CondStep)
    requires MonitorInv(m) && Can(m, step)
    ensures MonitorInv(Then(m, step))
  {
    match step
    case Do(p) => DoKeeps(m, p);
    case NewCond => NewCondKeeps(m);
    case BeginWait(c, l) => BeginKeeps(m, c, l);
    case GoDown => GoDownKeeps(m);
    case Reacquire => ReacquireKeeps(m);
    case EndWait => EndWaitKeeps(m);
    case Signal(c, l) => SignalKeeps(m, c, l);
  }

  // ---------- the theorems over runs ----------

  /** A step, and what it makes of a state in order. */
  ghost predicate CondGoes(m: Monitor, step: CondStep, n: Monitor) {
    MonitorWf(m) ==> Can(m, step) && n == Then(m, step)
  }

  ghost predicate CondGoesAt(ms: seq<Monitor>, steps: seq<CondStep>, i: nat)
    requires i < |steps| && |ms| == |steps| + 1
  {
    CondGoes(ms[i], steps[i], ms[i + 1])
  }

  ghost predicate IsCondRun(ms: seq<Monitor>, steps: seq<CondStep>) {
    && |ms| == |steps| + 1
    && forall i :: 0 <= i < |steps| ==> CondGoesAt(ms, steps, i)
  }

  function Start(): Monitor {
    Monitor(Boot(), [], map[])
  }

  lemma StartKeeps()
    ensures MonitorInv(Start())
  {
    BootKeeps();
    InOrderAgain(Start());
  }

  /** In every run, every call of cond_wait is either in its list with its semaphore at zero,
      or was signalled once and will find it so. */
  lemma {:induction false} CondRunKeeps(ms: seq<Monitor>, steps: seq<CondStep>, i: nat)
    requires IsCondRun(ms, steps) && i < |ms| && MonitorInv(ms[0])
    ensures MonitorInv(ms[i])
  {
    hide MonitorInv, CondGoes;
    if i > 0 {
      CondRunKeeps(ms, steps, i - 1);
      assert CondGoesAt(ms, steps, i - 1);
      CondGoesKeeps(ms[i - 1], steps[i - 1], ms[i]);
    }
  }

  lemma CondGoesKeeps(m: Monitor, step: CondStep, n: Monitor)
    requires MonitorInv(m) && CondGoes(m, step, n)
    ensures MonitorInv(n)
  {
    CondStepKeeps(m, step);
  }

  /** No signal is lost: a thread blocked in cond_wait is still in the list, and one that is
      in the list has not gone through. */
  lemma NoSignalLost(m: Monitor, t: Tid)
    requires MonitorInv(m) && t in m.waits
    ensures var w := m.waits[t];
      && t < |m.s.threads| && w.cond < |m.conds| && w.sema < |m.s.semas|
      && (Waits(m.s.threads[t], w.sema) ==> w.sema in m.conds[w.cond])
      && (w.sema in m.conds[w.cond] <==> m.s.semas[w.sema].ups == 0)
      && (m.s.semas[w.sema].downs > 0 || w.back ==> w.sema !in m.conds[w.cond])
  {
    var w := m.waits[t];
    assert CallOk(m, t, w);
    WentThrough(m, t);
    assert w.sema in multiset(m.conds[w.cond]) <==> m.s.semas[w.sema].ups == 0;
    if Waits(m.s.threads[t], w.sema) {
      assert multiset(m.s.semas[w.sema].waiters)[t] > 0;
    }
  }

  /** When cond_wait returns its caller holds the lock, and it was signalled exactly once. */
  lemma ReturnsWithLock(m: Monitor)
    requires MonitorInv(m) && Can(m, EndWait)
    ensures var w := m.waits[m.s.current];
      && Holds(m, w.lock)
      && w.sema < |m.s.semas| && m.s.semas[w.sema].ups == 1 && m.s.semas[w.sema].downs == 1
  {
    assert CallOk(m, m.s.current, m.waits[m.s.current]);
    HoldersOf(m.s, m.waits[m.s.current].lock);
  }

  /** u is blocked on the semaphore of its call, which is in the list of c. */
  ghost predicate BlockedFor(m: Monitor, u: Tid, c: nat)
    requires u in m.waits && c < |m.conds|
  {
    && u < |m.s.threads|
    && m.waits[u].sema in m.conds[c]
    && Waits(m.s.threads[u], m.waits[u].sema)
  }

  /** cond_signal takes one call off the list and ups its semaphore.  If a thread is blocked
      for any call of the list, then the one for the call taken was blocked, none of the
      others outranks it, and it is no longer blocked. */
  lemma SignalWakesBest(m: Monitor, c: nat) returns (t: Tid)
    requires MonitorInv(m) && c < |m.conds| && m.conds[c] != []
    ensures t in m.waits && t < |m.s.threads| && m.waits[t].sema < |m.s.semas|
    ensures var q, n := m.waits[t].sema, Signalled(m, c);
      && multiset(n.conds[c]) == multiset(m.conds[c]) - multiset{q} && q in m.conds[c]
      && Upped(m.s, n.s, q)
      && (forall u :: u in m.waits && BlockedFor(m, u, c) ==>
           Waits(m.s.threads[t], q) && PriorityOf(m.s, u) <= PriorityOf(m.s, t))
  {
    t := FrontWaits(m, c);
    var q := m.waits[t].sema;
    var i := SortedFront(m.s, m.conds[c]);
    UpEffect(m.s, q);
    forall u | u in m.waits && BlockedFor(m, u, c)
      ensures Waits(m.s.threads[t], q) && PriorityOf(m.s, u) <= PriorityOf(m.s, t)
    {
      var j :| 0 <= j < |m.conds[c]| && m.conds[c][j] == m.waits[u].sema;
      assert !Before(m.s, m.conds[c][j], m.conds[c][i]);
      assert CallOk(m, u, m.waits[u]);
      BestOf(m, t, u);
    }
  }

  lemma BestOf(m: Monitor, t: Tid, u: Tid)
    requires MonitorInv(m) && t in m.waits && u in m.waits
    requires CallOk(m, t, m.waits[t]) && CallOk(m, u, m.waits[u])
    requires !Before(m.s, m.waits[u].sema, m.waits[t].sema) && Waits(m.s.threads[u], m.waits[u].sema)
    ensures Waits(m.s.threads[t], m.waits[t].sema) && PriorityOf(m.s, u) <= PriorityOf(m.s, t)
  {
    OwnWaiter(m.s, t, m.waits[t]);
    OwnWaiter(m.s, u, m.waits[u]);
  }

  /** The list of a call's semaphore holds its thread or nobody. */
  lemma OwnWaiter(s: State, t: Tid, w: Wait)
    requires Inv(s) && WaitOk(s, t, w)
    ensures var l := s.semas[w.sema].waiters;
      (l == [] <==> !Waits(s.threads[t], w.sema)) && (l != [] ==> l[0] == t)
  {
    var l := s.semas[w.sema].waiters;
    assert multiset(l)[t] == One(Waits(s.threads[t], w.sema));
    if l != [] {
      assert InRange(l, |s.threads|);
      assert multiset(l)[l[0]] > 0;
      assert Waits(s.threads[l[0]], w.sema);
      assert GoesDownOn(s.threads[l[0]], w.sema);
    }
  }
}
