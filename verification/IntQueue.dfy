/** The interrupt queue: a ring buffer with one slot for a waiting reader, one for a waiting
    writer, and a lock so that one thread waits at a time. */
module IntQueue {
  import opened Common

  const BUFSIZE := 64

  function NextPos(pos: nat): nat { (pos + 1) % BUFSIZE }

  /** What a call of intq_getc or intq_putc has come to: not waiting, wanting the lock to
      wait, waiting, or woken and still holding the lock. */
  datatype Phase = Free | GetLock | PutLock | GetWait | PutWait | GetWoken | PutWoken

  /** `phases` has one entry a thread, `owner` holds the lock; `panicked` records a failed
      assertion. */
  datatype Queue = Queue(
    buf: seq<Byte>,
    head: nat,
    tail: nat,
    notFull: Option<nat>,
    notEmpty: Option<nat>,
    owner: Option<nat>,
    phases: seq<Phase>,
    panicked: bool)

  predicate Empty(q: Queue) { q.head == q.tail }

  predicate Full(q: Queue) { NextPos(q.head) == q.tail }

  ghost predicate Wf(q: Queue) {
    && |q.buf| == BUFSIZE && q.head < BUFSIZE && q.tail < BUFSIZE
    && (q.notFull.Some? ==> q.notFull.value < |q.phases|)
    && (q.notEmpty.Some? ==> q.notEmpty.value < |q.phases|)
    && (q.owner.Some? ==> q.owner.value < |q.phases|)
  }

  // ---------- the ring as a queue ----------

  function Count(q: Queue): nat
    requires Wf(q)
  {
    (q.head + BUFSIZE - q.tail) % BUFSIZE
  }

  /** The bytes in the queue, oldest first. */
  function Contents(q: Queue): (s: seq<Byte>)
    requires Wf(q)
    ensures |s| == Count(q)
  {
    seq(Count(q), i requires 0 <= i < Count(q) => q.buf[(q.tail + i) % BUFSIZE])
  }

  /** signal. */
  function SignalFull(q: Queue): (r: Queue)
    requires Wf(q)
    ensures Wf(r)
  {
    if q.notFull.None? then q
    else q.(phases := q.phases[q.notFull.value := PutWoken], notFull := None)
  }

  function SignalEmpty(q: Queue): (r: Queue)
    requires Wf(q)
    ensures Wf(r)
  {
    if q.notEmpty.None? then q
    else q.(phases := q.phases[q.notEmpty.value := GetWoken], notEmpty := None)
  }

  /** The end of intq_getc. */
  function Take(q: Queue): (r: Queue)
    requires Wf(q) && !Empty(q)
    ensures Wf(r)
  {
    SignalFull(q.(tail := NextPos(q.tail)))
  }

  /** The end of intq_putc. */
  function Add(q: Queue, byte: Byte): (r: Queue)
    requires Wf(q) && !Full(q)
    ensures Wf(r)
  {
    SignalEmpty(q.(buf := q.buf[q.head := byte], head := NextPos(q.head)))
  }

  /** The ring is a queue of at most 63 bytes, empty and full exactly when the tests say. */
  lemma RingBounds(q: Queue)
    requires Wf(q)
    ensures |Contents(q)| <= BUFSIZE - 1
    ensures Empty(q) <==> Contents(q) == []
    ensures Full(q) <==> |Contents(q)| == BUFSIZE - 1
  {
  }

  lemma SamePlace(tail: nat, i: nat)
    requires tail < BUFSIZE && i > 0
    ensures (NextPos(tail) + (i - 1)) % BUFSIZE == (tail + i) % BUFSIZE
  {
  }

  lemma CountDown(head: nat, tail: nat)
    requires head < BUFSIZE && tail < BUFSIZE && head != tail
    ensures (head + BUFSIZE - NextPos(tail)) % BUFSIZE == (head + BUFSIZE - tail) % BUFSIZE - 1
  {
  }

  lemma CountUp(head: nat, tail: nat)
    requires head < BUFSIZE && tail < BUFSIZE && NextPos(head) != tail
    ensures (NextPos(head) + BUFSIZE - tail) % BUFSIZE == (head + BUFSIZE - tail) % BUFSIZE + 1
    ensures (tail + (head + BUFSIZE - tail) % BUFSIZE) % BUFSIZE == head
  {
  }

  lemma TakeRemovesOldest(q: Queue)
    requires Wf(q) && !Empty(q)
    ensures Contents(q) == [q.buf[q.tail]] + Contents(Take(q))
  {
    var r, n := Take(q), Count(q);
    assert r.buf == q.buf && r.tail == NextPos(q.tail) && r.head == q.head;
    CountDown(q.head, q.tail);
    FrontPlace(q);
    hide Take, Count, NextPos, Wf, Empty;
    forall i | 1 <= i < n
      ensures Contents(q)[i] == Contents(r)[i - 1]
    {
      SamePlace(q.tail, i);
    }
  }

  lemma FrontPlace(q: Queue)
    requires Wf(q) && !Empty(q)
    ensures Count(q) > 0 && Contents(q)[0] == q.buf[q.tail]
  {
  }

  /** Positions of a ring less than a round apart differ. */
  lemma PlacesDiffer(tail: nat, i: nat, n: nat)
    requires i < n < BUFSIZE
    ensures (tail + i) % BUFSIZE != (tail + n) % BUFSIZE
  {
  }

  lemma Counted(q: Queue, byte: Byte)
    requires Wf(q) && !Full(q)
    ensures Count(Add(q, byte)) == Count(q) + 1 && (q.tail + Count(q)) % BUFSIZE == q.head
  {
    CountUp(q.head, q.tail);
    hide NextPos;
  }

  lemma AddAppends(q: Queue, byte: Byte)
    requires Wf(q) && !Full(q)
    ensures Contents(Add(q, byte)) == Contents(q) + [byte]
  {
    var r, n := Add(q, byte), Count(q);
    assert r.tail == q.tail && r.buf == q.buf[q.head := byte];
    Counted(q, byte);
    hide Add, Count;
    forall i | 0 <= i < n + 1
      ensures Contents(r)[i] == (Contents(q) + [byte])[i]
    {
      if i < n {
        PlacesDiffer(q.tail, i, n);
      }
    }
  }

  // ---------- the monitor ----------

  /** One pass of the loop of intq_getc in thread t: take a byte, or wait at once when the
      lock is free, or queue up for the lock. */
  function GetPass(q: Queue, t: nat): (r: Queue)
    requires Wf(q) && t < |q.phases|
    ensures Wf(r)
  {
    if !Empty(q) then Take(q)
    else if q.owner.None? then q.(owner := Some(t), notEmpty := Some(t), phases := q.phases[t := GetWait])
    else q.(phases := q.phases[t := GetLock])
  }

  function PutPass(q: Queue, t: nat, byte: Byte): (r: Queue)
    requires Wf(q) && t < |q.phases|
    ensures Wf(r)
  {
    if !Full(q) then Add(q, byte)
    else if q.owner.None? then q.(owner := Some(t), notFull := Some(t), phases := q.phases[t := PutWait])
    else q.(phases := q.phases[t := PutLock])
  }

  /** The lock comes free for a thread that queued up: wait asserts its condition. */
  function Granted(q: Queue, t: nat): (r: Queue)
    requires Wf(q) && t < |q.phases| && (q.phases[t] == GetLock || q.phases[t] == PutLock)
    ensures Wf(r)
  {
    if q.phases[t] == GetLock then
      if Empty(q) then q.(owner := Some(t), notEmpty := Some(t), phases := q.phases[t := GetWait])
      else q.(panicked := true)
    else
      if Full(q) then q.(owner := Some(t), notFull := Some(t), phases := q.phases[t := PutWait])
      else q.(panicked := true)
  }

  /** Back from thread_block: release the lock and test again. */
  function Resume(q: Queue, t: nat): (r: Queue)
    requires Wf(q) && t < |q.phases|
    ensures Wf(r)
  {
    q.(owner := None, phases := q.phases[t := Free])
  }

  datatype Step =
    | DoGet(t: nat)
    | DoPut(t: nat, byte: Byte)
    | DoGranted(t: nat)
    | DoResume(t: nat)
    | IntrGet
    | IntrPut(byte: Byte)

  /** Interrupt handlers call only when they need not wait. */
  predicate Enabled(q: Queue, step: Step) {
    match step
    case DoGet(t) => t < |q.phases| && q.phases[t] == Free
    case DoPut(t, _) => t < |q.phases| && q.phases[t] == Free
    case DoGranted(t) => t < |q.phases| && (q.phases[t] == GetLock || q.phases[t] == PutLock) && q.owner.None?
    case DoResume(t) => t < |q.phases| && (q.phases[t] == GetWoken || q.phases[t] == PutWoken)
    case IntrGet => !Empty(q)
    case IntrPut(_) => !Full(q)
  }

  function Next(q: Queue, step: Step): (r: Queue)
    requires Wf(q) && Enabled(q, step)
    ensures Wf(r)
  {
    match step
    case DoGet(t) => GetPass(q, t)
    case DoPut(t, b) => PutPass(q, t, b)
    case DoGranted(t) => Granted(q, t)
    case DoResume(t) => Resume(q, t)
    case IntrGet => Take(q)
    case IntrPut(b) => Add(q, b)
  }

  /** The step removes or adds a byte. */
  predicate Takes(q: Queue, step: Step) {
    !Empty(q) && (step.DoGet? || step.IntrGet?)
  }

  predicate Adds(q: Queue, step: Step) {
    !Full(q) && (step.DoPut? || step.IntrPut?)
  }

  predicate HoldsLock(p: Phase) {
    p == GetWait || p == PutWait || p == GetWoken || p == PutWoken
  }

  /** A recorded reader waits on an empty queue and a recorded writer on a full one; the
      recorded threads are exactly the waiting ones, and hold the lock. */
  ghost predicate Inv(q: Queue) {
    && Wf(q)
    && (q.notEmpty.Some? ==> Empty(q))
    && (q.notFull.Some? ==> Full(q))
    && (forall t :: 0 <= t < |q.phases| ==> (q.phases[t] == GetWait <==> q.notEmpty == Some(t)))
    && (forall t :: 0 <= t < |q.phases| ==> (q.phases[t] == PutWait <==> q.notFull == Some(t)))
    && (forall t :: 0 <= t < |q.phases| ==> (HoldsLock(q.phases[t]) <==> q.owner == Some(t)))
  }

  function Init(threads: nat): Queue {
    Queue(seq(BUFSIZE, _ => 0), 0, 0, None, None, None, seq(threads, _ => Free), false)
  }

  /** A byte that goes wakes the writer that waited for that. */
  lemma TakeKeeps(q: Queue)
    requires Inv(q) && !Empty(q)
    ensures Inv(Take(q)) && |Take(q).phases| == |q.phases|
  {
  }

  lemma AddKeeps(q: Queue, byte: Byte)
    requires Inv(q) && !Full(q)
    ensures Inv(Add(q, byte)) && |Add(q, byte).phases| == |q.phases|
  {
  }

  lemma WaitKeeps(q: Queue, t: nat)
    requires Inv(q) && t < |q.phases| && !HoldsLock(q.phases[t])
    ensures q.owner.None? && Empty(q) ==> Inv(q.(owner := Some(t), notEmpty := Some(t), phases := q.phases[t := GetWait]))
    ensures q.owner.None? && Full(q) ==> Inv(q.(owner := Some(t), notFull := Some(t), phases := q.phases[t := PutWait]))
    ensures Inv(q.(phases := q.phases[t := GetLock])) && Inv(q.(phases := q.phases[t := PutLock]))
  {
  }

  lemma ResumeKeeps(q: Queue, t: nat)
    requires Inv(q) && t < |q.phases| && (q.phases[t] == GetWoken || q.phases[t] == PutWoken)
    ensures Inv(Resume(q, t))
  {
  }

  lemma PanicKeeps(q: Queue)
    requires Inv(q)
    ensures Inv(q.(panicked := true))
  {
  }

  lemma StepKeeps(q: Queue, step: Step)
    requires Inv(q) && Enabled(q, step)
    ensures Inv(Next(q, step)) && |Next(q, step).phases| == |q.phases|
  {
    if !Empty(q) {
      TakeKeeps(q);
    }
    match step
    case DoGet(t) => WaitKeeps(q, t);
    case DoPut(t, b) =>
      WaitKeeps(q, t);
      if !Full(q) {
        AddKeeps(q, b);
      }
    case DoGranted(t) => WaitKeeps(q, t); PanicKeeps(q);
    case DoResume(t) => ResumeKeeps(q, t);
    case IntrGet =>
    case IntrPut(b) => AddKeeps(q, b);
    hide Inv, Take, Add, Empty, Full;
  }

  /** A step, and what it makes of a state in order; there is none after a panic. */
  ghost predicate Goes(q: Queue, step: Step, r: Queue) {
    Wf(q) ==> !q.panicked && Enabled(q, step) && r == Next(q, step)
  }

  ghost predicate IsRun(qs: seq<Queue>, steps: seq<Step>) {
    && |qs| == |steps| + 1
    && forall i :: 0 <= i < |steps| ==> Goes(qs[i], steps[i], qs[i + 1])
  }

  /** In every run: a byte is taken from the front or added at the end or the contents stay,
      and no thread waits for a condition that holds. */
  lemma {:induction false} RunRefines(qs: seq<Queue>, steps: seq<Step>, i: nat)
    requires IsRun(qs, steps) && Inv(qs[0]) && i < |qs|
    ensures Inv(qs[i])
    ensures i < |steps| && Wf(qs[i + 1]) ==>
      Contents(qs[i + 1]) ==
        if Takes(qs[i], steps[i]) then Contents(qs[i])[1..]
        else if Adds(qs[i], steps[i]) then Contents(qs[i]) + [steps[i].byte]
        else Contents(qs[i])
    ensures forall t :: 0 <= t < |qs[i].phases| && Contents(qs[i]) != [] ==> qs[i].phases[t] != GetWait
    ensures forall t :: 0 <= t < |qs[i].phases| && |Contents(qs[i])| < BUFSIZE - 1 ==> qs[i].phases[t] != PutWait
  {
    if i > 0 {
      RunRefines(qs, steps, i - 1);
      assert Goes(qs[i - 1], steps[i - 1], qs[i]);
      StepKeeps(qs[i - 1], steps[i - 1]);
    }
    RingBounds(qs[i]);
    if i < |steps| {
      assert Goes(qs[i], steps[i], qs[i + 1]);
      StepMoves(qs[i], steps[i]);
    }
  }

  lemma StepMoves(q: Queue, step: Step)
    requires Inv(q) && Enabled(q, step)
    ensures Contents(Next(q, step)) ==
      if Takes(q, step) then Contents(q)[1..]
      else if Adds(q, step) then Contents(q) + [step.byte]
      else Contents(q)
  {
    RingBounds(q);
    if Takes(q, step) {
      TakeRemovesOldest(q);
    } else if Adds(q, step) {
      AddAppends(q, step.byte);
    }
  }

  // ---------- when the assertion of wait holds ----------

  /** With a single thread, and interrupt handlers on the other side, the lock is always free
      when the thread wants to wait. */
  lemma {:induction false} OneThreadIsSafe(qs: seq<Queue>, steps: seq<Step>, i: nat)
    requires IsRun(qs, steps) && |qs[0].phases| <= 1 && qs[0] == Init(|qs[0].phases|) && i < |qs|
    ensures !qs[i].panicked && Inv(qs[i]) && |qs[i].phases| == |qs[0].phases|
    ensures forall t :: 0 <= t < |qs[i].phases| ==> qs[i].phases[t] != GetLock && qs[i].phases[t] != PutLock
  {
    if i > 0 {
      hide Inv, Goes;
      OneThreadIsSafe(qs, steps, i - 1);
      assert Goes(qs[i - 1], steps[i - 1], qs[i]);
      OneThreadStep(qs[i - 1], steps[i - 1], qs[i]);
    }
  }

  lemma OneThreadStep(q: Queue, step: Step, r: Queue)
    requires Inv(q) && Goes(q, step, r) && |q.phases| <= 1
    requires forall t :: 0 <= t < |q.phases| ==> q.phases[t] != GetLock && q.phases[t] != PutLock
    ensures !r.panicked && Inv(r) && |r.phases| == |q.phases|
    ensures forall t :: 0 <= t < |r.phases| ==> r.phases[t] != GetLock && r.phases[t] != PutLock
  {
    StepKeeps(q, step);
    hide Empty, Full, NextPos;
  }

  /** Two readers: the first waits, the second queues up for the lock, a byte comes in by
      interrupt, the first reader releases the lock, and the second gets it although the queue
      is not empty. */
  function PanicSteps(): seq<Step> {
    [DoGet(0), DoGet(1), IntrPut(0), DoResume(0), DoGranted(1)]
  }

  /** With two threads or more there is a run in which the assertion of wait fails. */
  lemma TwoThreadsCanPanic(threads: nat)
    requires threads >= 2
    ensures exists qs: seq<Queue>, steps: seq<Step> :: IsRun(qs, steps) && qs[0] == Init(threads) && qs[|steps|].panicked
  {
    var q0 := Init(threads);
    var q1 := GetPass(q0, 0);
    var q2 := GetPass(q1, 1);
    var q3 := Add(q2, 0);
    var q4 := Resume(q3, 0);
    var q5 := Granted(q4, 1);
    var qs, steps := [q0, q1, q2, q3, q4, q5], PanicSteps();
    forall i | 0 <= i < |steps|
      ensures Goes(qs[i], steps[i], qs[i + 1])
    {
    }
    assert IsRun(qs, steps) && qs[|steps|].panicked;
  }

  /** Thread 0 only reads, thread 1 only writes, and no interrupt handler takes part. */
  predicate ReadsAndWrites(step: Step) {
    match step
    case DoGet(t) => t == 0
    case DoPut(t, _) => t == 1
    case DoGranted(_) => true
    case DoResume(_) => true
    case IntrGet => false
    case IntrPut(_) => false
  }

  /** The queue after the reader began to wait and the writer added k bytes. */
  function Filled(k: nat): (q: Queue)
    requires k < BUFSIZE
    ensures Wf(q) && q.head == k && q.tail == 0 && q.owner == Some(0) && q.notFull == None && !q.panicked
    ensures q.notEmpty == (if k == 0 then Some(0) else None)
    ensures q.phases == [if k == 0 then GetWait else GetWoken, Free]
  {
    if k == 0 then GetPass(Init(2), 0) else Add(Filled(k - 1), 0)
  }

  /** The writer finds the ring full while the woken reader still holds the lock; the reader
      then releases it and takes a byte, and the writer gets the lock of a queue that is not
      full. */
  function ReaderAndWriter(): seq<Queue> {
    var full := PutPass(Filled(BUFSIZE - 1), 1, 0);
    var resumed := Resume(full, 0);
    var taken := GetPass(resumed, 0);
    [Init(2)] + seq(BUFSIZE, k requires 0 <= k < BUFSIZE => Filled(k)) + [full, resumed, taken, Granted(taken, 1)]
  }

  function ReaderAndWriterSteps(): seq<Step> {
    [DoGet(0)] + seq(BUFSIZE, _ => DoPut(1, 0)) + [DoResume(0), DoGet(0), DoGranted(1)]
  }

  /** Even one reader and one writer, and nobody else, can make the assertion of wait fail. */
  lemma ReaderAndWriterCanPanic()
    ensures var qs, steps := ReaderAndWriter(), ReaderAndWriterSteps();
      && IsRun(qs, steps) && qs[0] == Init(2) && qs[|steps|].panicked
      && (forall i :: 0 <= i < |steps| ==> ReadsAndWrites(steps[i]))
  {
    var qs, steps := ReaderAndWriter(), ReaderAndWriterSteps();
    LastQueues();
    assert forall i :: 0 <= i < BUFSIZE ==> qs[i + 1] == Filled(i);
    hide Filled, Goes, Resume, GetPass, PutPass, Granted, Init;
    forall i | 0 <= i < |steps|
      ensures Goes(qs[i], steps[i], qs[i + 1])
    {
      if 1 <= i < BUFSIZE {
        WriterGoes(i);
      }
    }
  }

  lemma LastQueues()
    ensures var full := PutPass(Filled(BUFSIZE - 1), 1, 0); var resumed := Resume(full, 0); var taken := GetPass(resumed, 0);
      && Goes(Init(2), DoGet(0), Filled(0))
      && Goes(Filled(BUFSIZE - 1), DoPut(1, 0), full) && Goes(full, DoResume(0), resumed)
      && Goes(resumed, DoGet(0), taken) && Goes(taken, DoGranted(1), Granted(taken, 1)) && Granted(taken, 1).panicked
  {
  }

  lemma WriterGoes(i: nat)
    requires 1 <= i < BUFSIZE
    ensures Goes(Filled(i - 1), DoPut(1, 0), Filled(i))
  {
  }

  // ---------- the queue in place ----------

  class Intq {
    const buf: array<Byte>
    var head: nat
    var tail: nat
    var notFull: Option<nat>
    var notEmpty: Option<nat>
    var owner: Option<nat>
    var phases: seq<Phase>

    ghost function St(): Queue
      reads this, buf
    {
      Queue(buf[..], head, tail, notFull, notEmpty, owner, phases, false)
    }

    constructor (threads: nat)
      ensures fresh(buf) && St() == Init(threads)
    {
      buf := new Byte[BUFSIZE](_ => 0);
      head, tail := 0, 0;
      notFull, notEmpty, owner := None, None, None;
      phases := seq(threads, _ => Free);
    }

    /** The byte that leaves is the oldest one. */
    method Remove() returns (byte: Byte)
      requires Wf(St()) && !Empty(St())
      modifies this
      ensures St() == Take(old(St()))
      ensures old(Contents(St())) == [byte] + Contents(St())
    {
      TakeRemovesOldest(St());
      byte := buf[tail];
      tail := NextPos(tail);
      if notFull.Some? {
        phases := phases[notFull.value := PutWoken];
        notFull := None;
      }
    }

    method Append(byte: Byte)
      requires Wf(St()) && !Full(St())
      modifies this, buf
      ensures St() == Add(old(St()), byte)
      ensures Contents(St()) == old(Contents(St())) + [byte]
    {
      AddAppends(St(), byte);
      buf[head] := byte;
      head := NextPos(head);
      if notEmpty.Some? {
        phases := phases[notEmpty.value := GetWoken];
        notEmpty := None;
      }
    }

    /** One pass of the loop of intq_getc; the byte, unless the thread now waits. */
    method Getc(t: nat) returns (byte: Option<Byte>)
      requires Wf(St()) && t < |phases|
      modifies this
      ensures St() == GetPass(old(St()), t)
      ensures byte == if old(Empty(St())) then None else Some(old(Contents(St())[0]))
    {
      RingBounds(St());
      if head != tail {
        var b := Remove();
        return Some(b);
      }
      if owner.None? {
        owner, notEmpty := Some(t), Some(t);
        phases := phases[t := GetWait];
      } else {
        phases := phases[t := GetLock];
      }
      return None;
    }

    /** One pass of the loop of intq_putc; whether the byte was added. */
    method Putc(t: nat, byte: Byte) returns (added: bool)
      requires Wf(St()) && t < |phases|
      modifies this, buf
      ensures St() == PutPass(old(St()), t, byte)
      ensures added <==> !old(Full(St()))
    {
      if NextPos(head) != tail {
        Append(byte);
        return true;
      }
      if owner.None? {
        owner, notFull := Some(t), Some(t);
        phases := phases[t := PutWait];
      } else {
        phases := phases[t := PutLock];
      }
      return false;
    }
  }
}
