/** The round-robin scheduler of one processor, and the register save and restore under it. */
module Scheduler {
  import opened Memory
  import opened InvasiveList

  type Registers = seq<nat>

  datatype Thread = Thread(context: Registers, timeslice: nat)

  /** Who runs, who waits and who is in the idle slot. */
  datatype Line<X> = Line(cur: Option<X>, queue: seq<X>, idle: Option<X>)

  function Waiting<X>(n: Line<X>): seq<X> {
    if n.cur.Some? then n.queue + [n.cur.value] else n.queue
  }

  /** The line after a yield: the running thread goes to the end, the first one runs, the idle one as a last resort. */
  function Turn<X>(n: Line<X>): Line<X> {
    var w := Waiting(n);
    if w != [] then Line(Some(w[0]), w[1..], n.idle) else Line(n.idle, [], None)
  }

  /** Someone can run after the next yield. */
  predicate Runnable<X>(n: Line<X>) {
    Waiting(n) != [] || n.idle.Some?
  }

  /** What one processor has: `cpu_local` and the frame of the interrupt it is in. */
  class Cpu {
    var cur: Option<Element<Thread>>
    const runQueue: List<Thread>
    var idle: Option<Element<Thread>>
    var frame: Registers
    var timer: nat
    ghost const threads: set<Element<Thread>>

    ghost function ToLine(): Line<Element<Thread>>
      reads this, runQueue
    {
      Line(cur, runQueue.items, idle)
    }

    /** The running and the idle thread are in no list, and there is always someone to run. */
    ghost predicate Valid()
      reads this, runQueue, runQueue.items`prev, runQueue.items`next, Owned()`prev, Owned()`next
    {
      && runQueue.Valid()
      && (cur.Some? ==> Unlinked(cur.value) && cur.value !in runQueue.items)
      && (idle.Some? ==> Unlinked(idle.value) && idle.value !in runQueue.items && cur != idle)
      && Runnable(ToLine())
    }

    /** The threads outside the run queue. */
    ghost function Owned(): set<Element<Thread>>
      reads this
    {
      (if cur.Some? then {cur.value} else {}) + (if idle.Some? then {idle.value} else {})
    }

    /** The state `sched_init` leaves: one thread queued, the idle thread in its slot, nothing running. */
    constructor (entry: Element<Thread>, idleThread: Element<Thread>, frame: Registers)
      requires entry != idleThread && Unlinked(entry) && Unlinked(idleThread)
      modifies entry`prev, entry`next
      ensures Valid() && fresh(runQueue) && ToLine() == Line(None, [entry], Some(idleThread)) && this.frame == frame
      ensures threads == {entry, idleThread} && timer == 10
    {
      cur := None;
      runQueue := new List();
      idle := Some(idleThread);
      this.frame := frame;
      timer := 10;
      threads := {entry, idleThread};
      new;
      var ok := runQueue.PushBack(entry);
    }

    /**
     `sched_yield`: never fails to queue the running thread, and never finds no thread to run.  The thread that
     was running keeps the frame it had, no other thread's context changes, and the new one's is in the frame.
     */
    method Yield()
      requires Valid()
      modifies this`cur, this`idle, this`frame, this`timer, runQueue, runQueue.items`prev, runQueue.items`next
      modifies Owned()`prev, Owned()`next, (if cur.Some? then {cur.value} else {})`item
      ensures Valid() && ToLine() == Turn(old(ToLine())) && cur.Some?
      ensures old(cur).Some? ==> old(cur).value.item == old(cur.value.item).(context := old(frame))
      ensures frame == cur.value.item.context && timer == cur.value.item.timeslice
    {
      var oldregs := cur;
      var next := PickNext();
      ContextSwitch(oldregs, next);
      timer := next.item.timeslice;
      cur := Some(next);
    }

    /** The same in terms of `Sched`: the processor steps as the machine of the runs below does. */
    method Preempt()
      requires Valid() && Within(ToLine(), threads)
      modifies this`cur, this`idle, this`frame, this`timer, runQueue, runQueue.items`prev, runQueue.items`next
      modifies Owned()`prev, Owned()`next, (if cur.Some? then {cur.value} else {})`item
      ensures Valid() && Within(ToLine(), threads) && ToSched() == AfterYield(old(ToSched()))
    {
      ghost var before := ToSched();
      Yield();
      Refines(before, ToSched(), threads);
    }

    ghost function ToSched(): Sched<Element<Thread>>
      reads this, runQueue, threads`item
    {
      Sched(ToLine(), map e | e in threads :: e.item.context, frame)
    }

    /** What the run theorems below ask for. */
    lemma ValidIsSound()
      requires Valid() && Within(ToLine(), threads)
      ensures Sound(ToSched())
    {
      var n := ToLine();
      assert NoDup(Waiting(n));
      forall x | x in Everyone(n)
        ensures x in threads
      {
        if x in Waiting(n) {
          var i :| 0 <= i < |Waiting(n)| && Waiting(n)[i] == x;
        }
      }
    }

    /** The thread to run next, with the one that was running back in the queue. */
    method PickNext() returns (next: Element<Thread>)
      requires Valid()
      modifies this`cur, this`idle, runQueue, runQueue.items`prev, runQueue.items`next, Owned()`prev, Owned()`next
      ensures Line(Some(next), runQueue.items, idle) == Turn(old(ToLine()))
      ensures runQueue.Valid() && Unlinked(next) && next !in runQueue.items && Some(next) != idle
      ensures idle.Some? ==> Unlinked(idle.value) && idle.value !in runQueue.items
    {
      Requeue();
      next := TakeNext();
    }

    /** The running thread goes to the end of the queue; that cannot fail, for it is in no list. */
    method Requeue()
      requires Valid()
      modifies this`cur, runQueue, runQueue.items`prev, runQueue.items`next, Owned()`prev, Owned()`next
      ensures cur == None && runQueue.Valid() && runQueue.items == Waiting(old(ToLine()))
      ensures idle.Some? ==> Unlinked(idle.value) && idle.value !in runQueue.items
    {
      if cur.Some? {
        var thread := cur.value;
        cur := None;
        var pushed := runQueue.PushBack(thread);
        assert pushed;
      }
    }

    /** The first of the queue, or the idle thread; one of them is there. */
    method TakeNext() returns (next: Element<Thread>)
      requires runQueue.Valid() && cur == None && (runQueue.items != [] || idle.Some?)
      requires idle.Some? ==> Unlinked(idle.value) && idle.value !in runQueue.items
      modifies this`idle, runQueue, runQueue.items`prev, runQueue.items`next
      ensures Line(Some(next), runQueue.items, idle) == Turn(old(ToLine()))
      ensures runQueue.Valid() && Unlinked(next) && next !in runQueue.items && Some(next) != idle
      ensures idle.Some? ==> Unlinked(idle.value) && idle.value !in runQueue.items
    {
      var head := runQueue.PopFront();
      if head.To? {
        next := head.node;
      } else {
        next := idle.value;
        idle := None;
      }
    }

    /** Saves the frame in the old thread first, and only then loads the new thread's context. */
    method ContextSwitch(from: Option<Element<Thread>>, next: Element<Thread>)
      modifies this`frame, (if from.Some? then {from.value} else {})`item
      ensures from.Some? ==> from.value.item == old(from.value.item).(context := old(frame))
      ensures frame == if from == Some(next) then old(frame) else old(next.item.context)
    {
      if from.Some? {
        from.value.item := from.value.item.(context := frame);
      }
      frame := next.item.context;
    }
  }

  ghost predicate Unlinked(e: Element<Thread>)
    reads e`prev, e`next
  {
    e.prev == Null && e.next == Null
  }

  ghost predicate Within<X>(n: Line<X>, threads: set<X>) {
    && (forall i {:trigger Waiting(n)[i]} :: 0 <= i < |Waiting(n)| ==> Waiting(n)[i] in threads)
    && (n.idle.Some? ==> n.idle.value in threads)
  }

  lemma TurnWithin<X>(n: Line<X>, threads: set<X>)
    requires Runnable(n) && Within(n, threads)
    ensures Within(Turn(n), threads) && Turn(n).cur.Some? && Turn(n).cur.value in threads
    ensures n.cur.Some? ==> n.cur.value in threads
  {
    var w := Waiting(n);
    assert n.cur.Some? ==> w[|n.queue|] == n.cur.value;
    if w != [] {
      assert Waiting(Turn(n)) == w[1..] + [w[0]];
    }
  }

  lemma Refines<X>(s: Sched<X>, t: Sched<X>, threads: set<X>)
    requires Runnable(s.line) && Within(s.line, threads) && t.line == Turn(s.line)
    requires s.contexts.Keys == threads && t.contexts.Keys == threads
    requires forall e {:trigger t.contexts[e]} :: e in threads ==>
               t.contexts[e] == if s.line.cur == Some(e) then s.frame else s.contexts[e]
    requires t.line.cur.Some? && t.line.cur.value in threads ==> t.frame == t.contexts[t.line.cur.value]
    ensures t == AfterYield(s) && Within(t.line, threads)
  {
    TurnWithin(s.line, threads);
    var contexts := if s.line.cur.Some? then s.contexts[s.line.cur.value := s.frame] else s.contexts;
    assert t.contexts == contexts;
  }

  // ---- what yields do to the line ----

  /** No thread is in two places. */
  ghost predicate Distinct<X>(n: Line<X>) {
    NoDup(Waiting(n)) && (n.idle.Some? ==> n.idle.value !in Waiting(n))
  }

  function Everyone<X(==)>(n: Line<X>): multiset<X> {
    multiset(Waiting(n)) + (if n.idle.Some? then multiset{n.idle.value} else multiset{})
  }

  /** A yield loses no thread, doubles none, leaves one running and, once one runs, the idle slot alone. */
  lemma TurnKeeps<X>(n: Line<X>)
    requires Distinct(n) && Runnable(n)
    ensures Everyone(Turn(n)) == Everyone(n) && Distinct(Turn(n)) && Runnable(Turn(n)) && Turn(n).cur.Some?
    ensures n.cur.Some? ==> Turn(n).idle == n.idle
    ensures n.idle.Some? && Turn(n).idle.None? ==> n.cur.None? && n.queue == []
  {
    var w := Waiting(n);
    if w != [] {
      assert w == [w[0]] + w[1..];
      assert Waiting(Turn(n)) == w[1..] + [w[0]];
      assert forall x :: x in Waiting(Turn(n)) <==> x in w;
    } else {
      assert Waiting(Turn(n)) == [n.idle.value];
    }
  }

  function Turns<X>(n: Line<X>, k: nat): Line<X> {
    if k == 0 then n else Turn(Turns(n, k - 1))
  }

  /** The running thread and those behind it. */
  function Ring<X>(n: Line<X>): seq<X>
    requires n.cur.Some?
  {
    [n.cur.value] + n.queue
  }

  lemma {:induction false} TurnsRotate<X>(n: Line<X>, k: nat)
    requires n.cur.Some? && k <= |Ring(n)|
    ensures Turns(n, k).cur.Some? && Ring(Turns(n, k)) == Ring(n)[k..] + Ring(n)[..k]
  {
    if k > 0 {
      TurnsRotate(n, k - 1);
      var m := Turns(n, k - 1);
      TurnRotates(m);
      RotateOnce(Ring(n), k, Ring(m));
    } else {
      assert Ring(n)[0..] + Ring(n)[..0] == Ring(n);
    }
  }

  lemma TurnRotates<X>(n: Line<X>)
    requires n.cur.Some?
    ensures Turn(n).cur.Some? && Ring(Turn(n)) == Ring(n)[1..] + [Ring(n)[0]]
  {
    assert Ring(n)[1..] == n.queue;
    assert Ring(Turn(n)) == Waiting(n);
  }

  lemma RotateOnce<X>(r: seq<X>, k: nat, s: seq<X>)
    requires 0 < k <= |r| && s == r[k - 1..] + r[..k - 1]
    ensures s[1..] + [s[0]] == r[k..] + r[..k]
  {
    assert s[1..] == r[k..] + r[..k - 1];
    assert r[..k] == r[..k - 1] + [r[k - 1]];
  }

  /** With `n` threads in the ring, `n` yields in a row run every one of them, each once. */
  lemma RoundRobin<X>(n: Line<X>, j: nat, k: nat)
    requires n.cur.Some? && NoDup(Ring(n)) && j < |Ring(n)| && 0 < k <= |Ring(n)|
    ensures Turns(n, k).cur == Some(Ring(n)[j]) <==> j == if k == |Ring(n)| then 0 else k
  {
    TurnsRotate(n, k);
    FirstOfRotation(Ring(n), k);
  }

  lemma FirstOfRotation<X>(r: seq<X>, k: nat)
    requires 0 < k <= |r|
    ensures (r[k..] + r[..k])[0] == r[if k == |r| then 0 else k]
  {
  }

  // ---- registers over whole runs ----

  /** The line, the saved contexts, and the registers of the running code. */
  datatype Sched<X> = Sched(line: Line<X>, contexts: map<X, Registers>, frame: Registers)

  function AfterYield<X(==)>(s: Sched<X>): Sched<X> {
    var line := Turn(s.line);
    var contexts := if s.line.cur.Some? then s.contexts[s.line.cur.value := s.frame] else s.contexts;
    Sched(line, contexts, if line.cur.Some? && line.cur.value in contexts then contexts[line.cur.value] else s.frame)
  }

  /** Between yields the running code does what it likes with the registers. */
  datatype Event = Execute(frame: Registers) | YieldNow

  function After<X(==)>(s: Sched<X>, e: Event): Sched<X> {
    match e
    case Execute(frame) => s.(frame := frame)
    case YieldNow => AfterYield(s)
  }

  function States<X(==)>(s: Sched<X>, es: seq<Event>): Sched<X> {
    if es == [] then s else After(States(s, es[..|es| - 1]), es[|es| - 1])
  }

  /** The frame of thread `t` when it was last preempted; its first context if it never was. */
  function LastFrame<X(==)>(s: Sched<X>, es: seq<Event>, t: X): Registers
    requires t in s.contexts
  {
    if es == [] then s.contexts[t]
    else
      var before := es[..|es| - 1];
      if es[|es| - 1] == YieldNow && States(s, before).line.cur == Some(t) then States(s, before).frame
      else LastFrame(s, before, t)
  }

  /** Every thread has a context, and someone can always run. */
  ghost predicate Sound<X>(s: Sched<X>) {
    && Distinct(s.line) && Runnable(s.line)
    && (forall x :: x in Everyone(s.line) ==> x in s.contexts)
  }

  lemma {:induction false} RunSound<X>(s: Sched<X>, es: seq<Event>)
    requires Sound(s)
    ensures Sound(States(s, es)) && Everyone(States(s, es).line) == Everyone(s.line)
    ensures forall x :: x in s.contexts ==> x in States(s, es).contexts
  {
    if es != [] {
      RunSound(s, es[..|es| - 1]);
      TurnKeeps(States(s, es[..|es| - 1]).line);
    }
  }

  /** While someone waits or runs, as after `sched_init`, no run ever takes the idle thread. */
  lemma {:induction false} IdleNeverTaken<X>(s: Sched<X>, es: seq<Event>)
    requires Waiting(s.line) != []
    ensures Waiting(States(s, es).line) != [] && States(s, es).line.idle == s.line.idle
    ensures |Waiting(States(s, es).line)| == |Waiting(s.line)|
  {
    if es != [] {
      IdleNeverTaken(s, es[..|es| - 1]);
    }
  }

  /** The saved context of a thread that is not running is its frame at its last preemption. */
  lemma {:induction false} ContextIsLastFrame<X>(s: Sched<X>, es: seq<Event>, t: X)
    requires Sound(s) && t in s.contexts && s.line.cur != Some(t)
    ensures t in States(s, es).contexts
    ensures States(s, es).line.cur != Some(t) ==> States(s, es).contexts[t] == LastFrame(s, es, t)
    ensures es != [] && es[|es| - 1] == YieldNow ==> States(s, es).contexts[t] == LastFrame(s, es, t)
  {
    if es != [] {
      ContextIsLastFrame(s, es[..|es| - 1], t);
    }
  }

  /** A thread that is resumed finds exactly the registers it had when it was last preempted. */
  lemma RegistersIsolated<X>(s: Sched<X>, es: seq<Event>, t: X)
    requires Sound(s) && t in s.contexts && s.line.cur != Some(t)
    requires es != [] && es[|es| - 1] == YieldNow && States(s, es).line.cur == Some(t)
    ensures States(s, es).frame == LastFrame(s, es, t)
  {
    ContextIsLastFrame(s, es, t);
  }
}
