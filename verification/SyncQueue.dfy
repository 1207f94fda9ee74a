/**
 The bounded blocking queue of src/utils/sync_queue.c.  What a thread does between taking the mutex
 and releasing it, or waiting on a condition, is one step; a broadcast moves every sleeper to the
 threads that will run their loop test again.
 */
module SyncQueue {

  /** Where a thread is: outside, asleep on a condition, or woken and about to test again. */
  datatype Pc<T> = Out | OnMax(item: T) | OnMin(top: bool) | WokenMax(item: T) | WokenMin(top: bool)

  datatype Queue<T> = Queue(items: seq<T>, maxSize: int, term: bool, pcs: map<nat, Pc<T>>)

  /** What a call has come to: still waiting, done, an item, or NULL. */
  datatype Outcome<T> = Waits | Done | Got(item: T) | Null

  function WakeMax<T>(q: Queue<T>): Queue<T> {
    q.(pcs := map t | t in q.pcs :: if q.pcs[t].OnMax? then WokenMax(q.pcs[t].item) else q.pcs[t])
  }

  function WakeMin<T>(q: Queue<T>): Queue<T> {
    q.(pcs := map t | t in q.pcs :: if q.pcs[t].OnMin? then WokenMin(q.pcs[t].top) else q.pcs[t])
  }

  function At<T>(q: Queue<T>, t: nat, pc: Pc<T>): Queue<T> {
    q.(pcs := q.pcs[t := pc])
  }

  predicate Full<T>(q: Queue<T>) {
    q.maxSize > 0 && |q.items| >= q.maxSize
  }

  /** The loop of sync_queue_push, from its test on. */
  function PushLoop<T>(q: Queue<T>, t: nat, x: T): (Queue<T>, Outcome<T>) {
    if Full(q) then (At(q, t, OnMax(x)), Waits)
    else (WakeMin(At(q.(items := q.items + [x]), t, Out)), Done)
  }

  /** sync_queue_push; a terminated queue takes nothing. */
  function Push<T>(q: Queue<T>, t: nat, x: T): (Queue<T>, Outcome<T>) {
    if q.term then (q, Done) else PushLoop(q, t, x)
  }

  /** sync_queue_pop, and with top sync_queue_get_top, from the loop test on. */
  function PopLoop<T>(q: Queue<T>, t: nat, top: bool): (Queue<T>, Outcome<T>) {
    if q.items == [] then
      if q.term then (At(q, t, Out), Null) else (At(q, t, OnMin(top)), Waits)
    else if top then (At(q, t, Out), Got(q.items[0]))
    else (WakeMax(At(q.(items := q.items[1..]), t, Out)), Got(q.items[0]))
  }

  /** A look at the top shows what a pop would take, and leaves it there. */
  lemma TopIsNext<T>(q: Queue<T>, t: nat)
    ensures PopLoop(q, t, true).1 == PopLoop(q, t, false).1 && PopLoop(q, t, true).0.items == q.items
  {}

  /** sync_queue_term. */
  function Term<T>(q: Queue<T>): Queue<T> {
    WakeMin(q.(term := true))
  }

  /** The queue as it stands in memory; each method is one critical section. */
  class SyncQueue<T(==)> {
    var queue: seq<T>
    const maxSize: int
    var term: bool
    var pcs: map<nat, Pc<T>>

    function State(): Queue<T>
      reads this
    {
      Queue(queue, maxSize, term, pcs)
    }

    constructor (size: int, threads: set<nat>)
      ensures State() == Queue([], size, false, map t | t in threads :: Out)
    {
      queue, maxSize, term, pcs := [], size, false, map t | t in threads :: Out;
    }

    method BroadcastMax()
      modifies `pcs
      ensures State() == WakeMax(old(State()))
    {
      pcs := map t | t in pcs :: if pcs[t].OnMax? then WokenMax(pcs[t].item) else pcs[t];
    }

    method BroadcastMin()
      modifies `pcs
      ensures State() == WakeMin(old(State()))
    {
      pcs := map t | t in pcs :: if pcs[t].OnMin? then WokenMin(pcs[t].top) else pcs[t];
    }

    method PushFrom(t: nat, item: T) returns (r: Outcome<T>)
      modifies `queue, `pcs
      ensures (State(), r) == PushLoop(old(State()), t, item)
    {
      if maxSize > 0 && |queue| >= maxSize {
        pcs := pcs[t := OnMax(item)];
        return Waits;
      }
      queue := queue + [item];
      pcs := pcs[t := Out];
      BroadcastMin();
      r := Done;
    }

    method SyncQueuePush(t: nat, item: T) returns (r: Outcome<T>)
      modifies `queue, `pcs
      ensures (State(), r) == Push(old(State()), t, item)
    {
      if term {
        return Done;
      }
      r := PushFrom(t, item);
    }

    method PopFrom(t: nat, top: bool) returns (r: Outcome<T>)
      modifies `queue, `pcs
      ensures (State(), r) == PopLoop(old(State()), t, top)
    {
      if |queue| == 0 {
        if term {
          pcs := pcs[t := Out];
          return Null;
        }
        pcs := pcs[t := OnMin(top)];
        return Waits;
      }
      r := Got(queue[0]);
      pcs := pcs[t := Out];
      if !top {
        queue := queue[1..];
        BroadcastMax();
      }
    }

    method SyncQueueTerm()
      modifies `term, `pcs
      ensures State() == Term(old(State()))
    {
      term := true;
      BroadcastMin();
    }
  }

  // ----- one producer, any number of consumers --------------------------------------------

  /** Thread 0 pushes the script in order and then terminates; the others pop or look. */
  datatype System<T> = System(q: Queue<T>, script: seq<T>, next: nat, taken: seq<T>, nulls: nat)

  datatype Action = Produce | Finish | Consume(t: nat, top: bool) | Resume(t: nat) | Spurious(t: nat)

  function Init<T>(script: seq<T>, maxSize: int, consumers: set<nat>): System<T> {
    System(Queue([], maxSize, false, map t | t in consumers + {0} :: Out), script, 0, [], 0)
  }

  function Popped<T>(s: System<T>, r: (Queue<T>, Outcome<T>), top: bool): System<T> {
    var s' := s.(q := r.0);
    match r.1
    case Got(x) => if top then s' else s'.(taken := s.taken + [x])
    case Null => s'.(nulls := s.nulls + 1)
    case _ => s'
  }

  /** One step of one thread; an action that is not possible leaves the state alone. */
  function Step<T>(s: System<T>, a: Action): System<T> {
    match a
    case Produce =>
      if 0 in s.q.pcs && s.q.pcs[0] == Out && s.next < |s.script|
      then s.(q := Push(s.q, 0, s.script[s.next]).0, next := s.next + 1) else s
    case Finish =>
      if 0 in s.q.pcs && s.q.pcs[0] == Out && s.next == |s.script| then s.(q := Term(s.q)) else s
    case Consume(t, top) =>
      if t in s.q.pcs && t != 0 && s.q.pcs[t] == Out then Popped(s, PopLoop(s.q, t, top), top) else s
    case Resume(t) =>
      if t in s.q.pcs && s.q.pcs[t].WokenMax? then s.(q := PushLoop(s.q, t, s.q.pcs[t].item).0)
      else if t in s.q.pcs && s.q.pcs[t].WokenMin?
      then Popped(s, PopLoop(s.q, t, s.q.pcs[t].top), s.q.pcs[t].top) else s
    case Spurious(t) =>
      if t in s.q.pcs && s.q.pcs[t].OnMax? then s.(q := At(s.q, t, WokenMax(s.q.pcs[t].item)))
      else if t in s.q.pcs && s.q.pcs[t].OnMin? then s.(q := At(s.q, t, WokenMin(s.q.pcs[t].top))) else s
  }

  function Exec<T>(s: System<T>, run: seq<Action>): System<T> {
    if run == [] then s else Step(Exec(s, run[..|run| - 1]), run[|run| - 1])
  }

  /** A sleeper has a reason to sleep: nobody misses a wakeup. */
  ghost predicate NoLostWakeup<T>(q: Queue<T>) {
    forall t :: t in q.pcs ==>
      (q.pcs[t].OnMax? ==> Full(q)) && (q.pcs[t].OnMin? ==> q.items == [] && !q.term)
  }

  /** The item the producer holds while it waits for room. */
  function Held<T>(q: Queue<T>): seq<T> {
    if 0 in q.pcs && (q.pcs[0].OnMax? || q.pcs[0].WokenMax?) then [q.pcs[0].item] else []
  }

  /** Nothing is lost, added or reordered between the script and the consumers. */
  ghost predicate InOrder<T>(s: System<T>) {
    s.next <= |s.script| && s.taken + s.q.items + Held(s.q) == s.script[..s.next]
  }

  ghost predicate Good<T>(s: System<T>) {
    NoLostWakeup(s.q) && InOrder(s) && 0 in s.q.pcs &&
    (forall t :: t in s.q.pcs ==> (t == 0 ==> !s.q.pcs[t].OnMin? && !s.q.pcs[t].WokenMin?) &&
                                  (t != 0 ==> !s.q.pcs[t].OnMax? && !s.q.pcs[t].WokenMax?)) &&
    (s.q.term ==> s.next == |s.script| && s.q.pcs[0] == Out) &&
    (s.nulls > 0 ==> s.q.term && s.q.items == []) &&
    (s.q.maxSize > 0 ==> |s.q.items| <= s.q.maxSize)
  }

  lemma PushKeeps<T>(s: System<T>, x: T, next: nat)
    requires Good(s) && !s.q.term
    requires s.next <= next <= |s.script| && s.script[..next] == s.taken + s.q.items + [x]
    ensures Good(s.(q := PushLoop(s.q, 0, x).0, next := next))
  {
    var r := PushLoop(s.q, 0, x).0;
    if !Full(s.q) {
      assert s.taken + (s.q.items + [x]) + [] == s.taken + s.q.items + [x];
    }
  }

  lemma PopKeeps<T>(s: System<T>, t: nat, top: bool)
    requires Good(s) && t in s.q.pcs && t != 0
    ensures Good(Popped(s, PopLoop(s.q, t, top), top))
  {
    var s' := Popped(s, PopLoop(s.q, t, top), top);
    if s.q.items != [] && !top {
      assert s.taken + [s.q.items[0]] + s.q.items[1..] == s.taken + s.q.items;
    }
  }

  lemma StepKeeps<T>(s: System<T>, a: Action)
    requires Good(s)
    ensures Good(Step(s, a))
  {
    match a
    case Produce =>
      if s.q.pcs[0] == Out && s.next < |s.script| && !s.q.term {
        PushKeeps(s, s.script[s.next], s.next + 1);
      }
    case Finish =>
    case Consume(t, top) =>
      if t in s.q.pcs && t != 0 && s.q.pcs[t] == Out {
        PopKeeps(s, t, top);
      }
    case Resume(t) =>
      if t in s.q.pcs && s.q.pcs[t].WokenMax? {
        PushKeeps(s, s.q.pcs[t].item, s.next);
      } else if t in s.q.pcs && s.q.pcs[t].WokenMin? {
        PopKeeps(s, t, s.q.pcs[t].top);
      }
    case Spurious(t) =>
  }

  lemma StepStays<T>(s: System<T>, a: Action)
    ensures var s' := Step(s, a);
            s'.script == s.script && s'.q.maxSize == s.q.maxSize && s'.q.pcs.Keys == s.q.pcs.Keys
  {}

  lemma {:induction false} ScriptStays<T>(s: System<T>, run: seq<Action>)
    ensures Exec(s, run).script == s.script && Exec(s, run).q.maxSize == s.q.maxSize
    ensures Exec(s, run).q.pcs.Keys == s.q.pcs.Keys
  {
    if run != [] {
      hide Step;
      ScriptStays(s, run[..|run| - 1]);
      StepStays(Exec(s, run[..|run| - 1]), run[|run| - 1]);
    }
  }

  lemma {:induction false} AlwaysGood<T>(script: seq<T>, maxSize: int, consumers: set<nat>, run: seq<Action>)
    ensures Good(Exec(Init(script, maxSize, consumers), run))
  {
    if run != [] {
      AlwaysGood(script, maxSize, consumers, run[..|run| - 1]);
      StepKeeps(Exec(Init(script, maxSize, consumers), run[..|run| - 1]), run[|run| - 1]);
    }
  }

  /** In every run: nobody sleeps without reason, the bound holds, the consumers have a prefix of the
      script, and a NULL is only ever returned when they have all of it. */
  lemma Delivery<T>(script: seq<T>, maxSize: int, consumers: set<nat>, run: seq<Action>)
    ensures var s := Exec(Init(script, maxSize, consumers), run);
            NoLostWakeup(s.q) &&
            (maxSize > 0 ==> |s.q.items| <= maxSize) &&
            s.taken <= script &&
            (s.nulls > 0 ==> s.taken == script)
  {
    var s := Exec(Init(script, maxSize, consumers), run);
    AlwaysGood(script, maxSize, consumers, run);
    ScriptStays(Init(script, maxSize, consumers), run);
    assert s.taken + s.q.items + Held(s.q) == s.taken + (s.q.items + Held(s.q));
    assert s.script[..s.next] <= script;
  }

  /** The producer and a consumer are never both asleep. */
  lemma NotBothAsleep<T>(script: seq<T>, maxSize: int, consumers: set<nat>, run: seq<Action>, t: nat)
    requires t in consumers && t != 0
    ensures var q := Exec(Init(script, maxSize, consumers), run).q;
            0 in q.pcs && t in q.pcs && !(q.pcs[0].OnMax? && q.pcs[t].OnMin?)
  {
    AlwaysGood(script, maxSize, consumers, run);
    ScriptStays(Init(script, maxSize, consumers), run);
  }

  // ----- the threads on the queue in memory -------------------------------------------------

  /** One producer and its consumers, calling the methods of the queue. */
  class Threads<T(==)> {
    const queue: SyncQueue<T>
    const script: seq<T>
    var next: nat
    var taken: seq<T>
    var nulls: nat

    ghost function Now(): System<T>
      reads this, queue
    {
      System(queue.State(), script, next, taken, nulls)
    }

    constructor (script: seq<T>, maxSize: int, consumers: set<nat>)
      ensures Now() == Init(script, maxSize, consumers) && fresh(queue) && this.script == script
    {
      queue := new SyncQueue(maxSize, consumers + {0});
      this.script := script;
      next, taken, nulls := 0, [], 0;
    }

    /** What a consumer does with the outcome of its call. */
    method Receive(r: Outcome<T>, top: bool)
      modifies this`taken, this`nulls
      ensures Now() == Popped(old(Now()), (queue.State(), r), top)
    {
      if r.Got? && !top {
        taken := taken + [r.item];
      } else if r.Null? {
        nulls := nulls + 1;
      }
    }

    /** A thread runs until it leaves the mutex or falls asleep. */
    method Act(a: Action)
      modifies this, queue
      ensures Now() == Step(old(Now()), a)
    {
      hide PushLoop, PopLoop, Term, Push;
      match a
      case Produce =>
        if 0 in queue.pcs && queue.pcs[0].Out? && next < |script| {
          var r := queue.SyncQueuePush(0, script[next]);
          next := next + 1;
        }
      case Finish =>
        if 0 in queue.pcs && queue.pcs[0].Out? && next == |script| {
          queue.SyncQueueTerm();
        }
      case Consume(t, top) =>
        if t in queue.pcs && t != 0 && queue.pcs[t].Out? {
          var r := queue.PopFrom(t, top);
          Receive(r, top);
        }
      case Resume(t) =>
        if t in queue.pcs && queue.pcs[t].WokenMax? {
          var r := queue.PushFrom(t, queue.pcs[t].item);
        } else if t in queue.pcs && queue.pcs[t].WokenMin? {
          var top := queue.pcs[t].top;
          var r := queue.PopFrom(t, top);
          Receive(r, top);
        }
      case Spurious(t) =>
        if t in queue.pcs && queue.pcs[t].OnMax? {
          queue.pcs := queue.pcs[t := WokenMax(queue.pcs[t].item)];
        } else if t in queue.pcs && queue.pcs[t].OnMin? {
          queue.pcs := queue.pcs[t := WokenMin(queue.pcs[t].top)];
        }
    }
  }

  /** Any interleaving, on the queue in memory: no sleeper is forgotten, the consumers have a prefix of the
      script, and all of it once one of them has got a NULL. */
  method RunThreads<T(==)>(script: seq<T>, maxSize: int, consumers: set<nat>, run: seq<Action>) returns (s: Threads<T>)
    ensures fresh(s) && s.Now() == Exec(Init(script, maxSize, consumers), run)
    ensures NoLostWakeup(s.queue.State()) && s.taken <= script && (s.nulls > 0 ==> s.taken == script)
  {
    hide Step;
    s := new Threads(script, maxSize, consumers);
    for i := 0 to |run|
      invariant fresh(s) && fresh(s.queue) && s.Now() == Exec(Init(script, maxSize, consumers), run[..i])
    {
      s.Act(run[i]);
      assert run[..i + 1][..i] == run[..i];
    }
    assert run[..|run|] == run;
    Delivery(script, maxSize, consumers, run);
  }
}
