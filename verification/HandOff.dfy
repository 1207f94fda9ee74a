/**
 How a full container travels from the filter thread to the disk while the dedup thread may ask for
 it: src/storage/containerstore.c, with the lookups of src/index and the writes of
 src/filter_phase.c.  Every step is one access to shared state under the mutex that guards it.
 */
module HandOff {
  import opened Common

  datatype Container = Container(id: int, fps: set<Fingerprint>)

  /** The dedup thread: outside index_lock, holding it, between the two halves of
      retrieve_container_meta_by_id, or with the answer. */
  datatype Dedup = Away | Locked | Asked(id: int, fp: Fingerprint) | Missed(id: int, fp: Fingerprint)
                 | Answered(id: int, fp: Fingerprint, c: Container) | Over

  /** The filter thread: outside index_lock, holding it, or about to push a container whose features
      are in the index already; then its last container, pushed after the loop, without the lock. */
  datatype Filter = Outside | Inside | Handing(c: Container) | LastHanding(c: Container) | Gone

  /** The append thread: waiting, with the head of the queue, or with that container written. */
  datatype Append = Idle | Holding(c: Container) | Written(c: Container) | Stopped

  datatype State = State(
    index: map<Fingerprint, int>, open: Option<Container>, count: int,
    queue: seq<Container>, term: bool, disk: map<int, Container>,
    dedup: Dedup, filter: Filter, append: Append,
    sent: map<int, Container>)

  const QUEUE_SIZE := 25

  /** Before a backup: what earlier backups left in the index and on disk. */
  ghost predicate Start(s: State) {
    s.open == None && s.queue == [] && !s.term && s.dedup == Away && s.filter == Outside && s.append == Idle &&
    s.sent == s.disk &&
    (forall i :: i in s.disk ==> s.disk[i].id == i && i < s.count) &&
    (forall f :: f in s.index ==> s.index[f] in s.disk && f in s.disk[s.index[f]].fps)
  }

  datatype Action =
    | DedupLock | Ask(fp: Fingerprint) | FindInQueue | ReadFile | UseAnswer | DedupUnlock | DedupEnds
    | FilterLock | AddChunk(fp: Fingerprint) | UpdateIndex(features: set<Fingerprint>) | PushContainer
    | FilterUnlock | FilterEnds(features: set<Fingerprint>) | PushLast
    | GetTop | Write | Pop | CloseStore | AppendEnds

  /** index_lock is free unless one of the two threads is inside it. */
  predicate LockFree(s: State) {
    (s.dedup.Away? || s.dedup.Over?) && (s.filter.Outside? || s.filter.LastHanding? || s.filter.Gone?)
  }

  predicate Enabled(s: State, a: Action) {
    match a
    case DedupLock => s.dedup.Away? && LockFree(s)
    case Ask(fp) => s.dedup.Locked? && fp in s.index
    case FindInQueue => s.dedup.Asked?
    case ReadFile => s.dedup.Missed?
    case UseAnswer => s.dedup.Answered?
    case DedupUnlock => s.dedup.Locked?
    case DedupEnds => s.dedup.Away?
    case FilterLock => s.filter.Outside? && LockFree(s)
    case AddChunk(fp) => s.filter.Inside?
    case UpdateIndex(features) => s.filter.Inside? && s.open.Some? && features <= s.open.value.fps
    case PushContainer => s.filter.Handing? && |s.queue| < QUEUE_SIZE
    case FilterUnlock => s.filter.Inside?
    // The filter loop ends when its queue does, which the dedup thread closes last of all.
    case FilterEnds(features) =>
      s.filter.Outside? && s.dedup.Over? && (s.open.Some? ==> features <= s.open.value.fps)
    case PushLast => s.filter.LastHanding? && |s.queue| < QUEUE_SIZE
    case GetTop => s.append.Idle? && s.queue != []
    case Write => s.append.Holding?
    case Pop => s.append.Written? && s.queue != []
    case CloseStore => s.filter.Gone? && !s.term
    case AppendEnds => s.append.Idle? && s.queue == [] && s.term
  }

  /** kvstore_update for every feature. */
  function Indexed(index: map<Fingerprint, int>, features: set<Fingerprint>, id: int): map<Fingerprint, int> {
    map f | f in index.Keys + features :: if f in features then id else index[f]
  }

  /** sync_queue_find: the first container with the id, from position i on. */
  function Find(q: seq<Container>, id: int): Option<Container> {
    if q == [] then None else if q[0].id == id then Some(q[0]) else Find(q[1..], id)
  }

  function Pushed(s: State, c: Container): State {
    s.(queue := s.queue + [c], sent := s.sent[c.id := c])
  }

  function Step(s: State, a: Action): State
    requires Enabled(s, a)
  {
    match a
    case DedupLock => s.(dedup := Locked)
    case Ask(fp) => s.(dedup := Asked(s.index[fp], fp))
    case FindInQueue =>
      (match Find(s.queue, s.dedup.id)
       case Some(c) => s.(dedup := Answered(s.dedup.id, s.dedup.fp, c))
       case None => s.(dedup := Missed(s.dedup.id, s.dedup.fp)))
    case ReadFile =>
      // What stands in the file where nothing was written carries no such id.
      s.(dedup := Answered(s.dedup.id, s.dedup.fp,
                           if s.dedup.id in s.disk then s.disk[s.dedup.id] else Container(TEMPORARY_ID, {})))
    case UseAnswer => s.(dedup := Locked)
    case DedupUnlock => s.(dedup := Away)
    case DedupEnds => s.(dedup := Over)
    case FilterLock => s.(filter := Inside)
    case AddChunk(fp) =>
      if s.open.None? then s.(open := Some(Container(s.count, {fp})), count := s.count + 1)
      else s.(open := Some(s.open.value.(fps := s.open.value.fps + {fp})))
    case UpdateIndex(features) =>
      s.(index := Indexed(s.index, features, s.open.value.id), filter := Handing(s.open.value), open := None)
    case PushContainer => Pushed(s, s.filter.c).(filter := Inside)
    case FilterUnlock => s.(filter := Outside)
    case FilterEnds(features) =>
      if s.open.None? then s.(filter := Gone)
      else s.(index := Indexed(s.index, features, s.open.value.id), filter := LastHanding(s.open.value), open := None)
    case PushLast => Pushed(s, s.filter.c).(filter := Gone)
    case GetTop => s.(append := Holding(s.queue[0]))
    case Write => s.(disk := s.disk[s.append.c.id := s.append.c], append := Written(s.append.c))
    case Pop => s.(queue := s.queue[1..], append := Idle)
    case CloseStore => s.(term := true)
    case AppendEnds => s.(append := Stopped)
  }

  // ----- the invariant -------------------------------------------------------------------

  ghost predicate InQueue(q: seq<Container>, id: int) {
    exists k :: 0 <= k < |q| && q[k].id == id
  }

  /** A container handed over is in the queue or on disk, as it was when it was pushed. */
  ghost predicate Kept(s: State) {
    (forall i :: i in s.sent ==> s.sent[i].id == i && i < s.count && (i in s.disk || InQueue(s.queue, i))) &&
    (forall i :: i in s.disk ==> i in s.sent && s.disk[i] == s.sent[i]) &&
    (forall k :: 0 <= k < |s.queue| ==> s.queue[k].id in s.sent && s.queue[k] == s.sent[s.queue[k].id])
  }

  /** Every container that has an id and has not been pushed. */
  function InHand(s: State): set<Container> {
    (if s.open.Some? then {s.open.value} else {}) +
    (if s.filter.Handing? || s.filter.LastHanding? then {s.filter.c} else {})
  }

  ghost predicate Fresh(s: State) {
    (forall c :: c in InHand(s) ==> c.id < s.count && c.id !in s.sent) &&
    (s.open.Some? && (s.filter.Handing? || s.filter.LastHanding?) ==> s.open.value.id != s.filter.c.id)
  }

  /** What the index says is true of a container that can be found, or is about to be pushed by a
      filter thread that no lookup can overtake. */
  ghost predicate IndexTrue(s: State) {
    forall f :: f in s.index ==>
      (s.index[f] in s.sent && f in s.sent[s.index[f]].fps) ||
      ((s.filter.Handing? || s.filter.LastHanding?) && s.filter.c.id == s.index[f] && f in s.filter.c.fps)
  }

  ghost predicate Threads(s: State) {
    (!s.dedup.Away? && !s.dedup.Over? ==> s.filter.Outside?) &&
    (s.filter.LastHanding? || s.filter.Gone? ==> s.dedup.Over? && s.open.None?) &&
    (s.append.Holding? || s.append.Written? ==> s.queue != [] && s.queue[0] == s.append.c) &&
    (s.append.Written? ==> s.append.c.id in s.disk) &&
    (s.term ==> s.filter.Gone?) && (s.append.Stopped? ==> s.term && s.queue == []) &&
    |s.queue| <= QUEUE_SIZE
  }

  /** A lookup under way: the id it looks for is there, and once missed in the queue, it is on disk. */
  ghost predicate Lookup(s: State) {
    (s.dedup.Asked? ==> s.dedup.id in s.sent && s.dedup.fp in s.sent[s.dedup.id].fps) &&
    (s.dedup.Missed? ==> s.dedup.id in s.disk && s.dedup.fp in s.disk[s.dedup.id].fps) &&
    (s.dedup.Answered? ==> s.dedup.c.id == s.dedup.id && s.dedup.fp in s.dedup.c.fps)
  }

  ghost predicate Inv(s: State) {
    Kept(s) && Fresh(s) && IndexTrue(s) && Threads(s) && Lookup(s)
  }

  lemma {:induction false} FindSpec(q: seq<Container>, id: int)
    ensures match Find(q, id)
            case Some(c) => c.id == id && c in q
            case None => !InQueue(q, id)
  {
    if q != [] && q[0].id != id {
      FindSpec(q[1..], id);
      if InQueue(q, id) {
        var k :| 0 <= k < |q| && q[k].id == id;
        assert q[1..][k - 1].id == id;
      }
    }
  }

  lemma StartInv(s: State)
    requires Start(s)
    ensures Inv(s)
  {}

  lemma PushedKept(s: State, c: Container)
    requires Kept(s) && c.id !in s.sent && c.id < s.count
    ensures Kept(Pushed(s, c))
  {
    var s' := Pushed(s, c);
    forall i | i in s'.sent ensures i in s'.disk || InQueue(s'.queue, i) {
      if i == c.id {
        assert s'.queue[|s.queue|].id == i;
      } else if i !in s.disk {
        var k :| 0 <= k < |s.queue| && s.queue[k].id == i;
        assert s'.queue[k].id == i;
      }
    }
  }

  lemma PopKept(s: State)
    requires Kept(s) && Threads(s) && Enabled(s, Pop)
    ensures Kept(Step(s, Pop))
  {
    var s' := Step(s, Pop);
    forall i | i in s'.sent ensures i in s'.disk || InQueue(s'.queue, i) {
      if i !in s.disk {
        var k :| 0 <= k < |s.queue| && s.queue[k].id == i;
        assert s.queue[0].id in s.disk;
        assert s'.queue[k - 1].id == i;
      }
    }
  }

  lemma KeptStays(s: State, a: Action)
    requires Inv(s) && Enabled(s, a)
    ensures Kept(Step(s, a))
  {
    hide Lookup, IndexTrue, InQueue, Kept;
    match a
    case PushContainer =>
      PushedKept(s, s.filter.c);
      KeptSame(Pushed(s, s.filter.c), Step(s, a));
    case PushLast =>
      PushedKept(s, s.filter.c);
      KeptSame(Pushed(s, s.filter.c), Step(s, a));
    case Pop => PopKept(s);
    case Write => WriteKept(s);
    case _ => KeptSame(s, Step(s, a));
  }

  lemma KeptSame(s: State, s': State)
    requires Kept(s) && s'.sent == s.sent && s'.disk == s.disk && s'.queue == s.queue && s'.count >= s.count
    ensures Kept(s')
  {}

  lemma WriteKept(s: State)
    requires Kept(s) && Threads(s) && Enabled(s, Write)
    ensures Kept(Step(s, Write))
  {
    hide InQueue;
  }

  lemma FreshSame(s: State, s': State)
    requires Fresh(s) && s'.sent == s.sent && s'.count >= s.count && s'.open == s.open
    requires s'.filter == s.filter || !(s'.filter.Handing? || s'.filter.LastHanding?)
    ensures Fresh(s')
  {}

  lemma AddFresh(s: State, fp: Fingerprint)
    requires Kept(s) && Fresh(s) && Enabled(s, AddChunk(fp))
    ensures Fresh(Step(s, AddChunk(fp)))
  {
    hide InQueue;
  }

  /** The open container becomes the one to push. */
  lemma HandFresh(s: State, s': State)
    requires Fresh(s) && s.open.Some? && s'.open.None? && s'.sent == s.sent && s'.count == s.count
    requires s'.filter == Handing(s.open.value) || s'.filter == LastHanding(s.open.value)
    ensures Fresh(s')
  {}

  lemma PushFresh(s: State, s': State)
    requires Fresh(s) && (s.filter.Handing? || s.filter.LastHanding?) && s'.open == s.open && s'.count == s.count
    requires !(s'.filter.Handing? || s'.filter.LastHanding?) && s'.sent == s.sent[s.filter.c.id := s.filter.c]
    ensures Fresh(s')
  {}

  lemma FreshStays(s: State, a: Action)
    requires Inv(s) && Enabled(s, a)
    ensures Fresh(Step(s, a))
  {
    hide Lookup, IndexTrue, InQueue, Kept, Fresh;
    var s' := Step(s, a);
    if a.AddChunk? {
      AddFresh(s, a.fp);
    } else if a.UpdateIndex? || (a.FilterEnds? && s.open.Some?) {
      HandFresh(s, s');
    } else if a.PushContainer? || a.PushLast? {
      PushFresh(s, s');
    } else {
      FreshSame(s, s');
    }
  }

  lemma {:induction false} ThreadsStay(s: State, a: Action)
    requires Inv(s) && Enabled(s, a)
    ensures Threads(Step(s, a))
  {
    hide Kept, Lookup, IndexTrue, Fresh;
  }

  lemma IndexSame(s: State, s': State)
    requires IndexTrue(s) && s'.index == s.index && s'.sent == s.sent
    requires s.filter.Handing? || s.filter.LastHanding? ==> s'.filter == s.filter
    ensures IndexTrue(s')
  {}

  lemma IndexHand(s: State, s': State, features: set<Fingerprint>)
    requires IndexTrue(s) && !(s.filter.Handing? || s.filter.LastHanding?) && s'.sent == s.sent
    requires s.open.Some? && features <= s.open.value.fps && s'.index == Indexed(s.index, features, s.open.value.id)
    requires s'.filter == Handing(s.open.value) || s'.filter == LastHanding(s.open.value)
    ensures IndexTrue(s')
  {}

  lemma IndexPush(s: State, s': State)
    requires IndexTrue(s) && Fresh(s) && (s.filter.Handing? || s.filter.LastHanding?) && s'.index == s.index
    requires s'.sent == s.sent[s.filter.c.id := s.filter.c]
    ensures IndexTrue(s')
  {}

  lemma NoLookupMeanwhile(s: State)
    requires Threads(s)
    ensures s.filter.Handing? || s.filter.LastHanding? ==>
              (s.dedup.Away? || s.dedup.Over?) && !Enabled(s, DedupLock)
  {}

  /** Index entries stay true of pushed containers; the only exception is the container about to be pushed, and
      while there is one no lookup is under way or can begin. */
  lemma IndexStays(s: State, a: Action)
    requires Inv(s) && Enabled(s, a)
    ensures IndexTrue(Step(s, a))
    ensures var s' := Step(s, a);
            s'.filter.Handing? || s'.filter.LastHanding? ==>
              (s'.dedup.Away? || s'.dedup.Over?) && !Enabled(s', DedupLock)
  {
    hide Kept, Lookup, IndexTrue, Fresh, Indexed, Threads;
    ThreadsStay(s, a);
    var s' := Step(s, a);
    NoLookupMeanwhile(s');
    if a.UpdateIndex? || (a.FilterEnds? && s.open.Some?) {
      IndexHand(s, s', a.features);
    } else if a.PushContainer? || a.PushLast? {
      IndexPush(s, s');
    } else {
      IndexSame(s, s');
    }
  }

  lemma LookupStays(s: State, a: Action)
    requires Inv(s) && Enabled(s, a)
    ensures Lookup(Step(s, a))
  {
    hide InQueue, Fresh;
    if a.FindInQueue? {
      FindSpec(s.queue, s.dedup.id);
    }
  }

  lemma StepKeeps(s: State, a: Action)
    requires Inv(s) && Enabled(s, a)
    ensures Inv(Step(s, a))
  {
    hide Kept, Fresh, IndexTrue, Threads, Lookup, Step;
    KeptStays(s, a);
    FreshStays(s, a);
    IndexStays(s, a);
    ThreadsStay(s, a);
    LookupStays(s, a);
  }

  // ----- all interleavings ---------------------------------------------------------------

  /** An interleaving of the three threads from s. */
  ghost predicate Run(s: State, run: seq<Action>)
    decreases |run|
  {
    run == [] || (Enabled(s, run[0]) && Run(Step(s, run[0]), run[1..]))
  }

  function End(s: State, run: seq<Action>): State
    requires Run(s, run)
    decreases |run|
  {
    if run == [] then s else End(Step(s, run[0]), run[1..])
  }

  lemma {:induction false} AlwaysInv(s: State, run: seq<Action>)
    requires Inv(s) && Run(s, run)
    ensures Inv(End(s, run))
    decreases |run|
  {
    hide Inv;
    if run != [] {
      StepKeeps(s, run[0]);
      AlwaysInv(Step(s, run[0]), run[1..]);
    }
  }

  /** In every interleaving, an id the index has given is found by the two-step retrieve, with the
      container that holds the fingerprint asked for; a miss in the queue is never a miss on disk. */
  lemma RetrieveFinds(s0: State, run: seq<Action>)
    requires Start(s0) && Run(s0, run)
    ensures var s := End(s0, run);
            (Enabled(s, ReadFile) ==> s.dedup.id in s.disk && s.disk[s.dedup.id].id == s.dedup.id) &&
            (s.dedup.Answered? ==> s.dedup.c.id == s.dedup.id && s.dedup.fp in s.dedup.c.fps)
  {
    StartInv(s0);
    AlwaysInv(s0, run);
  }

  /** A container is in the append queue or on disk from the moment it is pushed, and unchanged; when
      the append thread has stopped, all of them are on disk. */
  lemma NothingIsLost(s0: State, run: seq<Action>)
    requires Start(s0) && Run(s0, run)
    ensures var s := End(s0, run);
            (forall i :: i in s.sent ==> (i in s.disk && s.disk[i] == s.sent[i]) || s.sent[i] in s.queue) &&
            (s.append.Stopped? ==>
              s.disk == s.sent && forall f :: f in s.index ==> s.index[f] in s.disk && f in s.disk[s.index[f]].fps)
  {
    StartInv(s0);
    AlwaysInv(s0, run);
    var s := End(s0, run);
    forall i | i in s.sent ensures (i in s.disk && s.disk[i] == s.sent[i]) || s.sent[i] in s.queue {
      if i !in s.disk {
        var k :| 0 <= k < |s.queue| && s.queue[k].id == i;
        assert s.queue[k] in s.queue;
      }
    }
    if s.append.Stopped? {
      Drained(s);
    }
  }

  lemma Drained(s: State)
    requires Inv(s) && s.append.Stopped?
    ensures s.disk == s.sent
  {
    hide Fresh, IndexTrue, Lookup;
    forall i: int
      ensures i in s.disk <==> i in s.sent
      ensures i in s.disk ==> s.disk[i] == s.sent[i]
    {
      assert !InQueue(s.queue, i);
    }
    assert s.disk == s.sent;
  }

  /** A full queue never stops the filter thread for good: the append thread can then always move,
      without index_lock. */
  lemma AppendMoves(s0: State, run: seq<Action>)
    requires Start(s0) && Run(s0, run)
    ensures var s := End(s0, run);
            s.queue != [] ==> Enabled(s, GetTop) || Enabled(s, Write) || Enabled(s, Pop)
  {
    hide Kept, Fresh, IndexTrue, Lookup, Start, Run, End;
    StartInv(s0);
    AlwaysInv(s0, run);
  }
}
