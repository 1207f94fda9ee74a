/**
 The dedup, rewrite and filter threads: src/dedup_phase.c, the no_rewrite thread of
 src/rewrite_phase.c or the capping thread of src/cap_rewrite.c, and the segment loop of
 src/filter_phase.c, joined by two bounded queues and by index_lock.  A segment is modelled by the
 number of its chunks.
 */
module Pipeline {

  datatype Mark = SegStart | Chunk | SegEnd

  datatype Dedup = AtLookup | Asleep | Woken | Sending(unsent: seq<Mark>) | DedupDone

  datatype Filter = Waiting | Collecting(n: nat) | Ready(n: nat) | FilterDone

  /** todo: the segments still to be looked up; filtered: those the filter has finished.  buffer is the
      size of the rewrite buffer in chunks, 0 with rewriting off. */
  datatype State = State(
    todo: seq<nat>, dedup: Dedup, dedupQueue: seq<Mark>, dedupTerm: bool, held: seq<Mark>, draining: bool,
    rewriteQueue: seq<Mark>, rewriteTerm: bool, filter: Filter, filtered: seq<nat>,
    chunkNum: int, buffer: nat, threshold: int, cap: nat)

  function Init(segments: seq<nat>, buffer: nat, threshold: int, cap: nat): State {
    State(segments, AtLookup, [], false, [], false, [], false, Waiting, [], 0, buffer, threshold, cap)
  }

  /** Number of chunks among the marks. */
  function Cnt(m: seq<Mark>): nat {
    if m == [] then 0 else (if m[0].Chunk? then 1 else 0) + Cnt(m[1..])
  }

  /** What send_segment pushes for a segment of n chunks. */
  function Marks(n: nat): seq<Mark> {
    [SegStart] + Chunks(n)
  }

  function Chunks(n: nat): seq<Mark> {
    if n == 0 then [SegEnd] else [Chunk] + Chunks(n - 1)
  }

  datatype Action =
    | Lookup | Send | DedupEnds | Take | Pass | RewriteEnds | Collect | FilterSegment | FilterEnds

  predicate Enabled(s: State, a: Action) {
    match a
    case Lookup => (s.dedup.AtLookup? || s.dedup.Woken?) && s.todo != []
    case Send => s.dedup.Sending? && s.dedup.unsent != [] && |s.dedupQueue| < s.cap
    case DedupEnds => s.dedup.AtLookup? && s.todo == []
    // no_rewrite passes each item on; capping gathers a full buffer, or what is left at the end.
    case Take => s.dedupQueue != [] && (if s.buffer == 0 then s.held == [] else !s.draining)
    case Pass =>
      s.held != [] && |s.rewriteQueue| < s.cap &&
      (s.buffer == 0 || s.draining || (s.dedupQueue == [] && s.dedupTerm))
    case RewriteEnds => s.held == [] && s.dedupQueue == [] && s.dedupTerm && !s.rewriteTerm
    case Collect => (s.filter.Waiting? || s.filter.Collecting?) && s.rewriteQueue != []
    case FilterSegment => s.filter.Ready?
    case FilterEnds => s.filter.Waiting? && s.rewriteQueue == [] && s.rewriteTerm
  }

  /** index_lookup refuses when the buffer is full. */
  predicate BufferFull(s: State) {
    s.threshold > 0 && s.chunkNum >= s.threshold
  }

  function Step(s: State, a: Action): State
    requires Enabled(s, a)
  {
    match a
    case Lookup =>
      var n := s.todo[0];
      if n > 0 && BufferFull(s) then s.(dedup := Asleep)
      else s.(todo := s.todo[1..], dedup := Sending(Marks(n)), chunkNum := s.chunkNum + n)
    case Send =>
      var rest := s.dedup.unsent[1..];
      s.(dedupQueue := s.dedupQueue + [s.dedup.unsent[0]], dedup := if rest == [] then AtLookup else Sending(rest))
    case DedupEnds => s.(dedup := DedupDone, dedupTerm := true)
    case Take =>
      var x := s.dedupQueue[0];
      s.(held := s.held + [x], dedupQueue := s.dedupQueue[1..],
         draining := s.buffer > 0 && x.Chunk? && Cnt(s.held + [x]) >= s.buffer)
    case Pass =>
      s.(held := s.held[1..], rewriteQueue := s.rewriteQueue + [s.held[0]],
         draining := s.draining && s.held[1..] != [])
    case RewriteEnds => s.(rewriteTerm := true)
    case Collect =>
      s.(rewriteQueue := s.rewriteQueue[1..],
         filter := if s.filter.Waiting? then Collecting(0)
                   else if s.rewriteQueue[0].SegEnd? then Ready(s.filter.n) else Collecting(s.filter.n + 1))
    case FilterSegment =>
      var s' := s.(chunkNum := s.chunkNum - s.filter.n, filtered := s.filtered + [s.filter.n], filter := Waiting);
      if s.threshold > 0 && !BufferFull(s') && s.dedup.Asleep? then s'.(dedup := Woken) else s'
    case FilterEnds => s.(filter := FilterDone)
  }

  // ----- what every step keeps -----------------------------------------------------------

  function Unsent(s: State): seq<Mark> {
    if s.dedup.Sending? then s.dedup.unsent else []
  }

  /** Everything between the lookup and the filter, oldest first. */
  function InFlight(s: State): seq<Mark> {
    s.rewriteQueue + s.held + s.dedupQueue + Unsent(s)
  }

  /** The segments a stream of marks still has to deliver, the first with n chunks already taken;
      None if it is not a stream of whole segments. */
  datatype Parsed = Bad | Whole(sizes: seq<nat>)

  function Parse(m: seq<Mark>, inside: bool, n: nat): Parsed {
    if m == [] then (if inside then Bad else Whole([]))
    else if inside then
      match m[0]
      case SegStart => Bad
      case Chunk => Parse(m[1..], true, n + 1)
      case SegEnd =>
        var r := Parse(m[1..], false, 0);
        if r.Bad? then Bad else Whole([n] + r.sizes)
    else if m[0].SegStart? then Parse(m[1..], true, 0)
    else Bad
  }

  /** The segments in flight, the one being filtered first. */
  function Flying(s: State): Parsed {
    match s.filter
    case Collecting(n) => Parse(InFlight(s), true, n)
    case Ready(n) =>
      var r := Parse(InFlight(s), false, 0);
      if r.Bad? then Bad else Whole([n] + r.sizes)
    case _ => Parse(InFlight(s), false, 0)
  }

  function Sum(s: seq<nat>): nat {
    if s == [] then 0 else s[0] + Sum(s[1..])
  }

  /** Filtered, in flight and to come: always the same segments, the buffered ones counted right. */
  ghost predicate Stream(s: State, segments: seq<nat>) {
    Flying(s).Whole? &&
    s.filtered + Flying(s).sizes + s.todo == segments &&
    s.chunkNum == Sum(Flying(s).sizes)
  }

  /** Who may be where; a sleeper on index_lock has a reason to sleep. */
  ghost predicate Threads(s: State) {
    (s.dedup.Asleep? ==> BufferFull(s) && s.todo != []) &&
    (s.dedup.Woken? ==> s.todo != []) &&
    (s.dedup.Sending? ==> s.dedup.unsent != []) &&
    (s.dedupTerm <==> s.dedup.DedupDone?) &&
    (s.dedupTerm ==> s.todo == []) &&
    (if s.buffer == 0 then |s.held| <= 1 && !s.draining
     else if s.draining then s.held != [] else Cnt(s.held) < s.buffer) &&
    (s.rewriteTerm ==> s.dedupTerm && s.held == [] && s.dedupQueue == []) &&
    (s.filter.FilterDone? ==> s.rewriteTerm && s.rewriteQueue == [])
  }

  ghost predicate Inv(s: State, segments: seq<nat>) {
    Stream(s, segments) && Threads(s)
  }

  lemma {:induction false} ParseAppend(m: seq<Mark>, inside: bool, n: nat, k: nat)
    requires Parse(m, inside, n).Whole?
    ensures Parse(m + Marks(k), inside, n) == Whole(Parse(m, inside, n).sizes + [k])
  {
    if m == [] {
      assert m + Marks(k) == Marks(k);
      assert Marks(k)[1..] == Chunks(k);
      ParseChunks(k, 0);
    } else {
      assert (m + Marks(k))[1..] == m[1..] + Marks(k);
      if inside {
        match m[0]
        case Chunk => ParseAppend(m[1..], true, n + 1, k);
        case SegEnd =>
          ParseAppend(m[1..], false, 0, k);
          var r := Parse(m[1..], false, 0).sizes;
          assert [n] + (r + [k]) == [n] + r + [k];
        case SegStart =>
      } else {
        ParseAppend(m[1..], true, 0, k);
      }
    }
  }

  lemma {:induction false} ParseChunks(k: nat, n: nat)
    ensures Parse(Chunks(k), true, n) == Whole([n + k])
    decreases k
  {
    if k > 0 {
      ParseChunks(k - 1, n + 1);
      assert Chunks(k)[1..] == Chunks(k - 1);
    } else {
      assert Chunks(0)[1..] == [];
    }
  }

  lemma {:induction false} SumAppend(s: seq<nat>, k: nat)
    ensures Sum(s + [k]) == Sum(s) + k
  {
    if s != [] {
      assert (s + [k])[1..] == s[1..] + [k];
      SumAppend(s[1..], k);
    }
  }

  lemma LookupKeeps(s: State, segments: seq<nat>)
    requires Stream(s, segments) && Enabled(s, Lookup)
    ensures Stream(Step(s, Lookup), segments)
  {
    hide Flying, Marks, Sum;
    var n := s.todo[0];
    var s' := Step(s, Lookup);
    if n > 0 && BufferFull(s) {
      SameFlight(s, s');
    } else {
      var f := Flying(s).sizes;
      assert InFlight(s') == InFlight(s) + Marks(n);
      FlyingAppend(s, s', n);
      SumAppend(f, n);
      assert s.filtered + (f + [n]) + s.todo[1..] == s.filtered + f + s.todo;
    }
  }

  lemma SameFlight(s: State, s': State)
    requires InFlight(s) == InFlight(s') && s.filter == s'.filter
    ensures Flying(s) == Flying(s')
  {}

  lemma FlyingAppend(s: State, s': State, n: nat)
    requires Flying(s).Whole? && InFlight(s') == InFlight(s) + Marks(n) && s'.filter == s.filter
    ensures Flying(s') == Whole(Flying(s).sizes + [n])
  {
    hide Parse, Marks, InFlight;
    if s.filter.Collecting? {
      ParseAppend(InFlight(s), true, s.filter.n, n);
    } else {
      ParseAppend(InFlight(s), false, 0, n);
      var r := Parse(InFlight(s), false, 0).sizes;
      assert s.filter.Ready? ==> [s.filter.n] + (r + [n]) == [s.filter.n] + r + [n];
    }
  }

  lemma CollectKeeps(s: State, segments: seq<nat>)
    requires Stream(s, segments) && Enabled(s, Collect)
    ensures Stream(Step(s, Collect), segments)
  {
    hide Sum, Cnt;
    var s' := Step(s, Collect);
    assert InFlight(s)[0] == s.rewriteQueue[0] && InFlight(s)[1..] == InFlight(s');
  }

  lemma FilterKeeps(s: State, segments: seq<nat>)
    requires Stream(s, segments) && Enabled(s, FilterSegment)
    ensures Stream(Step(s, FilterSegment), segments)
  {
    hide Parse, Cnt;
    var s' := Step(s, FilterSegment);
    var r := Parse(InFlight(s), false, 0).sizes;
    assert Unsent(s') == Unsent(s);
    assert InFlight(s') == InFlight(s);
    assert ([s.filter.n] + r)[1..] == r;
    assert s.filtered + [s.filter.n] + r == s.filtered + ([s.filter.n] + r);
  }

  lemma SendMoves(s: State)
    requires Enabled(s, Send)
    ensures InFlight(Step(s, Send)) == InFlight(s)
  {
    var q, x, rest := s.rewriteQueue + s.held, s.dedup.unsent[0], s.dedup.unsent[1..];
    assert Unsent(Step(s, Send)) == rest;
    assert s.dedup.unsent == [x] + rest;
    assert q + (s.dedupQueue + [x]) + rest == q + s.dedupQueue + ([x] + rest);
  }

  lemma TakeMoves(s: State)
    requires Enabled(s, Take)
    ensures InFlight(Step(s, Take)) == InFlight(s)
  {
    hide Cnt;
    var x, rest := s.dedupQueue[0], s.dedupQueue[1..];
    assert s.dedupQueue == [x] + rest;
    assert s.rewriteQueue + (s.held + [x]) + rest == s.rewriteQueue + s.held + ([x] + rest);
  }

  lemma PassMoves(s: State)
    requires Enabled(s, Pass)
    ensures InFlight(Step(s, Pass)) == InFlight(s)
  {
    hide Cnt;
    var x, rest := s.held[0], s.held[1..];
    assert s.held == [x] + rest;
    assert (s.rewriteQueue + [x]) + rest == s.rewriteQueue + ([x] + rest);
  }

  /** The steps that only move marks along, or none. */
  lemma MoveKeeps(s: State, segments: seq<nat>, a: Action)
    requires Stream(s, segments) && Enabled(s, a) && !a.Lookup? && !a.Collect? && !a.FilterSegment?
    requires s.dedup.Sending? ==> s.dedup.unsent != []
    ensures Stream(Step(s, a), segments)
  {
    hide Parse, Sum, Cnt;
    if a.Send? {
      SendMoves(s);
    } else if a.Take? {
      TakeMoves(s);
    } else if a.Pass? {
      PassMoves(s);
    }
    var s' := Step(s, a);
    assert InFlight(s') == InFlight(s);
    if a.FilterEnds? {
      assert Flying(s') == Flying(s);
    } else {
      SameFlight(s, s');
    }
  }

  lemma ThreadsKeep(s: State, a: Action)
    requires Threads(s) && Enabled(s, a)
    ensures Threads(Step(s, a))
  {
    hide Cnt;
    if a.Take? {
      CntAppend(s.held, s.dedupQueue[0]);
    } else if a.Pass? {
      CntDrop(s.held);
    } else if a.Lookup? {
      MarksLength(s.todo[0]);
    }
  }

  lemma {:induction false} CntAppend(m: seq<Mark>, x: Mark)
    ensures Cnt(m + [x]) == Cnt(m) + if x.Chunk? then 1 else 0
  {
    if m == [] {
      assert [] + [x] == [x] && [x][1..] == [];
    } else {
      assert (m + [x])[1..] == m[1..] + [x];
      CntAppend(m[1..], x);
    }
  }

  lemma CntDrop(m: seq<Mark>)
    requires m != []
    ensures Cnt(m) == Cnt(m[1..]) + if m[0].Chunk? then 1 else 0
    ensures m[1..] == [] ==> Cnt(m[1..]) == 0
    ensures Cnt([]) == 0
  {}

  lemma StepKeeps(s: State, segments: seq<nat>, a: Action)
    requires Inv(s, segments) && Enabled(s, a)
    ensures Inv(Step(s, a), segments)
  {
    assert s.dedup.Sending? ==> s.dedup.unsent != [];
    hide Stream, Threads, Step;
    ThreadsKeep(s, a);
    match a
    case Lookup => LookupKeeps(s, segments);
    case Collect => CollectKeeps(s, segments);
    case FilterSegment => FilterKeeps(s, segments);
    case _ => MoveKeeps(s, segments, a);
  }

  // ----- some thread can always move, and not for ever ------------------------------------

  predicate Finished(s: State) {
    s.dedup.DedupDone? && s.rewriteTerm && s.filter.FilterDone?
  }

  /** A dedup thread asleep on index_lock leaves a whole segment in flight, or one being filtered. */
  lemma SleeperLeavesWork(s: State, segments: seq<nat>)
    requires Inv(s, segments) && s.dedup.Asleep?
    ensures Flying(s).sizes != []
  {}

  /** No segment has more chunks than this. */
  ghost predicate AtMost(segments: seq<nat>, max: nat) {
    forall i :: 0 <= i < |segments| ==> segments[i] <= max
  }

  /** The index buffer lets in a segment more than a rewrite buffer can hold back. */
  predicate Roomy(buffer: nat, threshold: int, max: nat) {
    buffer == 0 || threshold <= 0 || threshold >= buffer + max
  }

  /** What is collected and held back makes up all the segments in flight. */
  lemma {:induction false} ParseSum(m: seq<Mark>, inside: bool, n: nat)
    requires Parse(m, inside, n).Whole?
    ensures Sum(Parse(m, inside, n).sizes) == Cnt(m) + if inside then n else 0
    ensures inside ==> Parse(m, inside, n).sizes != [] && Parse(m, inside, n).sizes[0] >= n
    decreases |m|
  {
    if m != [] {
      var next := !m[0].SegEnd?;
      ParseSum(m[1..], next, if inside && m[0].Chunk? then n + 1 else 0);
    }
  }

  lemma NothingMoving(s: State)
    ensures s.rewriteQueue == [] && s.dedupQueue == [] && Unsent(s) == [] ==> InFlight(s) == s.held
  {}

  lemma Progress(s: State, segments: seq<nat>, max: nat)
    requires Inv(s, segments) && s.cap > 0 && AtMost(segments, max) && Roomy(s.buffer, s.threshold, max)
    ensures Finished(s) || exists a :: Enabled(s, a)
  {
    if !Enabled(s, FilterSegment) && !Enabled(s, Collect) && !Enabled(s, Pass) && !Enabled(s, Take) &&
       !Enabled(s, Send) && !Enabled(s, Lookup) && !Enabled(s, DedupEnds) && !Enabled(s, RewriteEnds) &&
       !Enabled(s, FilterEnds)
    {
      NothingMoving(s);
      if s.dedup.Asleep? {
        SleeperLeavesWork(s, segments);
        CollectedAtMost(s, segments, max);
      }
    }
  }

  /** With nothing in the queues, the chunks in flight are those collected, of one segment, and those held. */
  lemma CollectedAtMost(s: State, segments: seq<nat>, max: nat)
    requires Inv(s, segments) && AtMost(segments, max) && InFlight(s) == s.held && !s.filter.Ready?
    ensures s.chunkNum <= max + Cnt(s.held) && (s.held == [] && !s.filter.Collecting? ==> s.chunkNum == 0)
    ensures s.held == [] ==> !s.filter.Collecting?
  {
    var inside := s.filter.Collecting?;
    var n := if inside then s.filter.n else 0;
    ParseSum(InFlight(s), inside, n);
    if inside {
      var f := Flying(s).sizes;
      assert segments[|s.filtered|] == f[0];
    }
  }

  function TodoWeight(todo: seq<nat>): nat {
    if todo == [] then 0 else 4 * todo[0] + 11 + TodoWeight(todo[1..])
  }

  /** An upper bound on the steps that are left. */
  function Measure(s: State): nat {
    TodoWeight(s.todo) + 4 * |Unsent(s)| + 3 * |s.dedupQueue| + 2 * |s.held| + |s.rewriteQueue|
    + 2 * (if Flying(s).Whole? then |Flying(s).sizes| else 0)
    + (if s.dedup.DedupDone? then 0 else if s.dedup.Asleep? then 1 else 2)
    + (if s.rewriteTerm then 0 else 1)
    + (if s.filter.FilterDone? then 0 else 1)
  }

  lemma {:induction false} MarksLength(n: nat)
    ensures |Chunks(n)| == n + 1 && |Marks(n)| == n + 2
  {
    if n > 0 {
      MarksLength(n - 1);
    }
  }

  lemma StepDecreases(s: State, segments: seq<nat>, a: Action)
    requires Inv(s, segments) && Enabled(s, a)
    ensures Measure(Step(s, a)) < Measure(s)
  {
    hide Parse, Sum, Marks, Cnt;
    var s' := Step(s, a);
    StepKeeps(s, segments, a);
    if a.Lookup? {
      MarksLength(s.todo[0]);
    }
    // The filtered segments, those in flight and those to come are always the same list.
    assert |s.filtered| + |Flying(s).sizes| + |s.todo| == |segments|;
    assert |s'.filtered| + |Flying(s').sizes| + |s'.todo| == |segments|;
  }

  /** A run: every action is possible where it is taken. */
  ghost predicate Run(s: State, run: seq<Action>)
    decreases |run|
  {
    run == [] || (Enabled(s, run[0]) && Run(Step(s, run[0]), run[1..]))
  }

  function End(s: State, run: seq<Action>): State
    requires Run(s, run)
    decreases |run|
  {
    if run == [] then s else End(Step(s, run[0]), run[1..])
  }

  lemma StepConstants(s: State, a: Action)
    requires Enabled(s, a)
    ensures Step(s, a).cap == s.cap && Step(s, a).threshold == s.threshold && Step(s, a).buffer == s.buffer
  {}

  lemma {:induction false} RunKeeps(s: State, segments: seq<nat>, run: seq<Action>)
    requires Inv(s, segments) && Run(s, run)
    ensures Inv(End(s, run), segments) && |run| + Measure(End(s, run)) <= Measure(s)
    ensures End(s, run).cap == s.cap && End(s, run).threshold == s.threshold && End(s, run).buffer == s.buffer
    decreases |run|
  {
    hide Inv, Measure, Step, Enabled;
    if run != [] {
      StepKeeps(s, segments, run[0]);
      StepDecreases(s, segments, run[0]);
      StepConstants(s, run[0]);
      RunKeeps(Step(s, run[0]), segments, run[1..]);
    }
  }

  /** No run is longer than a fixed bound; unless the rewrite buffer can starve the filter, one that cannot go
      on has filtered every segment, in order. */
  lemma EveryRunFinishes(segments: seq<nat>, buffer: nat, threshold: int, cap: nat, max: nat, run: seq<Action>)
    requires cap > 0 && Run(Init(segments, buffer, threshold, cap), run) && AtMost(segments, max)
    ensures |run| <= Measure(Init(segments, buffer, threshold, cap))
    ensures var s := End(Init(segments, buffer, threshold, cap), run);
            Roomy(buffer, threshold, max) ==> (exists a :: Enabled(s, a)) || (Finished(s) && s.filtered == segments)
  {
    var s0 := Init(segments, buffer, threshold, cap);
    assert InFlight(s0) == [];
    RunKeeps(s0, segments, run);
    var s := End(s0, run);
    if Roomy(buffer, threshold, max) {
      Progress(s, segments, max);
    }
    if Finished(s) {
      assert InFlight(s) == [];
      assert s.filtered + [] + [] == segments;
    }
  }

  /** What index_lookup lets in never exceeds the threshold by a whole segment. */
  lemma {:induction false} InFlightBound(s: State, run: seq<Action>, max: nat)
    requires Run(s, run) && s.threshold > 0 && s.chunkNum < s.threshold + max
    requires AtMost(s.todo, max)
    ensures End(s, run).chunkNum < s.threshold + max
    decreases |run|
  {
    hide Step, Enabled;
    if run != [] {
      BoundStep(s, run[0], max);
      StepConstants(s, run[0]);
      InFlightBound(Step(s, run[0]), run[1..], max);
    }
  }

  lemma BoundStep(s: State, a: Action, max: nat)
    requires Enabled(s, a) && s.threshold > 0 && s.chunkNum < s.threshold + max && AtMost(s.todo, max)
    ensures Step(s, a).chunkNum < s.threshold + max && AtMost(Step(s, a).todo, max)
  {}
}
