/**
 When a rewrite buffer starves the filter thread: the end of a segment stays behind in the buffer, and the wait test
 of src/index/index.c:237-238 does not let in the chunks that would push it out.
 */
module Starvation {
  import opened Common
  import opened Pipeline

  // ----- segments that starve it ---------------------------------------------------------

  ghost predicate Multiple(x: int, b: nat) {
    exists q: nat :: x == q * b
  }

  /** A multiple of b above another one is at least b above it. */
  lemma MultiplesApart(x: int, y: int, b: nat)
    requires Multiple(x, b) && Multiple(y, b) && y > x
    ensures y >= x + b
  {
    var p: nat :| x == p * b;
    var q: nat :| y == q * b;
    if q <= p {
      MulMono(q, p, b);
    } else {
      MulMono(p + 1, q, b);
      assert (p + 1) * b == p * b + b;
    }
  }

  lemma MulMono(a: nat, b: nat, c: nat)
    requires a <= b
    ensures a * c <= b * c
  {}

  lemma {:induction false} SumConcat(a: seq<nat>, b: seq<nat>)
    ensures Sum(a + b) == Sum(a) + Sum(b)
  {
    if a == [] {
      assert a + b == b;
    } else {
      assert (a + b)[1..] == a[1..] + b;
      SumConcat(a[1..], b);
    }
  }

  lemma SumPrefix(s: seq<nat>, i: nat, j: nat)
    requires i <= j <= |s|
    ensures Sum(s[..i]) <= Sum(s[..j])
  {
    assert s[..j] == s[..i] + s[i..j];
    SumConcat(s[..i], s[i..j]);
  }

  function Times(n: nat, k: nat): (s: seq<nat>)
    ensures |s| == k
  {
    seq(k, _ => n)
  }

  lemma {:induction false} SumTimes(n: nat, k: nat)
    ensures Sum(Times(n, k)) == k * n
  {
    if k > 0 {
      assert Times(n, k)[1..] == Times(n, k - 1);
      SumTimes(n, k - 1);
    }
  }

  /** Sizes without the empty segments. */
  function Squeeze(g: seq<nat>): seq<nat> {
    if g == [] then [] else (if g[0] == 0 then [] else [g[0]]) + Squeeze(g[1..])
  }

  lemma {:induction false} SqueezeConcat(a: seq<nat>, b: seq<nat>)
    ensures Squeeze(a + b) == Squeeze(a) + Squeeze(b)
  {
    if a == [] {
      assert a + b == b;
    } else {
      assert (a + b)[1..] == a[1..] + b;
      SqueezeConcat(a[1..], b);
    }
  }

  lemma {:induction false} SqueezeSum(g: seq<nat>)
    ensures Sum(Squeeze(g)) == Sum(g)
  {
    if g != [] {
      SqueezeSum(g[1..]);
      if g[0] == 0 {
        assert [] + Squeeze(g[1..]) == Squeeze(g[1..]);
      } else {
        assert ([g[0]] + Squeeze(g[1..]))[1..] == Squeeze(g[1..]);
      }
    }
  }

  /**
   Sizes that starve the filter thread: while less than x chunks of whole segments have been filtered, those of the
   first z segments are as many as the index lets in, and for x and more it takes more chunks than they have, x being
   a multiple of the buffer.
   */
  ghost predicate Trap(g: seq<nat>, z: nat, x: nat, buffer: nat, threshold: int) {
    z < |g| && g[z] > 0 && x >= 1 && Multiple(x, buffer) && Sum(g[..z]) <= x + buffer - 1 &&
    forall i :: 0 <= i <= z ==> Sum(g[..i]) >= x || Sum(g[..z]) - Sum(g[..i]) >= threshold
  }

  /** As many segments of the largest size as the buffer has places, and behind them segments that leave one place
      free at most, but fill the index buffer. */
  lemma LargestTrap(g: seq<nat>, z: nat, hi: nat, h: seq<nat>, buffer: nat, threshold: int)
    requires z < |g| && g[z] > 0 && hi >= 1 && buffer >= 1 && Squeeze(g[..z]) == Times(hi, buffer) + h
    requires threshold - hi <= Sum(h) < buffer
    ensures Trap(g, z, buffer * hi, buffer, threshold)
  {
    hide Multiple, Sum, Squeeze;
    SqueezeSum(g[..z]);
    SumConcat(Times(hi, buffer), h);
    SumTimes(hi, buffer);
    ProductMultiple(hi, buffer);
    forall i | 0 <= i <= z ensures Sum(g[..i]) >= buffer * hi || Sum(g[..z]) - Sum(g[..i]) >= threshold {
      LargestPrefix(g, z, i, hi, h, buffer);
    }
  }

  lemma ProductMultiple(hi: nat, buffer: nat)
    requires hi >= 1 && buffer >= 1
    ensures Multiple(buffer * hi, buffer) && buffer * hi >= 1
  {
    assert buffer * hi == hi * buffer;
    MulMono(1, hi, buffer);
  }

  lemma LargestPrefix(g: seq<nat>, z: nat, i: nat, hi: nat, h: seq<nat>, buffer: nat)
    requires i <= z <= |g| && Squeeze(g[..z]) == Times(hi, buffer) + h
    ensures Sum(g[..i]) >= buffer * hi || Sum(g[..i]) + hi <= buffer * hi
  {
    hide Squeeze, Sum;
    var all := Times(hi, buffer) + h;
    assert g[..z] == g[..i] + g[i..z];
    SqueezeConcat(g[..i], g[i..z]);
    SqueezeSum(g[..i]);
    var j := |Squeeze(g[..i])|;
    assert Squeeze(g[..i]) == all[..j];
    if j >= buffer {
      assert all[..buffer] == Times(hi, buffer);
      SumPrefix(all, buffer, j);
      SumTimes(hi, buffer);
    } else {
      assert all[..j] == Times(hi, j);
      SumTimes(hi, j);
      MulMono(j + 1, buffer, hi);
      assert (j + 1) * hi == j * hi + hi;
    }
  }

  // ----- what every run on them keeps ----------------------------------------------------

  function Ends(m: seq<Mark>): nat {
    if m == [] then 0 else (if m[0].SegEnd? then 1 else 0) + Ends(m[1..])
  }

  /** The chunks, and the segment ends, that have left the rewrite buffer. */
  function Passed(s: State): nat {
    Sum(s.filtered) + (if s.filter.Collecting? || s.filter.Ready? then s.filter.n else 0) + Cnt(s.rewriteQueue)
  }

  function PassedEnds(s: State): nat {
    |s.filtered| + (if s.filter.Ready? then 1 else 0) + Ends(s.rewriteQueue)
  }

  /** The buffer drains only when full, at multiples of its size, and so not behind a segment's end. */
  ghost predicate Drains(s: State) {
    s.buffer >= 1 && !s.dedupTerm &&
    if s.draining
    then s.held != [] && s.held[|s.held| - 1].Chunk? && Multiple(Passed(s) + Cnt(s.held), s.buffer)
    else Multiple(Passed(s), s.buffer) && Cnt(s.held) < s.buffer
  }

  function SumTo(g: seq<nat>, n: nat): nat {
    Sum(g[..Min(n, |g|)])
  }

  /** Whole segments of x chunks are behind a full buffer, and the index never lets in that many. */
  ghost predicate Starves(s: State, g: seq<nat>, z: nat, x: nat) {
    (SumTo(g, PassedEnds(s)) >= x ==> Passed(s) + Cnt(s.held) >= x + s.buffer) && |s.todo| >= |g| - z
  }

  lemma {:induction false} EndsAppend(m: seq<Mark>, x: Mark)
    ensures Ends(m + [x]) == Ends(m) + if x.SegEnd? then 1 else 0
  {
    if m == [] {
      assert [] + [x] == [x] && [x][1..] == [];
    } else {
      assert (m + [x])[1..] == m[1..] + [x];
      EndsAppend(m[1..], x);
    }
  }

  lemma {:induction false} CntConcat(a: seq<Mark>, b: seq<Mark>)
    ensures Cnt(a + b) == Cnt(a) + Cnt(b)
  {
    if a == [] {
      assert a + b == b;
    } else {
      assert (a + b)[1..] == a[1..] + b;
      CntConcat(a[1..], b);
    }
  }

  /** The chunks looked up are those of the first segments; those that reached the buffer are no more. */
  lemma LookedUp(s: State, segments: seq<nat>)
    requires Inv(s, segments)
    ensures |s.todo| <= |segments| && Sum(s.filtered) + s.chunkNum == Sum(segments[..|segments| - |s.todo|])
    ensures Passed(s) + Cnt(s.held) <= Sum(s.filtered) + s.chunkNum
    ensures |s.filtered| <= |segments| && s.filtered == segments[..|s.filtered|]
  {
    var f := Flying(s).sizes;
    assert segments[..|segments| - |s.todo|] == s.filtered + f;
    SumConcat(s.filtered, f);
    var inside, n := s.filter.Collecting?, if s.filter.Collecting? then s.filter.n else 0;
    ParseSum(InFlight(s), inside, n);
    CntConcat(s.rewriteQueue + s.held, s.dedupQueue + Unsent(s));
    CntConcat(s.rewriteQueue, s.held);
    assert InFlight(s) == (s.rewriteQueue + s.held) + (s.dedupQueue + Unsent(s));
    if s.filter.Ready? {
      assert f[1..] == Parse(InFlight(s), false, 0).sizes;
    }
  }

  /** The chunks before the next end of a segment are those of all the segments up to it. */
  lemma {:induction false} ParseEnd(m: seq<Mark>, rest: seq<Mark>, inside: bool, n: nat)
    requires Parse(m + [SegEnd] + rest, inside, n).Whole?
    ensures var z := Parse(m + [SegEnd] + rest, inside, n).sizes;
            Ends(m) < |z| && Sum(z[..Ends(m) + 1]) == Cnt(m) + if inside then n else 0
    decreases |m|
  {
    var all := m + [SegEnd] + rest;
    var z := Parse(all, inside, n).sizes;
    if m == [] {
      assert all[0] == SegEnd && z[..1] == [n] && [n][1..] == [];
    } else {
      assert all[1..] == m[1..] + [SegEnd] + rest;
      ParseEnd(m[1..], rest, !m[0].SegEnd?, if inside && m[0].Chunk? then n + 1 else 0);
      if m[0].SegEnd? {
        assert z[..Ends(m) + 1][1..] == z[1..][..Ends(m)];
      }
    }
  }

  /** The chunks that have passed, when a segment's end is next to pass, are those of all segments up to it. */
  lemma NextEnd(s: State, segments: seq<nat>)
    requires Inv(s, segments) && s.held != [] && s.held[0].SegEnd?
    ensures PassedEnds(s) < |segments| && Passed(s) == Sum(segments[..PassedEnds(s) + 1])
  {
    hide Threads, InFlight, Parse, Sum, Ends, Cnt;
    var rest := EndInFlight(s);
    if s.filter.Collecting? {
      ParseEnd(s.rewriteQueue, rest, true, s.filter.n);
      SumsOfFront(s.filtered, Flying(s).sizes, s.todo, Ends(s.rewriteQueue), segments);
    } else {
      ParseEnd(s.rewriteQueue, rest, false, 0);
      var z := Parse(InFlight(s), false, 0).sizes;
      if s.filter.Ready? {
        SumFirst(s.filter.n, z, Ends(s.rewriteQueue) + 1);
        SumsOfFront(s.filtered, Flying(s).sizes, s.todo, Ends(s.rewriteQueue) + 1, segments);
      } else {
        SumsOfFront(s.filtered, z, s.todo, Ends(s.rewriteQueue), segments);
      }
    }
  }

  lemma EndInFlight(s: State) returns (rest: seq<Mark>)
    requires s.held != [] && s.held[0].SegEnd?
    ensures InFlight(s) == s.rewriteQueue + [SegEnd] + rest
  {
    rest := s.held[1..] + s.dedupQueue + Unsent(s);
    assert s.held == [SegEnd] + s.held[1..];
  }

  lemma SumFirst(n: nat, z: seq<nat>, e: nat)
    requires e <= |z|
    ensures Sum(([n] + z)[..e + 1]) == n + Sum(z[..e])
  {
    assert ([n] + z)[..e + 1][1..] == z[..e];
  }

  lemma SumsOfFront(done: seq<nat>, z: seq<nat>, todo: seq<nat>, e: nat, segments: seq<nat>)
    requires e < |z| && done + z + todo == segments
    ensures |done| + e < |segments|
    ensures Sum(segments[..|done| + e + 1]) == Sum(done) + Sum(z[..e + 1])
  {
    hide Sum;
    assert segments[..|done| + e + 1] == done + z[..e + 1];
    SumConcat(done, z[..e + 1]);
  }

  /** Where runs on such segments stay. */
  ghost predicate Starved(s: State, g: seq<nat>, z: nat, x: nat) {
    s.threshold >= 1 && Trap(g, z, x, s.buffer, s.threshold) && Inv(s, g) && Drains(s) && Starves(s, g, z, x)
  }

  /** The index never lets segment z in: before it, the buffer counts as full. */
  lemma LastNeverIn(s: State, g: seq<nat>, z: nat, x: nat)
    requires Starved(s, g, z, x)
    ensures s.todo != []
    ensures |s.todo| == |g| - z ==> s.todo[0] > 0 && BufferFull(s)
  {
    hide Drains, Sum, Cnt;
    LookedUp(s, g);
    TodoIs(s, g);
    if |s.todo| == |g| - z {
      var i := |s.filtered|;
      assert Sum(g[..z]) == Sum(s.filtered) + s.chunkNum;
      assert SumTo(g, PassedEnds(s)) < x;
      SumPrefix(g, i, Min(PassedEnds(s), |g|));
      FilteredIn(s, g, z);
    }
  }

  lemma FilteredIn(s: State, segments: seq<nat>, z: nat)
    requires Inv(s, segments) && z <= |segments| && |s.todo| >= |segments| - z
    ensures |s.filtered| <= z
  {}

  lemma TodoIs(s: State, segments: seq<nat>)
    requires Inv(s, segments)
    ensures |s.todo| <= |segments| && s.todo == segments[|segments| - |s.todo|..]
  {}

  lemma TakeDrains(s: State)
    requires Drains(s) && Enabled(s, Take)
    ensures Drains(Step(s, Take)) && Passed(Step(s, Take)) == Passed(s) && Cnt(Step(s, Take).held) >= Cnt(s.held)
  {
    hide Sum, Cnt;
    CntAppend(s.held, s.dedupQueue[0]);
    var s' := Step(s, Take);
    var p: nat :| Passed(s) == p * s.buffer;
    assert Passed(s) + s.buffer == (p + 1) * s.buffer;
  }

  lemma PassDrains(s: State)
    requires Drains(s) && Enabled(s, Pass)
    ensures var s' := Step(s, Pass);
            Drains(s') && Passed(s') + Cnt(s'.held) == Passed(s) + Cnt(s.held)
    ensures PassedEnds(Step(s, Pass)) == PassedEnds(s) + if s.held[0].SegEnd? then 1 else 0
  {
    hide Sum, Cnt, Ends;
    CntDrop(s.held);
    CntAppend(s.rewriteQueue, s.held[0]);
    EndsAppend(s.rewriteQueue, s.held[0]);
  }

  /** When the end of a segment passes that makes them x chunks or more, a full buffer of chunks is behind it. */
  lemma EndPasses(s: State, segments: seq<nat>, x: nat)
    requires Inv(s, segments) && Drains(s) && s.draining && s.held[0].SegEnd? && Multiple(x, s.buffer)
    requires SumTo(segments, PassedEnds(s) + 1) >= x
    ensures Passed(s) + Cnt(s.held) >= x + s.buffer
  {
    NextEnd(s, segments);
    ChunkLast(s.held);
    MultiplesApart(x, Passed(s) + Cnt(s.held), s.buffer);
  }

  lemma ChunkLast(m: seq<Mark>)
    requires m != [] && m[|m| - 1].Chunk?
    ensures Cnt(m) >= 1
  {
    var n := |m| - 1;
    assert m == m[..n] + [m[n]];
    CntAppend(m[..n], m[n]);
  }

  /** Collecting a mark, or filtering a segment, changes nothing of what has passed. */
  lemma FilterPasses(s: State, segments: seq<nat>, a: Action)
    requires Inv(s, segments) && Enabled(s, a) && (a.Collect? || a.FilterSegment?)
    ensures var s' := Step(s, a);
            Passed(s') == Passed(s) && PassedEnds(s') == PassedEnds(s) &&
            Sum(s'.filtered) + s'.chunkNum == Sum(s.filtered) + s.chunkNum
  {
    if a.FilterSegment? {
      SumConcat(s.filtered, [s.filter.n]);
      assert [s.filter.n][1..] == [];
    } else {
      assert InFlight(s)[0] == s.rewriteQueue[0];
    }
  }

  /** Every step of every thread keeps it. */
  lemma StarvedStep(s: State, a: Action, g: seq<nat>, z: nat, x: nat)
    requires Starved(s, g, z, x) && Enabled(s, a)
    ensures Starved(Step(s, a), g, z, x)
  {
    hide Sum, Cnt, Ends, Trap;
    StepKeeps(s, g, a);
    StepConstants(s, a);
    LastNeverIn(s, g, z, x);
    TrapSize(g, z, x, s.buffer, s.threshold);
    hide Inv;
    match a
    case Take => TakeDrains(s);
    case Pass =>
      PassDrains(s);
      if s.held[0].SegEnd? && SumTo(g, PassedEnds(s) + 1) >= x {
        EndPasses(s, g, x);
      }
    case Collect => FilterPasses(s, g, a);
    case FilterSegment => FilterPasses(s, g, a);
    case _ =>
  }

  lemma TrapSize(g: seq<nat>, z: nat, x: nat, buffer: nat, threshold: int)
    requires Trap(g, z, x, buffer, threshold)
    ensures z < |g| && Multiple(x, buffer)
  {}

  lemma StarvedStart(g: seq<nat>, z: nat, x: nat, buffer: nat, threshold: int, cap: nat)
    requires buffer >= 1 && threshold >= 1 && Trap(g, z, x, buffer, threshold)
    ensures Starved(Init(g, buffer, threshold, cap), g, z, x)
  {
    hide Trap;
    TrapSize(g, z, x, buffer, threshold);
    assert x >= 1 by { TrapPositive(g, z, x, buffer, threshold); }
    var s := Init(g, buffer, threshold, cap);
    assert InFlight(s) == [];
    assert [] + [] + s.todo == s.todo;
    assert 0 == 0 * buffer;
    assert g[..0] == [];
  }

  lemma TrapPositive(g: seq<nat>, z: nat, x: nat, buffer: nat, threshold: int)
    requires Trap(g, z, x, buffer, threshold)
    ensures x >= 1
  {}

  lemma {:induction false} StarvedAlways(s: State, run: seq<Action>, g: seq<nat>, z: nat, x: nat)
    requires Starved(s, g, z, x) && Run(s, run)
    ensures Starved(End(s, run), g, z, x)
    decreases |run|
  {
    hide Starved, Enabled, Step;
    if run != [] {
      StarvedStep(s, run[0], g, z, x);
      StarvedAlways(Step(s, run[0]), run[1..], g, z, x);
    }
  }

  /** A run can be carried on until nothing is possible any more. */
  lemma {:induction false} RunToTheEnd(s: State, segments: seq<nat>) returns (run: seq<Action>)
    requires Inv(s, segments)
    ensures Run(s, run) && forall a :: !Enabled(End(s, run), a)
    decreases Measure(s)
  {
    hide Inv, Step, Enabled, Measure;
    if a :| Enabled(s, a) {
      StepKeeps(s, segments, a);
      StepDecreases(s, segments, a);
      var rest := RunToTheEnd(Step(s, a), segments);
      run := [a] + rest;
      assert run[1..] == rest;
    } else {
      run := [];
    }
  }

  /** Whatever is backed up in segments of at most max chunks, a run that cannot go on has finished. */
  ghost predicate NeverStuck(buffer: nat, threshold: int, cap: nat, max: nat) {
    forall segments, run ::
      AtMost(segments, max) && Run(Init(segments, buffer, threshold, cap), run) &&
      (forall a :: !Enabled(End(Init(segments, buffer, threshold, cap), run), a)) ==>
        Finished(End(Init(segments, buffer, threshold, cap), run))
  }

  /** With a capping buffer and segments of any sizes up to max in any order, the three threads never come to a stop
      before the end exactly when there is no wait threshold or it is at least the buffer and a whole segment. */
  lemma NeverStuckExactly(buffer: nat, threshold: int, cap: nat, max: nat)
    requires buffer >= 1 && cap >= 1 && max >= 1
    ensures NeverStuck(buffer, threshold, cap, max) <==> threshold <= 0 || threshold >= buffer + max
  {
    hide Inv, Starved, Enabled, Step, Measure;
    if threshold <= 0 || threshold >= buffer + max {
      forall segments, run |
        AtMost(segments, max) && Run(Init(segments, buffer, threshold, cap), run) &&
        forall a :: !Enabled(End(Init(segments, buffer, threshold, cap), run), a)
        ensures Finished(End(Init(segments, buffer, threshold, cap), run))
      {
        EveryRunFinishes(segments, buffer, threshold, cap, max, run);
      }
    } else {
      var h := Times(1, Max(threshold - max, 0));
      var front := Times(max, buffer) + h;
      var g := front + [1];
      SumTimes(1, Max(threshold - max, 0));
      assert g[..|front|] == front;
      NoneEmpty(front);
      LargestTrap(g, |front|, max, h, buffer, threshold);
      var run := StarvingRun(g, |front|, buffer * max, buffer, threshold, cap);
    }
  }

  lemma {:induction false} NoneEmpty(g: seq<nat>)
    requires forall i :: 0 <= i < |g| ==> g[i] > 0
    ensures Squeeze(g) == g
  {
    if g != [] { NoneEmpty(g[1..]); }
  }

  /** The failing runs: on starving segments, every run ends with segment z not even looked up. */
  lemma StarvingRun(g: seq<nat>, z: nat, x: nat, buffer: nat, threshold: int, cap: nat) returns (run: seq<Action>)
    requires buffer >= 1 && threshold >= 1 && Trap(g, z, x, buffer, threshold)
    ensures Run(Init(g, buffer, threshold, cap), run)
    ensures var s := End(Init(g, buffer, threshold, cap), run);
            (forall a :: !Enabled(s, a)) && !Finished(s) && |s.todo| >= |g| - z > 0
  {
    hide Enabled, Step, Measure, Trap;
    var s0 := Init(g, buffer, threshold, cap);
    StarvedStart(g, z, x, buffer, threshold, cap);
    run := RunToTheEnd(s0, g);
    StarvedAlways(s0, run, g, z, x);
    TrapSize(g, z, x, buffer, threshold);
  }
}
