/**
 The wait threshold destor computes (src/dedup_phase.c:113-118) against the segments its segmenters make: when the
 dedup, rewrite and filter threads can stop for good behind a capping buffer.
 */
module WaitThreshold {
  import opened Common
  import opened Pipeline
  import opened Starvation
  import Recipe
  import Segmenting

  type Method = Segmenting.Method

  // ----- the sizes of the segments of a stream -------------------------------------------

  function Sizes(segments: seq<Segmenting.Segment>): (r: seq<nat>)
    ensures |r| == |segments| && forall i :: 0 <= i < |r| ==> r[i] == segments[i].chunkNum
  {
    seq(|segments|, i requires 0 <= i < |segments| => segments[i].chunkNum)
  }

  /** The sizes of the segments of a stream, the first of which has c chunks already. */
  function SizesFrom(m: Method, c: nat, stream: seq<Recipe.Item>): seq<nat>
    requires Segmenting.Usable(m)
  {
    Sizes(Segmenting.Segments(m, Segmenting.Segment([], c), stream))
  }

  function SegmentSizes(m: Method, stream: seq<Recipe.Item>): seq<nat>
    requires Segmenting.Usable(m)
  {
    SizesFrom(m, 0, stream)
  }

  /** Segments that are not the last have at least Lo and at most Hi chunks. */
  function Lo(m: Method): nat {
    match m
    case Fixed(size) => size
    case FileDefined => 0
    case ContentDefined(min, _, _, _) => min
  }

  function Hi(m: Method): nat {
    match m
    case Fixed(size) => size
    case FileDefined => 0
    case ContentDefined(min, max, _, _) => Max(max, Max(min + 1, 2))
  }

  ghost predicate Within(h: seq<nat>, lo: nat, hi: nat) {
    forall i :: 0 <= i < |h| ==> lo <= h[i] <= hi
  }

  /** Some sizes from lo to hi add up to a number in the range. */
  ghost predicate Summable(lo: nat, hi: nat, from: int, to: int) {
    exists h: seq<nat> :: Within(h, lo, hi) && from <= Sum(h) <= to
  }

  /** Every run on every stream of whole files goes on to its end. */
  ghost predicate NeverStops(m: Method, buffer: nat, threshold: int, cap: nat)
    requires Segmenting.Usable(m)
  {
    forall stream, run ::
      Segmenting.Whole(stream) && Run(Init(SegmentSizes(m, stream), buffer, threshold, cap), run) &&
      (forall a :: !Enabled(End(Init(SegmentSizes(m, stream), buffer, threshold, cap), run), a)) ==>
        Finished(End(Init(SegmentSizes(m, stream), buffer, threshold, cap), run))
  }

  // ----- a stop needs segments that fit between -------------------------------------------

  lemma {:induction false} SizesAtLeast(m: Method, s: Segmenting.Segment, stream: seq<Recipe.Item>)
    requires Segmenting.Usable(m) && !m.FileDefined?
    ensures forall i :: 0 <= i < |Segmenting.Segments(m, s, stream)| - 1 ==>
              Segmenting.Segments(m, s, stream)[i].chunkNum >= Lo(m)
    decreases |stream|
  {
    if stream != [] {
      var c, rest := stream[0], stream[1..];
      var r := Segmenting.Segments(m, s, stream);
      if Segmenting.EndsBefore(m, s, c) {
        SizesAtLeast(m, Segmenting.Grow(Segmenting.Empty, c), rest);
        assert r[0] == s && r[1..] == Segmenting.Segments(m, Segmenting.Grow(Segmenting.Empty, c), rest);
        assert forall i :: 0 < i < |r| ==> r[i] == r[1..][i - 1];
      } else if Segmenting.EndsWith(m, s, c) {
        SizesAtLeast(m, Segmenting.Empty, rest);
        assert r[0] == Segmenting.Grow(s, c) && r[1..] == Segmenting.Segments(m, Segmenting.Empty, rest);
        assert forall i :: 0 < i < |r| ==> r[i] == r[1..][i - 1];
      } else {
        SizesAtLeast(m, Segmenting.Grow(s, c), rest);
        assert r == Segmenting.Segments(m, Segmenting.Grow(s, c), rest);
      }
    }
  }

  lemma SizesBetween(m: Method, stream: seq<Recipe.Item>)
    requires Segmenting.Usable(m) && !m.FileDefined? && Hi(m) >= 1
    ensures forall i :: 0 <= i < |SegmentSizes(m, stream)| - 1 ==> Lo(m) <= SegmentSizes(m, stream)[i] <= Hi(m)
    ensures forall i :: 0 <= i < |SegmentSizes(m, stream)| ==> SegmentSizes(m, stream)[i] <= Hi(m)
  {
    assert Segmenting.Empty == Segmenting.Segment([], 0);
    SizesAtLeast(m, Segmenting.Empty, stream);
    Segmenting.AlwaysBounded(m, stream);
    var r := Segmenting.Segments(m, Segmenting.Empty, stream);
    assert SegmentSizes(m, stream) == Sizes(r);
    forall i | 0 <= i < |r| ensures Sizes(r)[i] <= Hi(m) && (i < |r| - 1 ==> Lo(m) <= Sizes(r)[i]) {
      assert Sizes(r)[i] == r[i].chunkNum;
    }
  }

  /** When nothing is possible any more before the end, the segments in flight behind the first one fit into the
      buffer with a place left free, and with the first one they fill the index buffer. */
  lemma StopSums(s: State, g: seq<nat>, lo: nat, hi: nat)
    requires Inv(s, g) && s.cap > 0 && s.buffer >= 1 && (forall a :: !Enabled(s, a)) && !Finished(s)
    requires forall i :: 0 <= i < |g| - 1 ==> lo <= g[i] <= hi
    ensures s.threshold > 0 && Summable(lo, hi, s.threshold - hi, s.buffer - 1)
  {
    Stopped(s, g);
    NothingMoving(s);
    var f := Flying(s).sizes;
    var inside := s.filter.Collecting?;
    ParseSum(InFlight(s), inside, if inside then s.filter.n else 0);
    FlyingSizes(s, g, lo, hi);
    assert f[1..] == f[1..] && Sum(f) == f[0] + Sum(f[1..]);
    assert Within(f[1..], lo, hi);
  }

  /** Only a dedup thread asleep on index_lock stops them all. */
  lemma Stopped(s: State, g: seq<nat>)
    requires Inv(s, g) && s.cap > 0 && s.buffer >= 1 && (forall a :: !Enabled(s, a)) && !Finished(s)
    ensures s.dedup.Asleep? && s.threshold > 0 && s.chunkNum >= s.threshold && s.todo != []
    ensures s.rewriteQueue == [] && s.dedupQueue == [] && Unsent(s) == [] && Cnt(s.held) < s.buffer
    ensures s.filter.Waiting? || s.filter.Collecting?
  {
    NothingMoving(s);
    assert !Enabled(s, FilterSegment) && !Enabled(s, Collect) && !Enabled(s, Pass) && !Enabled(s, Take);
    assert !Enabled(s, Send) && !Enabled(s, Lookup) && !Enabled(s, DedupEnds) && !Enabled(s, RewriteEnds);
    assert !Enabled(s, FilterEnds);
  }

  lemma FlyingSizes(s: State, g: seq<nat>, lo: nat, hi: nat)
    requires Inv(s, g) && s.todo != [] && forall i :: 0 <= i < |g| - 1 ==> lo <= g[i] <= hi
    ensures Within(Flying(s).sizes, lo, hi)
  {
    var f := Flying(s).sizes;
    forall i | 0 <= i < |f| ensures lo <= f[i] <= hi {
      assert g[|s.filtered| + i] == f[i];
    }
  }

  // ----- streams whose segments have given sizes -------------------------------------------

  /** Only the number of chunks matters to where segments end. */
  lemma {:induction false} SameSizes(m: Method, s: Segmenting.Segment, t: Segmenting.Segment, stream: seq<Recipe.Item>)
    requires Segmenting.Usable(m) && s.chunkNum == t.chunkNum
    ensures Sizes(Segmenting.Segments(m, s, stream)) == Sizes(Segmenting.Segments(m, t, stream))
    decreases |stream|
  {
    if stream != [] {
      var c, rest := stream[0], stream[1..];
      if Segmenting.EndsBefore(m, s, c) {
        SizesCons(s, Segmenting.Segments(m, Segmenting.Grow(Segmenting.Empty, c), rest));
        SizesCons(t, Segmenting.Segments(m, Segmenting.Grow(Segmenting.Empty, c), rest));
      } else if Segmenting.EndsWith(m, s, c) {
        SizesCons(Segmenting.Grow(s, c), Segmenting.Segments(m, Segmenting.Empty, rest));
        SizesCons(Segmenting.Grow(t, c), Segmenting.Segments(m, Segmenting.Empty, rest));
      } else {
        SameSizes(m, Segmenting.Grow(s, c), Segmenting.Grow(t, c), rest);
      }
    }
  }

  lemma SizesCons(s: Segmenting.Segment, q: seq<Segmenting.Segment>)
    ensures Sizes([s] + q) == [s.chunkNum] + Sizes(q)
  {}

  function ChunkOf(fp: Fingerprint): Recipe.Item {
    Recipe.Chunk(Recipe.Pointer(fp, 0, 1))
  }

  /** One more chunk. */
  lemma ChunkSizes(m: Method, c: nat, fp: Fingerprint, rest: seq<Recipe.Item>)
    requires Segmenting.Usable(m)
    ensures var s := Segmenting.Segment([], c);
            SizesFrom(m, c, [ChunkOf(fp)] + rest) ==
            if Segmenting.EndsBefore(m, s, ChunkOf(fp)) then [c] + SizesFrom(m, 1, rest)
            else if Segmenting.EndsWith(m, s, ChunkOf(fp)) then [c + 1] + SizesFrom(m, 0, rest)
            else SizesFrom(m, c + 1, rest)
  {
    var s, x := Segmenting.Segment([], c), ChunkOf(fp);
    var all := [x] + rest;
    assert all[0] == x && all[1..] == rest;
    if Segmenting.EndsBefore(m, s, x) {
      SizesCons(s, Segmenting.Segments(m, Segmenting.Grow(Segmenting.Empty, x), rest));
      SameSizes(m, Segmenting.Grow(Segmenting.Empty, x), Segmenting.Segment([], 1), rest);
    } else if Segmenting.EndsWith(m, s, x) {
      SizesCons(Segmenting.Grow(s, x), Segmenting.Segments(m, Segmenting.Empty, rest));
    } else {
      SameSizes(m, Segmenting.Grow(s, x), Segmenting.Segment([], c + 1), rest);
    }
  }

  /** The ends of files do not count. */
  lemma MarkSizes(m: Method, c: nat, x: Recipe.Item, rest: seq<Recipe.Item>)
    requires Segmenting.Usable(m) && !m.FileDefined? && !x.Chunk?
    ensures SizesFrom(m, c, [x] + rest) == SizesFrom(m, c, rest)
  {
    var s := Segmenting.Segment([], c);
    var all := [x] + rest;
    assert all[0] == x && all[1..] == rest;
    SameSizes(m, Segmenting.Grow(s, x), s, rest);
  }

  function Repeat(fp: Fingerprint, k: nat): (r: seq<Fingerprint>)
    ensures |r| == k
  {
    seq(k, _ => fp)
  }

  /** Fingerprints for the algorithm: d divides and fp does not, where that matters. */
  ghost predicate Telling(m: Method, d: Fingerprint, fp: Fingerprint) {
    Segmenting.Usable(m) && !m.FileDefined? && Hi(m) >= 1 &&
    (m.ContentDefined? ==> Segmenting.Divides(m, d) && !Segmenting.Divides(m, fp))
  }

  /** Chunks that do not divide are taken until the segment has as many as it can have. */
  lemma {:induction false} FillSizes(
    m: Method, d: Fingerprint, fp: Fingerprint, c: nat, k: nat, rest: seq<Recipe.Item>)
    requires Telling(m, d, fp) && c + k <= Hi(m) && (m.ContentDefined? ==> c >= 1)
    ensures SizesFrom(m, c, Segmenting.Data(Repeat(fp, k)) + rest) ==
            if k > 0 && c + k == Hi(m) then [Hi(m)] + SizesFrom(m, 0, rest) else SizesFrom(m, c + k, rest)
    decreases k
  {
    hide SizesFrom;
    var stream := Segmenting.Data(Repeat(fp, k)) + rest;
    if k == 0 {
      assert stream == rest;
    } else {
      var more := Segmenting.Data(Repeat(fp, k - 1)) + rest;
      assert stream == [ChunkOf(fp)] + more;
      ChunkSizes(m, c, fp, more);
      if c + 1 == Hi(m) {
        assert more == rest;
      } else {
        FillSizes(m, d, fp, c + 1, k - 1, rest);
      }
    }
  }

  /** The fingerprints of a file whose segments have the sizes q, and then one chunk more. */
  function Code(d: Fingerprint, fp: Fingerprint, q: seq<nat>): seq<Fingerprint> {
    if q == [] then [d] else [d] + Repeat(fp, if q[0] == 0 then 0 else q[0] - 1) + Code(d, fp, q[1..])
  }

  lemma DataConcat(a: seq<Fingerprint>, b: seq<Fingerprint>)
    ensures Segmenting.Data(a + b) == Segmenting.Data(a) + Segmenting.Data(b)
  {}

  lemma CodeStream(d: Fingerprint, fp: Fingerprint, q: seq<nat>, rest: seq<Recipe.Item>)
    requires q != [] && q[0] >= 1
    ensures Segmenting.Data(Code(d, fp, q)) + rest ==
            [ChunkOf(d)] + (Segmenting.Data(Repeat(fp, q[0] - 1)) + (Segmenting.Data(Code(d, fp, q[1..])) + rest))
  {
    var k := q[0] - 1;
    DataConcat([d] + Repeat(fp, k), Code(d, fp, q[1..]));
    DataConcat([d], Repeat(fp, k));
    assert Segmenting.Data([d]) == [ChunkOf(d)];
  }

  /** Where the sizes q stand among those of a stream, empty segments left aside, with a chunk behind them. */
  ghost predicate Reached(g: seq<nat>, z: nat, q: seq<nat>) {
    z < |g| && g[z] > 0 && Squeeze(g[..z]) == q
  }

  lemma ReachedCons(n: nat, g: seq<nat>, z: nat, q: seq<nat>)
    requires Reached(g, z, q)
    ensures Reached([n] + g, z + 1, (if n == 0 then [] else [n]) + q)
  {
    assert ([n] + g)[..z + 1] == [n] + g[..z];
    assert ([n] + g[..z])[1..] == g[..z];
  }

  lemma LastChunk(m: Method, c: nat, d: Fingerprint) returns (z: nat)
    requires Segmenting.Usable(m) && !m.FileDefined?
    requires var s, x := Segmenting.Segment([], c), ChunkOf(d);
             Segmenting.EndsBefore(m, s, x) || c == 0
    ensures Reached(SizesFrom(m, c, Segmenting.Data([d]) + [Recipe.FileEnd]), z, if c == 0 then [] else [c])
  {
    var rest := [Recipe.FileEnd];
    assert Segmenting.Data([d]) == [ChunkOf(d)];
    ChunkSizes(m, c, d, rest);
    MarkSizes(m, 1, Recipe.FileEnd, []);
    MarkSizes(m, 0, Recipe.FileEnd, []);
    assert rest == [Recipe.FileEnd] + [];
    var s := Segmenting.Segment([], c);
    assert SizesFrom(m, 1, []) == [1];
    if Segmenting.EndsBefore(m, s, ChunkOf(d)) {
      z := 1;
      assert Reached([1], 0, []);
      ReachedCons(c, [1], 0, []);
    } else {
      z := 0;
    }
  }

  /** A chunk that divides starts a segment, and ends the one before it. */
  lemma StartSizes(m: Method, d: Fingerprint, fp: Fingerprint, c: nat, rest: seq<Recipe.Item>, z: nat, q: seq<nat>)
    returns (z': nat)
    requires m.ContentDefined? && Telling(m, d, fp) && (c == 0 || m.min <= c < Hi(m))
    requires Reached(SizesFrom(m, 1, rest), z, q)
    ensures Reached(SizesFrom(m, c, [ChunkOf(d)] + rest), z', (if c == 0 then [] else [c]) + q)
  {
    hide SizesFrom, Reached;
    ChunkSizes(m, c, d, rest);
    z' := z;
    if c >= m.min {
      ReachedCons(c, SizesFrom(m, 1, rest), z, q);
      z' := z + 1;
    } else {
      assert [] + q == q;
    }
  }

  /** Content-defined segments of any sizes in the range can follow each other. */
  lemma {:induction false} ContentSizes(m: Method, d: Fingerprint, fp: Fingerprint, c: nat, q: seq<nat>)
    returns (z: nat)
    requires m.ContentDefined? && Telling(m, d, fp) && (c == 0 || m.min <= c < Hi(m))
    requires forall i :: 0 <= i < |q| ==> 1 <= q[i] && Lo(m) <= q[i] <= Hi(m)
    ensures Reached(SizesFrom(m, c, Segmenting.Data(Code(d, fp, q)) + [Recipe.FileEnd]), z,
                    (if c == 0 then [] else [c]) + q)
    decreases |q|
  {
    if q == [] {
      z := LastChunk(m, c, d);
      assert (if c == 0 then [] else [c]) + q == if c == 0 then [] else [c];
    } else {
      hide SizesFrom, Reached, Telling, Code;
      var n, end := q[0], [Recipe.FileEnd];
      var tail := Segmenting.Data(Code(d, fp, q[1..])) + end;
      CodeStream(d, fp, q, end);
      TellingHi(m, d, fp);
      FillSizes(m, d, fp, 1, n - 1, tail);
      z := ContentSizes(m, d, fp, if n == Hi(m) then 0 else n, q[1..]);
      z := NextSize(m, n, q, tail, z);
      z := StartSizes(m, d, fp, c, Segmenting.Data(Repeat(fp, n - 1)) + tail, z, q);
    }
  }

  /** A segment that is full ends at once, another one with the next chunk. */
  lemma NextSize(m: Method, n: nat, q: seq<nat>, tail: seq<Recipe.Item>, z: nat) returns (z': nat)
    requires Segmenting.Usable(m) && q != [] && n == q[0] >= 1
    requires Reached(SizesFrom(m, if n == Hi(m) then 0 else n, tail), z, (if n == Hi(m) then [] else [n]) + q[1..])
    ensures Reached(if n == Hi(m) then [n] + SizesFrom(m, 0, tail) else SizesFrom(m, n, tail), z', q)
  {
    hide SizesFrom, Reached;
    assert [n] + q[1..] == q;
    z' := z;
    if n == Hi(m) {
      assert [] + q[1..] == q[1..];
      ReachedCons(n, SizesFrom(m, 0, tail), z, q[1..]);
      z' := z + 1;
    }
  }

  /** Fixed segments all have the size. */
  lemma {:induction false} FixedSizes(m: Method, d: Fingerprint, k: nat) returns (z: nat)
    requires m.Fixed? && m.size >= 1
    ensures Reached(SizesFrom(m, 0, Segmenting.Data(Code(d, d, Times(m.size, k))) + [Recipe.FileEnd]), z,
                    Times(m.size, k))
    decreases k
  {
    var q := Times(m.size, k);
    if k == 0 {
      z := LastChunk(m, 0, d);
    } else {
      assert q[1..] == Times(m.size, k - 1);
      var tail := Segmenting.Data(Code(d, d, q[1..])) + [Recipe.FileEnd];
      CodeStream(d, d, q, [Recipe.FileEnd]);
      assert [ChunkOf(d)] + (Segmenting.Data(Repeat(d, m.size - 1)) + tail)
          == Segmenting.Data(Repeat(d, m.size)) + tail;
      FillSizes(m, d, d, 0, m.size, tail);
      z := FixedSizes(m, d, k - 1);
      ReachedCons(m.size, SizesFrom(m, 0, tail), z, q[1..]);
      z := z + 1;
      assert [m.size] + q[1..] == q;
    }
  }

  // ----- the runs that stop --------------------------------------------------------------

  lemma {:induction false} SqueezeWithin(h: seq<nat>, lo: nat, hi: nat)
    requires Within(h, lo, hi)
    ensures forall i :: 0 <= i < |Squeeze(h)| ==> 1 <= Squeeze(h)[i] && lo <= Squeeze(h)[i] <= hi
  {
    if h != [] {
      SqueezeWithin(h[1..], lo, hi);
    }
  }

  lemma StoppingCode(m: Method, d: Fingerprint, fp: Fingerprint, q: seq<nat>) returns (fps: seq<Fingerprint>, z: nat)
    requires Telling(m, d, fp) && forall i :: 0 <= i < |q| ==> 1 <= q[i] && Lo(m) <= q[i] <= Hi(m)
    ensures Reached(SizesFrom(m, 0, Segmenting.Data(fps) + [Recipe.FileEnd]), z, q)
  {
    hide SizesFrom, Reached, Code;
    if m.Fixed? {
      assert q == Times(m.size, |q|);
      fps := Code(d, d, q);
      z := FixedSizes(m, d, |q|);
    } else {
      fps := Code(d, fp, q);
      z := ContentSizes(m, d, fp, 0, q);
      assert [] + q == q;
    }
  }

  /** A file whose segments starve the filter thread, when sizes add up as StopSums says. */
  lemma StoppingFile(m: Method, d: Fingerprint, fp: Fingerprint, h: seq<nat>, buffer: nat)
    returns (stream: seq<Recipe.Item>, z: nat)
    requires Telling(m, d, fp) && Within(h, Lo(m), Hi(m))
    ensures Segmenting.Whole(stream)
    ensures Reached(SegmentSizes(m, stream), z, Times(Hi(m), buffer) + Squeeze(h))
  {
    hide SizesFrom, Reached, Squeeze;
    var q := Times(Hi(m), buffer) + Squeeze(h);
    SqueezeWithin(h, Lo(m), Hi(m));
    var fps;
    fps, z := StoppingCode(m, d, fp, q);
    stream := Segmenting.OneFile(fps);
    Segmenting.OneFileWhole(fps);
    var rest := Segmenting.Data(fps) + [Recipe.FileEnd];
    assert stream == [Recipe.FileStart("f")] + rest;
    MarkSizes(m, 0, Recipe.FileStart("f"), rest);
  }

  /** The failing run: on that file, every run ends before a segment that is not even looked up. */
  lemma StoppingRun(
    m: Method, d: Fingerprint, fp: Fingerprint, h: seq<nat>, buffer: nat, threshold: int, cap: nat)
    returns (stream: seq<Recipe.Item>, run: seq<Action>)
    requires Telling(m, d, fp) && buffer >= 1 && threshold >= 1
    requires Within(h, Lo(m), Hi(m)) && threshold - Hi(m) <= Sum(h) < buffer
    ensures Segmenting.Whole(stream) && Run(Init(SegmentSizes(m, stream), buffer, threshold, cap), run)
    ensures var s := End(Init(SegmentSizes(m, stream), buffer, threshold, cap), run);
            (forall a :: !Enabled(s, a)) && !Finished(s) && s.todo != []
  {
    TellingHi(m, d, fp);
    hide SegmentSizes, Enabled, Telling;
    var z;
    stream, z := StoppingFile(m, d, fp, h, buffer);
    var g := SegmentSizes(m, stream);
    SqueezeSum(h);
    LargestTrap(g, z, Hi(m), Squeeze(h), buffer, threshold);
    run := StarvingRun(g, z, buffer * Hi(m), buffer, threshold, cap);
  }

  lemma TellingHi(m: Method, d: Fingerprint, fp: Fingerprint)
    requires Telling(m, d, fp)
    ensures Segmenting.Usable(m) && Hi(m) >= 1
  {}

  // ----- when they never stop ------------------------------------------------------------

  /**
   On the segments the segmenter makes, the three threads never stop before the end exactly when there is no wait
   threshold, or no segments fit between: together they would leave a place of the buffer free, and with one of the
   largest segments before them fill the index buffer.
   */
  lemma NeverStopsExactly(m: Method, d: Fingerprint, fp: Fingerprint, buffer: nat, threshold: int, cap: nat)
    requires Telling(m, d, fp) && buffer >= 1 && cap >= 1
    ensures NeverStops(m, buffer, threshold, cap) <==>
            threshold <= 0 || !Summable(Lo(m), Hi(m), threshold - Hi(m), buffer - 1)
  {
    hide Inv, Enabled, SegmentSizes, Segmenting.Whole;
    if threshold <= 0 || !Summable(Lo(m), Hi(m), threshold - Hi(m), buffer - 1) {
      forall stream, run |
        Segmenting.Whole(stream) && Run(Init(SegmentSizes(m, stream), buffer, threshold, cap), run) &&
        forall a :: !Enabled(End(Init(SegmentSizes(m, stream), buffer, threshold, cap), run), a)
        ensures Finished(End(Init(SegmentSizes(m, stream), buffer, threshold, cap), run))
      {
        NoStop(m, stream, run, buffer, threshold, cap);
      }
    } else {
      var h: seq<nat> :| Within(h, Lo(m), Hi(m)) && threshold - Hi(m) <= Sum(h) <= buffer - 1;
      var stream, run := StoppingRun(m, d, fp, h, buffer, threshold, cap);
    }
  }

  lemma NoStop(m: Method, stream: seq<Recipe.Item>, run: seq<Action>, buffer: nat, threshold: int, cap: nat)
    requires Segmenting.Usable(m) && !m.FileDefined? && Hi(m) >= 1 && buffer >= 1 && cap >= 1
    requires threshold <= 0 || !Summable(Lo(m), Hi(m), threshold - Hi(m), buffer - 1)
    requires Run(Init(SegmentSizes(m, stream), buffer, threshold, cap), run)
    requires forall a :: !Enabled(End(Init(SegmentSizes(m, stream), buffer, threshold, cap), run), a)
    ensures Finished(End(Init(SegmentSizes(m, stream), buffer, threshold, cap), run))
  {
    hide SegmentSizes, Enabled, Step, Measure, Finished;
    var g := SegmentSizes(m, stream);
    var s0 := Init(g, buffer, threshold, cap);
    assert InFlight(s0) == [];
    RunKeeps(s0, g, run);
    SizesBetween(m, stream);
    var s := End(s0, run);
    if !Finished(s) {
      StopSums(s, g, Lo(m), Hi(m));
    }
  }

  // ----- the threshold destor computes ---------------------------------------------------

  function Computed(m: Method, buffer: nat): int {
    match m
    case Fixed(size) => buffer + size - 1
    case FileDefined => -1
    case ContentDefined(_, max, _, _) => buffer + max - 1
  }

  lemma {:induction false} SumEqual(h: seq<nat>, size: nat)
    requires Within(h, size, size)
    ensures Sum(h) == |h| * size
  {
    if h != [] { SumEqual(h[1..], size); }
  }

  lemma NoRemainder(n: nat, k: nat, size: nat)
    requires size >= 1 && n == k * size
    ensures n % size == 0
  {
    var q, r := n / size, n % size;
    assert n == q * size + r && 0 <= r < size;
    assert (q + 1) * size == q * size + size;
    if k > q {
      MulMono(q + 1, k, size);
    } else {
      MulMono(k, q, size);
    }
  }

  /** Fixed segments: the computed threshold is enough unless the size divides the buffer less one. */
  lemma FixedThreshold(size: nat, buffer: nat, cap: nat)
    requires size >= 1 && buffer >= 1 && cap >= 1
    ensures var m: Method := Segmenting.Fixed(size);
            NeverStops(m, buffer, Computed(m, buffer), cap) <==> (buffer - 1) % size != 0
  {
    hide NeverStops;
    var m: Method := Segmenting.Fixed(size);
    NeverStopsExactly(m, 0, 0, buffer, Computed(m, buffer), cap);
    if (buffer - 1) % size == 0 {
      var h := Times(size, (buffer - 1) / size);
      SumTimes(size, (buffer - 1) / size);
      assert Within(h, size, size) && Sum(h) == buffer - 1;
    } else if Summable(size, size, buffer - 1, buffer - 1) {
      var h: seq<nat> :| Within(h, size, size) && buffer - 1 <= Sum(h) <= buffer - 1;
      SumEqual(h, size);
      NoRemainder(buffer - 1, |h|, size);
    }
  }

  /** Content-defined segments: it is enough unless segments of the sizes allowed add up to the buffer less one. */
  lemma ContentThreshold(m: Method, d: Fingerprint, fp: Fingerprint, buffer: nat, cap: nat)
    requires m.ContentDefined? && Telling(m, d, fp) && m.min < m.max && m.max >= 2 && buffer >= 1 && cap >= 1
    ensures NeverStops(m, buffer, Computed(m, buffer), cap) <==> !Summable(m.min, m.max, buffer - 1, buffer - 1)
  {
    hide NeverStops, Summable;
    NeverStopsExactly(m, d, fp, buffer, Computed(m, buffer), cap);
  }

  /** File-defined segments have no threshold. */
  lemma FileThreshold(buffer: nat, cap: nat)
    requires cap >= 1
    ensures NeverStops(Segmenting.FileDefined, buffer, Computed(Segmenting.FileDefined, buffer), cap)
  {
    hide SegmentSizes, Enabled, Measure, Finished;
    var m: Method := Segmenting.FileDefined;
    forall stream, run |
      Segmenting.Whole(stream) && Run(Init(SegmentSizes(m, stream), buffer, -1, cap), run) &&
      forall a :: !Enabled(End(Init(SegmentSizes(m, stream), buffer, -1, cap), run), a)
      ensures Finished(End(Init(SegmentSizes(m, stream), buffer, -1, cap), run))
    {
      AtMostSum(SegmentSizes(m, stream));
      EveryRunFinishes(SegmentSizes(m, stream), buffer, -1, cap, Sum(SegmentSizes(m, stream)), run);
    }
  }

  lemma {:induction false} AtMostSum(g: seq<nat>)
    ensures AtMost(g, Sum(g))
  {
    if g != [] {
      AtMostSum(g[1..]);
      assert forall i :: 0 < i < |g| ==> g[i] == g[1..][i - 1];
    }
  }

  /** A threshold of the buffer and a whole segment is always enough. */
  lemma OneMore(m: Method, d: Fingerprint, fp: Fingerprint, buffer: nat, cap: nat)
    requires Telling(m, d, fp) && buffer >= 1 && cap >= 1
    ensures NeverStops(m, buffer, buffer + Hi(m), cap)
  {
    hide NeverStops, Telling;
    NeverStopsExactly(m, d, fp, buffer, buffer + Hi(m), cap);
  }
}
