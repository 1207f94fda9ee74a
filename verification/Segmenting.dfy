/**
 Cutting the chunk stream into segments: src/index/segmenting_method.c, driven by the loop of
 src/dedup_phase.c.
 */
module Segmenting {
  import opened Common
  import opened Recipe

  /** The segmenting algorithm; size is index_segment_algorithm[1]. */
  datatype Method =
    | Fixed(size: nat)
    | FileDefined
    | ContentDefined(min: nat, max: nat, size: nat, head: Fingerprint -> int)

  /** A segment under construction: its items, and how many of them are chunks. */
  datatype Segment = Segment(items: seq<Item>, chunkNum: nat)

  const Empty := Segment([], 0)

  /** The source divides by the size of content-defined segmenting. */
  predicate Usable(m: Method) {
    m.ContentDefined? ==> m.size != 0
  }

  /** The content test: a chunk whose fingerprint's head is a multiple of the segment size. */
  predicate Divides(m: Method, fp: Fingerprint)
    requires m.ContentDefined? && m.size != 0
  {
    m.head(fp) % m.size == 0
  }

  // ----- where segments end --------------------------------------------------------------

  function Grow(s: Segment, c: Item): Segment {
    Segment(s.items + [c], s.chunkNum + if c.Chunk? then 1 else 0)
  }

  /** A segment ends with this item. */
  predicate EndsWith(m: Method, s: Segment, c: Item)
    requires Usable(m)
  {
    match m
    case Fixed(size) => c.Chunk? && s.chunkNum + 1 == size
    case FileDefined => c.FileEnd?
    case ContentDefined(min, max, _, _) =>
      c.Chunk? && s.chunkNum >= min && !Divides(m, c.p.fp) && s.chunkNum + 1 >= max
  }

  /** A segment ends before this item, which starts the next. */
  predicate EndsBefore(m: Method, s: Segment, c: Item)
    requires Usable(m)
  {
    m.ContentDefined? && c.Chunk? && s.chunkNum >= m.min && Divides(m, c.p.fp)
  }

  /** The segments of a stream, the first of which holds s already. */
  function Segments(m: Method, s: Segment, stream: seq<Item>): (r: seq<Segment>)
    requires Usable(m)
    ensures |r| >= 1
    decreases |stream|
  {
    if stream == [] then [s]
    else
      var c, rest := stream[0], stream[1..];
      if EndsBefore(m, s, c) then [s] + Segments(m, Grow(Empty, c), rest)
      else if EndsWith(m, s, c) then [Grow(s, c)] + Segments(m, Empty, rest)
      else Segments(m, Grow(s, c), rest)
  }

  function ItemsOf(segments: seq<Segment>): (r: seq<seq<Item>>)
    ensures |r| == |segments|
  {
    seq(|segments|, i requires 0 <= i < |segments| => segments[i].items)
  }

  ghost predicate Counted(s: Segment) {
    s.chunkNum == |Pointers(s.items)|
  }

  lemma GrowCounted(s: Segment, c: Item)
    requires Counted(s)
    ensures Counted(Grow(s, c)) && Counted(Grow(Empty, c)) && Counted(Empty)
  {
    PointersConcat(s.items, [c]);
    assert [c][1..] == [];
  }

  /** The segments make up the stream, in order, and count their chunks right. */
  lemma {:induction false} SegmentsFlatten(m: Method, s: Segment, stream: seq<Item>)
    requires Usable(m) && Counted(s)
    ensures Flatten(ItemsOf(Segments(m, s, stream))) == s.items + stream
    ensures forall i :: 0 <= i < |Segments(m, s, stream)| ==> Counted(Segments(m, s, stream)[i])
    decreases |stream|
  {
    hide Counted, Flatten, EndsBefore, EndsWith, ItemsOf;
    if stream == [] {
      ItemsOfCons(s, []);
      assert s.items + [] == s.items + stream && [s] + [] == [s];
    } else {
      var c, rest := stream[0], stream[1..];
      GrowCounted(s, c);
      assert s.items + [c] + rest == s.items + stream;
      if EndsBefore(m, s, c) {
        SegmentsFlatten(m, Grow(Empty, c), rest);
        ItemsOfCons(s, Segments(m, Grow(Empty, c), rest));
        assert s.items + ([] + [c] + rest) == s.items + stream;
      } else if EndsWith(m, s, c) {
        SegmentsFlatten(m, Empty, rest);
        ItemsOfCons(Grow(s, c), Segments(m, Empty, rest));
        assert s.items + [c] + ([] + rest) == s.items + stream;
      } else {
        SegmentsFlatten(m, Grow(s, c), rest);
      }
    }
  }

  lemma ItemsOfCons(s: Segment, q: seq<Segment>)
    ensures Flatten(ItemsOf([])) == [] && Flatten(ItemsOf([s] + q)) == s.items + Flatten(ItemsOf(q))
  {
    FlattenCons(s.items, ItemsOf(q));
    assert ItemsOf([s] + q) == [s.items] + ItemsOf(q);
  }

  lemma {:induction false} FlattenCons(x: seq<Item>, rest: seq<seq<Item>>)
    ensures Flatten([]) == [] && Flatten([x] + rest) == x + Flatten(rest)
    decreases |rest|
  {
    if rest == [] {
      assert ([x] + rest)[..0] == [];
      assert Flatten([x] + rest) == Flatten([]) + x;
    } else {
      var n := |rest| - 1;
      assert ([x] + rest)[..n + 1] == [x] + rest[..n];
      FlattenCons(x, rest[..n]);
      assert x + (Flatten(rest[..n]) + rest[n]) == x + Flatten(rest[..n]) + rest[n];
    }
  }

  // ----- what segments begin and end with ------------------------------------------------

  /** In a content-defined segment no chunk behind the first min, nor any but its first, has a multiple of the size as
      the head of its fingerprint. */
  ghost predicate Unbroken(m: Method, s: Segment)
    requires m.ContentDefined? && m.size != 0
  {
    var cs := Pointers(s.items);
    forall k :: Max(m.min, 1) <= k < |cs| ==> m.head(cs[k].fp) % m.size != 0
  }

  /** It begins with a chunk whose fingerprint has such a head. */
  ghost predicate BeginsWithMultiple(m: Method, s: Segment)
    requires m.ContentDefined? && m.size != 0
  {
    s.items != [] && s.items[0].Chunk? && m.head(s.items[0].p.fp) % m.size == 0
  }

  lemma GrowUnbroken(m: Method, s: Segment, c: Item)
    requires m.ContentDefined? && Usable(m) && Counted(s) && Unbroken(m, s) && !EndsBefore(m, s, c)
    ensures Unbroken(m, Grow(s, c))
  {
    PointersConcat(s.items, [c]);
    assert [c][1..] == [];
  }

  lemma FirstUnbroken(m: Method, c: Item)
    requires m.ContentDefined? && Usable(m)
    ensures Unbroken(m, Empty) && Unbroken(m, Grow(Empty, c))
  {
    assert [c][1..] == [];
  }

  /** Where content-defined segments end: never behind a chunk that should have begun another, and early only before
      one that does. */
  lemma {:induction false} ContentBoundaries(m: Method, s: Segment, stream: seq<Item>)
    requires m.ContentDefined? && Usable(m) && Counted(s) && Unbroken(m, s)
    ensures var r := Segments(m, s, stream);
            s.items <= r[0].items && (forall j :: 0 <= j < |r| ==> Unbroken(m, r[j]))
            && forall j :: 0 <= j < |r| - 1 && r[j].chunkNum < m.max ==> BeginsWithMultiple(m, r[j + 1])
    decreases |stream|
  {
    hide Unbroken, Counted;
    if stream != [] {
      var c, rest := stream[0], stream[1..];
      GrowCounted(s, c);
      FirstUnbroken(m, c);
      if EndsBefore(m, s, c) {
        ContentBoundaries(m, Grow(Empty, c), rest);
        var q := Segments(m, Grow(Empty, c), rest);
        assert q[0].items[0] == c;
        BoundariesCons(m, s, q);
      } else {
        GrowUnbroken(m, s, c);
        if EndsWith(m, s, c) {
          ContentBoundaries(m, Empty, rest);
          BoundariesCons(m, Grow(s, c), Segments(m, Empty, rest));
        } else {
          ContentBoundaries(m, Grow(s, c), rest);
        }
      }
    }
  }

  lemma BoundariesCons(m: Method, s: Segment, q: seq<Segment>)
    requires m.ContentDefined? && Usable(m) && |q| >= 1
    requires s.chunkNum < m.max ==> BeginsWithMultiple(m, q[0])
    requires forall j :: 0 <= j < |q| - 1 && q[j].chunkNum < m.max ==> BeginsWithMultiple(m, q[j + 1])
    ensures var r := [s] + q;
            forall j :: 0 <= j < |r| - 1 && r[j].chunkNum < m.max ==> BeginsWithMultiple(m, r[j + 1])
  {}

  /** No file ends among these items. */
  ghost predicate NoFileEnd(items: seq<Item>) {
    forall k :: 0 <= k < |items| ==> !items[k].FileEnd?
  }

  /** A file-defined segment is one file, with its end as its last item; behind the last file there is nothing yet. */
  lemma {:induction false} FileBoundaries(m: Method, s: Segment, stream: seq<Item>)
    requires m.FileDefined? && NoFileEnd(s.items)
    ensures var r := Segments(m, s, stream);
            NoFileEnd(r[|r| - 1].items)
            && forall j :: 0 <= j < |r| - 1 ==>
                 var items := r[j].items;
                 items != [] && items[|items| - 1].FileEnd? && NoFileEnd(items[..|items| - 1])
    decreases |stream|
  {
    if stream != [] {
      var c, rest := stream[0], stream[1..];
      if c.FileEnd? {
        FileBoundaries(m, Empty, rest);
        assert (s.items + [c])[..|s.items|] == s.items;
      } else {
        FileBoundaries(m, Grow(s, c), rest);
      }
    }
  }

  /** A fixed segment ends with a chunk, its size-th; the last has fewer. */
  lemma {:induction false} FixedBoundaries(m: Method, s: Segment, stream: seq<Item>)
    requires m.Fixed? && s.chunkNum < m.size
    ensures var r := Segments(m, s, stream);
            r[|r| - 1].chunkNum < m.size
            && forall j :: 0 <= j < |r| - 1 ==>
                 r[j].chunkNum == m.size && r[j].items != [] && r[j].items[|r[j].items| - 1].Chunk?
    decreases |stream|
  {
    if stream != [] {
      var c, rest := stream[0], stream[1..];
      FixedBoundaries(m, if EndsWith(m, s, c) then Empty else Grow(s, c), rest);
    }
  }

  // ----- how long segments get -----------------------------------------------------------

  /** Every segment of the stream has at most n chunks. */
  ghost predicate AtMost(m: Method, stream: seq<Item>, n: nat)
    requires Usable(m)
  {
    forall i :: 0 <= i < |Segments(m, Empty, stream)| ==> Segments(m, Empty, stream)[i].chunkNum <= n
  }

  /** What a segmenter may still be holding when it never hands over more than n chunks. */
  ghost predicate Holding(m: Method, s: Segment, n: nat) {
    s.chunkNum <= n &&
    match m
    case Fixed(size) => s.chunkNum < size <= n
    case FileDefined => false
    case ContentDefined(min, max, _, _) =>
      min < n && max <= n && 2 <= n && (s.chunkNum <= min || s.chunkNum < max || s.chunkNum <= 1)
  }

  lemma {:induction false} SegmentsBounded(m: Method, s: Segment, stream: seq<Item>, n: nat)
    requires Usable(m) && Holding(m, s, n)
    ensures forall i :: 0 <= i < |Segments(m, s, stream)| ==> Segments(m, s, stream)[i].chunkNum <= n
    decreases |stream|
  {
    if stream != [] {
      var c, rest := stream[0], stream[1..];
      var next := if EndsBefore(m, s, c) then Grow(Empty, c) else if EndsWith(m, s, c) then Empty else Grow(s, c);
      SegmentsBounded(m, next, rest, n);
    }
  }

  /** A stream of whole files, as chunk_thread makes them. */
  ghost predicate Whole(stream: seq<Item>) {
    InFiles(false, stream) && OpenAfter(None, stream) == None
  }

  /** One file of the given chunks. */
  function OneFile(fps: seq<Fingerprint>): seq<Item> {
    [FileStart("f")] + Data(fps) + [FileEnd]
  }

  function Data(fps: seq<Fingerprint>): (r: seq<Item>)
    ensures |r| == |fps|
  {
    seq(|fps|, i requires 0 <= i < |fps| => Chunk(Pointer(fps[i], 0, 1)))
  }

  lemma {:induction false} OneFileWhole(fps: seq<Fingerprint>)
    ensures Whole(OneFile(fps))
  {
    var s := OneFile(fps);
    var m := FileMeta("f", 0, 0);
    assert s[1..] == Data(fps) + [FileEnd];
    InTheFile(m, fps);
  }

  lemma {:induction false} InTheFile(m: FileMeta, fps: seq<Fingerprint>)
    ensures InFiles(true, Data(fps) + [FileEnd]) && OpenAfter(Some(m), Data(fps) + [FileEnd]) == None
    decreases |fps|
  {
    var s := Data(fps) + [FileEnd];
    if fps == [] {
      assert s[1..] == [];
    } else {
      assert s[1..] == Data(fps[1..]) + [FileEnd];
      InTheFile(FileMeta(m.name, m.chunknum + 1, m.filesize + 1), fps[1..]);
    }
  }

  /** Chunks that do not divide are taken up to the minimum, and then one more. */
  lemma {:induction false} TooLong(m: Method, s: Segment, fp: Fingerprint, k: nat, more: seq<Item>)
    requires m.ContentDefined? && Usable(m) && !Divides(m, fp) && m.min >= m.max
    requires s.chunkNum + k == m.min + 1 && k >= 1
    ensures Segments(m, s, Data(seq(k, _ => fp)) + more)[0].chunkNum == m.min + 1
    decreases k
  {
    var fps := seq(k, _ => fp);
    var stream := Data(fps) + more;
    assert stream[0] == Chunk(Pointer(fp, 0, 1));
    assert stream[1..] == Data(seq(k - 1, _ => fp)) + more;
    if k > 1 {
      TooLong(m, Grow(s, stream[0]), fp, k - 1, more);
    }
  }

  /** The failing stream for a maximum that is not above the minimum: a file of min + 1 chunks none of which
      divides. */
  lemma MinReachesMax(m: Method, fp: Fingerprint)
    requires m.ContentDefined? && Usable(m) && !Divides(m, fp) && m.min >= m.max
    ensures var stream := OneFile(seq(m.min + 1, _ => fp));
            Whole(stream) && Segments(m, Empty, stream)[0].chunkNum == m.min + 1 && !AtMost(m, stream, m.max)
  {
    var stream := OneFile(seq(m.min + 1, _ => fp));
    OneFileWhole(seq(m.min + 1, _ => fp));
    assert stream[1..] == Data(seq(m.min + 1, _ => fp)) + [FileEnd];
    TooLong(m, Grow(Empty, stream[0]), fp, m.min + 1, [FileEnd]);
    assert Segments(m, Empty, stream) == Segments(m, Grow(Empty, stream[0]), stream[1..]);
  }

  /** The failing stream for a maximum of 1: a chunk that divides, then one that does not. */
  lemma MaxIsOne(m: Method, d: Fingerprint, fp: Fingerprint)
    requires m.ContentDefined? && Usable(m) && Divides(m, d) && !Divides(m, fp) && m.min == 0 && m.max == 1
    ensures var stream := OneFile([d, fp]);
            Whole(stream) &&
            |Segments(m, Empty, stream)| >= 2 && Segments(m, Empty, stream)[1].chunkNum == 2 &&
            !AtMost(m, stream, m.max)
  {
    var stream := OneFile([d, fp]);
    OneFileWhole([d, fp]);
    var s := Grow(Empty, stream[0]);
    var r := stream[1..];
    assert r[0] == Chunk(Pointer(d, 0, 1)) && r[1..][0] == Chunk(Pointer(fp, 0, 1));
    assert Segments(m, Empty, stream) == Segments(m, s, r);
    assert Segments(m, s, r) == [s] + Segments(m, Grow(Empty, r[0]), r[1..]);
    var t := Grow(Empty, r[0]);
    assert Segments(m, t, r[1..]) == [Grow(t, r[1..][0])] + Segments(m, Empty, r[1..][1..]);
  }

  /** Content-defined segmenting keeps index_segment_max on every stream exactly when it is at least 2 and
      above index_segment_min, provided that some fingerprint divides and some does not. */
  lemma MaximumKept(m: Method, d: Fingerprint, fp: Fingerprint)
    requires m.ContentDefined? && Usable(m) && Divides(m, d) && !Divides(m, fp)
    ensures (forall stream :: Whole(stream) ==> AtMost(m, stream, m.max)) <==> m.min < m.max && m.max >= 2
  {
    if m.min < m.max && m.max >= 2 {
      forall stream | Whole(stream) ensures AtMost(m, stream, m.max) {
        SegmentsBounded(m, Empty, stream, m.max);
      }
    } else if m.min >= m.max {
      MinReachesMax(m, fp);
    } else {
      MaxIsOne(m, d, fp);
    }
  }

  /** Whatever the settings, no segment has more chunks than this; fixed segments have exactly their size. */
  lemma AlwaysBounded(m: Method, stream: seq<Item>)
    requires Usable(m)
    ensures m.ContentDefined? ==> AtMost(m, stream, Max(m.max, Max(m.min + 1, 2)))
    ensures m.Fixed? && m.size >= 1 ==> AtMost(m, stream, m.size)
  {
    if m.ContentDefined? {
      SegmentsBounded(m, Empty, stream, Max(m.max, Max(m.min + 1, 2)));
    } else if m.Fixed? && m.size >= 1 {
      SegmentsBounded(m, Empty, stream, m.size);
    }
  }

  // ----- the segmenters ------------------------------------------------------------------

  class Segmenter {
    const m: Method
    /** The static variable tmp; NULL and a new segment are the same to the caller. */
    var tmp: Segment

    constructor (how: Method)
      ensures m == how && tmp == Empty
    {
      m, tmp := how, Empty;
    }

    method Append(c: Item)
      modifies this
      ensures tmp == Grow(old(tmp), c)
    {
      tmp := Segment(tmp.items + [c], tmp.chunkNum + if c.Chunk? then 1 else 0);
    }

    /** segment_fixed: a segment ends with its size-th chunk. */
    method SegmentFixed(c: Item) returns (ret: Option<Segment>)
      requires m.Fixed?
      modifies this
      ensures Took(m, old(tmp), c, ret, tmp)
    {
      Append(c);
      if !c.Chunk? || tmp.chunkNum != m.size {
        return None;
      }
      ret := Some(tmp);
      tmp := Empty;
    }

    /** segment_file_defined: a segment ends with its file. */
    method SegmentFileDefined(c: Item) returns (ret: Option<Segment>)
      requires m.FileDefined?
      modifies this
      ensures Took(m, old(tmp), c, ret, tmp)
    {
      Append(c);
      if !c.FileEnd? {
        return None;
      }
      ret := Some(tmp);
      tmp := Empty;
    }

    /** segment_content_defined: a segment ends before a chunk that divides, once it is long enough,
        or when it is full. */
    method SegmentContentDefined(c: Item) returns (ret: Option<Segment>)
      requires m.ContentDefined? && Usable(m)
      modifies this
      ensures Took(m, old(tmp), c, ret, tmp)
    {
      if !c.Chunk? {
        Append(c);
        return None;
      }
      if tmp.chunkNum < m.min {
        Append(c);
        return None;
      }
      if Divides(m, c.p.fp) {
        ret := Some(tmp);
        tmp := Empty;
        Append(c);
        return;
      }
      Append(c);
      if tmp.chunkNum >= m.max {
        ret := Some(tmp);
        tmp := Empty;
        return;
      }
      ret := None;
    }

    method Take(c: Item) returns (ret: Option<Segment>)
      requires Usable(m)
      modifies this
      ensures Took(m, old(tmp), c, ret, tmp)
    {
      match m
      case Fixed(_) => ret := SegmentFixed(c);
      case FileDefined => ret := SegmentFileDefined(c);
      case ContentDefined(_, _, _, _) => ret := SegmentContentDefined(c);
    }
  }

  /** What is handed over, and what is kept, when an item arrives. */
  ghost predicate Took(m: Method, s: Segment, c: Item, ret: Option<Segment>, after: Segment)
    requires Usable(m)
  {
    if EndsBefore(m, s, c) then ret == Some(s) && after == Grow(Empty, c)
    else if EndsWith(m, s, c) then ret == Some(Grow(s, c)) && after == Empty
    else ret == None && after == Grow(s, c)
  }

  /** The loop of dedup_thread: every segment handed over, and the last one when the stream ends. */
  method SegmentStream(m: Method, stream: seq<Item>) returns (segments: seq<Segment>)
    requires Usable(m)
    ensures segments == Segments(m, Empty, stream)
  {
    hide EndsBefore, EndsWith;
    var s := new Segmenter(m);
    segments := [];
    for i := 0 to |stream|
      invariant fresh(s) && s.m == m
      invariant segments + Segments(m, s.tmp, stream[i..]) == Segments(m, Empty, stream)
    {
      ghost var before, rest, done := s.tmp, stream[i..], segments;
      assert rest[0] == stream[i] && rest[1..] == stream[i + 1..];
      var ret := s.Take(stream[i]);
      if ret.Some? {
        segments := segments + [ret.value];
        ghost var q := Segments(m, s.tmp, stream[i + 1..]);
        assert done + ([ret.value] + q) == segments + q;
      }
    }
    segments := segments + [s.tmp];
  }

  /** Whatever the segmenter, the recipe of a stream of files reads back as that stream. */
  method BackupAndRead(m: Method, bvNum: nat, stream: seq<Item>) returns (out: seq<Item>)
    requires Usable(m) && Whole(stream)
    ensures out == stream
  {
    var segments := SegmentStream(m, stream);
    SegmentsFlatten(m, Empty, stream);
    assert Empty.items + stream == stream;
    out := RoundTrip(bvNum, ItemsOf(segments));
  }
}
