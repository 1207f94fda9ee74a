/**
 The recipe of a backup: src/recipe/recipestore.c, the writing loop of src/filter_phase.c and the
 reading loop of src/do_restore.c.  The .recipe file is a sequence of records of RECORD_SIZE bytes.
 */
module Recipe {
  import opened Common

  datatype Pointer = Pointer(fp: Fingerprint, id: int, size: int)

  /** What the filter thread takes from a segment: file boundaries and chunks. */
  datatype Item = FileStart(name: string) | FileEnd | Chunk(p: Pointer)

  datatype FileMeta = FileMeta(name: string, chunknum: nat, filesize: int)

  const CHUNK_SEGMENT_START := 4
  const CHUNK_SEGMENT_END := 8
  /** sizeof(fingerprint) + sizeof(containerid) + sizeof(int32_t) */
  const RECORD_SIZE := 32

  // ----- segment ids ---------------------------------------------------------------------

  const TWO_TO_16 := 0x1_0000
  const TWO_TO_32 := 0x1_0000_0000
  const TWO_TO_48 := 0x1_0000_0000_0000

  const TWO_TO_63 := 0x8000_0000_0000_0000
  const TWO_TO_64 := 0x1_0000_0000_0000_0000
  const TWO_TO_15 := 0x8000

  /** What an int64_t keeps of a number. */
  function Int64(v: int): (r: int)
    ensures -TWO_TO_63 <= r < TWO_TO_63
  {
    (v + TWO_TO_63) % TWO_TO_64 - TWO_TO_63
  }

  /** make_segment_id, in 64 bits. */
  function MakeSegmentId(bid: int, off: int, size: int): int {
    Int64(bid * TWO_TO_48 + off * TWO_TO_16 + size)
  }

  /** id & 0xffff */
  function IdToSize(id: int): int {
    id % TWO_TO_16
  }

  /** (id >> 16) & 0xffffffff, the shift keeping the sign */
  function IdToOff(id: int): int {
    (id / TWO_TO_16) % TWO_TO_32
  }

  /** id >> 48, keeping the sign */
  function IdToBnum(id: int): int {
    id / TWO_TO_48
  }

  /** The wrapped id differs from the plain sum by a multiple of 2^64, and by none of it when the sum fits. */
  lemma Wraps(v: int) returns (k: int)
    ensures Int64(v) == v + k * TWO_TO_64
    ensures 0 <= v < TWO_TO_63 ==> k == 0
  {
    k := -((v + TWO_TO_63) / TWO_TO_64);
  }

  /** An id gives back its three parts exactly when each fits its field, the backup number its field
      less the sign bit; nothing checks this. */
  lemma SegmentIdDecodes(bid: nat, off: nat, size: nat)
    ensures var id := MakeSegmentId(bid, off, size);
            (IdToBnum(id) == bid && IdToOff(id) == off && IdToSize(id) == size) <==>
            (bid < TWO_TO_15 && off < TWO_TO_32 && size < TWO_TO_16)
  {
    hide Int64;
    var v := bid * TWO_TO_48 + off * TWO_TO_16 + size;
    var id := Int64(v);
    var k := Wraps(v);
    assert id == (k * TWO_TO_48 + bid * TWO_TO_32 + off) * TWO_TO_16 + size;
    assert id % TWO_TO_16 == size % TWO_TO_16;
    if size < TWO_TO_16 {
      assert id / TWO_TO_16 == (k * TWO_TO_16 + bid) * TWO_TO_32 + off;
      if off < TWO_TO_32 {
        assert id == (k * TWO_TO_16 + bid) * TWO_TO_48 + (off * TWO_TO_16 + size);
        assert id / TWO_TO_48 == k * TWO_TO_16 + bid;
        assert bid < TWO_TO_15 ==> v < TWO_TO_63;
      }
    }
  }

  /** The 32769th backup: its first id is negative, decodes to another backup, and sorts before every id of the
      first. */
  lemma BackupNumberOverflows()
    ensures var id := MakeSegmentId(TWO_TO_15, 0, 0);
            id < 0 && IdToBnum(id) == -TWO_TO_15 && id < MakeSegmentId(0, 0, 0)
  {
    assert Int64(TWO_TO_15 * TWO_TO_48) == -TWO_TO_63;
  }

  /** A segment of 65536 chunks, as file-defined segmenting can make it: its size reads as 0. */
  lemma SegmentSizeOverflows(bid: nat, off: nat)
    requires bid < TWO_TO_15 && off < TWO_TO_32 - 1
    ensures var id := MakeSegmentId(bid, off, TWO_TO_16);
            IdToSize(id) == 0 && IdToOff(id) == off + 1
  {
    SegmentIdDecodes(bid, off + 1, 0);
    assert MakeSegmentId(bid, off, TWO_TO_16) == MakeSegmentId(bid, off + 1, 0);
  }

  /** While the parts fit, ids grow with the offset within a backup and with the backup. */
  lemma SegmentIdsGrow(b1: nat, o1: nat, s1: nat, b2: nat, o2: nat, s2: nat)
    requires b1 < TWO_TO_15 && o1 < TWO_TO_32 && s1 < TWO_TO_16
    requires b2 < TWO_TO_15 && o2 < TWO_TO_32 && s2 < TWO_TO_16
    requires b1 < b2 || (b1 == b2 && o1 < o2)
    ensures MakeSegmentId(b1, o1, s1) < MakeSegmentId(b2, o2, s2)
  {
    hide Int64;
    var k1 := Wraps(b1 * TWO_TO_48 + o1 * TWO_TO_16 + s1);
    var k2 := Wraps(b2 * TWO_TO_48 + o2 * TWO_TO_16 + s2);
  }

  // ----- the layout of the file ----------------------------------------------------------

  function StartFlag(n: nat): Pointer {
    Pointer(0, 0 - CHUNK_SEGMENT_START, n)
  }

  function EndFlag(): Pointer {
    Pointer(0, 0 - CHUNK_SEGMENT_END, 0)
  }

  predicate IsFlag(p: Pointer) {
    p.id == 0 - CHUNK_SEGMENT_START || p.id == 0 - CHUNK_SEGMENT_END
  }

  /** One segment on disk. */
  function Bracketed(ps: seq<Pointer>): seq<Pointer> {
    [StartFlag(|ps|)] + ps + [EndFlag()]
  }

  function Layout(segments: seq<seq<Pointer>>): seq<Pointer> {
    if segments == [] then [] else Layout(segments[..|segments| - 1]) + Bracketed(segments[|segments| - 1])
  }

  /** The chunk pointers among the items. */
  function Pointers(items: seq<Item>): seq<Pointer> {
    if items == [] then [] else (if items[0].Chunk? then [items[0].p] else []) + Pointers(items[1..])
  }

  /** The file the filter thread is inside of, after an item. */
  function OpenStep(r: Option<FileMeta>, c: Item): Option<FileMeta> {
    match c
    case FileStart(name) => Some(FileMeta(name, 0, 0))
    case Chunk(p) => if r.None? then r else Some(FileMeta(r.value.name, r.value.chunknum + 1,
      r.value.filesize + p.size))
    case FileEnd => None
  }

  /** The file recipes the items complete, the first file being open already if r says so. */
  function Metas(r: Option<FileMeta>, items: seq<Item>): seq<FileMeta>
    decreases |items|
  {
    if items == [] then []
    else (if items[0].FileEnd? && r.Some? then [r.value] else []) + Metas(OpenStep(r, items[0]), items[1..])
  }

  /** The file left open after the items. */
  function OpenAfter(r: Option<FileMeta>, items: seq<Item>): Option<FileMeta>
    decreases |items|
  {
    if items == [] then r else OpenAfter(OpenStep(r, items[0]), items[1..])
  }

  /** Files open and close in turn, and chunks lie in files; a container id is never negative. */
  ghost predicate InFiles(open: bool, items: seq<Item>)
    decreases |items|
  {
    items == [] ||
    ((items[0].FileStart? <==> !open) && (items[0].Chunk? ==> items[0].p.id >= 0) &&
     InFiles(!items[0].FileEnd?, items[1..]))
  }

  lemma {:induction false} PointersConcat(a: seq<Item>, b: seq<Item>)
    ensures Pointers(a + b) == Pointers(a) + Pointers(b)
  {
    if a == [] {
      assert a + b == b;
    } else {
      assert (a + b)[0] == a[0] && (a + b)[1..] == a[1..] + b;
      PointersConcat(a[1..], b);
      var first := if a[0].Chunk? then [a[0].p] else [];
      assert first + (Pointers(a[1..]) + Pointers(b)) == (first + Pointers(a[1..])) + Pointers(b);
    }
  }

  lemma {:induction false} MetasConcat(r: Option<FileMeta>, a: seq<Item>, b: seq<Item>)
    ensures Metas(r, a + b) == Metas(r, a) + Metas(OpenAfter(r, a), b)
    ensures OpenAfter(r, a + b) == OpenAfter(OpenAfter(r, a), b)
    decreases |a|
  {
    hide OpenStep;
    if a == [] {
      assert a + b == b && Metas(r, a) == [] && OpenAfter(r, a) == r;
    } else {
      assert (a + b)[0] == a[0] && (a + b)[1..] == a[1..] + b;
      MetasConcat(OpenStep(r, a[0]), a[1..], b);
      var first := if a[0].FileEnd? && r.Some? then [r.value] else [];
      var m, n := Metas(OpenStep(r, a[0]), a[1..]), Metas(OpenAfter(r, a), b);
      assert first + (m + n) == (first + m) + n;
    }
  }

  /** The records that are not segment flags. */
  function Strip(file: seq<Pointer>): seq<Pointer> {
    if file == [] then [] else (if IsFlag(file[0]) then [] else [file[0]]) + Strip(file[1..])
  }

  lemma {:induction false} StripConcat(a: seq<Pointer>, b: seq<Pointer>)
    ensures Strip(a + b) == Strip(a) + Strip(b)
  {
    if a == [] {
      assert a + b == b;
    } else {
      assert (a + b)[1..] == a[1..] + b;
      StripConcat(a[1..], b);
    }
  }

  lemma {:induction false} StripPlain(a: seq<Pointer>)
    requires forall i :: 0 <= i < |a| ==> a[i].id >= 0
    ensures Strip(a) == a
  {
    if a != [] {
      StripPlain(a[1..]);
    }
  }

  lemma {:induction false} PointersPlain(open: bool, items: seq<Item>)
    requires InFiles(open, items)
    ensures forall i :: 0 <= i < |Pointers(items)| ==> Pointers(items)[i].id >= 0
    decreases |items|
  {
    if items != [] {
      PointersPlain(!items[0].FileEnd?, items[1..]);
    }
  }

  // ----- writing -------------------------------------------------------------------------

  /** A backup being written: the .recipe file, the .meta entries and the segment buffer. */
  class BackupVersion {
    const bvNum: nat
    var recipe: seq<Pointer>
    var metas: seq<FileMeta>
    var numberOfChunks: nat
    var segmentbuf: array<Pointer>
    var segmentbufoff: nat
    /** The file the filter thread is inside of. */
    var r: Option<FileMeta>

    constructor (n: nat)
      ensures bvNum == n && recipe == [] && metas == [] && numberOfChunks == 0 && r == None
      ensures fresh(segmentbuf)
    {
      bvNum, recipe, metas, numberOfChunks, r := n, [], [], 0, None;
      segmentbuf := new Pointer[0];
      segmentbufoff := 0;
    }

    ghost predicate Room(n: nat)
      reads this
    {
      segmentbufoff + n <= segmentbuf.Length
    }

    ghost function Buffered(): seq<Pointer>
      requires Room(0)
      reads this, segmentbuf
    {
      segmentbuf[..segmentbufoff]
    }

    /** append_segment_flag, at the start: a buffer for the two flags and the chunks between. */
    method AppendSegmentStart(segmentSize: nat) returns (sid: int)
      modifies `segmentbuf, `segmentbufoff
      ensures fresh(segmentbuf) && Room(segmentSize + 1) && segmentbufoff == 1 && segmentbuf.Length == segmentSize + 2
      ensures Buffered() == [StartFlag(segmentSize)]
      ensures sid == MakeSegmentId(bvNum, RECORD_SIZE * |recipe|, segmentSize)
    {
      var off := RECORD_SIZE * |recipe|;
      segmentbuf := new Pointer[segmentSize + 2](i => EndFlag());
      segmentbuf[0] := StartFlag(segmentSize);
      segmentbufoff := 1;
      sid := MakeSegmentId(bvNum, off, segmentSize);
    }

    /** append_segment_flag, at the end: the buffer is full to the last record, and written out. */
    method AppendSegmentEnd()
      requires Room(1) && segmentbufoff + 1 == segmentbuf.Length
      modifies segmentbuf, `segmentbufoff, `recipe
      ensures recipe == old(recipe) + old(Buffered()) + [EndFlag()]
    {
      segmentbuf[segmentbufoff] := EndFlag();
      segmentbufoff := segmentbufoff + 1;
      assert segmentbuf[..] == old(Buffered()) + [EndFlag()];
      recipe := recipe + segmentbuf[..];
    }

    /** append_n_chunk_pointers, for the one pointer the filter thread passes. */
    method AppendChunkPointer(p: Pointer)
      requires Room(1)
      modifies segmentbuf, `segmentbufoff, `numberOfChunks
      ensures Room(0) && segmentbufoff == old(segmentbufoff) + 1
      ensures Buffered() == old(Buffered()) + [p] && numberOfChunks == old(numberOfChunks) + 1
    {
      segmentbuf[segmentbufoff] := p;
      segmentbufoff := segmentbufoff + 1;
      numberOfChunks := numberOfChunks + 1;
    }

    /** What is in the buffer and the counters, and what the items still to come will add. */
    ghost predicate Ahead(
      rest: seq<Item>, records: seq<Pointer>, files: seq<FileMeta>, last: Option<FileMeta>, total: nat)
      reads this, segmentbuf
    {
      InFiles(r.Some?, rest) && segmentbufoff + |Pointers(rest)| + 1 == segmentbuf.Length &&
      Buffered() + Pointers(rest) == records && metas + Metas(r, rest) == files && OpenAfter(r, rest) == last &&
      numberOfChunks + |Pointers(rest)| == total
    }

    /** One item of the loop that writes the recipe; the source asserts that a file starts when none is open. */
    method WriteItem(c: Item, ghost rest: seq<Item>, ghost records: seq<Pointer>, ghost files: seq<FileMeta>,
                     ghost last: Option<FileMeta>, ghost total: nat)
      requires rest != [] && c == rest[0] && Ahead(rest, records, files, last, total)
      modifies segmentbuf, `segmentbufoff, `numberOfChunks, `metas, `r
      ensures Ahead(rest[1..], records, files, last, total)
    {
      if r == None {
        assert c.FileStart?;
        r := Some(FileMeta(c.name, 0, 0));
      } else if !c.FileEnd? {
        AppendChunkPointer(c.p);
        r := Some(FileMeta(r.value.name, r.value.chunknum + 1, r.value.filesize + c.p.size));
        assert old(Buffered()) + ([c.p] + Pointers(rest[1..])) == old(Buffered()) + [c.p] + Pointers(rest[1..]);
      } else {
        metas := metas + [r.value];
        r := None;
      }
    }

    /** What the filter thread writes for a segment. */
    method WriteSegment(items: seq<Item>) returns (sid: int)
      requires InFiles(r.Some?, items)
      modifies this
      ensures recipe == old(recipe) + Bracketed(Pointers(items))
      ensures metas == old(metas) + Metas(old(r), items) && r == OpenAfter(old(r), items)
      ensures numberOfChunks == old(numberOfChunks) + |Pointers(items)|
      ensures sid == MakeSegmentId(bvNum, RECORD_SIZE * |old(recipe)|, |Pointers(items)|)
    {
      hide InFiles, Metas, OpenAfter, Pointers;
      ghost var records := [StartFlag(|Pointers(items)|)] + Pointers(items);
      ghost var files, last, total := metas + Metas(r, items), OpenAfter(r, items), numberOfChunks + |Pointers(items)|;
      sid := AppendSegmentStart(|Pointers(items)|);
      assert items[0..] == items;
      for i := 0 to |items|
        invariant fresh(segmentbuf) && recipe == old(recipe) && Ahead(items[i..], records, files, last, total)
      {
        WriteItem(items[i], items[i..], records, files, last, total);
        assert items[i..][1..] == items[i + 1..];
      }
      NothingAhead();
      assert items[|items|..] == [];
      assert Buffered() + [] == Buffered() && metas + [] == metas;
      AppendSegmentEnd();
    }

    lemma NothingAhead()
      ensures Pointers([]) == [] && Metas(r, []) == [] && OpenAfter(r, []) == r
    {}

    /** A whole backup, segment by segment. */
    method WriteBackup(segments: seq<seq<Item>>) returns (ids: seq<int>)
      requires recipe == [] && metas == [] && numberOfChunks == 0 && r == None
      requires InFiles(false, Flatten(segments))
      modifies this
      ensures recipe == Layout(Lists(segments)) && metas == Metas(None, Flatten(segments))
      ensures numberOfChunks == |Pointers(Flatten(segments))| && r == OpenAfter(None, Flatten(segments))
      ensures |ids| == |segments| && forall j :: 0 <= j < |ids| ==> ids[j] == IdOf(bvNum, Lists(segments), j)
    {
      hide InFiles, Metas, OpenAfter, Pointers, Bracketed, MakeSegmentId;
      ids := [];
      NothingAhead();
      for i := 0 to |segments|
        invariant recipe == Layout(Lists(segments)[..i]) && metas == Metas(None, Flatten(segments[..i]))
        invariant numberOfChunks == |Pointers(Flatten(segments[..i]))| && r == OpenAfter(None, Flatten(segments[..i]))
        invariant |ids| == i && forall j :: 0 <= j < i ==> ids[j] == IdOf(bvNum, Lists(segments), j)
      {
        NextSegment(segments, i);
        var sid := WriteSegment(segments[i]);
        ids := ids + [sid];
      }
      assert segments[..|segments|] == segments && Lists(segments)[..|segments|] == Lists(segments);
    }
  }

  /** The segments' chunk pointers. */
  function Lists(segments: seq<seq<Item>>): (l: seq<seq<Pointer>>)
    ensures |l| == |segments|
  {
    seq(|segments|, i requires 0 <= i < |segments| => Pointers(segments[i]))
  }

  /** The stream the segments were cut from. */
  function Flatten(segments: seq<seq<Item>>): seq<Item> {
    if segments == [] then [] else Flatten(segments[..|segments| - 1]) + segments[|segments| - 1]
  }

  /** The id of segment j: where its layout begins, and how long it is. */
  function IdOf(bvNum: nat, lists: seq<seq<Pointer>>, j: nat): int
    requires j < |lists|
  {
    MakeSegmentId(bvNum, RECORD_SIZE * |Layout(lists[..j])|, |lists[j]|)
  }

  lemma {:induction false} InFilesSplit(r: Option<FileMeta>, a: seq<Item>, b: seq<Item>)
    requires InFiles(r.Some?, a + b)
    ensures InFiles(r.Some?, a) && InFiles(OpenAfter(r, a).Some?, b)
    decreases |a|
  {
    if a == [] {
      assert a + b == b;
    } else {
      assert (a + b)[1..] == a[1..] + b;
      InFilesSplit(OpenStep(r, a[0]), a[1..], b);
    }
  }

  lemma {:induction false} FlattenPrefix(segments: seq<seq<Item>>, i: nat) returns (rest: seq<Item>)
    requires i <= |segments|
    ensures Flatten(segments) == Flatten(segments[..i]) + rest
    decreases |segments|
  {
    if i == |segments| {
      rest := [];
      assert segments[..i] == segments;
    } else {
      var n := |segments| - 1;
      rest := FlattenPrefix(segments[..n], i);
      rest := rest + segments[n];
      assert segments[..n][..i] == segments[..i];
    }
  }

  /** What one more segment adds to each of the files. */
  lemma NextSegment(segments: seq<seq<Item>>, i: nat)
    requires i < |segments| && InFiles(false, Flatten(segments))
    ensures var (f, g, l, s) := (Flatten(segments[..i]), Flatten(segments[..i + 1]), Lists(segments), segments[i]);
            InFiles(OpenAfter(None, f).Some?, s) &&
            Layout(l[..i + 1]) == Layout(l[..i]) + Bracketed(Pointers(s)) &&
            Metas(None, g) == Metas(None, f) + Metas(OpenAfter(None, f), s) &&
            OpenAfter(None, g) == OpenAfter(OpenAfter(None, f), s) &&
            Pointers(g) == Pointers(f) + Pointers(s)
  {
    hide InFiles, Metas, OpenAfter, Pointers, Bracketed;
    var f, s := Flatten(segments[..i]), segments[i];
    assert segments[..i + 1][..i] == segments[..i] && Lists(segments)[..i + 1][..i] == Lists(segments)[..i];
    assert Flatten(segments[..i + 1]) == f + s;
    var rest := FlattenPrefix(segments, i + 1);
    InFilesSplit(None, f + s, rest);
    InFilesSplit(None, f, s);
    MetasConcat(None, f, s);
    PointersConcat(f, s);
  }

  // ----- reading back --------------------------------------------------------------------

  function ChunkItems(ps: seq<Pointer>): seq<Item> {
    seq(|ps|, i requires 0 <= i < |ps| => Chunk(ps[i]))
  }

  /** The stream that file recipes and pointers describe. */
  function Rebuild(metas: seq<FileMeta>, ps: seq<Pointer>): seq<Item> {
    if metas == [] || metas[0].chunknum > |ps| then []
    else
      var n := metas[0].chunknum;
      [FileStart(metas[0].name)] + ChunkItems(ps[..n]) + [FileEnd] + Rebuild(metas[1..], ps[n..])
  }

  /** A file of which q has been read already is rebuilt with q in front. */
  lemma {:induction false} RebuildOpen(m: FileMeta, q: seq<Pointer>, items: seq<Item>)
    requires |q| == m.chunknum && InFiles(true, items) && OpenAfter(Some(m), items) == None
    ensures Rebuild(Metas(Some(m), items), q + Pointers(items)) == [FileStart(m.name)] + ChunkItems(q) + items
    decreases |items|, 1
  {
    hide Rebuild, ChunkItems;
    if items[0].Chunk? {
      var p := items[0].p;
      var m' := FileMeta(m.name, m.chunknum + 1, m.filesize + p.size);
      RebuildOpen(m', q + [p], items[1..]);
      assert Metas(Some(m), items) == Metas(Some(m'), items[1..]);
      assert q + ([p] + Pointers(items[1..])) == (q + [p]) + Pointers(items[1..]);
      OneMoreChunk(m.name, q, items);
    } else {
      RebuildAll(items[1..]);
      assert Pointers(items) == Pointers(items[1..]);
      assert Metas(Some(m), items) == [m] + Metas(None, items[1..]);
      RebuildFile(m, q, Metas(None, items[1..]), Pointers(items[1..]));
      var open := [FileStart(m.name)] + ChunkItems(q);
      assert open + [FileEnd] + items[1..] == open + items;
    }
  }

  lemma OneMoreChunk(name: string, q: seq<Pointer>, items: seq<Item>)
    requires items != [] && items[0].Chunk?
    ensures [FileStart(name)] + ChunkItems(q + [items[0].p]) + items[1..] == [FileStart(name)] + ChunkItems(q) + items
  {
    assert ChunkItems(q + [items[0].p]) == ChunkItems(q) + [items[0]];
  }

  lemma RebuildFile(m: FileMeta, q: seq<Pointer>, metas: seq<FileMeta>, ps: seq<Pointer>)
    requires |q| == m.chunknum
    ensures Rebuild([m] + metas, q + ps) == [FileStart(m.name)] + ChunkItems(q) + [FileEnd] + Rebuild(metas, ps)
  {
    assert ([m] + metas)[1..] == metas && (q + ps)[..|q|] == q && (q + ps)[|q|..] == ps;
  }

  /** File recipes and pointers together give back the stream they were taken from. */
  lemma {:induction false} RebuildAll(items: seq<Item>)
    requires InFiles(false, items) && OpenAfter(None, items) == None
    ensures Rebuild(Metas(None, items), Pointers(items)) == items
    decreases |items|, 0
  {
    if items != [] {
      assert items[0].FileStart?;
      RebuildOpen(FileMeta(items[0].name, 0, 0), [], items[1..]);
      assert Metas(None, items) == Metas(Some(FileMeta(items[0].name, 0, 0)), items[1..]);
      assert [] + Pointers(items[1..]) == Pointers(items);
      assert [items[0]] + ChunkItems([]) + items[1..] == items;
    }
  }

  lemma {:induction false} StripLayout(segments: seq<seq<Item>>)
    requires InFiles(false, Flatten(segments))
    ensures Strip(Layout(Lists(segments))) == Pointers(Flatten(segments))
    decreases |segments|
  {
    if segments != [] {
      var n := |segments| - 1;
      assert segments[..n + 1] == segments && Lists(segments)[..n + 1] == Lists(segments);
      assert Lists(segments)[..n] == Lists(segments[..n]);
      NextSegment(segments, n);
      InFilesSplit(None, Flatten(segments[..n]), segments[n]);
      StripLayout(segments[..n]);
      var ps := Pointers(segments[n]);
      PointersPlain(OpenAfter(None, Flatten(segments[..n])).Some?, segments[n]);
      StripBracketed(ps);
      StripConcat(Layout(Lists(segments[..n])), Bracketed(ps));
    }
  }

  lemma StripBracketed(ps: seq<Pointer>)
    requires forall i :: 0 <= i < |ps| ==> ps[i].id >= 0
    ensures Strip(Bracketed(ps)) == ps
  {
    StripPlain(ps);
    StripConcat([StartFlag(|ps|)] + ps, [EndFlag()]);
    StripConcat([StartFlag(|ps|)], ps);
    assert [StartFlag(|ps|)][1..] == [] && [EndFlag()][1..] == [];
  }

  /** A backup being restored. */
  class RecipeReader {
    const recipe: seq<Pointer>
    const numberOfChunks: nat
    var pos: nat
    var readChunkNum: nat

    constructor (file: seq<Pointer>, n: nat)
      ensures recipe == file && numberOfChunks == n && pos == 0 && readChunkNum == 0
    {
      recipe, numberOfChunks, pos, readChunkNum := file, n, 0, 0;
    }

    ghost predicate Valid()
      reads this
    {
      pos <= |recipe| && readChunkNum + |Strip(recipe[pos..])| == numberOfChunks
    }

    /** read_next_n_chunk_pointers for one pointer; None only at the end of the stream. */
    method ReadNextChunkPointer() returns (cp: Option<Pointer>)
      requires Valid()
      modifies this
      ensures Valid()
      ensures cp == None <==> old(Strip(recipe[pos..])) == []
      ensures cp != None ==> [cp.value] + Strip(recipe[pos..]) == old(Strip(recipe[pos..]))
    {
      if readChunkNum == numberOfChunks {
        return None;
      }
      ghost var left := Strip(recipe[pos..]);
      while IsFlag(recipe[pos])
        invariant pos < |recipe| && Strip(recipe[pos..]) == left
        invariant readChunkNum == old(readChunkNum)
        decreases |recipe| - pos
      {
        assert recipe[pos..][1..] == recipe[pos + 1..];
        pos := pos + 1;
      }
      assert recipe[pos..][1..] == recipe[pos + 1..];
      cp := Some(recipe[pos]);
      pos := pos + 1;
      readChunkNum := readChunkNum + 1;
    }

    /** The chunks of one file. */
    method ReadChunks(n: nat) returns (items: seq<Item>)
      requires Valid() && n <= |Strip(recipe[pos..])|
      modifies this
      ensures Valid() && Strip(recipe[pos..]) == old(Strip(recipe[pos..]))[n..]
      ensures items == ChunkItems(old(Strip(recipe[pos..]))[..n])
    {
      items := [];
      ghost var ps := Strip(recipe[pos..]);
      for j := 0 to n
        invariant Valid() && Strip(recipe[pos..]) == ps[j..] && items == ChunkItems(ps[..j])
      {
        var cp := ReadNextChunkPointer();
        assert ps[j..][0] == ps[j] && ps[j..][1..] == ps[j + 1..] && ps[..j + 1] == ps[..j] + [ps[j]];
        items := items + [Chunk(cp.value)];
      }
    }

    /** read_recipe_thread: the stream, file by file. */
    method ReadRecipe(metas: seq<FileMeta>) returns (out: seq<Item>)
      requires Valid() && pos == 0 && Enough(metas, Strip(recipe))
      modifies this
      ensures out == Rebuild(metas, Strip(recipe))
    {
      hide Rebuild, Enough, Strip, ChunkItems;
      out := [];
      ghost var all := Strip(recipe);
      assert recipe[0..] == recipe;
      for i := 0 to |metas|
        invariant Valid() && Enough(metas[i..], Strip(recipe[pos..]))
        invariant out + Rebuild(metas[i..], Strip(recipe[pos..])) == Rebuild(metas, all)
      {
        ghost var ps, rest, out0 := Strip(recipe[pos..]), metas[i..], out;
        RebuildOne(rest, ps);
        assert rest[0] == metas[i] && rest[1..] == metas[i + 1..];
        out := out + [FileStart(metas[i].name)];
        var items := ReadChunks(metas[i].chunknum);
        out := out + items + [FileEnd];
        assert out0 + ([FileStart(rest[0].name)] + items + [FileEnd]) == out;
      }
      RebuildNone(Strip(recipe[pos..]));
      assert metas[|metas|..] == [] && out + [] == out;
    }
  }

  lemma RebuildNone(ps: seq<Pointer>)
    ensures Rebuild([], ps) == []
  {}

  lemma RebuildOne(metas: seq<FileMeta>, ps: seq<Pointer>)
    requires metas != [] && Enough(metas, ps)
    ensures var n := metas[0].chunknum;
            n <= |ps| && Enough(metas[1..], ps[n..]) &&
            Rebuild(metas, ps)
            == ([FileStart(metas[0].name)] + ChunkItems(ps[..n]) + [FileEnd]) + Rebuild(metas[1..], ps[n..])
  {}

  ghost predicate Enough(metas: seq<FileMeta>, ps: seq<Pointer>) {
    metas == [] || (metas[0].chunknum <= |ps| && Enough(metas[1..], ps[metas[0].chunknum..]))
  }

  function TotalSize(ps: seq<Pointer>): int {
    if ps == [] then 0 else TotalSize(ps[..|ps| - 1]) + ps[|ps| - 1].size
  }

  /** Every file recipe counts the pointers of its file and sums up their sizes. */
  ghost predicate Sized(metas: seq<FileMeta>, ps: seq<Pointer>) {
    metas == [] ||
    (metas[0].chunknum <= |ps| && metas[0].filesize == TotalSize(ps[..metas[0].chunknum]) &&
     Sized(metas[1..], ps[metas[0].chunknum..]))
  }

  /** The file recipes of a stream, from the middle of a file of which q has been written. */
  lemma {:induction false} SizedPointers(r: Option<FileMeta>, items: seq<Item>, q: seq<Pointer>)
    requires InFiles(r.Some?, items) && OpenAfter(r, items) == None
    requires if r.Some? then r.value.chunknum == |q| && r.value.filesize == TotalSize(q) else q == []
    ensures Sized(Metas(r, items), q + Pointers(items))
    decreases |items|
  {
    hide Sized, TotalSize;
    SizedCons([], q + Pointers(items));
    if items != [] {
      var c, ps, rest := items[0], q + Pointers(items), Pointers(items[1..]);
      if c.FileEnd? {
        SizedPointers(None, items[1..], []);
        assert Metas(r, items)[1..] == Metas(None, items[1..]) && ps[|q|..] == [] + rest && ps[..|q|] == q;
        SizedCons(Metas(r, items), ps);
      } else if c.FileStart? {
        TotalStep([], Pointer(0, 0, 0));
        SizedPointers(OpenStep(r, c), items[1..], []);
        assert Metas(r, items) == Metas(OpenStep(r, c), items[1..]) && ps == [] + rest;
      } else {
        TotalStep(q, c.p);
        SizedPointers(OpenStep(r, c), items[1..], q + [c.p]);
        assert Metas(r, items) == Metas(OpenStep(r, c), items[1..]) && ps == q + [c.p] + rest;
      }
    }
  }

  lemma TotalStep(q: seq<Pointer>, p: Pointer)
    ensures TotalSize([]) == 0 && TotalSize(q + [p]) == TotalSize(q) + p.size
  {
    assert (q + [p])[..|q|] == q;
  }

  lemma SizedCons(metas: seq<FileMeta>, ps: seq<Pointer>)
    ensures Sized([], ps)
    ensures (metas != [] && metas[0].chunknum <= |ps| && metas[0].filesize == TotalSize(ps[..metas[0].chunknum]) &&
             Sized(metas[1..], ps[metas[0].chunknum..])) ==> Sized(metas, ps)
  {}

  lemma {:induction false} SizedIsEnough(metas: seq<FileMeta>, ps: seq<Pointer>)
    requires Sized(metas, ps)
    ensures Enough(metas, ps)
    decreases |metas|
  {
    if metas != [] {
      SizedIsEnough(metas[1..], ps[metas[0].chunknum..]);
    }
  }

  /** A file recipe has as many chunks as the file, and its size is the sum of theirs. */
  lemma FileSizes(items: seq<Item>)
    requires InFiles(false, items) && OpenAfter(None, items) == None
    ensures Sized(Metas(None, items), Pointers(items)) && Enough(Metas(None, items), Pointers(items))
  {
    hide Sized, Enough;
    SizedPointers(None, items, []);
    assert [] + Pointers(items) == Pointers(items);
    SizedIsEnough(Metas(None, items), Pointers(items));
  }

  /** Writing a stream in any segments and reading the recipe gives the stream back. */
  method RoundTrip(bvNum: nat, segments: seq<seq<Item>>) returns (out: seq<Item>)
    requires InFiles(false, Flatten(segments)) && OpenAfter(None, Flatten(segments)) == None
    ensures out == Flatten(segments)
  {
    hide InFiles, OpenAfter, Metas, Pointers, Strip, Rebuild, Enough, Sized, Layout;
    var b := new BackupVersion(bvNum);
    var ids := b.WriteBackup(segments);
    StripLayout(segments);
    var all := Flatten(segments);
    RebuildAll(all);
    FileSizes(all);
    var reader := new RecipeReader(b.recipe, b.numberOfChunks);
    assert reader.recipe[0..] == reader.recipe;
    out := reader.ReadRecipe(b.metas);
  }
}
