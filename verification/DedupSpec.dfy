/**
 The deduplication stage as a function of its state: what one lookup, one filter pass and
 one index-buffer update do to the physical-locality index (src/index/index.c,
 src/filter_phase.c, src/index/fingerprint_cache.c, src/storage/containerstore.c).
 The methods of DedupEngine are proved against these functions.
 */
module DedupSpec {
  import opened Common
  import Lru

  datatype Chunk = Chunk(
    fp: Fingerprint, size: nat, id: ContainerId,
    duplicate: bool, sparse: bool, outOfOrder: bool, inCache: bool, denied: bool)

  function FreshChunk(fp: Fingerprint, size: nat): Chunk {
    Chunk(fp, size, TEMPORARY_ID, false, false, false, false, false)
  }

  /** A container, seen through its metadata: the fingerprints in insertion order. */
  datatype Container = Container(id: ContainerId, fps: seq<Fingerprint>, dataSize: nat)

  function Overflow(c: Container, size: nat): bool {
    c.dataSize + size > CONTAINER_SIZE - CONTAINER_META_SIZE
    || (|c.fps| + 1) * META_ENTRY + META_HEAD > CONTAINER_META_SIZE
  }

  datatype Config = Config(sampleRatio: nat, cacheSize: int, waitThreshold: int)

  /** The index buffer: one queue of ids per fingerprint in flight. */
  type Buffered = map<Fingerprint, seq<ContainerId>>

  datatype Store = Store(
    written: map<ContainerId, Container>,   // pushed to the append queue, or on disk
    open: Option<Container>,                // the storage buffer
    count: nat,                             // container_count
    kv: map<Fingerprint, ContainerId>,      // the key-value store, value length 1
    cache: seq<Container>,                  // the fingerprint cache, most recent first
    buffered: Buffered,
    chunkNum: int)

  // ----- fingerprint cache ---------------------------------------------------------------

  /** Position of the first cached container that holds fp, or |cache|. */
  function CacheFind(cache: seq<Container>, fp: Fingerprint): (i: nat)
    ensures i <= |cache|
    ensures i < |cache| ==> fp in cache[i].fps
    ensures forall j :: 0 <= j < i ==> fp !in cache[j].fps
  {
    if cache == [] then 0
    else if fp in cache[0].fps then 0
    else 1 + CacheFind(cache[1..], fp)
  }

  // ----- lookup --------------------------------------------------------------------------

  /** Steps one and two of a lookup: the storage buffer, then the in-flight copies. */
  function LookupBuffers(st: Store, c: Chunk): Chunk
    requires c.fp in st.buffered ==> st.buffered[c.fp] != []
  {
    var c1 := if st.open.Some? && c.fp in st.open.value.fps
              then c.(id := st.open.value.id, duplicate := true, denied := true) else c;
    if c.fp in st.buffered && !c1.duplicate
    then c1.(id := st.buffered[c.fp][0], duplicate := true) else c1
  }

  /** Steps three and four: the fingerprint cache, then the key-value store and a prefetch. */
  function LookupIndex(cfg: Config, st: Store, c: Chunk): (Store, Chunk)
    requires c.fp in st.kv ==> st.kv[c.fp] in st.written
  {
    var i := CacheFind(st.cache, c.fp);
    if i < |st.cache| then
      (st.(cache := Lru.MoveToFront(st.cache, i)), c.(id := st.cache[i].id, duplicate := true))
    else if c.fp in st.kv then
      var cache := Lru.Insert(st.cache, cfg.cacheSize, st.written[st.kv[c.fp]]);
      var k := CacheFind(cache, c.fp);
      if k < |cache| then
        (st.(cache := Lru.MoveToFront(cache, k)), c.(id := cache[k].id, duplicate := true))
      else (st.(cache := cache), c)
    else (st, c)
  }

  function PushElem(buffered: Buffered, c: Chunk): Buffered {
    buffered[c.fp := (if c.fp in buffered then buffered[c.fp] else []) + [c.id]]
  }

  /** What every step needs of the tables it reads. */
  ghost predicate Readable(st: Store) {
    (forall fp :: fp in st.buffered ==> st.buffered[fp] != [])
    && (forall fp :: fp in st.kv ==> st.kv[fp] in st.written)
  }

  function LookupChunk(cfg: Config, st: Store, c: Chunk): (r: (Store, Chunk))
    requires Readable(st)
    ensures Readable(r.0)
  {
    var c2 := LookupBuffers(st, c);
    var (st3, c3) := if c2.duplicate then (st, c2) else LookupIndex(cfg, st, c2);
    (st3.(buffered := PushElem(st3.buffered, c3), chunkNum := st3.chunkNum + 1), c3)
  }

  /** index_lookup_base on a whole segment. */
  function LookupSegment(cfg: Config, st: Store, cs: seq<Chunk>): (r: (Store, seq<Chunk>))
    requires Readable(st)
    ensures Readable(r.0)
    ensures |r.1| == |cs|
  {
    if cs == [] then (st, [])
    else
      var n := |cs| - 1;
      var (st1, done) := LookupSegment(cfg, st, cs[..n]);
      var (st2, c) := LookupChunk(cfg, st1, cs[n]);
      (st2, done + [c])
  }

  // ----- filter --------------------------------------------------------------------------

  /** index_check_buffer on one chunk. */
  function CheckChunk(buffered: Buffered, c: Chunk): Chunk
    requires c.fp in buffered && buffered[c.fp] != []
  {
    if (c.duplicate && c.id == TEMPORARY_ID) || c.outOfOrder || c.sparse then
      var be := buffered[c.fp][0];
      if be > c.id then c.(denied := c.denied || c.id != TEMPORARY_ID, id := be) else c
    else c
  }

  function CheckSegment(buffered: Buffered, cs: seq<Chunk>): (r: seq<Chunk>)
    requires forall c :: c in cs ==> c.fp in buffered && buffered[c.fp] != []
    ensures |r| == |cs|
    ensures forall i :: 0 <= i < |cs| ==> r[i] == CheckChunk(buffered, cs[i])
  {
    seq(|cs|, i requires 0 <= i < |cs| => CheckChunk(buffered, cs[i]))
  }

  /** What the cache-aware filter and the cfl switch know when one chunk is filtered: the containers the
      simulated restore cache holds, and whether out-of-order chunks are rewritten. */
  datatype Hint = Hint(cached: set<ContainerId>, enableRewrite: bool)

  /** index_sampling_uniform over the chunks of a container. */
  function Sampled(cfg: Config, c: Container): set<Fingerprint> {
    set i: nat | i < |c.fps| && (cfg.sampleRatio <= 1 || i % cfg.sampleRatio == 0) :: c.fps[i]
  }

  /** Close the open container: index its sampled fingerprints, hand it to the append queue. */
  function CloseOpen(cfg: Config, st: Store): Store
    requires st.open.Some?
  {
    var o := st.open.value;
    st.(written := st.written[o.id := o], open := None,
        kv := st.kv + map fp | fp in Sampled(cfg, o) :: o.id)
  }

  function CreateContainer(st: Store): Store {
    st.(open := Some(Container(st.count, [], 0)), count := st.count + 1)
  }

  /** The container the next chunk of this size goes to. */
  function MakeRoom(cfg: Config, st: Store, size: nat): (r: Store)
    ensures r.open.Some?
  {
    var s1 := if st.open.None? then CreateContainer(st) else st;
    if Overflow(s1.open.value, size) then CreateContainer(CloseOpen(cfg, s1)) else s1
  }

  datatype Pass = Pass(
    st: Store,
    unique: map<Fingerprint, ContainerId>,      // recently_unique_chunks
    rewritten: map<Fingerprint, ContainerId>,   // recently_rewritten_chunks
    monitor: set<ContainerId>)                  // container_utilization_monitor

  /**
   Resolve the id of a chunk against the chunks written earlier in the same segment.  The
   source asserts that the early copy is there; DedupSafety shows that it always is.
   */
  function ResolveChunk(p: Pass, c: Chunk, h: Hint): Chunk {
    var c0 := if c.id in h.cached then c.(inCache := true) else c;
    var c1 := if c0.duplicate && c0.id == TEMPORARY_ID && c0.fp in p.unique
              then c0.(id := p.unique[c0.fp]) else c0;
    if c1.fp in p.rewritten then c1.(id := p.rewritten[c1.fp], denied := true) else c1
  }

  function MustWrite(c: Chunk, h: Hint): bool {
    !c.duplicate
    || (!c.denied && (c.sparse || (h.enableRewrite && c.outOfOrder && !c.inCache)))
  }

  function WriteChunk(cfg: Config, p: Pass, c: Chunk): (Pass, Chunk) {
    var st := MakeRoom(cfg, p.st, c.size);
    var o := st.open.value;
    var c' := c.(id := o.id);
    if c.fp in o.fps then (p.(st := st), c')
    else
      var st' := st.(open := Some(o.(fps := o.fps + [c.fp], dataSize := o.dataSize + c.size)));
      if c.duplicate then (p.(st := st', rewritten := p.rewritten[c.fp := o.id]), c')
      else (p.(st := st', unique := p.unique[c.fp := o.id]), c')
  }

  /** add_chunk_to_container refuses the chunk, because the container has it already. */
  predicate Refused(cfg: Config, p: Pass, c: Chunk, h: Hint) {
    MustWrite(ResolveChunk(p, c, h), h) && c.fp in MakeRoom(cfg, p.st, c.size).open.value.fps
  }

  function FilterChunk(cfg: Config, p: Pass, c: Chunk, h: Hint): (Pass, Chunk) {
    var c2 := ResolveChunk(p, c, h);
    var (p', c3) := if MustWrite(c2, h) then WriteChunk(cfg, p, c2) else (p, c2);
    (p'.(monitor := p'.monitor + {c3.id}), c3)
  }

  /** The write loop of the filter phase over one checked segment. */
  function FilterLoop(cfg: Config, p: Pass, cs: seq<Chunk>, hs: seq<Hint>): (r: (Pass, seq<Chunk>))
    requires |cs| == |hs|
    ensures |r.1| == |cs|
  {
    if cs == [] then (p, [])
    else
      var n := |cs| - 1;
      var (p1, done) := FilterLoop(cfg, p, cs[..n], hs[..n]);
      var (p2, c) := FilterChunk(cfg, p1, cs[n], hs[n]);
      (p2, done + [c])
  }

  /** index_update_buffer on one chunk: drop its element, hand its id to the ones behind it. */
  function PopElem(buffered: Buffered, c: Chunk): Buffered {
    if c.fp !in buffered then buffered
    else if |buffered[c.fp]| <= 1 then buffered - {c.fp}
    else buffered[c.fp := seq(|buffered[c.fp]| - 1, _ => c.id)]
  }

  function PopSegment(buffered: Buffered, cs: seq<Chunk>): Buffered {
    if cs == [] then buffered
    else PopElem(PopSegment(buffered, cs[..|cs| - 1]), cs[|cs| - 1])
  }

  /** One critical section of the filter thread: check, write loop, update. */
  function FilterSegment(cfg: Config, st: Store, monitor: set<ContainerId>, cs: seq<Chunk>, hs: seq<Hint>)
    : (r: (Store, set<ContainerId>, seq<Chunk>))
    requires |cs| == |hs|
    requires forall c :: c in cs ==> c.fp in st.buffered && st.buffered[c.fp] != []
    ensures |r.2| == |cs|
  {
    var checked := CheckSegment(st.buffered, cs);
    var (p, done) := FilterLoop(cfg, Pass(st, map[], map[], monitor), checked, hs);
    (p.st.(buffered := PopSegment(p.st.buffered, done), chunkNum := p.st.chunkNum - |cs|),
     p.monitor, done)
  }

  /** The last container is closed when the stream ends. */
  function CloseLast(cfg: Config, st: Store): Store {
    if st.open.Some? && st.open.value.fps != [] then CloseOpen(cfg, st) else st
  }
}
