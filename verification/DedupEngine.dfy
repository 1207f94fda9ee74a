/**
 The dedup and filter stages as they run: tables updated in place by loops over a segment
 (src/index/index.c, src/filter_phase.c, src/cma.c, src/do_delete.c), each method proved
 against its function in DedupSpec or History.
 */
module DedupEngine {
  import opened Common
  import opened DedupSpec
  import Lru
  import opened DedupSafety
  import History

  class Engine {
    const cfg: Config
    var written: map<ContainerId, Container>
    var open: Option<Container>
    var count: nat
    var kv: map<Fingerprint, ContainerId>
    var cache: seq<Container>
    var buffered: Buffered
    var chunkNum: int
    var monitor: set<ContainerId>

    constructor (cfg: Config)
      ensures this.cfg == cfg && State() == History.InitStore && monitor == {}
    {
      this.cfg := cfg;
      written, open, count, kv, cache, buffered, chunkNum := map[], None, 0, map[], [], map[], 0;
      monitor := {};
    }

    ghost function State(): Store
      reads this
    {
      Store(written, open, count, kv, cache, buffered, chunkNum)
    }

    // ----- lookup ------------------------------------------------------------------------

    /** fingerprint_cache_lookup: a hit moves the container to the front. */
    method CacheLookup(fp: Fingerprint) returns (id: ContainerId)
      modifies this`cache
      ensures var i := CacheFind(old(cache), fp);
              if i < |old(cache)| then id == old(cache)[i].id && cache == Lru.MoveToFront(old(cache), i)
              else id == TEMPORARY_ID && cache == old(cache)
      ensures forall m :: m in cache ==> m in old(cache)
    {
      var i := 0;
      while i < |cache| && fp !in cache[i].fps
        invariant i <= |cache| && cache == old(cache)
        invariant forall j :: 0 <= j < i ==> fp !in cache[j].fps
      {
        i := i + 1;
      }
      if i < |cache| {
        id := cache[i].id;
        cache := [cache[i]] + cache[..i] + cache[i + 1..];
      } else {
        id := TEMPORARY_ID;
      }
    }

    /** The fingerprint cache, then the key-value store with a prefetch. */
    method LookupIndexed(c0: Chunk) returns (c: Chunk)
      requires !c0.duplicate
      requires forall fp :: fp in kv ==> kv[fp] in written && written[kv[fp]].id != TEMPORARY_ID
      requires forall m :: m in cache ==> m.id != TEMPORARY_ID
      modifies this`cache
      ensures (State(), c) == LookupIndex(cfg, old(State()), c0) && c.fp == c0.fp
      ensures forall m :: m in cache ==> m.id != TEMPORARY_ID
    {
      hide Lru.MoveToFront, CacheFind;
      c := c0;
      var id := CacheLookup(c.fp);
      if id != TEMPORARY_ID {
        c := c.(id := id, duplicate := true);
      }
      if !c.duplicate && c.fp in kv {
        cache := Lru.Insert(cache, cfg.cacheSize, written[kv[c.fp]]);
        id := CacheLookup(c.fp);
        if id != TEMPORARY_ID {
          c := c.(id := id, duplicate := true);
        }
      }
    }

    /** index_lookup_base on one chunk. */
    method LookupOne(c0: Chunk) returns (c: Chunk)
      requires Readable(State())
      requires forall fp :: fp in kv ==> written[kv[fp]].id != TEMPORARY_ID
      requires forall m :: m in cache ==> m.id != TEMPORARY_ID
      modifies this`cache, this`buffered, this`chunkNum
      ensures (State(), c) == LookupChunk(cfg, old(State()), c0)
    {
      hide LookupIndex;
      c := c0;
      if open.Some? && c.fp in open.value.fps {
        c := c.(id := open.value.id, duplicate := true, denied := true);
      }
      var queue := [];
      if c.fp in buffered {
        queue := buffered[c.fp];
        if !c.duplicate {
          c := c.(id := queue[0], duplicate := true);
        }
      }
      assert c == LookupBuffers(State(), c0);
      if !c.duplicate {
        c := LookupIndexed(c);
      }
      buffered := buffered[c.fp := queue + [c.id]];
      chunkNum := chunkNum + 1;
    }

    /** index_lookup_base: every chunk of the segment in turn. */
    method IndexLookupBase(
      s: seq<Chunk>, ghost dead: set<ContainerId>, ghost flight: seq<Chunk>)
      returns (r: seq<Chunk>)
      requires Inv(State(), dead, flight) && Readable(State())
      requires forall i :: 0 <= i < |s| ==> Fresh(s[i])
      modifies this`cache, this`buffered, this`chunkNum
      ensures (State(), r) == LookupSegment(cfg, old(State()), s)
      ensures Inv(State(), dead, flight + r)
    {
      hide Inv, LookupChunk, Fresh, Readable;
      r := [];
      assert flight + [] == flight;
      for i := 0 to |s|
        invariant (State(), r) == LookupSegment(cfg, old(State()), s[..i])
        invariant Inv(State(), dead, flight + r)
      {
        LookupInv(cfg, State(), dead, flight + r, s[i]);
        var c := LookupOne(s[i]);
        assert s[..i + 1][..i] == s[..i];
        assert flight + r + [c] == flight + (r + [c]);
        r := r + [c];
      }
      assert s[..|s|] == s;
    }

    /** index_lookup: refuse when the index buffer is full, else look the whole segment up. */
    method IndexLookup(s: seq<Chunk>, ghost dead: set<ContainerId>, ghost flight: seq<Chunk>)
      returns (ok: bool, r: seq<Chunk>)
      requires Inv(State(), dead, flight)
      requires forall i :: 0 <= i < |s| ==> Fresh(s[i])
      modifies this`cache, this`buffered, this`chunkNum
      ensures Readable(old(State()))
      ensures ok <==> !(cfg.waitThreshold > 0 && old(chunkNum) >= cfg.waitThreshold)
      ensures !ok ==> State() == old(State()) && r == s
      ensures ok ==> (State(), r) == LookupSegment(cfg, old(State()), s)
      ensures ok ==> Inv(State(), dead, flight + r)
    {
      ReadableInv(State(), dead, flight);
      hide Inv, Fresh, LookupSegment, Readable;
      r := s;
      if cfg.waitThreshold > 0 && chunkNum >= cfg.waitThreshold {
        return false, r;
      }
      r := IndexLookupBase(s, dead, flight);
      ok := true;
    }

    // ----- filter ------------------------------------------------------------------------

    /** index_check_buffer: a segment about to be filtered against what was rewritten since. */
    method IndexCheckBuffer(s: seq<Chunk>) returns (r: seq<Chunk>)
      requires forall c :: c in s ==> c.fp in buffered && buffered[c.fp] != []
      ensures r == CheckSegment(buffered, s)
    {
      r := [];
      for i := 0 to |s|
        invariant |r| == i && forall k :: 0 <= k < i ==> r[k] == CheckChunk(buffered, s[k])
      {
        var c := s[i];
        if (c.duplicate && c.id == TEMPORARY_ID) || c.outOfOrder || c.sparse {
          assert c.fp in buffered;   // assert(bq)
          var be := buffered[c.fp][0];
          if be > c.id {
            if c.id != TEMPORARY_ID {
              c := c.(denied := true);
            }
            c := c.(id := be);
          }
        }
        r := r + [c];
      }
    }

    /** Make room in the storage buffer: index and hand over the full container. */
    method MakeRoomFor(size: nat)
      modifies this`written, this`open, this`count, this`kv
      ensures State() == MakeRoom(cfg, old(State()), size)
      ensures size <= CONTAINER_SIZE - CONTAINER_META_SIZE ==> !Overflow(open.value, size)
    {
      if open.None? {
        open := Some(Container(count, [], 0));
        count := count + 1;
      }
      if Overflow(open.value, size) {
        IndexUpdate(Sampled(cfg, open.value), open.value.id);
        written := written[open.value.id := open.value];
        open := Some(Container(count, [], 0));
        count := count + 1;
      }
    }

    /** index_update: every feature gets the id as its latest. */
    method IndexUpdate(features: set<Fingerprint>, id: ContainerId)
      modifies this`kv
      ensures kv == old(kv) + map fp | fp in features :: id
    {
      var todo := features;
      while todo != {}
        invariant todo <= features
        invariant kv == old(kv) + map fp | fp in features - todo :: id
        decreases todo
      {
        var fp :| fp in todo;
        kv := kv[fp := id];
        todo := todo - {fp};
      }
      assert features - {} == features;
    }

    /** add_chunk_to_container: refused, but for the id, when the chunk is already there. */
    method AddChunk(c: Chunk) returns (added: bool, r: Chunk)
      requires open.Some? && !Overflow(open.value, c.size)   // assert(!container_overflow)
      modifies this`open
      ensures open.Some? && r == c.(id := old(open).value.id)
      ensures added <==> c.fp !in old(open).value.fps
      ensures var o := old(open).value;
              open.value == if added then o.(fps := o.fps + [c.fp], dataSize := o.dataSize + c.size) else o
    {
      var o := open.value;
      r := c.(id := o.id);
      added := c.fp !in o.fps;
      if added {
        open := Some(o.(fps := o.fps + [c.fp], dataSize := o.dataSize + c.size));
      }
    }

    /** The write loop of the filter thread on one chunk. */
    method FilterOne(
      c0: Chunk, hint: Hint, unique0: map<Fingerprint, ContainerId>, rewritten0: map<Fingerprint, ContainerId>)
      returns (c: Chunk, unique: map<Fingerprint, ContainerId>, rewritten: map<Fingerprint, ContainerId>)
      requires c0.duplicate && c0.id == TEMPORARY_ID ==> c0.fp in unique0
      requires TEMPORARY_ID !in hint.cached && Storable(c0)
      modifies this`written, this`open, this`count, this`kv, this`monitor
      ensures var (p, c') := FilterChunk(cfg, Pass(old(State()), unique0, rewritten0, old(monitor)), c0, hint);
              State() == p.st && unique == p.unique && rewritten == p.rewritten && monitor == p.monitor && c == c'
    {
      hide WriteChunk, ResolveChunk, Storable;
      ghost var p := Pass(State(), unique0, rewritten0, monitor);
      c := Resolve(c0, hint, unique0, rewritten0, p);
      unique, rewritten := unique0, rewritten0;
      StorableStays(c0, c);
      if !c.duplicate
        || (!c.denied && (c.sparse || (hint.enableRewrite && c.outOfOrder && !c.inCache)))
      {
        c, unique, rewritten := WriteOne(c, unique, rewritten, hint);
      }
      monitor := monitor + {c.id};   // har_monitor_update
    }

    /** The cache-aware filter, and the ids written earlier in the segment. */
    method Resolve(
      c0: Chunk, hint: Hint, unique: map<Fingerprint, ContainerId>, rewritten: map<Fingerprint, ContainerId>,
      ghost p: Pass)
      returns (c: Chunk)
      requires c0.duplicate && c0.id == TEMPORARY_ID ==> c0.fp in unique
      requires TEMPORARY_ID !in hint.cached && p.unique == unique && p.rewritten == rewritten
      ensures c == ResolveChunk(p, c0, hint) && SameBut(c, c0)
    {
      c := c0;
      if c.id in hint.cached {
        assert c.id != TEMPORARY_ID;   // the assert of the cache-aware filter
        c := c.(inCache := true);
      }
      if c.duplicate && c.id == TEMPORARY_ID {
        assert c.fp in unique;   // assert(ruc)
        c := c.(id := unique[c.fp]);
      }
      if c.fp in rewritten {
        c := c.(id := rewritten[c.fp], denied := true);
      }
    }

    /** A chunk that fits an empty container, and is in the storage buffer only if it is a duplicate. */
    ghost predicate Storable(c: Chunk)
      reads this
    {
      c.size <= CONTAINER_SIZE - CONTAINER_META_SIZE && (!c.duplicate ==> !InOpen(State(), c.fp))
    }

    lemma StorableStays(c: Chunk, c': Chunk)
      requires Storable(c) && SameBut(c', c)
      ensures Storable(c')
    {}

    /** Write one chunk.  A refused chunk is always a marked duplicate; that no chunk is refused without a rewrite
        algorithm, as the source asserts for an exact index, is RefusedAdd.NeverRefused. */
    method WriteOne(c0: Chunk, unique0: map<Fingerprint, ContainerId>, rewritten0: map<Fingerprint, ContainerId>,
                    ghost hint: Hint)
      returns (c: Chunk, unique: map<Fingerprint, ContainerId>, rewritten: map<Fingerprint, ContainerId>)
      requires Storable(c0) && MustWrite(c0, hint)
      modifies this`written, this`open, this`count, this`kv
      ensures var (p, c') := WriteChunk(cfg, Pass(old(State()), unique0, rewritten0, monitor), c0);
              State() == p.st && unique == p.unique && rewritten == p.rewritten && p.monitor == monitor && c == c'
    {
      ghost var st := State();
      RoomHasNoMore(cfg, st, c0.size);
      hide MakeRoom, Overflow;
      c, unique, rewritten := c0, unique0, rewritten0;
      MakeRoomFor(c.size);
      var added;
      added, c := AddChunk(c);
      if added {
        if !c.duplicate {
          unique := unique[c.fp := c.id];
        } else {
          rewritten := rewritten[c.fp := c.id];
        }
      } else {
        assert c.duplicate && (c.sparse || c.outOfOrder);
      }
    }

    /** The write loop over a checked segment, the first n chunks of the stream g. */
    method WriteLoop(checked: seq<Chunk>, hints: seq<Hint>, ghost dead: set<ContainerId>, ghost g: seq<Chunk>)
      returns (r: seq<Chunk>)
      requires |checked| == |hints| <= |g| && checked == g[..|checked|]
      requires LoopOk(Pass(State(), map[], map[], monitor), dead, buffered, g, [])
      requires LaterCopiesAreDuplicates(g)
      requires forall i :: 0 <= i < |checked| && g[i].duplicate && g[i].id == TEMPORARY_ID ==> HasUniqueBefore(g, i)
      requires forall h :: h in hints ==> TEMPORARY_ID !in h.cached
      modifies this`written, this`open, this`count, this`kv, this`monitor
      ensures var (p, done) := FilterLoop(cfg, Pass(old(State()), map[], map[], old(monitor)), checked, hints);
              State() == p.st && monitor == p.monitor && r == done
      ensures forall c :: c in r ==> c.id != TEMPORARY_ID
    {
      hide LoopOk, FilterChunk, LaterCopiesAreDuplicates, HasUniqueBefore;
      ghost var p0 := Pass(State(), map[], map[], monitor);
      var unique: map<Fingerprint, ContainerId> := map[];
      var rewritten: map<Fingerprint, ContainerId> := map[];
      r := [];
      for i := 0 to |checked|
        invariant (Pass(State(), unique, rewritten, monitor), r) == FilterLoop(cfg, p0, checked[..i], hints[..i])
        invariant forall c :: c in r ==> c.id != TEMPORARY_ID
      {
        LoopFacts(cfg, p0, dead, g, |checked|, hints, i);
        assert checked[..i + 1][..i] == checked[..i] && hints[..i + 1][..i] == hints[..i];
        var c;
        c, unique, rewritten := FilterOne(checked[i], hints[i], unique, rewritten);
        assert c.id != TEMPORARY_ID;
        r := r + [c];
      }
      assert checked[..|checked|] == checked && hints[..|checked|] == hints;
    }

    /**
     One critical section of the filter thread.  The asserts are the ones of the source; the
     ghost stream is everything in flight, the segment its first part.
     */
    method Filter(s: seq<Chunk>, hints: seq<Hint>, ghost dead: set<ContainerId>, ghost flight: seq<Chunk>)
      returns (r: seq<Chunk>, full: bool)
      requires Inv(State(), dead, flight)
      requires |s| == |hints| <= |flight| && s == flight[..|s|]
      requires forall h :: h in hints ==> TEMPORARY_ID !in h.cached   // LruRestore.RestoreAware.Contains
      modifies this
      ensures forall c :: c in s ==> c.fp in old(buffered) && old(buffered)[c.fp] != []
      ensures (State(), monitor, r) == FilterSegment(cfg, old(State()), old(monitor), s, hints)
      ensures full <==> cfg.waitThreshold > 0 && chunkNum >= cfg.waitThreshold
      ensures Inv(State(), dead, flight[|s|..])
    {
      hide Inv, LoopOk, CheckSegment, FilterLoop, LaterCopiesAreDuplicates, HasUniqueBefore, PopSegment;
      FilterKeepsInv(cfg, State(), dead, flight, |s|, hints, monitor);
      ghost var g := CheckedForLoop(State(), monitor, dead, flight, |s|);
      var checked := IndexCheckBuffer(s);
      r := WriteLoop(checked, hints, dead, g);
      full := IndexUpdateBuffer(r, flight);
    }

    /** Drop the first element of a queue and give the others the id. */
    method HandOn(queue: seq<ContainerId>, id: ContainerId) returns (r: seq<ContainerId>)
      requires queue != []
      ensures r == seq(|queue| - 1, _ => id)
    {
      r := queue[1..];
      for j := 0 to |r|
        invariant |r| == |queue| - 1
        invariant forall k :: 0 <= k < j ==> r[k] == id
      {
        r := r[j := id];
      }
    }

    /** index_update_buffer: drop the elements of a filtered segment, hand the ids on. */
    method IndexUpdateBuffer(s: seq<Chunk>, ghost flight: seq<Chunk>) returns (full: bool)
      requires InFlight(buffered, flight) && |s| <= |flight|
      requires forall k :: 0 <= k < |s| ==> s[k].fp == flight[k].fp && s[k].id != TEMPORARY_ID
      modifies this`buffered, this`chunkNum
      ensures buffered == PopSegment(old(buffered), s)
      ensures chunkNum == old(chunkNum) - |s|
      ensures full <==> cfg.waitThreshold > 0 && chunkNum >= cfg.waitThreshold
    {
      hide InFlight;
      assert flight[0..] == flight;
      for i := 0 to |s|
        invariant buffered == PopSegment(old(buffered), s[..i]) && InFlight(buffered, flight[i..])
        invariant chunkNum == old(chunkNum) - i
      {
        var c := s[i];
        assert c.id != TEMPORARY_ID;   // the assert of index_update_buffer
        FrontQueued(buffered, flight, i, c);
        var queue := buffered[c.fp];
        ghost var before := buffered;
        if |queue| <= 1 {
          buffered := buffered - {c.fp};
        } else {
          queue := HandOn(queue, c.id);
          buffered := buffered[c.fp := queue];
        }
        assert buffered == PopElem(before, c);
        chunkNum := chunkNum - 1;
        assert s[..i + 1][..i] == s[..i];
      }
      assert s[..|s|] == s;
      full := cfg.waitThreshold > 0 && chunkNum >= cfg.waitThreshold;
    }

    /** End of the stream: the container in the storage buffer is indexed and handed over. */
    method Finish()
      modifies this`written, this`open, this`kv
      ensures State() == CloseLast(cfg, old(State()))
    {
      if open.Some? && open.value.fps != [] {
        IndexUpdate(Sampled(cfg, open.value), open.value.id);
        written := written[open.value.id := open.value];
        open := None;
      }
    }
  }

  /** Everything but what the filter stage resolves. */
  predicate SameBut(c: Chunk, c0: Chunk) {
    c.fp == c0.fp && c.size == c0.size && c.duplicate == c0.duplicate
  }

  /** The queue of the oldest chunk in flight is there, and the buffer mirrors the others once it is updated. */
  lemma FrontQueued(b: Buffered, f: seq<Chunk>, i: nat, c: Chunk)
    requires i < |f| && InFlight(b, f[i..]) && c.fp == f[i].fp && c.id != TEMPORARY_ID
    ensures c.fp in b && b[c.fp] != []
    ensures InFlight(PopElem(b, c), f[i + 1..])
  {
    assert f[i..][0] == f[i] && f[i..][1..] == f[i + 1..];
    MirrorsIn(b, f[i..]);
    PopKeeps(b, f[i..], c, map[]);
  }

  lemma RoomHasNoMore(cfg: Config, st: Store, size: nat)
    ensures forall fp :: InOpen(MakeRoom(cfg, st, size), fp) ==> InOpen(st, fp)
  {}

  lemma InvTables(st: Store, dead: set<ContainerId>, f: seq<Chunk>)
    requires Inv(st, dead, f)
    ensures Readable(st)
    ensures forall fp :: fp in st.kv ==> st.written[st.kv[fp]].id != TEMPORARY_ID
    ensures forall m :: m in st.cache ==> m.id != TEMPORARY_ID
  {
    ReadableInv(st, dead, f);
    hide InFlight, ElemsOk, ChunkOk;
    forall fp | fp in st.kv ensures st.written[st.kv[fp]].id != TEMPORARY_ID {
      var id := st.kv[fp];
      assert id in st.written && st.written[id].id == id >= 0;
    }
  }

  lemma LookupInv(cfg: Config, st: Store, dead: set<ContainerId>, f: seq<Chunk>, c: Chunk)
    requires Inv(st, dead, f) && Fresh(c)
    ensures Readable(st)
    ensures forall fp :: fp in st.kv ==> st.written[st.kv[fp]].id != TEMPORARY_ID
    ensures forall m :: m in st.cache ==> m.id != TEMPORARY_ID
    ensures var (st', c') := LookupChunk(cfg, st, c); Inv(st', dead, f + [c'])
  {
    hide Lists, TablesOk, ElemsOk, InFlight;
    InvTables(st, dead, f);
    LookupKeeps(cfg, st, dead, f, c, map[]);
  }

  lemma FilterKeepsInv(
    cfg: Config, st: Store, dead: set<ContainerId>, f: seq<Chunk>, n: nat, hs: seq<Hint>, monitor: set<ContainerId>)
    requires Inv(st, dead, f) && n == |hs| <= |f|
    ensures forall c :: c in f[..n] ==> c.fp in st.buffered && st.buffered[c.fp] != []
    ensures var (st', _, done) := FilterSegment(cfg, st, monitor, f[..n], hs);
            Inv(st', dead, f[n..]) && |done| == n && forall k :: 0 <= k < n ==> done[k].fp == f[k].fp
    ensures InFlight(st.buffered, f)
  {
    hide FilterSegment, InFlight, TablesOk, ElemsOk, Names, Lists, IdsOf, Grows;
    FilterSegmentKeeps(cfg, st, dead, f, n, hs, monitor, map[]);
  }

  /** The checked stream, and what the write loop needs of it. */
  lemma CheckedForLoop(st: Store, monitor: set<ContainerId>, dead: set<ContainerId>, flight: seq<Chunk>, n: nat)
    returns (g: seq<Chunk>)
    requires Inv(st, dead, flight) && n <= |flight|
    ensures forall c :: c in flight[..n] ==> c.fp in st.buffered && st.buffered[c.fp] != []
    ensures |g| == |flight| && g[..n] == CheckSegment(st.buffered, flight[..n])
    ensures LoopOk(Pass(st, map[], map[], monitor), dead, st.buffered, g, [])
    ensures LaterCopiesAreDuplicates(g)
    ensures forall i :: 0 <= i < n && g[i].duplicate && g[i].id == TEMPORARY_ID ==> HasUniqueBefore(g, i)
  {
    hide TablesOk, ElemsOk, InFlight, CheckChunk, ChunkOk, HasUniqueBefore, LaterCopiesAreDuplicates;
    InvIn(st, dead, flight);
    CheckedStreamOk(st, dead, flight, n);
    g := CheckedStream(st.buffered, flight, n);
  }

  /** What is known before chunk i of the write loop. */
  lemma LoopFacts(cfg: Config, p0: Pass, dead: set<ContainerId>, g: seq<Chunk>, n: nat, hs: seq<Hint>, i: nat)
    requires i < n == |hs| <= |g|
    requires LoopOk(p0, dead, p0.st.buffered, g, []) && LaterCopiesAreDuplicates(g)
    requires forall i :: 0 <= i < n && g[i].duplicate && g[i].id == TEMPORARY_ID ==> HasUniqueBefore(g, i)
    ensures var (p, done) := FilterLoop(cfg, p0, g[..n][..i], hs[..i]);
            (g[i].duplicate && g[i].id == TEMPORARY_ID ==> g[i].fp in p.unique)
            && FilterChunk(cfg, p, g[i], hs[i]).1.id != TEMPORARY_ID
            && g[i].size <= CONTAINER_SIZE - CONTAINER_META_SIZE && (!g[i].duplicate ==> !InOpen(p.st, g[i].fp))
  {
    hide FilterChunk, PassOk, ElemsOk, HasUniqueBefore, Holds, TablesOk;
    assert g[..n][..i] == g[..i];
    FilterLoopKeeps(cfg, p0, dead, p0.st.buffered, g, i, hs[..i]);
    var (p, done) := FilterLoop(cfg, p0, g[..i], hs[..i]);
    if g[i].duplicate && g[i].id == TEMPORARY_ID {
      UniqueCopyIsRecent(p, dead, p0.st.buffered, g, done);
    }
    FilterChunkKeeps(cfg, p, dead, g[i], hs[i]);
  }
}
