/**
 Exact deduplication (src/destor.h:73-80): with every fingerprint indexed and no rewriting, no
 fingerprint is ever stored twice among the containers that have not been reclaimed.
 */
module ExactDedup {
  import opened Common
  import opened DedupSpec
  import Lru
  import opened DedupSafety
  import opened History

  /** The containers and the key-value store, one container per fingerprint. */
  ghost predicate StoredOnce(st: Store, dead: set<ContainerId>) {
    (forall id :: id in st.written && id !in dead ==> Distinct(st.written[id].fps))
    && (st.open.Some? ==> Distinct(st.open.value.fps))
    && (forall id, fp :: id in st.written && id !in dead && fp in st.written[id].fps ==>
      fp in st.kv && st.kv[fp] == id)
    && (forall fp :: InOpen(st, fp) ==> fp !in st.kv)
  }

  /** A chunk in flight: not marked, and stored nowhere unless it is a duplicate. */
  ghost predicate Unmarked(st: Store, c: Chunk) {
    !c.sparse && !c.outOfOrder && (!c.duplicate ==> c.fp !in st.kv)
  }

  ghost predicate Exact(st: Store, dead: set<ContainerId>, f: seq<Chunk>) {
    StoredOnce(st, dead) && forall i :: 0 <= i < |f| ==> Unmarked(st, f[i])
  }

  // ----- lookup --------------------------------------------------------------------------

  /** With a complete index a chunk stays unique only if it is in no container at all. */
  lemma LookupChunkExact(cfg: Config, st: Store, dead: set<ContainerId>, c: Chunk)
    requires TablesOk(st, dead) && Readable(st) && c == FreshChunk(c.fp, c.size)
    ensures var (st', c') := LookupChunk(cfg, st, c); Unmarked(st, c')
  {
    hide CloseOpen;
    var c2 := LookupBuffers(st, c);
    if !c2.duplicate && CacheFind(st.cache, c.fp) == |st.cache| && c.fp in st.kv {
      var cache := Lru.Insert(st.cache, cfg.cacheSize, st.written[st.kv[c.fp]]);
      assert CacheFind(cache, c.fp) == 0;
    }
  }

  lemma {:induction false} LookupSegmentExact(
    cfg: Config, st: Store, dead: set<ContainerId>, f: seq<Chunk>, cs: seq<Chunk>)
    requires Inv(st, dead, f) && Exact(st, dead, f)
    requires forall i :: 0 <= i < |cs| ==> Fresh(cs[i])
    ensures Readable(st)
    ensures var (st', done) := LookupSegment(cfg, st, cs); Exact(st', dead, f + done)
  {
    hide LookupChunk, TablesOk, ElemsOk, InFlight, ChunkOk;
    ReadableInv(st, dead, f);
    if cs == [] {
      assert f + [] == f;
    } else {
      var n := |cs| - 1;
      LookupSegmentExact(cfg, st, dead, f, cs[..n]);
      LookupSegmentKeeps(cfg, st, dead, f, cs[..n], map[]);
      var (st1, done) := LookupSegment(cfg, st, cs[..n]);
      ReadableInv(st1, dead, f + done);
      LookupChunkExact(cfg, st1, dead, cs[n]);
      LookupKeeps(cfg, st1, dead, f + done, cs[n], map[]);
      var (st2, c) := LookupChunk(cfg, st1, cs[n]);
      assert f + done + [c] == f + (done + [c]);
      assert LookupSegment(cfg, st, cs) == (st2, done + [c]);
    }
  }

  // ----- filter --------------------------------------------------------------------------

  lemma SampledAll(cfg: Config, c: Container)
    requires cfg.sampleRatio <= 1
    ensures forall fp :: fp in Sampled(cfg, c) <==> fp in c.fps
  {
    forall fp | fp in c.fps ensures fp in Sampled(cfg, c) {
      var i: nat :| i < |c.fps| && c.fps[i] == fp;
    }
  }

  lemma CloseOpenExact(cfg: Config, st: Store, dead: set<ContainerId>)
    requires cfg.sampleRatio <= 1 && TablesOk(st, dead) && StoredOnce(st, dead) && st.open.Some?
    ensures var r := CloseOpen(cfg, st);
            StoredOnce(r, dead) && forall fp :: fp in r.kv <==> fp in st.kv || InOpen(st, fp)
  {
    hide Sampled, Distinct;
    SampledAll(cfg, st.open.value);
  }

  lemma MakeRoomExact(cfg: Config, st: Store, dead: set<ContainerId>, size: nat)
    requires cfg.sampleRatio <= 1 && TablesOk(st, dead) && OpenNotEmpty(st) && StoredOnce(st, dead)
    requires size <= CONTAINER_SIZE - CONTAINER_META_SIZE
    ensures var r := MakeRoom(cfg, st, size);
            StoredOnce(r, dead) && forall fp :: fp in r.kv || InOpen(r, fp) <==> fp in st.kv || InOpen(st, fp)
  {
    hide CloseOpen, TablesOk;
    var s1 := if st.open.None? then CreateContainer(st) else st;
    if Overflow(s1.open.value, size) {
      CloseOpenExact(cfg, st, dead);
      var r := CloseOpen(cfg, st);
      assert r.open.None? by { CloseOpenKeeps(cfg, st, dead); }
    }
  }

  /** Without marks only unique chunks are written, each into a container that lacks it. */
  lemma FilterChunkExact(cfg: Config, p: Pass, dead: set<ContainerId>, c: Chunk, h: Hint)
    requires cfg.sampleRatio <= 1
    requires TablesOk(p.st, dead) && OpenNotEmpty(p.st) && StoredOnce(p.st, dead)
    requires Unmarked(p.st, c) && (!c.duplicate ==> !InOpen(p.st, c.fp))
    requires c.size <= CONTAINER_SIZE - CONTAINER_META_SIZE
    ensures var (p', _) := FilterChunk(cfg, p, c, h);
            StoredOnce(p'.st, dead)
            && (forall fp :: fp in p'.st.kv ==> fp in p.st.kv || InOpen(p.st, fp))
  {
    hide MakeRoom, Overflow, TablesOk;
    var c2 := ResolveChunk(p, c, h);
    if MustWrite(c2, h) {
      assert !c.duplicate;
      MakeRoomExact(cfg, p.st, dead, c.size);
      var r := MakeRoom(cfg, p.st, c.size);
      assert !InOpen(r, c.fp) && c.fp !in r.kv;
    }
  }

  lemma {:induction false} FilterLoopExact(
    cfg: Config, p: Pass, dead: set<ContainerId>, b: Buffered, g: seq<Chunk>, n: nat, hs: seq<Hint>)
    requires cfg.sampleRatio <= 1 && n == |hs| <= |g|
    requires LoopOk(p, dead, b, g, [])
    requires LaterCopiesAreDuplicates(g)
    requires forall i :: 0 <= i < n && g[i].duplicate && g[i].id == TEMPORARY_ID ==> HasUniqueBefore(g, i)
    requires StoredOnce(p.st, dead) && forall i :: 0 <= i < |g| ==> Unmarked(p.st, g[i])
    ensures var (p', _) := FilterLoop(cfg, p, g[..n], hs);
            StoredOnce(p'.st, dead) && forall i :: n <= i < |g| ==> Unmarked(p'.st, g[i])
  {
    hide FilterChunk, LaterCopiesAreDuplicates, HasUniqueBefore, Names, TablesOk, TableNames, StoredOnce;
    if n == 0 {
      assert g[..n] == [];
    } else {
      var m := n - 1;
      FilterLoopExact(cfg, p, dead, b, g, m, hs[..m]);
      FilterLoopKeeps(cfg, p, dead, b, g, m, hs[..m]);
      assert g[..n][..m] == g[..m];
      var (p1, done) := FilterLoop(cfg, p, g[..m], hs[..m]);
      assert ChunkOk(p1.st, dead, g[m]);
      FilterChunkExact(cfg, p1, dead, g[m], hs[m]);
      var p2 := FilterChunk(cfg, p1, g[m], hs[m]).0;
      assert FilterLoop(cfg, p, g[..n], hs).0 == p2;
      forall i | n <= i < |g| ensures Unmarked(p2.st, g[i]) {
        assert Unmarked(p1.st, g[i]) && ChunkOk(p1.st, dead, g[i]);
      }
    }
  }

  lemma FilterSegmentExact(
    cfg: Config, st: Store, dead: set<ContainerId>, f: seq<Chunk>, n: nat, hs: seq<Hint>, monitor: set<ContainerId>)
    requires cfg.sampleRatio <= 1
    requires Inv(st, dead, f) && n == |hs| <= |f| && Exact(st, dead, f)
    requires forall c :: c in f[..n] ==> c.fp in st.buffered && st.buffered[c.fp] != []
    ensures var (st', _, _) := FilterSegment(cfg, st, monitor, f[..n], hs);
            Exact(st', dead, f[n..])
  {
    hide FilterLoop, CheckSegment, TablesOk, InFlight, PopSegment, HasUniqueBefore, ChunkOk, ElemsOk, Holds, Names,
      StoredOnce;
    InvIn(st, dead, f);
    CheckedStreamOk(st, dead, f, n);
    CheckedUnmarked(st, f, n);
    var g := CheckedStream(st.buffered, f, n);
    assert g[..n] == CheckSegment(st.buffered, f[..n]);
    FilterLoopExact(cfg, Pass(st, map[], map[], monitor), dead, st.buffered, g, n, hs);
    var (p', done) := FilterLoop(cfg, Pass(st, map[], map[], monitor), g[..n], hs);
    var st' := p'.st.(buffered := PopSegment(p'.st.buffered, done), chunkNum := p'.st.chunkNum - n);
    assert FilterSegment(cfg, st, monitor, f[..n], hs).0 == st';
    StoredOnceTables(p'.st, st', dead);
    forall i | 0 <= i < |f| - n ensures Unmarked(st', f[n..][i]) {
      assert f[n..][i] == g[n + i];
    }
  }

  lemma StoredOnceTables(st: Store, st': Store, dead: set<ContainerId>)
    requires StoredOnce(st, dead) && st' == st.(buffered := st'.buffered, chunkNum := st'.chunkNum)
    ensures StoredOnce(st', dead)
  {}

  lemma CheckedUnmarked(st: Store, f: seq<Chunk>, n: nat)
    requires n <= |f| && forall i :: 0 <= i < |f| ==> f[i].fp in st.buffered && st.buffered[f[i].fp] != []
    requires forall i :: 0 <= i < |f| ==> Unmarked(st, f[i])
    ensures forall i :: 0 <= i < |f| ==> Unmarked(st, CheckedStream(st.buffered, f, n)[i])
  {}

  // ----- whole histories -----------------------------------------------------------------

  ghost predicate NoRewriting(es: seq<Event>) {
    forall e :: e in es ==> !e.Mark?
  }

  lemma {:induction false} AlwaysExact(cfg: Config, es: seq<Event>)
    requires cfg.sampleRatio <= 1 && NoRewriting(es)
    ensures var s := Run(cfg, es); Exact(s.st, s.reclaimed, s.flight)
  {
    if es != [] {
      var s := Run(cfg, es[..|es| - 1]);
      var e := es[|es| - 1];
      AlwaysExact(cfg, es[..|es| - 1]);
      AlwaysGood(cfg, es[..|es| - 1]);
      assert !e.Mark?;
      if Enabled(cfg, s, e) { StepExact(cfg, s, e); }
    }
  }

  lemma StepExact(cfg: Config, s: System, e: Event)
    requires cfg.sampleRatio <= 1 && Good(s) && Enabled(cfg, s, e) && !e.Mark?
    requires Exact(s.st, s.reclaimed, s.flight)
    ensures var s' := Apply(cfg, s, e); Exact(s'.st, s'.reclaimed, s'.flight)
  {
    hide FilterSegment, LookupSegment, InFlight, TablesOk, ElemsOk, Distinct, StoredOnce, BackupsOk, ManifestOk, JobOk,
      Lists, CloseLast;
    match e {
      case Begin => StoredOnceBegins(s.st, s.reclaimed);
      case Lookup(items) => LookupSegmentExact(cfg, s.st, s.reclaimed, s.flight, FreshSegment(items));
      case Filter(n, hints) => FilterSegmentExact(cfg, s.st, s.reclaimed, s.flight, n, hints, s.monitor);
      case Finish => StoredOnceFinishes(cfg, s.st, s.reclaimed);
      case Delete(upTo) =>
        assert s.st.open.None?;
        StoredOnceDeletes(s.st, s.reclaimed, Invalid(s.manifest, upTo));
    }
  }

  lemma StoredOnceBegins(st: Store, dead: set<ContainerId>)
    requires StoredOnce(st, dead)
    ensures StoredOnce(st.(open := None, cache := [], buffered := map[], chunkNum := 0), dead)
  {}

  lemma StoredOnceFinishes(cfg: Config, st: Store, dead: set<ContainerId>)
    requires cfg.sampleRatio <= 1 && TablesOk(st, dead) && StoredOnce(st, dead)
    ensures StoredOnce(CloseLast(cfg, st), dead)
  {
    hide CloseOpen, TablesOk, StoredOnce;
    if st.open.Some? { CloseOpenExact(cfg, st, dead); }
  }

  lemma StoredOnceDeletes(st: Store, dead: set<ContainerId>, invalid: set<ContainerId>)
    requires StoredOnce(st, dead) && st.open.None?
    ensures StoredOnce(st.(kv := DropEntries(st, invalid), cache := []), dead + invalid)
  {
    hide Distinct;
  }

  /**
   No fingerprint is stored twice: not in two unreclaimed containers, the open one included, and
   not twice in one; and a chunk still in flight as unique is in none of them, nor in flight twice.
   */
  lemma StoredAtMostOnce(cfg: Config, es: seq<Event>, fp: Fingerprint, id1: ContainerId, id2: ContainerId)
    requires cfg.sampleRatio <= 1 && NoRewriting(es)
    requires var s := Run(cfg, es); Names(s.st, s.reclaimed, id1, fp) && Names(s.st, s.reclaimed, id2, fp)
    ensures id1 == id2
    ensures var s := Run(cfg, es);
            var c := if id1 in s.st.written then s.st.written[id1] else s.st.open.value;
            Distinct(c.fps)
    ensures var s := Run(cfg, es);
            forall i :: 0 <= i < |s.flight| && s.flight[i].fp == fp ==> s.flight[i].duplicate
  {
    AlwaysExact(cfg, es);
    AlwaysGood(cfg, es);
    var s := Run(cfg, es);
    hide Run, StoredOnce, InFlight, TablesOk, ElemsOk, JobOk, BackupsOk, ManifestOk;
    NamedOnce(s.st, s.reclaimed, s.flight, fp, id1, id2);
  }

  lemma NamedOnce(st: Store, dead: set<ContainerId>, f: seq<Chunk>, fp: Fingerprint, id1: ContainerId, id2: ContainerId)
    requires Inv(st, dead, f) && Exact(st, dead, f)
    requires Names(st, dead, id1, fp) && Names(st, dead, id2, fp)
    ensures id1 == id2
    ensures Distinct((if id1 in st.written then st.written[id1] else st.open.value).fps)
    ensures forall i :: 0 <= i < |f| && f[i].fp == fp ==> f[i].duplicate
  {
    hide InFlight, ElemsOk, Distinct;
    assert id1 in st.written && fp in st.written[id1].fps ==> st.kv[fp] == id1;
    assert id2 in st.written && fp in st.written[id2].fps ==> st.kv[fp] == id2;
    assert InOpen(st, fp) ==> fp !in st.kv;
    forall i | 0 <= i < |f| && f[i].fp == fp ensures f[i].duplicate {
      assert ChunkOk(st, dead, f[i]) && Unmarked(st, f[i]);
    }
  }

  lemma UniqueInFlightOnce(cfg: Config, es: seq<Event>, i: nat, j: nat)
    requires var f := Run(cfg, es).flight; i < j < |f| && f[i].fp == f[j].fp
    ensures Run(cfg, es).flight[j].duplicate
  {
    AlwaysGood(cfg, es);
  }
}
