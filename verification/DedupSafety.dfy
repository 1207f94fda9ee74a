/**
 What every lookup and every filter pass keep, whatever the rewrite stage marked in between:
 the queues of the index buffer mirror the chunks in flight, and every id names a container
 that holds the fingerprint and has not been reclaimed.
 */
module DedupSafety {
  import opened Common
  import opened DedupSpec
  import Lru

  // ----- the chunks in flight ------------------------------------------------------------

  /** Number of chunks in the stream with this fingerprint. */
  function Count(f: seq<Chunk>, fp: Fingerprint): nat {
    if f == [] then 0 else (if f[0].fp == fp then 1 else 0) + Count(f[1..], fp)
  }

  lemma {:induction false} CountAppend(f: seq<Chunk>, g: seq<Chunk>, fp: Fingerprint)
    ensures Count(f + g, fp) == Count(f, fp) + Count(g, fp)
  {
    if f == [] {
      assert f + g == g;
    } else {
      CountAppend(f[1..], g, fp);
      assert (f + g)[1..] == f[1..] + g;
    }
  }

  lemma {:induction false} CountZero(f: seq<Chunk>, fp: Fingerprint)
    ensures Count(f, fp) == 0 <==> forall i :: 0 <= i < |f| ==> f[i].fp != fp
  {
    if f != [] {
      CountZero(f[1..], fp);
      if Count(f, fp) == 0 {
        forall i | 0 <= i < |f| ensures f[i].fp != fp {
          assert i > 0 ==> f[i] == f[1..][i - 1];
        }
      } else if f[0].fp != fp {
        var i :| 0 <= i < |f[1..]| && f[1..][i].fp == fp;
        assert f[i + 1].fp == fp;
      }
    }
  }

  /** Only the first copy of a fingerprint in flight can be unique. */
  ghost predicate LaterCopiesAreDuplicates(f: seq<Chunk>) {
    forall i, j :: 0 <= i < j < |f| && f[i].fp == f[j].fp ==> f[j].duplicate
  }

  /** The index buffer holds as many elements as there are copies in flight. */
  ghost predicate Mirrors(b: Buffered, f: seq<Chunk>) {
    (forall fp :: fp in b <==> Count(f, fp) > 0)
    && (forall fp :: fp in b ==> |b[fp]| == Count(f, fp))
  }

  ghost predicate HasUniqueBefore(f: seq<Chunk>, i: nat)
    requires i < |f|
  {
    exists j :: 0 <= j < i && f[j].fp == f[i].fp && !f[j].duplicate
  }

  ghost predicate HeadUnresolved(b: Buffered, fp: Fingerprint) {
    fp in b && b[fp] != [] && b[fp][0] == TEMPORARY_ID
  }

  /** A queue whose head is unresolved starts with a unique chunk. */
  ghost predicate HeadsResolved(b: Buffered, f: seq<Chunk>) {
    forall i :: 0 <= i < |f| && f[i].duplicate && HeadUnresolved(b, f[i].fp) ==> HasUniqueBefore(f, i)
  }

  /** ... and a unique chunk is at the head of its queue, unresolved. */
  ghost predicate UniquesLead(b: Buffered, f: seq<Chunk>) {
    forall i :: 0 <= i < |f| && !f[i].duplicate ==> HeadUnresolved(b, f[i].fp)
  }

  ghost predicate InFlight(b: Buffered, f: seq<Chunk>) {
    Mirrors(b, f) && LaterCopiesAreDuplicates(f) && HeadsResolved(b, f) && UniquesLead(b, f)
  }

  lemma MirrorsIn(b: Buffered, f: seq<Chunk>)
    requires Mirrors(b, f)
    ensures forall i :: 0 <= i < |f| ==> f[i].fp in b && b[f[i].fp] != []
    ensures forall fp :: fp in b ==> b[fp] != []
  {
    forall i | 0 <= i < |f| ensures f[i].fp in b && b[f[i].fp] != [] {
      CountZero(f, f[i].fp);
    }
  }

  // ----- what the elements say -----------------------------------------------------------

  /** The ids of the copies of a fingerprint in flight, in the order of the stream. */
  function Copies(f: seq<Chunk>, fp: Fingerprint): (r: seq<ContainerId>)
    ensures |r| == Count(f, fp)
  {
    if f == [] then [] else (if f[0].fp == fp then [f[0].id] else []) + Copies(f[1..], fp)
  }

  /** The last copy of a fingerprint that was filtered: its id, and how many copies were in flight behind it. */
  datatype Handed = Handed(id: ContainerId, behind: nat)

  function Behind(handed: Option<Handed>): nat {
    if handed.Some? then handed.value.behind else 0
  }

  /** A queue: the copies that were behind the last filtered one have its id, the others, looked up since, their
      own. */
  ghost predicate QueueOf(q: seq<ContainerId>, ids: seq<ContainerId>, handed: Option<Handed>) {
    |q| == |ids| && Behind(handed) <= |q| &&
    (forall k :: 0 <= k < Behind(handed) ==> q[k] == handed.value.id) &&
    (forall k :: Behind(handed) <= k < |q| ==> q[k] == ids[k])
  }

  function Last(last: map<Fingerprint, Handed>, fp: Fingerprint): Option<Handed> {
    if fp in last then Some(last[fp]) else None
  }

  /** Every queue lists exactly the copies of its fingerprint in flight, in stream order; last has the last filtered
      copy of each fingerprint, with none behind it if none is in flight. */
  ghost predicate Lists(b: Buffered, f: seq<Chunk>, last: map<Fingerprint, Handed>) {
    (forall fp :: fp in b ==> QueueOf(b[fp], Copies(f, fp), Last(last, fp))) &&
    (forall fp :: fp in last && fp !in b ==> last[fp].behind == 0)
  }

  /** The last filtered copies after the first ones of f have been filtered as done. */
  function LastIds(last: map<Fingerprint, Handed>, f: seq<Chunk>, done: seq<Chunk>): map<Fingerprint, Handed>
    requires |done| <= |f|
  {
    if done == [] then last
    else
      var c := done[|done| - 1];
      LastIds(last, f, done[..|done| - 1])[c.fp := Handed(c.id, Count(f[|done|..], c.fp))]
  }

  lemma {:induction false} CopiesAppend(f: seq<Chunk>, c: Chunk, fp: Fingerprint)
    ensures Copies(f + [c], fp) == Copies(f, fp) + if c.fp == fp then [c.id] else []
  {
    if f == [] {
      assert (f + [c])[1..] == [];
    } else {
      assert (f + [c])[1..] == f[1..] + [c];
      CopiesAppend(f[1..], c, fp);
    }
  }

  /** Looking a chunk up puts its own id behind the elements of the earlier copies. */
  lemma PushLists(b: Buffered, f: seq<Chunk>, c: Chunk, last: map<Fingerprint, Handed>)
    requires Mirrors(b, f) && Lists(b, f, last)
    ensures Lists(PushElem(b, c), f + [c], last)
  {
    hide QueueOf, Copies;
    var b' := PushElem(b, c);
    forall fp | fp in b' ensures QueueOf(b'[fp], Copies(f + [c], fp), Last(last, fp)) {
      CopiesAppend(f, c, fp);
      if fp == c.fp {
        if fp !in b {
          EmptyQueue(Copies(f, fp), Last(last, fp));
        }
        PushQueue(if fp in b then b[fp] else [], Copies(f, fp), Last(last, fp), c.id);
      } else {
        assert Copies(f + [c], fp) == Copies(f, fp);
      }
    }
  }

  lemma EmptyQueue(ids: seq<ContainerId>, handed: Option<Handed>)
    requires ids == [] && Behind(handed) == 0
    ensures QueueOf([], ids, handed)
  {}

  lemma PushQueue(q: seq<ContainerId>, ids: seq<ContainerId>, handed: Option<Handed>, id: ContainerId)
    requires QueueOf(q, ids, handed)
    ensures QueueOf(q + [id], ids + [id], handed)
  {}

  /** Filtering the oldest copy drops its element; the copies behind all get its id. */
  lemma PopLists(b: Buffered, f: seq<Chunk>, c: Chunk, last: map<Fingerprint, Handed>)
    requires Mirrors(b, f) && Lists(b, f, last) && f != [] && c.fp == f[0].fp
    ensures Lists(PopElem(b, c), f[1..], last[c.fp := Handed(c.id, Count(f[1..], c.fp))])
  {
    hide Copies, QueueOf;
    var b' := PopElem(b, c);
    var last' := last[c.fp := Handed(c.id, Count(f[1..], c.fp))];
    forall fp | fp in b' ensures QueueOf(b'[fp], Copies(f[1..], fp), Last(last', fp)) {
      CopiesRest(f, fp);
      if fp == c.fp {
        HandedQueue(b'[fp], Copies(f[1..], fp), c.id);
      } else {
        assert QueueOf(b[fp], Copies(f, fp), Last(last, fp));
      }
    }
    CopiesRest(f, c.fp);
  }

  lemma CopiesRest(f: seq<Chunk>, fp: Fingerprint)
    requires f != []
    ensures fp != f[0].fp ==> Copies(f, fp) == Copies(f[1..], fp)
    ensures fp == f[0].fp ==> Count(f, fp) == 1 + |Copies(f[1..], fp)|
  {}

  lemma HandedQueue(q: seq<ContainerId>, ids: seq<ContainerId>, id: ContainerId)
    requires |q| == |ids| && forall k :: 0 <= k < |q| ==> q[k] == id
    ensures QueueOf(q, ids, Some(Handed(id, |ids|)))
  {}

  /** Looking a chunk up adds its element behind the elements of the earlier copies. */
  lemma PushKeeps(b: Buffered, f: seq<Chunk>, c: Chunk, last: map<Fingerprint, Handed>)
    requires InFlight(b, f)
    requires c.fp in b ==> c.duplicate
    requires c.fp !in b ==> (c.duplicate <==> c.id != TEMPORARY_ID)
    ensures InFlight(PushElem(b, c), f + [c])
    ensures Lists(b, f, last) ==> Lists(PushElem(b, c), f + [c], last)
  {
    PushMirrors(b, f, c);
    PushHeads(b, f, c);
    if Lists(b, f, last) {
      PushLists(b, f, c, last);
    }
  }

  lemma PushMirrors(b: Buffered, f: seq<Chunk>, c: Chunk)
    requires InFlight(b, f) && (c.fp in b ==> c.duplicate)
    ensures Mirrors(PushElem(b, c), f + [c]) && LaterCopiesAreDuplicates(f + [c])
  {
    var f' := f + [c];
    forall fp ensures Count(f', fp) == Count(f, fp) + if fp == c.fp then 1 else 0 {
      CountAppend(f, [c], fp);
    }
    CountZero(f, c.fp);
  }

  lemma PushHeads(b: Buffered, f: seq<Chunk>, c: Chunk)
    requires InFlight(b, f)
    requires c.fp in b ==> c.duplicate
    requires c.fp !in b ==> (c.duplicate <==> c.id != TEMPORARY_ID)
    ensures HeadsResolved(PushElem(b, c), f + [c]) && UniquesLead(PushElem(b, c), f + [c])
  {
    var b', f' := PushElem(b, c), f + [c];
    MirrorsIn(b, f);
    CountZero(f, c.fp);
    forall i | 0 <= i < |f'| && f'[i].duplicate && HeadUnresolved(b', f'[i].fp)
      ensures HasUniqueBefore(f', i)
    {
      var k := i;
      if i == |f| {
        k :| 0 <= k < |f| && f[k].fp == c.fp;
      }
      assert HeadUnresolved(b, f[k].fp);
      if f[k].duplicate {
        assert HasUniqueBefore(f, k);
        var j :| 0 <= j < k && f[j].fp == f[k].fp && !f[j].duplicate;
        assert f'[j] == f[j];
      } else {
        assert f'[k] == f[k];
      }
    }
  }

  /** Updating the buffer with a resolved chunk drops the first copy in flight and hands its id on. */
  lemma PopKeeps(b: Buffered, f: seq<Chunk>, c: Chunk, last: map<Fingerprint, Handed>)
    requires InFlight(b, f) && f != []
    requires c.fp == f[0].fp && c.id != TEMPORARY_ID
    ensures InFlight(PopElem(b, c), f[1..])
    ensures Lists(b, f, last) ==> Lists(PopElem(b, c), f[1..], last[c.fp := Handed(c.id, Count(f[1..], c.fp))])
    ensures var b' := PopElem(b, c);
            (forall k :: c.fp in b' && 0 <= k < |b'[c.fp]| ==> b'[c.fp][k] == c.id) &&
            (forall fp :: fp in b && fp != c.fp ==> fp in b' && b'[fp] == b[fp])
  {
    PopMirrors(b, f, c);
    PopHeads(b, f, c);
    if Lists(b, f, last) {
      hide Lists, InFlight;
      PopLists(b, f, c, last);
    }
  }

  lemma PopMirrors(b: Buffered, f: seq<Chunk>, c: Chunk)
    requires InFlight(b, f) && f != [] && c.fp == f[0].fp
    ensures Mirrors(PopElem(b, c), f[1..]) && LaterCopiesAreDuplicates(f[1..])
  {
    hide HeadsResolved, UniquesLead;
    forall fp ensures Count(f, fp) == Count(f[1..], fp) + if fp == c.fp then 1 else 0 {}
    MirrorsIn(b, f);
  }

  lemma PopHeads(b: Buffered, f: seq<Chunk>, c: Chunk)
    requires InFlight(b, f) && f != [] && c.fp == f[0].fp && c.id != TEMPORARY_ID
    ensures HeadsResolved(PopElem(b, c), f[1..]) && UniquesLead(PopElem(b, c), f[1..])
  {
    var b', f' := PopElem(b, c), f[1..];
    MirrorsIn(b, f);
    forall i | 0 <= i < |f'| && f'[i].duplicate && HeadUnresolved(b', f'[i].fp)
      ensures HasUniqueBefore(f', i)
    {
      assert f'[i] == f[i + 1];
      assert HasUniqueBefore(f, i + 1);
      var j :| 0 <= j < i + 1 && f[j].fp == f[i + 1].fp && !f[j].duplicate;
      assert f'[j - 1] == f[j];
    }
  }

  // ----- what ids mean -------------------------------------------------------------------

  /** Container id holds fp: it is the open one, or one handed to the append queue. */
  ghost predicate Holds(st: Store, id: ContainerId, fp: Fingerprint) {
    (id in st.written && fp in st.written[id].fps)
    || (st.open.Some? && st.open.value.id == id && fp in st.open.value.fps)
  }

  ghost predicate Names(st: Store, dead: set<ContainerId>, id: ContainerId, fp: Fingerprint) {
    id != TEMPORARY_ID && id !in dead && Holds(st, id, fp)
  }

  ghost predicate InOpen(st: Store, fp: Fingerprint) {
    st.open.Some? && fp in st.open.value.fps
  }

  /** The tables agree with the containers, and nothing in them refers to a reclaimed one. */
  ghost predicate TablesOk(st: Store, dead: set<ContainerId>) {
    (forall id :: id in st.written ==>
      st.written[id].id == id && 0 <= id < st.count && st.written[id].fps != [])
    && (st.open.Some? ==> 0 <= st.open.value.id < st.count && st.open.value.id !in st.written)
    && dead <= st.written.Keys
    && (forall fp :: fp in st.kv ==> st.kv[fp] in st.written && st.kv[fp] !in dead
                                     && fp in st.written[st.kv[fp]].fps)
    && (forall m :: m in st.cache ==> m.id in st.written && m.id !in dead && st.written[m.id] == m)
  }

  ghost predicate OpenNotEmpty(st: Store) {
    st.open.Some? ==> st.open.value.fps != []
  }

  ghost predicate ElemsOk(st: Store, dead: set<ContainerId>, b: Buffered) {
    forall fp, k :: fp in b && 0 <= k < |b[fp]| ==>
      b[fp][k] == TEMPORARY_ID || Names(st, dead, b[fp][k], fp)
  }

  /** A chunk between lookup and filter. */
  ghost predicate ChunkOk(st: Store, dead: set<ContainerId>, c: Chunk) {
    (c.id == TEMPORARY_ID || Names(st, dead, c.id, c.fp))
    && (!c.duplicate ==> c.id == TEMPORARY_ID && !InOpen(st, c.fp))
    && c.size <= CONTAINER_SIZE - CONTAINER_META_SIZE
  }

  ghost predicate Inv(st: Store, dead: set<ContainerId>, f: seq<Chunk>) {
    TablesOk(st, dead) && OpenNotEmpty(st)
    && InFlight(st.buffered, f) && st.chunkNum == |f|
    && ElemsOk(st, dead, st.buffered)
    && forall i :: 0 <= i < |f| ==> ChunkOk(st, dead, f[i])
  }

  // ----- lookup --------------------------------------------------------------------------

  lemma LookupIndexKeeps(cfg: Config, st: Store, dead: set<ContainerId>, c: Chunk)
    requires TablesOk(st, dead)
    ensures var (st', c') := LookupIndex(cfg, st, c);
            TablesOk(st', dead) && st' == st.(cache := st'.cache)
            && (c'.duplicate && !c.duplicate ==> Names(st, dead, c'.id, c.fp))
            && (if c'.duplicate && !c.duplicate then c' == c.(id := c'.id, duplicate := true)
                else c' == c || c.duplicate)
  {
    var i := CacheFind(st.cache, c.fp);
    if i == |st.cache| && c.fp in st.kv {
      var m := st.written[st.kv[c.fp]];
      var cache := Lru.Insert(st.cache, cfg.cacheSize, m);
      assert cache[0] == m && CacheFind(cache, c.fp) == 0;
    }
  }

  /** The chunk a lookup returns: never resolved to a container that lacks it. */
  lemma {:induction false} LookupChunkOk(cfg: Config, st: Store, dead: set<ContainerId>, c: Chunk)
    requires TablesOk(st, dead) && ElemsOk(st, dead, st.buffered) && Readable(st)
    requires c == FreshChunk(c.fp, c.size) && c.size <= CONTAINER_SIZE - CONTAINER_META_SIZE
    ensures var (st', c') := LookupChunk(cfg, st, c);
            TablesOk(st', dead) && ChunkOk(st, dead, c')
            && c'.fp == c.fp && c'.size == c.size
            && st' == st.(cache := st'.cache, buffered := PushElem(st.buffered, c'), chunkNum := st.chunkNum + 1)
            && (c.fp in st.buffered ==> c'.duplicate)
            && (c.fp !in st.buffered ==> (c'.duplicate <==> c'.id != TEMPORARY_ID))
  {
    hide LookupIndex, CacheFind;
    var c2 := LookupBuffers(st, c);
    if !c2.duplicate {
      LookupIndexKeeps(cfg, st, dead, c2);
    }
  }

  /** A fingerprint that is known anywhere is found: in the storage buffer, in flight, in the cache or in the index, in
      that order.  In the last two cases the container it is found in is the first of the cache afterwards. */
  lemma LookupFinds(cfg: Config, st: Store, dead: set<ContainerId>, c: Chunk)
    requires TablesOk(st, dead) && Readable(st) && c == FreshChunk(c.fp, c.size)
    ensures var (st', c') := LookupChunk(cfg, st, c);
            var cached := exists m :: m in st.cache && c.fp in m.fps;
            (c'.duplicate <==> InOpen(st, c.fp) || c.fp in st.buffered || cached || c.fp in st.kv)
            && (if InOpen(st, c.fp) then c'.id == st.open.value.id
                else if c.fp in st.buffered then c'.id == st.buffered[c.fp][0]
                else if cached then st'.cache[0] in st.cache && c.fp in st'.cache[0].fps && c'.id == st'.cache[0].id
                else if c.fp in st.kv then st'.cache[0] == st.written[st.kv[c.fp]] && c'.id == st.kv[c.fp]
                else c' == c && st'.cache == st.cache)
  {
    var i := CacheFind(st.cache, c.fp);
    assert i < |st.cache| ==> st.cache[i] in st.cache;
    if i == |st.cache| && c.fp in st.kv {
      var m := st.written[st.kv[c.fp]];
      var cache := Lru.Insert(st.cache, cfg.cacheSize, m);
      assert cache[0] == m && CacheFind(cache, c.fp) == 0;
    }
  }

  lemma LookupKeeps(
    cfg: Config, st: Store, dead: set<ContainerId>, f: seq<Chunk>, c: Chunk, last: map<Fingerprint, Handed>)
    requires Inv(st, dead, f)
    requires c == FreshChunk(c.fp, c.size) && c.size <= CONTAINER_SIZE - CONTAINER_META_SIZE
    ensures Readable(st)
    ensures var (st', c') := LookupChunk(cfg, st, c);
            Inv(st', dead, f + [c']) && c'.fp == c.fp && c'.size == c.size
            && OnlyIndexChanged(st, st')
            && (Lists(st.buffered, f, last) ==> Lists(st'.buffered, f + [c'], last))
  {
    hide TablesOk, LookupChunk, InFlight, Lists;
    ReadableInv(st, dead, f);
    LookupChunkOk(cfg, st, dead, c);
    var (st', c') := LookupChunk(cfg, st, c);
    PushKeeps(st.buffered, f, c', last);
  }

  ghost predicate Fresh(c: Chunk) {
    c == FreshChunk(c.fp, c.size) && c.size <= CONTAINER_SIZE - CONTAINER_META_SIZE
  }

  /** Two streams of the same content; ids and marks may differ. */
  ghost predicate SameContent(a: seq<Chunk>, b: seq<Chunk>) {
    |a| == |b| && forall i :: 0 <= i < |a| ==> a[i].fp == b[i].fp && a[i].size == b[i].size
  }

  /** A lookup touches the index buffer and the fingerprint cache, nothing else. */
  ghost predicate OnlyIndexChanged(st: Store, st': Store) {
    st'.written == st.written && st'.open == st.open && st'.count == st.count && st'.kv == st.kv
  }

  lemma InvIn(st: Store, dead: set<ContainerId>, f: seq<Chunk>)
    requires Inv(st, dead, f)
    ensures forall i :: 0 <= i < |f| ==> f[i].fp in st.buffered && st.buffered[f[i].fp] != []
    ensures LaterCopiesAreDuplicates(f)
  {
    MirrorsIn(st.buffered, f);
  }

  lemma ReadableInv(st: Store, dead: set<ContainerId>, f: seq<Chunk>)
    requires Inv(st, dead, f)
    ensures Readable(st)
  {
    MirrorsIn(st.buffered, f);
  }

  lemma {:induction false} LookupSegmentKeeps(
    cfg: Config, st: Store, dead: set<ContainerId>, f: seq<Chunk>, cs: seq<Chunk>, last: map<Fingerprint, Handed>)
    requires Inv(st, dead, f)
    requires forall i :: 0 <= i < |cs| ==> Fresh(cs[i])
    ensures Readable(st)
    ensures var (st', done) := LookupSegment(cfg, st, cs);
            Inv(st', dead, f + done) && SameContent(done, cs) && OnlyIndexChanged(st, st')
            && (Lists(st.buffered, f, last) ==> Lists(st'.buffered, f + done, last))
  {
    hide LookupChunk, TablesOk, ElemsOk, InFlight, ChunkOk, Lists;
    ReadableInv(st, dead, f);
    if cs == [] {
      assert f + [] == f;
    } else {
      var n := |cs| - 1;
      LookupSegmentKeeps(cfg, st, dead, f, cs[..n], last);
      var (st1, done) := LookupSegment(cfg, st, cs[..n]);
      LookupKeeps(cfg, st1, dead, f + done, cs[n], last);
      var (st2, c) := LookupChunk(cfg, st1, cs[n]);
      assert f + done + [c] == f + (done + [c]);
      assert LookupSegment(cfg, st, cs) == (st2, done + [c]);
    }
  }

  // ----- filter --------------------------------------------------------------------------

  /** Between two stores: nothing that was stored is lost. */
  ghost predicate Grows(st: Store, st': Store) {
    forall id, fp :: Holds(st, id, fp) ==> Holds(st', id, fp)
  }

  lemma GrowsKeepsElems(st: Store, st': Store, dead: set<ContainerId>, b: Buffered)
    requires ElemsOk(st, dead, b) && Grows(st, st')
    ensures ElemsOk(st', dead, b)
  {}

  lemma CloseOpenKeeps(cfg: Config, st: Store, dead: set<ContainerId>)
    requires TablesOk(st, dead) && st.open.Some? && st.open.value.fps != []
    ensures var r := CloseOpen(cfg, st);
            TablesOk(r, dead) && Grows(st, r)
            && r == st.(written := r.written, open := None, kv := r.kv)
  {
    assert forall fp :: fp in Sampled(cfg, st.open.value) ==> fp in st.open.value.fps;
  }

  lemma MakeRoomKeeps(cfg: Config, st: Store, dead: set<ContainerId>, size: nat)
    requires TablesOk(st, dead) && OpenNotEmpty(st)
    requires size <= CONTAINER_SIZE - CONTAINER_META_SIZE
    ensures var r := MakeRoom(cfg, st, size);
            TablesOk(r, dead) && Grows(st, r) && !Overflow(r.open.value, size)
            && (forall fp :: InOpen(r, fp) ==> InOpen(st, fp))
            && r.open.value.id !in dead && r.buffered == st.buffered && r.chunkNum == st.chunkNum
  {
    var s1 := if st.open.None? then CreateContainer(st) else st;
    assert TablesOk(s1, dead) && Grows(st, s1);
    if Overflow(s1.open.value, size) {
      assert st.open.Some?;
      CloseOpenKeeps(cfg, s1, dead);
    }
  }

  ghost predicate TableNames(st: Store, dead: set<ContainerId>, t: map<Fingerprint, ContainerId>) {
    forall fp :: fp in t ==> Names(st, dead, t[fp], fp)
  }

  ghost predicate PassOk(p: Pass, dead: set<ContainerId>) {
    TablesOk(p.st, dead) && OpenNotEmpty(p.st)
    && TableNames(p.st, dead, p.unique) && TableNames(p.st, dead, p.rewritten)
  }

  /** One chunk of the write loop ends with an id that names a container holding it. */
  lemma WriteChunkKeeps(cfg: Config, p: Pass, dead: set<ContainerId>, c: Chunk)
    requires PassOk(p, dead) && c.size <= CONTAINER_SIZE - CONTAINER_META_SIZE
    requires !c.duplicate ==> !InOpen(p.st, c.fp)
    ensures var (p', c') := WriteChunk(cfg, p, c);
            PassOk(p', dead) && Grows(p.st, p'.st)
            && Names(p'.st, dead, c'.id, c.fp) && c' == c.(id := c'.id)
            && p'.monitor == p.monitor
            && p.unique.Keys <= p'.unique.Keys && (!c.duplicate ==> c.fp in p'.unique)
            && (forall fp :: InOpen(p'.st, fp) ==> InOpen(p.st, fp) || fp == c.fp)
            && p'.st.buffered == p.st.buffered && p'.st.chunkNum == p.st.chunkNum
  {
    hide MakeRoom, Overflow, TablesOk, TableNames;
    MakeRoomKeeps(cfg, p.st, dead, c.size);
    var st := MakeRoom(cfg, p.st, c.size);
    assert !c.duplicate ==> !InOpen(st, c.fp);
    NamesGrow(p.st, st, dead, p.unique);
    NamesGrow(p.st, st, dead, p.rewritten);
    if c.fp !in st.open.value.fps {
      AddKeeps(st, dead, c);
      var st' := Added(st, c);
      NamesGrow(st, st', dead, p.unique);
      NamesGrow(st, st', dead, p.rewritten);
      OneMoreName(st', dead, p.unique, c.fp, st.open.value.id);
      OneMoreName(st', dead, p.rewritten, c.fp, st.open.value.id);
    }
  }

  /** The store with a chunk added to its open container. */
  function Added(st: Store, c: Chunk): Store
    requires st.open.Some?
  {
    var o := st.open.value;
    st.(open := Some(o.(fps := o.fps + [c.fp], dataSize := o.dataSize + c.size)))
  }

  lemma AddKeeps(st: Store, dead: set<ContainerId>, c: Chunk)
    requires TablesOk(st, dead) && st.open.Some? && st.open.value.id !in dead
    ensures var st' := Added(st, c);
            TablesOk(st', dead) && OpenNotEmpty(st') && Grows(st, st')
            && Names(st', dead, st.open.value.id, c.fp)
            && (forall fp :: InOpen(st', fp) ==> InOpen(st, fp) || fp == c.fp)
  {}

  lemma NamesGrow(st: Store, st': Store, dead: set<ContainerId>, t: map<Fingerprint, ContainerId>)
    requires TableNames(st, dead, t) && Grows(st, st')
    ensures TableNames(st', dead, t)
  {
    hide Holds;
  }

  lemma OneMoreName(
    st: Store, dead: set<ContainerId>, t: map<Fingerprint, ContainerId>, fp: Fingerprint, id: ContainerId)
    requires TableNames(st, dead, t) && Names(st, dead, id, fp)
    ensures TableNames(st, dead, t[fp := id])
  {}

  lemma FilterChunkKeeps(cfg: Config, p: Pass, dead: set<ContainerId>, c: Chunk, h: Hint)
    requires PassOk(p, dead) && ChunkOk(p.st, dead, c)
    requires c.duplicate && c.id == TEMPORARY_ID ==> c.fp in p.unique
    ensures var (p', c') := FilterChunk(cfg, p, c, h);
            PassOk(p', dead) && Grows(p.st, p'.st)
            && Names(p'.st, dead, c'.id, c'.fp) && c'.fp == c.fp && c'.size == c.size
            && c'.duplicate == c.duplicate
            && p'.monitor == p.monitor + {c'.id}
            && p.unique.Keys <= p'.unique.Keys && (!c.duplicate ==> c.fp in p'.unique)
            && (forall fp :: InOpen(p'.st, fp) ==> InOpen(p.st, fp) || fp == c.fp)
            && p'.st.buffered == p.st.buffered && p'.st.chunkNum == p.st.chunkNum
  {
    hide WriteChunk, ResolveChunk, TablesOk, TableNames, Names;
    ResolveKeeps(p, dead, c, h);
    var c2 := ResolveChunk(p, c, h);
    if MustWrite(c2, h) {
      WriteChunkKeeps(cfg, p, dead, c2);
    }
  }

  /** A duplicate leaves the resolution with an id that names a container holding it. */
  lemma ResolveKeeps(p: Pass, dead: set<ContainerId>, c: Chunk, h: Hint)
    requires PassOk(p, dead) && ChunkOk(p.st, dead, c)
    requires c.duplicate && c.id == TEMPORARY_ID ==> c.fp in p.unique
    ensures var c2 := ResolveChunk(p, c, h);
            c2.fp == c.fp && c2.size == c.size && c2.duplicate == c.duplicate
            && c.size <= CONTAINER_SIZE - CONTAINER_META_SIZE
            && (if c.duplicate then Names(p.st, dead, c2.id, c.fp) else !InOpen(p.st, c.fp))
  {
    hide TablesOk, Holds;
  }

  /** An add is refused exactly for a duplicate that is to be rewritten into a container that has it already and
      has room for it: never for a unique chunk, and never for one that the rewrite stage did not mark. */
  lemma RefusedExactly(cfg: Config, p: Pass, dead: set<ContainerId>, c: Chunk, h: Hint)
    requires ChunkOk(p.st, dead, c)
    ensures var c2 := ResolveChunk(p, c, h);
            Refused(cfg, p, c, h) <==>
            c.duplicate && !c2.denied && (c.sparse || (h.enableRewrite && c.outOfOrder && !c2.inCache)) &&
            InOpen(p.st, c.fp) && !Overflow(p.st.open.value, c.size)
    ensures Refused(cfg, p, c, h) ==> c.sparse || c.outOfOrder
  {
    hide Overflow;
  }

  /** A chunk marked duplicate and still unresolved has its unique copy earlier in the segment. */
  lemma CheckedChunk(st: Store, dead: set<ContainerId>, f: seq<Chunk>, i: nat)
    requires Inv(st, dead, f) && i < |f|
    ensures f[i].fp in st.buffered && st.buffered[f[i].fp] != []
    ensures var c := CheckChunk(st.buffered, f[i]);
            ChunkOk(st, dead, c) && c.fp == f[i].fp && c.duplicate == f[i].duplicate
            && c.size == f[i].size
            && (c.duplicate && c.id == TEMPORARY_ID ==> HasUniqueBefore(f, i))
  {
    MirrorsIn(st.buffered, f);
    var c := CheckChunk(st.buffered, f[i]);
    var be := st.buffered[f[i].fp][0];
    assert be == TEMPORARY_ID || Names(st, dead, be, f[i].fp);
    if c.duplicate && c.id == TEMPORARY_ID {
      assert HeadUnresolved(st.buffered, f[i].fp);
    }
  }

  /** State of the write loop: done is finished, the rest of the stream g is as checked. */
  ghost predicate LoopOk(p: Pass, dead: set<ContainerId>, b: Buffered, g: seq<Chunk>, done: seq<Chunk>) {
    |done| <= |g|
    && PassOk(p, dead) && p.st.buffered == b && p.st.chunkNum == |g|
    && (forall k :: 0 <= k < |done| ==>
      done[k].fp == g[k].fp && Names(p.st, dead, done[k].id, done[k].fp) && done[k].id in p.monitor)
    && (forall k :: 0 <= k < |done| && !g[k].duplicate ==> g[k].fp in p.unique)
    && (forall k :: |done| <= k < |g| ==> ChunkOk(p.st, dead, g[k]))
  }

  /** The early copy the source asserts to be among the recently unique chunks is there. */
  lemma UniqueCopyIsRecent(p: Pass, dead: set<ContainerId>, b: Buffered, g: seq<Chunk>, done: seq<Chunk>)
    requires LoopOk(p, dead, b, g, done) && |done| < |g|
    requires HasUniqueBefore(g, |done|)
    ensures g[|done|].fp in p.unique
  {
    var j :| 0 <= j < |done| && g[j].fp == g[|done|].fp && !g[j].duplicate;
  }

  lemma LoopStep(cfg: Config, p: Pass, dead: set<ContainerId>, b: Buffered, g: seq<Chunk>, done: seq<Chunk>, h: Hint)
    requires LoopOk(p, dead, b, g, done) && |done| < |g|
    requires LaterCopiesAreDuplicates(g)
    requires var c := g[|done|]; c.duplicate && c.id == TEMPORARY_ID ==> HasUniqueBefore(g, |done|)
    ensures var (p', c') := FilterChunk(cfg, p, g[|done|], h);
            LoopOk(p', dead, b, g, done + [c']) && Grows(p.st, p'.st)
            && p'.monitor == p.monitor + {c'.id} && c'.fp == g[|done|].fp && c'.size == g[|done|].size
  {
    var i := |done|;
    if g[i].duplicate && g[i].id == TEMPORARY_ID {
      UniqueCopyIsRecent(p, dead, b, g, done);
    }
    FilterChunkKeeps(cfg, p, dead, g[i], h);
    var (p', c') := FilterChunk(cfg, p, g[i], h);
    forall k | i + 1 <= k < |g| ensures ChunkOk(p'.st, dead, g[k]) {
      assert ChunkOk(p.st, dead, g[k]);
    }
  }

  /** The ids of a stream. */
  function IdsOf(cs: seq<Chunk>): set<ContainerId> {
    set c | c in cs :: c.id
  }

  lemma LoopLength(dead: set<ContainerId>, b: Buffered, g: seq<Chunk>)
    ensures forall p, d :: LoopOk(p, dead, b, g, d) ==> |d| <= |g|
  {}

  lemma {:induction false} FilterLoopKeeps(
    cfg: Config, p: Pass, dead: set<ContainerId>, b: Buffered, g: seq<Chunk>, n: nat, hs: seq<Hint>)
    requires n == |hs| <= |g|
    requires LoopOk(p, dead, b, g, [])
    requires LaterCopiesAreDuplicates(g)
    requires forall i :: 0 <= i < n && g[i].duplicate && g[i].id == TEMPORARY_ID ==> HasUniqueBefore(g, i)
    ensures var (p', done) := FilterLoop(cfg, p, g[..n], hs);
            LoopOk(p', dead, b, g, done) && Grows(p.st, p'.st) && SameContent(done, g[..n])
            && p'.monitor == p.monitor + IdsOf(done)
  {
    hide FilterChunk, LoopOk, LaterCopiesAreDuplicates, HasUniqueBefore, Grows, IdsOf, FilterLoop, SameContent;
    LoopLength(dead, b, g);
    if n == 0 {
      LoopNothing(cfg, p, g[..n], hs);
    } else {
      var m := n - 1;
      FilterLoopKeeps(cfg, p, dead, b, g, m, hs[..m]);
      var (p1, done) := FilterLoop(cfg, p, g[..m], hs[..m]);
      LoopStep(cfg, p1, dead, b, g, done, hs[m]);
      LoopOneMore(cfg, p, g[..n], hs);
      assert g[..n][..m] == g[..m];
      var (p2, c) := FilterChunk(cfg, p1, g[m], hs[m]);
      SameContentMore(done, g[..n], c);
      IdsMore(done, c);
      GrowsOn(p.st, p1.st, p2.st);
    }
  }

  lemma LoopNothing(cfg: Config, p: Pass, cs: seq<Chunk>, hs: seq<Hint>)
    requires cs == [] && hs == []
    ensures FilterLoop(cfg, p, cs, hs) == (p, [])
    ensures Grows(p.st, p.st) && SameContent([], cs) && IdsOf([]) == {}
  {}

  lemma LoopOneMore(cfg: Config, p: Pass, cs: seq<Chunk>, hs: seq<Hint>)
    requires |cs| == |hs| > 0
    ensures var m := |cs| - 1;
            var (p1, done) := FilterLoop(cfg, p, cs[..m], hs[..m]);
            var (p2, c) := FilterChunk(cfg, p1, cs[m], hs[m]);
            FilterLoop(cfg, p, cs, hs) == (p2, done + [c])
  {
    hide FilterChunk;
  }

  lemma SameContentMore(done: seq<Chunk>, cs: seq<Chunk>, c: Chunk)
    requires |cs| > 0 && SameContent(done, cs[..|cs| - 1])
    requires c.fp == cs[|cs| - 1].fp && c.size == cs[|cs| - 1].size
    ensures SameContent(done + [c], cs)
  {}

  lemma IdsMore(done: seq<Chunk>, c: Chunk)
    ensures IdsOf(done + [c]) == IdsOf(done) + {c.id}
  {}

  lemma GrowsOn(s1: Store, s2: Store, s3: Store)
    requires Grows(s1, s2) && Grows(s2, s3)
    ensures Grows(s1, s3)
  {
    hide Holds;
  }

  /** index_update_buffer on a whole segment leaves the queues of the chunks behind it. */
  lemma {:induction false} PopSegmentKeeps(
    st: Store, dead: set<ContainerId>, b: Buffered, f: seq<Chunk>, done: seq<Chunk>,
    last: map<Fingerprint, Handed>)
    requires |done| <= |f| && InFlight(b, f) && ElemsOk(st, dead, b)
    requires forall k :: 0 <= k < |done| ==>
      done[k].fp == f[k].fp && Names(st, dead, done[k].id, done[k].fp)
    ensures InFlight(PopSegment(b, done), f[|done|..]) && ElemsOk(st, dead, PopSegment(b, done))
    ensures Lists(b, f, last) ==> Lists(PopSegment(b, done), f[|done|..], LastIds(last, f, done))
  {
    hide Lists, InFlight;
    if done == [] {
      assert f[0..] == f;
    } else {
      var m := |done| - 1;
      PopSegmentKeeps(st, dead, b, f, done[..m], last);
      PopKeeps(PopSegment(b, done[..m]), f[m..], done[m], LastIds(last, f, done[..m]));
      assert f[m..][1..] == f[m + 1..];
    }
  }

  /** A stream that differs from f in ids and marks only. */
  lemma SameShape(f: seq<Chunk>, g: seq<Chunk>)
    requires |f| == |g|
    requires forall i :: 0 <= i < |f| ==> g[i].fp == f[i].fp && g[i].duplicate == f[i].duplicate
    ensures LaterCopiesAreDuplicates(f) ==> LaterCopiesAreDuplicates(g)
    ensures forall i :: 0 <= i < |f| && HasUniqueBefore(f, i) ==> HasUniqueBefore(g, i)
  {
    forall i | 0 <= i < |f| && HasUniqueBefore(f, i) ensures HasUniqueBefore(g, i) {
      var j :| 0 <= j < i && f[j].fp == f[i].fp && !f[j].duplicate;
      assert g[j].fp == g[i].fp && !g[j].duplicate;
    }
  }

  /** The tables say the same when only the index buffer changes. */
  lemma OnlyBufferChanged(st: Store, st': Store, dead: set<ContainerId>)
    requires st' == st.(buffered := st'.buffered, chunkNum := st'.chunkNum)
    ensures TablesOk(st, dead) ==> TablesOk(st', dead)
    ensures OpenNotEmpty(st) ==> OpenNotEmpty(st')
    ensures forall id, fp :: Names(st, dead, id, fp) <==> Names(st', dead, id, fp)
    ensures forall id, fp :: Holds(st, id, fp) <==> Holds(st', id, fp)
    ensures forall b :: ElemsOk(st, dead, b) ==> ElemsOk(st', dead, b)
    ensures forall c :: ChunkOk(st, dead, c) ==> ChunkOk(st', dead, c)
  {}

  /** The stream as the write loop sees it: the first n chunks checked against the buffer. */
  function CheckedStream(b: Buffered, f: seq<Chunk>, n: nat): seq<Chunk>
    requires n <= |f|
    requires forall i :: 0 <= i < |f| ==> f[i].fp in b && b[f[i].fp] != []
  {
    CheckSegment(b, f[..n]) + f[n..]
  }

  lemma CheckedStreamOk(st: Store, dead: set<ContainerId>, f: seq<Chunk>, n: nat)
    requires Inv(st, dead, f) && n <= |f|
    requires forall i :: 0 <= i < |f| ==> f[i].fp in st.buffered && st.buffered[f[i].fp] != []
    ensures var g := CheckedStream(st.buffered, f, n);
            |g| == |f| && LaterCopiesAreDuplicates(g)
            && (forall i :: 0 <= i < |f| ==> ChunkOk(st, dead, g[i]))
            && SameContent(g, f)
            && (forall i :: 0 <= i < n && g[i].duplicate && g[i].id == TEMPORARY_ID ==> HasUniqueBefore(g, i))
  {
    hide TablesOk, ElemsOk, ChunkOk, InFlight, CheckChunk;
    InvIn(st, dead, f);
    var g := CheckedStream(st.buffered, f, n);
    forall i | 0 <= i < |f|
      ensures ChunkOk(st, dead, g[i]) && g[i].fp == f[i].fp && g[i].size == f[i].size
      ensures g[i].duplicate == f[i].duplicate
    {
      if i < n { CheckedChunk(st, dead, f, i); }
    }
    SameShape(f, g);
    forall i | 0 <= i < n && g[i].duplicate && g[i].id == TEMPORARY_ID ensures HasUniqueBefore(g, i) {
      CheckedChunk(st, dead, f, i);
    }
  }

  /**
   One critical section of the filter thread over the first n chunks in flight, for any marks
   and any answers of the cache-aware filter and the cfl switch: every chunk leaves with an id
   that names a container holding it, and the rest of the stream is as consistent as before.
   */
  lemma FilterSegmentKeeps(
    cfg: Config, st: Store, dead: set<ContainerId>, f: seq<Chunk>, n: nat, hs: seq<Hint>, monitor: set<ContainerId>,
    last: map<Fingerprint, Handed>)
    requires Inv(st, dead, f) && n == |hs| <= |f|
    ensures forall c :: c in f[..n] ==> c.fp in st.buffered && st.buffered[c.fp] != []
    ensures var (st', monitor', done) := FilterSegment(cfg, st, monitor, f[..n], hs);
            Inv(st', dead, f[n..]) && Grows(st, st') && SameContent(done, f[..n])
            && monitor' == monitor + IdsOf(done)
            && (forall k :: 0 <= k < n ==> Names(st', dead, done[k].id, done[k].fp))
            && (Lists(st.buffered, f, last) ==> Lists(st'.buffered, f[n..], LastIds(last, f, done)))
  {
    hide Lists, FilterLoop, CheckSegment, TablesOk, InFlight, PopSegment, HasUniqueBefore, ChunkOk, ElemsOk, Holds,
      Names;
    InvIn(st, dead, f);
    CheckedStreamOk(st, dead, f, n);
    assert forall c :: c in f[..n] ==> c.fp in st.buffered && st.buffered[c.fp] != [];
    var checked := CheckSegment(st.buffered, f[..n]);
    var g := CheckedStream(st.buffered, f, n);
    assert g[..n] == checked;
    var p := Pass(st, map[], map[], monitor);
    FilterLoopKeeps(cfg, p, dead, st.buffered, g, n, hs);
    var (p', done) := FilterLoop(cfg, p, checked, hs);
    GrowsKeepsElems(st, p'.st, dead, st.buffered);
    PopSegmentKeeps(p'.st, dead, st.buffered, f, done, last);
    var st' := p'.st.(buffered := PopSegment(st.buffered, done), chunkNum := |f| - n);
    OnlyBufferChanged(p'.st, st', dead);
    forall k | 0 <= k < |f| - n ensures ChunkOk(st', dead, f[n..][k]) {
      assert f[n..][k] == g[n + k];
    }
    assert FilterSegment(cfg, st, monitor, f[..n], hs) == (st', p'.monitor, done);
  }
}
