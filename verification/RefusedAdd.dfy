/**
 When add_chunk_to_container refuses a chunk (src/filter_phase.c:176-198).  In general it takes a duplicate that was
 marked in flight.  The source asserts that with an exact index it also takes a rewrite algorithm: with
 history-aware rewriting alone, which marks chunks too (src/har_rewrite.c:170-181), no chunk is ever refused.
 */
module RefusedAdd {
  import opened Common
  import opened DedupSpec
  import Lru
  import opened DedupSafety
  import opened History
  import ExactDedup

  /** Filtering these chunks, the container refuses chunk i. */
  ghost predicate AddRefused(
    cfg: Config, st: Store, monitor: set<ContainerId>, cs: seq<Chunk>, hs: seq<Hint>, i: nat)
    requires i < |cs| == |hs|
    requires forall c :: c in cs ==> c.fp in st.buffered && st.buffered[c.fp] != []
  {
    var checked := CheckSegment(st.buffered, cs);
    Refused(cfg, FilterLoop(cfg, Pass(st, map[], map[], monitor), checked[..i], hs[..i]).0, checked[i], hs[i])
  }

  ghost predicate Marked(c: Chunk) {
    c.sparse || c.outOfOrder
  }

  lemma SegmentRefusesMarked(
    cfg: Config, st: Store, dead: set<ContainerId>, f: seq<Chunk>, n: nat, hs: seq<Hint>, monitor: set<ContainerId>,
    i: nat)
    requires Inv(st, dead, f) && i < n == |hs| <= |f|
    requires forall c :: c in f[..n] ==> c.fp in st.buffered && st.buffered[c.fp] != []
    requires AddRefused(cfg, st, monitor, f[..n], hs, i)
    ensures f[i].duplicate && Marked(f[i])
  {
    hide FilterLoop, CheckSegment, TablesOk, InFlight, HasUniqueBefore, ChunkOk, ElemsOk, Refused, ResolveChunk;
    InvIn(st, dead, f);
    CheckedStreamOk(st, dead, f, n);
    var g := CheckedStream(st.buffered, f, n);
    var checked := CheckSegment(st.buffered, f[..n]);
    assert g[..i] == checked[..i] && g[i] == checked[i];
    FilterLoopKeeps(cfg, Pass(st, map[], map[], monitor), dead, st.buffered, g, i, hs[..i]);
    var (p, done) := FilterLoop(cfg, Pass(st, map[], map[], monitor), g[..i], hs[..i]);
    RefusedExactly(cfg, p, dead, g[i], hs[i]);
  }

  /** After every history, only a duplicate that the rewrite stage has marked can be refused. */
  lemma OnlyMarkedRefused(cfg: Config, es: seq<Event>, n: nat, hs: seq<Hint>, i: nat)
    requires Enabled(cfg, Run(cfg, es), Filter(n, hs)) && i < n
    requires var s := Run(cfg, es); AddRefused(cfg, s.st, s.monitor, s.flight[..n], hs, i)
    ensures var c := Run(cfg, es).flight[i]; c.duplicate && Marked(c)
  {
    hide Run, AddRefused, JobOk, BackupsOk, ManifestOk;
    AlwaysGood(cfg, es);
    var s := Run(cfg, es);
    SegmentRefusesMarked(cfg, s.st, s.reclaimed, s.flight, n, hs, s.monitor, i);
  }

  // ----- with the marks of history-aware rewriting -----------------------------------------

  /** har_check: the chunk is a duplicate of one in a container the previous backup used sparsely. */
  predicate Inherited(c: Chunk, sparse: set<ContainerId>) {
    c.duplicate && c.id in sparse
  }

  /** The only marks in flight are those of har_check. */
  ghost predicate OnlyInherited(f: seq<Chunk>, sparse: set<ContainerId>) {
    forall i :: 0 <= i < |f| ==> !f[i].outOfOrder && (f[i].sparse ==> Inherited(f[i], sparse))
  }

  /** Both are looked up as something else than a chunk of a container of the current job. */
  predicate BothOld(c: Chunk, d: Chunk, base: nat) {
    c.fp == d.fp && !c.denied && !d.denied && c.id < base && d.id < base
  }

  ghost predicate Head(b: Buffered, fp: Fingerprint, id: ContainerId) {
    fp in b && b[fp] != [] && b[fp][0] == id
  }

  ghost predicate NewHead(b: Buffered, fp: Fingerprint, base: nat) {
    fp in b && b[fp] != [] && b[fp][0] >= base
  }

  /** A chunk denied at its lookup has the id of a container of this job; any other one without such an id has the
      id its queue hands out, unless that is the id of a container of this job by now. */
  ghost predicate FollowsHead(b: Buffered, c: Chunk, base: nat) {
    (c.denied ==> c.duplicate && c.id >= base)
    && (c.id < base ==> Head(b, c.fp, c.id) || NewHead(b, c.fp, base))
  }

  ghost predicate OldAgree(f: seq<Chunk>, base: nat) {
    forall i, j :: 0 <= i < j < |f| && BothOld(f[i], f[j], base) ==> f[i].id == f[j].id
  }

  /** What the lookups of one job keep, its containers having the ids from base on, when the sparse ones are older. */
  ghost predicate Traced(st: Store, f: seq<Chunk>, base: nat, sparse: set<ContainerId>) {
    (forall id :: id in sparse ==> 0 <= id < base)
    && base <= st.count && (st.open.Some? ==> st.open.value.id >= base)
    && (forall i :: 0 <= i < |f| ==> FollowsHead(st.buffered, f[i], base))
    && OldAgree(f, base)
    && (forall fp :: fp in st.buffered && InOpen(st, fp) ==> SettledHead(st.buffered, fp, sparse))
  }

  /** A fingerprint that is in the open container is not handed out under the id of a sparse one. */
  ghost predicate SettledHead(b: Buffered, fp: Fingerprint, sparse: set<ContainerId>)
    requires fp in b
  {
    b[fp] != [] && b[fp][0] !in sparse
  }

  // ----- lookup --------------------------------------------------------------------------

  lemma LookupIds(cfg: Config, st: Store, c: Chunk)
    requires Readable(st) && c == FreshChunk(c.fp, c.size)
    ensures var c' := LookupChunk(cfg, st, c).1;
            c'.fp == c.fp && !c'.sparse && !c'.outOfOrder && !c'.inCache
            && (InOpen(st, c.fp) ==> c'.denied && c'.duplicate && c'.id == st.open.value.id)
            && (!InOpen(st, c.fp) ==> !c'.denied && (c.fp in st.buffered ==> c'.id == st.buffered[c.fp][0]))
  {}

  lemma LookupTraces(cfg: Config, st: Store, dead: set<ContainerId>, f: seq<Chunk>, c: Chunk, base: nat,
                     sparse: set<ContainerId>)
    requires Inv(st, dead, f) && Fresh(c) && Traced(st, f, base, sparse)
    ensures Readable(st)
    ensures var (st', c') := LookupChunk(cfg, st, c);
            Traced(st', f + [c'], base, sparse) && (OnlyInherited(f, sparse) ==> OnlyInherited(f + [c'], sparse))
  {
    ReadableInv(st, dead, f);
    InvIn(st, dead, f);
    LookupIds(cfg, st, c);
    PushesBehind(cfg, st, c);
    hide Inv, LookupChunk, Readable, OldAgree, FollowsHead;
    var (st', c') := LookupChunk(cfg, st, c);
    assert forall i :: 0 <= i < |f| ==> FollowsHead(st'.buffered, f[i], base) by {
      forall i | 0 <= i < |f| ensures FollowsHead(st'.buffered, f[i], base) {
        SameHead(st.buffered, st'.buffered, f[i], base);
      }
    }
    NewFollows(st, st', c', base);
    OldPush(st.buffered, f, c', base);
  }

  lemma SameHead(b: Buffered, b': Buffered, c: Chunk, base: nat)
    requires FollowsHead(b, c, base)
    requires c.fp in b && b[c.fp] != [] ==> c.fp in b' && b'[c.fp] != [] && b'[c.fp][0] == b[c.fp][0]
    ensures FollowsHead(b', c, base)
  {}

  lemma NewFollows(st: Store, st': Store, c: Chunk, base: nat)
    requires st.open.Some? ==> st.open.value.id >= base
    requires InOpen(st, c.fp) ==> c.denied && c.duplicate && c.id == st.open.value.id
    requires !InOpen(st, c.fp) ==> !c.denied
    requires c.fp in st'.buffered && st'.buffered[c.fp] != []
    requires !InOpen(st, c.fp) ==> st'.buffered[c.fp][0] == c.id
    ensures FollowsHead(st'.buffered, c, base)
  {}

  lemma OldPush(b: Buffered, f: seq<Chunk>, c: Chunk, base: nat)
    requires OldAgree(f, base) && forall i :: 0 <= i < |f| ==> FollowsHead(b, f[i], base)
    requires forall i :: 0 <= i < |f| ==> f[i].fp in b && b[f[i].fp] != []
    requires !c.denied && c.fp in b && b[c.fp] != [] ==> c.id == b[c.fp][0]
    ensures OldAgree(f + [c], base)
  {
    forall i | 0 <= i < |f| && BothOld(f[i], c, base) ensures f[i].id == c.id {
      assert FollowsHead(b, f[i], base);
    }
  }

  lemma PushesBehind(cfg: Config, st: Store, c: Chunk)
    requires Readable(st) && c == FreshChunk(c.fp, c.size)
    ensures var (st', c') := LookupChunk(cfg, st, c);
            (forall fp :: fp in st.buffered ==> fp in st'.buffered && st'.buffered[fp] != []
                                                && st'.buffered[fp][0] == st.buffered[fp][0])
            && st'.buffered.Keys == st.buffered.Keys + {c.fp}
            && c.fp in st'.buffered && st'.buffered[c.fp] != []
            && (c.fp !in st.buffered ==> st'.buffered[c.fp][0] == c'.id)
            && st'.open == st.open && st'.count == st.count
  {
    hide CacheFind, Lru.Insert, Lru.MoveToFront;
  }

  lemma {:induction false} LookupSegmentTraces(
    cfg: Config, st: Store, dead: set<ContainerId>, f: seq<Chunk>, cs: seq<Chunk>, base: nat, sparse: set<ContainerId>)
    requires Inv(st, dead, f) && (forall i :: 0 <= i < |cs| ==> Fresh(cs[i]))
    requires Traced(st, f, base, sparse)
    ensures Readable(st)
    ensures var (st', done) := LookupSegment(cfg, st, cs);
            Traced(st', f + done, base, sparse) && (OnlyInherited(f, sparse) ==> OnlyInherited(f + done, sparse))
  {
    hide LookupChunk, Traced, OnlyInherited, Inv, Fresh;
    ReadableInv(st, dead, f);
    if cs == [] {
      assert f + [] == f;
    } else {
      var n := |cs| - 1;
      LookupSegmentTraces(cfg, st, dead, f, cs[..n], base, sparse);
      LookupSegmentKeeps(cfg, st, dead, f, cs[..n], map[]);
      var (st1, done) := LookupSegment(cfg, st, cs[..n]);
      LookupTraces(cfg, st1, dead, f + done, cs[n], base, sparse);
      var (st2, c) := LookupChunk(cfg, st1, cs[n]);
      assert f + done + [c] == f + (done + [c]);
      assert LookupSegment(cfg, st, cs) == (st2, done + [c]);
    }
  }

  // ----- filter --------------------------------------------------------------------------

  /** All marks are in place for the first n chunks in flight. */
  ghost predicate MarksInPlace(f: seq<Chunk>, n: nat, sparse: set<ContainerId>)
    requires n <= |f|
  {
    forall i :: 0 <= i < n && Inherited(f[i], sparse) ==> f[i].sparse
  }

  /** A copy of fp among the first n that was written because of its mark. */
  ghost predicate Rewritable(f: seq<Chunk>, n: nat, fp: Fingerprint, base: nat, sparse: set<ContainerId>)
    requires n <= |f|
  {
    exists k :: 0 <= k < n && f[k].fp == fp && !f[k].denied && Inherited(f[k], sparse)
  }

  ghost predicate UniqueAmong(f: seq<Chunk>, n: nat, fp: Fingerprint)
    requires n <= |f|
  {
    exists k :: 0 <= k < n && f[k].fp == fp && !f[k].duplicate
  }

  /** A finished chunk has the id of a container of this job, or keeps the one it was looked up with, which is not
      that of a sparse container. */
  ghost predicate Finished(c: Chunk, c0: Chunk, base: nat, sparse: set<ContainerId>) {
    c.id >= base || (c.id == c0.id && !c0.denied && c.id !in sparse)
  }

  /** The write loop after the chunks done. */
  ghost predicate LoopTraced(p: Pass, st: Store, f: seq<Chunk>, done: seq<Chunk>, base: nat, sparse: set<ContainerId>) {
    |done| <= |f| && base <= p.st.count && (p.st.open.Some? ==> p.st.open.value.id >= base)
    && (forall fp :: fp in p.unique ==> p.unique[fp] >= base && UniqueAmong(f, |done|, fp))
    && (forall fp :: fp in p.rewritten ==> p.rewritten[fp] >= base && Rewritable(f, |done|, fp, base, sparse))
    && (forall fp :: InOpen(p.st, fp) ==> InOpen(st, fp) || fp in p.unique || fp in p.rewritten)
    && (forall k :: 0 <= k < |done| ==> Finished(done[k], f[k], base, sparse))
  }

  /** What the check against the buffer leaves to be written because of its mark. */
  lemma CheckTraces(st: Store, dead: set<ContainerId>, f: seq<Chunk>, base: nat, sparse: set<ContainerId>, i: nat)
    requires Inv(st, dead, f) && Traced(st, f, base, sparse) && OnlyInherited(f, sparse) && i < |f|
    requires Inherited(f[i], sparse) ==> f[i].sparse
    requires f[i].fp in st.buffered && st.buffered[f[i].fp] != []
    ensures var c, g := f[i], CheckChunk(st.buffered, f[i]);
            g.fp == c.fp && g.duplicate == c.duplicate && g.sparse == c.sparse && !g.outOfOrder
            && (g.sparse && !g.denied ==> Inherited(c, sparse) && !c.denied && !InOpen(st, c.fp))
            && (g.id >= base || (g.id == c.id && !c.denied && !g.denied && (c.id in sparse ==> g.sparse)))
  {
    hide InFlight, TablesOk, ElemsOk, OldAgree;
    var c := f[i];
    assert FollowsHead(st.buffered, c, base) && ChunkOk(st, dead, c);
    assert InOpen(st, c.fp) ==> SettledHead(st.buffered, c.fp, sparse);
  }

  /** A marked copy that is not denied has no unique one before it. */
  lemma NotUnique(st: Store, dead: set<ContainerId>, f: seq<Chunk>, base: nat, sparse: set<ContainerId>, i: nat)
    requires Inv(st, dead, f) && Traced(st, f, base, sparse) && i < |f|
    requires Inherited(f[i], sparse) && !f[i].denied
    ensures !UniqueAmong(f, i, f[i].fp)
  {
    hide InFlight, TablesOk, ElemsOk;
    forall k | 0 <= k < i && f[k].fp == f[i].fp ensures f[k].duplicate {
      assert ChunkOk(st, dead, f[k]) && FollowsHead(st.buffered, f[k], base);
    }
  }

  /** With the marks of har_check in place, the container does not refuse the next chunk. */
  lemma NextNotRefused(
    cfg: Config, p: Pass, st: Store, dead: set<ContainerId>, f: seq<Chunk>, done: seq<Chunk>, h: Hint, base: nat,
    sparse: set<ContainerId>)
    requires Inv(st, dead, f) && Traced(st, f, base, sparse) && OnlyInherited(f, sparse) && |done| < |f|
    requires var c := f[|done|];
             (Inherited(c, sparse) ==> c.sparse) && c.fp in st.buffered && st.buffered[c.fp] != []
             && ChunkOk(p.st, dead, CheckChunk(st.buffered, c))
    requires LoopTraced(p, st, f, done, base, sparse)
    ensures !Refused(cfg, p, CheckChunk(st.buffered, f[|done|]), h)
  {
    hide Inv, Traced, CheckChunk, ChunkOk, Refused, Overflow, UniqueAmong, Rewritable;
    var i := |done|;
    var g := CheckChunk(st.buffered, f[i]);
    CheckTraces(st, dead, f, base, sparse, i);
    RefusedExactly(cfg, p, dead, g, h);
    if Refused(cfg, p, g, h) {
      assert Inherited(f[i], sparse) && !f[i].denied;
      NotUnique(st, dead, f, base, sparse, i);
    }
  }

  /** Writing a chunk that is not refused: into a container of this job, and into one of the two tables. */
  lemma WriteTraces(cfg: Config, p: Pass, c: Chunk, base: nat)
    requires base <= p.st.count && (p.st.open.Some? ==> p.st.open.value.id >= base)
    requires c.fp !in MakeRoom(cfg, p.st, c.size).open.value.fps
    ensures var (p', c') := WriteChunk(cfg, p, c);
            c'.id >= base && base <= p'.st.count && p'.st.open.Some? && p'.st.open.value.id >= base
            && (forall fp :: InOpen(p'.st, fp) ==> InOpen(p.st, fp) || fp == c.fp)
            && p'.unique == (if c.duplicate then p.unique else p.unique[c.fp := c'.id])
            && p'.rewritten == (if c.duplicate then p.rewritten[c.fp := c'.id] else p.rewritten)
  {
    hide Overflow;
  }

  /** One chunk of the write loop. */
  lemma NextTraced(
    cfg: Config, p: Pass, st: Store, dead: set<ContainerId>, f: seq<Chunk>, done: seq<Chunk>, h: Hint, base: nat,
    sparse: set<ContainerId>)
    requires Inv(st, dead, f) && Traced(st, f, base, sparse) && OnlyInherited(f, sparse) && |done| < |f|
    requires var c := f[|done|];
             (Inherited(c, sparse) ==> c.sparse) && c.fp in st.buffered && st.buffered[c.fp] != []
             && ChunkOk(p.st, dead, CheckChunk(st.buffered, c))
    requires var g := CheckChunk(st.buffered, f[|done|]);
             g.duplicate && g.id == TEMPORARY_ID ==> g.fp in p.unique
    requires LoopTraced(p, st, f, done, base, sparse)
    ensures var (p', c) := FilterChunk(cfg, p, CheckChunk(st.buffered, f[|done|]), h);
            LoopTraced(p', st, f, done + [c], base, sparse)
  {
    hide Inv, Traced, CheckChunk, ChunkOk, WriteChunk, LoopTraced, MakeRoom, ResolveChunk, Finished;
    var g := CheckChunk(st.buffered, f[|done|]);
    NextNotRefused(cfg, p, st, dead, f, done, h, base, sparse);
    CheckTraces(st, dead, f, base, sparse, |done|);
    var c2 := ResolveChunk(p, g, h);
    ResolveTraces(p, st, f, done, g, h, base, sparse);
    if MustWrite(c2, h) {
      RecordTraces(cfg, p, st, f, done, c2, base, sparse);
      var (p1, c') := WriteChunk(cfg, p, c2);
      MonitorTraces(p1, p1.(monitor := p1.monitor + {c'.id}), st, f, done + [c'], base, sparse);
    } else {
      KeepTraces(p, p.(monitor := p.monitor + {c2.id}), st, f, done, c2, base, sparse);
    }
  }

  /** A chunk that is not to be written has a final id; one that is because of its mark was not denied. */
  lemma ResolveTraces(
    p: Pass, st: Store, f: seq<Chunk>, done: seq<Chunk>, g: Chunk, h: Hint, base: nat, sparse: set<ContainerId>)
    requires LoopTraced(p, st, f, done, base, sparse) && |done| < |f|
    requires var c := f[|done|];
             g.fp == c.fp && g.duplicate == c.duplicate && g.sparse == c.sparse && !g.outOfOrder
             && (g.sparse && !g.denied ==> Inherited(c, sparse) && !c.denied)
             && (g.id >= base || (g.id == c.id && !c.denied && !g.denied && (c.id in sparse ==> g.sparse)))
    requires g.duplicate && g.id == TEMPORARY_ID ==> g.fp in p.unique
    ensures var c, c2 := f[|done|], ResolveChunk(p, g, h);
            c2.fp == c.fp && c2.duplicate == c.duplicate && c2.size == g.size
            && (MustWrite(c2, h) && c.duplicate ==> Inherited(c, sparse) && !c.denied)
            && (!MustWrite(c2, h) ==> Finished(c2, c, base, sparse))
  {
    hide UniqueAmong, Rewritable, InOpen;
  }

  /** A chunk that is written. */
  lemma RecordTraces(
    cfg: Config, p: Pass, st: Store, f: seq<Chunk>, done: seq<Chunk>, c: Chunk, base: nat, sparse: set<ContainerId>)
    requires LoopTraced(p, st, f, done, base, sparse) && |done| < |f|
    requires c.fp == f[|done|].fp && c.duplicate == f[|done|].duplicate
    requires c.duplicate ==> Inherited(f[|done|], sparse) && !f[|done|].denied
    requires c.fp !in MakeRoom(cfg, p.st, c.size).open.value.fps
    ensures var (p', c') := WriteChunk(cfg, p, c); LoopTraced(p', st, f, done + [c'], base, sparse)
  {
    hide WriteChunk, UniqueAmong, Rewritable, MakeRoom, InOpen;
    AmongMore(f, |done|, base, sparse);
    WriteTraces(cfg, p, c, base);
  }

  /** A chunk that is not. */
  lemma KeepTraces(
    p: Pass, p': Pass, st: Store, f: seq<Chunk>, done: seq<Chunk>, c: Chunk, base: nat, sparse: set<ContainerId>)
    requires LoopTraced(p, st, f, done, base, sparse) && |done| < |f| && p' == p.(monitor := p'.monitor)
    requires Finished(c, f[|done|], base, sparse)
    ensures LoopTraced(p', st, f, done + [c], base, sparse)
  {
    hide UniqueAmong, Rewritable, InOpen, Finished;
    AmongMore(f, |done|, base, sparse);
  }

  lemma MonitorTraces(
    p: Pass, p': Pass, st: Store, f: seq<Chunk>, done: seq<Chunk>, base: nat, sparse: set<ContainerId>)
    requires LoopTraced(p, st, f, done, base, sparse) && p' == p.(monitor := p'.monitor)
    ensures LoopTraced(p', st, f, done, base, sparse)
  {}

  lemma AmongMore(f: seq<Chunk>, n: nat, base: nat, sparse: set<ContainerId>)
    requires n < |f|
    ensures forall fp :: UniqueAmong(f, n, fp) ==> UniqueAmong(f, n + 1, fp)
    ensures forall fp :: Rewritable(f, n, fp, base, sparse) ==> Rewritable(f, n + 1, fp, base, sparse)
    ensures !f[n].duplicate ==> UniqueAmong(f, n + 1, f[n].fp)
    ensures !f[n].denied && Inherited(f[n], sparse) ==> Rewritable(f, n + 1, f[n].fp, base, sparse)
  {}

  lemma {:induction false} LoopTraces(
    cfg: Config, p: Pass, dead: set<ContainerId>, f: seq<Chunk>, n: nat, i: nat, hs: seq<Hint>, base: nat,
    sparse: set<ContainerId>)
    requires Inv(p.st, dead, f) && i == |hs| <= n <= |f| && p.unique == map[] && p.rewritten == map[]
    requires Traced(p.st, f, base, sparse) && OnlyInherited(f, sparse) && MarksInPlace(f, n, sparse)
    requires forall k :: 0 <= k < |f| ==> f[k].fp in p.st.buffered && p.st.buffered[f[k].fp] != []
    ensures var (p', done) := FilterLoop(cfg, p, CheckedStream(p.st.buffered, f, n)[..i], hs);
            LoopTraced(p', p.st, f, done, base, sparse)
  {
    hide Inv, FilterChunk, LoopTraced, FilterLoop, LoopOk, OnlyInherited, Traced, HasUniqueBefore,
      LaterCopiesAreDuplicates, PassOk, TablesOk, InFlight, ElemsOk, ChunkOk;
    var g := CheckedStream(p.st.buffered, f, n);
    if i == 0 {
      StartTraces(cfg, p, f, base, sparse, g[..0], hs);
    } else {
      var m := i - 1;
      LoopTraces(cfg, p, dead, f, n, m, hs[..m], base, sparse);
      var (p1, done) := FilterLoop(cfg, p, g[..m], hs[..m]);
      LoopReady(cfg, p, dead, f, n, m, hs[..m]);
      assert g[m] == CheckChunk(p.st.buffered, f[m]);
      NextTraced(cfg, p1, p.st, dead, f, done, hs[m], base, sparse);
      assert g[..i][..m] == g[..m];
      LoopOneMore(cfg, p, g[..i], hs);
    }
  }

  lemma StartTraces(
    cfg: Config, p: Pass, f: seq<Chunk>, base: nat, sparse: set<ContainerId>, cs: seq<Chunk>, hs: seq<Hint>)
    requires cs == [] && hs == [] && p.unique == map[] && p.rewritten == map[] && Traced(p.st, f, base, sparse)
    ensures var (p', done) := FilterLoop(cfg, p, cs, hs); LoopTraced(p', p.st, f, done, base, sparse)
  {
    hide OldAgree;
  }

  /** What is known of the next chunk of the write loop. */
  lemma LoopReady(cfg: Config, p: Pass, dead: set<ContainerId>, f: seq<Chunk>, n: nat, m: nat, hs: seq<Hint>)
    requires Inv(p.st, dead, f) && m == |hs| < n <= |f| && p.unique == map[] && p.rewritten == map[]
    requires forall k :: 0 <= k < |f| ==> f[k].fp in p.st.buffered && p.st.buffered[f[k].fp] != []
    ensures var g := CheckedStream(p.st.buffered, f, n);
            var (p1, done) := FilterLoop(cfg, p, g[..m], hs);
            |done| == m && ChunkOk(p1.st, dead, g[m])
            && (g[m].duplicate && g[m].id == TEMPORARY_ID ==> g[m].fp in p1.unique)
  {
    hide FilterLoop, TablesOk, InFlight, HasUniqueBefore, ChunkOk, ElemsOk, CheckChunk, Holds, Names;
    InvIn(p.st, dead, f);
    CheckedStreamOk(p.st, dead, f, n);
    var g := CheckedStream(p.st.buffered, f, n);
    FilterLoopKeeps(cfg, p, dead, p.st.buffered, g, m, hs);
    var (p1, done) := FilterLoop(cfg, p, g[..m], hs);
    if g[m].duplicate && g[m].id == TEMPORARY_ID {
      UniqueCopyIsRecent(p1, dead, p.st.buffered, g, done);
    }
  }

  /** The head of a queue after a segment: the id of a finished copy, if there was one. */
  lemma {:induction false} PopHead(b: Buffered, done: seq<Chunk>, fp: Fingerprint)
    requires fp in PopSegment(b, done) && fp in b && b[fp] != []
    ensures PopSegment(b, done)[fp] != []
    ensures (forall k :: 0 <= k < |done| ==> done[k].fp != fp) ==> PopSegment(b, done)[fp] == b[fp]
    ensures (exists k :: 0 <= k < |done| && done[k].fp == fp) ==>
              exists k :: 0 <= k < |done| && done[k].fp == fp && PopSegment(b, done)[fp][0] == done[k].id
  {
    if done != [] {
      var n := |done| - 1;
      PopHead(b, done[..n], fp);
      if done[n].fp != fp && exists k :: 0 <= k < |done| && done[k].fp == fp {
        var k :| 0 <= k < |done| && done[k].fp == fp;
        assert done[..n][k].fp == fp;
        var j :| 0 <= j < n && done[..n][j].fp == fp && PopSegment(b, done[..n])[fp][0] == done[..n][j].id;
        assert done[j].fp == fp;
      }
    }
  }

  lemma {:induction false} PopKeys(b: Buffered, done: seq<Chunk>)
    ensures PopSegment(b, done).Keys <= b.Keys
  {
    if done != [] {
      PopKeys(b, done[..|done| - 1]);
    }
  }

  /** A copy behind the segment still follows the head of its queue. */
  lemma RestFollows(
    b: Buffered, f: seq<Chunk>, done: seq<Chunk>, i: nat, base: nat, sparse: set<ContainerId>)
    requires |done| <= i < |f| && FollowsHead(b, f[i], base) && OldAgree(f, base)
    requires forall k :: 0 <= k < |done| ==> done[k].fp == f[k].fp && Finished(done[k], f[k], base, sparse)
    requires f[i].fp in b && b[f[i].fp] != [] && f[i].fp in PopSegment(b, done)
    ensures FollowsHead(PopSegment(b, done), f[i], base)
  {
    hide PopSegment;
    var fp := f[i].fp;
    PopHead(b, done, fp);
    if exists k :: 0 <= k < |done| && done[k].fp == fp {
      var k :| 0 <= k < |done| && done[k].fp == fp && PopSegment(b, done)[fp][0] == done[k].id;
      assert BothOld(f[k], f[i], base) ==> f[k].id == f[i].id;
    }
  }

  /** What is in the open container after a segment is not handed out under the id of a sparse one. */
  lemma SettledAfter(
    p: Pass, st: Store, f: seq<Chunk>, done: seq<Chunk>, fp: Fingerprint, base: nat, sparse: set<ContainerId>)
    requires LoopTraced(p, st, f, done, base, sparse) && fp in st.buffered && st.buffered[fp] != []
    requires InOpen(st, fp) ==> SettledHead(st.buffered, fp, sparse)
    requires forall id :: id in sparse ==> id < base
    requires forall k :: 0 <= k < |done| ==> done[k].fp == f[k].fp
    requires fp in PopSegment(st.buffered, done) && InOpen(p.st, fp)
    ensures SettledHead(PopSegment(st.buffered, done), fp, sparse)
  {
    hide PopSegment;
    PopHead(st.buffered, done, fp);
    if exists k :: 0 <= k < |done| && done[k].fp == fp {
      var k :| 0 <= k < |done| && done[k].fp == fp && PopSegment(st.buffered, done)[fp][0] == done[k].id;
      assert Finished(done[k], f[k], base, sparse);
    } else {
      NotAmong(f, done, fp, base, sparse);
    }
  }

  lemma NotAmong(f: seq<Chunk>, done: seq<Chunk>, fp: Fingerprint, base: nat, sparse: set<ContainerId>)
    requires |done| <= |f| && forall k :: 0 <= k < |done| ==> done[k].fp == f[k].fp && done[k].fp != fp
    ensures !UniqueAmong(f, |done|, fp) && !Rewritable(f, |done|, fp, base, sparse)
  {}

  /** A critical section of the filter thread, all marks of its segment in place, refuses nothing. */
  lemma SegmentTraces(
    cfg: Config, st: Store, dead: set<ContainerId>, f: seq<Chunk>, n: nat, hs: seq<Hint>, monitor: set<ContainerId>,
    base: nat, sparse: set<ContainerId>)
    requires Inv(st, dead, f) && n == |hs| <= |f|
    requires Traced(st, f, base, sparse) && OnlyInherited(f, sparse) && MarksInPlace(f, n, sparse)
    ensures forall c :: c in f[..n] ==> c.fp in st.buffered && st.buffered[c.fp] != []
    ensures Traced(FilterSegment(cfg, st, monitor, f[..n], hs).0, f[n..], base, sparse)
    ensures OnlyInherited(f[n..], sparse)
    ensures forall i :: 0 <= i < n ==> !AddRefused(cfg, st, monitor, f[..n], hs, i)
  {
    InvIn(st, dead, f);
    assert forall c :: c in f[..n] ==> c.fp in st.buffered && st.buffered[c.fp] != [];
    forall i | 0 <= i < n ensures !AddRefused(cfg, st, monitor, f[..n], hs, i) {
      ChunkNotRefused(cfg, st, dead, f, n, hs, monitor, base, sparse, i);
    }
    AfterSegment(cfg, st, dead, f, n, hs, monitor, base, sparse);
  }

  lemma ChunkNotRefused(
    cfg: Config, st: Store, dead: set<ContainerId>, f: seq<Chunk>, n: nat, hs: seq<Hint>, monitor: set<ContainerId>,
    base: nat, sparse: set<ContainerId>, i: nat)
    requires Inv(st, dead, f) && i < n == |hs| <= |f|
    requires Traced(st, f, base, sparse) && OnlyInherited(f, sparse) && MarksInPlace(f, n, sparse)
    requires forall c :: c in f[..n] ==> c.fp in st.buffered && st.buffered[c.fp] != []
    ensures !AddRefused(cfg, st, monitor, f[..n], hs, i)
  {
    hide Inv, Traced, OnlyInherited, FilterLoop, CheckSegment, CheckChunk, Refused, LoopTraced, ChunkOk;
    InvIn(st, dead, f);
    var p := Pass(st, map[], map[], monitor);
    var g := CheckedStream(st.buffered, f, n);
    var checked := CheckSegment(st.buffered, f[..n]);
    assert g[..i] == checked[..i] && g[i] == checked[i] == CheckChunk(st.buffered, f[i]);
    LoopTraces(cfg, p, dead, f, n, i, hs[..i], base, sparse);
    LoopReady(cfg, p, dead, f, n, i, hs[..i]);
    var (p1, done) := FilterLoop(cfg, p, g[..i], hs[..i]);
    NextNotRefused(cfg, p1, st, dead, f, done, hs[i], base, sparse);
  }

  lemma AfterSegment(
    cfg: Config, st: Store, dead: set<ContainerId>, f: seq<Chunk>, n: nat, hs: seq<Hint>, monitor: set<ContainerId>,
    base: nat, sparse: set<ContainerId>)
    requires Inv(st, dead, f) && n == |hs| <= |f|
    requires Traced(st, f, base, sparse) && OnlyInherited(f, sparse) && MarksInPlace(f, n, sparse)
    requires forall c :: c in f[..n] ==> c.fp in st.buffered && st.buffered[c.fp] != []
    ensures Traced(FilterSegment(cfg, st, monitor, f[..n], hs).0, f[n..], base, sparse)
  {
    hide Inv, OnlyInherited, FilterLoop, FilterSegment, CheckChunk, CheckSegment, Traced, LoopTraced;
    InvIn(st, dead, f);
    var p := Pass(st, map[], map[], monitor);
    var g := CheckedStream(st.buffered, f, n);
    LoopTraces(cfg, p, dead, f, n, n, hs, base, sparse);
    SegmentState(cfg, st, dead, f, n, hs, monitor);
    var (p1, done) := FilterLoop(cfg, p, g[..n], hs);
    ReadableInv(st, dead, f);
    RestQueued(cfg, st, dead, f, n, hs, monitor);
    RestTraced(p1, st, f, done, base, sparse);
    TracedTables(p1.st.(buffered := PopSegment(st.buffered, done)),
                 FilterSegment(cfg, st, monitor, f[..n], hs).0, f[n..], base, sparse);
  }

  /** A critical section is its write loop and the update of the buffer. */
  lemma SegmentState(
    cfg: Config, st: Store, dead: set<ContainerId>, f: seq<Chunk>, n: nat, hs: seq<Hint>, monitor: set<ContainerId>)
    requires Inv(st, dead, f) && n == |hs| <= |f|
    requires forall i :: 0 <= i < |f| ==> f[i].fp in st.buffered && st.buffered[f[i].fp] != []
    requires forall c :: c in f[..n] ==> c.fp in st.buffered && st.buffered[c.fp] != []
    ensures var g := CheckedStream(st.buffered, f, n);
            var (p1, done) := FilterLoop(cfg, Pass(st, map[], map[], monitor), g[..n], hs);
            FilterSegment(cfg, st, monitor, f[..n], hs).0
            == p1.st.(buffered := PopSegment(st.buffered, done), chunkNum := p1.st.chunkNum - n)
            && |done| == n && forall k :: 0 <= k < n ==> done[k].fp == f[k].fp
  {
    hide FilterLoop, TablesOk, InFlight, HasUniqueBefore, ChunkOk, ElemsOk, CheckChunk, Holds, Names, PopSegment;
    InvIn(st, dead, f);
    CheckedStreamOk(st, dead, f, n);
    var g := CheckedStream(st.buffered, f, n);
    assert g[..n] == CheckSegment(st.buffered, f[..n]);
    FilterLoopKeeps(cfg, Pass(st, map[], map[], monitor), dead, st.buffered, g, n, hs);
  }

  /** The copies behind the segment still have their queues. */
  lemma RestQueued(
    cfg: Config, st: Store, dead: set<ContainerId>, f: seq<Chunk>, n: nat, hs: seq<Hint>, monitor: set<ContainerId>)
    requires Inv(st, dead, f) && n == |hs| <= |f|
    requires forall c :: c in f[..n] ==> c.fp in st.buffered && st.buffered[c.fp] != []
    ensures forall i :: n <= i < |f| ==> f[i].fp in FilterSegment(cfg, st, monitor, f[..n], hs).0.buffered
  {
    hide FilterSegment, Inv, SameContent, Names, Lists, IdsOf, Grows, LaterCopiesAreDuplicates, LastIds;
    FilterSegmentKeeps(cfg, st, dead, f, n, hs, monitor, map[]);
    var st' := FilterSegment(cfg, st, monitor, f[..n], hs).0;
    InvIn(st', dead, f[n..]);
    forall i | n <= i < |f| ensures f[i].fp in st'.buffered {
      assert f[n..][i - n] == f[i];
    }
  }

  lemma TracedTables(st: Store, st': Store, f: seq<Chunk>, base: nat, sparse: set<ContainerId>)
    requires Traced(st, f, base, sparse) && st' == st.(chunkNum := st'.chunkNum)
    ensures Traced(st', f, base, sparse)
  {
    hide OldAgree, FollowsHead, SettledHead;
  }

  /** The copies behind a finished segment, and the queues without it. */
  lemma RestTraced(p: Pass, st: Store, f: seq<Chunk>, done: seq<Chunk>, base: nat, sparse: set<ContainerId>)
    requires LoopTraced(p, st, f, done, base, sparse) && Traced(st, f, base, sparse) && Readable(st)
    requires forall k :: 0 <= k < |done| ==> done[k].fp == f[k].fp
    requires forall i :: 0 <= i < |f| ==> f[i].fp in st.buffered && st.buffered[f[i].fp] != []
    requires forall i :: |done| <= i < |f| ==> f[i].fp in PopSegment(st.buffered, done)
    ensures Traced(p.st.(buffered := PopSegment(st.buffered, done)), f[|done|..], base, sparse)
  {
    hide PopSegment, FollowsHead, OldAgree, InOpen, SettledHead, Finished, UniqueAmong, Rewritable;
    var b' := PopSegment(st.buffered, done);
    var st' := p.st.(buffered := b');
    var rest := f[|done|..];
    OldRest(f, |done|, base);
    forall i | 0 <= i < |rest| ensures FollowsHead(b', rest[i], base) {
      RestFollows(st.buffered, f, done, |done| + i, base, sparse);
    }
    PopKeys(st.buffered, done);
    assert forall fp :: InOpen(st', fp) <==> InOpen(p.st, fp) by { OpenSame(p.st, st'); }
    forall fp | fp in b' && InOpen(st', fp) ensures SettledHead(b', fp, sparse) {
      SettledAfter(p, st, f, done, fp, base, sparse);
    }
  }

  lemma OpenSame(st: Store, st': Store)
    requires st.open == st'.open
    ensures forall fp :: InOpen(st, fp) <==> InOpen(st', fp)
  {}

  lemma OldRest(f: seq<Chunk>, n: nat, base: nat)
    requires OldAgree(f, base) && n <= |f|
    ensures OldAgree(f[n..], base)
  {}

  // ----- whole histories -----------------------------------------------------------------

  /**
   Events as they happen without a rewrite algorithm.  no_rewrite marks chunks by har_check alone, and a chunk right
   after it has pushed it; so a segment, which the filter thread takes with its end, has all its marks by then.
   sparse are the containers the job inherits as sparse, all of earlier jobs.
   */
  ghost predicate HarEvent(s: System, e: Event, sparse: set<ContainerId>) {
    match e
    case Begin => sparse <= s.st.written.Keys
    case Mark(pos, mark, outOfOrder) =>
      pos < |s.flight| ==> !outOfOrder && (mark ==> Inherited(s.flight[pos], sparse))
    case Filter(n, _) => n <= |s.flight| ==> MarksInPlace(s.flight, n, sparse)
    case _ => true
  }

  /** Whatever containers each job inherits as sparse. */
  ghost predicate HarOnly(cfg: Config, es: seq<Event>, sparse: nat -> set<ContainerId>) {
    es == [] ||
    (HarOnly(cfg, es[..|es| - 1], sparse) &&
     var s := Run(cfg, es[..|es| - 1]);
     HarEvent(s, es[|es| - 1], sparse(s.job)))
  }

  ghost predicate HarGood(s: System, sparse: set<ContainerId>) {
    s.running ==> OnlyInherited(s.flight, sparse) && exists base: nat :: Traced(s.st, s.flight, base, sparse)
  }

  lemma BeginTraces(cfg: Config, s: System, sparse: set<ContainerId>)
    requires Good(s) && Enabled(cfg, s, Begin) && sparse <= s.st.written.Keys
    ensures HarGood(Apply(cfg, s, Begin), sparse)
  {
    assert Traced(Apply(cfg, s, Begin).st, [], s.st.count, sparse);
  }

  lemma MarkTraces(cfg: Config, s: System, pos: nat, mark: bool, sparse: set<ContainerId>)
    requires Enabled(cfg, s, Mark(pos, mark, false)) && HarGood(s, sparse)
    requires mark ==> Inherited(s.flight[pos], sparse)
    ensures HarGood(Apply(cfg, s, Mark(pos, mark, false)), sparse)
  {
    var base: nat :| Traced(s.st, s.flight, base, sparse);
    SameIdsTraced(s.st, s.flight, Apply(cfg, s, Mark(pos, mark, false)).flight, base, sparse);
  }

  lemma SameIdsTraced(st: Store, f: seq<Chunk>, g: seq<Chunk>, base: nat, sparse: set<ContainerId>)
    requires Traced(st, f, base, sparse) && |f| == |g|
    requires forall i :: 0 <= i < |f| ==>
      g[i] == f[i].(sparse := g[i].sparse, outOfOrder := g[i].outOfOrder)
    ensures Traced(st, g, base, sparse)
  {
    forall i | 0 <= i < |g| ensures FollowsHead(st.buffered, g[i], base) {
      assert FollowsHead(st.buffered, f[i], base);
    }
    forall i, j | 0 <= i < j < |g| && BothOld(g[i], g[j], base) ensures g[i].id == g[j].id {
      assert BothOld(f[i], f[j], base);
    }
  }

  lemma StepTraces(cfg: Config, s: System, e: Event, sparse: set<ContainerId>)
    requires Good(s) && Enabled(cfg, s, e) && HarEvent(s, e, sparse) && HarGood(s, sparse)
    ensures var s' := Apply(cfg, s, e); s'.running ==> s'.job == s.job && HarGood(s', sparse)
  {
    hide Traced, OnlyInherited, FilterSegment, LookupSegment, Inv, JobOk, BackupsOk, ManifestOk, MarksInPlace;
    match e
    case Begin => BeginTraces(cfg, s, sparse);
    case Lookup(items) =>
      var base: nat :| Traced(s.st, s.flight, base, sparse);
      LookupSegmentTraces(cfg, s.st, s.reclaimed, s.flight, FreshSegment(items), base, sparse);
    case Mark(pos, mark, _) => MarkTraces(cfg, s, pos, mark, sparse);
    case Filter(n, hints) =>
      var base: nat :| Traced(s.st, s.flight, base, sparse);
      SegmentTraces(cfg, s.st, s.reclaimed, s.flight, n, hints, s.monitor, base, sparse);
    case Finish =>
    case Delete(_) =>
  }

  lemma {:induction false} AlwaysTraced(cfg: Config, es: seq<Event>, sparse: nat -> set<ContainerId>)
    requires HarOnly(cfg, es, sparse)
    ensures var s := Run(cfg, es); HarGood(s, sparse(s.job))
  {
    if es != [] {
      hide Good, HarGood, Apply, Enabled, HarEvent;
      var s := Run(cfg, es[..|es| - 1]);
      var e := es[|es| - 1];
      AlwaysTraced(cfg, es[..|es| - 1], sparse);
      AlwaysGood(cfg, es[..|es| - 1]);
      if Enabled(cfg, s, e) {
        StepTraces(cfg, s, e, sparse(s.job));
        NotRunning(Apply(cfg, s, e), sparse);
      }
    }
  }

  lemma NotRunning(s: System, sparse: nat -> set<ContainerId>)
    ensures !s.running ==> HarGood(s, sparse(s.job))
  {}

  /**
   The assert in the write loop: with history-aware rewriting or without, but with no rewrite algorithm, no container
   ever refuses a chunk, whatever the sampling and whatever containers are inherited as sparse.
   */
  lemma NeverRefused(
    cfg: Config, es: seq<Event>, sparse: nat -> set<ContainerId>, n: nat, hs: seq<Hint>, i: nat)
    requires HarOnly(cfg, es, sparse) && Enabled(cfg, Run(cfg, es), Filter(n, hs)) && i < n
    requires var s := Run(cfg, es); HarEvent(s, Filter(n, hs), sparse(s.job))
    ensures var s := Run(cfg, es); !AddRefused(cfg, s.st, s.monitor, s.flight[..n], hs, i)
  {
    hide Run, AddRefused, Traced, OnlyInherited, MarksInPlace, JobOk, BackupsOk, ManifestOk, Inv;
    AlwaysTraced(cfg, es, sparse);
    AlwaysGood(cfg, es);
    var s := Run(cfg, es);
    var base: nat :| Traced(s.st, s.flight, base, sparse(s.job));
    SegmentTraces(cfg, s.st, s.reclaimed, s.flight, n, hs, s.monitor, base, sparse(s.job));
  }

  lemma {:induction false} NoMarksHarOnly(cfg: Config, es: seq<Event>)
    requires ExactDedup.NoRewriting(es)
    ensures HarOnly(cfg, es, _ => {})
  {
    hide Run;
    if es != [] {
      NoMarksHarOnly(cfg, es[..|es| - 1]);
      assert !es[|es| - 1].Mark?;
    }
  }

  /** The same with history-aware rewriting off as well. */
  lemma NoMarkNoRefusal(cfg: Config, es: seq<Event>, n: nat, hs: seq<Hint>, i: nat)
    requires ExactDedup.NoRewriting(es) && Enabled(cfg, Run(cfg, es), Filter(n, hs)) && i < n
    ensures var s := Run(cfg, es); !AddRefused(cfg, s.st, s.monitor, s.flight[..n], hs, i)
  {
    hide Run, AddRefused, HarOnly;
    NoMarksHarOnly(cfg, es);
    NeverRefused(cfg, es, _ => {}, n, hs, i);
  }
}
