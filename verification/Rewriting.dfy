/**
 What the marks of the rewrite stage come to (src/filter_phase.c:99-198): which chunks are written again, into which
 container, and what is left of a round of capping after its filter pass (src/cap_rewrite.c).
 */
module Rewriting {
  import opened Common
  import opened DedupSpec
  import Lru
  import opened DedupSafety
  import opened History
  import opened RefusedAdd
  import Capping

  // ----- one chunk -----------------------------------------------------------------------

  /** The rewrite request of a duplicate stands: it is marked, and neither denied nor, if only out of order, spared
      by the cache-aware filter or the cfl switch. */
  predicate Requested(c: Chunk, h: Hint, rewritten: map<Fingerprint, ContainerId>) {
    !c.denied && c.fp !in rewritten &&
    (c.sparse || (c.outOfOrder && h.enableRewrite && !c.inCache && c.id !in h.cached))
  }

  /** A container takes a chunk when its 4 MB less 32 KB of data and its 1169 entries leave room. */
  predicate HasRoom(o: Option<Container>, size: nat) {
    o.Some? && o.value.dataSize + size <= 4161536 && |o.value.fps| < 1169
  }

  /** A unique chunk, or one whose request stands, ends in the open container if that has room and else in a new one;
      that container is then open and holds it. */
  lemma Written(cfg: Config, p: Pass, c: Chunk, h: Hint)
    requires !c.duplicate || Requested(c, h, p.rewritten)
    ensures var (p', c') := FilterChunk(cfg, p, c, h);
            p'.st.open.Some? && c'.id == p'.st.open.value.id && c.fp in p'.st.open.value.fps
            && (HasRoom(p.st.open, c.size) ==> c'.id == p.st.open.value.id)
            && (!HasRoom(p.st.open, c.size) ==> c'.id >= p.st.count)
            && (!HasRoom(p.st.open, c.size) && c.size <= 4161536 ==> c'.id == p.st.count)
            && (!Refused(cfg, p, c, h) ==>
                  var o := if HasRoom(p.st.open, c.size) then p.st.open.value else Container(c'.id, [], 0);
                  p'.st.open.value == Container(c'.id, o.fps + [c.fp], o.dataSize + c.size))
            && (HasRoom(p.st.open, c.size) ==> p'.st.written == p.st.written && p'.st.kv == p.st.kv)
            && (p.st.open.Some? && !HasRoom(p.st.open, c.size) && c.size <= 4161536 ==>
                  var closed := CloseOpen(cfg, p.st); p'.st.written == closed.written && p'.st.kv == closed.kv)
            && (c.duplicate && !Refused(cfg, p, c, h) ==> c.fp in p'.rewritten && p'.rewritten[c.fp] == c'.id)
            && (!c.duplicate && !Refused(cfg, p, c, h) ==> c.fp in p'.unique && p'.unique[c.fp] == c'.id)
  {
    hide MakeRoom, WriteChunk, ResolveChunk, MustWrite, Requested, CloseOpen;
    Decision(p, c, h);
    var c2 := ResolveChunk(p, c, h);
    RoomIsOpen(cfg, p.st, c.size);
    Stored(cfg, p, c2);
  }

  lemma Decision(p: Pass, c: Chunk, h: Hint)
    ensures var c2 := ResolveChunk(p, c, h);
            c2.fp == c.fp && c2.size == c.size && c2.duplicate == c.duplicate
            && (MustWrite(c2, h) <==> !c.duplicate || Requested(c, h, p.rewritten))
  {}

  lemma RoomIsOpen(cfg: Config, st: Store, size: nat)
    ensures var r := MakeRoom(cfg, st, size);
            r.open.Some? && r.count >= st.count
            && (if HasRoom(st.open, size) then r == st
                else r.open.value.id >= st.count && r.open.value == Container(r.open.value.id, [], 0)
                     && (size <= 4161536 ==> r.open.value.id == st.count))
            && (st.open.Some? && !HasRoom(st.open, size) && size <= 4161536 ==>
                  var closed := CloseOpen(cfg, st); r.written == closed.written && r.kv == closed.kv)
  {
    hide Sampled;
  }

  lemma Stored(cfg: Config, p: Pass, c: Chunk)
    ensures var (p', c') := WriteChunk(cfg, p, c);
            var o := MakeRoom(cfg, p.st, c.size).open.value;
            p'.st.open.Some? && c'.id == p'.st.open.value.id == o.id && c.fp in p'.st.open.value.fps
            && p'.st == MakeRoom(cfg, p.st, c.size).(open := p'.st.open)
            && (c.fp !in o.fps ==> p'.st.open.value == Container(o.id, o.fps + [c.fp], o.dataSize + c.size))
            && (if c.fp in o.fps then p'.unique == p.unique && p'.rewritten == p.rewritten
                else if c.duplicate then p'.unique == p.unique && p'.rewritten == p.rewritten[c.fp := c'.id]
                else p'.unique == p.unique[c.fp := c'.id] && p'.rewritten == p.rewritten)
  {
    hide MakeRoom;
  }

  /** Any other duplicate leaves the containers as they are; it keeps its id, unless a copy written before in the
      segment has a new one for it, or it has none. */
  lemma NotWritten(cfg: Config, p: Pass, c: Chunk, h: Hint)
    requires c.duplicate && !Requested(c, h, p.rewritten)
    ensures var (p', c') := FilterChunk(cfg, p, c, h);
            p'.st == p.st && p'.unique == p.unique && p'.rewritten == p.rewritten
            && c'.id == (if c.fp in p.rewritten then p.rewritten[c.fp]
                         else if c.id == TEMPORARY_ID && c.fp in p.unique then p.unique[c.fp] else c.id)
  {}

  /** Chunk i of a segment is filtered in the state its predecessors leave. */
  lemma {:induction false} LoopAt(cfg: Config, p: Pass, cs: seq<Chunk>, hs: seq<Hint>, i: nat)
    requires i < |cs| == |hs|
    ensures FilterLoop(cfg, p, cs, hs).1[i] == FilterChunk(cfg, FilterLoop(cfg, p, cs[..i], hs[..i]).0, cs[i], hs[i]).1
  {
    hide FilterChunk;
    var n := |cs| - 1;
    if i < n {
      LoopAt(cfg, p, cs[..n], hs[..n], i);
      assert cs[..n][..i] == cs[..i] && hs[..n][..i] == hs[..i];
    }
  }

  // ----- the containers of one job -------------------------------------------------------

  /** Traced, with no container taken for sparse; the cache-aware filter has not looked at the chunks yet. */
  ghost predicate Rooted(st: Store, f: seq<Chunk>, base: nat) {
    Traced(st, f, base, {}) && forall i :: 0 <= i < |f| ==> !f[i].inCache
  }

  /** The write loop after the chunks done, for any marks. */
  ghost predicate LoopRooted(p: Pass, f: seq<Chunk>, done: seq<Chunk>, base: nat) {
    |done| <= |f| && base <= p.st.count && (p.st.open.Some? ==> p.st.open.value.id >= base)
    && (forall fp :: fp in p.unique ==> p.unique[fp] >= base)
    && (forall fp :: fp in p.rewritten ==> p.rewritten[fp] >= base)
    && (forall k :: 0 <= k < |done| ==> Finished(done[k], f[k], base, {}))
  }

  /** The check gives a chunk the id of a container of this job, or leaves the id it was looked up with.  A marked one
      gets that of a copy that this job has written already, and is denied then, so that no copy is written again. */
  lemma CheckRoots(b: Buffered, c: Chunk, base: nat)
    requires FollowsHead(b, c, base) && c.fp in b && b[c.fp] != []
    ensures var g := CheckChunk(b, c);
            g == c.(id := g.id, denied := g.denied)
            && (g.id >= base || (g.id == c.id && !c.denied && !g.denied))
            && (c.duplicate && (c.sparse || c.outOfOrder) && 0 <= c.id < base ==>
                  (g.denied <==> g.id >= base) && (NewHead(b, c.fp, base) ==> g.id == b[c.fp][0]))
  {}

  /** A request that stands ends in a container of this job; so does one that is denied. */
  lemma NextRooted(
    cfg: Config, p: Pass, b: Buffered, f: seq<Chunk>, done: seq<Chunk>, h: Hint, base: nat)
    requires |done| < |f| && LoopRooted(p, f, done, base)
    requires FollowsHead(b, f[|done|], base) && f[|done|].fp in b && b[f[|done|].fp] != [] && !f[|done|].inCache
    ensures var c, g := f[|done|], CheckChunk(b, f[|done|]);
            var (p', c') := FilterChunk(cfg, p, g, h);
            LoopRooted(p', f, done + [c'], base)
            && (c.duplicate && (c.sparse || (c.outOfOrder && h.enableRewrite && g.id !in h.cached)) ==> c'.id >= base)
  {
    hide CheckChunk, FilterChunk, FollowsHead, Requested;
    var c, g := f[|done|], CheckChunk(b, f[|done|]);
    CheckRoots(b, c, base);
    if !g.duplicate || Requested(g, h, p.rewritten) {
      Written(cfg, p, g, h);
      WrittenRooted(cfg, p, g, h, base);
    } else {
      NotWritten(cfg, p, g, h);
      StandsOrDenied(g, h, p.rewritten);
    }
  }

  lemma StandsOrDenied(g: Chunk, h: Hint, rewritten: map<Fingerprint, ContainerId>)
    requires !Requested(g, h, rewritten) && !g.inCache
    ensures g.sparse || (g.outOfOrder && h.enableRewrite && g.id !in h.cached) ==> g.denied || g.fp in rewritten
  {}

  lemma WrittenRooted(cfg: Config, p: Pass, g: Chunk, h: Hint, base: nat)
    requires !g.duplicate || Requested(g, h, p.rewritten)
    requires base <= p.st.count && (p.st.open.Some? ==> p.st.open.value.id >= base)
    ensures var (p', c') := FilterChunk(cfg, p, g, h);
            base <= p'.st.count && p'.st.open.Some? && p'.st.open.value.id >= base && c'.id >= base
            && (forall fp :: fp in p'.unique ==>
                  (fp in p.unique && p'.unique[fp] == p.unique[fp]) || p'.unique[fp] == c'.id)
            && (forall fp :: fp in p'.rewritten ==>
                  (fp in p.rewritten && p'.rewritten[fp] == p.rewritten[fp]) || p'.rewritten[fp] == c'.id)
  {
    hide MakeRoom, WriteChunk, ResolveChunk, MustWrite, Requested;
    Decision(p, g, h);
    var c2 := ResolveChunk(p, g, h);
    RoomIsOpen(cfg, p.st, g.size);
    Stored(cfg, p, c2);
  }

  lemma {:induction false} LoopRoots(
    cfg: Config, p: Pass, f: seq<Chunk>, n: nat, i: nat, hs: seq<Hint>, base: nat)
    requires i == |hs| <= n <= |f| && p.unique == map[] && p.rewritten == map[] && Rooted(p.st, f, base)
    requires forall k :: 0 <= k < |f| ==> f[k].fp in p.st.buffered && p.st.buffered[f[k].fp] != []
    ensures var (p', done) := FilterLoop(cfg, p, CheckedStream(p.st.buffered, f, n)[..i], hs);
            |done| == i && LoopRooted(p', f, done, base)
  {
    hide FilterChunk, CheckChunk, LoopRooted, FilterLoop, FollowsHead, OldAgree, SettledHead;
    var g := CheckedStream(p.st.buffered, f, n);
    if i == 0 {
      StartRoots(cfg, p, f, base, g[..0], hs);
    } else {
      var m := i - 1;
      LoopRoots(cfg, p, f, n, m, hs[..m], base);
      var (p1, done) := FilterLoop(cfg, p, g[..m], hs[..m]);
      assert g[m] == CheckChunk(p.st.buffered, f[m]);
      NextRooted(cfg, p1, p.st.buffered, f, done, hs[m], base);
      assert g[..i][..m] == g[..m];
      LoopOneMore(cfg, p, g[..i], hs);
    }
  }

  lemma StartRoots(cfg: Config, p: Pass, f: seq<Chunk>, base: nat, cs: seq<Chunk>, hs: seq<Hint>)
    requires cs == [] && hs == [] && p.unique == map[] && p.rewritten == map[] && Rooted(p.st, f, base)
    ensures var (p', done) := FilterLoop(cfg, p, cs, hs); |done| == 0 && LoopRooted(p', f, done, base)
  {
    hide OldAgree, FollowsHead, SettledHead;
  }

  /** Chunk i of a segment of n: if its request stands or is denied, it ends in a container of this job. */
  lemma SegmentRoots(
    cfg: Config, st: Store, dead: set<ContainerId>, f: seq<Chunk>, n: nat, hs: seq<Hint>, monitor: set<ContainerId>,
    base: nat, i: nat)
    requires Inv(st, dead, f) && Rooted(st, f, base) && i < n == |hs| <= |f|
    requires forall c :: c in f[..n] ==> c.fp in st.buffered && st.buffered[c.fp] != []
    ensures var c, id := f[i], FilterSegment(cfg, st, monitor, f[..n], hs).2[i].id;
            (id >= base || id == c.id)
            && (c.duplicate && c.sparse ==> id >= base)
            && (c.duplicate && c.outOfOrder && hs[i].enableRewrite ==>
                  id >= base || (id == c.id && id in hs[i].cached))
  {
    hide FilterChunk, CheckChunk, FilterLoop, LoopRooted, OldAgree, SettledHead, FollowsHead, Inv;
    InvIn(st, dead, f);
    var p := Pass(st, map[], map[], monitor);
    var g := CheckedStream(st.buffered, f, n);
    var checked := CheckSegment(st.buffered, f[..n]);
    assert g[..i] == checked[..i] && g[i] == checked[i] == CheckChunk(st.buffered, f[i]);
    LoopRoots(cfg, p, f, n, i, hs[..i], base);
    LoopAt(cfg, p, checked, hs, i);
    var (p1, done) := FilterLoop(cfg, p, g[..i], hs[..i]);
    NextRooted(cfg, p1, st.buffered, f, done, hs[i], base);
    assert FollowsHead(st.buffered, f[i], base);
    CheckRoots(st.buffered, f[i], base);
    LastFinished(FilterChunk(cfg, p1, g[i], hs[i]).0, f, done, FilterChunk(cfg, p1, g[i], hs[i]).1, base);
    NewOrChecked(cfg, p1, g[i], hs[i], f, done, base);
  }

  lemma LastFinished(p: Pass, f: seq<Chunk>, done: seq<Chunk>, c: Chunk, base: nat)
    requires LoopRooted(p, f, done + [c], base)
    ensures |done| < |f| && Finished(c, f[|done|], base, {})
  {
    assert (done + [c])[|done|] == c;
  }

  /** The id a chunk ends with is of this job, or the one it was checked with. */
  lemma NewOrChecked(cfg: Config, p: Pass, g: Chunk, h: Hint, f: seq<Chunk>, done: seq<Chunk>, base: nat)
    requires LoopRooted(p, f, done, base)
    ensures var c' := FilterChunk(cfg, p, g, h).1; c'.id >= base || c'.id == g.id
  {
    hide FilterChunk, Requested;
    if !g.duplicate || Requested(g, h, p.rewritten) {
      WrittenRooted(cfg, p, g, h, base);
    } else {
      NotWritten(cfg, p, g, h);
    }
  }

  // ----- every segment of a job ----------------------------------------------------------

  /** The copies behind a finished segment, and the queues without it. */
  lemma RestRooted(p: Pass, st: Store, f: seq<Chunk>, done: seq<Chunk>, base: nat)
    requires LoopRooted(p, f, done, base) && Rooted(st, f, base) && Readable(st)
    requires forall k :: 0 <= k < |done| ==> done[k].fp == f[k].fp
    requires forall i :: 0 <= i < |f| ==> f[i].fp in st.buffered && st.buffered[f[i].fp] != []
    requires forall i :: |done| <= i < |f| ==> f[i].fp in PopSegment(st.buffered, done)
    ensures Rooted(p.st.(buffered := PopSegment(st.buffered, done)), f[|done|..], base)
  {
    hide PopSegment, FollowsHead, OldAgree, InOpen, Finished, SettledHead;
    RestFollow(st.buffered, f, done, base);
    RestSettles(st.buffered, done);
  }

  lemma RestFollow(b: Buffered, f: seq<Chunk>, done: seq<Chunk>, base: nat)
    requires |done| <= |f| && OldAgree(f, base) && forall i :: 0 <= i < |f| ==> FollowsHead(b, f[i], base)
    requires forall k :: 0 <= k < |done| ==> done[k].fp == f[k].fp && Finished(done[k], f[k], base, {})
    requires forall i :: 0 <= i < |f| ==> f[i].fp in b && b[f[i].fp] != []
    requires forall i :: |done| <= i < |f| ==> f[i].fp in PopSegment(b, done)
    ensures OldAgree(f[|done|..], base)
    ensures forall i :: 0 <= i < |f| - |done| ==> FollowsHead(PopSegment(b, done), f[|done|..][i], base)
  {
    hide PopSegment, FollowsHead, OldAgree, Finished;
    OldRest(f, |done|, base);
    forall i | 0 <= i < |f| - |done| ensures FollowsHead(PopSegment(b, done), f[|done|..][i], base) {
      RestFollows(b, f, done, |done| + i, base, {});
    }
  }

  lemma RestSettles(b: Buffered, done: seq<Chunk>)
    requires forall fp :: fp in b ==> b[fp] != []
    ensures forall fp :: fp in PopSegment(b, done) ==> SettledHead(PopSegment(b, done), fp, {})
  {
    hide PopSegment;
    PopKeys(b, done);
    forall fp | fp in PopSegment(b, done) ensures SettledHead(PopSegment(b, done), fp, {}) {
      PopHead(b, done, fp);
    }
  }

  lemma AfterSegmentRooted(
    cfg: Config, st: Store, dead: set<ContainerId>, f: seq<Chunk>, n: nat, hs: seq<Hint>, monitor: set<ContainerId>,
    base: nat)
    requires Inv(st, dead, f) && Rooted(st, f, base) && n == |hs| <= |f|
    requires forall c :: c in f[..n] ==> c.fp in st.buffered && st.buffered[c.fp] != []
    ensures Rooted(FilterSegment(cfg, st, monitor, f[..n], hs).0, f[n..], base)
  {
    hide Inv, FilterLoop, FilterSegment, CheckChunk, CheckSegment, Traced, LoopRooted;
    InvIn(st, dead, f);
    var p := Pass(st, map[], map[], monitor);
    var g := CheckedStream(st.buffered, f, n);
    LoopRoots(cfg, p, f, n, n, hs, base);
    SegmentState(cfg, st, dead, f, n, hs, monitor);
    var (p1, done) := FilterLoop(cfg, p, g[..n], hs);
    ReadableInv(st, dead, f);
    RestQueued(cfg, st, dead, f, n, hs, monitor);
    RestRooted(p1, st, f, done, base);
    TracedTables(p1.st.(buffered := PopSegment(st.buffered, done)),
                 FilterSegment(cfg, st, monitor, f[..n], hs).0, f[n..], base, {});
  }

  /** The cache-aware filter is yet to look at what is looked up. */
  lemma {:induction false} NotInCache(
    cfg: Config, st: Store, dead: set<ContainerId>, f: seq<Chunk>, cs: seq<Chunk>)
    requires Inv(st, dead, f) && (forall i :: 0 <= i < |cs| ==> Fresh(cs[i]))
    ensures Readable(st)
    ensures var done := LookupSegment(cfg, st, cs).1; forall i :: 0 <= i < |done| ==> !done[i].inCache
  {
    hide LookupChunk, Inv, Fresh;
    ReadableInv(st, dead, f);
    if cs != [] {
      var n := |cs| - 1;
      NotInCache(cfg, st, dead, f, cs[..n]);
      LookupSegmentKeeps(cfg, st, dead, f, cs[..n], map[]);
      var (st1, done) := LookupSegment(cfg, st, cs[..n]);
      ReadableInv(st1, dead, f + done);
      assert cs[n] == FreshChunk(cs[n].fp, cs[n].size) by { FreshIs(cs[n]); }
      LookupIds(cfg, st1, cs[n]);
    }
  }

  lemma FreshIs(c: Chunk)
    requires Fresh(c)
    ensures c == FreshChunk(c.fp, c.size)
  {}

  /** The first container id of the current job: container_count when the job began. */
  ghost function JobBase(cfg: Config, es: seq<Event>): nat {
    if es == [] then 0
    else
      var s := Run(cfg, es[..|es| - 1]);
      var e := es[|es| - 1];
      if e.Begin? && Enabled(cfg, s, e) then s.st.count else JobBase(cfg, es[..|es| - 1])
  }

  lemma StepRooted(cfg: Config, s: System, e: Event, base: nat)
    requires Good(s) && Enabled(cfg, s, e) && (s.running ==> Rooted(s.st, s.flight, base))
    ensures var s' := Apply(cfg, s, e);
            s'.running ==> Rooted(s'.st, s'.flight, if e.Begin? then s.st.count else base)
  {
    hide Traced, FilterSegment, LookupSegment, Inv, JobOk, BackupsOk, ManifestOk;
    match e
    case Begin => BeginRooted(cfg, s);
    case Lookup(items) =>
      LookupSegmentTraces(cfg, s.st, s.reclaimed, s.flight, FreshSegment(items), base, {});
      NotInCache(cfg, s.st, s.reclaimed, s.flight, FreshSegment(items));
    case Mark(pos, _, _) =>
      SameIdsTraced(s.st, s.flight, Apply(cfg, s, e).flight, base, {});
    case Filter(n, hints) =>
      AfterSegmentRooted(cfg, s.st, s.reclaimed, s.flight, n, hints, s.monitor, base);
    case Finish =>
    case Delete(_) =>
  }

  lemma BeginRooted(cfg: Config, s: System)
    requires Enabled(cfg, s, Begin)
    ensures var s' := Apply(cfg, s, Begin); Rooted(s'.st, s'.flight, s.st.count)
  {}

  lemma {:induction false} AlwaysRooted(cfg: Config, es: seq<Event>)
    ensures var s := Run(cfg, es); s.running ==> Rooted(s.st, s.flight, JobBase(cfg, es))
  {
    hide Rooted, Good, Apply, Enabled;
    if es != [] {
      var s := Run(cfg, es[..|es| - 1]);
      AlwaysRooted(cfg, es[..|es| - 1]);
      AlwaysGood(cfg, es[..|es| - 1]);
      if Enabled(cfg, s, es[|es| - 1]) {
        StepRooted(cfg, s, es[|es| - 1], JobBase(cfg, es[..|es| - 1]));
      } else {
        NotEnabledStays(cfg, es);
      }
    } else {
      NotYet(cfg);
    }
  }

  lemma NotYet(cfg: Config)
    ensures !Run(cfg, []).running
  {}

  lemma NotEnabledStays(cfg: Config, es: seq<Event>)
    requires es != [] && !Enabled(cfg, Run(cfg, es[..|es| - 1]), es[|es| - 1])
    ensures Run(cfg, es) == Run(cfg, es[..|es| - 1]) && JobBase(cfg, es) == JobBase(cfg, es[..|es| - 1])
  {}

  /**
   After every history: what a segment's filter pass makes of chunk i, with the ids of the current job's containers
   from base on.  A unique chunk and a copy of one go into this job's containers; so does a duplicate that is marked,
   unless it is marked out of order only and rewriting is switched off for it or the cache-aware filter spares it.
   Any chunk of another id keeps it.
   */
  lemma MarksAreRewritten(cfg: Config, es: seq<Event>, n: nat, hs: seq<Hint>, i: nat)
    requires Enabled(cfg, Run(cfg, es), Filter(n, hs)) && i < n
    ensures var s, base := Run(cfg, es), JobBase(cfg, es);
            var c, id := s.flight[i], FilterSegment(cfg, s.st, s.monitor, s.flight[..n], hs).2[i].id;
            (id >= base || id == c.id)
            && (!c.duplicate || c.id == TEMPORARY_ID || c.sparse ==> id >= base)
            && (c.duplicate && c.outOfOrder && hs[i].enableRewrite ==> id >= base || id in hs[i].cached)
  {
    hide Run, JobBase, FilterSegment, JobOk, BackupsOk, ManifestOk, Rooted, Inv;
    AlwaysRooted(cfg, es);
    AlwaysGood(cfg, es);
    var s := Run(cfg, es);
    SegmentRoots(cfg, s.st, s.reclaimed, s.flight, n, hs, s.monitor, JobBase(cfg, es), i);
    FilterSegmentKeeps(cfg, s.st, s.reclaimed, s.flight, n, hs, s.monitor, map[]);
    UniqueHasNoId(s.st, s.reclaimed, s.flight, i);
  }

  lemma UniqueHasNoId(st: Store, dead: set<ContainerId>, f: seq<Chunk>, i: nat)
    requires Inv(st, dead, f) && i < |f|
    ensures !f[i].duplicate ==> f[i].id == TEMPORARY_ID
  {
    hide InFlight, TablesOk, ElemsOk;
    assert ChunkOk(st, dead, f[i]);
  }

  // ----- a round of capping and its filter pass ------------------------------------------

  /** The chunk is in what a round of capping has marked; har_check may have marked it too. */
  ghost predicate CameThrough(c: Chunk, out: seq<Capping.Entry>) {
    exists k :: 0 <= k < |out| && out[k].Normal? && out[k].c == c.(sparse := out[k].c.sparse)
  }

  /** The cache-aware filter spares no chunk of the segment, and rewriting is on. */
  ghost predicate NoneSpared(hs: seq<Hint>) {
    forall i :: 0 <= i < |hs| ==> hs[i].enableRewrite && hs[i].cached == {}
  }

  /** Ids of the filtered segment that are not of this job's containers. */
  function OlderIds(done: seq<Chunk>, base: nat): set<ContainerId> {
    set c | c in done && c.id < base :: c.id
  }

  /** After its filter pass, a chunk that went through a round of capping is in one of the round's containers or in
      one of this job, unless it was spared. */
  lemma CappedChunk(
    cfg: Config, es: seq<Event>, n: nat, hs: seq<Hint>, i: nat, q: seq<Capping.Entry>, out: seq<Capping.Entry>,
    top: set<ContainerId>)
    requires Enabled(cfg, Run(cfg, es), Filter(n, hs)) && i < n
    requires Capping.MarkedOutside(q, out, top) && CameThrough(Run(cfg, es).flight[i], out)
    ensures var s, base := Run(cfg, es), JobBase(cfg, es);
            var c, id := s.flight[i], FilterSegment(cfg, s.st, s.monitor, s.flight[..n], hs).2[i].id;
            id >= base || (id == c.id && (id in top || id in hs[i].cached || !hs[i].enableRewrite))
  {
    hide Run, JobBase, FilterSegment, Capping.Remarked;
    MarksAreRewritten(cfg, es, n, hs, i);
    var c := Run(cfg, es).flight[i];
    var k :| 0 <= k < |out| && out[k].Normal? && out[k].c == c.(sparse := out[k].c.sparse);
    assert c.id != TEMPORARY_ID ==> (c.outOfOrder <==> c.id !in top);
  }

  /**
   Capping keeps its promise: a segment that went through a round of it with level containers is left referring to at
   most level containers of earlier jobs, when the cache-aware filter is off and rewriting on.
   */
  lemma CappedSegment(
    cfg: Config, es: seq<Event>, n: nat, hs: seq<Hint>, q: seq<Capping.Entry>, out: seq<Capping.Entry>,
    top: set<ContainerId>)
    requires Enabled(cfg, Run(cfg, es), Filter(n, hs)) && NoneSpared(hs) && Capping.MarkedOutside(q, out, top)
    requires forall i :: 0 <= i < n ==> CameThrough(Run(cfg, es).flight[i], out)
    ensures var s := Run(cfg, es);
            var older := OlderIds(FilterSegment(cfg, s.st, s.monitor, s.flight[..n], hs).2, JobBase(cfg, es));
            older <= top && |older| <= |top|
  {
    hide Run, JobBase, FilterSegment, Capping.MarkedOutside, CameThrough;
    var s := Run(cfg, es);
    var done := FilterSegment(cfg, s.st, s.monitor, s.flight[..n], hs).2;
    forall i | 0 <= i < |done| ensures done[i].id >= JobBase(cfg, es) || done[i].id in top {
      CappedChunk(cfg, es, n, hs, i, q, out, top);
    }
    SubsetSize(OlderIds(done, JobBase(cfg, es)), top);
  }
}
