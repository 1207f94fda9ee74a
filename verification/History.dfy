/**
 Whole histories of backups and deletions: the dedup and filter stages of every job, the
 container-marker garbage collection (src/cma.c, src/do_delete.c), and what they guarantee
 to a later restore.
 */
module History {
  import opened Common
  import opened DedupSpec
  import opened DedupSafety

  /** One entry of a recipe. */
  datatype Pointer = Pointer(fp: Fingerprint, id: ContainerId, size: nat)

  datatype System = System(
    st: Store,
    flight: seq<Chunk>,                  // looked up, not yet filtered
    running: bool,
    job: nat,                            // number of the current or next job
    monitor: set<ContainerId>,           // containers the current job refers to
    recipe: seq<Pointer>,                // pointers of the current job so far
    recipes: map<nat, seq<Pointer>>,     // recipes of the finished jobs
    manifest: map<ContainerId, nat>,     // container -> backup time
    reclaimed: set<ContainerId>,
    deleted: int,                        // newest deleted job, -1 if none
    input: seq<(Fingerprint, nat)>,      // history: what the current job was asked to store
    inputs: map<nat, seq<(Fingerprint, nat)>>)

  datatype Event =
    | Begin
    | Lookup(items: seq<(Fingerprint, nat)>)                 // dedup thread, one segment
    | Mark(pos: nat, sparse: bool, outOfOrder: bool)         // rewrite stage, one chunk
    | Filter(n: nat, hints: seq<Hint>)                       // filter thread, one segment
    | Finish
    | Delete(upTo: nat)

  const InitStore := Store(map[], None, 0, map[], [], map[], 0)
  const Init := System(InitStore, [], false, 0, {}, [], map[], map[], {}, -1, [], map[])

  function Pointers(cs: seq<Chunk>): seq<Pointer> {
    seq(|cs|, i requires 0 <= i < |cs| => Pointer(cs[i].fp, cs[i].id, cs[i].size))
  }

  function FreshSegment(items: seq<(Fingerprint, nat)>): (r: seq<Chunk>)
    ensures |r| == |items|
  {
    seq(|items|, i requires 0 <= i < |items| => FreshChunk(items[i].0, items[i].1))
  }

  /** update_manifest: every container the job refers to gets the job's time. */
  function UpdateManifest(manifest: map<ContainerId, nat>, monitor: set<ContainerId>, job: nat)
    : map<ContainerId, nat>
  {
    manifest + map id | id in monitor :: job
  }

  /** trunc_manifest: the containers no newer backup refers to. */
  function Invalid(manifest: map<ContainerId, nat>, upTo: nat): set<ContainerId> {
    set id | id in manifest && manifest[id] <= upTo
  }

  /** Drop the key-value entries of the reclaimed containers' chunks that still name them. */
  function DropEntries(st: Store, invalid: set<ContainerId>): map<Fingerprint, ContainerId> {
    map fp | fp in st.kv
      && !(st.kv[fp] in invalid && st.kv[fp] in st.written && fp in st.written[st.kv[fp]].fps) :: st.kv[fp]
  }

  ghost predicate Enabled(cfg: Config, s: System, e: Event) {
    match e
    case Begin => !s.running
    case Lookup(items) =>
      s.running && !(cfg.waitThreshold > 0 && s.st.chunkNum >= cfg.waitThreshold)
      && (forall i :: 0 <= i < |items| ==> items[i].1 <= CONTAINER_SIZE - CONTAINER_META_SIZE)
      && Readable(s.st)
    case Mark(pos, _, _) => s.running && pos < |s.flight|
    case Filter(n, hints) =>
      s.running && n == |hints| <= |s.flight|
      && forall c :: c in s.flight[..n] ==> c.fp in s.st.buffered && s.st.buffered[c.fp] != []
    case Finish => s.running && s.flight == []
    case Delete(upTo) => !s.running && upTo < s.job
  }

  ghost function Apply(cfg: Config, s: System, e: Event): System
    requires Enabled(cfg, s, e)
  {
    match e
    case Begin =>
      s.(st := s.st.(open := None, cache := [], buffered := map[], chunkNum := 0),
         flight := [], running := true, monitor := {}, recipe := [], input := [])
    case Lookup(items) =>
      var (st', cs) := LookupSegment(cfg, s.st, FreshSegment(items));
      s.(st := st', flight := s.flight + cs, input := s.input + items)
    case Mark(pos, sparse, outOfOrder) =>
      var c := s.flight[pos];
      s.(flight := s.flight[pos := c.(sparse := c.sparse || sparse, outOfOrder := c.outOfOrder || outOfOrder)])
    case Filter(n, hints) =>
      var (st', monitor', done) := FilterSegment(cfg, s.st, s.monitor, s.flight[..n], hints);
      s.(st := st', flight := s.flight[n..], monitor := monitor', recipe := s.recipe + Pointers(done))
    case Finish =>
      s.(st := CloseLast(cfg, s.st), running := false, job := s.job + 1,
         manifest := UpdateManifest(s.manifest, s.monitor, s.job),
         recipes := s.recipes[s.job := s.recipe], inputs := s.inputs[s.job := s.input])
    case Delete(upTo) =>
      var invalid := Invalid(s.manifest, upTo);
      s.(st := s.st.(kv := DropEntries(s.st, invalid), cache := []),
         manifest := s.manifest - invalid,
         reclaimed := s.reclaimed + invalid, deleted := Max(s.deleted, upTo))
  }

  /** A history: the events that are possible happen, the others do nothing. */
  ghost function Run(cfg: Config, es: seq<Event>): System {
    if es == [] then Init
    else
      var s := Run(cfg, es[..|es| - 1]);
      var e := es[|es| - 1];
      if Enabled(cfg, s, e) then Apply(cfg, s, e) else s
  }

  // ----- the invariant -------------------------------------------------------------------

  function Content(ps: seq<Pointer>): (r: seq<(Fingerprint, nat)>)
    ensures |r| == |ps|
  {
    seq(|ps|, i requires 0 <= i < |ps| => (ps[i].fp, ps[i].size))
  }

  function ChunkContent(cs: seq<Chunk>): seq<(Fingerprint, nat)> {
    Content(Pointers(cs))
  }

  ghost predicate RefersTo(ps: seq<Pointer>, id: ContainerId) {
    exists p :: p in ps && p.id == id
  }

  /** The current job: its pointers are good, and the monitor knows exactly their containers. */
  ghost predicate JobOk(s: System) {
    (forall p :: p in s.recipe ==> Names(s.st, s.reclaimed, p.id, p.fp))
    && (forall id :: id in s.monitor <==> RefersTo(s.recipe, id))
    && Content(s.recipe) + ChunkContent(s.flight) == s.input
  }

  /** A finished backup that has not been deleted. */
  ghost predicate BackupOk(s: System, j: nat)
    requires j in s.recipes
  {
    forall p :: p in s.recipes[j] ==>
      p.id in s.st.written && p.fp in s.st.written[p.id].fps
      && p.id in s.manifest && s.manifest[p.id] >= j
  }

  ghost predicate BackupsOk(s: System) {
    s.recipes.Keys == s.inputs.Keys
    && (forall j :: j in s.recipes ==> j < s.job && Content(s.recipes[j]) == s.inputs[j])
    && (forall j :: j in s.recipes && j > s.deleted ==> BackupOk(s, j))
  }

  /** Every stored container is known from before or referred to by the current job. */
  ghost predicate Tracked(st: Store, known: set<ContainerId>, monitor: set<ContainerId>) {
    (forall id :: id in st.written ==> id in known || id in monitor)
    && (st.open.Some? ==> st.open.value.id in monitor)
  }

  /** The manifest splits the stored containers: alive with the newest reference, or reclaimed. */
  ghost predicate ManifestOk(s: System) {
    s.deleted < s.job
    && s.manifest.Keys <= s.st.written.Keys
    && s.manifest.Keys !! s.reclaimed
    && (forall id :: id in s.manifest ==>
      s.deleted < s.manifest[id] && s.manifest[id] in s.recipes
      && RefersTo(s.recipes[s.manifest[id]], id))
    && Tracked(s.st, s.manifest.Keys + s.reclaimed, if s.running then s.monitor else {})
  }

  ghost predicate Good(s: System) {
    Inv(s.st, s.reclaimed, s.flight)
    && (s.running ==> JobOk(s))
    && (!s.running ==> s.flight == [] && s.st.open.None?)
    && BackupsOk(s) && ManifestOk(s)
  }

  // ----- every event keeps it ------------------------------------------------------------

  /** What is written stays as it is. */
  ghost predicate Immutable(st: Store, st': Store) {
    forall id :: id in st.written ==> id in st'.written && st'.written[id] == st.written[id]
  }

  lemma MakeRoomWritten(cfg: Config, st: Store, dead: set<ContainerId>, size: nat)
    requires TablesOk(st, dead)
    ensures var r := MakeRoom(cfg, st, size);
            Immutable(st, r)
            && (forall id :: id in r.written ==> id in st.written || (st.open.Some? && id == st.open.value.id)
                                                 || (st.open.None? && id == st.count &&
                                                   Overflow(Container(st.count, [], 0), size)))
  {}

  lemma WriteChunkTracks(cfg: Config, p: Pass, dead: set<ContainerId>, known: set<ContainerId>, c: Chunk)
    requires TablesOk(p.st, dead) && Tracked(p.st, known, p.monitor)
    requires c.size <= CONTAINER_SIZE - CONTAINER_META_SIZE
    ensures var (p', c') := WriteChunk(cfg, p, c);
            Tracked(p'.st, known, p.monitor + {c'.id}) && Immutable(p.st, p'.st) && p'.monitor == p.monitor
  {
    assert !Overflow(Container(p.st.count, [], 0), c.size);
    hide Overflow, MakeRoom, TablesOk;
    MakeRoomWritten(cfg, p.st, dead, c.size);
    var (p', c') := WriteChunk(cfg, p, c);
    assert p'.st.written == MakeRoom(cfg, p.st, c.size).written;
    assert p'.st.open.value.id == c'.id;
  }

  /** One chunk of the write loop: written containers are final, new ones are referred to. */
  lemma FilterChunkTracks(cfg: Config, p: Pass, dead: set<ContainerId>, known: set<ContainerId>, c: Chunk, h: Hint)
    requires TablesOk(p.st, dead) && Tracked(p.st, known, p.monitor)
    requires c.size <= CONTAINER_SIZE - CONTAINER_META_SIZE
    ensures var (p', _) := FilterChunk(cfg, p, c, h);
            Tracked(p'.st, known, p'.monitor) && Immutable(p.st, p'.st)
  {
    hide WriteChunk, TablesOk;
    var c2 := ResolveChunk(p, c, h);
    if MustWrite(c2, h) {
      WriteChunkTracks(cfg, p, dead, known, c2);
    }
  }

  lemma {:induction false} FilterLoopTracks(
    cfg: Config, p: Pass, dead: set<ContainerId>, b: Buffered, g: seq<Chunk>, n: nat, hs: seq<Hint>,
    known: set<ContainerId>)
    requires n == |hs| <= |g|
    requires LoopOk(p, dead, b, g, [])
    requires LaterCopiesAreDuplicates(g)
    requires forall i :: 0 <= i < n && g[i].duplicate && g[i].id == TEMPORARY_ID ==> HasUniqueBefore(g, i)
    requires Tracked(p.st, known, p.monitor)
    ensures var (p', _) := FilterLoop(cfg, p, g[..n], hs);
            Tracked(p'.st, known, p'.monitor) && Immutable(p.st, p'.st)
  {
    hide FilterChunk, LaterCopiesAreDuplicates, HasUniqueBefore, Tracked, Names, TablesOk, TableNames;
    if n == 0 {
      assert g[..n] == [];
    } else {
      var m := n - 1;
      FilterLoopTracks(cfg, p, dead, b, g, m, hs[..m], known);
      FilterLoopKeeps(cfg, p, dead, b, g, m, hs[..m]);
      assert g[..n][..m] == g[..m];
      var (p1, done) := FilterLoop(cfg, p, g[..m], hs[..m]);
      assert ChunkOk(p1.st, dead, g[m]);
      FilterChunkTracks(cfg, p1, dead, known, g[m], hs[m]);
      assert FilterLoop(cfg, p, g[..n], hs).0 == FilterChunk(cfg, p1, g[m], hs[m]).0;
    }
  }

  lemma FilterSegmentTracks(
    cfg: Config, st: Store, dead: set<ContainerId>, f: seq<Chunk>, n: nat, hs: seq<Hint>,
    monitor: set<ContainerId>, known: set<ContainerId>)
    requires Inv(st, dead, f) && n == |hs| <= |f|
    requires forall c :: c in f[..n] ==> c.fp in st.buffered && st.buffered[c.fp] != []
    requires Tracked(st, known, monitor)
    ensures var (st', monitor', _) := FilterSegment(cfg, st, monitor, f[..n], hs);
            Tracked(st', known, monitor') && Immutable(st, st')
  {
    hide FilterLoop, CheckSegment, TablesOk, InFlight, PopSegment, HasUniqueBefore, ChunkOk, ElemsOk, Holds, Names;
    InvIn(st, dead, f);
    CheckedStreamOk(st, dead, f, n);
    var g := CheckedStream(st.buffered, f, n);
    assert g[..n] == CheckSegment(st.buffered, f[..n]);
    FilterLoopTracks(cfg, Pass(st, map[], map[], monitor), dead, st.buffered, g, n, hs, known);
  }

  lemma RefersToAppend(ps: seq<Pointer>, cs: seq<Chunk>)
    ensures forall id :: RefersTo(ps + Pointers(cs), id) <==> RefersTo(ps, id) || id in IdsOf(cs)
  {
    forall id ensures RefersTo(ps + Pointers(cs), id) <==> RefersTo(ps, id) || id in IdsOf(cs) {
      if RefersTo(ps, id) {
        var p :| p in ps && p.id == id;
        assert p in ps + Pointers(cs);
      }
      if id in IdsOf(cs) {
        var i :| 0 <= i < |cs| && cs[i].id == id;
        assert Pointers(cs)[i] in ps + Pointers(cs);
      }
    }
  }

  lemma BeginKeeps(cfg: Config, s: System)
    requires Good(s) && Enabled(cfg, s, Begin)
    ensures Good(Apply(cfg, s, Begin))
  {
    var s' := Apply(cfg, s, Begin);
    assert s'.recipe == [] && Content(s'.recipe) + ChunkContent(s'.flight) == [];
    assert Mirrors(map[], []);
  }

  lemma LookupStepKeeps(cfg: Config, s: System, items: seq<(Fingerprint, nat)>)
    requires Good(s) && Enabled(cfg, s, Lookup(items))
    ensures Good(Apply(cfg, s, Lookup(items)))
  {
    hide TablesOk, ElemsOk, InFlight, ChunkOk, LookupSegment, BackupOk, Lists;
    var cs := FreshSegment(items);
    LookupSegmentKeeps(cfg, s.st, s.reclaimed, s.flight, cs, map[]);
    var (st', done) := LookupSegment(cfg, s.st, cs);
    assert Content(s.recipe) + ChunkContent(s.flight + done)
      == Content(s.recipe) + ChunkContent(s.flight) + items;
    assert forall j :: j in s.recipes && BackupOk(s, j) ==> BackupOk(Apply(cfg, s, Lookup(items)), j) by {
      BackupsFollow(s, Apply(cfg, s, Lookup(items)));
    }
  }

  /** Finished backups stay good while containers and the manifest only grow. */
  lemma BackupsFollow(s: System, s': System)
    requires s.recipes == s'.recipes && s.manifest == s'.manifest
    requires forall id :: id in s.st.written ==> id in s'.st.written && s'.st.written[id] == s.st.written[id]
    ensures forall j :: j in s.recipes && BackupOk(s, j) ==> BackupOk(s', j)
  {}

  lemma MarkKeeps(cfg: Config, s: System, pos: nat, sparse: bool, outOfOrder: bool)
    requires Good(s) && Enabled(cfg, s, Mark(pos, sparse, outOfOrder))
    ensures Good(Apply(cfg, s, Mark(pos, sparse, outOfOrder)))
  {
    hide TablesOk, ElemsOk, BackupsOk, ManifestOk, Names, RefersTo, Lists;
    var s' := Apply(cfg, s, Mark(pos, sparse, outOfOrder));
    SameShape(s.flight, s'.flight);
    SameCounts(s.flight, s'.flight);
    assert ChunkContent(s'.flight) == ChunkContent(s.flight);
    MarkManifest(s, s');
  }

  /** Neither the manifest nor the finished backups have anything to do with the chunks in flight. */
  lemma MarkManifest(s: System, s': System)
    requires ManifestOk(s) && BackupsOk(s) && s' == s.(flight := s'.flight)
    ensures ManifestOk(s') && BackupsOk(s')
  {
    hide BackupOk;
    BackupsFollow(s, s');
  }

  lemma {:induction false} SameCounts(f: seq<Chunk>, g: seq<Chunk>)
    requires |f| == |g| && forall i :: 0 <= i < |f| ==> g[i].fp == f[i].fp
    ensures forall fp :: Count(f, fp) == Count(g, fp)
  {
    if f != [] {
      SameCounts(f[1..], g[1..]);
    }
  }

  /** The pointers written so far and the chunks still in flight are always the input, in order. */
  lemma FilterContent(s: System, n: nat, done: seq<Chunk>, recipe: seq<Pointer>, flight: seq<Chunk>)
    requires Content(s.recipe) + ChunkContent(s.flight) == s.input && n == |done| <= |s.flight|
    requires forall i :: 0 <= i < n ==> done[i].fp == s.flight[i].fp && done[i].size == s.flight[i].size
    requires recipe == s.recipe + Pointers(done) && flight == s.flight[n..]
    ensures Content(recipe) + ChunkContent(flight) == s.input
  {
    assert Content(recipe) == Content(s.recipe) + ChunkContent(done);
    assert ChunkContent(s.flight) == ChunkContent(done) + ChunkContent(flight);
  }

  /** Filtering never moves or drops a container of an earlier job. */
  lemma FilterStepKeeps(cfg: Config, s: System, n: nat, hints: seq<Hint>)
    requires Good(s) && Enabled(cfg, s, Filter(n, hints))
    ensures Good(Apply(cfg, s, Filter(n, hints)))
  {
    hide TablesOk, ElemsOk, InFlight, ChunkOk, FilterSegment, BackupOk, Holds, Content, ChunkContent, RefersTo,
      IdsOf, Lists, LastIds;
    var s' := Apply(cfg, s, Filter(n, hints));
    FilterSegmentKeeps(cfg, s.st, s.reclaimed, s.flight, n, hints, s.monitor, map[]);
    FilterSegmentTracks(cfg, s.st, s.reclaimed, s.flight, n, hints, s.monitor, s.manifest.Keys + s.reclaimed);
    var (st', monitor', done) := FilterSegment(cfg, s.st, s.monitor, s.flight[..n], hints);
    BackupsFollow(s, s');
    RefersToAppend(s.recipe, done);
    FilterContent(s, n, done, s'.recipe, s'.flight);
    forall p | p in s'.recipe ensures Names(st', s.reclaimed, p.id, p.fp) {
      if p !in s.recipe {
        var k :| 0 <= k < n && p == Pointers(done)[k];
      }
    }
  }

  lemma FinishKeeps(cfg: Config, s: System)
    requires Good(s) && Enabled(cfg, s, Finish)
    ensures Good(Apply(cfg, s, Finish))
  {
    var s' := Apply(cfg, s, Finish);
    hide CloseLast, TablesOk;
    CloseLastOk(cfg, s.st, s.reclaimed);
    FinishBackups(cfg, s);
    FinishManifest(cfg, s);
    assert forall fp :: fp !in s.st.buffered;
  }

  lemma CloseLastOk(cfg: Config, st: Store, dead: set<ContainerId>)
    requires TablesOk(st, dead) && OpenNotEmpty(st)
    ensures var r := CloseLast(cfg, st);
            TablesOk(r, dead) && Grows(st, r) && Immutable(st, r) && r.open.None?
            && r == st.(written := r.written, open := None, kv := r.kv)
            && (forall id :: id in r.written ==> id in st.written || (st.open.Some? && id == st.open.value.id))
  {
    if st.open.Some? { CloseOpenKeeps(cfg, st, dead); }
  }

  /** Every container the finishing job refers to is written by now and alive. */
  lemma MonitorAlive(cfg: Config, s: System)
    requires Good(s) && Enabled(cfg, s, Finish)
    ensures forall id :: id in s.monitor ==> id in CloseLast(cfg, s.st).written && id !in s.reclaimed
  {
    hide CloseLast, TablesOk, InFlight, ElemsOk, BackupsOk;
    CloseLastOk(cfg, s.st, s.reclaimed);
    forall id | id in s.monitor ensures id in CloseLast(cfg, s.st).written && id !in s.reclaimed {
      var p :| p in s.recipe && p.id == id;
      assert Names(s.st, s.reclaimed, p.id, p.fp);
      assert Holds(CloseLast(cfg, s.st), p.id, p.fp);
    }
  }

  lemma FinishManifest(cfg: Config, s: System)
    requires Good(s) && Enabled(cfg, s, Finish)
    ensures ManifestOk(Apply(cfg, s, Finish))
  {
    hide CloseLast, InFlight, ElemsOk, JobOk, TablesOk, RefersTo, BackupOk;
    CloseLastOk(cfg, s.st, s.reclaimed);
    MonitorAlive(cfg, s);
    var s' := Apply(cfg, s, Finish);
    assert forall id :: id in s.monitor ==> RefersTo(s.recipe, id) by { MonitorReferred(s); }
    assert s'.manifest.Keys == s.manifest.Keys + s.monitor;
    forall id | id in s'.manifest
      ensures s'.deleted < s'.manifest[id] && s'.manifest[id] in s'.recipes
      ensures RefersTo(s'.recipes[s'.manifest[id]], id)
    {
      if id !in s.monitor {
        assert s'.manifest[id] == s.manifest[id] && s.manifest[id] < s.job;
      }
    }
    assert Tracked(s'.st, s'.manifest.Keys + s'.reclaimed, {});
    assert s'.manifest.Keys <= s'.st.written.Keys;
    assert s'.manifest.Keys !! s'.reclaimed;
  }

  lemma MonitorReferred(s: System)
    requires JobOk(s)
    ensures forall id :: id in s.monitor ==> RefersTo(s.recipe, id)
  {}

  /** What the finishing job has written is a good backup from now on. */
  lemma NewBackupOk(cfg: Config, s: System)
    requires Good(s) && Enabled(cfg, s, Finish)
    ensures BackupOk(Apply(cfg, s, Finish), s.job)
  {
    hide CloseLast, TablesOk, InFlight, ElemsOk, BackupsOk, ManifestOk, Tracked, RefersTo;
    var s' := Apply(cfg, s, Finish);
    CloseLastOk(cfg, s.st, s.reclaimed);
    forall p | p in s.recipe ensures p.id in s'.st.written && p.fp in s'.st.written[p.id].fps && p.id in s.monitor {
      assert Names(s.st, s.reclaimed, p.id, p.fp);
      assert Holds(s'.st, p.id, p.fp);
      assert RefersTo(s.recipe, p.id) by { Refers(s.recipe, p); }
    }
  }

  lemma Refers(ps: seq<Pointer>, p: Pointer)
    requires p in ps
    ensures RefersTo(ps, p.id)
  {}

  lemma OldBackupOk(cfg: Config, s: System, j: nat)
    requires Good(s) && Enabled(cfg, s, Finish) && j in s.recipes && j != s.job && j < s.job && BackupOk(s, j)
    ensures BackupOk(Apply(cfg, s, Finish), j)
  {
    hide CloseLast, TablesOk, InFlight, ElemsOk, BackupsOk, ManifestOk, JobOk, Tracked;
    CloseLastOk(cfg, s.st, s.reclaimed);
  }

  lemma FinishBackups(cfg: Config, s: System)
    requires Good(s) && Enabled(cfg, s, Finish)
    ensures BackupsOk(Apply(cfg, s, Finish))
  {
    hide CloseLast, TablesOk, InFlight, ElemsOk, BackupOk, ManifestOk;
    var s' := Apply(cfg, s, Finish);
    assert Content(s.recipe) + ChunkContent(s.flight) == Content(s.recipe);
    NewBackupOk(cfg, s);
    forall j | j in s.recipes && j > s.deleted ensures BackupOk(s', j) {
      OldBackupOk(cfg, s, j);
    }
  }

  lemma DeleteKeeps(cfg: Config, s: System, upTo: nat)
    requires Good(s) && Enabled(cfg, s, Delete(upTo))
    ensures Good(Apply(cfg, s, Delete(upTo)))
  {
    var s' := Apply(cfg, s, Delete(upTo));
    assert forall fp :: fp !in s.st.buffered by {
      forall fp ensures fp !in s.st.buffered { assert Count([], fp) == 0; }
    }
    assert TablesOk(s'.st, s'.reclaimed);
    forall j | j in s'.recipes && j > s'.deleted ensures BackupOk(s', j) {
      assert BackupOk(s, j);
    }
  }

  /** The invariant holds after every history of backups, rewrite marks and deletions. */
  lemma {:induction false} AlwaysGood(cfg: Config, es: seq<Event>)
    ensures Good(Run(cfg, es))
  {
    if es == [] {
      assert Mirrors(map[], []);
    } else {
      hide Good, Apply, Enabled;
      var s := Run(cfg, es[..|es| - 1]);
      var e := es[|es| - 1];
      AlwaysGood(cfg, es[..|es| - 1]);
      if Enabled(cfg, s, e) {
        match e {
          case Begin => BeginKeeps(cfg, s);
          case Lookup(items) => LookupStepKeeps(cfg, s, items);
          case Mark(pos, sparse, outOfOrder) => MarkKeeps(cfg, s, pos, sparse, outOfOrder);
          case Filter(n, hints) => FilterStepKeeps(cfg, s, n, hints);
          case Finish => FinishKeeps(cfg, s);
          case Delete(upTo) => DeleteKeeps(cfg, s, upTo);
        }
      }
    }
  }

  // ----- what it means -------------------------------------------------------------------

  /**
   Restorability: after any history, every backup newer than the last deleted one lists exactly
   what it was asked to store, in order, and each of its pointers names a stored, unreclaimed
   container that holds the fingerprint.
   */
  lemma Restorable(cfg: Config, es: seq<Event>, j: nat)
    requires var s := Run(cfg, es); j in s.recipes && j > s.deleted
    ensures var s := Run(cfg, es);
            j in s.inputs && Content(s.recipes[j]) == s.inputs[j]
            && forall p :: p in s.recipes[j] ==>
              p.id in s.st.written && p.fp in s.st.written[p.id].fps && p.id !in s.reclaimed
  {
    AlwaysGood(cfg, es);
    var s := Run(cfg, es);
    assert BackupOk(s, j);
  }

  /** The index never sends a later job to a reclaimed container, nor to one without the chunk. */
  lemma IndexAlive(cfg: Config, es: seq<Event>, fp: Fingerprint)
    requires fp in Run(cfg, es).st.kv
    ensures var s := Run(cfg, es);
            var id := s.st.kv[fp];
            id in s.st.written && fp in s.st.written[id].fps && id !in s.reclaimed
  {
    AlwaysGood(cfg, es);
  }

  /**
   The container-marker algorithm reclaims precisely: between jobs, a stored container is
   reclaimed if and only if no backup newer than the last deleted one refers to it.
   */
  lemma ReclaimsExactly(cfg: Config, es: seq<Event>, id: ContainerId)
    requires var s := Run(cfg, es); !s.running && id in s.st.written
    ensures var s := Run(cfg, es);
            id in s.reclaimed <==>
            forall j :: j in s.recipes && j > s.deleted ==> !RefersTo(s.recipes[j], id)
  {
    AlwaysGood(cfg, es);
    var s := Run(cfg, es);
    if id in s.reclaimed {
      forall j | j in s.recipes && j > s.deleted ensures !RefersTo(s.recipes[j], id) {
        assert BackupOk(s, j);
      }
    } else {
      var j := s.manifest[id];
      assert j in s.recipes && j > s.deleted && RefersTo(s.recipes[j], id);
    }
  }

  // ----- what the queues list ------------------------------------------------------------

  /** Marks leave the queues as they were. */
  lemma SameLists(b: Buffered, f: seq<Chunk>, g: seq<Chunk>, last: map<Fingerprint, Handed>)
    requires Lists(b, f, last)
    requires |f| == |g| && forall i :: 0 <= i < |f| ==> g[i].fp == f[i].fp && g[i].id == f[i].id
    ensures Lists(b, g, last)
  {
    hide QueueOf;
    forall fp ensures Copies(g, fp) == Copies(f, fp) {
      SameCopies(f, g, fp);
    }
  }

  lemma {:induction false} SameCopies(f: seq<Chunk>, g: seq<Chunk>, fp: Fingerprint)
    requires |f| == |g| && forall i :: 0 <= i < |f| ==> g[i].fp == f[i].fp && g[i].id == f[i].id
    ensures Copies(g, fp) == Copies(f, fp)
  {
    if f != [] {
      SameCopies(f[1..], g[1..], fp);
    }
  }

  /** The last filtered copies of the current job, as the history gives them. */
  ghost function HandedBy(cfg: Config, es: seq<Event>): map<Fingerprint, Handed> {
    if es == [] then map[]
    else
      var before := HandedBy(cfg, es[..|es| - 1]);
      var s := Run(cfg, es[..|es| - 1]);
      var e := es[|es| - 1];
      if !Enabled(cfg, s, e) then before
      else if e.Begin? then map[]
      else if e.Filter? then
        LastIds(before, s.flight, FilterSegment(cfg, s.st, s.monitor, s.flight[..e.n], e.hints).2)
      else before
  }

  lemma StepLists(cfg: Config, s: System, e: Event, last: map<Fingerprint, Handed>)
    requires Good(s) && Enabled(cfg, s, e) && (s.running ==> Lists(s.st.buffered, s.flight, last))
    ensures var s' := Apply(cfg, s, e);
            s'.running ==>
              Lists(s'.st.buffered, s'.flight,
                    if e.Begin? then map[]
                    else if e.Filter? then
                      LastIds(last, s.flight, FilterSegment(cfg, s.st, s.monitor, s.flight[..e.n], e.hints).2)
                    else last)
  {
    hide Lists, JobOk, BackupsOk, ManifestOk, Inv, FilterSegment, LookupSegment, LastIds;
    match e
    case Begin => NoLists();
    case Lookup(items) =>
      LookupSegmentKeeps(cfg, s.st, s.reclaimed, s.flight, FreshSegment(items), last);
    case Mark(pos, _, _) => SameLists(s.st.buffered, s.flight, Apply(cfg, s, e).flight, last);
    case Filter(n, hints) => FilterSegmentKeeps(cfg, s.st, s.reclaimed, s.flight, n, hints, s.monitor, last);
    case Finish =>
    case Delete(_) =>
  }

  lemma NoLists()
    ensures Lists(map[], [], map[])
  {}

  lemma {:induction false} AlwaysLists(cfg: Config, es: seq<Event>)
    ensures var s := Run(cfg, es); s.running ==> Lists(s.st.buffered, s.flight, HandedBy(cfg, es))
  {
    hide Lists, Good, Apply, Enabled, LastIds;
    if es != [] {
      var s := Run(cfg, es[..|es| - 1]);
      AlwaysLists(cfg, es[..|es| - 1]);
      AlwaysGood(cfg, es[..|es| - 1]);
      if Enabled(cfg, s, es[|es| - 1]) {
        StepLists(cfg, s, es[|es| - 1], HandedBy(cfg, es[..|es| - 1]));
      }
    }
  }

  /**
   While a job runs, every queue of the index buffer lists exactly the copies of its fingerprint in flight, in stream
   order: as many as were behind the last filtered copy have its id, those looked up since their own; chunk_num is
   the number of chunks in flight, and the lookups the filter stage asserts to succeed do succeed.
   */
  lemma BufferMirrorsFlight(cfg: Config, es: seq<Event>)
    ensures var s := Run(cfg, es);
            s.st.chunkNum == |s.flight| && Mirrors(s.st.buffered, s.flight) && Readable(s.st)
            && (s.running ==> Lists(s.st.buffered, s.flight, HandedBy(cfg, es)))
            && forall i :: 0 <= i < |s.flight| ==>
              s.flight[i].fp in s.st.buffered && s.st.buffered[s.flight[i].fp] != []
  {
    hide Lists, HandedBy, JobOk, BackupsOk, ManifestOk, TablesOk, ElemsOk, ChunkOk;
    AlwaysGood(cfg, es);
    AlwaysLists(cfg, es);
    var s := Run(cfg, es);
    ReadableInv(s.st, s.reclaimed, s.flight);
    MirrorsIn(s.st.buffered, s.flight);
  }
}
