/**
 The imperative engine and the imperative garbage collection, run over whole histories: every event of History is
 carried out by the methods of DedupEngine and ContainerMarker, so what is proved of History.Run is proved of them
 (src/do_backup.c, src/do_delete.c).
 */
module Driver {
  import opened Common
  import opened DedupSpec
  import opened DedupSafety
  import opened DedupEngine
  import opened ContainerMarker
  import opened History

  class Destor {
    const engine: Engine
    const marker: Marker
    var flight: seq<Chunk>
    var running: bool
    var job: nat
    var recipe: seq<Pointer>
    var recipes: map<nat, seq<Pointer>>
    var reclaimed: set<ContainerId>
    var deleted: int
    ghost var input: seq<(Fingerprint, nat)>
    ghost var inputs: map<nat, seq<(Fingerprint, nat)>>

    ghost function Now(): System
      reads this, engine, marker
    {
      System(engine.State(), flight, running, job, engine.monitor, recipe, recipes, marker.manifest, reclaimed, deleted,
             input, inputs)
    }

    constructor (cfg: Config)
      ensures Now() == Init && engine.cfg == cfg && fresh(engine) && fresh(marker)
    {
      engine := new Engine(cfg);
      marker := new Marker();
      flight, running, job, recipe, recipes, reclaimed, deleted := [], false, 0, [], map[], {}, -1;
      input, inputs := [], map[];
    }

    /** A backup starts with empty buffers; the containers and the key-value store are those on disk. */
    method BeginJob()
      requires Enabled(engine.cfg, Now(), Begin)
      modifies this, engine
      ensures Now() == Apply(engine.cfg, old(Now()), Begin)
    {
      engine.open, engine.cache, engine.buffered, engine.chunkNum := None, [], map[], 0;
      engine.monitor := {};
      flight, running, recipe, input := [], true, [], [];
    }

    /** One segment through the dedup thread. */
    method LookupItems(items: seq<(Fingerprint, nat)>)
      requires Good(Now()) && Enabled(engine.cfg, Now(), Lookup(items))
      modifies this, engine
      ensures Now() == Apply(engine.cfg, old(Now()), Lookup(items))
    {
      hide Inv, JobOk, BackupsOk, ManifestOk, Lists, LookupSegment;
      var ok, cs := engine.IndexLookup(FreshSegment(items), reclaimed, flight);
      assert ok;
      flight := flight + cs;
      input := input + items;
    }

    /** A mark of the rewrite stage. */
    method MarkChunk(pos: nat, sparse: bool, outOfOrder: bool)
      requires Enabled(engine.cfg, Now(), Mark(pos, sparse, outOfOrder))
      modifies this
      ensures Now() == Apply(engine.cfg, old(Now()), Mark(pos, sparse, outOfOrder))
    {
      var c := flight[pos];
      flight := flight[pos := c.(sparse := c.sparse || sparse, outOfOrder := c.outOfOrder || outOfOrder)];
    }

    /** One segment through the filter thread, and its pointers into the recipe. */
    method FilterItems(n: nat, hints: seq<Hint>)
      requires Good(Now()) && Enabled(engine.cfg, Now(), Filter(n, hints))
      requires forall h :: h in hints ==> TEMPORARY_ID !in h.cached
      modifies this, engine
      ensures Now() == Apply(engine.cfg, old(Now()), Filter(n, hints))
    {
      hide Inv, JobOk, BackupsOk, ManifestOk, Lists, FilterSegment;
      var done, full := engine.Filter(flight[..n], hints, reclaimed, flight);
      flight := flight[n..];
      recipe := recipe + Pointers(done);
    }

    /** The end of a backup: the last container, the manifest, the recipe. */
    method FinishJob()
      requires Enabled(engine.cfg, Now(), Finish)
      modifies this, engine, marker
      ensures Now() == Apply(engine.cfg, old(Now()), Finish)
    {
      hide CloseLast, UpdateManifest;
      engine.Finish();
      marker.UpdateManifest(engine.monitor, job);
      recipes := recipes[job := recipe];
      inputs := inputs[job := input];
      running := false;
      job := job + 1;
    }

    /** A deletion is a process of its own: it loads the key-value store and saves it again. */
    method DeleteJobs(upTo: nat)
      requires Good(Now()) && Enabled(engine.cfg, Now(), Delete(upTo))
      modifies this, engine, marker
      ensures Now() == Apply(engine.cfg, old(Now()), Delete(upTo))
    {
      hide Invalid, DropEntries;
      ghost var st := engine.State();
      marker.kv := engine.kv;
      var invalid := marker.DoDelete(upTo, engine.written);
      assert st.kv == engine.kv && st.written == engine.written;
      engine.kv := marker.kv;
      engine.cache := [];
      reclaimed := reclaimed + invalid;
      deleted := Max(deleted, upTo);
    }

    /** Whether an event can happen, as far as a running system can tell; the invariant gives the rest. */
    method Possible(e: Event) returns (yes: bool)
      requires Good(Now())
      ensures yes <==> Enabled(engine.cfg, Now(), e)
    {
      QueuesThere(Now());
      hide Good;
      match e
      case Begin => yes := !running;
      case Lookup(items) =>
        yes := running && !(engine.cfg.waitThreshold > 0 && engine.chunkNum >= engine.cfg.waitThreshold)
               && (forall i :: 0 <= i < |items| ==> items[i].1 <= CONTAINER_SIZE - CONTAINER_META_SIZE);
      case Mark(pos, _, _) => yes := running && pos < |flight|;
      case Filter(n, hints) => yes := running && n == |hints| && n <= |flight|;
      case Finish => yes := running && |flight| == 0;
      case Delete(upTo) => yes := !running && upTo < job;
    }

    method Handle(e: Event)
      requires Good(Now()) && HintsOk(e)
      modifies this, engine, marker
      ensures Now() == if Enabled(engine.cfg, old(Now()), e) then Apply(engine.cfg, old(Now()), e) else old(Now())
    {
      hide Good, Enabled, Apply;
      var yes := Possible(e);
      if yes {
        match e
        case Begin => BeginJob();
        case Lookup(items) => LookupItems(items);
        case Mark(pos, sparse, outOfOrder) => MarkChunk(pos, sparse, outOfOrder);
        case Filter(n, hints) => FilterItems(n, hints);
        case Finish => FinishJob();
        case Delete(upTo) => DeleteJobs(upTo);
      }
    }
  }

  /** The simulated restore cache never holds an unresolved id (LruRestore.RestoreAware.Contains). */
  ghost predicate HintsOk(e: Event) {
    e.Filter? ==> forall h :: h in e.hints ==> TEMPORARY_ID !in h.cached
  }

  lemma QueuesThere(s: System)
    requires Good(s)
    ensures Readable(s.st)
    ensures forall c :: c in s.flight ==> c.fp in s.st.buffered && s.st.buffered[c.fp] != []
  {
    hide JobOk, BackupsOk, ManifestOk, Lists, TablesOk, ElemsOk, ChunkOk;
    ReadableInv(s.st, s.reclaimed, s.flight);
    MirrorsIn(s.st.buffered, s.flight);
  }

  /**
   A whole history on the running engine.  It ends in the state History.Run specifies, so every backup that is
   left can be restored: it lists what it was given, and each entry names an unreclaimed container of the engine
   that holds the fingerprint.
   */
  method RunHistory(cfg: Config, es: seq<Event>) returns (d: Destor)
    requires forall e :: e in es ==> HintsOk(e)
    ensures fresh(d) && d.engine.cfg == cfg && d.Now() == Run(cfg, es)
    ensures forall j :: j in d.recipes && j > d.deleted ==>
              j in d.inputs && Content(d.recipes[j]) == d.inputs[j] &&
              forall p :: p in d.recipes[j] ==>
                p.id in d.engine.written && p.fp in d.engine.written[p.id].fps && p.id !in d.reclaimed
  {
    hide Good, Enabled, Apply, HintsOk;
    d := new Destor(cfg);
    for i := 0 to |es|
      invariant fresh(d) && fresh(d.engine) && fresh(d.marker) && d.engine.cfg == cfg
      invariant d.Now() == Run(cfg, es[..i])
    {
      AlwaysGood(cfg, es[..i]);
      assert es[..i + 1][..i] == es[..i];
      d.Handle(es[i]);
    }
    assert es[..|es|] == es;
    forall j | j in d.recipes && j > d.deleted
      ensures j in d.inputs && Content(d.recipes[j]) == d.inputs[j]
      ensures forall p :: p in d.recipes[j] ==>
        p.id in d.engine.written && p.fp in d.engine.written[p.id].fps && p.id !in d.reclaimed
    {
      Restorable(cfg, es, j);
    }
  }
}
