/**
 The LRU restore cache (src/do_restore.c) and the simulator that predicts it during backup
 (src/restore_aware.c): the stack property, and when prediction and restore agree.
 */
module LruRestore {
  import opened Common
  import Lru

  type Id = ContainerId

  /** container_record_check_id. */
  function Is(id: Id): Id -> bool {
    x => x == id
  }

  /** One access of a list cache with the given capacity. */
  function Access(k: int, q: seq<Id>, id: Id): seq<Id> {
    var i := Lru.Find(q, Is(id));
    if i < |q| then Lru.MoveToFront(q, i) else Lru.Insert(q, k, id)
  }

  /** The cache after a trace. */
  function Cache(k: int, trace: seq<Id>): seq<Id> {
    if trace == [] then [] else Access(k, Cache(k, trace[..|trace| - 1]), trace[|trace| - 1])
  }

  function Misses(k: int, trace: seq<Id>): nat {
    if trace == [] then 0
    else
      var t := trace[..|trace| - 1];
      Misses(k, t) + if trace[|trace| - 1] in Cache(k, t) then 0 else 1
  }

  function Take(q: seq<Id>, k: nat): seq<Id> {
    if |q| <= k then q else q[..k]
  }

  lemma AccessDistinct(k: int, q: seq<Id>, id: Id)
    requires Distinct(q)
    ensures Distinct(Access(k, q, id))
  {}

  /** An access to a bounded list does to its first k what it does to the unbounded list. */
  lemma AccessTake(k: nat, q: seq<Id>, id: Id)
    requires k >= 1 && Distinct(q)
    ensures Access(k, Take(q, k), id) == Take(Access(0, q, id), k)
  {
    var i := Lru.Find(q, Is(id));
    var j := Lru.Find(Take(q, k), Is(id));
    if i < k {
      assert i < |q| ==> Take(q, k)[i] == id;
      assert i < |q| ==> j == i;
    } else {
      assert j == |Take(q, k)|;
    }
  }

  /** The stack property: a cache of capacity k is the first k of the unbounded one. */
  lemma {:induction false} StackProperty(k: nat, trace: seq<Id>)
    requires k >= 1
    ensures Cache(k, trace) == Take(Cache(0, trace), k)
    ensures Distinct(Cache(0, trace))
  {
    if trace != [] {
      var n := |trace| - 1;
      StackProperty(k, trace[..n]);
      AccessDistinct(0, Cache(0, trace[..n]), trace[n]);
      AccessTake(k, Cache(0, trace[..n]), trace[n]);
    }
  }

  /** On every trace the list for capacity k is a prefix of the list for capacity k + 1. */
  lemma Inclusion(k: nat, trace: seq<Id>)
    requires k >= 1
    ensures Cache(k, trace) <= Cache(k + 1, trace)
    ensures |Cache(k, trace)| <= k
  {
    StackProperty(k, trace);
    StackProperty(k + 1, trace);
  }

  /** More slots never cost more container reads. */
  lemma {:induction false} MissesShrink(k: nat, trace: seq<Id>)
    requires k >= 1
    ensures Misses(k + 1, trace) <= Misses(k, trace)
  {
    if trace != [] {
      MissesShrink(k, trace[..|trace| - 1]);
      Inclusion(k, trace[..|trace| - 1]);
    }
  }

  lemma TakeAppend(trace: seq<Id>, id: Id)
    ensures (trace + [id])[..|trace| + 1 - 1] == trace
  {}

  lemma MissesStep(k: int, trace: seq<Id>, id: Id)
    ensures Cache(k, trace + [id]) == Access(k, Cache(k, trace), id)
    ensures Misses(k, trace + [id]) == Misses(k, trace) + if id in Cache(k, trace) then 0 else 1
  {
    TakeAppend(trace, id);
  }

  lemma AccessCases(k: int, q: seq<Id>, id: Id)
    ensures Access(k, q, id) == if id in q then Lru.Touch(q, Is(id)) else Lru.Insert(Lru.Touch(q, Is(id)), k, id)
  {
    CacheFindsMembers(q, id);
    hide Lru.Find, Lru.Insert;
    if id !in q {
      assert Lru.Touch(q, Is(id)) == q;
    }
  }

  // ----- the simulator -------------------------------------------------------------------

  /** restore_aware.c: replays a restore while the backup is written. */
  class RestoreAware {
    const cache: Lru.LruCache<Id>
    var totalSize: nat
    var ccf: nat
    var ocf: int
    ghost var trace: seq<Id>

    ghost predicate Valid()
      reads this, cache
    {
      cache.Valid() && cache.elemQueue == Cache(cache.maxSize, trace) && ccf == Misses(cache.maxSize, trace)
      && TEMPORARY_ID !in cache.elemQueue
    }

    constructor (capacity: int)
      ensures Valid() && trace == [] && fresh(cache) && cache.maxSize == capacity
    {
      cache := new Lru.LruCache<Id>(capacity);
      totalSize, ccf, ocf, trace := 0, 0, 0, [];
    }

    method Update(id: Id, chunkLen: nat)
      requires Valid() && id != TEMPORARY_ID
      modifies this, cache
      ensures Valid() && trace == old(trace) + [id]
      ensures totalSize == old(totalSize) + chunkLen + META_ENTRY
      ensures (ocf - 1) * CONTAINER_SIZE < totalSize <= ocf * CONTAINER_SIZE
    {
      hide Lru.Find, Misses, Cache, Access;
      MissesStep(cache.maxSize, trace, id);
      totalSize := totalSize + chunkLen + META_ENTRY;
      CacheFindsMembers(cache.elemQueue, id);
      AccessCases(cache.maxSize, cache.elemQueue, id);
      var record := cache.Lookup(Is(id));
      if record.None? {
        var victim := cache.InsertElem(id);
        ccf := ccf + 1;
      }
      trace := trace + [id];
      ocf := (totalSize + CONTAINER_SIZE - 1) / CONTAINER_SIZE;
    }

    /** restore_aware_contains never claims to hold an unresolved chunk. */
    method Contains(id: Id) returns (r: bool)
      requires Valid()
      ensures r <==> id in Cache(cache.maxSize, trace)
      ensures r ==> id != TEMPORARY_ID
    {
      r := id in cache.elemQueue;
    }
  }

  // ----- the restore ---------------------------------------------------------------------

  datatype Pointer = Pointer(fp: Fingerprint, id: Id)
  datatype Container = Container(id: Id, fps: set<Fingerprint>)

  /** The ids of pointers, or of containers. */
  function Project<T>(s: seq<T>, id: T -> Id): (r: seq<Id>)
    ensures |r| == |s| && forall i :: 0 <= i < |s| ==> r[i] == id(s[i])
  {
    seq(|s|, i requires 0 <= i < |s| => id(s[i]))
  }

  function Ids(recipe: seq<Pointer>): seq<Id> {
    Project(recipe, (p: Pointer) => p.id)
  }

  function ContainerIds(q: seq<Container>): seq<Id> {
    Project(q, (c: Container) => c.id)
  }

  /** What retrieve_container_by_id finds: every pointer of the recipe is restorable. */
  ghost predicate Restorable(store: map<Id, Container>, recipe: seq<Pointer>) {
    (forall id :: id in store ==> store[id].id == id)
    && forall p :: p in recipe ==> p.id in store && p.fp in store[p.id].fps
  }

  /** No fingerprint of the recipe is in two of the containers the recipe refers to. */
  ghost predicate OneHome(store: map<Id, Container>, recipe: seq<Pointer>)
    requires Restorable(store, recipe)
  {
    forall p, q :: p in recipe && q in recipe && p.fp in store[q.id].fps ==> q.id == p.id
  }

  /** lookup_fingerprint_in_container. */
  function Has(fp: Fingerprint): Container -> bool {
    (c: Container) => fp in c.fps
  }

  /** With one home per fingerprint, asking for the fingerprint finds what asking for the id does. */
  lemma {:induction false} FindSame(q: seq<Container>, fp: Fingerprint, id: Id)
    requires forall c :: c in q ==> (fp in c.fps <==> c.id == id)
    ensures Lru.Find(q, Has(fp)) == Lru.Find(ContainerIds(q), Is(id))
  {
    if q != [] {
      assert ContainerIds(q)[1..] == ContainerIds(q[1..]);
      FindSame(q[1..], fp, id);
    }
  }

  /**
   lru_restore_thread: containers are looked up by fingerprint and read on a miss.  Every chunk is
   found, and with one home per fingerprint the reads are exactly those the simulator counts.
   */
  method Restore(store: map<Id, Container>, recipe: seq<Pointer>, capacity: int) returns (readNum: nat)
    requires Restorable(store, recipe)
    ensures OneHome(store, recipe) ==> readNum == Misses(capacity, Ids(recipe))
    ensures readNum <= |recipe|
  {
    var cache := new Lru.LruCache<Container>(capacity);
    readNum := 0;
    ghost var once := OneHome(store, recipe);
    for i := 0 to |recipe|
      invariant cache.Valid() && cache.maxSize == capacity && fresh(cache) && readNum <= i
      invariant forall c :: c in cache.elemQueue ==> exists p :: p in recipe && c == store[p.id]
      invariant once ==> ContainerIds(cache.elemQueue) == Cache(capacity, Ids(recipe[..i]))
      invariant once ==> readNum == Misses(capacity, Ids(recipe[..i]))
    {
      var p := recipe[i];
      assert p in recipe;
      assert Ids(recipe[..i + 1]) == Ids(recipe[..i]) + [p.id];
      TakeAppend(Ids(recipe[..i]), p.id);
      if once {
        forall c | c in cache.elemQueue ensures p.fp in c.fps <==> c.id == p.id {
          var r :| r in recipe && c == store[r.id];
        }
      }
      var missed := ServeOne(cache, store, p, once);
      if missed {
        readNum := readNum + 1;
      }
    }
    assert recipe[..|recipe|] == recipe;
  }

  method ServeOne(cache: Lru.LruCache<Container>, store: map<Id, Container>, p: Pointer, ghost once: bool)
    returns (missed: bool)
    requires cache.Valid() && p.id in store && store[p.id].id == p.id && p.fp in store[p.id].fps
    requires once ==> forall c :: c in cache.elemQueue ==> (p.fp in c.fps <==> c.id == p.id)
    modifies cache
    ensures cache.Valid()
    ensures forall c :: c in cache.elemQueue ==> c in old(cache.elemQueue) || c == store[p.id]
    ensures once ==> ContainerIds(cache.elemQueue) == Access(cache.maxSize, ContainerIds(old(cache.elemQueue)), p.id)
    ensures once ==> (missed <==> p.id !in ContainerIds(old(cache.elemQueue)))
  {
    hide Lru.Find, Lru.Touch, Lru.Insert, Access;
    ServedMembers(cache.elemQueue, cache.maxSize, p.fp, store[p.id]);
    if once {
      ServedSame(cache.elemQueue, cache.maxSize, p.fp, store[p.id]);
    }
    var con := cache.Lookup(Has(p.fp));
    missed := con.None?;
    if missed {
      var c := store[p.id];
      var victim := cache.InsertElem(c);
      con := Some(c);
    }
    assert p.fp in con.value.fps;   // assert(rc)
  }

  /** The list after one request, served from the cache or with c read in. */
  function Served(q: seq<Container>, k: int, fp: Fingerprint, c: Container): seq<Container> {
    if Lru.Find(q, Has(fp)) < |q| then Lru.Touch(q, Has(fp)) else Lru.Insert(Lru.Touch(q, Has(fp)), k, c)
  }

  lemma ServedMembers(q: seq<Container>, k: int, fp: Fingerprint, c: Container)
    requires fp in c.fps
    ensures forall x :: x in Served(q, k, fp, c) ==> x in q || x == c
    ensures var i := Lru.Find(q, Has(fp)); i < |q| ==> fp in q[i].fps
  {
    hide Lru.Find;
    var i := Lru.Find(q, Has(fp));
    assert i < |q| ==> Has(fp)(q[i]);
  }

  /** With one home per fingerprint, the list of containers goes the way of the list of ids. */
  lemma ServedSame(q: seq<Container>, k: int, fp: Fingerprint, c: Container)
    requires forall x :: x in q ==> (fp in x.fps <==> x.id == c.id)
    ensures ContainerIds(Served(q, k, fp, c)) == Access(k, ContainerIds(q), c.id)
    ensures Lru.Find(q, Has(fp)) < |q| <==> c.id in ContainerIds(q)
  {
    FindSame(q, fp, c.id);
    CacheFindsMembers(ContainerIds(q), c.id);
    hide Lru.Find, Lru.MoveToFront, Lru.Insert, ContainerIds;
    var i := Lru.Find(q, Has(fp));
    if i < |q| {
      IdsMoved(q, i);
    } else {
      IdsInserted(q, k, c);
    }
  }

  lemma IdsMoved(q: seq<Container>, i: nat)
    requires i < |q|
    ensures ContainerIds(Lru.MoveToFront(q, i)) == Lru.MoveToFront(ContainerIds(q), i)
  {}

  lemma IdsInserted(q: seq<Container>, k: int, c: Container)
    ensures ContainerIds(Lru.Insert(q, k, c)) == Lru.Insert(ContainerIds(q), k, c.id)
  {}

  lemma CacheFindsMembers(q: seq<Id>, id: Id)
    ensures Lru.Find(q, Is(id)) < |q| <==> id in q
  {}

  /** The reads predicted, and so those of a restore, never grow with the cache. */
  lemma PredictionMonotone(k: nat, l: nat, trace: seq<Id>)
    requires 1 <= k <= l
    ensures Misses(l, trace) <= Misses(k, trace)
    decreases l - k
  {
    if k < l {
      MissesShrink(k, trace);
      PredictionMonotone(k + 1, l, trace);
    }
  }
}
