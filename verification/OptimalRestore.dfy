/**
 The optimal restore cache (src/optimal_restore.c) and the access records it reads
 (src/recipe/recipestore.c): a sliding window of future accesses, the records of the cached
 containers sorted by next use, and a victim taken from the far end.
 */
module OptimalRestore {
  import opened Common
  import Lru
  import LruRestore
  import opened Belady

  // ----- access records ------------------------------------------------------------------

  /** The ids of a recipe with equal runs collapsed, after an access to last. */
  function CollapseAfter(last: Id, s: seq<Id>): seq<Id>
    decreases s
  {
    if s == [] then []
    else if s[0] == last then CollapseAfter(last, s[1..])
    else [s[0]] + CollapseAfter(s[0], s[1..])
  }

  /** The .records file of a backup. */
  function Records(s: seq<Id>): seq<Id> {
    CollapseAfter(TEMPORARY_ID, s) + [TEMPORARY_ID]
  }

  function LastOf(last: Id, s: seq<Id>): Id {
    if s == [] then last else s[|s| - 1]
  }

  lemma {:induction false} CollapseAppend(last: Id, s: seq<Id>, x: Id)
    ensures CollapseAfter(last, s + [x])
         == CollapseAfter(last, s) + if LastOf(last, s) == x then [] else [x]
    decreases s
  {
    if s == [] {
      assert CollapseAfter(x, [x][1..]) == [];
    } else {
      assert (s + [x])[1..] == s[1..] + [x];
      CollapseAppend(s[0], s[1..], x);
    }
  }

  lemma {:induction false} CollapseMembers(last: Id, s: seq<Id>)
    ensures forall x :: x in CollapseAfter(last, s) ==> x in s
    decreases s
  {
    if s != [] {
      CollapseMembers(s[0], s[1..]);
    }
  }

  /** Collapsing runs does not change which of two other containers is used first. */
  lemma {:induction false} CollapseNoLater(last: Id, s: seq<Id>, w: Id, v: Id)
    requires w != last && v != last && w != TEMPORARY_ID && v != TEMPORARY_ID
    ensures NoLater(w, v, CollapseAfter(last, s) + [TEMPORARY_ID]) ==> NoLater(w, v, s)
    decreases s
  {
    if s != [] {
      if s[0] == last {
        CollapseNoLater(last, s[1..], w, v);
      } else {
        var rest := CollapseAfter(s[0], s[1..]) + [TEMPORARY_ID];
        assert CollapseAfter(last, s) + [TEMPORARY_ID] == [s[0]] + rest;
        assert ([s[0]] + rest)[1..] == rest;
        if s[0] != w && s[0] != v {
          CollapseNoLater(s[0], s[1..], w, v);
        }
      }
    }
  }

  const RECORD_BUF := 8192   // recordbufsize / sizeof(containerid)

  /** The writer side: append_n_chunk_pointers and update_backup_version. */
  class RecordWriter {
    var accessRecord: Id
    var recordbuf: seq<Id>
    var file: seq<Id>
    ghost var appended: seq<Id>

    ghost predicate Valid()
      reads this
    {
      |recordbuf| <= RECORD_BUF
      && accessRecord == LastOf(TEMPORARY_ID, appended)
      && (forall x :: x in appended ==> x != TEMPORARY_ID)
      && file + recordbuf + (if accessRecord != TEMPORARY_ID then [accessRecord] else [])
         == CollapseAfter(TEMPORARY_ID, appended)
    }

    constructor ()
      ensures Valid() && appended == []
    {
      accessRecord, recordbuf, file, appended := TEMPORARY_ID, [], [], [];
    }

    method AppendPointer(id: Id)
      requires Valid() && id != TEMPORARY_ID
      modifies this
      ensures Valid() && appended == old(appended) + [id]
    {
      CollapseAppend(TEMPORARY_ID, appended, id);
      hide CollapseAfter;
      if accessRecord != TEMPORARY_ID && accessRecord != id {
        if |recordbuf| + 1 > RECORD_BUF {
          file := file + recordbuf;
          recordbuf := [];
        }
        recordbuf := recordbuf + [accessRecord];
      }
      accessRecord := id;
      appended := appended + [id];
    }

    /** The file ends up holding exactly the records of what was appended. */
    method Close()
      requires Valid()
      modifies this
      ensures file == Records(old(appended)) && recordbuf == [] && accessRecord == TEMPORARY_ID
    {
      file := file + recordbuf;
      recordbuf := [];
      if accessRecord != TEMPORARY_ID {
        file := file + [accessRecord];
      }
      accessRecord := TEMPORARY_ID;
      file := file + [accessRecord];
    }
  }

  // ----- sequence numbers of a window ----------------------------------------------------

  /** The positions of id in r[lo..hi], ascending: one queue of sequence numbers. */
  function Positions(r: seq<Id>, lo: nat, hi: nat, id: Id): (p: seq<nat>)
    requires lo <= hi <= |r|
    ensures forall x :: x in p ==> lo <= x < hi && r[x] == id
    decreases hi - lo
  {
    if lo == hi then []
    else (if r[lo] == id then [lo] else []) + Positions(r, lo + 1, hi, id)
  }

  lemma {:induction false} PositionsAppend(r: seq<Id>, lo: nat, hi: nat, id: Id)
    requires lo <= hi < |r|
    ensures Positions(r, lo, hi + 1, id) == Positions(r, lo, hi, id) + if r[hi] == id then [hi] else []
    decreases hi - lo
  {
    if lo < hi {
      PositionsAppend(r, lo + 1, hi, id);
    } else {
      assert Positions(r, hi + 1, hi + 1, id) == [];
    }
  }

  lemma PositionsExtend(r: seq<Id>, lo: nat, hi: nat, hi': nat)
    requires lo <= hi < |r| && hi' == hi + 1
    ensures forall id :: Positions(r, lo, hi', id) == Positions(r, lo, hi, id) + if r[hi] == id then [hi] else []
  {
    forall id ensures Positions(r, lo, hi', id) == Positions(r, lo, hi, id) + if r[hi] == id then [hi] else [] {
      PositionsAppend(r, lo, hi, id);
    }
  }

  lemma PositionsDrop(r: seq<Id>, lo: nat, hi: nat)
    requires lo < hi <= |r|
    ensures forall id :: Positions(r, lo, hi, id) == (if r[lo] == id then [lo] else []) + Positions(r, lo + 1, hi, id)
  {}

  /** a's queue of sequence numbers sorts no later than b's. */
  predicate SortsBefore(a: seq<nat>, b: seq<nat>) {
    b == [] || (a != [] && a[0] <= b[0])
  }

  lemma SortsTotal(a: seq<nat>, b: seq<nat>, c: seq<nat>)
    requires !SortsBefore(a, b) && (a == c || SortsBefore(a, c))
    ensures SortsBefore(b, c)
  {}

  lemma {:induction false} SortsNoLater(r: seq<Id>, lo: nat, hi: nat, w: Id, v: Id)
    requires lo <= hi <= |r|
    requires SortsBefore(Positions(r, lo, hi, w), Positions(r, lo, hi, v))
    ensures NoLater(w, v, r[lo..hi])
    decreases hi - lo
  {
    if lo < hi {
      assert r[lo..hi][0] == r[lo] && r[lo..hi][1..] == r[lo + 1..hi];
      if r[lo] != w {
        assert Positions(r, lo, hi, w) == Positions(r, lo + 1, hi, w);
        assert Positions(r, lo, hi, w) != [] ==> Positions(r, lo, hi, w)[0] in Positions(r, lo + 1, hi, w);
        assert r[lo] != v;
        SortsNoLater(r, lo + 1, hi, w, v);
      }
    }
  }

  // ----- the cache -----------------------------------------------------------------------

  function QueueOf(table: map<Id, seq<nat>>, id: Id): seq<nat> {
    if id in table then table[id] else []
  }

  function Elems(q: seq<Id>): set<Id> {
    set x | x in q
  }

  lemma {:induction false} DistinctSize(q: seq<Id>)
    requires Distinct(q)
    ensures |Elems(q)| == |q|
  {
    if q != [] {
      DistinctSize(q[1..]);
      assert Elems(q) == Elems(q[1..]) + {q[0]};
    }
  }

  lemma EmptyWindow(r: seq<Id>)
    ensures forall id :: Positions(r, 0, 0, id) == []
  {}

  lemma EmptyCache()
    ensures Distinct<Id>([]) && Elems([]) == {}
  {}

  /** The terminator ends the records and occurs nowhere else. */
  lemma RecordsEnd(ids: seq<Id>)
    requires forall x :: x in ids ==> x != TEMPORARY_ID
    ensures var r := Records(ids);
            |r| >= 1 && r[|r| - 1] == TEMPORARY_ID && forall i :: 0 <= i < |r| - 1 ==> r[i] != TEMPORARY_ID
  {
    CollapseMembers(TEMPORARY_ID, ids);
    var r := Records(ids);
    forall i | 0 <= i < |r| - 1 ensures r[i] != TEMPORARY_ID {
      assert r[i] in CollapseAfter(TEMPORARY_ID, ids);
    }
  }

  /** In the list of the cache, w was used after v. */
  ghost predicate MoreRecent(q: seq<Id>, w: Id, v: Id) {
    exists i, j :: 0 <= i < j < |q| && q[i] == w && q[j] == v
  }

  /** If some cached containers are not used again in the window, the victim is one of them, and up to ten others,
      if there are as many, were used after it. */
  ghost predicate OldestOf(q: seq<Id>, unused: set<Id>, victim: Id) {
    unused != {} ==>
      victim in unused && exists younger: set<Id> :: YoungerThan(q, unused - {victim}, victim, younger)
  }

  ghost predicate YoungerThan(q: seq<Id>, others: set<Id>, victim: Id, younger: set<Id>) {
    younger <= others && |younger| == Min(10, |others|) && forall w :: w in younger ==> MoreRecent(q, w, victim)
  }

  lemma OldestKicked(q: seq<Id>, unused: set<Id>, ht: set<Id>, victim: Id)
    requires victim in ht && unused <= Elems(q)
    requires unused != {} ==> ht <= unused && |ht| == Min(11, |unused|)
    requires forall w :: w in ht && w in Elems(q) && w != victim ==> MoreRecent(q, w, victim)
    ensures OldestOf(q, unused, victim)
  {
    hide MoreRecent;
    if unused != {} {
      var younger := ht - {victim};
      assert |younger| == |ht| - 1;
      assert YoungerThan(q, unused - {victim}, victim, younger);
    }
  }

  lemma ElemsBefore(q: seq<Id>, i: nat)
    requires i < |q|
    ensures Elems(q[i..]) == Elems(q[i + 1..]) + {q[i]}
  {
    assert q[i..] == [q[i]] + q[i + 1..];
  }

  lemma DistinctTail(q: seq<Id>, i: nat)
    requires Distinct(q) && i <= |q|
    ensures |Elems(q[i..])| == |q| - i
  {
    DistinctSize(q[i..]);
  }

  lemma {:induction false} NoPositions(r: seq<Id>, lo: nat, hi: nat, id: Id)
    requires lo <= hi <= |r|
    ensures Positions(r, lo, hi, id) == [] <==> id !in r[lo..hi]
    decreases hi - lo
  {
    if lo < hi {
      assert r[lo..hi] == [r[lo]] + r[lo + 1..hi];
      NoPositions(r, lo + 1, hi, id);
    }
  }

  class OptimalCache {
    const windowSize: nat
    const records: seq<Id>
    const lru: Lru.LruCache<Id>
    var filePos: nat                       // position in the .records file
    var ended: bool                        // the terminator has been read
    var seqno: nat                         // current_sequence_number
    var table: map<Id, seq<nat>>           // access_record_table
    var buffered: int                      // buffered_access_record_num
    var sorted: seq<Id>                    // sorted_records_of_cached_containers
    var lastId: Id
    var readNum: nat                         // jcr.read_container_num
    ghost var consumed: nat

    /** What the file holds and what of it is in the window. */
    ghost predicate WindowOk()
      reads this
    {
      windowSize >= 1
      && |records| >= 1 && records[|records| - 1] == TEMPORARY_ID
      && (forall i :: 0 <= i < |records| - 1 ==> records[i] != TEMPORARY_ID)
      && consumed <= filePos <= |records|
      && (ended <==> filePos == |records|)
      && seqno == filePos && buffered == filePos - consumed && buffered <= windowSize
    }

    function Queue(id: Id): seq<nat>
      reads this
    {
      QueueOf(table, id)
    }

    ghost predicate TableOk()
      requires WindowOk()
      reads this
    {
      forall id :: QueueOf(table, id) == Positions(records, consumed, filePos, id)
    }

    ghost predicate CacheOk()
      reads this, lru
    {
      lru.Valid() && lru.maxSize != 0
      && Distinct(lru.elemQueue) && Distinct(sorted)
      && Elems(sorted) == Elems(lru.elemQueue)
      && Elems(sorted) <= table.Keys
      && (lru.maxSize > 0 ==> |lru.elemQueue| <= lru.maxSize)
    }

    ghost predicate Valid()
      reads this, lru
    {
      WindowOk() && TableOk() && CacheOk()
    }

    ghost function Cached(): set<Id>
      reads this, lru
    {
      Elems(lru.elemQueue)
    }

    constructor (ids: seq<Id>, capacity: int, windowSize: nat)
      requires windowSize >= 1 && capacity != 0
      requires forall x :: x in ids ==> x != TEMPORARY_ID
      ensures Valid() && fresh(lru) && lru.maxSize == capacity && lru.elemQueue == [] && Cached() == {}
      ensures records == Records(ids) && consumed == 0 && readNum == 0 && lastId == TEMPORARY_ID
      ensures this.windowSize == windowSize && filePos == Min(windowSize, |records|)
    {
      this.windowSize := windowSize;
      records := Records(ids);
      lru := new Lru.LruCache<Id>(capacity);
      filePos, ended, seqno, table, buffered, sorted := 0, false, 0, map[], 0, [];
      lastId, readNum, consumed := TEMPORARY_ID, 0, 0;
      new;
      hide Positions, Records, Distinct, Elems, CollapseAfter, QueueOf, WindowOk, TableOk;
      EmptyCache();
      StartOk(ids);
      WindowFill();
    }

    lemma FitsSlots()
      requires Valid()
      ensures Fits(Cached(), lru.maxSize)
    {
      DistinctSize(lru.elemQueue);
    }

    lemma StartOk(ids: seq<Id>)
      requires windowSize >= 1 && records == Records(ids) && forall x :: x in ids ==> x != TEMPORARY_ID
      requires filePos == seqno == buffered == consumed == 0 && !ended && table == map[]
      ensures WindowOk() && TableOk() && buffered < windowSize
    {
      hide Positions, Records;
      RecordsEnd(ids);
      EmptyWindow(records);
    }

    /** optimal_cache_window_fill: read records up to the window size, number and queue them. */
    method WindowFill()
      requires WindowOk() && TableOk()
      requires buffered < windowSize
      modifies this`filePos, this`ended, this`seqno, this`table, this`buffered
      ensures WindowOk() && TableOk() && table.Keys >= old(table).Keys
      ensures filePos == Min(consumed + windowSize, |records|)
    {
      hide Positions, QueueOf;
      var n := windowSize - buffered;
      if ended {
        return;
      }
      var k := if n < |records| - filePos then n else |records| - filePos;
      buffered := buffered + k;
      NumberRecords(k);
      filePos := filePos + k;
      if records[filePos - 1] == TEMPORARY_ID {
        ended := true;
      }
    }

    /** Number the next k records of the file. */
    method NumberRecords(k: nat)
      requires consumed <= filePos && filePos + k <= |records| && seqno == filePos
      requires forall id :: QueueOf(table, id) == Positions(records, consumed, filePos, id)
      modifies this`seqno, this`table
      ensures seqno == old(seqno) + k && table.Keys >= old(table).Keys
      ensures forall id :: QueueOf(table, id) == Positions(records, consumed, filePos + k, id)
    {
      hide Positions, QueueOf;
      for i := 0 to k
        invariant seqno == filePos + i
        invariant table.Keys >= old(table).Keys
        invariant forall id :: QueueOf(table, id) == Positions(records, consumed, filePos + i, id)
      {
        PositionsExtend(records, consumed, filePos + i, filePos + i + 1);
        NumberRecord(records[filePos + i]);
      }
    }

    /** Give the next sequence number to a record of id. */
    method NumberRecord(id: Id)
      modifies this`seqno, this`table
      ensures seqno == old(seqno) + 1 && table.Keys == old(table).Keys + {id}
      ensures forall x :: QueueOf(table, x) == QueueOf(old(table), x) + if x == id then [old(seqno)] else []
    {
      if id !in table {
        table := table[id := []];
      }
      table := table[id := table[id] + [seqno]];
      seqno := seqno + 1;
    }

    /** Where the window ends after a slide: once half of it is used up, it is filled again. */
    ghost function Refilled(consumed: nat, filePos: nat): nat {
      if (filePos - consumed) * 2 <= windowSize then Min(consumed + windowSize, |records|) else filePos
    }

    /** optimal_cache_window_slides: the record of this access is used up. */
    method WindowSlides(id: Id)
      requires Valid()
      requires consumed < |records| - 1 && records[consumed] == id
      modifies this`filePos, this`ended, this`seqno, this`table, this`buffered, this`consumed
      ensures Valid() && consumed == old(consumed) + 1
      ensures table.Keys >= old(table).Keys && id in table
      ensures filePos == Refilled(old(consumed), old(filePos))
    {
      if buffered * 2 <= windowSize {
        WindowFill();
      }
      UseRecord(id);
    }

    /** Take the next sequence number off the queue of id. */
    method UseRecord(id: Id)
      requires WindowOk() && TableOk() && consumed < filePos && consumed < |records| - 1 && records[consumed] == id
      modifies this`table, this`buffered, this`consumed
      ensures WindowOk() && TableOk() && consumed == old(consumed) + 1
      ensures id in table && table.Keys == old(table).Keys
    {
      PositionsDrop(records, consumed, filePos);
      hide Positions;
      assert QueueOf(table, id) == Positions(records, consumed, filePos, id);
      assert id in table;   // assert(r)
      ghost var before := table;
      table := table[id := table[id][1..]];
      forall x ensures QueueOf(table, x) == Positions(records, consumed + 1, filePos, x) {
        assert QueueOf(before, x) == Positions(records, consumed, filePos, x);
      }
      buffered := buffered - 1;
      consumed := consumed + 1;
    }

    /** optimal_cache_hits: slide when a new run of accesses starts, then look the id up. */
    method Hits(id: Id) returns (hit: bool)
      requires Valid()
      requires id != lastId ==> consumed < |records| - 1 && records[consumed] == id
      modifies this`filePos, this`ended, this`seqno, this`table, this`buffered, this`consumed, this`lastId,
        lru`elemQueue
      ensures Valid() && Cached() == old(Cached()) && lastId == id
      ensures hit <==> id in Cached()
      ensures consumed == old(consumed) + if id != old(lastId) then 1 else 0
      ensures id != old(lastId) ==> id in table
      ensures filePos == if id != old(lastId) then Refilled(old(consumed), old(filePos)) else old(filePos)
      ensures filePos >= old(filePos)
      ensures lru.elemQueue == Lru.Touch(old(lru.elemQueue), LruRestore.Is(id))
    {
      if lastId != id {
        WindowSlides(id);
        lastId := id;
      }
      var r := lru.Hits(LruRestore.Is(id));
      hit := r.Some?;
      ghost var q := old(lru.elemQueue);
      assert Elems(lru.elemQueue) == Elems(q);
    }

    ghost predicate SortedByNextUse(q: seq<Id>)
      reads this
    {
      forall i, j :: 0 <= i < j < |q| ==> SortsBefore(Queue(q[i]), Queue(q[j]))
    }

    /** g_sequence_sort by first sequence number; how ties end up is the library's choice. */
    method SortRecords()
      modifies this`sorted
      ensures multiset(sorted) == multiset(old(sorted)) && SortedByNextUse(sorted)
    {
      var r: seq<Id> := [];
      for i := 0 to |sorted|
        invariant sorted == old(sorted)
        invariant multiset(r) == multiset(sorted[..i]) && SortedByNextUse(r)
      {
        assert sorted[..i + 1] == sorted[..i] + [sorted[i]];
        r := InsertSorted(r, sorted[i]);
      }
      assert sorted[..|sorted|] == sorted;
      sorted := r;
    }

    method InsertSorted(r: seq<Id>, id: Id) returns (r': seq<Id>)
      requires SortedByNextUse(r)
      ensures SortedByNextUse(r') && multiset(r') == multiset(r) + multiset{id}
    {
      hide SortsBefore, QueueOf;
      var k := 0;
      while k < |r| && SortsBefore(Queue(r[k]), Queue(id))
        invariant k <= |r|
        invariant forall j :: 0 <= j < k ==> SortsBefore(Queue(r[j]), Queue(id))
      {
        k := k + 1;
      }
      assert r == r[..k] + r[k..];
      InsertedInOrder(r, id, k);
      r' := r[..k] + [id] + r[k..];
    }

    lemma InsertedInOrder(r: seq<Id>, id: Id, k: nat)
      requires SortedByNextUse(r) && k <= |r|
      requires forall j :: 0 <= j < k ==> SortsBefore(Queue(r[j]), Queue(id))
      requires k < |r| ==> !SortsBefore(Queue(r[k]), Queue(id))
      ensures SortedByNextUse(r[..k] + [id] + r[k..])
    {
      hide SortsBefore, QueueOf;
      forall j | k <= j < |r| ensures SortsBefore(Queue(id), Queue(r[j])) {
        SortsTotal(Queue(r[k]), Queue(id), Queue(r[j]));
      }
    }

    /** The last record and up to ten more that are not used again in the window. */
    method Candidates() returns (ht: set<Id>)
      requires sorted != [] && SortedByNextUse(sorted) && Distinct(sorted)
      ensures ht <= Elems(sorted) && sorted[|sorted| - 1] in ht
      ensures forall h, w :: h in ht && w in sorted ==> SortsBefore(Queue(w), Queue(h))
      ensures var unused := set w | w in sorted && Queue(w) == [];
              unused != {} ==> ht <= unused && |ht| == Min(11, |unused|)
    {
      hide QueueOf;
      var pos := |sorted| - 1;
      ht := {sorted[pos]};
      var i := 0;
      ghost var first := pos;
      forall w | w in sorted ensures SortsBefore(Queue(w), Queue(sorted[pos])) {
        var j :| 0 <= j < |sorted| && sorted[j] == w;
      }
      while i < 10 && pos != 0
        invariant 0 <= pos < |sorted| && i <= 10
        invariant pos == first == |sorted| - 1 - i && ht == Elems(sorted[first..])
        invariant forall j :: first < j < |sorted| - 1 ==> Queue(sorted[j]) == []
        invariant first < |sorted| - 1 ==> Queue(sorted[first]) == []
        invariant forall h, w :: h in ht && w in sorted ==> SortsBefore(Queue(w), Queue(h))
      {
        pos := pos - 1;
        if |Queue(sorted[pos])| == 0 {
          ElemsBefore(sorted, pos);
          ht := ht + {sorted[pos]};
          first := pos;
        } else {
          break;
        }
        i := i + 1;
      }
      CandidateCount(sorted, first, i);
    }

    /** What is not used again sorts last, so the candidates are as many of it as were looked at. */
    lemma CandidateCount(q: seq<Id>, first: nat, i: nat)
      requires SortedByNextUse(q) && Distinct(q) && first < |q| && first == |q| - 1 - i && i <= 10
      requires forall j :: first <= j < |q| - 1 ==> Queue(q[j]) == []
      requires i == 10 || first == 0 || Queue(q[first - 1]) != []
      ensures var unused := set w | w in q && Queue(w) == [];
              unused != {} ==> Elems(q[first..]) <= unused && |Elems(q[first..])| == Min(11, |unused|)
    {
      hide QueueOf;
      var unused := set w | w in q && Queue(w) == [];
      if unused != {} {
        UnusedLast(q);
        DistinctTail(q, first);
        assert Elems(q[first..]) <= unused;
        if i < 10 {
          UsedFirst(q, first);
          forall w | w in unused ensures w in Elems(q[first..]) {
            var j :| 0 <= j < |q| && q[j] == w;
            assert q[first..][j - first] == w;
          }
          assert unused == Elems(q[first..]);
        } else {
          SubsetSize(Elems(q[first..]), unused);
        }
      }
    }

    lemma UsedFirst(q: seq<Id>, first: nat)
      requires SortedByNextUse(q) && first < |q| && (first == 0 || Queue(q[first - 1]) != [])
      ensures forall j :: 0 <= j < first ==> Queue(q[j]) != []
    {
      hide QueueOf;
      forall j | 0 <= j < first ensures Queue(q[j]) != [] {
        assert j < first - 1 ==> SortsBefore(Queue(q[j]), Queue(q[first - 1]));
      }
    }

    lemma UnusedLast(q: seq<Id>)
      requires SortedByNextUse(q) && exists w :: w in q && Queue(w) == []
      ensures Queue(q[|q| - 1]) == []
    {
      var w :| w in q && Queue(w) == [];
      var j :| 0 <= j < |q| && q[j] == w;
    }

    /** The cached containers that are not used again in the window. */
    ghost function NotAhead(): set<Id>
      requires WindowOk()
      reads this, lru
    {
      set w | w in lru.elemQueue && w !in records[consumed..filePos]
    }

    /**
     The eviction of optimal_cache_insert: the victim's next use within the window is no earlier
     than that of any container kept, and among those not used again there it is the oldest, as far
     as ten others are looked at.
     */
    method Evict() returns (victim: Id, ghost at: nat)
      requires Valid() && sorted != []
      modifies this`sorted, this`table, lru`elemQueue, lru`size
      ensures Valid() && victim in old(Cached()) && Cached() == old(Cached()) - {victim}
      ensures |lru.elemQueue| == |old(lru.elemQueue)| - 1
      ensures at < |old(lru.elemQueue)| && old(lru.elemQueue)[at] == victim
      ensures lru.elemQueue == Lru.Remove(old(lru.elemQueue), at)
      ensures forall w :: w in old(Cached()) ==> NoLater(w, victim, records[consumed..filePos])
      ensures OldestOf(old(lru.elemQueue), old(NotAhead()), victim)
      ensures old(table).Keys - {victim} <= table.Keys
    {
      hide SortsBefore, Positions, NoLater, QueueOf, Distinct, OldestOf;
      ghost var q := lru.elemQueue;
      SortRecords();
      SortKeepsDistinct(old(sorted), sorted);
      var ht := Candidates();
      UnusedIs();
      victim, at := KickOneOf(ht, sorted[|sorted| - 1]);
      OldestKicked(q, old(NotAhead()), ht, victim);
      VictimIsLast(victim);
      RemoveRecord(victim);
    }

    lemma UnusedIs()
      requires WindowOk() && TableOk() && Elems(sorted) == Elems(lru.elemQueue)
      ensures (set w | w in sorted && Queue(w) == []) == NotAhead()
    {
      hide QueueOf;
      forall w ensures w in sorted <==> w in lru.elemQueue {
        assert w in Elems(sorted) <==> w in Elems(lru.elemQueue);
      }
      forall w ensures Queue(w) == [] <==> w !in records[consumed..filePos] {
        NoPositions(records, consumed, filePos, w);
      }
    }

    /** Kick the cached candidate nearest the tail of the cache. */
    method KickOneOf(ht: set<Id>, ghost some: Id) returns (victim: Id, ghost at: nat)
      requires lru.Valid() && Distinct(lru.elemQueue) && some in ht && some in Cached()
      modifies lru`elemQueue, lru`size
      ensures lru.Valid() && Distinct(lru.elemQueue)
      ensures victim in ht && victim in old(Cached()) && Cached() == old(Cached()) - {victim}
      ensures at < |old(lru.elemQueue)| && old(lru.elemQueue)[at] == victim
      ensures lru.elemQueue == Lru.Remove(old(lru.elemQueue), at)
      ensures forall w :: w in ht && w in old(Cached()) && w != victim ==> MoreRecent(old(lru.elemQueue), w, victim)
    {
      ghost var q := lru.elemQueue;
      var v := lru.Kicks(x => x in ht);
      assert v.Some?;
      victim := v.value;
      at := Lru.FindLast(q, x => x in ht);
      RemoveElem(q, at);
      forall w | w in ht && w in Elems(q) && w != victim ensures MoreRecent(q, w, victim) {
        var i :| 0 <= i < |q| && q[i] == w;
        assert i < at;
      }
    }

    /** Everything whose queue sorts before the victim's is used again no later. */
    lemma VictimIsLast(victim: Id)
      requires WindowOk() && TableOk()
      requires forall w :: w in sorted ==> SortsBefore(Queue(w), Queue(victim))
      ensures forall w :: w in sorted ==> NoLater(w, victim, records[consumed..filePos])
    {
      forall w | w in sorted ensures NoLater(w, victim, records[consumed..filePos]) {
        SortsNoLater(records, consumed, filePos, w, victim);
      }
    }

    /** Drop the victim's record, and its table entry when it is not used again. */
    method RemoveRecord(victim: Id)
      requires victim in sorted && Distinct(sorted) && Elems(sorted) <= table.Keys
      requires WindowOk() && TableOk()
      modifies this`sorted, this`table
      ensures Distinct(sorted) && Elems(sorted) == Elems(old(sorted)) - {victim}
      ensures WindowOk() && TableOk()
      ensures old(table).Keys - {victim} <= table.Keys <= old(table).Keys
    {
      var i := |sorted| - 1;
      while sorted[i] != victim
        invariant 0 <= i < |sorted| && sorted == old(sorted) && table == old(table)
        invariant victim in sorted[..i + 1]
        decreases i
      {
        i := i - 1;
      }
      if |table[victim]| == 0 {
        table := table - {victim};
      }
      RemoveElem(sorted, i);
      sorted := sorted[..i] + sorted[i + 1..];
    }

    /** optimal_cache_insert: make room if the cache is full, then read the container. */
    method Insert(id: Id) returns (ghost victim: Option<Id>, ghost at: nat)
      requires Valid() && id !in Cached() && id in table
      modifies this`sorted, this`table, this`readNum, lru`elemQueue, lru`size
      ensures Valid() && readNum == old(readNum) + 1
      ensures victim.Some? <==> lru.maxSize >= 0 && |old(Cached())| == lru.maxSize
      ensures victim.Some? ==> victim.value in old(Cached())
                               && Cached() == old(Cached()) - {victim.value} + {id}
                               && forall w :: w in old(Cached()) ==>
                                 NoLater(w, victim.value, records[consumed..filePos])
      ensures victim.Some? ==> at < |old(lru.elemQueue)| && old(lru.elemQueue)[at] == victim.value
                               && lru.elemQueue == [id] + Lru.Remove(old(lru.elemQueue), at)
                               && OldestOf(old(lru.elemQueue), old(NotAhead()), victim.value)
      ensures victim.None? ==> Cached() == old(Cached()) + {id} && lru.elemQueue == [id] + old(lru.elemQueue)
    {
      hide Distinct, Elems, NoLater, Positions, OldestOf;
      victim, at := None, 0;
      DistinctSize(lru.elemQueue);
      DistinctSize(sorted);
      var full := lru.IsFull();
      if full {
        var v;
        v, at := Evict();
        victim := Some(v);
      }
      readNum := readNum + 1;
      ghost var q := lru.elemQueue;
      var none := lru.InsertElem(id);
      assert id in table;   // assert(r)
      PushDistinct(q, id);
      PushDistinct(sorted, id);
      sorted := [id] + sorted;
    }
  }

  // ----- the restore thread --------------------------------------------------------------

  /** What the window holds when it covers the whole record, with or without the terminator, decides
      between any two containers. */
  lemma WindowIsFuture(records: seq<Id>, consumed: nat, hi: nat, last: Id, s: seq<Id>, w: Id, v: Id)
    requires consumed <= hi <= |records| <= hi + 1
    requires records[consumed..] == CollapseAfter(last, s) + [TEMPORARY_ID]
    requires w != last && v != last && w != TEMPORARY_ID && v != TEMPORARY_ID
    requires NoLater(w, v, records[consumed..hi])
    ensures NoLater(w, v, s)
  {
    if hi == |records| {
      assert records[consumed..hi] == records[consumed..];
    } else {
      assert records[consumed..] == records[consumed..hi] + [TEMPORARY_ID];
      NoLaterThenEnd(w, v, records[consumed..hi]);
    }
    CollapseNoLater(last, s, w, v);
  }

  lemma {:induction false} NoLaterThenEnd(w: Id, v: Id, s: seq<Id>)
    requires NoLater(w, v, s) && v != TEMPORARY_ID
    ensures NoLater(w, v, s + [TEMPORARY_ID])
  {
    if s == [] {
      assert (s + [TEMPORARY_ID])[1..] == [];
    } else if s[0] != w {
      NoLaterThenEnd(w, v, s[1..]);
      assert (s + [TEMPORARY_ID])[1..] == s[1..] + [TEMPORARY_ID];
    }
  }

  /** Every budget some policy can keep to is also enough for the optimal cache from here. */
  ghost predicate AsGood(k: int, ids: seq<Id>, cached: set<Id>, rest: seq<Id>, readNum: nat) {
    forall n :: Can(k, {}, ids, n) ==> Can(k, cached, rest, n - readNum)
  }

  lemma AsGoodHit(k: int, ids: seq<Id>, b: set<Id>, rest: seq<Id>, readNum: nat)
    requires AsGood(k, ids, b, rest, readNum) && rest != [] && rest[0] in b
    ensures AsGood(k, ids, b, rest[1..], readNum)
  {
    forall n | Can(k, {}, ids, n) ensures Can(k, b, rest[1..], n - readNum) {
      HitStep(k, b, rest, n - readNum);
    }
  }

  lemma AsGoodMiss(k: int, ids: seq<Id>, b: set<Id>, rest: seq<Id>, readNum: nat, b': set<Id>, victim: Id)
    requires AsGood(k, ids, b, rest, readNum) && rest != [] && rest[0] !in b
    requires if k >= 0 && |b| == k
             then victim in b && b' == b - {victim} + {rest[0]}
                  && forall w :: w in b ==> NoLater(w, victim, rest[1..])
             else b' == b + {rest[0]}
    ensures AsGood(k, ids, b', rest[1..], readNum + 1)
  {
    forall n | Can(k, {}, ids, n) ensures Can(k, b', rest[1..], n - (readNum + 1)) {
      BeladyStep(k, b, rest, n - readNum, b', victim);
    }
  }

  /** Whatever leaves the cache, nothing else in it is used later in s. */
  ghost predicate Farthest(b: set<Id>, b': set<Id>, s: seq<Id>) {
    forall v, w :: v in b && v !in b' && w in b ==> NoLater(w, v, s)
  }

  /** The next n records behind chunk i. */
  ghost function Ahead(ids: seq<Id>, i: nat, n: nat): seq<Id>
    requires i < |ids|
  {
    var records := CollapseAfter(ids[i], ids[i + 1..]);
    records[..Min(n, |records|)]
  }

  lemma {:induction false} NoLaterPrefix(w: Id, v: Id, s: seq<Id>, n: nat)
    requires NoLater(w, v, s) && n <= |s|
    ensures NoLater(w, v, s[..n])
    decreases |s|
  {
    if n > 0 && s[0] != w {
      NoLaterPrefix(w, v, s[1..], n - 1);
      assert s[..n][1..] == s[1..][..n - 1];
    }
  }

  lemma NothingLeaves(b: set<Id>, s: seq<Id>)
    ensures Farthest(b, b, s)
  {}

  /** The window reaches at least as far ahead. */
  lemma FarthestAhead(b: set<Id>, b': set<Id>, ids: seq<Id>, i: nat, records: seq<Id>, consumed: nat, hi: nat, n: nat)
    requires i < |ids| && consumed <= hi <= |records| && hi >= Min(consumed + n, |records|)
    requires records[consumed..] == CollapseAfter(ids[i], ids[i + 1..]) + [TEMPORARY_ID]
    requires Farthest(b, b', records[consumed..hi])
    ensures Farthest(b, b', Ahead(ids, i, n))
  {
    hide NoLater, CollapseAfter;
    var ahead, window := Ahead(ids, i, n), records[consumed..hi];
    assert |ahead| <= |window|;
    assert window == records[consumed..][..|window|];
    assert window[..|ahead|] == records[consumed..][..|ahead|] == ahead;
    forall v, w | v in b && v !in b' && w in b ensures NoLater(w, v, ahead) {
      NoLaterPrefix(w, v, window, |ahead|);
    }
  }

  /** No window to look ahead in, or no bound on the cache: then the cache is a plain LRU one. */
  predicate Plain(capacity: int, windowSize: nat) {
    capacity < 0 || (windowSize == 1 && capacity <= 11)
  }

  /**
   optimal_restore_thread over the container ids of a recipe.  When the window covers the whole
   record, the terminator left aside, no demand-loading policy with as many slots reads fewer containers;
   with a window of one record, and all cached containers looked at, the reads are those of an LRU cache.  With any
   window it is a demand-loading run itself: a container is read when and only when it is not cached, and of what
   leaves the cache nothing else that was in it is used later within the next half window.
   */
  method Restore(ids: seq<Id>, capacity: int, windowSize: nat) returns (readNum: nat, ghost run: seq<set<Id>>)
    requires windowSize >= 1 && capacity != 0
    requires forall x :: x in ids ==> x != TEMPORARY_ID
    ensures PolicyRun(capacity, ids, run) && run[0] == {} && readNum == Reads(ids, run)
    ensures forall i :: 0 <= i < |ids| ==> Farthest(run[i], run[i + 1], Ahead(ids, i, windowSize / 2))
    ensures windowSize >= |Records(ids)| - 1 ==>
              forall caches :: PolicyRun(capacity, ids, caches) && caches[0] == {} ==> readNum <= Reads(ids, caches)
    ensures Plain(capacity, windowSize) ==> readNum == LruRestore.Misses(capacity, ids)
  {
    var cache := new OptimalCache(ids, capacity, windowSize);
    ghost var covered := windowSize >= |Records(ids)| - 1;
    StartServing(cache, ids, covered);
    run := [{}];
    StartTally(cache, ids);
    hide PolicyRun, Reads, Serving, Tallied, Records, Plain, OptimalCache.Valid, Farthest, Ahead;
    for i := 0 to |ids|
      invariant fresh(cache) && fresh(cache.lru) && cache.lru.maxSize == capacity && cache.windowSize == windowSize
      invariant Serving(cache, ids, i, covered) && Tallied(cache, ids, i, run)
    {
      run := ServeNext(cache, ids, i, covered, run);
    }
    readNum := cache.readNum;
    ServedWell(cache, ids, covered);
    EndTally(cache, ids, run);
  }

  /** One more chunk, and one more cache in the run. */
  method ServeNext(cache: OptimalCache, ids: seq<Id>, i: nat, ghost covered: bool, ghost run: seq<set<Id>>)
    returns (ghost run': seq<set<Id>>)
    requires i < |ids| && Serving(cache, ids, i, covered) && forall x :: x in ids ==> x != TEMPORARY_ID
    requires Tallied(cache, ids, i, run)
    modifies cache, cache.lru
    ensures Serving(cache, ids, i + 1, covered) && Tallied(cache, ids, i + 1, run')
  {
    hide PolicyRun, Reads, Demand, Serving, Plain, Farthest, Ahead, LruRestore.Access, LruRestore.Cache,
      LruRestore.Misses;
    assert ids[..i + 1] == ids[..i] + [ids[i]];
    LruRestore.MissesStep(cache.lru.maxSize, ids[..i], ids[i]);
    ServeOne(cache, ids, i, covered);
    PolicyAppend(cache.lru.maxSize, ids[..i], run, ids[i], cache.Cached());
    run' := run + [cache.Cached()];
  }

  /** The reads so far are those of the run so far, and of an LRU cache if it is one. */
  ghost predicate Tallied(cache: OptimalCache, ids: seq<Id>, i: nat, run: seq<set<Id>>)
    requires i <= |ids|
    reads cache, cache.lru
  {
    var k := cache.lru.maxSize;
    PolicyRun(k, ids[..i], run) && run[0] == {} && run[i] == cache.Cached() && cache.readNum == Reads(ids[..i], run)
    && (forall j :: 0 <= j < i ==> Farthest(run[j], run[j + 1], Ahead(ids, j, cache.windowSize / 2)))
    && (Plain(k, cache.windowSize) ==>
          cache.lru.elemQueue == LruRestore.Cache(k, ids[..i]) && cache.readNum == LruRestore.Misses(k, ids[..i]))
  }

  lemma StartTally(cache: OptimalCache, ids: seq<Id>)
    requires cache.readNum == 0 && cache.lru.elemQueue == []
    ensures Tallied(cache, ids, 0, [{}])
  {
    assert ids[..0] == [];
  }

  lemma EndTally(cache: OptimalCache, ids: seq<Id>, run: seq<set<Id>>)
    requires Tallied(cache, ids, |ids|, run)
    ensures var k := cache.lru.maxSize;
            PolicyRun(k, ids, run) && run[0] == {} && cache.readNum == Reads(ids, run)
            && (forall i :: 0 <= i < |ids| ==> Farthest(run[i], run[i + 1], Ahead(ids, i, cache.windowSize / 2)))
            && (Plain(k, cache.windowSize) ==> cache.readNum == LruRestore.Misses(k, ids))
  {
    assert ids[..|ids|] == ids;
  }

  /** Before chunk i: the cache and its window stand where the records of the chunks before i end, and with the window
      covering all, no budget has been overspent. */
  ghost predicate Serving(cache: OptimalCache, ids: seq<Id>, i: nat, covered: bool)
    requires i <= |ids|
    reads cache, cache.lru
  {
    cache.Valid() && cache.consumed <= |cache.records|
    && cache.records[cache.consumed..] == CollapseAfter(cache.lastId, ids[i..]) + [TEMPORARY_ID]
    && (cache.lastId == TEMPORARY_ID || cache.lastId in cache.Cached()) && TEMPORARY_ID !in cache.Cached()
    && cache.filePos >= Min(cache.consumed + cache.windowSize / 2, |cache.records|)
    && (covered ==> cache.filePos >= |cache.records| - 1
                    && AsGood(cache.lru.maxSize, ids, cache.Cached(), ids[i..], cache.readNum))
  }

  lemma StartServing(cache: OptimalCache, ids: seq<Id>, covered: bool)
    requires cache.Valid() && cache.records == Records(ids) && cache.lastId == TEMPORARY_ID
    requires cache.consumed == 0 && cache.readNum == 0 && cache.Cached() == {}
    requires cache.filePos == Min(cache.windowSize, |cache.records|)
    requires covered ==> cache.filePos >= |cache.records| - 1
    ensures Serving(cache, ids, 0, covered)
  {
    assert ids[0..] == ids;
  }

  lemma ServedWell(cache: OptimalCache, ids: seq<Id>, covered: bool)
    requires Serving(cache, ids, |ids|, covered)
    ensures covered ==>
              forall caches :: PolicyRun(cache.lru.maxSize, ids, caches) && caches[0] == {} ==>
                                 cache.readNum <= Reads(ids, caches)
  {
    assert ids[|ids|..] == [];
    if covered {
      NoneBetter(cache.lru.maxSize, ids, cache.Cached(), cache.readNum);
    }
  }

  lemma NoneBetter(k: int, ids: seq<Id>, cached: set<Id>, readNum: nat)
    requires AsGood(k, ids, cached, [], readNum)
    ensures forall caches :: PolicyRun(k, ids, caches) && caches[0] == {} ==> readNum <= Reads(ids, caches)
  {
    forall caches | PolicyRun(k, ids, caches) && caches[0] == {} ensures readNum <= Reads(ids, caches) {
      PolicyCan(k, ids, caches);
      assert Can(k, cached, [], Reads(ids, caches) - readNum);
    }
  }

  /** The lookup of chunk i: its record, if it begins a run, leaves the window. */
  method Look(cache: OptimalCache, ids: seq<Id>, i: nat, ghost covered: bool) returns (hit: bool)
    requires i < |ids| && Serving(cache, ids, i, covered) && forall x :: x in ids ==> x != TEMPORARY_ID
    modifies cache, cache.lru
    ensures cache.Valid() && cache.lastId == ids[i] && cache.Cached() == old(cache.Cached())
    ensures (hit <==> ids[i] in cache.Cached()) && (!hit ==> ids[i] in cache.table)
    ensures TEMPORARY_ID !in cache.Cached() && cache.readNum == old(cache.readNum)
    ensures cache.consumed <= cache.filePos <= |cache.records|
    ensures cache.records[cache.consumed..] == CollapseAfter(ids[i], ids[i + 1..]) + [TEMPORARY_ID]
    ensures cache.filePos >= Min(cache.consumed + cache.windowSize / 2, |cache.records|)
    ensures covered ==> cache.filePos >= |cache.records| - 1
    ensures cache.windowSize == 1 && !hit ==> cache.filePos == cache.consumed
    ensures cache.lru.elemQueue == Lru.Touch(old(cache.lru.elemQueue), LruRestore.Is(ids[i]))
  {
    hide AsGood, OptimalCache.CacheOk, OptimalCache.TableOk, Lru.Touch;
    var id := ids[i];
    assert id in ids;
    ghost var future := cache.records[cache.consumed..];
    RecordHere(cache.lastId, ids[i..], future);
    if id != cache.lastId {
      assert future[0] == cache.records[cache.consumed];
      assert future[1..] == cache.records[cache.consumed + 1..];
    }
    assert ids[i..][0] == id && ids[i..][1..] == ids[i + 1..];
    hide CollapseAfter;
    hit := cache.Hits(id);
  }

  /** The record of a chunk that begins a run is the next one. */
  lemma RecordHere(last: Id, rest: seq<Id>, future: seq<Id>)
    requires rest != [] && future == CollapseAfter(last, rest) + [TEMPORARY_ID]
    ensures rest[0] != last ==> |future| >= 2 && future[0] == rest[0]
                                && future[1..] == CollapseAfter(rest[0], rest[1..]) + [TEMPORARY_ID]
    ensures rest[0] == last ==> future == CollapseAfter(rest[0], rest[1..]) + [TEMPORARY_ID]
  {}

  /** One chunk of the recipe: look its container up, read it on a miss. */
  method ServeOne(cache: OptimalCache, ids: seq<Id>, i: nat, ghost covered: bool)
    requires i < |ids| && Serving(cache, ids, i, covered) && forall x :: x in ids ==> x != TEMPORARY_ID
    modifies cache, cache.lru
    ensures Serving(cache, ids, i + 1, covered) && cache.lastId == ids[i]
    ensures cache.readNum == old(cache.readNum) + if ids[i] in old(cache.lru.elemQueue) then 0 else 1
    ensures cache.readNum == old(cache.readNum) + Cost(old(cache.Cached()), ids[i])
    ensures Demand(cache.lru.maxSize, old(cache.Cached()), ids[i], cache.Cached())
    ensures Farthest(old(cache.Cached()), cache.Cached(), Ahead(ids, i, cache.windowSize / 2))
    ensures Plain(cache.lru.maxSize, cache.windowSize) ==>
              cache.lru.elemQueue == LruRestore.Access(cache.lru.maxSize, old(cache.lru.elemQueue), ids[i])
  {
    hide AsGood, NoLater, Can, OptimalCache.CacheOk, OptimalCache.TableOk, OptimalCache.WindowOk, LruRestore.Access,
      Lru.Touch, OldestOf, Farthest, Ahead, CollapseAfter;
    ghost var b, q := cache.Cached(), cache.lru.elemQueue;
    ghost var rest := ids[i..];
    assert rest[0] == ids[i] && rest[1..] == ids[i + 1..] && ids[i] in ids;
    LruRestore.AccessCases(cache.lru.maxSize, q, ids[i]);
    var hit := Look(cache, ids, i, covered);
    if hit {
      NothingLeaves(b, cache.records[cache.consumed..cache.filePos]);
      if covered { AsGoodHit(cache.lru.maxSize, ids, b, rest, cache.readNum); }
    } else {
      Missed(cache, ids, rest, covered);
    }
    cache.FitsSlots();
    FarthestAhead(b, cache.Cached(), ids, i, cache.records, cache.consumed, cache.filePos, cache.windowSize / 2);
  }

  /** The miss: the container is read, and the cache loses a container if it is full. */
  method Missed(cache: OptimalCache, ghost ids: seq<Id>, ghost rest: seq<Id>, ghost covered: bool)
    requires cache.Valid() && rest != [] && cache.lastId == rest[0] != TEMPORARY_ID && rest[0] in cache.table
    requires rest[0] !in cache.Cached() && TEMPORARY_ID !in cache.Cached() && cache.consumed <= |cache.records|
    requires cache.records[cache.consumed..] == CollapseAfter(rest[0], rest[1..]) + [TEMPORARY_ID]
    requires covered ==> cache.filePos >= |cache.records| - 1
    requires covered ==> AsGood(cache.lru.maxSize, ids, cache.Cached(), rest, cache.readNum)
    modifies cache`sorted, cache`table, cache`readNum, cache.lru`elemQueue, cache.lru`size
    ensures cache.Valid() && rest[0] in cache.Cached() && TEMPORARY_ID !in cache.Cached()
    ensures cache.readNum == old(cache.readNum) + 1 && cache.Cached() <= old(cache.Cached()) + {rest[0]}
    ensures Farthest(old(cache.Cached()), cache.Cached(), cache.records[cache.consumed..cache.filePos])
    ensures covered ==> AsGood(cache.lru.maxSize, ids, cache.Cached(), rest[1..], cache.readNum)
    ensures cache.lru.maxSize < 0 || (old(cache.filePos == cache.consumed) && cache.lru.maxSize <= 11) ==>
              cache.lru.elemQueue == Lru.Insert(old(cache.lru.elemQueue), cache.lru.maxSize, rest[0])
  {
    hide AsGood, NoLater, Can, OldestOf, Distinct, Elems, OptimalCache.TableOk, Lru.Insert;
    var id := cache.lastId;
    ghost var b, q := cache.Cached(), cache.lru.elemQueue;
    ghost var readNum, unused := cache.readNum, cache.NotAhead();
    DistinctSize(q);
    NothingAhead(q, unused, cache.records, cache.consumed, cache.filePos);
    assert Distinct(q);
    ghost var victim, at := cache.Insert(id);
    if cache.lru.maxSize < 0 || (cache.filePos == cache.consumed && cache.lru.maxSize <= 11) {
      PlainInsert(q, cache.lru.elemQueue, id, cache.lru.maxSize, victim, at);
    }
    if covered {
      MissedAsGood(cache.lru.maxSize, ids, b, rest, readNum, cache.Cached(), victim,
                   cache.records, cache.consumed, cache.filePos);
    }
    InCached(cache.lru.elemQueue, id);
  }

  lemma InCached(q: seq<Id>, id: Id)
    ensures q != [] && q[0] == id ==> id in Elems(q)
  {}

  lemma NothingAhead(q: seq<Id>, unused: set<Id>, records: seq<Id>, consumed: nat, hi: nat)
    requires consumed <= hi <= |records| && unused == set w | w in q && w !in records[consumed..hi]
    ensures consumed == hi ==> unused == Elems(q)
  {}

  lemma PlainInsert(q: seq<Id>, q': seq<Id>, id: Id, k: int, victim: Option<Id>, at: nat)
    requires Distinct(q) && k != 0 && (victim.Some? <==> k >= 0 && |Elems(q)| == k) && (k > 0 ==> |q| <= k)
    requires victim.Some? ==> at < |q| && q[at] == victim.value && q' == [id] + Lru.Remove(q, at)
                              && k <= 11 && OldestOf(q, Elems(q), victim.value)
    requires victim.None? ==> q' == [id] + q
    ensures q' == Lru.Insert(q, k, id)
  {
    DistinctSize(q);
    if victim.Some? {
      OldestIsLast(q, victim.value, at);
      assert Lru.Remove(q, at) == q[..|q| - 1];
    }
  }

  /** With the window covering the future, the victim's next use is the latest of all. */
  lemma MissedAsGood(
    k: int, ids: seq<Id>, b: set<Id>, rest: seq<Id>, readNum: nat, b': set<Id>, victim: Option<Id>,
    records: seq<Id>, consumed: nat, hi: nat)
    requires AsGood(k, ids, b, rest, readNum) && rest != [] && rest[0] !in b
    requires TEMPORARY_ID !in b && rest[0] != TEMPORARY_ID && consumed <= hi <= |records| <= hi + 1
    requires records[consumed..] == CollapseAfter(rest[0], rest[1..]) + [TEMPORARY_ID]
    requires victim.Some? <==> k >= 0 && |b| == k
    requires victim.Some? ==> victim.value in b && b' == b - {victim.value} + {rest[0]}
                              && forall w :: w in b ==> NoLater(w, victim.value, records[consumed..hi])
    requires victim.None? ==> b' == b + {rest[0]}
    ensures AsGood(k, ids, b', rest[1..], readNum + 1)
  {
    hide AsGood, NoLater, CollapseAfter;
    var v := if victim.Some? then victim.value else rest[0];
    if victim.Some? {
      forall w | w in b ensures NoLater(w, v, rest[1..]) {
        WindowIsFuture(records, consumed, hi, rest[0], rest[1..], w, v);
      }
    }
    AsGoodMiss(k, ids, b, rest, readNum, b', v);
  }

  /** When nothing cached is used again and all of it is looked at, the least recent container leaves. */
  lemma OldestIsLast(q: seq<Id>, victim: Id, at: nat)
    requires Distinct(q) && at < |q| <= 11 && q[at] == victim && OldestOf(q, Elems(q), victim)
    ensures at == |q| - 1
  {
    DistinctSize(q);
    assert victim in Elems(q);
    var younger: set<Id> :| YoungerThan(q, Elems(q) - {victim}, victim, younger);
    SameSize(younger, Elems(q) - {victim});
    var last := q[|q| - 1];
    assert at < |q| - 1 ==> last in younger;
    assert MoreRecent(q, last, victim) ==> at == |q| - 1;
  }

  lemma SameSize<T>(a: set<T>, b: set<T>)
    requires a <= b && |a| == |b|
    ensures a == b
  {
    assert b == a + (b - a);
    assert |b - a| == 0;
  }

  lemma SortKeepsDistinct(q: seq<Id>, r: seq<Id>)
    requires multiset(q) == multiset(r) && Distinct(q)
    ensures Distinct(r) && Elems(r) == Elems(q)
  {
    PermutationDistinct(q, r);
    assert forall x :: x in q <==> x in multiset(q);
    assert forall x :: x in r <==> x in multiset(r);
  }

  lemma PushDistinct(q: seq<Id>, id: Id)
    requires Distinct(q) && id !in Elems(q)
    ensures Distinct([id] + q) && Elems([id] + q) == Elems(q) + {id}
  {}

  lemma RemoveElem(q: seq<Id>, i: nat)
    requires i < |q| && Distinct(q)
    ensures Distinct(q[..i] + q[i + 1..]) && Elems(q[..i] + q[i + 1..]) == Elems(q) - {q[i]}
  {
    var r := q[..i] + q[i + 1..];
    forall x ensures x in r <==> x in q && x != q[i] {
      if x in q && x != q[i] {
        var j :| 0 <= j < |q| && q[j] == x;
        assert x == if j < i then r[j] else r[j - 1];
      }
    }
  }
}
