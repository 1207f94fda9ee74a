/**
 The rewrite buffer (src/rewrite_phase.c) and capping (src/cap_rewrite.c): per-container
 accounting of the buffered duplicates, and the choice of the containers worth referring to.
 */
module Capping {
  import opened Common
  import opened DedupSpec

  /** What the rewrite stage buffers: chunks, and the marks between them. */
  datatype Entry = Mark | Normal(c: Chunk)

  datatype Record = Record(cid: ContainerId, size: int, outOfOrder: bool)

  ghost predicate EntryOk(e: Entry) {
    e.Normal? ==> e.c.size >= 1 && (e.c.id != TEMPORARY_ID ==> e.c.duplicate)
  }

  /** Bytes of an entry that refer to a container of t. */
  function BytesIn(e: Entry, t: set<ContainerId>): nat {
    if e.Normal? && e.c.id != TEMPORARY_ID && e.c.id in t then e.c.size else 0
  }

  /** Bytes of the buffered duplicates that refer to a container of t. */
  function Referring(q: seq<Entry>, t: set<ContainerId>): nat {
    if q == [] then 0 else BytesIn(q[0], t) + Referring(q[1..], t)
  }

  /** Bytes of the buffered duplicates that refer to one container. */
  function Sum(q: seq<Entry>, id: ContainerId): nat {
    Referring(q, {id})
  }

  function Normals(q: seq<Entry>): nat {
    if q == [] then 0 else (if q[0].Normal? then 1 else 0) + Normals(q[1..])
  }

  function Bytes(q: seq<Entry>): nat {
    if q == [] then 0 else (if q[0].Normal? then q[0].c.size else 0) + Bytes(q[1..])
  }

  lemma {:induction false} SumsAppend(q: seq<Entry>, e: Entry, t: set<ContainerId>)
    ensures Referring(q + [e], t) == Referring(q, t) + BytesIn(e, t)
    ensures Normals(q + [e]) == Normals(q) + if e.Normal? then 1 else 0
    ensures Bytes(q + [e]) == Bytes(q) + if e.Normal? then e.c.size else 0
  {
    if q == [] {
      assert q + [e] == [e];
    } else {
      SumsAppend(q[1..], e, t);
      assert (q + [e])[1..] == q[1..] + [e];
    }
  }

  // ----- records -------------------------------------------------------------------------

  /** Records in ascending id order. */
  ghost predicate Ascending(r: seq<Record>) {
    forall i, j :: 0 <= i < j < |r| ==> r[i].cid < r[j].cid
  }

  /** One record per container referred to, holding the sum of the buffered bytes. */
  ghost predicate Accounts(r: seq<Record>, q: seq<Entry>) {
    (forall i :: 0 <= i < |r| ==> r[i].size == Sum(q, r[i].cid) && r[i].size > 0)
    && (forall id :: Sum(q, id) > 0 ==> HasRecord(r, id))
  }

  ghost predicate HasRecord(r: seq<Record>, id: ContainerId) {
    exists i :: 0 <= i < |r| && r[i].cid == id
  }

  class RewriteBuffer {
    const limit: int
    var chunkQueue: seq<Entry>
    var records: seq<Record>
    var num: int
    var size: int

    ghost predicate Valid()
      reads this
    {
      (forall e :: e in chunkQueue ==> EntryOk(e))
      && num == Normals(chunkQueue) && size == Bytes(chunkQueue)
      && Ascending(records) && Accounts(records, chunkQueue)
    }

    constructor (limit: int)
      ensures Valid() && chunkQueue == [] && this.limit == limit
    {
      this.limit := limit;
      chunkQueue, records, num, size := [], [], 0, 0;
    }

    /** g_sequence_lookup by id: the position of the record, or of where it belongs. */
    method FindRecord(id: ContainerId) returns (i: nat)
      requires Ascending(records)
      ensures i <= |records|
      ensures forall j :: 0 <= j < i ==> records[j].cid < id
      ensures forall j :: i <= j < |records| ==> records[j].cid >= id
    {
      i := 0;
      while i < |records| && records[i].cid < id
        invariant i <= |records|
        invariant forall j :: 0 <= j < i ==> records[j].cid < id
      {
        i := i + 1;
      }
    }

    /** rewrite_buffer_push: append, account, report whether the buffer is full. */
    method Push(e: Entry) returns (full: bool)
      requires Valid() && EntryOk(e)
      modifies this
      ensures Valid() && chunkQueue == old(chunkQueue) + [e]
      ensures full <==> e.Normal? && Normals(chunkQueue) >= limit
    {
      ghost var q := chunkQueue;
      ghost var r := records;
      forall t { SumsAppend(q, e, t); }
      chunkQueue := chunkQueue + [e];
      if e.Mark? {
        SameAccounts(q, chunkQueue, r);
        return false;
      }
      if e.c.id != TEMPORARY_ID {
        Account(e.c, q);
      } else {
        SameAccounts(q, chunkQueue, r);
      }
      num := num + 1;
      size := size + e.c.size;
      full := num >= limit;
    }

    /** Add the bytes of a duplicate to the record of its container. */
    method Account(c: Chunk, ghost q: seq<Entry>)
      requires Ascending(records) && Accounts(records, q) && c.id != TEMPORARY_ID && c.size >= 1
      requires OnlyChanged(q, chunkQueue, c.id) && Sum(chunkQueue, c.id) == Sum(q, c.id) + c.size
      modifies this`records
      ensures Ascending(records) && Accounts(records, chunkQueue)
    {
      hide Sum, OnlyChanged, HasRecord;
      var i := FindRecord(c.id);
      ghost var r := records;
      if i < |records| && records[i].cid == c.id {
        assert r[i].size == Sum(q, c.id);
        hide Accounts, Ascending;
        records := records[i := records[i].(size := records[i].size + c.size)];
        UpdatedRecord(q, chunkQueue, r, i, records);
      } else {
        NoRecord(r, q, i, c.id);
        hide Accounts, Ascending;
        records := records[..i] + [Record(c.id, c.size, true)] + records[i..];
        InsertedRecord(q, chunkQueue, r, i, records);
      }
    }

    /** rewrite_buffer_pop: take the front, account. */
    method Pop() returns (e: Entry)
      requires Valid() && chunkQueue != []
      modifies this
      ensures Valid() && e == old(chunkQueue)[0] && chunkQueue == old(chunkQueue)[1..]
    {
      ghost var q := chunkQueue;
      ghost var r := records;
      e := chunkQueue[0];
      chunkQueue := chunkQueue[1..];
      assert EntryOk(e);
      if e.Normal? {
        if e.c.duplicate && e.c.id != TEMPORARY_ID {
          assert Sum(q, e.c.id) > 0;
          var i := FindRecord(e.c.id);
          assert i < |records| && records[i].cid == e.c.id;   // assert(iter)
          records := records[i := records[i].(size := records[i].size - e.c.size)];
          if records[i].size == 0 {
            records := records[..i] + records[i + 1..];
            DeletedRecord(q, chunkQueue, r, i, records);
          } else {
            UpdatedRecord(q, chunkQueue, r, i, records);
          }
        } else {
          SameAccounts(q, chunkQueue, r);
        }
        num := num - 1;
        size := size - e.c.size;
      } else {
        SameAccounts(q, chunkQueue, r);
      }
    }
  }

  lemma NoRecord(r: seq<Record>, q: seq<Entry>, i: nat, id: ContainerId)
    requires Accounts(r, q) && Ascending(r) && i <= |r|
    requires forall j :: 0 <= j < i ==> r[j].cid < id
    requires forall j :: i <= j < |r| ==> r[j].cid >= id
    requires i < |r| ==> r[i].cid != id
    ensures Sum(q, id) == 0
    ensures forall j :: i <= j < |r| ==> r[j].cid > id
  {
    assert !HasRecord(r, id);
  }

  lemma SameAccounts(q: seq<Entry>, q': seq<Entry>, r: seq<Record>)
    requires Accounts(r, q) && forall id :: Sum(q, id) == Sum(q', id)
    ensures Accounts(r, q')
  {}

  /** Nothing changed but the bytes that refer to this container. */
  ghost predicate OnlyChanged(q: seq<Entry>, q': seq<Entry>, id: ContainerId) {
    forall x :: x != id ==> Sum(q, x) == Sum(q', x)
  }

  lemma UpdatedRecord(q: seq<Entry>, q': seq<Entry>, r: seq<Record>, i: nat, r': seq<Record>)
    requires Accounts(r, q) && Ascending(r) && i < |r| && OnlyChanged(q, q', r[i].cid)
    requires r' == r[i := r[i].(size := Sum(q', r[i].cid))] && r'[i].size > 0
    ensures Accounts(r', q') && Ascending(r')
  {
    forall id | Sum(q', id) > 0 ensures HasRecord(r', id) {
      if id == r[i].cid {
        assert r'[i].cid == id;
      } else {
        assert HasRecord(r, id);
        var j :| 0 <= j < |r| && r[j].cid == id;
        assert r'[j].cid == id;
      }
    }
  }

  /** r' is r with one more record, at position i. */
  ghost predicate Inserted(r: seq<Record>, i: nat, r': seq<Record>) {
    i <= |r| && |r'| == |r| + 1
    && (forall j :: 0 <= j < i ==> r'[j] == r[j])
    && (forall j :: i <= j < |r| ==> r'[j + 1] == r[j])
  }

  lemma InsertedRecord(q: seq<Entry>, q': seq<Entry>, r: seq<Record>, i: nat, r': seq<Record>)
    requires Accounts(r, q) && Ascending(r) && Inserted(r, i, r') && OnlyChanged(q, q', r'[i].cid)
    requires forall j :: 0 <= j < i ==> r[j].cid < r'[i].cid
    requires forall j :: i <= j < |r| ==> r[j].cid > r'[i].cid
    requires r'[i].size > 0 && Sum(q', r'[i].cid) == Sum(q, r'[i].cid) + r'[i].size
    ensures Accounts(r', q') && Ascending(r')
  {
    hide Sum, Ascending;
    assert !HasRecord(r, r'[i].cid);
    forall id | Sum(q', id) > 0 ensures HasRecord(r', id) {
      if id == r'[i].cid {
      } else {
        assert HasRecord(r, id);
        var j :| 0 <= j < |r| && r[j].cid == id;
        assert r'[if j < i then j else j + 1].cid == id;
      }
    }
    forall j | 0 <= j < |r'| ensures r'[j].size == Sum(q', r'[j].cid) && r'[j].size > 0 {
      if j < i {
        assert r'[j] == r[j];
      } else if j > i {
        assert r'[j] == r[j - 1];
      }
    }
    InsertedAscending(r, i, r');
  }

  lemma InsertedAscending(r: seq<Record>, i: nat, r': seq<Record>)
    requires Ascending(r) && Inserted(r, i, r')
    requires forall j :: 0 <= j < i ==> r[j].cid < r'[i].cid
    requires forall j :: i <= j < |r| ==> r[j].cid > r'[i].cid
    ensures Ascending(r')
  {
    forall j, k | 0 <= j < k < |r'| ensures r'[j].cid < r'[k].cid {
      assert j < i ==> r'[j] == r[j];
      assert j > i ==> r'[j] == r[j - 1];
      assert k < i ==> r'[k] == r[k];
      assert k > i ==> r'[k] == r[k - 1];
    }
  }

  lemma DeletedRecord(q: seq<Entry>, q': seq<Entry>, r: seq<Record>, i: nat, r': seq<Record>)
    requires Accounts(r, q) && Ascending(r) && i < |r| && OnlyChanged(q, q', r[i].cid)
    requires Sum(q', r[i].cid) == 0
    requires r' == r[..i] + r[i + 1..]
    ensures Accounts(r', q') && Ascending(r')
  {
    hide Sum, Ascending;
    forall id | Sum(q', id) > 0 ensures HasRecord(r', id) {
      assert HasRecord(r, id);
      var j :| 0 <= j < |r| && r[j].cid == id;
      assert r'[if j < i then j else j - 1].cid == id;
    }
    forall j | 0 <= j < |r'| ensures r'[j].size == Sum(q', r'[j].cid) && r'[j].size > 0 {
      assert r'[j] == if j < i then r[j] else r[j + 1];
      OthersKeep(r, i, j);
    }
    DeletedAscending(r, i, r');
  }

  lemma OthersKeep(r: seq<Record>, i: nat, j: nat)
    requires Ascending(r) && i < |r| && j < |r| - 1
    ensures r[if j < i then j else j + 1].cid != r[i].cid
  {}

  lemma DeletedAscending(r: seq<Record>, i: nat, r': seq<Record>)
    requires Ascending(r) && i < |r| && r' == r[..i] + r[i + 1..]
    ensures Ascending(r')
  {
    forall j, k | 0 <= j < k < |r'| ensures r'[j].cid < r'[k].cid {
      assert r'[j] == r[if j < i then j else j + 1] && r'[k] == r[if k < i then k else k + 1];
    }
  }

  // ----- capping -------------------------------------------------------------------------

  ghost predicate DescendingBySize(r: seq<Record>) {
    forall i, j :: 0 <= i < j < |r| ==> r[i].size >= r[j].size
  }

  ghost predicate DistinctIds(r: seq<Record>) {
    forall i, j :: 0 <= i < j < |r| ==> r[i].cid != r[j].cid
  }

  /** Recorded bytes of the containers in t. */
  ghost function Weight(r: seq<Record>, t: set<ContainerId>): int {
    if r == [] then 0 else (if r[0].cid in t then r[0].size else 0) + Weight(r[1..], t)
  }

  function IdSet(r: seq<Record>): set<ContainerId> {
    set x | x in r :: x.cid
  }

  lemma {:induction false} WeightWithout(r: seq<Record>, t: set<ContainerId>, x: ContainerId, m: int)
    requires DistinctIds(r) && m >= 0 && forall i :: 0 <= i < |r| ==> 0 <= r[i].size <= m
    ensures Weight(r, t) <= Weight(r, t - {x}) + m
    ensures x !in IdSet(r) ==> Weight(r, t) == Weight(r, t - {x})
    ensures Weight(r, t) >= 0
  {
    if r != [] {
      WeightWithout(r[1..], t, x, m);
      if r[0].cid == x {
        assert x !in IdSet(r[1..]);
      }
      assert r[0] in r;
      assert forall y :: y in r[1..] ==> y in r;
    }
  }

  /** The heaviest k weigh the first record and the heaviest k - 1 of the others. */
  lemma TopWeight(r: seq<Record>, k: nat)
    requires DistinctIds(r) && (forall i :: 0 <= i < |r| ==> r[i].size >= 0) && r != [] && k > 0
    requires DescendingBySize(r)
    ensures var rest := r[1..];
            Weight(r, IdSet(r[..Min(k, |r|)])) == r[0].size + Weight(rest, IdSet(rest[..Min(k - 1, |rest|)]))
  {
    var top, rest, x := r[..Min(k, |r|)], r[1..], r[0].cid;
    var next := rest[..Min(k - 1, |rest|)];
    assert top == [r[0]] + next;
    assert IdSet(top) == {x} + IdSet(next);
    assert x !in IdSet(rest);
    assert IdSet(top) - {x} == IdSet(next) - {x};
    WeightWithout(rest, IdSet(top), x, r[0].size);
    WeightWithout(rest, IdSet(next), x, r[0].size);
  }

  /** Taking a container out of t, the first one if it is there, costs at most the size of the first record. */
  lemma TakeOne(r: seq<Record>, t: set<ContainerId>, x: ContainerId)
    requires DistinctIds(r) && (forall i :: 0 <= i < |r| ==> r[i].size >= 0) && r != []
    requires DescendingBySize(r) && x in t && (r[0].cid in t ==> x == r[0].cid)
    ensures Weight(r, t) <= r[0].size + Weight(r[1..], t - {x})
  {
    WeightWithout(r[1..], t, x, r[0].size);
    assert r[0].cid !in IdSet(r[1..]);
  }

  /** The first k of a list sorted by size weigh at least as much as any k containers. */
  lemma {:induction false} TopIsHeaviest(r: seq<Record>, k: nat, t: set<ContainerId>)
    requires DescendingBySize(r) && DistinctIds(r) && forall i :: 0 <= i < |r| ==> r[i].size >= 0
    requires |t| <= k
    ensures Weight(r, t) <= Weight(r, IdSet(r[..Min(k, |r|)]))
    decreases r
  {
    hide Weight, IdSet;
    if |t| == 0 {
      WeightEmpty(r);
      WeightPositive(r, IdSet(r[..Min(k, |r|)]));
    } else if r == [] {
      NoWeight(r, t);
      NoWeight(r, IdSet(r[..Min(k, |r|)]));
    } else {
      var x := r[0].cid;
      if x !in t { x := SomeElement(t); }
      TopWeight(r, k);
      TakeOne(r, t, x);
      TopIsHeaviest(r[1..], k - 1, t - {x});
    }
  }

  lemma NoWeight(r: seq<Record>, t: set<ContainerId>)
    requires r == []
    ensures Weight(r, t) == 0
  {}

  lemma {:induction false} WeightPositive(r: seq<Record>, t: set<ContainerId>)
    requires forall i :: 0 <= i < |r| ==> r[i].size >= 0
    ensures Weight(r, t) >= 0
  {
    if r != [] { WeightPositive(r[1..], t); }
  }

  lemma {:induction false} WeightEmpty(r: seq<Record>)
    ensures Weight(r, {}) == 0
  {
    if r != [] { WeightEmpty(r[1..]); }
  }

  /** The buffered bytes in t are the recorded bytes of t. */
  lemma {:induction false} RecordedBytes(r: seq<Record>, q: seq<Entry>, t: set<ContainerId>)
    requires DistinctIds(r)
    requires forall e :: e in q ==> EntryOk(e)
    requires forall id :: Sum(q, id) > 0 ==> HasRecord(r, id)
    ensures Referring(q, t) == WeightIn(r, q, t)
  {
    if q == [] {
      WeightInEmpty(r, t);
    } else {
      forall id | Sum(q[1..], id) > 0 ensures HasRecord(r, id) {
        assert Sum(q, id) > 0;
      }
      RecordedBytes(r, q[1..], t);
      assert EntryOk(q[0]);
      if q[0].Normal? && q[0].c.id != TEMPORARY_ID {
        assert Sum(q, q[0].c.id) > 0;
      }
      WeightInStep(r, q, t);
    }
  }

  /** Weight with every record's size replaced by the bytes of q that refer to it. */
  ghost function WeightIn(r: seq<Record>, q: seq<Entry>, t: set<ContainerId>): int {
    if r == [] then 0
    else (if r[0].cid in t then Sum(q, r[0].cid) else 0) + WeightIn(r[1..], q, t)
  }

  lemma {:induction false} WeightInEmpty(r: seq<Record>, t: set<ContainerId>)
    ensures WeightIn(r, [], t) == 0
  {
    if r != [] { WeightInEmpty(r[1..], t); }
  }

  /** The front entry adds its bytes to exactly one record. */
  lemma {:induction false} WeightInStep(r: seq<Record>, q: seq<Entry>, t: set<ContainerId>)
    requires DistinctIds(r) && q != [] && EntryOk(q[0])
    ensures q[0].Normal? && q[0].c.id != TEMPORARY_ID && HasRecord(r, q[0].c.id) ==>
              WeightIn(r, q, t) == WeightIn(r, q[1..], t) + BytesIn(q[0], t)
    ensures !(q[0].Normal? && q[0].c.id != TEMPORARY_ID && HasRecord(r, q[0].c.id)) ==>
              WeightIn(r, q, t) == WeightIn(r, q[1..], t)
  {
    if r != [] {
      WeightInStep(r[1..], q, t);
      if q[0].Normal? && HasRecord(r, q[0].c.id) && r[0].cid != q[0].c.id {
        var i :| 0 <= i < |r| && r[i].cid == q[0].c.id;
        assert r[1..][i - 1].cid == q[0].c.id;
      }
      if q[0].Normal? && HasRecord(r[1..], q[0].c.id) {
        var i :| 0 <= i < |r[1..]| && r[1..][i].cid == q[0].c.id;
        assert r[i + 1].cid == q[0].c.id;
      }
    }
  }

  lemma {:induction false} WeightInAccounts(r: seq<Record>, q: seq<Entry>, t: set<ContainerId>)
    requires forall i :: 0 <= i < |r| ==> r[i].size == Sum(q, r[i].cid)
    ensures WeightIn(r, q, t) == Weight(r, t)
  {
    if r != [] { WeightInAccounts(r[1..], q, t); }
  }

  /** cap_segment_get_top: the containers of the largest records, at most level of them. */
  method GetTop(records: seq<Record>, level: nat, ghost q: seq<Entry>) returns (top: set<ContainerId>)
    requires Ascending(records) && Accounts(records, q) && forall e :: e in q ==> EntryOk(e)
    ensures |top| <= level && TEMPORARY_ID !in top
    ensures forall t: set<ContainerId> :: |t| <= level ==> Referring(q, t) <= Referring(q, top)
  {
    hide Weight, Sum, Referring, Accounts, Ascending, DistinctIds, EntryOk;
    var sorted := SortByLength(records);
    var n := Min(level, |sorted|);
    top := {};
    for i := 0 to n
      invariant top == IdSet(sorted[..i]) && |top| <= i
    {
      assert sorted[..i + 1] == sorted[..i] + [sorted[i]];
      assert IdSet(sorted[..i + 1]) == IdSet(sorted[..i]) + {sorted[i].cid};
      top := top + {sorted[i].cid};
    }
    SortedAccounts(records, sorted, q);
    forall t: set<ContainerId> | |t| <= level ensures Referring(q, t) <= Referring(q, top) {
      TopRefersMost(sorted, level, q, t);
    }
    TopIsReal(sorted, n, q);
  }

  /** No set of that many containers is referred to by more buffered bytes than the first of the sorted list. */
  lemma TopRefersMost(r: seq<Record>, level: nat, q: seq<Entry>, t: set<ContainerId>)
    requires DescendingBySize(r) && DistinctIds(r) && |t| <= level && forall e :: e in q ==> EntryOk(e)
    requires forall i :: 0 <= i < |r| ==> r[i].size == Sum(q, r[i].cid) && r[i].size > 0
    requires forall id :: Sum(q, id) > 0 ==> HasRecord(r, id)
    ensures Referring(q, t) <= Referring(q, IdSet(r[..Min(level, |r|)]))
  {
    hide Weight, Sum, Referring, IdSet;
    var top := IdSet(r[..Min(level, |r|)]);
    TopIsHeaviest(r, level, t);
    RecordedBytes(r, q, t);
    RecordedBytes(r, q, top);
    WeightInAccounts(r, q, t);
    WeightInAccounts(r, q, top);
  }

  lemma TopIsReal(r: seq<Record>, n: nat, q: seq<Entry>)
    requires n <= |r| && forall i :: 0 <= i < |r| ==> r[i].size == Sum(q, r[i].cid) && r[i].size > 0
    ensures TEMPORARY_ID !in IdSet(r[..n])
  {
    RealIds(q);
  }

  lemma {:induction false} RealIds(q: seq<Entry>)
    ensures Sum(q, TEMPORARY_ID) == 0
  {
    if q != [] { RealIds(q[1..]); }
  }

  /** g_sequence_sort in descending order of size; ties are the library's choice. */
  method SortByLength(records: seq<Record>) returns (r: seq<Record>)
    ensures multiset(r) == multiset(records) && DescendingBySize(r)
  {
    r := [];
    for i := 0 to |records|
      invariant multiset(r) == multiset(records[..i]) && DescendingBySize(r)
    {
      assert records[..i + 1] == records[..i] + [records[i]];
      r := InsertByLength(r, records[i]);
    }
    assert records[..|records|] == records;
  }

  method InsertByLength(r: seq<Record>, x: Record) returns (r': seq<Record>)
    requires DescendingBySize(r)
    ensures DescendingBySize(r') && multiset(r') == multiset(r) + multiset{x}
  {
    var k := 0;
    while k < |r| && r[k].size >= x.size
      invariant k <= |r| && forall j :: 0 <= j < k ==> r[j].size >= x.size
    {
      k := k + 1;
    }
    assert r == r[..k] + r[k..];
    r' := r[..k] + [x] + r[k..];
  }

  lemma SortedAccounts(records: seq<Record>, r: seq<Record>, q: seq<Entry>)
    requires Ascending(records) && Accounts(records, q) && multiset(r) == multiset(records)
    ensures DistinctIds(r)
    ensures forall i :: 0 <= i < |r| ==> r[i].size == Sum(q, r[i].cid) && r[i].size > 0
    ensures forall id :: Sum(q, id) > 0 ==> HasRecord(r, id)
  {
    forall i | 0 <= i < |r| ensures r[i] in records {
      assert r[i] in multiset(records);
    }
    forall id | Sum(q, id) > 0 ensures HasRecord(r, id) {
      assert HasRecord(records, id);
      var i :| 0 <= i < |records| && records[i].cid == id;
      assert records[i] in multiset(r);
      var j :| 0 <= j < |r| && r[j] == records[i];
    }
    PermutationDistinct(records, r);
    forall i, j | 0 <= i < j < |r| ensures r[i].cid != r[j].cid {
      assert r[i] != r[j] && r[i] in records && r[j] in records;
    }
  }

  // ----- one round -----------------------------------------------------------------------

  /** A duplicate that keeps referring to its old container. */
  ghost predicate Keeps(e: Entry) {
    e.Normal? && e.c.id != TEMPORARY_ID && !e.c.outOfOrder
  }

  /** Bytes a round marks to be rewritten. */
  function MarkedBytes(q: seq<Entry>): nat {
    if q == [] then 0
    else
      (if q[0].Normal? && q[0].c.id != TEMPORARY_ID && q[0].c.outOfOrder then q[0].c.size else 0)
      + MarkedBytes(q[1..])
  }

  /** The same entries with other marks. */
  ghost predicate Remarked(q: seq<Entry>, out: seq<Entry>) {
    |q| == |out|
    && forall i :: 0 <= i < |q| ==>
      out[i] == q[i] || (q[i].Normal? && out[i] == Normal(q[i].c.(outOfOrder := true)))
  }

  ghost predicate MarkedOutside(q: seq<Entry>, out: seq<Entry>, t: set<ContainerId>) {
    Remarked(q, out)
    && forall i :: 0 <= i < |out| && out[i].Normal? && out[i].c.id != TEMPORARY_ID ==>
      (out[i].c.outOfOrder <==> out[i].c.id !in t)
  }

  lemma {:induction false} MarkedIsRest(q: seq<Entry>, out: seq<Entry>, t: set<ContainerId>)
    requires MarkedOutside(q, out, t)
    ensures MarkedBytes(out) + Referring(q, t) == AllBytes(q)
  {
    if q != [] { MarkedIsRest(q[1..], out[1..], t); }
  }

  /** Bytes of all buffered chunks with a real id. */
  function AllBytes(q: seq<Entry>): nat {
    if q == [] then 0
    else (if q[0].Normal? && q[0].c.id != TEMPORARY_ID then q[0].c.size else 0) + AllBytes(q[1..])
  }

  /** Whatever a marking leaves unmarked refers to the containers it keeps. */
  lemma {:induction false} KeptRefers(q: seq<Entry>, out: seq<Entry>, t: set<ContainerId>)
    requires Remarked(q, out)
    requires forall i :: 0 <= i < |out| && Keeps(out[i]) ==> out[i].c.id in t
    ensures MarkedBytes(out) + Referring(q, t) >= AllBytes(q)
  {
    if q != [] {
      forall i | 0 <= i < |out[1..]| && Keeps(out[1..][i]) ensures out[1..][i].c.id in t {
        assert Keeps(out[i + 1]);
      }
      KeptRefers(q[1..], out[1..], t);
    }
  }

  /**
   One round of cap_rewrite on a buffer whose chunks carry no marks yet: the unmarked duplicates
   refer to at most level containers, and no other marking with that property marks fewer bytes.  The copies of
   unwritten chunks are marked; the last round, after the end of the stream, does not ask for a duplicate.
   */
  method CapRound(b: RewriteBuffer, level: nat, last: bool) returns (out: seq<Entry>, ghost top: set<ContainerId>)
    requires b.Valid() && forall e :: e in b.chunkQueue && e.Normal? ==> !e.c.outOfOrder
    modifies b
    ensures b.Valid() && b.chunkQueue == []
    ensures Remarked(old(b.chunkQueue), out) && MarkedOutside(old(b.chunkQueue), out, top)
    ensures |top| <= level && forall e :: e in out && Keeps(e) ==> e.c.id in top
    ensures forall e :: e in out && e.Normal? && e.c.id == TEMPORARY_ID ==> (e.c.outOfOrder <==> last || e.c.duplicate)
    ensures forall other: seq<Entry>, t: set<ContainerId> ::
              Remarked(old(b.chunkQueue), other) && |t| <= level
              && (forall i :: 0 <= i < |other| && Keeps(other[i]) ==> other[i].c.id in t)
              ==> MarkedBytes(out) <= MarkedBytes(other)
  {
    ghost var q := b.chunkQueue;
    var chosen := GetTop(b.records, level, q);
    top := chosen;
    out := [];
    while b.chunkQueue != []
      invariant b.Valid() && |out| <= |q| && b.chunkQueue == q[|out|..]
      invariant MarkedOutside(q[..|out|], out, top)
      invariant forall e :: e in out && e.Normal? && e.c.id == TEMPORARY_ID ==>
                  (e.c.outOfOrder <==> last || e.c.duplicate)
      decreases |b.chunkQueue|
    {
      assert q[|out|..][0] == q[|out|] && q[|out|] in q && q[|out|..][1..] == q[|out| + 1..];
      var e := b.Pop();
      assert EntryOk(e);
      if e.Normal? && (last || e.c.duplicate) && e.c.id !in chosen {
        e := Normal(e.c.(outOfOrder := true));
      }
      out := out + [e];
    }
    assert q[..|out|] == q;
    MarkedIsRest(q, out, top);
    forall other: seq<Entry>, t: set<ContainerId> |
      Remarked(q, other) && |t| <= level
      && (forall i :: 0 <= i < |other| && Keeps(other[i]) ==> other[i].c.id in t)
      ensures MarkedBytes(out) <= MarkedBytes(other)
    {
      KeptRefers(q, other, t);
    }
  }
}
