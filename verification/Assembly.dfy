/**
 Forward assembly (src/assembly_restore.c): a window of the recipe is filled container by
 container and issued from the front.
 */
module Assembly {
  import opened Common

  type Bytes = seq<bv8>

  /** An item of the restore stream: a file mark, or a chunk that may be filled. */
  datatype Item =
    | Mark(name: Option<string>)
    | Data(fp: Fingerprint, size: nat, id: ContainerId, ready: bool, bytes: Bytes)

  /** Stored containers: the bytes add_chunk_to_container put there. */
  type Stored = map<ContainerId, map<Fingerprint, Bytes>>

  ghost predicate Restorable(store: Stored, x: Item) {
    x.Data? ==> x.id in store && x.fp in store[x.id] && |store[x.id][x.fp]| == x.size
  }

  /** What an item must look like when it is issued. */
  ghost function Filled(store: Stored, x: Item): Item {
    if x.Data? && Restorable(store, x) then x.(ready := true, bytes := store[x.id][x.fp]) else x
  }

  ghost function FilledAll(store: Stored, s: seq<Item>): (r: seq<Item>)
    ensures |r| == |s|
    ensures forall i :: 0 <= i < |s| ==> r[i] == Filled(store, s[i])
  {
    seq(|s|, i requires 0 <= i < |s| => Filled(store, s[i]))
  }

  lemma FilledHead(store: Stored, s: seq<Item>)
    requires s != []
    ensures FilledAll(store, s) == [Filled(store, s[0])] + FilledAll(store, s[1..])
  {}

  function SizeOf(x: Item): nat {
    if x.Mark? then 0 else x.size
  }

  function TotalSize(s: seq<Item>): nat {
    if s == [] then 0 else SizeOf(s[0]) + TotalSize(s[1..])
  }

  lemma {:induction false} TotalAppend(s: seq<Item>, t: seq<Item>)
    ensures TotalSize(s + t) == TotalSize(s) + TotalSize(t)
  {
    if s == [] {
      assert s + t == t;
    } else {
      assert (s + t)[1..] == s[1..] + t;
      TotalAppend(s[1..], t);
    }
  }

  lemma {:induction false} TotalSame(s: seq<Item>, t: seq<Item>)
    requires |s| == |t| && forall i :: 0 <= i < |s| ==> SizeOf(s[i]) == SizeOf(t[i])
    ensures TotalSize(s) == TotalSize(t)
  {
    if s != [] {
      TotalSame(s[1..], t[1..]);
    }
  }

  /** The containers the chunks of a stream are in. */
  ghost function IdsOf(s: seq<Item>): set<ContainerId> {
    set x | x in s && x.Data? :: x.id
  }

  /** The containers that are still to be read for the chunks in an area. */
  ghost function Pending(s: seq<Item>): set<ContainerId> {
    set x | x in s && x.Data? && !x.ready :: x.id
  }

  function ChunkCount(s: seq<Item>): nat {
    if s == [] then 0 else ChunkCount(s[..|s| - 1]) + if s[|s| - 1].Data? then 1 else 0
  }

  /** What is issued from the front has not been waiting. */
  lemma PendingBehind(s: seq<Item>)
    requires s != [] && (s[0].Data? ==> s[0].ready)
    ensures Pending(s[1..]) == Pending(s)
  {
    forall x | x in s && x != s[0] ensures x in s[1..] {
      var i :| 0 <= i < |s| && s[i] == x;
      assert s[1..][i - 1] == x;
    }
  }

  lemma NothingPending()
    ensures Pending([]) == {} && IdsOf([]) == {}
  {}

  lemma FrontPending(s: seq<Item>)
    requires s != [] && s[0].Data? && !s[0].ready
    ensures s[0].id in Pending(s)
  {}

  lemma PendingMore(s: seq<Item>, x: Item)
    requires x.Data? ==> !x.ready
    ensures Pending(s + [x]) == Pending(s) + if x.Data? then {x.id} else {}
    ensures IdsOf(s + [x]) == IdsOf(s) + if x.Data? then {x.id} else {}
    ensures ChunkCount(s + [x]) == ChunkCount(s) + if x.Data? then 1 else 0
  {
    var t := s + [x];
    assert t[..|s|] == s && t[|s|] == x;
    forall y ensures y in t <==> y in s || y == x {
      if y in s {
        var i :| 0 <= i < |s| && s[i] == y;
        assert t[i] == y;
      }
    }
  }

  /** Filling from one container leaves the others to be read. */
  lemma PendingFilled(s: seq<Item>, t: seq<Item>, id: ContainerId)
    requires |s| == |t|
    requires forall i :: 0 <= i < |s| ==>
      if s[i].Data? && s[i].id == id then t[i].Data? && t[i].ready else t[i] == s[i]
    ensures Pending(t) == Pending(s) - {id}
  {
    forall y ensures y in Pending(t) <==> y in Pending(s) - {id} {
      if y in Pending(t) {
        var i :| 0 <= i < |t| && t[i].Data? && !t[i].ready && t[i].id == y;
        assert t[i] == s[i] && s[i] in s;
      }
      if y in Pending(s) - {id} {
        var i :| 0 <= i < |s| && s[i].Data? && !s[i].ready && s[i].id == y;
        assert t[i] == s[i] && t[i] in t;
      }
    }
  }

  /** What the number of reads has to do with the containers of the chunks so far: each has been read or is pending,
      and no chunk has cost more than one read. */
  ghost predicate Counted(pushed: seq<Item>, area: seq<Item>, readNum: nat) {
    Pending(area) <= IdsOf(pushed) && |IdsOf(pushed)| <= readNum + |Pending(area)| <= ChunkCount(pushed)
  }

  lemma PushCounts(pushed: seq<Item>, area: seq<Item>, readNum: nat, x: Item)
    requires Counted(pushed, area, readNum) && (x.Data? ==> !x.ready)
    ensures Counted(pushed + [x], area + [x], readNum)
  {
    hide ChunkCount, Pending, IdsOf;
    PendingMore(pushed, x);
    PendingMore(area, x);
    var p, q := Pending(area), IdsOf(pushed);
    if x.Data? {
      if x.id in p {
        assert p + {x.id} == p && q + {x.id} == q;
      } else {
        assert |p + {x.id}| == |p| + 1;
        assert x.id in q ==> q + {x.id} == q;
        assert |q + {x.id}| <= |q| + 1;
      }
    } else {
      assert p + {} == p && q + {} == q;
    }
  }

  class AssemblyArea {
    const store: Stored
    const areaSize: int
    var area: seq<Item>
    var size: int
    var readNum: nat
    ghost var pushed: seq<Item>
    ghost var issued: seq<Item>

    /** An item in the area: restorable, and if filled, filled rightly. */
    ghost predicate ItemOk(x: Item) {
      Restorable(store, x) && (x.Data? && x.ready ==> x == Filled(store, x))
    }

    /** The front is never READY, and behind a mark at the front nothing is. */
    ghost predicate FrontWaits(s: seq<Item>)
      requires s != []
    {
      if s[0].Data? then !s[0].ready else forall x :: x in s && x.Data? ==> !x.ready
    }

    ghost predicate Valid()
      reads this
    {
      (forall x :: x in area ==> ItemOk(x))
      && (forall x :: x in pushed ==> Restorable(store, x))
      && (area != [] ==> FrontWaits(area))
      && size == TotalSize(area)
      && issued + FilledAll(store, area) == FilledAll(store, pushed)
    }

    /** init_assembly_area, for a restore cache of the given number of containers. */
    constructor (store: Stored, cacheSize: int)
      ensures Valid() && pushed == [] && issued == [] && area == []
      ensures this.store == store && areaSize == (cacheSize - 1) * CONTAINER_SIZE && readNum == 0
    {
      this.store := store;
      areaSize := (cacheSize - 1) * CONTAINER_SIZE;
      area, size, readNum, pushed, issued := [], 0, 0, [], [];
    }

    /** assembly_area_push: append an item; report whether the area is full. */
    method Push(x: Item) returns (full: bool)
      requires Valid() && Restorable(store, x) && (x.Data? ==> !x.ready)
      modifies this`area, this`size, this`pushed
      ensures Valid() && pushed == old(pushed) + [x] && area == old(area) + [x]
      ensures full <==> x.Data? && TotalSize(area) >= areaSize
    {
      TotalAppend(area, [x]);
      assert FilledAll(store, area + [x]) == FilledAll(store, area) + FilledAll(store, [x]);
      assert FilledAll(store, pushed + [x]) == FilledAll(store, pushed) + FilledAll(store, [x]);
      area := area + [x];
      pushed := pushed + [x];
      if x.Mark? {
        return false;
      }
      size := size + x.size;
      full := size >= areaSize;
    }

    /** Take the front item. */
    method Issue() returns (x: Item)
      requires area != [] && size == TotalSize(area) && (forall y :: y in area ==> ItemOk(y))
      requires (forall y :: y in pushed ==> Restorable(store, y))
      requires issued + FilledAll(store, area) == FilledAll(store, pushed)
      requires area[0].Data? ==> area[0].ready
      modifies this`area, this`size, this`issued
      ensures x == Filled(store, old(area)[0]) && area == old(area)[1..] && issued == old(issued) + [x]
      ensures size == TotalSize(area)
      ensures issued + FilledAll(store, area) == FilledAll(store, pushed)
    {
      hide Restorable, FilledAll;
      x := area[0];
      assert ItemOk(x);
      FilledHead(store, area);
      area := area[1..];
      issued := issued + [x];
      if x.Data? {
        size := size - x.size;
      }
    }

    /** Fill every chunk of the area that is in the container. */
    method Fill(id: ContainerId)
      requires id in store
      requires forall x :: x in area ==> ItemOk(x)
      modifies this`area
      ensures |area| == |old(area)| && forall x :: x in area ==> ItemOk(x)
      ensures forall i :: 0 <= i < |area| ==> Filled(store, old(area)[i]) == Filled(store, area[i])
      ensures forall i :: 0 <= i < |area| ==> SizeOf(area[i]) == SizeOf(old(area)[i])
      ensures forall i :: 0 <= i < |area| ==>
                if old(area)[i].Data? && old(area)[i].id == id then area[i].Data? && area[i].ready
                else area[i] == old(area)[i]
    {
      var con := store[id];   // retrieve_container_by_id
      for i := 0 to |area|
        invariant |area| == |old(area)|
        invariant forall k :: 0 <= k < |area| ==> ItemOk(area[k])
        invariant forall k :: 0 <= k < |area| ==> Filled(store, old(area)[k]) == Filled(store, area[k])
        invariant forall k :: 0 <= k < |area| ==> SizeOf(area[k]) == SizeOf(old(area)[k])
        invariant forall k :: 0 <= k < i ==>
                    if old(area)[k].Data? && old(area)[k].id == id then area[k].Data? && area[k].ready
                    else area[k] == old(area)[k]
        invariant forall k :: i <= k < |area| ==> area[k] == old(area)[k]
      {
        var c := area[i];
        if c.Data? && c.id == id {
          assert ItemOk(c);
          assert c.fp in con;                   // assert(me)
          var buf := con[c.fp];
          assert c.size == |buf|;               // assert(c->size == buf->size)
          area := area[i := c.(bytes := buf, ready := true)];
        }
      }
    }

    /** Read the container of the chunk at the front, and fill the area from it. */
    method FillFront()
      requires Valid() && area != [] && area[0].Data?
      modifies this`area, this`readNum
      ensures |area| == |old(area)| && area[0].Data? && area[0].ready && readNum == old(readNum) + 1
      ensures (forall x :: x in area ==> ItemOk(x)) && size == TotalSize(area)
      ensures issued + FilledAll(store, area) == FilledAll(store, pushed)
      ensures Pending(area) == Pending(old(area)) - {old(area)[0].id}
    {
      readNum := readNum + 1;
      ghost var before := area;
      assert ItemOk(area[0]);
      Fill(area[0].id);
      PendingFilled(before, area, before[0].id);
      TotalSame(before, area);
      assert FilledAll(store, area) == FilledAll(store, before);
    }

    /**
     assemble_area: issue the marks at the front, fill the area from the container of the first
     chunk, issue everything that is ready.  A non-empty area always loses an item, and a read leaves
     one container less to be read.
     */
    method Assemble() returns (q: seq<Item>)
      requires Valid()
      modifies this`area, this`size, this`issued, this`readNum
      ensures pushed == old(pushed)
      ensures Valid() && issued == old(issued) + q
      ensures old(area) != [] ==> |area| < |old(area)|
      ensures old(area) == [] ==> q == []
      ensures readNum == old(readNum) + if Pending(old(area)) == {} then 0 else 1
      ensures Pending(area) <= Pending(old(area)) && readNum + |Pending(area)| == old(readNum) + |Pending(old(area))|
    {
      hide Pending, FilledAll, TotalSize, Filled;
      NothingPending();
      q := [];
      if area == [] {
        return;
      }
      while area != [] && area[0].Mark?
        invariant Valid() && issued == old(issued) + q && readNum == old(readNum)
        invariant |area| <= |old(area)| && (q == [] ==> area == old(area)) && (q != [] ==> |area| < |old(area)|)
        invariant Pending(area) == Pending(old(area))
        decreases |area|
      {
        PendingBehind(area);
        var x := IssueMark();
        q := q + [x];
      }
      if area == [] {
        return;
      }
      FrontPending(area);
      FillFront();
      ghost var before := area;
      while area != [] && (area[0].Mark? || area[0].ready)
        invariant forall x :: x in area ==> ItemOk(x)
        invariant size == TotalSize(area) && issued == old(issued) + q && readNum == old(readNum) + 1
        invariant issued + FilledAll(store, area) == FilledAll(store, pushed)
        invariant |area| <= |before| && (|area| == |before| ==> area != [] && area[0].Data? && area[0].ready)
        invariant Pending(area) == Pending(before)
        decreases |area|
      {
        PendingBehind(area);
        var x := Issue();
        q := q + [x];
      }
    }

    /** Issue a mark at the front of an area in which nothing at the front is ready. */
    method IssueMark() returns (x: Item)
      requires Valid() && area != [] && area[0].Mark?
      modifies this`area, this`size, this`issued
      ensures area == old(area)[1..] && issued == old(issued) + [x] && size == TotalSize(area)
      ensures Valid()
    {
      ghost var before := area;
      x := Issue();
      assert area != [] ==> FrontWaits(area) by {
        assert forall y :: y in area ==> y in before;
      }
    }
  }

  /**
   assembly_restore_thread: push every item of the recipe, assemble whenever the area is full,
   then drain it.  Everything comes out, in order, each chunk with its stored bytes.  Every container is read at
   least once, no chunk costs more than a read, and with an area that never fills each container is read once.
   */
  method Restore(store: Stored, items: seq<Item>, cacheSize: int) returns (out: seq<Item>, readNum: nat)
    requires forall x :: x in items ==> Restorable(store, x) && (x.Data? ==> !x.ready)
    ensures out == FilledAll(store, items)
    ensures |IdsOf(items)| <= readNum <= ChunkCount(items)
    ensures TotalSize(items) < (cacheSize - 1) * CONTAINER_SIZE ==> readNum == |IdsOf(items)|
  {
    hide Pending, IdsOf, ChunkCount, Counted, FilledAll, TotalSize;
    var area := new AssemblyArea(store, cacheSize);
    ghost var large := TotalSize(items) < area.areaSize;
    out := [];
    StartCounted();
    for i := 0 to |items|
      invariant area.Valid() && fresh(area) && area.store == store && area.areaSize == (cacheSize - 1) * CONTAINER_SIZE
      invariant area.pushed == items[..i] && area.issued == out
      invariant Counted(area.pushed, area.area, area.readNum)
      invariant large ==> area.readNum == 0 && area.area == area.pushed
    {
      assert items[i] in items && items[..i + 1] == items[..i] + [items[i]];
      PushCounts(area.pushed, area.area, area.readNum, items[i]);
      var full := area.Push(items[i]);
      TotalPrefix(items, i + 1);
      if full {
        AssembleCounts(area.pushed, area.area, area.readNum);
        var q := area.Assemble();
        out := out + q;
      }
    }
    assert items[..|items|] == items;
    if large { AllPending(items); }
    while area.area != []
      invariant area.Valid() && fresh(area) && area.store == store
      invariant area.pushed == items && area.issued == out
      invariant Counted(items, area.area, area.readNum)
      invariant large ==> area.readNum + |Pending(area.area)| == |IdsOf(items)|
      decreases |area.area|
    {
      AssembleCounts(items, area.area, area.readNum);
      var q := area.Assemble();
      out := out + q;
    }
    NothingPending();
    NothingFilled(store);
    DrainedCounts(items, area.readNum);
    readNum := area.readNum;
  }

  lemma StartCounted()
    ensures Counted([], [], 0)
  {}

  lemma NothingFilled(store: Stored)
    ensures FilledAll(store, []) == []
  {}

  lemma TotalPrefix(s: seq<Item>, n: nat)
    requires n <= |s|
    ensures TotalSize(s[..n]) <= TotalSize(s)
  {
    TotalAppend(s[..n], s[n..]);
    assert s == s[..n] + s[n..];
  }

  /** An assembly keeps the count. */
  lemma AssembleCounts(pushed: seq<Item>, area: seq<Item>, readNum: nat)
    requires Counted(pushed, area, readNum)
    ensures forall rest, n: nat ::
              Pending(rest) <= Pending(area) && n + |Pending(rest)| == readNum + |Pending(area)| ==>
                Counted(pushed, rest, n)
  {}

  lemma DrainedCounts(pushed: seq<Item>, readNum: nat)
    requires Counted(pushed, [], readNum)
    ensures |IdsOf(pushed)| <= readNum <= ChunkCount(pushed)
  {
    hide ChunkCount;
  }

  lemma AllPending(s: seq<Item>)
    requires forall x :: x in s && x.Data? ==> !x.ready
    ensures Pending(s) == IdsOf(s)
  {}
}
