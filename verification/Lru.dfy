/**
 The list cache of src/utils/lru_cache.c: most recent element first, bounded only when the
 capacity is positive.
 */
module Lru {
  import opened Common

  /** Position of the first element that is hit, or the length. */
  function Find<T>(q: seq<T>, hit: T -> bool): (i: nat)
    ensures i <= |q|
    ensures i < |q| ==> hit(q[i])
    ensures forall j :: 0 <= j < i ==> !hit(q[j])
  {
    if q == [] || hit(q[0]) then 0 else 1 + Find(q[1..], hit)
  }

  /** Position of the last element that is hit, or the length. */
  function FindLast<T>(q: seq<T>, hit: T -> bool): (i: nat)
    ensures i <= |q|
    ensures i < |q| ==> hit(q[i])
    ensures forall j :: 0 <= j < |q| && (i == |q| || i < j) ==> !hit(q[j])
  {
    if q == [] then 0
    else if hit(q[|q| - 1]) then |q| - 1
    else
      var i := FindLast(q[..|q| - 1], hit);
      if i == |q| - 1 then |q| else i
  }

  function MoveToFront<T>(q: seq<T>, i: nat): seq<T>
    requires i < |q|
  {
    [q[i]] + q[..i] + q[i + 1..]
  }

  function Remove<T>(q: seq<T>, i: nat): seq<T>
    requires i < |q|
  {
    q[..i] + q[i + 1..]
  }

  function Insert<T>(q: seq<T>, maxSize: int, x: T): seq<T> {
    [x] + (if maxSize > 0 && |q| == maxSize then q[..|q| - 1] else q)
  }

  function Touch<T>(q: seq<T>, hit: T -> bool): seq<T> {
    var i := Find(q, hit);
    if i < |q| then MoveToFront(q, i) else q
  }

  class LruCache<T> {
    var elemQueue: seq<T>
    const maxSize: int
    var size: int
    var hitCount: nat
    var missCount: nat

    ghost predicate Valid()
      reads this
    {
      size == |elemQueue|
    }

    constructor (maxSize: int)
      ensures Valid() && elemQueue == [] && this.maxSize == maxSize && hitCount == missCount == 0
    {
      elemQueue := [];
      this.maxSize := maxSize;
      size, hitCount, missCount := 0, 0, 0;
    }

    /** lru_cache_hits: find an element and move it to the front. */
    method Hits(hit: T -> bool) returns (r: Option<T>)
      requires Valid()
      modifies this`elemQueue
      ensures Valid() && elemQueue == Touch(old(elemQueue), hit)
      ensures var i := Find(old(elemQueue), hit);
              r == if i < |old(elemQueue)| then Some(old(elemQueue)[i]) else None
    {
      var i := 0;
      while i < |elemQueue| && !hit(elemQueue[i])
        invariant i <= |elemQueue| && elemQueue == old(elemQueue)
        invariant forall j :: 0 <= j < i ==> !hit(elemQueue[j])
      {
        i := i + 1;
      }
      if i < |elemQueue| {
        r := Some(elemQueue[i]);
        elemQueue := [elemQueue[i]] + elemQueue[..i] + elemQueue[i + 1..];
      } else {
        r := None;
      }
    }

    /** lru_cache_lookup: the same, and count it. */
    method Lookup(hit: T -> bool) returns (r: Option<T>)
      requires Valid()
      modifies this
      ensures Valid() && elemQueue == Touch(old(elemQueue), hit)
      ensures var i := Find(old(elemQueue), hit);
              r == if i < |old(elemQueue)| then Some(old(elemQueue)[i]) else None
      ensures hitCount == old(hitCount) + (if r.Some? then 1 else 0)
      ensures missCount == old(missCount) + (if r.Some? then 0 else 1)
    {
      r := Hits(hit);
      if r.Some? {
        hitCount := hitCount + 1;
      } else {
        missCount := missCount + 1;
      }
    }

    /** lru_cache_insert: the last element makes room when a bounded cache is full. */
    method InsertElem(x: T) returns (victim: Option<T>)
      requires Valid()
      modifies this`elemQueue, this`size
      ensures Valid() && elemQueue == Insert(old(elemQueue), maxSize, x)
      ensures victim == if maxSize > 0 && |old(elemQueue)| == maxSize
                        then Some(old(elemQueue)[|old(elemQueue)| - 1]) else None
    {
      victim := None;
      if maxSize > 0 && size == maxSize {
        victim := Some(elemQueue[|elemQueue| - 1]);
        elemQueue := elemQueue[..|elemQueue| - 1];
        size := size - 1;
      }
      elemQueue := [x] + elemQueue;
      size := size + 1;
    }

    /** lru_cache_kicks: drop the least recent element that satisfies the test. */
    method Kicks(hit: T -> bool) returns (victim: Option<T>)
      requires Valid()
      modifies this`elemQueue, this`size
      ensures Valid()
      ensures var i := FindLast(old(elemQueue), hit);
              if i < |old(elemQueue)|
              then victim == Some(old(elemQueue)[i]) && elemQueue == Remove(old(elemQueue), i)
              else victim == None && elemQueue == old(elemQueue)
    {
      var i := |elemQueue| - 1;
      while i >= 0 && !hit(elemQueue[i])
        invariant -1 <= i < |elemQueue| && elemQueue == old(elemQueue)
        invariant forall j :: i < j < |elemQueue| ==> !hit(elemQueue[j])
      {
        i := i - 1;
      }
      if i >= 0 {
        victim := Some(elemQueue[i]);
        elemQueue := elemQueue[..i] + elemQueue[i + 1..];
        size := size - 1;
      } else {
        victim := None;
      }
    }

    method IsFull() returns (full: bool)
      requires Valid()
      ensures full <==> maxSize >= 0 && |elemQueue| >= maxSize
    {
      if maxSize < 0 {
        return false;
      }
      full := size >= maxSize;
    }
  }
}
