/**
 The key-value store of the logical-locality index (src/index/kvstore_htable.c): for every feature
 the newest segments that have it, newest first.
 */
module KvStore {
  import opened Common

  type Key = nat
  type SegmentId = int

  /** A segment written and not yet deleted: its features, and the keys of all its chunks. */
  datatype Segment = Segment(id: SegmentId, features: set<Key>, members: set<Key>)

  /** Live segments, oldest first, as FIFO deletion needs them. */
  ghost predicate SegmentsOk(segs: seq<Segment>) {
    (forall i :: 0 <= i < |segs| ==> segs[i].id > TEMPORARY_ID && segs[i].features <= segs[i].members)
    && (forall i, j :: 0 <= i < j < |segs| ==> segs[i].id < segs[j].id)
  }

  /** The ids of the segments with this feature, newest first. */
  ghost function Newest(segs: seq<Segment>, key: Key): seq<SegmentId> {
    if segs == [] then []
    else Newest(segs[1..], key) + if key in segs[0].features then [segs[0].id] else []
  }

  function Pad(s: seq<SegmentId>, n: nat): (r: seq<SegmentId>)
    ensures |r| == n
  {
    if |s| >= n then s[..n] else s + seq(n - |s|, _ => TEMPORARY_ID)
  }

  lemma {:induction false} NewestMembers(segs: seq<Segment>, key: Key)
    requires SegmentsOk(segs)
    ensures forall x :: x in Newest(segs, key) ==>
              exists i :: 0 <= i < |segs| && segs[i].id == x && key in segs[i].features
  {
    if segs != [] {
      NewestMembers(segs[1..], key);
      forall x | x in Newest(segs, key)
        ensures exists i :: 0 <= i < |segs| && segs[i].id == x && key in segs[i].features
      {
        if x in Newest(segs[1..], key) {
          var i :| 0 <= i < |segs[1..]| && segs[1..][i].id == x && key in segs[1..][i].features;
          assert segs[i + 1].id == x;
        } else {
          assert segs[0].id == x;
        }
      }
    }
  }

  /** No segment with the feature is missing. */
  lemma {:induction false} NewestComplete(segs: seq<Segment>, key: Key, i: nat)
    requires i < |segs| && key in segs[i].features
    ensures segs[i].id in Newest(segs, key)
    decreases |segs|
  {
    if i > 0 {
      NewestComplete(segs[1..], key, i - 1);
    }
  }

  ghost predicate Decreasing(s: seq<SegmentId>) {
    forall i, j :: 0 <= i < j < |s| ==> s[i] > s[j]
  }

  /** Entries are strictly decreasing. */
  lemma {:induction false} NewestDecreasing(segs: seq<Segment>, key: Key)
    requires SegmentsOk(segs)
    ensures Decreasing(Newest(segs, key))
    ensures forall x :: x in Newest(segs, key) ==> x > TEMPORARY_ID
  {
    if segs != [] {
      var l, t := Newest(segs, key), Newest(segs[1..], key);
      NewestDecreasing(segs[1..], key);
      NewestMembers(segs[1..], key);
      forall x | x in t ensures x > segs[0].id {
        var i :| 0 <= i < |segs[1..]| && segs[1..][i].id == x && key in segs[1..][i].features;
        assert segs[i + 1].id == x;
      }
      forall i, j | 0 <= i < j < |l| ensures l[i] > l[j] {
        assert l[i] == t[i] && t[i] in t;
      }
    }
  }

  lemma {:induction false} NewestDrop(segs: seq<Segment>, key: Key)
    requires SegmentsOk(segs) && segs != []
    ensures Newest(segs, key) == Newest(segs[1..], key) + if key in segs[0].features then [segs[0].id] else []
    ensures Decreasing(Newest(segs[1..], key))
    ensures segs[0].id !in Newest(segs[1..], key) && TEMPORARY_ID !in Newest(segs[1..], key)
  {
    NewestDecreasing(segs[1..], key);
    NewestMembers(segs[1..], key);
  }

  lemma {:induction false} NewestAppend(segs: seq<Segment>, s: Segment, key: Key)
    ensures Newest(segs + [s], key) == (if key in s.features then [s.id] else []) + Newest(segs, key)
  {
    if segs == [] {
      assert segs + [s] == [s];
      assert Newest([s][1..], key) == [];
    } else {
      assert (segs + [s])[1..] == segs[1..] + [s];
      NewestAppend(segs[1..], s, key);
    }
  }

  lemma PadPush(s: seq<SegmentId>, id: SegmentId, n: nat)
    requires n >= 1
    ensures [id] + Pad(s, n)[..n - 1] == Pad([id] + s, n)
  {}

  /** An id of the list is in the padded entry, unless that is full of larger ones. */
  lemma PadHas(s: seq<SegmentId>, n: nat, id: SegmentId)
    requires Decreasing(s) && id in s
    ensures id in Pad(s, n) || forall k :: 0 <= k < n ==> Pad(s, n)[k] > id
  {
    var i :| 0 <= i < |s| && s[i] == id;
    if i < n {
      assert Pad(s, n)[i] == id;
    } else {
      forall k | 0 <= k < n ensures Pad(s, n)[k] > id {
        assert Pad(s, n)[k] == s[k];
      }
    }
  }

  class HashTable {
    const valueLength: nat
    var htable: map<Key, seq<SegmentId>>
    ghost var segs: seq<Segment>

    /** The entry of a key, if it has one, is the padded list of its newest live segments. */
    ghost predicate EntryOk(key: Key, newest: seq<SegmentId>)
      reads this
    {
      if key in htable then newest != [] && htable[key] == Pad(newest, valueLength) else newest == []
    }

    ghost predicate Valid()
      reads this
    {
      valueLength >= 1 && SegmentsOk(segs)
      && forall key :: EntryOk(key, Newest(segs, key))
    }

    constructor (valueLength: nat)
      requires valueLength >= 1
      ensures Valid() && segs == [] && this.valueLength == valueLength
    {
      this.valueLength := valueLength;
      htable, segs := map[], [];
    }

    /** kvstore_htable_lookup. */
    method Lookup(key: Key) returns (r: Option<seq<SegmentId>>)
      requires Valid()
      ensures r.Some? <==> Newest(segs, key) != []
      ensures r.Some? ==> r.value == Pad(Newest(segs, key), valueLength)
    {
      assert EntryOk(key, Newest(segs, key));
      r := if key in htable then Some(htable[key]) else None;
    }

    /** kvstore_htable_update: an entry for the ids s becomes one for id and s; the oldest may fall out. */
    method Update(key: Key, id: SegmentId, ghost s: seq<SegmentId>)
      requires valueLength >= 1
      requires if key in htable then htable[key] == Pad(s, valueLength) else s == []
      modifies this`htable
      ensures htable == old(htable)[key := Pad([id] + s, valueLength)]
    {
      var value := if key in htable then htable[key] else seq(valueLength, _ => TEMPORARY_ID);
      assert key !in htable ==> value == Pad([], valueLength);
      PadPush(s, id, valueLength);
      value := [id] + value[..valueLength - 1];
      htable := htable[key := value];
    }

    /** index_update for a segment just written: every feature gets the newest id. */
    method WriteSegment(s: Segment)
      requires Valid() && s.features <= s.members && s.id > TEMPORARY_ID
      requires forall i :: 0 <= i < |segs| ==> segs[i].id < s.id
      modifies this
      ensures Valid() && segs == old(segs) + [s]
    {
      var todo := s.features;
      forall key { NewestAppend(segs, s, key); }
      hide Newest, SegmentsOk, Pad;
      while |todo| != 0
        invariant todo <= s.features && segs == old(segs)
        invariant forall key ::
          EntryOk(key, if key in s.features - todo then [s.id] + Newest(segs, key) else Newest(segs, key))
        decreases todo
      {
        var key :| key in todo;
        assert EntryOk(key, Newest(segs, key));
        ghost var before := htable;
        Update(key, s.id, Newest(segs, key));
        forall k | k != key ensures k in htable <==> k in before {}
        todo := todo - {key};
      }
      forall key ensures EntryOk(key, Newest(segs + [s], key)) {
        assert EntryOk(key, if key in s.features - todo then [s.id] + Newest(segs, key) else Newest(segs, key));
        assert [] + Newest(segs, key) == Newest(segs, key);
      }
      segs := segs + [s];
      assert SegmentsOk(segs) by { MoreSegments(old(segs), s); }
    }

    /**
     kvstore_htable_delete, of an id that is the oldest of its entry if it is there at all; for
     any other id the assert of the source fails, see DeleteAssert.
     */
    method Delete(key: Key, id: SegmentId, ghost rest: seq<SegmentId>)
      requires valueLength >= 1 && id != TEMPORARY_ID && Decreasing(rest) && id !in rest && TEMPORARY_ID !in rest
      requires EntryOk(key, rest) || EntryOk(key, rest + [id])
      modifies this`htable
      ensures htable == old(htable)[key := Pad(rest, valueLength)]
              || htable == old(htable) - {key} || htable == old(htable)
      ensures EntryOk(key, rest)
    {
      if key !in htable {
        return;
      }
      var value := htable[key];
      var i := 0;
      while i < valueLength && value[i] != id
        invariant 0 <= i <= valueLength && value == htable[key] && htable == old(htable)
        invariant forall j :: 0 <= j < i ==> value[j] != id
      {
        i := i + 1;
      }
      if i < valueLength {
        FoundLast(value, rest, id, i, valueLength);
        value := value[i := TEMPORARY_ID];
        assert i == valueLength - 1 || value[i + 1] == TEMPORARY_ID;   // so nothing has to move up
      } else {
        NotFound(value, rest, id, valueLength);
      }
      htable := htable[key := value];
      if value[0] == TEMPORARY_ID {
        htable := htable - {key};
      }
    }

    /** do_delete for one segment, the oldest live one: no key keeps its id. */
    method DeleteOldest(id: SegmentId, members: set<Key>)
      requires Valid() && segs != [] && id == segs[0].id && members == segs[0].members
      modifies this
      ensures Valid() && segs == old(segs)[1..]
      ensures forall key :: key in htable ==> old(segs)[0].id !in htable[key]
    {
      DropSegment(segs);
      ghost var s := segs[0];
      ghost var rest := segs[1..];
      forall key { NewestDrop(segs, key); }
      hide Newest, Decreasing, Pad, SegmentsOk;
      DeleteMembers(id, members, segs, rest);
      segs := rest;
      forall key | key in htable ensures id !in htable[key] {
        assert EntryOk(key, Newest(rest, key));
        PadMembers(Newest(rest, key), valueLength);
      }
    }

    /** segment_recipe_foreach with delete_an_entry. */
    method DeleteMembers(id: SegmentId, members: set<Key>, ghost all: seq<Segment>, ghost rest: seq<Segment>)
      requires valueLength >= 1 && id != TEMPORARY_ID
      requires forall key :: EntryOk(key, Newest(all, key))
      requires forall key ::
        Decreasing(Newest(rest, key)) && id !in Newest(rest, key) && TEMPORARY_ID !in Newest(rest, key)
      requires forall key ::
        Newest(all, key) == Newest(rest, key) || (key in members && Newest(all, key) == Newest(rest, key) + [id])
      modifies this`htable
      ensures forall key :: EntryOk(key, Newest(rest, key))
    {
      hide Newest, Decreasing, Pad;
      var todo := members;
      while |todo| != 0
        invariant todo <= members
        invariant forall key :: key in todo ==> EntryOk(key, Newest(all, key))
        invariant forall key :: key !in todo ==> EntryOk(key, Newest(rest, key))
        decreases todo
      {
        var key :| key in todo;
        ghost var before := htable;
        Delete(key, id, Newest(rest, key));
        forall k | k != key ensures k in htable <==> k in before {}
        todo := todo - {key};
      }
    }
  }

  lemma MoreSegments(segs: seq<Segment>, s: Segment)
    requires SegmentsOk(segs) && s.features <= s.members && s.id > TEMPORARY_ID
    requires forall i :: 0 <= i < |segs| ==> segs[i].id < s.id
    ensures SegmentsOk(segs + [s])
  {}

  lemma DropSegment(segs: seq<Segment>)
    requires SegmentsOk(segs) && segs != []
    ensures SegmentsOk(segs[1..]) && segs[0].id != TEMPORARY_ID
  {}

  lemma PadMembers(s: seq<SegmentId>, n: nat)
    ensures forall x :: x in Pad(s, n) ==> x in s || x == TEMPORARY_ID
  {}

  lemma FoundLast(value: seq<SegmentId>, rest: seq<SegmentId>, id: SegmentId, i: nat, n: nat)
    requires i < n == |value| && value[i] == id != TEMPORARY_ID && id !in rest
    requires value == Pad(rest, n) || value == Pad(rest + [id], n)
    ensures i == |rest| < n && value == Pad(rest + [id], n)
    ensures value[i := TEMPORARY_ID] == Pad(rest, n)
  {}

  /** The assert in kvstore_htable_delete holds exactly for the last id an entry keeps. */
  lemma DeleteAssert(s: seq<SegmentId>, n: nat, i: nat)
    requires TEMPORARY_ID !in s && i < |s| && i < n
    ensures var value := Pad(s, n);
            (i == n - 1 || value[i + 1] == TEMPORARY_ID) <==> (i == n - 1 || i == |s| - 1)
  {
    if i < n - 1 && i < |s| - 1 {
      assert Pad(s, n)[i + 1] == s[i + 1];
    }
  }

  lemma NotFound(value: seq<SegmentId>, rest: seq<SegmentId>, id: SegmentId, n: nat)
    requires |value| == n && id !in value
    requires value == Pad(rest, n) || value == Pad(rest + [id], n)
    ensures value == Pad(rest, n)
  {
    assert |rest| < n ==> Pad(rest + [id], n)[|rest|] == id;
  }
}
