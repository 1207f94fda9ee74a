/**
 The logical-locality index over whole backups: the segments of a backup enter the key-value store under their packed
 ids (src/filter_phase.c:223-300), and a deletion reads them back from the recipe file (src/do_delete.c:54-67).
 */
module LogicalIndex {
  import opened Common
  import opened KvStore
  import Recipe
  import Prefetch

  /** A backup: the pointers of its segments, as its recipe file holds them, and the features of each segment. */
  datatype Backup = Backup(lists: seq<seq<Recipe.Pointer>>, features: seq<set<Fingerprint>>)

  function KeysOf(ps: seq<Recipe.Pointer>, key: Fingerprint -> Key): set<Key> {
    set p | p in ps :: key(p.fp)
  }

  function FeaturesOf(features: set<Fingerprint>, key: Fingerprint -> Key): set<Key> {
    set f | f in features :: key(f)
  }

  /** Features are sampled from the segment, and every id has its parts in their fields. */
  ghost predicate Fits(b: Backup) {
    |b.features| == |b.lists| && Prefetch.RealIds(b.lists)
    && (forall j :: 0 <= j < |b.lists| ==> |b.lists[j]| < Recipe.TWO_TO_16)
    && (forall j, f :: 0 <= j < |b.lists| && f in b.features[j] ==>
      exists i :: 0 <= i < |b.lists[j]| && b.lists[j][i].fp == f)
    && Recipe.RECORD_SIZE * |Recipe.Layout(b.lists)| < Recipe.TWO_TO_32
  }

  /** A segment in the store, under its packed id. */
  function SegmentOf(bvNum: nat, b: Backup, key: Fingerprint -> Key, j: nat): Segment
    requires j < |b.lists| == |b.features|
  {
    Segment(Recipe.IdOf(bvNum, b.lists, j), FeaturesOf(b.features[j], key), KeysOf(b.lists[j], key))
  }

  function SegmentsOf(bvNum: nat, b: Backup, key: Fingerprint -> Key): (r: seq<Segment>)
    requires |b.lists| == |b.features|
    ensures |r| == |b.lists|
  {
    seq(|b.lists|, j requires 0 <= j < |b.lists| => SegmentOf(bvNum, b, key, j))
  }

  /** The id of a segment decodes to its backup, and later segments of a backup have larger ids. */
  lemma BackupIds(bvNum: nat, b: Backup, j: nat)
    requires bvNum < Recipe.TWO_TO_15 && Fits(b) && j < |b.lists|
    ensures Recipe.IdToBnum(Recipe.IdOf(bvNum, b.lists, j)) == bvNum
    ensures forall i :: 0 <= i < j ==> Recipe.IdOf(bvNum, b.lists, i) < Recipe.IdOf(bvNum, b.lists, j)
  {
    hide Recipe.MakeSegmentId, Recipe.IdToBnum, Recipe.IdToOff, Recipe.IdToSize, Recipe.Layout;
    Prefetch.SegmentAt(b.lists, j);
    Recipe.SegmentIdDecodes(bvNum, Recipe.RECORD_SIZE * Prefetch.Begins(b.lists, j), |b.lists[j]|);
    forall i | 0 <= i < j ensures Recipe.IdOf(bvNum, b.lists, i) < Recipe.IdOf(bvNum, b.lists, j) {
      Prefetch.IdsGrow(bvNum, b.lists, i, j);
    }
  }

  /** An id of an older backup is smaller, and no id is TEMPORARY_ID. */
  lemma OlderIds(x: int, y: int)
    requires 0 <= Recipe.IdToBnum(x)
    ensures x >= 0
    ensures Recipe.IdToBnum(x) < Recipe.IdToBnum(y) ==> x < y
  {}

  predicate HasFeatures(backups: seq<Backup>) {
    forall i :: 0 <= i < |backups| ==> |backups[i].lists| == |backups[i].features|
  }

  /** The live segments, oldest first: those of the backups from one number up to another. */
  function Live(backups: seq<Backup>, key: Fingerprint -> Key, from: nat, to: nat): seq<Segment>
    requires to <= |backups| && HasFeatures(backups)
  {
    if from >= to then [] else Live(backups, key, from, to - 1) + SegmentsOf(to - 1, backups[to - 1], key)
  }

  ghost predicate AllFit(backups: seq<Backup>) {
    |backups| <= Recipe.TWO_TO_15 && forall i :: 0 <= i < |backups| ==> Fits(backups[i])
  }

  lemma Shaped(backups: seq<Backup>)
    requires AllFit(backups)
    ensures HasFeatures(backups)
  {}

  lemma {:induction false} LiveFirst(backups: seq<Backup>, key: Fingerprint -> Key, from: nat, to: nat)
    requires HasFeatures(backups) && from < to <= |backups|
    ensures |backups[from].lists| == |backups[from].features|
    ensures Live(backups, key, from, to) == SegmentsOf(from, backups[from], key) + Live(backups, key, from + 1, to)
  {
    var first := SegmentsOf(from, backups[from], key);
    LiveLast(backups, key, from, to);
    LiveNone(backups, key, from + 1, to);
    LiveNone(backups, key, from, to - 1);
    if from + 1 < to {
      hide SegmentsOf, HasFeatures, Live;
      LiveFirst(backups, key, from, to - 1);
      LiveLast(backups, key, from + 1, to);
      Regroup(first, Live(backups, key, from + 1, to - 1), SegmentsOf(to - 1, backups[to - 1], key));
    }
  }

  lemma Regroup<T>(a: seq<T>, b: seq<T>, c: seq<T>)
    ensures (a + b) + c == a + (b + c)
  {}

  lemma LiveLast(backups: seq<Backup>, key: Fingerprint -> Key, from: nat, to: nat)
    requires to <= |backups| && HasFeatures(backups) && from < to
    ensures |backups[to - 1].lists| == |backups[to - 1].features|
    ensures Live(backups, key, from, to)
         == Live(backups, key, from, to - 1) + SegmentsOf(to - 1, backups[to - 1], key)
  {
    hide SegmentsOf;
  }

  lemma LiveNone(backups: seq<Backup>, key: Fingerprint -> Key, from: nat, to: nat)
    requires to <= |backups| && HasFeatures(backups)
    ensures from >= to ==> Live(backups, key, from, to) == []
  {}

  /** The ids of the live segments decode to the live backups. */
  lemma {:induction false} LiveIds(backups: seq<Backup>, key: Fingerprint -> Key, from: nat, to: nat)
    requires AllFit(backups) && to <= |backups|
    ensures HasFeatures(backups)
    ensures forall i :: 0 <= i < |Live(backups, key, from, to)| ==>
              from <= Recipe.IdToBnum(Live(backups, key, from, to)[i].id) < to
  {
    Shaped(backups);
    hide Fits, Recipe.IdToBnum;
    if from < to {
      LiveIds(backups, key, from, to - 1);
      var last := SegmentsOf(to - 1, backups[to - 1], key);
      forall j | 0 <= j < |last| ensures Recipe.IdToBnum(last[j].id) == to - 1 {
        BackupIds(to - 1, backups[to - 1], j);
      }
    }
  }

  lemma FeaturesAreKeys(b: Backup, key: Fingerprint -> Key, j: nat)
    requires Fits(b) && j < |b.lists|
    ensures FeaturesOf(b.features[j], key) <= KeysOf(b.lists[j], key)
  {
    forall f | f in b.features[j] ensures key(f) in KeysOf(b.lists[j], key) {
      var i :| 0 <= i < |b.lists[j]| && b.lists[j][i].fp == f;
      assert b.lists[j][i] in b.lists[j];
    }
  }

  /** What the deletion reads back are the keys of the segment. */
  lemma TableKeys(ps: seq<Recipe.Pointer>, key: Fingerprint -> Key)
    ensures (set f | f in Prefetch.Table(ps) :: key(f)) == KeysOf(ps, key)
  {
    forall f | f in Prefetch.Table(ps) ensures key(f) in KeysOf(ps, key) {
      Prefetch.TableIs(ps, f);
      var i :| 0 <= i < |ps| && ps[i].fp == f;
      assert ps[i] in ps;
    }
    forall p | p in ps ensures p.fp in Prefetch.Table(ps) {
      Prefetch.TableIs(ps, p.fp);
    }
  }

  /** index_update for every segment of a backup, under the id its writing gave it. */
  method WriteBackup(t: HashTable, bvNum: nat, b: Backup, key: Fingerprint -> Key)
    requires t.Valid() && Fits(b) && bvNum < Recipe.TWO_TO_15
    requires forall i :: 0 <= i < |t.segs| ==> Recipe.IdToBnum(t.segs[i].id) < bvNum
    modifies t
    ensures t.Valid() && t.segs == old(t.segs) + SegmentsOf(bvNum, b, key)
  {
    assert |b.lists| == |b.features|;
    hide Fits, Recipe.IdToBnum, HashTable.Valid, Recipe.IdOf;
    ghost var all, before := SegmentsOf(bvNum, b, key), t.segs;
    for j := 0 to |b.lists|
      invariant t.Valid() && t.segs == before + all[..j]
    {
      BackupIds(bvNum, b, j);
      FeaturesAreKeys(b, key, j);
      var s := SegmentOf(bvNum, b, key, j);
      OlderIds(s.id, s.id);
      forall i | 0 <= i < |t.segs| ensures t.segs[i].id < s.id {
        if i < |before| {
          SmallerBackup(before[i].id, s.id, bvNum);
        } else {
          assert t.segs[i] == all[i - |before|];
        }
      }
      t.WriteSegment(s);
      assert all[..j + 1] == all[..j] + [s];
    }
    assert all[..|all|] == all;
  }

  lemma SmallerBackup(x: int, y: int, bvNum: nat)
    requires Recipe.IdToBnum(x) < bvNum == Recipe.IdToBnum(y)
    ensures x < y
  {}

  /** do_delete: the segments of the oldest backup, as its recipe file gives them. */
  method DeleteBackup(
    t: HashTable, bvNum: nat, ghost b: Backup, file: seq<Recipe.Pointer>, key: Fingerprint -> Key,
    ghost rest: seq<Segment>)
    requires t.Valid() && Fits(b) && file == Recipe.Layout(b.lists) && t.segs == SegmentsOf(bvNum, b, key) + rest
    modifies t
    ensures t.Valid() && t.segs == rest
  {
    ghost var all := SegmentsOf(bvNum, b, key);
    var segments := Prefetch.ReadAllSegments(bvNum, b.lists, file);
    assert all[0..] == all;
    hide Fits, HashTable.Valid, Recipe.IdOf, Recipe.Layout;
    for j := 0 to |segments|
      invariant t.Valid() && t.segs == all[j..] + rest
    {
      var sr := segments[j];
      TableKeys(b.lists[j], key);
      assert all[j..] == [all[j]] + all[j + 1..];
      assert t.segs[0] == all[j] && t.segs[1..] == all[j + 1..] + rest;
      t.DeleteOldest(sr.id, set f | f in sr.kvpairs :: key(f));
    }
    assert all[|all|..] + rest == rest;
  }

  datatype Job = BackupNext | DeleteOldest

  /** What the index must be after the backups up to next, those before oldest being deleted again: right for the
      live segments, with no id of a deleted backup. */
  ghost predicate IndexOf(t: HashTable, backups: seq<Backup>, key: Fingerprint -> Key, oldest: nat, next: nat)
    reads t
  {
    oldest <= next <= |backups| && AllFit(backups) && t.Valid() &&
    HasFeatures(backups) &&
    t.segs == Live(backups, key, oldest, next)
  }

  /** Every id the index has for a key decodes to a backup that has not been deleted. */
  lemma OnlyLiveIds(t: HashTable, backups: seq<Backup>, key: Fingerprint -> Key, oldest: nat, next: nat, k: Key)
    requires IndexOf(t, backups, key, oldest, next) && k in t.htable
    ensures forall id :: id in t.htable[k] && id != TEMPORARY_ID ==> oldest <= Recipe.IdToBnum(id) < next
  {
    hide AllFit, Recipe.IdToBnum;
    LiveIds(backups, key, oldest, next);
    assert t.EntryOk(k, Newest(t.segs, k));
    PadMembers(Newest(t.segs, k), t.valueLength);
    NewestMembers(t.segs, k);
  }

  lemma {:induction false} LivePosition(
    backups: seq<Backup>, key: Fingerprint -> Key, from: nat, to: nat, i: nat, j: nat) returns (k: nat)
    requires HasFeatures(backups) && from <= i < to <= |backups| && j < |backups[i].lists|
    ensures k < |Live(backups, key, from, to)|
    ensures Live(backups, key, from, to)[k] == SegmentOf(i, backups[i], key, j)
  {
    hide SegmentOf;
    var before := Live(backups, key, from, to - 1);
    if i == to - 1 {
      k := |before| + j;
    } else {
      k := LivePosition(backups, key, from, to - 1, i, j);
    }
  }

  /** Every feature of every live segment is in the index, with the id of the segment, unless newer segments take all
      the places of the entry. */
  lemma LiveIsIndexed(
    t: HashTable, backups: seq<Backup>, key: Fingerprint -> Key, oldest: nat, next: nat, i: nat, j: nat, f: Fingerprint)
    requires IndexOf(t, backups, key, oldest, next) && oldest <= i < next && j < |backups[i].lists|
    requires f in backups[i].features[j]
    ensures key(f) in t.htable && |t.htable[key(f)]| == t.valueLength
    ensures var id := Recipe.IdOf(i, backups[i].lists, j);
            id in t.htable[key(f)] || forall k :: 0 <= k < t.valueLength ==> t.htable[key(f)][k] > id
  {
    hide AllFit, Live, HasFeatures, Recipe.IdOf, Pad;
    Shaped(backups);
    var p := LivePosition(backups, key, oldest, next, i, j);
    assert t.segs[p].id == Recipe.IdOf(i, backups[i].lists, j) && key(f) in t.segs[p].features;
    NewestComplete(t.segs, key(f), p);
    NewestDecreasing(t.segs, key(f));
    assert t.EntryOk(key(f), Newest(t.segs, key(f)));
    PadHas(Newest(t.segs, key(f)), t.valueLength, t.segs[p].id);
  }

  /** A backup of the next data, if there is any, or a deletion of the oldest backup. */
  method RunJob(t: HashTable, backups: seq<Backup>, key: Fingerprint -> Key, job: Job, oldest: nat, next: nat)
    returns (oldest': nat, next': nat)
    requires IndexOf(t, backups, key, oldest, next)
    modifies t
    ensures IndexOf(t, backups, key, oldest', next')
  {
    hide Fits, Recipe.IdToBnum, Recipe.Layout, SegmentsOf, HashTable.Valid, Live, HasFeatures;
    oldest', next' := oldest, next;
    if job.BackupNext? && next < |backups| {
      LiveIds(backups, key, oldest, next);
      LiveLast(backups, key, oldest, next + 1);
      WriteBackup(t, next, backups[next], key);
      next' := next + 1;
    } else if job.DeleteOldest? && oldest < next {
      LiveFirst(backups, key, oldest, next);
      var file := Recipe.Layout(backups[oldest].lists);
      DeleteBackup(t, oldest, backups[oldest], file, key, Live(backups, key, oldest + 1, next));
      oldest' := oldest + 1;
    }
  }

  /** Any sequence of backups and FIFO deletions, on the index as it runs. */
  method RunJobs(valueLength: nat, backups: seq<Backup>, key: Fingerprint -> Key, jobs: seq<Job>)
    returns (t: HashTable, oldest: nat, next: nat)
    requires valueLength >= 1 && AllFit(backups)
    ensures fresh(t) && t.valueLength == valueLength && IndexOf(t, backups, key, oldest, next)
    ensures forall k, id :: k in t.htable && id in t.htable[k] && id != TEMPORARY_ID ==>
              oldest <= Recipe.IdToBnum(id) < next
  {
    Shaped(backups);
    t := new HashTable(valueLength);
    oldest, next := 0, 0;
    hide AllFit, Recipe.IdToBnum, HashTable.Valid;
    assert IndexOf(t, backups, key, 0, 0);
    for i := 0 to |jobs|
      invariant fresh(t) && t.valueLength == valueLength && IndexOf(t, backups, key, oldest, next)
    {
      oldest, next := RunJob(t, backups, key, jobs[i], oldest, next);
    }
    forall k, id | k in t.htable && id in t.htable[k] && id != TEMPORARY_ID
      ensures oldest <= Recipe.IdToBnum(id) < next
    {
      OnlyLiveIds(t, backups, key, oldest, next, k);
    }
  }
}
