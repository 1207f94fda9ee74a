/**
 Reading segments back for deduplication and deletion: prefetch_segments and read_next_segment of
 src/recipe/recipestore.c, on the file that module Recipe writes.
 */
module Prefetch {
  import opened Common
  import opened Recipe

  datatype SegmentRecipe = SegmentRecipe(id: int, kvpairs: map<Fingerprint, Pointer>)

  /** The table of a segment; g_hash_table_replace keeps the last pointer of a fingerprint. */
  function Table(ps: seq<Pointer>): map<Fingerprint, Pointer> {
    if ps == [] then map[] else Table(ps[..|ps| - 1])[ps[|ps| - 1].fp := ps[|ps| - 1]]
  }

  /** The table finds exactly the fingerprints of the segment, each with its last pointer. */
  lemma {:induction false} TableIs(ps: seq<Pointer>, fp: Fingerprint)
    ensures fp in Table(ps) <==> exists i :: 0 <= i < |ps| && ps[i].fp == fp
    ensures fp in Table(ps) ==>
              exists i :: 0 <= i < |ps| && ps[i] == Table(ps)[fp] && ps[i].fp == fp &&
                          forall k :: i < k < |ps| ==> ps[k].fp != fp
  {
    if ps != [] {
      var n := |ps| - 1;
      TableIs(ps[..n], fp);
      if ps[n].fp != fp && fp in Table(ps) {
        var i :| 0 <= i < n && ps[..n][i] == Table(ps)[fp] && ps[..n][i].fp == fp &&
                 forall k :: i < k < n ==> ps[..n][k].fp != fp;
        assert ps[i] == Table(ps)[fp];
        forall k | i < k < |ps| ensures ps[k].fp != fp {
          if k < n { assert ps[..n][k].fp != fp; }
        }
      }
    }
  }

  /** Where segment j of a file begins, in records. */
  function Begins(lists: seq<seq<Pointer>>, j: nat): nat
    requires j <= |lists|
  {
    |Layout(lists[..j])|
  }

  /** Segment j of a file, flags and all, sits at its offset; behind the last one the file ends. */
  lemma {:induction false} SegmentAt(lists: seq<seq<Pointer>>, j: nat)
    requires j <= |lists|
    ensures Begins(lists, j) <= |Layout(lists)|
    ensures j < |lists| ==>
              Begins(lists, j + 1) == Begins(lists, j) + |lists[j]| + 2 &&
              Begins(lists, j + 1) <= |Layout(lists)| &&
              Layout(lists)[Begins(lists, j)..Begins(lists, j + 1)] == Bracketed(lists[j])
    ensures j == |lists| ==> Begins(lists, j) == |Layout(lists)|
  {
    hide Bracketed;
    if j == |lists| {
      assert lists[..j] == lists;
    } else {
      var n := |lists| - 1;
      assert lists[..j + 1][..j] == lists[..j];
      if j == n {
        assert lists[..n + 1] == lists;
        BracketedLength(lists[n]);
      } else {
        SegmentAt(lists[..n], j);
        assert lists[..n][..j] == lists[..j] && lists[..n][..j + 1] == lists[..j + 1];
        PrefixSlice(Layout(lists[..n]), Bracketed(lists[n]), Begins(lists, j), Begins(lists, j + 1));
      }
    }
  }

  lemma StartsWithFlag(ps: seq<Pointer>)
    ensures Bracketed(ps) != [] && Bracketed(ps)[0] == StartFlag(|ps|)
  {}

  lemma BracketedLength(ps: seq<Pointer>)
    ensures |Bracketed(ps)| == |ps| + 2
  {}

  lemma PrefixSlice(a: seq<Pointer>, b: seq<Pointer>, lo: nat, hi: nat)
    requires lo <= hi <= |a|
    ensures (a + b)[lo..hi] == a[lo..hi]
  {}

  /** The recipe of segment j as the readers build it. */
  function SegmentOf(bvNum: nat, lists: seq<seq<Pointer>>, j: nat): SegmentRecipe
    requires j < |lists|
  {
    SegmentRecipe(IdOf(bvNum, lists, j), Table(lists[j]))
  }

  /** Reading one pointer; at the end of the file fread leaves what was there before. */
  method Fread(file: seq<Pointer>, pos: nat, before: Pointer) returns (p: Pointer, next: nat)
    requires pos <= |file|
    ensures next <= |file|
    ensures pos < |file| ==> p == file[pos] && next == pos + 1
    ensures pos == |file| ==> p == before && next == pos
  {
    if pos < |file| {
      p, next := file[pos], pos + 1;
    } else {
      p, next := before, pos;
    }
  }

  /** What follows a start flag: the pointers, checked to have real ids, and the end flag. */
  method ReadBody(bvNum: nat, file: seq<Pointer>, start: nat, size: nat, ghost ps: seq<Pointer>)
    returns (sr: SegmentRecipe, flag: Pointer, pos: nat)
    requires |ps| == size && start + size + 2 <= |file| && file[start..start + size + 2] == Bracketed(ps)
    requires forall i :: 0 <= i < size ==> ps[i].id >= 0
    ensures sr == SegmentRecipe(MakeSegmentId(bvNum, RECORD_SIZE * start, size), Table(ps))
    ensures flag == EndFlag() && pos == start + size + 2
  {
    assert forall i :: 0 <= i < size + 2 ==> file[start + i] == Bracketed(ps)[i];
    sr := SegmentRecipe(MakeSegmentId(bvNum, RECORD_SIZE * start, size), map[]);
    pos := start + 1;
    flag := StartFlag(size);
    for i := 0 to size
      invariant pos == start + 1 + i && sr.kvpairs == Table(ps[..i])
      invariant sr.id == MakeSegmentId(bvNum, RECORD_SIZE * start, size)
    {
      var cp;
      assert file[start + (1 + i)] == Bracketed(ps)[1 + i] == ps[i];
      cp, pos := Fread(file, pos, flag);
      assert cp.id > TEMPORARY_ID;
      assert ps[..i + 1][..i] == ps[..i];
      sr := sr.(kvpairs := sr.kvpairs[cp.fp := cp]);
    }
    assert ps[..size] == ps;
    assert file[start + (size + 1)] == Bracketed(ps)[size + 1];
    flag, pos := Fread(file, pos, flag);
    assert flag.id == 0 - CHUNK_SEGMENT_END;
  }

  ghost predicate RealIds(lists: seq<seq<Pointer>>) {
    forall j, i :: 0 <= j < |lists| && 0 <= i < |lists[j]| ==> lists[j][i].id >= 0
  }

  /** prefetch_segments: from the id of segment j, that segment and its successors, while there are any. */
  method PrefetchSegments(
    bvNum: nat, id: int, num: nat, ghost lists: seq<seq<Pointer>>, ghost j: nat, file: seq<Pointer>)
    returns (segments: seq<SegmentRecipe>)
    requires file == Layout(lists) && RealIds(lists) && j < |lists| && id == IdOf(bvNum, lists, j)
    requires bvNum < TWO_TO_15 && |lists[j]| < TWO_TO_16 && RECORD_SIZE * |Layout(lists)| < TWO_TO_32
    ensures |segments| == Min(num, |lists| - j)
    ensures forall i :: 0 <= i < |segments| ==> segments[i] == SegmentOf(bvNum, lists, j + i)
  {
    hide MakeSegmentId, IdToBnum, IdToOff, IdToSize, Bracketed, Table;
    SegmentAt(lists, j);
    SegmentIdDecodes(bvNum, RECORD_SIZE * Begins(lists, j), |lists[j]|);
    var bnum, off := IdToBnum(id), IdToOff(id);
    assert bnum == bvNum && off == RECORD_SIZE * Begins(lists, j);
    var pos, flag := off / RECORD_SIZE, EndFlag();
    segments := [];
    while |segments| < num
      invariant |segments| <= num && j + |segments| <= |lists| && pos == Begins(lists, j + |segments|) && pos <= |file|
      invariant flag == EndFlag()
      invariant forall i :: 0 <= i < |segments| ==> segments[i] == SegmentOf(bvNum, lists, j + i)
      decreases num - |segments|
    {
      ghost var k := j + |segments|;
      SegmentAt(lists, k);
      var currentOff := pos;
      flag, pos := Fread(file, pos, flag);
      if k < |lists| {
        StartsWithFlag(lists[k]);
        assert file[currentOff] == file[currentOff..Begins(lists, k + 1)][0];
      }
      if flag.id != 0 - CHUNK_SEGMENT_START {
        assert |segments| != 0;
        break;
      }
      var sr;
      sr, flag, pos := ReadBody(bnum, file, currentOff, flag.size, lists[k]);
      segments := segments + [sr];
    }
  }

  /** read_next_segment at each position of the file in turn, as deletion calls it. */
  method ReadAllSegments(
    bvNum: nat, ghost lists: seq<seq<Pointer>>, file: seq<Pointer>)
    returns (segments: seq<SegmentRecipe>)
    requires file == Layout(lists) && RealIds(lists)
    ensures |segments| == |lists|
    ensures forall i :: 0 <= i < |lists| ==> segments[i] == SegmentOf(bvNum, lists, i)
  {
    segments := [];
    var pos := 0;
    assert lists[..0] == [];
    while pos < |file|
      invariant |segments| <= |lists| && pos == Begins(lists, |segments|) && pos <= |file|
      invariant forall i :: 0 <= i < |segments| ==> segments[i] == SegmentOf(bvNum, lists, i)
      decreases |file| - pos
    {
      ghost var k := |segments|;
      SegmentAt(lists, k);
      assert file[pos] == file[pos..Begins(lists, k + 1)][0] == StartFlag(|lists[k]|);
      assert file[pos].id == 0 - CHUNK_SEGMENT_START;
      var sr, flag;
      sr, flag, pos := ReadBody(bvNum, file, pos, file[pos].size, lists[k]);
      segments := segments + [sr];
    }
    SegmentAt(lists, |segments|);
  }

  /** The ids of a backup's segments grow, so a newer segment never has a smaller id. */
  lemma IdsGrow(bvNum: nat, lists: seq<seq<Pointer>>, i: nat, j: nat)
    requires i < j < |lists| && bvNum < TWO_TO_15 && |lists[i]| < TWO_TO_16 && |lists[j]| < TWO_TO_16
    requires RECORD_SIZE * |Layout(lists)| < TWO_TO_32
    ensures IdOf(bvNum, lists, i) < IdOf(bvNum, lists, j)
  {
    BeginsGrow(lists, i, j);
    SegmentAt(lists, j);
    var oi, oj := RECORD_SIZE * Begins(lists, i), RECORD_SIZE * Begins(lists, j);
    SegmentIdsGrow(bvNum, oi, |lists[i]|, bvNum, oj, |lists[j]|);
  }

  lemma {:induction false} BeginsGrow(lists: seq<seq<Pointer>>, i: nat, j: nat)
    requires i < j < |lists|
    ensures Begins(lists, i) < Begins(lists, j)
    decreases j
  {
    SegmentAt(lists, j - 1);
    if i < j - 1 {
      BeginsGrow(lists, i, j - 1);
    }
  }
}
