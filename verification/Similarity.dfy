/**
 Choosing the segments most similar to the current one (src/index/similarity_detection.c): a
 greedy cover of its features, and how far from the best cover it can be.
 */
module Similarity {
  import opened Common
  import opened KvStore

  datatype Candidate = Candidate(id: SegmentId, features: set<Key>)

  /** The ids of an entry, up to the first TEMPORARY_ID. */
  function Listed(value: seq<SegmentId>): seq<SegmentId> {
    if value == [] || value[0] == TEMPORARY_ID then [] else [value[0]] + Listed(value[1..])
  }

  /** Features of the current segment that the index maps to a segment. */
  function Shared(features: set<Key>, table: map<Key, seq<SegmentId>>, id: SegmentId): set<Key> {
    set f | f in features && f in table && id in Listed(table[f])
  }

  // ----- the cover -----------------------------------------------------------------------

  /** Features covered by the candidates with these ids. */
  ghost function Cover(all: map<SegmentId, set<Key>>, ids: set<SegmentId>): set<Key> {
    set id, f | id in ids && id in all && f in all[id] :: f
  }

  lemma CoverAdd(all: map<SegmentId, set<Key>>, ids: set<SegmentId>, id: SegmentId)
    requires id in all
    ensures Cover(all, ids + {id}) == Cover(all, ids) + all[id]
  {}

  /** What is left of a candidate after the chosen ones are trimmed off. */
  ghost function Left(all: map<SegmentId, set<Key>>, chosen: set<SegmentId>, id: SegmentId): set<Key>
    requires id in all
  {
    all[id] - Cover(all, chosen)
  }

  /** If no candidate has more than g features left, t of them cover at most t * g new ones. */
  lemma {:induction false} GainBound(all: map<SegmentId, set<Key>>, chosen: set<SegmentId>, t: set<SegmentId>, g: nat)
    requires forall id :: id in t ==> id in all && |Left(all, chosen, id)| <= g
    ensures |Cover(all, t) - Cover(all, chosen)| <= |t| * g
    decreases |t|
  {
    hide Cover, Left;
    var c := Cover(all, chosen);
    if |t| == 0 {
      NothingCovered(all);
      assert t == {} && Cover(all, t) - c == {};
    } else {
      var x := SomeElement(t);
      var rest := t - {x};
      GainBound(all, chosen, rest, g);
      GainSplit(all, chosen, t, x);
      UnionSize(Cover(all, rest) - c, Left(all, chosen, x));
      assert |t| * g == |rest| * g + g;
    }
  }

  lemma NothingCovered(all: map<SegmentId, set<Key>>)
    ensures Cover(all, {}) == {}
  {}

  lemma GainSplit(all: map<SegmentId, set<Key>>, chosen: set<SegmentId>, t: set<SegmentId>, x: SegmentId)
    requires x in t && x in all
    ensures Cover(all, t) - Cover(all, chosen)
         == (Cover(all, t - {x}) - Cover(all, chosen)) + Left(all, chosen, x)
  {
    CoverAdd(all, t - {x}, x);
    assert t - {x} + {x} == t;
  }

  lemma UnionSize(a: set<Key>, b: set<Key>)
    ensures |a + b| <= |a| + |b|
  {
    assert a + b == a + (b - a);
    SubsetSize(b - a, b);
  }

  /** One greedy round closes at least a k-th of the gap to the best cover of k segments. */
  lemma RoundGain(all: map<SegmentId, set<Key>>, chosen: set<SegmentId>, t: set<SegmentId>, k: nat, g: nat)
    requires |t| <= k
    requires forall id :: id in t ==> id in all && |Left(all, chosen, id)| <= g
    ensures |Cover(all, t)| <= |Cover(all, chosen)| + k * g
  {
    GainBound(all, chosen, t, g);
    var c, o := Cover(all, chosen), Cover(all, t);
    UnionSize(c, o - c);
    SubsetSize(o, c + (o - c));
    MulMono(|t|, k, g);
  }

  lemma MulMono(a: nat, b: nat, c: nat)
    requires a <= b
    ensures a * c <= b * c
  {
    assert b * c == a * c + (b - a) * c;
  }

  function Pow(b: nat, e: nat): nat {
    if e == 0 then 1 else b * Pow(b, e - 1)
  }

  /** The gap invariant of the greedy loop, one round further. */
  lemma GapStep(opt: int, c: int, c': int, k: nat, i: nat, g: nat)
    requires k >= 1 && opt >= 0 && c' == c + g && opt <= c + k * g
    requires (opt - c) * Pow(k, i) <= Pow(k - 1, i) * opt
    ensures (opt - c') * Pow(k, i + 1) <= Pow(k - 1, i + 1) * opt
  {
    var p, q, a := Pow(k, i), Pow(k - 1, i), opt - c;
    PowPositive(k, i);
    GapShrinks(a, g, k);
    MulMonoInt((a - g) * k, a * (k - 1), p);
    MulSwap(a, k - 1, p);
    MulMonoInt(a * p, q * opt, k - 1);
    MulSwap(q, opt, k - 1);
    MulAssoc(a - g, k, p);
    MulAssoc(q, k - 1, opt);
  }

  lemma GapShrinks(a: int, g: nat, k: nat)
    requires k >= 1 && a <= k * g
    ensures (a - g) * k <= a * (k - 1)
  {
    assert (a - g) * k == a * k - k * g;
    assert a * (k - 1) == a * k - a;
  }

  lemma MulSwap(a: int, b: int, c: int)
    ensures a * b * c == a * c * b
  {}

  lemma MulAssoc(a: int, b: int, c: int)
    ensures a * b * c == a * (b * c) && a * b == b * a
  {}

  lemma MulMonoInt(a: int, b: int, c: nat)
    requires a <= b
    ensures a * c <= b * c
  {
    assert b * c - a * c == (b - a) * c;
  }

  lemma PowPositive(b: nat, e: nat)
    requires b >= 1
    ensures Pow(b, e) >= 1
  {}

  /** After i rounds the gap to any cover by k candidates has shrunk by ((k-1)/k)^i. */
  ghost predicate Gap(all: map<SegmentId, set<Key>>, covered: int, k: nat, i: nat)
    requires k >= 1
  {
    forall t: set<SegmentId> :: |t| <= k && t <= all.Keys ==>
      (|Cover(all, t)| - covered) * Pow(k, i) <= Pow(k - 1, i) * |Cover(all, t)|
  }

  lemma GapStart(all: map<SegmentId, set<Key>>, k: nat)
    requires k >= 1
    ensures Gap(all, 0, k, 0)
  {}

  lemma GapRound(all: map<SegmentId, set<Key>>, chosen: set<SegmentId>, k: nat, i: nat, g: nat)
    requires k >= 1 && Gap(all, |Cover(all, chosen)|, k, i)
    requires forall id :: id in all ==> |Left(all, chosen, id)| <= g
    ensures Gap(all, |Cover(all, chosen)| + g, k, i + 1)
  {
    hide Cover, Left, Pow;
    var c := |Cover(all, chosen)|;
    forall t: set<SegmentId> | |t| <= k && t <= all.Keys
      ensures (|Cover(all, t)| - (c + g)) * Pow(k, i + 1) <= Pow(k - 1, i + 1) * |Cover(all, t)|
    {
      RoundGain(all, chosen, t, k, g);
      GapStep(|Cover(all, t)|, c, c + g, k, i, g);
    }
  }

  // ----- the algorithm -------------------------------------------------------------------

  /** g_segment_cmp_feature_num: more features first, then the newer segment. */
  predicate Before(a: Candidate, b: Candidate) {
    |a.features| > |b.features| || (|a.features| == |b.features| && a.id >= b.id)
  }

  ghost predicate SortedCandidates(s: seq<Candidate>) {
    forall i, j :: 0 <= i < j < |s| ==> Before(s[i], s[j])
  }

  method InsertSorted(s: seq<Candidate>, c: Candidate) returns (r: seq<Candidate>)
    requires SortedCandidates(s)
    ensures SortedCandidates(r) && multiset(r) == multiset(s) + multiset{c}
  {
    var k := 0;
    while k < |s| && Before(s[k], c)
      invariant k <= |s| && forall j :: 0 <= j < k ==> Before(s[j], c)
    {
      k := k + 1;
    }
    assert s == s[..k] + s[k..];
    r := s[..k] + [c] + s[k..];
  }

  /** g_sequence_sort. */
  method SortCandidates(s: seq<Candidate>) returns (r: seq<Candidate>)
    ensures SortedCandidates(r) && multiset(r) == multiset(s)
  {
    r := [];
    for i := 0 to |s|
      invariant SortedCandidates(r) && multiset(r) == multiset(s[..i])
    {
      assert s[..i + 1] == s[..i] + [s[i]];
      r := InsertSorted(r, s[i]);
    }
    assert s[..|s|] == s;
  }

  /** The candidates still in the sequence, each once, with what is left of its features. */
  ghost predicate Remaining(s: seq<Candidate>, all: map<SegmentId, set<Key>>, chosen: set<SegmentId>) {
    (forall i :: 0 <= i < |s| ==> s[i].id in all && s[i].id !in chosen && s[i].features == Left(all, chosen, s[i].id))
    && (forall i, j :: 0 <= i < j < |s| ==> s[i].id != s[j].id)
    && (forall id :: id in all ==> id in chosen || exists i :: 0 <= i < |s| && s[i].id == id)
  }

  lemma RemainingSorted(s: seq<Candidate>, r: seq<Candidate>, all: map<SegmentId, set<Key>>, chosen: set<SegmentId>)
    requires Remaining(s, all, chosen) && multiset(r) == multiset(s)
    ensures Remaining(r, all, chosen) && |r| == |s|
  {
    assert |r| == |multiset(r)| == |multiset(s)| == |s|;
    forall i | 0 <= i < |r| ensures r[i] in s {
      assert r[i] in multiset(s);
    }
    forall id | id in all && id !in chosen ensures exists i :: 0 <= i < |r| && r[i].id == id {
      var i :| 0 <= i < |s| && s[i].id == id;
      assert s[i] in multiset(r);
    }
    PermutationDistinct(s, r);
    forall i, j | 0 <= i < j < |r| ensures r[i].id != r[j].id {
      assert r[i] != r[j] && r[i] in s && r[j] in s;
    }
  }

  /** features_trim over the sequence: drop the features of the chosen one. */
  method TrimAll(s: seq<Candidate>, top: Candidate) returns (r: seq<Candidate>)
    ensures |r| == |s|
    ensures forall i :: 0 <= i < |s| ==> r[i] == Candidate(s[i].id, s[i].features - top.features)
  {
    r := s;
    for i := 0 to |s|
      invariant |r| == |s|
      invariant forall j :: 0 <= j < i ==> r[j] == Candidate(s[j].id, s[j].features - top.features)
      invariant forall j :: i <= j < |s| ==> r[j] == s[j]
    {
      r := r[i := Candidate(s[i].id, s[i].features - top.features)];
    }
  }

  lemma TrimmedRemaining(s: seq<Candidate>, r: seq<Candidate>, all: map<SegmentId, set<Key>>, chosen: set<SegmentId>)
    requires s != [] && Remaining(s, all, chosen) && |r| == |s| - 1
    requires forall i :: 0 <= i < |r| ==> r[i] == Candidate(s[i + 1].id, s[i + 1].features - s[0].features)
    ensures Remaining(r, all, chosen + {s[0].id})
    ensures Cover(all, chosen + {s[0].id}) == Cover(all, chosen) + s[0].features
    ensures |Cover(all, chosen + {s[0].id})| == |Cover(all, chosen)| + |s[0].features|
  {
    CoverAdd(all, chosen, s[0].id);
    forall id | id in all && id !in chosen + {s[0].id} ensures exists i :: 0 <= i < |r| && r[i].id == id {
      var i :| 0 <= i < |s| && s[i].id == id;
      assert r[i - 1].id == id;
    }
  }

  /** No candidate, chosen or not, has more left than the first of the sorted sequence. */
  lemma FirstIsMaximal(s: seq<Candidate>, all: map<SegmentId, set<Key>>, chosen: set<SegmentId>)
    requires s != [] && Remaining(s, all, chosen) && SortedCandidates(s) && chosen <= all.Keys
    ensures forall id :: id in all ==> |Left(all, chosen, id)| <= |s[0].features|
  {
    forall id | id in all ensures |Left(all, chosen, id)| <= |s[0].features| {
      if id in chosen {
        assert Left(all, chosen, id) == {};
      } else {
        var i :| 0 <= i < |s| && s[i].id == id;
        assert i > 0 ==> Before(s[0], s[i]);
      }
    }
  }

  /** The next segment after those chosen: none has more features that they leave, and of those with as many it is the
      newest. */
  ghost predicate Next(all: map<SegmentId, set<Key>>, chosen: set<SegmentId>, top: SegmentId) {
    top in all && top !in chosen
    && forall id :: id in all && id !in chosen ==>
         |Left(all, chosen, id)| < |Left(all, chosen, top)|
         || (|Left(all, chosen, id)| == |Left(all, chosen, top)| && id <= top)
  }

  /** Every segment of the list is the next after those before it. */
  ghost predicate Greedy(all: map<SegmentId, set<Key>>, ids: seq<SegmentId>) {
    forall i :: 0 <= i < |ids| ==> Next(all, IdSet(ids[..i]), ids[i])
  }

  lemma FirstIsNext(s: seq<Candidate>, all: map<SegmentId, set<Key>>, chosen: set<SegmentId>)
    requires s != [] && Remaining(s, all, chosen) && SortedCandidates(s)
    ensures Next(all, chosen, s[0].id)
  {
    hide Left;
    forall id | id in all && id !in chosen
      ensures |Left(all, chosen, id)| < |Left(all, chosen, s[0].id)|
              || (|Left(all, chosen, id)| == |Left(all, chosen, s[0].id)| && id <= s[0].id)
    {
      var i :| 0 <= i < |s| && s[i].id == id;
      assert i > 0 ==> Before(s[0], s[i]);
    }
  }

  lemma GreedyAdd(all: map<SegmentId, set<Key>>, ids: seq<SegmentId>, top: SegmentId)
    requires Greedy(all, ids) && Next(all, IdSet(ids), top)
    ensures Greedy(all, ids + [top]) && Greedy(all, [])
  {
    hide Next, IdSet;
    var r := ids + [top];
    forall i | 0 <= i < |r| ensures Next(all, IdSet(r[..i]), r[i]) {
      assert r[..i] == ids[..i];
      assert ids[..|ids|] == ids;
    }
  }

  /** There is only one such list of a given length. */
  lemma {:induction false} GreedyIsUnique(all: map<SegmentId, set<Key>>, a: seq<SegmentId>, b: seq<SegmentId>)
    requires |a| == |b| && Greedy(all, a) && Greedy(all, b)
    ensures a == b
    decreases |a|
  {
    hide Left;
    if a != [] {
      var n := |a| - 1;
      assert Greedy(all, a[..n]) && Greedy(all, b[..n]) by { GreedyPrefix(all, a); GreedyPrefix(all, b); }
      GreedyIsUnique(all, a[..n], b[..n]);
      assert Next(all, IdSet(a[..n]), a[n]) && Next(all, IdSet(b[..n]), b[n]);
      assert a == a[..n] + [a[n]] && b == b[..n] + [b[n]];
    }
  }

  lemma GreedyPrefix(all: map<SegmentId, set<Key>>, a: seq<SegmentId>)
    requires a != [] && Greedy(all, a)
    ensures Greedy(all, a[..|a| - 1])
  {
    hide Next, IdSet;
    var b := a[..|a| - 1];
    forall i | 0 <= i < |b| ensures Next(all, IdSet(b[..i]), b[i]) {
      assert b[..i] == a[..i];
    }
  }

  /** How good a cover is: within 1 - (1 - 1/k)^k of the best cover by k candidates. */
  ghost predicate NearBest(all: map<SegmentId, set<Key>>, covered: int, k: nat)
    requires k >= 1
  {
    forall t: set<SegmentId> :: |t| <= k && t <= all.Keys ==>
      covered * Pow(k, k) >= (Pow(k, k) - Pow(k - 1, k)) * |Cover(all, t)|
  }

  /**
   top_segment_select after the candidates are collected: k times the candidate with the most
   features left, whose features are then trimmed off the others.
   */
  method SelectTop(all: map<SegmentId, set<Key>>, k: nat) returns (prefetched: seq<SegmentId>)
    ensures |prefetched| == Min(k, |all|) && Greedy(all, prefetched) && forall id :: id in prefetched ==> id in all
    ensures forall i, j :: 0 <= i < j < |prefetched| ==> prefetched[i] != prefetched[j]
    ensures k >= 1 ==> NearBest(all, |Cover(all, IdSet(prefetched))|, k)
  {
    var s := Collect(all);
    var num := Min(k, |s|);
    prefetched := [];
    if num == 0 {
      NothingToSelect(all, k);
      return;
    }
    prefetched := SelectRounds(all, s, k, num);
  }

  /** The rounds of the selection, on the sorted candidates. */
  method SelectRounds(
    all: map<SegmentId, set<Key>>, s0: seq<Candidate>, k: nat, num: nat)
    returns (prefetched: seq<SegmentId>)
    requires k >= 1 && num == Min(k, |all|) && SortedCandidates(s0) && Remaining(s0, all, {}) && |s0| == |all|
    ensures |prefetched| == num && Greedy(all, prefetched) && forall id :: id in prefetched ==> id in all
    ensures forall i, j :: 0 <= i < j < |prefetched| ==> prefetched[i] != prefetched[j]
    ensures NearBest(all, |Cover(all, IdSet(prefetched))|, k)
  {
    var s := s0;
    prefetched := [];
    ghost var chosen: set<SegmentId> := {};
    NothingCovered(all);
    GapStart(all, k);
    IdSetAdd([], 0);
    hide Cover, Left, Gap, NearBest, SortedCandidates, Pow, IdSet, Next;
    for i := 0 to num
      invariant |prefetched| == i && |s| + i == |all| && num == Min(k, |all|)
      invariant chosen == IdSet(prefetched) && chosen <= all.Keys
      invariant forall i, j :: 0 <= i < j < |prefetched| ==> prefetched[i] != prefetched[j]
      invariant SortedCandidates(s) && Remaining(s, all, chosen) && Greedy(all, prefetched)
      invariant Gap(all, |Cover(all, chosen)|, k, i)
    {
      ghost var i0 := i;
      FirstIsNew(s, all, chosen, prefetched);
      FirstIsNext(s, all, chosen);
      GreedyAdd(all, prefetched, s[0].id);
      hide Remaining, Greedy;
      var top;
      top, s := Round(s, all, chosen, k, i0);
      IdSetAdd(prefetched, top);
      prefetched := prefetched + [top];   // fingerprint_cache_prefetch
      chosen := chosen + {top};
    }
    CoverIsNearBest(all, chosen, s, k, num);
    forall id | id in prefetched ensures id in all { IdSetHas(prefetched, id); }
  }

  lemma IdSetHas(ids: seq<SegmentId>, id: SegmentId)
    requires id in ids
    ensures id in IdSet(ids)
  {}

  function IdSet(ids: seq<SegmentId>): set<SegmentId> {
    set id | id in ids
  }

  lemma NothingToSelect(all: map<SegmentId, set<Key>>, k: nat)
    requires Min(k, |all|) == 0
    ensures k >= 1 ==> NearBest(all, |Cover(all, IdSet([]))|, k)
  {
    if k >= 1 {
      assert |all| == 0 && all.Keys == {};
      forall t: set<SegmentId> | |t| <= k && t <= all.Keys
        ensures |Cover(all, t)| == 0
      {
        assert t == {};
        NothingCovered(all);
      }
    }
  }

  lemma IdSetAdd(ids: seq<SegmentId>, id: SegmentId)
    ensures IdSet(ids + [id]) == IdSet(ids) + {id} && IdSet([]) == {}
  {}

  lemma FirstIsNew(s: seq<Candidate>, all: map<SegmentId, set<Key>>, chosen: set<SegmentId>, ids: seq<SegmentId>)
    requires s != [] && Remaining(s, all, chosen) && chosen == IdSet(ids)
    ensures s[0].id in all && s[0].id !in chosen && forall i :: 0 <= i < |ids| ==> ids[i] != s[0].id
  {}

  /** One round: take the first, trim its features off the rest, sort again. */
  method Round(
    s: seq<Candidate>, ghost all: map<SegmentId, set<Key>>, ghost chosen: set<SegmentId>, ghost k: nat, ghost i: nat)
    returns (top: SegmentId, r: seq<Candidate>)
    requires k >= 1 && s != [] && SortedCandidates(s) && Remaining(s, all, chosen) && chosen <= all.Keys
    requires Gap(all, |Cover(all, chosen)|, k, i)
    ensures top == s[0].id && |r| == |s| - 1 && SortedCandidates(r) && Remaining(r, all, chosen + {top})
    ensures Gap(all, |Cover(all, chosen + {top})|, k, i + 1)
  {
    hide Cover, Left, Gap;
    top := s[0].id;
    FirstIsMaximal(s, all, chosen);
    GapRound(all, chosen, k, i, |s[0].features|);
    var rest := TrimAll(s[1..], s[0]);
    TrimmedRemaining(s, rest, all, chosen);
    r := SortCandidates(rest);
    RemainingSorted(rest, r, all, chosen + {top});
  }

  lemma CoverIsNearBest(all: map<SegmentId, set<Key>>, chosen: set<SegmentId>, s: seq<Candidate>, k: nat, num: nat)
    requires k >= 1 && num == Min(k, |all|) && |s| + num == |all| && chosen <= all.Keys
    requires Remaining(s, all, chosen) && Gap(all, |Cover(all, chosen)|, k, num)
    ensures NearBest(all, |Cover(all, chosen)|, k)
  {
    hide Pow;
    forall t: set<SegmentId> | |t| <= k && t <= all.Keys
      ensures |Cover(all, chosen)| * Pow(k, k) >= (Pow(k, k) - Pow(k - 1, k)) * |Cover(all, t)|
    {
      if num < k {
        assert |s| == 0;
        assert Cover(all, t) <= Cover(all, chosen);
        SubsetSize(Cover(all, t), Cover(all, chosen));
      }
      FinalGap(|Cover(all, t)|, |Cover(all, chosen)|, Pow(k, k), Pow(k - 1, k));
    }
  }

  lemma FinalGap(o: nat, c: nat, p: nat, q: nat)
    requires o <= c || (o - c) * p <= q * o
    ensures c * p >= (p - q) * o
  {
    assert (o - c) * p == o * p - c * p;
    assert (p - q) * o == o * p - q * o;
    if o <= c {
      MulMono(o, c, p);
      assert q * o >= 0;
    }
  }

  /** The candidates as a sorted sequence. */
  method Collect(all: map<SegmentId, set<Key>>) returns (s: seq<Candidate>)
    ensures SortedCandidates(s) && Remaining(s, all, {}) && |s| == |all|
  {
    s := [];
    var todo := all.Keys;
    while |todo| != 0
      invariant todo <= all.Keys && |s| + |todo| == |all|
      invariant forall i :: 0 <= i < |s| ==> s[i].id in all && s[i].id !in todo && s[i].features == all[s[i].id]
      invariant forall i, j :: 0 <= i < j < |s| ==> s[i].id != s[j].id
      invariant forall id :: id in all ==> id in todo || exists i :: 0 <= i < |s| && s[i].id == id
      decreases todo
    {
      ghost var some := SomeElement(todo);
      var id :| id in todo;
      ghost var before := s;
      s := s + [Candidate(id, all[id])];
      forall x | x in all && x !in todo - {id} ensures exists i :: 0 <= i < |s| && s[i].id == x {
        if x == id {
          assert s[|before|].id == x;
        } else {
          var i :| 0 <= i < |before| && before[i].id == x;
          assert s[i].id == x;
        }
      }
      todo := todo - {id};
    }
    ghost var unsorted := s;
    forall id | id in all ensures Left(all, {}, id) == all[id] {
      assert Cover(all, {}) == {};
    }
    s := SortCandidates(s);
    RemainingSorted(unsorted, s, all, {});
  }

  // ----- collecting the candidates -------------------------------------------------------

  ghost predicate NoRepeats(s: seq<SegmentId>) {
    forall i, j :: 0 <= i < j < |s| ==> s[i] != s[j]
  }

  lemma {:induction false} ListedPrefix(value: seq<SegmentId>)
    ensures |Listed(value)| <= |value| && Listed(value) == value[..|Listed(value)|]
    ensures TEMPORARY_ID !in Listed(value)
    ensures |Listed(value)| < |value| ==> value[|Listed(value)|] == TEMPORARY_ID
  {
    if value != [] && value[0] != TEMPORARY_ID {
      ListedPrefix(value[1..]);
      assert value == [value[0]] + value[1..];
    }
  }

  /** The entries the key-value store keeps never repeat an id. */
  lemma EntriesDoNotRepeat(segs: seq<Segment>, key: Key, n: nat)
    requires SegmentsOk(segs)
    ensures NoRepeats(Listed(Pad(Newest(segs, key), n)))
  {
    NewestDecreasing(segs, key);
    var s, v := Newest(segs, key), Pad(Newest(segs, key), n);
    ListedPrefix(v);
    var l := Listed(v);
    forall i, j | 0 <= i < j < |l| ensures l[i] != l[j] {
      assert l[i] == v[i] && l[j] == v[j] && v[i] in l && v[j] in l;
    }
  }

  /** Every feature seen so far is with every segment it is mapped to. */
  ghost predicate Gathered(similar: map<SegmentId, set<Key>>, done: set<Key>, table: map<Key, seq<SegmentId>>) {
    (forall id :: id in similar ==> similar[id] == Shared(done, table, id) && similar[id] != {})
    && (forall id, f :: f in done && f in table && id in Listed(table[f]) ==> id in similar)
  }

  /** The first half of top_segment_select: segments that hold at least one of the features. */
  method SimilarSegments(features: set<Key>, table: map<Key, seq<SegmentId>>)
    returns (similar: map<SegmentId, set<Key>>)
    requires forall f :: f in table ==> NoRepeats(Listed(table[f]))
    ensures Gathered(similar, features, table)
  {
    similar := map[];
    var todo := features;
    while |todo| != 0
      invariant todo <= features && Gathered(similar, features - todo, table)
      decreases todo
    {
      var f :| f in todo;
      ghost var done := features - todo;
      if f in table {
        similar := AddFeature(similar, f, table[f], done, table);
      }
      assert features - (todo - {f}) == done + {f};
      if f !in table {
        assert forall id :: Shared(done + {f}, table, id) == Shared(done, table, id);
      }
      todo := todo - {f};
    }
    assert features - todo == features;
  }

  method AddFeature(s0: map<SegmentId, set<Key>>, f: Key, ids: seq<SegmentId>, ghost done: set<Key>,
                    ghost table: map<Key, seq<SegmentId>>)
    returns (s: map<SegmentId, set<Key>>)
    requires Gathered(s0, done, table) && f !in done && f in table && ids == table[f] && NoRepeats(Listed(ids))
    ensures Gathered(s, done + {f}, table)
  {
    hide Gathered, NoRepeats;
    ListedPrefix(ids);
    ghost var l := Listed(ids);
    s := s0;
    var i := 0;
    while i < |ids|
      invariant i <= |l|
      invariant Extended(s0, s, f, l[..i])
      invariant i == |ids| ==> i == |l|
    {
      if ids[i] == TEMPORARY_ID {
        break;
      }
      assert ids[i] == l[i] && l[..i + 1] == l[..i] + [l[i]];
      var held := if ids[i] in s then s[ids[i]] else {};
      NotHeld(s0, s, f, l, i, done, table);
      assert f !in held;   // assert(!g_hash_table_contains(s->features, feature))
      s := s[ids[i] := held + {f}];
      i := i + 1;
    }
    assert l[..i] == l;
    ExtendedGathers(s0, s, f, l, done, table);
  }

  /** Feature f has been added to the segments ids. */
  ghost predicate Extended(s0: map<SegmentId, set<Key>>, s: map<SegmentId, set<Key>>, f: Key, ids: seq<SegmentId>) {
    (forall id :: id in s <==> id in s0 || id in ids)
    && (forall id :: id in s ==> s[id] == (if id in s0 then s0[id] else {}) + (if id in ids then {f} else {}))
  }

  lemma NotHeld(s0: map<SegmentId, set<Key>>, s: map<SegmentId, set<Key>>, f: Key, l: seq<SegmentId>, i: nat,
                done: set<Key>, table: map<Key, seq<SegmentId>>)
    requires Gathered(s0, done, table) && f !in done && NoRepeats(l) && i < |l| && Extended(s0, s, f, l[..i])
    ensures l[i] in s ==> f !in s[l[i]]
  {
    assert l[i] !in l[..i];
    assert Shared(done, table, l[i]) <= done;
  }

  lemma ExtendedGathers(s0: map<SegmentId, set<Key>>, s: map<SegmentId, set<Key>>, f: Key, l: seq<SegmentId>,
                        done: set<Key>, table: map<Key, seq<SegmentId>>)
    requires Gathered(s0, done, table) && Extended(s0, s, f, l) && f in table && l == Listed(table[f])
    ensures Gathered(s, done + {f}, table)
  {
    hide Listed;
    forall id | id in s ensures s[id] == Shared(done + {f}, table, id) && s[id] != {} {
      assert Shared(done + {f}, table, id) == Shared(done, table, id) + if id in l then {f} else {};
      assert forall g :: g in Shared(done, table, id) ==> id in s0;
    }
  }

  /** top_segment_select: the segments to prefetch for the features of the current one. */
  method TopSegmentSelect(features: set<Key>, table: map<Key, seq<SegmentId>>, k: nat)
    returns (prefetched: seq<SegmentId>, similar: map<SegmentId, set<Key>>)
    requires forall f :: f in table ==> NoRepeats(Listed(table[f]))
    ensures Gathered(similar, features, table)
    ensures |prefetched| == Min(k, |similar|) && forall id :: id in prefetched ==> id in similar
    ensures Greedy(similar, prefetched)
    ensures k >= 1 ==> NearBest(similar, |Cover(similar, IdSet(prefetched))|, k)
  {
    similar := SimilarSegments(features, table);
    prefetched := SelectTop(similar, k);
  }
}
