/**
 Why evicting the container used farthest in the future is optimal: a bound on container reads
 over every demand-loading policy with the same number of slots.
 */
module Belady {
  import opened Common

  type Id = ContainerId

  /** A cache fits k slots; a negative k means no bound, as in lru_cache_is_full. */
  ghost predicate Fits(c: set<Id>, k: int) {
    k < 0 || |c| <= k
  }

  /**
   Some demand-loading policy with k slots serves the accesses s from cache c with at most n
   container reads.  On an access the container is read if absent; the policy may keep any part
   of the cache together with it.
   */
  ghost predicate Can(k: int, c: set<Id>, s: seq<Id>, n: int)
    decreases |s|
  {
    n >= 0 && (s == [] || exists c' :: Demand(k, c, s[0], c') && Can(k, c', s[1..], n - Cost(c, s[0])))
  }

  /** The policy serves an access to r and keeps c' of the cache c. */
  ghost predicate Demand(k: int, c: set<Id>, r: Id, c': set<Id>) {
    r in c' && c' <= c + {r} && Fits(c', k)
  }

  ghost function Cost(c: set<Id>, r: Id): nat {
    if r in c then 0 else 1
  }

  /** w is used again no later than v. */
  ghost predicate NoLater(w: Id, v: Id, s: seq<Id>) {
    s == [] || s[0] == w || (s[0] != v && NoLater(w, v, s[1..]))
  }

  lemma FitsSubset(c: set<Id>, d: set<Id>, k: int)
    requires c <= d && Fits(d, k)
    ensures Fits(c, k)
  {
    assert d == c + (d - c);
  }

  lemma CanMove(k: int, c: set<Id>, s: seq<Id>, n: int, c': set<Id>)
    requires s != [] && n >= 0 && Demand(k, c, s[0], c') && Can(k, c', s[1..], n - Cost(c, s[0]))
    ensures Can(k, c, s, n)
  {}

  lemma TheMove(k: int, c: set<Id>, s: seq<Id>, n: int) returns (c': set<Id>)
    requires s != [] && Can(k, c, s, n)
    ensures n >= 0 && Demand(k, c, s[0], c') && Can(k, c', s[1..], n - Cost(c, s[0]))
  {
    c' :| Demand(k, c, s[0], c') && Can(k, c', s[1..], n - Cost(c, s[0]));
  }

  lemma Budget(k: int, c: set<Id>, s: seq<Id>, n: int)
    ensures Can(k, c, s, n) ==> n >= 0
    ensures s == [] && n >= 0 ==> Can(k, c, s, n)
  {}

  /** A larger cache, or a larger budget, is never worse. */
  lemma {:induction false} CanMore(k: int, c: set<Id>, d: set<Id>, s: seq<Id>, n: int, m: int)
    requires Can(k, c, s, n) && c <= d && n <= m
    ensures Can(k, d, s, m)
    decreases |s|
  {
    hide Can, Fits;
    Budget(k, c, s, n);
    Budget(k, d, s, m);
    if s != [] {
      var c' := TheMove(k, c, s, n);
      CanMore(k, c', c', s[1..], n - Cost(c, s[0]), m - Cost(d, s[0]));
      CanMove(k, d, s, m, c');
    }
  }

  lemma DropDemand(k: int, c: set<Id>, r: Id, c': set<Id>, x: Id)
    requires Demand(k, c, r, c') && r != x
    ensures Demand(k, c - {x}, r, c' - {x})
  {
    FitsSubset(c' - {x}, c', k);
  }

  lemma LateDemand(k: int, c: set<Id>, r: Id, c': set<Id>)
    requires Demand(k, c, r, c')
    ensures Demand(k, c - {r}, r, c')
  {}

  lemma SwapDemand(k: int, c: set<Id>, r: Id, c': set<Id>, x: Id, y: Id)
    requires Demand(k, c, r, c') && x in c && y !in c && r != x
    ensures x in c' && y !in c' ==> Demand(k, c - {x} + {y}, r, c' - {x} + {y})
    ensures x !in c' ==> Demand(k, c - {x} + {y}, r, c')
    ensures r == y ==> Demand(k, c - {x} + {y}, r, c' - {x})
    ensures r != y ==> y !in c'
  {
    FitsSubset(c' - {x}, c', k);
    if x in c' && y !in c' { SwapSize(c', x, y); }
  }

  lemma SwapSize(c: set<Id>, x: Id, y: Id)
    requires x in c && y !in c
    ensures |c - {x} + {y}| == |c|
  {
    assert c == (c - {x}) + {x};
  }

  /** Losing one container costs at most one read. */
  lemma {:induction false} CanDrop(k: int, c: set<Id>, x: Id, s: seq<Id>, n: int)
    requires Can(k, c, s, n)
    ensures Can(k, c - {x}, s, n + 1)
    decreases |s|
  {
    hide Can, Demand;
    Budget(k, c, s, n);
    Budget(k, c - {x}, s, n + 1);
    if s != [] {
      var r := s[0];
      var c' := TheMove(k, c, s, n);
      if r == x {
        LateDemand(k, c, r, c');
        CanMore(k, c', c', s[1..], n - Cost(c, r), n + 1 - Cost(c - {x}, r));
        CanMove(k, c - {x}, s, n + 1, c');
      } else {
        CanDrop(k, c', x, s[1..], n - Cost(c, r));
        DropDemand(k, c, r, c', x);
        CanMove(k, c - {x}, s, n + 1, c' - {x});
      }
    }
  }

  /** Exchanging a container for one that is used no later does no harm. */
  lemma {:induction false} CanSwap(k: int, c: set<Id>, x: Id, y: Id, s: seq<Id>, n: int)
    requires Can(k, c, s, n)
    requires x in c && y !in c && NoLater(y, x, s)
    ensures Can(k, c - {x} + {y}, s, n)
    decreases |s|
  {
    hide Can, Demand;
    Budget(k, c, s, n);
    Budget(k, c - {x} + {y}, s, n);
    if s != [] {
      var r := s[0];
      var c' := TheMove(k, c, s, n);
      var m := n - Cost(c, r);
      var d := c - {x} + {y};
      SwapDemand(k, c, r, c', x, y);
      if r == y {
        CanDrop(k, c', x, s[1..], m);
        CanMove(k, d, s, n, c' - {x});
      } else if x in c' {
        CanSwap(k, c', x, y, s[1..], m);
        CanMove(k, d, s, n, c' - {x} + {y});
      } else {
        CanMove(k, d, s, n, c');
      }
    }
  }

  /** A full cache that admits r has lost something else. */
  lemma SomethingLost(k: int, b: set<Id>, r: Id, c': set<Id>) returns (w: Id)
    requires k >= 0 && |b| == k && r !in b && Demand(k, b, r, c')
    ensures w in b && w !in c'
  {
    if b <= c' {
      FitsSubset(b + {r}, c', k);
      assert false;
    }
    w := SomeElement(b - c');
  }

  /** Serving the next access as the optimal cache does keeps every budget that was enough. */
  lemma BeladyStep(k: int, b: set<Id>, s: seq<Id>, n: int, b': set<Id>, victim: Id)
    requires Can(k, b, s, n) && s != [] && s[0] !in b
    requires if k >= 0 && |b| == k
             then victim in b && b' == b - {victim} + {s[0]}
                  && forall w :: w in b ==> NoLater(w, victim, s[1..])
             else b' == b + {s[0]}
    ensures Can(k, b', s[1..], n - 1)
  {
    hide Can, NoLater;
    var r := s[0];
    var c' := TheMove(k, b, s, n);
    if k >= 0 && |b| == k {
      var w := SomethingLost(k, b, r, c');
      var a := b - {w} + {r};
      CanMore(k, c', a, s[1..], n - 1, n - 1);
      if w != victim {
        CanSwap(k, a, victim, w, s[1..], n - 1);
        assert a - {victim} + {w} == b';
      }
    } else {
      CanMore(k, c', b', s[1..], n - 1, n - 1);
    }
  }

  lemma HitStep(k: int, b: set<Id>, s: seq<Id>, n: int)
    requires Can(k, b, s, n) && s != [] && s[0] in b
    ensures Can(k, b, s[1..], n)
  {
    hide Can;
    var c' := TheMove(k, b, s, n);
    CanMore(k, c', b, s[1..], n, n);
  }

  // ----- policies as explicit runs -------------------------------------------------------

  /** caches[i] is the content before access i. */
  ghost predicate PolicyRun(k: int, s: seq<Id>, caches: seq<set<Id>>) {
    |caches| == |s| + 1
    && (s == [] || (Demand(k, caches[0], s[0], caches[1]) && PolicyRun(k, s[1..], caches[1..])))
  }

  ghost function Reads(s: seq<Id>, caches: seq<set<Id>>): nat
    requires |caches| == |s| + 1
  {
    if s == [] then 0 else Cost(caches[0], s[0]) + Reads(s[1..], caches[1..])
  }

  lemma {:induction false} PolicyCan(k: int, s: seq<Id>, caches: seq<set<Id>>)
    requires PolicyRun(k, s, caches)
    ensures Can(k, caches[0], s, Reads(s, caches))
    decreases |s|
  {
    hide Can;
    Budget(k, caches[0], s, Reads(s, caches));
    if s != [] {
      PolicyCan(k, s[1..], caches[1..]);
      CanMove(k, caches[0], s, Reads(s, caches), caches[1]);
    }
  }

  /** A run that goes on. */
  lemma {:induction false} PolicyAppend(k: int, s: seq<Id>, caches: seq<set<Id>>, r: Id, c: set<Id>)
    requires PolicyRun(k, s, caches) && Demand(k, caches[|s|], r, c)
    ensures PolicyRun(k, s + [r], caches + [c])
    ensures Reads(s + [r], caches + [c]) == Reads(s, caches) + Cost(caches[|s|], r)
    decreases |s|
  {
    if s == [] {
      assert (caches + [c])[1..] == [c] && [r][1..] == [];
      assert PolicyRun(k, [], [c]) && Reads([], [c]) == 0;
    } else {
      PolicyAppend(k, s[1..], caches[1..], r, c);
      assert (s + [r])[1..] == s[1..] + [r] && (caches + [c])[1..] == caches[1..] + [c];
    }
  }
}
