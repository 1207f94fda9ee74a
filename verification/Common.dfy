/** Names shared by the whole model: src/destor.h and src/storage/containerstore.h. */
module Common {

  /** A fingerprint identifies the content of a chunk; collisions are not modelled. */
  type Fingerprint = nat

  /** Container ids are handed out upwards from 0; TEMPORARY_ID means "not known yet". */
  type ContainerId = int

  const TEMPORARY_ID: int := -1
  const CONTAINER_SIZE: int := 4194304
  const CONTAINER_META_SIZE: int := 32768
  const META_ENTRY: int := 28
  const META_HEAD: int := 16

  datatype Option<+T> = None | Some(value: T)

  function Max(a: int, b: int): int {
    if a < b then b else a
  }

  function Min(a: int, b: int): int {
    if a < b then a else b
  }

  /** A set that is not empty has an element. */
  lemma SomeElement<T>(s: set<T>) returns (x: T)
    requires |s| != 0
    ensures x in s
  {
    x :| x in s;
  }

  /** The quotient and the remainder determine each other. */
  lemma DivIs(n: nat, r: nat, q: nat, m: nat)
    requires m < r && n == q * r + m
    ensures n / r == q
  {
    var d := n / r - q;
    assert d * r == m - n % r;
    assert d >= 1 ==> d * r >= r;
    assert d <= -1 ==> d * r + r <= 0;
  }

  lemma SubsetSize<T>(a: set<T>, b: set<T>)
    requires a <= b
    ensures |a| <= |b|
  {
    assert b == a + (b - a);
  }

  predicate Distinct<T(==)>(q: seq<T>) {
    forall i, j :: 0 <= i < j < |q| ==> q[i] != q[j]
  }

  /** A permutation of a list without repetitions has none. */
  lemma PermutationDistinct<T>(q: seq<T>, r: seq<T>)
    requires multiset(q) == multiset(r) && Distinct(q)
    ensures Distinct(r)
  {
    OnceInMultiset(q);
    forall i, j | 0 <= i < j < |r| ensures r[i] != r[j] {
      if r[i] == r[j] {
        TwiceInMultiset(r, i, j);
      }
    }
  }

  lemma TwiceInMultiset<T>(r: seq<T>, i: nat, j: nat)
    requires i < j < |r| && r[i] == r[j]
    ensures multiset(r)[r[i]] >= 2
  {
    assert r == r[..j] + [r[j]] + r[j + 1..];
    assert r[..j][i] == r[i];
  }

  lemma {:induction false} OnceInMultiset<T>(q: seq<T>)
    requires Distinct(q)
    ensures forall x :: multiset(q)[x] <= 1
  {
    if q != [] {
      assert q == [q[0]] + q[1..];
      OnceInMultiset(q[1..]);
      assert q[0] !in multiset(q[1..]);
    }
  }
}
