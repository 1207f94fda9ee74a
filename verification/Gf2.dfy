/**
 Polynomials over GF(2), as finite sets of exponents: addition is symmetric difference, and the
 remainder modulo a polynomial is what is congruent to it and of smaller degree.
 */
module Gf2 {

  type Poly = set<int>

  function Xor(a: Poly, b: Poly): Poly {
    (a - b) + (b - a)
  }

  /** a times x^n. */
  function Shift(a: Poly, n: int): Poly {
    set x | x in a :: x + n
  }

  ghost predicate Below(a: Poly, n: int) {
    forall x :: x in a ==> 0 <= x < n
  }

  /** p has degree k. */
  ghost predicate Degree(p: Poly, k: nat) {
    k in p && Below(p, k + 1)
  }

  /** The multiple of p by the polynomial with these coefficients, constant term first. */
  ghost function Times(q: seq<bool>, p: Poly): Poly {
    if q == [] then {} else Xor(if q[0] then p else {}, Shift(Times(q[1..], p), 1))
  }

  /** a and b differ by a multiple of p. */
  ghost predicate Cong(p: Poly, a: Poly, b: Poly) {
    exists q :: Xor(a, b) == Times(q, p)
  }

  // ----- laws of addition and shift ------------------------------------------------------

  lemma InXor(a: Poly, b: Poly, x: int)
    ensures x in Xor(a, b) <==> (x in a) != (x in b)
  {}

  lemma InShift(a: Poly, n: int, x: int)
    ensures x in Shift(a, n) <==> x - n in a
  {
    if x - n in a { assert (x - n) + n in Shift(a, n); }
  }

  lemma XorLaws(a: Poly, b: Poly)
    ensures Xor(a, b) == Xor(b, a) && Xor(a, a) == {} && Xor(a, {}) == a && Xor({}, a) == a
    ensures Xor(a, Xor(a, b)) == b
    ensures Xor(a, b) == {} ==> a == b
  {
    if Xor(a, b) == {} {
      forall x ensures x in a <==> x in b { InXor(a, b, x); }
    }
  }

  lemma XorSwap(a: Poly, b: Poly, c: Poly, d: Poly)
    ensures Xor(Xor(a, c), Xor(b, d)) == Xor(Xor(a, b), Xor(c, d))
  {}

  lemma XorChain(a: Poly, b: Poly, c: Poly)
    ensures Xor(Xor(a, b), Xor(b, c)) == Xor(a, c)
    ensures Xor(Xor(a, b), c) == Xor(a, Xor(b, c))
  {}

  lemma ShiftXor(a: Poly, b: Poly, n: int)
    ensures Shift(Xor(a, b), n) == Xor(Shift(a, n), Shift(b, n))
  {
    hide Shift, Xor;
    forall x ensures x in Shift(Xor(a, b), n) <==> x in Xor(Shift(a, n), Shift(b, n)) {
      InShift(Xor(a, b), n, x);
      InXor(a, b, x - n);
      InShift(a, n, x);
      InShift(b, n, x);
      InXor(Shift(a, n), Shift(b, n), x);
    }
  }

  lemma ShiftShift(a: Poly, n: int, m: int)
    ensures Shift(Shift(a, n), m) == Shift(a, n + m)
    ensures Shift(a, 0) == a && Shift({}, n) == {}
  {
    forall x ensures x in Shift(Shift(a, n), m) <==> x in Shift(a, n + m) {
      InShift(Shift(a, n), m, x);
      InShift(a, n, x - m);
      InShift(a, n + m, x);
    }
    forall x ensures x in Shift(a, 0) <==> x in a { InShift(a, 0, x); }
  }

  lemma BelowXor(a: Poly, b: Poly, n: int)
    requires Below(a, n) && Below(b, n)
    ensures Below(Xor(a, b), n)
  {}

  // ----- multiples -----------------------------------------------------------------------

  function XorSeq(q: seq<bool>, r: seq<bool>): seq<bool> {
    if q == [] then r else if r == [] then q else [q[0] != r[0]] + XorSeq(q[1..], r[1..])
  }

  lemma {:induction false} TimesXor(q: seq<bool>, r: seq<bool>, p: Poly)
    ensures Times(XorSeq(q, r), p) == Xor(Times(q, p), Times(r, p))
  {
    hide Xor, Shift;
    if q == [] || r == [] {
      XorLaws(Times(q, p), Times(r, p));
      XorLaws(Times(r, p), Times(q, p));
    } else {
      TimesXor(q[1..], r[1..], p);
      assert XorSeq(q, r)[1..] == XorSeq(q[1..], r[1..]);
      var a, b := Times(q[1..], p), Times(r[1..], p);
      var c, d := if q[0] then p else {}, if r[0] then p else {};
      ShiftXor(a, b, 1);
      XorSwap(c, d, Shift(a, 1), Shift(b, 1));
      XorLaws(p, p);
      XorLaws({}, {});
      assert Xor(c, d) == if q[0] != r[0] then p else {};
    }
  }

  lemma TimesShift(q: seq<bool>, p: Poly)
    ensures Times([false] + q, p) == Shift(Times(q, p), 1)
  {
    hide Xor, Shift;
    assert ([false] + q)[1..] == q;
    XorLaws(Shift(Times(q, p), 1), {});
  }

  lemma TimesOne(p: Poly)
    ensures Times([true], p) == p
  {
    hide Xor, Shift;
    assert [true][1..] == [];
    ShiftShift({}, 1, 1);
    XorLaws(p, p);
  }

  lemma CongRefl(p: Poly, a: Poly)
    ensures Cong(p, a, a)
  {
    hide Xor, Shift;
    XorLaws(a, a);
    assert Xor(a, a) == Times([], p);
  }

  lemma CongXor(p: Poly, a: Poly, b: Poly, c: Poly, d: Poly)
    requires Cong(p, a, b) && Cong(p, c, d)
    ensures Cong(p, Xor(a, c), Xor(b, d))
  {
    hide Xor, Times;
    var q :| Xor(a, b) == Times(q, p);
    var r :| Xor(c, d) == Times(r, p);
    TimesXor(q, r, p);
    XorSwap(a, b, c, d);
    assert Xor(Xor(a, c), Xor(b, d)) == Times(XorSeq(q, r), p);
  }

  lemma CongTrans(p: Poly, a: Poly, b: Poly, c: Poly)
    requires Cong(p, a, b) && Cong(p, b, c)
    ensures Cong(p, a, c)
  {
    hide Xor, Times;
    var q :| Xor(a, b) == Times(q, p);
    var r :| Xor(b, c) == Times(r, p);
    TimesXor(q, r, p);
    XorChain(a, b, c);
    assert Xor(a, c) == Times(XorSeq(q, r), p);
  }

  lemma CongSym(p: Poly, a: Poly, b: Poly)
    requires Cong(p, a, b)
    ensures Cong(p, b, a)
  {
    hide Xor, Times;
    XorLaws(a, b);
    var q :| Xor(a, b) == Times(q, p);
    assert Xor(b, a) == Times(q, p);
  }

  lemma {:induction false} CongShift(p: Poly, a: Poly, b: Poly, n: nat)
    requires Cong(p, a, b)
    ensures Cong(p, Shift(a, n), Shift(b, n))
    decreases n
  {
    hide Xor, Shift, Times;
    ShiftShift(a, n - 1, 1);
    ShiftShift(b, n - 1, 1);
    if n > 0 {
      CongShift(p, a, b, n - 1);
      var c, d := Shift(a, n - 1), Shift(b, n - 1);
      var q :| Xor(c, d) == Times(q, p);
      TimesShift(q, p);
      ShiftXor(c, d, 1);
      assert Xor(Shift(c, 1), Shift(d, 1)) == Times([false] + q, p);
    }
  }

  /** Adding a shifted copy of p changes nothing modulo p. */
  lemma CongAddP(p: Poly, a: Poly, n: nat)
    ensures Cong(p, a, Xor(a, Shift(p, n)))
  {
    hide Xor, Shift, Times, Cong;
    CongP(p);
    CongShift(p, {}, p, n);
    ShiftShift({}, n, 0);
    CongRefl(p, a);
    CongXor(p, a, a, {}, Shift(p, n));
    XorLaws(a, a);
  }

  lemma CongP(p: Poly)
    ensures Cong(p, {}, p)
  {
    hide Xor, Shift, Times;
    TimesOne(p);
    XorLaws({}, p);
    XorLaws(p, {});
    assert Xor({}, p) == Times([true], p);
  }

  // ----- remainders ----------------------------------------------------------------------

  /** r is the remainder of a modulo p, of degree k. */
  ghost predicate Remainder(p: Poly, k: nat, a: Poly, r: Poly) {
    Below(r, k) && Cong(p, a, r)
  }

  ghost predicate HasHigh(a: Poly, k: int) {
    exists x :: x in a && x >= k
  }

  /** A multiple of p that is not zero has degree at least that of p. */
  lemma {:induction false} TimesDegree(q: seq<bool>, p: Poly, k: nat)
    requires Degree(p, k)
    ensures Times(q, p) == {} || HasHigh(Times(q, p), k)
  {
    hide Xor, Shift;
    if q != [] {
      TimesDegree(q[1..], p, k);
      var t := Times(q[1..], p);
      ShiftShift({}, 1, 0);
      XorLaws(p, {});
      XorLaws({}, {});
      if t == {} {
        assert k in p;
      } else {
        var x :| x in t && x >= k;
        InShift(t, 1, x + 1);
        InXor(if q[0] then p else {}, Shift(t, 1), x + 1);
        assert x + 1 in Times(q, p);
      }
    }
  }

  /** There is only one remainder. */
  lemma RemainderUnique(p: Poly, k: nat, a: Poly, r: Poly, s: Poly)
    requires Degree(p, k) && Remainder(p, k, a, r) && Remainder(p, k, a, s)
    ensures r == s
  {
    hide Xor, Times, Degree;
    CongSym(p, a, r);
    CongTrans(p, r, a, s);
    var q :| Xor(r, s) == Times(q, p);
    TimesDegree(q, p, k);
    BelowXor(r, s, k);
    assert !HasHigh(Xor(r, s), k);
    XorLaws(r, s);
  }

  // ----- products ------------------------------------------------------------------------

  /** The product of x and y, of x only the terms below n. */
  ghost function Product(x: Poly, y: Poly, n: nat): Poly {
    if n == 0 then {}
    else Xor(Product(x, y, n - 1), if n - 1 in x then Shift(y, n - 1) else {})
  }

  /** Multiplying congruent polynomials gives congruent products. */
  lemma {:induction false} CongProduct(p: Poly, x: Poly, y: Poly, z: Poly, n: nat)
    requires Cong(p, y, z)
    ensures Cong(p, Product(x, y, n), Product(x, z, n))
  {
    hide Xor, Shift, Cong;
    CongRefl(p, {});
    if n > 0 {
      CongProduct(p, x, y, z, n - 1);
      CongShift(p, y, z, n - 1);
      var b := n - 1 in x;
      var y', z' := if b then Shift(y, n - 1) else {}, if b then Shift(z, n - 1) else {};
      CongXor(p, Product(x, y, n - 1), Product(x, z, n - 1), y', z');
    }
  }

  function Trunc(x: Poly, n: int): Poly {
    set i | i in x && 0 <= i < n
  }

  /** Multiplying by x^m is a shift. */
  lemma {:induction false} ProductPower(x: Poly, m: nat, n: nat)
    ensures Product(x, {m}, n) == Shift(Trunc(x, n), m)
  {
    if n == 0 {
      ShiftShift({}, m, 0);
    } else {
      ProductPower(x, m, n - 1);
      var a, b := Trunc(x, n - 1), if n - 1 in x then {n - 1} else {};
      assert Trunc(x, n) == Xor(a, b);
      ShiftXor(a, b, m);
      assert Shift({n - 1}, m) == {n - 1 + m} == Shift({m}, n - 1);
      ShiftShift({}, m, 0);
    }
  }
}
