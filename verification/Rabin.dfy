/**
 Rabin fingerprints as src/chunking/rabin_chunking.c computes them: 64-bit words, two tables of 256
 entries and a ring buffer of 48 bytes.  A word is the set of its one bits, so that xor is
 addition over GF(2); shifts drop the bits that leave the word.
 */
module Rabin {
  import opened Common
  import opened Gf2

  type Word = a: set<int> | Below(a, 64) ghost witness {}
  type Byte = a: set<int> | Below(a, 8) ghost witness {}

  const WINDOW := 48

  function Shl(a: Word, n: nat): Word {
    set x | x in a && x + n < 64 :: x + n
  }

  function Shr(a: Word, n: nat): Word {
    set x | x in a && x >= n :: x - n
  }

  lemma InShl(a: Word, n: nat, x: int)
    ensures x in Shl(a, n) <==> x < 64 && x - n in a
  {
    if x - n in a && x < 64 { assert (x - n) + n in Shl(a, n); }
  }

  lemma InShr(a: Word, n: nat, x: int)
    ensures x in Shr(a, n) <==> 0 <= x && x + n in a
  {
    if 0 <= x && x + n in a { assert (x + n) - n in Shr(a, n); }
  }

  function XorW(a: Word, b: Word): Word {
    Xor(a, b)
  }

  /** The 128-bit value of a pair of words. */
  ghost function Join(h: Word, l: Word): Poly {
    l + Shift(h, 64)
  }

  lemma InJoin(h: Word, l: Word, x: int)
    ensures x in Join(h, l) <==> x in l || x - 64 in h
  {
    InShift(h, 64, x);
  }

  // ----- multiplication ------------------------------------------------------------------

  /** The two halves of y times x^i, for 0 < i < 64, as polymult adds them. */
  lemma JoinShift(h: Word, l: Word, y: Word, i: nat)
    requires 0 < i < 64
    ensures Join(XorW(h, Shr(y, 64 - i)), XorW(l, Shl(y, i))) == Xor(Join(h, l), Shift(y, i))
  {
    forall x
      ensures x in Join(XorW(h, Shr(y, 64 - i)), XorW(l, Shl(y, i))) <==> x in Xor(Join(h, l), Shift(y, i))
    {
      InJoin(XorW(h, Shr(y, 64 - i)), XorW(l, Shl(y, i)), x);
      InJoin(h, l, x);
      InShift(y, i, x);
      InXor(Join(h, l), Shift(y, i), x);
      InShr(y, 64 - i, x - 64);
      InShl(y, i, x);
    }
  }

  /** polymult: the full product, in two words. */
  method PolyMult(x: Word, y: Word) returns (ph: Word, pl: Word)
    ensures Join(ph, pl) == Product(x, y, 64)
  {
    ph, pl := {}, {};
    ShiftShift({}, 64, 0);
    if 0 in x {
      pl := y;
    }
    ProductFirst(x, y);
    for i := 1 to 64
      invariant Join(ph, pl) == Product(x, y, i)
    {
      hide Join, Xor, Shl, Shr, XorW;
      XorLaws(Product(x, y, i), {});
      if i in x {
        JoinShift(ph, pl, y, i);
        ph := XorW(ph, Shr(y, 64 - i));
        pl := XorW(pl, Shl(y, i));
      }
    }
  }

  lemma ProductFirst(x: Poly, y: Poly)
    ensures Product(x, y, 1) == if 0 in x then y else {}
  {
    ShiftShift(y, 0, 0);
    XorLaws({}, y);
    XorLaws({}, {});
    assert Product(x, y, 0) == {};
  }

  // ----- reduction -----------------------------------------------------------------------

  /** fls64(d) - 1: the degree. */
  function Top(d: Word): (k: nat)
    requires d != {}
    ensures Degree(d, k) && k < 64
  {
    TopFrom(d, 63)
  }

  function TopFrom(d: Word, i: nat): (k: nat)
    requires d != {} && i < 64 && Below(d, i + 1)
    ensures Degree(d, k) && k <= i
  {
    if i in d then i else
      BelowBit(d, i);
      EmptyBelow(d);
      TopFrom(d, i - 1)
  }

  lemma EmptyBelow(a: Poly)
    ensures Below(a, 0) ==> a == {}
  {
    if a != {} {
      var x: int := SomeElement(a);
      assert Below(a, 0) ==> 0 <= x < 0;
    }
  }

  /** A top bit that is not set is not counted. */
  lemma BelowBit(a: Poly, i: int)
    requires Below(a, i + 1)
    ensures i !in a ==> Below(a, i)
  {}

  /** Adding the divisor, shifted up to bit 64 + i, to a pair of words. */
  lemma JoinDivisor(h: Word, l: Word, d: Word, k: nat, i: int)
    requires k < 64 && Degree(d, k) && -1 <= i <= 63
    ensures var e := Shl(d, 63 - k);
            Join(XorW(h, Shr(e, 63 - i)), XorW(l, Shl(e, i + 1))) == Xor(Join(h, l), Shift(d, 64 + i - k))
  {
    var e := Shl(d, 63 - k);
    var h', l' := XorW(h, Shr(e, 63 - i)), XorW(l, Shl(e, i + 1));
    forall x ensures x in Join(h', l') <==> x in Xor(Join(h, l), Shift(d, 64 + i - k)) {
      InJoin(h', l', x);
      InJoin(h, l, x);
      InShift(d, 64 + i - k, x);
      InXor(Join(h, l), Shift(d, 64 + i - k), x);
      InShl(e, i + 1, x);
      InShr(e, 63 - i, x - 64);
      InShl(d, 63 - k, x - (i + 1));
    }
  }

  /** Adding the divisor to the low word, its top at bit i. */
  lemma LowDivisor(l: Word, d: Word, k: nat, i: nat)
    requires k <= i < 64 && Degree(d, k)
    ensures XorW(l, Shr(Shl(d, 63 - k), 63 - i)) == Xor(l, Shift(d, i - k))
  {
    var e := Shl(d, 63 - k);
    var a, b := XorW(l, Shr(e, 63 - i)), Xor(l, Shift(d, i - k));
    forall x ensures x in a <==> x in b {
      InShift(d, i - k, x);
      InXor(l, Shift(d, i - k), x);
      InXor(l, Shr(e, 63 - i), x);
      InShr(e, 63 - i, x);
      InShl(d, 63 - k, x + (63 - i));
    }
  }

  /** polymod: the remainder of a 128-bit polynomial. */
  method PolyMod(nh0: Word, nl0: Word, d: Word) returns (r: Word)
    requires d != {}
    ensures Remainder(d, Top(d), Join(nh0, nl0), r)
  {
    var k := Top(d);
    var e := Shl(d, 63 - k);
    var nh, nl := nh0, nl0;
    ghost var n := Join(nh0, nl0);
    CongRefl(d, n);
    if nh != {} {
      nh, nl := ReduceHigh(nh, nl, d, e, n);
    }
    ShiftShift({}, 64, 0);
    assert Join({}, nl) == nl;
    for j := 0 to 64 - k
      invariant Cong(d, n, nl) && Below(nl, 64 - j)
    {
      hide Cong, Xor, Shift, XorW;
      var i := 63 - j;
      if i in nl {
        CongAddP(d, nl, i - k);
        CongTrans(d, n, nl, Xor(nl, Shift(d, i - k)));
        LowDivisor(nl, d, k, i);
        LowTop(nl, d, k, i);
        nl := XorW(nl, Shr(e, 63 - i));
      }
    }
    r := nl;
  }

  /** Clearing bit i with the divisor leaves only lower bits. */
  lemma LowTop(l: Word, d: Poly, k: nat, i: nat)
    requires k <= i && Degree(d, k) && Below(l, i + 1) && i in l
    ensures Below(Xor(l, Shift(d, i - k)), i)
  {
    var r := Xor(l, Shift(d, i - k));
    forall x | x in r ensures 0 <= x < i {
      InShift(d, i - k, x);
      InShift(d, i - k, i);
      InXor(l, Shift(d, i - k), x);
      InXor(l, Shift(d, i - k), i);
    }
  }

  /** The first part of polymod: clear the high word, bit by bit from the top. */
  method ReduceHigh(nh0: Word, nl0: Word, d: Word, e: Word, ghost n: Poly) returns (nh: Word, nl: Word)
    requires d != {} && e == Shl(d, 63 - Top(d)) && Cong(d, n, Join(nh0, nl0))
    ensures nh == {} && Cong(d, n, Join(nh, nl))
  {
    ghost var k := Top(d);
    nh, nl := nh0, nl0;
    for j := 0 to 64
      invariant Cong(d, n, Join(nh, nl)) && Below(nh, 64 - j)
    {
      hide Cong, Join, Xor, XorW, Shift, Shl, Shr, Degree;
      var i := 63 - j;
      if i in nh {
        HighStep(nh, nl, d, k, i, n);
        nh, nl := XorW(nh, Shr(e, 63 - i)), XorW(nl, Shl(e, i + 1));
      } else {
        BelowBit(nh, i);
      }
    }
    assert Below(nh, 0);
    EmptyBelow(nh);
  }

  lemma HighStep(nh: Word, nl: Word, d: Word, k: nat, i: nat, n: Poly)
    requires k < 64 && Degree(d, k) && i < 64 && Below(nh, i + 1) && i in nh && Cong(d, n, Join(nh, nl))
    ensures var e := Shl(d, 63 - k);
            Cong(d, n, Join(XorW(nh, Shr(e, 63 - i)), XorW(nl, Shl(e, i + 1)))) && Below(XorW(nh, Shr(e, 63 - i)), i)
  {
    hide Cong, Join, Xor, XorW, Shift, Shl, Shr, Degree;
    CongAddP(d, Join(nh, nl), 64 + i - k);
    CongTrans(d, n, Join(nh, nl), Xor(Join(nh, nl), Shift(d, 64 + i - k)));
    JoinDivisor(nh, nl, d, k, i);
    HighTop(nh, d, k, i);
  }

  lemma HighTop(h: Word, d: Word, k: nat, i: nat)
    requires k < 64 && Degree(d, k) && i < 64 && Below(h, i + 1) && i in h
    ensures Below(XorW(h, Shr(Shl(d, 63 - k), 63 - i)), i)
  {
    var e := Shl(d, 63 - k);
    var a := XorW(h, Shr(e, 63 - i));
    InShl(d, 63 - k, 63);
    InShr(e, 63 - i, i);
    forall x | x in a ensures 0 <= x < i {
      InXor(h, Shr(e, 63 - i), x);
      InShr(e, 63 - i, x);
      InShl(d, 63 - k, x + (63 - i));
    }
  }

  /** polymmult. */
  method PolyMMult(x: Word, y: Word, d: Word) returns (r: Word)
    requires d != {}
    ensures Remainder(d, Top(d), Product(x, y, 64), r)
  {
    var h, l := PolyMult(x, y);
    r := PolyMod(h, l, d);
  }

  // ----- bytes as table indices ----------------------------------------------------------

  function Pow2(n: nat): (r: nat)
    ensures r >= 1
  {
    if n == 0 then 1 else 2 * Pow2(n - 1)
  }

  /** The n low bits of a number, as a set. */
  function Bits(v: nat, n: nat): (a: Poly)
    requires v < Pow2(n)
    ensures Below(a, n)
  {
    if n == 0 then {}
    else if v >= Pow2(n - 1) then {n - 1} + Bits(v - Pow2(n - 1), n - 1)
    else Bits(v, n - 1)
  }

  function Value(a: Poly, n: nat): (v: nat)
    ensures v < Pow2(n)
  {
    if n == 0 then 0 else Value(a, n - 1) + if n - 1 in a then Pow2(n - 1) else 0
  }

  lemma {:induction false} BitsOfValue(a: Poly, n: nat)
    ensures Bits(Value(a, n), n) == Trunc(a, n)
  {
    if n > 0 {
      BitsOfValue(a, n - 1);
    }
  }

  /** Every byte is met when an index runs from 0 to 255. */
  lemma ByteIndex(j: Byte) returns (v: nat)
    ensures v == Value(j, 8) && v < 256 && Bits(v, 8) == j
  {
    v := Value(j, 8);
    BitsOfValue(j, 8);
    assert Pow2(8) == 256;
    assert Trunc(j, 8) == j;
  }

  lemma Pow2Of8()
    ensures Pow2(8) == 256
  {}

  // ----- the two tables ------------------------------------------------------------------

  /** What T holds for j: j x^k reduced, and the bits of j x^k that fit, so that they cancel. */
  ghost predicate TEntry(p: Word, k: nat, j: Byte, w: Word) {
    Remainder(p, k, Shift(j, k), Trunc(w, k)) && w == Trunc(w, k) + Shl(j, k)
  }

  /** What U holds for j: the contribution of the oldest byte of a full window. */
  ghost predicate UEntry(p: Word, k: nat, j: Byte, w: Word) {
    Remainder(p, k, Shift(j, 8 * (WINDOW - 1)), w)
  }

  /** append8, with t the entry T[p >> shift]. */
  function Append8(p: Word, m: Byte, t: Word): Word {
    XorW(Shl(p, 8) + m, t)
  }

  /** append8 is a multiplication by x^8 and an addition, modulo the polynomial. */
  lemma AppendIs(p: Word, k: nat, a: Poly, r: Word, m: Byte, t: Word)
    requires 8 <= k < 64 && Degree(p, k) && Remainder(p, k, a, r)
    requires TEntry(p, k, Shr(r, k - 8), t)
    ensures Remainder(p, k, Xor(Shift(a, 8), m), Append8(r, m, t))
  {
    hide Cong, Degree;
    AppendSplits(k, r, m, t);
    AppendCong(p, a, r, m, Shift(Shr(r, k - 8), k), Trunc(t, k));
  }

  /** Modulo p, the bits of r x^8 above the degree can be traded for their remainder. */
  lemma AppendCong(p: Word, a: Poly, r: Poly, m: Poly, high: Poly, s: Poly)
    requires Cong(p, a, r) && Cong(p, high, s)
    ensures Cong(p, Xor(Shift(a, 8), m), Xor(Xor(Shift(r, 8), m), Xor(high, s)))
  {
    hide Cong, Shift, Xor;
    CongShift(p, a, r, 8);
    CongRefl(p, m);
    CongXor(p, Shift(a, 8), Shift(r, 8), m, m);
    CongRefl(p, high);
    CongXor(p, high, high, high, s);
    XorLaws(high, high);
    CongXor(p, Xor(Shift(a, 8), m), Xor(Shift(r, 8), m), {}, Xor(high, s));
    XorLaws(Xor(Shift(a, 8), m), {});
  }

  /** Bit by bit, what append8 computes; the high bits of r x^8 cancel. */
  lemma AppendSplits(k: nat, r: Word, m: Byte, t: Word)
    requires 8 <= k < 64 && Below(r, k) && t == Trunc(t, k) + Shl(Shr(r, k - 8), k)
    ensures var high := Shift(Shr(r, k - 8), k);
            Append8(r, m, t) == Xor(Xor(Shift(r, 8), m), Xor(high, Trunc(t, k)))
    ensures Below(Append8(r, m, t), k)
  {
    var j := Shr(r, k - 8);
    var high, s := Shift(j, k), Trunc(t, k);
    var b := Xor(Xor(Shift(r, 8), m), Xor(high, s));
    forall x
      ensures x in Append8(r, m, t) <==> x in b
      ensures x in b ==> 0 <= x < k
    {
      InXor(Shl(r, 8) + m, t, x);
      InXor(Xor(Shift(r, 8), m), Xor(high, s), x);
      InXor(Shift(r, 8), m, x);
      InXor(high, s, x);
      InShift(r, 8, x);
      InShift(j, k, x);
      InShl(r, 8, x);
      InShl(j, k, x);
      InShr(r, k - 8, x - k);
    }
  }

  /** One row of calcT: j times the remainder of x^k is congruent to j x^k. */
  lemma TRow(p: Word, k: nat, j: Byte, t1: Word, w: Word)
    requires 8 <= k < 64 && Degree(p, k) && Remainder(p, k, {k}, t1) && Remainder(p, k, Product(j, t1, 64), w)
    ensures TEntry(p, k, j, w + Shl(j, k))
  {
    ProductRemainder(p, k, j, k, t1, w);
    forall x ensures x in Trunc(w + Shl(j, k), k) <==> x in w { InShl(j, k, x); }
    assert Trunc(w + Shl(j, k), k) == w;
  }

  /** Multiplying by the remainder of x^m is, after reduction, multiplying by x^m. */
  lemma ProductRemainder(p: Word, k: nat, j: Byte, m: nat, s: Word, w: Word)
    requires Remainder(p, k, {m}, s) && Remainder(p, k, Product(j, s, 64), w)
    ensures Remainder(p, k, Shift(j, m), w)
  {
    hide Cong, Shift, Product;
    CongProduct(p, j, {m}, s, 64);
    CongTrans(p, Product(j, {m}, 64), Product(j, s, 64), w);
    ProductPower(j, m, 64);
    assert Trunc(j, 64) == j;
  }

  /** The tables of one polynomial: the globals T, U, shift and poly. */
  class Tables {
    const poly: Word
    const T: array<Word>
    const U: array<Word>
    var shift: nat

    ghost predicate Usable() {
      poly != {} && 8 <= Top(poly) && T.Length == 256 && U.Length == 256 && T != U
    }

    ghost predicate TDone()
      reads this, T
    {
      Usable() && shift == Top(poly) - 8 &&
      forall v :: 0 <= v < 256 ==> TEntry(poly, Top(poly), Bits8(v), T[v])
    }

    ghost predicate UDone()
      reads U
    {
      Usable() && forall v :: 0 <= v < 256 ==> UEntry(poly, Top(poly), Bits8(v), U[v])
    }

    /** calcT. */
    method CalcT()
      requires Usable()
      modifies this, T
      ensures TDone()
    {
      var k := Top(poly);
      shift := k - 8;
      var t1 := PolyMod({}, {k}, poly);
      ShiftShift({}, 64, 0);
      assert Join({}, {k}) == {k};
      for v := 0 to 256
        invariant shift == k - 8
        invariant forall u :: 0 <= u < v ==> TEntry(poly, k, Bits8(u), T[u])
      {
        hide TEntry, Remainder, Product, Shl, Degree;
        var j := Bits8(v);
        var w := PolyMMult(j, t1, poly);
        TRow(poly, k, j, t1, w);
        T[v] := w + Shl(j, k);
      }
    }

    /** append8 on a remainder gives the remainder of the longer polynomial. */
    method Append(r: Word, m: Byte, ghost a: Poly) returns (q: Word)
      requires TDone() && Remainder(poly, Top(poly), a, r)
      ensures Remainder(poly, Top(poly), Xor(Shift(a, 8), m), q)
    {
      var j := HighByte(r, shift);
      var v := Value(j, 8);
      ghost var u := ByteIndex(j);
      q := Append8(r, m, T[v]);
      AppendIs(poly, Top(poly), a, r, m, T[v]);
    }

    /** window_init: both tables. */
    constructor (p: Word)
      requires p != {} && 8 <= Top(p)
      ensures TDone() && UDone() && poly == p && fresh(T) && fresh(U)
    {
      poly := p;
      T := new Word[256](i => {});
      U := new Word[256](i => {});
      new;
      CalcT();
      var k := Top(poly);
      var sizeshift: Word := {0};
      CongRefl(poly, {0});
      for i := 1 to WINDOW
        invariant TDone() && Remainder(poly, k, {8 * (i - 1)}, sizeshift)
      {
        hide Remainder;
        sizeshift := Append(sizeshift, {}, {8 * (i - 1)});
        XorLaws(Shift({8 * (i - 1)}, 8), {});
        assert Shift({8 * (i - 1)}, 8) == {8 * i};
      }
      FillU(sizeshift);
    }

    method FillU(sizeshift: Word)
      requires Usable() && Remainder(poly, Top(poly), {8 * (WINDOW - 1)}, sizeshift)
      modifies U
      ensures UDone()
    {
      for v := 0 to 256
        invariant forall u :: 0 <= u < v ==> UEntry(poly, Top(poly), Bits8(u), U[u])
      {
        hide Remainder, Product;
        var j := Bits8(v);
        U[v] := PolyMMult(j, sizeshift, poly);
        ProductRemainder(poly, Top(poly), j, 8 * (WINDOW - 1), sizeshift, U[v]);
      }
    }
  }

  function Bits8(v: int): Byte
    requires 0 <= v < 256
  {
    Pow2Of8();
    Bits(v, 8)
  }

  function HighByte(r: Word, shift: nat): Byte
    requires Below(r, shift + 8)
  {
    Shr(r, shift)
  }

  // ----- the sliding window --------------------------------------------------------------

  /** The polynomial a string of bytes stands for, its first byte highest. */
  ghost function PolyOf(s: seq<Byte>): Poly {
    if s == [] then {} else Xor(Shift(PolyOf(s[..|s| - 1]), 8), s[|s| - 1])
  }

  /** Dropping the first byte takes its term away. */
  lemma {:induction false} PolyOfTail(s: seq<Byte>)
    requires s != []
    ensures PolyOf(s[1..]) == Xor(PolyOf(s), Shift(s[0], 8 * (|s| - 1)))
  {
    hide Xor, Shift;
    var n := |s| - 1;
    ShiftShift(s[0], 0, 8);
    ShiftShift({}, 8, 0);
    XorLaws(s[0], {});
    XorLaws({}, s[0]);
    if n == 0 {
      assert s[..0] == [] && s[1..] == [];
    } else {
      var a, b, h := PolyOf(s[..n]), PolyOf(s[1..n]), Shift(s[0], 8 * (n - 1));
      PolyOfTail(s[..n]);
      assert s[..n][1..] == s[1..n] && s[1..][..n - 1] == s[1..n];
      ShiftXor(a, h, 8);
      ShiftShift(s[0], 8 * (n - 1), 8);
      XorSwap(Shift(a, 8), s[n], Shift(h, 8), {});
      XorLaws(s[n], {});
      XorLaws(Shift(h, 8), {});
    }
  }

  /** The remainder of a modulo p; a polynomial of degree 8 or more has one for every a. */
  ghost function Residue(p: Poly, k: nat, a: Poly): Poly {
    if exists r :: Remainder(p, k, a, r) then var r :| Remainder(p, k, a, r); r else {}
  }

  lemma ResidueIs(p: Poly, k: nat, a: Poly, r: Poly)
    requires Degree(p, k) && Remainder(p, k, a, r)
    ensures Residue(p, k, a) == r
  {
    RemainderUnique(p, k, a, r, Residue(p, k, a));
  }

  /** FINGERPRINT_PT, the polynomial destor uses: 0xbfe6b8a5bf378d83. */
  const FINGERPRINT_PT: Word := {
    0, 1, 7, 8, 10, 11, 15, 16, 17, 18, 20, 21, 24, 25, 26, 27, 28, 29, 31, 32, 34, 37, 39,
    43, 44, 45, 47, 49, 50, 53, 54, 55, 56, 57, 58, 59, 60, 61, 63}

  lemma PtDegree()
    ensures FINGERPRINT_PT != {} && Top(FINGERPRINT_PT) == 63
  {
    assert 63 in FINGERPRINT_PT;
  }

  /** BREAKMARK_VALUE, 0x78. */
  const BREAKMARK: Poly := {3, 4, 5, 6}

  /** The cut test, as a property of the last 48 bytes alone. */
  ghost predicate Marked(p: Word, window: seq<Byte>, mask: Poly)
    requires p != {}
  {
    Residue(p, Top(p), PolyOf(window)) * mask == BREAKMARK
  }

  lemma {:induction false} PolyOfZeros(n: nat)
    ensures PolyOf(Zeros(n)) == {}
  {
    if n > 0 {
      assert Zeros(n)[..n - 1] == Zeros(n - 1);
      PolyOfZeros(n - 1);
      ShiftShift({}, 8, 0);
    }
  }

  function Zeros(n: nat): (s: seq<Byte>)
    ensures |s| == n
  {
    seq(n, i => {})
  }

  /** The window of the cutters: a fingerprint, a ring buffer and a position in it. */
  class Window {
    const tables: Tables
    const buf: array<Byte>
    var fp: Word
    var bufPos: int

    ghost predicate Valid()
      reads this, buf, tables, tables.T, tables.U
    {
      tables.TDone() && tables.UDone() && buf.Length == 128 && -1 <= bufPos < WINDOW &&
      Remainder(tables.poly, Top(tables.poly), PolyOf(Contents()), fp)
    }

    /** The last 48 bytes, oldest first. */
    ghost function Contents(): (s: seq<Byte>)
      requires buf.Length == 128 && -1 <= bufPos < WINDOW
      reads this, buf
      ensures |s| == WINDOW
    {
      buf[bufPos + 1..WINDOW] + buf[..bufPos + 1]
    }

    constructor (t: Tables)
      requires t.TDone() && t.UDone()
      ensures Valid() && tables == t && fresh(buf) && Contents() == Zeros(WINDOW)
    {
      tables := t;
      buf := new Byte[128](i => {});
      fp := {};
      bufPos := -1;
      new;
      assert Contents() == Zeros(WINDOW);
      PolyOfZeros(WINDOW);
      CongRefl(t.poly, {});
    }

    /** Put a byte in the place of the oldest. */
    method Replace(m: Byte) returns (om: Byte)
      requires buf.Length == 128 && -1 <= bufPos < WINDOW
      modifies this`bufPos, buf
      ensures -1 <= bufPos < WINDOW && om == old(Contents())[0] && Contents() == old(Contents())[1..] + [m]
    {
      ghost var before := Contents();
      bufPos := bufPos + 1;
      if bufPos >= WINDOW {
        bufPos := 0;
      }
      om := buf[bufPos];
      buf[bufPos] := m;
      assert Contents() == before[1..] + [m];
    }

    /** SLIDE: one byte in, the oldest out. */
    method Slide(m: Byte)
      requires Valid()
      modifies this, buf
      ensures Valid() && Contents() == old(Contents())[1..] + [m]
    {
      hide TEntry, Cong, XorW, Xor, Shift, Top, Bits, Value;
      ghost var before := Contents();
      var om := Replace(m);
      ghost var u := ByteIndex(om);
      var p, k := tables.poly, Top(tables.poly);
      var x := XorW(fp, tables.U[Value(om, 8)]);
      DropIs(p, k, before, fp, tables.U[Value(om, 8)]);
      fp := tables.Append(x, m, PolyOf(before[1..]));
      assert (before[1..] + [m])[..WINDOW - 1] == before[1..];
    }

    /** The cut test sees the last 48 bytes and nothing else. */
    method Hit(mask: Poly) returns (hit: bool)
      requires Valid()
      ensures hit <==> Marked(tables.poly, Contents(), mask)
    {
      ResidueIs(tables.poly, Top(tables.poly), PolyOf(Contents()), fp);
      hit := fp * mask == BREAKMARK;
    }
  }

  /** Adding the U entry of the oldest byte removes that byte from a full window. */
  lemma DropIs(p: Word, k: nat, w: seq<Byte>, r: Word, u: Word)
    requires |w| == WINDOW && Remainder(p, k, PolyOf(w), r) && UEntry(p, k, w[0], u)
    ensures Remainder(p, k, PolyOf(w[1..]), XorW(r, u))
  {
    hide Cong;
    PolyOfTail(w);
    CongXor(p, PolyOf(w), r, Shift(w[0], 8 * (WINDOW - 1)), u);
  }

  /** chunkAlg_init: the tables of destor's own polynomial. */
  method ChunkAlgInit() returns (t: Tables)
    ensures fresh(t) && fresh(t.T) && fresh(t.U) && t.TDone() && t.UDone()
    ensures t.poly == FINGERPRINT_PT && t.shift == 55
  {
    PtDegree();
    t := new Tables(FINGERPRINT_PT);
  }

  /** With destor's polynomial, a window is marked exactly when its remainder, cut to the mask, is 0x78. */
  lemma PtMarked(window: seq<Byte>, mask: Poly, r: Poly)
    requires FINGERPRINT_PT != {} && Remainder(FINGERPRINT_PT, 63, PolyOf(window), r)
    ensures Marked(FINGERPRINT_PT, window, mask) <==> r * mask == BREAKMARK
  {
    PtDegree();
    ResidueIs(FINGERPRINT_PT, 63, PolyOf(window), r);
  }
}
