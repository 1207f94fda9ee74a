/**
 Cutting a file into chunks: the cutters of src/chunking/rabin_chunking.c and
 src/chunking/fascdc_chunking.c, and the buffer loop of src/chunk_phase.c that feeds them.
 */
module Chunking {
  import opened Common
  import opened Gf2
  import opened Rabin

  type Bytes = seq<Byte>

  /** Which cutter is used; for FastCDC the gear matrix and the two masks are parameters. */
  datatype Algorithm =
    | Fixed
    | RabinBased
    | Normalized
    | Tttd
    | FastCdc(gear: Byte -> nat, maskS: Poly, maskL: Poly)

  datatype Sizes = Sizes(algorithm: Algorithm, min: nat, avg: nat, max: nat) {
    /** What start_chunk_phase asserts, and min >= 1; FastCDC's min <= max is not asserted there. */
    predicate Sound() {
      match algorithm
      case Fixed => 1 <= avg == max
      case FastCdc(_, _, _) => 1 <= min <= max && avg <= max
      case _ => 1 <= min <= avg <= max
    }

    /** No chunk but the last of a file is shorter. */
    function Least(): nat {
      if algorithm.Fixed? then avg else min
    }
  }

  // ----- where a cutter cuts -------------------------------------------------------------

  /** The 48 bytes the Rabin window holds at position i: it is fed from byte min - 1 on. */
  ghost function WindowAt(s: Bytes, min: nat, i: nat): (w: Bytes)
    requires 1 <= min <= i + 1 && i <= |s|
    ensures |w| == WINDOW
  {
    var fed := Zeros(WINDOW) + s[min - 1..i];
    fed[|fed| - WINDOW..]
  }

  /** The 64 bits of a number, in two's complement. */
  function Bits64(v: int): Poly {
    Pow2Of64();
    Bits(v % TWO_TO_64, 64)
  }

  const TWO_TO_64 := 0x1_0000_0000_0000_0000

  lemma Pow2Of64()
    ensures Pow2(64) == TWO_TO_64
  {
    hide Pow2;
    Pow2Of8();
    Pow2Add(8, 8);
    Pow2Add(16, 16);
    Pow2Add(32, 32);
  }

  lemma {:induction false} Pow2Add(n: nat, m: nat)
    ensures Pow2(n + m) == Pow2(n) * Pow2(m)
  {
    if m > 0 {
      Pow2Add(n, m - 1);
    }
  }

  /** The FastCDC fingerprint after byte i, started at byte min, before it is cut to 64 bits. */
  function Gear(gear: Byte -> nat, s: Bytes, min: nat, i: nat): nat
    requires i < |s|
  {
    if i <= min then gear(s[i]) else 2 * Gear(gear, s, min, i - 1) + gear(s[i])
  }

  /** The cut test at position i. */
  ghost predicate Cuts(c: Sizes, p: Word, s: Bytes, i: nat)
    requires p != {} && 1 <= c.min <= i < |s|
  {
    match c.algorithm
    case Fixed => i >= c.avg
    case RabinBased => Marked(p, WindowAt(s, c.min, i), Bits64(c.avg - 1))
    case Normalized =>
      Marked(p, WindowAt(s, c.min, i), Bits64(if i < c.avg then c.avg * 2 - 1 else c.avg / 2 - 1))
    case Tttd =>
      Backup(c, p, s, i) && Marked(p, WindowAt(s, c.min, i), Bits64(c.avg - 1))
    case FastCdc(gear, maskS, maskL) =>
      Bits64(Gear(gear, s, c.min, i)) !! (if i < c.avg then maskS else maskL)
  }

  /** TTTD's second, weaker test. */
  ghost predicate Backup(c: Sizes, p: Word, s: Bytes, i: nat)
    requires p != {} && 1 <= c.min <= i < |s|
  {
    Marked(p, WindowAt(s, c.min, i), Bits64(c.avg / 2 - 1))
  }

  /** The first position from i that cuts, else where the scan stops. */
  ghost function FirstCut(c: Sizes, p: Word, s: Bytes, i: nat, end: nat): (n: nat)
    requires p != {} && 1 <= c.min <= i && end <= |s|
    ensures i <= n && (i <= end ==> n <= end)
    decreases end - i
  {
    if i >= end || Cuts(c, p, s, i) then i else FirstCut(c, p, s, i + 1, end)
  }

  /** The last position before i that passes the weaker test, or 0. */
  ghost function LastBackup(c: Sizes, p: Word, s: Bytes, i: nat): (m: nat)
    requires p != {} && 1 <= c.min <= i <= |s|
    ensures m == 0 || c.min <= m < i
  {
    if i == c.min then 0 else if Backup(c, p, s, i - 1) then i - 1 else LastBackup(c, p, s, i - 1)
  }

  /** Where the first chunk of s ends. */
  ghost function CutAt(c: Sizes, p: Word, s: Bytes): (n: nat)
    requires p != {} && (c.algorithm.Fixed? || 1 <= c.min)
  {
    if c.algorithm.Fixed? then Min(c.avg, |s|)
    else if |s| <= c.min then |s|
    else
      var end := Min(c.max, |s|);
      var n := FirstCut(c, p, s, c.min, end);
      if c.algorithm.Tttd? && c.min <= n == end && LastBackup(c, p, s, n) != 0 then LastBackup(c, p, s, n)
      else n
  }

  /** A cut is within the bounds the configuration sets. */
  lemma CutBounds(c: Sizes, p: Word, s: Bytes)
    requires p != {} && c.Sound() && s != []
    ensures var n := CutAt(c, p, s); 1 <= n <= |s| && n <= c.max && (n == |s| || n >= c.Least())
  {}

  /** FastCDC keeps its maximum exactly when the minimum is not above it, which nothing asserts. */
  lemma FastCdcMaximum(c: Sizes, p: Word)
    requires p != {} && c.algorithm.FastCdc? && 1 <= c.min && 1 <= c.max
    ensures (forall s :: s != [] ==> CutAt(c, p, s) <= c.max) <==> c.min <= c.max
  {
    if c.min > c.max {
      var s := Zeros(c.max + 1);
      assert CutAt(c, p, s) == c.max + 1;
    }
  }

  // ----- which position it is -------------------------------------------------------------

  /** The scan stops at the first position that cuts. */
  lemma {:induction false} FirstCutIs(c: Sizes, p: Word, s: Bytes, i: nat, end: nat)
    requires p != {} && 1 <= c.min <= i <= end <= |s|
    ensures var n := FirstCut(c, p, s, i, end);
            (n < end ==> Cuts(c, p, s, n)) && forall k :: i <= k < n ==> !Cuts(c, p, s, k)
    decreases end - i
  {
    hide Cuts;
    if i < end && !Cuts(c, p, s, i) {
      FirstCutIs(c, p, s, i + 1, end);
    }
  }

  /** The 64 bits of the FastCDC fingerprint at a position. */
  ghost function GearBits(c: Sizes, s: Bytes, i: nat): Poly
    requires c.algorithm.FastCdc? && i < |s|
  {
    Bits64(Gear(c.algorithm.gear, s, c.min, i))
  }

  /** FastCDC cuts at the first position before the average size where the bits of maskS are clear; if there is none,
      at the first from there on where those of maskL are; and else at the end of its input or the maximum. */
  lemma FastCdcCut(c: Sizes, p: Word, s: Bytes)
    requires p != {} && c.algorithm.FastCdc? && 1 <= c.min <= c.max && |s| > c.min
    ensures var n, end := CutAt(c, p, s), Min(c.max, |s|);
            c.min <= n <= end
            && (n < end ==> GearBits(c, s, n) !! (if n >= c.avg then c.algorithm.maskL else c.algorithm.maskS))
            && (forall i {:trigger GearBits(c, s, i)} :: c.min <= i < n ==>
                  !(GearBits(c, s, i) !! if i >= c.avg then c.algorithm.maskL else c.algorithm.maskS))
  {
    hide Bits64, Gear;
    var n, end := CutAt(c, p, s), Min(c.max, |s|);
    FirstCutIs(c, p, s, c.min, end);
    forall i | c.min <= i < n
      ensures !(GearBits(c, s, i) !! if i >= c.avg then c.algorithm.maskL else c.algorithm.maskS)
    {
      assert !Cuts(c, p, s, i);
    }
  }

  /** The Rabin fingerprint at i shows the bits of 0x78 under a mask of the average size. */
  ghost predicate FullMark(c: Sizes, p: Word, s: Bytes, i: nat)
    requires p != {} && 1 <= c.min <= i < |s|
  {
    Marked(p, WindowAt(s, c.min, i), Bits64(c.avg - 1))
  }

  /** Under a mask of one bit less, which is met more often. */
  ghost predicate WeakMark(c: Sizes, p: Word, s: Bytes, i: nat)
    requires p != {} && 1 <= c.min <= i < |s|
  {
    Marked(p, WindowAt(s, c.min, i), Bits64(c.avg / 2 - 1))
  }

  /** Under a mask of one bit more, which is met less often. */
  ghost predicate StrongMark(c: Sizes, p: Word, s: Bytes, i: nat)
    requires p != {} && 1 <= c.min <= i < |s|
  {
    Marked(p, WindowAt(s, c.min, i), Bits64(2 * c.avg - 1))
  }

  /** Once 48 bytes are in, the window at i holds the 48 bytes before i; until then, those since the byte before the
      minimum, behind zeros. */
  lemma WindowHolds(s: Bytes, min: nat, i: nat)
    requires 1 <= min <= i <= |s|
    ensures i >= min + 47 ==> WindowAt(s, min, i) == s[i - 48..i]
    ensures i < min + 47 ==> WindowAt(s, min, i) == Zeros(47 - (i - min)) + s[min - 1..i]
  {
    var fed := Zeros(WINDOW) + s[min - 1..i];
    if i >= min + 47 {
      assert fed[|fed| - WINDOW..] == s[i - 48..i];
    } else {
      assert fed[|fed| - WINDOW..] == Zeros(47 - (i - min)) + s[min - 1..i];
    }
  }

  /** So a mark moves with the 48 bytes before it, to any other place and any other file. */
  lemma MarksMove(c: Sizes, p: Word, s: Bytes, i: nat, t: Bytes, j: nat)
    requires p != {} && 1 <= c.min && c.min + 47 <= i < |s| && c.min + 47 <= j < |t| && s[i - 48..i] == t[j - 48..j]
    ensures FullMark(c, p, s, i) == FullMark(c, p, t, j)
    ensures WeakMark(c, p, s, i) == WeakMark(c, p, t, j) && StrongMark(c, p, s, i) == StrongMark(c, p, t, j)
  {
    hide WindowAt, Marked, Bits64;
    WindowHolds(s, c.min, i);
    WindowHolds(t, c.min, j);
  }

  /** Rabin chunking cuts at the first marked position. */
  lemma RabinCut(c: Sizes, p: Word, s: Bytes)
    requires p != {} && c.algorithm.RabinBased? && 1 <= c.min <= c.max && |s| > c.min
    ensures var n, end := CutAt(c, p, s), Min(c.max, |s|);
            c.min <= n <= end && (n < end ==> FullMark(c, p, s, n))
            && forall i :: c.min <= i < n ==> !FullMark(c, p, s, i)
  {
    hide Bits64, Marked, WindowAt;
    var n, end := CutAt(c, p, s), Min(c.max, |s|);
    FirstCutIs(c, p, s, c.min, end);
    forall i | c.min <= i < n ensures !FullMark(c, p, s, i) {
      assert !Cuts(c, p, s, i);
    }
  }

  /** Normalised Rabin chunking asks for the stronger mark before the average size and for the weaker one after. */
  lemma NormalizedCut(c: Sizes, p: Word, s: Bytes)
    requires p != {} && c.algorithm.Normalized? && 1 <= c.min <= c.max && |s| > c.min
    ensures var n, end := CutAt(c, p, s), Min(c.max, |s|);
            c.min <= n <= end && (n < end ==> if n >= c.avg then WeakMark(c, p, s, n) else StrongMark(c, p, s, n))
            && forall i :: c.min <= i < n ==> !if i >= c.avg then WeakMark(c, p, s, i) else StrongMark(c, p, s, i)
  {
    hide Bits64, Marked, WindowAt;
    var n, end := CutAt(c, p, s), Min(c.max, |s|);
    assert c.avg * 2 == 2 * c.avg;
    FirstCutIs(c, p, s, c.min, end);
    forall i | c.min <= i < n ensures !if i >= c.avg then WeakMark(c, p, s, i) else StrongMark(c, p, s, i) {
      assert !Cuts(c, p, s, i);
    }
  }

  /** Two thresholds, two divisors: the first position with both marks; failing that, the last one with the weaker;
      failing that, the end. */
  lemma TttdCut(c: Sizes, p: Word, s: Bytes)
    requires p != {} && c.algorithm.Tttd? && 1 <= c.min <= c.max && |s| > c.min
    ensures var n, end := CutAt(c, p, s), Min(c.max, |s|);
            c.min <= n <= end && (forall i :: c.min <= i < n ==> !(WeakMark(c, p, s, i) && FullMark(c, p, s, i)))
            && (n < end ==> WeakMark(c, p, s, n))
            && (n < end && !FullMark(c, p, s, n) ==> forall i :: n < i < end ==> !WeakMark(c, p, s, i))
            && (n == end ==> forall i :: c.min <= i < end ==> !WeakMark(c, p, s, i))
  {
    hide Bits64, Marked, WindowAt;
    var n, end := CutAt(c, p, s), Min(c.max, |s|);
    FirstCutIs(c, p, s, c.min, end);
    LastBackupIs(c, p, s, FirstCut(c, p, s, c.min, end));
    forall i | c.min <= i < n ensures !(WeakMark(c, p, s, i) && FullMark(c, p, s, i)) {
      assert !Cuts(c, p, s, i);
    }
  }

  /** No later position has the weaker mark. */
  lemma {:induction false} LastBackupIs(c: Sizes, p: Word, s: Bytes, i: nat)
    requires p != {} && 1 <= c.min <= i <= |s|
    ensures var m := LastBackup(c, p, s, i);
            (m != 0 ==> WeakMark(c, p, s, m)) && forall k :: c.min <= k < i && k > m ==> !WeakMark(c, p, s, k)
  {
    hide Bits64, Marked, WindowAt;
    if i > c.min && !Backup(c, p, s, i - 1) {
      LastBackupIs(c, p, s, i - 1);
    }
  }

  /** With masks as destor has them, the bits of maskL among those of maskS, a larger average size never makes the
      first chunk shorter. */
  lemma LargerAverage(c: Sizes, p: Word, s: Bytes, avg: nat)
    requires p != {} && c.algorithm.FastCdc? && c.algorithm.maskL <= c.algorithm.maskS
    requires 1 <= c.min <= c.max && c.avg <= avg
    ensures CutAt(c, p, s) <= CutAt(c.(avg := avg), p, s)
  {
    if |s| > c.min {
      FirstCutLater(c, p, s, c.min, Min(c.max, |s|), avg);
    }
  }

  lemma {:induction false} FirstCutLater(c: Sizes, p: Word, s: Bytes, i: nat, end: nat, avg: nat)
    requires p != {} && c.algorithm.FastCdc? && c.algorithm.maskL <= c.algorithm.maskS
    requires 1 <= c.min <= i <= end <= |s| && c.avg <= avg
    ensures FirstCut(c, p, s, i, end) <= FirstCut(c.(avg := avg), p, s, i, end)
    decreases end - i
  {
    hide Bits64, Gear;
    if i < end {
      FirstCutLater(c, p, s, i + 1, end, avg);
    }
  }

  /** A later switch from one mask to the other never makes the first chunk shorter, whatever the gear matrix and the
      data. */
  ghost predicate NeverShorter(p: Word, maskS: Poly, maskL: Poly)
    requires p != {}
  {
    forall c: Sizes, s: Bytes, avg: nat ::
      SwitchLater(c, maskS, maskL, avg) ==> CutAt(c, p, s) <= CutAt(c.(avg := avg), p, s)
  }

  ghost predicate SwitchLater(c: Sizes, maskS: Poly, maskL: Poly, avg: nat) {
    c.algorithm.FastCdc? && c.algorithm.maskS == maskS && c.algorithm.maskL == maskL
    && 1 <= c.min <= c.max && c.avg <= avg
  }

  /** It does so for masks of 64 bits exactly when maskS has all bits of maskL. */
  lemma LargerAverageExactly(p: Word, maskS: Poly, maskL: Poly)
    requires p != {} && Below(maskL, 64)
    ensures NeverShorter(p, maskS, maskL) <==> maskL <= maskS
  {
    if forall bit :: bit in maskL ==> bit in maskS {
      forall c: Sizes, s: Bytes, avg: nat | SwitchLater(c, maskS, maskL, avg)
        ensures CutAt(c, p, s) <= CutAt(c.(avg := avg), p, s)
      {
        LargerAverage(c, p, s, avg);
      }
    } else {
      var bit: int :| bit in maskL && bit !in maskS;
      var c, s := ShorterCut(p, maskS, maskL, bit);
      assert SwitchLater(c, maskS, maskL, 2);
    }
  }

  /** A matrix of one bit that is in maskL alone: with the average at 1 the first position does not cut, with the
      average at 2 it does. */
  lemma ShorterCut(p: Word, maskS: Poly, maskL: Poly, bit: nat) returns (c: Sizes, s: Bytes)
    requires p != {} && bit < 64 && bit in maskL && bit !in maskS
    ensures c == Sizes(FastCdc(_ => Pow2(bit), maskS, maskL), 1, 1, 2) && |s| == 2
    ensures CutAt(c, p, s) == 2 && CutAt(c.(avg := 2), p, s) == 1
  {
    c, s := Sizes(FastCdc(_ => Pow2(bit), maskS, maskL), 1, 1, 2), Zeros(2);
    hide Pow2, Bits64;
    assert Gear(c.algorithm.gear, s, 1, 1) == Pow2(bit);
    OneBit64(bit);
  }

  lemma OneBit64(bit: nat)
    requires bit < 64
    ensures Bits64(Pow2(bit)) == {bit}
  {
    hide Pow2, Bits;
    Pow2Of64();
    PowerBelow(bit, 64);
    OneBit(bit, 64);
  }

  lemma {:induction false} PowerBelow(m: nat, n: nat)
    requires m < n
    ensures Pow2(m) < Pow2(n) && Pow2(m) >= 1
  {
    if m > 0 { PowerBelow(m - 1, n - 1); } else if n > 1 { PowerBelow(0, n - 1); }
  }

  lemma {:induction false} OneBit(bit: nat, n: nat)
    requires bit < n && Pow2(bit) < Pow2(n)
    ensures Bits(Pow2(bit), n) == {bit}
    decreases n
  {
    if bit == n - 1 {
      NoBits(n - 1);
    } else {
      PowerBelow(bit, n - 1);
      OneBit(bit, n - 1);
    }
  }

  lemma {:induction false} NoBits(n: nat)
    ensures 0 < Pow2(n) && Bits(0, n) == {}
  {
    if n > 0 { NoBits(n - 1); }
  }

  /** g_condition_mask, from the sixth entry on; fastcdc_init reads no other. */
  const CONDITION_MASK := [
    "0000000001803110", "0000000018035100", "0000001800035300", "0000019000353000", "0000590003530000",
    "0000d90003530000", "0000d90103530000", "0000d90303530000", "0000d90313530000", "0000d90f03530000",
    "0000d90303537000", "0000d90703537000"]

  /** The masks for an average size of at least 2^index, and below twice that. */
  ghost function MaskS(index: nat): Poly
    requires 7 <= index <= 16
  {
    HexBits(CONDITION_MASK[index - 5])
  }

  ghost function MaskL(index: nat): Poly
    requires 7 <= index <= 16
  {
    HexBits(CONDITION_MASK[index - 7])
  }

  function HexValue(c: char): nat {
    if '0' <= c <= '9' then c as int - '0' as int else if 'a' <= c <= 'f' then c as int - 'a' as int + 10 else 0
  }

  /** Bit j of a hex digit. */
  predicate DigitBit(c: char, j: nat) {
    HexValue(c) / (if j == 0 then 1 else if j == 1 then 2 else if j == 2 then 4 else 8) % 2 == 1
  }

  ghost function HexBits(h: string): Poly {
    set i: int | 0 <= i < 4 * |h| && DigitBit(h[|h| - 1 - i / 4], i % 4) :: i
  }

  predicate DigitWithin(c: char, d: char) {
    forall j :: 0 <= j < 4 && DigitBit(c, j) ==> DigitBit(d, j)
  }

  lemma HexWithin(h: string, g: string)
    requires |h| == |g|
    ensures HexBits(h) <= HexBits(g) <==> forall k :: 0 <= k < |h| ==> DigitWithin(h[k], g[k])
  {
    if HexBits(h) <= HexBits(g) {
      forall k, j | 0 <= k < |h| && 0 <= j < 4 && DigitBit(h[k], j) ensures DigitBit(g[k], j) {
        var i := 4 * (|h| - 1 - k) + j;
        assert i / 4 == |h| - 1 - k && i % 4 == j;
        assert i in HexBits(h);
      }
    }
  }

  /** destor's two masks are nested exactly for average sizes from 2 KB to below 32 KB. */
  lemma MasksNest(index: nat)
    requires 7 <= index <= 16
    ensures Below(MaskL(index), 64)
    ensures MaskL(index) <= MaskS(index) <==> 11 <= index <= 14
  {
    var h, g := CONDITION_MASK[index - 7], CONDITION_MASK[index - 5];
    HexWithin(h, g);
    hide HexBits, DigitWithin;
    if 11 <= index <= 14 {
      forall k: nat | k < 16 ensures DigitWithin(h[k], g[k]) { NestedDigit(index, k); }
    } else {
      var k := BrokenDigit(index);
    }
  }

  lemma NestedDigit(index: nat, k: nat)
    requires 11 <= index <= 14 && k < 16
    ensures DigitWithin(CONDITION_MASK[index - 7][k], CONDITION_MASK[index - 5][k])
  {
    hide DigitWithin;
    var c, d := CONDITION_MASK[index - 7][k], CONDITION_MASK[index - 5][k];
    assert c == d || (c == '5' && d == 'd') || (c == '0' && d == '1') || (c == '0' && d == '3')
           || (c == '1' && d == '3') || (c == '3' && d == 'f');
    DigitPairs(c);
  }

  lemma DigitPairs(c: char)
    ensures DigitWithin(c, c) && DigitWithin('5', 'd') && DigitWithin('0', '1') && DigitWithin('0', '3')
            && DigitWithin('1', '3') && DigitWithin('3', 'f')
  {
    hide DigitWithin;
    DigitPair(c, c);
    DigitPair('5', 'd');
    DigitPair('0', '1');
    DigitPair('0', '3');
    DigitPair('1', '3');
    DigitPair('3', 'f');
  }

  lemma DigitPair(c: char, d: char)
    requires var v, w := HexValue(c), HexValue(d);
             v == w || (v, w) == (5, 13) || (v, w) == (0, 1) || (v, w) == (0, 3) || (v, w) == (1, 3)
             || (v, w) == (3, 15)
    ensures DigitWithin(c, d)
  {}

  lemma BrokenDigit(index: nat) returns (k: nat)
    requires 7 <= index <= 10 || 15 <= index <= 16
    ensures k < 16 && !DigitWithin(CONDITION_MASK[index - 7][k], CONDITION_MASK[index - 5][k])
  {
    k := if index == 7 then 9 else if index == 8 || index == 15 then 8 else if index == 16 then 7 else 6;
    var c, d := CONDITION_MASK[index - 7][k], CONDITION_MASK[index - 5][k];
    if index == 16 {
      assert DigitBit(c, 3) && !DigitBit(d, 3);
    } else {
      assert DigitBit(c, 0) && !DigitBit(d, 0);
    }
  }

  /** So with destor's masks, a later switch never makes a chunk shorter exactly for those average sizes. */
  lemma DestorAverage(p: Word, index: nat)
    requires p != {} && 7 <= index <= 16
    ensures NeverShorter(p, MaskS(index), MaskL(index)) <==> 11 <= index <= 14
  {
    hide NeverShorter, MaskS, MaskL;
    MasksNest(index);
    LargerAverageExactly(p, MaskS(index), MaskL(index));
  }

  /** What the bytes from k to i add to the FastCDC fingerprint at i: the older, the further to the left. */
  function GearTerms(gear: Byte -> nat, s: Bytes, k: nat, i: nat): nat
    requires i < |s|
    decreases i - k
  {
    if k > i then 0 else Pow2(i - k) * gear(s[k]) + GearTerms(gear, s, k + 1, i)
  }

  lemma {:induction false} GearIsTerms(gear: Byte -> nat, s: Bytes, min: nat, i: nat)
    requires min <= i < |s|
    ensures Gear(gear, s, min, i) == GearTerms(gear, s, min, i)
    decreases i
  {
    if i == min {
      assert GearTerms(gear, s, i + 1, i) == 0 && Pow2(0) == 1;
    } else {
      GearIsTerms(gear, s, min, i - 1);
      TermsStep(gear, s, min, i);
    }
  }

  lemma {:induction false} TermsStep(gear: Byte -> nat, s: Bytes, k: nat, i: nat)
    requires k <= i < |s| && i > 0
    ensures GearTerms(gear, s, k, i) == 2 * GearTerms(gear, s, k, i - 1) + gear(s[i])
    decreases i - k
  {
    if k == i {
      assert GearTerms(gear, s, i + 1, i) == 0 && Pow2(0) == 1;
    } else {
      TermsStep(gear, s, k + 1, i);
      TwiceTerm(i - k, gear(s[k]));
    }
  }

  lemma TwiceTerm(n: nat, g: nat)
    requires n > 0
    ensures Pow2(n) * g == 2 * (Pow2(n - 1) * g)
  {
    assert Pow2(n) == 2 * Pow2(n - 1);
  }

  /** The fingerprint at i: that at an earlier position, moved left, and the bytes since. */
  lemma {:induction false} GearSplit(gear: Byte -> nat, s: Bytes, min: nat, i: nat, n: nat)
    requires 1 <= n && min + n <= i < |s|
    ensures Gear(gear, s, min, i) == Pow2(n) * Gear(gear, s, min, i - n) + Gear(gear, s, i - n + 1, i)
    decreases n
  {
    hide Pow2;
    if n == 1 {
      assert Pow2(1) == 2 by { PowerOne(); }
    } else {
      GearSplit(gear, s, min, i - 1, n - 1);
      TwiceTerm(n, Gear(gear, s, min, i - n));
    }
  }

  lemma PowerOne()
    ensures Pow2(1) == 2
  {}

  lemma {:induction false} GearShift(gear: Byte -> nat, s: Bytes, lo: nat, i: nat)
    requires lo <= i < |s|
    ensures Gear(gear, s, lo, i) == Gear(gear, s[lo..i + 1], 0, i - lo)
    decreases i
  {
    if i > lo {
      GearShift(gear, s, lo, i - 1);
      GearPrefix(gear, s[lo..i + 1], 0, i - 1 - lo, i - lo);
      assert s[lo..i + 1][..i - lo] == s[lo..i];
    }
  }

  /** Once 64 bytes are in, the 64 bits of the fingerprint are those of the last 64 bytes, whatever came before. */
  lemma GearForgets(gear: Byte -> nat, s: Bytes, min: nat, i: nat)
    requires min + 63 <= i < |s|
    ensures Bits64(Gear(gear, s, min, i)) == Bits64(Gear(gear, s[i - 63..i + 1], 0, 63))
  {
    hide Bits64, Gear;
    GearShift(gear, s, i - 63, i);
    if min + 64 <= i {
      GearSplit(gear, s, min, i, 64);
      Pow2Of64();
      Multiple64(Gear(gear, s, min, i - 64), Gear(gear, s, i - 63, i));
    }
  }

  lemma Multiple64(g: nat, v: nat)
    ensures Bits64(TWO_TO_64 * g + v) == Bits64(v)
  {
    assert (TWO_TO_64 * g + v) % TWO_TO_64 == v % TWO_TO_64;
  }

  // ----- a cut does not depend on what lies past the maximum ------------------------------

  lemma {:induction false} GearPrefix(gear: Byte -> nat, s: Bytes, min: nat, i: nat, m: nat)
    requires i < m <= |s|
    ensures Gear(gear, s, min, i) == Gear(gear, s[..m], min, i)
    decreases i
  {
    if i > min {
      GearPrefix(gear, s, min, i - 1, m);
    }
  }

  lemma WindowPrefix(s: Bytes, min: nat, i: nat, m: nat)
    requires 1 <= min <= i < m <= |s|
    ensures WindowAt(s, min, i) == WindowAt(s[..m], min, i)
  {
    assert s[..m][min - 1..i] == s[min - 1..i];
  }

  lemma CutsPrefix(c: Sizes, p: Word, s: Bytes, i: nat, m: nat)
    requires p != {} && 1 <= c.min <= i < m <= |s|
    ensures Cuts(c, p, s, i) == Cuts(c, p, s[..m], i)
    ensures Backup(c, p, s, i) == Backup(c, p, s[..m], i)
  {
    hide Marked, Bits64, Gear, WindowAt;
    WindowPrefix(s, c.min, i, m);
    if c.algorithm.FastCdc? {
      GearPrefix(c.algorithm.gear, s, c.min, i, m);
    }
  }

  lemma {:induction false} FirstCutPrefix(c: Sizes, p: Word, s: Bytes, i: nat, m: nat)
    requires p != {} && 1 <= c.min <= i && m <= |s|
    ensures FirstCut(c, p, s, i, m) == FirstCut(c, p, s[..m], i, m)
    decreases m - i
  {
    hide Cuts;
    if i < m {
      CutsPrefix(c, p, s, i, m);
      FirstCutPrefix(c, p, s, i + 1, m);
    }
  }

  lemma {:induction false} LastBackupPrefix(c: Sizes, p: Word, s: Bytes, i: nat, m: nat)
    requires p != {} && 1 <= c.min <= i <= m <= |s|
    ensures LastBackup(c, p, s, i) == LastBackup(c, p, s[..m], i)
    decreases i
  {
    hide Backup, Cuts;
    if i > c.min {
      CutsPrefix(c, p, s, i - 1, m);
      LastBackupPrefix(c, p, s, i - 1, m);
    }
  }

  /** With the maximum number of bytes in hand, more bytes do not change the cut. */
  lemma CutPrefix(c: Sizes, p: Word, s: Bytes)
    requires p != {} && c.Sound() && |s| >= c.max
    ensures CutAt(c, p, s) == CutAt(c, p, s[..c.max])
  {
    hide Cuts, Backup;
    if !c.algorithm.Fixed? {
      FirstCutPrefix(c, p, s, c.min, c.max);
      var n := FirstCut(c, p, s, c.min, c.max);
      LastBackupPrefix(c, p, s, n, c.max);
    }
  }

  // ----- the cutters ---------------------------------------------------------------------

  /** fixed_chunk_data. */
  method FixedChunkData(c: Sizes, ghost p: Word, s: Bytes) returns (n: nat)
    requires p != {} && c.algorithm.Fixed?
    ensures n == CutAt(c, p, s)
  {
    n := if c.avg > |s| then |s| else c.avg;
  }

  /** The window has been fed the bytes from min - 1 to i - 1. */
  ghost predicate Tracks(w: Window, t: Tables, s: Bytes, min: nat, i: nat)
    requires 1 <= min <= i + 1 && i <= |s|
    reads w, w.buf, w.tables, w.tables.T, w.tables.U
  {
    w.Valid() && w.tables == t && w.Contents() == WindowAt(s, min, i)
  }

  method NewWindow(t: Tables, s: Bytes, min: nat) returns (w: Window)
    requires t.TDone() && t.UDone() && 1 <= min <= |s|
    ensures fresh(w) && fresh(w.buf) && Tracks(w, t, s, min, min - 1)
  {
    w := new Window(t);
    assert s[min - 1..min - 1] == [];
    assert Zeros(WINDOW) + [] == Zeros(WINDOW);
  }

  /** SLIDE(p[i - 1], ...) and the cut test. */
  method SlideTo(w: Window, t: Tables, s: Bytes, min: nat, i: nat)
    requires 1 <= min <= i <= |s| && Tracks(w, t, s, min, i - 1)
    modifies w, w.buf
    ensures Tracks(w, t, s, min, i)
  {
    hide Remainder, PolyOf, TEntry, UEntry, Top, Bits8;
    w.Slide(s[i - 1]);
    WindowSlides(s, min, i);
  }

  /** SLIDE and one cut test. */
  method SlideAndTest(w: Window, t: Tables, s: Bytes, min: nat, i: nat, mask: Poly) returns (hit: bool)
    requires 1 <= min <= i <= |s| && Tracks(w, t, s, min, i - 1)
    modifies w, w.buf
    ensures Tracks(w, t, s, min, i) && t.poly != {}
    ensures hit <==> Marked(t.poly, WindowAt(s, min, i), mask)
  {
    hide Marked, WindowAt, Bits64, Remainder, PolyOf, TEntry, UEntry, Top, Bits8;
    SlideTo(w, t, s, min, i);
    hit := w.Hit(mask);
  }

  lemma WindowSlides(s: Bytes, min: nat, i: nat)
    requires 1 <= min <= i <= |s|
    ensures WindowAt(s, min, i) == WindowAt(s, min, i - 1)[1..] + [s[i - 1]]
  {
    assert s[min - 1..i] == s[min - 1..i - 1] + [s[i - 1]];
  }

  /** A scan that has found nothing so far has the same first cut. */
  ghost predicate Quiet(c: Sizes, p: Word, s: Bytes, i: nat, end: nat)
    requires p != {} && 1 <= c.min <= i && end <= |s|
  {
    FirstCut(c, p, s, c.min, end) == FirstCut(c, p, s, i, end)
  }

  /** rabin_chunk_data. */
  method RabinChunkData(c: Sizes, t: Tables, s: Bytes) returns (n: nat)
    requires t.TDone() && t.UDone() && c.Sound() && c.algorithm.RabinBased?
    ensures n == CutAt(c, t.poly, s)
  {
    hide Marked, WindowAt, Bits64, Remainder, PolyOf, TEntry, UEntry, Top, Bits8;
    if |s| <= c.min {
      return |s|;
    }
    var w := NewWindow(t, s, c.min);
    var i, end := c.min, if |s| > c.max then c.max else |s|;
    while i < end
      invariant c.min <= i <= end && Tracks(w, t, s, c.min, i - 1) && Quiet(c, t.poly, s, i, end)
    {
      var hit := SlideAndTest(w, t, s, c.min, i, Bits64(c.avg - 1));
      if hit {
        break;
      }
      i := i + 1;
    }
    n := i;
  }

  /** normalized_rabin_chunk_data. */
  method NormalizedRabinChunkData(c: Sizes, t: Tables, s: Bytes) returns (n: nat)
    requires t.TDone() && t.UDone() && c.Sound() && c.algorithm.Normalized?
    ensures n == CutAt(c, t.poly, s)
  {
    hide Marked, WindowAt, Bits64, Remainder, PolyOf, TEntry, UEntry, Top, Bits8;
    if |s| <= c.min {
      return |s|;
    }
    var w := NewWindow(t, s, c.min);
    var smallMask, largeMask := Bits64(c.avg * 2 - 1), Bits64(c.avg / 2 - 1);
    var i, end := c.min, if |s| > c.max then c.max else |s|;
    while i < end
      invariant c.min <= i <= end && Tracks(w, t, s, c.min, i - 1) && Quiet(c, t.poly, s, i, end)
    {
      var hit := SlideAndTest(w, t, s, c.min, i, if i < c.avg then smallMask else largeMask);
      if hit {
        break;
      }
      i := i + 1;
    }
    n := i;
  }

  /** tttd_chunk_data. */
  method TttdChunkData(c: Sizes, t: Tables, s: Bytes) returns (n: nat)
    requires t.TDone() && t.UDone() && c.Sound() && c.algorithm.Tttd?
    ensures n == CutAt(c, t.poly, s)
  {
    hide Marked, WindowAt, Bits64, Remainder, PolyOf, TEntry, UEntry, Top, Bits8;
    if |s| <= c.min {
      return |s|;
    }
    var w := NewWindow(t, s, c.min);
    var m := 0;
    var i, end := c.min, if |s| > c.max then c.max else |s|;
    while i < end
      invariant c.min <= i <= end && Tracks(w, t, s, c.min, i - 1) && Quiet(c, t.poly, s, i, end)
      invariant m == LastBackup(c, t.poly, s, i)
    {
      var back := SlideAndTest(w, t, s, c.min, i, Bits64(c.avg / 2 - 1));
      if back {
        var hit := w.Hit(Bits64(c.avg - 1));
        if hit {
          return i;
        }
        m := i;
      }
      i := i + 1;
    }
    n := if m != 0 then m else i;
  }

  /** One step of the wrapping 64-bit fingerprint. */
  function GearStep(fingerprint: nat, g: nat): nat {
    (2 * fingerprint + g) % TWO_TO_64
  }

  lemma GearWraps(gear: Byte -> nat, s: Bytes, min: nat, i: nat, fingerprint: nat)
    requires min <= i < |s|
    requires fingerprint == if i == min then 0 else Gear(gear, s, min, i - 1) % TWO_TO_64
    ensures GearStep(fingerprint, gear(s[i])) == Gear(gear, s, min, i) % TWO_TO_64
    ensures Bits64(GearStep(fingerprint, gear(s[i]))) == Bits64(Gear(gear, s, min, i))
  {
    hide Bits64;
    if i > min {
      StepWraps(Gear(gear, s, min, i - 1), gear(s[i]));
    }
    SameBits(Gear(gear, s, min, i));
  }

  lemma StepWraps(g: nat, x: nat)
    ensures (2 * (g % TWO_TO_64) + x) % TWO_TO_64 == (2 * g + x) % TWO_TO_64
  {}

  lemma SameBits(v: nat)
    ensures Bits64(v % TWO_TO_64) == Bits64(v)
  {
    hide Bits, Pow2;
  }

  /** fastcdc_chunk_data. */
  method FastCdcChunkData(c: Sizes, ghost p: Word, s: Bytes) returns (n: nat)
    requires p != {} && 1 <= c.min && c.avg <= c.max && c.algorithm.FastCdc?
    ensures n == CutAt(c, p, s)
  {
    hide Bits64, GearStep, Gear;
    var FastCdc(gear, maskS, maskL) := c.algorithm;
    if |s| <= c.min {
      return |s|;
    }
    var mid, size := c.avg, |s|;
    if size > c.max {
      size := c.max;
    } else if size < mid {
      mid := size;
    }
    var fingerprint, i := 0, c.min;
    while i < mid
      invariant c.min <= i && (i <= mid || i == c.min) && Quiet(c, p, s, i, size)
      invariant fingerprint == if i == c.min then 0 else Gear(gear, s, c.min, i - 1) % TWO_TO_64
    {
      GearWraps(gear, s, c.min, i, fingerprint);
      fingerprint := GearStep(fingerprint, gear(s[i]));
      if Bits64(fingerprint) !! maskS {
        return i;
      }
      i := i + 1;
    }
    while i < size
      invariant c.min <= i && (i <= size || i == c.min) && Quiet(c, p, s, i, size)
      invariant i < size ==> i >= c.avg
      invariant fingerprint == if i == c.min then 0 else Gear(gear, s, c.min, i - 1) % TWO_TO_64
    {
      GearWraps(gear, s, c.min, i, fingerprint);
      fingerprint := GearStep(fingerprint, gear(s[i]));
      if Bits64(fingerprint) !! maskL {
        return i;
      }
      i := i + 1;
    }
    n := i;
  }

  /** The cutter start_chunk_phase selects. */
  method ChunkData(c: Sizes, t: Tables, s: Bytes) returns (n: nat)
    requires t.TDone() && t.UDone() && c.Sound()
    ensures n == CutAt(c, t.poly, s)
  {
    match c.algorithm
    case Fixed => n := FixedChunkData(c, t.poly, s);
    case RabinBased => n := RabinChunkData(c, t, s);
    case Normalized => n := NormalizedRabinChunkData(c, t, s);
    case Tttd => n := TttdChunkData(c, t, s);
    case FastCdc(_, _, _) => n := FastCdcChunkData(c, t.poly, s);
  }

  // ----- the chunks of a file ------------------------------------------------------------

  /** The chunks of a file: the cutter applied to all that is left, again and again. */
  ghost function Chunks(c: Sizes, p: Word, s: Bytes): seq<Bytes>
    requires p != {} && c.Sound()
  {
    if s == [] then []
    else
      CutBounds(c, p, s);
      var n := CutAt(c, p, s);
      [s[..n]] + Chunks(c, p, s[n..])
  }

  function Concat(s: seq<Bytes>): Bytes {
    if s == [] then [] else s[0] + Concat(s[1..])
  }

  /** The chunks make up the file; none is above the maximum, and only the last below the minimum. */
  lemma {:induction false} ChunksOfFile(c: Sizes, p: Word, s: Bytes)
    requires p != {} && c.Sound()
    ensures var r := Chunks(c, p, s);
            Concat(r) == s &&
            (forall i :: 0 <= i < |r| ==> 1 <= |r[i]| <= c.max) &&
            (forall i :: 0 <= i < |r| - 1 ==> |r[i]| >= c.Least())
  {
    hide CutAt;
    if s != [] {
      CutBounds(c, p, s);
      var n := CutAt(c, p, s);
      ChunksOfFile(c, p, s[n..]);
      var r, q := Chunks(c, p, s), Chunks(c, p, s[n..]);
      assert r[1..] == q;
      assert s == s[..n] + s[n..];
      assert forall i :: 0 < i < |r| ==> r[i] == q[i - 1];
      if n < |s| {
        assert |r[0]| >= c.Least();
      } else {
        assert s[n..] == [];
      }
    }
  }

  // ----- chunk_thread --------------------------------------------------------------------

  /** What travels through read_queue and chunk_queue. */
  datatype Item = FileStart | FileEnd | Data(bytes: Bytes)

  const DEFAULT_BLOCK_SIZE := 1048576

  function DataOf(blocks: seq<Bytes>): (r: seq<Item>)
    ensures |r| == |blocks|
  {
    seq(|blocks|, i requires 0 <= i < |blocks| => Data(blocks[i]))
  }

  function FileItems(blocks: seq<Bytes>): seq<Item> {
    [FileStart] + DataOf(blocks) + [FileEnd]
  }

  lemma FileItemsJoin(out: seq<Item>, blocks: seq<Bytes>)
    ensures out + [FileStart] + DataOf(blocks) + [FileEnd] == out + FileItems(blocks)
  {}

  /** The read queue for files given as lists of blocks. */
  function Feed(files: seq<seq<Bytes>>): seq<Item> {
    if files == [] then [] else FileItems(files[0]) + Feed(files[1..])
  }

  /** The chunk queue those files must lead to, however they were split. */
  ghost function Emitted(c: Sizes, p: Word, files: seq<seq<Bytes>>): seq<Item>
    requires p != {} && c.Sound()
  {
    if files == [] then []
    else FileItems(Chunks(c, p, Concat(files[0]))) + Emitted(c, p, files[1..])
  }

  /** The state of chunk_thread: read_queue by position, chunk_queue, and leftbuf. */
  class ChunkThread {
    const c: Sizes
    const t: Tables
    const input: seq<Item>
    const leftbuf: array<Byte>
    var pos: nat
    var output: seq<Item>
    var leftoff: nat
    var leftlen: nat

    constructor (c0: Sizes, t0: Tables, queue: seq<Item>)
      ensures c == c0 && t == t0 && input == queue && fresh(leftbuf)
      ensures leftbuf.Length == DEFAULT_BLOCK_SIZE + c.max
      ensures pos == 0 && output == [] && leftoff == leftlen == 0
    {
      c, t, input := c0, t0, queue;
      leftbuf := new Byte[DEFAULT_BLOCK_SIZE + c0.max](i => {});
      pos, output, leftoff, leftlen := 0, [], 0, 0;
    }

    /** leftbuf holds what it claims to hold. */
    ghost predicate Room()
      reads this
    {
      leftbuf.Length == DEFAULT_BLOCK_SIZE + c.max && leftoff + leftlen <= leftbuf.Length && pos <= |input|
    }

    ghost predicate Valid()
      reads this, t, t.T, t.U
    {
      Room() && t.TDone() && t.UDone() && c.Sound()
    }

    ghost function Left(): Bytes
      requires leftoff + leftlen <= leftbuf.Length
      reads this, leftbuf
    {
      leftbuf[leftoff..leftoff + leftlen]
    }

    /** memmove to the front, memcpy of a block behind; the block always fits. */
    method TakeBlock(d: Bytes)
      requires Room() && leftlen < c.max && |d| <= DEFAULT_BLOCK_SIZE
      modifies leftbuf, `leftoff, `leftlen
      ensures Room() && leftoff == 0 && Left() == old(Left()) + d
    {
      forall i | 0 <= i < leftlen {
        leftbuf[i] := leftbuf[leftoff + i];
      }
      leftoff := 0;
      forall i | 0 <= i < |d| {
        leftbuf[leftlen + i] := d[i];
      }
      leftlen := leftlen + |d|;
      assert Left() == old(Left()) + d;
    }

    /** The unread part of the file at hand: blocks, then the end mark, if not yet read. */
    ghost predicate Ahead(blocks: seq<Bytes>, ended: bool)
      reads this
    {
      if ended then blocks == [] else AheadFrom(pos, blocks)
    }

    ghost predicate AheadFrom(at: nat, blocks: seq<Bytes>) {
      at + |blocks| < |input| && input[at + |blocks|] == FileEnd &&
      (forall i :: 0 <= i < |blocks| ==> input[at + i] == Data(blocks[i]) && |blocks[i]| <= DEFAULT_BLOCK_SIZE)
    }

    /** One turn of the fill loop: the end of the file, or a block more. */
    method ReadOn(ghost blocks: seq<Bytes>) returns (ended: bool, ghost ahead: seq<Bytes>)
      requires Room() && Ahead(blocks, false) && leftlen < c.max
      modifies leftbuf, `leftoff, `leftlen, `pos
      ensures Room() && Ahead(ahead, ended) && pos == old(pos) + 1
      ensures ended ==> blocks == [] == ahead && unchanged(leftbuf, `leftoff, `leftlen)
      ensures !ended ==> blocks != [] && ahead == blocks[1..] && Left() == old(Left()) + blocks[0]
    {
      var item := input[pos];
      assert blocks != [] ==> input[pos + 0] == Data(blocks[0]);
      pos := pos + 1;
      ended, ahead := item == FileEnd, blocks;
      if item != FileEnd {
        TakeBlock(item.bytes);
        ahead := blocks[1..];
      }
    }

    /** The fill loop: read on until a maximal chunk is in hand, or the file ends. */
    method Fill(ghost blocks: seq<Bytes>, ended0: bool) returns (ended: bool, ghost ahead: seq<Bytes>)
      requires Room() && Ahead(blocks, ended0)
      modifies leftbuf, `leftoff, `leftlen, `pos
      ensures Room() && Ahead(ahead, ended) && (ended || leftlen >= c.max)
      ensures Left() + Concat(ahead) == old(Left()) + Concat(blocks)
      ensures pos + |ahead| + (if ended then 0 else 1) == old(pos) + |blocks| + (if ended0 then 0 else 1)
    {
      ended, ahead := ended0, blocks;
      while leftlen < c.max && !ended
        invariant Room() && Ahead(ahead, ended)
        invariant Left() + Concat(ahead) == old(Left()) + Concat(blocks)
        invariant pos + |ahead| + (if ended then 0 else 1) == old(pos) + |blocks| + (if ended0 then 0 else 1)
        decreases |input| - pos
      {
        ghost var left, before := Left(), ahead;
        ended, ahead := ReadOn(ahead);
        if !ended {
          assert left + Concat(before) == (left + before[0]) + Concat(ahead);
        }
      }
    }

    /** The fill loop and the cutter: the first chunk of what is left of the file, if anything is. */
    method NextChunk(ghost blocks: seq<Bytes>, ended0: bool, ghost rest: Bytes)
      returns (ended: bool, ghost ahead: seq<Bytes>, more: bool)
      requires Valid() && Ahead(blocks, ended0) && rest == Left() + Concat(blocks)
      modifies leftbuf, `leftoff, `leftlen, `pos, `output
      ensures Valid() && Ahead(ahead, ended)
      ensures pos + |ahead| + (if ended then 0 else 1) == old(pos) + |blocks| + (if ended0 then 0 else 1)
      ensures more == (rest != []) && (!more ==> ended && output == old(output) && leftlen == 0)
      ensures more ==> Chunks(c, t.poly, rest) != [] && output == old(output) + [Data(Chunks(c, t.poly, rest)[0])]
      ensures more ==> var n := |Chunks(c, t.poly, rest)[0]|;
                       0 < n <= |rest| && Left() + Concat(ahead) == rest[n..] &&
                       Chunks(c, t.poly, rest[n..]) == Chunks(c, t.poly, rest)[1..]
    {
      hide Chunks, CutAt;
      ended, ahead := Fill(blocks, ended0);
      more := leftlen != 0;
      if more {
        ghost var left := Left();
        ChunksStep(c, t.poly, left, Concat(ahead));
        CutOne();
        assert rest[CutAt(c, t.poly, left)..] == left[CutAt(c, t.poly, left)..] + Concat(ahead);
      } else {
        assert Left() == [] && ahead == [];
      }
    }

    lemma StartOfFile(blocks: seq<Bytes>)
      requires pos + |blocks| + 2 <= |input| && input[pos..pos + |blocks| + 2] == FileItems(blocks)
      requires forall b :: b in blocks ==> |b| <= DEFAULT_BLOCK_SIZE
      ensures input[pos] == FileStart && AheadFrom(pos + 1, blocks)
    {
      var f := FileItems(blocks);
      assert forall i :: 0 <= i < |blocks| + 2 ==> input[pos + i] == f[i];
      assert forall i {:trigger blocks[i]} :: 0 <= i < |blocks| ==> input[pos + (i + 1)] == f[i + 1];
      assert input[pos + (|blocks| + 1)] == f[|blocks| + 1];
    }

    /** The chunks of what is left of a file. */
    method ChunkRest(ghost blocks: seq<Bytes>, ended0: bool)
      requires Valid() && Ahead(blocks, ended0)
      modifies leftbuf, `leftoff, `leftlen, `pos, `output
      ensures Valid() && leftlen == 0 && pos == old(pos) + |blocks| + (if ended0 then 0 else 1)
      ensures output == old(output) + DataOf(Chunks(c, t.poly, old(Left()) + Concat(blocks)))
    {
      hide Chunks, TEntry, UEntry, Top, Bits8, DataOf;
      var ended, more := ended0, true;
      ghost var ahead, rest := blocks, Left() + Concat(blocks);
      ghost var all := rest;
      while more
        invariant Valid() && Ahead(ahead, ended) && rest == Left() + Concat(ahead)
        invariant pos + |ahead| + (if ended then 0 else 1) == old(pos) + |blocks| + (if ended0 then 0 else 1)
        invariant output + DataOf(Chunks(c, t.poly, rest)) == old(output) + DataOf(Chunks(c, t.poly, all))
        invariant !more ==> ended && leftlen == 0 && rest == []
        decreases more, |rest|
      {
        ghost var r, out := Chunks(c, t.poly, rest), output;
        ended, ahead, more := NextChunk(ahead, ended, rest);
        if more {
          DataOfCons(r);
          assert out + ([Data(r[0])] + DataOf(r[1..])) == output + DataOf(r[1..]);
          rest := rest[|r[0]|..];
        }
      }
      NoChunks(c, t.poly);
      assert output + [] == output;
    }

    /** One file: chunk_thread's body from FILE_START to FILE_END. */
    method ChunkFile(ghost blocks: seq<Bytes>)
      requires Valid() && leftoff == leftlen == 0
      requires pos + |blocks| + 2 <= |input| && input[pos..pos + |blocks| + 2] == FileItems(blocks)
      requires forall b :: b in blocks ==> |b| <= DEFAULT_BLOCK_SIZE
      modifies leftbuf, `leftoff, `leftlen, `pos, `output
      ensures Valid() && leftoff == leftlen == 0 && pos == old(pos) + |blocks| + 2
      ensures output == old(output) + FileItems(Chunks(c, t.poly, Concat(blocks)))
    {
      hide Chunks, TEntry, UEntry, Top, Bits8, DataOf, FileItems;
      StartOfFile(blocks);
      FileItemsJoin(output, Chunks(c, t.poly, Concat(blocks)));
      pos := pos + 1;
      output := output + [FileStart];
      // The first block goes to an empty buffer, with leftoff and leftlen both 0.
      var ended, ahead := ReadOn(blocks);
      assert Left() + Concat(ahead) == Concat(blocks);
      ChunkRest(ahead, ended);
      output := output + [FileEnd];
      leftoff := 0;
    }

    /** chunk_thread: what reaches chunk_queue is fixed by the files' bytes alone. */
    method Run(ghost files: seq<seq<Bytes>>)
      requires Valid() && leftoff == leftlen == 0 && pos == 0 && output == []
      requires input == Feed(files)
      requires forall f, b :: f in files && b in f ==> |b| <= DEFAULT_BLOCK_SIZE
      modifies this, leftbuf
      ensures output == Emitted(c, t.poly, files)
    {
      hide Chunks, TEntry, UEntry, Top, Bits8, FileItems, Concat;
      ghost var rest := files;
      while pos < |input|
        invariant Valid() && leftoff == leftlen == 0
        invariant input[pos..] == Feed(rest)
        invariant output + Emitted(c, t.poly, rest) == Emitted(c, t.poly, files)
        invariant forall f, b :: f in rest && b in f ==> |b| <= DEFAULT_BLOCK_SIZE
        decreases |rest|
      {
        FeedFirst(input, pos, rest);
        ghost var out, before := output, rest;
        ChunkFile(rest[0]);
        rest := rest[1..];
        assert out + (FileItems(Chunks(c, t.poly, Concat(before[0]))) + Emitted(c, t.poly, rest))
            == output + Emitted(c, t.poly, rest);
      }
      assert rest == [] by { if rest != [] { FeedFirst(input, pos, rest); } }
      assert output + [] == output;
    }

    /** One call of the cutter on what is buffered. */
    method CutOne()
      requires Valid() && leftlen > 0
      modifies `output, `leftoff, `leftlen
      ensures Valid()
      ensures var n := CutAt(c, t.poly, old(Left()));
              0 < n <= |old(Left())| && output == old(output) + [Data(old(Left())[..n])] && Left() == old(Left())[n..]
    {
      hide CutAt;
      CutBounds(c, t.poly, Left());
      var n := ChunkData(c, t, leftbuf[leftoff..leftoff + leftlen]);
      assert leftbuf[leftoff..leftoff + n] == Left()[..n];
      assert leftbuf[leftoff + n..leftoff + leftlen] == Left()[n..];
      output := output + [Data(leftbuf[leftoff..leftoff + n])];
      leftlen := leftlen - n;
      leftoff := leftoff + n;
    }
  }

  /** Cutting what is buffered is cutting all that is left, if the buffer holds a maximum of bytes. */
  lemma ChunksStep(c: Sizes, p: Word, left: Bytes, more: Bytes)
    requires p != {} && c.Sound() && left != [] && (|left| >= c.max || more == [])
    ensures var n := CutAt(c, p, left);
            0 < n <= |left| && Chunks(c, p, left + more) == [left[..n]] + Chunks(c, p, left[n..] + more)
  {
    hide CutAt;
    var s := left + more;
    CutBounds(c, p, left);
    if more == [] {
      assert s == left && forall n | 0 <= n <= |left| :: left[n..] + more == left[n..];
    } else {
      CutPrefix(c, p, s);
      CutPrefix(c, p, left);
      assert s[..c.max] == left[..c.max];
      var n := CutAt(c, p, left);
      assert s[..n] == left[..n] && s[n..] == left[n..] + more;
    }
  }

  lemma NoChunks(c: Sizes, p: Word)
    requires p != {} && c.Sound()
    ensures Chunks(c, p, []) == [] && DataOf([]) == []
  {}

  lemma DataOfCons(r: seq<Bytes>)
    ensures DataOf([]) == []
    ensures r != [] ==> DataOf(r) == [Data(r[0])] + DataOf(r[1..])
  {}

  lemma FeedFirst(input: seq<Item>, pos: nat, files: seq<seq<Bytes>>)
    requires pos <= |input| && input[pos..] == Feed(files)
    ensures pos < |input| ==> files != []
    ensures files != [] ==>
              pos + |files[0]| + 2 <= |input| && input[pos..pos + |files[0]| + 2] == FileItems(files[0]) &&
              input[pos + |files[0]| + 2..] == Feed(files[1..])
  {
    if files != [] {
      var n := |files[0]| + 2;
      assert |FileItems(files[0])| == n;
      assert input[pos..][..n] == FileItems(files[0]) && input[pos..][n..] == Feed(files[1..]);
      assert input[pos..][..n] == input[pos..pos + n] && input[pos..][n..] == input[pos + n..];
    }
  }

  /** Reading the same files in other blocks leads to the same chunk queue. */
  lemma {:induction false} SplitsDoNotMatter(c: Sizes, p: Word, a: seq<seq<Bytes>>, b: seq<seq<Bytes>>)
    requires p != {} && c.Sound() && |a| == |b|
    requires forall i :: 0 <= i < |a| ==> Concat(a[i]) == Concat(b[i])
    ensures Emitted(c, p, a) == Emitted(c, p, b)
  {
    if a != [] {
      SplitsDoNotMatter(c, p, a[1..], b[1..]);
    }
  }
}
