/**
 The string printer and the argument splitter of src/utils/sds.c, byte by byte, and the promise
 that ties them: what sdscatrepr prints, sdssplitargs reads back.
 */
module Sds {
  import opened Common

  type Byte = x: int | 0 <= x < 256

  const QUOTE: Byte := 34
  const SINGLE: Byte := 39
  const BACKSLASH: Byte := 92
  const SPACE: Byte := 32
  const LETTER_X: Byte := 120

  /** isprint and isspace in the C locale. */
  predicate IsPrint(b: Byte) { 32 <= b <= 126 }
  predicate IsSpace(b: Byte) { b == 32 || 9 <= b <= 13 }

  // ----- hex digits ----------------------------------------------------------------------

  predicate IsHexDigit(c: Byte) {
    48 <= c <= 57 || 97 <= c <= 102 || 65 <= c <= 70
  }

  function HexDigitToInt(c: Byte): (r: Byte)
    ensures r < 16
  {
    if 48 <= c <= 57 then c - 48
    else if 97 <= c <= 102 then c - 87
    else if 65 <= c <= 70 then c - 55
    else 0
  }

  /** One digit of "%02x". */
  function HexDigit(n: int): Byte
    requires 0 <= n < 16
  {
    if n < 10 then 48 + n else 87 + n
  }

  /** The two digits of a byte are hex digits and give the byte back. */
  lemma {:induction false} HexRoundTrip(b: Byte)
    ensures IsHexDigit(HexDigit(b / 16)) && IsHexDigit(HexDigit(b % 16))
    ensures HexDigitToInt(HexDigit(b / 16)) * 16 + HexDigitToInt(HexDigit(b % 16)) == b
  {}

  // ----- the printer ---------------------------------------------------------------------

  function Escape(b: Byte): seq<Byte> {
    if b == BACKSLASH || b == QUOTE then [BACKSLASH, b]
    else if b == 10 then [BACKSLASH, 110]
    else if b == 13 then [BACKSLASH, 114]
    else if b == 9 then [BACKSLASH, 116]
    else if b == 7 then [BACKSLASH, 97]
    else if b == 8 then [BACKSLASH, 98]
    else if IsPrint(b) then [b]
    else [BACKSLASH, LETTER_X, HexDigit(b / 16), HexDigit(b % 16)]
  }

  function EscapeAll(s: seq<Byte>): seq<Byte> {
    if s == [] then [] else Escape(s[0]) + EscapeAll(s[1..])
  }

  function Repr(s: seq<Byte>): seq<Byte> {
    [QUOTE] + EscapeAll(s) + [QUOTE]
  }

  lemma {:induction false} EscapeAppend(s: seq<Byte>, b: Byte)
    ensures EscapeAll(s + [b]) == EscapeAll(s) + Escape(b)
  {
    if s == [] {
      assert s + [b] == [b];
    } else {
      assert (s + [b])[1..] == s[1..] + [b];
      EscapeAppend(s[1..], b);
    }
  }

  /** The switch of sdscatrepr. */
  method EscapeOne(c: Byte) returns (piece: seq<Byte>)
    ensures piece == Escape(c)
  {
    if c == BACKSLASH || c == QUOTE {
      piece := [BACKSLASH, c];
    } else if c == 10 {
      piece := [BACKSLASH, 110];
    } else if c == 13 {
      piece := [BACKSLASH, 114];
    } else if c == 9 {
      piece := [BACKSLASH, 116];
    } else if c == 7 {
      piece := [BACKSLASH, 97];
    } else if c == 8 {
      piece := [BACKSLASH, 98];
    } else if IsPrint(c) {
      piece := [c];
    } else {
      piece := [BACKSLASH, LETTER_X, HexDigit(c / 16), HexDigit(c % 16)];
    }
  }

  /** sdscatrepr. */
  method CatRepr(s0: seq<Byte>, p: seq<Byte>) returns (s: seq<Byte>)
    ensures s == s0 + Repr(p)
  {
    hide Escape;
    s := s0 + [QUOTE];
    for i := 0 to |p|
      invariant s == s0 + [QUOTE] + EscapeAll(p[..i])
    {
      EscapeAppend(p[..i], p[i]);
      assert p[..i + 1] == p[..i] + [p[i]];
      var piece := EscapeOne(p[i]);
      s := s + piece;
    }
    assert p[..|p|] == p;
    s := s + [QUOTE];
  }

  // ----- the parser ----------------------------------------------------------------------

  /** Reading a C string at an offset; past the end is the terminator. */
  function At(s: seq<Byte>, i: nat): Byte {
    if i < |s| then s[i] else 0
  }

  datatype Mode = Plain | InQuotes | InSingle

  /** What a backslash escape stands for inside double quotes. */
  function Unescape(c: Byte): Byte {
    if c == 110 then 10
    else if c == 114 then 13
    else if c == 116 then 9
    else if c == 98 then 8
    else if c == 97 then 7
    else c
  }

  predicate ClosesWell(s: seq<Byte>) {
    At(s, 1) == 0 || IsSpace(At(s, 1))
  }

  datatype TokenResult = Token(text: seq<Byte>, rest: seq<Byte>) | Unbalanced

  /** One token of a C string s, in the middle of which text has been read already. */
  function ReadToken(s: seq<Byte>, text: seq<Byte>, mode: Mode): (r: TokenResult)
    requires 0 !in s
    ensures r.Token? ==> |r.rest| <= |s| && 0 !in r.rest
    ensures r.Token? && s != [] ==> |r.rest| < |s|
    decreases |s|
  {
    var c := At(s, 0);
    match mode
    case InQuotes =>
      if c == BACKSLASH && At(s, 1) == LETTER_X && IsHexDigit(At(s, 2)) && IsHexDigit(At(s, 3)) then
        ReadToken(s[4..], text + [HexDigitToInt(At(s, 2)) * 16 + HexDigitToInt(At(s, 3))], mode)
      else if c == BACKSLASH && At(s, 1) != 0 then
        ReadToken(s[2..], text + [Unescape(At(s, 1))], mode)
      else if c == QUOTE then
        if ClosesWell(s) then Token(text, s[1..]) else Unbalanced
      else if c == 0 then Unbalanced
      else ReadToken(s[1..], text + [c], mode)
    case InSingle =>
      if c == BACKSLASH && At(s, 1) == SINGLE then ReadToken(s[2..], text + [SINGLE], mode)
      else if c == SINGLE then
        if ClosesWell(s) then Token(text, s[1..]) else Unbalanced
      else if c == 0 then Unbalanced
      else ReadToken(s[1..], text + [c], mode)
    case Plain =>
      if c == SPACE || c == 10 || c == 13 || c == 9 then Token(text, s[1..])
      else if c == 0 then Token(text, s)
      else if c == QUOTE then ReadToken(s[1..], text, InQuotes)
      else if c == SINGLE then ReadToken(s[1..], text, InSingle)
      else ReadToken(s[1..], text + [c], mode)
  }

  function SkipBlanks(s: seq<Byte>): (r: seq<Byte>)
    requires 0 !in s
    ensures 0 !in r && |r| <= |s|
    ensures r != [] ==> !IsSpace(r[0])
  {
    if s != [] && IsSpace(s[0]) then SkipBlanks(s[1..]) else s
  }

  /** sdssplitargs on the rest of a line: all tokens, or nothing when quotes do not balance. */
  function SplitArgs(s: seq<Byte>): Option<seq<seq<Byte>>>
    requires 0 !in s
    decreases |s|
  {
    var t := SkipBlanks(s);
    if t == [] then Some([])
    else
      match ReadToken(t, [], Plain)
      case Unbalanced => None
      case Token(text, rest) => Prepend([text], SplitArgs(rest))
  }

  function Prepend(v: seq<seq<Byte>>, o: Option<seq<seq<Byte>>>): Option<seq<seq<Byte>>> {
    match o
    case None => None
    case Some(more) => Some(v + more)
  }

  lemma PrependTwice(v: seq<seq<Byte>>, t: seq<Byte>, o: Option<seq<seq<Byte>>>)
    ensures Prepend(v, Prepend([t], o)) == Prepend(v + [t], o)
  {
    if o.Some? { assert v + ([t] + o.value) == v + [t] + o.value; }
  }

  /** if (*p) p++ */
  function Bump(line: seq<Byte>, p: nat): nat {
    if At(line, p) != 0 then p + 1 else p
  }

  /** What one turn of the token loop, in some mode, has to do with the token as a whole. */
  ghost predicate Turn(line: seq<Byte>, goal: TokenResult, ok: bool, done: bool, current: seq<Byte>, p: nat, mode: Mode)
    requires 0 !in line && p <= |line|
  {
    var q := Bump(line, p);
    if !ok then goal == Unbalanced
    else if done then goal == Token(current, line[q..])
    else p < |line| && goal == ReadToken(line[q..], current, mode)
  }

  /** Inside double quotes. */
  method QuotedTurn(
    line: seq<Byte>, p0: nat, text: seq<Byte>)
    returns (ok: bool, done: bool, current: seq<Byte>, p: nat)
    requires 0 !in line && p0 <= |line|
    ensures p0 <= p <= |line| && Turn(line, ReadToken(line[p0..], text, InQuotes), ok, done, current, p, InQuotes)
  {
    hide HexDigitToInt, Unescape;
    ghost var s := line[p0..];
    assert forall i: nat :: p0 + i <= |line| ==> s[i..] == line[p0 + i..];
    var c := At(line, p0);
    ok, done, current, p := true, false, text, p0;
    if c == BACKSLASH && At(line, p + 1) == LETTER_X && IsHexDigit(At(line, p + 2)) && IsHexDigit(At(line, p + 3)) {
      current := current + [HexDigitToInt(At(line, p + 2)) * 16 + HexDigitToInt(At(line, p + 3))];
      p := p + 3;
    } else if c == BACKSLASH && At(line, p + 1) != 0 {
      p := p + 1;
      current := current + [Unescape(At(line, p))];
    } else if c == QUOTE {
      if At(line, p + 1) != 0 && !IsSpace(At(line, p + 1)) {
        ok := false;
      } else {
        done := true;
      }
    } else if c == 0 {
      ok := false;
    } else {
      current := current + [c];
    }
  }

  /** Inside single quotes. */
  method SingleTurn(
    line: seq<Byte>, p0: nat, text: seq<Byte>)
    returns (ok: bool, done: bool, current: seq<Byte>, p: nat)
    requires 0 !in line && p0 <= |line|
    ensures p0 <= p <= |line| && Turn(line, ReadToken(line[p0..], text, InSingle), ok, done, current, p, InSingle)
  {
    ghost var s := line[p0..];
    assert forall i: nat :: p0 + i <= |line| ==> s[i..] == line[p0 + i..];
    var c := At(line, p0);
    ok, done, current, p := true, false, text, p0;
    if c == BACKSLASH && At(line, p + 1) == SINGLE {
      p := p + 1;
      current := current + [SINGLE];
    } else if c == SINGLE {
      if At(line, p + 1) != 0 && !IsSpace(At(line, p + 1)) {
        ok := false;
      } else {
        done := true;
      }
    } else if c == 0 {
      ok := false;
    } else {
      current := current + [c];
    }
  }

  /** Outside quotes. */
  method PlainTurn(line: seq<Byte>, p: nat, text: seq<Byte>) returns (done: bool, current: seq<Byte>, mode: Mode)
    requires 0 !in line && p <= |line|
    ensures Turn(line, ReadToken(line[p..], text, Plain), true, done, current, p, mode)
  {
    ghost var s := line[p..];
    assert forall i: nat :: p + i <= |line| ==> s[i..] == line[p + i..];
    var c := At(line, p);
    done, current, mode := false, text, Plain;
    if c == SPACE || c == 10 || c == 13 || c == 9 || c == 0 {
      done := true;
    } else if c == QUOTE {
      mode := InQuotes;
    } else if c == SINGLE {
      mode := InSingle;
    } else {
      current := current + [c];
    }
  }

  /** The token loop of sdssplitargs, from position p0. */
  method TokenLoop(line: seq<Byte>, p0: nat) returns (ok: bool, current: seq<Byte>, p: nat)
    requires 0 !in line && p0 < |line|
    ensures p0 <= p <= |line|
    ensures ReadToken(line[p0..], [], Plain) == if ok then Token(current, line[p..]) else Unbalanced
    ensures ok ==> p > p0
  {
    hide ReadToken;
    var mode, done := Plain, false;
    ok, p, current := true, p0, [];
    ghost var goal := ReadToken(line[p0..], [], Plain);
    while !done
      invariant p0 <= p <= |line|
      invariant done ==> goal == Token(current, line[p..]) && p > p0
      invariant !done ==> goal == ReadToken(line[p..], current, mode)
      invariant p == p0 ==> mode == Plain
      decreases !done, |line| - p
    {
      match mode {
        case InQuotes => ok, done, current, p := QuotedTurn(line, p, current);
        case InSingle => ok, done, current, p := SingleTurn(line, p, current);
        case Plain => done, current, mode := PlainTurn(line, p, current);
      }
      if !ok {
        return;
      }
      p := Bump(line, p);
    }
  }

  lemma SplitStep(s: seq<Byte>, text: seq<Byte>, rest: seq<Byte>)
    requires 0 !in s && SkipBlanks(s) != [] && ReadToken(SkipBlanks(s), [], Plain) == Token(text, rest)
    ensures 0 !in rest
    ensures SplitArgs(s) == Prepend([text], SplitArgs(rest))
  {}

  /** sdssplitargs. */
  method Split(line: seq<Byte>) returns (r: Option<seq<seq<Byte>>>)
    requires 0 !in line
    ensures r == SplitArgs(line)
  {
    var p := 0;
    var vector: seq<seq<Byte>> := [];
    assert line[0..] == line;
    if SplitArgs(line).Some? { assert [] + SplitArgs(line).value == SplitArgs(line).value; }
    hide ReadToken, IsSpace, At;
    while true
      invariant p <= |line|
      invariant SplitArgs(line) == Prepend(vector, SplitArgs(line[p..]))
      decreases |line| - p
    {
      ghost var start := p;
      while p < |line| && IsSpace(line[p])
        invariant start <= p <= |line| && SkipBlanks(line[start..]) == SkipBlanks(line[p..])
      {
        assert line[p..][1..] == line[p + 1..];
        p := p + 1;
      }
      assert SkipBlanks(line[p..]) == line[p..];
      if p == |line| {
        assert SplitArgs(line[start..]) == Some([]) && vector + [] == vector;
        return Some(vector);
      }
      var ok, current, q := TokenLoop(line, p);
      if !ok {
        assert SplitArgs(line[start..]) == None;
        return None;
      }
      SplitStep(line[start..], current, line[q..]);
      PrependTwice(vector, current, SplitArgs(line[q..]));
      vector := vector + [current];
      p := q;
    }
  }

  // ----- round trip ----------------------------------------------------------------------

  lemma EscapeShape(b: Byte)
    ensures 0 !in Escape(b)
  {
    HexRoundTrip(b);
  }

  lemma {:induction false} EscapeNoNul(s: seq<Byte>)
    ensures 0 !in EscapeAll(s)
  {
    if s != [] {
      EscapeShape(s[0]);
      EscapeNoNul(s[1..]);
    }
  }

  /** Inside quotes, the escape of a byte is read as that byte, whatever follows. */
  lemma {:induction false} ReadEscape(b: Byte, tail: seq<Byte>, text: seq<Byte>)
    requires 0 !in tail
    ensures 0 !in Escape(b) + tail
    ensures ReadToken(Escape(b) + tail, text, InQuotes) == ReadToken(tail, text + [b], InQuotes)
  {
    EscapeShape(b);
    var e := Escape(b);
    if |e| == 4 {
      HexRoundTrip(b);
      ReadHex(e, tail, text);
    } else if |e| == 2 {
      ReadPair(e[1], tail, text);
    } else {
      var s := e + tail;
      assert s[0] == b && s[1..] == tail;
    }
  }

  lemma {:induction false} ReadHex(e: seq<Byte>, tail: seq<Byte>, text: seq<Byte>)
    requires |e| == 4 && 0 !in e && 0 !in tail
    requires e[0] == BACKSLASH && e[1] == LETTER_X && IsHexDigit(e[2]) && IsHexDigit(e[3])
    ensures ReadToken(e + tail, text, InQuotes)
         == ReadToken(tail, text + [HexDigitToInt(e[2]) * 16 + HexDigitToInt(e[3])], InQuotes)
  {
    hide IsHexDigit, HexDigitToInt;
    assert (e + tail)[4..] == tail;
  }

  lemma {:induction false} ReadPair(x: Byte, tail: seq<Byte>, text: seq<Byte>)
    requires x != 0 && x != LETTER_X && 0 !in tail
    ensures 0 !in [BACKSLASH, x] + tail
    ensures ReadToken([BACKSLASH, x] + tail, text, InQuotes) == ReadToken(tail, text + [Unescape(x)], InQuotes)
  {
    hide IsHexDigit, HexDigitToInt;
    assert ([BACKSLASH, x] + tail)[2..] == tail;
  }

  lemma SplitNothing()
    ensures SplitArgs([]) == Some([])
  {}

  lemma SkipNothing(s: seq<Byte>)
    requires 0 !in s && s != [] && !IsSpace(s[0])
    ensures SkipBlanks(s) == s
  {}

  /** The escapes are those of C. */
  lemma EscapesAsInC(b: Byte)
    ensures IsPrint(b) && b != '"' as int && b != '\\' as int ==> Escape(b) == [b]
    ensures b == '"' as int || b == '\\' as int ==> Escape(b) == ['\\' as int, b]
    ensures b == '\n' as int ==> Escape(b) == ['\\' as int, 'n' as int]
    ensures b == '\r' as int ==> Escape(b) == ['\\' as int, 'r' as int]
    ensures b == '\t' as int ==> Escape(b) == ['\\' as int, 't' as int]
    ensures b == 7 ==> Escape(b) == ['\\' as int, 'a' as int]
    ensures b == 8 ==> Escape(b) == ['\\' as int, 'b' as int]
    ensures !IsPrint(b) && !(7 <= b <= 10) && b != 13 ==>
              |Escape(b)| == 4 && Escape(b)[..2] == ['\\' as int, 'x' as int]
              && forall i :: 2 <= i < 4 ==> '0' as int <= Escape(b)[i] <= '9' as int
                                            || 'a' as int <= Escape(b)[i] <= 'f' as int
  {}

  // ----- lines of arguments --------------------------------------------------------------

  /** How an argument may be written: as it is, or a part of it as it is and the rest between single quotes or as
      sdscatrepr prints it. */
  datatype Arg =
    | Bare(word: seq<Byte>)
    | Single(word: seq<Byte>, text: seq<Byte>)
    | Double(word: seq<Byte>, text: seq<Byte>)

  function Value(a: Arg): seq<Byte> {
    if a.Bare? then a.word else a.word + a.text
  }

  predicate IsSeparator(b: Byte) { b == 32 || b == 10 || b == 13 || b == 9 }

  /** Bytes that mean themselves outside quotes: no separator, quote or NUL, and no blank in front. */
  predicate IsWord(w: seq<Byte>) {
    (w != [] ==> !IsSpace(w[0])) && forall i :: 0 <= i < |w| ==> !IsSeparator(w[i]) && w[i] !in [0, QUOTE, SINGLE]
  }

  /** A text before a closing single quote turns that into an escaped one. */
  predicate EndsInBackslash(s: seq<Byte>) {
    s != [] && s[|s| - 1] == BACKSLASH
  }

  predicate Writable(a: Arg) {
    IsWord(a.word) &&
    match a
    case Bare(word) => word != []
    case Single(_, text) => 0 !in text && !EndsInBackslash(text)
    case Double(_, _) => true
  }

  /** A backslash before every single quote. */
  function EscapeSingles(s: seq<Byte>): seq<Byte> {
    if s == [] then [] else (if s[0] == SINGLE then [BACKSLASH, SINGLE] else [s[0]]) + EscapeSingles(s[1..])
  }

  /** The quoted part of an argument. */
  function Quoted(a: Arg): seq<Byte> {
    match a
    case Bare(_) => []
    case Single(_, text) => [SINGLE] + EscapeSingles(text) + [SINGLE]
    case Double(_, text) => Repr(text)
  }

  function Spell(a: Arg): seq<Byte> {
    a.word + Quoted(a)
  }

  /** Separators only, and, but for the last gap of a line, at least one. */
  predicate IsGap(gap: seq<Byte>, last: bool) {
    (last || gap != []) && forall i :: 0 <= i < |gap| ==> IsSeparator(gap[i])
  }

  /** A line: every argument and the gap behind it. */
  function Layout(args: seq<Arg>, gaps: seq<seq<Byte>>): seq<Byte>
    requires |args| == |gaps|
  {
    if args == [] then [] else Spell(args[0]) + (gaps[0] + Layout(args[1..], gaps[1..]))
  }

  function Values(args: seq<Arg>): seq<seq<Byte>> {
    seq(|args|, i requires 0 <= i < |args| => Value(args[i]))
  }

  /** Outside quotes, a word is read byte by byte. */
  lemma {:induction false} ReadWord(w: seq<Byte>, tail: seq<Byte>, text: seq<Byte>)
    requires forall i :: 0 <= i < |w| ==> !IsSeparator(w[i]) && w[i] !in [0, QUOTE, SINGLE]
    requires 0 !in tail
    ensures 0 !in w + tail && ReadToken(w + tail, text, Plain) == ReadToken(tail, text + w, Plain)
    decreases |w|
  {
    if w == [] {
      assert w + tail == tail && text + w == text;
    } else {
      ReadWord(w[1..], tail, text + [w[0]]);
      assert (w + tail)[1..] == w[1..] + tail;
      assert text + [w[0]] + w[1..] == text + w;
    }
  }

  /** The end of a word. */
  lemma ReadEnd(tail: seq<Byte>, text: seq<Byte>)
    requires 0 !in tail && (tail == [] || IsSeparator(tail[0]))
    ensures ReadToken(tail, text, Plain) == Token(text, if tail == [] then [] else tail[1..])
  {}

  lemma {:induction false} SinglesNoNul(s: seq<Byte>)
    requires 0 !in s
    ensures 0 !in EscapeSingles(s)
  {
    if s != [] { SinglesNoNul(s[1..]); }
  }

  /** Between single quotes, a text is read as it is, but for a backslash at its end with a quote behind it. */
  lemma {:induction false} ReadSingles(s: seq<Byte>, tail: seq<Byte>, text: seq<Byte>)
    requires 0 !in s && 0 !in tail
    ensures 0 !in EscapeSingles(s) + tail
    ensures !EndsInBackslash(s) || At(tail, 0) != SINGLE ==>
              ReadToken(EscapeSingles(s) + tail, text, InSingle) == ReadToken(tail, text + s, InSingle)
    ensures EndsInBackslash(s) && At(tail, 0) == SINGLE ==>
              ReadToken(EscapeSingles(s) + tail, text, InSingle)
              == ReadToken(tail[1..], text + s[..|s| - 1] + [SINGLE], InSingle)
    decreases |s|
  {
    hide ReadToken;
    SinglesNoNul(s);
    if s == [] {
      assert EscapeSingles(s) + tail == tail && text + s == text;
    } else {
      hide EscapeSingles;
      ReadSingles(s[1..], tail, text + [s[0]]);
      ReadSingleStep(s, tail, text);
      assert s[1..] == [] ==> s[..|s| - 1] == [] && text + [] == text;
      assert text + [s[0]] + s[1..] == text + s;
      assert s[1..] != [] ==> text + [s[0]] + s[1..][..|s| - 2] == text + s[..|s| - 1];
    }
  }

  /** One byte of the text. */
  lemma ReadSingleStep(s: seq<Byte>, tail: seq<Byte>, text: seq<Byte>)
    requires s != [] && 0 !in s && 0 !in tail
    ensures 0 !in EscapeSingles(s) + tail && 0 !in EscapeSingles(s[1..]) + tail
    ensures ReadToken(EscapeSingles(s) + tail, text, InSingle)
         == if s == [BACKSLASH] && At(tail, 0) == SINGLE then ReadToken(tail[1..], text + [SINGLE], InSingle)
            else ReadToken(EscapeSingles(s[1..]) + tail, text + [s[0]], InSingle)
  {
    hide ReadToken;
    SinglesNoNul(s);
    SinglesNoNul(s[1..]);
    var rest := EscapeSingles(s[1..]) + tail;
    if s[0] == SINGLE {
      assert EscapeSingles(s) + tail == [BACKSLASH, SINGLE] + rest;
      ReadSingleEscape(rest, text);
    } else {
      assert EscapeSingles(s) + tail == [s[0]] + rest;
      if s == [BACKSLASH] && At(tail, 0) == SINGLE {
        assert rest == tail && [s[0]] + rest == [BACKSLASH, SINGLE] + tail[1..];
        ReadSingleEscape(tail[1..], text);
      } else {
        ReadSingleByte(s[0], rest, text);
      }
    }
  }

  lemma ReadSingleEscape(rest: seq<Byte>, text: seq<Byte>)
    requires 0 !in rest
    ensures 0 !in [BACKSLASH, SINGLE] + rest
    ensures ReadToken([BACKSLASH, SINGLE] + rest, text, InSingle) == ReadToken(rest, text + [SINGLE], InSingle)
  {
    assert ([BACKSLASH, SINGLE] + rest)[2..] == rest;
  }

  lemma ReadSingleByte(c: Byte, rest: seq<Byte>, text: seq<Byte>)
    requires c != 0 && c != SINGLE && 0 !in rest && (c == BACKSLASH ==> At(rest, 0) != SINGLE)
    ensures 0 !in [c] + rest
    ensures ReadToken([c] + rest, text, InSingle) == ReadToken(rest, text + [c], InSingle)
  {
    assert ([c] + rest)[1..] == rest;
  }

  /** A closing quote ends the argument if a blank or nothing follows; else, as without one, the quotes do not
      balance. */
  lemma ReadClose(quote: Byte, tail: seq<Byte>, text: seq<Byte>, mode: Mode)
    requires 0 !in tail && (quote, mode) in [(QUOTE, InQuotes), (SINGLE, InSingle)]
    ensures 0 !in [quote] + tail
    ensures ReadToken([quote] + tail, text, mode)
         == if tail == [] || IsSpace(tail[0]) then Token(text, tail) else Unbalanced
    ensures ReadToken([], text, mode) == Unbalanced
  {
    var q := [quote] + tail;
    assert q[1..] == tail && At(q, 1) == At(tail, 0);
  }

  /** Inside double quotes, the escapes of a string are read as the string, whatever follows. */
  lemma {:induction false} ReadDoubles(s: seq<Byte>, tail: seq<Byte>, text: seq<Byte>)
    requires 0 !in tail
    ensures 0 !in EscapeAll(s) + tail
    ensures ReadToken(EscapeAll(s) + tail, text, InQuotes) == ReadToken(tail, text + s, InQuotes)
    decreases |s|
  {
    hide Escape, ReadToken;
    EscapeNoNul(s);
    if s == [] {
      assert EscapeAll(s) + tail == tail && text + s == text;
    } else {
      EscapeNoNul(s[1..]);
      var rest := EscapeAll(s[1..]) + tail;
      assert EscapeAll(s) + tail == Escape(s[0]) + rest;
      ReadEscape(s[0], rest, text);
      ReadDoubles(s[1..], tail, text + [s[0]]);
      assert text + [s[0]] + s[1..] == text + s;
    }
  }

  /** A backslash and a byte without a meaning of its own stand for the byte. */
  lemma ReadBackslash(c: Byte, tail: seq<Byte>, text: seq<Byte>)
    requires c !in [0, 110, 114, 116, 98, 97] && 0 !in tail
    requires c == LETTER_X ==> !IsHexDigit(At(tail, 0)) || !IsHexDigit(At(tail, 1))
    ensures 0 !in [BACKSLASH, c] + tail
    ensures ReadToken([BACKSLASH, c] + tail, text, InQuotes) == ReadToken(tail, text + [c], InQuotes)
  {
    var s := [BACKSLASH, c] + tail;
    assert s[2..] == tail && At(s, 2) == At(tail, 0) && At(s, 3) == At(tail, 1);
  }

  /** Hex digits are read in either case. */
  lemma HexEitherCase(c: Byte)
    requires 'a' as int <= c <= 'f' as int
    ensures IsHexDigit(c) && IsHexDigit(c - 32) && HexDigitToInt(c) == HexDigitToInt(c - 32) == c - 'a' as int + 10
  {}

  /** Blanks at the start of a line are skipped. */
  lemma {:induction false} BlanksFirst(gap: seq<Byte>, s: seq<Byte>)
    requires 0 !in s && forall i :: 0 <= i < |gap| ==> IsSpace(gap[i])
    ensures 0 !in gap + s && SplitArgs(gap + s) == SplitArgs(s)
    decreases |gap|
  {
    hide ReadToken;
    if gap == [] {
      assert gap + s == s;
    } else {
      BlanksFirst(gap[1..], s);
      assert (gap + s)[1..] == gap[1..] + s;
      assert SkipBlanks(gap + s) == SkipBlanks(gap[1..] + s);
    }
  }

  /** What an argument reads as, before anything. */
  lemma ReadArg(a: Arg, tail: seq<Byte>)
    requires Writable(a) && 0 !in tail
    ensures 0 !in Spell(a) + tail
    ensures ReadToken(Spell(a) + tail, [], Plain)
         == if a.Bare? then ReadToken(tail, a.word, Plain)
            else if tail == [] || IsSpace(tail[0]) then Token(Value(a), tail) else Unbalanced
  {
    hide ReadToken;
    match a
    case Bare(w) =>
      assert Spell(a) + tail == w + tail && [] + w == w;
      ReadWord(w, tail, []);
    case Single(w, s) => ReadSingleArg(w, s, tail);
    case Double(w, s) => ReadDoubleArg(w, s, tail);
  }

  lemma ReadSingleArg(w: seq<Byte>, s: seq<Byte>, tail: seq<Byte>)
    requires IsWord(w) && 0 !in s && !EndsInBackslash(s) && 0 !in tail
    ensures 0 !in Spell(Single(w, s)) + tail
    ensures ReadToken(Spell(Single(w, s)) + tail, [], Plain)
         == if tail == [] || IsSpace(tail[0]) then Token(w + s, tail) else Unbalanced
  {
    hide ReadToken, EscapeSingles, IsSpace;
    var inner := EscapeSingles(s) + ([SINGLE] + tail);
    ReadClose(SINGLE, tail, w + s, InSingle);
    ReadSingles(s, [SINGLE] + tail, w);
    var quoted := [SINGLE] + inner;
    assert quoted[1..] == inner;
    Opens(quoted, w);
    ReadWord(w, quoted, []);
    assert [] + w == w;
    Quotation(w, SINGLE, EscapeSingles(s), tail);
  }

  lemma Quotation(w: seq<Byte>, quote: Byte, inner: seq<Byte>, tail: seq<Byte>)
    ensures w + ([quote] + inner + [quote]) + tail == w + ([quote] + (inner + ([quote] + tail)))
  {}

  lemma ReadDoubleArg(w: seq<Byte>, s: seq<Byte>, tail: seq<Byte>)
    requires IsWord(w) && 0 !in tail
    ensures 0 !in Spell(Double(w, s)) + tail
    ensures ReadToken(Spell(Double(w, s)) + tail, [], Plain)
         == if tail == [] || IsSpace(tail[0]) then Token(w + s, tail) else Unbalanced
  {
    hide ReadToken, EscapeAll, IsSpace;
    var inner := EscapeAll(s) + ([QUOTE] + tail);
    ReadClose(QUOTE, tail, w + s, InQuotes);
    ReadDoubles(s, [QUOTE] + tail, w);
    var quoted := [QUOTE] + inner;
    assert quoted[1..] == inner;
    Opens(quoted, w);
    ReadWord(w, quoted, []);
    assert [] + w == w;
    Quotation(w, QUOTE, EscapeAll(s), tail);
  }

  /** A quote begins the quoted part of an argument. */
  lemma Opens(s: seq<Byte>, text: seq<Byte>)
    requires 0 !in s && s != [] && (s[0] == SINGLE || s[0] == QUOTE)
    ensures ReadToken(s, text, Plain) == ReadToken(s[1..], text, if s[0] == SINGLE then InSingle else InQuotes)
  {}

  lemma SpellBegins(a: Arg, tail: seq<Byte>)
    requires Writable(a)
    ensures Spell(a) != [] && Spell(a) + tail != [] && !IsSpace((Spell(a) + tail)[0])
  {}

  /** An argument at the start of a line, in any of the three forms, and the gap behind it. */
  lemma FirstArg(a: Arg, gap: seq<Byte>, rest: seq<Byte>)
    requires Writable(a) && IsGap(gap, rest == []) && 0 !in rest
    ensures 0 !in Spell(a) + (gap + rest) && SplitArgs(Spell(a) + (gap + rest)) == Prepend([Value(a)], SplitArgs(rest))
  {
    hide SplitArgs, ReadToken, SkipBlanks, Spell, Value;
    var tail := gap + rest;
    var line := Spell(a) + tail;
    assert tail != [] ==> tail[0] in gap && IsSpace(tail[0]) && IsSeparator(tail[0]);
    BlanksFirst(gap, rest);
    ReadArg(a, tail);
    SpellBegins(a, tail);
    SkipNothing(line);
    if a.Bare? && tail != [] {
      ReadEnd(tail, a.word);
      assert tail[1..] == gap[1..] + rest;
      BlanksFirst(gap[1..], rest);
      BareValue(a);
      SplitStep(line, Value(a), tail[1..]);
    } else {
      ReadEnd([], a.word);
      BareValue(a);
      assert tail == [] ==> rest == [];
      SplitStep(line, Value(a), tail);
    }
  }

  lemma BareValue(a: Arg)
    ensures a.Bare? ==> Value(a) == a.word
  {}

  /** Arguments and what follows them on the line. */
  lemma {:induction false} LayoutThen(args: seq<Arg>, gaps: seq<seq<Byte>>, rest: seq<Byte>)
    requires |args| == |gaps| && 0 !in rest && forall i :: 0 <= i < |args| ==> Writable(args[i])
    requires forall i :: 0 <= i < |gaps| ==> IsGap(gaps[i], i == |gaps| - 1 && rest == [])
    ensures 0 !in Layout(args, gaps) + rest
    ensures SplitArgs(Layout(args, gaps) + rest) == Prepend(Values(args), SplitArgs(rest))
    decreases |args|
  {
    hide SplitArgs, Writable, Spell, IsGap, Value;
    if args == [] {
      assert Layout(args, gaps) + rest == rest;
      NothingBefore(SplitArgs(rest));
    } else {
      LayoutThen(args[1..], gaps[1..], rest);
      var more := Layout(args[1..], gaps[1..]) + rest;
      assert |gaps| > 1 ==> more != [] by { if |gaps| > 1 { SpellBegins(args[1], []); } }
      LastGap(gaps[0], |gaps| == 1 && rest == [], more == []);
      FirstArg(args[0], gaps[0], more);
      assert Layout(args, gaps) + rest == Spell(args[0]) + (gaps[0] + more);
      assert Values(args) == [Value(args[0])] + Values(args[1..]);
      Prepends(Value(args[0]), Values(args[1..]), SplitArgs(rest));
    }
  }

  lemma NothingBefore(o: Option<seq<seq<Byte>>>)
    ensures Prepend([], o) == o
  {
    if o.Some? { assert [] + o.value == o.value; }
  }

  lemma Prepends(t: seq<Byte>, v: seq<seq<Byte>>, o: Option<seq<seq<Byte>>>)
    ensures Prepend([t], Prepend(v, o)) == Prepend([t] + v, o)
  {
    if o.Some? { assert [t] + (v + o.value) == [t] + v + o.value; }
  }

  lemma LastGap(gap: seq<Byte>, last: bool, end: bool)
    requires IsGap(gap, last) && (last ==> end)
    ensures IsGap(gap, end)
  {}

  /** Any arguments, each written in any of the three forms, with separators before, between and behind them, split
      back into exactly their values. */
  lemma LineSplitsBack(lead: seq<Byte>, args: seq<Arg>, gaps: seq<seq<Byte>>)
    requires |args| == |gaps| && IsGap(lead, true) && forall i :: 0 <= i < |args| ==> Writable(args[i])
    requires forall i :: 0 <= i < |gaps| ==> IsGap(gaps[i], i == |gaps| - 1)
    ensures 0 !in lead + Layout(args, gaps)
    ensures SplitArgs(lead + Layout(args, gaps)) == Some(Values(args))
  {
    hide SplitArgs, Layout;
    LayoutThen(args, gaps, []);
    assert Layout(args, gaps) + [] == Layout(args, gaps);
    SplitNothing();
    assert Values(args) + [] == Values(args);
    BlanksFirst(lead, Layout(args, gaps));
  }

  /** But if one of them ends in a quote with something other than a blank behind it, nothing is returned. */
  lemma GluedQuote(lead: seq<Byte>, args: seq<Arg>, gaps: seq<seq<Byte>>, a: Arg, rest: seq<Byte>)
    requires |args| == |gaps| && IsGap(lead, true) && forall i :: 0 <= i < |args| ==> Writable(args[i])
    requires forall i :: 0 <= i < |gaps| ==> IsGap(gaps[i], false)
    requires Writable(a) && !a.Bare? && 0 !in rest && rest != [] && !IsSpace(rest[0])
    ensures 0 !in lead + (Layout(args, gaps) + (Spell(a) + rest))
    ensures SplitArgs(lead + (Layout(args, gaps) + (Spell(a) + rest))) == None
  {
    hide SplitArgs, ReadToken, Layout, Spell, IsGap;
    ReadArg(a, rest);
    SpellBegins(a, rest);
    SkipNothing(Spell(a) + rest);
    SplitUnbalanced(Spell(a) + rest);
    assert forall i :: 0 <= i < |gaps| ==> IsGap(gaps[i], i == |gaps| - 1 && Spell(a) + rest == []);
    LayoutThen(args, gaps, Spell(a) + rest);
    GapIsBlank(lead);
    BlanksFirst(lead, Layout(args, gaps) + (Spell(a) + rest));
  }

  lemma GapIsBlank(gap: seq<Byte>)
    requires IsGap(gap, true)
    ensures forall i :: 0 <= i < |gap| ==> IsSpace(gap[i])
  {}

  lemma SplitUnbalanced(s: seq<Byte>)
    requires 0 !in s && s != [] && SkipBlanks(s) == s && ReadToken(s, [], Plain) == Unbalanced
    ensures SplitArgs(s) == None
  {}

  /** A text that is alone on its line between single quotes is read back exactly when no backslash ends it; else the
      quotes do not balance. */
  lemma SingleQuotesExactly(a: seq<Byte>)
    requires 0 !in a
    ensures 0 !in Spell(Single([], a))
    ensures SplitArgs(Spell(Single([], a))) == if EndsInBackslash(a) then None else Some([a])
  {
    hide ReadToken, SplitArgs, SkipBlanks, EscapeSingles;
    var line, inner := Spell(Single([], a)), EscapeSingles(a) + [SINGLE];
    assert line == [SINGLE] + inner && line[1..] == inner;
    SplitNothing();
    ReadSingles(a, [SINGLE], []);
    if EndsInBackslash(a) {
      assert [SINGLE][1..] == [];
      SkipNothing(line);
      Opens(line, []);
      ReadClose(SINGLE, [], [] + a[..|a| - 1] + [SINGLE], InSingle);
      SplitUnbalanced(line);
    } else {
      FirstArg(Single([], a), [], []);
      assert line + ([] + []) == line && [a] + [] == [a] && [] + a == a;
    }
  }

  /** The printed forms of a list of strings, separated by spaces. */
  function Join(args: seq<seq<Byte>>): seq<Byte> {
    if args == [] then []
    else if |args| == 1 then Repr(args[0])
    else Repr(args[0]) + [SPACE] + Join(args[1..])
  }

  /**
   For every list of byte strings, printing each with sdscatrepr, separated by spaces, and
   splitting the line again gives exactly the list.
   */
  lemma {:induction false} PrintedArgsSplitBack(args: seq<seq<Byte>>)
    ensures 0 !in Join(args) && SplitArgs(Join(args)) == Some(args)
    decreases |args|
  {
    hide SplitArgs, Join, Repr;
    if args == [] {
      SplitNothing();
      JoinSteps(args);
    } else {
      PrintedArgsSplitBack(args[1..]);
      var a := Double([], args[0]);
      var gap, rest := if |args| == 1 then [] else [SPACE], Join(args[1..]);
      JoinSteps(args[1..]);
      FirstArg(a, gap, rest);
      JoinSteps(args);
      assert args == [args[0]] + args[1..];
    }
  }

  lemma JoinSteps(args: seq<seq<Byte>>)
    ensures args == [] ==> Join(args) == []
    ensures args != [] ==>
              var a := Double([], args[0]);
              Value(a) == args[0]
              && Join(args) == Spell(a) + ((if |args| == 1 then [] else [SPACE]) + Join(args[1..]))
  {
    if args != [] {
      var a := Double([], args[0]);
      assert Spell(a) == Repr(args[0]);
      assert Join(args) == Spell(a) + ((if |args| == 1 then [] else [SPACE]) + Join(args[1..]));
    }
  }
}
