/** The parts of JavaScript's string semantics the editor relies on:
    the whitespace set shared by `String.prototype.trim` and the regular
    expression class `\s`, the `trim` operation itself, and `String(n)` for
    integral numbers together with a reader that inverts it. */
module JsString {
  import opened Optional

  /** WhiteSpace code points of ECMA-262 (section 12.2): TAB, VT, FF, ZWNBSP
      and the Unicode space separators. */
  predicate IsWhiteSpace(c: char) {
    var n := c as int;
    || n == 0x09 || n == 0x0B || n == 0x0C || n == 0x20 || n == 0xA0
    || n == 0x1680 || (0x2000 <= n <= 0x200A) || n == 0x202F || n == 0x205F
    || n == 0x3000 || n == 0xFEFF
  }

  /** LineTerminator code points of ECMA-262 (section 12.3): LF, CR, LS, PS.
      These are exactly the characters the regular expression `.` refuses. */
  predicate IsLineTerminator(c: char) {
    var n := c as int;
    n == 0x0A || n == 0x0D || n == 0x2028 || n == 0x2029
  }

  /** The set `trim` strips and `\s` matches: both are defined by ECMA-262
      as WhiteSpace together with LineTerminator. */
  predicate IsSpace(c: char) {
    IsWhiteSpace(c) || IsLineTerminator(c)
  }

  predicate AllSpace(s: string) {
    forall i :: 0 <= i < |s| ==> IsSpace(s[i])
  }

  /** No whitespace at either end: the shape of every `trim` result. */
  predicate IsTrimmed(s: string) {
    |s| == 0 || (!IsSpace(s[0]) && !IsSpace(s[|s| - 1]))
  }

  /** Length of the maximal whitespace run starting at `from`. */
  function SpaceRun(s: string, from: nat): (w: nat)
    requires from <= |s|
    ensures from + w <= |s|
    ensures forall i :: from <= i < from + w ==> IsSpace(s[i])
    ensures from + w < |s| ==> !IsSpace(s[from + w])
    decreases |s| - from
  {
    if from < |s| && IsSpace(s[from]) then 1 + SpaceRun(s, from + 1) else 0
  }

  /** Length of the maximal whitespace run ending just before `upto`. */
  function SpaceRunBack(s: string, upto: nat): (w: nat)
    requires upto <= |s|
    ensures w <= upto
    ensures forall i :: upto - w <= i < upto ==> IsSpace(s[i])
    ensures w < upto ==> !IsSpace(s[upto - w - 1])
  {
    if upto > 0 && IsSpace(s[upto - 1]) then 1 + SpaceRunBack(s, upto - 1) else 0
  }

  /** The three facts in `SpaceRun`'s contract pin its value down. */
  lemma {:induction false} SpaceRunUnique(s: string, from: nat, w: nat)
    requires from + w <= |s|
    requires forall i :: from <= i < from + w ==> IsSpace(s[i])
    requires from + w < |s| ==> !IsSpace(s[from + w])
    ensures SpaceRun(s, from) == w
    decreases w
  {
    if w > 0 {
      SpaceRunUnique(s, from + 1, w - 1);
    }
  }

  lemma {:induction false} SpaceRunBackUnique(s: string, upto: nat, w: nat)
    requires w <= upto <= |s|
    requires forall i :: upto - w <= i < upto ==> IsSpace(s[i])
    requires w < upto ==> !IsSpace(s[upto - w - 1])
    ensures SpaceRunBack(s, upto) == w
    decreases w
  {
    if w > 0 {
      SpaceRunBackUnique(s, upto - 1, w - 1);
    }
  }

  /** Removes the maximal whitespace prefix. */
  function TrimStart(s: string): string {
    s[SpaceRun(s, 0)..]
  }

  /** Removes the maximal whitespace suffix. */
  function TrimEnd(s: string): string {
    s[..|s| - SpaceRunBack(s, |s|)]
  }

  /** `String.prototype.trim`: the text between the maximal whitespace
      prefix and the maximal whitespace suffix. */
  function Trim(s: string): (r: string)
    ensures IsTrimmed(r) && |r| <= |s|
  {
    var t := TrimStart(s);
    var r := TrimEnd(t);
    assert |r| > 0 ==> r[0] == t[0];
    r
  }

  /** `trim` removes only whitespace, and only from the two ends: the result
      is a slice of the input with whitespace on either side. */
  lemma TrimRemovesOnlySpace(s: string)
    ensures var r := Trim(s); var a := SpaceRun(s, 0);
      && a + |r| <= |s| && r == s[a..a + |r|]
      && AllSpace(s[..a]) && AllSpace(s[a + |r|..])
  {
    var a := SpaceRun(s, 0);
    var t := s[a..];
    var b := SpaceRunBack(t, |t|);
  }

  lemma TrimOfSpaces(s: string)
    requires AllSpace(s)
    ensures Trim(s) == []
  {
    SpaceRunUnique(s, 0, |s|);
  }

  lemma PaddedTrimStart(p: string, s: string, q: string)
    requires AllSpace(p) && !AllSpace(s)
    ensures TrimStart(p + s + q) == TrimStart(s) + q
  {
    var u := p + s + q;
    var a := SpaceRun(s, 0);
    SpaceRunUnique(u, 0, |p| + a);
    assert u[|p| + a..] == s[a..] + q;
  }

  lemma PaddedTrimEnd(t: string, q: string)
    requires AllSpace(q) && |t| > 0 && !IsSpace(t[0])
    ensures TrimEnd(t + q) == TrimEnd(t)
  {
    var b := SpaceRunBack(t, |t|);
    SpaceRunBackUnique(t + q, |t| + |q|, |q| + b);
    assert (t + q)[..|t| - b] == t[..|t| - b];
  }

  /** Whitespace around a line never changes what `trim` returns. */
  lemma TrimIgnoresPadding(p: string, s: string, q: string)
    requires AllSpace(p) && AllSpace(q)
    ensures Trim(p + s + q) == Trim(s)
  {
    if AllSpace(s) {
      TrimOfSpaces(p + s + q);
      TrimOfSpaces(s);
    } else {
      PaddedTrimStart(p, s, q);
      PaddedTrimEnd(TrimStart(s), q);
    }
  }

  /** `trim` is idempotent. */
  lemma TrimIdempotent(s: string)
    ensures Trim(Trim(s)) == Trim(s)
  {
  }

  // ---------------------------------------------------------------------
  // UTF-16 length

  /** Length in UTF-16 code units, the unit of JavaScript string lengths and
      offsets: a code point above U+FFFF takes a surrogate pair. */
  function Utf16Length(s: string): (n: nat)
    ensures |s| <= n <= 2 * |s|
    decreases |s|
  {
    if |s| == 0 then 0
    else Utf16Length(s[..|s| - 1]) + (if s[|s| - 1] as int > 0xFFFF then 2 else 1)
  }

  lemma {:induction false} Utf16LengthAppend(a: string, b: string)
    ensures Utf16Length(a + b) == Utf16Length(a) + Utf16Length(b)
    decreases |b|
  {
    if |b| > 0 {
      assert (a + b)[..|a + b| - 1] == a + b[..|b| - 1];
      Utf16LengthAppend(a, b[..|b| - 1]);
    } else {
      assert a + b == a;
    }
  }

  /** Text within the Basic Multilingual Plane has as many UTF-16 code units
      as characters; every character beyond it adds one more. */
  lemma {:induction false} Utf16LengthOfBmp(s: string)
    requires forall i :: 0 <= i < |s| ==> s[i] as int <= 0xFFFF
    ensures Utf16Length(s) == |s|
    decreases |s|
  {
    if |s| > 0 {
      Utf16LengthOfBmp(s[..|s| - 1]);
    }
  }

  // ---------------------------------------------------------------------
  // String(n) for integral numbers, and its inverse.

  predicate IsDigit(c: char) {
    '0' <= c <= '9'
  }

  function DigitChar(d: nat): (c: char)
    requires d < 10
    ensures IsDigit(c)
    ensures c == '0' <==> d == 0
  {
    ['0', '1', '2', '3', '4', '5', '6', '7', '8', '9'][d]
  }

  function DigitValue(c: char): (d: nat)
    requires IsDigit(c)
    ensures d < 10 && DigitChar(d) == c
  {
    (c as int - '0' as int)
  }

  /** Shortest decimal spelling of a natural number, as `String(n)` gives it:
      no leading zero, except for zero itself. */
  function NatToString(n: nat): (s: string)
    ensures |s| > 0
    ensures forall i :: 0 <= i < |s| ==> IsDigit(s[i])
    ensures s[0] == '0' <==> n == 0
    ensures n == 0 ==> s == "0"
    decreases n
  {
    if n < 10 then [DigitChar(n)] else NatToString(n / 10) + [DigitChar(n % 10)]
  }

  /** `String(n)` for an integral JavaScript number. */
  function IntToString(n: int): (s: string)
  {
    if n < 0 then "-" + NatToString(-n) else NatToString(n)
  }

  /** Value of a non-empty run of decimal digits. */
  function DigitsValue(s: string): nat
    requires forall i :: 0 <= i < |s| ==> IsDigit(s[i])
    decreases |s|
  {
    if |s| == 0 then 0 else DigitsValue(s[..|s| - 1]) * 10 + DigitValue(s[|s| - 1])
  }

  predicate AllDigits(s: string) {
    |s| > 0 && forall i :: 0 <= i < |s| ==> IsDigit(s[i])
  }

  /** Reads an optionally signed decimal integer; anything else is malformed. */
  function ParseInt(s: string): (r: Option<int>)
    ensures r.Some? ==> AllDigits(s) || (|s| > 1 && s[0] == '-' && AllDigits(s[1..]))
  {
    if |s| > 0 && s[0] == '-' then
      if AllDigits(s[1..]) then var v: int := DigitsValue(s[1..]); Some(-v) else None
    else if AllDigits(s) then Some(DigitsValue(s))
    else None
  }

  lemma {:induction false} NatToStringRoundTrip(n: nat)
    ensures DigitsValue(NatToString(n)) == n
    decreases n
  {
    if n >= 10 {
      var s := NatToString(n);
      NatToStringRoundTrip(n / 10);
      assert s[..|s| - 1] == NatToString(n / 10);
    }
  }

  /** Reading back what `String(n)` wrote yields `n`. */
  lemma IntToStringRoundTrip(n: int)
    ensures ParseInt(IntToString(n)) == Some(n)
  {
    var s := IntToString(n);
    if n < 0 {
      var t := NatToString(-n);
      NatToStringRoundTrip(-n);
      assert s == "-" + t && s[0] == '-' && s[1..] == t;
      assert AllDigits(t);
    } else {
      NatToStringRoundTrip(n);
      assert IsDigit(s[0]) && s[0] != '-';
      assert AllDigits(s);
    }
  }
}
