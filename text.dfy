/**
 * String helpers standing for the JavaScript built-ins the core relies on:
 * `parseInt(s, 10)`, number-to-string formatting, `trim`, `toLowerCase`,
 * `replace(/\/$/, '')` and substring tests.
 */
module Text {
  import opened Wrappers

  predicate IsDigit(c: char) { '0' <= c <= '9' }

  predicate AllDigits(s: string) { forall i :: 0 <= i < |s| ==> IsDigit(s[i]) }

  function DigitValue(c: char): (d: nat)
    requires IsDigit(c)
    ensures d < 10
  {
    (c as int) - ('0' as int)
  }

  function DigitChar(d: nat): (c: char)
    requires d < 10
    ensures IsDigit(c) && DigitValue(c) == d
  {
    (('0' as int) + d) as char
  }

  /** The value `parseInt(s, 10)` gives for a string made of decimal digits only. */
  function DecimalValue(s: string): nat
    requires AllDigits(s)
    decreases |s|
  {
    if s == [] then 0 else DecimalValue(s[..|s| - 1]) * 10 + DigitValue(s[|s| - 1])
  }

  /** The digits before `k` are worth no more than the whole digit string. */
  lemma {:induction false} DecimalValuePrefix(s: string, k: nat)
    requires AllDigits(s) && k <= |s|
    ensures DecimalValue(s[..k]) <= DecimalValue(s)
    decreases |s|
  {
    if k < |s| {
      var init := s[..|s| - 1];
      assert s[..k] == init[..k];
      DecimalValuePrefix(init, k);
    } else {
      assert s[..k] == s;
    }
  }

  /** Decimal rendering of a natural number, as a template literal `${n}` prints it. */
  function NatToString(n: nat): (s: string)
    ensures |s| >= 1 && AllDigits(s)
    ensures |s| > 1 ==> s[0] != '0'
    decreases n
  {
    if n < 10 then [DigitChar(n)] else NatToString(n / 10) + [DigitChar(n % 10)]
  }

  /** Decimal rendering of an integer, with a leading '-' for negative values. */
  function IntToString(i: int): (s: string)
    ensures |s| >= 1
    ensures i >= 0 <==> IsDigit(s[0])
  {
    if i < 0 then "-" + NatToString(-i) else NatToString(i)
  }

  /** Reading back a rendered number gives the number. */
  lemma {:induction false} DecimalValueOfNatToString(n: nat)
    ensures DecimalValue(NatToString(n)) == n
    decreases n
  {
    var s := NatToString(n);
    if n >= 10 {
      DecimalValueOfNatToString(n / 10);
      assert s[..|s| - 1] == NatToString(n / 10);
    }
  }

  /** Leading zeros do not change the decimal value ("05" and "5" both read 5). */
  lemma {:induction false} DecimalValueLeadingZero(s: string)
    requires AllDigits(s)
    ensures AllDigits("0" + s) && DecimalValue("0" + s) == DecimalValue(s)
    decreases |s|
  {
    if s != [] {
      var t := "0" + s;
      assert t[..|t| - 1] == "0" + s[..|s| - 1];
      DecimalValueLeadingZero(s[..|s| - 1]);
    }
  }

  /** Rendering is one-to-one: different numbers never print alike. */
  lemma NatToStringInjective(m: nat, n: nat)
    requires NatToString(m) == NatToString(n)
    ensures m == n
  {
    DecimalValueOfNatToString(m);
    DecimalValueOfNatToString(n);
  }

  /**
   * The characters `String.prototype.trim` and `parseInt` skip: the ECMAScript
   * WhiteSpace (TAB, VT, FF, ZWNBSP and the Unicode space separators) and
   * LineTerminator (LF, CR, LS, PS) code points.
   */
  predicate IsSpace(c: char)
  {
    c == '\t' || c == '\n' || c == '\U{B}' || c == '\U{C}' || c == '\r' || c == ' '
    || c == '\U{A0}' || c == '\U{1680}' || ('\U{2000}' <= c <= '\U{200A}')
    || c == '\U{2028}' || c == '\U{2029}' || c == '\U{202F}' || c == '\U{205F}'
    || c == '\U{3000}' || c == '\U{FEFF}'
  }

  predicate AllSpace(s: string) { forall i :: 0 <= i < |s| ==> IsSpace(s[i]) }

  /** Index of the first non-space character at or after `i` (or |s|). */
  function SkipSpace(s: string, i: nat): (j: nat)
    requires i <= |s|
    ensures i <= j <= |s| && AllSpace(s[i..j])
    ensures j < |s| ==> !IsSpace(s[j])
    decreases |s| - i
  {
    if i < |s| && IsSpace(s[i]) then SkipSpace(s, i + 1) else i
  }

  /** Index just past the last non-space character before `j` (or 0). */
  function SkipSpaceBack(s: string, j: nat): (k: nat)
    requires j <= |s|
    ensures k <= j && AllSpace(s[k..j])
    ensures k > 0 ==> !IsSpace(s[k - 1])
    decreases j
  {
    if j > 0 && IsSpace(s[j - 1]) then
      var k := SkipSpaceBack(s, j - 1);
      assert s[k..j] == s[k..j - 1] + [s[j - 1]];
      k
    else j
  }

  /** Scanning back from `j` stops before passing a non-space character at `i`. */
  lemma {:induction false} SkipSpaceBackStops(s: string, j: nat, i: nat)
    requires i < j <= |s| && !IsSpace(s[i])
    ensures SkipSpaceBack(s, j) > i
    decreases j
  {
    if j - 1 > i { SkipSpaceBackStops(s, j - 1, i); }
  }

  /** `s.trim()`: the middle slice of `s` left once the white space at both ends is cut off. */
  function Trim(s: string): (t: string)
    ensures t == [] <==> AllSpace(s)
    ensures t != [] ==> !IsSpace(t[0]) && !IsSpace(t[|t| - 1])
    ensures exists i, j :: 0 <= i <= j <= |s| && t == s[i..j] && AllSpace(s[..i]) && AllSpace(s[j..])
  {
    var i := SkipSpace(s, 0);
    assert s[..i] == s[0..i];
    if i == |s| then
      assert s[0..|s|] == s;
      assert s[|s|..] == [];
      s[|s|..]
    else
      var j := SkipSpaceBack(s, |s|);
      SkipSpaceBackStops(s, |s|, i);
      assert s[j..] == s[j..|s|];
      s[i..j]
  }

  /** Trimming twice is trimming once. */
  lemma TrimIdempotent(s: string)
    ensures Trim(Trim(s)) == Trim(s)
  {
    var t := Trim(s);
    if t != [] {
      assert SkipSpace(t, 0) == 0;
      assert SkipSpaceBack(t, |t|) == |t|;
      assert t[0..|t|] == t;
    }
  }

  /** `toLowerCase` on one character; only A-Z are mapped (see README). */
  function LowerChar(c: char): char
  {
    if 'A' <= c <= 'Z' then ((c as int) + 32) as char else c
  }

  function ToLower(s: string): (t: string)
    ensures |t| == |s| && forall i :: 0 <= i < |s| ==> t[i] == LowerChar(s[i])
  {
    seq(|s|, i requires 0 <= i < |s| => LowerChar(s[i]))
  }

  /** `s.replace(/\/$/, '')`: at most one '/' removed, and only at the very end. */
  function StripTrailingSlash(s: string): (t: string)
    ensures t == s || t + "/" == s
    ensures t != s <==> (|s| > 0 && s[|s| - 1] == '/')
  {
    if |s| > 0 && s[|s| - 1] == '/' then s[..|s| - 1] else s
  }

  predicate StartsWith(s: string, p: string)
  {
    |p| <= |s| && s[..|p|] == p
  }

  predicate EndsWith(s: string, p: string)
  {
    |p| <= |s| && s[|s| - |p|..] == p
  }

  /** `p` occurs in `s` starting at index `i`. */
  predicate OccursAt(s: string, p: string, i: nat)
  {
    i + |p| <= |s| && s[i..i + |p|] == p
  }

  /** `s.includes(p)`, as the CSS attribute selector `[attr*="p"]` tests it. */
  predicate Contains(s: string, p: string)
  {
    exists i: nat | i <= |s| :: OccursAt(s, p, i)
  }

  /** End of the maximal run of decimal digits that starts at `i` (greedy `\d+`). */
  function DigitRunEnd(s: string, i: nat): (j: nat)
    requires i <= |s|
    ensures i <= j <= |s| && AllDigits(s[i..j])
    ensures j < |s| ==> !IsDigit(s[j])
    decreases |s| - i
  {
    if i < |s| && IsDigit(s[i]) then DigitRunEnd(s, i + 1) else i
  }

  /** The maximal digit run from `i` reaches past any digit run from `i`. */
  lemma {:induction false} DigitRunExtends(s: string, i: nat, j: nat)
    requires i <= j <= |s| && AllDigits(s[i..j])
    ensures j <= DigitRunEnd(s, i)
    decreases j - i
  {
    if i < j {
      assert IsDigit(s[i..j][0]);
      assert s[i + 1..j] == s[i..j][1..];
      DigitRunExtends(s, i + 1, j);
    }
  }

  /** A digit run that ends at a non-digit (or at the end) is exactly what `DigitRunEnd` finds. */
  lemma {:induction false} DigitRunEndIs(s: string, i: nat, j: nat)
    requires i <= j <= |s| && AllDigits(s[i..j])
    requires j < |s| ==> !IsDigit(s[j])
    ensures DigitRunEnd(s, i) == j
    decreases j - i
  {
    if i < j {
      assert IsDigit(s[i..j][0]);
      assert s[i + 1..j] == s[i..j][1..];
      DigitRunEndIs(s, i + 1, j);
    }
  }

  /**
   * `parseInt(s, 10)`: leading white space is skipped, an optional sign is read,
   * then the longest run of digits; `None` stands for NaN (no digit at all).
   */
  function ParseInt(s: string): (r: Option<int>)
  {
    var i := SkipSpace(s, 0);
    var negative := i < |s| && s[i] == '-';
    var k := if i < |s| && (s[i] == '-' || s[i] == '+') then i + 1 else i;
    var j := DigitRunEnd(s, k);
    if j == k then None
    else
      var v: int := DecimalValue(s[k..j]);
      Some(if negative then -v else v)
  }

  /**
   * `s` reads as a number: white space up to `i`, then an optional sign up to
   * `k`, then the maximal digit run `s[k..j]`.
   */
  predicate NumberAt(s: string, i: nat, k: nat, j: nat)
  {
    && i <= k < j <= |s|
    && AllSpace(s[..i])
    && (k == i || (k == i + 1 && (s[i] == '-' || s[i] == '+')))
    && AllDigits(s[k..j])
    && (j == |s| || !IsDigit(s[j]))
  }

  /** The value of the number `NumberAt(s, i, k, j)` describes. */
  function NumberValue(s: string, i: nat, k: nat, j: nat): int
    requires NumberAt(s, i, k, j)
  {
    var v: int := DecimalValue(s[k..j]);
    if k == i + 1 && s[i] == '-' then -v else v
  }

  /** Skipping white space from `i0` stops at the first non-space character. */
  lemma {:induction false} SkipSpaceIs(s: string, i0: nat, i: nat)
    requires i0 <= i < |s| && AllSpace(s[i0..i]) && !IsSpace(s[i])
    ensures SkipSpace(s, i0) == i
    decreases i - i0
  {
    if i0 < i {
      assert IsSpace(s[i0..i][0]);
      assert s[i0 + 1..i] == s[i0..i][1..];
      SkipSpaceIs(s, i0 + 1, i);
    }
  }

  /** A string that reads as a number parses to that number. */
  lemma ParseIntReadsNumber(s: string, i: nat, k: nat, j: nat)
    requires NumberAt(s, i, k, j)
    ensures ParseInt(s) == Some(NumberValue(s, i, k, j))
  {
    assert IsDigit(s[k..j][0]);
    assert s[..i] == s[0..i];
    SkipSpaceIs(s, 0, i);
    DigitRunEndIs(s, k, j);
  }

  /** `parseInt` yields a number only when the string reads as one, and then its value. */
  lemma ParseIntIsNumber(s: string)
    ensures AllSpace(s) ==> ParseInt(s).None?
    ensures ParseInt(s).Some? ==> exists i, k, j :: NumberAt(s, i, k, j) && ParseInt(s).value == NumberValue(s, i, k, j)
  {
    var i := SkipSpace(s, 0);
    var k := if i < |s| && (s[i] == '-' || s[i] == '+') then i + 1 else i;
    var j := DigitRunEnd(s, k);
    if j != k {
      assert s[..i] == s[0..i];
      assert NumberAt(s, i, k, j);
    }
  }

  /** On a plain digit string, `parseInt` gives its decimal value. */
  lemma ParseIntOfDigits(s: string)
    requires |s| > 0 && AllDigits(s)
    ensures ParseInt(s) == Some(DecimalValue(s))
  {
    assert !IsSpace(s[0]);
    assert SkipSpace(s, 0) == 0;
    DigitRunEndOfDigits(s, 0);
    assert s[0..|s|] == s;
  }

  lemma {:induction false} DigitRunEndOfDigits(s: string, i: nat)
    requires i <= |s| && AllDigits(s)
    ensures DigitRunEnd(s, i) == |s|
    decreases |s| - i
  {
    if i < |s| { DigitRunEndOfDigits(s, i + 1); }
  }

  /** `parseInt` reads back every rendered natural number. */
  lemma ParseIntOfNatToString(n: nat)
    ensures ParseInt(NatToString(n)) == Some(n)
  {
    ParseIntOfDigits(NatToString(n));
    DecimalValueOfNatToString(n);
  }

  /** `parseInt` reads back every rendered integer, sign included. */
  lemma ParseIntOfIntToString(i: int)
    ensures ParseInt(IntToString(i)) == Some(i)
  {
    if i >= 0 {
      ParseIntOfNatToString(i);
    } else {
      var d := NatToString(-i);
      var s := "-" + d;
      assert !IsSpace(s[0]);
      assert SkipSpace(s, 0) == 0;
      assert AllDigits(s[1..]) by { assert s[1..] == d; }
      DigitRunEndOfDigits(s[1..], 0);
      DigitRunEndIs(s, 1, |s|);
      assert s[1..|s|] == d;
      DecimalValueOfNatToString(-i);
    }
  }

  /** Where the pieces of a concatenation sit in it. */
  lemma Pieces(x: string, y: string, z: string)
    ensures (x + y + z)[..|x|] == x
    ensures (x + y + z)[|x|..|x| + |y|] == y
    ensures (x + y + z)[|x| + |y|..] == z
  {
  }

  /** A concatenation starts with its first part and ends with its second. */
  lemma Halves(x: string, y: string)
    ensures StartsWith(x + y, x) && EndsWith(x + y, y)
  {
    assert (x + y)[..|x|] == x;
    assert (x + y)[|x + y| - |y|..] == y;
  }

  /** `x + (m + y)` starts with `x` and ends with `y`. */
  lemma Framed(x: string, m: string, y: string)
    ensures StartsWith(x + (m + y), x) && EndsWith(x + (m + y), y)
  {
    var s := x + (m + y);
    assert s[..|x|] == x;
    assert s[|s| - |y|..] == (m + y)[|m|..];
    assert (m + y)[|m|..] == y;
  }
}
