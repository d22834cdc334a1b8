/**
 * The JavaScript string operations the pages use on user input:
 * `String.prototype.trim`, `parseInt` with no radix, the decimal form of an
 * integer, and upper/lower case of the ASCII letters in country codes.
 */
module JsText {
  import opened AppData

  /** ECMAScript WhiteSpace and LineTerminator code points, the set trim() and parseInt() skip. */
  predicate IsJsWhitespace(c: char) {
    // TAB, VT, FF, SPACE, NBSP, ZWNBSP
    c == '\U{0009}' || c == '\U{000B}' || c == '\U{000C}' || c == '\U{0020}' || c == '\U{00A0}'
    || c == '\U{FEFF}'
    // the other Zs (space separator) code points
    || c == '\U{1680}' || ('\U{2000}' <= c <= '\U{200A}') || c == '\U{202F}' || c == '\U{205F}'
    || c == '\U{3000}'
    // LF, CR, LINE SEPARATOR, PARAGRAPH SEPARATOR
    || c == '\U{000A}' || c == '\U{000D}' || c == '\U{2028}' || c == '\U{2029}'
  }

  predicate IsBlank(s: string) {
    forall i :: 0 <= i < |s| ==> IsJsWhitespace(s[i])
  }

  /** Drops leading whitespace. */
  function TrimStart(s: string): (r: string)
    ensures |r| <= |s|
  {
    if s != [] && IsJsWhitespace(s[0]) then TrimStart(s[1..]) else s
  }

  /** Drops trailing whitespace. */
  function TrimEnd(s: string): (r: string)
    ensures |r| <= |s|
  {
    if s != [] && IsJsWhitespace(s[|s| - 1]) then TrimEnd(s[..|s| - 1]) else s
  }

  /** TrimStart keeps a suffix of s, drops only whitespace, and stops at a non-whitespace character. */
  lemma {:induction false} TrimStartFacts(s: string)
    ensures var r := TrimStart(s);
            && r == s[|s| - |r|..]
            && IsBlank(s[..|s| - |r|])
            && (r != [] ==> !IsJsWhitespace(r[0]))
  {
    if s != [] && IsJsWhitespace(s[0]) {
      TrimStartFacts(s[1..]);
      var r := TrimStart(s[1..]);
      assert s[..|s| - |r|] == [s[0]] + s[1..][..|s[1..]| - |r|];
      BlankConcat([s[0]], s[1..][..|s[1..]| - |r|]);
    }
  }

  /** TrimEnd keeps a prefix of s, drops only whitespace, and stops at a non-whitespace character. */
  lemma {:induction false} TrimEndFacts(s: string)
    ensures var r := TrimEnd(s);
            && r == s[..|r|]
            && IsBlank(s[|r|..])
            && (r != [] ==> !IsJsWhitespace(r[|r| - 1]))
  {
    if s != [] && IsJsWhitespace(s[|s| - 1]) {
      TrimEndFacts(s[..|s| - 1]);
      var r := TrimEnd(s[..|s| - 1]);
      assert s[|r|..] == s[..|s| - 1][|r|..] + [s[|s| - 1]];
      BlankConcat(s[..|s| - 1][|r|..], [s[|s| - 1]]);
    }
  }

  /** `s.trim()`. */
  function Trim(s: string): string {
    TrimEnd(TrimStart(s))
  }

  lemma {:induction false} BlankConcat(a: string, b: string)
    requires IsBlank(a) && IsBlank(b)
    ensures IsBlank(a + b)
  {
    assert forall i :: |a| <= i < |a + b| ==> (a + b)[i] == b[i - |a|];
  }

  /** The guard `!s.trim()`: a string trims to "" exactly when it is all whitespace. */
  lemma {:induction false} TrimEmptyIffBlank(s: string)
    ensures Trim(s) == [] <==> IsBlank(s)
  {
    var a := TrimStart(s);
    var k := |s| - |a|;
    TrimStartFacts(s);
    TrimEndFacts(a);
    if Trim(s) == [] {
      assert a[0..] == a;
      BlankConcat(s[..k], a);
      assert s == s[..k] + a;
    } else if a != [] {
      assert a[0] == s[k];
    }
  }

  /** trim() keeps one slice of s and drops only whitespace before and after it. */
  lemma {:induction false} TrimShape(s: string)
    ensures var k := |s| - |TrimStart(s)|;
            && k + |Trim(s)| <= |s|
            && Trim(s) == s[k..k + |Trim(s)|]
            && IsBlank(s[..k]) && IsBlank(s[k + |Trim(s)|..])
  {
    var a := TrimStart(s);
    var b := TrimEnd(a);
    TrimStartFacts(s);
    TrimEndFacts(a);
    SliceOfSuffix(s, |s| - |a|, |b|);
  }

  /** Slicing the suffix s[k..] is slicing s from k. */
  lemma {:induction false} SliceOfSuffix(s: string, k: nat, n: nat)
    requires k + n <= |s|
    ensures s[k..][..n] == s[k..k + n]
    ensures s[k..][n..] == s[k + n..]
  {
  }

  /** What trim() leaves neither starts nor ends with whitespace. */
  lemma {:induction false} TrimEnds(s: string)
    ensures Trim(s) != [] ==> !IsJsWhitespace(Trim(s)[0]) && !IsJsWhitespace(Trim(s)[|Trim(s)| - 1])
  {
    var a := TrimStart(s);
    var b := TrimEnd(a);
    TrimStartFacts(s);
    TrimEndFacts(a);
    if b != [] {
      assert b[0] == a[0];
    }
  }

  // ----- integers as decimal text -------------------------------------------

  predicate IsDigit(c: char) { '0' <= c <= '9' }

  function DigitValue(c: char): int
    requires IsDigit(c)
  {
    c as int - '0' as int
  }

  function DigitChar(d: int): (c: char)
    requires 0 <= d < 10
    ensures IsDigit(c) && DigitValue(c) == d
  {
    ('0' as int + d) as char
  }

  /** Length of the longest prefix of s made of decimal digits. */
  function DigitRun(s: string): (n: nat)
    ensures n <= |s|
    ensures forall i :: 0 <= i < n ==> IsDigit(s[i])
    ensures n < |s| ==> !IsDigit(s[n])
  {
    if s != [] && IsDigit(s[0]) then 1 + DigitRun(s[1..]) else 0
  }

  /** The value of a string of decimal digits, most significant first. */
  function DigitsValue(s: string): (v: nat)
    requires forall i :: 0 <= i < |s| ==> IsDigit(s[i])
  {
    if s == [] then 0 else 10 * DigitsValue(s[..|s| - 1]) + DigitValue(s[|s| - 1])
  }

  predicate IsHexDigit(c: char) { IsDigit(c) || 'a' <= c <= 'f' || 'A' <= c <= 'F' }

  function HexDigitValue(c: char): (v: int)
    requires IsHexDigit(c)
    ensures 0 <= v < 16
  {
    if IsDigit(c) then DigitValue(c)
    else if 'a' <= c <= 'f' then c as int - 'a' as int + 10
    else c as int - 'A' as int + 10
  }

  /** Length of the longest prefix of s made of hexadecimal digits. */
  function HexRun(s: string): (n: nat)
    ensures n <= |s|
    ensures forall i :: 0 <= i < n ==> IsHexDigit(s[i])
    ensures n < |s| ==> !IsHexDigit(s[n])
  {
    if s != [] && IsHexDigit(s[0]) then 1 + HexRun(s[1..]) else 0
  }

  /** The value of a string of hexadecimal digits, most significant first. */
  function HexValue(s: string): (v: nat)
    requires forall i :: 0 <= i < |s| ==> IsHexDigit(s[i])
  {
    if s == [] then 0 else 16 * HexValue(s[..|s| - 1]) + HexDigitValue(s[|s| - 1])
  }

  /** A "0x" or "0X" prefix, which makes parseInt with no radix read hexadecimal. */
  predicate HasHexPrefix(s: string) {
    |s| >= 2 && s[0] == '0' && (s[1] == 'x' || s[1] == 'X')
  }

  /** The decimal digits of a natural number (no leading zeros; "0" for 0). */
  function NatDigits(n: nat): (s: string)
    ensures s != [] && forall i :: 0 <= i < |s| ==> IsDigit(s[i])
  {
    if n < 10 then [DigitChar(n)] else NatDigits(n / 10) + [DigitChar(n % 10)]
  }

  /** `String(n)` for an integer n. */
  function IntToString(n: int): string {
    if n < 0 then "-" + NatDigits(-n) else NatDigits(n)
  }

  /**
   * `parseInt(s)` with no radix: skip leading whitespace, read an optional sign,
   * then, after a "0x" or "0X" prefix, the longest run of hexadecimal digits, and
   * otherwise the longest run of decimal digits; None stands for NaN (no digit of
   * the radix at all, so "0x" alone is NaN).
   */
  function ParseInt(s: string): (r: Option<int>)
    ensures r.Some? ==> exists k :: 0 <= k < |s| && IsDigit(s[k])
  {
    var t := TrimStart(s);
    var r := ParseSigned(t);
    TrimStartFacts(s);
    assert r.Some? ==> IsDigit(s[|s| - |t| + DigitStart(t)]);
    r
  }

  /** Where the digits start in a trimmed string: after a leading sign, if any. */
  function DigitStart(t: string): (k: nat)
    ensures k <= |t|
  {
    if t != [] && (t[0] == '-' || t[0] == '+') then 1 else 0
  }

  /** The part of parseInt after the whitespace: an optional sign, then hexadecimal or decimal digits. */
  function ParseSigned(t: string): (r: Option<int>)
    ensures r.Some? ==> DigitStart(t) < |t| && IsDigit(t[DigitStart(t)])
    ensures HasHexPrefix(t[DigitStart(t)..]) ==> (r.Some? <==> HexRun(t[DigitStart(t) + 2..]) > 0)
    ensures !HasHexPrefix(t[DigitStart(t)..]) ==> (r.Some? <==> DigitRun(t[DigitStart(t)..]) > 0)
  {
    var body := t[DigitStart(t)..];
    if HasHexPrefix(body) then
      var hex := body[2..];
      var n := HexRun(hex);
      if n == 0 then None
      else
        var v: int := HexValue(hex[..n]);
        Some(if t[0] == '-' then -v else v)
    else
      var n := DigitRun(body);
      if n == 0 then None
      else
        var v: int := DigitsValue(body[..n]);
        Some(if t[0] == '-' then -v else v)
  }

  lemma {:induction false} NatDigitsValue(n: nat)
    ensures DigitsValue(NatDigits(n)) == n
  {
    if n >= 10 {
      NatDigitsValue(n / 10);
      var s := NatDigits(n);
      assert s[..|s| - 1] == NatDigits(n / 10);
    }
  }

  lemma {:induction false} DigitRunAll(s: string)
    requires forall i :: 0 <= i < |s| ==> IsDigit(s[i])
    ensures DigitRun(s) == |s|
  {
  }

  /** A digit (or a minus sign) is not whitespace, so trimming a string that starts with one keeps it whole. */
  lemma {:induction false} TrimStartKeeps(s: string)
    requires s != [] && (IsDigit(s[0]) || s[0] == '-')
    ensures TrimStart(s) == s
  {
  }

  /** parseInt of a run of digits is their value. */
  lemma {:induction false} ParseDigits(d: string)
    requires d != [] && forall i :: 0 <= i < |d| ==> IsDigit(d[i])
    ensures ParseInt(d) == Some(DigitsValue(d))
  {
    TrimStartKeeps(d);
    ParseUntrimmed(d);
    DigitRunAll(d);
    assert d[0..] == d && d[..|d|] == d;
  }

  /** After the whitespace, a minus sign and a run of digits read as minus their value. */
  lemma {:induction false} ParseSignedNegative(s: string)
    requires |s| >= 2 && s[0] == '-' && forall i :: 1 <= i < |s| ==> IsDigit(s[i])
    ensures ParseSigned(s) == Some(-(DigitsValue(s[1..]) as int))
  {
    var d := s[1..];
    assert DigitStart(s) == 1;
    DigitRunAll(d);
    assert d[..|d|] == d;
  }

  /** parseInt of a minus sign followed by a run of digits is minus their value. */
  lemma {:induction false} ParseNegative(s: string)
    requires |s| >= 2 && s[0] == '-' && forall i :: 1 <= i < |s| ==> IsDigit(s[i])
    ensures ParseInt(s) == Some(-(DigitsValue(s[1..]) as int))
  {
    ParseSignedNegative(s);
    TrimStartKeeps(s);
    ParseUntrimmed(s);
  }

  /** parseInt of a string with no leading whitespace is the signed-digits reading of it. */
  lemma {:induction false} ParseUntrimmed(s: string)
    requires TrimStart(s) == s
    ensures ParseInt(s) == ParseSigned(s)
  {
  }

  /** parseInt of "0x" or "0X" and a run of hexadecimal digits is their value. */
  lemma {:induction false} ParseHex(s: string)
    requires HasHexPrefix(s) && |s| > 2 && forall i :: 2 <= i < |s| ==> IsHexDigit(s[i])
    ensures ParseInt(s) == Some(HexValue(s[2..]) as int)
  {
    TrimStartKeeps(s);
    ParseUntrimmed(s);
    var h := s[2..];
    HexRunAll(h);
    assert s[0..] == s && h[..|h|] == h;
  }

  lemma {:induction false} HexRunAll(s: string)
    requires forall i :: 0 <= i < |s| ==> IsHexDigit(s[i])
    ensures HexRun(s) == |s|
  {
  }

  /** parseInt reads back exactly the integer that IntToString wrote. */
  lemma {:induction false} ParseIntToString(n: int)
    ensures ParseInt(IntToString(n)) == Some(n)
  {
    var m: nat := if n < 0 then -n else n;
    NatDigitsValue(m);
    if n < 0 {
      var s := IntToString(n);
      assert s[1..] == NatDigits(m);
      ParseNegative(s);
    } else {
      ParseDigits(NatDigits(m));
    }
  }

  // ----- ASCII case ------------------------------------------------------------

  predicate IsUpperAscii(c: char) { 'A' <= c <= 'Z' }
  predicate IsLowerAscii(c: char) { 'a' <= c <= 'z' }

  function UpperChar(c: char): char {
    if IsLowerAscii(c) then (c as int - 32) as char else c
  }

  function LowerChar(c: char): char {
    if IsUpperAscii(c) then (c as int + 32) as char else c
  }

  /** `s.toUpperCase()` on ASCII letters. */
  function ToUpper(s: string): (r: string)
    ensures |r| == |s|
    ensures forall i :: 0 <= i < |s| ==> r[i] == UpperChar(s[i])
  {
    seq(|s|, i requires 0 <= i < |s| => UpperChar(s[i]))
  }

  /** `s.toLowerCase()` on ASCII letters. */
  function ToLower(s: string): (r: string)
    ensures |r| == |s|
    ensures forall i :: 0 <= i < |s| ==> r[i] == LowerChar(s[i])
  {
    seq(|s|, i requires 0 <= i < |s| => LowerChar(s[i]))
  }

  /** Lower-casing an upper-cased letter string gives back its lower-case form. */
  lemma {:induction false} LowerOfUpper(s: string)
    ensures ToLower(ToUpper(s)) == ToLower(s)
  {
  }
}
