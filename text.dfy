/** The pieces of `java.lang.String`, `Integer` and commons-lang `StringUtils`
    that the core relies on, over Dafny strings.

    Java `int` arithmetic is modelled with the subset type `Int32` and an explicit
    two's-complement wrap-around (`Wrap32`).
 */
module Text {
  import opened Wrappers

  const MinInt32: int := -0x8000_0000
  const MaxInt32: int := 0x7fff_ffff

  /** A Java `int`. */
  type Int32 = x: int | -0x8000_0000 <= x <= 0x7fff_ffff

  /** Two's-complement truncation of an unbounded integer to a Java `int`. */
  function Wrap32(x: int): (r: Int32)
    ensures (r - x) % 0x1_0000_0000 == 0
    ensures MinInt32 <= x <= MaxInt32 ==> r == x
  {
    var m := x % 0x1_0000_0000;
    if m <= MaxInt32 then m else m - 0x1_0000_0000
  }

  // ---------------------------------------------------------------------------
  // Decimal numerals: Integer.toString(int) and Integer.parseInt(String)
  // ---------------------------------------------------------------------------

  predicate IsDigit(c: char) {
    '0' <= c <= '9'
  }

  predicate AllDigits(s: string) {
    forall i :: 0 <= i < |s| ==> IsDigit(s[i])
  }

  function DigitValue(c: char): (d: nat)
    requires IsDigit(c)
    ensures d < 10
  {
    c as int - '0' as int
  }

  function DigitChar(d: nat): (c: char)
    requires d < 10
    ensures IsDigit(c) && DigitValue(c) == d
  {
    ('0' as int + d) as char
  }

  /** The decimal digits of `n`, most significant first, without leading zeros. */
  function NatToDecimal(n: nat): (s: string)
    ensures |s| > 0 && AllDigits(s)
    ensures n > 0 ==> s[0] != '0'
    decreases n
  {
    if n < 10 then [DigitChar(n)] else NatToDecimal(n / 10) + [DigitChar(n % 10)]
  }

  /** Integer.toString(int): an optional minus sign followed by the digits of the magnitude. */
  function IntToString(n: int): (s: string)
    ensures |s| > 0
    ensures (n < 0) == (s[0] == '-')
    ensures AllDigits(if n < 0 then s[1..] else s)
  {
    if n < 0 then "-" + NatToDecimal(-n) else NatToDecimal(n)
  }

  /** The value of a run of decimal digits, leading zeros allowed. */
  function DigitsValue(s: string): nat
    requires AllDigits(s)
    decreases |s|
  {
    if |s| == 0 then 0 else DigitsValue(s[..|s| - 1]) * 10 + DigitValue(s[|s| - 1])
  }

  /** An optional '+' or '-' followed by at least one ASCII digit. */
  predicate SignedNumeral(s: string) {
    && |s| > 0
    && (if s[0] == '-' || s[0] == '+' then |s| > 1 && AllDigits(s[1..]) else AllDigits(s))
  }

  /** The mathematical value of a signed numeral. */
  function NumeralValue(s: string): int
    requires SignedNumeral(s)
  {
    if s[0] == '-' then -(DigitsValue(s[1..]) as int)
    else if s[0] == '+' then DigitsValue(s[1..])
    else DigitsValue(s)
  }

  /** Integer.parseInt(s) with radix 10: the string must be a signed numeral whose
      value fits in an `int`; anything else raises NumberFormatException. */
  function ParseInt(s: string): (r: Result<Int32>)
    ensures r.Ok? <==> SignedNumeral(s) && MinInt32 <= NumeralValue(s) <= MaxInt32
    ensures r.Ok? ==> r.value == NumeralValue(s)
    ensures r.Err? ==> r.error == NumberFormat
  {
    if |s| == 0 then Err(NumberFormat)
    else
      var digits := if s[0] == '-' || s[0] == '+' then s[1..] else s;
      if |digits| == 0 || !AllDigits(digits) then Err(NumberFormat)
      else
        var v := if s[0] == '-' then -(DigitsValue(digits) as int) else DigitsValue(digits) as int;
        if MinInt32 <= v <= MaxInt32 then Ok(v) else Err(NumberFormat)
  }

  lemma {:induction false} DecimalDigitsValue(n: nat)
    ensures DigitsValue(NatToDecimal(n)) == n
    decreases n
  {
    if n >= 10 {
      var a := NatToDecimal(n / 10);
      var s := a + [DigitChar(n % 10)];
      assert s[..|s| - 1] == a;
      DecimalDigitsValue(n / 10);
    }
  }

  /** Integer.parseInt(Integer.toString(n)) == n for every Java int. */
  lemma ParseIntToString(n: Int32)
    ensures ParseInt(IntToString(n)) == Ok(n)
  {
    NumeralOfIntToString(n);
  }

  lemma NumeralOfIntToString(n: int)
    ensures SignedNumeral(IntToString(n)) && NumeralValue(IntToString(n)) == n
  {
    if n < 0 {
      var d := NatToDecimal(-n);
      assert IntToString(n)[1..] == d;
      DecimalDigitsValue(-n);
    } else {
      DecimalDigitsValue(n);
    }
  }

  // ---------------------------------------------------------------------------
  // Substrings and String.replace(CharSequence, CharSequence)
  // ---------------------------------------------------------------------------

  /** `sub` occurs in `s` starting at index `i`. */
  predicate OccursAt(s: string, sub: string, i: int) {
    0 <= i && i + |sub| <= |s| && s[i..i + |sub|] == sub
  }

  /** String.contains: `sub` occurs somewhere in `s`. */
  predicate Contains(s: string, sub: string) {
    exists i :: 0 <= i <= |s| && OccursAt(s, sub, i)
  }

  /** String.replace with an empty target: the replacement before every character and at the end. */
  function InsertEverywhere(s: string, replacement: string): string
    decreases |s|
  {
    if |s| == 0 then replacement else replacement + [s[0]] + InsertEverywhere(s[1..], replacement)
  }

  /** String.replace(target, replacement): every non-overlapping occurrence of `target`,
      scanning left to right, is replaced; the replacement text is not rescanned. */
  function ReplaceAll(s: string, target: string, replacement: string): (r: string)
    ensures |target| == 0 ==> r == InsertEverywhere(s, replacement)
    ensures 0 < |target| == |replacement| ==> |r| == |s|
    ensures 0 < |target| && |s| < |target| ==> r == s
    decreases |s|
  {
    if |target| == 0 then InsertEverywhere(s, replacement)
    else if |s| < |target| then s
    else if s[..|target|] == target then replacement + ReplaceAll(s[|target|..], target, replacement)
    else [s[0]] + ReplaceAll(s[1..], target, replacement)
  }

  /** A string that does not contain the target is left unchanged. */
  lemma {:induction false} ReplaceAllAbsent(s: string, target: string, replacement: string)
    requires |target| > 0 && !Contains(s, target)
    ensures ReplaceAll(s, target, replacement) == s
    decreases |s|
  {
    if |s| >= |target| {
      assert !OccursAt(s, target, 0);
      assert s[0..|target|] == s[..|target|];
      if !Contains(s[1..], target) {
        ReplaceAllAbsent(s[1..], target, replacement);
        assert s == [s[0]] + s[1..];
      } else {
        var i :| 0 <= i <= |s[1..]| && OccursAt(s[1..], target, i);
        assert s[1..][i..i + |target|] == s[i + 1..i + 1 + |target|];
        assert OccursAt(s, target, i + 1);
        assert false;
      }
    }
  }

  /** Replacing a target by itself changes nothing. */
  lemma {:induction false} ReplaceAllSelf(s: string, target: string)
    requires |target| > 0
    ensures ReplaceAll(s, target, target) == s
    decreases |s|
  {
    if |s| >= |target| {
      if s[..|target|] == target {
        ReplaceAllSelf(s[|target|..], target);
        assert s == target + s[|target|..];
      } else {
        ReplaceAllSelf(s[1..], target);
        assert s == [s[0]] + s[1..];
      }
    }
  }

  // ---------------------------------------------------------------------------
  // String.hashCode, StringUtils.isBlank, StringUtils.capitalize / uncapitalize
  // ---------------------------------------------------------------------------

  /** String.hashCode: h = 31 * h + c over the characters, in `int` arithmetic.
      Characters are taken as their code points (one UTF-16 unit for the BMP). */
  function StringHash(s: string): (h: Int32)
    ensures |s| == 0 ==> h == 0
    ensures |s| == 1 ==> h == s[0] as int
    decreases |s|
  {
    if |s| == 0 then 0 else Wrap32(31 * StringHash(s[..|s| - 1]) + s[|s| - 1] as int)
  }

  /** Character.isWhitespace. */
  predicate IsWhitespace(c: char) {
    var u := c as int;
    || (0x09 <= u <= 0x0D) || (0x1C <= u <= 0x20)
    || u == 0x1680 || (0x2000 <= u <= 0x2006) || (0x2008 <= u <= 0x200A)
    || u == 0x2028 || u == 0x2029 || u == 0x205F || u == 0x3000
  }

  /** StringUtils.isBlank: null, empty, or whitespace only. */
  predicate IsBlank(s: Option<string>) {
    s.None? || forall i :: 0 <= i < |s.value| ==> IsWhitespace(s.value[i])
  }

  /** `lower` is the ASCII lower-case letter of the upper-case letter `upper`. */
  predicate CasePair(lower: char, upper: char) {
    'a' <= lower <= 'z' && upper as int == lower as int - 32
  }

  /** StringUtils.capitalize for ASCII initials: the first letter in upper case. */
  function Capitalize(s: string): (r: string)
    ensures |r| == |s|
    ensures |s| > 0 ==> r[1..] == s[1..] && !('a' <= r[0] <= 'z')
    ensures |s| > 0 && r[0] != s[0] ==> 'a' <= s[0] <= 'z' && CasePair(s[0], r[0])
  {
    if |s| > 0 && 'a' <= s[0] <= 'z' then [(s[0] as int - 32) as char] + s[1..] else s
  }

  /** StringUtils.uncapitalize for ASCII initials: the first letter in lower case. */
  function Uncapitalize(s: string): (r: string)
    ensures |r| == |s|
    ensures |s| > 0 ==> r[1..] == s[1..] && !('A' <= r[0] <= 'Z')
    ensures |s| > 0 && r[0] != s[0] ==> 'A' <= s[0] <= 'Z' && CasePair(r[0], s[0])
  {
    if |s| > 0 && 'A' <= s[0] <= 'Z' then [(s[0] as int + 32) as char] + s[1..] else s
  }

  /** Capitalizing and then uncapitalizing a name that starts in lower case gives it back. */
  lemma UncapitalizeCapitalize(s: string)
    requires |s| > 0 && 'a' <= s[0] <= 'z'
    ensures Uncapitalize(Capitalize(s)) == s
  {
    assert [s[0]] + s[1..] == s;
  }
}
