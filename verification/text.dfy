/** Decimal rendering of integers, as C# string interpolation (`$"{n}"`) writes them
    for the invariant culture, with the parsers that read them back. The parsers are
    the partners that show the rendering loses nothing. */
module Text {

  predicate IsDigit(c: char) {
    '0' <= c <= '9'
  }

  predicate AllDigits(s: string) {
    forall i :: 0 <= i < |s| ==> IsDigit(s[i])
  }

  function DigitValue(c: char): (d: nat)
    requires IsDigit(c)
    ensures d < 10
  {
    c as int - '0' as int
  }

  function Digit(d: nat): (c: char)
    requires d < 10
    ensures IsDigit(c) && DigitValue(c) == d
  {
    ('0' as int + d) as char
  }

  /** Decimal digits of `n`, most significant first, without leading zeros. */
  function NatToString(n: nat): (s: string)
    ensures 1 <= |s|
    ensures AllDigits(s)
    ensures |s| > 1 ==> s[0] != '0'
    ensures s[0] == '0' <==> n == 0
    decreases n
  {
    if n < 10 then [Digit(n)] else NatToString(n / 10) + [Digit(n % 10)]
  }

  /** Value of a string of decimal digits (zero for the empty string). */
  function ParseDigits(s: string): nat
    requires AllDigits(s)
    decreases |s|
  {
    if |s| == 0 then 0 else 10 * ParseDigits(s[..|s| - 1]) + DigitValue(s[|s| - 1])
  }

  lemma {:induction false} NatToStringRoundTrip(n: nat)
    ensures ParseDigits(NatToString(n)) == n
    decreases n
  {
    if n >= 10 {
      var s := NatToString(n);
      assert s[..|s| - 1] == NatToString(n / 10);
      NatToStringRoundTrip(n / 10);
    }
  }

  /** Rendering is injective: distinct numbers never print the same. */
  lemma NatToStringInjective(m: nat, n: nat)
    requires NatToString(m) == NatToString(n)
    ensures m == n
  {
    NatToStringRoundTrip(m);
    NatToStringRoundTrip(n);
  }

  /** `$"{n}"` for any int: a minus sign before the digits of a negative number. */
  function IntToString(n: int): (s: string)
    ensures 1 <= |s|
    ensures n >= 0 ==> s == NatToString(n)
    ensures n < 0 ==> s[0] == '-' && s[1..] == NatToString(-n)
  {
    if n < 0 then "-" + NatToString(-n) else NatToString(n)
  }

  /** Reads back what `IntToString` writes; None for anything else. */
  function ParseInt(s: string): (r: ParsedInt)
  {
    if 1 <= |s| && s[0] == '-' && 2 <= |s| && AllDigits(s[1..]) then
      IntValue(-(ParseDigits(s[1..]) as int))
    else if 1 <= |s| && AllDigits(s) then
      IntValue(ParseDigits(s))
    else
      NoInt
  }

  datatype ParsedInt = NoInt | IntValue(value: int)

  lemma IntToStringRoundTrip(n: int)
    ensures ParseInt(IntToString(n)) == IntValue(n)
  {
    if n < 0 {
      NatToStringRoundTrip(-n);
      assert !IsDigit('-');
    } else {
      NatToStringRoundTrip(n);
    }
  }

  /** Number of leading decimal digits of `s`. */
  function DigitRun(s: string): (k: nat)
    ensures k <= |s|
    ensures AllDigits(s[..k])
    ensures k < |s| ==> !IsDigit(s[k])
    decreases |s|
  {
    if |s| == 0 || !IsDigit(s[0]) then 0
    else
      var k := 1 + DigitRun(s[1..]);
      assert s[..k] == [s[0]] + s[1..][..k - 1];
      k
  }

  /** A run of digits followed by a non-digit (or nothing) is measured exactly. */
  lemma {:induction false} DigitRunOfDigitsThen(d: string, rest: string)
    requires AllDigits(d)
    requires |rest| == 0 || !IsDigit(rest[0])
    ensures DigitRun(d + rest) == |d|
    decreases |d|
  {
    if |d| > 0 {
      assert (d + rest)[1..] == d[1..] + rest;
      DigitRunOfDigitsThen(d[1..], rest);
    }
  }

  /** Cutting a concatenation at the seam gives back its two parts. */
  lemma SplitAt<T>(a: seq<T>, b: seq<T>)
    ensures (a + b)[..|a|] == a && (a + b)[|a|..] == b
  {
  }

  /** `$"{a}/{b}"` for counts, as the inventory capacity texts print them. */
  function RatioText(a: nat, b: nat): (s: string)
    ensures '/' in s
  {
    assert (NatToString(a) + "/" + NatToString(b))[|NatToString(a)|] == '/';
    NatToString(a) + "/" + NatToString(b)
  }

  datatype Ratio = NoRatio | RatioOf(numerator: nat, denominator: nat)

  /** Reads `digits/digits` back. */
  function ParseRatio(s: string): Ratio {
    var k := DigitRun(s);
    if 1 <= k && k < |s| && s[k] == '/' && 1 <= |s| - (k + 1) && AllDigits(s[k + 1..]) then
      RatioOf(ParseDigits(s[..k]), ParseDigits(s[k + 1..]))
    else
      NoRatio
  }

  lemma RatioTextRoundTrip(a: nat, b: nat)
    ensures ParseRatio(RatioText(a, b)) == RatioOf(a, b)
  {
    var sa, sb := NatToString(a), NatToString(b);
    var s := RatioText(a, b);
    assert s == sa + ("/" + sb);
    DigitRunOfDigitsThen(sa, "/" + sb);
    var k := DigitRun(s);
    assert k == |sa|;
    assert s[k] == '/';
    assert s[..k] == sa;
    assert s[k + 1..] == sb;
    NatToStringRoundTrip(a);
    NatToStringRoundTrip(b);
    assert ParseRatio(s) == RatioOf(ParseDigits(sa), ParseDigits(sb));
  }
}
