/** The JavaScript number operations the components use on integers:
    `parseInt(s)` without a radix, `n.toString()`, and the `%` operator,
    whose remainder takes the sign of the dividend. Numbers are modelled as
    unbounded integers; floating-point rounding is not modelled. */
module JsNumber {
  import opened Options
  import opened JsText

  predicate IsDecimalDigit(c: char) {
    '0' <= c <= '9'
  }

  predicate IsHexDigit(c: char) {
    IsDecimalDigit(c) || ('a' <= c <= 'f') || ('A' <= c <= 'F')
  }

  predicate IsDigitIn(c: char, hex: bool) {
    if hex then IsHexDigit(c) else IsDecimalDigit(c)
  }

  function DigitValue(c: char): nat
    requires IsHexDigit(c)
  {
    if IsDecimalDigit(c) then c as nat - '0' as nat
    else if 'a' <= c <= 'f' then c as nat - 'a' as nat + 10
    else c as nat - 'A' as nat + 10
  }

  /** The value of a digit string read most-significant digit first. */
  function DigitsValue(ds: string, hex: bool): nat
    requires forall i :: 0 <= i < |ds| ==> IsDigitIn(ds[i], hex)
  {
    if ds == [] then 0
    else
      var last := ds[|ds| - 1];
      assert IsDigitIn(last, hex) && IsHexDigit(last);
      DigitsValue(ds[..|ds| - 1], hex) * (if hex then 16 else 10) + DigitValue(last)
  }

  /** The longest prefix of `s` made of digits of the radix. */
  function LeadingDigits(s: string, hex: bool): (ds: string)
    ensures |ds| <= |s| && ds == s[..|ds|]
    ensures forall i :: 0 <= i < |ds| ==> IsDigitIn(ds[i], hex)
    ensures |ds| == |s| || !IsDigitIn(s[|ds|], hex)
  {
    if |s| > 0 && IsDigitIn(s[0], hex) then [s[0]] + LeadingDigits(s[1..], hex) else ""
  }

  /** `parseInt(s)`: skip leading whitespace, read an optional sign, then a
      `0x`/`0X` prefix switches to hexadecimal; the longest run of digits
      that follows is the value. No digit at all gives NaN, written here as
      `None`. Text that, after its leading whitespace, starts with neither a
      digit nor a sign is NaN; text that starts with a decimal digit (and
      no `0x`) reads as the value of its leading decimal digits, whatever
      follows them; only a leading `-` gives a negative value. */
  function ParseInt(s: string): (r: Option<int>)
    ensures var t := TrimStart(s);
            t == [] || !(IsDecimalDigit(t[0]) || t[0] == '-' || t[0] == '+') ==> r.None?
    ensures var t := TrimStart(s);
            |t| > 0 && IsDecimalDigit(t[0]) && !(|t| >= 2 && t[0] == '0' && (t[1] == 'x' || t[1] == 'X'))
            ==> r == Some(DigitsValue(LeadingDigits(t, false), false))
    ensures r.Some? && r.value < 0 ==> |TrimStart(s)| > 0 && TrimStart(s)[0] == '-'
  {
    var t := TrimStart(s);
    var negative := |t| > 0 && t[0] == '-';
    var unsigned := if |t| > 0 && (t[0] == '-' || t[0] == '+') then t[1..] else t;
    var hex := |unsigned| >= 2 && unsigned[0] == '0' && (unsigned[1] == 'x' || unsigned[1] == 'X');
    var body := if hex then unsigned[2..] else unsigned;
    var ds := LeadingDigits(body, hex);
    if ds == [] then None
    else
      var magnitude: int := DigitsValue(ds, hex);
      Some(if negative then -magnitude else magnitude)
  }

  function DecimalDigit(d: nat): (c: char)
    requires d < 10
    ensures IsDecimalDigit(c) && DigitValue(c) == d
  {
    ('0' as nat + d) as char
  }

  /** `n.toString()` for a non-negative integer: its decimal digits, with no
      leading zero unless the number is zero. */
  function NatToDecimal(n: nat): (r: string)
    ensures |r| >= 1
    ensures forall i :: 0 <= i < |r| ==> IsDecimalDigit(r[i])
    ensures DigitsValue(r, false) == n
    ensures r[0] == '0' ==> n == 0 && |r| == 1
  {
    if n < 10 then [DecimalDigit(n)]
    else
      var r := NatToDecimal(n / 10) + [DecimalDigit(n % 10)];
      assert r[..|r| - 1] == NatToDecimal(n / 10);
      r
  }

  /** `n.toString()` for an integer. */
  function IntToDecimal(n: int): (r: string)
    ensures |r| >= 1 && (r[0] == '-' || IsDecimalDigit(r[0]))
    ensures '.' !in r && ',' !in r
  {
    if n < 0 then "-" + NatToDecimal(-n) else NatToDecimal(n)
  }

  lemma {:induction false} LeadingDigitsOfDigits(s: string, hex: bool)
    requires forall i :: 0 <= i < |s| ==> IsDigitIn(s[i], hex)
    ensures LeadingDigits(s, hex) == s
  {
    if s != [] {
      LeadingDigitsOfDigits(s[1..], hex);
      assert s == [s[0]] + s[1..];
    }
  }

  /** `parseInt` reads back every integer that `toString` writes. */
  lemma ParseIntOfDecimal(n: int)
    ensures ParseInt(IntToDecimal(n)) == Some(n)
  {
    var d := IntToDecimal(n);
    assert !IsWhitespace(d[0]);
    assert TrimStart(d) == d;
    var m: nat := if n < 0 then -n else n;
    var digits := NatToDecimal(m);
    assert d == (if n < 0 then "-" + digits else digits);
    if n < 0 {
      assert d[1..] == digits;
    }
    assert !(|digits| >= 2 && digits[0] == '0');
    LeadingDigitsOfDigits(digits, false);
    assert DigitsValue(digits, false) == m;
  }

  /** The JavaScript `%` operator on integers: the remainder of truncating
      division, which takes the sign of the dividend (Dafny's own `%` is
      never negative). */
  function JsRem(a: int, n: int): (r: int)
    requires n != 0
    ensures a >= 0 ==> 0 <= r < (if n > 0 then n else -n)
    ensures a < 0 ==> -(if n > 0 then n else -n) < r <= 0
    ensures a >= 0 && n > 0 ==> r == a % n
  {
    var m := if n > 0 then n else -n;
    var rem := (if a >= 0 then a else -a) % m;
    if a >= 0 then rem else -rem
  }
}
