/** Rust's `i32`, its `FromStr` parser and its `Display` formatting, as the
    reference year goes through them: parsed from the raw BibTeX year with
    `str::parse::<i32>` and written back with `format!("{}", year)`. */
module Integers {
  import opened Options
  import opened Ascii
  import opened Strings

  newtype i32 = x: int | -0x8000_0000 <= x < 0x8000_0000

  function DigitValue(c: char): nat
    requires IsDigit(c)
  {
    c as int - '0' as int
  }

  function DigitChar(d: nat): (c: char)
    requires d < 10
    ensures IsDigit(c) && DigitValue(c) == d
  {
    ('0' as int + d) as char
  }

  /** The value of a string of decimal digits (leading zeros allowed). */
  function DigitsValue(s: string): nat
    requires All(s, IsDigit)
  {
    if |s| == 0 then 0 else DigitsValue(s[..|s| - 1]) * 10 + DigitValue(s[|s| - 1])
  }

  /** The digits of `s` once a leading `+` or `-` is dropped. */
  function Unsigned(s: string): string {
    if |s| > 0 && (s[0] == '+' || s[0] == '-') then s[1..] else s
  }

  /** `str::parse::<i32>`: an optional sign followed by at least one decimal
      digit, whose value fits in 32 bits. Anything else (an empty string, a
      lone sign, a letter, a space, an overflow) is an error, here `None`. */
  function ParseI32(s: string): (r: Option<i32>)
    ensures r.Some? ==> |Unsigned(s)| > 0 && All(Unsigned(s), IsDigit)
    ensures r.Some? && |s| > 0 && s[0] == '-' ==> r.value as int == -(DigitsValue(Unsigned(s)) as int)
    ensures r.Some? && (|s| == 0 || s[0] != '-') ==> r.value as int == DigitsValue(Unsigned(s))
    ensures |Unsigned(s)| > 0 && All(Unsigned(s), IsDigit) ==>
      var v := if s[0] == '-' then -(DigitsValue(Unsigned(s)) as int) else DigitsValue(Unsigned(s)) as int;
      (r.Some? <==> -0x8000_0000 <= v < 0x8000_0000)
  {
    var digits := Unsigned(s);
    if |digits| == 0 || !All(digits, IsDigit) then None
    else
      var v := if s[0] == '-' then -(DigitsValue(digits) as int) else DigitsValue(digits) as int;
      if -0x8000_0000 <= v < 0x8000_0000 then Some(v as i32) else None
  }

  /** The decimal digits of a natural number, without leading zeros. */
  function Digits(n: nat): (r: string)
    ensures |r| > 0 && All(r, IsDigit)
    ensures r[0] == '0' ==> r == "0"
    ensures DigitsValue(r) == n
  {
    if n < 10 then [DigitChar(n)]
    else
      var r := Digits(n / 10) + [DigitChar(n % 10)];
      assert r[..|r| - 1] == Digits(n / 10);
      r
  }

  /** `format!("{}", n)` for an `i32`. */
  function Decimal(n: i32): string {
    if n < 0 then "-" + Digits(-(n as int)) else Digits(n as int)
  }

  /** Writing a year and parsing it back gives the same year. */
  lemma ParseDecimal(n: i32)
    ensures ParseI32(Decimal(n)) == Some(n)
  {
    var d := Decimal(n);
    if n < 0 {
      assert Unsigned(d) == Digits(-(n as int));
    } else {
      assert Unsigned(d) == d;
    }
  }

  /** The parser rejects every string holding a character that is neither a
      digit nor a leading sign: the year of `"n.d."`, `"2024a"` or
      `"2020 "` does not parse. */
  lemma ParseRejectsNonDigit(s: string, i: nat)
    requires 0 < i < |s| || (i == 0 < |s| && s[0] != '+' && s[0] != '-')
    requires !IsDigit(s[i])
    ensures ParseI32(s) == None
  {
    var u := Unsigned(s);
    if s[0] == '+' || s[0] == '-' {
      assert u[i - 1] == s[i];
    } else {
      assert u[i] == s[i];
    }
  }

  lemma ParseExamples()
    ensures ParseI32("") == None
    ensures ParseI32("n.d.") == None
    ensures ParseI32("2024a") == None
    ensures ParseI32("2020") == Some(2020)
    ensures ParseI32("-") == None
  {
    ParseRejectsNonDigit("n.d.", 0);
    ParseRejectsNonDigit("2024a", 4);
    assert Decimal(2020) == "2020";
    ParseDecimal(2020);
  }

  /** A leading `+` is accepted, and `-0` is zero. */
  lemma ParseSignExamples()
    ensures ParseI32("+2020") == Some(2020)
    ensures ParseI32("-0") == Some(0)
  {
    assert Unsigned("+2020") == "2020" == Decimal(2020);
    ParseDecimal(2020);
    assert Unsigned("-0") == "0" == Decimal(0);
  }
}
