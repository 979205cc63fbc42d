/**
 * Decimal numerals as the Rust standard library writes and reads them for `u64`:
 * `Display` (used by `format!` when an emoji id is rendered) and `str::parse::<u64>`
 * (used when an admin command names a message or a role).
 */
module Numerals {
  import opened Wrappers

  /** Every platform id (snowflake) is a `u64`. */
  const U64_LIMIT: nat := 0x1_0000_0000_0000_0000

  type Snowflake = n: nat | n < U64_LIMIT

  predicate IsDigit(c: char) {
    '0' <= c <= '9'
  }

  predicate AllDigits(s: string) {
    forall i :: 0 <= i < |s| ==> IsDigit(s[i])
  }

  function DigitValue(c: char): (d: nat)
    requires IsDigit(c)
    ensures d < 10
  {
    c as int - '0' as int
  }

  function DigitChar(d: nat): (c: char)
    requires d < 10
    ensures IsDigit(c) && DigitValue(c) == d
  {
    ('0' as int + d) as char
  }

  /** The value a string of decimal digits denotes (most significant digit first). */
  function DigitsValue(s: string): nat
    requires AllDigits(s)
  {
    if |s| == 0 then 0 else DigitsValue(s[..|s| - 1]) * 10 + DigitValue(s[|s| - 1])
  }

  /** `n.to_string()`: the shortest decimal numeral of `n`. */
  function Decimal(n: nat): (s: string)
    ensures |s| > 0 && AllDigits(s)
    ensures |s| > 1 ==> s[0] != '0'
  {
    if n < 10 then [DigitChar(n)] else Decimal(n / 10) + [DigitChar(n % 10)]
  }

  /** Reading back the numeral `Decimal` writes gives the number it was written from. */
  lemma {:induction false} DecimalValue(n: nat)
    ensures DigitsValue(Decimal(n)) == n
  {
    if n >= 10 {
      var s := Decimal(n);
      assert s[..|s| - 1] == Decimal(n / 10);
      DecimalValue(n / 10);
    }
  }

  /** Distinct numbers are written as distinct numerals. */
  lemma DecimalInjective(m: nat, n: nat)
    ensures Decimal(m) == Decimal(n) <==> m == n
  {
    if Decimal(m) == Decimal(n) {
      DecimalValue(m);
      DecimalValue(n);
    }
  }

  /** `s` without the one leading `+` that `parse` tolerates. */
  function Unsigned(s: string): string {
    if |s| > 0 && s[0] == '+' then s[1..] else s
  }

  /**
   * `s.parse::<u64>()`: an optional leading `+`, then at least one decimal digit
   * (leading zeros allowed), denoting a value that fits in 64 bits. A lone sign,
   * an empty string, a `-`, any other character or an overflow is an error.
   */
  function ParseU64(s: string): (r: Option<Snowflake>)
    ensures r.Some? <==> |Unsigned(s)| > 0 && AllDigits(Unsigned(s)) && DigitsValue(Unsigned(s)) < U64_LIMIT
    ensures r.Some? ==> DigitsValue(Unsigned(s)) == r.value
    ensures |s| == 0 || (s[0] != '+' && !IsDigit(s[0])) ==> r.None?
  {
    var digits := Unsigned(s);
    if |digits| == 0 || !AllDigits(digits) then None
    else
      var v := DigitsValue(digits);
      if v < U64_LIMIT then Some(v) else None
  }

  /** Every `u64` survives being written with `Display` and read back with `parse`. */
  lemma ParseDecimal(n: Snowflake)
    ensures ParseU64(Decimal(n)) == Some(n)
  {
    DecimalValue(n);
  }
}
