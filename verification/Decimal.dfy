/** Unsigned numbers as text: std::to_string and the strict parser that reads control messages. */
module Decimal {
  import opened Prelude

  predicate IsDigit(c: char) {
    '0' <= c <= '9'
  }

  predicate AllDigits(text: string) {
    forall i :: 0 <= i < |text| ==> IsDigit(text[i])
  }

  function DigitValue(c: char): nat
    requires IsDigit(c)
  {
    c as int - '0' as int
  }

  function DigitChar(d: nat): (c: char)
    requires d < 10
    ensures IsDigit(c) && DigitValue(c) == d
  {
    (d + '0' as int) as char
  }

  /** The number a digit string denotes; leading zeros are allowed. */
  function Value(text: string): nat
    requires AllDigits(text)
  {
    if text == "" then 0 else Value(text[..|text| - 1]) * 10 + DigitValue(text[|text| - 1])
  }

  function ToDecimal(n: nat): (text: string)
    ensures text != "" && AllDigits(text)
  {
    if n < 10 then [DigitChar(n)] else ToDecimal(n / 10) + [DigitChar(n % 10)]
  }

  lemma {:induction false} DecimalRoundTrip(n: nat)
    ensures Value(ToDecimal(n)) == n
  {
    if n < 10 {
      assert ToDecimal(n)[..0] == "";
    } else {
      DecimalRoundTrip(n / 10);
      assert ToDecimal(n)[..|ToDecimal(n)| - 1] == ToDecimal(n / 10);
    }
  }

  lemma DecimalInjective(m: nat, n: nat)
    requires ToDecimal(m) == ToDecimal(n)
    ensures m == n
  {
    DecimalRoundTrip(m);
    DecimalRoundTrip(n);
  }

  /** More digits never make the number smaller. */
  lemma {:induction false} ValuePrefix(text: string, i: nat)
    requires AllDigits(text) && i <= |text|
    ensures Value(text[..i]) <= Value(text)
    decreases |text|
  {
    if i == |text| {
      assert text[..i] == text;
    } else {
      ValuePrefix(text[..|text| - 1], i);
      assert text[..|text| - 1][..i] == text[..i];
    }
  }

  /** What the strict parser accepts: a non-empty digit string whose value fits 64 bits. */
  function ParseU64(value: string): Option<nat> {
    if value != "" && AllDigits(value) && Value(value) <= U64_MAX then Some(Value(value)) else None
  }

  /**
   parse_u64_strict accepts exactly the non-empty digit strings whose value fits 64 bits, and
   returns that value. The overflow test never wraps.
   */
  method ParseU64Strict(value: string) returns (r: Option<nat>)
    ensures r.Some? <==> value != "" && AllDigits(value) && Value(value) <= U64_MAX
    ensures r.Some? ==> r.value == Value(value)
    ensures r == ParseU64(value)
  {
    if value == "" {
      return None;
    }
    var out := 0;
    for i := 0 to |value|
      invariant AllDigits(value[..i]) && out == Value(value[..i]) && out <= U64_MAX
    {
      if !IsDigit(value[i]) {
        return None;
      }
      var digit := DigitValue(value[i]);
      assert AllDigits(value[..i + 1]) && value[..i + 1][..i] == value[..i];
      if out > (U64_MAX - digit) / 10 {
        if AllDigits(value) {
          ValuePrefix(value, i + 1);
        }
        return None;
      }
      out := out * 10 + digit;
    }
    assert value[..|value|] == value;
    return Some(out);
  }
}
