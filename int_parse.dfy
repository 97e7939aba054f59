/**
  Decimal text to `i32`, as Rust's `str::parse::<i32>` reads it: an optional
  `+` or `-`, then one or more ASCII digits, and a value that fits in 32
  bits. Anything else (empty text, a sign alone, spaces, other characters,
  overflow) is an error.
*/
module Int32Text {
  import opened Results
  import opened Models

  predicate IsDigit(c: char)
  {
    '0' <= c <= '9'
  }

  predicate AllDigits(ds: string)
  {
    forall k :: 0 <= k < |ds| ==> IsDigit(ds[k])
  }

  function DigitValue(c: char): nat
    requires IsDigit(c)
  {
    c as int - '0' as int
  }

  function DigitChar(d: nat): (c: char)
    requires d < 10
    ensures IsDigit(c) && DigitValue(c) == d
  {
    ('0' as int + d) as char
  }

  /** The number a string of decimal digits denotes, most significant first. */
  function DigitsValue(ds: string): nat
    requires AllDigits(ds)
  {
    if ds == [] then 0 else DigitsValue(ds[..|ds| - 1]) * 10 + DigitValue(ds[|ds| - 1])
  }

  /** `s.parse::<i32>()`: `None` stands for Rust's `ParseIntError`. */
  function ParseI32(s: string): (r: Option<I32>)
    ensures r.Some? ==> s != [] && AllDigits(s[1..])
    ensures r.Some? && s[0] != '-' ==> r.value >= 0
    ensures r.Some? && s[0] == '-' ==> r.value <= 0
  {
    if s == [] then None
    else
      var signed := s[0] == '+' || s[0] == '-';
      var digits := if signed then s[1..] else s;
      if digits == [] || !AllDigits(digits) then None
      else
        var magnitude := DigitsValue(digits);
        var v: int := if s[0] == '-' then -(magnitude as int) else magnitude;
        if I32_MIN <= v <= I32_MAX then Some(v) else None
  }

  /** The shortest decimal form of a natural number, no leading zeros. */
  function NatDigits(n: nat): (ds: string)
    ensures ds != [] && AllDigits(ds)
    ensures DigitsValue(ds) == n
    decreases n
  {
    if n < 10 then [DigitChar(n)]
    else
      var ds := NatDigits(n / 10) + [DigitChar(n % 10)];
      assert ds[..|ds| - 1] == NatDigits(n / 10);
      ds
  }

  /** How Rust prints an `i32` (`to_string`): a `-` for negative values, then
      the digits of the magnitude. */
  function FormatI32(n: I32): string
  {
    if n < 0 then "-" + NatDigits(-(n as int)) else NatDigits(n)
  }

  /** Parsing reads back every value Rust prints, negative ones included. */
  lemma ParseFormatRoundTrip(n: I32)
    ensures ParseI32(FormatI32(n)) == Some(n)
  {
    if n < 0 {
      assert FormatI32(n)[1..] == NatDigits(-(n as int));
    }
  }

  /** A character other than a digit anywhere after the first position, or
      anything but a digit or sign in the first, makes parsing fail. */
  lemma ParseRejectsStrayCharacter(s: string, k: nat)
    requires k < |s| && !IsDigit(s[k])
    requires k == 0 ==> s[0] != '+' && s[0] != '-'
    ensures ParseI32(s) == None
  {
    if k > 0 && (s[0] == '+' || s[0] == '-') {
      assert s[1..][k - 1] == s[k];
    }
  }

  /** Values outside the `i32` range are refused even though every character
      is a digit, whatever the sign and however many leading zeros: above
      `i32::MAX` without `-`, above 2^31 with it. */
  lemma ParseRejectsOverflow(ds: string)
    requires ds != [] && AllDigits(ds)
    ensures DigitsValue(ds) > I32_MAX ==> ParseI32(ds) == None && ParseI32("+" + ds) == None
    ensures DigitsValue(ds) > -I32_MIN ==> ParseI32("-" + ds) == None
  {
    assert ("+" + ds)[1..] == ds;
    assert ("-" + ds)[1..] == ds;
  }

  /** Empty text and a sign with no digits are refused. */
  lemma ParseRejectsEmptyOrLoneSign()
    ensures ParseI32("") == None
    ensures ParseI32("+") == None
    ensures ParseI32("-") == None
  {
  }

  /** The value of accepted text: the digits' value, negated after a `-`,
      whenever it lies in the `i32` range; a `+` changes nothing. Together
      with the two refusals above this covers every string. */
  lemma ParseSignedDigits(ds: string)
    requires ds != [] && AllDigits(ds)
    ensures DigitsValue(ds) <= I32_MAX ==> ParseI32(ds) == Some(DigitsValue(ds))
    ensures ParseI32("+" + ds) == ParseI32(ds)
    ensures DigitsValue(ds) <= -I32_MIN ==> ParseI32("-" + ds) == Some(-(DigitsValue(ds) as int))
  {
    assert ("+" + ds)[1..] == ds;
    assert ("-" + ds)[1..] == ds;
  }

  lemma {:induction false} LeadingZeroValue(ds: string)
    requires AllDigits(ds)
    ensures AllDigits("0" + ds) && DigitsValue("0" + ds) == DigitsValue(ds)
  {
    if ds != [] {
      var zs := "0" + ds;
      assert zs[..|zs| - 1] == "0" + ds[..|ds| - 1];
      LeadingZeroValue(ds[..|ds| - 1]);
    }
  }

  /** A leading zero does not change what text parses to, so `"007"` reads
      as `7` and `"-007"` as `-7`. */
  lemma ParseIgnoresLeadingZero(ds: string)
    requires ds != [] && AllDigits(ds)
    ensures ParseI32("0" + ds) == ParseI32(ds)
    ensures ParseI32("-0" + ds) == ParseI32("-" + ds)
  {
    LeadingZeroValue(ds);
    ParseSignedDigits(ds);
    ParseSignedDigits("0" + ds);
    ParseRejectsOverflow(ds);
    ParseRejectsOverflow("0" + ds);
    assert "-0" + ds == "-" + ("0" + ds);
  }
}
