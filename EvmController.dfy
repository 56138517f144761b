/** `EvmBlockHeightPipe`: the validator that turns the `:height` path parameter of the
    EVM block route into a block height, or rejects it with BadRequest. */
module EvmController {
  import opened Text
  import opened Js
  import opened Upstream

  /** The regex `/^0x[0-9a-fA-F]+$/`: a lower-case `0x` and one or more hex digits. */
  predicate IsPrefixedHex(s: string)
    ensures IsPrefixedHex(s) ==> StartsWith(s, "0x") && !IsDecimalDigits(s)
  {
    |s| > 2 && s[0] == '0' && s[1] == 'x' && IsHexDigits(s[2..])
  }

  /** The final guard: a NaN, infinite or negative height is rejected. */
  function CheckedHeight(height: NumberValue): (r: Outcome<nat>)
    ensures r.Ok? || r == BadRequest
    ensures r.Ok? <==> height.Int? && height.i >= 0
    ensures r.Ok? ==> r.value == height.i
  {
    if height.NaN? || height.i < 0 then BadRequest else Ok(height.i)
  }

  /** `EvmBlockHeightPipe.transform`: the value is trimmed; an empty value is rejected;
      a value starting with `0x` or `0X` must be `0x` and hex digits and is read in base
      16; any other value must be decimal digits and is read in base 10. */
  function ParseHeight(value: string): (r: Outcome<nat>)
    ensures r.Ok? || r == BadRequest
    ensures r.Ok? <==> IsDecimalDigits(Trim(value)) || IsPrefixedHex(Trim(value))
    ensures r.Ok? && IsDecimalDigits(Trim(value)) ==> r.value == ValueIn(Trim(value), 10)
    ensures r.Ok? && IsPrefixedHex(Trim(value)) ==> r.value == ValueIn(Trim(value)[2..], 16)
    ensures StartsWith(Trim(value), "0X") ==> r == BadRequest
  {
    ParseTrimmed(Trim(value))
  }

  /** The guards of `transform` after trimming. */
  function ParseTrimmed(raw: string): (r: Outcome<nat>)
    ensures r.Ok? || r == BadRequest
    ensures r.Ok? <==> IsDecimalDigits(raw) || IsPrefixedHex(raw)
    ensures r.Ok? && IsDecimalDigits(raw) ==> r.value == ValueIn(raw, 10)
    ensures r.Ok? && IsPrefixedHex(raw) ==> r.value == ValueIn(raw[2..], 16)
    ensures StartsWith(raw, "0X") ==> r == BadRequest
  {
    PrefixShapes(raw);
    if raw == [] then BadRequest
    else if HasHexPrefix(raw) then
      if !IsPrefixedHex(raw) then BadRequest
      else
        HexBranch(raw);
        CheckedHeight(ParseInt(raw, 16))
    else
      if !IsDecimalDigits(raw) then BadRequest
      else
        DecimalBranch(raw);
        CheckedHeight(ParseInt(raw, 10))
  }

  /** The hex branch accepts every value that passed its regex, as the value of its digits. */
  lemma HexBranch(raw: string)
    requires IsPrefixedHex(raw)
    ensures CheckedHeight(ParseInt(raw, 16)) == Ok(ValueIn(raw[2..], 16))
  {
    ParseIntHexPrefixed(raw[2..]);
    assert "0x" + raw[2..] == raw;
  }

  /** The decimal branch accepts every value that passed its regex, as its value. */
  lemma DecimalBranch(raw: string)
    requires IsDecimalDigits(raw)
    ensures CheckedHeight(ParseInt(raw, 10)) == Ok(ValueIn(raw, 10))
  {
    ParseIntDigits(raw, 10);
  }

  /** How the two accepted shapes relate to the prefix test. */
  lemma PrefixShapes(raw: string)
    ensures IsDecimalDigits(raw) ==> !StartsWith(raw, "0x") && !StartsWith(raw, "0X")
    ensures IsPrefixedHex(raw) ==> StartsWith(raw, "0x") && !StartsWith(raw, "0X")
    ensures StartsWith(raw, "0X") ==> !IsDecimalDigits(raw) && !IsPrefixedHex(raw)
  {
    if |raw| >= 2 && (raw[1] == 'x' || raw[1] == 'X') {
      assert !IsDigitIn(raw[1], 10);
    }
  }

  /** Surrounding whitespace does not change the outcome. */
  lemma PaddingIgnored(value: string)
    ensures ParseHeight(value) == ParseHeight(Trim(value))
  {
    TrimIdempotent(value);
  }

  /** Every height written in decimal is read back as itself. */
  lemma DecimalRoundTrip(n: nat)
    ensures ParseHeight(Render(n, 10)) == Ok(n)
  {
    var t := Render(n, 10);
    NumeralIsTrimmed(t, 10);
  }

  /** Every height written as `0x` and lower-case hex is read back as itself. */
  lemma HexRoundTrip(n: nat)
    ensures ParseHeight("0x" + Render(n, 16)) == Ok(n)
  {
    var digits := Render(n, 16);
    var t := "0x" + digits;
    PrefixedIsTrimmed(digits);
    AlreadyTrimmed(t);
    assert t[0] == '0' && t[1] == 'x' && t[2..] == digits;
    HexAccepted(t);
  }

  /** A value that trimming leaves alone goes straight to the guards. */
  lemma AlreadyTrimmed(t: string)
    requires Trim(t) == t
    ensures ParseHeight(t) == ParseTrimmed(t)
  {
  }

  /** Every value matching the hex regex passes the guards as the value of its digits. */
  lemma HexAccepted(t: string)
    requires IsPrefixedHex(t)
    ensures ParseTrimmed(t) == Ok(ValueIn(t[2..], 16))
  {
  }

  /** `0x` and hex digits carries no surrounding whitespace. */
  lemma PrefixedIsTrimmed(digits: string)
    requires |digits| > 0 && AllDigitsIn(digits, 16)
    ensures Trim("0x" + digits) == "0x" + digits
  {
    var t := "0x" + digits;
    assert t[|t| - 1] == digits[|digits| - 1] && IsDigitIn(digits[|digits| - 1], 16);
    DigitIsNotSpaceOrSign(digits[|digits| - 1]);
    TrimPadded([], t, []);
    assert [] + t + [] == t;
  }

  /** The end-to-end request for block 123 passes validation as 123. */
  lemma HeightExample()
    ensures ParseHeight("123") == Ok(123)
  {
    ValueSnoc("1", '2', 10);
    assert "1" + ['2'] == "12";
    ValueSnoc("12", '3', 10);
    assert "12" + ['3'] == "123";
    NumeralIsTrimmed("123", 10);
  }
}
