/** The JSON values the upstream nodes return, and the JavaScript coercions the services
    apply to them: truthiness, optional chaining (`?.`), nullish coalescing (`??`),
    `String(x)`, `Number(x)` and `Number.parseInt(s, radix)`. */
module Js {
  import opened Text

  /** A parsed JSON value, plus `Undefined` for a property that is not there.
      JSON numbers are integers in this model. */
  datatype Json =
    | Undefined
    | Null
    | Bool(b: bool)
    | Num(n: int)
    | Str(s: string)
    | Obj(fields: map<string, Json>)
    | Arr(items: seq<Json>)

  /** `j?.key`: the property when `j` is an object that has it, `undefined` otherwise
      (also for null, undefined, strings, numbers and arrays). */
  function Get(j: Json, key: string): (r: Json)
    ensures r != Undefined ==> j.Obj? && key in j.fields && r == j.fields[key]
    ensures j.Obj? && key in j.fields ==> r == j.fields[key]
  {
    if j.Obj? && key in j.fields then j.fields[key] else Undefined
  }

  /** JavaScript truthiness: everything except undefined, null, false, 0 and "". */
  predicate Truthy(j: Json)
    ensures Truthy(j) <==> !(j == Undefined || j == Null || j == Bool(false) || j == Num(0) || j == Str(""))
  {
    match j
    case Undefined => false
    case Null => false
    case Bool(b) => b
    case Num(n) => n != 0
    case Str(s) => s != ""
    case Obj(_) => true
    case Arr(_) => true
  }

  predicate IsNullish(j: Json) {
    j.Undefined? || j.Null?
  }

  /** `a ?? b`. */
  function Coalesce(a: Json, b: Json): (r: Json)
    ensures !IsNullish(a) ==> r == a
    ensures IsNullish(a) ==> r == b
  {
    if IsNullish(a) then b else a
  }

  /** `typeof j === 'object' && j !== null`: objects and arrays. */
  predicate IsObjectType(j: Json) {
    j.Obj? || j.Arr?
  }

  /** A JavaScript number restricted to the integers; `Infinity` is folded into `NaN`,
      which every consumer here treats alike (both are rejected as non-finite, and both
      serialise to `null`). */
  datatype NumberValue = Int(i: int) | NaN

  /** The decimal text of an integer, with a minus sign when negative. */
  function IntText(n: int): (r: string)
    ensures r != []
  {
    if n < 0 then "-" + Render(-n, 10) else Render(n, 10)
  }

  /** `String(j)` (also what a template literal `${j}` produces). A string prints as
      itself, and only a string or an array can print empty. */
  function ToString(j: Json): (r: string)
    ensures j.Str? ==> r == j.s
    ensures r == [] ==> j.Str? || j.Arr?
    decreases j
  {
    match j
    case Undefined => "undefined"
    case Null => "null"
    case Bool(b) => if b then "true" else "false"
    case Num(n) => IntText(n)
    case Str(s) => s
    case Obj(_) => "[object Object]"
    case Arr(items) => Join(seq(|items|, i requires 0 <= i < |items| => ElementText(items[i], j)), ",")
  }

  /** An array element as `Array.prototype.join` prints it: null and undefined print empty. */
  function ElementText(e: Json, ghost parent: Json): string
    requires e < parent
    decreases parent, 0
  {
    if IsNullish(e) then "" else ToString(e)
  }

  /** `Number(j)`: a number is itself, null and false are 0, true is 1, undefined and
      plain objects are NaN; strings and arrays go through their text. */
  function ToNumber(j: Json): (r: NumberValue)
    ensures j.Num? ==> r == Int(j.n)
    ensures j == Null || j == Bool(false) ==> r == Int(0)
    ensures j == Bool(true) ==> r == Int(1)
    ensures j.Undefined? || j.Obj? ==> r == NaN
  {
    match j
    case Undefined => NaN
    case Null => Int(0)
    case Bool(b) => Int(if b then 1 else 0)
    case Num(n) => Int(n)
    case Str(s) => StringToNumber(s)
    case Obj(_) => NaN
    case Arr(_) => StringToNumber(ToString(j))
  }

  /** A radix prefix (`0x`, `0o` or `0b`, either case) followed by one or more digits. */
  predicate HasRadixLiteral(t: string, lower: char, upper: char, radix: nat) {
    |t| > 2 && t[0] == '0' && (t[1] == lower || t[1] == upper) && AllDigitsIn(t[2..], radix)
  }

  /** `Number(s)` for a string: surrounding whitespace ignored, an empty string is 0, then
      a `0x`/`0o`/`0b` literal or a signed decimal integer; anything else is NaN. */
  function StringToNumber(s: string): (r: NumberValue)
    ensures IsDecimalDigits(Trim(s)) ==> r == Int(ValueIn(Trim(s), 10))
  {
    var t := Trim(s);
    if t == [] then Int(0)
    else if HasRadixLiteral(t, 'x', 'X', 16) then Int(ValueIn(t[2..], 16))
    else if HasRadixLiteral(t, 'o', 'O', 8) then Int(ValueIn(t[2..], 8))
    else if HasRadixLiteral(t, 'b', 'B', 2) then Int(ValueIn(t[2..], 2))
    else if t[0] == '-' && IsDecimalDigits(t[1..]) then Int(-(ValueIn(t[1..], 10) as int))
    else if t[0] == '+' && IsDecimalDigits(t[1..]) then Int(ValueIn(t[1..], 10))
    else if IsDecimalDigits(t) then Int(ValueIn(t, 10))
    else NaN
  }

  /** The longest prefix of `s` made of digits of the radix. */
  function DigitPrefix(s: string, radix: nat): (r: string)
    ensures |r| <= |s| && r == s[..|r|] && AllDigitsIn(r, radix)
    ensures |r| == |s| || !IsDigitIn(s[|r|], radix)
  {
    if s == [] || !IsDigitIn(s[0], radix) then []
    else
      var rest := DigitPrefix(s[1..], radix);
      assert s[1..][..|rest|] == rest;
      [s[0]] + rest
  }

  /** `Number.parseInt(s, radix)` for radix 10 or 16: leading whitespace skipped, an
      optional sign, for radix 16 an optional `0x`/`0X`, then the longest run of digits;
      NaN when that run is empty. Trailing garbage is ignored. */
  function ParseInt(s: string, radix: nat): (r: NumberValue)
    requires radix == 10 || radix == 16
    ensures TrimStart(s) == [] ==> r == NaN
    ensures r.Int? && r.i < 0 ==> TrimStart(s)[0] == '-'
    ensures r.Int? && TrimStart(s)[0] == '-' ==> r.i <= 0
  {
    ReadSigned(TrimStart(s), radix)
  }

  /** After the whitespace: a `-` negates the magnitude that follows, a `+` is skipped. */
  function ReadSigned(t: string, radix: nat): NumberValue
    requires radix == 10 || radix == 16
  {
    if t != [] && t[0] == '-' then Negate(ReadMagnitude(t[1..], radix))
    else if t != [] && t[0] == '+' then ReadMagnitude(t[1..], radix)
    else ReadMagnitude(t, radix)
  }

  function Negate(x: NumberValue): NumberValue {
    if x.NaN? then NaN else Int(-x.i)
  }

  /** After the sign: for radix 16 an optional `0x`/`0X`, then the longest run of digits;
      NaN when that run is empty. */
  function ReadMagnitude(u: string, radix: nat): (r: NumberValue)
    requires radix == 10 || radix == 16
    ensures r.Int? ==> r.i >= 0
    ensures u == [] ==> r == NaN
  {
    var v := if radix == 16 && HasHexPrefix(u) then u[2..] else u;
    var digits := DigitPrefix(v, radix);
    if digits == [] then NaN else Int(ValueIn(digits, radix))
  }

  /** On a plain digit string, `parseInt` reads exactly its value. */
  lemma ParseIntDigits(s: string, radix: nat)
    requires (radix == 10 || radix == 16) && |s| > 0 && AllDigitsIn(s, radix)
    requires radix == 16 ==> !HasHexPrefix(s)
    ensures ParseInt(s, radix) == Int(ValueIn(s, radix))
  {
    DigitIsNotSpaceOrSign(s[0]);
    assert TrimStart(s) == s;
    DigitPrefixAll(s, radix);
  }

  /** With a hex prefix, `parseInt(_, 16)` reads the value of the digits after it. */
  lemma ParseIntHexPrefixed(digits: string)
    requires |digits| > 0 && AllDigitsIn(digits, 16)
    ensures ParseInt("0x" + digits, 16) == Int(ValueIn(digits, 16))
  {
    var s := "0x" + digits;
    assert s[0] == '0' && s[1] == 'x' && s[2..] == digits;
    DigitIsNotSpaceOrSign(s[0]);
    assert TrimStart(s) == s;
    HexMagnitude(s, digits, ValueIn(digits, 16));
  }

  /** After a `0x` the magnitude is the value `v` of the digits behind it. */
  lemma HexMagnitude(u: string, digits: string, v: nat)
    requires HasHexPrefix(u) && u[2..] == digits
    requires |digits| > 0 && AllDigitsIn(digits, 16) && v == ValueIn(digits, 16)
    ensures ReadMagnitude(u, 16) == Int(v)
  {
    DigitPrefixAll(digits, 16);
  }

  /** A `-` in front of text that starts with neither whitespace nor a sign negates what
      the text reads as; text that reads as NaN still does. */
  lemma ParseIntMinus(t: string, radix: nat)
    requires radix == 10 || radix == 16
    requires t != [] && !IsSpace(t[0]) && t[0] != '-' && t[0] != '+'
    ensures ParseInt(t, radix).NaN? ==> ParseInt("-" + t, radix).NaN?
    ensures ParseInt(t, radix).Int? ==> ParseInt("-" + t, radix) == Int(-ParseInt(t, radix).i)
  {
    var s := "-" + t;
    assert s[0] == '-' && s[1..] == t;
    assert TrimStart(s) == s;
    assert TrimStart(t) == t;
  }

  /** A leading `-` negates the value `v` of the digits that follow it. */
  lemma ParseIntNegative(digits: string, radix: nat, v: nat)
    requires (radix == 10 || radix == 16) && |digits| > 0 && AllDigitsIn(digits, radix)
    requires radix == 16 ==> !HasHexPrefix(digits)
    requires v == ValueIn(digits, radix)
    ensures ParseInt("-" + digits, radix) == Int(-(v as int))
  {
    ParseIntDigits(digits, radix);
    assert IsDigitIn(digits[0], radix);
    NegatedReading(digits, radix, v);
  }

  lemma NegatedReading(t: string, radix: nat, v: int)
    requires radix == 10 || radix == 16
    requires t != [] && DigitValue(t[0]) < 36 && ParseInt(t, radix) == Int(v)
    ensures ParseInt("-" + t, radix) == Int(-v)
  {
    DigitIsNotSpaceOrSign(t[0]);
    ParseIntMinus(t, radix);
  }

  /** In base 16 the sign may precede the prefix: `-0x` and digits read as the negated
      value `v` of the digits. */
  lemma ParseIntNegativeHexPrefixed(digits: string, v: nat)
    requires |digits| > 0 && AllDigitsIn(digits, 16) && v == ValueIn(digits, 16)
    ensures ParseInt("-" + ("0x" + digits), 16) == Int(-(v as int))
  {
    ParseIntHexPrefixed(digits);
    var u := "0x" + digits;
    assert u[0] == '0' && DigitValue(u[0]) == 0;
    NegatedReading(u, 16, v);
  }

  /** Reading stops at the first character that is not a digit: whatever follows the
      digits is ignored (unless, in base 16, the text starts with `0x`). */
  lemma ParseIntIgnoresTrailing(digits: string, rest: string, radix: nat)
    requires (radix == 10 || radix == 16) && |digits| > 0 && AllDigitsIn(digits, radix)
    requires rest == [] || !IsDigitIn(rest[0], radix)
    requires radix == 16 ==> !HasHexPrefix(digits + rest)
    ensures ParseInt(digits + rest, radix) == Int(ValueIn(digits, radix))
  {
    var s := digits + rest;
    assert s[0] == digits[0];
    DigitIsNotSpaceOrSign(s[0]);
    assert TrimStart(s) == s;
    DigitPrefixStops(digits, rest, radix);
  }

  /** `String` then `Number` gives back every integer. */
  lemma NumberOfIntText(n: int)
    ensures ToNumber(Str(IntText(n))) == Int(n)
  {
    StringAsNumber(IntText(n));
    if n < 0 {
      NegativeText(n);
    } else {
      NaturalText(n);
    }
  }

  lemma StringAsNumber(s: string)
    ensures ToNumber(Str(s)) == StringToNumber(s)
  {
  }

  lemma NaturalText(n: nat)
    ensures StringToNumber(IntText(n)) == Int(n)
  {
    NumeralIsTrimmed(Render(n, 10), 10);
  }

  lemma NegativeText(n: int)
    requires n < 0
    ensures StringToNumber(IntText(n)) == Int(n)
  {
    var m: nat := -n;
    var digits := Render(m, 10);
    var t := "-" + digits;
    assert IntText(n) == t;
    assert t[0] == '-' && t[1..] == digits && t[|t| - 1] == digits[|digits| - 1];
    assert IsDigitIn(digits[|digits| - 1], 10);
    DigitIsNotSpaceOrSign(digits[|digits| - 1]);
    TrimPadded([], t, []);
    assert [] + t + [] == t;
    assert !HasRadixLiteral(t, 'x', 'X', 16) && !HasRadixLiteral(t, 'o', 'O', 8) && !HasRadixLiteral(t, 'b', 'B', 2);
    assert StringToNumber(t) == Int(-(m as int));
  }

  lemma {:induction false} DigitPrefixStops(digits: string, rest: string, radix: nat)
    requires AllDigitsIn(digits, radix)
    requires rest == [] || !IsDigitIn(rest[0], radix)
    ensures DigitPrefix(digits + rest, radix) == digits
  {
    if digits == [] {
      assert digits + rest == rest;
    } else {
      assert (digits + rest)[1..] == digits[1..] + rest;
      DigitPrefixStops(digits[1..], rest, radix);
    }
  }

  lemma {:induction false} DigitPrefixAll(s: string, radix: nat)
    requires AllDigitsIn(s, radix)
    ensures DigitPrefix(s, radix) == s
  {
    if s != [] {
      DigitPrefixAll(s[1..], radix);
    }
  }
}
