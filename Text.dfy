/** Characters, digits and the string primitives of the JavaScript runtime that the
    gateway leans on: whitespace trimming, digit values in a radix, and the rendering of
    a natural number as a lower-case numeral (`n.toString(radix)`, `BigInt.toString(10)`). */
module Text {

  /** ECMAScript WhiteSpace or LineTerminator: what `trim`, `Number()`, `parseInt` and
      `BigInt()` skip. */
  predicate IsSpace(c: char) {
    var k := c as int;
    k == 0x09 || k == 0x0A || k == 0x0B || k == 0x0C || k == 0x0D || k == 0x20
    || k == 0xA0 || k == 0x1680 || (0x2000 <= k <= 0x200A) || k == 0x2028 || k == 0x2029
    || k == 0x202F || k == 0x205F || k == 0x3000 || k == 0xFEFF
  }

  predicate StartsWith(s: string, prefix: string) {
    |prefix| <= |s| && s[..|prefix|] == prefix
  }

  /** A `0x` or `0X` at the front: what `toLowerCase().startsWith('0x')` tests, and the
      prefix `parseInt(_, 16)` skips. */
  predicate HasHexPrefix(s: string)
    ensures HasHexPrefix(s) <==> StartsWith(s, "0x") || StartsWith(s, "0X")
  {
    |s| >= 2 && s[0] == '0' && (s[1] == 'x' || s[1] == 'X')
  }

  /** Leading whitespace removed (`trimStart`). */
  function TrimStart(s: string): (r: string)
    ensures |r| <= |s| && r == s[|s| - |r|..]
    ensures forall i :: 0 <= i < |s| - |r| ==> IsSpace(s[i])
    ensures r == [] || !IsSpace(r[0])
  {
    if s != [] && IsSpace(s[0]) then TrimStart(s[1..]) else s
  }

  /** Trailing whitespace removed (`trimEnd`). */
  function TrimEnd(s: string): (r: string)
    ensures |r| <= |s| && r == s[..|r|]
    ensures forall i :: |r| <= i < |s| ==> IsSpace(s[i])
    ensures r == [] || !IsSpace(r[|r| - 1])
  {
    if s != [] && IsSpace(s[|s| - 1]) then TrimEnd(s[..|s| - 1]) else s
  }

  /** `String.prototype.trim`: empty exactly when the input is all whitespace, and
      otherwise beginning and ending with a character that is not whitespace. */
  function Trim(s: string): (r: string)
    ensures r == [] <==> forall i :: 0 <= i < |s| ==> IsSpace(s[i])
    ensures r != [] ==> !IsSpace(r[0]) && !IsSpace(r[|r| - 1])
  {
    var front := TrimStart(s);
    var r := TrimEnd(front);
    assert r != [] ==> r[0] == front[0];
    assert front != [] ==> s[|s| - |front|] == front[0];
    r
  }

  /** `parts.join(sep)`. */
  function Join(parts: seq<string>, sep: string): (r: string)
    ensures parts == [] ==> r == ""
    ensures |parts| == 1 ==> r == parts[0]
  {
    if parts == [] then ""
    else if |parts| == 1 then parts[0]
    else Join(parts[..|parts| - 1], sep) + sep + parts[|parts| - 1]
  }

  /** Joining two non-empty lists puts one separator between their joins. */
  lemma {:induction false} JoinAppend(a: seq<string>, b: seq<string>, sep: string)
    requires a != [] && b != []
    ensures Join(a + b, sep) == Join(a, sep) + sep + Join(b, sep)
    decreases |b|
  {
    var ab := a + b;
    if |b| == 1 {
      assert ab[..|ab| - 1] == a && ab[|ab| - 1] == b[0];
    } else {
      var b', last := b[..|b| - 1], b[|b| - 1];
      assert ab[..|ab| - 1] == a + b' && ab[|ab| - 1] == last;
      JoinAppend(a, b', sep);
      var ja, jb := Join(a, sep), Join(b', sep);
      assert Join(ab, sep) == (ja + sep + jb) + sep + last;
      assert Join(b, sep) == jb + sep + last;
      assert (ja + sep + jb) + sep + last == ja + sep + (jb + sep + last);
    }
  }

  /** A join of non-empty parts is empty only when there are no parts. */
  lemma JoinNonEmpty(parts: seq<string>, sep: string)
    requires parts != [] && parts[|parts| - 1] != ""
    ensures Join(parts, sep) != ""
  {
  }

  /** Value of a digit or letter in bases up to 36 (`a`/`A` is 10); 36 for anything else. */
  function DigitValue(c: char): (d: nat)
    ensures d <= 36
  {
    if '0' <= c <= '9' then c as int - '0' as int
    else if 'a' <= c <= 'z' then c as int - 'a' as int + 10
    else if 'A' <= c <= 'Z' then c as int - 'A' as int + 10
    else 36
  }

  predicate IsDigitIn(c: char, radix: nat) {
    DigitValue(c) < radix
  }

  predicate AllDigitsIn(s: string, radix: nat) {
    forall i :: 0 <= i < |s| ==> IsDigitIn(s[i], radix)
  }

  /** One or more ASCII decimal digits: the regex `^\d+$`. */
  predicate IsDecimalDigits(s: string) {
    |s| > 0 && AllDigitsIn(s, 10)
  }

  /** One or more hex digits of either case: the regex `^[0-9a-fA-F]+$`. */
  predicate IsHexDigits(s: string) {
    |s| > 0 && AllDigitsIn(s, 16)
  }

  predicate HasNoUpperCase(s: string) {
    forall i :: 0 <= i < |s| ==> !('A' <= s[i] <= 'Z')
  }

  /** The big-endian value of a digit string: arbitrary precision, no width limit. */
  function ValueIn(s: string, radix: nat): nat
    requires AllDigitsIn(s, radix)
  {
    if s == [] then 0 else ValueIn(s[..|s| - 1], radix) * radix + DigitValue(s[|s| - 1])
  }

  /** The lower-case digit character for `d`. */
  function DigitChar(d: nat): (c: char)
    requires d < 16
    ensures DigitValue(c) == d && !('A' <= c <= 'Z')
  {
    if d < 10 then ('0' as int + d) as char else ('a' as int + d - 10) as char
  }

  /** A numeral as `toString(radix)` prints it: digits of the radix, lower case, and no
      leading zero unless the numeral is `0` itself. */
  predicate IsCanonical(s: string, radix: nat) {
    |s| > 0 && AllDigitsIn(s, radix) && HasNoUpperCase(s) && (s[0] == '0' ==> |s| == 1)
  }

  /** `n.toString(radix)` for a non-negative integer, with no precision limit. */
  function Render(n: nat, radix: nat): (r: string)
    requires 2 <= radix <= 16
    ensures IsCanonical(r, radix)
    ensures ValueIn(r, radix) == n
    decreases n
  {
    if n < radix then [DigitChar(n)]
    else
      DivMod(n, radix);
      var front := Render(n / radix, radix);
      var c := DigitChar(n % radix);
      ValueSnoc(front, c, radix);
      assert (front + [c])[0] == front[0];
      front + [c]
  }

  /** Appending a digit multiplies by the radix and adds the digit. */
  lemma ValueSnoc(front: string, c: char, radix: nat)
    requires AllDigitsIn(front, radix) && IsDigitIn(c, radix)
    ensures AllDigitsIn(front + [c], radix)
    ensures ValueIn(front + [c], radix) == ValueIn(front, radix) * radix + DigitValue(c)
  {
    assert (front + [c])[..|front|] == front;
  }

  lemma DivMod(n: nat, radix: nat)
    requires 2 <= radix <= n
    ensures 1 <= n / radix < n && n % radix < radix
    ensures n == (n / radix) * radix + n % radix
  {
  }

  /** A non-empty numeral whose first digit is not zero has a positive value. */
  lemma {:induction false} LeadingDigitPositive(s: string, radix: nat)
    requires 2 <= radix && |s| > 0 && AllDigitsIn(s, radix) && DigitValue(s[0]) > 0
    ensures ValueIn(s, radix) > 0
  {
    var front := s[..|s| - 1];
    if |s| > 1 {
      assert front[0] == s[0];
      LeadingDigitPositive(front, radix);
      MulAtLeast(1, ValueIn(front, radix), radix);
    } else {
      assert front == [];
    }
  }

  /** Rendering is the inverse of reading back on canonical numerals: every canonical
      numeral is the rendering of its own value. */
  lemma {:induction false} RenderOfCanonical(s: string, radix: nat)
    requires 2 <= radix <= 16 && IsCanonical(s, radix)
    ensures Render(ValueIn(s, radix), radix) == s
  {
    var last := s[|s| - 1];
    CanonicalLast(s, radix);
    if |s| > 1 {
      var front := s[..|s| - 1];
      CanonicalFront(s, radix);
      RenderOfCanonical(front, radix);
      RenderSnoc(ValueIn(front, radix), DigitValue(last), radix);
      assert s == front + [last];
    } else {
      assert s == [last];
    }
  }

  /** The last digit of a canonical numeral is the digit `DigitChar` prints for it. */
  lemma CanonicalLast(s: string, radix: nat)
    requires 2 <= radix <= 16 && IsCanonical(s, radix)
    ensures DigitValue(s[|s| - 1]) < radix
    ensures s[|s| - 1] == DigitChar(DigitValue(s[|s| - 1]))
  {
    var last := s[|s| - 1];
    assert IsDigitIn(last, radix) && !('A' <= last <= 'Z');
  }

  /** Dropping the last digit of a canonical numeral of two or more digits leaves a
      canonical numeral with a positive value. */
  lemma CanonicalFront(s: string, radix: nat)
    requires 2 <= radix <= 16 && IsCanonical(s, radix) && |s| > 1
    ensures IsCanonical(s[..|s| - 1], radix)
    ensures ValueIn(s[..|s| - 1], radix) >= 1
  {
    var front := s[..|s| - 1];
    assert front[0] == s[0] && DigitValue(s[0]) > 0;
    LeadingDigitPositive(front, radix);
  }

  /** Rendering `q` followed by one more digit `d` renders `q * radix + d`. */
  lemma RenderSnoc(q: nat, d: nat, radix: nat)
    requires 2 <= radix <= 16 && 1 <= q && d < radix
    ensures Render(q * radix + d, radix) == Render(q, radix) + [DigitChar(d)]
  {
    DivModOf(q, d, radix);
  }

  lemma DivModOf(q: nat, d: nat, radix: nat)
    requires 2 <= radix && 1 <= q && d < radix
    ensures q * radix + d >= radix
    ensures (q * radix + d) / radix == q && (q * radix + d) % radix == d
  {
    var n := q * radix + d;
    MulAtLeast(1, q, radix);
    var q', d' := n / radix, n % radix;
    assert q' * radix + d' == n;
    if q' < q {
      MulAtLeast(q' + 1, q, radix);
    } else if q < q' {
      MulAtLeast(q + 1, q', radix);
    }
  }

  lemma MulAtLeast(a: nat, b: nat, c: nat)
    requires a <= b
    ensures a * c <= b * c
  {
  }

  /** Two canonical numerals are equal exactly when their values are. */
  lemma CanonicalUnique(s: string, t: string, radix: nat)
    requires 2 <= radix <= 16 && IsCanonical(s, radix) && IsCanonical(t, radix)
    ensures s == t <==> ValueIn(s, radix) == ValueIn(t, radix)
  {
    RenderOfCanonical(s, radix);
    RenderOfCanonical(t, radix);
  }

  /** Text surrounded by whitespace trims back to itself. */
  lemma {:induction false} TrimPadded(lead: string, t: string, trail: string)
    requires forall i :: 0 <= i < |lead| ==> IsSpace(lead[i])
    requires forall i :: 0 <= i < |trail| ==> IsSpace(trail[i])
    requires t != [] && !IsSpace(t[0]) && !IsSpace(t[|t| - 1])
    ensures Trim(lead + t + trail) == t
  {
    TrimStartPadded(lead, t + trail);
    assert lead + t + trail == lead + (t + trail);
    TrimEndPadded(t, trail);
  }

  /** A numeral carries no surrounding whitespace. */
  lemma NumeralIsTrimmed(t: string, radix: nat)
    requires 2 <= radix <= 16 && |t| > 0 && AllDigitsIn(t, radix)
    ensures Trim(t) == t
  {
    assert IsDigitIn(t[0], radix) && IsDigitIn(t[|t| - 1], radix);
    DigitIsNotSpaceOrSign(t[0]);
    DigitIsNotSpaceOrSign(t[|t| - 1]);
    TrimPadded([], t, []);
    assert [] + t + [] == t;
  }

  /** A digit of any radix is neither whitespace nor a sign. */
  lemma DigitIsNotSpaceOrSign(c: char)
    requires DigitValue(c) < 36
    ensures !IsSpace(c) && c != '-' && c != '+'
  {
  }

  /** Trimming twice is trimming once. */
  lemma TrimIdempotent(s: string)
    ensures Trim(Trim(s)) == Trim(s)
  {
    var t := Trim(s);
    if t != [] {
      TrimPadded([], t, []);
      assert [] + t + [] == t;
    }
  }

  lemma {:induction false} TrimStartPadded(lead: string, t: string)
    requires forall i :: 0 <= i < |lead| ==> IsSpace(lead[i])
    requires t != [] && !IsSpace(t[0])
    ensures TrimStart(lead + t) == t
  {
    if lead != [] {
      assert (lead + t)[1..] == lead[1..] + t;
      TrimStartPadded(lead[1..], t);
    }
  }

  lemma {:induction false} TrimEndPadded(t: string, trail: string)
    requires forall i :: 0 <= i < |trail| ==> IsSpace(trail[i])
    requires t != [] && !IsSpace(t[|t| - 1])
    ensures TrimEnd(t + trail) == t
  {
    if trail != [] {
      var front := trail[..|trail| - 1];
      assert (t + trail)[..|t + trail| - 1] == t + front;
      TrimEndPadded(t, front);
    } else {
      assert t + trail == t;
    }
  }
}
