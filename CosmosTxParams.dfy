/** `GetTxParamsDto` of the Cosmos transaction route: the `hash` path parameter must be a
    string matching `TX_HASH_REGEX`, `/^0x?[0-9a-fA-F]{64}$/`. */
module CosmosTxParams {
  import opened Text
  import opened Js
  import Hash

  /** Exactly 64 hex digits of either case. */
  predicate IsHex64(s: string) {
    |s| == 64 && AllDigitsIn(s, 16)
  }

  /** The regex as written: a `0`, then an optional lower-case `x`, then 64 hex digits.
      (`?` applies to the `x` alone, not to `0x`.) */
  predicate MatchesTxHash(s: string)
    ensures MatchesTxHash(s) ==> (|s| == 65 || |s| == 66) && s[0] == '0'
  {
    |s| >= 1 && s[0] == '0' && (IsHex64(s[1..]) || (|s| >= 2 && s[1] == 'x' && IsHex64(s[2..])))
  }

  /** `@IsString() @Matches(TX_HASH_REGEX) hash`. */
  predicate ValidTxParams(hash: Json)
    ensures ValidTxParams(hash) ==> hash.Str? && (|hash.s| == 65 || |hash.s| == 66) && hash.s[0] == '0'
  {
    hash.Str? && MatchesTxHash(hash.s)
  }

  /** What the regex accepts: `0` and 64 hex digits (65 characters), or `0x` and 64 hex
      digits (66 characters); nothing of any other length. */
  lemma AcceptedShapes(s: string)
    ensures MatchesTxHash(s) <==>
      (|s| == 65 && s[0] == '0' && AllDigitsIn(s[1..], 16))
      || (|s| == 66 && s[..2] == "0x" && AllDigitsIn(s[2..], 16))
    ensures MatchesTxHash(s) ==> |s| == 65 || |s| == 66
  {
    if |s| >= 2 && s[1] == 'x' {
      assert !IsDigitIn(s[1], 16);
      assert !AllDigitsIn(s[1..], 16) by { assert s[1..][0] == 'x'; }
    }
  }

  /** A `0x` and 64 hex digits, in any mix of cases, is accepted. */
  lemma PrefixedHashAccepted(h: string)
    requires IsHex64(h)
    ensures MatchesTxHash("0x" + h)
  {
    assert ("0x" + h)[2..] == h;
  }

  /** A bare 64-digit hash, the form Cosmos itself prints, is rejected. */
  lemma BareHashRejected(h: string)
    requires IsHex64(h)
    ensures !MatchesTxHash(h)
  {
    AcceptedShapes(h);
  }

  /** An upper-case `0X` prefix is rejected, whatever follows. */
  lemma UpperCasePrefixRejected(rest: string)
    ensures !MatchesTxHash("0X" + rest)
  {
    var s := "0X" + rest;
    assert s[1] == 'X';
    assert !IsDigitIn(s[1], 16);
    if |s| >= 2 {
      assert s[1..][0] == 'X';
    }
  }

  /** The hash must be a string: no other JSON value passes. */
  lemma NonStringRejected(hash: Json)
    requires !hash.Str?
    ensures !ValidTxParams(hash)
  {
  }

  /** As written, `0` and 64 hex digits passes validation, is normalised to `0x0…` and
      reaches the REST endpoint as a 65-digit hash: never a well-formed transaction hash. */
  lemma ZeroPrefixedHashQuirk(h: string)
    requires IsHex64(h)
    ensures MatchesTxHash("0" + h)
    ensures Hash.Normalize("0" + h) == "0x0" + h
    ensures |Hash.StripPrefix(Hash.Normalize("0" + h))| == 65
    ensures !IsHex64(Hash.StripPrefix(Hash.Normalize("0" + h)))
  {
    assert ("0" + h)[1..] == h;
    assert !StartsWith("0" + h, "0x") by {
      assert ("0" + h)[1] == h[0] && IsDigitIn(h[0], 16);
    }
    assert "0x" + ("0" + h) == "0x0" + h;
    assert ("0x0" + h)[2..] == "0" + h;
  }

  /** The evidently intended pattern `/^(0x)?[0-9a-fA-F]{64}$/`: 64 hex digits with an
      optional `0x`. */
  predicate MatchesTxHashIntended(s: string)
    ensures MatchesTxHashIntended(s) ==> |s| == 64 || |s| == 66
    ensures MatchesTxHashIntended(s) ==> AllDigitsIn(s[|s| - 64..], 16)
  {
    IsHex64(s) || (|s| == 66 && s[..2] == "0x" && IsHex64(s[2..]))
  }

  /** Under the intended pattern every accepted hash normalises to `0x` and 64 hex digits,
      and the REST endpoint receives exactly those 64 digits. */
  lemma IntendedHashNormalizes(s: string)
    requires MatchesTxHashIntended(s)
    ensures |Hash.Normalize(s)| == 66 && StartsWith(Hash.Normalize(s), "0x")
    ensures IsHex64(Hash.StripPrefix(Hash.Normalize(s)))
  {
    if IsHex64(s) {
      assert !StartsWith(s, "0x") by { assert IsDigitIn(s[1], 16); }
      assert ("0x" + s)[2..] == s;
    } else {
      assert StartsWith(s, "0x");
    }
  }

  /** Both patterns accept the `0x`-prefixed form; they differ only on the bare hash and on
      `0` followed by 64 digits. */
  lemma PatternsAgreeOnPrefixed(h: string)
    requires IsHex64(h)
    ensures MatchesTxHash("0x" + h) && MatchesTxHashIntended("0x" + h)
    ensures MatchesTxHashIntended(h) && !MatchesTxHash(h)
  {
    PrefixedHashAccepted(h);
    BareHashRejected(h);
    assert ("0x" + h)[..2] == "0x" && ("0x" + h)[2..] == h;
  }
}
