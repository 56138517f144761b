/** The `0x` prefix handling shared by both services' transaction lookups. */
module Hash {
  import opened Text

  /** `normalizeHash`: prepend `0x` unless the hash already starts with the lower-case
      prefix; an upper-case `0X` is not recognised. */
  function Normalize(h: string): (r: string)
    ensures StartsWith(r, "0x")
    ensures StartsWith(h, "0x") ==> r == h
    ensures !StartsWith(h, "0x") ==> r == "0x" + h
  {
    if StartsWith(h, "0x") then h else "0x" + h
  }

  /** `hash.replace(/^0x/, '')`: at most one leading lower-case `0x` removed. */
  function StripPrefix(h: string): (r: string)
    ensures StartsWith(h, "0x") ==> "0x" + r == h
    ensures !StartsWith(h, "0x") ==> r == h
  {
    if StartsWith(h, "0x") then h[2..] else h
  }

  /** Normalising twice is normalising once. */
  lemma NormalizeIdempotent(h: string)
    ensures Normalize(Normalize(h)) == Normalize(h)
  {
  }

  /** A `0X…` hash is treated as unprefixed and gains a second prefix. */
  lemma NormalizeUpperCasePrefix(rest: string)
    ensures Normalize("0X" + rest) == "0x0X" + rest
  {
    assert !StartsWith("0X" + rest, "0x") by { assert ("0X" + rest)[1] == 'X'; }
  }

  /** Stripping undoes normalising: the REST path addresses the caller's hash with one
      `0x` removed when it had one, and unchanged otherwise. */
  lemma StripAfterNormalize(h: string)
    ensures StripPrefix(Normalize(h)) == (if StartsWith(h, "0x") then h[2..] else h)
  {
    if !StartsWith(h, "0x") {
      assert ("0x" + h)[2..] == h;
    }
  }
}
