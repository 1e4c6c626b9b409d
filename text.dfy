/**
 * The few pieces of Python's string behaviour the ledger relies on:
 * `str(n)` for an int, `n * "0"`, the slice `s[:n]`, and the shape of a
 * `hexdigest()` result.
 */
module Text {

  /** The character of one decimal digit. */
  function DigitChar(d: nat): (c: char)
    requires d < 10
    ensures '0' <= c <= '9'
  {
    "0123456789"[d]
  }

  /** The number a string of decimal digits denotes, most significant digit first. */
  function DigitsValue(s: string): nat
    requires forall i :: 0 <= i < |s| ==> '0' <= s[i] <= '9'
  {
    if s == [] then 0
    else DigitsValue(s[..|s| - 1]) * 10 + (s[|s| - 1] as int - '0' as int)
  }

  /** The decimal digits of `n`, most significant first, without leading zeros. */
  function Digits(n: nat): (r: string)
    ensures |r| >= 1
    ensures forall i :: 0 <= i < |r| ==> '0' <= r[i] <= '9'
    ensures n >= 10 ==> r[0] != '0'
    ensures DigitsValue(r) == n
    decreases n
  {
    if n < 10 then [DigitChar(n)]
    else
      var r := Digits(n / 10) + [DigitChar(n % 10)];
      assert r[..|r| - 1] == Digits(n / 10);
      r
  }

  /**
   * Python's `str(n)` (and `f'{n}'`) for an int: a minus sign for negatives,
   * then the digits of `|n|` without leading zeros.
   */
  function Decimal(n: int): (r: string)
    ensures |r| >= 1
    ensures (r[0] == '-') <==> n < 0
    ensures var digits := if n < 0 then r[1..] else r;
      && digits != []
      && (forall i :: 0 <= i < |digits| ==> '0' <= digits[i] <= '9')
      && (|digits| > 1 ==> digits[0] != '0')
      && DigitsValue(digits) == if n < 0 then -n else n
  {
    if n < 0 then "-" + Digits(-n) else Digits(n)
  }

  /** Python's `n * "0"`: `n` zeros, and the empty string when `n <= 0`. */
  function Zeros(n: int): (r: string)
    ensures |r| == if n <= 0 then 0 else n
    ensures forall i :: 0 <= i < |r| ==> r[i] == '0'
  {
    if n <= 0 then "" else Zeros(n - 1) + "0"
  }

  /**
   * Python's slice `s[:n]`: the first `n` characters, all of `s` when `n`
   * exceeds its length, and for a negative `n` all but the last `-n`.
   */
  function Prefix(s: string, n: int): (r: string)
    ensures r <= s
    ensures n >= 0 ==> |r| == if n <= |s| then n else |s|
    ensures n < 0 ==> |r| == if |s| + n <= 0 then 0 else |s| + n
  {
    if n >= 0 then
      if n <= |s| then s[..n] else s
    else
      if |s| + n <= 0 then "" else s[..|s| + n]
  }

  /** A character `hexdigest()` can produce. */
  predicate IsLowerHexDigit(c: char) {
    '0' <= c <= '9' || 'a' <= c <= 'f'
  }

  /** The number of hex characters in a SHA-256 `hexdigest()`. */
  const DigestLength: nat := 64

  /** A SHA-256 `hexdigest()`: 64 lowercase hex characters. */
  predicate IsHexDigest(s: string) {
    |s| == DigestLength && forall i :: 0 <= i < |s| ==> IsLowerHexDigit(s[i])
  }

  /**
   * SHA-256 followed by `hexdigest()`, taken as a parameter: any function
   * from the encoded input to 64 lowercase hex characters. Every property of
   * this model holds whichever such function is supplied.
   */
  type Hasher = h: string -> string | forall s :: IsHexDigest(h(s))
    witness (s: string) => Zeros(DigestLength)
}
