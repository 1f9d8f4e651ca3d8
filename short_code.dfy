/**
 * The short-code generator: `length` independent draws from the alphabet
 * `string.ascii_letters + string.digits`, joined into one string. The random
 * source is a parameter: each draw is the alphabet position it picked.
 */
module ShortCode {

  /** Size of the alphabet: 26 lower-case, 26 upper-case letters and 10 digits. */
  const AlphabetSize: nat := 62

  /** The length the registry asks for when it creates a record. */
  const DefaultLength: nat := 6

  /** One draw of the random source: a position in the alphabet. */
  type Draw = k: nat | k < 62

  /** The characters a short code may contain. */
  predicate IsCodeChar(c: char)
  {
    'A' <= c <= 'Z' || 'a' <= c <= 'z' || '0' <= c <= '9'
  }

  /** A string made only of alphabet characters. */
  predicate IsShortCode(s: string)
  {
    forall i :: 0 <= i < |s| ==> IsCodeChar(s[i])
  }

  /**
   * The character at position `k` of the alphabet, which lists the lower-case
   * letters, then the upper-case letters, then the digits.
   */
  function AlphabetChar(k: Draw): (c: char)
    ensures IsCodeChar(c)
  {
    if k < 26 then ('a' as int + k) as char
    else if k < 52 then ('A' as int + (k - 26)) as char
    else ('0' as int + (k - 52)) as char
  }

  /** The position of an alphabet character. */
  function AlphabetIndex(c: char): (k: Draw)
    requires IsCodeChar(c)
    ensures AlphabetChar(k) == c
  {
    if 'a' <= c <= 'z' then c as int - 'a' as int
    else if 'A' <= c <= 'Z' then 26 + (c as int - 'A' as int)
    else 52 + (c as int - '0' as int)
  }

  /** Distinct draws give distinct characters: the alphabet has no repeats. */
  lemma AlphabetCharInjective(j: Draw, k: Draw)
    requires AlphabetChar(j) == AlphabetChar(k)
    ensures j == k
  {
  }

  /** The code produced from the draws `draws`; its length is the number of draws. */
  function GenerateShortCode(draws: seq<Draw>): (code: string)
    ensures |code| == |draws|
    ensures IsShortCode(code)
  {
    seq(|draws|, i requires 0 <= i < |draws| => AlphabetChar(draws[i]))
  }

  /** The draws that spell out `code`. */
  function DrawsOf(code: string): (draws: seq<Draw>)
    requires IsShortCode(code)
    ensures |draws| == |code|
  {
    seq(|code|, i requires 0 <= i < |code| => AlphabetIndex(code[i]))
  }

  /** Every alphabet string of length n is the code of some n draws. */
  lemma GenerateCoversAllCodes(code: string)
    requires IsShortCode(code)
    ensures GenerateShortCode(DrawsOf(code)) == code
  {
    var g := GenerateShortCode(DrawsOf(code));
    forall i | 0 <= i < |code|
      ensures g[i] == code[i]
    {
      assert g[i] == AlphabetChar(AlphabetIndex(code[i]));
    }
  }

  /**
   * Distinct draw sequences give distinct codes, so each of the 62^n codes of
   * length n comes from exactly one sequence of n draws.
   */
  lemma GenerateIsInjective(a: seq<Draw>, b: seq<Draw>)
    requires GenerateShortCode(a) == GenerateShortCode(b)
    ensures a == b
  {
    assert |a| == |b|;
    forall i | 0 <= i < |a|
      ensures a[i] == b[i]
    {
      assert GenerateShortCode(a)[i] == GenerateShortCode(b)[i];
      AlphabetCharInjective(a[i], b[i]);
    }
  }
}
