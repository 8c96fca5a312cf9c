/**
 * Invitation tokens: `generate_token` draws `length` characters (8 by default) uniformly,
 * with replacement, from `string.ascii_letters + string.digits`.
 */
module Tokens {

  const DefaultTokenLength: nat := 8

  /** `n` consecutive characters starting at `lo`. */
  function CharRange(lo: char, n: nat): (r: string)
    requires lo as int + n <= 0xD800
    ensures |r| == n
    ensures forall k :: 0 <= k < n ==> r[k] as int == lo as int + k
  {
    seq(n, k requires 0 <= k < n => (lo as int + k) as char)
  }

  /** `string.ascii_lowercase`, `string.ascii_uppercase` and `string.digits`. */
  const Lowercase: string := CharRange('a', 26)
  const Uppercase: string := CharRange('A', 26)
  const Digits: string := CharRange('0', 10)

  /** The population `generate_token` draws from: `ascii_letters + digits`. */
  const Alphabet: string := Lowercase + Uppercase + Digits

  predicate IsAsciiAlnum(c: char) {
    ('a' <= c <= 'z') || ('A' <= c <= 'Z') || ('0' <= c <= '9')
  }

  /** A token as `generate_token()` produces it. */
  predicate IsToken(t: string) {
    |t| == DefaultTokenLength && forall k :: 0 <= k < |t| ==> IsAsciiAlnum(t[k])
  }

  /** The alphabet is exactly the 62 ASCII letters and digits, each once. */
  lemma AlphabetIsAsciiAlnum()
    ensures |Alphabet| == 62
    ensures forall k :: 0 <= k < |Alphabet| ==> IsAsciiAlnum(Alphabet[k])
    ensures forall c :: IsAsciiAlnum(c) ==> c in Alphabet
    ensures forall j, k :: 0 <= j < k < |Alphabet| ==> Alphabet[j] != Alphabet[k]
  {
    forall c | IsAsciiAlnum(c) ensures c in Alphabet {
      var k := IndexInAlphabet(c);
    }
  }

  /** Where a letter or digit sits in the alphabet: the draw that yields it. */
  function IndexInAlphabet(c: char): (k: nat)
    requires IsAsciiAlnum(c)
    ensures k < |Alphabet| && Alphabet[k] == c
  {
    if 'a' <= c <= 'z' then c as int - 'a' as int
    else if 'A' <= c <= 'Z' then 26 + (c as int - 'A' as int)
    else 52 + (c as int - '0' as int)
  }

  /**
   * `generate_token(length)`: the randomness of `random.choices` is supplied as the
   * sequence of indices it draws, one per character.
   */
  function GenerateToken(length: nat, draws: seq<nat>): (t: string)
    requires |draws| == length
    requires forall k :: 0 <= k < |draws| ==> draws[k] < |Alphabet|
    ensures |t| == length
    ensures forall k :: 0 <= k < |t| ==> IsAsciiAlnum(t[k])
  {
    AlphabetIsAsciiAlnum();
    seq(length, k requires 0 <= k < length => Alphabet[draws[k]])
  }

  /** With the default length, every generated string is a token. */
  lemma GeneratedIsToken(draws: seq<nat>)
    requires |draws| == DefaultTokenLength
    requires forall k :: 0 <= k < |draws| ==> draws[k] < |Alphabet|
    ensures IsToken(GenerateToken(DefaultTokenLength, draws))
  {
  }

  /** Conversely every token is the outcome of some draw: nothing in the alphabet is unreachable. */
  lemma EveryTokenIsDrawable(t: string)
    requires IsToken(t)
    ensures exists draws: seq<nat> ::
              && |draws| == DefaultTokenLength
              && (forall k :: 0 <= k < |draws| ==> draws[k] < |Alphabet|)
              && GenerateToken(DefaultTokenLength, draws) == t
  {
    var draws := seq(|t|, k requires 0 <= k < |t| => IndexInAlphabet(t[k]));
    assert GenerateToken(DefaultTokenLength, draws) == t;
  }
}
