/** The public article id generator `generate_id` (app.py:13-15).

    The source draws `length` characters with `random.choices` from
    `string.ascii_letters + string.digits`. Randomness is not modelled: the
    generator takes the sequence of draws (alphabet positions, each in
    0..61) as its input, so every property below holds whatever the random
    source produced. */
module PublicId {

  /** Number of symbols in `string.ascii_letters + string.digits`. */
  const AlphabetSize: nat := 62

  /** Default `length` of `generate_id`, also the width of the `id` column. */
  const DefaultLength: nat := 8

  function AsciiLowercase(): string {
    seq(26, k requires 0 <= k < 26 => ('a' as int + k) as char)
  }

  function AsciiUppercase(): string {
    seq(26, k requires 0 <= k < 26 => ('A' as int + k) as char)
  }

  function Digits(): string {
    seq(10, k requires 0 <= k < 10 => ('0' as int + k) as char)
  }

  /** `string.ascii_letters` is lower case then upper case; digits follow. */
  function Alphabet(): string {
    AsciiLowercase() + AsciiUppercase() + Digits()
  }

  predicate IsAlphanumeric(c: char) {
    'a' <= c <= 'z' || 'A' <= c <= 'Z' || '0' <= c <= '9'
  }

  predicate IsAlphanumericString(s: string) {
    forall i :: 0 <= i < |s| ==> IsAlphanumeric(s[i])
  }

  /** A string `generate_id(8)` can return: the shape of every article's public id. */
  predicate IsPublicId(s: string) {
    |s| == DefaultLength && IsAlphanumericString(s)
  }

  /** What the random source hands `random.choices`: positions in the alphabet. */
  predicate IsDraws(draws: seq<int>) {
    forall i :: 0 <= i < |draws| ==> 0 <= draws[i] < AlphabetSize
  }

  lemma AsciiLowercaseLiteral()
    ensures AsciiLowercase() == "abcdefghijklmnopqrstuvwxyz"
  {
  }

  lemma AsciiUppercaseLiteral()
    ensures AsciiUppercase() == "ABCDEFGHIJKLMNOPQRSTUVWXYZ"
  {
  }

  lemma DigitsLiteral()
    ensures Digits() == "0123456789"
  {
  }

  /** The alphabet is exactly the 62 ASCII letters and digits, in this order. */
  lemma AlphabetIsAsciiLettersAndDigits()
    ensures Alphabet() == "abcdefghijklmnopqrstuvwxyzABCDEFGHIJKLMNOPQRSTUVWXYZ0123456789"
    ensures |Alphabet()| == AlphabetSize
  {
    AsciiLowercaseLiteral();
    AsciiUppercaseLiteral();
    DigitsLiteral();
  }

  /** Position of an alphanumeric character in the alphabet. */
  function SymbolIndex(c: char): (k: int)
    requires IsAlphanumeric(c)
    ensures 0 <= k < AlphabetSize && Alphabet()[k] == c
  {
    if 'a' <= c <= 'z' then c as int - 'a' as int
    else if 'A' <= c <= 'Z' then 26 + (c as int - 'A' as int)
    else 52 + (c as int - '0' as int)
  }

  /** Each alphabet position holds an alphanumeric character, and distinct
      positions hold distinct characters. */
  lemma SymbolAt(k: int)
    requires 0 <= k < AlphabetSize
    ensures IsAlphanumeric(Alphabet()[k])
    ensures SymbolIndex(Alphabet()[k]) == k
  {
  }

  /** `generate_id(len(draws))` for the given draws: one alphabet symbol per draw. */
  function GenerateId(draws: seq<int>): (id: string)
    requires IsDraws(draws)
    ensures |id| == |draws|
    ensures IsAlphanumericString(id)
  {
    if |draws| == 0 then ""
    else
      SymbolAt(draws[0]);
      [Alphabet()[draws[0]]] + GenerateId(draws[1..])
  }

  /** The draws that make `GenerateId` produce `id`. */
  function DrawsOf(id: string): (draws: seq<int>)
    requires IsAlphanumericString(id)
    ensures |draws| == |id|
    ensures IsDraws(draws)
  {
    if |id| == 0 then []
    else [SymbolIndex(id[0])] + DrawsOf(id[1..])
  }

  /** Every alphanumeric string of the requested length is a possible output:
      the length-and-alphabet contract is exact, not merely an upper bound. */
  lemma {:induction false} GenerateIdReachesEveryId(id: string)
    requires IsAlphanumericString(id)
    ensures GenerateId(DrawsOf(id)) == id
  {
    if |id| != 0 {
      GenerateIdReachesEveryId(id[1..]);
      assert DrawsOf(id)[1..] == DrawsOf(id[1..]);
    }
  }

  /** Different draws give different ids, so the generator has 62^length outcomes. */
  lemma {:induction false} GenerateIdIsInjective(draws: seq<int>)
    requires IsDraws(draws)
    ensures DrawsOf(GenerateId(draws)) == draws
  {
    if |draws| != 0 {
      SymbolAt(draws[0]);
      GenerateIdIsInjective(draws[1..]);
      assert GenerateId(draws)[1..] == GenerateId(draws[1..]);
    }
  }
}
