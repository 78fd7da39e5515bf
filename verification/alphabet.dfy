/** The identifier generator behind authorization codes and access tokens.

    The server mints every code and token as a fixed-length string whose
    characters are drawn, one at a time and with replacement, from a
    62-letter alphanumeric alphabet. The pseudorandom source is not modelled:
    the generator receives the sequence of indices the source would have drawn
    and spells them out. The lemmas here show that this loses nothing, since
    the strings it can produce are exactly the alphanumeric strings of the
    requested length, each spelled by exactly one sequence of draws.
 */
module Alphabet {

  /** The three runs of the alphabet, in the order the generator lists them. */
  const Lower: string := "abcdefghijklmnopqrstuvwxyz"
  const Upper: string := "ABCDEFGHIJKLMNOPQRSTUVWXYZ"
  const Digits: string := "0123456789"

  /** The generator's alphabet: lower case, then upper case, then digits. */
  const Letters: string := Lower + Upper + Digits

  /** A character of the alphabet, stated by code-point ranges. */
  predicate IsAlnum(c: char) {
    ('a' <= c <= 'z') || ('A' <= c <= 'Z') || ('0' <= c <= '9')
  }

  /** Every character of `s` belongs to the alphabet. */
  predicate IsAlnumString(s: string) {
    forall k :: 0 <= k < |s| ==> IsAlnum(s[k])
  }

  /** `draws` are indices into the alphabet that spell out `s`, one per character. */
  predicate Spells(draws: seq<nat>, s: string) {
    && |draws| == |s|
    && (forall k :: 0 <= k < |draws| ==> draws[k] < |Letters|)
    && (forall k :: 0 <= k < |draws| ==> Letters[draws[k]] == s[k])
  }

  /** `n` consecutive characters starting at code point `first`. */
  function CodePointRun(first: char, n: nat): (r: string)
    requires first as int + n <= 0xD800
    ensures |r| == n
    ensures forall i :: 0 <= i < n ==> r[i] as int == first as int + i
  {
    seq(n, i requires 0 <= i < n => (first as int + i) as char)
  }

  lemma LowerIsRun()
    ensures Lower == CodePointRun('a', 26)
  {
  }

  lemma UpperIsRun()
    ensures Upper == CodePointRun('A', 26)
  {
  }

  lemma DigitsIsRun()
    ensures Digits == CodePointRun('0', 10)
  {
  }

  /** The alphabet is the 62-character literal of the generator, written out. */
  lemma LettersSpelledOut()
    ensures Letters == "abcdefghijklmnopqrstuvwxyzABCDEFGHIJKLMNOPQRSTUVWXYZ0123456789"
    ensures |Letters| == 62
  {}

  /** The position of an alphanumeric character in the alphabet. */
  function IndexOf(c: char): (i: nat)
    requires IsAlnum(c)
    ensures i < |Letters| && Letters[i] == c
  {
    LowerIsRun();
    UpperIsRun();
    DigitsIsRun();
    if 'a' <= c <= 'z' then c as int - 'a' as int
    else if 'A' <= c <= 'Z' then 26 + (c as int - 'A' as int)
    else 52 + (c as int - '0' as int)
  }

  /** The alphabet holds 62 pairwise distinct characters, all alphanumeric,
      and `IndexOf` inverts indexing into it. */
  lemma AlphabetIsAlnum()
    ensures |Letters| == 62
    ensures forall i :: 0 <= i < |Letters| ==> IsAlnum(Letters[i]) && IndexOf(Letters[i]) == i
    ensures forall i, j :: 0 <= i < j < |Letters| ==> Letters[i] != Letters[j]
    ensures forall c :: IsAlnum(c) <==> c in Letters
  {
    LowerIsRun();
    UpperIsRun();
    DigitsIsRun();
    forall c | c in Letters
      ensures IsAlnum(c)
    {
      var i :| 0 <= i < |Letters| && Letters[i] == c;
    }
  }

  /** Spelling a string out of draws yields an alphanumeric string. */
  lemma SpelledStringIsAlnum(draws: seq<nat>, s: string)
    requires Spells(draws, s)
    ensures IsAlnumString(s)
  {
  }

  /** The generator, given the indices the pseudorandom source would draw:
      a string of length `n` whose `k`-th character is the `draws[k]`-th
      letter of the alphabet. */
  method RandSeq(n: nat, draws: seq<nat>) returns (s: string)
    requires |draws| == n
    requires forall k :: 0 <= k < n ==> draws[k] < |Letters|
    ensures |s| == n && IsAlnumString(s)
    ensures Spells(draws, s)
  {
    var b: string := seq(n, _ => '\0');
    var i := 0;
    while i < n
      invariant 0 <= i <= n
      invariant |b| == n
      invariant forall k :: 0 <= k < i ==> b[k] == Letters[draws[k]]
    {
      b := b[i := Letters[draws[i]]];
      i := i + 1;
    }
    s := b;
    SpelledStringIsAlnum(draws, s);
  }

  /** Every alphanumeric string can come out of the generator: some draws spell it. */
  lemma EveryAlnumStringIsSpelled(s: string)
    requires IsAlnumString(s)
    ensures exists draws :: Spells(draws, s)
  {
    var draws := seq(|s|, k requires 0 <= k < |s| => IndexOf(s[k]));
    assert Spells(draws, s);
  }

  /** Each string is spelled by exactly one sequence of draws, so uniform
      draws give uniformly distributed strings. */
  lemma SpellingIsUnique(d1: seq<nat>, d2: seq<nat>, s: string)
    requires Spells(d1, s) && Spells(d2, s)
    ensures d1 == d2
  {
    AlphabetIsAlnum();
    forall k | 0 <= k < |s|
      ensures d1[k] == d2[k]
    {
      assert Letters[d1[k]] == Letters[d2[k]];
    }
  }
}
