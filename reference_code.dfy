/**
  `generateReference`: an 8-character tracking code, each character drawn from the
  36-character alphabet A-Z, 0-9. The random draws `Math.floor(Math.random() * 36)` are
  supplied by the caller as a sequence of indices.
*/
module ReferenceCode {
  const Alphabet: string := "ABCDEFGHIJKLMNOPQRSTUVWXYZ0123456789"
  const CodeLength: nat := 8

  predicate IsCodeChar(c: char) { 'A' <= c <= 'Z' || '0' <= c <= '9' }

  predicate IsCode(code: string) {
    |code| == CodeLength && forall i :: 0 <= i < |code| ==> IsCodeChar(code[i])
  }

  /** One index in [0, 36) per character of the code. */
  predicate ValidDraws(draws: seq<nat>) {
    |draws| == CodeLength && forall i :: 0 <= i < |draws| ==> draws[i] < |Alphabet|
  }

  /** The code the draws select, character by character. */
  function CodeOf(draws: seq<nat>): string
    requires ValidDraws(draws)
  {
    seq(CodeLength, i requires 0 <= i < CodeLength => Alphabet[draws[i]])
  }

  /** The alphabet is exactly the code characters. */
  lemma AlphabetIsCodeChars()
    ensures |Alphabet| == 36
    ensures forall k :: 0 <= k < |Alphabet| ==> IsCodeChar(Alphabet[k])
  {
  }

  /** Where a code character sits in the alphabet. */
  function IndexOf(c: char): (k: nat)
    requires IsCodeChar(c)
    ensures k < |Alphabet| && Alphabet[k] == c
  {
    if 'A' <= c then c as int - 'A' as int else 26 + (c as int - '0' as int)
  }

  /** Every code the draws select has the promised shape. */
  lemma CodeOfIsCode(draws: seq<nat>)
    requires ValidDraws(draws)
    ensures IsCode(CodeOf(draws))
  {
    AlphabetIsCodeChars();
  }

  /** The draws that select a given code: every well-formed code can be produced. */
  function DrawsFor(code: string): (draws: seq<nat>)
    requires IsCode(code)
    ensures ValidDraws(draws) && CodeOf(draws) == code
  {
    seq(CodeLength, i requires 0 <= i < CodeLength => IndexOf(code[i]))
  }

  /** Distinct draws give distinct codes: the code determines the draws. */
  lemma DrawsForCodeOf(draws: seq<nat>)
    requires ValidDraws(draws)
    ensures IsCode(CodeOf(draws)) && DrawsFor(CodeOf(draws)) == draws
  {
    CodeOfIsCode(draws);
    forall i | 0 <= i < CodeLength ensures IndexOf(Alphabet[draws[i]]) == draws[i] {
      var k := draws[i];
      assert 'A' <= Alphabet[k] <==> k < 26;
    }
  }

  /** The loop of `generateReference`: append one alphabet character per draw. */
  method GenerateReference(draws: seq<nat>) returns (ref: string)
    requires ValidDraws(draws)
    ensures ref == CodeOf(draws)
    ensures IsCode(ref)
  {
    ref := "";
    for i := 0 to CodeLength
      invariant |ref| == i
      invariant forall k :: 0 <= k < i ==> ref[k] == Alphabet[draws[k]]
    {
      ref := ref + [Alphabet[draws[i]]];
    }
    CodeOfIsCode(draws);
  }
}
