/** The guest-facing reservation code (`generateReservationCode`). */
module ReservationCode {

  /** `RESERVATION_CODE_CHARS`. */
  const CodeChars := "ABCDEFGHIJKLMNOPQRSTUVWXYZ0123456789"

  /** `generateReservationCode`'s default length. */
  const DefaultLength: nat := 6

  /** One value of `Math.floor(Math.random() * RESERVATION_CODE_CHARS.length)`. */
  type Draw = i: int | 0 <= i < 36

  /** An upper-case Latin letter or an ASCII digit. */
  predicate IsCodeChar(c: char) {
    'A' <= c <= 'Z' || '0' <= c <= '9'
  }

  /** A well-formed code of the default length. */
  predicate IsReservationCode(s: string) {
    |s| == DefaultLength && forall i :: 0 <= i < |s| ==> IsCodeChar(s[i])
  }

  /** The character at position `d` of the alphabet, by arithmetic. */
  function CharAt(d: Draw): (c: char)
    ensures IsCodeChar(c)
  {
    if d < 26 then ('A' as int + d) as char else ('0' as int + d - 26) as char
  }

  /** The position of a code character in the alphabet. */
  function IndexOf(c: char): (d: Draw)
    requires IsCodeChar(c)
    ensures CharAt(d) == c
  {
    if 'A' <= c <= 'Z' then c as int - 'A' as int else 26 + (c as int - '0' as int)
  }

  /** The literal alphabet is the 26 letters followed by the 10 digits. */
  lemma CodeCharsSpelledOut()
    ensures |CodeChars| == 36
    ensures forall d: Draw :: CodeChars[d] == CharAt(d)
  {
    assert CodeChars == seq(36, i requires 0 <= i < 36 => CharAt(i));
  }

  /** The alphabet holds 36 distinct characters and every code character. */
  lemma {:induction false} AlphabetExact()
    ensures |CodeChars| == 36
    ensures forall i, j :: 0 <= i < j < 36 ==> CodeChars[i] != CodeChars[j]
    ensures forall c :: IsCodeChar(c) <==> c in CodeChars
  {
    CodeCharsSpelledOut();
    forall c | IsCodeChar(c) ensures c in CodeChars {
      assert CodeChars[IndexOf(c)] == c;
    }
  }

  /** The code a sequence of draws produces. */
  function CodeFor(draws: seq<Draw>): (s: string)
    ensures |s| == |draws|
  {
    seq(|draws|, i requires 0 <= i < |draws| => CodeChars[draws[i]])
  }

  /** `generateReservationCode(length)`, with the draws of `Math.random` as input. */
  method GenerateReservationCode(length: nat, draws: seq<Draw>) returns (code: string)
    requires |draws| >= length
    ensures |code| == length
    ensures forall i :: 0 <= i < length ==> code[i] == CodeChars[draws[i]]
    ensures forall i :: 0 <= i < length ==> IsCodeChar(code[i])
  {
    CodeCharsSpelledOut();
    code := "";
    var i := 0;
    while i < length
      invariant 0 <= i <= length
      invariant |code| == i
      invariant forall k :: 0 <= k < i ==> code[k] == CodeChars[draws[k]]
    {
      code := code + [CodeChars[draws[i]]];
      i := i + 1;
    }
  }

  /** A default-length code is a well-formed reservation code. */
  lemma GeneratedIsReservationCode(draws: seq<Draw>)
    requires |draws| == DefaultLength
    ensures IsReservationCode(CodeFor(draws))
  {
    CodeCharsSpelledOut();
  }

  /** Every well-formed string is the code of some sequence of draws: the
      generator can produce any of the 36^length codes. */
  lemma {:induction false} EveryCodeReachable(s: string)
    requires forall i :: 0 <= i < |s| ==> IsCodeChar(s[i])
    ensures exists draws: seq<Draw> :: |draws| == |s| && CodeFor(draws) == s
  {
    CodeCharsSpelledOut();
    var draws: seq<Draw> := seq(|s|, i requires 0 <= i < |s| => IndexOf(s[i]));
    assert CodeFor(draws) == s;
  }
}
