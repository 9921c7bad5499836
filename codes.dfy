/**
 * Short-code generation (generateCode in server/index.js).
 *
 * The process-wide cryptographic randomness is replaced by an oracle: a stream
 * of raw draws, where `o(k)` is the value the k-th call to the random source
 * produces. `crypto.randomInt(min, max)` (upper bound exclusive) becomes
 * `RandomInt(o, k, min, max)`; the oracle makes no claim about distribution.
 */
module Codes {

  /** The k-th raw draw of the random source. */
  type Oracle = nat -> nat

  const Upper: string := "ABCDEFGHIJKLMNOPQRSTUVWXYZ"
  const Lower: string := "abcdefghijklmnopqrstuvwxyz"
  const Digits: string := "0123456789"

  /** The 62-character alphabet `chars`, written in three runs (see AlphabetIsSourceLiteral). */
  const Alphabet: string := Upper + Lower + Digits

  /** Shortest and longest code: `randomInt(6, 9)` picks a length in [6, 9). */
  const MinLength: nat := 6
  const MaxLength: nat := 8

  predicate IsAlphanumeric(c: char) {
    'A' <= c <= 'Z' || 'a' <= c <= 'z' || '0' <= c <= '9'
  }

  /** What a generated code looks like: 6 to 8 characters, all from A-Z a-z 0-9. */
  predicate IsCode(s: string) {
    MinLength <= |s| <= MaxLength && forall i :: 0 <= i < |s| ==> IsAlphanumeric(s[i])
  }

  lemma AlphabetIsSourceLiteral()
    ensures Alphabet == "ABCDEFGHIJKLMNOPQRSTUVWXYZabcdefghijklmnopqrstuvwxyz0123456789"
  {
    var letters := "ABCDEFGHIJKLMNOPQRSTUVWXYZabcdefghijklmnopqrstuvwxyz";
    assert Upper + Lower == letters;
    assert letters + Digits == "ABCDEFGHIJKLMNOPQRSTUVWXYZabcdefghijklmnopqrstuvwxyz0123456789";
  }

  /** Each run of the alphabet is a contiguous range of character codes. */
  lemma AlphabetLayout()
    ensures |Upper| == 26 && |Lower| == 26 && |Digits| == 10
    ensures forall i :: 0 <= i < 26 ==> Upper[i] == ('A' as int + i) as char
    ensures forall i :: 0 <= i < 26 ==> Lower[i] == ('a' as int + i) as char
    ensures forall i :: 0 <= i < 10 ==> Digits[i] == ('0' as int + i) as char
  {
  }

  lemma AlphabetIsAlphanumeric()
    ensures |Alphabet| == 62
    ensures forall i :: 0 <= i < |Alphabet| ==> IsAlphanumeric(Alphabet[i])
  {
    AlphabetLayout();
    forall i | 0 <= i < |Alphabet|
      ensures IsAlphanumeric(Alphabet[i])
    {
      if i < 26 {
        assert Alphabet[i] == Upper[i];
      } else if i < 52 {
        assert Alphabet[i] == Lower[i - 26];
      } else {
        assert Alphabet[i] == Digits[i - 52];
      }
    }
  }

  /** Position of an alphanumeric character in the alphabet. */
  function AlphabetIndex(c: char): (i: nat)
    requires IsAlphanumeric(c)
    ensures i < |Alphabet| && Alphabet[i] == c
  {
    AlphabetLayout();
    if 'A' <= c <= 'Z' then
      var j := c as int - 'A' as int;
      assert Upper[j] == c;
      assert Alphabet[j] == Upper[j];
      j
    else if 'a' <= c <= 'z' then
      var j := c as int - 'a' as int;
      assert Lower[j] == c;
      assert Alphabet[26 + j] == Lower[j];
      26 + j
    else
      var j := c as int - '0' as int;
      assert Digits[j] == c;
      assert Alphabet[52 + j] == Digits[j];
      52 + j
  }

  /** `crypto.randomInt(min, max)`: a value in [min, max) taken from draw k. */
  function RandomInt(o: Oracle, k: nat, min: int, max: int): (r: int)
    requires min < max
    ensures min <= r < max
  {
    min + o(k) % (max - min)
  }

  /**
   * The code generateCode returns when its first draw is draw k: draw k
   * chooses the length, draws k+1 .. k+length choose one character each.
   */
  function CodeFrom(o: Oracle, k: nat): (code: string)
    ensures IsCode(code)
  {
    AlphabetIsAlphanumeric();
    DrawnOver(o, k, Alphabet)
  }

  /** The draws starting at k, spelled over a 62-letter alphanumeric alphabet `chars`. */
  function DrawnOver(o: Oracle, k: nat, chars: string): (code: string)
    requires |chars| == 62 && forall i :: 0 <= i < |chars| ==> IsAlphanumeric(chars[i])
    ensures IsCode(code)
    ensures |code| == RandomInt(o, k, MinLength, MaxLength + 1)
    ensures forall i :: 0 <= i < |code| ==> code[i] == chars[RandomInt(o, k + 1 + i, 0, |chars|)]
  {
    var length := RandomInt(o, k, MinLength, MaxLength + 1);
    var code := seq(length, i requires 0 <= i < length => chars[RandomInt(o, k + 1 + i, 0, |chars|)]);
    assert forall i :: 0 <= i < |code| ==> code[i] == chars[RandomInt(o, k + 1 + i, 0, |chars|)];
    code
  }

  /** generateCode: builds the code one character at a time. */
  method GenerateCode(o: Oracle, k: nat) returns (code: string, next: nat)
    ensures code == CodeFrom(o, k) && IsCode(code)
    ensures next == k + 1 + |code|
  {
    AlphabetIsAlphanumeric();
    var chars := Alphabet;
    var length := RandomInt(o, k, MinLength, MaxLength + 1);
    code := "";
    var i := 0;
    while i < length
      invariant 0 <= i <= length
      invariant code == CodeFrom(o, k)[..i]
    {
      code := code + [chars[RandomInt(o, k + 1 + i, 0, |chars|)]];
      i := i + 1;
    }
    next := k + 1 + length;
  }

  /** Length and characters of CodeFrom in terms of the individual draws. */
  lemma CodeFromDraws(o: Oracle, k: nat)
    ensures |Alphabet| == 62
    ensures |CodeFrom(o, k)| == MinLength + o(k) % 3
    ensures forall i :: 0 <= i < |CodeFrom(o, k)| ==> CodeFrom(o, k)[i] == Alphabet[o(k + 1 + i) % 62]
  {
    AlphabetIsAlphanumeric();
    var code := CodeFrom(o, k);
    assert |code| == RandomInt(o, k, MinLength, MaxLength + 1);
    forall i | 0 <= i < |code|
      ensures code[i] == Alphabet[o(k + 1 + i) % 62]
    {
      assert RandomInt(o, k + 1 + i, 0, |Alphabet|) == o(k + 1 + i) % 62;
      assert code[i] == Alphabet[RandomInt(o, k + 1 + i, 0, |Alphabet|)];
    }
  }

  /** Every code of the right shape is produced by some sequence of draws. */
  lemma EveryCodeIsReachable(code: string)
    requires IsCode(code)
    ensures exists o: Oracle :: CodeFrom(o, 0) == code
  {
    var o: Oracle := (j: nat) =>
      if j == 0 then |code| - MinLength
      else if j - 1 < |code| then AlphabetIndex(code[j - 1])
      else 0;
    CodeFromDraws(o, 0);
    var c := CodeFrom(o, 0);
    assert |c| == |code|;
    forall i | 0 <= i < |code|
      ensures c[i] == code[i]
    {
      var d := AlphabetIndex(code[i]);
      assert o(1 + i) == d;
      assert d % 62 == d;
    }
    assert c == code;
  }

  /** Draw position after n successive calls to generateCode starting at draw k. */
  function Offset(o: Oracle, k: nat, n: nat): (p: nat)
    ensures p >= k + 7 * n  // each call draws a length and at least MinLength characters
  {
    if n == 0 then k
    else
      var before := Offset(o, k, n - 1);
      before + 1 + |CodeFrom(o, before)|
  }

  /** The code produced by the n-th (from 0) call to generateCode starting at draw k. */
  function Candidate(o: Oracle, k: nat, n: nat): (code: string)
    ensures IsCode(code)
  {
    CodeFrom(o, Offset(o, k, n))
  }

  /** The generateCode call made at draw position Offset(n) yields candidate n and ends at Offset(n + 1). */
  lemma NextCandidate(o: Oracle, n: nat, pos: nat)
    requires pos == Offset(o, 0, n)
    ensures CodeFrom(o, pos) == Candidate(o, 0, n)
    ensures pos + 1 + |CodeFrom(o, pos)| == Offset(o, 0, n + 1)
  {
  }
}
