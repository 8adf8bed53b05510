/** `generateRandomString`: a token of drawn characters from a fixed
    62-character alphabet. The randomness is an input: `draws[i]` is the
    index `Math.floor(Math.random() * characters.length)` picked for the
    i-th character, so every draw lies below 62. */
module RandomString {

  const UpperCase: string := "ABCDEFGHIJKLMNOPQRSTUVWXYZ"
  const LowerCase: string := "abcdefghijklmnopqrstuvwxyz"
  const Digits: string := "0123456789"

  /** The 62-character alphabet `characters`: the upper-case letters, the
      lower-case letters and the digits, one range after the other. */
  const Characters: string := UpperCase + LowerCase + Digits

  /** `[A-Za-z0-9]`, stated independently of the alphabet string. */
  predicate IsAlphanumeric(c: char) {
    ('A' <= c <= 'Z') || ('a' <= c <= 'z') || ('0' <= c <= '9')
  }

  predicate IsAlphanumericString(s: string) {
    forall i :: 0 <= i < |s| ==> IsAlphanumeric(s[i])
  }

  /** Every draw indexes the alphabet. */
  predicate ValidDraws(draws: seq<nat>) {
    forall i :: 0 <= i < |draws| ==> draws[i] < |Characters|
  }

  /** Position i of the alphabet: the upper-case letters, then the
      lower-case letters, then the digits. */
  function AlphabetChar(i: nat): char
    requires i < 62
  {
    if i < 26 then ('A' as int + i) as char
    else if i < 52 then ('a' as int + i - 26) as char
    else ('0' as int + i - 52) as char
  }

  /** `first` followed by the n - 1 characters after it, in code order. */
  ghost predicate IsRun(s: string, first: char, n: nat) {
    |s| == n && forall i :: 0 <= i < n ==> s[i] as int == first as int + i
  }

  lemma UpperCaseRun()
    ensures IsRun(UpperCase, 'A', 26)
  {
    assert UpperCase == seq(26, i requires 0 <= i < 26 => ('A' as int + i) as char);
  }

  lemma LowerCaseRun()
    ensures IsRun(LowerCase, 'a', 26)
  {
    assert LowerCase == seq(26, i requires 0 <= i < 26 => ('a' as int + i) as char);
  }

  lemma DigitRun()
    ensures IsRun(Digits, '0', 10)
  {
    assert Digits == seq(10, i requires 0 <= i < 10 => ('0' as int + i) as char);
  }

  /** The alphabet holds 62 characters, laid out as AlphabetChar says. */
  lemma AlphabetLayout()
    ensures |Characters| == 62
    ensures forall i :: 0 <= i < 62 ==> Characters[i] == AlphabetChar(i)
  {
    UpperCaseRun();
    LowerCaseRun();
    DigitRun();
    forall i | 0 <= i < 62 ensures Characters[i] == AlphabetChar(i) {
      if i < 26 {
        assert Characters[i] == UpperCase[i];
      } else if i < 52 {
        assert Characters[i] == LowerCase[i - 26];
      } else {
        assert Characters[i] == Digits[i - 52];
      }
    }
  }

  /** Where an alphanumeric character sits in the alphabet. */
  function AlphabetIndex(c: char): (i: nat)
    requires IsAlphanumeric(c)
    ensures i < 62 && AlphabetChar(i) == c
  {
    if c <= '9' then c as int - '0' as int + 52
    else if c <= 'Z' then c as int - 'A' as int
    else c as int - 'a' as int + 26
  }

  lemma AlphabetCharsAreAlphanumeric(i: int)
    requires 0 <= i < |Characters|
    ensures IsAlphanumeric(Characters[i])
  {
    AlphabetLayout();
    assert Characters[i] == AlphabetChar(i);
  }

  lemma AlphanumericCharsAreInAlphabet(c: char)
    requires IsAlphanumeric(c)
    ensures Characters[AlphabetIndex(c)] == c
  {
    AlphabetLayout();
  }

  /** A character is in the alphabet exactly when it is alphanumeric. */
  lemma AlphabetIsAlphanumeric(c: char)
    ensures c in Characters <==> IsAlphanumeric(c)
  {
    if c in Characters {
      var i :| 0 <= i < |Characters| && Characters[i] == c;
      AlphabetCharsAreAlphanumeric(i);
    }
    if IsAlphanumeric(c) {
      AlphanumericCharsAreInAlphabet(c);
    }
  }

  /** The token the loop builds from `draws`, one character per draw, in
      order. */
  function RandomString(draws: seq<nat>): (r: string)
    requires ValidDraws(draws)
    ensures |r| == |draws|
    ensures forall i :: 0 <= i < |draws| ==> r[i] == Characters[draws[i]]
  {
    if draws == [] then ""
    else RandomString(draws[..|draws| - 1]) + [Characters[draws[|draws| - 1]]]
  }

  /** The token is drawn only from `[A-Za-z0-9]`. */
  lemma RandomStringIsAlphanumeric(draws: seq<nat>)
    requires ValidDraws(draws)
    ensures IsAlphanumericString(RandomString(draws))
  {
    var r := RandomString(draws);
    forall i | 0 <= i < |r| ensures IsAlphanumeric(r[i]) {
      AlphabetIsAlphanumeric(r[i]);
    }
  }

  /** Any alphanumeric string of length n is some token of n draws: the
      generator can produce every `[A-Za-z0-9]` string. */
  lemma {:induction false} EveryAlphanumericStringIsDrawable(s: string)
    requires IsAlphanumericString(s)
    ensures exists draws: seq<nat> :: ValidDraws(draws) && RandomString(draws) == s
  {
    if s == [] {
      var none: seq<nat> := [];
      assert ValidDraws(none) && RandomString(none) == s;
    } else {
      var init := s[..|s| - 1];
      EveryAlphanumericStringIsDrawable(init);
      var draws: seq<nat> :| ValidDraws(draws) && RandomString(draws) == init;
      var c := s[|s| - 1];
      AlphabetIsAlphanumeric(c);
      var k :| 0 <= k < |Characters| && Characters[k] == c;
      var all: seq<nat> := draws + [k];
      assert all[..|all| - 1] == draws;
      assert RandomString(all) == init + [c] == s;
    }
  }

  /** `generateRandomString(length)`: a for loop appending one drawn
      character per iteration. */
  method GenerateRandomString(length: nat, draws: seq<nat>) returns (result: string)
    requires |draws| == length && ValidDraws(draws)
    ensures result == RandomString(draws)
    ensures |result| == length
    ensures IsAlphanumericString(result)
  {
    result := "";
    for i := 0 to length
      invariant result == RandomString(draws[..i])
    {
      assert draws[..i + 1][..i] == draws[..i];
      result := result + [Characters[draws[i]]];
    }
    assert draws[..length] == draws;
    RandomStringIsAlphanumeric(draws);
  }
}
