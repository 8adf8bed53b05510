/** The derived key of a duplicated asset (the `splittedKey` / `newKey`
    lines of `action`): the source key is split on ".", and the new key is
    the first segment, ".", the token, ".", the last segment. */
module KeyDerivation {
  import opened Wrappers
  import opened Text
  import RandomString

  /** `key || ""`: a missing key and the empty key both become "". */
  function KeyOrEmpty(key: Option<string>): (s: string)
    ensures key.Some? && key.value != "" ==> s == key.value
    ensures key.None? || key.value == "" ==> s == ""
  {
    match key
    case None => ""
    case Some(k) => k
  }

  /** `${splittedKey[0]}.${token}.${splittedKey.slice(-1)[0]}` */
  function DeriveKey(key: Option<string>, token: string): (newKey: string)
    ensures Count(newKey, '.') == Count(token, '.') + 2
  {
    var parts := Split(KeyOrEmpty(key), '.');
    CountAppend(parts[0] + ".", token, '.');
    CountAppend(parts[0], ".", '.');
    CountAppend(parts[0] + "." + token, ".", '.');
    CountAppend(parts[0] + "." + token + ".", Last(parts), '.');
    parts[0] + "." + token + "." + Last(parts)
  }

  /** The derived key is the text before the first "." of the source key,
      ".", the token, ".", and the text after the last "." of the source
      key; whatever lies between the first and the last "." is dropped. */
  lemma DeriveKeyShape(key: Option<string>, token: string, head: string, tail: string)
    requires IsBeforeFirst(head, KeyOrEmpty(key), '.')
    requires IsAfterLast(tail, KeyOrEmpty(key), '.')
    ensures DeriveKey(key, token) == head + "." + token + "." + tail
  {
    var s := KeyOrEmpty(key);
    var parts := Split(s, '.');
    SplitFirst(s, '.');
    SplitLast(s, '.');
    BeforeFirstUnique(parts[0], head, s, '.');
    AfterLastUnique(Last(parts), tail, s, '.');
  }

  /** For a token without ".", the derived key holds exactly two "." and
      splits back into the source key's first segment, the token and the
      source key's last segment. */
  lemma DerivedKeySegments(key: Option<string>, token: string)
    requires '.' !in token
    ensures var parts := Split(KeyOrEmpty(key), '.');
            Split(DeriveKey(key, token), '.') == [parts[0], token, Last(parts)]
    ensures Count(DeriveKey(key, token), '.') == 2
  {
    var parts := Split(KeyOrEmpty(key), '.');
    var segments := [parts[0], token, Last(parts)];
    JoinThree(parts[0], token, Last(parts), '.');
    SplitJoin(segments, '.');
  }

  /** A token drawn by `generateRandomString` is alphanumeric, so the
      derived key has the three segments above. */
  lemma DerivedKeyWithRandomToken(key: Option<string>, draws: seq<nat>)
    requires RandomString.ValidDraws(draws)
    ensures var token := RandomString.RandomString(draws);
            var parts := Split(KeyOrEmpty(key), '.');
            && Split(DeriveKey(key, token), '.') == [parts[0], token, Last(parts)]
            && Count(DeriveKey(key, token), '.') == 2
  {
    var token := RandomString.RandomString(draws);
    RandomString.RandomStringIsAlphanumeric(draws);
    DerivedKeySegments(key, token);
  }

  /** A key of the form first.middle₁.….middleₖ.last keeps only `first` and
      `last`; k = 0 is the plain "<prefix>.<extension>" case. */
  lemma DeriveKeyDropsMiddle(first: string, middle: seq<string>, last: string, token: string)
    requires '.' !in first && '.' !in last
    requires forall i :: 0 <= i < |middle| ==> '.' !in middle[i]
    ensures DeriveKey(Some(Join([first] + middle + [last], '.')), token)
            == first + "." + token + "." + last
  {
    var parts := [first] + middle + [last];
    forall i | 0 <= i < |parts| ensures '.' !in parts[i] {
      if 0 < i < |parts| - 1 {
        assert parts[i] == middle[i - 1];
      }
    }
    var key := Join(parts, '.');
    SplitJoin(parts, '.');
    assert Split(KeyOrEmpty(Some(key)), '.') == parts;
    assert parts[0] == first && Last(parts) == last;
  }

  /** "a.b.c" becomes "a.<token>.c". */
  lemma DeriveKeyOfThreeSegments(token: string)
    ensures DeriveKey(Some("a.b.c"), token) == "a." + token + ".c"
  {
  }

  /** A key without "." is both its first and its last segment. */
  lemma DeriveKeyWithoutDot(key: string, token: string)
    requires '.' !in key
    ensures DeriveKey(Some(key), token) == key + "." + token + "." + key
  {
    SplitWithoutSeparator(key, '.');
  }

  /** A missing or empty key gives "." + token + ".". */
  lemma DeriveKeyOfMissingKey(key: Option<string>, token: string)
    requires key.None? || key.value == ""
    ensures DeriveKey(key, token) == "." + token + "."
  {
  }
}
