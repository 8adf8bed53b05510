/** `action`: duplicate the asset found by the lookup under a derived key.
    The Shopify calls are inputs: what `Asset.all` returned or threw, and
    whether `asset.save` threw. Every exception ends in a "fail" result. */
module DuplicateAction {
  import opened Wrappers
  import opened Text
  import opened Resources
  import opened RandomString
  import opened KeyDerivation

  /** Length of the token put into every derived key. */
  const TokenLength: nat := 10

  /** The outcome of a foreign call: the value it returned, or what it threw. */
  datatype Call<T> = Returned(value: T) | Threw(error: string)

  /** The asset record built for the save: theme, new key, and the key of
      the asset whose content the platform copies. */
  datatype NewAsset = NewAsset(themeId: nat, key: string, sourceKey: Option<string>)

  /** What was thrown inside the `try`. */
  datatype Error =
    | LookupThrew(detail: string)  // `Asset.all` rejected
    | NoSourceAsset                // `data[0]` was undefined, so `.key` threw
    | SaveThrew(detail: string)    // `asset.save` rejected

  /** `{status: "success", orignalAsset, newKey, asset}` or
      `{status: "fail", error}`. */
  datatype ActionResult =
    | Success(original: Asset, newKey: string, asset: NewAsset)
    | Fail(error: Error)

  /** `action`, for the form's `theme_id` already parsed to a number. */
  method Action(themeId: nat, lookup: Call<seq<Asset>>, draws: seq<nat>, saveError: Option<string>)
    returns (r: ActionResult)
    requires |draws| == TokenLength && ValidDraws(draws)
    ensures lookup.Threw? ==> r == Fail(LookupThrew(lookup.error))
    ensures lookup.Returned? && lookup.value == [] ==> r == Fail(NoSourceAsset)
    ensures lookup.Returned? && lookup.value != [] && saveError.Some? ==> r == Fail(SaveThrew(saveError.value))
    ensures r.Success? <==> lookup.Returned? && lookup.value != [] && saveError.None?
    ensures r.Success? ==>
              && r.original == lookup.value[0]
              && r.newKey == DeriveKey(r.original.key, RandomString.RandomString(draws))
              && r.asset == NewAsset(themeId, r.newKey, r.original.key)
    ensures r.Success? ==>
              var parts := Split(KeyOrEmpty(r.original.key), '.');
              var token := Split(r.newKey, '.')[1];
              && Split(r.newKey, '.') == [parts[0], token, Last(parts)]
              && |token| == TokenLength && IsAlphanumericString(token)
  {
    if lookup.Threw? {
      return Fail(LookupThrew(lookup.error));
    }
    var data := lookup.value;
    if data == [] {
      return Fail(NoSourceAsset);
    }
    var original := data[0];
    var token := GenerateRandomString(TokenLength, draws);
    var newKey := DeriveKey(original.key, token);
    var asset := NewAsset(themeId, newKey, original.key);
    if saveError.Some? {
      return Fail(SaveThrew(saveError.value));
    }
    DerivedKeyWithRandomToken(original.key, draws);
    return Success(original, newKey, asset);
  }
}
