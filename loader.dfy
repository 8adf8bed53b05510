/** `loader`: find the main theme, list its assets, and keep the home,
    product and collection templates, each by key prefix. */
module Loader {
  import opened Wrappers
  import opened Resources

  const IndexPrefix: string := "templates/index."
  const ProductPrefix: string := "templates/product."
  const CollectionPrefix: string := "templates/collection."

  /** Theme i is the first one whose role is "main". */
  ghost predicate IsFirstMain(themes: seq<Theme>, i: int) {
    0 <= i < |themes| && themes[i].role == "main"
    && forall j :: 0 <= j < i ==> themes[j].role != "main"
  }

  /** `themes.find((theme) => theme.role === "main")` */
  function FindMainTheme(themes: seq<Theme>): (r: Option<Theme>)
    ensures r.None? <==> forall i :: 0 <= i < |themes| ==> themes[i].role != "main"
    ensures r.Some? ==> exists i :: IsFirstMain(themes, i) && themes[i] == r.value
  {
    if themes == [] then None
    else if themes[0].role == "main" then
      assert IsFirstMain(themes, 0);
      Some(themes[0])
    else
      var r := FindMainTheme(themes[1..]);
      assert r.Some? ==> exists i :: IsFirstMain(themes[1..], i) && themes[1..][i] == r.value;
      assert forall i :: IsFirstMain(themes[1..], i) ==> IsFirstMain(themes, i + 1);
      r
  }

  /** `mainTheme?.id`: the id handed to the asset listing, None (undefined)
      when no theme is main. */
  function MainThemeId(themes: seq<Theme>): (id: Option<nat>)
    ensures id.None? <==> forall i :: 0 <= i < |themes| ==> themes[i].role != "main"
    ensures id.Some? ==> exists i :: IsFirstMain(themes, i) && themes[i].id == id.value
  {
    match FindMainTheme(themes)
    case None => None
    case Some(theme) => Some(theme.id)
  }

  /** `asset.key?.startsWith(prefix)`: false for an asset without a key. */
  predicate HasKeyPrefix(asset: Asset, prefix: string) {
    asset.key.Some? && prefix <= asset.key.value
  }

  /** `xs` is `ys` with some elements removed, order kept. */
  ghost predicate IsSubsequence<T>(xs: seq<T>, ys: seq<T>)
    decreases |ys|
  {
    xs == [] || (ys != [] &&
      if xs[0] == ys[0] then IsSubsequence(xs[1..], ys[1..]) else IsSubsequence(xs, ys[1..]))
  }

  /** `assets.filter((asset) => asset.key?.startsWith(prefix))`: the
      matching assets, each as often as it occurs, in their order. */
  function FilterByKeyPrefix(assets: seq<Asset>, prefix: string): (r: seq<Asset>)
    ensures forall i :: 0 <= i < |r| ==> HasKeyPrefix(r[i], prefix)
    ensures forall a :: multiset(r)[a] == if HasKeyPrefix(a, prefix) then multiset(assets)[a] else 0
    ensures IsSubsequence(r, assets)
  {
    if assets == [] then []
    else
      var rest := FilterByKeyPrefix(assets[1..], prefix);
      assert assets == [assets[0]] + assets[1..];
      if HasKeyPrefix(assets[0], prefix) then
        assert ([assets[0]] + rest)[1..] == rest;
        [assets[0]] + rest
      else rest
  }

  /** The data the loader returns, in the source's field order. */
  datatype Listing = Listing(home: seq<Asset>, product: seq<Asset>, collection: seq<Asset>)

  /** `loader`, with `Asset.all` as `listAssets`: the listing it is given
      the main theme's id (possibly undefined). */
  function Load(themes: seq<Theme>, listAssets: Option<nat> -> seq<Asset>): (d: Listing)
    ensures forall a :: a in d.home ==> HasKeyPrefix(a, IndexPrefix)
    ensures forall a :: a in d.product ==> HasKeyPrefix(a, ProductPrefix)
    ensures forall a :: a in d.collection ==> HasKeyPrefix(a, CollectionPrefix)
  {
    var assets := listAssets(MainThemeId(themes));
    Listing(FilterByKeyPrefix(assets, IndexPrefix),
            FilterByKeyPrefix(assets, ProductPrefix),
            FilterByKeyPrefix(assets, CollectionPrefix))
  }

  /** Each list holds exactly the listed assets whose key starts with its
      prefix; an asset without a key is in none of them. */
  lemma LoadSelectsByPrefix(themes: seq<Theme>, listAssets: Option<nat> -> seq<Asset>, a: Asset)
    ensures var assets := listAssets(MainThemeId(themes));
            var d := Load(themes, listAssets);
            && (a in d.home <==> a in assets && HasKeyPrefix(a, IndexPrefix))
            && (a in d.product <==> a in assets && HasKeyPrefix(a, ProductPrefix))
            && (a in d.collection <==> a in assets && HasKeyPrefix(a, CollectionPrefix))
            && (a.key.None? ==> a !in d.home && a !in d.product && a !in d.collection)
  {
  }

  /** No key starts with two of the three template prefixes: they differ
      at the character after "templates/". */
  lemma PrefixesExclusive(a: Asset)
    ensures !(HasKeyPrefix(a, IndexPrefix) && HasKeyPrefix(a, ProductPrefix))
    ensures !(HasKeyPrefix(a, IndexPrefix) && HasKeyPrefix(a, CollectionPrefix))
    ensures !(HasKeyPrefix(a, ProductPrefix) && HasKeyPrefix(a, CollectionPrefix))
  {
    assert IndexPrefix[10] == 'i' && ProductPrefix[10] == 'p' && CollectionPrefix[10] == 'c';
    if a.key.Some? {
      var k := a.key.value;
      if IndexPrefix <= k { assert k[10] == 'i'; }
      if ProductPrefix <= k { assert k[10] == 'p'; }
      if CollectionPrefix <= k { assert k[10] == 'c'; }
    }
  }

  /** The three lists are pairwise disjoint. */
  lemma LoadListsDisjoint(themes: seq<Theme>, listAssets: Option<nat> -> seq<Asset>)
    ensures var d := Load(themes, listAssets);
            && (forall a :: a in d.home ==> a !in d.product && a !in d.collection)
            && (forall a :: a in d.product ==> a !in d.collection)
  {
    var d := Load(themes, listAssets);
    forall a | a in d.home || a in d.product
      ensures a in d.home ==> a !in d.product && a !in d.collection
      ensures a in d.product ==> a !in d.collection
    {
      PrefixesExclusive(a);
      LoadSelectsByPrefix(themes, listAssets, a);
    }
  }
}
