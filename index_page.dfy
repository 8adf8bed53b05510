/** The `Index` component: three tabs over the loader's lists, the
    selected tab and the selected asset, and the Duplicate button's
    disabled state. */
module IndexPage {
  import opened Wrappers
  import opened Resources
  import opened Loader

  /** An entry of the `tabs` array. */
  datatype Tab = Tab(id: string, content: string)

  const Tabs: seq<Tab> := [
    Tab("home", "Home Page"),
    Tab("collection", "Collection Page"),
    Tab("product", "Product Page")
  ]

  /** `loaderData.data` as the page receives it. Each list is None when
      the value is not an array. */
  datatype PageData = PageData(home: Option<seq<Asset>>, product: Option<seq<Asset>>,
                               collection: Option<seq<Asset>>)

  /** The page data when it comes straight from the loader. */
  function FromListing(d: Listing): (data: PageData) {
    PageData(Some(d.home), Some(d.product), Some(d.collection))
  }

  /** The `assets` memo: tab 0 shows `home`, tab 1 `product`, any other
      index `collection`; a value that is not an array shows nothing. */
  function AssetsForTab(tab: int, data: PageData): (shown: seq<Asset>) {
    var assetsForActiveTab :=
      if tab == 0 then data.home
      else if tab == 1 then data.product
      else data.collection;
    if assetsForActiveTab.Some? then assetsForActiveTab.value else []
  }

  /** A list that is not an array shows as an empty tab. */
  lemma NonArrayListShowsNothing(tab: int, data: PageData)
    requires tab == 0 ==> data.home.None?
    requires tab == 1 ==> data.product.None?
    requires tab != 0 && tab != 1 ==> data.collection.None?
    ensures AssetsForTab(tab, data) == []
  {
  }

  /** The template prefix whose assets tab `tab` shows. */
  function TabPrefix(tab: int): (prefix: string) {
    if tab == 0 then IndexPrefix else if tab == 1 then ProductPrefix else CollectionPrefix
  }

  /** With the loader's data, a tab shows exactly the listed assets whose
      key starts with the tab's prefix. */
  lemma TabShowsItsTemplates(tab: int, themes: seq<Theme>, listAssets: Option<nat> -> seq<Asset>, a: Asset)
    ensures a in AssetsForTab(tab, FromListing(Load(themes, listAssets)))
            <==> a in listAssets(MainThemeId(themes)) && HasKeyPrefix(a, TabPrefix(tab))
  {
    LoadSelectsByPrefix(themes, listAssets, a);
  }

  /** Tab 1 is labelled "Collection Page", yet with the loader's data it
      shows product templates and never a collection template; tab 2,
      labelled "Product Page", never shows a product template. */
  lemma TabLabelsDisagreeWithLists(themes: seq<Theme>, listAssets: Option<nat> -> seq<Asset>)
    ensures Tabs[1].id == "collection" && Tabs[2].id == "product"
    ensures forall a :: a in AssetsForTab(1, FromListing(Load(themes, listAssets)))
                    ==> HasKeyPrefix(a, ProductPrefix) && !HasKeyPrefix(a, CollectionPrefix)
    ensures forall a :: a in AssetsForTab(2, FromListing(Load(themes, listAssets)))
                    ==> HasKeyPrefix(a, CollectionPrefix) && !HasKeyPrefix(a, ProductPrefix)
  {
    var data := FromListing(Load(themes, listAssets));
    forall a | a in AssetsForTab(1, data) || a in AssetsForTab(2, data)
      ensures a in AssetsForTab(1, data) ==> HasKeyPrefix(a, ProductPrefix) && !HasKeyPrefix(a, CollectionPrefix)
      ensures a in AssetsForTab(2, data) ==> HasKeyPrefix(a, CollectionPrefix) && !HasKeyPrefix(a, ProductPrefix)
    {
      LoadSelectsByPrefix(themes, listAssets, a);
      PrefixesExclusive(a);
    }
  }

  /** Every asset the loader lists has a key. */
  ghost predicate AllKeyed(data: PageData) {
    forall tab, a :: a in AssetsForTab(tab, data) ==> a.key.Some?
  }

  lemma LoaderListsAreKeyed(themes: seq<Theme>, listAssets: Option<nat> -> seq<Asset>)
    ensures AllKeyed(FromListing(Load(themes, listAssets)))
  {
    var data := FromListing(Load(themes, listAssets));
    forall tab, a | a in AssetsForTab(tab, data) ensures a.key.Some? {
      TabShowsItsTemplates(tab, themes, listAssets, a);
    }
  }

  /** The page's state: the selected tab and the selected asset. */
  class Page {
    const data: PageData
    var selectedTabIndex: int
    var selectedAsset: Option<Asset>

    /** The assets shown on the selected tab. */
    function Assets(): (shown: seq<Asset>)
      reads this
    {
      AssetsForTab(selectedTabIndex, data)
    }

    /** `disabled={!selectedAsset}` */
    predicate DuplicateDisabled()
      reads this
    {
      selectedAsset.None?
    }

    /** The green border: `selectedAsset?.key === asset.key`. With nothing
        selected the left side is undefined, which equals a missing key. */
    predicate IsHighlighted(asset: Asset)
      reads this
    {
      (if selectedAsset.Some? then selectedAsset.value.key else None) == asset.key
    }

    /** A selected asset is one shown on the selected tab. */
    ghost predicate Valid()
      reads this
    {
      selectedAsset.Some? ==> selectedAsset.value in Assets()
    }

    /** `useState(0)` and `useState(null)`. */
    constructor (data: PageData)
      ensures this.data == data
      ensures selectedTabIndex == 0 && selectedAsset == None
      ensures Valid() && DuplicateDisabled()
    {
      this.data := data;
      selectedTabIndex := 0;
      selectedAsset := None;
    }

    /** The tabs' `onSelect`: clear the selection, then switch tabs. */
    method SelectTab(index: int)
      modifies this
      ensures selectedTabIndex == index && selectedAsset == None
      ensures Assets() == AssetsForTab(index, data)
      ensures Valid() && DuplicateDisabled()
    {
      selectedAsset := None;
      selectedTabIndex := index;
    }

    /** `handleSelect`: select the given asset; the tab stays. Its one
        caller is the click handler of a card on the shown list. */
    method HandleSelect(asset: Asset)
      requires asset in Assets()
      modifies this
      ensures selectedAsset == Some(asset) && selectedTabIndex == old(selectedTabIndex)
      ensures Valid() && !DuplicateDisabled() && IsHighlighted(asset)
    {
      selectedAsset := Some(asset);
    }

    /** A click on the card rendered for the i-th shown asset. */
    method ClickCard(i: nat)
      requires i < |Assets()|
      modifies this
      ensures selectedAsset == Some(old(Assets())[i]) && selectedTabIndex == old(selectedTabIndex)
      ensures Valid() && !DuplicateDisabled()
    {
      HandleSelect(Assets()[i]);
    }

    /** A selection is always visible: some shown card is highlighted. */
    lemma SelectionIsVisible()
      requires Valid() && selectedAsset.Some?
      ensures exists i :: 0 <= i < |Assets()| && IsHighlighted(Assets()[i])
    {
      var i :| 0 <= i < |Assets()| && Assets()[i] == selectedAsset.value;
      assert IsHighlighted(Assets()[i]);
    }

    /** With keyed lists, a shown card is highlighted only when an asset
        with its key is selected. */
    lemma HighlightNeedsSelection(asset: Asset)
      requires AllKeyed(data) && asset in Assets()
      ensures IsHighlighted(asset) <==> selectedAsset.Some? && selectedAsset.value.key == asset.key
    {
    }
  }
}
