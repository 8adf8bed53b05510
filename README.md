# Theme template duplication page, modelled in Dafny

The repository is one Remix route of a Shopify admin app,
`app/routes/app._index.jsx`. It lists the home, product and collection
templates of the store's main theme. It also lets an operator duplicate
one of them under a new key that holds a random 10-character token. This
project models the deterministic part of that route:

- `generateRandomString` (module `RandomString`). The source loop appends one
  character per iteration, drawn from the 62-character alphabet
  `A–Z a–z 0–9`. The random index of each iteration is an input (`draws`).
  The method `GenerateRandomString` keeps the loop. It is specified by the
  function `RandomString`.
- The key derivation in `action` (modules `Text` and `KeyDerivation`).
  `Text.Split` models JavaScript's `split` for a one-character separator:
  `"".split(".")` is `[""]` and the result is never empty. `DeriveKey` is
  `splittedKey[0] + "." + token + "." + splittedKey.slice(-1)[0]` over
  `(key || "")`.
- The rest of `action` (module `DuplicateAction`). The first asset of the
  lookup is taken. If the lookup is empty, reading `.key` of `undefined`
  throws and the `catch` returns `fail`. Otherwise the route builds an asset
  record with the derived key, the source key and the numeric theme id, and
  saves it. Every exception becomes `Fail`.
- `loader` (module `Loader`). It finds the first theme whose role is `"main"`
  and passes `mainTheme?.id` to the asset listing, possibly undefined. It then
  keeps three order-preserving sub-lists by key prefix.
- The `Index` component (module `IndexPage`). Its selected tab index and
  selected asset are fields of the class `Page`. The tab-to-list mapping, the
  disabled state of "Duplicate Template" and the card highlight are
  functions of that state.

Where the code and its description differ, the model follows the code:

- With no main theme, the loader passes an undefined theme id on. It raises
  no "no active theme" error.
- A key with several dots keeps only its first and last segments. For
  example, `a.b.c` becomes `a.<token>.c` (`DeriveKeyOfThreeSegments`).
- The comment in `action` asks for keys like `index.<token>.liquid`. The
  code keeps the whole first segment, which gives
  `templates/index.<token>.liquid`.
- The tab list labels index 1 "Collection Page" and index 2 "Product Page".
  The `assets` mapping shows `product` on index 1 and `collection` on every
  other index except 0. `TabLabelsDisagreeWithLists` proves that with the
  loader's data, tab 1 never shows a collection template and tab 2 never
  shows a product template.
- A missing source asset is not reported as "not found". The `TypeError`
  from `orignalAsset.key` is caught like any other exception. It is modelled
  as `Fail(NoSourceAsset)`.

## Model

| member | source | states |
|---|---|---|
| Text.Split | app/routes/app._index.jsx:89 | `split(".")` never returns an empty list, a key with k dots gives k + 1 segments, and no segment contains a dot |
| Text.JoinSplit | app/routes/app._index.jsx:89 | joining the segments of a split with the separator gives back the original string |
| Text.SplitJoin | app/routes/app._index.jsx:89 | splitting a join of separator-free segments (at least one) gives back exactly those segments |
| Text.SplitFirst | app/routes/app._index.jsx:89-90 | `splittedKey[0]` is the text before the first dot, or the whole key when it has none |
| Text.SplitLast | app/routes/app._index.jsx:89-92 | `splittedKey.slice(-1)[0]` is the text after the last dot, or the whole key when it has none |
| RandomString.AlphabetLayout | app/routes/app._index.jsx:32-33 | the alphabet has 62 characters: the upper-case letters, then the lower-case letters, then the digits, each range in order |
| RandomString.AlphabetIsAlphanumeric | app/routes/app._index.jsx:32-33 | a character is in the alphabet if and only if it is in `[A-Za-z0-9]` |
| RandomString.RandomString | app/routes/app._index.jsx:34-41 | the token has one character per draw, and its i-th character is the alphabet character at the i-th drawn index |
| RandomString.RandomStringIsAlphanumeric | app/routes/app._index.jsx:31-42 | every token consists only of `[A-Za-z0-9]` characters |
| RandomString.EveryAlphanumericStringIsDrawable | app/routes/app._index.jsx:31-42 | every `[A-Za-z0-9]` string is the token of some sequence of draws |
| RandomString.GenerateRandomString | app/routes/app._index.jsx:31-42 | the loop returns the token of the draws, exactly `length` characters long, all alphanumeric |
| KeyDerivation.KeyOrEmpty | app/routes/app._index.jsx:89 | `key \|\| ""` gives the key when it is present and non-empty, and "" when it is missing or empty |
| KeyDerivation.DeriveKey | app/routes/app._index.jsx:89-92 | the new key holds exactly two more dots than the token, because the first and last segments hold none; its full shape is pinned down by DeriveKeyShape and DerivedKeySegments |
| KeyDerivation.DeriveKeyShape | app/routes/app._index.jsx:89-92 | the new key is the text before the source key's first dot, then ".", the token, ".", then the text after its last dot |
| KeyDerivation.DerivedKeySegments | app/routes/app._index.jsx:89-92 | for a token without a dot, the new key has exactly two dots and splits into the first segment, the token and the last segment |
| KeyDerivation.DerivedKeyWithRandomToken | app/routes/app._index.jsx:89-92 | with a generated token, the new key has exactly two dots and splits into the first segment, the token and the last segment |
| KeyDerivation.DeriveKeyDropsMiddle | app/routes/app._index.jsx:89-92 | a key `first.m1.….mk.last` with dot-free parts becomes `first.<token>.last`; k = 0 is the `<prefix>.<extension>` case |
| KeyDerivation.DeriveKeyOfThreeSegments | app/routes/app._index.jsx:89-92 | `a.b.c` becomes `a.<token>.c` |
| KeyDerivation.DeriveKeyWithoutDot | app/routes/app._index.jsx:89-92 | a key without a dot becomes `key.<token>.key` |
| KeyDerivation.DeriveKeyOfMissingKey | app/routes/app._index.jsx:89-92 | a missing or empty key becomes `.<token>.` |
| Loader.FindMainTheme | app/routes/app._index.jsx:51 | the result is absent if and only if no theme is main; otherwise it is the first theme whose role is "main" |
| Loader.MainThemeId | app/routes/app._index.jsx:51-56 | the id passed to the asset listing is undefined if and only if no theme is main; otherwise it is the first main theme's id |
| Loader.FilterByKeyPrefix | app/routes/app._index.jsx:58-66 | the filter keeps every matching asset as often as it occurs and nothing else, in the original order; an asset without a key never matches |
| Loader.Load | app/routes/app._index.jsx:44-68 | every asset in `home`, `product` and `collection` has a key that starts with `templates/index.`, `templates/product.` and `templates/collection.` respectively; membership in both directions is given by LoadSelectsByPrefix |
| Loader.LoadSelectsByPrefix | app/routes/app._index.jsx:53-68 | `home`, `product` and `collection` hold exactly the listed assets whose key starts with `templates/index.`, `templates/product.` and `templates/collection.`; keyless assets are in none |
| Loader.PrefixesExclusive | app/routes/app._index.jsx:58-66 | no key starts with two of the three template prefixes |
| Loader.LoadListsDisjoint | app/routes/app._index.jsx:58-68 | the three lists are pairwise disjoint |
| DuplicateAction.Action | app/routes/app._index.jsx:71-116 | a lookup that throws, an empty lookup or a save that throws gives `fail`, and anything else gives `success`; on success the original is the first asset found, and the new asset has the derived key, the original key as `source_key` and the numeric theme id; its key splits into the original's first segment, a 10-character alphanumeric token and the original's last segment |
| IndexPage.NonArrayListShowsNothing | app/routes/app._index.jsx:132-140 | a tab whose list is not an array shows no assets |
| IndexPage.AssetsForTab | app/routes/app._index.jsx:132-140 | no contract of its own: the mapping from tab index to list is pinned down by TabShowsItsTemplates, TabLabelsDisagreeWithLists and NonArrayListShowsNothing |
| IndexPage.TabShowsItsTemplates | app/routes/app._index.jsx:132-140 | with the loader's data, tab 0 shows exactly the home templates, tab 1 the product templates, and any other index the collection templates |
| IndexPage.TabLabelsDisagreeWithLists | app/routes/app._index.jsx:132-140 | tab 1 is labelled "collection" in the tab list (lines 16-29) but shows only product templates, and tab 2 is labelled "product" but shows only collection templates |
| IndexPage.LoaderListsAreKeyed | app/routes/app._index.jsx:58-66 | every asset the loader hands to the page has a key |
| IndexPage.Page.constructor | app/routes/app._index.jsx:122-123 | the page starts on tab 0 with nothing selected, so Duplicate is disabled |
| IndexPage.Page.DuplicateDisabled | app/routes/app._index.jsx:224 | no contract of its own (`!selectedAsset`): the constructor and SelectTab establish it, and HandleSelect and ClickCard clear it |
| IndexPage.Page.IsHighlighted | app/routes/app._index.jsx:167 | no contract of its own (`selectedAsset?.key === asset.key`): pinned down by HighlightNeedsSelection and SelectionIsVisible |
| IndexPage.Page.SelectTab | app/routes/app._index.jsx:198-201 | selecting a tab clears the selection and switches the shown list, so Duplicate is disabled whatever the tab |
| IndexPage.Page.HandleSelect | app/routes/app._index.jsx:142-144 | selecting a shown asset (its one caller, line 174, passes the clicked card) keeps the tab, keeps the selection among the shown assets, enables Duplicate and highlights that asset |
| IndexPage.Page.ClickCard | app/routes/app._index.jsx:174 | clicking a shown card selects that asset, and the selection stays among the shown assets |
| IndexPage.Page.SelectionIsVisible | app/routes/app._index.jsx:161-174 | while an asset is selected, some card on the shown list is highlighted |
| IndexPage.Page.HighlightNeedsSelection | app/routes/app._index.jsx:167 | for the keyed lists the loader produces, a shown card is highlighted if and only if an asset with the same key is selected |

## Left out

- `authenticate.admin`, `request.formData`, `Theme.all`, `Asset.all`, `asset.save` and `json` are Shopify and Remix calls. The theme list and the asset listing are inputs. In `action`, the lookup is an input that either returned or threw, and the save is an input error that is either present or absent.
- A failure of `authenticate.admin` or `request.formData` inside `action` also ends in `fail`. Those calls are not modelled as inputs.
- The lookup in `action` is filtered by the form's key on the server. The model takes the returned list as given, and so does the source: it does not check that `data[0]` has the requested key.
- A failure of `Asset.all` in `loader` is not caught and propagates to the framework. `Load` is total and does not model it.
- `Math.random` and `Math.floor` are floating-point randomness. Each draw is an input index below 62. The model does not state the uniform distribution of the token, and the source has no collision check.
- `handleDuplicate`, `submit` and the `isLoading` flag are asynchronous UI plumbing.
- JSX rendering, Polaris components, styles and `console.log` are UI and logging.
- The `+themeId` coercion: the theme id is a natural number that has already been parsed.
- Platform state after a failed save ("no new asset appears") belongs to the Shopify platform. It is not state of this route.
