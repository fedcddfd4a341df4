# Hero Store / AppBay list logic in Dafny

This project models the state logic inside the React components of the Hero
Store / AppBay storefront demo. Three parts are modelled:

- **The cart store** of the Hero Store page (`src/App.jsx`). It has:
  - a fixed product catalog and a category filter over it;
  - a cart of lines, each a copy of a product plus a quantity. Handlers add a
    product, set a line's quantity and remove a line;
  - the cart total, a plain sum of price × quantity;
  - a wishlist of product ids with a toggle.

  The pure list updaters the handlers pass to the state setters are functions
  (`HeroStore.AddLine`, `SetQuantity`, `RemoveLine`, `Toggle`, `Total`). The
  component's state cells are the fields of the class `HeroStore.Storefront`.
- **The installation registry**. It is the list of installed apps, stored as one
  value under the browser storage key `"installedApps"`.
  - `AppDetails.AppDetailsPage` looks an app up in the catalog and tells
    whether it is installed. It installs an app by appending it and writing the
    whole list back.
  - `MyInstallation.MyInstallationPage` loads the list and sorts its own copy by
    downloads. It uninstalls by filtering the id out and writing the list back.
  - Browser storage is `Storage.LocalStorage`, a map from key to list.
    `JSON.stringify` followed by `JSON.parse` is taken as the identity. An
    absent key reads as the empty list, as `|| []` makes it.
- **Catalog search and sort** (`src/pages/AllApps.jsx`):
  - a case-insensitive substring match on titles;
  - then, when an order is chosen, a sort by download count.

The sort comparator is `b.downloads - a.downloads` for `"desc"` and
`a.downloads - b.downloads` for any other order. `Array.prototype.sort` is
stable, so the comparator alone fixes the result.
- `DownloadSort.SortBy` specifies the sort as a stable insertion sort on
  sequences.
- It is proved to be ordered, a permutation of its input, and stable for each
  download count.
- `StableSortIsSortBy` proves that any sequence with those three properties
  equals `SortBy`.
- The array sort `DownloadSort.SortInPlace` is proved to produce `SortBy`.

The model follows the code, which behaves as follows:
- The cart total is a plain sum. The code has no tax and no shipping.
- The header's cart badge is `cartItems.length`, the number of lines, not the
  sum of the quantities (`HeroStore.CartCountAfterAdd`).
- Install and uninstall return nothing. The install page sets `isInstalled`
  instead.
- Storage writes are not checked for failure.
- A malformed stored value makes `JSON.parse` throw, and nothing recovers from
  it. The model has no such value: every stored value is a list.
- Uninstall writes back the page's in-memory list. That list may have been
  reordered by a sort, so the stored order can change on uninstall
  (`MyInstallation.MyInstallationPage.HandleUninstall`).

Modules: `Seqs` (Option, Filter, Find, Any, subsequences), `Apps` (the app
record, ASCII lowering, substring search), `DownloadSort`, `Storage`,
`AppDetails`, `MyInstallation`, `AllApps` and `HeroStore`.

## Model

| member | source | states |
|---|---|---|
| Seqs.Filter | src/pages/MyInstallation.jsx:41 | `filter` keeps the accepted elements in order and is never longer than its input. The same function models the filters at src/pages/AllApps.jsx:37-39 and src/App.jsx:200-202, 228 and 234. |
| Seqs.FilterMembers | src/pages/AllApps.jsx:37-39 | An element is in the filtered list exactly when it is in the input and the predicate accepts it. |
| Seqs.FilterCounts | src/App.jsx:228 | Each accepted element occurs in the filtered list as many times as in the input. A rejected element does not occur at all. |
| Seqs.FilterSubsequence | src/App.jsx:200-202 | The filtered list is a subsequence of the input, so the kept elements stay in their relative order. |
| Seqs.Find | src/pages/AppDetails.jsx:19 | `find` gives `None` exactly when no element matches. Otherwise it gives an element that matches, and no earlier element matches. |
| Seqs.Any | src/pages/AppDetails.jsx:26 | `some` holds exactly when some element of the list matches. |
| Apps.LowerStr | src/pages/AllApps.jsx:38 | `toLowerCase` on a title or term: the same length, with no ASCII capital left. |
| Apps.Includes | src/pages/AllApps.jsx:38 | `includes` as a left-to-right scan. It can only hold when the needle is no longer than the haystack. |
| Apps.IncludesIffOccurs | src/pages/AllApps.jsx:38 | `includes` holds exactly when the needle occurs at some position of the haystack. |
| Apps.IncludesLowered | src/pages/AllApps.jsx:37-39 | A title that contains the term still contains it once both are lowered. |
| DownloadSort.Compare | src/pages/AllApps.jsx:43-46 | The comparator lets `a` stay before `b` exactly when `a` has at least as many downloads for `"desc"`, or at most as many for any other order. |
| DownloadSort.Insert | src/pages/AllApps.jsx:43-46 | Inserting one app into a sorted prefix, scanning from the right, adds exactly one element. |
| DownloadSort.SortBy | src/pages/MyInstallation.jsx:32-35 | The stable sort by the comparator keeps the length. Its other properties are the lemmas below. |
| DownloadSort.SortByPermutes | src/pages/AllApps.jsx:43-46 | The sort neither adds nor drops an app: the result is a permutation of the input. |
| DownloadSort.SortBySorted | src/pages/AllApps.jsx:43-46 | Every pair in the result is in the order the comparator asks for. |
| DownloadSort.SortByOrdered | src/pages/MyInstallation.jsx:32-35 | Downloads are non-increasing for `"desc"` and non-decreasing for every other order. |
| DownloadSort.SortByStable | src/pages/AllApps.jsx:43-46 | Apps with equal download counts keep their relative order. |
| DownloadSort.SortedStableUnique | src/pages/AllApps.jsx:43-46 | Two sequences in comparator order that agree on the apps of each download count are equal. |
| DownloadSort.StableSortIsSortBy | src/pages/AllApps.jsx:43-46 | Every stable sort with this comparator gives `SortBy`, whatever algorithm the engine uses. |
| DownloadSort.InsertInPlace | src/pages/AllApps.jsx:43-46 | One insertion step on an array puts the prefix in `Insert` order and leaves the rest of the array alone. |
| DownloadSort.SortInPlace | src/pages/AllApps.jsx:43-46 | `results.sort(comparator)` on an array leaves it equal to `SortBy` of its old contents. |
| DownloadSort.SortedCopy | src/pages/MyInstallation.jsx:32-35 | `[...list].sort(comparator)` returns `SortBy` of the list. |
| Storage.LocalStorage.ReadList | src/pages/AppDetails.jsx:25 | Reading a key that was never written gives the empty list, as the fallback to `[]` does. |
| Storage.LocalStorage.SetItem | src/pages/AppDetails.jsx:45 | Writing a key stores the whole list under it, so reading the key gives the list back. Every other key is unchanged. |
| AppDetails.AfterInstall | src/pages/AppDetails.jsx:41-44 | The list after install keeps every earlier entry in place and grows by at most one entry. |
| AppDetails.InstallRecordsApp | src/pages/AppDetails.jsx:41-45 | After an install, the list holds an entry with the app's id. |
| AppDetails.InstallIdempotent | src/pages/AppDetails.jsx:41 | Installing the same app twice equals installing it once. |
| AppDetails.InstallAppendsOnlyWhenAbsent | src/pages/AppDetails.jsx:41-44 | An absent id gives the old list plus the app at the end. A present id leaves the list unchanged. |
| AppDetails.InstallKeepsIdsUnique | src/pages/AppDetails.jsx:41-45 | Installing never puts a second entry with the same id in the list. |
| AppDetails.AppDetailsPage.constructor | src/pages/AppDetails.jsx:11-13 | The page starts with no app, loading, and not installed. |
| AppDetails.AppDetailsPage.Load | src/pages/AppDetails.jsx:17-32 | The first catalog app with the id is shown, and `isInstalled` holds exactly when a stored entry has that id. An unknown id changes neither. Loading ends. |
| AppDetails.AppDetailsPage.HandleInstall | src/pages/AppDetails.jsx:35-52 | With no app, or with the app already stored, nothing changes. Otherwise the old list plus the app is written under the key and `isInstalled` becomes true. |
| MyInstallation.WithoutApp | src/pages/MyInstallation.jsx:41 | The uninstall filter never lengthens the list. |
| MyInstallation.UninstallDropsExactlyId | src/pages/MyInstallation.jsx:41 | Uninstall drops every entry with the id. Every other entry is kept as many times as it occurs, in the original relative order. |
| MyInstallation.UninstallAbsentUnchanged | src/pages/MyInstallation.jsx:41 | Uninstalling an id that is not in the list leaves the list unchanged. |
| MyInstallation.UninstallKeepsIdsUnique | src/pages/MyInstallation.jsx:41 | Uninstall keeps the ids in the list unique. |
| MyInstallation.UninstallUndoesInstall | src/pages/MyInstallation.jsx:41 | Uninstalling an app that install just appended gives back the list as it was before the install. |
| MyInstallation.MyInstallationPage.constructor | src/pages/MyInstallation.jsx:6 | The page starts with an empty list. |
| MyInstallation.MyInstallationPage.LoadApps | src/pages/MyInstallation.jsx:26-29 | The page shows the stored list, or the empty list when the key was never written. |
| MyInstallation.MyInstallationPage.ApplySort | src/pages/MyInstallation.jsx:31-37 | The page shows its list sorted: a permutation ordered by downloads, descending for `"desc"` and ascending otherwise. Storage is not touched. |
| MyInstallation.MyInstallationPage.HandleUninstall | src/pages/MyInstallation.jsx:39-46 | The page shows its list without the id, and the same list is written under the key. |
| AllApps.Search | src/pages/AllApps.jsx:37-39 | The search never yields more apps than the catalog holds. |
| AllApps.Results | src/pages/AllApps.jsx:37-47 | The results are exactly as many as the search found, sorted or not. |
| AllApps.SearchSelectsMatches | src/pages/AllApps.jsx:37-39 | The search keeps exactly the catalog apps whose lowered title contains the lowered term, each as many times as the catalog holds it, in catalog order. |
| AllApps.SearchFindsVerbatimTitle | src/pages/AllApps.jsx:37-39 | An app whose title contains the term exactly as typed is always found. |
| AllApps.EmptyTermShowsAll | src/pages/AllApps.jsx:37-42 | An empty term with no order shows the whole catalog, in catalog order. |
| AllApps.ResultsAreSearchReordered | src/pages/AllApps.jsx:37-47 | The results hold the same apps as the search, whatever the order. They are a sub-multiset of the catalog, so at most its length. |
| AllApps.ResultsOrdered | src/pages/AllApps.jsx:42-47 | With an order chosen, the results are ordered by downloads, and apps with equal downloads stay in catalog order. |
| AllApps.SearchAndSort | src/pages/AllApps.jsx:37-49 | Filtering into a new array and sorting it in place when an order is chosen gives `Results`. |
| AllApps.AllAppsPage.constructor | src/pages/AllApps.jsx:26-29 | The page starts with no term and no order, showing the whole catalog. |
| AllApps.AllAppsPage.SetSearchTerm | src/pages/AllApps.jsx:36-49 | A new term reruns search and sort with the current order. The shown apps are `Results`. |
| AllApps.AllAppsPage.SetSortOrder | src/pages/AllApps.jsx:36-49 | A new order reruns search and sort with the current term. The shown apps are `Results`. |
| HeroStore.FilterCategory | src/App.jsx:200-202 | The category filter never shows more products than the catalog holds. |
| HeroStore.CategoryFilterExact | src/App.jsx:200-202 | `"All Gear"` shows every product. Any other category shows exactly its products, each as many times as the catalog holds it, in catalog order. |
| HeroStore.CatalogByCategory | src/App.jsx:4-12 | The four catalog products have distinct ids. Each category button other than `"All Gear"` shows exactly the one product of that category, and a category with no button shows nothing. |
| HeroStore.AddLine | src/App.jsx:205-214 | The add updater keeps every existing line's id at its position and never lowers a quantity. |
| HeroStore.AddAbsentAppends | src/App.jsx:211-212 | Adding a product with no line appends one line with quantity 1 at the end. Earlier lines are unchanged. |
| HeroStore.AddPresentIncrements | src/App.jsx:206-210 | Adding a product that has a line raises only that line's quantity, by 1. Length, order and the other lines are unchanged. |
| HeroStore.CartCountAfterAdd | src/App.jsx:242 | The badge count of lines grows by one for a new product and stays the same for one already in the cart. |
| HeroStore.AddKeepsValid | src/App.jsx:204-216 | Adding keeps one line per id and every quantity at least 1. |
| HeroStore.AddToLastLine | src/App.jsx:206-210 | Adding the product of the last line, when no other line has its id, raises that line's quantity by one. |
| HeroStore.AddRepeatedly | src/App.jsx:204-216 | Adding a new product n times gives one line for it, at the end, with quantity n. |
| HeroStore.SetQuantity | src/App.jsx:220-224 | The update updater keeps the length and every line's product. Only quantities change. |
| HeroStore.SetQuantityExact | src/App.jsx:220-224 | The matching line gets exactly the new quantity. Every other line is unchanged. |
| HeroStore.SetQuantityNoMatch | src/App.jsx:220-224 | An id with no line leaves the cart unchanged and creates no line. |
| HeroStore.SetQuantityKeepsValid | src/App.jsx:218-225 | Setting a quantity of at least 1 keeps the cart invariant. |
| HeroStore.RemoveLine | src/App.jsx:228 | The remove updater never lengthens the cart. |
| HeroStore.RemoveDropsLine | src/App.jsx:228 | Removal leaves no line with the id and keeps the other lines in their relative order. |
| HeroStore.RemoveKeepsValid | src/App.jsx:228 | Removal keeps the cart invariant. |
| HeroStore.RemoveAt | src/App.jsx:228 | In a valid cart, removing a line's id cuts out just that line. |
| HeroStore.RemoveUndoesAdd | src/App.jsx:204-229 | Removing a product that was just added as a new line gives the cart back. |
| HeroStore.Total | src/App.jsx:77 | The cart total: price × quantity summed over the lines from 0, left to right. Its properties are the lemmas below. |
| HeroStore.TotalAppend | src/App.jsx:77 | The total of two concatenated carts is the sum of their totals. |
| HeroStore.TotalAt | src/App.jsx:77 | The total is a line's price × quantity plus the totals of the lines before and after it. |
| HeroStore.TotalNonNegative | src/App.jsx:77 | With non-negative prices the total is never negative. An empty cart totals 0. |
| HeroStore.TotalReplaceAt | src/App.jsx:77 | Replacing one line changes the total by the difference of the two lines' price × quantity. |
| HeroStore.TotalOneMoreAt | src/App.jsx:77 | One more of a line adds its price to the total. |
| HeroStore.SubtotalOneMore | src/App.jsx:77 | One more unit adds the price to the line's price × quantity. |
| HeroStore.TotalAfterIncrement | src/App.jsx:206-210 | Adding a product that has a line raises the total by that line's price. |
| HeroStore.TotalAfterAdd | src/App.jsx:204-216 | Adding a product raises the total by one unit price: the product's for a new line, the stored copy's for an existing line. |
| HeroStore.TotalAfterSetQuantity | src/App.jsx:220-224 | Setting a line's quantity moves the total by its price times the change. |
| HeroStore.TotalAfterRemove | src/App.jsx:228 | Removing a line lowers the total by exactly its price × quantity. |
| HeroStore.Toggle | src/App.jsx:232-236 | The toggle updater adds at most one id. |
| HeroStore.ToggleFlips | src/App.jsx:231-237 | A toggle flips the id's membership and no other id's. |
| HeroStore.ToggleTwice | src/App.jsx:231-237 | Toggling twice restores every id's membership. For an id that was not listed, it restores the list itself. |
| HeroStore.ToggleKeepsDistinct | src/App.jsx:231-237 | Toggling never lists an id twice. |
| HeroStore.Storefront.constructor | src/App.jsx:195-198 | The initial state: `"All Gear"`, an empty closed cart, and product 2 on the wishlist. |
| HeroStore.Storefront.FilteredProducts | src/App.jsx:200-202 | The grid shows the whole catalog for `"All Gear"`, one product of the chosen category for each other button, and nothing for a category with no button. |
| HeroStore.Storefront.SetCategory | src/App.jsx:254 | A category button changes only the active category. |
| HeroStore.Storefront.AddToCart | src/App.jsx:204-216 | The cart becomes `AddLine` of the old cart, and the cart opens. The invariant is kept. |
| HeroStore.Storefront.RemoveItem | src/App.jsx:227-229 | The cart becomes `RemoveLine` of the old cart. Nothing else changes. |
| HeroStore.Storefront.UpdateQuantity | src/App.jsx:218-225 | A quantity below 1 gives the same cart as `RemoveItem`. Any other quantity gives `SetQuantity`. The invariant is kept. |
| HeroStore.Storefront.ToggleWishlist | src/App.jsx:231-237 | The wishlist becomes `Toggle` of the old one and stays free of duplicates. |
| HeroStore.Storefront.OpenCart | src/App.jsx:242 | The header's cart button opens the cart. Nothing else changes. |
| HeroStore.Storefront.CloseCart | src/App.jsx:285 | The close button closes the cart. Nothing else changes. |

## Left out

- JSX rendering, styling, the router and the components that hold no state
  logic. These are `Navbar`, `Footer`, `Loading`, `NotFound`, `main.jsx` and
  the `Home` page's `slice(0, 8)` showcase.
- The `setTimeout` delays (300 ms search, 500 ms detail load), their cleanup,
  the toasts and the loading spinner. These are timing and UI concerns. The
  model runs each delayed step at once.
- The `useEffect` scheduling on the installed-apps page, which reloads or
  re-sorts when the sort order changes. It depends on React's effect order.
  `LoadApps` and `ApplySort` are modelled as separate operations.
- Real `localStorage` and JSON. Storage is a map from key to list, and
  serialising then parsing is the identity. Write failures and malformed stored
  text, which makes `JSON.parse` throw, are not represented.
- The app catalog `src/data/appsData` is not part of this model. Every
  operation takes the catalog as a parameter.
- Float ratings and the download display (`/ 1000` with `toFixed`). These are
  floating-point presentation. Prices and downloads are integers.
- `parseInt` on the route parameter. `AppDetails.AppDetailsPage.Load` receives
  the id already as an integer, so a non-numeric route (`NaN`, which matches
  no app) is not represented.
- Apps.LowerStr: lowers ASCII letters only, whereas `toLowerCase` applies full
  Unicode case mapping.
- Apps with extra fields (ratings, sizes, reviews). The App record keeps the
  fields the list logic reads (id, title and downloads). It also keeps company
  name and image, which only the rendering reads.
