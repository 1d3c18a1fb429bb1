# QuickCart catalog and cart: a Dafny model

QuickCart is a small Android grocery catalog written with Jetpack Compose. Almost all of
`MainActivity.kt` is layout. This project models the logic behind it:

- the **search filter** of the list screen (`filteredItems`). A blank query shows the whole
  catalog. Any other query keeps, per category, the items whose name contains the query,
  ignoring case. Categories left without items are dropped.
- the **view state** of `GroceryApp`. This is the append-only cart, the current screen
  (`"list"` or `"cart"`) and the search text of the list screen.
- the **fixed catalog** returned by `DataProvider.getItemList()`.

Modules:

- `Items` (`items.dfy`): the `Item` data class.
- `KotlinText` (`kotlin_text.dfy`): the two Kotlin string operations the filter uses,
  `isBlank()` and `contains(_, ignoreCase = true)`. The scan that `contains` performs is proved
  equal to "the query occurs at some offset".
- `Catalog` (`catalog.dfy`): the filter, written as its three Kotlin steps
  (`filter` on an item list, `mapValues`, `filter { isNotEmpty() }`), and the properties of the
  filtered view. A Kotlin `Map` built by `mapOf` keeps insertion order, so the catalog is a
  sequence of `(category, items)` entries with distinct keys.
- `DataProvider` (`data_provider.dfy`): the 13-item catalog and its shape.
- `GroceryApp` (`grocery_app.dfy`): class `App`, whose methods are the callbacks the screens
  invoke (`onAddToCart`, `onNavigateToCart`, `onNavigateBack`, the search field's
  `onValueChange`, and the add-to-cart button of a displayed card).
- `Scenarios` (`scenarios.dfy`): concrete queries and concrete runs of the app state.

Facts about the code that shape the model:

- The search text is `remember`ed inside `GroceryListScreen` (MainActivity.kt:129), not in
  `GroceryApp`. When `currentScreen` becomes `"cart"`, the list screen leaves the composition
  and its search text is discarded. Coming back composes a fresh list screen whose search text
  is `""`, so the whole catalog is shown again. The cart is remembered in `GroceryApp`
  (line 100) and survives navigation.
- `currentScreen` is a `String`, and the `when` at MainActivity.kt:103 has no `else` branch.
  Only `"list"` and `"cart"` are ever assigned, so the model uses a two-value `Screen` type.
- Navigation is two callbacks, each setting one screen (lines 108 and 112).

Modelling choices:

- Case folding is ASCII: `A`..`Z` fold to `a`..`z`, and every other character stands for
  itself. Characters are compared one by one, as Kotlin's `regionMatches` does.
- Whitespace is the full set that Kotlin's `Char.isWhitespace()` accepts on the JVM. This is
  Java whitespace plus the Unicode space separators.
- `imageResId` is an integer generated by the Android build. The model replaces it with an
  opaque `Drawable` handle named after its `R.drawable` entry, including the source's spelling
  `brocoli`.
- Integers are unbounded. The only integers are the 13 item ids and the cart size, far from
  any Kotlin `Int` limit.

## Model

| member | source | states |
|---|---|---|
| `KotlinText.IsWhitespace` | app/src/main/java/com/example/e_grocery_platform/MainActivity.kt:132 | `Char.isWhitespace()`: space, tab, line feed and carriage return are whitespace; ASCII letters and digits are not |
| `KotlinText.IsBlank` | app/src/main/java/com/example/e_grocery_platform/MainActivity.kt:132 | the front-to-back scan of `isBlank()` holds exactly when every character is whitespace, the empty string included |
| `KotlinText.FoldChar` | app/src/main/java/com/example/e_grocery_platform/MainActivity.kt:136 | an ASCII capital folds to its own lower-case letter (code point + 32), every other character to itself; the folded character is never a capital; folding never changes whether a character is whitespace |
| `KotlinText.FoldCharEqualIff` | app/src/main/java/com/example/e_grocery_platform/MainActivity.kt:136 | two characters compare equal ignoring case exactly when they are equal or one is an ASCII capital and the other its own lower-case letter |
| `KotlinText.ContainsIgnoreCase` | app/src/main/java/com/example/e_grocery_platform/MainActivity.kt:136 | `contains(q, ignoreCase = true)`: a contained query is no longer than the name; the empty query is contained in every name |
| `KotlinText.ContainsIgnoreCaseIffOccurs` | app/src/main/java/com/example/e_grocery_platform/MainActivity.kt:136 | the offset-by-offset scan of `contains(q, ignoreCase = true)` succeeds iff `q` matches `s` character by character, ignoring case, at some offset |
| `KotlinText.ContainsIgnoreCaseFoldInvariant` | app/src/main/java/com/example/e_grocery_platform/MainActivity.kt:136 | two queries that fold to the same string are contained in exactly the same names |
| `KotlinText.BlankFoldInvariant` | app/src/main/java/com/example/e_grocery_platform/MainActivity.kt:132 | two queries that fold to the same string are both blank or both not blank |
| `KotlinText.AbsentCharNotContained` | app/src/main/java/com/example/e_grocery_platform/MainActivity.kt:136 | a query with a character that occurs nowhere in the name, ignoring case, is not contained in it |
| `KotlinText.OccursAtContained` | app/src/main/java/com/example/e_grocery_platform/MainActivity.kt:136 | a case-insensitive occurrence at any offset makes `contains` true |
| `Catalog.FilterByName` | app/src/main/java/com/example/e_grocery_platform/MainActivity.kt:136 | every kept item comes from the input list and its name contains the query, ignoring case |
| `Catalog.FilterByNameKeepsExactlyMatches` | app/src/main/java/com/example/e_grocery_platform/MainActivity.kt:136 | the kept items are an order-preserving subsequence of the list; each matching item is kept as often as it occurs, and no other item is kept |
| `Catalog.FilterByNameNonEmptyIff` | app/src/main/java/com/example/e_grocery_platform/MainActivity.kt:136-137 | the filtered list is non-empty iff some item of the list matches |
| `Catalog.MapValuesFilter` | app/src/main/java/com/example/e_grocery_platform/MainActivity.kt:135-137 | `mapValues` keeps every category, in order, under the same key, each holding its name-filtered list |
| `Catalog.DropEmpty` | app/src/main/java/com/example/e_grocery_platform/MainActivity.kt:137 | every remaining entry is an entry of the input and has at least one item |
| `Catalog.DropEmptyKeepsNonEmpty` | app/src/main/java/com/example/e_grocery_platform/MainActivity.kt:137 | the result is an order-preserving subsequence of the input that keeps every non-empty entry |
| `Catalog.FilteredItems` | app/src/main/java/com/example/e_grocery_platform/MainActivity.kt:131-139 | a blank query yields the catalog unchanged; a non-blank query yields only non-empty categories whose every item's name contains the query, ignoring case |
| `Catalog.FilteredItemsFromCatalog` | app/src/main/java/com/example/e_grocery_platform/MainActivity.kt:131-139 | for every query, every item shown is an item of the catalog |
| `Catalog.FilteredKeysInOrder` | app/src/main/java/com/example/e_grocery_platform/MainActivity.kt:135-137 | the surviving category names are a subsequence of the catalog's, in catalog order |
| `Catalog.FilteredEntriesFromCatalog` | app/src/main/java/com/example/e_grocery_platform/MainActivity.kt:135-137 | each surviving category exists in the catalog and holds exactly the name-filtered items of that category |
| `Catalog.FilteredCategoryIff` | app/src/main/java/com/example/e_grocery_platform/MainActivity.kt:137 | a category is shown iff the catalog has it and at least one of its items matches |
| `Catalog.FilteredKeysDistinct` | app/src/main/java/com/example/e_grocery_platform/MainActivity.kt:135-137 | the filtered result is again a map: its category names stay distinct |
| `Catalog.CaseInsensitiveQuery` | app/src/main/java/com/example/e_grocery_platform/MainActivity.kt:132-136 | queries that differ only in letter case give identical filtered catalogs |
| `Catalog.NonBlankQueryView` | app/src/main/java/com/example/e_grocery_platform/MainActivity.kt:131-139 | for a non-blank query, all of the above at once: distinct keys, catalog order, exact per-category contents, and presence iff some item matches |
| `DataProvider.GetItemList` | app/src/main/java/com/example/e_grocery_platform/MainActivity.kt:38-59 | the fixed catalog has the two categories "Fresh Fruits" and "Farm Vegetables", in that order |
| `DataProvider.ItemListShape` | app/src/main/java/com/example/e_grocery_platform/MainActivity.kt:38-59 | two categories, "Fresh Fruits" then "Farm Vegetables"; 13 items with ids 1..13 in order, hence pairwise distinct; no item in both categories |
| `GroceryApp.App.constructor` | app/src/main/java/com/example/e_grocery_platform/MainActivity.kt:99-101 | the app starts on the list screen with the fixed catalog, an empty cart and an empty search |
| `GroceryApp.App.CartItemCount` | app/src/main/java/com/example/e_grocery_platform/MainActivity.kt:106 | `cartItems.size`: zero exactly when the cart is empty |
| `GroceryApp.App.FilteredView` | app/src/main/java/com/example/e_grocery_platform/MainActivity.kt:131-139 | the catalog the list screen displays: with a blank search, the whole catalog; for every search, only catalog items |
| `GroceryApp.App.OnSearchQueryChange` | app/src/main/java/com/example/e_grocery_platform/MainActivity.kt:169 | typing replaces the search text |
| `GroceryApp.App.OnAddToCart` | app/src/main/java/com/example/e_grocery_platform/MainActivity.kt:106-107 | exactly one entry is appended at the end, with no uniqueness check; earlier entries are unchanged; the badge count grows by one |
| `GroceryApp.App.TapAddToCart` | app/src/main/java/com/example/e_grocery_platform/MainActivity.kt:213-218 | the tapped card's item, as displayed in the filtered view, is appended; if the cart held only catalog items it still does |
| `GroceryApp.App.OnNavigateToCart` | app/src/main/java/com/example/e_grocery_platform/MainActivity.kt:108 | the screen becomes the cart; the cart is unchanged; the list screen's search text is discarded |
| `GroceryApp.App.OnNavigateBack` | app/src/main/java/com/example/e_grocery_platform/MainActivity.kt:112 | the screen becomes the list; the cart is unchanged; coming from the cart, the search is empty and the whole catalog is shown |
| `Scenarios.QueryDropsEmptyCategory` | app/src/main/java/com/example/e_grocery_platform/MainActivity.kt:131-139 | on Fruits [Apple, Banana] and Veg [Carrot], the query "an" shows only Fruits [Banana] |
| `Scenarios.QueryMatchingNothing` | app/src/main/java/com/example/e_grocery_platform/MainActivity.kt:131-139 | the query "zzz" leaves no category at all |
| `Scenarios.WhitespaceQueryShowsAll` | app/src/main/java/com/example/e_grocery_platform/MainActivity.kt:132-133 | the whitespace-only query "   " shows the catalog unchanged |
| `Scenarios.AddSameItemTwice` | app/src/main/java/com/example/e_grocery_platform/MainActivity.kt:106-107 | adding one item twice to an empty cart gives two entries and a count of 2 |
| `Scenarios.VisitCartAndReturn` | app/src/main/java/com/example/e_grocery_platform/MainActivity.kt:101-112 | after searching, adding, opening the cart and going back: list screen, cart kept, whole catalog shown |

## Left out

- Layout and theming are not modelled: `Scaffold`, `LazyColumn`, cards, the top bar, the text field's styling, `AppColors`, and the header gradient chosen by `category.contains("Fruits")`.
- The cart badge's visibility rule (a badge only when the count is positive) is not modelled. It is presentation. The count itself is `App.CartItemCount`.
- The snackbar shown after an add is not modelled. It runs asynchronously in a coroutine and changes no model state.
- The expand/collapse flag of each card, its rotation animation and its spring settings are not modelled. They are per-card presentation state and floating-point animation values.
- Image loading is not modelled. `imageResId` is an opaque handle.
- The keys the lazy lists assign (`key = { it.id }`) are not modelled, and neither is their consequence. The cart screen keys its rows by item id (MainActivity.kt:367), and a lazy list throws `IllegalArgumentException` when a key is used twice. Line 107 lets the same item be added twice, so showing the cart screen after that crashes the app. `Scenarios.AddSameItemTwice` builds that state; from it, the model's `OnNavigateToCart` simply lands on `CartScreen`. The model adds no uniqueness constraint to the cart, because the append is unchecked.
- Activity start-up (`onCreate`, `setContent`) and the preview composable are not modelled.
- FoldChar: Kotlin folds case for all Unicode letters. The model folds only the ASCII letters, so two non-ASCII names differing only in case are distinct in the model.
