/** The view state of `GroceryApp` (MainActivity.kt:97-115) and of the `GroceryListScreen` it
    shows: the catalog, the cart, the current screen and the search text. */
module GroceryApp {
  import opened Items
  import opened KotlinText
  import opened Catalog
  import DataProvider

  /** `currentScreen`: the string "list" or "cart" in the source. */
  datatype Screen = ListScreen | CartScreen

  class App {
    /** `allItems = remember { DataProvider.getItemList() }`: fixed for the app's lifetime. */
    const allItems: Catalog
    /** `cartItems = remember { mutableStateListOf<Item>() }`. */
    var cartItems: seq<Item>
    var currentScreen: Screen
    /** `searchQuery`, remembered inside `GroceryListScreen`: it lives only while the list
        screen is shown, and a fresh list screen starts from "". */
    var searchQuery: string

    ghost predicate Valid()
      reads this
    {
      && allItems == DataProvider.GetItemList()
      && (currentScreen == CartScreen ==> searchQuery == "")
    }

    /** Everything in the cart was picked from the catalog. */
    ghost predicate CartFromCatalog()
      reads this
    {
      forall x :: x in cartItems ==> x in AllItems(allItems)
    }

    constructor ()
      ensures Valid() && CartFromCatalog()
      ensures cartItems == [] && currentScreen == ListScreen && searchQuery == ""
    {
      allItems := DataProvider.GetItemList();
      cartItems := [];
      currentScreen := ListScreen;
      searchQuery := "";
    }

    /** `cartItemCount = cartItems.size` (line 106), the number on the cart badge. */
    function CartItemCount(): (n: nat)
      reads this
      ensures n == 0 <==> cartItems == []
    {
      |cartItems|
    }

    /** The catalog the list screen displays (lines 131-139, 192). */
    function FilteredView(): (r: Catalog)
      reads this
      ensures IsBlank(searchQuery) ==> r == allItems
      ensures forall x :: x in AllItems(r) ==> x in AllItems(allItems)
    {
      FilteredItemsFromCatalog(allItems, searchQuery);
      FilteredItems(allItems, searchQuery)
    }

    /** `onValueChange = { searchQuery = it }` (line 169); the text field exists only on the
        list screen. */
    method OnSearchQueryChange(text: string)
      requires Valid() && currentScreen == ListScreen
      modifies this`searchQuery
      ensures Valid()
      ensures searchQuery == text
    {
      searchQuery := text;
    }

    /** `onAddToCart = { item -> cartItems.add(item) }` (line 107): an unchecked append, so the
        same item may be added any number of times. */
    method OnAddToCart(item: Item)
      requires Valid()
      modifies this`cartItems
      ensures Valid()
      ensures cartItems == old(cartItems) + [item]
      ensures CartItemCount() == old(CartItemCount()) + 1
    {
      cartItems := cartItems + [item];
    }

    /** The add-to-cart button of the `k`-th card under the `j`-th header of the list screen
        (lines 192, 213-218): it passes the displayed item to `onAddToCart`. */
    method TapAddToCart(j: nat, k: nat)
      requires Valid() && currentScreen == ListScreen
      requires j < |FilteredView()| && k < |FilteredView()[j].1|
      modifies this`cartItems
      ensures Valid()
      ensures cartItems == old(cartItems) + [old(FilteredView())[j].1[k]]
      ensures old(CartFromCatalog()) ==> CartFromCatalog()
    {
      var item := FilteredView()[j].1[k];
      FilteredItemsFromCatalog(allItems, searchQuery);
      assert item in FilteredView()[j].1;
      AllItemsContains(FilteredView(), j, k);
      OnAddToCart(item);
    }

    /** `onNavigateToCart = { currentScreen = "cart" }` (line 108). The list screen leaves the
        composition, and its remembered search text with it. */
    method OnNavigateToCart()
      requires Valid()
      modifies this`currentScreen, this`searchQuery
      ensures Valid()
      ensures currentScreen == CartScreen && searchQuery == ""
      ensures cartItems == old(cartItems)
    {
      currentScreen := CartScreen;
      searchQuery := "";
    }

    /** `onNavigateBack = { currentScreen = "list" }` (line 112). A list screen composed afresh
        starts with an empty search, which shows the whole catalog. */
    method OnNavigateBack()
      requires Valid()
      modifies this`currentScreen, this`searchQuery
      ensures Valid()
      ensures currentScreen == ListScreen
      ensures cartItems == old(cartItems)
      ensures searchQuery == (if old(currentScreen) == CartScreen then "" else old(searchQuery))
      ensures old(currentScreen) == CartScreen ==> FilteredView() == allItems
    {
      if currentScreen == CartScreen {
        searchQuery := "";
      }
      currentScreen := ListScreen;
    }
  }

  lemma {:induction false} AllItemsContains(c: Catalog, j: nat, k: nat)
    requires j < |c| && k < |c[j].1|
    ensures c[j].1[k] in AllItems(c)
  {
    if j > 0 {
      AllItemsContains(c[1..], j - 1, k);
    }
  }
}
