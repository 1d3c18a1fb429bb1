/** Concrete runs of the filter and of the app state, as the behaviour of the screens
    describes them. */
module Scenarios {
  import opened Items
  import opened KotlinText
  import opened Catalog
  import opened GroceryApp
  import DataProvider

  const apple := Item(1, "Apple", "", Drawable("apple"))
  const banana := Item(2, "Banana", "", Drawable("bananas"))
  const carrot := Item(3, "Carrot", "", Drawable("carrot"))

  lemma OnlyBananaMatchesAn()
    ensures !IsBlank("an")
    ensures !NameMatches(apple, "an") && NameMatches(banana, "an") && !NameMatches(carrot, "an")
  {
    var q := "an";
    assert !IsWhitespace(q[0]);
    assert FoldChar(q[1]) == 'n';
    AbsentCharNotContained(apple.name, q, 1);
    assert MatchesAt(banana.name, 1, q);
    OccursAtContained(banana.name, q, 1);
    AbsentCharNotContained(carrot.name, q, 1);
  }

  /** "an" keeps Banana only, so the vegetable category disappears. */
  lemma QueryDropsEmptyCategory()
    ensures FilteredItems([("Fruits", [apple, banana]), ("Veg", [carrot])], "an") == [("Fruits", [banana])]
  {
    var q := "an";
    OnlyBananaMatchesAn();
    assert [apple, banana][1..] == [banana];
    assert FilterByName([banana], q) == [banana];
    assert FilterByName([apple, banana], q) == [banana];
    assert FilterByName([carrot], q) == [];
    var c := [("Fruits", [apple, banana]), ("Veg", [carrot])];
    assert c[1..] == [("Veg", [carrot])];
    var m := MapValuesFilter(c, q);
    assert m == [("Fruits", [banana]), ("Veg", [])];
    assert m[1..] == [("Veg", [])];
    assert DropEmpty(m[1..]) == [];
  }

  lemma NoLetterZ(x: Item)
    requires x == apple || x == banana || x == carrot
    ensures !NameMatches(x, "zzz")
  {
    var q := "zzz";
    assert FoldChar(q[0]) == 'z';
    forall i | 0 <= i < |x.name| ensures FoldChar(x.name[i]) != 'z' {
      assert 'A' <= x.name[i] <= 'y';
    }
    AbsentCharNotContained(x.name, q, 0);
  }

  lemma NothingMatchesZzz()
    ensures !IsBlank("zzz")
    ensures !NameMatches(apple, "zzz") && !NameMatches(banana, "zzz") && !NameMatches(carrot, "zzz")
  {
    assert !IsWhitespace("zzz"[0]);
    NoLetterZ(apple);
    NoLetterZ(banana);
    NoLetterZ(carrot);
  }

  /** "zzz" matches nothing, and no category is left. */
  lemma QueryMatchingNothing()
    ensures FilteredItems([("Fruits", [apple, banana]), ("Veg", [carrot])], "zzz") == []
  {
    var q := "zzz";
    NothingMatchesZzz();
    assert [apple, banana][1..] == [banana];
    assert FilterByName([banana], q) == [];
    assert FilterByName([apple, banana], q) == [];
    assert FilterByName([carrot], q) == [];
    var c := [("Fruits", [apple, banana]), ("Veg", [carrot])];
    assert c[1..] == [("Veg", [carrot])];
    var m := MapValuesFilter(c, q);
    assert m == [("Fruits", []), ("Veg", [])];
    assert m[1..] == [("Veg", [])];
    assert DropEmpty(m[1..]) == [];
  }

  /** "   " is blank and shows the catalog unchanged. */
  lemma WhitespaceQueryShowsAll()
    ensures FilteredItems([("Fruits", [apple, banana]), ("Veg", [carrot])], "   ")
            == [("Fruits", [apple, banana]), ("Veg", [carrot])]
  {
  }

  /** Adding the same item twice from an empty cart leaves two entries and a badge of 2. */
  method AddSameItemTwice(x: Item) returns (count: nat, items: seq<Item>)
    ensures count == 2 && items == [x, x]
  {
    var app := new App();
    app.OnAddToCart(x);
    app.OnAddToCart(x);
    count := app.CartItemCount();
    items := app.cartItems;
  }

  /** Search, add, open the cart, come back: the cart is kept, and the list screen shows the
      whole catalog again because its search text was discarded. */
  method VisitCartAndReturn(query: string, x: Item) returns (screen: Screen, shown: Catalog, cart: seq<Item>)
    ensures screen == ListScreen && cart == [x]
    ensures shown == DataProvider.GetItemList()
  {
    var app := new App();
    app.OnSearchQueryChange(query);
    app.OnAddToCart(x);
    app.OnNavigateToCart();
    app.OnNavigateBack();
    screen, shown, cart := app.currentScreen, app.FilteredView(), app.cartItems;
  }
}
