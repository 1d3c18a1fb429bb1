/** `DataProvider.getItemList()` (MainActivity.kt:38-59): the fixed catalog the app starts with. */
module DataProvider {
  import opened Items
  import opened Catalog

  function GetItemList(): (c: Catalog)
    ensures Keys(c) == ["Fresh Fruits", "Farm Vegetables"]
  {
    [ ("Fresh Fruits",
       [ Item(1, "Apple", "A sweet, crisp red fruit, perfect for a healthy snack.", Drawable("apple")),
         Item(2, "Banana", "A long, yellow fruit rich in potassium and energy.", Drawable("bananas")),
         Item(3, "Cherry", "A small, sweet red fruit, great for desserts.", Drawable("cherry")),
         Item(4, "Mango", "The delicious and juicy king of fruits.", Drawable("mango")),
         Item(5, "Watermelon", "A big and hydrating summer fruit, perfect for hot days.", Drawable("watermelon")),
         Item(6, "Grapes", "Sweet and tasty bunches of fruit, easy to eat.", Drawable("grapes")) ]),
      ("Farm Vegetables",
       [ Item(7, "Carrot", "A long, orange root vegetable, great for eyesight.", Drawable("carrot")),
         Item(8, "Lettuce", "A leafy green vegetable, the base for many salads.", Drawable("lettuce")),
         Item(9, "Broccoli", "A beautiful and healthy green vegetable packed with vitamins.", Drawable("brocoli")),
         Item(10, "Onion", "An essential vegetable for adding flavor to any dish.", Drawable("onion")),
         Item(11, "Potato", "A versatile and starchy yellow vegetable for countless recipes.", Drawable("potato")),
         Item(12, "Tomato", "A red, juicy fruit often used as a vegetable in cooking.", Drawable("tomato")),
         Item(13, "Pea", "Sweet little green vegetables, great in a variety of dishes.", Drawable("pea")) ]) ]
  }

  /** Two categories, fruits first; 13 items numbered 1 to 13 in catalog order, so their ids are
      pairwise distinct and no item sits in both categories. */
  lemma ItemListShape()
    ensures var c := GetItemList();
      && Keys(c) == ["Fresh Fruits", "Farm Vegetables"]
      && DistinctKeys(c)
      && |AllItems(c)| == 13
      && (forall i :: 0 <= i < 13 ==> AllItems(c)[i].id == i + 1)
      && (forall x :: x in c[0].1 ==> x !in c[1].1)
  {
    var c := GetItemList();
    assert AllItems(c) == c[0].1 + c[1].1 by {
      assert AllItems(c[1..]) == c[1].1 + AllItems(c[2..]);
    }
    assert Keys(c) == ["Fresh Fruits", "Farm Vegetables"];
  }
}
