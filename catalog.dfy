/** The search filter of `GroceryListScreen` (MainActivity.kt:131-139) over a category-ordered
    catalog. A Kotlin `Map<String, List<Item>>` built by `mapOf` iterates in insertion order,
    and `mapValues` and `Map.filter` keep that order; the catalog is therefore a sequence of
    (category, items) entries whose keys are distinct. */
module Catalog {
  import opened Items
  import opened KotlinText

  type Entry = (string, seq<Item>)
  type Catalog = seq<Entry>

  function Keys(c: Catalog): seq<string> {
    seq(|c|, i requires 0 <= i < |c| => c[i].0)
  }

  /** Keys of a Kotlin map are pairwise distinct. */
  ghost predicate DistinctKeys(c: Catalog) {
    forall i, j :: 0 <= i < j < |c| ==> c[i].0 != c[j].0
  }

  /** The items of the first entry under `key`, or no items when there is none. */
  function Lookup(c: Catalog, key: string): seq<Item> {
    if c == [] then []
    else if c[0].0 == key then c[0].1
    else Lookup(c[1..], key)
  }

  /** Every item of the catalog, category by category. */
  function AllItems(c: Catalog): seq<Item> {
    if c == [] then [] else c[0].1 + AllItems(c[1..])
  }

  /** `a` is obtained from `b` by deleting elements, without reordering. */
  ghost predicate IsSubsequence<T>(a: seq<T>, b: seq<T>)
    decreases |b|
  {
    if a == [] then true
    else if b == [] then false
    else (a[0] == b[0] && IsSubsequence(a[1..], b[1..])) || IsSubsequence(a, b[1..])
  }

  /** The predicate of line 136: `it.name.contains(searchQuery, ignoreCase = true)`. */
  predicate NameMatches(item: Item, query: string) {
    ContainsIgnoreCase(item.name, query)
  }

  /** `itemList.filter { it.name.contains(searchQuery, ignoreCase = true) }` (line 136). */
  function FilterByName(items: seq<Item>, query: string): (r: seq<Item>)
    ensures forall x :: x in r ==> x in items && NameMatches(x, query)
  {
    if items == [] then []
    else if NameMatches(items[0], query) then [items[0]] + FilterByName(items[1..], query)
    else FilterByName(items[1..], query)
  }

  /** `allItems.mapValues { (_, itemList) -> itemList.filter { ... } }` (lines 135-137). */
  function MapValuesFilter(c: Catalog, query: string): (r: Catalog)
    ensures |r| == |c|
    ensures forall i :: 0 <= i < |r| ==> r[i].0 == c[i].0 && r[i].1 == FilterByName(c[i].1, query)
  {
    if c == [] then []
    else [(c[0].0, FilterByName(c[0].1, query))] + MapValuesFilter(c[1..], query)
  }

  /** `.filter { it.value.isNotEmpty() }` (line 137). */
  function DropEmpty(c: Catalog): (r: Catalog)
    ensures forall e :: e in r ==> e in c && e.1 != []
  {
    if c == [] then []
    else if c[0].1 != [] then [c[0]] + DropEmpty(c[1..])
    else DropEmpty(c[1..])
  }

  /** `filteredItems` (lines 131-139): a blank query shows the whole catalog; any other query
      keeps, per category, the items whose name contains it ignoring case (the query is not
      trimmed), and drops the categories left without items. */
  function FilteredItems(allItems: Catalog, searchQuery: string): (r: Catalog)
    ensures IsBlank(searchQuery) ==> r == allItems
    ensures !IsBlank(searchQuery) ==> forall e :: e in r ==> e.1 != []
    ensures !IsBlank(searchQuery) ==> forall e, x :: e in r && x in e.1 ==> NameMatches(x, searchQuery)
  {
    if IsBlank(searchQuery) then allItems
    else DropEmpty(MapValuesFilter(allItems, searchQuery))
  }

  lemma KeysCons(e: Entry, c: Catalog)
    ensures Keys([e] + c) == [e.0] + Keys(c)
  {
  }

  /** `FilterByName` keeps exactly the matching items, with their multiplicities and in their
      original order: every matching occurrence survives and nothing else does. */
  lemma {:induction false} FilterByNameKeepsExactlyMatches(items: seq<Item>, query: string)
    ensures IsSubsequence(FilterByName(items, query), items)
    ensures forall x :: multiset(FilterByName(items, query))[x]
                        == if NameMatches(x, query) then multiset(items)[x] else 0
  {
    if items != [] {
      var r, rest := FilterByName(items, query), FilterByName(items[1..], query);
      FilterByNameKeepsExactlyMatches(items[1..], query);
      assert items == [items[0]] + items[1..];
      if NameMatches(items[0], query) {
        assert r[1..] == rest;
      } else {
        assert r == rest;
        if r != [] {
          assert IsSubsequence(r, items[1..]);
        }
      }
    }
  }

  /** The filtered view shows only items of the catalog: nothing is fabricated. */
  lemma {:induction false} FilteredItemsFromCatalog(allItems: Catalog, searchQuery: string)
    ensures forall x :: x in AllItems(FilteredItems(allItems, searchQuery)) ==> x in AllItems(allItems)
  {
    if !IsBlank(searchQuery) {
      FilteredFromCatalog(allItems, searchQuery);
    }
  }

  lemma {:induction false} FilteredFromCatalog(c: Catalog, q: string)
    ensures forall x :: x in AllItems(DropEmpty(MapValuesFilter(c, q))) ==> x in AllItems(c)
  {
    if c != [] {
      FilteredFromCatalog(c[1..], q);
      var m := MapValuesFilter(c, q);
      var f := FilterByName(c[0].1, q);
      assert m == [(c[0].0, f)] + MapValuesFilter(c[1..], q);
      assert m[1..] == MapValuesFilter(c[1..], q);
      var tail := DropEmpty(MapValuesFilter(c[1..], q));
      if f != [] {
        assert DropEmpty(m) == [(c[0].0, f)] + tail;
        assert AllItems(DropEmpty(m)) == f + AllItems(tail);
      } else {
        assert DropEmpty(m) == tail;
      }
      assert AllItems(c) == c[0].1 + AllItems(c[1..]);
    }
  }

  /** Some item survives the name filter exactly when some item matches. */
  lemma {:induction false} FilterByNameNonEmptyIff(items: seq<Item>, query: string)
    ensures FilterByName(items, query) != [] <==> exists x :: x in items && NameMatches(x, query)
  {
    if items != [] {
      FilterByNameNonEmptyIff(items[1..], query);
      if !NameMatches(items[0], query) {
        assert forall x :: x in items ==> x == items[0] || x in items[1..];
      }
    }
  }

  /** One step of the non-blank branch: the head category survives iff its filtered list is
      non-empty, and the rest of the result comes from the rest of the catalog. */
  lemma FilteredStep(c: Catalog, q: string)
    requires c != []
    ensures DropEmpty(MapValuesFilter(c, q))
            == (if FilterByName(c[0].1, q) != [] then [(c[0].0, FilterByName(c[0].1, q))] else [])
               + DropEmpty(MapValuesFilter(c[1..], q))
  {
    var m := MapValuesFilter(c, q);
    assert m == [(c[0].0, FilterByName(c[0].1, q))] + MapValuesFilter(c[1..], q);
    assert m[1..] == MapValuesFilter(c[1..], q);
  }

  /** The surviving categories appear in catalog order. */
  lemma {:induction false} FilteredKeysInOrder(c: Catalog, q: string)
    ensures IsSubsequence(Keys(DropEmpty(MapValuesFilter(c, q))), Keys(c))
  {
    if c != [] {
      FilteredStep(c, q);
      FilteredKeysInOrder(c[1..], q);
      var tail := DropEmpty(MapValuesFilter(c[1..], q));
      var f := FilterByName(c[0].1, q);
      KeysCons(c[0], c[1..]);
      assert c == [c[0]] + c[1..];
      assert Keys(c)[1..] == Keys(c[1..]);
      if f != [] {
        KeysCons((c[0].0, f), tail);
        assert Keys([(c[0].0, f)] + tail)[1..] == Keys(tail);
      } else {
        assert DropEmpty(MapValuesFilter(c, q)) == tail;
        if Keys(tail) != [] {
          assert IsSubsequence(Keys(tail), Keys(c)[1..]);
        }
      }
    }
  }

  /** A key other than the head's is looked up in the rest. */
  lemma LookupTail(c: Catalog, key: string)
    requires c != [] && key != c[0].0
    ensures Lookup(c, key) == Lookup(c[1..], key)
  {
  }

  lemma {:induction false} KeysMembership(c: Catalog, key: string)
    ensures key in Keys(c) <==> exists e :: e in c && e.0 == key
  {
    if c != [] {
      KeysCons(c[0], c[1..]);
      assert c == [c[0]] + c[1..];
      KeysMembership(c[1..], key);
    }
  }

  /** Every surviving category exists in the catalog and holds exactly the matching items of
      that category, in their original order. */
  lemma {:induction false} FilteredEntriesFromCatalog(c: Catalog, q: string)
    requires DistinctKeys(c)
    ensures forall e :: e in DropEmpty(MapValuesFilter(c, q))
                        ==> e.0 in Keys(c) && e.1 == FilterByName(Lookup(c, e.0), q)
  {
    if c != [] {
      FilteredStep(c, q);
      assert DistinctKeys(c[1..]) by { DistinctKeysTail(c); }
      FilteredEntriesFromCatalog(c[1..], q);
      var tail := DropEmpty(MapValuesFilter(c[1..], q));
      KeysCons(c[0], c[1..]);
      assert c == [c[0]] + c[1..];
      forall e | e in DropEmpty(MapValuesFilter(c, q))
        ensures e.0 in Keys(c) && e.1 == FilterByName(Lookup(c, e.0), q)
      {
        if e in tail {
          KeysMembership(c[1..], e.0);
          var e' :| e' in c[1..] && e'.0 == e.0;
          var j :| 0 <= j < |c[1..]| && c[1..][j] == e';
          assert c[0].0 != c[j + 1].0;
          LookupTail(c, e.0);
        } else {
          assert e == (c[0].0, FilterByName(c[0].1, q));
        }
      }
    }
  }

  lemma DistinctKeysTail(c: Catalog)
    requires c != [] && DistinctKeys(c)
    ensures DistinctKeys(c[1..])
    ensures forall e :: e in c[1..] ==> e.0 != c[0].0
  {
    forall i, j | 0 <= i < j < |c| - 1 ensures c[1..][i].0 != c[1..][j].0 {
      assert c[i + 1].0 != c[j + 1].0;
    }
  }

  /** A category is shown iff the catalog has it and at least one of its items matches. */
  lemma {:induction false} FilteredCategoryIff(c: Catalog, q: string, key: string)
    requires DistinctKeys(c)
    ensures key in Keys(DropEmpty(MapValuesFilter(c, q)))
            <==> key in Keys(c) && exists x :: x in Lookup(c, key) && NameMatches(x, q)
  {
    var r := DropEmpty(MapValuesFilter(c, q));
    KeysMembership(r, key);
    KeysMembership(c, key);
    if c != [] {
      FilteredStep(c, q);
      DistinctKeysTail(c);
      var tail := DropEmpty(MapValuesFilter(c[1..], q));
      var f := FilterByName(c[0].1, q);
      FilteredCategoryIff(c[1..], q, key);
      KeysMembership(tail, key);
      KeysMembership(c[1..], key);
      FilterByNameNonEmptyIff(c[0].1, q);
      assert c == [c[0]] + c[1..];
      if key == c[0].0 {
        FilteredEntriesFromCatalog(c[1..], q);
        forall e | e in tail ensures e.0 != key {
          KeysMembership(c[1..], e.0);
        }
      } else {
        LookupTail(c, key);
      }
    }
  }

  lemma DistinctKeysCons(e: Entry, c: Catalog)
    requires DistinctKeys(c) && forall x :: x in c ==> x.0 != e.0
    ensures DistinctKeys([e] + c)
  {
    var r := [e] + c;
    forall i, j | 0 <= i < j < |r| ensures r[i].0 != r[j].0 {
      assert r[j] == c[j - 1];
      if i > 0 {
        assert r[i] == c[i - 1];
      }
    }
  }

  /** The filtered catalog is again a map: its keys stay distinct. */
  lemma {:induction false} FilteredKeysDistinct(c: Catalog, q: string)
    requires DistinctKeys(c)
    ensures DistinctKeys(DropEmpty(MapValuesFilter(c, q)))
  {
    if c != [] {
      FilteredStep(c, q);
      DistinctKeysTail(c);
      FilteredKeysDistinct(c[1..], q);
      FilteredEntriesFromCatalog(c[1..], q);
      var tail := DropEmpty(MapValuesFilter(c[1..], q));
      var f := FilterByName(c[0].1, q);
      if f != [] {
        forall x | x in tail ensures x.0 != c[0].0 {
          KeysMembership(c[1..], x.0);
        }
        DistinctKeysCons((c[0].0, f), tail);
      }
    }
  }

  lemma {:induction false} FilterByNameFoldInvariant(items: seq<Item>, q1: string, q2: string)
    requires FoldString(q1) == FoldString(q2)
    ensures FilterByName(items, q1) == FilterByName(items, q2)
  {
    if items != [] {
      ContainsIgnoreCaseFoldInvariant(items[0].name, q1, q2);
      FilterByNameFoldInvariant(items[1..], q1, q2);
    }
  }

  lemma {:induction false} MapValuesFilterFoldInvariant(c: Catalog, q1: string, q2: string)
    requires FoldString(q1) == FoldString(q2)
    ensures MapValuesFilter(c, q1) == MapValuesFilter(c, q2)
  {
    if c != [] {
      FilterByNameFoldInvariant(c[0].1, q1, q2);
      MapValuesFilterFoldInvariant(c[1..], q1, q2);
    }
  }

  /** Queries that differ only in the case of ASCII letters ("APPLE", "apple", "aPpLe") show
      the same filtered catalog. */
  lemma CaseInsensitiveQuery(allItems: Catalog, q1: string, q2: string)
    requires FoldString(q1) == FoldString(q2)
    ensures FilteredItems(allItems, q1) == FilteredItems(allItems, q2)
  {
    BlankFoldInvariant(q1, q2);
    MapValuesFilterFoldInvariant(allItems, q1, q2);
  }

  /** For a non-blank query the filtered catalog is exactly the catalog's categories that have
      a matching item, in catalog order, each holding exactly its matching items in order. */
  lemma NonBlankQueryView(allItems: Catalog, searchQuery: string)
    requires DistinctKeys(allItems) && !IsBlank(searchQuery)
    ensures var r := FilteredItems(allItems, searchQuery);
      && DistinctKeys(r)
      && IsSubsequence(Keys(r), Keys(allItems))
      && (forall e :: e in r ==> e.0 in Keys(allItems) && e.1 == FilterByName(Lookup(allItems, e.0), searchQuery))
      && (forall key :: key in Keys(r) <==>
            key in Keys(allItems) && exists x :: x in Lookup(allItems, key) && NameMatches(x, searchQuery))
  {
    FilteredKeysDistinct(allItems, searchQuery);
    FilteredKeysInOrder(allItems, searchQuery);
    FilteredEntriesFromCatalog(allItems, searchQuery);
    forall key ensures key in Keys(FilteredItems(allItems, searchQuery)) <==>
        key in Keys(allItems) && exists x :: x in Lookup(allItems, key) && NameMatches(x, searchQuery)
    {
      FilteredCategoryIff(allItems, searchQuery, key);
    }
  }

  /** `filter { it.value.isNotEmpty() }` keeps every non-empty entry, in order, and nothing else. */
  lemma {:induction false} DropEmptyKeepsNonEmpty(c: Catalog)
    ensures IsSubsequence(DropEmpty(c), c)
    ensures forall e :: e in c && e.1 != [] ==> e in DropEmpty(c)
  {
    if c != [] {
      DropEmptyKeepsNonEmpty(c[1..]);
      var r := DropEmpty(c);
      assert c == [c[0]] + c[1..];
      if c[0].1 != [] {
        assert r[1..] == DropEmpty(c[1..]);
      } else if r != [] {
        assert IsSubsequence(r, c[1..]);
      }
    }
  }
}
