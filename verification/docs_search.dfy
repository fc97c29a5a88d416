/**
 * The search box of the documentation page (`handleSearch` in
 * src/script.js) without the DOM: the term is lowercased and trimmed; an
 * empty term shows the loaded categories as they are; otherwise every
 * category keeps the items that match, categories left with none are
 * dropped, and an empty result shows the "no results" panel.
 */
module DocsSearch {
  import opened Wrappers
  import opened Text
  import opened Js
  import opened Seqs

  /** An endpoint entry (`method` is a keyword here, hence `httpMethod`); `extra` stands for the properties the search does not read. */
  datatype Item = Item(name: Option<string>, desc: Option<string>, path: Option<string>,
                       httpMethod: Option<string>, extra: map<string, JsValue>)

  /** A category; its `items` may be missing, and an entry of it may be null. */
  datatype Category = Category(name: Option<string>, items: Option<seq<Option<Item>>>,
                               extra: map<string, JsValue>)

  /** What the page shows after a search. */
  datatype SearchView =
    | AllCategories(all: seq<Option<Category>>)   // the loaded list, re-rendered as it is
    | Filtered(matches: seq<Category>)           // the non-empty filtered list
    | NoResults                                  // the list is cleared and the "no results" panel shown

  /** `(v || '').toLowerCase()` of an optional text field. */
  function FieldText(v: Option<string>): string {
    Lower(v.GetOr(""))
  }

  /** `(searchTerm || '').toLowerCase().trim()`. */
  function NormalizeTerm(searchTerm: Option<string>): string {
    Trim(Lower(searchTerm.GetOr("")))
  }

  /** The term occurs in the item's name, description, path or method, or in the category's name. */
  predicate ItemMatches(term: string, categoryName: Option<string>, item: Item) {
    || Contains(FieldText(item.name), term)
    || Contains(FieldText(item.desc), term)
    || Contains(FieldText(item.path), term)
    || Contains(FieldText(item.httpMethod), term)
    || Contains(FieldText(categoryName), term)
  }

  /** The step of the inner loop: a null entry or a non-matching item is skipped. */
  function ItemStep(term: string, categoryName: Option<string>): Option<Item> -> Option<Item> {
    (entry: Option<Item>) =>
      if entry.Some? && ItemMatches(term, categoryName, entry.value) then entry else None
  }

  /** The items of a category that the search keeps, in their order. */
  function FilterItems(term: string, c: Category): seq<Item>
    requires c.items.Some?
  {
    FilterMap(c.items.value, ItemStep(term, c.name))
  }

  /**
   * The step of the outer loop: a null category, one without items and one
   * with no matching item are skipped; the others are copied with only
   * their items replaced.
   */
  function CategoryStep(term: string): Option<Category> -> Option<Category> {
    (entry: Option<Category>) =>
      if entry.None? || entry.value.items.None? then None
      else
        var kept := FilterItems(term, entry.value);
        if kept == [] then None
        else
          var c := entry.value;
          Some(c.(items := Some(Entries(kept))))
  }

  /** The categories the search keeps, in their order. */
  function FilterCategories(term: string, categories: seq<Option<Category>>): seq<Category> {
    FilterMap(categories, CategoryStep(term))
  }

  /** The whole search, as a function of the typed text and the loaded categories. */
  function Search(searchTerm: Option<string>, categories: seq<Option<Category>>): SearchView {
    var term := NormalizeTerm(searchTerm);
    if term == "" then AllCategories(categories)
    else
      var found := FilterCategories(term, categories);
      if found == [] then NoResults else Filtered(found)
  }

  /** The entries of a list of items, each as a present entry. */
  function Entries(items: seq<Item>): (entries: seq<Option<Item>>)
    ensures |entries| == |items|
    ensures forall k :: 0 <= k < |items| ==> entries[k] == Some(items[k])
  {
    seq(|items|, k requires 0 <= k < |items| => Some(items[k]))
  }

  /** The inner loop of `handleSearch`: the matching items of one category, pushed in order. */
  method KeepMatchingItems(term: string, category: Category) returns (filteredItems: seq<Item>)
    requires category.items.Some?
    ensures filteredItems == FilterItems(term, category)
  {
    var items := category.items.value;
    filteredItems := [];
    for j := 0 to |items|
      invariant filteredItems == FilterMap(items[..j], ItemStep(term, category.name))
    {
      assert items[..j + 1] == items[..j] + [items[j]];
      FilterMapSnoc(items[..j], items[j], ItemStep(term, category.name));
      if items[j].Some? && ItemMatches(term, category.name, items[j].value) {
        filteredItems := filteredItems + [items[j].value];
      }
    }
    assert items[..|items|] == items;
  }

  /** The outer loop of `handleSearch`: a copy of each category with matching items, holding those items only. */
  method KeepMatchingCategories(term: string, categories: seq<Option<Category>>) returns (filteredData: seq<Category>)
    ensures filteredData == FilterCategories(term, categories)
  {
    filteredData := [];
    for i := 0 to |categories|
      invariant filteredData == FilterCategories(term, categories[..i])
    {
      var entry := categories[i];
      assert categories[..i + 1] == categories[..i] + [entry];
      FilterMapSnoc(categories[..i], entry, CategoryStep(term));
      if entry.Some? && entry.value.items.Some? {
        var category := entry.value;
        var filteredItems := KeepMatchingItems(term, category);
        CategoryStepOfListed(term, category);
        if |filteredItems| > 0 {
          filteredData := filteredData + [category.(items := Some(Entries(filteredItems)))];
        }
      }
    }
    assert categories[..|categories|] == categories;
  }

  /** The outer step on a category that has an item list. */
  lemma CategoryStepOfListed(term: string, c: Category)
    requires c.items.Some?
    ensures CategoryStep(term)(Some(c)) ==
      if FilterItems(term, c) == [] then None else Some(c.(items := Some(Entries(FilterItems(term, c)))))
  {
  }

  /**
   * `handleSearch`: a blank term shows everything; otherwise the filtered
   * categories are shown, or the "no results" panel when there are none, as
   * the function `Search` describes.
   */
  method HandleSearch(searchTerm: Option<string>, categories: seq<Option<Category>>) returns (view: SearchView)
    ensures view == Search(searchTerm, categories)
  {
    var term := NormalizeTerm(searchTerm);
    if term == "" {
      return AllCategories(categories);
    }
    var filteredData := KeepMatchingCategories(term, categories);
    if |filteredData| == 0 {
      view := NoResults;
    } else {
      view := Filtered(filteredData);
    }
  }

  // ----- what the search promises -----

  /** A term that is empty once lowercased and trimmed shows the loaded categories unchanged. */
  lemma BlankTermShowsEverything(searchTerm: Option<string>, categories: seq<Option<Category>>)
    requires AllWhiteSpace(Lower(searchTerm.GetOr("")))
    ensures Search(searchTerm, categories) == AllCategories(categories)
  {
    TrimEmptyIff(Lower(searchTerm.GetOr("")));
  }

  /** An item is kept exactly when it is present in the category and matches. */
  lemma KeptItemIff(term: string, c: Category, item: Item)
    requires c.items.Some?
    ensures item in FilterItems(term, c) <==> Some(item) in c.items.value && ItemMatches(term, c.name, item)
  {
    var items := c.items.value;
    FilterMapMembership(items, ItemStep(term, c.name), item);
    if Some(item) in items && ItemMatches(term, c.name, item) {
      var k :| 0 <= k < |items| && items[k] == Some(item);
      assert ItemStep(term, c.name)(items[k]) == Some(item);
    }
  }

  /** When the category's own name matches, every present item of it is kept. */
  lemma CategoryNameMatchKeepsAll(term: string, c: Category, item: Item)
    requires c.items.Some? && Contains(FieldText(c.name), term)
    ensures item in FilterItems(term, c) <==> Some(item) in c.items.value
  {
    KeptItemIff(term, c, item);
  }

  /**
   * A category is in the result exactly when it has items and one of them
   * matches, and it comes back with its other fields as they were and only
   * the matching items.
   */
  lemma CategoryStepSpec(term: string, entry: Option<Category>)
    ensures CategoryStep(term)(entry).Some? <==>
      entry.Some? && entry.value.items.Some?
      && exists k :: 0 <= k < |entry.value.items.value| && ItemStep(term, entry.value.name)(entry.value.items.value[k]).Some?
    ensures CategoryStep(term)(entry).Some? ==>
      var c, r := entry.value, CategoryStep(term)(entry).value;
      r.name == c.name && r.extra == c.extra && r.items == Some(Entries(FilterItems(term, c)))
  {
    if entry.Some? && entry.value.items.Some? {
      var c := entry.value;
      var kept := FilterItems(term, c);
      var step := ItemStep(term, c.name);
      if kept != [] {
        FilterMapOnlyImages(c.items.value, step, 0);
      } else if exists k :: 0 <= k < |c.items.value| && step(c.items.value[k]).Some? {
        var k :| 0 <= k < |c.items.value| && step(c.items.value[k]).Some?;
        FilterMapMembership(c.items.value, step, step(c.items.value[k]).value);
        assert false;
      }
    }
  }

  /** Every category in a filtered result has at least one item, and all its items match. */
  lemma FilteredCategoriesMatch(term: string, categories: seq<Option<Category>>, k: int)
    requires 0 <= k < |FilterCategories(term, categories)|
    ensures var r := FilterCategories(term, categories)[k];
      && r.items.Some? && r.items.value != []
      && forall e :: e in r.items.value ==> e.Some? && ItemMatches(term, r.name, e.value)
  {
    FilterMapOnlyImages(categories, CategoryStep(term), k);
    var i :| 0 <= i < |categories| && CategoryStep(term)(categories[i]) == Some(FilterCategories(term, categories)[k]);
    var c := categories[i].value;
    CategoryStepSpec(term, categories[i]);
    forall e | e in Entries(FilterItems(term, c))
      ensures e.Some? && ItemMatches(term, c.name, e.value)
    {
      var j :| 0 <= j < |FilterItems(term, c)| && e == Entries(FilterItems(term, c))[j];
      KeptItemIff(term, c, FilterItems(term, c)[j]);
    }
  }

  /** Searching keeps the order of the categories: a list split in two filters piece by piece. */
  lemma FilterKeepsOrder(term: string, a: seq<Option<Category>>, b: seq<Option<Category>>)
    ensures FilterCategories(term, a + b) == FilterCategories(term, a) + FilterCategories(term, b)
  {
    FilterMapConcat(a, b, CategoryStep(term));
  }

  /** "No results" is shown exactly when the term is not blank and no category keeps an item. */
  lemma NoResultsIff(searchTerm: Option<string>, categories: seq<Option<Category>>)
    ensures Search(searchTerm, categories) == NoResults <==>
      NormalizeTerm(searchTerm) != ""
      && forall i :: 0 <= i < |categories| ==> CategoryStep(NormalizeTerm(searchTerm))(categories[i]).None?
  {
    var term := NormalizeTerm(searchTerm);
    var step := CategoryStep(term);
    if term != "" {
      if FilterCategories(term, categories) == [] {
        forall i | 0 <= i < |categories| ensures step(categories[i]).None? {
          if step(categories[i]).Some? {
            FilterMapMembership(categories, step, step(categories[i]).value);
          }
        }
      } else {
        FilterMapOnlyImages(categories, step, 0);
      }
    }
  }
}
