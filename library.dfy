/** The Library page's pure list logic: the three-stage filter behind
    `filterItems` and the category list derived for the active type tab. */
module Library {
  import opened Seqs
  import opened Text
  import opened Records

  /** The type tab: `'all'` or one of the four kinds. */
  datatype Tab = AllTypes | OfType(kind: ItemType)

  // ---------------------------------------------------------------------
  // The filter, stage by stage and as a single criterion

  /** Tab stage: with a kind tab only items of that kind pass. */
  predicate InTab(tab: Tab, item: LibraryItem) {
    tab.AllTypes? || item.kind == tab.kind
  }

  /** Category stage: it only applies when a category other than `'All'`
      is selected AND a kind tab is active; then equality is exact. */
  predicate InCategory(tab: Tab, category: string, item: LibraryItem) {
    category == AllCategories || tab.AllTypes? || item.category == category
  }

  /** Search stage for an already lower-cased term: title, description,
      author or some tag contains it, ignoring ASCII case. */
  predicate SearchHit(item: LibraryItem, term: string) {
    Includes(ToLower(item.title), term) ||
    Includes(ToLower(item.description), term) ||
    Includes(ToLower(item.author), term) ||
    exists k :: 0 <= k < |item.tags| && Includes(ToLower(item.tags[k]), term)
  }

  /** An empty search term is no filter at all. */
  predicate MatchesSearch(item: LibraryItem, searchTerm: string) {
    searchTerm == "" || SearchHit(item, ToLower(searchTerm))
  }

  /** The three stages as one conjunction. */
  predicate Keep(tab: Tab, category: string, searchTerm: string, item: LibraryItem) {
    InTab(tab, item) && InCategory(tab, category, item) && MatchesSearch(item, searchTerm)
  }

  function Criteria(tab: Tab, category: string, searchTerm: string): LibraryItem -> bool {
    item => Keep(tab, category, searchTerm, item)
  }

  /** `filterItems` (src/pages/Library.tsx): narrow by tab, then by
      category, then by search term, each stage skipped when inactive. */
  function FilterItems(items: seq<LibraryItem>, tab: Tab, category: string, searchTerm: string)
    : (r: seq<LibraryItem>)
    ensures |r| <= |items|
    ensures forall x :: x in r ==> x in items && InTab(tab, x)
    ensures tab.OfType? ==> forall x :: x in r ==> x.kind == tab.kind
    ensures tab.OfType? && category != AllCategories ==>
      forall x :: x in r ==> x.category == category
  {
    var byTab :=
      if tab.AllTypes? then items
      else Filter(items, (x: LibraryItem) => x.kind == tab.kind);
    var byCategory :=
      if category != AllCategories && !tab.AllTypes? then Filter(byTab, (x: LibraryItem) => x.category == category)
      else byTab;
    if searchTerm != "" then
      var term := ToLower(searchTerm);
      Filter(byCategory, (x: LibraryItem) => SearchHit(x, term))
    else byCategory
  }

  /** The staged filter is a single pass over the items with the
      conjunction of the three criteria. */
  lemma FilterItemsOnePass(items: seq<LibraryItem>, tab: Tab, category: string, searchTerm: string)
    ensures FilterItems(items, tab, category, searchTerm) == Filter(items, Criteria(tab, category, searchTerm))
  {
    var a := (x: LibraryItem) => InTab(tab, x);
    var ab := (x: LibraryItem) => InTab(tab, x) && InCategory(tab, category, x);
    var abc := Criteria(tab, category, searchTerm);
    var byTab :=
      if tab.AllTypes? then items
      else Filter(items, (x: LibraryItem) => x.kind == tab.kind);
    if tab.AllTypes? {
      FilterKeepsAll(items, a);
    } else {
      FilterCongruent(items, (x: LibraryItem) => x.kind == tab.kind, a);
    }
    assert byTab == Filter(items, a);
    var byCategory :=
      if category != AllCategories && !tab.AllTypes? then Filter(byTab, (x: LibraryItem) => x.category == category)
      else byTab;
    if category != AllCategories && !tab.AllTypes? {
      FilterFuse(items, a, (x: LibraryItem) => x.category == category, ab);
    } else {
      FilterCongruent(items, a, ab);
    }
    assert byCategory == Filter(items, ab);
    if searchTerm != "" {
      var term := ToLower(searchTerm);
      FilterFuse(items, ab, (x: LibraryItem) => SearchHit(x, term), abc);
    } else {
      FilterCongruent(items, ab, abc);
    }
  }

  /** The filter only drops items and keeps the relative order of the
      rest. */
  lemma FilterItemsKeepsOrder(items: seq<LibraryItem>, tab: Tab, category: string, searchTerm: string)
    ensures IsSubsequence(FilterItems(items, tab, category, searchTerm), items)
  {
    FilterItemsOnePass(items, tab, category, searchTerm);
    FilterIsSubsequence(items, Criteria(tab, category, searchTerm));
  }

  /** An item is kept (with all its copies) exactly when it passes the tab,
      the category and the search stage; otherwise no copy is kept. */
  lemma FilterItemsCount(items: seq<LibraryItem>, tab: Tab, category: string, searchTerm: string, x: LibraryItem)
    ensures multiset(FilterItems(items, tab, category, searchTerm))[x] ==
      if InTab(tab, x) && InCategory(tab, category, x) && MatchesSearch(x, searchTerm)
      then multiset(items)[x] else 0
  {
    FilterItemsOnePass(items, tab, category, searchTerm);
    FilterCount(items, Criteria(tab, category, searchTerm), x);
  }

  /** With a non-empty term, an item of the list is kept exactly when it is
      in the tab and the category and the lower-cased term occurs in its
      lower-cased title, description or author or in one of its tags. */
  lemma FilterItemsSearch(items: seq<LibraryItem>, tab: Tab, category: string, searchTerm: string, x: LibraryItem)
    requires searchTerm != ""
    ensures x in FilterItems(items, tab, category, searchTerm) <==>
      x in items && InTab(tab, x) && InCategory(tab, category, x) &&
      (Includes(ToLower(x.title), ToLower(searchTerm)) ||
       Includes(ToLower(x.description), ToLower(searchTerm)) ||
       Includes(ToLower(x.author), ToLower(searchTerm)) ||
       exists k :: 0 <= k < |x.tags| && Includes(ToLower(x.tags[k]), ToLower(searchTerm)))
  {
    FilterItemsOnePass(items, tab, category, searchTerm);
    FilterMembership(items, Criteria(tab, category, searchTerm), x);
  }

  /** The filter returns the list unchanged exactly when every item passes
      all three stages; in particular tab `'all'`, category `'All'` and an
      empty term are the identity. */
  lemma FilterItemsIdentity(items: seq<LibraryItem>, tab: Tab, category: string, searchTerm: string)
    ensures FilterItems(items, tab, category, searchTerm) == items <==>
      forall i :: 0 <= i < |items| ==> Keep(tab, category, searchTerm, items[i])
    ensures FilterItems(items, AllTypes, AllCategories, "") == items
  {
    FilterItemsOnePass(items, tab, category, searchTerm);
    FilterKeepsAll(items, Criteria(tab, category, searchTerm));
  }

  /** The "no items found" message, shown instead of the pager, appears
      exactly when no cached item passes all three stages. */
  lemma FilterItemsEmpty(items: seq<LibraryItem>, tab: Tab, category: string, searchTerm: string)
    ensures FilterItems(items, tab, category, searchTerm) == [] <==>
      forall i :: 0 <= i < |items| ==> !Keep(tab, category, searchTerm, items[i])
  {
    FilterItemsOnePass(items, tab, category, searchTerm);
    FilterEmpty(items, Criteria(tab, category, searchTerm));
  }

  /** The `if (searchTerm)` guard only saves work: an empty term occurs in
      every title, so searching for it would keep every item anyway. */
  lemma MatchesSearchGuard(item: LibraryItem, searchTerm: string)
    ensures MatchesSearch(item, searchTerm) <==> SearchHit(item, ToLower(searchTerm))
  {
    if searchTerm == "" {
      assert ToLower(searchTerm) == "";
      IncludesEmpty(ToLower(item.title));
    }
  }

  /** Filtering the filtered list again with the same criteria changes
      nothing. */
  lemma FilterItemsIdempotent(items: seq<LibraryItem>, tab: Tab, category: string, searchTerm: string)
    ensures FilterItems(FilterItems(items, tab, category, searchTerm), tab, category, searchTerm) ==
      FilterItems(items, tab, category, searchTerm)
  {
    var once := FilterItems(items, tab, category, searchTerm);
    FilterItemsOnePass(items, tab, category, searchTerm);
    FilterItemsOnePass(once, tab, category, searchTerm);
    FilterIdempotent(items, Criteria(tab, category, searchTerm));
  }

  /** Items appended to the cache can only add to the end of the filtered
      list: what was visible stays visible, in the same order. */
  lemma FilterItemsAppend(cached: seq<LibraryItem>, data: seq<LibraryItem>, tab: Tab, category: string, searchTerm: string)
    ensures FilterItems(cached + data, tab, category, searchTerm) ==
      FilterItems(cached, tab, category, searchTerm) + FilterItems(data, tab, category, searchTerm)
  {
    FilterItemsOnePass(cached + data, tab, category, searchTerm);
    FilterItemsOnePass(cached, tab, category, searchTerm);
    FilterItemsOnePass(data, tab, category, searchTerm);
    FilterAppend(cached, data, Criteria(tab, category, searchTerm));
  }

  /** Under tab `'all'` the selected category is ignored. */
  lemma FilterItemsCategoryNeedsTab(items: seq<LibraryItem>, category: string, searchTerm: string)
    ensures FilterItems(items, AllTypes, category, searchTerm) ==
      FilterItems(items, AllTypes, AllCategories, searchTerm)
  {
    FilterItemsOnePass(items, AllTypes, category, searchTerm);
    FilterItemsOnePass(items, AllTypes, AllCategories, searchTerm);
    FilterCongruent(items, Criteria(AllTypes, category, searchTerm), Criteria(AllTypes, AllCategories, searchTerm));
  }

  /** The search ignores the case of the term: searching by the term or by
      its lower-cased form gives the same list. */
  lemma FilterItemsTermCase(items: seq<LibraryItem>, tab: Tab, category: string, searchTerm: string)
    ensures FilterItems(items, tab, category, searchTerm) ==
      FilterItems(items, tab, category, ToLower(searchTerm))
  {
    ToLowerIdempotent(searchTerm);
    assert searchTerm == "" <==> ToLower(searchTerm) == "";
    FilterItemsOnePass(items, tab, category, searchTerm);
    FilterItemsOnePass(items, tab, category, ToLower(searchTerm));
    FilterCongruent(items, Criteria(tab, category, searchTerm), Criteria(tab, category, ToLower(searchTerm)));
  }

  // ---------------------------------------------------------------------
  // The category list of the active tab

  /** The non-empty categories of the items of one kind, in item order,
      repetitions included. */
  function KindCategories(items: seq<LibraryItem>, kind: ItemType): seq<string> {
    Filter(Map(Filter(items, (x: LibraryItem) => x.kind == kind), ItemCategory), (c: string) => c != "")
  }

  /** The category selector's entries: none under tab `'all'`; otherwise
      `'All'` followed by the distinct non-empty categories of that tab's
      items in first-seen order. */
  function CategoryList(items: seq<LibraryItem>, tab: Tab): (r: seq<string>)
    ensures tab.AllTypes? ==> r == []
    ensures tab.OfType? ==> |r| >= 1 && r[0] == AllCategories && NoDuplicates(r[1..])
  {
    if tab.AllTypes? then []
    else [AllCategories] + Distinct(KindCategories(items, tab.kind))
  }

  /** A category follows `'All'` in the list exactly when it is non-empty and
      some item of the tab's kind carries it. */
  lemma CategoryListMembers(items: seq<LibraryItem>, kind: ItemType, c: string)
    ensures c in CategoryList(items, OfType(kind))[1..] <==>
      c != "" && exists i :: 0 <= i < |items| && items[i].kind == kind && items[i].category == c
  {
    var ofKind := (x: LibraryItem) => x.kind == kind;
    var typeItems := Filter(items, ofKind);
    var cs := Map(typeItems, ItemCategory);
    var nonEmpty := (s: string) => s != "";
    var kc := Filter(cs, nonEmpty);
    assert CategoryList(items, OfType(kind))[1..] == Distinct(kc);
    FilterMembership(cs, nonEmpty, c);
    if c in Distinct(kc) {
      assert c in kc;
      var j :| 0 <= j < |cs| && cs[j] == c;
      FilterMembership(items, ofKind, typeItems[j]);
      var i :| 0 <= i < |items| && items[i] == typeItems[j];
      assert items[i].kind == kind && items[i].category == c;
    }
    if c != "" && exists i :: 0 <= i < |items| && items[i].kind == kind && items[i].category == c {
      var i :| 0 <= i < |items| && items[i].kind == kind && items[i].category == c;
      FilterMembership(items, ofKind, items[i]);
      var j :| 0 <= j < |typeItems| && typeItems[j] == items[i];
      assert cs[j] == c;
      assert c in kc;
      var k :| 0 <= k < |kc| && kc[k] == c;
    }
  }

  /** The categories after `'All'` appear in the order in which they are
      first seen among the tab's items. */
  lemma CategoryListFirstSeen(items: seq<LibraryItem>, kind: ItemType)
    ensures forall i, j :: 1 <= i < j < |CategoryList(items, OfType(kind))| ==>
      var r := CategoryList(items, OfType(kind));
      r[i] in KindCategories(items, kind) && r[j] in KindCategories(items, kind) &&
      FirstIndex(KindCategories(items, kind), r[i]) < FirstIndex(KindCategories(items, kind), r[j])
  {
    var kc := KindCategories(items, kind);
    var r := CategoryList(items, OfType(kind));
    DistinctFirstSeenOrder(kc);
    assert r[1..] == Distinct(kc);
    forall i, j | 1 <= i < j < |r|
      ensures r[i] in kc && r[j] in kc && FirstIndex(kc, r[i]) < FirstIndex(kc, r[j])
    {
      assert r[i] == Distinct(kc)[i - 1] && r[j] == Distinct(kc)[j - 1];
    }
  }
}
