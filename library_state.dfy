/** The Library page's component state: the item cache that grows by
    "load more" behind an `isLoading` guard, the filter inputs, and the
    derived state that React effects keep in step with them. Each method is
    one event together with every effect that the event sets off, so the
    state after a method is the state the page settles in. */
module LibraryState {
  import opened Records
  import opened Library
  import opened LibraryPaging

  /** What a page query to `library_items` came back with: rows, or an
      error (or no data). */
  datatype FetchResult = Rows(data: seq<LibraryItem>) | Failed

  /** The observable state of the page, for saying what an event leaves
      alone. */
  datatype Snapshot = Snapshot(
    items: seq<LibraryItem>,
    filtered: seq<LibraryItem>,
    activeTab: Tab,
    searchTerm: string,
    selectedCategory: string,
    categories: seq<string>,
    page: nat,
    uiPage: int,
    hasMore: bool)

  /** The inclusive row window `[from, to]` asked of the backend for a
      0-based fetch page. */
  function FetchWindow(pageToLoad: nat): (w: (nat, nat))
    ensures w.0 == pageToLoad * PageSize
    ensures w.1 - w.0 + 1 == PageSize
  {
    var from := pageToLoad * PageSize;
    (from, from + PageSize - 1)
  }

  /** Successive fetch pages ask for adjacent windows, and distinct pages
      for disjoint ones. */
  lemma FetchWindowsTile(p: nat, q: nat)
    ensures FetchWindow(p).1 + 1 == FetchWindow(p + 1).0
    ensures p < q ==> FetchWindow(p).1 < FetchWindow(q).0
  {
    if p < q {
      assert p * PageSize + PageSize <= q * PageSize;
    }
  }

  class LibraryPage {
    var items: seq<LibraryItem>
    var filtered: seq<LibraryItem>
    var activeTab: Tab
    var searchTerm: string
    var selectedCategory: string
    var categories: seq<string>
    var isLoading: bool
    /** The last fetch page that loaded successfully. */
    var page: nat
    /** The 1-based UI page over `filtered`. */
    var uiPage: int
    var hasMore: bool
    /** The arguments of the load in flight, while `isLoading`. */
    var pendingPage: nat
    var pendingReplace: bool

    /** The derived state agrees with its inputs, and the UI page is a page
        that exists. */
    ghost predicate Valid()
      reads this
    {
      && filtered == FilterItems(items, activeTab, selectedCategory, searchTerm)
      && categories == CategoryList(items, activeTab)
      && 1 <= uiPage <= TotalPages(|filtered|)
    }

    ghost function View(): Snapshot
      reads this
    {
      Snapshot(items, filtered, activeTab, searchTerm, selectedCategory, categories, page, uiPage, hasMore)
    }

    /** The page as first rendered, after its mount effects: the initial
        `loadLibraryItems(0, true)` has raised the guard and is waiting for
        its response, which `FinishLoad` delivers. */
    constructor ()
      ensures Valid()
      ensures isLoading && pendingPage == 0 && pendingReplace
      ensures items == [] && filtered == []
      ensures activeTab == OfType(Video) && searchTerm == "" && selectedCategory == AllCategories
      ensures categories == [AllCategories]
      ensures page == 0 && uiPage == 1 && hasMore
    {
      items := [];
      filtered := [];
      activeTab := OfType(Video);
      searchTerm := "";
      selectedCategory := AllCategories;
      categories := CategoryList([], OfType(Video));
      isLoading := true;
      page := 0;
      uiPage := 1;
      hasMore := true;
      pendingPage := 0;
      pendingReplace := true;
    }

    /** The rows shown on screen: the slice of the UI page. Since the UI page
        always exists, no clamping happens. */
    function PageItems(): (r: seq<LibraryItem>)
      reads this
      requires Valid()
      ensures |r| <= PageSize
      ensures r == [] <==> filtered == []
      ensures (uiPage - 1) * PageSize + |r| <= |filtered|
      ensures forall k :: 0 <= k < |r| ==> r[k] == filtered[(uiPage - 1) * PageSize + k]
    {
      PageSlice(filtered, uiPage)
    }

    /** Items changed: the category effect and the filter effect run. */
    method ItemsChanged(newItems: seq<LibraryItem>)
      modifies this`items, this`categories, this`selectedCategory, this`filtered, this`uiPage
      ensures Valid()
      ensures items == newItems && selectedCategory == AllCategories && uiPage == 1
    {
      items := newItems;
      categories := CategoryList(items, activeTab);
      selectedCategory := AllCategories;
      filtered := FilterItems(items, activeTab, selectedCategory, searchTerm);
      uiPage := 1;
    }

    /** The first half of `loadLibraryItems`: refuse while a load is in
        flight, otherwise raise the guard and name the row window to fetch. */
    method StartLoad(pageToLoad: nat, replace: bool) returns (started: bool, from: nat, to: nat)
      requires Valid()
      modifies this`isLoading, this`pendingPage, this`pendingReplace
      ensures Valid() && View() == old(View())
      ensures started == !old(isLoading)
      ensures !started ==> isLoading && pendingPage == old(pendingPage) && pendingReplace == old(pendingReplace)
      ensures started ==> isLoading && pendingPage == pageToLoad && pendingReplace == replace
      ensures started ==> (from, to) == FetchWindow(pageToLoad)
    {
      if isLoading {
        return false, 0, 0;
      }
      isLoading := true;
      pendingPage, pendingReplace := pageToLoad, replace;
      started := true;
      from, to := FetchWindow(pageToLoad).0, FetchWindow(pageToLoad).1;
    }

    /** The second half of `loadLibraryItems`: on success replace or extend
        the cache, record whether a full page came back and which page it
        was; on failure change nothing; lower the guard in both cases. */
    method FinishLoad(result: FetchResult)
      requires Valid() && isLoading
      modifies this
      ensures Valid() && !isLoading
      ensures result.Failed? ==> View() == old(View())
      ensures result.Rows? ==>
        && items == (if old(pendingReplace) then result.data else old(items) + result.data)
        && hasMore == (|result.data| == PageSize)
        && page == old(pendingPage)
        && activeTab == old(activeTab) && searchTerm == old(searchTerm)
        && selectedCategory == AllCategories && uiPage == 1
    {
      if result.Rows? {
        ItemsChanged(if pendingReplace then result.data else items + result.data);
        hasMore := |result.data| == PageSize;
        page := pendingPage;
      }
      isLoading := false;
    }

    /** `loadLibraryItems(pageToLoad, replace)` with the response taken as
        an input: nothing at all happens while another load is in flight. */
    method LoadLibraryItems(pageToLoad: nat, replace: bool, result: FetchResult)
      requires Valid()
      modifies this
      ensures Valid()
      ensures old(isLoading) ==> View() == old(View()) && isLoading
      ensures old(isLoading) ==> pendingPage == old(pendingPage) && pendingReplace == old(pendingReplace)
      ensures !old(isLoading) ==> !isLoading
      ensures !old(isLoading) && result.Failed? ==> View() == old(View())
      ensures !old(isLoading) && result.Rows? ==>
        && items == (if replace then result.data else old(items) + result.data)
        && hasMore == (|result.data| == PageSize)
        && page == pageToLoad
        && activeTab == old(activeTab) && searchTerm == old(searchTerm)
        && selectedCategory == AllCategories && uiPage == 1
    {
      var started, from, to := StartLoad(pageToLoad, replace);
      if started {
        FinishLoad(result);
      }
    }

    /** The "Load more" button, shown only while more rows may exist and no
        load is in flight: fetch the next page and append it. What was
        listed stays listed, in order, with the new rows' matches after it. */
    method LoadMore(result: FetchResult)
      requires Valid() && hasMore && !isLoading
      modifies this
      ensures Valid() && !isLoading
      ensures result.Failed? ==> View() == old(View())
      ensures result.Rows? ==>
        && items == old(items) + result.data
        && hasMore == (|result.data| == PageSize)
        && page == old(page) + 1
        && activeTab == old(activeTab) && searchTerm == old(searchTerm)
        && selectedCategory == AllCategories && uiPage == 1
        && filtered ==
          FilterItems(old(items), activeTab, AllCategories, searchTerm) +
          FilterItems(result.data, activeTab, AllCategories, searchTerm)
    {
      LoadLibraryItems(page + 1, false, result);
      if result.Rows? {
        FilterItemsAppend(old(items), result.data, activeTab, AllCategories, searchTerm);
      }
    }

    /** A tab button: a new tab recomputes the category list, resets the
        category to `'All'`, refilters and returns to page 1. Choosing the
        active tab again changes nothing. */
    method SetActiveTab(tab: Tab)
      requires Valid()
      modifies this`activeTab, this`categories, this`selectedCategory, this`filtered, this`uiPage
      ensures Valid()
      ensures tab == old(activeTab) ==> View() == old(View())
      ensures tab != old(activeTab) ==>
        && activeTab == tab && items == old(items) && searchTerm == old(searchTerm)
        && selectedCategory == AllCategories && uiPage == 1
        && page == old(page) && hasMore == old(hasMore)
      ensures isLoading == old(isLoading)
    {
      if tab != activeTab {
        activeTab := tab;
        categories := CategoryList(items, activeTab);
        selectedCategory := AllCategories;
        filtered := FilterItems(items, activeTab, selectedCategory, searchTerm);
        uiPage := 1;
      }
    }

    /** The search box: a new term refilters and returns to page 1. */
    method SetSearchTerm(term: string)
      requires Valid()
      modifies this`searchTerm, this`filtered, this`uiPage
      ensures Valid()
      ensures term == old(searchTerm) ==> View() == old(View())
      ensures term != old(searchTerm) ==>
        View() == old(View()).(searchTerm := term, filtered := filtered, uiPage := 1)
      ensures isLoading == old(isLoading)
    {
      if term != searchTerm {
        searchTerm := term;
        filtered := FilterItems(items, activeTab, selectedCategory, searchTerm);
        uiPage := 1;
      }
    }

    /** A category button: a new category refilters and returns to page 1. */
    method SelectCategory(category: string)
      requires Valid()
      modifies this`selectedCategory, this`filtered, this`uiPage
      ensures Valid()
      ensures category == old(selectedCategory) ==> View() == old(View())
      ensures category != old(selectedCategory) ==>
        View() == old(View()).(selectedCategory := category, filtered := filtered, uiPage := 1)
      ensures isLoading == old(isLoading)
    {
      if category != selectedCategory {
        selectedCategory := category;
        filtered := FilterItems(items, activeTab, selectedCategory, searchTerm);
        uiPage := 1;
      }
    }

    /** The Prev button. */
    method PrevPage()
      requires Valid()
      modifies this`uiPage
      ensures Valid()
      ensures uiPage == Prev(old(uiPage))
    {
      var p := Prev(uiPage);
      assert p <= TotalPages(|filtered|);
      uiPage := p;
    }

    /** The Next button. */
    method NextPage()
      requires Valid()
      modifies this`uiPage
      ensures Valid()
      ensures uiPage == Next(old(uiPage), TotalPages(|filtered|))
    {
      var p := Next(uiPage, TotalPages(|filtered|));
      assert p >= 1;
      uiPage := p;
    }

    /** A numbered page button; only the first few pages have one. */
    method GoToPage(pageNumber: int)
      requires Valid()
      requires 1 <= pageNumber <= PageButtons(|filtered|)
      modifies this`uiPage
      ensures Valid()
      ensures uiPage == pageNumber
    {
      uiPage := pageNumber;
    }
  }

  /** A tab switch while the first page is still loading: the pending
      load keeps its arguments, so its rows still replace the empty cache
      and `page` is 0. */
  method TabSwitchDuringInitialLoad(d: seq<LibraryItem>) returns (p: LibraryPage)
    ensures p.Valid() && !p.isLoading
    ensures p.items == d && p.page == 0 && p.activeTab == OfType(Audio)
    ensures p.hasMore == (|d| == PageSize)
  {
    p := new LibraryPage();
    p.SetActiveTab(OfType(Audio));
    p.FinishLoad(Rows(d));
  }

  /** When the first load fails, `page` stays 0 and "Load more" stays
      offered; it then fetches page 1, so rows 12 to 23 become the cache
      and the newest twelve rows are never fetched. */
  method FailedInitialLoadSkipsFirstPage(d: seq<LibraryItem>) returns (p: LibraryPage)
    ensures p.Valid() && !p.isLoading
    ensures p.items == d && p.page == 1
  {
    p := new LibraryPage();
    p.FinishLoad(Failed);
    p.LoadMore(Rows(d));
  }
}
