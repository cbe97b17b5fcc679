# Baligh site: list handling of the Library, Questions and Home pages

This project is a Dafny model of the client-side list logic of a
content-browsing website. The site has two data-backed views and a home page:

- **Library** (`src/pages/Library.tsx`) keeps an item cache. "Load more"
  grows the cache one backend page of 12 rows at a time, behind an
  `isLoading` guard. A three-stage filter narrows the cache by type tab, by
  category and by a case-insensitive search term. The category list belongs
  to the active tab. A paginator shows 12 rows per UI page, with Prev/Next
  buttons and numbered buttons.
- **Questions** (`src/pages/Questions.tsx`) has a category-then-search
  filter and a category list built when the data loads. One question at a
  time can be expanded.
- **Home** (`src/pages/Home.tsx`) has a video carousel with one dot per page
  of three videos. A question-tab map chooses the category of the featured
  questions, with a fallback query. The shorts and books rows show only
  their first few entries.

Pure logic is written as functions with lemmas: `Seqs`, `Text`, `Library`,
`LibraryPaging`, `Questions` and `Home`. Component state that the pages
update is written as classes: `LibraryState.LibraryPage`,
`QuestionsState.QuestionsPage` and `HomeState.HomePage`. Each class method
is one user event (or one completed fetch) together with every React effect
that the event triggers. So the state after a method is the state the page
settles in. For example, a successful load changes `items`. That recomputes
the category list and resets the selected category to `'All'`. The filtered
list is then recomputed and the UI page goes back to 1. `LibraryPage.Valid()`
ties every derived field to its inputs. It also keeps the UI page inside
`[1, totalPages]`, and every method preserves it.

Backend responses are inputs: a `FetchResult` (rows, or failure) for the
library page, and elsewhere an `Option` of a sequence of questions or of
items, since `data` is `null` on error. The record shapes come from `src/lib/supabase.ts`. The item `type` is
the four-constructor `ItemType`, so a fifth kind cannot be built.

Behaviour of the code worth knowing, which the model reproduces:

- The library search looks at title, description, author and tags. It does
  not look at the category (src/pages/Library.tsx:76-82). A term that occurs
  only in an item's category does not find the item.
- The category effect depends on `items` as well as on the tab
  (src/pages/Library.tsx:36). So a successful "Load more" also resets the
  selected category to `'All'` (`LibraryPage.FinishLoad`).
- The cache does not remove duplicates. Appending is plain concatenation.
- The library category list drops empty categories. The questions list keeps
  them. In both, a data category literally named `'All'` appears after the
  `'All'` sentinel as a second entry.
- A failed first load leaves `page` at 0 and `hasMore` true
  (src/pages/Library.tsx:55-59). "Load more" then asks for page 1
  (src/pages/Library.tsx:599), so rows 12 to 23 are appended and the newest
  twelve rows are never fetched (`LibraryState.FailedInitialLoadSkipsFirstPage`).
- Setting a React state to its current value triggers no effect. Choosing
  the active tab or the selected category again therefore keeps the UI page
  where it is.

## Model

| member | source | states |
|---|---|---|
| `Seqs.Filter` | src/pages/Library.tsx:67 | `Array.prototype.filter`: the result is no longer than the input and holds only input elements that satisfy the predicate |
| `Seqs.FilterIsSubsequence` | src/pages/Library.tsx:67 | the filtered list is a subsequence of the input: it only deletes and keeps relative order |
| `Seqs.FilterCount` | src/pages/Library.tsx:67 | every copy of a satisfying element is kept and no copy of another |
| `Seqs.FilterFuse` | src/pages/Library.tsx:64-83 | two chained filters equal one filter by the conjunction |
| `Seqs.FilterAppend` | src/pages/Library.tsx:56 | filtering distributes over concatenation |
| `Seqs.FilterEmpty` | src/pages/Library.tsx:607 | a filter returns nothing iff no element satisfies the predicate |
| `Seqs.Map` | src/pages/Questions.tsx:29 | `map`: one image per element, same length, in order |
| `Seqs.Distinct` | src/pages/Library.tsx:28 | `[...new Set(xs)]`: exactly the elements of `xs`, each once |
| `Seqs.DistinctFirstSeenOrder` | src/pages/Questions.tsx:29 | the distinct elements come in order of first occurrence |
| `Seqs.Take` | src/pages/Home.tsx:344 | `slice(0, k)` is the prefix of length `min(k, n)` |
| `Text.ToLower` | src/pages/Library.tsx:75 | `toLowerCase` keeps the length, leaves no ASCII capital and changes only capitals |
| `Text.ToLowerIdempotent` | src/pages/Library.tsx:78 | lower-casing an already lower-cased string changes nothing |
| `Text.IncludesEmpty` | src/pages/Library.tsx:74-78 | the empty needle occurs in every string |
| `Text.IncludesAt` | src/pages/Library.tsx:78 | `includes` holds exactly when some position starts a copy of the needle |
| `Library.FilterItems` | src/pages/Library.tsx:63-86 | every kept item is an input item; with a type tab every kept item has that type; with a tab and a category other than `'All'`, every kept item has exactly that category |
| `Library.FilterItemsOnePass` | src/pages/Library.tsx:63-86 | the three staged filters equal one pass with the conjunction of tab, category and search criteria |
| `Library.FilterItemsKeepsOrder` | src/pages/Library.tsx:63-86 | the filter only drops items and keeps the relative order of the rest |
| `Library.FilterItemsCount` | src/pages/Library.tsx:66-83 | an item is kept, with all its copies, iff it passes all three stages; otherwise no copy is kept |
| `Library.FilterItemsSearch` | src/pages/Library.tsx:74-83 | with a non-empty term, an item is kept iff it is in the tab and category and the lower-cased term occurs in its lower-cased title, description, author or some tag |
| `Library.FilterItemsIdentity` | src/pages/Library.tsx:63-86 | the filter returns its input iff every item passes; tab `'all'`, category `'All'` and an empty term give the identity |
| `Library.FilterItemsEmpty` | src/pages/Library.tsx:607-609 | the "no items found" message (and no pager) appears iff no cached item passes all three stages |
| `Library.MatchesSearchGuard` | src/pages/Library.tsx:74-83 | the empty-term guard changes no outcome: matching equals searching for the lower-cased term, empty or not |
| `Library.FilterItemsIdempotent` | src/pages/Library.tsx:63-86 | filtering the filtered list again with the same criteria changes nothing |
| `Library.FilterItemsAppend` | src/pages/Library.tsx:56 | the filtered list of an extended cache is the old filtered list followed by the matches among the new rows |
| `Library.FilterItemsCategoryNeedsTab` | src/pages/Library.tsx:70-72 | under tab `'all'` the selected category has no effect |
| `Library.FilterItemsTermCase` | src/pages/Library.tsx:74-75 | searching by a term or by its lower-cased form gives the same list |
| `Library.CategoryList` | src/pages/Library.tsx:24-36 | empty under tab `'all'`; otherwise `'All'` first, followed by entries without repetition |
| `Library.CategoryListMembers` | src/pages/Library.tsx:27-28 | a category follows `'All'` iff it is non-empty and some item of the tab's type carries it |
| `Library.CategoryListFirstSeen` | src/pages/Library.tsx:28 | the categories after `'All'` come in the order they are first seen among the tab's items |
| `LibraryPaging.TotalPages` | src/pages/Library.tsx:303 | `max(1, ceil(n/12))`: at least 1, the fewest pages of 12 that hold `n` items |
| `LibraryPaging.CurrentPage` | src/pages/Library.tsx:304 | the requested page clamped to `[1, totalPages]`; equal to the request when that page exists |
| `LibraryPaging.PageSlice` | src/pages/Library.tsx:305-307 | at most 12 rows; empty iff the list is empty; row `k` is `filtered[(currentPage-1)*12 + k]`; a full page unless it is the last |
| `LibraryPaging.Prev` | src/pages/Library.tsx:541 | `max(1, p-1)`: never below 1, one step back from any page above 1 |
| `LibraryPaging.Next` | src/pages/Library.tsx:571 | `min(totalPages, p+1)`: never past the last page, one step on from any earlier page |
| `LibraryPaging.PageButtons` | src/pages/Library.tsx:550-551 | `min(5, totalPages)` numbered buttons: one per page up to five pages, exactly five beyond that |
| `LibraryPaging.NavigationStaysInRange` | src/pages/Library.tsx:541-572 | Prev and Next keep a page in `[1, totalPages]` and undo each other away from the ends |
| `LibraryPaging.PagesPartition` | src/pages/Library.tsx:302-307 | the pages, concatenated in order, give back the whole filtered list |
| `LibraryState.FetchWindow` | src/pages/Library.tsx:46-47 | the window starts at `pageToLoad*12` and spans exactly 12 indices |
| `LibraryState.FetchWindowsTile` | src/pages/Library.tsx:46-47 | consecutive fetch pages ask for adjacent windows, distinct pages for disjoint ones |
| `LibraryState.LibraryPage.constructor` | src/pages/Library.tsx:6-47 | the state after the mount effects: empty cache, video tab, empty term, `'All'`, categories `['All']`, page 0, UI page 1, `hasMore`, and the initial `loadLibraryItems(0, true)` in flight (guard raised, page 0, replacing) |
| `LibraryState.LibraryPage.PageItems` | src/pages/Library.tsx:302-307 | the rows on screen are the UI page's slice, which needs no clamping because the UI page always exists |
| `LibraryState.LibraryPage.ItemsChanged` | src/pages/Library.tsx:24-41 | a new cache recomputes categories and the filtered list, resets the category to `'All'` and the UI page to 1 |
| `LibraryState.LibraryPage.StartLoad` | src/pages/Library.tsx:44-47 | refused while a load is in flight and then changes nothing; otherwise raises the guard and returns the fetch window |
| `LibraryState.LibraryPage.FinishLoad` | src/pages/Library.tsx:55-60 | on rows the cache is replaced or extended, `hasMore == (count == 12)` and `page` is the loaded page; on failure nothing observable changes; the guard is lowered in both cases |
| `LibraryState.LibraryPage.LoadLibraryItems` | src/pages/Library.tsx:43-61 | the whole load as one step: while another load is in flight nothing changes, including that load's page and replace flag; otherwise as StartLoad then FinishLoad |
| `LibraryState.LibraryPage.LoadMore` | src/pages/Library.tsx:597-599 | on rows: the next fetch page is appended to the cache, `page` advances by one, `hasMore == (count == 12)`, tab and term are kept, the category resets to `'All'` and the UI page to 1, and the filtered list is the old cache's matches followed by the new rows' matches; on failure nothing observable changes |
| `LibraryState.TabSwitchDuringInitialLoad` | src/pages/Library.tsx:19-22 | a tab switch before the first response arrives leaves the initial load intact: its rows replace the cache and `page` is 0 |
| `LibraryState.FailedInitialLoadSkipsFirstPage` | src/pages/Library.tsx:55-59 | after a failed first load, "Load more" fetches page 1, so the cache holds only rows 12 to 23 and `page` is 1 |
| `LibraryState.LibraryPage.SetActiveTab` | src/pages/Library.tsx:220-222 | a new tab resets the category to `'All'` and the UI page to 1 and recomputes the derived state; the same tab changes nothing; a load in flight, the cache and the paging fields are untouched |
| `LibraryState.LibraryPage.SetSearchTerm` | src/pages/Library.tsx:209 | a new term refilters and resets the UI page to 1; nothing else changes, a load in flight included |
| `LibraryState.LibraryPage.SelectCategory` | src/pages/Library.tsx:247 | a new category refilters and resets the UI page to 1; nothing else changes, a load in flight included |
| `LibraryState.LibraryPage.PrevPage` | src/pages/Library.tsx:541 | the UI page becomes `Prev` of itself and stays in range |
| `LibraryState.LibraryPage.NextPage` | src/pages/Library.tsx:571 | the UI page becomes `Next` of itself and stays in range |
| `LibraryState.LibraryPage.GoToPage` | src/pages/Library.tsx:556 | a numbered button selects its page |
| `Questions.FilterQuestions` | src/pages/Questions.tsx:34-52 | every kept question is an input question in the category; with a category other than `'All'` every kept question has exactly that category |
| `Questions.FilterQuestionsOnePass` | src/pages/Questions.tsx:34-52 | the two staged filters equal one pass with the conjunction of both criteria |
| `Questions.FilterQuestionsKeepsOrder` | src/pages/Questions.tsx:34-52 | the filter only drops questions and keeps relative order |
| `Questions.FilterQuestionsCount` | src/pages/Questions.tsx:37-49 | a question is kept, with all its copies, iff it is in the category and matches the search |
| `Questions.FilterQuestionsSearch` | src/pages/Questions.tsx:41-49 | with a non-empty term, a question is kept iff it is in the category and the lower-cased term occurs in its lower-cased question, answer or some tag; the category text is not searched |
| `Questions.FilterQuestionsIdentity` | src/pages/Questions.tsx:37-51 | the filter returns its input iff every question passes; `'All'` with an empty term gives the identity |
| `Questions.FilterQuestionsEmpty` | src/pages/Questions.tsx:185-187 | the "no questions found" message appears iff no question is in the category and matches the search |
| `Questions.MatchesSearchGuard` | src/pages/Questions.tsx:41-49 | the empty-term guard changes no outcome: matching equals searching for the lower-cased term |
| `Questions.FilterQuestionsIdempotent` | src/pages/Questions.tsx:34-52 | filtering again with the same criteria changes nothing |
| `Questions.CategoryList` | src/pages/Questions.tsx:29 | `'All'` first, then every category of the data exactly once, empty ones included |
| `Questions.CategoryListFirstSeen` | src/pages/Questions.tsx:29 | the categories after `'All'` come in first-seen order |
| `Questions.Toggled` | src/pages/Questions.tsx:54-56 | the result is `id` iff `id` was not the expanded question, and nothing otherwise |
| `Questions.ToggledTwice` | src/pages/Questions.tsx:54-56 | toggling twice restores the state when `id` or nothing was expanded, and collapses all when another question was |
| `QuestionsState.QuestionsPage.constructor` | src/pages/Questions.tsx:6-11 | initial state: no questions, no categories, `'All'`, empty term, nothing expanded |
| `QuestionsState.QuestionsPage.LoadQuestions` | src/pages/Questions.tsx:21-32 | with data the questions are replaced and the categories rebuilt; without data nothing changes; the selected category is kept |
| `QuestionsState.QuestionsPage.SetSearchTerm` | src/pages/Questions.tsx:86 | sets the term and keeps the filtered list in step |
| `QuestionsState.QuestionsPage.SelectCategory` | src/pages/Questions.tsx:105 | sets the category and keeps the filtered list in step |
| `QuestionsState.QuestionsPage.ToggleExpand` | src/pages/Questions.tsx:54-56 | afterwards either nothing or `id` is expanded, and `id` is expanded iff it was not before |
| `Home.CarouselPages` | src/pages/Home.tsx:412 | `max(1, ceil(n/3))`: exactly one page (one dot) without videos, otherwise the fewest pages of three that hold `n` videos; also the number of dots |
| `Home.ShowArrows` | src/pages/Home.tsx:454 | arrows appear iff there are more than 3 videos, which is iff there is more than one page |
| `Home.StepIndex` | src/pages/Home.tsx:133-135 | right is `min(i+1, pages-1)`, left is `max(i-1, 0)`; an index in `[0, pages)` stays there |
| `Home.StepInverse` | src/pages/Home.tsx:133-135 | a right step and a left step undo each other away from the ends |
| `Home.StepsRightSaturate` | src/pages/Home.tsx:133-134 | `k` right steps from `i` reach `min(i+k, pages-1)` |
| `Home.CategoryForTab` | src/pages/Home.tsx:99-107 | the five tabs map in order to definition, location, history, reason and method; any other tab maps to method |
| `Home.CategoryForTabInjective` | src/pages/Home.tsx:99-105 | distinct tabs ask for distinct categories |
| `Home.NextFeatured` | src/pages/Home.tsx:116-126 | a non-empty matched result wins; otherwise the popular result if present; otherwise unchanged; the result is empty only if a query returned an empty list or nothing changed an empty list |
| `Home.ShortsShown` | src/pages/Home.tsx:344 | at most 5 shorts, a prefix of the list, all of them when there are at most 5 |
| `Home.BooksShown` | src/pages/Home.tsx:562 | at most 4 books, a prefix of the list, all of them when there are at most 4 |
| `Home.BookLayoutAlternates` | src/pages/Home.tsx:573 | the first book card is not mirrored and neighbouring cards alternate |
| `HomeState.HomePage.constructor` | src/pages/Home.tsx:25-32 | initial state: no videos, first dot, `'How?'` tab, no featured questions |
| `HomeState.HomePage.LoadPopularVideos` | src/pages/Home.tsx:90 | the videos are replaced only when the query returned data |
| `HomeState.HomePage.ScrollVideoCarousel` | src/pages/Home.tsx:129-136 | without the carousel element nothing changes; otherwise the index steps, and an index on a page stays on a page |
| `HomeState.HomePage.FilterQuestionsByTab` | src/pages/Home.tsx:97-126 | queries the tab's category and applies the featured fallback rule |
| `HomeState.HomePage.SelectQuestionTab` | src/pages/Home.tsx:45-47 | a different tab re-runs the tab query; the same tab changes nothing |

## Left out

- Backend access is not modelled: `supabase.from(...)` and `createClient`.
  Each response is an input value. Query semantics are not modelled: row
  ranges, ordering by date or view count, `limit`, and the `ilike`/tag match
  of the tab query. `FetchWindow` gives only the row window that a load
  asks for.
- Async interleaving is not modelled. The load is a guarded start step and
  a finish step, run in order. In the page the guard reads `isLoading` from
  the render's closure, so two clicks in one render could both pass it. The
  model does not capture that.
- Intermediate renders are not modelled. When the tab or the items change,
  the filter effect first runs with the previous category, and runs again
  after the category resets. Only the settled state is modelled.
- Text.ToLower: lower-cases ASCII capitals only. JavaScript's `toLowerCase`
  also folds non-ASCII letters.
- Library numbers are unbounded integers. JavaScript numbers are doubles,
  but the counts here are small.
- Home.CategoryForTab: covers the map's own keys and unknown strings.
  Inherited object keys such as `'constructor'` are not modelled. Only the
  five tab strings ever reach the lookup.
- `loadFeaturedContent` is backend plumbing. Only its popular-videos
  assignment is modelled, because the carousel depends on it. Shorts, books,
  audios and articles are assigned the same way.
- Nothing is left out of the Questions display: the page renders the whole
  filtered list with no slicing, which is `filtered` itself.
- `formatDate` is not modelled. It depends on JavaScript date parsing and
  the local time zone.
- Pixel scrolling (`scrollTo`, `scrollLeft`, the 400px step) is DOM state
  and is not modelled.
- The `IntersectionObserver` lazy-media latch and the scroll-reveal
  animation are DOM callbacks and are not modelled.
- Share links, the contact and volunteer forms, navigation, routing, static
  pages, styling, and the icon and colour switches are not modelled. They
  are presentation or foreign calls.
- Discarding a response that arrives after the page unmounts is not
  modelled. The code has no such handling.
