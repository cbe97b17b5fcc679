/** The Home page's list arithmetic: the video carousel's page count and
    index step, the question-tab to category map, the featured-questions
    fallback rule and the display slices of the shorts and books rows. */
module Home {
  import opened Wrappers
  import opened Arith
  import opened Seqs
  import opened Records

  /** Videos per carousel page (one dot each). */
  const VideosPerPage: nat := 3
  /** At most this many shorts are shown. */
  const MaxShorts: nat := 5
  /** At most this many books are shown. */
  const MaxBooks: nat := 4

  // ---------------------------------------------------------------------
  // Video carousel

  /** `Math.max(1, Math.ceil(n / 3))`: the fewest pages of three that hold
      `n` videos, and never fewer than one. It is also the number of dots. */
  function CarouselPages(n: nat): (pages: nat)
    ensures pages >= 1
    ensures n <= pages * VideosPerPage
    ensures n > 0 ==> (pages - 1) * VideosPerPage < n
    ensures n == 0 ==> pages == 1
  {
    Max(1, CeilDiv(n, VideosPerPage))
  }

  /** The carousel arrows are drawn only when there are more than three
      videos, which is exactly when there is more than one page. */
  function ShowArrows(n: nat): (b: bool)
    ensures b <==> CarouselPages(n) > 1
  {
    n > VideosPerPage
  }

  datatype Direction = Left | Right

  /** The index step of `scrollVideoCarousel`: right is `min(i + 1, pages - 1)`,
      left is `max(i - 1, 0)`. */
  function StepIndex(i: int, direction: Direction, pages: int): (j: int)
    ensures 0 <= i < pages ==> 0 <= j < pages
    ensures direction.Right? ==> j <= i + 1 && (i < pages - 1 ==> j == i + 1) && (i >= pages - 1 ==> j == pages - 1)
    ensures direction.Left? ==> j >= i - 1 && (i > 0 ==> j == i - 1) && (i <= 0 ==> j == 0)
  {
    match direction
    case Right => Min(i + 1, pages - 1)
    case Left => Max(i - 1, 0)
  }

  /** A step right and a step left undo each other away from the ends. */
  lemma StepInverse(i: int, pages: int)
    requires 0 <= i < pages
    ensures i < pages - 1 ==> StepIndex(StepIndex(i, Right, pages), Left, pages) == i
    ensures i > 0 ==> StepIndex(StepIndex(i, Left, pages), Right, pages) == i
  {
  }

  /** The index after `k` steps right. */
  function StepsRight(i: int, k: nat, pages: int): int {
    if k == 0 then i else StepIndex(StepsRight(i, k - 1, pages), Right, pages)
  }

  /** Repeated right steps walk one dot at a time and stop at the last
      dot. */
  lemma {:induction false} StepsRightSaturate(i: int, k: nat, pages: int)
    requires 0 <= i < pages
    ensures StepsRight(i, k, pages) == Min(i + k, pages - 1)
  {
    if k > 0 {
      StepsRightSaturate(i, k - 1, pages);
    }
  }

  // ---------------------------------------------------------------------
  // Question tabs

  /** The five question tabs, in display order. */
  const QuestionTabs: seq<string> := ["What?", "Where?", "When?", "Why?", "How?"]

  /** The categories the tabs stand for, in the same order. */
  const TabCategories: seq<string> := ["definition", "location", "history", "reason", "method"]

  const CategoryMap: map<string, string> :=
    map["What?" := "definition", "Where?" := "location", "When?" := "history",
        "Why?" := "reason", "How?" := "method"]

  /** `categoryMap[questionTab] || 'method'`. */
  function CategoryForTab(tab: string): (c: string)
    ensures c in TabCategories
    ensures forall k :: 0 <= k < |QuestionTabs| && QuestionTabs[k] == tab ==> c == TabCategories[k]
    ensures tab !in QuestionTabs ==> c == "method"
  {
    if tab in CategoryMap && CategoryMap[tab] != "" then CategoryMap[tab] else "method"
  }

  /** Distinct tabs ask for distinct categories. */
  lemma CategoryForTabInjective(a: string, b: string)
    requires a in QuestionTabs && b in QuestionTabs && a != b
    ensures CategoryForTab(a) != CategoryForTab(b)
  {
  }

  /** The featured questions after a tab query: the matched questions when
      there are some; otherwise the unfiltered popular questions when that
      query returned data; otherwise unchanged. */
  function NextFeatured(current: seq<Question>, matched: Option<seq<Question>>, popular: Option<seq<Question>>)
    : (r: seq<Question>)
    ensures matched.Some? && matched.value != [] ==> r == matched.value
    ensures (matched.None? || matched.value == []) && popular.Some? ==> r == popular.value
    ensures (matched.None? || matched.value == []) && popular.None? ==> r == current
    ensures r == [] ==>
      (matched.None? || matched.value == []) &&
      (popular == Some([]) || (popular.None? && current == []))
  {
    if matched.Some? && |matched.value| > 0 then matched.value
    else if popular.Some? then popular.value
    else current
  }

  // ---------------------------------------------------------------------
  // Display slices

  /** `popularShorts.slice(0, 5)`. */
  function ShortsShown(shorts: seq<LibraryItem>): (r: seq<LibraryItem>)
    ensures |r| <= MaxShorts && r <= shorts
    ensures |shorts| <= MaxShorts ==> r == shorts
  {
    Take(shorts, MaxShorts)
  }

  /** `popularBooks.slice(0, 4)`. */
  function BooksShown(books: seq<LibraryItem>): (r: seq<LibraryItem>)
    ensures |r| <= MaxBooks && r <= books
    ensures |books| <= MaxBooks ==> r == books
  {
    Take(books, MaxBooks)
  }

  /** A book card at an odd position is laid out mirrored, so neighbouring
      cards alternate. */
  function BookMirrored(idx: nat): bool {
    idx % 2 == 1
  }

  /** The first card is not mirrored and every card differs from the next. */
  lemma BookLayoutAlternates(idx: nat)
    ensures !BookMirrored(0)
    ensures BookMirrored(idx) != BookMirrored(idx + 1)
  {
  }
}
