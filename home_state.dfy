/** The Home page's component state that its handlers update: the video
    list the carousel shows, the carousel's dot index, the selected
    question tab and the featured questions. */
module HomeState {
  import opened Wrappers
  import opened Records
  import opened Home

  class HomePage {
    var popularVideos: seq<LibraryItem>
    var videoCarouselIndex: int
    var questionTab: string
    var featuredQuestions: seq<Question>

    /** The carousel's dot index names one of its pages. */
    ghost predicate IndexInRange()
      reads this
    {
      0 <= videoCarouselIndex < CarouselPages(|popularVideos|)
    }

    /** The page as first rendered: no videos, the first dot, the `'How?'`
        tab and no featured questions yet. */
    constructor ()
      ensures popularVideos == [] && videoCarouselIndex == 0
      ensures questionTab == "How?" && featuredQuestions == []
      ensures IndexInRange()
    {
      popularVideos := [];
      videoCarouselIndex := 0;
      questionTab := "How?";
      featuredQuestions := [];
    }

    /** The popular-videos part of `loadFeaturedContent`: set only when the
        query returned data. */
    method LoadPopularVideos(videos: Option<seq<LibraryItem>>)
      modifies this`popularVideos
      ensures popularVideos == if videos.Some? then videos.value else old(popularVideos)
    {
      if videos.Some? {
        popularVideos := videos.value;
      }
    }

    /** The index logic of `scrollVideoCarousel` for an arrow click, with the
        page count the carousel renders. Without a mounted carousel element
        nothing changes; otherwise the index steps and stays on a page. */
    method ScrollVideoCarousel(direction: Direction, carouselMounted: bool)
      modifies this`videoCarouselIndex
      ensures !carouselMounted ==> videoCarouselIndex == old(videoCarouselIndex)
      ensures carouselMounted ==>
        videoCarouselIndex == StepIndex(old(videoCarouselIndex), direction, CarouselPages(|popularVideos|))
      ensures old(IndexInRange()) ==> IndexInRange()
    {
      if !carouselMounted {
        return;
      }
      var pages := CarouselPages(|popularVideos|);
      videoCarouselIndex := StepIndex(videoCarouselIndex, direction, pages);
    }

    /** `filterQuestionsByTab` with both query results taken as inputs:
        returns the category the tab asks the backend for and applies the
        fallback rule. */
    method FilterQuestionsByTab(matched: Option<seq<Question>>, popular: Option<seq<Question>>)
      returns (category: string)
      modifies this`featuredQuestions
      ensures category == CategoryForTab(questionTab)
      ensures featuredQuestions == NextFeatured(old(featuredQuestions), matched, popular)
    {
      category := CategoryForTab(questionTab);
      featuredQuestions := NextFeatured(featuredQuestions, matched, popular);
    }

    /** A question-tab button: a different tab re-runs the tab query;
        choosing the current tab again changes nothing. */
    method SelectQuestionTab(tab: string, matched: Option<seq<Question>>, popular: Option<seq<Question>>)
      modifies this`questionTab, this`featuredQuestions
      ensures questionTab == tab
      ensures tab == old(questionTab) ==> featuredQuestions == old(featuredQuestions)
      ensures tab != old(questionTab) ==>
        featuredQuestions == NextFeatured(old(featuredQuestions), matched, popular)
    {
      if tab != questionTab {
        questionTab := tab;
        var _ := FilterQuestionsByTab(matched, popular);
      }
    }
  }
}
