/** The Questions page's component state: the loaded questions, their
    category list, the filter inputs with the filtered list kept in step by
    the filter effect, and the one expanded question. */
module QuestionsState {
  import opened Wrappers
  import opened Records
  import opened Questions

  class QuestionsPage {
    var questions: seq<Question>
    var filtered: seq<Question>
    var searchTerm: string
    var selectedCategory: string
    var expandedId: Option<string>
    var categories: seq<string>

    /** The filtered list agrees with its inputs; the category list is empty
        before the first load and derived from the loaded data after it. */
    ghost predicate Valid()
      reads this
    {
      && filtered == FilterQuestions(questions, selectedCategory, searchTerm)
      && ((questions == [] && categories == []) || categories == CategoryList(questions))
    }

    /** The page as first rendered, before the load completes. */
    constructor ()
      ensures Valid()
      ensures questions == [] && filtered == [] && categories == []
      ensures searchTerm == "" && selectedCategory == AllCategories && expandedId == None
    {
      questions := [];
      filtered := [];
      searchTerm := "";
      selectedCategory := AllCategories;
      expandedId := None;
      categories := [];
    }

    /** `loadQuestions` with the response taken as an input: when data came
        back, it replaces the questions and the category list is rebuilt
        (the selected category is kept); when it did not, nothing changes. */
    method LoadQuestions(data: Option<seq<Question>>)
      requires Valid()
      modifies this
      ensures Valid()
      ensures searchTerm == old(searchTerm) && selectedCategory == old(selectedCategory)
      ensures expandedId == old(expandedId)
      ensures data.None? ==> questions == old(questions) && categories == old(categories) && filtered == old(filtered)
      ensures data.Some? ==> questions == data.value && categories == CategoryList(data.value)
    {
      if data.Some? {
        questions := data.value;
        categories := CategoryList(data.value);
        filtered := FilterQuestions(questions, selectedCategory, searchTerm);
      }
    }

    /** The search box. */
    method SetSearchTerm(term: string)
      requires Valid()
      modifies this`searchTerm, this`filtered
      ensures Valid()
      ensures searchTerm == term
    {
      if term != searchTerm {
        searchTerm := term;
        filtered := FilterQuestions(questions, selectedCategory, searchTerm);
      }
    }

    /** A category button. */
    method SelectCategory(category: string)
      requires Valid()
      modifies this`selectedCategory, this`filtered
      ensures Valid()
      ensures selectedCategory == category
    {
      if category != selectedCategory {
        selectedCategory := category;
        filtered := FilterQuestions(questions, selectedCategory, searchTerm);
      }
    }

    /** A click on a question's header. */
    method ToggleExpand(id: string)
      modifies this`expandedId
      ensures expandedId == Toggled(old(expandedId), id)
      ensures expandedId == Some(id) <==> old(expandedId) != Some(id)
      ensures expandedId == None || expandedId == Some(id)
    {
      expandedId := Toggled(expandedId, id);
    }
  }
}
