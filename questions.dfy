/** The Questions page's pure list logic: the category-then-search filter
    behind `filterQuestions`, the category list built in `loadQuestions`,
    and the single-slot expand/collapse toggle. */
module Questions {
  import opened Wrappers
  import opened Seqs
  import opened Text
  import opened Records

  /** Category stage: exact equality unless `'All'` is selected. */
  predicate InCategory(category: string, q: Question) {
    category == AllCategories || q.category == category
  }

  /** Search stage for an already lower-cased term: the question text, the
      answer text or some tag contains it, ignoring ASCII case. The category
      text is not searched. */
  predicate SearchHit(q: Question, term: string) {
    Includes(ToLower(q.question), term) ||
    Includes(ToLower(q.answer), term) ||
    exists k :: 0 <= k < |q.tags| && Includes(ToLower(q.tags[k]), term)
  }

  /** An empty search term is no filter at all. */
  predicate MatchesSearch(q: Question, searchTerm: string) {
    searchTerm == "" || SearchHit(q, ToLower(searchTerm))
  }

  predicate Keep(category: string, searchTerm: string, q: Question) {
    InCategory(category, q) && MatchesSearch(q, searchTerm)
  }

  function Criteria(category: string, searchTerm: string): Question -> bool {
    q => Keep(category, searchTerm, q)
  }

  /** `filterQuestions`: narrow by category, then by search term, each stage
      skipped when inactive. The page lists the whole result; there is no
      pagination. */
  function FilterQuestions(questions: seq<Question>, category: string, searchTerm: string)
    : (r: seq<Question>)
    ensures |r| <= |questions|
    ensures forall q :: q in r ==> q in questions && InCategory(category, q)
    ensures category != AllCategories ==> forall q :: q in r ==> q.category == category
  {
    var byCategory :=
      if category != AllCategories then Filter(questions, (q: Question) => q.category == category)
      else questions;
    if searchTerm != "" then
      var term := ToLower(searchTerm);
      Filter(byCategory, (q: Question) => SearchHit(q, term))
    else byCategory
  }

  /** The staged filter is a single pass with the conjunction of both
      criteria. */
  lemma FilterQuestionsOnePass(questions: seq<Question>, category: string, searchTerm: string)
    ensures FilterQuestions(questions, category, searchTerm) == Filter(questions, Criteria(category, searchTerm))
  {
    var a := (q: Question) => InCategory(category, q);
    var ab := Criteria(category, searchTerm);
    if category != AllCategories {
      FilterCongruent(questions, (q: Question) => q.category == category, a);
    } else {
      FilterKeepsAll(questions, a);
    }
    var byCategory :=
      if category != AllCategories then Filter(questions, (q: Question) => q.category == category)
      else questions;
    assert byCategory == Filter(questions, a);
    if searchTerm != "" {
      var term := ToLower(searchTerm);
      FilterFuse(questions, a, (q: Question) => SearchHit(q, term), ab);
    } else {
      FilterCongruent(questions, a, ab);
    }
  }

  /** The filter only drops questions and keeps the relative order of the
      rest. */
  lemma FilterQuestionsKeepsOrder(questions: seq<Question>, category: string, searchTerm: string)
    ensures IsSubsequence(FilterQuestions(questions, category, searchTerm), questions)
  {
    FilterQuestionsOnePass(questions, category, searchTerm);
    FilterIsSubsequence(questions, Criteria(category, searchTerm));
  }

  /** A question is kept (with all its copies) exactly when it is in the
      category and matches the search; otherwise no copy is kept. */
  lemma FilterQuestionsCount(questions: seq<Question>, category: string, searchTerm: string, q: Question)
    ensures multiset(FilterQuestions(questions, category, searchTerm))[q] ==
      if InCategory(category, q) && MatchesSearch(q, searchTerm) then multiset(questions)[q] else 0
  {
    FilterQuestionsOnePass(questions, category, searchTerm);
    FilterCount(questions, Criteria(category, searchTerm), q);
  }

  /** With a non-empty term, a listed question is kept exactly when it is
      in the category and the lower-cased term occurs in its lower-cased
      question text, answer text or one of its tags. */
  lemma FilterQuestionsSearch(questions: seq<Question>, category: string, searchTerm: string, q: Question)
    requires searchTerm != ""
    ensures q in FilterQuestions(questions, category, searchTerm) <==>
      q in questions && InCategory(category, q) &&
      (Includes(ToLower(q.question), ToLower(searchTerm)) ||
       Includes(ToLower(q.answer), ToLower(searchTerm)) ||
       exists k :: 0 <= k < |q.tags| && Includes(ToLower(q.tags[k]), ToLower(searchTerm)))
  {
    FilterQuestionsOnePass(questions, category, searchTerm);
    FilterMembership(questions, Criteria(category, searchTerm), q);
  }

  /** The filter returns the list unchanged exactly when every question
      passes both stages; in particular `'All'` with an empty term is the
      identity. */
  lemma FilterQuestionsIdentity(questions: seq<Question>, category: string, searchTerm: string)
    ensures FilterQuestions(questions, category, searchTerm) == questions <==>
      forall i :: 0 <= i < |questions| ==> Keep(category, searchTerm, questions[i])
    ensures FilterQuestions(questions, AllCategories, "") == questions
  {
    FilterQuestionsOnePass(questions, category, searchTerm);
    FilterKeepsAll(questions, Criteria(category, searchTerm));
  }

  /** The "no questions found" message appears exactly when no question
      is in the category and matches the search. */
  lemma FilterQuestionsEmpty(questions: seq<Question>, category: string, searchTerm: string)
    ensures FilterQuestions(questions, category, searchTerm) == [] <==>
      forall i :: 0 <= i < |questions| ==> !Keep(category, searchTerm, questions[i])
  {
    FilterQuestionsOnePass(questions, category, searchTerm);
    FilterEmpty(questions, Criteria(category, searchTerm));
  }

  /** The `if (searchTerm)` guard only saves work: an empty term occurs in
      every question text, so searching for it would keep every question. */
  lemma MatchesSearchGuard(q: Question, searchTerm: string)
    ensures MatchesSearch(q, searchTerm) <==> SearchHit(q, ToLower(searchTerm))
  {
    if searchTerm == "" {
      assert ToLower(searchTerm) == "";
      IncludesEmpty(ToLower(q.question));
    }
  }

  /** Filtering the filtered list again with the same criteria changes
      nothing. */
  lemma FilterQuestionsIdempotent(questions: seq<Question>, category: string, searchTerm: string)
    ensures FilterQuestions(FilterQuestions(questions, category, searchTerm), category, searchTerm) ==
      FilterQuestions(questions, category, searchTerm)
  {
    var once := FilterQuestions(questions, category, searchTerm);
    FilterQuestionsOnePass(questions, category, searchTerm);
    FilterQuestionsOnePass(once, category, searchTerm);
    FilterIdempotent(questions, Criteria(category, searchTerm));
  }

  /** The category selector's entries after a load: `'All'`, then every
      distinct category of the data once, empty strings included. A data
      category literally named `'All'` is not merged with the sentinel. */
  function CategoryList(data: seq<Question>): (r: seq<string>)
    ensures |r| >= 1 && r[0] == AllCategories
    ensures NoDuplicates(r[1..])
    ensures forall i :: 0 <= i < |data| ==> data[i].category in r[1..]
    ensures forall c :: c in r[1..] ==> exists i :: 0 <= i < |data| && data[i].category == c
  {
    var d := Distinct(Map(data, QuestionCategory));
    var r := [AllCategories] + d;
    assert r[1..] == d;
    assert forall c :: c in d ==> c in Map(data, QuestionCategory);
    r
  }

  /** The categories after `'All'` appear in the order in which they are
      first seen in the data. */
  lemma CategoryListFirstSeen(data: seq<Question>)
    ensures forall i, j :: 1 <= i < j < |CategoryList(data)| ==>
      var r := CategoryList(data);
      r[i] in Map(data, QuestionCategory) && r[j] in Map(data, QuestionCategory) &&
      FirstIndex(Map(data, QuestionCategory), r[i]) < FirstIndex(Map(data, QuestionCategory), r[j])
  {
    var cs := Map(data, QuestionCategory);
    var r := CategoryList(data);
    DistinctFirstSeenOrder(cs);
    assert r[1..] == Distinct(cs);
    forall i, j | 1 <= i < j < |r|
      ensures r[i] in cs && r[j] in cs && FirstIndex(cs, r[i]) < FirstIndex(cs, r[j])
    {
      assert r[i] == Distinct(cs)[i - 1] && r[j] == Distinct(cs)[j - 1];
    }
  }

  /** `toggleExpand(id)`: collapse `id` if it is the expanded question,
      otherwise expand it (collapsing any other). At most one question is
      ever expanded. */
  function Toggled(expandedId: Option<string>, id: string): (r: Option<string>)
    ensures r == None || r == Some(id)
    ensures r == Some(id) <==> expandedId != Some(id)
  {
    if expandedId == Some(id) then None else Some(id)
  }

  /** Toggling the same question twice restores the previous state when
      that question was the expanded one or none was; when another was
      expanded, the second toggle leaves all collapsed. */
  lemma ToggledTwice(expandedId: Option<string>, id: string)
    ensures Toggled(Toggled(expandedId, id), id) ==
      if expandedId == Some(id) || expandedId == None then expandedId else None
  {
  }
}
