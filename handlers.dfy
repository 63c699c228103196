/** The read-only endpoints. Each takes the rows its queries would return
    (the questions of the store in store order, the categories) and yields the
    outcome the endpoint responds with. */
module Handlers {
  import opened Common
  import opened Responses
  import opened Records
  import opened Pagination

  /** The body of `GET /questions`. */
  datatype Listing = Listing(
    questions: seq<Formatted>,
    totalQuestions: nat,
    categories: map<int, string>,
    currentCategory: Option<int>)

  /** The body of the search and the category-filter endpoints. */
  datatype Results = Results(questions: seq<Formatted>, totalQuestions: nat, currentCategory: Option<int>)

  /** `GET /categories`: the mapping from every stored category id to its type.
      The query's list is never `None` and the comprehension cannot raise, so
      the endpoint always succeeds, even with no categories at all. */
  function GetCategories(categories: seq<Category>): (r: Outcome<map<int, string>>)
    ensures r.Success?
    ensures r.payload.Keys == set c | c in categories :: c.id
    ensures UniqueCategoryIds(categories) ==>
      forall c :: c in categories ==> r.payload[c.id] == c.kind
  {
    assert UniqueCategoryIds(categories) ==>
      forall c :: c in categories ==> CategoryMap(categories)[c.id] == c.kind
    by {
      if UniqueCategoryIds(categories) { CategoryMapOfUnique(categories); }
    }
    Success(CategoryMap(categories))
  }

  /** `GET /questions?page=p`: the requested page of the formatted questions,
      the size of the whole collection, the category mapping and a null
      current category. `categories` may come in any order (the source sorts
      them by type); by `CategoryMapOrderIrrelevant` the mapping is the same. */
  method GetQuestions(questions: seq<Question>, categories: seq<Category>, page: int) returns (r: Outcome<Listing>)
    ensures r.Success?
    ensures r.payload.questions == PageOf(FormatAll(questions), page)
    ensures r.payload.totalQuestions == |questions|
    ensures r.payload.categories == CategoryMap(categories)
    ensures r.payload.currentCategory == None
  {
    var current, all := PaginateQuestions(page, questions);
    r := Success(Listing(current, |all|, CategoryMap(categories), None));
  }

  /** The filter the search query applies to each question. */
  function MatchesTerm(term: string): Question -> bool {
    (q: Question) => MatchesIgnoringCase(q.question, term)
  }

  /** `POST /questions/search`: every question whose text contains the term,
      ignoring case, formatted and unpaginated, each once and in store order. A missing term (the
      concatenation with `None` raises) and an empty result both end in 404. */
  function Search(questions: seq<Question>, searchTerm: Option<string>): (r: Outcome<Results>)
    ensures r.Error? ==> r.code == NotFound
    ensures r.Error? <==>
      searchTerm.None? || forall q :: q in questions ==> !MatchesIgnoringCase(q.question, searchTerm.value)
    ensures r.Success? ==>
      && r.payload.totalQuestions == |r.payload.questions|
      && r.payload.currentCategory == None
      && (forall f :: f in r.payload.questions ==>
            f in FormatAll(questions) && MatchesIgnoringCase(f.question, searchTerm.value))
      && (forall q :: q in questions && MatchesIgnoringCase(q.question, searchTerm.value) ==>
            Format(q) in r.payload.questions)
      && r.payload.questions == FormatAll(Filter(questions, MatchesTerm(searchTerm.value)))
  {
    match searchTerm
    case None => Error(NotFound)
    case Some(term) =>
      var found := Filter(questions, MatchesTerm(term));
      if |found| == 0 then
        Error(NotFound)
      else
        assert found[0] in found;
        Success(Results(FormatAll(found), |found|, None))
  }

  /** Searching is blind to case: terms that lower-case alike give the same outcome. */
  lemma {:induction false} SearchIgnoresCase(questions: seq<Question>, a: string, b: string)
    requires Lower(a) == Lower(b)
    ensures Search(questions, Some(a)) == Search(questions, Some(b))
  {
    FilterCongruent(questions, MatchesTerm(a), MatchesTerm(b));
  }

  /** The empty term matches every question, so it lists the whole collection;
      only an empty collection turns it into 404. */
  lemma {:induction false} SearchEmptyTermListsAll(questions: seq<Question>)
    ensures questions == [] ==> Search(questions, Some("")) == Error(NotFound)
    ensures questions != [] ==>
      Search(questions, Some("")) == Success(Results(FormatAll(questions), |questions|, None))
  {
    forall q | q in questions ensures MatchesTerm("")(q) {
      EmptyTermMatches(q.question);
    }
    FilterKeepsAll(questions, MatchesTerm(""));
  }

  /** The filter the category query applies to each question. */
  function InCategory(categoryId: int): Question -> bool {
    (q: Question) => q.category == categoryId
  }

  /** `GET /categories/<category_id>/questions`: every question of that
      category, formatted and unpaginated, each once and in store order, with
      the id echoed back. `None`
      stands for a path segment the database cannot compare with the integer
      column, which raises and ends in 422. An empty category is a success. */
  function GetQuestionsByCategory(questions: seq<Question>, categoryId: Option<int>): (r: Outcome<Results>)
    ensures r.Error? <==> categoryId.None?
    ensures r.Error? ==> r.code == Unprocessable
    ensures r.Success? ==>
      && r.payload.currentCategory == categoryId
      && r.payload.totalQuestions == |r.payload.questions|
      && (forall f :: f in r.payload.questions ==> f in FormatAll(questions) && f.category == categoryId.value)
      && (forall q :: q in questions && q.category == categoryId.value ==> Format(q) in r.payload.questions)
      && r.payload.questions == FormatAll(Filter(questions, InCategory(categoryId.value)))
  {
    match categoryId
    case None => Error(Unprocessable)
    case Some(id) =>
      var found := Filter(questions, InCategory(id));
      Success(Results(FormatAll(found), |found|, categoryId))
  }
}
