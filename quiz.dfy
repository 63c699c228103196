/** `POST /quizzes`: pick a random question of the chosen category (or of all
    categories, for id 0) that has not been asked yet, and warn when fewer
    than five such questions remain. */
module Quiz {
  import opened Common
  import opened Responses
  import opened Records
  import opened Handlers

  /** Below this many available questions a quiz cannot be finished. */
  const QUIZ_LENGTH: nat := 5

  const SHORT_QUIZ_WARNING := "Warning: Available questions are not up to 5. You cannot finish the quiz!"

  /** The body of a quiz response. */
  datatype QuizTurn = QuizTurn(question: Formatted, warning: Option<string>)

  /** The questions the quiz draws from: all of them for category id 0, else
      those of that category. */
  function Pool(questions: seq<Question>, categoryId: int): seq<Question> {
    if categoryId == 0 then questions else Filter(questions, InCategory(categoryId))
  }

  /** The test the `append` loop applies to each pooled question. */
  function Unseen(previous: seq<int>): Question -> bool {
    (q: Question) => q.id !in previous
  }

  /** A question the quiz may still ask. */
  predicate Eligible(q: Question, categoryId: int, previous: seq<int>) {
    q.id !in previous && (categoryId == 0 || q.category == categoryId)
  }

  /** The pool minus the questions already asked, in store order: every
      eligible stored question as often as it is stored, and nothing else. */
  function Available(questions: seq<Question>, categoryId: int, previous: seq<int>): (r: seq<Question>)
    ensures forall q :: q in r <==> q in questions && Eligible(q, categoryId, previous)
    ensures forall q :: multiset(r)[q] == if Eligible(q, categoryId, previous) then multiset(questions)[q] else 0
  {
    var pool := Pool(questions, categoryId);
    FilterCounts(pool, Unseen(previous));
    FilterCounts(questions, InCategory(categoryId));
    Filter(pool, Unseen(previous))
  }

  /** The number of questions the warning counts: with unique ids, exactly the
      stored questions that are eligible. */
  lemma {:induction false} AvailableCount(questions: seq<Question>, categoryId: int, previous: seq<int>)
    requires UniqueIds(questions)
    ensures |Available(questions, categoryId, previous)| ==
      |set q | q in questions && Eligible(q, categoryId, previous)|
  {
    var r := Available(questions, categoryId, previous);
    FilterKeepsUniqueIds(questions, InCategory(categoryId));
    FilterKeepsUniqueIds(Pool(questions, categoryId), Unseen(previous));
    assert (set q | q in r) == (set q | q in questions && Eligible(q, categoryId, previous));
    UniqueIdsCardinality(r);
  }

  /** The handler. `previous` and `quizCategory` are the request's
      `previous_questions` and `quiz_category["id"]`; `None` stands for a
      missing field, which raises when used and ends in 422. The random choice
      is modelled as an arbitrary pick among the available questions; picking
      from none raises and ends in 422 too. */
  method Play(questions: seq<Question>, previous: Option<seq<int>>, quizCategory: Option<int>)
    returns (r: Outcome<QuizTurn>)
    ensures previous.None? || quizCategory.None? ==> r == Error(Unprocessable)
    ensures previous.Some? && quizCategory.Some? ==>
      var available := Available(questions, quizCategory.value, previous.value);
      && (r.Error? <==> available == [])
      && (r.Success? ==>
            && r.payload.question in FormatAll(available)
            && r.payload.warning == (if |available| < QUIZ_LENGTH then Some(SHORT_QUIZ_WARNING) else None))
    ensures r.Error? ==> r.code == Unprocessable
    ensures r.Success? ==>
      && r.payload.question in FormatAll(questions)
      && r.payload.question.id !in previous.value
      && (quizCategory.value != 0 ==> r.payload.question.category == quizCategory.value)
  {
    if previous.None? || quizCategory.None? {
      return Error(Unprocessable);
    }
    var seen, categoryId := previous.value, quizCategory.value;
    var pool := Pool(questions, categoryId);
    var available: seq<Question> := [];
    for i := 0 to |pool|
      invariant available == Filter(pool[..i], Unseen(seen))
    {
      FilterSnoc(pool[..i], pool[i], Unseen(seen));
      assert pool[..i + 1] == pool[..i] + [pool[i]];
      if pool[i].id !in seen {
        available := available + [pool[i]];
      }
    }
    assert pool[..|pool|] == pool;
    if |available| == 0 {
      return Error(Unprocessable);
    }
    var k :| 0 <= k < |available|;
    var chosen := available[k];
    assert chosen in available;
    var warning := if |available| < QUIZ_LENGTH then Some(SHORT_QUIZ_WARNING) else None;
    r := Success(QuizTurn(Format(chosen), warning));
  }
}
