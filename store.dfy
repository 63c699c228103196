/** The question table as the two writing endpoints see it: `POST /questions`
    inserts a row under the next id of the table's sequence, and
    `DELETE /questions/<id>` removes the row with that primary key. */
module Store {
  import opened Common
  import opened Responses
  import opened Records

  /** The fields of a `POST /questions` body. */
  datatype NewQuestion = NewQuestion(question: string, answer: string, category: int, difficulty: int)

  /** The test deleting by primary key applies to each row. */
  function IdIsNot(id: int): Question -> bool {
    (q: Question) => q.id != id
  }

  /** The table once the row with primary key `id` is gone. */
  function Without(questions: seq<Question>, id: int): (r: seq<Question>)
    ensures id !in Ids(r)
    ensures forall q :: q in r <==> q in questions && q.id != id
  {
    Filter(questions, IdIsNot(id))
  }

  /** Under the primary-key constraint deleting a present id removes exactly
      one row, and the remaining rows keep their order. */
  lemma WithoutRemovesOne(questions: seq<Question>, id: int)
    requires UniqueIds(questions) && id in Ids(questions)
    ensures |Without(questions, id)| == |questions| - 1
    ensures UniqueIds(Without(questions, id))
  {
    FilterKeepsUniqueIds(questions, IdIsNot(id));
    WithoutLength(questions, id);
  }

  /** The counting half of `WithoutRemovesOne`, by induction from the back. */
  lemma {:induction false} WithoutLength(questions: seq<Question>, id: int)
    requires UniqueIds(questions) && id in Ids(questions)
    ensures |Filter(questions, IdIsNot(id))| == |questions| - 1
  {
    var n := |questions|;
    var init, last := questions[..n - 1], questions[n - 1];
    assert questions == init + [last];
    FilterSnoc(init, last, IdIsNot(id));
    if last.id == id {
      forall q | q in init ensures IdIsNot(id)(q) {
        var i :| 0 <= i < |init| && init[i] == q;
        assert questions[i].id != questions[n - 1].id;
      }
      FilterKeepsAll(init, IdIsNot(id));
    } else {
      assert UniqueIds(init) by {
        forall i, j | 0 <= i < j < |init| ensures init[i].id != init[j].id {
          assert init[i] == questions[i] && init[j] == questions[j];
        }
      }
      var q :| q in questions && q.id == id;
      assert q in init;
      WithoutLength(init, id);
    }
  }

  /** Appending a row under a fresh id keeps the primary-key constraint, and
      looking that id up finds the new row. */
  lemma {:induction false} AppendFreshIsFound(questions: seq<Question>, q: Question)
    requires UniqueIds(questions) && q.id !in Ids(questions)
    ensures UniqueIds(questions + [q])
    ensures FindById(questions + [q], q.id) == Some(q)
  {
    if questions != [] {
      var tail := questions[1..];
      assert questions == [questions[0]] + tail;
      assert (questions + [q])[1..] == tail + [q];
      assert q.id !in Ids(tail) by {
        forall p | p in tail ensures p.id != q.id { assert p in questions; }
      }
      AppendFreshIsFound(tail, q);
    }
  }

  class QuestionStore {
    /** The rows of the question table, in insertion order. */
    var questions: seq<Question>
    /** The next value of the table's id sequence. */
    var nextId: int

    ghost predicate Valid()
      reads this
    {
      && UniqueIds(questions)
      && forall q :: q in questions ==> q.id < nextId
    }

    /** An empty table whose sequence starts at 1. */
    constructor ()
      ensures Valid()
      ensures questions == [] && nextId == 1
    {
      questions := [];
      nextId := 1;
    }

    /** `POST /questions`. `body` is `None` when building or inserting the row
        raises inside the `try`: the parsed JSON is not an object (so `get`
        fails), or the table refuses the fields. Nothing is written then and
        the answer is 422. Otherwise one row is appended under an id no stored
        row has, and that id is returned. */
    method AddQuestion(body: Option<NewQuestion>) returns (r: Outcome<int>)
      requires Valid()
      modifies this
      ensures Valid()
      ensures body.None? ==>
        && r == Error(Unprocessable)
        && questions == old(questions) && nextId == old(nextId)
      ensures body.Some? ==>
        && r.Success?
        && r.payload !in Ids(old(questions))
        && questions == old(questions) + [Question(r.payload, body.value.question, body.value.answer,
                                                   body.value.category, body.value.difficulty)]
        && FindById(questions, r.payload) == Some(questions[|questions| - 1])
        && nextId > old(nextId)
    {
      if body.None? {
        return Error(Unprocessable);
      }
      var fields := body.value;
      var question := Question(nextId, fields.question, fields.answer, fields.category, fields.difficulty);
      assert question.id !in Ids(questions);
      AppendFreshIsFound(questions, question);
      questions := questions + [question];
      nextId := nextId + 1;
      r := Success(question.id);
    }

    /** `DELETE /questions/<id>`. The route's `int` converter accepts only
        unsigned digits, so `id` is a `nat`. A missing row makes the lookup
        return `None`, whose `delete()` raises: the answer is 422 and the table
        is unchanged. Otherwise exactly that row is removed and its id is
        returned. */
    method DeleteQuestion(id: nat) returns (r: Outcome<int>)
      requires Valid()
      modifies this
      ensures Valid()
      ensures nextId == old(nextId)
      ensures id !in Ids(old(questions)) ==> r == Error(Unprocessable) && questions == old(questions)
      ensures id in Ids(old(questions)) ==>
        && r == Success(id)
        && questions == Without(old(questions), id)
        && |questions| == |old(questions)| - 1
      ensures FindById(questions, id) == None
    {
      var question := FindById(questions, id);
      if question.None? {
        return Error(Unprocessable);
      }
      WithoutRemovesOne(questions, id);
      questions := Without(questions, id);
      r := Success(id);
    }
  }
}
