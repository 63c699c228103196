/** The stored entities and the derived values every response is built from:
    questions, categories, the formatted projection of a question, the
    id -> type mapping of categories and the case-insensitive text match that
    the search endpoint asks the database for. */
module Records {
  import opened Common

  /** A stored trivia question; `id` is the primary key. */
  datatype Question = Question(id: int, question: string, answer: string, category: int, difficulty: int)

  /** A stored category; `kind` is the column the source calls `type`. */
  datatype Category = Category(id: int, kind: string)

  /** The dictionary `question.format()` produces for a response. */
  datatype Formatted = Formatted(id: int, question: string, answer: string, category: int, difficulty: int)

  function Format(q: Question): Formatted {
    Formatted(q.id, q.question, q.answer, q.category, q.difficulty)
  }

  /** Formatting every question of `qs`, in order. */
  function FormatAll(qs: seq<Question>): (r: seq<Formatted>)
    ensures |r| == |qs|
    ensures forall i :: 0 <= i < |qs| ==> r[i] == Format(qs[i])
    ensures forall q :: q in qs ==> Format(q) in r
    ensures forall f :: f in r ==> exists q :: q in qs && Format(q) == f
  {
    if qs == [] then []
    else
      var init, last := qs[..|qs| - 1], qs[|qs| - 1];
      assert qs == init + [last];
      FormatAll(init) + [Format(last)]
  }

  /** Formatting one more question appends its dict: the step of the loop
      that formats by appending. */
  lemma FormatAllSnoc(qs: seq<Question>, q: Question)
    ensures FormatAll(qs + [q]) == FormatAll(qs) + [Format(q)]
  {
    assert (qs + [q])[..|qs|] == qs;
  }

  /** The ids of the stored questions. */
  function Ids(qs: seq<Question>): set<int> {
    set q | q in qs :: q.id
  }

  /** The primary-key constraint of the question table. */
  ghost predicate UniqueIds(qs: seq<Question>) {
    forall i, j :: 0 <= i < j < |qs| ==> qs[i].id != qs[j].id
  }

  /** Filtering keeps the primary-key constraint. */
  lemma {:induction false} FilterKeepsUniqueIds(questions: seq<Question>, keep: Question -> bool)
    requires UniqueIds(questions)
    ensures UniqueIds(Filter(questions, keep))
  {
    if questions != [] {
      var init, last := questions[..|questions| - 1], questions[|questions| - 1];
      assert questions == init + [last];
      FilterKeepsUniqueIds(init, keep);
      FilterSnoc(init, last, keep);
      var kept := Filter(init, keep);
      forall i | 0 <= i < |kept| ensures kept[i].id != last.id {
        assert kept[i] in init;
      }
    }
  }

  /** Under the primary-key constraint no question is stored twice, so the
      table has as many rows as distinct questions. */
  lemma {:induction false} UniqueIdsCardinality(qs: seq<Question>)
    requires UniqueIds(qs)
    ensures |set q | q in qs| == |qs|
  {
    if qs != [] {
      var init, last := qs[..|qs| - 1], qs[|qs| - 1];
      assert qs == init + [last];
      UniqueIdsCardinality(init);
      assert last !in init by {
        forall i | 0 <= i < |init| ensures init[i] != last { assert qs[i].id != qs[|qs| - 1].id; }
      }
      assert (set q | q in qs) == (set q | q in init) + {last};
    }
  }

  /** `Question.query.filter(Question.id == id).one_or_none()`. */
  function FindById(qs: seq<Question>, id: int): (r: Option<Question>)
    ensures r.Some? <==> id in Ids(qs)
    ensures r.Some? ==> r.value in qs && r.value.id == id
  {
    if qs == [] then None
    else if qs[0].id == id then Some(qs[0])
    else
      assert qs == [qs[0]] + qs[1..];
      FindById(qs[1..], id)
  }

  /** The primary-key constraint of the category table. */
  ghost predicate UniqueCategoryIds(cs: seq<Category>) {
    forall i, j :: 0 <= i < j < |cs| ==> cs[i].id != cs[j].id
  }

  /** The dictionary comprehension `{c.id: c.type for c in cs}`: every category
      id is a key, and a key maps to the type of its last category in `cs`. */
  function CategoryMap(cs: seq<Category>): (m: map<int, string>)
    ensures m.Keys == set c | c in cs :: c.id
    ensures forall i :: 0 <= i < |cs| && (forall j :: i < j < |cs| ==> cs[j].id != cs[i].id) ==> m[cs[i].id] == cs[i].kind
  {
    if cs == [] then map[]
    else
      var init, last := cs[..|cs| - 1], cs[|cs| - 1];
      assert cs == init + [last];
      CategoryMap(init)[last.id := last.kind]
  }

  /** Under the primary-key constraint every category maps to its own type. */
  lemma {:induction false} CategoryMapOfUnique(cs: seq<Category>)
    requires UniqueCategoryIds(cs)
    ensures forall c :: c in cs ==> c.id in CategoryMap(cs) && CategoryMap(cs)[c.id] == c.kind
  {
    forall c | c in cs
      ensures c.id in CategoryMap(cs) && CategoryMap(cs)[c.id] == c.kind
    {
      var i :| 0 <= i < |cs| && cs[i] == c;
      assert forall j :: i < j < |cs| ==> cs[j].id != cs[i].id;
    }
  }

  /** The mapping does not depend on the order the categories come in, so
      fetching them `order_by(Category.type)` yields the same mapping. */
  lemma {:induction false} CategoryMapOrderIrrelevant(a: seq<Category>, b: seq<Category>)
    requires UniqueCategoryIds(a) && UniqueCategoryIds(b)
    requires multiset(a) == multiset(b)
    ensures CategoryMap(a) == CategoryMap(b)
  {
    forall c ensures c in a <==> c in b {
      assert c in a <==> c in multiset(a);
      assert c in b <==> c in multiset(b);
    }
    CategoryMapOfSameElements(a, b);
  }

  lemma {:induction false} CategoryMapOfSameElements(a: seq<Category>, b: seq<Category>)
    requires UniqueCategoryIds(a) && UniqueCategoryIds(b)
    requires forall c :: c in a <==> c in b
    ensures CategoryMap(a) == CategoryMap(b)
  {
    var ma, mb := CategoryMap(a), CategoryMap(b);
    CategoryMapOfUnique(a);
    CategoryMapOfUnique(b);
    assert ma.Keys == mb.Keys;
  }

  /** ASCII lower-casing of one character. */
  function LowerChar(c: char): char {
    if 'A' <= c <= 'Z' then (c as int - 'A' as int + 'a' as int) as char else c
  }

  function Lower(s: string): string {
    seq(|s|, i requires 0 <= i < |s| => LowerChar(s[i]))
  }

  /** `sub` occurs in `text` starting at position `i`. */
  predicate OccursAt(text: string, sub: string, i: int) {
    0 <= i && i + |sub| <= |text| && text[i..i + |sub|] == sub
  }

  /** `sub` occurs in `text` as a contiguous piece. */
  predicate Contains(text: string, sub: string) {
    exists i :: 0 <= i <= |text| && OccursAt(text, sub, i)
  }

  /** `text ILIKE '%' || term || '%'`, with `%` and `_` in `term` taken literally. */
  predicate MatchesIgnoringCase(text: string, term: string) {
    Contains(Lower(text), Lower(term))
  }

  /** The empty term matches every text, the empty one included. */
  lemma EmptyTermMatches(text: string)
    ensures MatchesIgnoringCase(text, "")
  {
    assert OccursAt(Lower(text), Lower(""), 0);
  }

  /** Lower-casing a term first does not change what it matches: the match
      depends only on the lower-cased term, and lower-casing is idempotent. */
  lemma {:induction false} LowerCasedTermMatchesAlike(text: string, term: string)
    ensures MatchesIgnoringCase(text, Lower(term)) == MatchesIgnoringCase(text, term)
  {
    forall i | 0 <= i < |term| ensures Lower(Lower(term))[i] == Lower(term)[i] {
      var c := term[i];
      if 'A' <= c <= 'Z' {
        assert 'a' <= LowerChar(c) <= 'z';
      }
    }
    assert Lower(Lower(term)) == Lower(term);
  }
}
