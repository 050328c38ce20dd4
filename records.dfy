/**
 * The rows of the two tables the handlers work on, the outcome kinds a
 * handler answers with, and the row-level queries (filtering, lookup by id,
 * deletion by id) that the handlers build on.
 */
module Records {
  import opened Wrappers

  /**
   * A row of the questions table, in the flat form `Question.format()` gives.
   * The handler copies request fields into the row without checking them, so
   * every column but the id may be NULL (None).
   */
  datatype Question = Question(
    id: int,
    question: Option<string>,
    answer: Option<string>,
    category: Option<int>,
    difficulty: Option<int>)

  /** A row of the categories table; `kind` is the column named `type`. */
  datatype Category = Category(id: int, kind: Option<string>)

  /**
   * How a handler answers: a success payload, a 404 or 422 envelope, or an
   * exception no handler catches (Flask's 500 response).
   */
  datatype Outcome<T> = Ok(value: T) | NotFound | Unprocessable | ServerError

  /** Question ids strictly increase along the sequence (so they are distinct). */
  predicate QuestionIdsAscending(qs: seq<Question>) {
    forall i, j :: 0 <= i < j < |qs| ==> qs[i].id < qs[j].id
  }

  /** Category ids strictly increase along the sequence (so they are distinct). */
  predicate CategoryIdsAscending(cs: seq<Category>) {
    forall i, j :: 0 <= i < j < |cs| ==> cs[i].id < cs[j].id
  }

  /** The questions of `s` that satisfy `keep`, in their original order: a WHERE clause or a comprehension filter. */
  function Filter(s: seq<Question>, keep: Question -> bool): (r: seq<Question>)
    ensures |r| <= |s|
    ensures forall x :: x in r <==> x in s && keep(x)
  {
    if s == [] then []
    else if keep(s[0]) then [s[0]] + Filter(s[1..], keep)
    else Filter(s[1..], keep)
  }

  /** Filtering an id-ordered list of questions keeps it id-ordered. */
  lemma {:induction false} FilterKeepsIdOrder(qs: seq<Question>, keep: Question -> bool)
    ensures QuestionIdsAscending(qs) ==> QuestionIdsAscending(Filter(qs, keep))
  {
    if qs != [] && QuestionIdsAscending(qs) {
      var tail := qs[1..];
      TailAscending(qs);
      FilterKeepsIdOrder(tail, keep);
      var rest := Filter(tail, keep);
      if keep(qs[0]) {
        ConsAscending(qs[0], rest);
      }
    }
  }

  /**
   * `Question.query.filter(Question.id == id).one_or_none()`: the question
   * with that id, if any. With distinct ids there is at most one, so the
   * MultipleResultsFound case of `one_or_none` cannot arise.
   */
  function FindQuestion(qs: seq<Question>, id: int): (r: Option<Question>)
    ensures r.None? <==> forall q :: q in qs ==> q.id != id
    ensures r.Some? ==> r.value in qs && r.value.id == id
  {
    if qs == [] then None
    else if qs[0].id == id then Some(qs[0])
    else FindQuestion(qs[1..], id)
  }

  /** `Category.query.filter(Category.id == id).first()`: the first category with that id, if any. */
  function FindCategory(cs: seq<Category>, id: int): (r: Option<Category>)
    ensures r.None? <==> forall c :: c in cs ==> c.id != id
    ensures r.Some? ==> r.value in cs && r.value.id == id
  {
    if cs == [] then None
    else if cs[0].id == id then Some(cs[0])
    else FindCategory(cs[1..], id)
  }

  /** The table after `question.delete()`: every question but the one with that id, in order. */
  function WithoutQuestion(qs: seq<Question>, id: int): (r: seq<Question>)
    ensures |r| <= |qs|
    ensures forall q :: q in r <==> q in qs && q.id != id
  {
    if qs == [] then []
    else if qs[0].id == id then WithoutQuestion(qs[1..], id)
    else [qs[0]] + WithoutQuestion(qs[1..], id)
  }

  /** The tail of an id-ordered list is id-ordered, and its ids all exceed the head's. */
  lemma TailAscending(qs: seq<Question>)
    requires qs != [] && QuestionIdsAscending(qs)
    ensures QuestionIdsAscending(qs[1..])
    ensures forall q :: q in qs[1..] ==> qs[0].id < q.id
  {
  }

  /** Deleting by id keeps the table id-ordered. */
  lemma {:induction false} WithoutQuestionKeepsIdOrder(qs: seq<Question>, id: int)
    requires QuestionIdsAscending(qs)
    ensures QuestionIdsAscending(WithoutQuestion(qs, id))
  {
    if qs != [] {
      TailAscending(qs);
      WithoutQuestionKeepsIdOrder(qs[1..], id);
      if qs[0].id != id {
        ConsAscending(qs[0], WithoutQuestion(qs[1..], id));
      }
    }
  }

  /** Putting a question with a smaller id than all others in front keeps a list id-ordered. */
  lemma ConsAscending(head: Question, rest: seq<Question>)
    requires QuestionIdsAscending(rest)
    requires forall q :: q in rest ==> head.id < q.id
    ensures QuestionIdsAscending([head] + rest)
  {
  }

  /**
   * Deleting by id removes exactly one row when the id is present (ids being
   * distinct), and nothing when it is absent.
   */
  lemma {:induction false} WithoutQuestionRemovesOne(qs: seq<Question>, id: int)
    requires QuestionIdsAscending(qs)
    ensures FindQuestion(qs, id).Some? ==> |WithoutQuestion(qs, id)| == |qs| - 1
    ensures FindQuestion(qs, id).None? ==> WithoutQuestion(qs, id) == qs
  {
    if qs != [] {
      TailAscending(qs);
      WithoutQuestionRemovesOne(qs[1..], id);
      if qs[0].id == id {
        assert FindQuestion(qs[1..], id).None?;
      } else {
        assert FindQuestion(qs, id) == FindQuestion(qs[1..], id);
      }
    }
  }
}
