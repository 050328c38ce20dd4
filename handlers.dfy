/**
 * The request handlers of the Flask app, over an in-memory store that stands
 * for the two database tables. Request parsing and JSON shaping are left to
 * the caller: each handler takes the request's fields and returns the
 * payload of its response.
 */
module Handlers {
  import opened Wrappers
  import opened Records
  import opened Pagination
  import opened Search
  import opened Quiz

  /** The payload of `GET /categories`. */
  datatype CategoryList = CategoryList(categories: seq<Category>, totalCategories: nat)

  /** The payload of `GET /questions` (`current_category` is always null). */
  datatype QuestionPage = QuestionPage(questions: seq<Question>, totalQuestions: nat, categories: seq<Category>)

  /** The body of `POST /questions`; a field the body lacks is None. */
  datatype QuestionBody = QuestionBody(
    searchTerm: Option<string>,
    question: Option<string>,
    answer: Option<string>,
    category: Option<int>,
    difficulty: Option<int>)

  /** The two payloads of `POST /questions`. */
  datatype PostReply =
    | SearchReply(questions: seq<Question>, totalQuestions: nat)
    | CreatedReply(created: int, questions: seq<Question>, totalQuestions: nat)

  /** The payload of `DELETE /questions/<id>` (`currentCategory` is always null). */
  datatype DeleteReply = DeleteReply(deleted: int, questions: seq<Question>, totalQuestions: nat, categories: seq<Category>)

  /** The payload of `GET /categories/<id>/questions`. */
  datatype CategoryQuestions = CategoryQuestions(questions: seq<Question>, category: Category, totalQuestions: nat)

  /** The payload of `POST /categories`. */
  datatype CategoryCreated = CategoryCreated(created: int, categories: seq<Category>, totalCategories: nat)

  /** `if search:` — a search term that is present and not the empty string. */
  predicate IsSearch(body: QuestionBody)
    ensures body.searchTerm.None? ==> !IsSearch(body)
    ensures body.searchTerm == Some("") ==> !IsSearch(body)
    ensures IsSearch(body) ==> |body.searchTerm.value| > 0
  {
    body.searchTerm.Some? && body.searchTerm.value != ""
  }

  /** The `page` query argument: 1 when absent or not an integer. */
  function PageArgument(page: Option<int>): (r: int)
    ensures page.None? ==> r == 1
    ensures page.Some? ==> r == page.value
  {
    page.GetOr(1)
  }

  class Store {
    /** The questions table, in insertion order. */
    var questions: seq<Question>
    /** The categories table, in insertion order. */
    var categories: seq<Category>
    /** The id the next inserted question receives. */
    var nextQuestionId: int
    /** The id the next inserted category receives. */
    var nextCategoryId: int

    /**
     * Ids are handed out by increasing counters starting at 1, so both tables
     * are in id order and ids never repeat.
     */
    ghost predicate Valid()
      reads this
      ensures Valid() ==> forall i, j :: 0 <= i < j < |questions| ==> questions[i].id != questions[j].id
      ensures Valid() ==> FindQuestion(questions, nextQuestionId).None? && FindCategory(categories, nextCategoryId).None?
    {
      && 1 <= nextQuestionId && 1 <= nextCategoryId
      && QuestionIdsAscending(questions) && CategoryIdsAscending(categories)
      && (forall q :: q in questions ==> 1 <= q.id < nextQuestionId)
      && (forall c :: c in categories ==> 1 <= c.id < nextCategoryId)
    }

    constructor ()
      ensures Valid()
      ensures questions == [] && categories == []
    {
      questions, categories := [], [];
      nextQuestionId, nextCategoryId := 1, 1;
    }

    /** `get_categories`: every category and how many there are. */
    function ListCategories(): (r: CategoryList)
      reads this
      ensures r.categories == categories && r.totalCategories == |r.categories|
    {
      CategoryList(categories, |categories|)
    }

    /**
     * `get_questions`: the page window over the id-ordered questions; an empty
     * window is a 404, never an empty success.
     */
    function ListQuestions(page: Option<int>): (r: Outcome<QuestionPage>)
      reads this
      ensures r.Ok? || r.NotFound?
      ensures r.NotFound? <==> PageWindow(questions, PageArgument(page)) == []
      ensures r.Ok? ==> r.value.questions == PageWindow(questions, PageArgument(page))
      ensures r.Ok? ==> 1 <= |r.value.questions| <= QuestionsPerPage
      ensures r.Ok? ==> r.value.totalQuestions == |questions| && r.value.categories == categories
      ensures r.Ok? && Valid() ==> QuestionIdsAscending(r.value.questions)
      ensures page.None? && questions != [] ==> r.Ok? && r.value.questions == questions[..Min(|questions|, QuestionsPerPage)]
    {
      var window := PageWindow(questions, PageArgument(page));
      if window == [] then NotFound
      else Ok(QuestionPage(window, |questions|, categories))
    }

    /**
     * `question_by_category`: 404 only when no category has the id; otherwise
     * every question filed under it, an empty list included.
     */
    function QuestionsByCategory(id: int): (r: Outcome<CategoryQuestions>)
      reads this
      ensures r.Ok? || r.NotFound?
      ensures r.NotFound? <==> forall c :: c in categories ==> c.id != id
      ensures r.Ok? ==> r.value.category in categories && r.value.category.id == id
      ensures r.Ok? ==> forall q :: q in r.value.questions <==> q in questions && q.category == Some(id)
      ensures r.Ok? ==> r.value.totalQuestions == |r.value.questions|
      ensures r.Ok? && Valid() ==> QuestionIdsAscending(r.value.questions)
    {
      match FindCategory(categories, id)
      case None => NotFound
      case Some(category) =>
        FilterKeepsIdOrder(questions, (q: Question) => q.category == Some(id));
        var found := Filter(questions, (q: Question) => q.category == Some(id));
        Ok(CategoryQuestions(found, category, |found|))
    }

    /**
     * `create_question`. With a search term it answers the id-ordered matches
     * and changes nothing. Otherwise it inserts the body's fields, unchecked,
     * as a new row under a fresh id; when the insert raises (`insertSucceeds`
     * false) the answer is 422 and nothing changes.
     */
    method PostQuestion(body: QuestionBody, insertSucceeds: bool) returns (r: Outcome<PostReply>)
      requires Valid()
      modifies this
      ensures Valid()
      ensures IsSearch(body) ==>
        && unchanged(this)
        && r.Ok? && r.value.SearchReply?
        && r.value.questions == SearchQuestions(questions, body.searchTerm.value)
        && r.value.totalQuestions == |r.value.questions|
      ensures !IsSearch(body) && insertSucceeds ==>
        && var created := Question(old(nextQuestionId), body.question, body.answer, body.category, body.difficulty);
        && FindQuestion(old(questions), created.id).None?
        && questions == old(questions) + [created]
        && |questions| == |old(questions)| + 1
        && categories == old(categories) && nextCategoryId == old(nextCategoryId)
        && nextQuestionId > old(nextQuestionId)
        && r == Ok(CreatedReply(created.id, questions, |questions|))
      ensures !IsSearch(body) && !insertSucceeds ==> unchanged(this) && r == Unprocessable
    {
      if IsSearch(body) {
        var found := SearchQuestions(questions, body.searchTerm.value);
        return Ok(SearchReply(found, |found|));
      }
      if !insertSucceeds {
        return Unprocessable;
      }
      var created := Question(nextQuestionId, body.question, body.answer, body.category, body.difficulty);
      assert FindQuestion(questions, created.id).None?;
      questions := questions + [created];
      nextQuestionId := nextQuestionId + 1;
      r := Ok(CreatedReply(created.id, questions, |questions|));
    }

    /**
     * `delete_question`: 404 when no question has the id; otherwise the row is
     * deleted and the rest answered. When the delete raises (`commitSucceeds`
     * false) the answer is 422 and nothing changes.
     */
    method DeleteQuestion(id: int, commitSucceeds: bool) returns (r: Outcome<DeleteReply>)
      requires Valid()
      modifies this
      ensures Valid()
      ensures FindQuestion(old(questions), id).None? ==> unchanged(this) && r == NotFound
      ensures FindQuestion(old(questions), id).Some? && !commitSucceeds ==> unchanged(this) && r == Unprocessable
      ensures FindQuestion(old(questions), id).Some? && commitSucceeds ==>
        && questions == WithoutQuestion(old(questions), id)
        && |questions| == |old(questions)| - 1
        && (forall q :: q in old(questions) && q.id != id ==> q in questions)
        && FindQuestion(questions, id).None?
        && categories == old(categories)
        && nextQuestionId == old(nextQuestionId) && nextCategoryId == old(nextCategoryId)
        && r == Ok(DeleteReply(id, questions, |questions|, categories))
    {
      var question := FindQuestion(questions, id);
      if question.None? {
        return NotFound;
      }
      if !commitSucceeds {
        return Unprocessable;
      }
      WithoutQuestionKeepsIdOrder(questions, id);
      WithoutQuestionRemovesOne(questions, id);
      questions := WithoutQuestion(questions, id);
      r := Ok(DeleteReply(id, questions, |questions|, categories));
    }

    /**
     * `next_question`: picks the pool named by `quiz_category.type` and hands
     * it to `get_random_question`. A `type` that is neither a string nor an
     * object, and a ValueError from `list.remove`, are uncaught (500).
     */
    method NextQuestion(previous: seq<Seen>, kind: QuizType) returns (r: Outcome<Option<Question>>)
      ensures r.Ok? || r.ServerError?
      ensures kind.Other? ==> r.ServerError?
      ensures !kind.Other? ==> (r.Ok? <==> RemoveEach(QuizPool(questions, kind).value, previous).Some?)
      ensures r.Ok? ==> QuizPool(questions, kind).Some?
      ensures r.Ok? ==> var remaining := RemoveEach(QuizPool(questions, kind).value, previous);
        && remaining.Some?
        && (r.value.None? <==> remaining.value == [])
        && (r.value.Some? ==> r.value.value in remaining.value)
    {
      var pool := QuizPool(questions, kind);
      if pool.None? {
        return ServerError;
      }
      var drawn := RandomQuestion(previous, pool.value);
      match drawn
      case RemoveFailed => r := ServerError;
      case Exhausted => r := Ok(None);
      case Drawn(q) => r := Ok(Some(q));
    }

    /**
     * `create_category`: inserts a category with the given `type` under a
     * fresh id; when the insert raises the answer is 422 and nothing changes.
     */
    method CreateCategory(kind: Option<string>, insertSucceeds: bool) returns (r: Outcome<CategoryCreated>)
      requires Valid()
      modifies this
      ensures Valid()
      ensures insertSucceeds ==>
        && var created := Category(old(nextCategoryId), kind);
        && FindCategory(old(categories), created.id).None?
        && categories == old(categories) + [created]
        && |categories| == |old(categories)| + 1
        && questions == old(questions) && nextQuestionId == old(nextQuestionId)
        && nextCategoryId > old(nextCategoryId)
        && r == Ok(CategoryCreated(created.id, categories, |categories|))
      ensures !insertSucceeds ==> unchanged(this) && r == Unprocessable
    {
      if !insertSucceeds {
        return Unprocessable;
      }
      var created := Category(nextCategoryId, kind);
      assert FindCategory(categories, created.id).None?;
      categories := categories + [created];
      nextCategoryId := nextCategoryId + 1;
      r := Ok(CategoryCreated(created.id, categories, |categories|));
    }
  }

  /** Creating a category and then listing the categories shows one more category, the new one last. */
  method CreateThenListCategories(store: Store, kind: Option<string>) returns (before: CategoryList, after: CategoryList)
    requires store.Valid()
    modifies store
    ensures store.Valid()
    ensures |before.categories| == before.totalCategories && |after.categories| == after.totalCategories
    ensures after.totalCategories == before.totalCategories + 1
    ensures after.categories[..before.totalCategories] == before.categories
    ensures after.categories[before.totalCategories].kind == kind
  {
    before := store.ListCategories();
    var created := store.CreateCategory(kind, true);
    after := store.ListCategories();
  }
}
