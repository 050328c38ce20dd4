# Trivia API backend: a Dafny model of its handlers

This project models the request handlers of the trivia quiz backend, a Flask
application in `backend/flaskr/__init__.py`. The backend stores questions
(text, answer, category, difficulty) and categories (a `type` label). It
serves them through REST endpoints: list a page of questions, search them,
create or delete one, list a category's questions, create a category, and
draw a random quiz question that has not been served yet.

The database tables become a `Store` class. Its `questions` and `categories`
fields are sequences of rows, and two counters hand out fresh ids.
`Store.Valid()` is the invariant: ids start at 1, strictly increase along
each table, and stay below their counter. So the table order is id order, and
`order_by(Question.id)` (lines 55 and 115) changes nothing. The other queries
have no `order_by` and do not fix an order; the model answers them in table
order too (see "## Left out"). The logic inside each handler is
written as functions with lemmas:

- `Pagination`: Python slice semantics and the 10-question page window.
- `Search`: SQL `ILIKE '%term%'`, with `%` and `_` as wildcards and ASCII case folding.
- `Records`: filtering, lookup by id and deletion by id.
- `Quiz`: pool selection and `get_random_question`.

`get_random_question` is an imperative `for` loop that calls `list.remove`,
and it is modelled as a method with a loop. The handlers that change the
tables are methods with `modifies this`.

The model makes these choices:

- Request fields are parameters. A body field the request lacks is `None`. The
  handler stores such a field as NULL, so every column but the id is an `Option`.
- Database inserts and deletes can raise for schema reasons that are not
  visible here. That case is a boolean parameter (`insertSucceeds`,
  `commitSucceeds`). If it is false, the handler answers 422 (`Unprocessable`)
  and the store is left as it was, as after a rollback.
- `random.choice` is a nondeterministic pick (`:|`). The model promises only
  that the pick comes from the remaining pool.
- An exception that no handler catches is `ServerError` (Flask's 500).
  Examples are a ValueError from `list.remove` and an AttributeError from
  `.get` on a non-object `quiz_category.type`.
- `page` follows full Python slice semantics. Page 0 is always empty, so it is
  a 404. A negative page counts from the end of the list and can be non-empty:
  with 25 questions, page -1 shows questions 5 to 14.
- Absent or non-integer `page` arguments become 1, as `request.args.get('page', 1, type=int)` does.
- `Question.category == None` compiles to `IS NULL` in SQLAlchemy. So a quiz
  category object without an `id` selects the questions that have no category.
- An empty page is a 404. A category with no questions is a success with an
  empty list. The check `questions is None` at line 168 can never fire,
  because `.all()` always returns a list. The model keeps both behaviours.

## Model

| member | source | states |
|---|---|---|
| Records.FindQuestion | backend/flaskr/__init__.py:82-84 | the lookup finds no question exactly when no row has the id; a found question is a row with that id |
| Records.FindCategory | backend/flaskr/__init__.py:161-163 | the lookup finds no category exactly when no row has the id; a found category is a row with that id |
| Records.WithoutQuestion | backend/flaskr/__init__.py:86 | after a delete, the remaining rows are exactly the old rows whose id differs, and there are no more of them than before |
| Records.WithoutQuestionKeepsIdOrder | backend/flaskr/__init__.py:86-91 | deleting a row keeps the table in id order |
| Records.WithoutQuestionRemovesOne | backend/flaskr/__init__.py:82-92 | with distinct ids, deleting a present id removes exactly one row, and deleting an absent id leaves the table as it was |
| Handlers.Store.Valid | backend/flaskr/__init__.py:131-135 | the tables' ids are distinct and below their counters, so the next ids handed out are fresh |
| Handlers.Store.constructor | backend/flaskr/__init__.py:15 | the store starts with both tables empty and satisfies the invariant |
| Handlers.PageArgument | backend/flaskr/__init__.py:57 | a missing or non-integer `page` is 1; otherwise it is the given integer |
| Handlers.IsSearch | backend/flaskr/__init__.py:111-114 | an absent or empty search term is not a search, so the request falls through to creation |
| Records.FilterKeepsIdOrder | backend/flaskr/__init__.py:115-116 | a filtered id-ordered list of questions is still id-ordered |
| Pagination.SliceBound | backend/flaskr/__init__.py:62 | a slice bound is clamped into 0..n; a negative bound counts from the end |
| Pagination.PySlice | backend/flaskr/__init__.py:62 | a slice is never an error: it is the stretch between the normalised bounds, or empty when they cross |
| Pagination.PageWindow | backend/flaskr/__init__.py:57-62 | a page holds at most QUESTIONS_PER_PAGE (10) questions; for page >= 1 it is `s[(page-1)*10 .. min(N, page*10))`, it holds min(10, max(0, N-10(page-1))) questions, and it is empty exactly when N <= 10(page-1); page 0 is empty; a negative page counts from the end |
| Pagination.FirstPagesArePrefix | backend/flaskr/__init__.py:57-62 | pages 1..k concatenated are exactly the first 10k questions, so pages neither overlap nor skip a question |
| Pagination.PagesCoverList | backend/flaskr/__init__.py:57-67 | pages 1..ceil(N/10) together are the whole list, and every later page is empty (a 404) |
| Pagination.NegativePageShowsMiddle | backend/flaskr/__init__.py:57-62 | with 25 questions, page -1 is questions 5..14 rather than an error |
| Search.Like | backend/flaskr/__init__.py:115 | SQL LIKE with `%` and `_` as wildcards; a pattern without wildcards matches only the identical text |
| Search.ILike | backend/flaskr/__init__.py:115 | ILIKE folds case on both sides; a pattern without wildcards matches exactly the texts equal to it up to ASCII case |
| Search.SearchPattern | backend/flaskr/__init__.py:115 | the pattern is the term with one `%` before it and one after it |
| Search.Matches | backend/flaskr/__init__.py:115-116 | a question is found only through its text matching the pattern; a NULL text never matches |
| Search.SearchQuestions | backend/flaskr/__init__.py:114-116 | the search returns exactly the questions whose non-NULL text matches `ILIKE '%term%'`, in id order |
| Search.PercentMatchesAll | backend/flaskr/__init__.py:115 | a lone `%` in a LIKE pattern matches every text |
| Search.LiteralThenPercent | backend/flaskr/__init__.py:115 | a wildcard-free literal followed by `%` matches exactly the texts that start with it |
| Search.SurroundedLiteral | backend/flaskr/__init__.py:115 | `%w%`, with w free of wildcards, matches exactly the texts that contain w |
| Search.SearchIsCaseInsensitiveSubstring | backend/flaskr/__init__.py:114-116 | for a term without `%` or `_`, a question is found exactly when its text contains the term, ignoring ASCII case |
| Search.TitleFoundByLowerCase | backend/flaskr/__init__.py:151-155 | a question whose text contains "title" in any case (such as "Title") is found by searching "title" |
| Search.UnderscoreMatchesAnyCharacter | backend/flaskr/__init__.py:115 | the term is not escaped, so searching "_" finds every question with a non-empty text |
| Quiz.QuizPool | backend/flaskr/__init__.py:204-214 | a string `type` pools all questions; an object `type` pools exactly the questions whose category equals its `id`; any other `type` raises |
| Quiz.RemoveEntry | backend/flaskr/__init__.py:192 | removing a previous entry fails for every bare id, because a number never equals a formatted record; a record entry is removed exactly when it is in the pool, leaving one element fewer |
| Quiz.RemoveEach | backend/flaskr/__init__.py:190-192 | when the removal loop succeeds, the pool has lost exactly one element per previous entry |
| Quiz.RemoveFirst | backend/flaskr/__init__.py:192 | `list.remove` succeeds exactly when the element occurs, and then it removes one occurrence (as a multiset) |
| Quiz.RecordsOf | backend/flaskr/__init__.py:191 | the records among the previous entries are exactly the entries sent as records |
| Quiz.RemoveEachSpec | backend/flaskr/__init__.py:189-192 | the removal loop succeeds exactly when every previous entry is a record and together they fit in the pool as a multiset; the pool left is the old pool minus those records |
| Quiz.IdEntryAlwaysFails | backend/flaskr/__init__.py:192 | any previous entry that is a bare id makes the loop raise, whatever the pool holds |
| Quiz.NoPreviousRecordRemains | backend/flaskr/__init__.py:189-196 | when pool ids are distinct, nothing left after a successful loop was sent as a previous record |
| Quiz.RandomQuestion | backend/flaskr/__init__.py:189-196 | the draw raises exactly when the removal loop fails; it returns `[]` exactly when the remaining pool is empty; otherwise it returns a member of the remaining pool |
| Quiz.UnseenPool | backend/flaskr/__init__.py:189-192 | with exclusion by id, the pool keeps exactly the questions whose id was not served |
| Quiz.RandomUnseenQuestion | backend/flaskr/__init__.py:189-196 | with exclusion by id, the draw never fails, never serves a served id, and returns nothing exactly when every pooled id was served |
| Quiz.ServedIdFailsAsWritten | backend/flaskr/__init__.py:192 | sending back the id of a one-question pool makes the source raise, while exclusion by id leaves an empty pool |
| Handlers.Store.ListCategories | backend/flaskr/__init__.py:33-40 | the answer is every category together with their count |
| Handlers.Store.ListQuestions | backend/flaskr/__init__.py:54-75 | the answer is 404 exactly when the page window is empty; otherwise it is that window (1 to 10 questions, in id order), the full question count and all categories; with no `page`, it is the first 10 questions |
| Handlers.Store.QuestionsByCategory | backend/flaskr/__init__.py:160-177 | the answer is 404 exactly when no category has the id; otherwise it is that category and exactly the questions filed under it, with their count (possibly zero) |
| Handlers.Store.PostQuestion | backend/flaskr/__init__.py:109-140 | a non-empty search term answers the search results and their count, and leaves the store unchanged; otherwise the body is appended as one new row under a fresh id that is answered as `created`, and everything else is unchanged; a failed insert is 422 and changes nothing |
| Handlers.Store.DeleteQuestion | backend/flaskr/__init__.py:80-98 | an absent id is 404 and changes nothing; a present id removes exactly that row (one fewer, every other row kept, the id gone) and answers the rest; a failed delete is 422 and changes nothing |
| Handlers.Store.NextQuestion | backend/flaskr/__init__.py:200-220 | an unusable `type` is a 500; with a usable one (a string pools every question), the answer is a 500 exactly when `list.remove` cannot find an entry; otherwise the answer is nothing exactly when the remaining pool is empty, and else a member of the remaining pool |
| Handlers.Store.CreateCategory | backend/flaskr/__init__.py:263-279 | the category is appended under a fresh id that is answered as `created`, the category counter advances, and the question table is unchanged; a failed insert is 422 and changes nothing |
| Handlers.CreateThenListCategories | backend/flaskr/__init__.py:263-277 | creating a category and then listing categories gives one more category: the old ones first, then the new one |

## Left out

- Flask app construction, routing, CORS and the `after_request` headers (lines 12-27) are HTTP plumbing. Request parsing and `jsonify` are too: handlers take the parsed fields and return the payload.
- The bodies of the error handlers (lines 229-259) are constant JSON envelopes. Only the outcome kinds are modelled: Ok, NotFound (404), Unprocessable (422) and ServerError (uncaught, 500). The 400 and 405 handlers are not raised by any handler.
- SQLAlchemy, `setup_db` and the `models` module (`Question`, `Category`, `insert`, `delete`, `format`) are not part of this model. The store is in memory, and `format()` is the row itself.
- Row order of unordered queries: `Question.query.all()` and `filter(...).all()` (lines 91, 136, 165, 205, 213) promise no order. The model answers them in table order, which `Store.Valid()` makes id order, so it fixes one order where the database promises none.
- A request without a JSON body makes `body.get` raise outside the `try` in `create_question` (line 111) and `next_question` (lines 202, 204): an uncaught 500. In `create_category` the `body.get` at line 268 is inside the `try` of line 266, so a missing body is answered 422. The model assumes a body is present.
- The broad `except:` clauses catch ORM exceptions that are not visible here. The only ORM exception modelled is a failing insert or delete, as a boolean parameter.
- Search.Lower: the model folds only ASCII letters. A database whose `ILIKE` folds other letters by locale would match more texts.
- Search.Like: backslash as a LIKE escape character (PostgreSQL's default) is not modelled. `%` and `_` in a term are wildcards, as the unescaped `'%{}%'.format(search)` makes them.
- Handlers.Store.PostQuestion: a search term that is a truthy non-string JSON value, such as a number, is not modelled. The model takes the term as a string.
- Quiz.RandomQuestion: `random.choice` is uniform. The model states membership only, not the distribution.
- Quiz.RemoveFirst: the model states which element is removed as a multiset, not where it stood. The pick is random, so the order of the remaining pool is not observable.
- Quiz.Seen: a `previous_questions` entry is either a number or an object equal to a formatted question. Other JSON values compare unequal to every record, just as numbers do, so `SeenId` stands for them as well.
- Handlers.Store.CreateCategory, Handlers.Store.PostQuestion: a failed insert leaves the id counter as it was. A database sequence may consume an id even when the insert fails. Ids stay fresh either way.
- The constructor builds an empty store. The rows a database starts with are reached through the create operations.
- frontend/src/components/Question.js is React rendering and a visibility toggle, outside the backend.

## Findings

| source | as written | input that shows it | evidently intended | confidence | as-written member | corrected member |
|---|---|---|---|---|---|---|
| backend/flaskr/__init__.py:192 | `questions.remove(previous_question)` compares each entry with whole formatted records, and a number never equals a dict, so a non-empty list of previous question ids makes `list.remove` raise ValueError (an uncaught 500) | `previous_questions = [1]` with question 1 in the pool | drop from the pool the questions whose id was already served, and draw from the rest | medium (callers are described as sending ids; the client code is not part of this model), not executed | Quiz.IdEntryAlwaysFails | Quiz.RandomUnseenQuestion |

`Handlers.Store.NextQuestion` keeps the as-written behaviour, because it
models the code. `Quiz.RandomUnseenQuestion` is the id-based selection. A
corrected handler would call it instead of `RandomQuestion`.
