# Trivia API: a verified model of the query and selection logic

This project models the Flask backend of a trivia game in Dafny. The backend
serves questions grouped into categories, and its endpoints do the following:

- list the questions ten per page, together with the category mapping;
- search the question texts for a term, ignoring case;
- list the questions of one category;
- add a question, and delete one by id;
- play a quiz, which returns a random question that has not been asked yet
  and warns when fewer than five are left;
- turn aborted requests into JSON error envelopes.

The database is modelled as in-memory sequences in store order: questions
with a unique `id`, and categories. The read-only endpoints are functions over
those sequences, or methods where the source loops (`PaginateQuestions`,
`Play`). The two endpoints that write are methods of the class
`Store.QuestionStore`. This class owns the question rows and the id sequence,
and its invariant `Valid()` states the primary-key constraint and that every
id is below the next one the sequence will hand out. Every endpoint returns an
`Outcome`: either `Success(payload)` or `Error(code)`, where the code is 400,
404 or 422.

Modules:
- `Common`: `Option`, `Filter` (the meaning of a comprehension with an `if`,
  and of a filtering `append` loop) and Python's slice semantics (`PySlice`).
- `Responses`: error codes, outcomes and the three error handlers.
- `Records`: questions, categories, `format()`, lookup by id, the category
  mapping and case-insensitive matching.
- `Pagination`: `paginate_questions`.
- `Handlers`: the categories, listing, search and category-filter endpoints.
- `Quiz`: the `play` endpoint.
- `Store`: the create and delete endpoints.

Three behaviours of the code differ from what a reader might expect, and the
model keeps them:
- `get_categories` never answers 404. `Category.query.all()` is never `None`,
  and the comprehension cannot raise, so the model succeeds with an empty
  mapping when there are no categories.
- The empty search term matches every question, including one whose text is
  empty, because `ILIKE '%%'` matches the empty string.
- Picking from an empty quiz pool is not a crash that reaches the client. The
  bare `except` turns it into 422.

## Model

| member | source | states |
|---|---|---|
| `Common.Filter` | backend/flaskr/__init__.py:219-221 | The result holds exactly the elements of the input that pass the test, and it is no longer than the input. |
| `Common.FilterCounts` | backend/flaskr/__init__.py:219-221 | Every element that passes the test occurs in the result as often as in the input, and every other element does not occur. |
| `Common.FilterSelectsInOrder` | backend/flaskr/__init__.py:219-221 | The result is the input's passing elements at strictly increasing positions, and every passing position is selected, so the input's order is kept. |
| `Common.PySlice` | backend/flaskr/__init__.py:20 | `s[start:end]` with Python's rules. Negative bounds count from the end. Bounds are clamped to the sequence, so slicing never fails. The length is the gap between the normalised bounds, and the k-th element is the one at the normalised start plus k. |
| `Records.FormatAll` | backend/flaskr/__init__.py:17-19 | One formatted dict per question, in the same order. Every question's dict is in the result, and every dict in the result comes from a question. |
| `Records.FindById` | backend/flaskr/__init__.py:118 | `one_or_none` on the primary key. It finds a row exactly when the id is stored, and the row it returns is stored under that id. |
| `Records.CategoryMap` | backend/flaskr/__init__.py:63 | The keys are exactly the stored category ids. A key maps to the type of the last category with that id, which is how a dict comprehension behaves. |
| `Records.CategoryMapOfUnique` | backend/flaskr/__init__.py:63 | When category ids are unique, every category's id maps to its own type. |
| `Records.CategoryMapOrderIrrelevant` | backend/flaskr/__init__.py:93-101 | Two orderings of the same categories give the same mapping, so sorting by type does not change the listing's mapping. |
| `Records.EmptyTermMatches` | backend/flaskr/__init__.py:179 | `'%' + '' + '%'` matches every text, the empty one included. |
| `Records.LowerCasedTermMatchesAlike` | backend/flaskr/__init__.py:179 | A term and its lower-cased form match the same texts. |
| `Pagination.PageOf` | backend/flaskr/__init__.py:13-20 | No page holds more than 10 items. For page p >= 1, the page is the `min(10, max(0, len - 10(p-1)))` items that start at index `10(p-1)`. Page 0 is empty. |
| `Pagination.PageAfterEndIsEmpty` | backend/flaskr/__init__.py:14-20 | A page that starts past the end is empty, not an error. |
| `Pagination.NegativePageCountsFromEnd` | backend/flaskr/__init__.py:13-20 | A negative page number reads ten items counted from the end of the list, as Python slicing does. |
| `Pagination.FirstPagesArePrefix` | backend/flaskr/__init__.py:14-20 | Pages 1..n placed end to end are exactly the first `10n` items. Nothing is dropped, repeated or reordered. |
| `Pagination.PagesReconstructAll` | backend/flaskr/__init__.py:14-20 | Enough pages placed end to end give back the whole formatted list. |
| `Pagination.PaginateQuestions` | backend/flaskr/__init__.py:12-21 | The `append` loop returns the full formatted list in store order. The page it returns is that list's page `page`. |
| `Handlers.GetCategories` | backend/flaskr/__init__.py:52-69 | Always succeeds. The keys are exactly the stored category ids, and with unique ids each key maps to its category's type. |
| `Handlers.GetQuestions` | backend/flaskr/__init__.py:84-106 | Always succeeds. It returns the requested page of all formatted questions, `total_questions` = the size of the whole collection (not of the page), the category mapping and a null `current_category`. |
| `Handlers.Search` | backend/flaskr/__init__.py:174-195 | Every result is a stored question whose text contains the term, ignoring case. Every stored question that matches is returned. The results are the formatted matches in store order, each as often as it is stored. `total_questions` is the number of results, and `current_category` is null. A missing term or zero matches gives 404, and only these do. |
| `Handlers.SearchIgnoresCase` | backend/flaskr/__init__.py:178-180 | Two terms that lower-case alike give the same outcome (so `TITLE` and `title` search alike). |
| `Handlers.SearchEmptyTermListsAll` | backend/flaskr/__init__.py:177-192 | The empty term returns every stored question, or 404 when the store is empty. |
| `Handlers.GetQuestionsByCategory` | backend/flaskr/__init__.py:207-227 | Every result is a stored question of that category, and no question of that category is left out. The results are in store order, each as often as it is stored. `total_questions` is the number of results, and `current_category` echoes the id. An empty category succeeds. A segment that cannot be compared with the integer column gives 422, and only that does. |
| `Quiz.Available` | backend/flaskr/__init__.py:250-263 | A question is available exactly when it is stored, it is not in `previous_questions`, and, for a category id other than 0, it is in that category. Each available question occurs as often as it is stored. |
| `Quiz.AvailableCount` | backend/flaskr/__init__.py:250-265 | With unique ids, the number the warning compares with 5 is the number of distinct stored questions that are still eligible. |
| `Quiz.Play` | backend/flaskr/__init__.py:242-281 | A missing field gives 422. Otherwise the request fails (422) exactly when no question is available, and succeeds otherwise. On success the question is an available one: stored, not previously asked, and in the category unless the id is 0. The warning is present exactly when fewer than 5 questions are available. |
| `Store.Without` | backend/flaskr/__init__.py:118-121 | After deleting an id, no row has that id, and every other row is kept. |
| `Store.WithoutRemovesOne` | backend/flaskr/__init__.py:118-123 | With unique ids, deleting a present id removes exactly one row and keeps the ids unique. |
| `Store.AppendFreshIsFound` | backend/flaskr/__init__.py:149-158 | Inserting a row under a fresh id keeps the ids unique, and looking that id up finds the new row. |
| `Store.QuestionStore.AddQuestion` | backend/flaskr/__init__.py:140-160 | A body whose row cannot be built or inserted gives 422 and changes nothing. Otherwise exactly one row with the given fields is appended under an id no stored row had, the id is returned as `created`, and looking it up finds that row. |
| `Store.QuestionStore.DeleteQuestion` | backend/flaskr/__init__.py:117-126 | The id is a non-negative integer, as the route's converter demands. An absent id gives 422 and leaves the table unchanged. A present id removes exactly that row (one fewer row, all others in order) and returns it as `deleted`. Afterwards, looking the id up finds nothing. |
| `Responses.HandlerFor` | backend/flaskr/__init__.py:289-302 | Exactly 400, 404 and 422 have a registered handler, and each status is dispatched to the error of that status. |
| `Responses.ErrorEnvelope` | backend/flaskr/__init__.py:289-302 | Every error envelope has `success: false` and the error's own status. The message is "unprocessable" for 422 and "bad request" for both 400 and 404. |
| `Responses.EnvelopeIdentifiesError` | backend/flaskr/__init__.py:289-302 | Two envelopes have the same status exactly when they come from the same error, even though 400 and 404 share a message. |

## Left out

- Flask application construction, routing, CORS and the `after_request` header injection (backend/flaskr/__init__.py:26-43) are transport plumbing.
- `models.py`, SQLAlchemy and the database are not part of this model. Tables are in-memory sequences. Queries without `ORDER BY` return rows in store order.
- Storage failures (a lost connection, a failing query) are not modelled. This is the only way the listing endpoint's `except` (422) could fire.
- Handlers.Search: matches the term as a plain substring after ASCII lower-casing. SQL `ILIKE` would treat `%` and `_` inside the term as wildcards, and lower-cases according to the database collation.
- Quiz.Play: the random choice is an arbitrary pick among the available questions. Its distribution is not modelled.
- Request parsing (`request.get_json`, `body.get`, the `type=int` coercion of `page`) is left out. Each handler takes typed inputs. For search and play, a missing field is `None`, and it leads to the error the bare `except` produces (404 and 422).
- Handlers.GetQuestionsByCategory: takes the category as an integer, or `None` for a path segment the database cannot compare with the integer column. The source echoes the raw path string as `current_category`, and the model echoes the integer.
- Store.QuestionStore.AddQuestion: which bodies the table refuses is decided by `models.py` and the schema, neither of which is part of this model. A refused body is passed in as `None`. A body with absent fields passes them on as null, and the model does not represent rows with null fields. A body that is not valid JSON fails in `request.get_json()` (backend/flaskr/__init__.py:142), before the `try`, and is answered 400; this is not modelled.
- Store.QuestionStore.DeleteQuestion: a negative or non-numeric id does not match the route (backend/flaskr/__init__.py:116) and is answered 404 by routing; the model takes only non-negative ids.
- The checks `is None` on query results (backend/flaskr/__init__.py:55, 87, 213) and on the tuple at backend/flaskr/__init__.py:248 can never fire, so they are not modelled as checks.
- The category table is read-only in the source, so it is a sequence passed to the read endpoints and has no class.
- Concurrency and transactions: each handler runs alone against one snapshot of the store.
- backend/test_flaskr.py (database set-up and HTTP calls) is used only as evidence for the properties above.
