# Tasks REST API — a verified model

This project models the core of a small task-list application:

- **Server.** A CodeIgniter 4 REST controller, `Tasks`, over a `tasks` table managed by `TaskModel`.
  - Its endpoints: a paginated, filtered, sorted listing, plus create, show, update and delete of one task.
- **Browser.** The part of the script behind the task page that decides things rather than draws them:
  - `esc`, the HTML escaping of titles;
  - `qs`, the query string of a listing request;
  - the pager and filter state `STATE`, and the rules for enabling the prev/next buttons.

## Modules

- **Common** (`common.dfy`): shared values.
  - Request values arrive as decoded JSON.
  - Field names.
  - Decimal digits, PHP's `(int)` cast, which saturates at `PHP_INT_MAX`, and `(string)` rendering.
  - ASCII lower-casing, PHP `trim`, and substring tests.
- **BooleanFilter** (`boolean_filter.dfy`): `filter_var(…, FILTER_VALIDATE_BOOLEAN, FILTER_NULL_ON_FAILURE)`.
  - It reads the loosely typed `completed` value in every endpoint.
- **TaskModel** (`task_model.dfy`): the table.
  - The `Task` record and its validation rules.
  - `class TaskTable`, holding the rows by id and the next auto-increment id, with `Find`, `Insert`, `Update` and `Delete`.
  - It keeps the table invariant: every stored row satisfies the model's rules.
- **TaskQuery** (`task_query.dfy`): what `where`/`like`/`orderBy`/`paginate` returns.
  - The matching rows, sorted by the chosen key (a stable insertion sort), and the window of one page.
- **ListQuery** (`list_query.dfy`): the list endpoint's query handling.
  - The five optional parameters are validated together, then resolved to defaults.
  - The filters, the order, the page count and the `self/next/prev/first/last` links.
  - The `Link` header (web linking, RFC 5988, now RFC 8288).
- **TasksController** (`tasks_controller.dfy`): `class Tasks` with `Index`, `Create`, `Show`, `Update` and `Delete`.
  - Each answers a status, its headers and a body.
  - The lemmas relate the controller's own rules to the table's rules.
- **Client** (`client.dfy`): the browser script's logic.
  - `esc` and its inverse; `qs`.
  - Following a page link.
  - `class Pager` for `STATE` and the four buttons it drives.

## Model

| member | source | states |
|---|---|---|
| Common.NatToStringRoundTrip | app/Controllers/Tasks.php:88-91 | The decimal rendering of a page number, put into a link, parses back to the same number |
| Common.TrimLeft | app/Models/TaskModel.php:55 | `required` looks at the title with PHP's default white space removed: the removed prefix is only such characters and what remains does not start with one |
| Common.TrimRight | app/Models/TaskModel.php:55 | The same for the suffix: the removed suffix is only white space and what remains does not end with it |
| Common.IntCast | app/Controllers/Tasks.php:58-59 | `(int)` of a digit string is its value when that is at most PHP_INT_MAX, and exactly PHP_INT_MAX above it |
| BooleanFilter.FilterStringTokens | app/Controllers/Tasks.php:67 | A string resolves to true exactly for the stripped, case-insensitive tokens 1/true/on/yes, to false exactly for 0/false/off/no/"", and otherwise to null |
| BooleanFilter.FilterBool | app/Controllers/Tasks.php:138-146 | A JSON boolean is taken as is; null resolves to false; the integer 1 to true and 0 to false, other integers to null; strings through the token table; arrays and objects to null |
| TaskModel.InsertErrors | app/Models/TaskModel.php:54-57 | An insert fails on the title exactly when it is missing or breaks required, min_length 3 or max_length 255, and on completed exactly when it is given and neither empty nor 0/1 |
| TaskModel.UpdateErrors | app/Models/TaskModel.php:54-57 | On update only the rules of the fields present apply: a missing title is no error |
| TaskModel.CompletedBit | app/Models/TaskModel.php:56 | A completed value that passes the table's rule is stored as 1 exactly when it reads "1" and as 0 exactly when it reads "0" |
| TaskModel.NewRow | app/Models/TaskModel.php:27-47 | An accepted insert stores a row that keeps the table's rules, under the given id, with both timestamps set to the insert time. completed is the given 0/1, or 0 (the column default) when it is absent. A present but empty completed is also taken as 0 (see Left out) |
| TaskModel.Patched | app/Models/TaskModel.php:27-47 | An accepted update keeps the id and created_at, refreshes updated_at, replaces the title and completed when given (completed as its 0/1; a present but empty completed keeps the old value, see Left out), and keeps the table's rules |
| TaskModel.OnlyAllowedFieldsWritten | app/Models/TaskModel.php:27 | Keys other than title and completed change neither the verdict nor the row written |
| TaskModel.PutKeepsInvariant | app/Models/TaskModel.php:22 | Storing a valid row under its own id keeps the table invariant |
| TaskModel.TaskTable.constructor | tests/_support/Database/Migrations/2025-08-24-120000_CreateTasksTable.php:12-18 | A new table is empty and its next id is 1 |
| TaskModel.TaskTable.Find | app/Controllers/Tasks.php:179-181 | `find` returns the row exactly when the id is stored |
| TaskModel.TaskTable.Insert | app/Controllers/Tasks.php:161-164 | Empty data is refused before validation. Otherwise an insert fails exactly when the model's rules reject the data. Both refusals change nothing. Otherwise it stores the new row under the next id, which was not in use, returns that id, and advances it |
| TaskModel.TaskTable.Update | app/Controllers/Tasks.php:218-220 | An update answers empty data set, rejected with the model's errors, or written. It writes the patched row only when the id exists. It keeps the invariant |
| TaskModel.TaskTable.Delete | app/Controllers/Tasks.php:235 | The row is removed for good and nothing else changes |
| TaskQuery.RowsBelow | app/Controllers/Tasks.php:78 | The table's rows in ascending id order: every row, and only rows of the table |
| TaskQuery.Select | app/Controllers/Tasks.php:66-72 | Keeps exactly the rows that pass the completed and search filters |
| TaskQuery.InOrderTotal | app/Controllers/Tasks.php:74-76 | Any two rows are ordered one way or the other under every sort key and direction |
| TaskQuery.InOrderTransitive | app/Controllers/Tasks.php:74-76 | The order of every sort key and direction is transitive |
| TaskQuery.InsertRow | app/Controllers/Tasks.php:76 | Inserting a row into a sorted sequence gives a sorted permutation of it plus the row |
| TaskQuery.SortRows | app/Controllers/Tasks.php:76 | `orderBy` yields a sorted permutation of the matching rows |
| TaskQuery.Window | app/Controllers/Tasks.php:78 | LIMIT/OFFSET: at most `limit` rows, those from `offset` on, and none past the end |
| TaskQuery.WindowOfSorted | app/Controllers/Tasks.php:78 | A page of a sorted listing is sorted and holds only rows of the listing |
| TaskQuery.Paginate | app/Controllers/Tasks.php:78-81 | A page holds the sorted matching rows from position (page-1)*per_page on: per_page of them, or as many as remain, and none past the last page. They are stored in the table and sorted. The total counts every matching row, ignoring the page |
| ListQuery.Lookup | app/Controllers/Tasks.php:58-62 | The value of a parameter of the PHP array is one given for that key; none means no parameter has that key |
| ListQuery.LastLookup | app/Controllers/Tasks.php:43 | The value a query string gives a key is that of its last entry with that key; none means no entry has the key |
| ListQuery.Assign | app/Controllers/Tasks.php:43 | `$a[k] = v` gives k the value v, leaves every other key alone and repeats no key |
| ListQuery.PhpArray | app/Controllers/Tasks.php:43 | `getGet()` reads the query string into an array with no repeated key, where each key has the value of its last entry |
| ListQuery.DistinctPositions | app/Controllers/Tasks.php:43 | In such an array no two positions hold the same key |
| ListQuery.FirstIsLastWhenDistinct | app/Controllers/Tasks.php:84-90 | When no key repeats, the first and the last entry for a key are the same |
| ListQuery.RepeatedKeyLastWins | app/Controllers/Tasks.php:43-58 | `?page=abc&page=2` is accepted and lists page 2: only the last value is validated and used |
| ListQuery.FailingAmong | app/Controllers/Tasks.php:45-56 | Exactly the listed fields whose present parameter breaks its rule are reported |
| ListQuery.ListErrors | app/Controllers/Tasks.php:45-56 | The list endpoint reports every failing parameter (no short circuit) and only those. A parameter that is absent never fails |
| ListQuery.ValidWhenEachHolds | app/Controllers/Tasks.php:45-56 | A query whose five parameters each pass their rule is accepted |
| ListQuery.Resolve | app/Controllers/Tasks.php:58-62 | A validated query resolves to page 1..PHP_INT_MAX, per_page 1..100, an accepted sort, an accepted completed token and a search of 1..255 characters. A given page and per_page are the integer casts of their values, a given sort is kept, search and completed are the values given, and an absent page, per_page or sort becomes 1, 10 or -created_at |
| ListQuery.Normalize | app/Controllers/Tasks.php:52-62 | The listing fails exactly when some parameter breaks its rule, with the list of failures |
| ListQuery.SearchFilter | app/Controllers/Tasks.php:70-72 | The search applies exactly when it is given and PHP-truthy (not "" and not "0") |
| ListQuery.CompletedFilter | app/Controllers/Tasks.php:66-69 | A given completed token filters on 1 exactly when the boolean filter resolves it to true, and on 0 otherwise; an absent one does not filter |
| ListQuery.CompletedFilterOnTokens | app/Controllers/Tasks.php:49-69 | A validated completed token filters on 1 exactly for 1, true, TRUE, on and yes, and on 0 exactly for 0, false, FALSE, off and no |
| ListQuery.CompletedTokensResolve | app/Controllers/Tasks.php:49 | Every accepted completed token resolves through the boolean filter, to true exactly for 1, true, TRUE, on and yes |
| ListQuery.SortTokenResolves | app/Controllers/Tasks.php:74-76 | Every accepted sort token names a column (the token without its leading dash). The order is descending exactly when the dash is there |
| ListQuery.TotalPages | app/Controllers/Tasks.php:82 | The last page is the ceiling of max(1,total)/max(1,per_page), so it is at least 1 |
| ListQuery.TotalPagesIsLeast | app/Controllers/Tasks.php:82 | No page count smaller than the last page covers the total |
| ListQuery.WithoutPaging | app/Controllers/Tasks.php:84-85 | Drops page and per_page and keeps the value of every other parameter |
| ListQuery.LinkTo | app/Controllers/Tasks.php:88-91 | A link keeps the request's other parameters and sets page and per_page to the given values |
| ListQuery.LinkKeysDistinct | app/Controllers/Tasks.php:84-90 | A link built from the request's array repeats no parameter |
| ListQuery.BuildLinks | app/Controllers/Tasks.php:93-99 | self, first and last always. next exactly while the page is before the last; prev exactly when the page is past the first. Each points to its page |
| ListQuery.FollowLink | app/Controllers/Tasks.php:88-99 | Following any link of a valid listing gives a valid listing with the same page size, filters and order, on the linked page |
| ListQuery.LinkNamesPage | app/Controllers/Tasks.php:88-91 | The page parameter of a link parses back to the page it was built for |
| ListQuery.LinksLeadWhereNamed | app/Controllers/Tasks.php:93-99 | self, first, last, next and prev name the current, first, last, next and previous pages |
| ListQuery.HeaderRels | app/Controllers/Tasks.php:102-106 | The header lists exactly the links that exist, in the order next, prev, first, last; first and last always come last |
| ListQuery.LinkHeader | app/Controllers/Tasks.php:101-107 | Building the header part by part and joining with ", " gives one `<url>; rel="…"` entry per listed relation |
| TasksController.Normalized | app/Controllers/Tasks.php:138-146 | Only completed changes: it becomes the integer 1 or 0 it resolves to; every other key is kept |
| TasksController.CreateRuleErrors | app/Controllers/Tasks.php:148-156 | Create rejects the title exactly when it is missing, not a string, blank, or not 3..255 long. It rejects completed exactly when it is given and not 0/1 |
| TasksController.UpdateRuleErrors | app/Controllers/Tasks.php:206-214 | Update rejects only a given title that is not a string of 3..255 characters, and a given completed that is not 0/1 |
| TasksController.Validated | app/Controllers/Tasks.php:159 | `getValidated()` keeps exactly the keys that have a rule, with their values |
| TasksController.ValidatedEmptyIffNothingWritable | app/Controllers/Tasks.php:216-218 | The validated data is empty exactly when it holds no writable field |
| TasksController.NormalizedCompletedAccepted | app/Controllers/Tasks.php:145-150 | Once normalised, completed never fails the controller's in_list[0,1], on create or update |
| TasksController.CreateAcceptedInserts | app/Controllers/Tasks.php:159-164 | A body the create rules accept is not empty once validated and is accepted by the table, so the 422 after insert cannot happen |
| TasksController.NormalizedBitStored | app/Controllers/Tasks.php:138-146 | A completed that resolves is normalised to a non-empty value that passes the table's rule and reads "1" exactly when it resolved to true |
| TasksController.CreatedRow | app/Controllers/Tasks.php:138-166 | The row a successful create stores has the new id, the given title, completed 1 exactly when the given value resolves to true (0 when absent), and both timestamps at the insert time |
| TasksController.UpdateRejectedOnlyForBlankTitle | app/Controllers/Tasks.php:206-220 | After the update rules pass, the table rejects the data exactly when the title is blank once trimmed, and then only the title |
| TasksController.ValidatedKeeps | app/Controllers/Tasks.php:159 | `getValidated()` keeps title and completed exactly as given |
| TasksController.UpdateWritesOnlyValidatedFields | app/Controllers/Tasks.php:216-223 | An accepted update writes the given title and the given 0/1, refreshes updated_at, and keeps id and created_at |
| TasksController.BitIsNotEmpty | app/Models/TaskModel.php:56 | A 0/1 that the controller accepts is not empty and passes the table's completed rule |
| TasksController.MatchingIdsMembers | app/Controllers/Tasks.php:81 | The counted ids are exactly the ids of stored rows that pass the filters |
| TasksController.TotalCountsMatchingRows | app/Controllers/Tasks.php:81 | The listing's total equals the number of stored rows that pass the filters |
| TasksController.AbsentRowNotListed | app/Controllers/Tasks.php:78 | A row not in the table is on no page of any listing |
| TasksController.Tasks.constructor | app/Controllers/Tasks.php:18-21 | The controller holds the table and the base and site URLs it builds links with |
| TasksController.Tasks.Index | app/Controllers/Tasks.php:41-130 | The query string is read as a PHP array (last value per key). Any failing parameter gives 422 with the failures. Otherwise 200 with the page of the sorted, filtered rows and the meta. Also the links, X-Total-Count (the number of matching rows) and the Link header |
| TasksController.Tasks.Create | app/Controllers/Tasks.php:133-173 | An unresolvable completed gives 422 and a rule failure gives 422, neither changing the table. Otherwise 201 with the stored row and its Location; the row is stored under the next id |
| TasksController.Tasks.Show | app/Controllers/Tasks.php:177-184 | 200 with the row when it exists, 404 otherwise |
| TasksController.Tasks.Update | app/Controllers/Tasks.php:187-224 | 404 for an unknown id before the body is read. Then 422 for an unresolvable completed, a controller rule failure or a table rule failure. Then 500 for an empty validated body. Otherwise the patched row is written and returned with 200 |
| TasksController.Tasks.Delete | app/Controllers/Tasks.php:228-237 | 404 for an unknown id; otherwise the row is removed and the answer is 204 with no body |
| TasksController.CreatedIsShown | tests/app/Feature/TasksApiTest.php:78-97 | After a 201, show answers 200 with the row that create returned, at the path its Location names |
| TasksController.DeletedIsGone | tests/app/Feature/TasksApiTest.php:121-134 | After delete, show answers 404 and no listing contains the row |
| Client.ReplaceAll | public/js/tasks.js:35-36 | A global replacement whose replacement text lacks the character leaves none of it |
| Client.EscIsEscapeEach | public/js/tasks.js:33-37 | The chain of five global replacements, `&` first, equals one pass that replaces each character by its entity |
| Client.EscOutputIsSafe | public/js/tasks.js:33-37 | Escaped text has no `<`, `>`, `"` or `'`, and every `&` in it begins one of the five entities |
| Client.EscIdentity | public/js/tasks.js:33-37 | Text without special characters is left unchanged |
| Client.EscLength | public/js/tasks.js:33-37 | Each `&` grows by 4 characters, each `<` and `>` by 3, each `"` and `'` by 5 |
| Client.EscRoundTrip | public/js/tasks.js:33-37 | Decoding the five entities of the escaped text gives the text back |
| Client.QsSetLookup | public/js/tasks.js:41-45 | After a kept `set`, the key has the new value; after a skipped one, it has none |
| Client.QsSetOther | public/js/tasks.js:41-45 | `set` leaves every other key as it was |
| Client.QsParamsOrdered | public/js/tasks.js:39-47 | qs writes keys only from page, per_page, search, completed, sort, each at most once, in that order |
| Client.QsParamsLookups | public/js/tasks.js:39-47 | page, per_page, search and sort are sent exactly when truthy. completed is sent unless it is "", null or undefined, so 0 and false are sent. Each value is sent as `String(v)` |
| Client.Qs | public/js/tasks.js:39-47 | The query string built step by step is "?" followed by those parameters |
| Client.QsVerdict | public/js/tasks.js:39-47 | The list endpoint accepts what qs sends exactly when every parameter qs keeps passes its rule |
| Client.AcceptedIffEachAccepted | app/Controllers/Tasks.php:45-56 | A query is accepted exactly when each of its five parameters, where present, passes its rule |
| Client.FormQueryVerdict | public/js/tasks.js:292-298 | A query from the filter form is accepted exactly when the page size passes its rule, the trimmed search has at most 255 characters, and the completed and sort choices, where not empty, are accepted tokens |
| Client.SearchVerdict | public/js/tasks.js:294 | A search is sent only when not empty, and is then accepted exactly when at most 255 long |
| Client.ChoiceVerdicts | public/js/tasks.js:295-296 | A sent completed or sort choice is accepted exactly when it is one of the endpoint's tokens |
| Client.FormChoicesAccepted | public/js/tasks.js:295 | The completed choices "", "true" and "false" are accepted by the list endpoint |
| Client.LinkPageSizeAccepted | public/js/tasks.js:279-280 | A page size read back from a link passes its rule exactly when it is 1 to 100 |
| Client.DefaultsAccepted | public/js/tasks.js:5-9 | Ten rows a page and -created_at pass their rules |
| Client.InitialQueryAccepted | public/js/tasks.js:5-9 | The first request of the page is accepted by the list endpoint |
| Client.FollowedLinkPage | public/js/tasks.js:276-289 | Following a page link of the list endpoint sets the query's page to the linked page number, and its per_page to the link's page size |
| Client.LastTwoLookups | public/js/tasks.js:279 | Through `Object.fromEntries`, the last entry answers for its key, and the one before it for its own key when the keys differ |
| Client.LinkEntryKept | public/js/tasks.js:279 | A link's search, completed or sort entry, read through `Object.fromEntries`, is the request's value for it |
| Client.FollowedLinkKeepsFilters | public/js/tasks.js:276-289 | Following a page link keeps the listing's search, completed and sort values |
| Client.Pager.constructor | public/js/tasks.js:5-9 | STATE starts on page 1, 10 per page, no search or completed filter, sorted by -created_at, no links, not loading. The overlay starts as the page's markup sets it, and all four buttons start enabled |
| Client.Pager.SetPageLoading | public/js/tasks.js:49-53 | Every one of the four buttons is disabled exactly while loading, and the overlay is shown exactly then. Query and links are unchanged |
| Client.Pager.SetPageLoadingKeepingLinks | public/js/tasks.js:49-53 | As SetPageLoading, but prev and next stay disabled while their link is missing |
| Client.Pager.UpdatePager | public/js/tasks.js:143-153 | Keeps the new links; prev and next are disabled exactly when their link is missing or a page is loading |
| Client.Pager.LoadListAsWritten | public/js/tasks.js:156-169 | Sends qs of the current query and keeps the response's links (the old ones when the request fails). It ends not loading, with the overlay hidden and all four buttons enabled, prev and next included |
| Client.Pager.LoadList | public/js/tasks.js:156-169 | As LoadListAsWritten, but it ends with prev and next disabled exactly when their link is missing, and with open and apply enabled |
| Client.Pager.FollowPrev | public/js/tasks.js:276-282 | With no prev link nothing happens. Otherwise the query becomes the link's query, with a numeric page, and that query is requested through the as-written load: the response's links are kept (the old ones on a failed request), loading ends, the overlay is hidden and all four buttons are enabled |
| Client.Pager.FollowNext | public/js/tasks.js:283-289 | With no next link nothing happens. Otherwise the query becomes the link's query, with a numeric page, and that query is requested through the as-written load, with the same final state as FollowPrev |
| Client.Pager.ApplyFilters | public/js/tasks.js:292-298 | Back to page 1 with the trimmed search, the completed choice and the sort choice; the page size is kept; the new query is requested through the as-written load, with the same final state as FollowPrev |
| Client.JsTrimLeft | public/js/tasks.js:294 | Removes a prefix made only of white space, leaving a suffix that does not start with white space |
| Client.JsTrimRight | public/js/tasks.js:294 | Removes a suffix made only of white space, leaving a prefix that does not end with white space |
| Client.PagerButtonsOnSinglePage | public/js/tasks.js:156-169 | On a one-page listing (no next, no prev), the script as written leaves both buttons enabled |
| Client.PagerButtonsOnSinglePageCorrected | public/js/tasks.js:143-153 | With the pager rule kept, the same load leaves both buttons disabled |

## Left out

- **Not modelled at all.** These are I/O or presentation only:
  - decoding the request body (`getJSON`/`getPost`/`getRawInput`); bodies are given as decoded maps;
  - the routes;
  - the HTML view;
  - the DOM work of the script (rendering rows, the modal, toasts, CSRF headers, the `meta` text line);
  - the `fetch` call; a response is a parameter (`Option<PagerLinks>`; `None` is a failed request).
- **Clock.** Timestamps are a `Time` parameter of each write.
- **Database.**
  - The SQL behind `paginate`/`like` is stated as its result. Ties in `ORDER BY` are assumed to keep ascending id order; the database does not promise that.
  - LIKE is modelled as case-insensitive containment on ASCII letters, with the framework's escaping of `%` and `_`. Collations beyond ASCII are not modelled.
  - `ORDER BY title` is modelled as code-point order of the titles. The database's collation decides the real order, which may ignore case or accents.
- **Percent-encoding** in `http_build_query` and `URLSearchParams`: a query string is modelled as `key=value` pairs joined by `&`.
- **ListQuery.TotalPages:** computed on integers, not through PHP's float `ceil`. The two agree for totals below 2^53.
- **Route ids** are natural numbers. A non-numeric id in the URL is not modelled.
- **TaskModel.RuleString:** arrays and objects in a request body are one case (`JComposite`) that every rule rejects. Their PHP string conversion is not modelled.
- **Validation rule semantics** are modelled as their documented meaning:
  - `is_natural_no_zero` is non-empty digits, not zero;
  - `required` trims;
  - `in_list` is exact and case-sensitive;
  - `permit_empty` accepts a blank value.

  The framework's error messages are not modelled; errors are the list of failing fields.
- **Integer limits.**
  - `page + 1` in the links is unbounded here. At `PHP_INT_MAX`, PHP would turn it into a float.
  - JavaScript numbers are modelled as integers.
  - **Client.JsNumber:** models `Number` on digit strings and numbers only. Other strings give `NaN`, and exponent or hexadecimal forms are not modelled.
- **TaskQuery.Paginate:** the page window starts at `(page - 1) * per_page`. The framework's pager is not part of this model. It is taken not to clamp a page past the last one, so such a page is empty here.
- **TaskModel.TaskTable.Insert:** the framework's own refusal of an empty dataset (an exception in `insert`) is modelled as the outcome `NothingToInsert`. The controller never reaches it: a body its rules accept always holds a title.
- **TaskModel.NewRow:** a present but empty `completed` (null, `""` or blank) passes `permit_empty` and the framework then writes that empty value into the column. The model stores 0 instead. The controller never sends such a value: it always replaces `completed` with 1 or 0 (TasksController.NormalizedBitStored).
- **TaskModel.Patched:** for the same present but empty `completed`, the model keeps the row's old value where the framework would write the empty value. Again the controller never sends one.
- **Client.Pager.constructor:** the page markup that holds the overlay and the buttons is not part of this model. The overlay's first state is a parameter, and the buttons are taken to start enabled.
- **Fractional JSON numbers.** A request value such as `1.0` or `0.5` is not modelled: JSON numbers are integers here, so `filter_var` and the rules never see a float.
- **Client.FormChoicesAccepted:** the sort select's options live in the HTML view, which is not part of this model. The completed choices are those the comment at `public/js/tasks.js:295` names. Client.FormQueryVerdict states the verdict for any sort value instead.
- **Query strings as PHP arrays.** `getGet()` is modelled by ListQuery.PhpArray: a repeated key keeps the position of its first entry and the value of its last. PHP's `[]` array syntax in keys (`page[]=1`) is not modelled.
- **ListQuery.PhpArray:** keys are taken exactly as written. PHP drops leading spaces from a key name and rewrites its other spaces and `.` to `_` before `getGet()` sees it, so `?per.page=5` sets `per_page` in PHP. The model treats `per.page` as an unknown key and lists 10 per page.
- **ListQuery.LinkTo:** every key keeps its name in the links. `array_merge` renumbers integer-like keys from 0, so in PHP `?7=x` gives links that carry `0=x`. The model's links carry `7=x`. Only page and per_page, which are never integer-like, are stated correctly for every input.
- **Client.QueryOfLink:**
  - takes the link as the server built it (a base and its parameters); it does not parse URL text;
  - `links?.next || null` treats an empty link as absent, and the links are `Option<Url>`.
- **Delete status.** One legacy feature test (`tests/app/Feature/TaskControllerTest.php`) expects 200 and a message after a delete. The controller answers 204 with no body, and the model follows the controller.

## Findings

| source | as written | input that shows it | evidently intended | confidence | as-written member | corrected member |
|---|---|---|---|---|---|---|
| public/js/tasks.js:156-169 | `loadList` calls `updatePager` while the page is still loading, so both buttons are disabled then. The `finally` branch's `setPageLoading(false)` (line 52) then enables prev and next whatever the links are, undoing lines 151-152 | The first load of a listing with one page: `next` and `prev` are null | prev/next disabled exactly when the link is missing (lines 151-152), or while a page is loading | medium, not executed | Client.Pager.LoadListAsWritten, Client.PagerButtonsOnSinglePage | Client.Pager.LoadList, Client.PagerButtonsOnSinglePageCorrected |

The finding is harmless in effect: the click handlers (lines 277 and 284) return early when the link is missing. But the buttons look clickable when they are not.
