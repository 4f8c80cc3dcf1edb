# Climbing-session scoring: a Dafny model

This project models the pure logic of a small REST backend that logs indoor
climbing sessions. A *session* is one training day; a *bloc* is one climbing
problem tried during a session, with a difficulty, a style label, a retry
count and a flag saying whether it was completed (`terminate`).

Two reductions over lists of blocs carry the domain logic, and both are
modelled as pure functions over immutable records:

- the **session performance summary** (`calculeSessionScore` in the session
  service): counts of blocs, completed blocs, tried blocs, blocs of style
  `DE` and of style `DA`, flashed blocs (completed with no retry), the retry
  total, the attempt total, the minimum and maximum difficulty, three average
  difficulties and a total score;
- the **global bloc statistics** (`getBlocStats` in the bloc service):
  histograms by difficulty and by style, the mean retry count and the
  completion percentage.

Around them the model also covers the conversion of session rows to API
objects, the construction of the query filters of the two list endpoints,
and their offset pagination (`skip`, `take`, `totalPages`).

Layout, one module per file:

- `wrappers.dfy` — `Option`, used for JavaScript's `undefined`, `NaN` and `±Infinity`.
- `folds.dfy` — the generic reductions (`filter`, sums, `Math.max`/`Math.min`, averages) and their concatenation, bound and order-independence lemmas.
- `histograms.dfy` — the counting-dictionary loop and the sum of its counts.
- `models.dfy` — the records (`Bloc`, `SessionPerformance`, `Session`, `SessionDto`, queries, `BlocStats`) and JavaScript truthiness.
- `pagination.dfy` — defaults, `skip` and `Math.ceil(total / limit)`.
- `session_service.dfy`, `bloc_service.dfy` — the two services.

Modelling choices:

- Numbers are exact: counts and difficulties are integers, averages are exact
  rational quotients (`real`), and the score is an exact `real` sum. The
  integer sums (retries, difficulties, counts) the JavaScript computes are
  exact too, since the inputs are small integers; its quotients and its sum
  of non-integer per-bloc scores are rounded doubles (see "Left out").
- JavaScript values with no mathematical meaning are `None`. On an empty list,
  `Math.max()` is `-Infinity`, `Math.min()` is `+Infinity`, and `0 / 0` is
  `NaN`. The source does not guard any of them. `difficultyMax`,
  `difficultyMin` and the three averages are therefore `Option` values, `None`
  exactly where the source yields one of those values. JSON serialisation
  turns all three into `null`. No 0 default is invented.
- The per-bloc score `BlocService.calculBlocScore` is called by the session
  summary, but its definition is not part of this model. It is the parameter
  `blocScore: Bloc -> real`, about which nothing is assumed.
- `new Date(s)` on query strings is the parameter `toDate: string -> int`, and
  dates are integer timestamps.
- The 2-decimal rounding `Math.round(x * 100) / 100` of the bloc statistics is
  the parameter `round: real -> real`. Bounds are proved on the values before
  rounding (`AverageRetry`, `TerminateRate`).
- Database calls are not modelled. Each list endpoint is split into the
  arguments it sends to the database (`GetAllSessionsArgs`, `GetAllBlocsArgs`)
  and the response it builds from the rows and count it gets back
  (`GetAllSessions`, `GetAllBlocs`).

Notes on the code:

- `nbBlocsDA` counts blocs whose style is exactly `"DA"`. It does not count
  every style other than `"DE"`. A style that is neither string is counted in
  neither field (`StyleCountsCoverAll`).
- The code computes the summary for an empty list of blocs too. An empty array
  is truthy, so `convertSessionToDto` still calls `calculeSessionScore`. The
  result has zero counts and `None` extrema and averages (`EmptyPerformance`).
- The code imports the types `SessionDto`, `SessionResponseBd` and
  `BlocResponseDb`, but the model files do not declare them. Their shapes are
  taken from the code that builds them (`src/services/session.service.ts:183-189`)
  and from `BlocResponse` (`src/models/bloc.model.ts:16-25`).

## Model

| member | source | states |
|---|---|---|
| Folds.Filter | src/services/session.service.ts:194-198 | `filter` keeps only elements that pass the test and is never longer than its input; with `FilterMembers` it keeps exactly those elements |
| Folds.FilterMembers | src/services/bloc.service.ts:161 | a value is in a filter's result iff it is in the list and passes the test |
| Folds.SumIntAppend | src/services/session.service.ts:199-205 | the integer `reduce` sum of a concatenation is the sum of the parts' sums, which with the empty sum 0 fixes it as the sum of the mapped values |
| Folds.SumRealAppend | src/services/session.service.ts:206 | the exact-real `reduce` sum of a concatenation is the sum of the parts' sums |
| Folds.MaxOf | src/services/session.service.ts:201 | `Math.max` over difficulties is defined iff the list is non-empty, bounds every element and is attained by one |
| Folds.MinOf | src/services/session.service.ts:202 | `Math.min` over difficulties is defined iff the list is non-empty, is below every element and is attained by one |
| Folds.AverageOf | src/services/session.service.ts:203 | a sum divided by the length is defined iff the list is non-empty (otherwise `0 / 0`), and then average × length = sum |
| Folds.AverageBetweenExtrema | src/services/session.service.ts:201-203 | for a non-empty list, minimum <= average <= maximum |
| Folds.FilterDisjoint | src/services/session.service.ts:195-198 | two exclusive filters select at most the whole list between them, and exactly the whole list iff every element passes one |
| Folds.FilterPermutation | src/services/session.service.ts:194-198 | the elements a filter keeps, and their number, do not depend on the order of the list |
| Folds.SumIntPermutation | src/services/session.service.ts:199-200 | an integer `reduce` sum does not depend on the order of the list |
| Folds.SumRealPermutation | src/services/session.service.ts:206 | the score sum does not depend on the order of the list |
| SessionService.CalculeSessionScore | src/services/session.service.ts:191-208 | the bloc count is the list length, attempts = blocs + retries, flashed <= completed, flashed + tried <= blocs, DE + DA <= blocs, the extrema and average exist iff there is a bloc, each subset average exists iff its subset is non-empty, min <= average <= max, and an empty list gives zero counts with every extremum and average undefined |
| SessionService.StyleCountsCoverAll | src/services/session.service.ts:196-197 | DE + DA equals the bloc count iff every style is exactly "DE" or "DA" |
| SessionService.DifficultyExtrema | src/services/session.service.ts:201-202 | both extrema are the difficulty of some bloc and every difficulty lies between them |
| SessionService.SubsetAverageBounds | src/services/session.service.ts:204-205 | a subset's average lies between the subset's own extrema, which lie within the session's |
| SessionService.TriedAndFlashedAveragesInRange | src/services/session.service.ts:201-205 | when defined, the tried and flashed averages lie between the session's minimum and maximum difficulty |
| SessionService.RetrySumCoversTried | src/services/session.service.ts:195-199 | with non-negative retries, the retry total is at least the number of tried blocs |
| SessionService.AttemptsWithValidRetries | src/services/session.service.ts:193-200 | with non-negative retries, `nbTry >= nbBlocsTry` and `nbTotalBlocs >= nbBlocsDiff` |
| SessionService.SingleBloc | src/services/session.service.ts:191-207 | one bloc's summary has that bloc's score, difficulty as both extrema and average, its retries and attempts, a 0/1 count for each of completed, tried (retry > 0), exactly "DE", exactly "DA" and flashed, and its difficulty as the tried / flashed average exactly when it is tried / flashed |
| SessionService.AveragesAreMeans | src/services/session.service.ts:203-205 | each defined average times the number of blocs it is taken over (all, tried, flashed) equals the difficulty sum of those blocs |
| SessionService.PerformanceAppend | src/services/session.service.ts:193-206 | over a concatenation every count, the retry and attempt totals and the score are the sums of the parts; with `SingleBloc` this makes the score the sum of the per-bloc scores |
| SessionService.PerformancePermutation | src/services/session.service.ts:191-207 | every field of the summary is invariant under permutation of the blocs |
| SessionService.ConvertSessionToDto | src/services/session.service.ts:183-189 | id and date are copied, the performance is present iff the blocs were loaded and is then the summary of exactly those blocs, and an empty bloc list still yields the empty summary |
| SessionService.ConvertSessionsToDto | src/services/session.service.ts:179-181 | one API object per row, in order, each the conversion of that row (its id, date and the summary of its own blocs) |
| SessionService.BuildSessionWhere | src/services/session.service.ts:21-31 | the date condition exists iff `dateFrom` or `dateTo` is non-empty, is never empty, and carries each bound iff that field is non-empty, with the parsed date of that field as its value |
| SessionService.SessionWhereSelects | src/services/session.service.ts:21-31 | a date is selected iff it is on or after a given `dateFrom` and on or before a given `dateTo` |
| SessionService.GetAllSessionsArgs | src/services/session.service.ts:18-37 | take is the limit (default 100), skip is `(page - 1) * limit` (default page 1), the filter is the date filter built from the query, so a bare query asks for the first 100 rows without a filter |
| SessionService.GetAllSessions | src/services/session.service.ts:49-52 | the data is the conversion of the returned rows, one per row in order; the pagination echoes page and limit with their defaults and the count, reports 0 pages for no rows, and with a positive limit and rows `(totalPages - 1) * limit < total <= totalPages * limit` |
| Pagination.Skip | src/services/session.service.ts:18-19 | the first page skips no rows and no page from 1 on skips a negative number; `EveryRowOnOnePage` shows that the windows it starts tile the rows |
| Pagination.CeilDiv | src/services/session.service.ts:51 | `Math.ceil(a / b)` is the least integer not below the exact quotient, for either sign of `b` |
| Pagination.TotalPages | src/services/bloc.service.ts:47 | undefined iff the limit is 0; 0 pages for no rows; otherwise the fewest whole pages holding all rows |
| Pagination.Paginate | src/services/bloc.service.ts:9-47 | page and limit default to 1 and 100, the count is passed through, and the page count is `TotalPages(total, limit)`: undefined iff the limit is 0, 0 for no rows |
| Pagination.EveryRowOnOnePage | src/services/session.service.ts:19-51 | with a positive limit each row index below the total lies in the skip window of exactly one page, and that page is between 1 and `totalPages` |
| Histograms.Bump | src/services/bloc.service.ts:146 | one `(acc[k] \|\| 0) + 1` step adds key `k`, increments only its count, and leaves other keys unchanged |
| Histograms.Tally | src/services/bloc.service.ts:144-147 | after the loop, the keys are the starting keys plus the keys met, and each count is the starting count plus the key's occurrences |
| Histograms.Histogram | src/services/bloc.service.ts:144-153 | a key is present iff some element has it, with a positive count equal to its number of occurrences |
| Histograms.HistogramTotal | src/services/bloc.service.ts:141-153 | the counts of a histogram add up to the number of blocs |
| Histograms.HistogramPermutation | src/services/bloc.service.ts:141-153 | a histogram is invariant under permutation of the blocs |
| BlocService.AverageRetry | src/services/bloc.service.ts:156-158 | 0 with no bloc; otherwise the average of the retry counts (average × count = retry sum), between the smallest and the largest retry count |
| BlocService.TerminateRate | src/services/bloc.service.ts:161-162 | in [0, 100], 0 with no bloc, rate × count = 100 × completed, 100 iff every bloc is completed, 0 iff none is |
| BlocService.Percent | src/services/bloc.service.ts:162 | `(count / n) * 100` for `count <= n` is in [0, 100], is 100 iff count = n and is 0 iff count = 0 |
| BlocService.AllOrNoneTerminated | src/services/bloc.service.ts:161 | the completed count is the whole list iff every bloc is completed, and 0 iff none is |
| BlocService.GetBlocStats | src/services/bloc.service.ts:141-170 | total is the bloc count, each histogram has exactly the difficulties / styles present with their occurrence counts, each histogram's counts sum to total, and `avgRetry` and `terminateRate` are the rounding of `AverageRetry` and `TerminateRate` |
| BlocService.BlocStatsPermutation | src/services/bloc.service.ts:141-162 | the whole statistics record is invariant under permutation of the blocs |
| BlocService.BuildBlocWhere | src/services/bloc.service.ts:12-24 | session and difficulty conditions appear iff those fields are truthy (0 adds none), and the style condition iff the style is non-empty, each carrying the query's value |
| BlocService.BlocWhereSelects | src/services/bloc.service.ts:12-24 | a bloc is selected iff it has the requested session, the requested difficulty and contains the requested style text, each only when requested |
| BlocService.FalsyFieldsSelectAll | src/services/bloc.service.ts:12-24 | with no truthy filter field the filter is empty and selects every bloc |
| BlocService.GetAllBlocsArgs | src/services/bloc.service.ts:9-41 | take is the limit (default 100), skip is `(page - 1) * limit` (default page 1), and the filter is the one built from the query |
| BlocService.GetAllBlocs | src/services/bloc.service.ts:45-48 | rows are returned unchanged; the pagination echoes page and limit with their defaults and the count, reports 0 pages for no rows, and with a positive limit and rows `(totalPages - 1) * limit < total <= totalPages * limit` |

## Left out

- Every database call (`findMany`, `findUnique`, `count`, `create`, `update`, `delete`) and the `P2025` not-found handling. These are persistence wrappers around a library outside the model. The rows and counts they return are parameters.
- `BlocService.calculBlocScore`: `src/services/session.service.ts:206` calls it, but the `BlocService` class of `src/services/bloc.service.ts:4-172` declares no such member, so its formula is not part of this model. The session summary takes it as the uninterpreted parameter `blocScore`.
- The floating-point rounding of the `score` sum: JavaScript rounds after each addition of a non-integer per-bloc score, so the sum can differ in its last bits between orders of the blocs. `PerformanceAppend`, `PerformancePermutation` and `SumRealPermutation` are about the exact sum.
- `getSessionStats`: it depends on the wall clock (`Date.now`) and on database counts.
- `getSessionWithBlocsCount` and `getSessionsByDateRange`: these are pure database queries with no logic of their own.
- IEEE-754 arithmetic: `NaN`, `±Infinity`, the rounding of non-integer quotients, and `Math.round(x * 100) / 100`. Averages are exact reals, undefined values are `None`, and the rounding is the parameter `round`.
- `Math.max(...list)` / `Math.min(...list)` throw a `RangeError` on lists too long to spread as arguments. The model has no such length limit.
- JavaScript object-key quirks of the histograms: numeric keys are coerced to strings, and a style named like an inherited property (`constructor`, `toString`) reads a non-number from the prototype. The model uses a plain map from key to count.
- Query values that are not numbers (strings reaching `page` or `limit`) and `new Date` on unparsable strings: JavaScript coercion and date parsing are not modelled. Dates are the result of the parameter `toDate`.
- Prisma's matching of `contains` (case sensitivity depends on the database). `BlocMatches` reads it as exact substring containment.
- The optional `score` field of `BlocResponse` (`src/models/bloc.model.ts:24`): nothing in the services sets it.
- `src/services/user.service.ts`, the route files, `src/server.ts` and the migration scripts: these are HTTP wiring, password hashing, CRUD and one-shot data imports. The user list uses the same pagination pattern already modelled.
