/** The records the two services exchange with the database and with the
    API layer, and the JavaScript truthiness tests they apply to optional
    query fields. Dates are modelled as integer timestamps. */
module Models {
  import opened Wrappers

  /** A stored bloc row: one climbing problem tried during a session. */
  datatype Bloc = Bloc(
    id: int,
    sessionId: int,
    difficulty: int,
    style: string,
    retry: int,
    terminate: bool,
    createdAt: int)

  // Field selectors and the tests the services filter blocs with.
  function Difficulty(b: Bloc): int { b.difficulty }
  function Style(b: Bloc): string { b.style }
  function Retry(b: Bloc): int { b.retry }
  predicate IsTerminated(b: Bloc) { b.terminate }
  predicate IsTried(b: Bloc) { b.retry > 0 }
  /** Completed with no retry. */
  predicate IsFlashed(b: Bloc) { b.retry == 0 && b.terminate }
  predicate IsDE(b: Bloc) { b.style == "DE" }
  predicate IsDA(b: Bloc) { b.style == "DA" }

  /** The per-session summary. Fields that JavaScript leaves without a
      mathematical value are optional: `difficultyMax` is None where
      `Math.max()` gives `-Infinity`, `difficultyMin` is None where
      `Math.min()` gives `+Infinity`, and the averages are None where `0 / 0`
      gives `NaN`. */
  datatype SessionPerformance = SessionPerformance(
    score: real,
    nbBlocsDiff: nat,
    nbBlocsTerminates: nat,
    nbBlocsTry: nat,
    nbBlocsDE: nat,
    nbBlocsDA: nat,
    nbBlocsFlashed: nat,
    nbTry: int,
    nbTotalBlocs: int,
    difficultyMax: Option<int>,
    difficultyMin: Option<int>,
    averageDifficulty: Option<real>,
    averageDifficultyFlashed: Option<real>,
    averageDifficultyTry: Option<real>)

  /** A stored session row; `blocs` is None when the query did not load them. */
  datatype Session = Session(id: int, date: int, createdAt: int, blocs: Option<seq<Bloc>>)

  /** A session as the API returns it. */
  datatype SessionDto = SessionDto(id: int, date: int, sessionPerformance: Option<SessionPerformance>)

  datatype SessionQuery = SessionQuery(
    page: Option<int>,
    limit: Option<int>,
    dateFrom: Option<string>,
    dateTo: Option<string>)

  datatype BlocQuery = BlocQuery(
    page: Option<int>,
    limit: Option<int>,
    sessionId: Option<int>,
    difficulty: Option<int>,
    style: Option<string>)

  /** Global statistics over every stored bloc. */
  datatype BlocStats = BlocStats(
    total: nat,
    byDifficulty: map<int, nat>,
    byStyle: map<string, nat>,
    avgRetry: real,
    terminateRate: real)

  /** `if (x)` on an optional string: absent and `""` are falsy. */
  predicate StringTruthy(x: Option<string>) {
    x.Some? && x.value != ""
  }

  /** `if (x)` on an optional number: absent and `0` are falsy. */
  predicate NumberTruthy(x: Option<int>) {
    x.Some? && x.value != 0
  }
}
