/** The pure part of the session service: the performance summary of a
    session's blocs, the conversion of session rows to API objects, and the
    filter and paging arguments of the session list. The per-bloc score
    (`BlocService.calculBlocScore`) is defined outside this model, so every
    member that needs it takes it as the parameter `blocScore`. */
module SessionService {
  import opened Wrappers
  import opened Models
  import opened Folds
  import opened Pagination

  /** The summary with every count at zero and every extremum and average
      undefined: what an empty list of blocs yields. */
  const EmptyPerformance: SessionPerformance :=
    SessionPerformance(0.0, 0, 0, 0, 0, 0, 0, 0, 0, None, None, None, None, None)

  /** `calculeSessionScore`: one pass of counts, sums, extrema and averages
      over the blocs of a session. */
  function CalculeSessionScore(blocs: seq<Bloc>, blocScore: Bloc -> real): (r: SessionPerformance)
    ensures r.nbBlocsDiff == |blocs|
    ensures r.nbTotalBlocs == r.nbBlocsDiff + r.nbTry
    ensures r.nbBlocsFlashed <= r.nbBlocsTerminates
    ensures r.nbBlocsFlashed + r.nbBlocsTry <= r.nbBlocsDiff
    ensures r.nbBlocsDE + r.nbBlocsDA <= r.nbBlocsDiff
    ensures r.difficultyMax.Some? <==> |blocs| > 0
    ensures r.difficultyMin.Some? <==> |blocs| > 0
    ensures r.averageDifficulty.Some? <==> |blocs| > 0
    ensures r.averageDifficultyTry.Some? <==> r.nbBlocsTry > 0
    ensures r.averageDifficultyFlashed.Some? <==> r.nbBlocsFlashed > 0
    ensures |blocs| > 0 ==>
              r.difficultyMin.value as real <= r.averageDifficulty.value <= r.difficultyMax.value as real
    ensures |blocs| == 0 ==> r == EmptyPerformance
  {
    var tried := Filter(blocs, IsTried);
    var flashed := Filter(blocs, IsFlashed);
    FilterMonotone(blocs, IsFlashed, IsTerminated);
    FilterDisjoint(blocs, IsFlashed, IsTried);
    FilterDisjoint(blocs, IsDE, IsDA);
    AverageBetweenExtrema(blocs, Difficulty);
    SessionPerformance(
      score := SumReal(blocs, blocScore),
      nbBlocsDiff := |blocs|,
      nbBlocsTerminates := |Filter(blocs, IsTerminated)|,
      nbBlocsTry := |tried|,
      nbBlocsDE := |Filter(blocs, IsDE)|,
      nbBlocsDA := |Filter(blocs, IsDA)|,
      nbBlocsFlashed := |flashed|,
      nbTry := SumInt(blocs, Retry),
      nbTotalBlocs := |blocs| + SumInt(blocs, Retry),
      difficultyMax := MaxOf(blocs, Difficulty),
      difficultyMin := MinOf(blocs, Difficulty),
      averageDifficulty := AverageOf(blocs, Difficulty),
      averageDifficultyFlashed := AverageOf(flashed, Difficulty),
      averageDifficultyTry := AverageOf(tried, Difficulty))
  }

  /** DE and DA together account for every bloc exactly when every style is
      literally "DE" or "DA"; any other style string is counted in neither. */
  lemma StyleCountsCoverAll(blocs: seq<Bloc>, blocScore: Bloc -> real)
    ensures var r := CalculeSessionScore(blocs, blocScore);
      r.nbBlocsDE + r.nbBlocsDA == r.nbBlocsDiff <==>
        forall i :: 0 <= i < |blocs| ==> blocs[i].style == "DE" || blocs[i].style == "DA"
  {
    FilterDisjoint(blocs, IsDE, IsDA);
  }

  /** Both extrema are difficulties of actual blocs and bound all the others. */
  lemma DifficultyExtrema(blocs: seq<Bloc>, blocScore: Bloc -> real)
    requires |blocs| > 0
    ensures var r := CalculeSessionScore(blocs, blocScore);
      && (exists i :: 0 <= i < |blocs| && blocs[i].difficulty == r.difficultyMax.value)
      && (exists i :: 0 <= i < |blocs| && blocs[i].difficulty == r.difficultyMin.value)
      && forall i :: 0 <= i < |blocs| ==>
           r.difficultyMin.value <= blocs[i].difficulty <= r.difficultyMax.value
  {
    var mx, mn := MaxOf(blocs, Difficulty), MinOf(blocs, Difficulty);
    var i :| 0 <= i < |blocs| && Difficulty(blocs[i]) == mx.value;
    var j :| 0 <= j < |blocs| && Difficulty(blocs[j]) == mn.value;
    assert blocs[i].difficulty == mx.value && blocs[j].difficulty == mn.value;
  }

  /** The average over a subset lies between that subset's own extrema, and
      hence between the extrema of the whole session. */
  lemma SubsetAverageBounds(blocs: seq<Bloc>, p: Bloc -> bool)
    requires |Filter(blocs, p)| > 0
    ensures var sub := Filter(blocs, p);
      && MinOf(sub, Difficulty).value as real <= AverageOf(sub, Difficulty).value
      && AverageOf(sub, Difficulty).value <= MaxOf(sub, Difficulty).value as real
      && MinOf(blocs, Difficulty).value <= MinOf(sub, Difficulty).value
      && MaxOf(sub, Difficulty).value <= MaxOf(blocs, Difficulty).value
  {
    var sub := Filter(blocs, p);
    FilterMembers(blocs, p);
    AverageBetweenExtrema(sub, Difficulty);
    var i :| 0 <= i < |sub| && Difficulty(sub[i]) == MinOf(sub, Difficulty).value;
    var j :| 0 <= j < |sub| && Difficulty(sub[j]) == MaxOf(sub, Difficulty).value;
    assert sub[i] in blocs && sub[j] in blocs;
  }

  /** The averages over tried and over flashed blocs, when defined, lie
      within the difficulty range of the whole session. */
  lemma TriedAndFlashedAveragesInRange(blocs: seq<Bloc>, blocScore: Bloc -> real)
    ensures var r := CalculeSessionScore(blocs, blocScore);
      && (r.averageDifficultyTry.Some? ==>
            r.difficultyMin.value as real <= r.averageDifficultyTry.value <= r.difficultyMax.value as real)
      && (r.averageDifficultyFlashed.Some? ==>
            r.difficultyMin.value as real <= r.averageDifficultyFlashed.value <= r.difficultyMax.value as real)
  {
    if |Filter(blocs, IsTried)| > 0 {
      SubsetAverageBounds(blocs, IsTried);
    }
    if |Filter(blocs, IsFlashed)| > 0 {
      SubsetAverageBounds(blocs, IsFlashed);
    }
  }

  /** A retry total is at least the number of blocs with a positive retry
      count, when no count is negative. */
  lemma {:induction false} RetrySumCoversTried(blocs: seq<Bloc>)
    requires forall i :: 0 <= i < |blocs| ==> blocs[i].retry >= 0
    ensures SumInt(blocs, Retry) >= |Filter(blocs, IsTried)|
  {
    if |blocs| > 0 {
      assert forall i :: 0 <= i < |blocs[1..]| ==> blocs[1..][i] == blocs[i + 1];
      RetrySumCoversTried(blocs[1..]);
    }
  }

  /** With the non-negative retry counts the API accepts, the attempt total
      is at least the bloc count and the retry total at least the number of
      tried blocs. */
  lemma AttemptsWithValidRetries(blocs: seq<Bloc>, blocScore: Bloc -> real)
    requires forall i :: 0 <= i < |blocs| ==> blocs[i].retry >= 0
    ensures var r := CalculeSessionScore(blocs, blocScore);
      r.nbTry >= r.nbBlocsTry && r.nbTotalBlocs >= r.nbBlocsDiff
  {
    RetrySumCoversTried(blocs);
  }

  /** A single bloc's summary carries its own score, difficulty and retries,
      and a 0/1 count for each test its flags and style pass. */
  lemma SingleBloc(b: Bloc, blocScore: Bloc -> real)
    ensures var r := CalculeSessionScore([b], blocScore);
      && r.score == blocScore(b)
      && r.nbBlocsDiff == 1 && r.nbTry == b.retry && r.nbTotalBlocs == 1 + b.retry
      && r.difficultyMax == r.difficultyMin == Some(b.difficulty)
      && r.averageDifficulty == Some(b.difficulty as real)
      && r.nbBlocsTerminates == (if b.terminate then 1 else 0)
      && r.nbBlocsTry == (if b.retry > 0 then 1 else 0)
      && r.nbBlocsDE == (if b.style == "DE" then 1 else 0)
      && r.nbBlocsDA == (if b.style == "DA" then 1 else 0)
      && r.nbBlocsFlashed == (if b.retry == 0 && b.terminate then 1 else 0)
      && r.averageDifficultyTry == (if b.retry > 0 then Some(b.difficulty as real) else None)
      && r.averageDifficultyFlashed ==
           (if b.retry == 0 && b.terminate then Some(b.difficulty as real) else None)
  {
    assert [b][1..] == [];
    assert SumReal([b], blocScore) == blocScore(b) + SumReal([], blocScore);
    assert SumInt([b], Retry) == Retry(b) + SumInt([], Retry);
    assert SumInt([b], Difficulty) == Difficulty(b) + SumInt([], Difficulty);
    assert Filter([b], IsTried) == if b.retry > 0 then [b] else [];
    assert Filter([b], IsFlashed) == if b.retry == 0 && b.terminate then [b] else [];
  }

  /** `avg`, when defined, is the mean of `count` values summing to `sum`. */
  predicate IsMean(avg: Option<real>, count: nat, sum: int) {
    avg.Some? ==> avg.value * count as real == sum as real
  }

  /** Each defined average is the mean of its difficulties: the average times
      the number of blocs it is taken over equals their difficulty sum. */
  lemma AveragesAreMeans(blocs: seq<Bloc>, blocScore: Bloc -> real)
    ensures var r := CalculeSessionScore(blocs, blocScore);
      && IsMean(r.averageDifficulty, r.nbBlocsDiff, SumInt(blocs, Difficulty))
      && IsMean(r.averageDifficultyTry, r.nbBlocsTry, SumInt(Filter(blocs, IsTried), Difficulty))
      && IsMean(r.averageDifficultyFlashed, r.nbBlocsFlashed, SumInt(Filter(blocs, IsFlashed), Difficulty))
  {
    var r := CalculeSessionScore(blocs, blocScore);
    MeanOf(r.averageDifficulty, r.nbBlocsDiff, blocs);
    MeanOf(r.averageDifficultyTry, r.nbBlocsTry, Filter(blocs, IsTried));
    MeanOf(r.averageDifficultyFlashed, r.nbBlocsFlashed, Filter(blocs, IsFlashed));
  }

  lemma MeanOf(avg: Option<real>, count: nat, sub: seq<Bloc>)
    requires avg == AverageOf(sub, Difficulty) && count == |sub|
    ensures IsMean(avg, count, SumInt(sub, Difficulty))
  {
  }

  /** The summary of two lists joined: every count, the retry total and the
      score add up, so the score is the sum of the per-bloc scores. */
  lemma PerformanceAppend(a: seq<Bloc>, b: seq<Bloc>, blocScore: Bloc -> real)
    ensures var ra, rb, r :=
      CalculeSessionScore(a, blocScore), CalculeSessionScore(b, blocScore), CalculeSessionScore(a + b, blocScore);
      && r.score == ra.score + rb.score
      && r.nbBlocsDiff == ra.nbBlocsDiff + rb.nbBlocsDiff
      && r.nbBlocsTerminates == ra.nbBlocsTerminates + rb.nbBlocsTerminates
      && r.nbBlocsTry == ra.nbBlocsTry + rb.nbBlocsTry
      && r.nbBlocsDE == ra.nbBlocsDE + rb.nbBlocsDE
      && r.nbBlocsDA == ra.nbBlocsDA + rb.nbBlocsDA
      && r.nbBlocsFlashed == ra.nbBlocsFlashed + rb.nbBlocsFlashed
      && r.nbTry == ra.nbTry + rb.nbTry
      && r.nbTotalBlocs == ra.nbTotalBlocs + rb.nbTotalBlocs
  {
    SumRealAppend(a, b, blocScore);
    SumIntAppend(a, b, Retry);
    FilterAppend(a, b, IsTerminated);
    FilterAppend(a, b, IsTried);
    FilterAppend(a, b, IsDE);
    FilterAppend(a, b, IsDA);
    FilterAppend(a, b, IsFlashed);
  }

  /** Every field of the summary is independent of the order of the blocs. */
  lemma PerformancePermutation(a: seq<Bloc>, b: seq<Bloc>, blocScore: Bloc -> real)
    requires multiset(a) == multiset(b)
    ensures CalculeSessionScore(a, blocScore) == CalculeSessionScore(b, blocScore)
  {
    assert |a| == |multiset(a)| == |b|;
    SumRealPermutation(a, b, blocScore);
    SumIntPermutation(a, b, Retry);
    FilterPermutation(a, b, IsTerminated);
    FilterPermutation(a, b, IsTried);
    FilterPermutation(a, b, IsDE);
    FilterPermutation(a, b, IsDA);
    FilterPermutation(a, b, IsFlashed);
    MaxPermutation(a, b, Difficulty);
    MinPermutation(a, b, Difficulty);
    AveragePermutation(a, b, Difficulty);
    AveragePermutation(Filter(a, IsTried), Filter(b, IsTried), Difficulty);
    AveragePermutation(Filter(a, IsFlashed), Filter(b, IsFlashed), Difficulty);
  }

  // ---------------------------------------------------------------------
  // Conversion to API objects

  /** `convertSessionToDto`: the performance is computed whenever the blocs
      were loaded, an empty list included (an empty array is truthy). */
  function ConvertSessionToDto(session: Session, blocScore: Bloc -> real): (r: SessionDto)
    ensures r.id == session.id && r.date == session.date
    ensures r.sessionPerformance.Some? <==> session.blocs.Some?
    ensures session.blocs.Some? ==>
              r.sessionPerformance == Some(CalculeSessionScore(session.blocs.value, blocScore))
    ensures session.blocs == Some([]) ==> r.sessionPerformance == Some(EmptyPerformance)
  {
    SessionDto(
      session.id,
      session.date,
      match session.blocs
      case Some(blocs) => Some(CalculeSessionScore(blocs, blocScore))
      case None => None)
  }

  /** `convertSessionsToDto`: one API object per row, in the same order. */
  function ConvertSessionsToDto(sessions: seq<Session>, blocScore: Bloc -> real): (r: seq<SessionDto>)
    ensures |r| == |sessions|
    ensures forall i :: 0 <= i < |r| ==> r[i] == ConvertSessionToDto(sessions[i], blocScore)
    ensures forall i :: 0 <= i < |r| ==>
              r[i].id == sessions[i].id && r[i].date == sessions[i].date &&
              (r[i].sessionPerformance.Some? <==> sessions[i].blocs.Some?)
  {
    if |sessions| == 0 then []
    else [ConvertSessionToDto(sessions[0], blocScore)] + ConvertSessionsToDto(sessions[1..], blocScore)
  }

  // ---------------------------------------------------------------------
  // Listing sessions

  /** The `date` condition of the session list: inclusive bounds, each
      present only when given. */
  datatype DateBounds = DateBounds(gte: Option<int>, lte: Option<int>)

  /** The `where` object of the session list; `date` absent means no filter. */
  datatype SessionWhere = SessionWhere(date: Option<DateBounds>)

  /** The arguments of the session query: filter, rows skipped, rows taken. */
  datatype SessionFindArgs = SessionFindArgs(where: SessionWhere, skip: int, take: int)

  /** A page of the session list as the API returns it. */
  datatype SessionList = SessionList(data: seq<SessionDto>, pagination: PageInfo)

  /** The filter of `getAllSessions`. `toDate` stands for JavaScript's
      `new Date(...)` on a query string. */
  function BuildSessionWhere(query: SessionQuery, toDate: string -> int): (r: SessionWhere)
    ensures r.date.None? <==> !StringTruthy(query.dateFrom) && !StringTruthy(query.dateTo)
    ensures r.date.Some? ==> r.date.value.gte.Some? || r.date.value.lte.Some?
    ensures r.date.Some? ==>
              (r.date.value.gte.Some? <==> StringTruthy(query.dateFrom)) &&
              (r.date.value.lte.Some? <==> StringTruthy(query.dateTo))
    ensures StringTruthy(query.dateFrom) ==> r.date.value.gte == Some(toDate(query.dateFrom.value))
    ensures StringTruthy(query.dateTo) ==> r.date.value.lte == Some(toDate(query.dateTo.value))
  {
    if StringTruthy(query.dateFrom) || StringTruthy(query.dateTo) then
      SessionWhere(Some(DateBounds(
        if StringTruthy(query.dateFrom) then Some(toDate(query.dateFrom.value)) else None,
        if StringTruthy(query.dateTo) then Some(toDate(query.dateTo.value)) else None)))
    else
      SessionWhere(None)
  }

  /** What a session filter selects: dates within every bound it carries. */
  predicate SessionMatches(where: SessionWhere, date: int) {
    match where.date
    case None => true
    case Some(bounds) =>
      (bounds.gte.None? || bounds.gte.value <= date) &&
      (bounds.lte.None? || date <= bounds.lte.value)
  }

  /** A session is selected exactly when its date is on or after the given
      `dateFrom` and on or before the given `dateTo`; an absent or empty
      bound does not restrict. */
  lemma SessionWhereSelects(query: SessionQuery, toDate: string -> int, date: int)
    ensures SessionMatches(BuildSessionWhere(query, toDate), date) <==>
              (StringTruthy(query.dateFrom) ==> toDate(query.dateFrom.value) <= date) &&
              (StringTruthy(query.dateTo) ==> date <= toDate(query.dateTo.value))
  {
  }

  /** The query arguments of `getAllSessions`. */
  function GetAllSessionsArgs(query: SessionQuery, toDate: string -> int): (r: SessionFindArgs)
    ensures r.take == query.limit.GetOr(DefaultLimit)
    ensures r.skip == Skip(query.page.GetOr(DefaultPage), r.take)
    ensures query.page.None? && query.limit.None? ==> r.skip == 0 && r.take == 100
    ensures r.where == BuildSessionWhere(query, toDate)
    ensures !StringTruthy(query.dateFrom) && !StringTruthy(query.dateTo) ==> r.where == SessionWhere(None)
  {
    var page := query.page.GetOr(DefaultPage);
    var limit := query.limit.GetOr(DefaultLimit);
    SessionFindArgs(BuildSessionWhere(query, toDate), Skip(page, limit), limit)
  }

  /** The response of `getAllSessions` for the rows and the count the
      database returned. */
  function GetAllSessions(query: SessionQuery, rows: seq<Session>, total: nat, blocScore: Bloc -> real): (r: SessionList)
    ensures r.data == ConvertSessionsToDto(rows, blocScore)
    ensures |r.data| == |rows|
    ensures r.pagination == Paginate(query.page, query.limit, total)
    ensures r.pagination.page == query.page.GetOr(DefaultPage)
    ensures r.pagination.limit == query.limit.GetOr(DefaultLimit)
    ensures r.pagination.total == total
    ensures r.pagination.limit > 0 && total == 0 ==> r.pagination.totalPages == Some(0)
    ensures r.pagination.limit > 0 && total > 0 ==>
              r.pagination.totalPages.Some? &&
              (r.pagination.totalPages.value - 1) * r.pagination.limit < total <= r.pagination.totalPages.value * r.pagination.limit
  {
    SessionList(ConvertSessionsToDto(rows, blocScore), Paginate(query.page, query.limit, total))
  }
}
