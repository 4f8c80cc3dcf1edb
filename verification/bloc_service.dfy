/** The pure part of the bloc service: the global statistics computed from
    every stored bloc, and the filter and paging arguments of the bloc list.
    The 2-decimal rounding `Math.round(x * 100) / 100` of the statistics is
    floating-point behaviour and is taken as the parameter `round`. */
module BlocService {
  import opened Wrappers
  import opened Models
  import opened Folds
  import opened Histograms
  import opened Pagination

  /** Mean retry count before rounding; 0 when there is no bloc. */
  function AverageRetry(blocs: seq<Bloc>): (r: real)
    ensures |blocs| == 0 ==> r == 0.0
    ensures |blocs| > 0 ==> AverageOf(blocs, Retry) == Some(r)
    ensures |blocs| > 0 ==> MinOf(blocs, Retry).value as real <= r <= MaxOf(blocs, Retry).value as real
  {
    AverageBetweenExtrema(blocs, Retry);
    AverageOf(blocs, Retry).GetOr(0.0)
  }

  /** Percentage of terminated blocs before rounding; 0 when there is no bloc. */
  function TerminateRate(blocs: seq<Bloc>): (r: real)
    ensures 0.0 <= r <= 100.0
    ensures |blocs| == 0 ==> r == 0.0
    ensures |blocs| > 0 ==> r * |blocs| as real == 100.0 * |Filter(blocs, IsTerminated)| as real
    ensures |blocs| > 0 ==> (r == 100.0 <==> forall i :: 0 <= i < |blocs| ==> blocs[i].terminate)
    ensures r == 0.0 <==> forall i :: 0 <= i < |blocs| ==> !blocs[i].terminate
  {
    AllOrNoneTerminated(blocs);
    var count, n := |Filter(blocs, IsTerminated)|, |blocs|;
    if n > 0 then Percent(count, n) else 0.0
  }

  /** `(count / n) * 100` for `0 <= count <= n`, in exact reals. */
  function Percent(count: nat, n: nat): (r: real)
    requires 0 < n && count <= n
    ensures 0.0 <= r <= 100.0
    ensures r * n as real == 100.0 * count as real
    ensures r == 100.0 <==> count == n
    ensures r == 0.0 <==> count == 0
  {
    var q := count as real / n as real;
    assert q * n as real == count as real;
    DivideBounds(count, n, 0, 1);
    assert q == 1.0 ==> count == n;
    q * 100.0
  }

  /** The terminated count is the whole list exactly when every bloc is
      terminated, and zero exactly when none is. */
  lemma {:induction false} AllOrNoneTerminated(blocs: seq<Bloc>)
    ensures |Filter(blocs, IsTerminated)| == |blocs| <==> forall i :: 0 <= i < |blocs| ==> blocs[i].terminate
    ensures |Filter(blocs, IsTerminated)| == 0 <==> forall i :: 0 <= i < |blocs| ==> !blocs[i].terminate
  {
    if |blocs| > 0 {
      AllOrNoneTerminated(blocs[1..]);
      assert forall i :: 1 <= i < |blocs| ==> blocs[i] == blocs[1..][i - 1];
    }
  }

  /** The in-memory part of `getBlocStats` over the rows the database returned. */
  function GetBlocStats(allBlocs: seq<Bloc>, round: real -> real): (r: BlocStats)
    ensures r.total == |allBlocs|
    ensures forall d :: d in r.byDifficulty <==> exists i :: 0 <= i < |allBlocs| && allBlocs[i].difficulty == d
    ensures forall d :: d in r.byDifficulty ==> r.byDifficulty[d] == Occurrences(allBlocs, Difficulty, d)
    ensures forall st :: st in r.byStyle <==> exists i :: 0 <= i < |allBlocs| && allBlocs[i].style == st
    ensures forall st :: st in r.byStyle ==> r.byStyle[st] == Occurrences(allBlocs, Style, st)
    ensures MapTotal(r.byDifficulty) == r.total && MapTotal(r.byStyle) == r.total
    ensures r.avgRetry == round(AverageRetry(allBlocs))
    ensures r.terminateRate == round(TerminateRate(allBlocs))
  {
    HistogramTotal(allBlocs, Difficulty);
    HistogramTotal(allBlocs, Style);
    BlocStats(
      total := |allBlocs|,
      byDifficulty := Histogram(allBlocs, Difficulty),
      byStyle := Histogram(allBlocs, Style),
      avgRetry := round(AverageRetry(allBlocs)),
      terminateRate := round(TerminateRate(allBlocs)))
  }

  /** The statistics depend only on the multiset of blocs, not their order. */
  lemma BlocStatsPermutation(a: seq<Bloc>, b: seq<Bloc>, round: real -> real)
    requires multiset(a) == multiset(b)
    ensures GetBlocStats(a, round) == GetBlocStats(b, round)
  {
    assert |a| == |multiset(a)| == |b|;
    HistogramPermutation(a, b, Difficulty);
    HistogramPermutation(a, b, Style);
    SumIntPermutation(a, b, Retry);
    assert AverageRetry(a) == AverageRetry(b);
    FilterPermutation(a, b, IsTerminated);
    assert TerminateRate(a) == TerminateRate(b);
  }

  // ---------------------------------------------------------------------
  // Listing blocs

  /** The `where` object of the bloc list; an absent field does not filter. */
  datatype BlocWhere = BlocWhere(sessionId: Option<int>, difficulty: Option<int>, styleContains: Option<string>)

  /** The arguments of the bloc query: filter, rows skipped, rows taken. */
  datatype BlocFindArgs = BlocFindArgs(where: BlocWhere, skip: int, take: int)

  /** A page of the bloc list as the API returns it. */
  datatype BlocList = BlocList(blocs: seq<Bloc>, pagination: PageInfo)

  /** `sub` occurs in `s` as a contiguous substring. */
  predicate Contains(s: string, sub: string) {
    exists i :: 0 <= i <= |s| && sub <= s[i..]
  }

  /** The filter of `getAllBlocs`: a session and a difficulty are added only
      when truthy (so 0 adds none), a style only when non-empty, and the
      style is matched as a substring. */
  function BuildBlocWhere(query: BlocQuery): (r: BlocWhere)
    ensures r.sessionId.Some? <==> NumberTruthy(query.sessionId)
    ensures r.difficulty.Some? <==> NumberTruthy(query.difficulty)
    ensures r.styleContains.Some? <==> StringTruthy(query.style)
    ensures r.sessionId.Some? ==> r.sessionId == query.sessionId
    ensures r.difficulty.Some? ==> r.difficulty == query.difficulty
    ensures r.styleContains.Some? ==> r.styleContains == query.style
  {
    BlocWhere(
      if NumberTruthy(query.sessionId) then query.sessionId else None,
      if NumberTruthy(query.difficulty) then query.difficulty else None,
      if StringTruthy(query.style) then query.style else None)
  }

  /** What a bloc filter selects. */
  predicate BlocMatches(where: BlocWhere, b: Bloc) {
    && (where.sessionId.None? || b.sessionId == where.sessionId.value)
    && (where.difficulty.None? || b.difficulty == where.difficulty.value)
    && (where.styleContains.None? || Contains(b.style, where.styleContains.value))
  }

  /** A bloc is selected exactly when it belongs to the requested session,
      has the requested difficulty and contains the requested style text,
      each condition applying only when its query field is truthy. */
  lemma BlocWhereSelects(query: BlocQuery, b: Bloc)
    ensures BlocMatches(BuildBlocWhere(query), b) <==>
              && (NumberTruthy(query.sessionId) ==> b.sessionId == query.sessionId.value)
              && (NumberTruthy(query.difficulty) ==> b.difficulty == query.difficulty.value)
              && (StringTruthy(query.style) ==> Contains(b.style, query.style.value))
  {
  }

  /** A query without filter fields, or with falsy ones (0, ""), selects
      every bloc. */
  lemma FalsyFieldsSelectAll(query: BlocQuery, b: Bloc)
    requires !NumberTruthy(query.sessionId) && !NumberTruthy(query.difficulty) && !StringTruthy(query.style)
    ensures BuildBlocWhere(query) == BlocWhere(None, None, None)
    ensures BlocMatches(BuildBlocWhere(query), b)
  {
  }

  /** The query arguments of `getAllBlocs`. */
  function GetAllBlocsArgs(query: BlocQuery): (r: BlocFindArgs)
    ensures r.take == query.limit.GetOr(DefaultLimit)
    ensures r.skip == Skip(query.page.GetOr(DefaultPage), r.take)
    ensures query.page.None? && query.limit.None? ==> r.skip == 0 && r.take == 100
    ensures r.where == BuildBlocWhere(query)
  {
    var page := query.page.GetOr(DefaultPage);
    var limit := query.limit.GetOr(DefaultLimit);
    BlocFindArgs(BuildBlocWhere(query), Skip(page, limit), limit)
  }

  /** The response of `getAllBlocs` for the rows and the count the database
      returned: the rows unchanged and the pagination block. */
  function GetAllBlocs(query: BlocQuery, rows: seq<Bloc>, total: nat): (r: BlocList)
    ensures r.blocs == rows
    ensures r.pagination == Paginate(query.page, query.limit, total)
    ensures r.pagination.page == query.page.GetOr(DefaultPage)
    ensures r.pagination.limit == query.limit.GetOr(DefaultLimit)
    ensures r.pagination.total == total
    ensures r.pagination.limit > 0 && total == 0 ==> r.pagination.totalPages == Some(0)
    ensures r.pagination.limit > 0 && total > 0 ==>
              r.pagination.totalPages.Some? &&
              (r.pagination.totalPages.value - 1) * r.pagination.limit < total <= r.pagination.totalPages.value * r.pagination.limit
  {
    BlocList(rows, Paginate(query.page, query.limit, total))
  }
}
