/**
 * `playerSearch`: the player-report query. Each selected season code is
 * reduced to the number its last three characters denote; every season
 * number `n` selects the id block `[n * 1000000, n * 1000000 + 999999]`; the
 * base condition matches any name and, when `minOvr > 10`, requires that
 * best position rating. One query runs per season, the season clause being
 * pushed onto the base condition and popped again, and the results are
 * concatenated in season order. With no season at all the base condition is
 * queried alone.
 *
 * The database query is the oracle `find(conditions)`: the reports matching
 * every condition, already in the query's sort order. Its `.limit(10000)` is
 * modelled explicitly by `Limit`.
 */
module Search {
  import opened Records
  import opened Decimal

  const SeasonWidth: int := 1000000
  const ResultLimit: nat := 10000
  const RatingThreshold: int := 10

  /** One selected season: a numeric season code, or the default empty text. */
  datatype Season = Code(n: int) | Blank

  /** The `selectedSeason` argument: one season or an array of seasons. */
  datatype SeasonArg = OneSeason(season: Season) | SeasonList(seasons: seq<Season>)

  /** One element of the `$and` condition list. */
  datatype Clause =
    | NameMatches(pattern: string)
    | MinRating(min: int)
    | IdRange(lo: int, hi: int)

  /** The seasons iterated over: an array as given, a single season as `[season]`. */
  function Seasons(arg: SeasonArg): (ss: seq<Season>)
    ensures arg.OneSeason? ==> ss == [arg.season]
    ensures arg.SeasonList? ==> ss == arg.seasons
  {
    match arg
    case OneSeason(s) => [s]
    case SeasonList(ss) => ss
  }

  /** `String(season)`. */
  function SeasonText(s: Season): (t: string)
    ensures s.Blank? ==> t == ""
    ensures s.Code? ==> NumberOf(t) == Some(s.n)
  {
    match s
    case Code(n) => IntRoundTrip(n); IntToString(n)
    case Blank => ""
  }

  /**
   * The number a season stands for: the default season is 0, a code's last
   * three digits are kept, and a negative code keeps its sign only when it
   * has at most two digits.
   */
  function SeasonCode(s: Season): (n: int)
    ensures -100 < n < 1000
  {
    match s
    case Blank => 0
    case Code(c) => if c >= 0 then c % 1000 else if c > -100 then c else (-c) % 1000
  }

  /** `SeasonCode` is what `Number(String(season).slice(-3))` yields, for every season. */
  lemma SeasonCodeIsLastThreeDigits(s: Season)
    ensures NumberOf(LastThree(SeasonText(s))) == Some(SeasonCode(s))
  {
    if s.Code? {
      SeasonCodeDigits(s.n);
      assert SeasonText(s) == IntToString(s.n);
    }
  }

  /** `Number(String(season).slice(-3))`, evaluated as the source writes it. */
  method SeasonNumber(season: Season) returns (n: int)
    ensures n == SeasonCode(season)
  {
    SeasonCodeIsLastThreeDigits(season);
    match NumberOf(LastThree(SeasonText(season))) {
      case Some(v) => n := v;
      case None => assert false;
    }
  }

  /** `seasonNumbers`: one number per selected season, in order. */
  function SeasonNumbers(ss: seq<Season>): (ns: seq<int>)
    ensures |ns| == |ss|
    ensures forall k :: 0 <= k < |ss| ==> ns[k] == SeasonCode(ss[k])
  {
    seq(|ss|, k requires 0 <= k < |ss| => SeasonCode(ss[k]))
  }

  /** The id block of one season number. */
  function SeasonClause(n: int): (c: Clause)
    ensures c.IdRange? && c.hi - c.lo == SeasonWidth - 1
  {
    var lo := n * SeasonWidth;
    IdRange(lo, lo + 999999)
  }

  /** The `queryCondition` list before any season clause is pushed. */
  function BaseCondition(minOvr: int): (c: seq<Clause>)
    ensures |c| == if minOvr > RatingThreshold then 2 else 1
    ensures c[0] == NameMatches("")
    ensures MinRating(minOvr) in c <==> minOvr > RatingThreshold
    ensures (exists k :: 0 <= k < |c| && c[k].MinRating?) <==> minOvr > RatingThreshold
    ensures forall k :: 0 <= k < |c| && c[k].MinRating? ==> c[k].min == minOvr
    ensures forall k :: 0 <= k < |c| ==> !c[k].IdRange?
  {
    if minOvr > RatingThreshold then [NameMatches(""), MinRating(minOvr)] else [NameMatches("")]
  }

  /** `.limit(10000)`: the first 10000 reports of a query. */
  function Limit(rs: seq<Player>): (r: seq<Player>)
    ensures |r| == if |rs| <= ResultLimit then |rs| else ResultLimit
    ensures |r| <= |rs| && r == rs[..|r|]
    ensures |rs| <= ResultLimit ==> r == rs
  {
    if |rs| <= ResultLimit then rs else rs[..ResultLimit]
  }

  /** One query of the base condition with one season's id block on top. */
  function SeasonQuery(find: seq<Clause> -> seq<Player>, base: seq<Clause>, n: int): seq<Player> {
    Limit(find(base + [SeasonClause(n)]))
  }

  /** The per-season results, concatenated in season order. */
  function SeasonQueries(find: seq<Clause> -> seq<Player>, base: seq<Clause>, ns: seq<int>): seq<Player>
    decreases |ns|
  {
    if ns == [] then []
    else SeasonQueries(find, base, ns[..|ns| - 1]) + SeasonQuery(find, base, ns[|ns| - 1])
  }

  /** Each season adds one query's results after those of the seasons before it. */
  lemma SeasonQueriesStep(find: seq<Clause> -> seq<Player>, base: seq<Clause>, ns: seq<int>, k: nat)
    requires k < |ns|
    ensures SeasonQueries(find, base, ns[..k + 1]) == SeasonQueries(find, base, ns[..k]) + SeasonQuery(find, base, ns[k])
  {
    assert ns[..k + 1][..k] == ns[..k];
  }

  /** Every season contributes at most 10000 reports. */
  lemma {:induction false} SeasonQueriesBound(find: seq<Clause> -> seq<Player>, base: seq<Clause>, ns: seq<int>)
    ensures |SeasonQueries(find, base, ns)| <= |ns| * ResultLimit
    decreases |ns|
  {
    if ns != [] {
      SeasonQueriesBound(find, base, ns[..|ns| - 1]);
      assert |ns| * ResultLimit == (|ns| - 1) * ResultLimit + ResultLimit;
    }
  }

  /** What `playerSearch(selectedSeason, minOvr)` resolves to. */
  function SearchResult(find: seq<Clause> -> seq<Player>, selected: SeasonArg, minOvr: int): seq<Player> {
    var ns := SeasonNumbers(Seasons(selected));
    var base := BaseCondition(minOvr);
    if |ns| > 0 then SeasonQueries(find, base, ns) else Limit(find(base))
  }

  /** The first loop of `playerSearch`: one season number pushed per selected season. */
  method CollectSeasonNumbers(selectedSeasons: seq<Season>) returns (seasonNumbers: seq<int>)
    ensures seasonNumbers == SeasonNumbers(selectedSeasons)
  {
    seasonNumbers := [];
    for k := 0 to |selectedSeasons|
      invariant |seasonNumbers| == k
      invariant forall i :: 0 <= i < k ==> seasonNumbers[i] == SeasonCode(selectedSeasons[i])
    {
      var seasonNumber := SeasonNumber(selectedSeasons[k]);
      seasonNumbers := seasonNumbers + [seasonNumber];
    }
  }

  /**
   * `playerSearch`: the loop computing the season numbers, then the loop
   * pushing each season clause onto `queryCondition`, querying, popping it
   * again and concatenating the reports.
   */
  method PlayerSearch(selected: SeasonArg, minOvr: int, find: seq<Clause> -> seq<Player>)
    returns (playerReports: seq<Player>)
    ensures playerReports == SearchResult(find, selected, minOvr)
  {
    var selectedSeasons := Seasons(selected);
    var seasonNumbers := CollectSeasonNumbers(selectedSeasons);

    playerReports := [];
    var queryCondition := [NameMatches("")];
    if minOvr > RatingThreshold {
      queryCondition := queryCondition + [MinRating(minOvr)];
    }
    assert queryCondition == BaseCondition(minOvr);

    if |seasonNumbers| > 0 {
      playerReports := QuerySeasons(queryCondition, seasonNumbers, find);
    } else {
      playerReports := playerReports + Limit(find(queryCondition));
    }
  }

  /**
   * The season loop of `playerSearch`: for each season number the block
   * clause is pushed onto the condition list, the query is run with its
   * limit, the clause is popped again, and the results are appended.
   */
  method QuerySeasons(base: seq<Clause>, seasonNumbers: seq<int>, find: seq<Clause> -> seq<Player>)
    returns (playerReports: seq<Player>)
    ensures playerReports == SeasonQueries(find, base, seasonNumbers)
  {
    playerReports := [];
    var queryCondition := base;
    for k := 0 to |seasonNumbers|
      invariant queryCondition == base
      invariant playerReports == SeasonQueries(find, base, seasonNumbers[..k])
    {
      var seasonNumber := seasonNumbers[k] * SeasonWidth;
      var seasonCondition := IdRange(seasonNumber, seasonNumber + 999999);
      assert seasonCondition == SeasonClause(seasonNumbers[k]);
      queryCondition := queryCondition + [seasonCondition];
      var playerReport := Limit(find(queryCondition));
      assert playerReport == SeasonQuery(find, base, seasonNumbers[k]);
      queryCondition := queryCondition[..|queryCondition| - 1];
      assert queryCondition == base;
      SeasonQueriesStep(find, base, seasonNumbers, k);
      playerReports := playerReports + playerReport;
    }
    assert seasonNumbers[..|seasonNumbers|] == seasonNumbers;
  }

  /** An id lies in the block of season number `n` exactly when its millions part is `n`. */
  lemma SeasonClauseMatches(n: int, id: int)
    ensures SeasonClause(n).lo <= id <= SeasonClause(n).hi <==> id / SeasonWidth == n
  {
    var lo := n * SeasonWidth;
    DivBlock(id);
    if lo <= id <= lo + 999999 {
      DivInBlock(n, id - lo);
    }
  }

  lemma DivBlock(id: int)
    ensures (id / SeasonWidth) * SeasonWidth <= id <= (id / SeasonWidth) * SeasonWidth + 999999
  {
    assert id == (id / SeasonWidth) * SeasonWidth + id % SeasonWidth;
  }

  lemma DivInBlock(n: int, r: int)
    requires 0 <= r < SeasonWidth
    ensures (n * SeasonWidth + r) / SeasonWidth == n
  {
  }

  /** The blocks of two different season numbers share no id. */
  lemma SeasonClausesDisjoint(n: int, m: int, id: int)
    requires n != m
    ensures !(SeasonClause(n).lo <= id <= SeasonClause(n).hi && SeasonClause(m).lo <= id <= SeasonClause(m).hi)
  {
    SeasonClauseMatches(n, id);
    SeasonClauseMatches(m, id);
  }

  /** Searching the seasons of `a` and then those of `b` gives the two result lists one after the other. */
  lemma {:induction false} SeasonQueriesConcat(find: seq<Clause> -> seq<Player>, base: seq<Clause>, a: seq<int>, b: seq<int>)
    ensures SeasonQueries(find, base, a + b) == SeasonQueries(find, base, a) + SeasonQueries(find, base, b)
    decreases |b|
  {
    if b == [] {
      assert a + b == a;
    } else {
      var init := b[..|b| - 1];
      var last := b[|b| - 1];
      assert (a + b)[..|a + b| - 1] == a + init;
      assert (a + b)[|a + b| - 1] == last;
      SeasonQueriesConcat(find, base, a, init);
      var q := SeasonQuery(find, base, last);
      assert (SeasonQueries(find, base, a) + SeasonQueries(find, base, init)) + q
          == SeasonQueries(find, base, a) + (SeasonQueries(find, base, init) + q);
    }
  }

  /** Every season's query is the base condition with exactly that season's block added. */
  lemma SingleSeasonSearch(find: seq<Clause> -> seq<Player>, s: Season, minOvr: int)
    ensures SearchResult(find, OneSeason(s), minOvr)
         == Limit(find(BaseCondition(minOvr) + [SeasonClause(SeasonCode(s))]))
  {
    var ns := SeasonNumbers([s]);
    var base := BaseCondition(minOvr);
    assert ns == [SeasonCode(s)];
    assert ns[..0] == [];
    assert SeasonQueries(find, base, ns) == [] + SeasonQuery(find, base, SeasonCode(s));
  }

  /** The default call `playerSearch()` queries the block of season 0 with no rating clause. */
  lemma DefaultSearch(find: seq<Clause> -> seq<Player>)
    ensures SearchResult(find, OneSeason(Blank), 0)
         == Limit(find([NameMatches(""), IdRange(0, 999999)]))
  {
    SingleSeasonSearch(find, Blank, 0);
    assert SeasonClause(0) == IdRange(0, 999999);
    assert BaseCondition(0) + [IdRange(0, 999999)] == [NameMatches(""), IdRange(0, 999999)];
  }

  /** An empty season list falls back to the base condition alone. */
  lemma NoSeasonSearch(find: seq<Clause> -> seq<Player>, minOvr: int)
    ensures SearchResult(find, SeasonList([]), minOvr) == Limit(find(BaseCondition(minOvr)))
  {
  }

  /** With `k` seasons the search returns at most `10000 * k` reports. */
  lemma SearchBound(find: seq<Clause> -> seq<Player>, ss: seq<Season>, minOvr: int)
    requires |ss| > 0
    ensures |SearchResult(find, SeasonList(ss), minOvr)| <= |ss| * ResultLimit
  {
    SeasonQueriesBound(find, BaseCondition(minOvr), SeasonNumbers(ss));
  }
}
