/**
 * The batch scraper `playerPriceValue`: for every grade and every player it
 * probes the valuation page of that (player, grade) pair and records one
 * observation, with the sentinel text "Error" when the probe fails.
 *
 * The guarded part of one probe (navigate to `Url(id, grade)`, wait for the
 * value element, read its text) is the oracle `extract(id, grade)`: the
 * element's text, or `None` when one of those steps threw. Opening the page,
 * installing the request filter and closing the page sit outside that guard;
 * they are taken to succeed. `extract` is a fixed function, so a pair probed
 * twice is taken to give the same outcome both times. `UrlInjective` shows
 * that distinct pairs address distinct pages, so an oracle indexed by the
 * pair is one indexed by the page.
 */
module Scraper {
  import opened Records
  import opened Decimal

  const PlayerInfoBase: string := "https://fconline.nexon.com/DataCenter/PlayerInfo?spid="
  const GradeParam: string := "&n1Strong="
  const ErrorSentinel: string := "Error"

  /** The `Grade` argument: a single grade or an array of grades. */
  datatype GradeArg = OneGrade(grade: int) | GradeList(grades: seq<int>)

  /** The grades iterated over: an array as given, a single grade as `[grade]`. */
  function Grades(arg: GradeArg): (gs: seq<int>)
    ensures arg.OneGrade? ==> gs == [arg.grade]
    ensures arg.GradeList? ==> gs == arg.grades
  {
    match arg
    case OneGrade(g) => [g]
    case GradeList(gs) => gs
  }

  /** The valuation page of one (player id, grade) pair. */
  function Url(id: int, grade: int): (u: string)
    ensures |u| == |PlayerInfoBase| + |IntToString(id)| + |GradeParam| + |IntToString(grade)|
    ensures u[..|PlayerInfoBase|] == PlayerInfoBase
    ensures u[|PlayerInfoBase|..|PlayerInfoBase| + |IntToString(id)|] == IntToString(id)
    ensures u[|PlayerInfoBase| + |IntToString(id)|..|u| - |IntToString(grade)|] == GradeParam
    ensures u[|u| - |IntToString(grade)|..] == IntToString(grade)
  {
    Concat4(PlayerInfoBase, IntToString(id), GradeParam, IntToString(grade));
    PlayerInfoBase + IntToString(id) + GradeParam + IntToString(grade)
  }

  /** The first, second and last of four concatenated parts are read back by slicing. */
  lemma Concat4<T>(p: seq<T>, a: seq<T>, g: seq<T>, b: seq<T>)
    ensures |p + a + g + b| == |p| + |a| + |g| + |b|
    ensures (p + a + g + b)[..|p|] == p
    ensures (p + a + g + b)[|p|..|p| + |a|] == a
    ensures (p + a + g + b)[|p| + |a|..|p| + |a| + |g|] == g
    ensures (p + a + g + b)[|p| + |a| + |g|..] == b
  {
    var u := p + a + g + b;
    assert u == p + (a + (g + b));
    assert u[|p|..] == a + (g + b);
    assert u[|p| + |a| + |g|..] == u[|p|..][|a| + |g|..];
  }

  /** The observation recorded for one probe. */
  function Observe(extract: (int, int) -> Option<string>, id: int, grade: int): (o: Observation)
    ensures o.id == id && o.prices.grade == grade
  {
    var price := match extract(id, grade)
      case Some(text) => text
      case None => ErrorSentinel;
    Observation(id, PriceEntry(grade, price))
  }

  /** The observations for one grade, one per player, in player order. */
  function Row(extract: (int, int) -> Option<string>, grade: int, data: seq<Player>): (r: seq<Observation>)
    ensures |r| == |data|
    ensures forall k :: 0 <= k < |data| ==> r[k] == Observe(extract, data[k].id, grade)
    decreases |data|
  {
    if data == [] then []
    else
      var init := data[..|data| - 1];
      assert forall k :: 0 <= k < |init| ==> init[k] == data[k];
      Row(extract, grade, init) + [Observe(extract, data[|data| - 1].id, grade)]
  }

  /** All observations of a batch: grade-major, player-minor. */
  function Scrape(extract: (int, int) -> Option<string>, grades: seq<int>, data: seq<Player>): seq<Observation>
    decreases |grades|
  {
    if grades == [] then []
    else Scrape(extract, grades[..|grades| - 1], data) + Row(extract, grades[|grades| - 1], data)
  }

  /** One observation per (grade, player) pair. */
  lemma {:induction false} ScrapeLength(extract: (int, int) -> Option<string>, grades: seq<int>, data: seq<Player>)
    ensures |Scrape(extract, grades, data)| == |grades| * |data|
    decreases |grades|
  {
    if grades != [] {
      ScrapeLength(extract, grades[..|grades| - 1], data);
      MulStep(|grades| - 1, |data|);
    }
  }

  lemma MulStep(m: nat, d: nat)
    ensures (m + 1) * d == m * d + d
  {
  }

  /**
   * `playerPriceValue(data, Grade)`: the nested loops over grades and players,
   * each probe's failure turned into an "Error" observation without stopping
   * the batch.
   */
  method PlayerPriceValue(data: seq<Player>, grade: GradeArg, extract: (int, int) -> Option<string>)
    returns (results: seq<Observation>)
    ensures results == Scrape(extract, Grades(grade), data)
    ensures |results| == |Grades(grade)| * |data|
    ensures grade.OneGrade? ==> results == Row(extract, grade.grade, data)
  {
    var grades := Grades(grade);
    results := [];
    for gi := 0 to |grades|
      invariant results == Scrape(extract, grades[..gi], data)
    {
      results := ProbeGrade(results, data, grades[gi], extract);
      assert grades[..gi + 1][..gi] == grades[..gi];
    }
    assert grades[..|grades|] == grades;
    ScrapeLength(extract, grades, data);
  }

  /** The inner loop of `playerPriceValue`: one probe per player for grade `g`, pushed in player order. */
  method ProbeGrade(results0: seq<Observation>, data: seq<Player>, g: int, extract: (int, int) -> Option<string>)
    returns (results: seq<Observation>)
    ensures results == results0 + Row(extract, g, data)
  {
    results := results0;
    assert data[..0] == [];
    for di := 0 to |data|
      invariant results == results0 + Row(extract, g, data[..di])
    {
      var id := data[di].id;
      var price: string;
      match extract(id, g) {
        case Some(text) => price := text;
        case None => price := ErrorSentinel;
      }
      assert Observation(id, PriceEntry(g, price)) == Observe(extract, id, g);
      RowStep(extract, g, data, di);
      AppendAssoc(results0, Row(extract, g, data[..di]), [Observe(extract, id, g)]);
      results := results + [Observation(id, PriceEntry(g, price))];
    }
    assert data[..|data|] == data;
  }

  lemma RowStep(extract: (int, int) -> Option<string>, grade: int, data: seq<Player>, di: nat)
    requires di < |data|
    ensures Row(extract, grade, data[..di + 1]) == Row(extract, grade, data[..di]) + [Observe(extract, data[di].id, grade)]
  {
    assert data[..di + 1][..di] == data[..di];
  }

  lemma AppendAssoc<T>(a: seq<T>, b: seq<T>, c: seq<T>)
    ensures (a + b) + c == a + (b + c)
  {
  }

  /**
   * The observation for grade number `gi` and player number `di` sits at
   * position `gi * |data| + di`: every player of one grade comes before any
   * player of the next grade, and each entry carries its own id and grade.
   */
  lemma {:induction false} ScrapeAt(extract: (int, int) -> Option<string>, grades: seq<int>, data: seq<Player>, gi: nat, di: nat)
    requires gi < |grades| && di < |data|
    ensures gi * |data| + di < |Scrape(extract, grades, data)|
    ensures Scrape(extract, grades, data)[gi * |data| + di] == Observe(extract, data[di].id, grades[gi])
    decreases |grades|
  {
    var m := |grades|;
    var init := grades[..m - 1];
    var prefix := Scrape(extract, init, data);
    var row := Row(extract, grades[m - 1], data);
    assert Scrape(extract, grades, data) == prefix + row;
    ScrapeLength(extract, init, data);
    if gi < m - 1 {
      ScrapeAt(extract, init, data, gi, di);
      assert init[gi] == grades[gi];
    } else {
      assert gi * |data| + di == |prefix| + di;
    }
  }

  /** A probe records the page text when extraction succeeds and "Error" when it fails. */
  lemma ObserveOutcome(extract: (int, int) -> Option<string>, id: int, grade: int)
    ensures Observe(extract, id, grade).id == id
    ensures Observe(extract, id, grade).prices.grade == grade
    ensures extract(id, grade).Some? ==> Observe(extract, id, grade).prices.price == extract(id, grade).value
    ensures extract(id, grade).None? ==> Observe(extract, id, grade).prices.price == "Error"
  {
  }

  /** Position of the first '&' in `s` (its length when there is none). */
  function AmpersandIndex(s: string): nat {
    if s == [] || s[0] == '&' then 0 else 1 + AmpersandIndex(s[1..])
  }

  lemma {:induction false} AmpersandAfter(a: string, rest: string)
    requires forall k :: 0 <= k < |a| ==> a[k] != '&'
    requires |rest| > 0 && rest[0] == '&'
    ensures AmpersandIndex(a + rest) == |a|
  {
    if a != [] {
      assert (a + rest)[1..] == a[1..] + rest;
      AmpersandAfter(a[1..], rest);
    }
  }

  lemma IntToStringHasNoAmpersand(i: int)
    ensures forall k :: 0 <= k < |IntToString(i)| ==> IntToString(i)[k] != '&'
  {
    var s := IntToString(i);
    if i < 0 {
      assert forall k :: 1 <= k < |s| ==> s[k] == NatToString(-i)[k - 1];
    }
  }

  /** Two texts `a + g + b` and `c + g + d` with `g` starting at the first '&' split alike. */
  lemma SplitAtAmpersand(a: string, b: string, c: string, d: string, g: string)
    requires forall k :: 0 <= k < |a| ==> a[k] != '&'
    requires forall k :: 0 <= k < |c| ==> c[k] != '&'
    requires |g| > 0 && g[0] == '&'
    requires a + (g + b) == c + (g + d)
    ensures a == c && b == d
  {
    AmpersandAfter(a, g + b);
    AmpersandAfter(c, g + d);
    var u := a + (g + b);
    assert a == u[..|a|];
    assert c == u[..|c|];
    assert b == u[|a| + |g|..];
    assert d == (c + (g + d))[|c| + |g|..];
  }

  lemma Regroup<T>(p: seq<T>, a: seq<T>, g: seq<T>, b: seq<T>)
    ensures p + a + g + b == p + (a + (g + b))
  {
  }

  lemma CancelPrefix<T>(p: seq<T>, x: seq<T>, y: seq<T>)
    requires p + x == p + y
    ensures x == y
  {
    assert x == (p + x)[|p|..];
    assert y == (p + y)[|p|..];
  }

  /** Distinct (player id, grade) pairs are probed at distinct URLs. */
  lemma UrlInjective(id1: int, grade1: int, id2: int, grade2: int)
    requires Url(id1, grade1) == Url(id2, grade2)
    ensures id1 == id2 && grade1 == grade2
  {
    var a, b := IntToString(id1), IntToString(grade1);
    var c, d := IntToString(id2), IntToString(grade2);
    Regroup(PlayerInfoBase, a, GradeParam, b);
    Regroup(PlayerInfoBase, c, GradeParam, d);
    CancelPrefix(PlayerInfoBase, a + (GradeParam + b), c + (GradeParam + d));
    IntToStringHasNoAmpersand(id1);
    IntToStringHasNoAmpersand(id2);
    SplitAtAmpersand(a, b, c, d, GradeParam);
    IntToStringInjective(id1, id2);
    IntToStringInjective(grade1, grade2);
  }
}
