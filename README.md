# FC Online price crawler — a verified Dafny model of its core

`crawler.js` does four jobs:

- It pulls player reports out of a catalogue database, one query per selected season.
- It probes a valuation page for every (player, grade) pair through a headless browser. A request filter on the browser keeps images, fonts and trackers out.
- It writes the observed prices back to a price store as one bulk write.
- It merges newly built season packs into a stored value chart by pack name.

It also ranks a batch of observations by price and keeps the first entries.

This project models those pieces as Dafny modules, one per component. Each operation has the form the source gives it. The loops that push into arrays (the probe loops, the season loops, the merge loop) are methods with loop invariants. They are proved equal to specification functions, and the properties the code promises are proved about those functions. The in-place sort works on an `array`. The request filter and the bulk-operation map are functions.

| file | module | models |
|---|---|---|
| `records.dfy` | `Records` | the values passed between stages: players, observations, packs |
| `decimal.dfy` | `Decimal` | JavaScript `String(i)` for safe integers (magnitude at most 2^53 - 1), `Number(text)` on the texts the crawler produces, and `slice(-3)` |
| `routing.dfy` | `Routing` | the request filter `blockUnwantedResources` |
| `scraper.dfy` | `Scraper` | `playerPriceValue`: the valuation URL and the nested probe loops |
| `price_store.dfy` | `PriceStore` | `saveToDB`: the `bulkOps` list |
| `ranking.dfy` | `Ranking` | `SortAndSlice`: comma stripping, a stable in-place sort by descending key, the slice |
| `search.dfy` | `Search` | `playerSearch`: season numbers, id blocks, the condition list, the per-season queries |
| `merge.dfy` | `PackMerge` | the `seasonPack` merge in `main` |

Interfaces to the outside world are parameters:

- The guarded part of one probe (navigation, the wait for the value element and reading its text, crawler.js:93-111) is `extract(id, grade)`. It returns the element's text, or `None` when one of those steps throws.
- The catalogue query is `find(conditions)`. It returns the matching reports in the query's sort order. Its `.limit(10000)` is written out as `Search.Limit`.
- The locale number parser applied to a price text is `parse(text)`, an arbitrary total function to integers.

## Model

| member | source | states |
|---|---|---|
| `Routing.Includes` | crawler.js:61 | `url.includes(domain)` holds exactly when the domain occurs at some index of the URL |
| `Routing.AnyIncluded` | crawler.js:61 | `blockedDomains.some(...)` holds exactly when some listed domain is included in the URL |
| `Routing.Route` | crawler.js:55-66 | a request is aborted if and only if its type is image, stylesheet, font or media, or its URL contains "google-analytics.com" or "doubleclick.net"; otherwise it continues |
| `Routing.BlockedTypeAborts` | crawler.js:55-63 | a blocked resource type is aborted whatever its URL |
| `Routing.PlainRequestContinues` | crawler.js:59-66 | script and document requests whose URL mentions neither domain continue |
| `Routing.TrackerInsideUrlAborts` | crawler.js:56-63 | a denylisted domain anywhere inside a longer URL still aborts the request |
| `Decimal.IntToString` | crawler.js:141 | `String(i)`: a non-empty text that starts with '-' exactly for a negative integer, followed by digits only |
| `Decimal.IntToStringCanonical` | crawler.js:141 | `String(i)` is the canonical decimal: an optional '-' for a negative integer, then digits with no leading zero except in "0" itself |
| `Decimal.NumberOf` | crawler.js:198 | `Number(text)` on the crawler's texts: a digit run gives a non-negative value, and only a text starting with '-' gives a negative one |
| `Decimal.IntRoundTrip` | crawler.js:141 | `Number(String(id))` gives every integer id back |
| `Decimal.IntToStringInjective` | crawler.js:141 | distinct integers have distinct decimal texts |
| `Decimal.LastThree` | crawler.js:198 | `slice(-3)` keeps the last three characters, or all of a shorter text |
| `Decimal.DigitsLastThree` | crawler.js:198 | the last three digits of a digit string denote its value modulo 1000 |
| `Decimal.SeasonCodeDigits` | crawler.js:198 | `Number(String(n).slice(-3))` is `n mod 1000` for `n >= 0`; it is `n` for `-100 < n < 0`; it is `(-n) mod 1000` for `n <= -100` |
| `Scraper.Grades` | crawler.js:74-78 | an array of grades is iterated as given; a single grade is iterated as `[grade]` |
| `Scraper.Url` | crawler.js:88 | the valuation URL is the player-info address, the id's text, the `&n1Strong=` separator and the grade's text, read back part by part |
| `Scraper.Observe` | crawler.js:113-124 | the pushed record carries the probed id and grade; its price is given by `Scraper.ObserveOutcome` |
| `Scraper.Row` | crawler.js:86-124 | the probes of one grade: one observation per player, in player order, each carrying that player's id and the grade |
| `Scraper.PlayerPriceValue` | crawler.js:70-136 | the nested loops yield exactly the grade-major list of probes; there are `|grades| * |data|` of them; a single grade is treated as `[grade]` |
| `Scraper.ProbeGrade` | crawler.js:86-128 | the inner loop appends the probes of one grade after what was already collected |
| `Scraper.ScrapeLength` | crawler.js:85-129 | one observation per (grade, player) pair |
| `Scraper.ScrapeAt` | crawler.js:85-124 | the entry for grade `gi` and player `di` sits at `gi * |data| + di`, so all entries of a grade precede the next grade's |
| `Scraper.ObserveOutcome` | crawler.js:108-124 | an observation carries its own id and grade, the page text on success and "Error" on failure |
| `Scraper.UrlInjective` | crawler.js:88 | distinct (id, grade) pairs address distinct valuation URLs |
| `PriceStore.ToUpdate` | crawler.js:139-147 | one observation's operation: its filter id is exactly `String(id)` and reads back as the observation's id, the filter and array filter name its grade, it sets its price, and it upserts |
| `PriceStore.MapSeq` | crawler.js:139 | `results.map(...)`: as many entries as the input, the i-th being the function applied to the i-th input |
| `PriceStore.BulkOps` | crawler.js:139-148 | one operation per observation, in order, each an upsert whose filter id is exactly `String(id)` of its observation and whose array filter selects the filtered grade |
| `PriceStore.SaveToDB` | crawler.js:150-159 | no write happens exactly when the batch is empty |
| `PriceStore.BulkOpsRoundTrip` | crawler.js:139-148 | reading the filters and set price back recovers exactly the observation list: the `String(id)` filter, the grade and the price |
| `PriceStore.SaveToDBWritesEveryObservation` | crawler.js:139-152 | a non-empty batch is written, the write holds exactly `BulkOps` of the batch (so every upsert flag, array filter and `String(id)` filter promised there), and it decodes to the whole batch |
| `PriceStore.DistinctPlayersDistinctFilters` | crawler.js:141 | observations of different players never share a filter id |
| `Ranking.CommaIndex` | crawler.js:167 | the position `replace` acts on: no comma before it, and a comma at it when it is inside the text |
| `Ranking.StripWithoutComma` | crawler.js:167 | a price text without a comma is parsed unchanged |
| `Ranking.StripFirstComma` | crawler.js:167 | `replace(",", "")` shortens a text by one exactly when it holds a comma, and leaves a comma-free text as it is |
| `Ranking.StripRemovesOneComma` | crawler.js:167 | `replace(",", "")` removes exactly one comma, the first: the text before it and the text after it are kept in order |
| `Ranking.PriceKey` | crawler.js:166-171 | the ranking key of every observation is the parse of its price text with the first comma removed (so "12,000" is ranked as "12000"); it depends only on the price text, and is the parsed text itself when there is no comma |
| `Ranking.SortDescSorted` | crawler.js:165-176 | the ranking is ordered by non-increasing key |
| `Ranking.SortDescPermutes` | crawler.js:163-176 | the ranking is a permutation of the input |
| `Ranking.SortDescStable` | crawler.js:165-176 | entries with equal keys keep their input order |
| `Ranking.StableSortUnique` | crawler.js:165-176 | any sorted, stable reordering equals the reference ranking, so the model stands for every stable sort with this comparator |
| `Ranking.InsertLast` | crawler.js:165-176 | one insertion step on the array: `a[i]` lands at `j`, after the entries of `a[..i]` ranking at least as high, and nothing beyond `i` moves |
| `Ranking.InsertionPoint` | crawler.js:165-176 | in a ranked list the insertion step and the reference insertion agree |
| `Ranking.SortInPlace` | crawler.js:165-176 | `data.sort(...)` leaves the array holding the reference ranking of its old contents |
| `Ranking.SliceEnd` | crawler.js:178 | `slice(0, end)` keeps `min(end, len)` entries for a non-negative end |
| `Ranking.SortAndSlice` | crawler.js:162-183 | the result is the first `slice` entries (default 100) of the ranking of a copy: exactly `min(slice, |result|)` entries, sorted, drawn from the input |
| `Search.SeasonText` | crawler.js:198 | `String(season)`: the default season gives "", and a code's text reads back as that code |
| `Search.Seasons` | crawler.js:187-191 | an array of seasons is iterated as given; a single season is iterated as `[season]` |
| `Search.SeasonCodeIsLastThreeDigits` | crawler.js:197-199 | `Number(String(season).slice(-3))` equals the closed form `SeasonCode`; the default `""` gives 0 |
| `Search.SeasonNumber` | crawler.js:198 | the expression evaluated as written yields the closed form |
| `Search.CollectSeasonNumbers` | crawler.js:197-199 | the first loop pushes one season number per selected season, in order |
| `Search.SeasonNumbers` | crawler.js:192-199 | as many season numbers as seasons, each the closed form of its season |
| `Search.SeasonClause` | crawler.js:215-222 | a season's id block has width 1000000 |
| `Search.BaseCondition` | crawler.js:203-211 | the list starts with the any-name clause and has two clauses when `minOvr > 10`, one otherwise; some rating clause is present exactly when `minOvr > 10`, and every rating clause asks for `minOvr`; no id clause is present |
| `Search.Limit` | crawler.js:244 | `.limit(10000)` keeps a prefix: exactly 10000 reports of a longer list, all of a shorter one |
| `Search.PlayerSearch` | crawler.js:185-273 | the function returns `SearchResult`: per season, the base condition plus that season's block, with results concatenated in season order; an empty season list queries the base alone |
| `Search.QuerySeasons` | crawler.js:214-246 | the season loop, with its push and pop of the block clause, yields the per-season limited results concatenated in season order, and leaves the condition list as it found it |
| `Search.SeasonQueriesStep` | crawler.js:224-246 | each iteration appends exactly one season's query result |
| `Search.SeasonQueriesBound` | crawler.js:244-246 | `k` seasons yield at most `10000 * k` reports |
| `Search.SeasonClauseMatches` | crawler.js:215-221 | an id is in season `n`'s block exactly when `id / 1000000 == n` |
| `Search.SeasonClausesDisjoint` | crawler.js:215-221 | blocks of different season numbers share no id |
| `Search.SeasonQueriesConcat` | crawler.js:246 | searching seasons `a` then `b` gives the results for `a` followed by those for `b` |
| `Search.SingleSeasonSearch` | crawler.js:185-246 | a single season runs exactly one query: the base condition plus that season's block |
| `Search.DefaultSearch` | crawler.js:185-246 | `playerSearch()` queries season 0's block, ids 0 to 999999, with no rating clause |
| `Search.NoSeasonSearch` | crawler.js:248-270 | an empty season array queries the base condition alone |
| `Search.SearchBound` | crawler.js:213-247 | a search over `k` seasons returns at most `10000 * k` reports |
| `PackMerge.FindIndex` | crawler.js:442-444 | -1 exactly when no pack has the name; otherwise the first position holding it |
| `PackMerge.Spread` | crawler.js:448-451 | `{...stored, ...incoming}`: the union of the fields, where incoming fields win and other stored fields are kept |
| `PackMerge.MergeOne` | crawler.js:442-455 | one iteration: the incoming name is present afterwards and every stored position keeps its name; a present name keeps the length, turns the pack `findIndex` returns into the spread of it with the incoming pack, and changes no other position; a new name is appended |
| `PackMerge.MergeSeasonPacks` | crawler.js:430-460 | the loop yields the fold of the merge step over the incoming packs; without a stored chart the result is the incoming list |
| `PackMerge.FoldSpread` | crawler.js:441-451 | the reference for one stored pack: each same-named incoming pack spread over it in turn; the name is kept |
| `PackMerge.Unseen` | crawler.js:452-455 | the incoming packs with names the stored list lacks, in incoming order |
| `PackMerge.MergeAllKeepsStored` | crawler.js:439-456 | stored packs are never dropped, moved or renamed |
| `PackMerge.MergeAllAt` | crawler.js:441-451 | a stored pack the first of its name ends up as all same-named incoming packs spread over it; a later duplicate is never found and stays as it was |
| `PackMerge.UntouchedPackUnchanged` | crawler.js:441-451 | a stored pack no incoming pack names keeps its index and its contents |
| `PackMerge.MatchingPackOverwritten` | crawler.js:446-451 | with distinct stored names, one matching incoming pack overwrites its namesake in place by the spread, and the length is unchanged |
| `PackMerge.MergeAllAppendsUnseen` | crawler.js:452-455 | with distinct incoming names, the packs after the stored ones are exactly the unseen incoming packs in order, so the length is the stored count plus the number of new names |
| `PackMerge.MergeAllKeepsUniqueNames` | crawler.js:441-456 | distinct stored names stay distinct after merging |

## Left out

- Browser lifecycle: launching and closing the browser, contexts and pages, navigation, the 80-second wait and reading the element text (crawler.js:13-41, 89-111, 125-135). These are I/O against a third-party site. They are summarised by the `extract` oracle; the URL the page would be opened at is `Scraper.Url`.
- The oracle is indexed by (id, grade) rather than by URL text. `Scraper.UrlInjective` shows the two are the same.
- A probe's failure includes a timeout or a missing element. The model's `None` covers every such failure; which one happened is not recorded.
- `Scraper.PlayerPriceValue`: failures outside the per-probe guard are not modelled. These are starting the browser and its context (crawler.js:81-82), opening a page and installing the request filter (crawler.js:89-90), and closing a page (crawler.js:126). In the source such a throw leaves both loops: the browser is closed (crawler.js:132-135), no list is returned, and `main` exits (crawler.js:476-478). The model assumes these steps succeed, so it always returns `|grades| * |data|` observations.
- `Scraper.PlayerPriceValue`: `extract` is a fixed function of (id, grade). A pair probed twice, through a repeated grade or player, is assumed to give the same outcome both times. A real page can time out once and load the next time.
- Database calls: `PlayerReports.find(...).populate().sort()`, `Price.bulkWrite`, `EventValueChart.findOne` and `updateOne`. They are foreign persistence and are not modelled.
  - The query's effect is the oracle `find`.
  - The bulk write is modelled as the list of operations handed over. How an upsert with an array filter changes stored documents is not modelled.
  - A failed bulk write is caught and only logged (crawler.js:154-156), so it changes nothing in the model.
- `HanTools.parseNumber` and `Number` on its result: a foreign locale parser, so the sort key is an arbitrary total `parse` from text to integers.
  - Floating-point keys and NaN are not modelled. The text "Error" gets whatever key `parse` gives it. The source's comparator has no defined order for NaN, and the model does not choose a place for failed probes.
- `Ranking.SortInPlace`: the engine's own sort algorithm is not modelled. An insertion sort stands for it. `Ranking.StableSortUnique` shows every stable sort with this comparator gives the same result.
- `Decimal.IntToString`: ids, grades and season codes are taken to be safe integers, of magnitude at most 2^53 - 1 (`Number.MAX_SAFE_INTEGER`); the crawler's ids are below 1e9. JavaScript numbers are doubles. Above 2^53, `String` prints the shortest digits that read back to the same double, padded with zeros: `String(2**60)` is "1152921504606847000", where `IntToString` gives the exact digits ending in "976", so `Search.SeasonCode` gives 976 where the source gives 0. From 1e21 on, `String` uses exponent notation: `String(1e21)` is "1e+21", whose last three characters are "+21".
- `Decimal.NumberOf`: models `Number` only on the texts the crawler hands it: the empty text, digit runs and '-' followed by digits. `None` stands for every other text. For some of those JavaScript gives NaN, and for others a number ("+21", " 7", "1e3" and "0x10" give 21, 7, 1000 and 16). None of them arises from the integers modelled here.
- `Search.Season`: a season is an integer code or the default empty text. A non-numeric season text (whose number would be NaN) is not modelled.
- The campaign blocks of `main` (crawler.js:276-404) and the leaderboard entries they build are not modelled. They push into variables that are never declared (crawler.js:349, 371, 398) and so end in the catch and `process.exit(1)`.
- `PackMerge.MergeSeasonPacks`: the merge is a standalone method taking the stored pack list (or none) and the incoming list. The chart lookup and the final `updateOne` around it are left out.
- Stored packs are plain field maps. Spreading a stored document object is taken to copy its fields; what the database library's document objects actually expose to a spread is not part of this model.
- Logging, `process.exit`, the environment-variable choice of the browser binary (crawler.js:25-28) and the commented-out code (crawler.js:43-51, 405-428) are left out.
- Concurrency: the `async`/`await` steps run one after another, so they are modelled as sequential code.
- `Search.PlayerSearch`: the `populate` joins and the sort key of the query are inside the `find` oracle. Only the `limit` is written out.
