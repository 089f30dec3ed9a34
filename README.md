# Darts high-average scrapers, modelled in Dafny

This project models two scripts of a darts-results scraper:

- `run_scrapers.py` runs every region.
- `yorkshire.py` is the browser-rendered scraper for one region.

Both scripts share the same pipeline:

- read a season's results listing and date its tournaments;
- keep the tournaments dated yesterday, skip those dated today, and stop once the listing is older than yesterday;
- scrape the tournament's `/results` page, its `/groups` page and every distinct group page for three-dart averages of 85.0 or more;
- write a CSV report of distinct rows, sorted by average, highest first.

The two scripts date tournaments differently:

- `run_scrapers.py` walks the page's nodes in document order. It attaches each tournament link to the last date seen in a text node.
- `yorkshire.py` climbs at most 25 ancestors of each tournament anchor. It uses the first ancestor whose rendered text holds a date.

The model is split into modules:

- `Text` models the Python string operations the scripts rely on: `split()`/`join`, `strip`, `lower`, `startswith`, `in`, `split(sep, 1)`, `rstrip`, `splitlines`, `str(int)` and `int(str)`.
- `Dates` models `parse_date`, the `DATE_RE` search, `strptime("%b")`, calendar validity and `timedelta(days=1)`.
- `Paths` models the tournament-path classifier and `href_to_path`.
- `Dedup` models order-preserving de-duplication: the seen-set loops, `dict.fromkeys` and the set-comprehension dedup.
- `Averages` models the average pairs of a page, the threshold filter and the group pages.
- `Report` models the CSV text, the descending stable sort and reading the CSV back.
- `Tournaments` holds the (title, URL) record.
- `Scans` and `Folds` hold generic scan and fold shapes:
  - a per-element emitter;
  - the first stopping index;
  - the first `Some` in a bounded prefix;
  - a fold that gives up at the first failure;
  - a fold that keeps what was done before a failure.
- `RunScrapers` and `Yorkshire` hold the two scripts.

Some inputs are modelled as plain values:

- **Fetched pages.** Every fetched page is looked up in a `Site = map<url, Page>`. A page holds the matches its text yields and the hrefs of its links. A URL missing from the map is a failed fetch, and the run aborts with that URL, as an uncaught exception does.
- **Listings.** The `run_scrapers.py` listing is the sequence of `body.descendants`. The `yorkshire.py` listing is the sequence of tournament anchors, each with the rendered texts of its ancestors, nearest first.
- **Today's date.** The clock's date is a parameter `today`.

Each loop of the source is a `method` with a `while` loop. It is proved equal to a specification function, and the properties the scripts promise are proved as lemmas about those functions.

Three behaviours of the code are easy to miss; the model follows the code in each:

- **Trailing newline.** The tournament-path pattern `^/tournaments/([A-Za-z0-9]+)$` (run_scrapers.py:19) also accepts a path that ends in one final newline, because Python's `$` also matches just before a trailing newline. `Paths.TournamentPathShape` states this.
- **Early stop in `yorkshire.py`.** `yorkshire.py` stops at the first tournament anchor dated before yesterday, whether or not a yesterday anchor was met earlier, as its docstring says (yorkshire.py:14, 179-181). `run_scrapers.py` stops only after a yesterday link (run_scrapers.py:82, 120-121). `Yorkshire.OldFirstAnchor` shows that nothing is collected when the first anchor is old.
- **Undated anchor.** In `yorkshire.py`, an anchor without a dated card ends the scan and keeps the tournaments already collected (yorkshire.py:171-174).

## Model

| member | source | states |
|---|---|---|
| Text.Lower | run_scrapers.py:63 | `lower()` keeps the length and lower-cases each ASCII capital, leaving other characters alone |
| Text.LowerChar | run_scrapers.py:63 | a letter lower-cases to `a`..`z`; a character that is not a capital is unchanged |
| Text.Strip | run_scrapers.py:154 | `strip()` gives nothing exactly for all-whitespace text, and otherwise text that neither starts nor ends with whitespace; `Text.StripSlice` places it in the input |
| Text.StripSlice | run_scrapers.py:154 | what `strip()` keeps is a slice of the input with only whitespace before it and only whitespace after it, so with the contract of `Text.Strip` it is the input without its leading and trailing whitespace |
| Text.WordLen | run_scrapers.py:47 | the first word of `split()` is the maximal run of non-whitespace characters |
| Text.WordsCons | run_scrapers.py:47 | `split()` skips leading whitespace and splits off the first word whole |
| Text.WordsOfSpace | run_scrapers.py:47 | whitespace-only text has no words |
| Text.WordsAppend | run_scrapers.py:47 | text ending in whitespace splits into its own words followed by the words of what comes after it |
| Text.JoinAppend | run_scrapers.py:47 | joining two non-empty word lists puts exactly one space between them |
| Text.CollapseNoDigits | run_scrapers.py:47 | collapsing whitespace brings no digit into text without digits |
| Text.Find | run_scrapers.py:107 | the separator `split(p, 1)` cuts at is the first occurrence of `p`, or there is none anywhere |
| Text.Before | run_scrapers.py:107 | `split(p, 1)[0]` is the prefix of the text in which `p` does not start, ending where the first `p` starts (the whole text when there is no `p`) |
| Text.BeforeChar | run_scrapers.py:107 | cutting at the first `c` keeps the prefix up to that `c`, which holds no `c`, and keeps text without `c` whole |
| Text.After | yorkshire.py:128 | `split(p, 1)[1]` is absent (where Python raises IndexError) exactly when `p` does not occur, and otherwise is the whole text after the first `p` |
| Text.AfterChar | yorkshire.py:128 | the text after the first `c` is everything after that `c` |
| Text.RStripChar | run_scrapers.py:165 | `rstrip("/")` gives a prefix that does not end in `/`, and everything it drops is `/` |
| Text.NatToDecimal | run_scrapers.py:206 | the numeral of a number is a non-empty run of digits that starts with `0` only for 0, so it has no leading zeros |
| Text.DecimalRoundTrip | run_scrapers.py:54 | `int(str(n)) == n` |
| Dates.PrevDay | run_scrapers.py:248 | `today - timedelta(days=1)` fails exactly on 0001-01-01; otherwise the result is the valid date immediately before, with no valid date between the two |
| Dates.DaysInMonth | run_scrapers.py:54 | every month has 28 to 31 days |
| Dates.DateTokenAt | run_scrapers.py:16 | a `DATE_RE` match has a 4-digit year, a 3-letter month and a day of 1 or 2 digits |
| Dates.MonthDayAt | run_scrapers.py:16 | after the year and its `\s+`, a match goes on with exactly three letters starting where that whitespace ends, and has the day's properties |
| Dates.DayAt | run_scrapers.py:16 | after the month and its `\s+`, the day group is the one or two characters starting where that whitespace ends, all digits |
| Dates.DateTokenAtIs | run_scrapers.py:16 | when the year, both whitespace runs, the month letters and a one- or two-digit day ending at a word boundary are all in place, the match at that position has exactly those groups |
| Dates.FindDateFrom | run_scrapers.py:48 | the search from `i` finds the leftmost matching position, or reports that no position matches |
| Dates.FindDate | run_scrapers.py:48 | `DATE_RE.search` fails exactly when no position matches; a match found is the match at some position |
| Dates.MonthNumber | run_scrapers.py:53 | `strptime(mon, "%b")` succeeds exactly for an English abbreviation in any letter case, and gives its month number |
| Dates.MonthIndexFrom | run_scrapers.py:53 | the month table lookup finds the abbreviation's index, or reports that it is absent |
| Dates.TokenDate | run_scrapers.py:54 | a date built from a match is a valid calendar date |
| Dates.ParseDate | run_scrapers.py:46-56 | `parse_date` yields only valid dates, and nothing when the collapsed text holds no match |
| Dates.ParseDateOfDateText | run_scrapers.py:46-56 | text that starts, after whitespace, with "year month day" separated by whitespace of any kind and length, and a day written without a leading zero, parses to that date when the month and day are valid, and to nothing otherwise |
| Dates.ParseDateInText | run_scrapers.py:46-56 | after any text without digits ending in whitespace, such as a title line, "year month day" with any whitespace between the parts, a one- or two-digit day (leading zero allowed) and optional punctuation glued to the day, parses to that date when the month and day are valid, and to nothing otherwise |
| Dates.TokenDateOfNumerals | run_scrapers.py:54 | the groups of a match that spell a year and a day in decimal give back those numbers: the date is the one those parts name |
| Dates.CollapseAroundDate | run_scrapers.py:47 | collapsing such text gives digit-free text ending in a space, the date as "YYYY Mon D", and text starting with a non-word character |
| Dates.ParseDateOfExactText | run_scrapers.py:46-56 | "YYYY Mon D" parses to that date exactly when the month and day are valid |
| Dates.FirstTokenOnly | run_scrapers.py:48-56 | only the first match counts: an invalid first date gives no date even when a valid date follows |
| Dates.DateTokenOfCollapsed | run_scrapers.py:48 | collapsed text starting with a date token is matched at position 0 |
| Dates.FindDateAfter | run_scrapers.py:48 | after digit-free text ending in a non-word character, the first `DATE_RE` match of collapsed "YYYY Mon D..." is that token |
| Dates.FindDateSkip | run_scrapers.py:48 | the search finds no match starting in text without digits |
| Dates.DateTokenAtAfter | run_scrapers.py:16 | "YYYY Mon D" laid out after a non-word character matches `DATE_RE` right there, with exactly its year, month and day as groups |
| Paths.TournamentSlug | run_scrapers.py:19 | a match of the tournament-path pattern captures a non-empty run of ASCII letters and digits |
| Paths.TournamentPathShape | run_scrapers.py:59-64 | a path is a tournament path exactly when it is "/tournaments/" plus a slug of letters and digits, not reserved in any letter case, optionally followed by one final newline |
| Paths.ValidPathSlug | run_scrapers.py:59-64 | every valid tournament path has that shape, with its slug as witness |
| Paths.SlugPathValid | run_scrapers.py:59-64 | every path of that shape is valid |
| Paths.StripQueryFragment | run_scrapers.py:107 | cutting at "?" and then at "#" keeps the prefix of the href up to its first "?" or "#", which holds neither, and leaves an href without them unchanged |
| Paths.StripQueryFragmentOf | run_scrapers.py:107 | whatever follows the first "?" or "#" is cut off, and what comes before is kept whole |
| Paths.HrefToPath | yorkshire.py:122-131 | `href_to_path` is empty or a path starting with "/" without query or fragment, and maps "" to "" |
| Paths.HrefToPathIdempotent | yorkshire.py:122-131 | applying `href_to_path` twice changes nothing more |
| Paths.PathFixed | yorkshire.py:131 | a path without query or fragment is kept as it is |
| Paths.HrefToPathOfAbsolute | yorkshire.py:126-128 | an absolute http(s) URL becomes "/" plus the path after its host |
| Paths.HrefToPathOfBareHost | yorkshire.py:127-130 | an absolute URL with no path after its host becomes "" |
| Paths.HrefToPathOfRelative | yorkshire.py:131 | a relative href that is not an `http` URL gets a leading "/" |
| Paths.HrefToPathCut | yorkshire.py:125 | a query or fragment is dropped before the href is looked at, and an href that is only a query or fragment becomes "/" |
| Dedup.KeysOf | run_scrapers.py:126-128 | the seen set holds the key of every element |
| Dedup.KeysOfWitness | run_scrapers.py:126-128 | every key in the seen set comes from some element |
| Dedup.FirstIndex | run_scrapers.py:126-128 | the index at which a key is first seen |
| Dedup.DedupBy | run_scrapers.py:126-128 | seen-set de-duplication never lengthens the list |
| Dedup.DedupBySnoc | run_scrapers.py:126-128 | one more element is appended exactly when its key was not yet seen |
| Dedup.DedupByKeys | run_scrapers.py:126-128 | de-duplication keeps every key |
| Dedup.DedupByFirst | run_scrapers.py:126-128 | every kept element is the first element with its key |
| Dedup.DedupByOrder | run_scrapers.py:126-128 | kept elements are in the order their keys are first seen |
| Dedup.DedupByDistinctKeys | run_scrapers.py:126-128 | no key is kept twice |
| Dedup.DistinctProperties | run_scrapers.py:185-187 | the distinct list has no repeats, the same members as the input, and first-occurrence order |
| Dedup.DistinctCount | run_scrapers.py:200 | the distinct list holds each row of the input exactly once, like the set of rows |
| Dedup.RemoveRepeats | run_scrapers.py:186-187 | the seen-set loop builds the distinct list |
| Tournaments.RecordStep | run_scrapers.py:126-132 | recording a yesterday link appends it when its URL is new and changes nothing when the URL was seen |
| Averages.PlayerAvgs | run_scrapers.py:146-156 | every match gives two pairs |
| Averages.PlayerAvgsAt | run_scrapers.py:154-155 | match `k` gives pair `2k` (first player, stripped, with the first average) and pair `2k+1` (second player, with the second average) |
| Averages.ParsePlayerAvgs | run_scrapers.py:146-156 | the loop builds exactly those pairs |
| Averages.Qualifying | run_scrapers.py:169-171 | filtering never adds rows |
| Averages.QualifyingMember | run_scrapers.py:169-171 | a row is kept exactly when it is a pair of the page reaching 85.00, tagged with the title and section |
| Averages.QualifyingAppend | run_scrapers.py:169-171 | filtering two pages in turn gives the rows of the first, then those of the second |
| Averages.AppendQualifying | run_scrapers.py:169-171 | the filter loop appends exactly the qualifying rows |
| Averages.GroupRowsSound | run_scrapers.py:189-193 | each group row is a qualifying pair of one of the fetched group pages, tagged `groups` |
| Averages.GroupRowsFetched | run_scrapers.py:189-190 | the group pages succeed exactly when every link can be fetched; otherwise the error is the first link that cannot be fetched |
| Averages.TournamentRows | run_scrapers.py:164-195 | every row reaches the threshold and carries the title, `matches` rows come before `groups` rows, and `matches` rows are pairs of the results page |
| Averages.ScrapeGroups | run_scrapers.py:189-193 | the group loop appends the group rows, or fails with the first unfetchable link |
| Report.HundredthsRoundTrip | run_scrapers.py:206 | reading the two-decimal rendering of an average back gives the same average |
| Report.TwoDigitValue | run_scrapers.py:206 | the two decimal digits read back as their value |
| Report.BodySnoc | run_scrapers.py:205-206 | writing one more row appends its line |
| Report.ReportSnoc | run_scrapers.py:203-206 | the report grows by one line per row after the header |
| Report.WriteRows | run_scrapers.py:203-206 | the writing loop produces the header followed by one line per row, in order |
| Report.LineFields | run_scrapers.py:206 | a line without commas in its player or title has exactly four comma-separated fields: value, player, title, section |
| Report.LineRoundTrip | run_scrapers.py:206 | such a line reads back as its row |
| Report.LineNoBreak | run_scrapers.py:206 | such a line holds no line break of its own |
| Report.BodyRoundTrip | run_scrapers.py:205-206 | the lines of such rows read back as those rows, in order |
| Report.ReportRoundTrip | run_scrapers.py:203-206 | a whole report of such rows reads back as its rows |
| Report.EmptyReport | run_scrapers.py:204 | a report with no rows is exactly the header line |
| Report.InsertDescSorted | run_scrapers.py:201 | inserting a row into a descending list keeps it descending and adds exactly that row |
| Report.InsertDescPerm | run_scrapers.py:201 | insertion adds exactly the inserted row, whatever the list |
| Report.HeadDominates | run_scrapers.py:201 | a permutation of rows bounded by a value stays bounded by it |
| Report.SortSortedPermutation | run_scrapers.py:201 | the sort yields a descending permutation of its input |
| Report.InsertDescStable | run_scrapers.py:201 | insertion keeps the relative order of rows of equal value |
| Report.SortStable | run_scrapers.py:201 | the sort is stable: rows of equal value keep their input order |
| Report.WithValueAppend | run_scrapers.py:201 | the rows of one value in two lists are those of the first list, then those of the second |
| Report.DistinctReportRows | yorkshire.py:247-248 | the written rows are sorted descending, hold each distinct input row exactly once, and keep first-occurrence order among rows of equal value |
| Report.WriteReport | yorkshire.py:245-253 | `write_report` writes the header and the distinct rows, sorted |
| RunScrapers.LinkPath | run_scrapers.py:104-110 | a link counts only with a valid tournament path, cut at "?" and "#" |
| RunScrapers.LinkPathCut | run_scrapers.py:105-110 | a link is judged by its href up to the first "?" or "#", whatever follows |
| RunScrapers.StrippedParts | run_scrapers.py:129 | the stripped text pieces of a link are never empty |
| RunScrapers.Title | run_scrapers.py:129-131 | the title is never empty: the collapsed link text, or the URL |
| RunScrapers.DateAfter | run_scrapers.py:94-100 | the current date, once set, is a valid date |
| RunScrapers.HitAfter | run_scrapers.py:123-132 | a node is recorded exactly when it is a tournament link whose current date is yesterday and not today |
| RunScrapers.ScanEndFrom | run_scrapers.py:119-121 | the scan ends at the end of the page, or at a link that stops it |
| RunScrapers.ScanEnd | run_scrapers.py:94-121 | the scan never runs past the page |
| RunScrapers.ScanStep | run_scrapers.py:94-132 | one more node updates the current date when its text holds a date, and records a tournament when it is a yesterday link |
| RunScrapers.ScanStepAt | run_scrapers.py:94-132 | the same step at index `i`, together with whether the scan stops there |
| RunScrapers.CollectedAt | run_scrapers.py:119-134 | where the scan stops, the result is the de-duplicated links recorded before |
| RunScrapers.CollectYesterdayTournaments | run_scrapers.py:77-134 | the document-order loop returns exactly the collected tournaments |
| RunScrapers.VisitNode | run_scrapers.py:94-132 | one pass of the loop: the node ends the scan exactly when it is a link dated before yesterday after a hit, and otherwise the current date, the found flag, the recorded entries and the seen URLs are those of the nodes so far |
| RunScrapers.HitsSound | run_scrapers.py:123-132 | every recorded entry comes from a yesterday link |
| RunScrapers.HitsComplete | run_scrapers.py:123-132 | every yesterday link is recorded |
| RunScrapers.CollectedSound | run_scrapers.py:123-132 | every collected tournament has a non-empty title and the site root plus a valid tournament path as its URL, and it comes from a yesterday link before the stop |
| RunScrapers.CollectedComplete | run_scrapers.py:123-132 | every yesterday link before the stop has its URL collected |
| RunScrapers.CollectedDistinct | run_scrapers.py:126-128 | no URL is collected twice, and tournaments appear in the order their URLs are first met |
| RunScrapers.EarlyStop | run_scrapers.py:119-121 | an early stop happens only at a link dated before yesterday and not today, after a yesterday link, so it always comes with a non-empty result |
| RunScrapers.ScanEndFirst | run_scrapers.py:119-121 | the scan stops at the first stopping link |
| RunScrapers.StopIgnoresRest | run_scrapers.py:120-121 | after an early stop, whatever follows on the page changes nothing |
| RunScrapers.GroupHrefsMember | run_scrapers.py:177-183 | the group links are exactly the hrefs containing "/group/", relative ones put on the site root |
| RunScrapers.GroupHrefsSound | run_scrapers.py:177-183 | every collected group link is some href containing "/group/", relative ones put on the site root |
| RunScrapers.GroupHrefsComplete | run_scrapers.py:177-183 | every href containing "/group/" gives a collected group link |
| RunScrapers.GroupLinksProperties | run_scrapers.py:177-187 | every group link is scraped once, and only links from such hrefs are |
| RunScrapers.CollectGroupLinks | run_scrapers.py:177-187 | the loop and its dedup give exactly those links |
| RunScrapers.ScrapeSpecRows | run_scrapers.py:159-195 | every row of a tournament reaches 85.00 and carries its title, `matches` rows come before `groups` rows, and `matches` rows are pairs of the `/results` page |
| RunScrapers.ScrapeTournament | run_scrapers.py:159-195 | `scrape_tournament` returns the rows of the results page, then those of every group page, or fails at the first page that cannot be fetched |
| RunScrapers.RegionRowsSound | run_scrapers.py:262-267 | every region row comes from one tournament's rows, carries its title and reaches the threshold |
| RunScrapers.RegionRowsComplete | run_scrapers.py:262-267 | every row of every tournament is among the region's rows |
| RunScrapers.RegionRowsFailed | run_scrapers.py:262-267 | a failing region fails at the first tournament that fails, with that tournament's error |
| RunScrapers.ScrapeAll | run_scrapers.py:262-267 | the tournament loop concatenates the rows, or stops at the first failure |
| RunScrapers.EnumerationReport | run_scrapers.py:198-206 | whatever order the set of rows is iterated in, the report is sorted descending, holds each distinct row once, and reads back unchanged when no player or title holds a comma or line break |
| RunScrapers.DistinctEnumeration | run_scrapers.py:200 | the first-occurrence order used by the model is one enumeration of the set of rows |
| RunScrapers.RegionReport | run_scrapers.py:256-271 | a region fails only on a page that cannot be fetched: exactly when its listing or one of its tournaments' pages is missing |
| RunScrapers.HeaderOnlyReport | run_scrapers.py:269-271 | a region without tournaments or without qualifying rows still gets a header-only report |
| RunScrapers.RunRegion | run_scrapers.py:256-272 | one region's work produces its report, or fails at the first page that cannot be fetched |
| RunScrapers.RegionsWritten | run_scrapers.py:256-272 | each written report is its region's report at that region's path |
| RunScrapers.RegionsStopped | run_scrapers.py:256-272 | a run that does not fail writes every region; one that fails does so at the region after the last written one, on a fetch |
| RunScrapers.RunSpec | run_scrapers.py:247-253 | the run fails for lack of a yesterday exactly on 0001-01-01, and for lack of region scripts exactly when there are none |
| RunScrapers.RunRegions | run_scrapers.py:256-272 | the region loop writes the regions in turn until one fails |
| RunScrapers.Run | run_scrapers.py:244-272 | `main` up to the e-mail |
| Yorkshire.LevelCard | yorkshire.py:147-152 | an ancestor is a card exactly when its stripped text is non-empty and holds a date; the card keeps that text and date |
| Yorkshire.CardOfFirst | yorkshire.py:140-153 | the card is the nearest dated ancestor among the first 25; there is none exactly when none of those is dated; a card found has non-empty text holding its date |
| Yorkshire.CardOfBounded | yorkshire.py:142 | ancestors beyond the 25th are never looked at |
| Yorkshire.LevelStep | yorkshire.py:143-152 | one level of the climb returns the card or moves to the next level |
| Yorkshire.FindCardWithDate | yorkshire.py:140-153 | the climbing loop returns exactly the card |
| Yorkshire.TitleLines | yorkshire.py:190-191 | the fallback title lines are never empty |
| Yorkshire.TitleOf | yorkshire.py:188-192 | a non-blank anchor text is the title, stripped; with a URL the title is never empty |
| Yorkshire.TitleLinesFirst | yorkshire.py:190-192 | the first fallback line is the first card line that is non-blank and holds no date, stripped |
| Yorkshire.TitleLinesEmpty | yorkshire.py:190-192 | there is no fallback line exactly when every card line is blank or holds a date |
| Yorkshire.TitleFromCard | yorkshire.py:188-192 | a blank anchor takes the first such card line as its title |
| Yorkshire.TitleFromUrl | yorkshire.py:192 | a blank anchor without such a line takes the URL as its title |
| Yorkshire.HitOf | yorkshire.py:182-193 | an anchor is recorded exactly when it is a tournament anchor with a card dated yesterday and not today |
| Yorkshire.ScanEndFrom | yorkshire.py:171-181 | the scan ends at the end of the anchors, or at an anchor that stops it |
| Yorkshire.ScanEnd | yorkshire.py:165-181 | the scan never runs past the anchors |
| Yorkshire.ScanStepAt | yorkshire.py:165-193 | one more anchor is recorded when it is a yesterday anchor, and the scan stops there when the anchor stops it |
| Yorkshire.AnchorStep | yorkshire.py:165-193 | the same step in terms of the anchor's path and card: no card or one older than yesterday stops the scan; today is skipped |
| Yorkshire.VisitAnchor | yorkshire.py:165-193 | one pass of the loop: the anchor ends the scan exactly when it stops it, and otherwise the recorded entries and the seen URLs are those of the anchors so far |
| Yorkshire.CollectedAt | yorkshire.py:171-198 | where the scan stops, the result is the de-duplicated anchors recorded before |
| Yorkshire.CollectYesterdayTournaments | yorkshire.py:155-198 | the anchor loop returns exactly the collected tournaments |
| Yorkshire.HitsSound | yorkshire.py:182-193 | every recorded entry comes from a yesterday anchor |
| Yorkshire.HitsComplete | yorkshire.py:182-193 | every yesterday anchor is recorded |
| Yorkshire.CollectedSound | yorkshire.py:182-193 | every collected tournament has a non-empty title and the site root plus a valid tournament path as its URL, and it comes from an anchor before the stop whose card is dated yesterday |
| Yorkshire.CollectedComplete | yorkshire.py:182-193 | every yesterday anchor before the stop has its URL collected |
| Yorkshire.CollectedNotToday | yorkshire.py:177-182 | with yesterday the day before today, a recorded card is dated before today and not after it |
| Yorkshire.CollectedDistinct | yorkshire.py:184-187 | no URL is collected twice, and tournaments appear in the order their URLs are first met |
| Yorkshire.EarlyStop | yorkshire.py:171-181 | an early stop happens only at a tournament anchor without a card, or with one dated before yesterday and not today |
| Yorkshire.ScanEndFirst | yorkshire.py:171-181 | the scan stops at the first stopping anchor |
| Yorkshire.OldFirstAnchor | yorkshire.py:179-181 | an old first anchor stops the scan at once, so nothing is collected |
| Yorkshire.StopIgnoresRest | yorkshire.py:171-181 | after an early stop, whatever follows changes nothing |
| Yorkshire.GroupHrefsMember | yorkshire.py:230-234 | the group links are exactly the hrefs containing "/group/", taken as given |
| Yorkshire.GroupLinksProperties | yorkshire.py:230-235 | every group link is scraped once, only such hrefs are, and in order of first occurrence |
| Yorkshire.CollectGroupLinks | yorkshire.py:230-235 | the loop and `dict.fromkeys` give exactly those links |
| Yorkshire.ScrapeSpecRows | yorkshire.py:217-243 | every row of a tournament reaches 85.00 and carries its title, `matches` rows come before `groups` rows, and `matches` rows are pairs of the `/results` page |
| Yorkshire.ScrapeTournament | yorkshire.py:217-243 | `scrape_tournament` returns the rows of the results page, then those of every group page, or fails at the first page that cannot be fetched |
| Yorkshire.AllRowsSound | yorkshire.py:274-279 | every row comes from one tournament's rows, carries its title and reaches the threshold |
| Yorkshire.AllRowsComplete | yorkshire.py:274-279 | every row of every tournament is among all the rows |
| Yorkshire.AllRowsFailed | yorkshire.py:274-279 | a failure is that of the first tournament that fails |
| Yorkshire.ScrapeAll | yorkshire.py:274-279 | the tournament loop concatenates the rows, or stops at the first failure |
| Yorkshire.RunSpec | yorkshire.py:263-281 | the run fails for lack of a yesterday exactly on 0001-01-01; no report is written exactly when no tournament is collected; a fetch failure comes from scraping a collected tournament |
| Yorkshire.Run | yorkshire.py:257-283 | `main`, with the clock's date given and the rendered page as its anchors |

## Left out

- HTTP fetching with `requests`, HTML parsing with BeautifulSoup, and Selenium's driver, waits and rendering are not modelled: pages are values (`Site`, the node sequence, the anchor list). A fetch that raises is a URL missing from `Site`.
- Averages.PlayerAvgs: the regexes `BESTOF_PAIR_RE` and `PAIR_RE` are not modelled: a page's matches are given as captured (`PairMatch`). The two patterns differ: `PAIR_RE` forbids digits and line breaks in names. The `ValueError` branch cannot be reached for captures of the form `\d+(\.\d+)?`, so it is left out.
- Averages are integer hundredths, not floats; `.2f` formatting is modelled on them. An average with more than two decimals is not covered.
- `london_today` and the Europe/London time zone are left out: `today` is a parameter.
- `strptime("%b")` is modelled with the fixed English month table; other locales are not.
- Dates.ParseDate: the date returned is proved only where the date follows text without digits (`Dates.ParseDateInText`). When digits come before the date, as in "Round 3 2026 Feb 14", only the general contract holds: the result is a valid date, and there is none when the collapsed text holds no match. Which earlier digits could begin a match depends on the text.
- `\d`, `\w` and `\b` are modelled over ASCII. Python's `re` also accepts Unicode digits and letters. `IsSpace` is exactly Python's `str.isspace()`, Unicode whitespace included.
- `str.splitlines()` is approximated by splitting at every line-break character. The two agree on the non-blank lines, which are the only ones used.
- `found_yesterday` in `yorkshire.py` only affects a log line, so it is left out.
- Python's set iteration order in `run_scrapers.py` is not fixed. The model writes rows in first-occurrence order; `RunScrapers.EnumerationReport` states what holds for every iteration order.
- Printing, `os.makedirs` and the file write are left out: a report is the text written.
- `load_region_configs` (reading sibling scripts with `SEASON_URL_RE` and `REPORT_PATH_RE`) is left out: the configurations are a parameter.
- The e-mail sending in `run_scrapers.py` (attachments, SMTP) is left out.
- In `yorkshire.py`, a failed parent lookup is modelled by the end of the anchor's ancestor list.
- The `href` property Selenium reports is given as is. The CSS selectors `a[href^='/tournaments/']` and `a[href*='/group/']` are not modelled: the anchors and hrefs they select are inputs.
- In `yorkshire.py`, a failure to load the season listing itself is not modelled.
- Rendered element text (`.text`, `get_text`) is given as strings: whitespace is handled as the code handles it, not as a browser renders it.
