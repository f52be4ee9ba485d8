# Newsletter feed scraper, builder and link checker — a Dafny model

This project models the three Node scripts that feed a photovoltaic-industry
newsletter:

- **`scripts/scrape-feeds.mjs`** scrapes each source. It fetches the home page,
  discovers the site's RSS/Atom feeds and tries them in order. It parses the
  first one that yields items and otherwise falls back to headline links of
  the home page. It runs the sources under a bounded-concurrency `pMap`, then
  flattens the items and counts the outcomes.
- **`scripts/build-newsletter.mjs`** renders that output. It escapes HTML,
  builds the tariff and bonus table bodies, sorts and groups the news items
  by source, renders the news section and fills in the editorial placeholders.
- **`scripts/check-sources.mjs`** checks each source URL once. It applies the
  OK rule, writes the CSV report and counts OK/KO.

The network is an oracle `Http.Fetcher` (a function from URL to a response or
to the message of a thrown error). URL resolution (`new URL(u, base)`) is an
abstract `Feeds.Resolver`. Dates are an abstract integer key (`dateKey`), and
their French formatting is an abstract function (`fmtDate`). The regular
expressions the scripts use are written out as explicit scanners (module
`Scan`) that reproduce their leftmost-match, lazy and greedy behaviour.
Each loop of the scripts is a `method` with its invariants. The method is
proved equal to a specification function, and the properties the scripts
promise are lemmas about those functions.

Modules:

- `Wrappers`: `Option`.
- `Text`: trimming, search, `replaceAll`, `join`/`split` and decimal numbers.
- `Seqs`: `slice`, `new Set` de-duplication and filtering of absent values.
- `Scan`: the regex scanners.
- `Http`: the fetch oracle.
- `Scheduler`: `pMap`.
- `Feeds`: `parseXmlItems`, `discoverFeeds` and `parseHtmlTitles`.
- `Scrape`: `scrapeSource` and `main`.
- `Newsletter`: `build-newsletter.mjs`.
- `CheckSources`: `check-sources.mjs`.

Where the written description of the system and the code differ, the model
follows the code:

- A feed block with a title but no link is not dropped. `toAbs("", feedUrl)`
  resolves to the feed URL itself. The model keeps that call, so such an item
  gets URL `Resolve("", feedUrl)`.
- The HTML fallback sets mode `html` even when it finds nothing. A home-page
  failure leaves the mode `null`; there is no separate "none" value.
- The anchor fallback of `parseHtmlTitles` does not de-duplicate URLs. Only
  the heading pass does.
- Where the regexes differ, the model follows each one:
  - In the Atom `<link>` and `<a>` patterns, `[^>]*href=` is greedy. Those
    patterns take the *last* `href=` of the tag.
  - `discoverFeeds` reads `href` and `type` with separate patterns. Those
    take the *first* occurrence.
- In `check-sources.mjs` the OK rule `resp.ok || 200 <= status < 400`
  reduces to `200 <= status < 400`, because `resp.ok` means 200..299.
- Without items, `buildNewsItems` returns the "Aucune actualité" article.
  Otherwise it shows at most `maxSources` sources in order of first
  appearance after the newest-first sort.

## Model

| member | source | states |
|---|---|---|
| Text.Trim | scripts/scrape-feeds.mjs:40 | `.trim()` gives a slice `s[a..b]` of the input with only white space before `a` and after `b` and none at either end of the slice; it is empty exactly when the input is all white space |
| Text.TrimOfTrimmed | scripts/scrape-feeds.mjs:44 | trimming an already trimmed text changes nothing |
| Text.ReplaceAll | scripts/build-newsletter.mjs:55 | definition of `replaceAll` with a string pattern: each occurrence found scanning from the left, without overlap, is replaced; properties in `Text.ReplaceAllRemoves` |
| Text.ReplaceAllRemoves | scripts/build-newsletter.mjs:55 | after `replaceAll` of a `{{name}}` placeholder with a brace-free text, that placeholder no longer occurs, and one that was absent stays absent |
| Text.Utf16Length | scripts/scrape-feeds.mjs:123 | JavaScript's `length` counts each character beyond U+FFFF twice: it lies between the number of characters and twice that, and equals the number of characters exactly when there is no such character |
| Text.DecimalRoundTrip | scripts/scrape-feeds.mjs:146 | the decimal text of the status in the "HTTP n sur home" message reads back as that status |
| Seqs.Take | scripts/scrape-feeds.mjs:129 | `slice(0, n)` is the prefix of length `min(n, length)` and the whole list when it is short |
| Seqs.DedupByIsKeepFirst | scripts/scrape-feeds.mjs:96 | `[...new Set(xs)]` equals the list of first occurrences, in order |
| Seqs.DedupIntoDistinct | scripts/scrape-feeds.mjs:96 | the de-duplicated list has pairwise distinct keys |
| Seqs.DedupIntoKeys | scripts/scrape-feeds.mjs:96 | a key is in the de-duplicated list exactly when it is in the input |
| Seqs.PresentKeeps | scripts/scrape-feeds.mjs:123 | a property of every present value holds for every value kept by the filter |
| Scan.Find | scripts/scrape-feeds.mjs:30 | a case-insensitive pattern search returns the leftmost match at or after the start, and none only when no position matches |
| Scan.FindElement | scripts/scrape-feeds.mjs:32 | the lazy `<name\b…</name>` match is a well-formed element, and no element starts earlier |
| Scan.Capture | scripts/scrape-feeds.mjs:33-35 | `chunk.match(re)?.[1]` is the content of the leftmost element, and none exactly when there is no element |
| Scan.LastAttr | scripts/scrape-feeds.mjs:56 | the greedy `[^>]*href=` picks the last `href=` of the tag |
| Scan.FirstAttr | scripts/scrape-feeds.mjs:77-78 | the unanchored `href=`/`type=` patterns pick the first occurrence |
| Scan.RunEnd | scripts/scrape-feeds.mjs:56 | the value `[^"'>\s]+` extends exactly over the value characters |
| Scan.TagAt | scripts/scrape-feeds.mjs:56 | the pattern matches at a `<name` exactly when the tag holds a valid `attr=` before its first `>`; the match ends at that `>` and its value is that of the last valid `attr=`, up to the end of its run of value characters |
| Scan.FindTagWithAttr | scripts/scrape-feeds.mjs:56 | the match is at the leftmost `<name` at or after the start whose tag holds a valid `attr=`; it ends at the tag's first `>` and captures the last valid `attr=` value; there is none only when no such tag exists |
| Scan.FindElementWithAttr | scripts/scrape-feeds.mjs:104 | the `<a … href=…>…</a>` match is the leftmost tag with a valid href (that of `FindTagWithAttr`), and its content runs from the tag's `>` to the first `</a>` after it; there is none only when no such tag has an `</a>` after it |
| Scan.NoCloseAfter | scripts/scrape-feeds.mjs:121 | when the first tag with an href has no `</a>` after it, no later such tag has one, so the search may stop |
| Scan.HasRelAlternate | scripts/scrape-feeds.mjs:76 | the tag holds `rel=alternate`, optionally quoted, exactly when some position in it matches |
| Scan.FindAlternateLink | scripts/scrape-feeds.mjs:76 | the match is the leftmost `<link` plus white space at or after the start whose tag holds `rel=alternate` before its first `>`, and it ends at that `>`; there is none only when no such tag exists |
| Scan.RemoveTags | scripts/scrape-feeds.mjs:122 | `replace(/<[^>]+>/g, "")` leaves no tag, adds no character and is no longer than the input |
| Scan.CollapseSpaces | scripts/scrape-feeds.mjs:105 | `replace(/\s+/g, " ")` leaves no white space other than single spaces, adds no other character, and starts with the input's first character, or a space for white space |
| Scan.CollapseKeepsNoTag | scripts/scrape-feeds.mjs:105 | collapsing white space in a text without a tag makes none |
| Scan.StripTags | scripts/scrape-feeds.mjs:105 | `striptags` gives a trimmed text with single spaces and no tag left, whose characters other than spaces all come from the input |
| Scan.ElementUnique | scripts/scrape-feeds.mjs:57 | a `<name…>…</name>` element is fixed by where it starts |
| Scan.LeftmostIsFirst | scripts/scrape-feeds.mjs:57 | for `(a\|b)` with names that differ at some index, searched from any start (`(updated\|published)` at line 57, `(h1\|h2)` at line 103), the leftmost of the two searches is the first element of either name, and there is none when neither name has one |
| Scan.RemoveCdata | scripts/scrape-feeds.mjs:40 | CDATA marker removal adds no character and is no longer than the input |
| Feeds.ToAbs | scripts/scrape-feeds.mjs:21-23 | `toAbs` is the resolved URL when it is a non-empty text, and `null` otherwise |
| Feeds.ContainsCI | scripts/scrape-feeds.mjs:153 | `/<rss\|<feed/i.test` holds exactly when the pattern occurs, ignoring case |
| Feeds.IsXml | scripts/scrape-feeds.mjs:20 | definition of `isXml`: the content type holds `xml`, `rss` or `atom`, ignoring case; the case-insensitive test is `Feeds.ContainsCI`, and its use in the feed test is in `Scrape.YieldShaped` |
| Feeds.IsAtom | scripts/scrape-feeds.mjs:30 | a text is Atom exactly when it has `<feed` followed by white space or `>` |
| Feeds.TrimmedOrNull | scripts/scrape-feeds.mjs:47 | `?.trim() \|\| null` is null exactly when the capture is missing or blank, and otherwise a trimmed non-empty text |
| Feeds.RssLink | scripts/scrape-feeds.mjs:41-46 | the RSS link is the cleaned `<link>` text when that is non-empty; otherwise it is the trimmed `<guid>` when that is an http(s) URL, and empty when it is not or there is no `<guid>` |
| Feeds.RssCandidate | scripts/scrape-feeds.mjs:40-51 | an RSS block yields an item exactly when it has a title and its link resolves; the item holds that title, URL and `pubDate` |
| Feeds.AtomDate | scripts/scrape-feeds.mjs:57-64 | the Atom date is the trimmed content of the first `updated` or `published` element, `null` when that is blank or there is no such element |
| Feeds.AtomCandidate | scripts/scrape-feeds.mjs:62-67 | an Atom entry yields an item exactly when it has a title and its `href` resolves |
| Feeds.GatherIsFirstDistinct | scripts/scrape-feeds.mjs:38-52 | the loop with the `seen` set and the early stop at the cap keeps the first `cap` candidates of distinct URLs |
| Feeds.GatherEmpty | scripts/scrape-feeds.mjs:38 | nothing is kept exactly when the cap is 0 or no block yields an item |
| Feeds.GatherStopsAtCap | scripts/scrape-feeds.mjs:38 | once the cap is reached, later blocks change nothing |
| Feeds.XmlItems | scripts/scrape-feeds.mjs:26-72 | definition of `parseXmlItems`: the gathering loop over the RSS items or the Atom entries; properties in `Feeds.XmlItemsSpec` and `Feeds.GatherIsFirstDistinct` |
| Feeds.XmlItemsSpec | scripts/scrape-feeds.mjs:26-72 | `parseXmlItems` returns the first `cap` distinct-URL items of the blocks, each well-formed and the item of a block |
| Feeds.ParseXmlItems | scripts/scrape-feeds.mjs:26-72 | the scanning loop computes exactly that list |
| Feeds.LinkFeed | scripts/scrape-feeds.mjs:83-86 | a typed alternate link contributes a non-empty resolved URL |
| Feeds.ResolveAll | scripts/scrape-feeds.mjs:90-95 | the conventional paths contribute their non-empty resolutions, at most one per path |
| Feeds.DiscoveredFeeds | scripts/scrape-feeds.mjs:75-97 | definition of `discoverFeeds`: the de-duplicated typed alternates, else the conventional paths; properties in `Feeds.DiscoveredFeedsSpec` |
| Feeds.DiscoveredFeedsSpec | scripts/scrape-feeds.mjs:75-97 | `discoverFeeds` gives the typed alternates in first-occurrence order, or, when there are none, the resolved conventional paths, with no duplicates and no empty URL |
| Feeds.ScanAlternates | scripts/scrape-feeds.mjs:81-88 | the `linkRe` loop computes exactly the typed alternates |
| Feeds.ResolveEach | scripts/scrape-feeds.mjs:91-94 | the `forEach` over the conventional paths computes exactly their resolutions |
| Feeds.DiscoverFeeds | scripts/scrape-feeds.mjs:75-97 | the method computes exactly `discoverFeeds` |
| Feeds.NextHeading | scripts/scrape-feeds.mjs:103-107 | `hRe.exec` from `lastIndex`: the first `<h1>` or `<h2>` element at or after the start, and none exactly when there is no such element |
| Feeds.HeadingCandidate | scripts/scrape-feeds.mjs:109-117 | a heading yields a well-formed, undated item |
| Feeds.AnchorItemsShaped | scripts/scrape-feeds.mjs:121-123 | every anchor kept by the fallback filter has a resolved URL and a title longer than 4 UTF-16 code units |
| Feeds.HtmlTitles | scripts/scrape-feeds.mjs:100-130 | definition of `parseHtmlTitles`: the heading items, else the anchor items, cut at the cap; properties in `Feeds.HtmlTitlesFromHeadings` and `Feeds.HtmlTitlesFromAnchors` |
| Feeds.HtmlTitlesFromHeadings | scripts/scrape-feeds.mjs:103-118 | when a heading yields, the titles are the first `cap` distinct-URL heading items, well-formed and undated |
| Feeds.HtmlTitlesFromAnchors | scripts/scrape-feeds.mjs:120-129 | when no heading yields, the titles are the first `cap` anchor items, with no URL de-duplication |
| Feeds.ScanHeadings | scripts/scrape-feeds.mjs:107-118 | the `hRe` loop computes exactly the heading selection |
| Feeds.FillFromAnchors | scripts/scrape-feeds.mjs:124-127 | the `for … break` loop takes the first `cap` anchors |
| Feeds.ParseHtmlTitles | scripts/scrape-feeds.mjs:100-130 | the method computes exactly `parseHtmlTitles` |
| Scrape.ScrapeOutcome | scripts/scrape-feeds.mjs:139-174 | definition of `scrapeSource`: the home fetch, the candidate probes and the HTML fallback; properties in `Scrape.HomeFailure`, `Scrape.RssOutcome`, `Scrape.HtmlOutcome`, `Scrape.ItemsShaped` and `Scrape.OutcomeCoherent` |
| Scrape.Yield | scripts/scrape-feeds.mjs:150-160 | a candidate yields only a non-empty item list |
| Scrape.FirstYieldIsFirst | scripts/scrape-feeds.mjs:149-162 | the candidate loop stops at the first candidate that yields, and finds none exactly when none yields |
| Scrape.HomeFailure | scripts/scrape-feeds.mjs:144-146 | the record has an error exactly when the home fetch throws or is not ok; then it has no items and no mode; the status and the message follow the error path |
| Scrape.RssOutcome | scripts/scrape-feeds.mjs:149-159 | the mode is `rss` exactly when some candidate yields; the items are then the first yielding candidate's, and later candidates are not fetched |
| Scrape.HtmlOutcome | scripts/scrape-feeds.mjs:164-168 | the mode is `html` exactly when no candidate yields; every candidate is then fetched and the items are the HTML titles |
| Scrape.YieldShaped | scripts/scrape-feeds.mjs:151-157 | a yielding candidate was fetched ok, looks like a feed, and yields its parsed items, which are capped, distinct and well-formed |
| Scrape.ItemsShaped | scripts/scrape-feeds.mjs:139-174 | a source never has more than `cap` items; in RSS mode they are the parsed items of a fetched candidate |
| Scrape.OutcomeCoherent | scripts/scrape-feeds.mjs:139-174 | every record copies its source, has a mode exactly when it has no error, has items in RSS mode, and has none without a mode |
| Scrape.ScrapeSource | scripts/scrape-feeds.mjs:139-174 | the method computes exactly the outcome, and fetches the home page and then the probed candidates in order |
| Scrape.ProbeFeeds | scripts/scrape-feeds.mjs:148-168 | the candidate loop and the fallback compute the record and the list of probed candidates |
| Scrape.TryFeed | scripts/scrape-feeds.mjs:150-161 | one iteration of the candidate loop, including its swallowed errors, computes the candidate's yield |
| Scrape.DateOrNull | scripts/scrape-feeds.mjs:214 | `it.date \|\| null` is null exactly when the date is missing or empty |
| Scrape.StampAll | scripts/scrape-feeds.mjs:207-216 | each item of a source gives one flat item |
| Scrape.Flat | scripts/scrape-feeds.mjs:205-217 | definition of the flattened report list; properties in `Scrape.FlatShape` |
| Scrape.FlatShape | scripts/scrape-feeds.mjs:205-217 | the flat list has one entry per item, each stamped with the run's time and made from an item of some result |
| Scrape.Flatten | scripts/scrape-feeds.mjs:205-217 | the flattening loop computes exactly that list |
| Scrape.OkCount | scripts/scrape-feeds.mjs:223 | `results.filter(r => (r.items||[]).length).length`: the number of sources with at least one item, at most the number of results; the report counts are tied to it in `Scrape.RunScrape` |
| Scrape.KoCount | scripts/scrape-feeds.mjs:224 | the number of sources with no item is at most the number of results |
| Scrape.ModeCount | scripts/scrape-feeds.mjs:225-228 | `results.filter(r => r.mode === m).length`: the number of sources in mode `m`, at most the number of results; properties in `Scrape.SummaryCounts` |
| Scrape.SummaryCounts | scripts/scrape-feeds.mjs:223-228 | `ko = results.length − ok` is the number of sources that yielded no item, `ok + ko` is the number of sources, and the `rss` count ≤ `ok` ≤ the `rss` count plus the `html` count |
| Scrape.RunScrape | scripts/scrape-feeds.mjs:194-228 | `main` fails on no sources, never settles with an integer concurrency of 0 or less, and otherwise reports the flattened items of every source's outcome; OK is the number of sources with at least one item, KO the rest, and the rss and html counts are the number of sources in each mode |
| Scheduler.PMap | scripts/scrape-feeds.mjs:176-192 | `pMap` resolves exactly when the integer concurrency is at least 1 or there are no items; result `k` is then `mapper(items[k], k)`, items are dispatched in index order, no more than `concurrency` calls are ever in flight, and a resolved run with items peaks at exactly `min(concurrency, items)` calls |
| Scheduler.DispatchKeeps | scripts/scrape-feeds.mjs:182-185 | dispatching one more index while below the bound keeps the admission invariant |
| Scheduler.SettleKeeps | scripts/scrape-feeds.mjs:186 | settling any pending index, in any order, stores its result and keeps the admission invariant |
| Newsletter.Esc | scripts/build-newsletter.mjs:14 | `esc` leaves no `<`, `>` or `"`, changes nothing in a text without the four special characters, and never shortens |
| Newsletter.EscAppend | scripts/build-newsletter.mjs:14 | escaping works character by character |
| Newsletter.EscKeepsOut | scripts/build-newsletter.mjs:14 | `esc` introduces no character other than those of the four entities |
| Newsletter.UnescapeEsc | scripts/build-newsletter.mjs:14 | decoding the entities of `esc(s)` gives `s` back |
| Newsletter.TarifRows | scripts/build-newsletter.mjs:19 | one table row per tariff, in order |
| Newsletter.PrimeRows | scripts/build-newsletter.mjs:24 | one table row per bonus, in order |
| Newsletter.DecimalKeepsOut | scripts/build-newsletter.mjs:19 | `replace(".", ",")` adds no line break |
| Newsletter.TarifRowOneLine | scripts/build-newsletter.mjs:19 | a tariff row with single-line fields is one line |
| Newsletter.PrimeRowOneLine | scripts/build-newsletter.mjs:24 | a bonus row with single-line fields is one line |
| Newsletter.BuildTarifsRows | scripts/build-newsletter.mjs:16-20 | definition of `buildTarifsRows`; properties in `Newsletter.TarifRows` and `Newsletter.TarifsRowsLines` |
| Newsletter.BuildPrimesRows | scripts/build-newsletter.mjs:21-25 | definition of `buildPrimesRows`; properties in `Newsletter.PrimeRows` and `Newsletter.PrimesRowsLines` |
| Newsletter.TarifsRowsLines | scripts/build-newsletter.mjs:16-20 | a missing or empty list gives the "Non disponible" row; otherwise the body splits at line breaks into exactly the rows, one per tariff |
| Newsletter.PrimesRowsLines | scripts/build-newsletter.mjs:21-25 | the same for the bonus table |
| Newsletter.GroupKeys | scripts/build-newsletter.mjs:29 | a key is listed exactly when some item has it |
| Newsletter.Members | scripts/build-newsletter.mjs:31 | a group holds only input items of its key |
| Newsletter.GroupKeysDistinct | scripts/build-newsletter.mjs:30 | each key is listed once |
| Newsletter.MembersOfAbsent | scripts/build-newsletter.mjs:30 | a key no item has has no group |
| Newsletter.GroupBySource | scripts/build-newsletter.mjs:26-34 | the `Map` has the keys in first-appearance order, and each key maps to its items in input order |
| Newsletter.GroupsPartition | scripts/build-newsletter.mjs:26-34 | the groups together hold exactly the input items, as a multiset |
| Newsletter.SortByDate | scripts/build-newsletter.mjs:39 | definition of the date sort as a stable insertion sort on a sequence; properties in `Newsletter.SortByDateSpec` |
| Newsletter.InsertCount | scripts/build-newsletter.mjs:39 | one insertion step adds its item and keeps every other |
| Newsletter.InsertSorted | scripts/build-newsletter.mjs:39 | one insertion step keeps the list newest first |
| Newsletter.InsertWithRank | scripts/build-newsletter.mjs:39 | one insertion step places the item after the items of its own date |
| Newsletter.SortByDateSpec | scripts/build-newsletter.mjs:39 | the sort is newest first, a permutation, and stable among items of equal date |
| Newsletter.MembersNewestFirst | scripts/build-newsletter.mjs:42-43 | a source's group of a sorted list is newest first |
| Newsletter.LiRest | scripts/build-newsletter.mjs:47 | the rest of an entry after the URL starts with the quote that closes `href` |
| Newsletter.LiHref | scripts/build-newsletter.mjs:46-47 | in an entry, the `href` value ends at the first quote, and it decodes to the item's URL (or `#`) |
| Newsletter.Lis | scripts/build-newsletter.mjs:43-48 | one entry per shown item, in order |
| Newsletter.BlocksAt | scripts/build-newsletter.mjs:42-50 | article `i` is the article of the `i`-th shown source with its first `maxPerSource` items |
| Newsletter.RenderBlocks | scripts/build-newsletter.mjs:41-50 | the loop over the shown groups computes exactly those articles |
| Newsletter.BuildNewsItems | scripts/build-newsletter.mjs:35-52 | the method computes exactly `buildNewsItems` |
| Newsletter.NewsHtml | scripts/build-newsletter.mjs:35-52 | definition of `buildNewsItems`; properties in `Newsletter.NewsLayout`, `Newsletter.NewsGroups` and `Newsletter.BlocksAt` |
| Newsletter.NewsLayout | scripts/build-newsletter.mjs:35-51 | no items give "Aucune actualité"; otherwise there are `min(sources, maxSources)` articles, article `i` being source `i` in first-appearance order of the sorted items, with its first `maxPerSource` items |
| Newsletter.NewsGroups | scripts/build-newsletter.mjs:39-43 | each source's items are newest first, and the groups of the sorted list hold exactly the input items |
| Newsletter.Placeholder | scripts/build-newsletter.mjs:55 | `{{name}}` is a placeholder (opens with `{{`, closes with `}}`) whose inside is exactly the name |
| Newsletter.InjectEditorialDefaults | scripts/build-newsletter.mjs:54-62 | the five `repl` calls, in order, compute exactly the chained substitution |
| Newsletter.InjectKeepsAbsent | scripts/build-newsletter.mjs:55 | with brace-free replacement texts, a placeholder absent before the calls is absent after them |
| Newsletter.InjectRemoves | scripts/build-newsletter.mjs:55 | with brace-free replacement texts, no substituted placeholder remains |
| Newsletter.InnovTechSafe | scripts/build-newsletter.mjs:56 | the INNOV_TECH text has no brace |
| Newsletter.InnovPointsSafe | scripts/build-newsletter.mjs:57 | the INNOV_POINTS text has no brace |
| Newsletter.CasIntroSafe | scripts/build-newsletter.mjs:58 | the CAS_INTRO text has no brace |
| Newsletter.CasPointsSafe | scripts/build-newsletter.mjs:59 | the CAS_POINTS text has no brace |
| Newsletter.ConseilPointsSafe | scripts/build-newsletter.mjs:60 | the CONSEIL_POINTS text has no brace |
| Newsletter.EditorialDefaultsSafe | scripts/build-newsletter.mjs:56-60 | all five default texts are brace-free and longer than the longest name |
| Newsletter.EditorialPlaceholdersRemoved | scripts/build-newsletter.mjs:54-62 | after `injectEditorialDefaults` none of the five editorial placeholders remains, whatever the page |
| CheckSources.CheckOne | scripts/check-sources.mjs:19-42 | the field-by-field updates in `try`/`catch`/`finally` compute exactly the check record |
| CheckSources.StatusOk | scripts/check-sources.mjs:33 | definition of `resp.ok || (status >= 200 && status < 400)`; properties in `CheckSources.OkRule` |
| CheckSources.OkRule | scripts/check-sources.mjs:32-39 | a record is OK exactly when a response arrived with a status in 200..399; a response sets status and final URL; a thrown error sets only the error message; the time is always set |
| CheckSources.Esc | scripts/check-sources.mjs:64-68 | definition of the CSV `esc`; properties in `CheckSources.EscIsQuote` |
| CheckSources.DoubleChars | scripts/check-sources.mjs:66 | doubling quotes adds no new character |
| CheckSources.ReplaceAllIsDouble | scripts/check-sources.mjs:66 | `replaceAll('"', '""')` doubles every quote |
| CheckSources.EscIsQuote | scripts/check-sources.mjs:64-68 | `esc` gives "" for null; it quotes the doubled text exactly when the text holds `"`, `,` or a line feed, and gives the text as it is otherwise |
| CheckSources.Cells | scripts/check-sources.mjs:69 | a record gives one value per header |
| CheckSources.EscAll | scripts/check-sources.mjs:69 | each value is escaped in column order |
| CheckSources.Lines | scripts/check-sources.mjs:69 | one line per record, in order |
| CheckSources.HeaderNamesPlain | scripts/check-sources.mjs:63 | no header name holds a quote, a comma or a line feed |
| CheckSources.HeaderLine | scripts/check-sources.mjs:69 | the header line is the header names written as CSV fields |
| CheckSources.RowLines | scripts/check-sources.mjs:69 | each record's line is its field texts written as CSV fields |
| CheckSources.RecordLines | scripts/check-sources.mjs:69 | CSV lines joined by line feeds read back, under the RFC 4180 field rules, as their records |
| CheckSources.ToCsv | scripts/check-sources.mjs:62-70 | definition of `toCSV`; properties in `CheckSources.CsvRoundTrip` |
| CheckSources.CsvRoundTrip | scripts/check-sources.mjs:62-70 | the report reads back as the header names followed by each record's field texts, in column order |
| CheckSources.OkCount | scripts/check-sources.mjs:91 | the OK count is at most the number of records |
| CheckSources.OkKo | scripts/check-sources.mjs:91-92 | `ko = length − ok` is the number of records that are not OK |
| CheckSources.CheckAll | scripts/check-sources.mjs:83-92 | `main` stops on no sources, never settles with an integer concurrency of 0 or less, and otherwise gives one record per source, in order, with the OK and KO counts summing to the number of sources |

## Left out

- I/O is outside the model. This covers reading the sources, template and data files, writing the JSON, NDJSON, CSV, Markdown and HTML outputs, `mkdir`, console output and `process.exit`. The file contents are parameters and the outputs are results.
- The network is an oracle, and so are the 15-second `AbortController` timeouts and the request headers. A timeout is a fetch that throws.
- Clocks are parameters. `performance.now()` becomes the elapsed-time parameter `elapsed`; `new Date().toISOString()` becomes `scrapedAt`; `toLocaleDateString("fr-FR")` becomes `fmtDate`; `new Date(x)` ordering becomes `dateKey`.
- `new URL(u, base).href` is the abstract `Resolver`. The model does not prove that URLs are absolute, only that they are the resolver's non-empty result.
- Reading a numeric field: `tarif`, `prime` and `status` are taken as the text `toString()` gives. So is a source `id` that the JSON gives as a number, which `String(v)` writes to the CSV report; `CheckSources.CheckSource` holds `id` as text. JavaScript number formatting is not modelled.
- `String(e?.message || e)` is the fetch oracle's message. The model does not derive it from an error object.
- Newsletter.SortByDate: the in-place `Array.prototype.sort` is a stable insertion sort on a sequence, and the in-place update is not modelled. The integer `dateKey` stands for `new Date(x.date||0)`, so the model covers dates that `new Date` parses. ECMAScript requires a stable sort, and for such dates the comparator is consistent, so the sorted order is the same. A non-empty date that `new Date` cannot parse is not modelled. Examples are the French RSS `pubDate` texts that scripts/scrape-feeds.mjs:47 and :214 pass through unchanged. Such a date makes the comparator at scripts/build-newsletter.mjs:39 return `NaN`, which the sort reads as a tie with every item. The comparator is then inconsistent, and the order is implementation-defined.
- The promise machinery of `pMap` is left out: `mapper` is a pure function of the item and its index. `Scheduler.PMap` models the dispatch and settle events of the admission loop, not a rejection. No mapper in these scripts rejects: `scrapeSource` and `checkOne` catch their errors.
- `pMap` with a concurrency of 0 or less never settles, and neither does one whose `CONCURRENCY` setting is not a number (`NaN`). The model reports this as `Pending`.
- `cap` and `concurrency` are the integer values of the `ITEMS_PER_SOURCE` and `CONCURRENCY` settings (scripts/scrape-feeds.mjs:9, :11; scripts/check-sources.mjs:10). `Number(...)` also accepts fractional values, and those are not modelled. As written, a fractional concurrency `c > 0` admits calls while `active < c`, so it behaves as its ceiling: `0.5` runs one call at a time and settles. A fractional cap behaves as its ceiling in `parseXmlItems`, whose loop tests `items.length < cap`: `2.5` gives up to 3 items. It behaves as its floor in `parseHtmlTitles`, whose final `slice(0, cap)` truncates it: `2.5` gives at most 2. No single `nat` cap reproduces both, so the "at most `cap` items" of `Feeds.XmlItemsSpec` and `Scrape.ItemsShaped` holds for integer settings only. A negative or `NaN` cap gives no items in both parsers, as a cap of 0 does. An infinite setting is not modelled.
- The rest of `main` in `build-newsletter.mjs` is left out: `Promise.allSettled` over the files, `JSON.parse`, and the `EDITION_DATE`/`MAJ_*`/`YEAR`/table/news substitutions. It is a sequence of `replaceAll` calls on inputs the model does not have.
- The `summary.md` text and the failure list of `check-sources.mjs` are left out. The 10-item sample and the Markdown text of the scrape summary are also left out. The counts they print are modelled.
- `docs/data/tarifs.js` (the client-side tariff widget) is not part of this model.
- Text is a sequence of Unicode scalar values as `char`, where JavaScript strings are sequences of UTF-16 code units. The one place the scripts compare a length of text, the `o.txt.length > 4` anchor filter, counts code units with `Text.Utf16Length`. Everywhere else a character beyond U+FFFF is one `char` where JavaScript sees a surrogate pair. None of the patterns treats such a character specially, so the matches are the same. Lone surrogates, which a `string` cannot hold, are not modelled. The `i` flag of the regexes folds ASCII letters only, which is all these patterns need.
- Scan.RemoveCdata: the model states no more than that CDATA removal adds nothing. A removal that creates a new marker, such as `<![CDA<![CDATA[TA[`, keeps it, as the single-pass JavaScript `replace` does.
