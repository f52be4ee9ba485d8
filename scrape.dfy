/** The per-source state machine of the scraper and the part of its `main`
    that flattens and counts the results (scripts/scrape-feeds.mjs):
    fetch the home page, try each discovered feed in order, fall back to the
    HTML titles of the home page. The network is the fetch oracle of `Http`. */
module Scrape {

  import opened Wrappers
  import opened Text
  import opened Seqs
  import opened Http
  import opened Feeds
  import opened Scheduler

  /** An entry of the sources file. */
  datatype Source = Source(id: string, name: string, url: string)

  datatype Mode = Rss | Html

  /** The record `scrapeSource` returns; `None` stands for `null`. */
  datatype SourceResult = SourceResult(
    sourceId: string,
    sourceName: string,
    sourceUrl: string,
    items: seq<Item>,
    mode: Option<Mode>,
    status: Option<nat>,
    error: Option<string>)

  /** The default of `CONCURRENCY`. */
  const DefaultConcurrency: int := 6

  /** The record before anything is fetched. */
  function Initial(src: Source): SourceResult {
    SourceResult(src.id, src.name, src.url, [], None, None, None)
  }

  /** The message of the error thrown when the home page is not ok. */
  function HomeError(status: nat): string {
    "HTTP " + NatToString(status) + " sur home"
  }

  /** A fetched candidate is read as a feed: its content type names XML, RSS
      or Atom, or its body holds `<rss` or `<feed`, ignoring case. */
  predicate LooksLikeFeed(r: Response) {
    IsXml(r.contentType) || ContainsCI(r.text, "<rss") || ContainsCI(r.text, "<feed")
  }

  /** The items feed candidate `f` yields, if it yields any: its fetch does
      not throw and is ok, it looks like a feed, and it has at least one item
      (its URLs resolved against `f`). */
  function Yield(f: string, fetch: Fetcher, resolve: Resolver, cap: nat): (r: Option<seq<Item>>)
    ensures r.Some? ==> r.value != []
  {
    match fetch(f)
    case Thrown(_) => None
    case Fetched(resp) =>
      if resp.Ok() && LooksLikeFeed(resp) && XmlItems(resp.text, f, cap, resolve) != []
      then Some(XmlItems(resp.text, f, cap, resolve))
      else None
  }

  /** What each candidate URL yields, as a function of the URL. */
  type Yields = string -> Option<seq<Item>>

  function YieldOf(fetch: Fetcher, resolve: Resolver, cap: nat): Yields {
    f => Yield(f, fetch, resolve, cap)
  }

  /** The first candidate at or after `from`, in order, that yields items:
      its index and items. */
  function FirstYieldFrom(feeds: seq<string>, from: nat, probe: Yields): Option<(nat, seq<Item>)>
    decreases |feeds| - from
  {
    if from >= |feeds| then None
    else match probe(feeds[from])
      case Some(items) => Some((from, items))
      case None => FirstYieldFrom(feeds, from + 1, probe)
  }

  function FirstYield(feeds: seq<string>, probe: Yields): Option<(nat, seq<Item>)> {
    FirstYieldFrom(feeds, 0, probe)
  }

  /** The search returns the first candidate that yields, with its items, and
      nothing exactly when no candidate yields. */
  lemma {:induction false} FirstYieldIsFirst(feeds: seq<string>, from: nat, probe: Yields)
    ensures FirstYieldFrom(feeds, from, probe).Some? ==>
      && from <= FirstYieldFrom(feeds, from, probe).value.0 < |feeds|
      && probe(feeds[FirstYieldFrom(feeds, from, probe).value.0]) == Some(FirstYieldFrom(feeds, from, probe).value.1)
      && forall j :: from <= j < FirstYieldFrom(feeds, from, probe).value.0 ==> probe(feeds[j]).None?
    ensures FirstYieldFrom(feeds, from, probe).None? <==> forall j :: from <= j < |feeds| ==> probe(feeds[j]).None?
    decreases |feeds| - from
  {
    if from < |feeds| && probe(feeds[from]).None? {
      FirstYieldIsFirst(feeds, from + 1, probe);
    }
  }

  /** The record once the home page answered ok with `status`, for its
      discovered candidates `feeds` and its HTML titles `fallback`: the items
      of the first candidate that yields, or the fallback. */
  function Probe(src: Source, status: nat, feeds: seq<string>, probe: Yields, fallback: seq<Item>): SourceResult {
    var out := Initial(src).(status := Some(status));
    match FirstYield(feeds, probe)
    case Some((_, items)) => out.(items := items, mode := Some(Rss))
    case None => out.(items := fallback, mode := Some(Html))
  }

  /** The URLs fetched after the home page: the candidates up to the first
      that yields, or all of them. */
  function Probed(feeds: seq<string>, probe: Yields): seq<string> {
    match FirstYield(feeds, probe)
    case Some((k, _)) => if k < |feeds| then feeds[..k + 1] else feeds
    case None => feeds
  }

  /** `scrapeSource(src)` with `ITEMS_PER_SOURCE = cap`, an integer setting (a fractional one is not modelled). */
  function ScrapeOutcome(src: Source, fetch: Fetcher, resolve: Resolver, cap: nat): SourceResult {
    match fetch(src.url)
    case Thrown(m) => Initial(src).(error := Some(m))
    case Fetched(home) =>
      if !home.Ok() then Initial(src).(status := Some(home.status), error := Some(HomeError(home.status)))
      else Probe(src, home.status, DiscoveredFeeds(home.text, home.finalUrl, resolve),
                 YieldOf(fetch, resolve, cap), HtmlTitles(home.text, home.finalUrl, cap, resolve))
  }

  /** The URLs `scrapeSource(src)` fetches, in order: the home page, then the
      candidates it probes. */
  function FetchLog(src: Source, fetch: Fetcher, resolve: Resolver, cap: nat): seq<string> {
    match fetch(src.url)
    case Thrown(_) => [src.url]
    case Fetched(home) =>
      if !home.Ok() then [src.url]
      else [src.url] + Probed(DiscoveredFeeds(home.text, home.finalUrl, resolve), YieldOf(fetch, resolve, cap))
  }

  // ---- What the outcome means ----

  /** A failed home fetch: the record carries the error and nothing else;
      `status` is the home status when a response arrived. */
  lemma HomeFailure(src: Source, fetch: Fetcher, resolve: Resolver, cap: nat)
    ensures var out := ScrapeOutcome(src, fetch, resolve, cap);
      && (out.error.Some? <==> fetch(src.url).Thrown? || !fetch(src.url).response.Ok())
      && (out.error.Some? ==> out.items == [] && out.mode.None?)
      && (fetch(src.url).Thrown? ==> out.status.None? && out.error == Some(fetch(src.url).message))
      && (fetch(src.url).Fetched? && !fetch(src.url).response.Ok() ==>
            out.status == Some(fetch(src.url).response.status)
            && out.error == Some("HTTP " + NatToString(fetch(src.url).response.status) + " sur home"))
  {
  }

  /** The RSS mode: some candidate yields items, and the record holds the
      items of the first one; the candidates after it are not fetched. */
  lemma RssOutcome(src: Source, status: nat, feeds: seq<string>, probe: Yields, fallback: seq<Item>)
    ensures Probe(src, status, feeds, probe, fallback).mode == Some(Rss)
      <==> exists k :: 0 <= k < |feeds| && probe(feeds[k]).Some?
    ensures Probe(src, status, feeds, probe, fallback).mode == Some(Rss) ==>
      exists k :: 0 <= k < |feeds|
        && (forall j :: 0 <= j < k ==> probe(feeds[j]).None?)
        && probe(feeds[k]) == Some(Probe(src, status, feeds, probe, fallback).items)
        && Probed(feeds, probe) == feeds[..k + 1]
  {
    FirstYieldIsFirst(feeds, 0, probe);
  }

  /** The HTML mode: no candidate yields, every candidate is fetched, and the
      record holds the fallback. */
  lemma HtmlOutcome(src: Source, status: nat, feeds: seq<string>, probe: Yields, fallback: seq<Item>)
    ensures Probe(src, status, feeds, probe, fallback).mode == Some(Html)
      <==> forall j :: 0 <= j < |feeds| ==> probe(feeds[j]).None?
    ensures Probe(src, status, feeds, probe, fallback).mode == Some(Html) ==>
      Probe(src, status, feeds, probe, fallback).items == fallback && Probed(feeds, probe) == feeds
  {
    FirstYieldIsFirst(feeds, 0, probe);
  }

  /** The items a feed yields are at most `cap`, well-formed and of
      distinct URLs. */
  ghost predicate FeedShaped(items: seq<Item>, cap: nat) {
    && items != [] && |items| <= cap && KeysDistinct(items, UrlOf)
    && forall i :: 0 <= i < |items| ==> WellFormed(items[i])
  }

  /** A candidate that yields was fetched ok, looks like a feed, and yields
      its parsed items, which are feed-shaped. */
  lemma YieldShaped(f: string, fetch: Fetcher, resolve: Resolver, cap: nat)
    requires Yield(f, fetch, resolve, cap).Some?
    ensures fetch(f).Fetched? && fetch(f).response.Ok() && LooksLikeFeed(fetch(f).response)
    ensures Yield(f, fetch, resolve, cap).value == XmlItems(fetch(f).response.text, f, cap, resolve)
    ensures FeedShaped(Yield(f, fetch, resolve, cap).value, cap)
  {
    XmlItemsSpec(fetch(f).response.text, f, cap, resolve);
  }

  /** Whatever the mode, a source's items are at most `cap`; in RSS mode they
      are the parsed items of a discovered candidate, well-formed and of
      distinct URLs. */
  lemma ItemsShaped(src: Source, fetch: Fetcher, resolve: Resolver, cap: nat)
    ensures |ScrapeOutcome(src, fetch, resolve, cap).items| <= cap
    ensures ScrapeOutcome(src, fetch, resolve, cap).mode == Some(Rss) ==>
      && FeedShaped(ScrapeOutcome(src, fetch, resolve, cap).items, cap)
      && exists f :: fetch(f).Fetched?
           && ScrapeOutcome(src, fetch, resolve, cap).items == XmlItems(fetch(f).response.text, f, cap, resolve)
  {
    match fetch(src.url)
    case Thrown(_) =>
    case Fetched(home) =>
      if home.Ok() {
        var feeds := DiscoveredFeeds(home.text, home.finalUrl, resolve);
        var fallback := HtmlTitles(home.text, home.finalUrl, cap, resolve);
        var ys := YieldOf(fetch, resolve, cap);
        FirstYieldIsFirst(feeds, 0, ys);
        match FirstYield(feeds, ys)
        case None =>
          HtmlTitlesCapped(home.text, home.finalUrl, cap, resolve);
        case Some((k, items)) =>
          assert ys(feeds[k]) == Yield(feeds[k], fetch, resolve, cap);
          YieldShaped(feeds[k], fetch, resolve, cap);
      }
  }

  lemma HtmlTitlesCapped(html: string, base: string, cap: nat, resolve: Resolver)
    ensures |HtmlTitles(html, base, cap, resolve)| <= cap
  {
    if Gather(HeadingCandidates(html, base, resolve, 0), cap, []) != [] {
      HtmlTitlesFromHeadings(html, base, cap, resolve);
    } else {
      HtmlTitlesFromAnchors(html, base, cap, resolve);
    }
  }

  /** What every record satisfies: it has a mode exactly when it has no
      error, an RSS record has items, an error record has none, and the
      source's fields are copied. */
  predicate Coherent(src: Source, out: SourceResult) {
    && out.sourceId == src.id && out.sourceName == src.name && out.sourceUrl == src.url
    && (out.mode.Some? <==> out.error.None?)
    && (out.mode == Some(Rss) ==> out.items != [])
    && (out.mode.None? ==> out.items == [])
  }

  lemma OutcomeCoherent(src: Source, fetch: Fetcher, resolve: Resolver, cap: nat)
    ensures Coherent(src, ScrapeOutcome(src, fetch, resolve, cap))
  {
    ItemsShaped(src, fetch, resolve, cap);
  }

  // ---- The loop of scrapeSource ----

  /** `scrapeSource(src)`: the home fetch, the loop over the discovered
      candidates and the HTML fallback. `fetched` records the URLs fetched,
      in order. */
  method ScrapeSource(src: Source, fetch: Fetcher, resolve: Resolver, cap: nat) returns (out: SourceResult, ghost fetched: seq<string>)
    ensures out == ScrapeOutcome(src, fetch, resolve, cap)
    ensures fetched == FetchLog(src, fetch, resolve, cap)
  {
    out := Initial(src);
    fetched := [src.url];
    var home: Response;
    match fetch(src.url)
    case Thrown(m) =>
      out := out.(error := Some(m));
      return;
    case Fetched(r) =>
      home := r;
    out := out.(status := Some(home.status));
    if !home.Ok() {
      out := out.(error := Some(HomeError(home.status)));
      return;
    }
    var feeds := DiscoverFeeds(home.text, home.finalUrl, resolve);
    ghost var probed;
    out, probed := ProbeFeeds(src, home, feeds, fetch, resolve, cap);
    fetched := fetched + probed;
  }

  /** The `for (const f of feeds)` loop, which returns at the first candidate
      with items, and the HTML fallback after it. */
  method ProbeFeeds(src: Source, home: Response, feeds: seq<string>, fetch: Fetcher, resolve: Resolver, cap: nat)
    returns (out: SourceResult, ghost probed: seq<string>)
    ensures out == Probe(src, home.status, feeds, YieldOf(fetch, resolve, cap), HtmlTitles(home.text, home.finalUrl, cap, resolve))
    ensures probed == Probed(feeds, YieldOf(fetch, resolve, cap))
  {
    ghost var ys := YieldOf(fetch, resolve, cap);
    out := Initial(src).(status := Some(home.status));
    for k := 0 to |feeds|
      invariant FirstYield(feeds, ys) == FirstYieldFrom(feeds, k, ys)
      invariant out == Initial(src).(status := Some(home.status))
    {
      var f := feeds[k];
      var yielded := TryFeed(f, fetch, resolve, cap);
      assert ys(f) == yielded;
      if yielded.Some? {
        out := out.(items := yielded.value, mode := Some(Rss));
        probed := feeds[..k + 1];
        return;
      }
    }
    probed := feeds;
    var items := ParseHtmlTitles(home.text, home.finalUrl, cap, resolve);
    out := out.(items := items, mode := Some(Html));
  }

  /** The body of the loop: fetch candidate `f` and parse it when it is ok
      and looks like a feed; a thrown fetch is caught and skipped. */
  method TryFeed(f: string, fetch: Fetcher, resolve: Resolver, cap: nat) returns (yielded: Option<seq<Item>>)
    ensures yielded == Yield(f, fetch, resolve, cap)
  {
    match fetch(f)
    case Thrown(_) =>
      return None;
    case Fetched(feed) =>
      if feed.Ok() && LooksLikeFeed(feed) {
        var items := ParseXmlItems(feed.text, f, cap, resolve);
        if |items| > 0 {
          return Some(items);
        }
      }
      return None;
  }

  // ---- Flattening and counting (main) ----

  /** A line of `feeds.json` / `feeds.ndjson`. */
  datatype FlatItem = FlatItem(
    sourceId: string,
    sourceName: string,
    sourceUrl: string,
    mode: Option<Mode>,
    title: string,
    url: string,
    date: Option<string>,
    scrapedAt: string)

  /** `it.date || null`. */
  function DateOrNull(d: Option<string>): (r: Option<string>)
    ensures r.Some? <==> d.Some? && d.value != []
    ensures r.Some? ==> r == d
  {
    if d.Some? && d.value != [] then d else None
  }

  function Stamp(r: SourceResult, it: Item, scrapedAt: string): FlatItem {
    FlatItem(r.sourceId, r.sourceName, r.sourceUrl, r.mode, it.title, it.url, DateOrNull(it.date), scrapedAt)
  }

  function StampAll(r: SourceResult, items: seq<Item>, scrapedAt: string): (f: seq<FlatItem>)
    ensures |f| == |items|
  {
    if items == [] then [] else StampAll(r, items[..|items| - 1], scrapedAt) + [Stamp(r, items[|items| - 1], scrapedAt)]
  }

  /** The items of every result, in source order, each stamped with its
      source and the one `scraped_at` of the run. */
  function Flat(results: seq<SourceResult>, scrapedAt: string): seq<FlatItem> {
    if results == [] then []
    else Flat(results[..|results| - 1], scrapedAt) + StampAll(results[|results| - 1], results[|results| - 1].items, scrapedAt)
  }

  /** The total number of items of the results. */
  function TotalItems(results: seq<SourceResult>): nat {
    if results == [] then 0 else TotalItems(results[..|results| - 1]) + |results[|results| - 1].items|
  }

  /** The flattened list holds one line per item, each line carrying the
      run's `scraped_at`, its source's fields and its item's title and URL. */
  lemma {:induction false} FlatShape(results: seq<SourceResult>, scrapedAt: string)
    ensures |Flat(results, scrapedAt)| == TotalItems(results)
    ensures forall i :: 0 <= i < |Flat(results, scrapedAt)| ==> Flat(results, scrapedAt)[i].scrapedAt == scrapedAt
    ensures forall i :: 0 <= i < |Flat(results, scrapedAt)| ==>
      exists r, it :: r in results && it in r.items && Flat(results, scrapedAt)[i] == Stamp(r, it, scrapedAt)
  {
    if results != [] {
      var init, last := results[..|results| - 1], results[|results| - 1];
      FlatShape(init, scrapedAt);
      StampAllShape(last, last.items, scrapedAt);
      var f := Flat(results, scrapedAt);
      var a := Flat(init, scrapedAt);
      forall i | 0 <= i < |f|
        ensures f[i].scrapedAt == scrapedAt
        ensures exists r, it :: r in results && it in r.items && f[i] == Stamp(r, it, scrapedAt)
      {
        if i < |a| {
          assert f[i] == a[i];
          var r, it :| r in init && it in r.items && a[i] == Stamp(r, it, scrapedAt);
          assert r in results;
        } else {
          assert f[i] == StampAll(last, last.items, scrapedAt)[i - |a|];
          assert last in results;
        }
      }
    }
  }

  lemma {:induction false} StampAllShape(r: SourceResult, items: seq<Item>, scrapedAt: string)
    ensures forall i :: 0 <= i < |items| ==> StampAll(r, items, scrapedAt)[i] == Stamp(r, items[i], scrapedAt)
  {
    if items != [] {
      StampAllShape(r, items[..|items| - 1], scrapedAt);
    }
  }

  /** The `for ... of results` loop with its `forEach ... push`. */
  method Flatten(results: seq<SourceResult>, scrapedAt: string) returns (flat: seq<FlatItem>)
    ensures flat == Flat(results, scrapedAt)
  {
    flat := [];
    for k := 0 to |results|
      invariant flat == Flat(results[..k], scrapedAt)
    {
      var r := results[k];
      ghost var before := flat;
      for j := 0 to |r.items|
        invariant flat == before + StampAll(r, r.items[..j], scrapedAt)
      {
        assert r.items[..j + 1][..j] == r.items[..j];
        flat := flat + [Stamp(r, r.items[j], scrapedAt)];
      }
      assert r.items[..|r.items|] == r.items;
      assert results[..k + 1][..k] == results[..k];
    }
    assert results[..|results|] == results;
  }

  /** `results.filter(r => (r.items||[]).length).length`. */
  function OkCount(results: seq<SourceResult>): (n: nat)
    ensures n <= |results|
  {
    if results == [] then 0
    else OkCount(results[..|results| - 1]) + (if results[|results| - 1].items != [] then 1 else 0)
  }

  /** The sources that yielded no item. */
  function KoCount(results: seq<SourceResult>): (n: nat)
    ensures n <= |results|
  {
    if results == [] then 0
    else KoCount(results[..|results| - 1]) + (if results[|results| - 1].items == [] then 1 else 0)
  }

  /** `results.filter(r => r.mode === m).length`. */
  function ModeCount(results: seq<SourceResult>, m: Mode): (n: nat)
    ensures n <= |results|
  {
    if results == [] then 0
    else ModeCount(results[..|results| - 1], m) + (if results[|results| - 1].mode == Some(m) then 1 else 0)
  }

  /** The summary's counts: `ko = results.length - ok` is the number of
      sources that yielded no item, every RSS source is OK, and every OK
      source is in RSS or HTML mode. */
  lemma {:induction false} SummaryCounts(sources: seq<Source>, results: seq<SourceResult>)
    requires |results| == |sources|
    requires forall k :: 0 <= k < |results| ==> Coherent(sources[k], results[k])
    ensures |results| - OkCount(results) == KoCount(results)
    ensures OkCount(results) + KoCount(results) == |sources|
    ensures ModeCount(results, Rss) <= OkCount(results) <= ModeCount(results, Rss) + ModeCount(results, Html)
  {
    if results != [] {
      var n := |results| - 1;
      SummaryCounts(sources[..n], results[..n]);
      assert Coherent(sources[n], results[n]);
      if results[n].items != [] {
        assert results[n].mode.Some?;
        assert results[n].mode.value.Rss? || results[n].mode.value.Html?;
      }
    }
  }

  // ---- main ----

  /** What a run of `main` ends in. */
  datatype RunOutcome =
    | NoSources                // throws "Aucune source dans le JSON."
    | Pending                  // `pMap` never resolves: nothing is written
    | Report(scrapedAt: string, count: nat, items: seq<FlatItem>,
             ok: nat, ko: nat, rss: nat, html: nat)

  /** The message `main` throws on an empty source list. */
  const NoSourcesMessage: string := "Aucune source dans le JSON."

  /** `main` past reading the sources file: the sources scraped through
      `pMap` with `concurrency`, the flattened items and the summary counts.
      The clock reading `scrapedAt` is a parameter. */
  method RunScrape(sources: seq<Source>, fetch: Fetcher, resolve: Resolver, cap: nat, concurrency: int, scrapedAt: string)
    returns (outcome: RunOutcome)
    ensures sources == [] <==> outcome == NoSources
    ensures outcome == Pending <==> sources != [] && concurrency < 1
    ensures outcome.Report? ==>
      var results := seq(|sources|, k requires 0 <= k < |sources| => ScrapeOutcome(sources[k], fetch, resolve, cap));
      && outcome.items == Flat(results, scrapedAt)
      && outcome.count == |outcome.items| == TotalItems(results)
      && outcome.ok == OkCount(results) && outcome.ko == KoCount(results)
      && outcome.rss == ModeCount(results, Rss) && outcome.html == ModeCount(results, Html)
      && outcome.ok + outcome.ko == |sources|
      && outcome.rss <= outcome.ok <= outcome.rss + outcome.html
  {
    if |sources| == 0 {
      return NoSources;
    }
    var resolved, ret, _, _ := PMap(sources, (s, _) => ScrapeOutcome(s, fetch, resolve, cap), concurrency);
    if !resolved {
      return Pending;
    }
    var results := seq(|ret|, k requires 0 <= k < |ret| && ret[k].Some? => ret[k].value);
    ghost var spec := seq(|sources|, k requires 0 <= k < |sources| => ScrapeOutcome(sources[k], fetch, resolve, cap));
    assert results == spec;
    var flat := Flatten(results, scrapedAt);
    FlatShape(results, scrapedAt);
    forall k | 0 <= k < |results| ensures Coherent(sources[k], results[k]) {
      OutcomeCoherent(sources[k], fetch, resolve, cap);
    }
    SummaryCounts(sources, results);
    var ok := OkCount(results);
    outcome := Report(scrapedAt, |flat|, flat, ok, |results| - ok, ModeCount(results, Rss), ModeCount(results, Html));
  }
}
