/** Feed discovery and item extraction of the scraper (scripts/scrape-feeds.mjs):
    classifying feed text as RSS or Atom, reading items out of its blocks,
    finding the alternate feed links of a home page, and the HTML fallback that
    reads linked headings and anchors.

    Each extraction is given twice: as a specification function over the
    sequence of blocks the pattern finds in document order, and as a method
    with the loop the script runs, proved equal to it. */
module Feeds {

  import opened Wrappers
  import opened Text
  import opened Seqs
  import opened Scan

  /** `new URL(u, base).href`, or `None` where the constructor throws. URL
      parsing is not modelled: the resolver is a parameter. */
  type Resolver = (string, string) -> Option<string>

  /** `toAbs(u, base)` used as a condition: a failed resolution and an empty
      one both count as no URL, as JavaScript's truthiness test does. */
  function ToAbs(resolve: Resolver, u: string, base: string): (r: Option<string>)
    ensures r.Some? ==> r.value != [] && resolve(u, base) == r
    ensures r.None? ==> resolve(u, base).None? || resolve(u, base).value == []
  {
    match resolve(u, base)
    case Some(h) => if h != [] then Some(h) else None
    case None => None
  }

  /** The default of `ITEMS_PER_SOURCE`, the cap on items per source. */
  const DefaultCap: nat := 5

  /** An extracted item; `date` is `null` when absent. */
  datatype Item = Item(title: string, url: string, date: Option<string>)

  function UrlOf(it: Item): string {
    it.url
  }

  /** What every extracted item satisfies: a non-empty trimmed title, a
      non-empty URL and, when there is a date, a non-empty trimmed one. */
  predicate WellFormed(it: Item) {
    && it.title != [] && Trimmed(it.title)
    && it.url != []
    && (it.date.Some? ==> it.date.value != [] && Trimmed(it.date.value))
  }

  /** `/pat/i.test(s)` for a literal lower-case pattern. */
  function ContainsCI(s: string, pat: string): (b: bool)
    ensures b <==> exists k: nat :: At(s, k, Lit(pat))
  {
    Find(s, Lit(pat), 0).Some?
  }

  /** `isXml(ct)`: `/xml|rss|atom/i.test(ct)`. The type test of feed discovery,
      `/rss|atom|xml/i`, is the same test. */
  predicate IsXml(ct: string) {
    ContainsCI(ct, "xml") || ContainsCI(ct, "rss") || ContainsCI(ct, "atom")
  }

  /** `<feed` followed by white space or `>` starts at `k`, ignoring case. */
  predicate FeedOpenAt(s: string, k: nat) {
    MatchAt(s, k, "<feed") && k + 5 < |s| && (IsSpace(s[k + 5]) || s[k + 5] == '>')
  }

  function HasFeedOpen(s: string, from: nat): (b: bool)
    ensures b <==> exists k: nat :: from <= k && FeedOpenAt(s, k)
    decreases |s| - from
  {
    if from >= |s| then false else FeedOpenAt(s, from) || HasFeedOpen(s, from + 1)
  }

  /** `/<feed[\s>]/i.test(xml)`: the text is read as Atom rather than RSS. */
  function IsAtom(xml: string): (b: bool)
    ensures b <==> exists k: nat :: FeedOpenAt(xml, k)
  {
    HasFeedOpen(xml, 0)
  }

  /** A field's text: every `<![CDATA[` and `]]>` removed, then trimmed. */
  function CleanText(s: string): string {
    Trim(RemoveCdata(s))
  }

  /** `x?.trim() || null`. */
  function TrimmedOrNull(x: Option<string>): (r: Option<string>)
    ensures r.Some? ==> r.value != [] && Trimmed(r.value)
    ensures r.Some? <==> x.Some? && Trim(x.value) != []
  {
    match x
    case None => None
    case Some(s) => var t := Trim(s); if t != [] then Some(t) else None
  }

  /** `/^https?:\/\//i.test(s)`. */
  predicate IsHttpUrl(s: string) {
    MatchAt(s, 0, "http://") || MatchAt(s, 0, "https://")
  }

  /** An RSS item's title: the cleaned text of its first `<title>` element. */
  function RssTitle(chunk: string): string {
    CleanText(Capture(chunk, "title").GetOr(""))
  }

  /** The cleaned text of an RSS item's own `<link>` element. */
  function OwnLink(chunk: string): string {
    CleanText(Capture(chunk, "link").GetOr(""))
  }

  /** The item's `<guid>` text, trimmed, is an http(s) URL. */
  predicate GuidIsUrl(chunk: string) {
    Capture(chunk, "guid").Some? && IsHttpUrl(Trim(Capture(chunk, "guid").value))
  }

  /** An RSS item's link before resolution: the cleaned `<link>` text or, when
      that is empty, the trimmed `<guid>` text if it is an http(s) URL, and
      the empty string otherwise. */
  function RssLink(chunk: string): (link: string)
    ensures OwnLink(chunk) != [] ==> link == OwnLink(chunk)
    ensures OwnLink(chunk) == [] && GuidIsUrl(chunk) ==> link == Trim(Capture(chunk, "guid").value)
    ensures OwnLink(chunk) == [] && !GuidIsUrl(chunk) ==> link == []
  {
    var link := CleanText(Capture(chunk, "link").GetOr(""));
    if link != [] then link
    else
      match Capture(chunk, "guid")
      case None => link
      case Some(g) => var alt := Trim(g); if alt != [] && IsHttpUrl(alt) then alt else link
  }

  /** The item an RSS `<item>` block yields, if any: it needs a title and a
      link that resolves against the feed URL. */
  function RssCandidate(chunk: string, base: string, resolve: Resolver): (r: Option<Item>)
    ensures r.Some? <==> RssTitle(chunk) != [] && ToAbs(resolve, RssLink(chunk), base).Some?
    ensures r.Some? ==> WellFormed(r.value)
    ensures r.Some? ==> r.value.title == RssTitle(chunk) && resolve(RssLink(chunk), base) == Some(r.value.url)
    ensures r.Some? ==> r.value.date == TrimmedOrNull(Capture(chunk, "pubdate"))
  {
    var title := RssTitle(chunk);
    if title == [] then None
    else
      match ToAbs(resolve, RssLink(chunk), base)
      case None => None
      case Some(url) => Some(Item(title, url, TrimmedOrNull(Capture(chunk, "pubdate"))))
  }

  /** An Atom entry's link before resolution: the last valid `href` of its first
      `<link>` tag that has one, or the empty string. */
  function AtomLink(chunk: string): (link: string)
    ensures link != [] ==> exists t :: FindTagWithAttr(chunk, "link", "href=", 0) == Some(t)
  {
    match FindTagWithAttr(chunk, "link", "href=", 0)
    case None => ""
    case Some(t) => chunk[t.value..t.valueEnd]
  }

  /** An Atom entry's date: the content of whichever `<updated>` or
      `<published>` element comes first, trimmed; none when the entry has
      neither or the first one is blank. */
  function AtomDate(chunk: string): (r: Option<string>)
    ensures r.Some? ==> r.value != [] && Trimmed(r.value)
    ensures r.Some? ==> exists e ::
      EitherElement(chunk, "updated", "published", 0, e) && r == TrimmedOrNull(Some(chunk[e.inner..e.close]))
    ensures forall e :: FirstOfEither(chunk, "updated", "published", 0, e) ==>
      r == TrimmedOrNull(Some(chunk[e.inner..e.close]))
    ensures (forall e :: !EitherElement(chunk, "updated", "published", 0, e)) ==> r.None?
  {
    LeftmostIsFirst(chunk, "updated", "published", 0, 0);
    match Leftmost(FindElement(chunk, "updated", true, 0), FindElement(chunk, "published", true, 0))
    case None => None
    case Some(e) => TrimmedOrNull(Some(chunk[e.inner..e.close]))
  }

  /** The item an Atom `<entry>` block yields, if any. An entry without a link
      resolves the empty string, that is the feed URL itself. */
  function AtomCandidate(chunk: string, base: string, resolve: Resolver): (r: Option<Item>)
    ensures r.Some? <==> RssTitle(chunk) != [] && ToAbs(resolve, AtomLink(chunk), base).Some?
    ensures r.Some? ==> WellFormed(r.value)
    ensures r.Some? ==> r.value.title == RssTitle(chunk) && resolve(AtomLink(chunk), base) == Some(r.value.url)
    ensures r.Some? ==> r.value.date == AtomDate(chunk)
  {
    var title := RssTitle(chunk);
    match ToAbs(resolve, AtomLink(chunk), base)
    case None => None
    case Some(url) => if title != [] then Some(Item(title, url, AtomDate(chunk))) else None
  }

  /** The name of the blocks that hold items. */
  function BlockName(atom: bool): string {
    if atom then "entry" else "item"
  }

  function BlockCandidate(chunk: string, atom: bool, base: string, resolve: Resolver): (r: Option<Item>)
    ensures r.Some? ==> WellFormed(r.value)
  {
    if atom then AtomCandidate(chunk, base, resolve) else RssCandidate(chunk, base, resolve)
  }

  /** The next item block at or after `from`. */
  function NextBlock(xml: string, atom: bool, from: nat): (r: Option<Element>)
    ensures r.Some? ==> from <= r.value.start < r.value.end <= |xml|
  {
    FindElement(xml, BlockName(atom), false, from)
  }

  /** What the blocks found at or after `from` yield, in document order. */
  function BlockCandidates(xml: string, atom: bool, base: string, resolve: Resolver, from: nat): (r: seq<Option<Item>>)
    ensures forall i :: 0 <= i < |r| && r[i].Some? ==> WellFormed(r[i].value)
    decreases |xml| - from
  {
    match NextBlock(xml, atom, from)
    case None => []
    case Some(b) =>
      [BlockCandidate(xml[b.start..b.end], atom, base, resolve)] + BlockCandidates(xml, atom, base, resolve, b.end)
  }

  lemma BlockCandidatesStep(xml: string, atom: bool, base: string, resolve: Resolver, from: nat)
    requires NextBlock(xml, atom, from).Some?
    ensures var b := NextBlock(xml, atom, from).value;
      BlockCandidates(xml, atom, base, resolve, from)
        == [BlockCandidate(xml[b.start..b.end], atom, base, resolve)] + BlockCandidates(xml, atom, base, resolve, b.end)
  {
  }

  /** One step of the extraction loops: a candidate is kept when there is one
      and its URL is not among those kept. */
  function Admit(acc: seq<Item>, c: Option<Item>): seq<Item> {
    if c.Some? && c.value.url !in Keys(acc, UrlOf) then acc + [c.value] else acc
  }

  /** The extraction loop over a sequence of candidates: it stops at the end of
      the candidates or as soon as `cap` items are kept. */
  function Gather(cands: seq<Option<Item>>, cap: nat, acc: seq<Item>): seq<Item>
    decreases |cands|
  {
    if cands == [] || |acc| >= cap then acc
    else Gather(cands[1..], cap, Admit(acc, cands[0]))
  }

  /** `parseXmlItems(xml, base)` with `ITEMS_PER_SOURCE = cap`, an integer setting (a fractional one is not modelled). */
  function XmlItems(xml: string, base: string, cap: nat, resolve: Resolver): seq<Item> {
    Gather(BlockCandidates(xml, IsAtom(xml), base, resolve, 0), cap, [])
  }

  /** The loop keeps the first `cap` of the distinct-URL candidates, first
      occurrence first: a block without an item or with a URL already kept
      does not count towards the cap. */
  lemma {:induction false} GatherIsFirstDistinct(cands: seq<Option<Item>>, cap: nat, acc: seq<Item>)
    requires |acc| <= cap
    ensures Gather(cands, cap, acc) == Take(DedupInto(acc, Present(cands), UrlOf), cap)
    decreases |cands|
  {
    DedupIntoExtends(acc, Present(cands), UrlOf);
    if cands != [] && |acc| < cap {
      var rest := cands[1..];
      GatherIsFirstDistinct(rest, cap, Admit(acc, cands[0]));
      var xs := Present(cands);
      if cands[0].Some? {
        assert xs == [cands[0].value] + Present(rest);
        assert xs[0] == cands[0].value && xs[1..] == Present(rest);
      } else {
        assert xs == Present(rest);
      }
    } else if cands == [] {
      assert Present(cands) == [];
    }
  }

  /** One turn of an extraction loop. */
  lemma GatherStep(c: Option<Item>, rest: seq<Option<Item>>, cap: nat, acc: seq<Item>)
    requires |acc| < cap
    ensures Gather([c] + rest, cap, acc) == Gather(rest, cap, Admit(acc, c))
  {
    assert ([c] + rest)[1..] == rest;
  }

  /** The loop never drops what it has kept. */
  lemma {:induction false} GatherGrows(cands: seq<Option<Item>>, cap: nat, acc: seq<Item>)
    ensures |Gather(cands, cap, acc)| >= |acc|
    decreases |cands|
  {
    if cands != [] && |acc| < cap {
      GatherGrows(cands[1..], cap, Admit(acc, cands[0]));
    }
  }

  /** The loop keeps nothing exactly when the cap is 0 or no block yields an
      item: a single valid block is enough for a non-empty result. */
  lemma {:induction false} GatherEmpty(cands: seq<Option<Item>>, cap: nat)
    ensures Gather(cands, cap, []) == [] <==> cap == 0 || forall i :: 0 <= i < |cands| ==> cands[i].None?
    decreases |cands|
  {
    if cands != [] && cap > 0 {
      if cands[0].Some? {
        assert Keys([], UrlOf) == [];
        assert Admit([], cands[0]) == [cands[0].value];
        GatherGrows(cands[1..], cap, [cands[0].value]);
      } else {
        GatherEmpty(cands[1..], cap);
        assert forall i :: 1 <= i < |cands| ==> cands[i] == cands[1..][i - 1];
      }
    }
  }

  /** Once `cap` items are kept, the blocks after are never looked at: the
      result does not depend on them. */
  lemma {:induction false} GatherStopsAtCap(cands: seq<Option<Item>>, more: seq<Option<Item>>, cap: nat, acc: seq<Item>)
    requires |Gather(cands, cap, acc)| >= cap
    ensures Gather(cands + more, cap, acc) == Gather(cands, cap, acc)
    decreases |cands|
  {
    if cands != [] && |acc| < cap {
      assert (cands + more)[1..] == cands[1..] + more;
      GatherStopsAtCap(cands[1..], more, cap, Admit(acc, cands[0]));
    }
  }

  /** The first-`cap` distinct-URL selection of candidates, and what it keeps. */
  lemma FirstDistinctShape(cands: seq<Option<Item>>, cap: nat)
    ensures var r := Gather(cands, cap, []);
      && r == Take(KeepFirst(Present(cands), UrlOf), cap)
      && |r| <= cap
      && KeysDistinct(r, UrlOf)
      && forall i :: 0 <= i < |r| ==> Some(r[i]) in cands
  {
    var xs := Present(cands);
    GatherIsFirstDistinct(cands, cap, []);
    DedupByIsKeepFirst(xs, UrlOf);
    DedupIntoDistinct([], xs, UrlOf);
    DedupIntoFrom([], xs, UrlOf);
    var d := DedupInto([], xs, UrlOf);
    var r := Take(d, cap);
    forall i | 0 <= i < |r| ensures Some(r[i]) in cands {
      assert r[i] == d[i];
      assert d[i] in xs;
      var j :| 0 <= j < |xs| && xs[j] == d[i];
    }
  }

  /** A property of every candidate is a property of every item kept. */
  lemma GatherKeeps(cands: seq<Option<Item>>, cap: nat, P: Item -> bool)
    requires forall i :: 0 <= i < |cands| && cands[i].Some? ==> P(cands[i].value)
    ensures forall i :: 0 <= i < |Gather(cands, cap, [])| ==> P(Gather(cands, cap, [])[i])
  {
    FirstDistinctShape(cands, cap);
    var r := Gather(cands, cap, []);
    forall i | 0 <= i < |r| ensures P(r[i]) {
      var j :| 0 <= j < |cands| && cands[j] == Some(r[i]);
    }
  }

  /** What `parseXmlItems` returns: exactly the first `cap` distinct-URL items
      of the blocks in document order; so at most `cap` well-formed items with
      pairwise distinct URLs, each the item of a block of the text. */
  lemma XmlItemsSpec(xml: string, base: string, cap: nat, resolve: Resolver)
    ensures var cands := BlockCandidates(xml, IsAtom(xml), base, resolve, 0);
      var r := XmlItems(xml, base, cap, resolve);
      && r == Take(KeepFirst(Present(cands), UrlOf), cap)
      && |r| <= cap
      && KeysDistinct(r, UrlOf)
      && forall i :: 0 <= i < |r| ==> WellFormed(r[i]) && Some(r[i]) in cands
  {
    var cands := BlockCandidates(xml, IsAtom(xml), base, resolve, 0);
    FirstDistinctShape(cands, cap);
    GatherKeeps(cands, cap, WellFormed);
  }

  // ---- Feed discovery ----

  /** The next `<link rel=alternate>` tag at or after `from`. */
  function NextAlternate(html: string, from: nat): (r: Option<Span>)
    ensures r.Some? ==> from <= r.value.start < r.value.end <= |html|
  {
    match FindAlternateLink(html, from)
    case None => None
    case Some((p, q)) => Some(Span(p, q + 1))
  }

  /** A tag found in a text, as the slice `[start..end]` from its `<` to its `>`. */
  datatype Span = Span(start: nat, end: nat)

  /** The feed an alternate link tag announces: its href resolved, when its
      type mentions rss, atom or xml. A typed link without an href resolves the
      empty string, that is the page itself. */
  function LinkFeed(tag: string, base: string, resolve: Resolver): (r: Option<string>)
    ensures r.Some? ==> r.value != []
  {
    if IsXml(FirstAttrValue(tag, "type=").GetOr("")) then
      ToAbs(resolve, FirstAttrValue(tag, "href=").GetOr(""), base)
    else None
  }

  /** The feed an alternate link tag announces, as a sequence of at most one
      URL. */
  function Announced(tag: string, base: string, resolve: Resolver): (r: seq<string>)
    ensures |r| <= 1 && forall i :: 0 <= i < |r| ==> r[i] != []
  {
    match LinkFeed(tag, base, resolve)
    case None => []
    case Some(h) => [h]
  }

  /** The feeds the alternate links at or after `from` announce, in document
      order. */
  function TypedAlternates(html: string, base: string, resolve: Resolver, from: nat): (r: seq<string>)
    ensures forall i :: 0 <= i < |r| ==> r[i] != []
    decreases |html| - from
  {
    match NextAlternate(html, from)
    case None => []
    case Some(tag) => Announced(html[tag.start..tag.end], base, resolve) + TypedAlternates(html, base, resolve, tag.end)
  }

  lemma TypedAlternatesStep(html: string, base: string, resolve: Resolver, from: nat)
    requires NextAlternate(html, from).Some?
    ensures var tag := NextAlternate(html, from).value;
      TypedAlternates(html, base, resolve, from)
        == Announced(html[tag.start..tag.end], base, resolve) + TypedAlternates(html, base, resolve, tag.end)
  {
  }

  /** The paths tried when a page announces no feed. */
  const ConventionalPaths: seq<string> := ["/feed", "/rss", "/rss.xml", "/atom.xml", "/feed.xml"]

  /** The paths that resolve against `base`, resolved, in order. */
  function ResolveAll(paths: seq<string>, base: string, resolve: Resolver): (r: seq<string>)
    ensures |r| <= |paths|
    ensures forall i :: 0 <= i < |r| ==> r[i] != []
  {
    if paths == [] then []
    else
      var r := ResolveAll(paths[..|paths| - 1], base, resolve);
      match ToAbs(resolve, paths[|paths| - 1], base)
      case None => r
      case Some(h) => r + [h]
  }

  function Self(s: string): string {
    s
  }

  /** `discoverFeeds(html, base)`. */
  function DiscoveredFeeds(html: string, base: string, resolve: Resolver): seq<string> {
    var typed := TypedAlternates(html, base, resolve, 0);
    DedupBy(if typed != [] then typed else ResolveAll(ConventionalPaths, base, resolve), Self)
  }

  /** The discovered feeds are pairwise distinct non-empty URLs, in the order of
      their first occurrence among the typed alternate links that resolved, or
      among the resolved conventional paths when no such link resolved. */
  lemma DiscoveredFeedsSpec(html: string, base: string, resolve: Resolver)
    ensures var typed := TypedAlternates(html, base, resolve, 0);
      var r := DiscoveredFeeds(html, base, resolve);
      && (typed != [] ==> r == KeepFirst(typed, Self))
      && (typed == [] ==> r == KeepFirst(ResolveAll(ConventionalPaths, base, resolve), Self))
      && (forall i, j :: 0 <= i < j < |r| ==> r[i] != r[j])
      && (forall i :: 0 <= i < |r| ==> r[i] != [])
  {
    var typed := TypedAlternates(html, base, resolve, 0);
    var xs := if typed != [] then typed else ResolveAll(ConventionalPaths, base, resolve);
    DedupByIsKeepFirst(xs, Self);
    DedupIntoDistinct([], xs, Self);
    DedupIntoFrom([], xs, Self);
    var r := DiscoveredFeeds(html, base, resolve);
    assert forall i, j :: 0 <= i < j < |r| ==> Self(r[i]) != Self(r[j]);
  }

  // ---- HTML fallback ----

  /** The item a heading's content yields, if any: the text of its first
      anchor with tags stripped and white space collapsed, and the anchor's
      resolved href. */
  function HeadingCandidate(seg: string, base: string, resolve: Resolver): (r: Option<Item>)
    ensures r.Some? ==> HeadingShaped(r.value)
  {
    match FindElementWithAttr(seg, "a", "href=", "</a>", 0)
    case None => None
    case Some(a) =>
      var txt := StripTags(seg[a.inner..a.close]);
      match ToAbs(resolve, seg[a.href..a.hrefEnd], base)
      case None => None
      case Some(url) => if txt != [] then Some(Item(txt, url, None)) else None
  }

  /** The next match of `hRe` at or after `from`: the first `<h1>` or `<h2>`
      element there, or none when there is none. */
  function NextHeading(html: string, from: nat): (r: Option<Element>)
    ensures r.Some? ==> from <= r.value.start && r.value.inner <= r.value.close < r.value.end <= |html|
    ensures r.Some? ==> EitherElement(html, "h1", "h2", from, r.value)
    ensures forall e :: FirstOfEither(html, "h1", "h2", from, e) ==> r == Some(e)
    ensures (forall e :: !EitherElement(html, "h1", "h2", from, e)) ==> r.None?
  {
    LeftmostIsFirst(html, "h1", "h2", 1, from);
    Leftmost(FindElement(html, "h1", true, from), FindElement(html, "h2", true, from))
  }

  /** What the headings at or after `from` yield, in document order. */
  function HeadingCandidates(html: string, base: string, resolve: Resolver, from: nat): (r: seq<Option<Item>>)
    ensures forall i :: 0 <= i < |r| && r[i].Some? ==> HeadingShaped(r[i].value)
    decreases |html| - from
  {
    match NextHeading(html, from)
    case None => []
    case Some(e) =>
      [HeadingCandidate(html[e.inner..e.close], base, resolve)] + HeadingCandidates(html, base, resolve, e.end)
  }

  lemma HeadingCandidatesStep(html: string, base: string, resolve: Resolver, from: nat)
    requires NextHeading(html, from).Some?
    ensures var e := NextHeading(html, from).value;
      HeadingCandidates(html, base, resolve, from)
        == [HeadingCandidate(html[e.inner..e.close], base, resolve)] + HeadingCandidates(html, base, resolve, e.end)
  {
  }

  /** The item an anchor with raw href `href` and content `content` yields, if
      any: the href must resolve and the content, tags removed and trimmed,
      must be longer than 4 characters. */
  function AnchorItem(href: string, content: string, base: string, resolve: Resolver): (r: Option<Item>)
    ensures r.Some? ==> AnchorShaped(r.value)
  {
    var txt := Trim(RemoveTags(content));
    match ToAbs(resolve, href, base)
    case None => None
    case Some(url) => if Utf16Length(txt) > 4 then Some(Item(txt, url, None)) else None
  }

  /** What an anchor item satisfies. */
  predicate AnchorShaped(it: Item) {
    WellFormed(it) && it.date.None? && Utf16Length(it.title) > 4
  }

  /** The leftmost anchor at or after `from`. */
  function NextAnchor(html: string, from: nat): (r: Option<Anchor>)
    ensures r.Some? ==> from < r.value.end <= |html|
    ensures r.Some? ==> r.value.href <= r.value.hrefEnd <= r.value.inner <= r.value.close <= |html|
  {
    FindElementWithAttr(html, "a", "href=", "</a>", from)
  }

  /** What the anchors at or after `from` yield, in document order (the
      `matchAll` and `map` of the anchor fallback). */
  function AnchorCandidates(html: string, base: string, resolve: Resolver, from: nat): seq<Option<Item>>
    decreases |html| - from
  {
    match NextAnchor(html, from)
    case None => []
    case Some(a) =>
      [AnchorItem(html[a.href..a.hrefEnd], html[a.inner..a.close], base, resolve)] + AnchorCandidates(html, base, resolve, a.end)
  }

  /** The anchor items (the `filter` of the anchor fallback). */
  function AnchorItems(html: string, base: string, resolve: Resolver): seq<Item> {
    Present(AnchorCandidates(html, base, resolve, 0))
  }

  /** Every item among `xs` is an anchor item's shape. */
  predicate CandidatesShaped(xs: seq<Option<Item>>) {
    forall i :: 0 <= i < |xs| && xs[i].Some? ==> AnchorShaped(xs[i].value)
  }

  lemma {:induction false} AnchorCandidatesShaped(html: string, base: string, resolve: Resolver, from: nat)
    ensures CandidatesShaped(AnchorCandidates(html, base, resolve, from))
    decreases |html| - from
  {
    match NextAnchor(html, from)
    case None =>
    case Some(a) =>
      AnchorCandidatesShaped(html, base, resolve, a.end);
      var head := AnchorItem(html[a.href..a.hrefEnd], html[a.inner..a.close], base, resolve);
      ShapedCons(head, AnchorCandidates(html, base, resolve, a.end));
  }

  lemma ShapedCons(head: Option<Item>, rest: seq<Option<Item>>)
    requires head.Some? ==> AnchorShaped(head.value)
    requires CandidatesShaped(rest)
    ensures CandidatesShaped([head] + rest)
  {
    var r := [head] + rest;
    forall i | 0 <= i < |r| && r[i].Some? ensures AnchorShaped(r[i].value) {
      if i > 0 {
        assert r[i] == rest[i - 1];
      }
    }
  }

  lemma AnchorItemsShaped(html: string, base: string, resolve: Resolver)
    ensures forall i :: 0 <= i < |AnchorItems(html, base, resolve)| ==> AnchorShaped(AnchorItems(html, base, resolve)[i])
  {
    AnchorCandidatesShaped(html, base, resolve, 0);
    PresentShaped(AnchorCandidates(html, base, resolve, 0));
  }

  lemma PresentShaped(xs: seq<Option<Item>>)
    requires CandidatesShaped(xs)
    ensures forall i :: 0 <= i < |Present(xs)| ==> AnchorShaped(Present(xs)[i])
  {
    PresentKeeps(xs, AnchorShaped);
  }

  /** `parseHtmlTitles(html, base)` with `ITEMS_PER_SOURCE = cap`, an integer setting (a fractional one is not modelled). */
  function HtmlTitles(html: string, base: string, cap: nat, resolve: Resolver): seq<Item> {
    var headed := Gather(HeadingCandidates(html, base, resolve, 0), cap, []);
    if headed != [] then headed else Take(AnchorItems(html, base, resolve), cap)
  }

  /** Heading items are well-formed and undated. */
  predicate HeadingShaped(it: Item) {
    WellFormed(it) && it.date.None?
  }

  /** The HTML fallback when a heading yields an item: the first `cap`
      distinct-URL heading items, well-formed and undated. */
  lemma HtmlTitlesFromHeadings(html: string, base: string, cap: nat, resolve: Resolver)
    requires Gather(HeadingCandidates(html, base, resolve, 0), cap, []) != []
    ensures var r := HtmlTitles(html, base, cap, resolve);
      && r == Take(KeepFirst(Present(HeadingCandidates(html, base, resolve, 0)), UrlOf), cap)
      && |r| <= cap && KeysDistinct(r, UrlOf)
      && forall i :: 0 <= i < |r| ==> HeadingShaped(r[i])
  {
    var heads := HeadingCandidates(html, base, resolve, 0);
    FirstDistinctShape(heads, cap);
    GatherKeeps(heads, cap, HeadingShaped);
  }

  /** The HTML fallback when no heading yields an item: the first `cap` anchor
      items, not de-duplicated, each with a title longer than 4 characters. */
  lemma HtmlTitlesFromAnchors(html: string, base: string, cap: nat, resolve: Resolver)
    requires Gather(HeadingCandidates(html, base, resolve, 0), cap, []) == []
    ensures var r := HtmlTitles(html, base, cap, resolve);
      && r == Take(AnchorItems(html, base, resolve), cap)
      && |r| <= cap
      && forall i :: 0 <= i < |r| ==> AnchorShaped(r[i])
  {
    var anchors := AnchorItems(html, base, resolve);
    AnchorItemsShaped(html, base, resolve);
    var r := Take(anchors, cap);
    assert forall i :: 0 <= i < |r| ==> r[i] == anchors[i];
  }


  // ---- The loops of the script ----

  /** `parseXmlItems(xml, baseUrl)`: scans the item (RSS) or entry (Atom)
      blocks in document order while fewer than `cap` items are kept, keeping a
      block's item when its URL has not been seen. */
  method ParseXmlItems(xml: string, baseUrl: string, cap: nat, resolve: Resolver) returns (items: seq<Item>)
    ensures items == XmlItems(xml, baseUrl, cap, resolve)
  {
    var atom := IsAtom(xml);
    ghost var all := BlockCandidates(xml, atom, baseUrl, resolve, 0);
    items := [];
    var seen: set<string> := {};
    var from: nat := 0;
    var m := NextBlock(xml, atom, from);
    while m.Some? && |items| < cap
      invariant m == NextBlock(xml, atom, from)
      invariant forall u :: u in seen <==> u in Keys(items, UrlOf)
      invariant Gather(all, cap, []) == Gather(BlockCandidates(xml, atom, baseUrl, resolve, from), cap, items)
      decreases |xml| - from
    {
      var b := m.value;
      var cand := BlockCandidate(xml[b.start..b.end], atom, baseUrl, resolve);
      BlockCandidatesStep(xml, atom, baseUrl, resolve, from);
      GatherStep(cand, BlockCandidates(xml, atom, baseUrl, resolve, b.end), cap, items);
      if cand.Some? && cand.value.url !in seen {
        assert Keys(items + [cand.value], UrlOf) == Keys(items, UrlOf) + [cand.value.url];
        seen := seen + {cand.value.url};
        items := items + [cand.value];
      }
      from := b.end;
      m := NextBlock(xml, atom, from);
    }
  }

  /** The `while` loop of `discoverFeeds`: the feeds of the alternate link
      tags, in document order. */
  method ScanAlternates(html: string, baseUrl: string, resolve: Resolver) returns (found: seq<string>)
    ensures found == TypedAlternates(html, baseUrl, resolve, 0)
  {
    found := [];
    var from: nat := 0;
    AppendAssoc([], [], TypedAlternates(html, baseUrl, resolve, 0));
    while NextAlternate(html, from).Some?
      invariant found + TypedAlternates(html, baseUrl, resolve, from) == TypedAlternates(html, baseUrl, resolve, 0)
      decreases |html| - from
    {
      var tag := NextAlternate(html, from).value;
      var href := LinkFeed(html[tag.start..tag.end], baseUrl, resolve);
      TypedAlternatesStep(html, baseUrl, resolve, from);
      AppendAssoc(found, Announced(html[tag.start..tag.end], baseUrl, resolve), TypedAlternates(html, baseUrl, resolve, tag.end));
      if href.Some? {
        found := found + [href.value];
      }
      from := tag.end;
    }
  }

  /** `discoverFeeds(html, baseUrl)`: the typed alternate links, else the
      conventional paths, then duplicates dropped. */
  method DiscoverFeeds(html: string, baseUrl: string, resolve: Resolver) returns (feeds: seq<string>)
    ensures feeds == DiscoveredFeeds(html, baseUrl, resolve)
  {
    var found := ScanAlternates(html, baseUrl, resolve);
    if found == [] {
      found := ResolveEach(ConventionalPaths, baseUrl, resolve);
    }
    feeds := DedupBy(found, Self);
  }

  /** The `forEach` over the conventional paths: each path that resolves is
      pushed, in order. */
  method ResolveEach(paths: seq<string>, baseUrl: string, resolve: Resolver) returns (found: seq<string>)
    ensures found == ResolveAll(paths, baseUrl, resolve)
  {
    found := [];
    for i := 0 to |paths|
      invariant found == ResolveAll(paths[..i], baseUrl, resolve)
    {
      assert paths[..i + 1][..i] == paths[..i];
      var h := ToAbs(resolve, paths[i], baseUrl);
      if h.Some? {
        found := found + [h.value];
      }
    }
    assert paths[..|paths|] == paths;
  }

  /** The heading loop of `parseHtmlTitles`: scans the `<h1>`/`<h2>`
      elements in document order while fewer than `cap` titles are kept,
      keeping a heading's item when no kept title has its URL. */
  method ScanHeadings(html: string, baseUrl: string, cap: nat, resolve: Resolver) returns (titles: seq<Item>)
    ensures titles == Gather(HeadingCandidates(html, baseUrl, resolve, 0), cap, [])
  {
    ghost var all := HeadingCandidates(html, baseUrl, resolve, 0);
    titles := [];
    var from: nat := 0;
    var m := NextHeading(html, from);
    while m.Some? && |titles| < cap
      invariant m == NextHeading(html, from)
      invariant Gather(all, cap, []) == Gather(HeadingCandidates(html, baseUrl, resolve, from), cap, titles)
      decreases |html| - from
    {
      var e := m.value;
      var cand := HeadingCandidate(html[e.inner..e.close], baseUrl, resolve);
      HeadingCandidatesStep(html, baseUrl, resolve, from);
      GatherStep(cand, HeadingCandidates(html, baseUrl, resolve, e.end), cap, titles);
      if cand.Some? && cand.value.url !in Keys(titles, UrlOf) {
        titles := titles + [cand.value];
      }
      from := e.end;
      m := NextHeading(html, from);
    }
  }

  /** The `for` loop of the anchor fallback: anchor items are pushed in order
      until `cap` titles are kept. */
  method FillFromAnchors(anchors: seq<Item>, cap: nat) returns (titles: seq<Item>)
    ensures titles == Take(anchors, cap)
  {
    titles := [];
    for k := 0 to |anchors|
      invariant |titles| <= cap
      invariant titles == anchors[..if k <= cap then k else cap]
    {
      if |titles| >= cap {
        break;
      }
      titles := titles + [anchors[k]];
    }
  }

  /** `parseHtmlTitles(html, baseUrl)`: the heading scan and, when it keeps
      nothing, the anchor fallback, then the first `cap` titles. */
  method ParseHtmlTitles(html: string, baseUrl: string, cap: nat, resolve: Resolver) returns (titles: seq<Item>)
    ensures titles == HtmlTitles(html, baseUrl, cap, resolve)
  {
    titles := ScanHeadings(html, baseUrl, cap, resolve);
    if titles == [] {
      var anchors := AnchorItems(html, baseUrl, resolve);
      titles := FillFromAnchors(anchors, cap);
    } else {
      FirstDistinctShape(HeadingCandidates(html, baseUrl, resolve, 0), cap);
    }
    titles := Take(titles, cap);
  }
}
