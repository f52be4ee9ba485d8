/** The rendering helpers of the newsletter builder
    (scripts/build-newsletter.mjs): HTML escaping, the two table bodies, the
    grouping of news items by source, the news section and the editorial
    placeholders. Dates are an abstract integer key (`dateKey`) and their
    French formatting an abstract function (`fmtDate`). */
module Newsletter {

  import opened Wrappers
  import opened Text
  import opened Seqs

  // ---- esc ----

  /** The replacement of one character by `esc`. */
  function EscChar(c: char): string {
    if c == '&' then "&amp;"
    else if c == '<' then "&lt;"
    else if c == '>' then "&gt;"
    else if c == '"' then "&quot;"
    else [c]
  }

  /** One of the four characters `esc` replaces. */
  predicate Special(c: char) {
    c == '&' || c == '<' || c == '>' || c == '"'
  }

  /** `esc(s)`: `&`, `<`, `>` and `"` replaced by their entities. The result
      holds no `<`, `>` or `"`, and a string without the four characters is
      returned unchanged. */
  function Esc(s: string): (r: string)
    ensures forall i :: 0 <= i < |r| ==> r[i] != '<' && r[i] != '>' && r[i] != '"'
    ensures (forall i :: 0 <= i < |s| ==> !Special(s[i])) ==> r == s
    ensures |r| >= |s|
    decreases |s|
  {
    if s == [] then [] else EscChar(s[0]) + Esc(s[1..])
  }

  /** Escaping works character by character. */
  lemma {:induction false} EscAppend(a: string, b: string)
    ensures Esc(a + b) == Esc(a) + Esc(b)
    decreases |a|
  {
    if a != [] {
      assert (a + b)[1..] == a[1..] + b;
      EscAppend(a[1..], b);
    } else {
      assert a + b == b;
    }
  }

  /** A character other than the four, and other than the letters and
      punctuation of the entities, occurs in `Esc(s)` only where it occurs in
      `s`. */
  lemma {:induction false} EscKeepsOut(s: string, c: char)
    requires c !in s && !Special(c) && c !in "amplgtquo;"
    ensures c !in Esc(s)
    decreases |s|
  {
    if s != [] {
      EscKeepsOut(s[1..], c);
    }
  }

  function StartsWith(s: string, p: string): bool {
    |p| <= |s| && s[..|p|] == p
  }

  /** The entity `s` starts with, if any: the character it stands for and
      its length. */
  function EntityAt(s: string): (r: Option<(char, nat)>)
    ensures r.Some? ==> 1 <= r.value.1 <= |s|
  {
    if |s| >= 5 && s[0] == '&' && s[1] == 'a' && s[2] == 'm' && s[3] == 'p' && s[4] == ';' then Some(('&', 5))
    else if |s| >= 4 && s[0] == '&' && s[1] == 'l' && s[2] == 't' && s[3] == ';' then Some(('<', 4))
    else if |s| >= 4 && s[0] == '&' && s[1] == 'g' && s[2] == 't' && s[3] == ';' then Some(('>', 4))
    else if |s| >= 6 && s[0] == '&' && s[1] == 'q' && s[2] == 'u' && s[3] == 'o' && s[4] == 't' && s[5] == ';' then Some(('"', 6))
    else None
  }

  /** The decoding of the four entities, left to right; every other
      character is kept. */
  function Unescape(s: string): string
    decreases |s|
  {
    if s == [] then []
    else match EntityAt(s)
      case Some((c, n)) => [c] + Unescape(s[n..])
      case None => [s[0]] + Unescape(s[1..])
  }

  lemma UnescapeCons(c: char, t: string)
    ensures Unescape(EscChar(c) + t) == [c] + Unescape(t)
  {
    if c == '&' {
      var s := "&amp;" + t;
      assert s[..5] == "&amp;" && s[5..] == t;
      EntityStep(s, '&', 5);
    } else if c == '<' {
      var s := "&lt;" + t;
      assert s[..4] == "&lt;" && s[4..] == t;
      EntityStep(s, '<', 4);
    } else if c == '>' {
      var s := "&gt;" + t;
      assert s[..4] == "&gt;" && s[4..] == t;
      EntityStep(s, '>', 4);
    } else if c == '"' {
      var s := "&quot;" + t;
      assert s[..6] == "&quot;" && s[6..] == t;
      EntityStep(s, '"', 6);
    } else {
      var s := [c] + t;
      assert s[1..] == t;
    }
  }

  /** A text that starts with an entity decodes to its character, then the rest. */
  lemma EntityStep(s: string, c: char, n: nat)
    requires EntityAt(s) == Some((c, n))
    ensures Unescape(s) == [c] + Unescape(s[n..])
  {
  }

  /** Decoding the entities of `esc(s)` gives `s` back. */
  lemma {:induction false} UnescapeEsc(s: string)
    ensures Unescape(Esc(s)) == s
    decreases |s|
  {
    if s != [] {
      UnescapeEsc(s[1..]);
      UnescapeCons(s[0], Esc(s[1..]));
    }
  }

  // ---- buildTarifsRows, buildPrimesRows ----

  /** An entry of `tarifs.json`; the numeric `tarif` is taken as the string
      its `toString()` gives. */
  datatype Tarif = Tarif(puissance: Option<string>, tarif: Option<string>, exemple: Option<string>)

  /** An entry of `primes.json`, with the same reading of `prime`. */
  datatype Prime = Prime(puissance: Option<string>, prime: Option<string>)

  const NoTarifs: string := "<tr><td colspan=\"3\">Non disponible</td></tr>"
  const NoPrimes: string := "<tr><td colspan=\"2\">Non disponible</td></tr>"

  /** `(v ?? "").toString().replace(".", ",")`: the first decimal point
      becomes a comma. */
  function Decimal(v: Option<string>): string {
    ReplaceFirst(v.GetOr(""), ".", ",")
  }

  function TarifRow(t: Tarif): string {
    "<tr><td>" + Esc(OrElse(t.puissance, "")) + "</td><td>" + Decimal(t.tarif)
    + "</td><td>" + Esc(OrElse(t.exemple, "—")) + "</td></tr>"
  }

  function PrimeRow(p: Prime): string {
    "<tr><td>" + Esc(OrElse(p.puissance, "")) + "</td><td>" + Decimal(p.prime) + "</td></tr>"
  }

  function TarifRows(ts: seq<Tarif>): (r: seq<string>)
    ensures |r| == |ts| && forall i :: 0 <= i < |ts| ==> r[i] == TarifRow(ts[i])
  {
    if ts == [] then [] else [TarifRow(ts[0])] + TarifRows(ts[1..])
  }

  function PrimeRows(ps: seq<Prime>): (r: seq<string>)
    ensures |r| == |ps| && forall i :: 0 <= i < |ps| ==> r[i] == PrimeRow(ps[i])
  {
    if ps == [] then [] else [PrimeRow(ps[0])] + PrimeRows(ps[1..])
  }

  /** `buildTarifsRows(tarifs)`; `None` stands for a value that is not an array. */
  function BuildTarifsRows(tarifs: Option<seq<Tarif>>): string {
    if tarifs.None? || tarifs.value == [] then NoTarifs else Join(TarifRows(tarifs.value), "\n")
  }

  /** `buildPrimesRows(primes)`. */
  function BuildPrimesRows(primes: Option<seq<Prime>>): string {
    if primes.None? || primes.value == [] then NoPrimes else Join(PrimeRows(primes.value), "\n")
  }

  /** The line break stays out of `replace(".", ",")`. */
  lemma DecimalKeepsOut(v: Option<string>)
    requires '\n' !in v.GetOr("")
    ensures '\n' !in Decimal(v)
  {
    var s := v.GetOr("");
    match FindFrom(s, ".", 0)
    case None =>
    case Some(k) =>
      assert Decimal(v) == s[..k] + "," + s[k + 1..];
      assert forall i :: 0 <= i < k ==> s[..k][i] == s[i];
      assert forall i :: k + 1 <= i < |s| ==> s[k + 1..][i - k - 1] == s[i];
  }

  /** A field without a line break. */
  predicate OneLine(v: Option<string>) {
    v.None? || '\n' !in v.value
  }

  lemma TarifRowOneLine(t: Tarif)
    requires OneLine(t.puissance) && OneLine(t.tarif) && OneLine(t.exemple)
    ensures '\n' !in TarifRow(t)
  {
    EscKeepsOut(OrElse(t.puissance, ""), '\n');
    EscKeepsOut(OrElse(t.exemple, "—"), '\n');
    DecimalKeepsOut(t.tarif);
  }

  lemma PrimeRowOneLine(p: Prime)
    requires OneLine(p.puissance) && OneLine(p.prime)
    ensures '\n' !in PrimeRow(p)
  {
    EscKeepsOut(OrElse(p.puissance, ""), '\n');
    DecimalKeepsOut(p.prime);
  }

  /** With no line break in the fields, the tariff table body has one line
      per entry, in order, each the row of its entry; an empty or missing list gives
      the single "Non disponible" row. */
  lemma TarifsRowsLines(tarifs: Option<seq<Tarif>>)
    requires tarifs.Some? ==> forall i :: 0 <= i < |tarifs.value| ==>
      OneLine(tarifs.value[i].puissance) && OneLine(tarifs.value[i].tarif) && OneLine(tarifs.value[i].exemple)
    ensures tarifs.None? || tarifs.value == [] ==> BuildTarifsRows(tarifs) == NoTarifs
    ensures tarifs.Some? && tarifs.value != [] ==> Split(BuildTarifsRows(tarifs), '\n') == TarifRows(tarifs.value)
  {
    if tarifs.Some? && tarifs.value != [] {
      var ts := tarifs.value;
      var rows := TarifRows(ts);
      forall i | 0 <= i < |rows| ensures '\n' !in rows[i] {
        TarifRowOneLine(ts[i]);
      }
      SplitJoin(rows, '\n');
    }
  }

  /** The same for the bonus table. */
  lemma PrimesRowsLines(primes: Option<seq<Prime>>)
    requires primes.Some? ==> forall i :: 0 <= i < |primes.value| ==>
      OneLine(primes.value[i].puissance) && OneLine(primes.value[i].prime)
    ensures primes.None? || primes.value == [] ==> BuildPrimesRows(primes) == NoPrimes
    ensures primes.Some? && primes.value != [] ==> Split(BuildPrimesRows(primes), '\n') == PrimeRows(primes.value)
  {
    if primes.Some? && primes.value != [] {
      var ps := primes.value;
      var rows := PrimeRows(ps);
      forall i | 0 <= i < |rows| ensures '\n' !in rows[i] {
        PrimeRowOneLine(ps[i]);
      }
      SplitJoin(rows, '\n');
    }
  }

  // ---- groupBySource ----

  /** An entry of `feeds.json` as the builder reads it. */
  datatype NewsItem = NewsItem(
    sourceId: Option<string>,
    sourceName: Option<string>,
    title: Option<string>,
    url: Option<string>,
    date: Option<string>)

  /** `it.source_name || it.source_id || "source"`. */
  function KeyOf(it: NewsItem): string {
    OrElse(it.sourceName, OrElse(it.sourceId, "source"))
  }

  /** The keys of the items, each once, in the order they first appear. */
  function GroupKeys(items: seq<NewsItem>): (r: seq<string>)
    ensures forall k :: k in r <==> exists i :: 0 <= i < |items| && KeyOf(items[i]) == k
    decreases |items|
  {
    if items == [] then []
    else
      var init := GroupKeys(items[..|items| - 1]);
      var k := KeyOf(items[|items| - 1]);
      assert forall i :: 0 <= i < |items| - 1 ==> items[..|items| - 1][i] == items[i];
      if k in init then init else init + [k]
  }

  /** The items of key `k`, in input order. */
  function Members(items: seq<NewsItem>, k: string): (r: seq<NewsItem>)
    ensures forall i :: 0 <= i < |r| ==> r[i] in items && KeyOf(r[i]) == k
    decreases |items|
  {
    if items == [] then []
    else
      var last := items[|items| - 1];
      Members(items[..|items| - 1], k) + (if KeyOf(last) == k then [last] else [])
  }

  /** Each key is listed once. */
  lemma {:induction false} GroupKeysDistinct(items: seq<NewsItem>)
    ensures forall i, j :: 0 <= i < j < |GroupKeys(items)| ==> GroupKeys(items)[i] != GroupKeys(items)[j]
    decreases |items|
  {
    if items != [] {
      GroupKeysDistinct(items[..|items| - 1]);
    }
  }

  /** A key that no item has has no members. */
  lemma {:induction false} MembersOfAbsent(items: seq<NewsItem>, k: string)
    requires k !in GroupKeys(items)
    ensures Members(items, k) == []
    decreases |items|
  {
    if items != [] {
      MembersOfAbsent(items[..|items| - 1], k);
    }
  }

  /** `groupBySource(items)`: the keys of the `Map` in insertion order, and
      the `Map`, which holds for each key its items in input order. */
  method GroupBySource(items: seq<NewsItem>) returns (keys: seq<string>, groups: map<string, seq<NewsItem>>)
    ensures keys == GroupKeys(items)
    ensures forall k :: k in groups <==> k in keys
    ensures forall k :: k in groups ==> groups[k] == Members(items, k)
  {
    keys, groups := [], map[];
    for i := 0 to |items|
      invariant keys == GroupKeys(items[..i])
      invariant forall k :: k in groups <==> k in keys
      invariant forall k :: k in groups ==> groups[k] == Members(items[..i], k)
    {
      var it := items[i];
      var key := KeyOf(it);
      assert items[..i + 1][..i] == items[..i];
      if key !in groups {
        MembersOfAbsent(items[..i], key);
        keys := keys + [key];
        groups := groups[key := []];
      }
      groups := groups[key := groups[key] + [it]];
    }
    assert items[..|items|] == items;
  }

  /** The groups, in key order. */
  function Concat(items: seq<NewsItem>, keys: seq<string>): seq<NewsItem>
    decreases |keys|
  {
    if keys == [] then [] else Concat(items, keys[..|keys| - 1]) + Members(items, keys[|keys| - 1])
  }

  lemma {:induction false} ConcatSnoc(items: seq<NewsItem>, x: NewsItem, keys: seq<string>)
    requires forall i, j :: 0 <= i < j < |keys| ==> keys[i] != keys[j]
    ensures multiset(Concat(items + [x], keys)) ==
      multiset(Concat(items, keys)) + (if KeyOf(x) in keys then multiset{x} else multiset{})
    decreases |keys|
  {
    if keys != [] {
      var n := |keys| - 1;
      var init, k := keys[..n], keys[n];
      LastKey(keys, init);
      ConcatSnoc(items, x, init);
      MembersSnoc(items, x, k);
      var before := multiset(Concat(items, init));
      assert multiset(Concat(items + [x], keys)) ==
        multiset(Concat(items + [x], init)) + multiset(Members(items + [x], k));
      assert multiset(Concat(items, keys)) == before + multiset(Members(items, k));
    }
  }

  /** The last of distinct keys is not among the others. */
  lemma LastKey(keys: seq<string>, init: seq<string>)
    requires keys != [] && init == keys[..|keys| - 1]
    requires forall i, j :: 0 <= i < j < |keys| ==> keys[i] != keys[j]
    ensures forall i, j :: 0 <= i < j < |init| ==> init[i] != init[j]
    ensures keys[|keys| - 1] !in init
    ensures keys == init + [keys[|keys| - 1]]
  {
  }

  /** One more item joins the group of its key only. */
  lemma MembersSnoc(items: seq<NewsItem>, x: NewsItem, k: string)
    ensures Members(items + [x], k) == Members(items, k) + (if KeyOf(x) == k then [x] else [])
  {
    assert (items + [x])[..|items|] == items;
  }

  /** The groups together hold exactly the input items. */
  lemma {:induction false} GroupsPartition(items: seq<NewsItem>)
    ensures multiset(Concat(items, GroupKeys(items))) == multiset(items)
    decreases |items|
  {
    if items != [] {
      var n := |items| - 1;
      var init, x := items[..n], items[n];
      assert items == init + [x];
      GroupsPartition(init);
      var keys := GroupKeys(init);
      GroupKeysDistinct(init);
      ConcatSnoc(init, x, keys);
      if KeyOf(x) !in keys {
        MembersOfAbsent(init, KeyOf(x));
        assert Members(items, KeyOf(x)) == [x];
      }
    }
  }

  // ---- the date sort ----

  /** `new Date(it.date || 0)` as an integer key: a missing or empty date is 0. */
  function Rank(it: NewsItem, dateKey: string -> int): int {
    if it.date.Some? && it.date.value != [] then dateKey(it.date.value) else 0
  }

  ghost predicate NewestFirst(xs: seq<NewsItem>, dateKey: string -> int) {
    forall i, j :: 0 <= i < j < |xs| ==> Rank(xs[i], dateKey) >= Rank(xs[j], dateKey)
  }

  /** The items whose key is `d`, in order. */
  function WithRank(xs: seq<NewsItem>, dateKey: string -> int, d: int): seq<NewsItem>
    decreases |xs|
  {
    if xs == [] then []
    else WithRank(xs[..|xs| - 1], dateKey, d) + (if Rank(xs[|xs| - 1], dateKey) == d then [xs[|xs| - 1]] else [])
  }

  lemma {:induction false} WithRankAppend(xs: seq<NewsItem>, ys: seq<NewsItem>, dateKey: string -> int, d: int)
    ensures WithRank(xs + ys, dateKey, d) == WithRank(xs, dateKey, d) + WithRank(ys, dateKey, d)
    decreases |ys|
  {
    if ys == [] {
      assert xs + ys == xs;
    } else {
      var n := |ys| - 1;
      assert (xs + ys)[..|xs + ys| - 1] == xs + ys[..n];
      WithRankAppend(xs, ys[..n], dateKey, d);
    }
  }

  /** `x` placed after every element whose key is at least its own. */
  function Insert(s: seq<NewsItem>, x: NewsItem, dateKey: string -> int): seq<NewsItem>
    decreases |s|
  {
    if s == [] || Rank(s[|s| - 1], dateKey) >= Rank(x, dateKey) then s + [x]
    else Insert(s[..|s| - 1], x, dateKey) + [s[|s| - 1]]
  }

  /** `items.sort((a, b) => date(b) - date(a))`, the stable sort of the
      runtime, newest first. */
  function SortByDate(xs: seq<NewsItem>, dateKey: string -> int): seq<NewsItem>
    decreases |xs|
  {
    if xs == [] then [] else Insert(SortByDate(xs[..|xs| - 1], dateKey), xs[|xs| - 1], dateKey)
  }

  /** Insertion adds `x` and keeps every other item. */
  lemma {:induction false} InsertCount(s: seq<NewsItem>, x: NewsItem, dateKey: string -> int)
    ensures multiset(Insert(s, x, dateKey)) == multiset(s) + multiset{x}
    ensures |Insert(s, x, dateKey)| == |s| + 1
    decreases |s|
  {
    if !(s == [] || Rank(s[|s| - 1], dateKey) >= Rank(x, dateKey)) {
      var n := |s| - 1;
      assert s == s[..n] + [s[n]];
      InsertCount(s[..n], x, dateKey);
    }
  }

  /** Insertion into a newest-first list keeps it newest first. */
  lemma {:induction false} InsertSorted(s: seq<NewsItem>, x: NewsItem, dateKey: string -> int)
    requires NewestFirst(s, dateKey)
    ensures NewestFirst(Insert(s, x, dateKey), dateKey)
    decreases |s|
  {
    if !(s == [] || Rank(s[|s| - 1], dateKey) >= Rank(x, dateKey)) {
      var n := |s| - 1;
      var init, last := s[..n], s[n];
      InsertSorted(init, x, dateKey);
      InsertCount(init, x, dateKey);
      var t := Insert(init, x, dateKey);
      // every element of `t` is `x` or an element of `init`, all newer than `last`
      forall i | 0 <= i < |t| ensures Rank(t[i], dateKey) >= Rank(last, dateKey) {
        assert t[i] in multiset(t);
        if t[i] != x {
          assert t[i] in multiset(init);
          var j :| 0 <= j < |init| && init[j] == t[i];
          assert s[j] == init[j];
        }
      }
    }
  }

  /** Insertion puts `x` after the items of its own date: the items of each
      date keep their order. */
  lemma {:induction false} InsertWithRank(s: seq<NewsItem>, x: NewsItem, dateKey: string -> int, d: int)
    ensures WithRank(Insert(s, x, dateKey), dateKey, d)
      == WithRank(s, dateKey, d) + (if Rank(x, dateKey) == d then [x] else [])
    decreases |s|
  {
    if s == [] || Rank(s[|s| - 1], dateKey) >= Rank(x, dateKey) {
      assert (s + [x])[..|s|] == s;
    } else {
      var n := |s| - 1;
      var init, last := s[..n], s[n];
      InsertWithRank(init, x, dateKey, d);
      var t := Insert(init, x, dateKey);
      var r := t + [last];
      assert r[..|r| - 1] == t;
      if Rank(x, dateKey) == d {
        // `x` is newer than `last`, so `last` is not of date `d`
        assert Rank(last, dateKey) != d;
      }
    }
  }

  /** The sort puts the newest first, keeps every item, and keeps the order
      of items whose dates are equal (stability). */
  lemma {:induction false} SortByDateSpec(xs: seq<NewsItem>, dateKey: string -> int, d: int)
    ensures NewestFirst(SortByDate(xs, dateKey), dateKey)
    ensures multiset(SortByDate(xs, dateKey)) == multiset(xs)
    ensures WithRank(SortByDate(xs, dateKey), dateKey, d) == WithRank(xs, dateKey, d)
    ensures |SortByDate(xs, dateKey)| == |xs|
    decreases |xs|
  {
    if xs != [] {
      var n := |xs| - 1;
      assert xs == xs[..n] + [xs[n]];
      SortByDateSpec(xs[..n], dateKey, d);
      var t := SortByDate(xs[..n], dateKey);
      InsertSorted(t, xs[n], dateKey);
      InsertCount(t, xs[n], dateKey);
      InsertWithRank(t, xs[n], dateKey, d);
      WithRankAppend(xs[..n], [xs[n]], dateKey, d);
    }
  }

  /** A source's items in a newest-first list are newest first. */
  lemma {:induction false} MembersNewestFirst(xs: seq<NewsItem>, k: string, dateKey: string -> int)
    requires NewestFirst(xs, dateKey)
    ensures NewestFirst(Members(xs, k), dateKey)
    decreases |xs|
  {
    if xs != [] {
      var n := |xs| - 1;
      PrefixNewer(xs, n, dateKey);
      MembersNewestFirst(xs[..n], k, dateKey);
      var m := Members(xs[..n], k);
      if KeyOf(xs[n]) == k {
        SnocNewestFirst(m, xs[n], dateKey);
      }
    }
  }

  /** In a newest-first list, the items before position `n` are newest first
      and at least as new as the item at `n`. */
  lemma PrefixNewer(xs: seq<NewsItem>, n: nat, dateKey: string -> int)
    requires NewestFirst(xs, dateKey) && n < |xs|
    ensures NewestFirst(xs[..n], dateKey)
    ensures forall y :: y in xs[..n] ==> Rank(y, dateKey) >= Rank(xs[n], dateKey)
  {
    forall y | y in xs[..n] ensures Rank(y, dateKey) >= Rank(xs[n], dateKey) {
      var j :| 0 <= j < n && xs[..n][j] == y;
      assert xs[j] == y;
    }
  }

  /** An item no newer than any item of a newest-first list extends it. */
  lemma SnocNewestFirst(m: seq<NewsItem>, x: NewsItem, dateKey: string -> int)
    requires NewestFirst(m, dateKey)
    requires forall y :: y in m ==> Rank(y, dateKey) >= Rank(x, dateKey)
    ensures NewestFirst(m + [x], dateKey)
  {
    forall i, j | 0 <= i < j < |m| + 1 ensures Rank((m + [x])[i], dateKey) >= Rank((m + [x])[j], dateKey) {
      assert (m + [x])[i] == m[i];
      if j == |m| {
        assert m[i] in m;
      } else {
        assert (m + [x])[j] == m[j];
      }
    }
  }

  // ---- buildNewsItems ----

  const NoNews: string := "<article><h3>Aucune actualité</h3><p>Le flux n’a pas encore été alimenté.</p></article>"

  /** The title shown: `it.title || "(sans titre)"`. */
  function TitleOf(it: NewsItem): string {
    OrElse(it.title, "(sans titre)")
  }

  /** The link target: `it.url || "#"`. */
  function UrlOf(it: NewsItem): string {
    OrElse(it.url, "#")
  }

  /** The date suffix, present only when the item has a date. */
  function DateSuffix(it: NewsItem, fmtDate: string -> string): string {
    if it.date.Some? && it.date.value != [] then " · <small>" + fmtDate(it.date.value) + "</small>" else ""
  }

  const LiOpen: string := "<li><a href=\""

  /** What follows the URL in an entry, from the quote that closes `href`. */
  function LiRest(it: NewsItem, fmtDate: string -> string): (r: string)
    ensures r != [] && r[0] == '"'
  {
    "\" target=\"_blank\" rel=\"noopener\">" + Esc(TitleOf(it)) + "</a>" + DateSuffix(it, fmtDate) + "</li>"
  }

  /** The list entry of one item. */
  function Li(it: NewsItem, fmtDate: string -> string): string {
    LiOpen + Esc(UrlOf(it)) + LiRest(it, fmtDate)
  }

  /** The search for a one-character pattern stops at its first occurrence. */
  lemma {:induction false} FindChar(s: string, c: char, from: nat, q: nat)
    requires from <= q < |s| && s[q] == c
    requires forall k :: from <= k < q ==> s[k] != c
    ensures FindFrom(s, [c], from) == Some(q)
    decreases q - from
  {
    assert s[from..from + 1] == [s[from]];
    if from < q {
      FindChar(s, c, from + 1, q);
    }
  }

  /** A value without quotes, followed by a quote, ends at that quote. */
  lemma QuoteEnds(pre: string, u: string, rest: string)
    requires forall i :: 0 <= i < |u| ==> u[i] != '"'
    requires rest != [] && rest[0] == '"'
    ensures FindFrom(pre + u + rest, "\"", |pre|) == Some(|pre| + |u|)
    ensures (pre + u + rest)[|pre|..|pre| + |u|] == u
    ensures (pre + u + rest)[..|pre|] == pre
  {
    var s := pre + u + rest;
    var p, q := |pre|, |pre| + |u|;
    Parts(pre, u, rest);
    forall k | p <= k < q ensures s[k] != '"' {
      assert s[k] == u[k - p];
    }
    FindChar(s, '"', p, q);
  }

  /** The three parts of a concatenation. */
  lemma Parts(pre: string, u: string, rest: string)
    ensures (pre + u + rest)[|pre|..|pre| + |u|] == u
    ensures (pre + u + rest)[..|pre|] == pre
    ensures forall k :: |pre| <= k < |pre| + |u| ==> (pre + u + rest)[k] == u[k - |pre|]
  {
  }

  /** The `href` attribute of an entry ends at the first quote after it, and
      decoding it gives the item's URL, or `#` when it has none: no URL can
      close the attribute early. */
  lemma LiHref(it: NewsItem, fmtDate: string -> string)
    ensures StartsWith(Li(it, fmtDate), LiOpen)
    ensures FindFrom(Li(it, fmtDate), "\"", |LiOpen|) == Some(|LiOpen| + |Esc(UrlOf(it))|)
    ensures Unescape(Li(it, fmtDate)[|LiOpen|..|LiOpen| + |Esc(UrlOf(it))|]) == UrlOf(it)
  {
    QuoteEnds(LiOpen, Esc(UrlOf(it)), LiRest(it, fmtDate));
    UnescapeEsc(UrlOf(it));
  }

  function Lis(list: seq<NewsItem>, fmtDate: string -> string): (r: seq<string>)
    ensures |r| == |list| && forall i :: 0 <= i < |list| ==> r[i] == Li(list[i], fmtDate)
  {
    if list == [] then [] else [Li(list[0], fmtDate)] + Lis(list[1..], fmtDate)
  }

  /** The article of one source with its entries. */
  function Article(src: string, lis: seq<string>): string {
    "<article><h3>" + Esc(src) + "</h3><ul class=\"clean\">" + Join(lis, "") + "</ul></article>"
  }

  /** The article of source `k`: its first `maxPerSource` items of `sorted`. */
  function Block(sorted: seq<NewsItem>, k: string, maxPerSource: nat, fmtDate: string -> string): string {
    Article(k, Lis(Take(Members(sorted, k), maxPerSource), fmtDate))
  }

  /** The articles of the sources `shown`, in order. */
  function Blocks(sorted: seq<NewsItem>, shown: seq<string>, maxPerSource: nat, fmtDate: string -> string): (r: seq<string>)
    ensures |r| == |shown|
    decreases |shown|
  {
    if shown == [] then []
    else Blocks(sorted, shown[..|shown| - 1], maxPerSource, fmtDate) + [Block(sorted, shown[|shown| - 1], maxPerSource, fmtDate)]
  }

  lemma BlocksPrefix(sorted: seq<NewsItem>, shown: seq<string>, i: nat, maxPerSource: nat, fmtDate: string -> string)
    requires i < |shown|
    ensures Blocks(sorted, shown[..i + 1], maxPerSource, fmtDate)
      == Blocks(sorted, shown[..i], maxPerSource, fmtDate) + [Block(sorted, shown[i], maxPerSource, fmtDate)]
  {
    assert shown[..i + 1][..i] == shown[..i];
  }

  lemma {:induction false} BlocksAt(sorted: seq<NewsItem>, shown: seq<string>, maxPerSource: nat, fmtDate: string -> string, i: nat)
    requires i < |shown|
    ensures Blocks(sorted, shown, maxPerSource, fmtDate)[i] == Block(sorted, shown[i], maxPerSource, fmtDate)
    decreases |shown|
  {
    if i < |shown| - 1 {
      BlocksAt(sorted, shown[..|shown| - 1], maxPerSource, fmtDate, i);
    }
  }

  /** The articles of the section: the first `maxSources` sources of the
      newest-first list. */
  function NewsBlocks(items: seq<NewsItem>, maxSources: nat, maxPerSource: nat,
                      dateKey: string -> int, fmtDate: string -> string): seq<string>
  {
    var sorted := SortByDate(items, dateKey);
    Blocks(sorted, Take(GroupKeys(sorted), maxSources), maxPerSource, fmtDate)
  }

  /** `buildNewsItems(feedData, maxSources, maxPerSource)`; `None` stands for
      an `items` that is not an array. */
  function NewsHtml(feedItems: Option<seq<NewsItem>>, maxSources: nat, maxPerSource: nat,
                    dateKey: string -> int, fmtDate: string -> string): string
  {
    var items := feedItems.GetOr([]);
    if items == [] then NoNews else Join(NewsBlocks(items, maxSources, maxPerSource, dateKey, fmtDate), "\n")
  }

  /** `buildNewsItems(feedData, maxSources, maxPerSource)`: sort, group, and
      render the first `maxSources` groups. */
  method BuildNewsItems(feedItems: Option<seq<NewsItem>>, maxSources: nat, maxPerSource: nat,
                        dateKey: string -> int, fmtDate: string -> string) returns (html: string)
    ensures html == NewsHtml(feedItems, maxSources, maxPerSource, dateKey, fmtDate)
  {
    var items := if feedItems.Some? then feedItems.value else [];
    if |items| == 0 {
      return NoNews;
    }
    var sorted := SortByDate(items, dateKey);
    var keys, groups := GroupBySource(sorted);
    var shown := Take(keys, maxSources);
    assert forall k :: k in shown ==> k in keys;
    var blocks := RenderBlocks(sorted, shown, groups, maxPerSource, fmtDate);
    html := Join(blocks, "\n");
  }

  /** The loop of `buildNewsItems` over the groups `shown`. */
  method RenderBlocks(sorted: seq<NewsItem>, shown: seq<string>, groups: map<string, seq<NewsItem>>,
                      maxPerSource: nat, fmtDate: string -> string) returns (blocks: seq<string>)
    requires forall k :: k in shown ==> k in groups && groups[k] == Members(sorted, k)
    ensures blocks == Blocks(sorted, shown, maxPerSource, fmtDate)
  {
    blocks := [];
    for i := 0 to |shown|
      invariant blocks == Blocks(sorted, shown[..i], maxPerSource, fmtDate)
    {
      var src := shown[i];
      assert src in shown;
      var chunk := Lis(Take(groups[src], maxPerSource), fmtDate);
      var block := Article(src, chunk);
      assert block == Block(sorted, src, maxPerSource, fmtDate);
      BlocksPrefix(sorted, shown, i, maxPerSource, fmtDate);
      blocks := blocks + [block];
    }
    assert shown[..|shown|] == shown;
  }

  /** Without items the section is the "Aucune actualité" article. With
      items it holds one article per source, for the first `maxSources`
      sources in the order they first appear in the newest-first list; the
      article of the `i`-th source shows its escaped name and the entries of
      its first `maxPerSource` items, newest first. */
  lemma NewsLayout(items: seq<NewsItem>, maxSources: nat, maxPerSource: nat,
                   dateKey: string -> int, fmtDate: string -> string, i: nat)
    ensures items == [] ==> NewsHtml(Some(items), maxSources, maxPerSource, dateKey, fmtDate) == NoNews
    ensures |NewsBlocks(items, maxSources, maxPerSource, dateKey, fmtDate)|
      == if |GroupKeys(SortByDate(items, dateKey))| < maxSources then |GroupKeys(SortByDate(items, dateKey))| else maxSources
    ensures i < |NewsBlocks(items, maxSources, maxPerSource, dateKey, fmtDate)| ==>
      (NewsBlocks(items, maxSources, maxPerSource, dateKey, fmtDate)[i]
       == Article(GroupKeys(SortByDate(items, dateKey))[i],
                  Lis(Take(Members(SortByDate(items, dateKey), GroupKeys(SortByDate(items, dateKey))[i]), maxPerSource), fmtDate)))
  {
    var sorted := SortByDate(items, dateKey);
    var keys := GroupKeys(sorted);
    var shown := Take(keys, maxSources);
    if i < |shown| {
      BlocksAt(sorted, shown, maxPerSource, fmtDate, i);
      assert shown[i] == keys[i];
    }
  }

  /** The entries of each source are its items newest first, and the sort
      keeps all items: the groups of the sorted list are a partition of the
      input. */
  lemma NewsGroups(items: seq<NewsItem>, dateKey: string -> int, k: string)
    ensures NewestFirst(Members(SortByDate(items, dateKey), k), dateKey)
    ensures multiset(Concat(SortByDate(items, dateKey), GroupKeys(SortByDate(items, dateKey)))) == multiset(items)
  {
    SortByDateSpec(items, dateKey, 0);
    MembersNewestFirst(SortByDate(items, dateKey), k, dateKey);
    GroupsPartition(SortByDate(items, dateKey));
  }

  // ---- injectEditorialDefaults ----

  /** The pieces of a text, joined. The default texts are written in short
      pieces, each one small enough for the verifier to read character by
      character. */
  function Cat(ps: seq<string>): string
    decreases |ps|
  {
    if ps == [] then [] else ps[0] + Cat(ps[1..])
  }

  /** Pieces without braces join into a text without braces, at least as
      long as its first piece. */
  lemma {:induction false} CatBraceFree(ps: seq<string>)
    requires forall i :: 0 <= i < |ps| ==> BraceFree(ps[i])
    ensures BraceFree(Cat(ps))
    ensures ps != [] ==> |Cat(ps)| >= |ps[0]|
    decreases |ps|
  {
    if ps != [] {
      CatBraceFree(ps[1..]);
    }
  }

  const InnovTech: seq<string> :=
    ["Décrire en 2–3 phrases ", "l’innovation mise en ", "avant (ex. pilotage des ", "usages, stockage, ", "agrivoltaïsme)."]
  const InnovPoints: seq<string> :=
    ["<li>Cas d’usage ", "1</li><li>Cas d’usage ", "2</li><li>Cas d’usage ", "3</li>"]
  const CasIntro: seq<string> :=
    ["Présentation brève ", "d’une installation ", "(site, puissance, ", "objectifs, résultats ", "mesurés)."]
  const CasPoints: seq<string> :=
    ["<li>Site : [Maison/PME] ", "— Puissance : [9/36 ", "kWc]</li><li>Prod. ", "annuelle : [x] kWh — ",
     "Autoconsommation : [x] ", "%</li><li>Économie ", "annuelle : [x] € — CO₂ ", "évité : [x] t/an</li>"]
  const ConseilPoints: seq<string> :=
    ["<li>Dimensionnement et ", "programmation ", "ECS</li><li>Pilotage ", "IRVE/PAC</li><li>Suivi ", "& maintenance</li>"]

  /** The five placeholders and their default texts, in the order of the calls. */
  const EditorialDefaults: seq<(string, string)> := [
    ("INNOV_TECH", Cat(InnovTech)),
    ("INNOV_POINTS", Cat(InnovPoints)),
    ("CAS_INTRO", Cat(CasIntro)),
    ("CAS_POINTS", Cat(CasPoints)),
    ("CONSEIL_POINTS", Cat(ConseilPoints))
  ]

  /** `{{name}}`: a placeholder whose inside is the name. */
  function Placeholder(name: string): (q: string)
    ensures |q| == |name| + 4
    ensures IsPlaceholder(q) && q[2..|q| - 2] == name
  {
    "{{" + name + "}}"
  }

  /** The `repl` calls for `defs`, in order. */
  function Inject(html: string, defs: seq<(string, string)>): string
    decreases |defs|
  {
    if defs == [] then html
    else Inject(ReplaceAll(html, Placeholder(defs[0].0), defs[0].1), defs[1..])
  }

  /** `injectEditorialDefaults(html)`: `html` reassigned by each `repl` call,
      the five calls taken in order from the table. */
  method InjectEditorialDefaults(html: string) returns (r: string)
    ensures r == Inject(html, EditorialDefaults)
  {
    r := html;
    for i := 0 to |EditorialDefaults|
      invariant Inject(r, EditorialDefaults[i..]) == Inject(html, EditorialDefaults)
    {
      var (name, text) := EditorialDefaults[i];
      r := ReplaceAll(r, Placeholder(name), text);
    }
  }

  /** Replacement texts a placeholder cannot form around. */
  ghost predicate SafeDefaults(defs: seq<(string, string)>, longest: nat) {
    forall i :: 0 <= i < |defs| ==> BraceFree(defs[i].1) && |defs[i].1| > longest && |defs[i].0| <= longest
  }

  lemma {:induction false} InjectKeepsAbsent(html: string, defs: seq<(string, string)>, longest: nat, q: string)
    requires SafeDefaults(defs, longest)
    requires IsPlaceholder(q) && |q| <= longest + 4 && !Contains(html, q)
    ensures !Contains(Inject(html, defs), q)
    decreases |defs|
  {
    if defs != [] {
      ReplaceAllRemoves(html, Placeholder(defs[0].0), defs[0].1, q);
      InjectKeepsAbsent(ReplaceAll(html, Placeholder(defs[0].0), defs[0].1), defs[1..], longest, q);
    }
  }

  /** After the substitutions none of the placeholders substituted remains. */
  lemma {:induction false} InjectRemoves(html: string, defs: seq<(string, string)>, longest: nat)
    requires SafeDefaults(defs, longest)
    ensures forall i :: 0 <= i < |defs| ==> !Contains(Inject(html, defs), Placeholder(defs[i].0))
    decreases |defs|
  {
    if defs != [] {
      var q := Placeholder(defs[0].0);
      var next := ReplaceAll(html, q, defs[0].1);
      ReplaceAllRemoves(html, q, defs[0].1, q);
      InjectKeepsAbsent(next, defs[1..], longest, q);
      InjectRemoves(next, defs[1..], longest);
    }
  }

  lemma InnovTechSafe()
    ensures BraceFree(Cat(InnovTech)) && |Cat(InnovTech)| > 14
  {
    assert BraceFree(InnovTech[0]) && BraceFree(InnovTech[1]) && BraceFree(InnovTech[2]);
    assert BraceFree(InnovTech[3]) && BraceFree(InnovTech[4]);
    CatBraceFree(InnovTech);
  }

  lemma InnovPointsSafe()
    ensures BraceFree(Cat(InnovPoints)) && |Cat(InnovPoints)| > 14
  {
    assert BraceFree(InnovPoints[0]) && BraceFree(InnovPoints[1]);
    assert BraceFree(InnovPoints[2]) && BraceFree(InnovPoints[3]);
    CatBraceFree(InnovPoints);
  }

  lemma CasIntroSafe()
    ensures BraceFree(Cat(CasIntro)) && |Cat(CasIntro)| > 14
  {
    assert BraceFree(CasIntro[0]) && BraceFree(CasIntro[1]) && BraceFree(CasIntro[2]);
    assert BraceFree(CasIntro[3]) && BraceFree(CasIntro[4]);
    CatBraceFree(CasIntro);
  }

  lemma CasPointsSafe()
    ensures BraceFree(Cat(CasPoints)) && |Cat(CasPoints)| > 14
  {
    CasPointsHead();
    CasPointsTail();
    CatBraceFree(CasPoints);
  }

  lemma CasPointsHead()
    ensures BraceFree(CasPoints[0]) && BraceFree(CasPoints[1]) && BraceFree(CasPoints[2]) && BraceFree(CasPoints[3])
  {
    assert BraceFree(CasPoints[0]) && BraceFree(CasPoints[1]);
  }

  lemma CasPointsTail()
    ensures BraceFree(CasPoints[4]) && BraceFree(CasPoints[5]) && BraceFree(CasPoints[6]) && BraceFree(CasPoints[7])
  {
    assert BraceFree(CasPoints[4]) && BraceFree(CasPoints[5]);
  }

  lemma ConseilPointsSafe()
    ensures BraceFree(Cat(ConseilPoints)) && |Cat(ConseilPoints)| > 14
  {
    assert BraceFree(ConseilPoints[0]) && BraceFree(ConseilPoints[1]) && BraceFree(ConseilPoints[2]);
    assert BraceFree(ConseilPoints[3]) && BraceFree(ConseilPoints[4]);
    CatBraceFree(ConseilPoints);
  }

  /** The five editorial placeholders are gone from the page. */
  lemma EditorialPlaceholdersRemoved(html: string)
    ensures forall i :: 0 <= i < |EditorialDefaults| ==>
      !Contains(Inject(html, EditorialDefaults), Placeholder(EditorialDefaults[i].0))
  {
    EditorialDefaultsSafe();
    InjectRemoves(html, EditorialDefaults, 14);
  }

  lemma EditorialDefaultsSafe()
    ensures SafeDefaults(EditorialDefaults, 14)
  {
    forall i | 0 <= i < |EditorialDefaults|
      ensures BraceFree(EditorialDefaults[i].1) && |EditorialDefaults[i].1| > 14 && |EditorialDefaults[i].0| <= 14
    {
      EntrySafe(i);
    }
  }

  lemma EntrySafe(i: nat)
    requires i < |EditorialDefaults|
    ensures BraceFree(EditorialDefaults[i].1) && |EditorialDefaults[i].1| > 14 && |EditorialDefaults[i].0| <= 14
  {
    if i == 0 {
      InnovTechSafe();
    } else if i == 1 {
      InnovPointsSafe();
    } else if i == 2 {
      CasIntroSafe();
    } else if i == 3 {
      CasPointsSafe();
    } else {
      ConseilPointsSafe();
    }
  }
}
