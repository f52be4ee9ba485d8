/** Explicit scanners that find what the scripts' regular expressions find.
    Each one reproduces the leftmost match of one pattern shape, ignoring ASCII
    case as the `i` flag does:

    - `<name\b[^>]*>([\s\S]*?)<\/name>`   an element and its content (`FindElement`, headed)
    - `<name\b[\s\S]*?<\/name>`           a whole block (`FindElement`, not headed)
    - `<name\b[^>]*attr=["']?([^"'>\s]+)`  a start tag and the last valid value of an
                                           attribute in it (`FindTagWithAttr`)
    - `attr=["']?([^"'>\s]+)`              the first valid value of an attribute (`FirstAttr`)
    - `<link\s+[^>]*rel=["']?alternate`    an alternate link tag (`FindAlternateLink`)

    and the three replacements `/<[^>]+>/g`, `/\s+/g` and `/<!\[CDATA\[|\]\]>/g`. */
module Scan {

  import opened Wrappers
  import opened Text
  import opened Seqs

  /** ASCII case folding; for the ASCII patterns used here it is exactly what the
      `i` flag of a regular expression without the `u` flag does. */
  function Lower(c: char): char {
    if 'A' <= c <= 'Z' then (c as int + 32) as char else c
  }

  /** `\w`. */
  predicate IsWordChar(c: char) {
    'a' <= c <= 'z' || 'A' <= c <= 'Z' || '0' <= c <= '9' || c == '_'
  }

  /** The lower-case ASCII text `pat` matches `s` at `k`, ignoring case. */
  predicate MatchAt(s: string, k: nat, pat: string) {
    k + |pat| <= |s| && forall j :: 0 <= j < |pat| ==> Lower(s[k + j]) == pat[j]
  }

  datatype Pattern =
    | Lit(text: string)      // the text, ignoring case
    | Open(name: string)     // `<name\b`
    | OpenWs(name: string)   // `<name\s`

  /** `p` matches `s` at index `k`. */
  predicate At(s: string, k: nat, p: Pattern) {
    k < |s| &&
    match p
    case Lit(t) => MatchAt(s, k, t)
    case Open(n) =>
      MatchAt(s, k, "<" + n) && (k + |n| + 1 == |s| || !IsWordChar(s[k + |n| + 1]))
    case OpenWs(n) =>
      MatchAt(s, k, "<" + n) && k + |n| + 1 < |s| && IsSpace(s[k + |n| + 1])
  }

  /** The first index at or after `from` where `p` matches. */
  function Find(s: string, p: Pattern, from: nat): (r: Option<nat>)
    ensures r.Some? ==> from <= r.value < |s| && At(s, r.value, p)
    ensures forall k: nat :: from <= k && (r.None? || k < r.value) ==> !At(s, k, p)
    decreases |s| - from
  {
    if from >= |s| then None
    else if At(s, from, p) then Some(from)
    else Find(s, p, from + 1)
  }

  /** One match of an element pattern: `s[start..end]` is the whole match and
      `s[inner..close]` the captured content. */
  datatype Element = Element(start: nat, inner: nat, close: nat, end: nat)

  /** `e` is a match, at or after `from`, of `<name\b[^>]*>([\s\S]*?)<\/name>`
      when `headed`, or of `<name\b[\s\S]*?<\/name>` when not. */
  ghost predicate IsElement(s: string, name: string, headed: bool, from: nat, e: Element) {
    var body := e.start + |name| + 1;
    && from <= e.start && At(s, e.start, Open(name))
    && (if headed
        then body < e.inner && At(s, e.inner - 1, Lit(">"))
             && forall k: nat :: body <= k < e.inner - 1 ==> !At(s, k, Lit(">"))
        else e.inner == body)
    && e.inner <= e.close && At(s, e.close, Lit("</" + name + ">"))
    && (forall k: nat :: e.inner <= k < e.close ==> !At(s, k, Lit("</" + name + ">")))
    && e.end == e.close + |name| + 3
  }

  /** The leftmost match of the element pattern at or after `from`. */
  function FindElement(s: string, name: string, headed: bool, from: nat): (r: Option<Element>)
    ensures r.Some? ==> IsElement(s, name, headed, from, r.value) && r.value.end <= |s|
    ensures forall e :: IsElement(s, name, headed, from, e) ==> r.Some? && r.value.start <= e.start
  {
    match Find(s, Open(name), from)
    case None => None
    case Some(p) =>
      var body := p + |name| + 1;
      var inner :=
        if headed then
          match Find(s, Lit(">"), body)
          case None => None
          case Some(q) => Some(q + 1)
        else Some(body);
      match inner
      case None => None
      case Some(i) =>
        match Find(s, Lit("</" + name + ">"), i)
        case None => None
        case Some(c) => Some(Element(p, i, c, c + |name| + 3))
  }

  /** A headed element is fixed by where it starts: its content runs from the
      first `>` to the first closing tag. */
  lemma ElementUnique(s: string, name: string, from: nat, e1: Element, e2: Element)
    requires IsElement(s, name, true, from, e1) && IsElement(s, name, true, from, e2)
    requires e1.start == e2.start
    ensures e1 == e2
  {
    assert At(s, e1.inner - 1, Lit(">")) && At(s, e2.inner - 1, Lit(">"));
    assert e1.inner == e2.inner;
    assert At(s, e1.close, Lit("</" + name + ">")) && At(s, e2.close, Lit("</" + name + ">"));
  }

  /** Two names that differ at index `j` do not open at the same index. */
  lemma OpenNamesDiffer(s: string, k: nat, a: string, b: string, j: nat)
    requires j < |a| && j < |b| && a[j] != b[j]
    requires At(s, k, Open(a))
    ensures !At(s, k, Open(b))
  {
    assert Lower(s[k + 1 + j]) == ("<" + a)[1 + j] == a[j];
    assert Lower(s[k + 1 + j]) != ("<" + b)[1 + j];
  }

  /** The leftmost of two matches, for an alternation such as `(h1|h2)`. */
  function Leftmost(a: Option<Element>, b: Option<Element>): (r: Option<Element>)
    ensures r.Some? <==> a.Some? || b.Some?
    ensures r.Some? ==> (r == a || r == b)
    ensures r.Some? && a.Some? ==> r.value.start <= a.value.start
    ensures r.Some? && b.Some? ==> r.value.start <= b.value.start
  {
    if a.None? then b
    else if b.None? then a
    else if b.value.start < a.value.start then b else a
  }

  /** `e` matches `<(a|b)\b[^>]*>([\s\S]*?)<\/\1>` at or after `from`, as a
      headed `a` or `b` element. */
  ghost predicate EitherElement(s: string, a: string, b: string, from: nat, e: Element) {
    IsElement(s, a, true, from, e) || IsElement(s, b, true, from, e)
  }

  /** `e` is the first `a` or `b` element at or after `from`: none starts
      before it. */
  ghost predicate FirstOfEither(s: string, a: string, b: string, from: nat, e: Element) {
    EitherElement(s, a, b, from, e) && forall e' :: EitherElement(s, a, b, from, e') ==> e.start <= e'.start
  }

  /** For two names that differ at some index `j`, the leftmost of the two
      searches from `from` is the first element of either name, and there is
      none when neither name has an element there. */
  lemma LeftmostIsFirst(s: string, a: string, b: string, j: nat, from: nat)
    requires j < |a| && j < |b| && a[j] != b[j]
    ensures forall e :: FirstOfEither(s, a, b, from, e) ==>
      Leftmost(FindElement(s, a, true, from), FindElement(s, b, true, from)) == Some(e)
    ensures Leftmost(FindElement(s, a, true, from), FindElement(s, b, true, from)).Some? ==>
      EitherElement(s, a, b, from, Leftmost(FindElement(s, a, true, from), FindElement(s, b, true, from)).value)
    ensures (forall e :: !EitherElement(s, a, b, from, e)) ==>
      Leftmost(FindElement(s, a, true, from), FindElement(s, b, true, from)).None?
  {
    forall e | FirstOfEither(s, a, b, from, e)
      ensures Leftmost(FindElement(s, a, true, from), FindElement(s, b, true, from)) == Some(e)
    {
      FirstOfEitherFound(s, a, b, j, from, e);
    }
  }

  lemma FirstOfEitherFound(s: string, a: string, b: string, j: nat, from: nat, e: Element)
    requires j < |a| && j < |b| && a[j] != b[j]
    requires FirstOfEither(s, a, b, from, e)
    ensures Leftmost(FindElement(s, a, true, from), FindElement(s, b, true, from)) == Some(e)
  {
    var l := Leftmost(FindElement(s, a, true, from), FindElement(s, b, true, from));
    assert l.Some? && EitherElement(s, a, b, from, l.value);
    assert l.value.start == e.start;
    var name := if IsElement(s, a, true, from, e) then a else b;
    if name == a {
      OpenNamesDiffer(s, e.start, a, b, j);
    } else {
      OpenNamesDiffer(s, e.start, b, a, j);
    }
    ElementUnique(s, name, from, e, l.value);
  }

  /** The content of the first `<name\b[^>]*>...</name>` element, as
      `chunk.match(re)?.[1]`. */
  function Capture(s: string, name: string): (r: Option<string>)
    ensures r.Some? ==> exists e :: IsElement(s, name, true, 0, e) && r.value == s[e.inner..e.close]
    ensures r.None? ==> forall e :: !IsElement(s, name, true, 0, e)
  {
    match FindElement(s, name, true, 0)
    case None => None
    case Some(e) => Some(s[e.inner..e.close])
  }

  predicate IsQuote(c: char) {
    c == '"' || c == '\''
  }

  /** `[^"'>\s]`. */
  predicate IsValueChar(c: char) {
    !IsQuote(c) && c != '>' && !IsSpace(c)
  }

  /** Where the value captured by `["']?([^"'>\s]+)` starts when the pattern is
      tried at `v`: after an opening quote when one is followed by a value
      character, otherwise at `v` itself. */
  function ValueStart(s: string, v: nat): (r: Option<nat>)
    ensures r.Some? ==> v <= r.value < |s| && IsValueChar(s[r.value])
    ensures r.Some? && r.value > v ==> r.value == v + 1 && IsQuote(s[v])
  {
    if v + 1 < |s| && IsQuote(s[v]) && IsValueChar(s[v + 1]) then Some(v + 1)
    else if v < |s| && IsValueChar(s[v]) then Some(v)
    else None
  }

  /** The end of the run of value characters starting at `v` (the greedy `+`). */
  function RunEnd(s: string, v: nat): (r: nat)
    requires v <= |s|
    ensures v <= r <= |s|
    ensures forall k :: v <= k < r ==> IsValueChar(s[k])
    ensures r < |s| ==> !IsValueChar(s[r])
    decreases |s| - v
  {
    if v < |s| && IsValueChar(s[v]) then RunEnd(s, v + 1) else v
  }

  /** `attr=` (lower-case, with its `=`) starts at `h` and is followed by a value. */
  predicate AttrAt(s: string, h: nat, attr: string) {
    MatchAt(s, h, attr) && ValueStart(s, h + |attr|).Some?
  }

  /** The last `h` in `[lo, hi)` where `AttrAt` holds: what the greedy
      `[^>]*` before `attr=` settles on. */
  function LastAttr(s: string, attr: string, lo: nat, hi: nat): (r: Option<nat>)
    ensures r.Some? ==> lo <= r.value < hi && AttrAt(s, r.value, attr)
    ensures forall h: nat :: lo <= h < hi && (r.None? || r.value < h) ==> !AttrAt(s, h, attr)
    decreases hi
  {
    if hi <= lo then None
    else if AttrAt(s, hi - 1, attr) then Some(hi - 1)
    else LastAttr(s, attr, lo, hi - 1)
  }

  /** The first `h` in `[lo, hi)` where `AttrAt` holds: the leftmost match of
      an unanchored `attr=["']?([^"'>\s]+)`. */
  function FirstAttr(s: string, attr: string, lo: nat, hi: nat): (r: Option<nat>)
    ensures r.Some? ==> lo <= r.value < hi && AttrAt(s, r.value, attr)
    ensures forall h: nat :: lo <= h < hi && (r.None? || h < r.value) ==> !AttrAt(s, h, attr)
    decreases hi - lo
  {
    if hi <= lo then None
    else if AttrAt(s, lo, attr) then Some(lo)
    else FirstAttr(s, attr, lo + 1, hi)
  }

  /** The value of the attribute found at `h`. */
  function AttrValue(s: string, h: nat, attr: string): (r: string)
    requires AttrAt(s, h, attr)
    ensures r != [] && forall k :: 0 <= k < |r| ==> IsValueChar(r[k])
  {
    var v := ValueStart(s, h + |attr|).value;
    s[v..RunEnd(s, v)]
  }

  /** `tag.match(/attr=["']?([^"'>\s]+)["']?/i)?.[1]`. */
  function FirstAttrValue(tag: string, attr: string): (r: Option<string>)
    ensures r.Some? ==> r.value != []
  {
    match FirstAttr(tag, attr, 0, |tag|)
    case None => None
    case Some(h) => Some(AttrValue(tag, h, attr))
  }

  /** A start tag `s[start..gt + 1]` and the attribute value `s[value..valueEnd]`. */
  datatype TagMatch = TagMatch(start: nat, gt: nat, value: nat, valueEnd: nat)

  /** The first `>` after the `<name` of a tag opened at `p`: where `[^>]*`
      must stop. */
  function TagEnd(s: string, name: string, p: nat): (r: Option<nat>)
    ensures r.Some? ==> p + |name| + 1 <= r.value < |s| && s[r.value] == '>'
    ensures forall k :: p + |name| + 1 <= k < |s| && (r.None? || k < r.value) ==> s[k] != '>'
  {
    var r := Find(s, Lit(">"), p + |name| + 1);
    NotGtBefore(s, p + |name| + 1, r);
    r
  }

  lemma NotGtBefore(s: string, lo: nat, r: Option<nat>)
    requires r == Find(s, Lit(">"), lo)
    ensures r.Some? ==> s[r.value] == '>'
    ensures forall k :: lo <= k < |s| && (r.None? || k < r.value) ==> s[k] != '>'
  {
    if r.Some? {
      GtAt(s, r.value);
    }
    forall k | lo <= k < |s| && (r.None? || k < r.value) ensures s[k] != '>' {
      assert !At(s, k, Lit(">"));
      assert Lower(s[k + 0]) != ">"[0];
    }
  }

  /** A `<name` tag opens at `p` and holds a valid `attr=` before its first `>`:
      where `<name\b[^>]*attr=["']?([^"'>\s]+)["']?[^>]*>` can match. */
  predicate TagHasAttr(s: string, name: string, attr: string, p: nat) {
    && At(s, p, Open(name))
    && TagEnd(s, name, p).Some?
    && LastAttr(s, attr, p + |name| + 1, TagEnd(s, name, p).value).Some?
  }

  /** `t` is the match of `<name\b[^>]*attr=["']?([^"'>\s]+)["']?[^>]*>` at
      `t.start`: the tag ends at its first `>`, `t.gt`; the value is the one of
      the last valid `attr=` before it, where the greedy `[^>]*` settles, and
      runs to the end of its value characters. */
  ghost predicate TagMatchAt(s: string, name: string, attr: string, t: TagMatch) {
    && TagHasAttr(s, name, attr, t.start)
    && TagEnd(s, name, t.start) == Some(t.gt)
    && t.value == ValueStart(s, LastAttr(s, attr, t.start + |name| + 1, t.gt).value + |attr|).value
    && t.valueEnd == RunEnd(s, t.value)
    && t.start + |name| + 1 < t.value < t.valueEnd <= t.gt < |s|
  }

  /** The match at `p`, if the tag that opens there holds a valid `attr=`. */
  function TagAt(s: string, name: string, attr: string, p: nat): (r: Option<TagMatch>)
    requires attr != [] && '>' !in attr
    requires At(s, p, Open(name))
    ensures r.Some? <==> TagHasAttr(s, name, attr, p)
    ensures r.Some? ==> r.value.start == p && TagMatchAt(s, name, attr, r.value)
  {
    match TagEnd(s, name, p)
    case None => None
    case Some(q) =>
      match LastAttr(s, attr, p + |name| + 1, q)
      case None => None
      case Some(h) =>
        var v := ValueStart(s, h + |attr|).value;
        AttrBeforeTagEnd(s, attr, h, q);
        Some(TagMatch(p, q, v, RunEnd(s, v)))
  }

  /** The leftmost match of `<name\b[^>]*attr=["']?([^"'>\s]+)["']?[^>]*>` at
      or after `from`: the first `<name` tag whose text holds a valid `attr=`. */
  function FindTagWithAttr(s: string, name: string, attr: string, from: nat): (r: Option<TagMatch>)
    requires attr != [] && '>' !in attr
    ensures r.Some? ==> from <= r.value.start && TagMatchAt(s, name, attr, r.value)
    ensures forall p: nat :: from <= p && (r.None? || p < r.value.start) ==> !TagHasAttr(s, name, attr, p)
    decreases |s| - from
  {
    match Find(s, Open(name), from)
    case None =>
      NoTagFrom(s, name, attr, from);
      None
    case Some(p) =>
      NoTagBefore(s, name, attr, from, p);
      match TagEnd(s, name, p)
      case None =>
        NoTagWithoutEnd(s, name, attr, p);
        None
      case Some(_) =>
        match TagAt(s, name, attr, p)
        case None => FindTagWithAttr(s, name, attr, p + 1)
        case Some(t) => Some(t)
  }

  /** No tag opens at or after `from`. */
  lemma NoTagFrom(s: string, name: string, attr: string, from: nat)
    requires Find(s, Open(name), from).None?
    ensures forall p: nat :: from <= p ==> !TagHasAttr(s, name, attr, p)
  {
  }

  /** No tag opens between `from` and the first one. */
  lemma NoTagBefore(s: string, name: string, attr: string, from: nat, p: nat)
    requires Find(s, Open(name), from) == Some(p)
    ensures forall p': nat :: from <= p' < p ==> !TagHasAttr(s, name, attr, p')
  {
  }

  /** A tag without a `>` after it leaves no match for a later tag either. */
  lemma NoTagWithoutEnd(s: string, name: string, attr: string, p: nat)
    requires TagEnd(s, name, p).None?
    ensures forall p': nat :: p <= p' ==> !TagHasAttr(s, name, attr, p')
  {
    TagEndNoneAfterAll(s, name, p);
  }

  /** A tag without a `>` after it leaves none for a later tag either. */
  lemma TagEndNoneAfterAll(s: string, name: string, p: nat)
    requires TagEnd(s, name, p).None?
    ensures forall p': nat :: p <= p' ==> TagEnd(s, name, p').None?
  {
    forall p': nat | p <= p' ensures TagEnd(s, name, p').None? {
      TagEndNoneAfter(s, name, p, p');
    }
  }

  lemma TagEndNoneAfter(s: string, name: string, p: nat, p': nat)
    requires TagEnd(s, name, p).None? && p <= p'
    ensures TagEnd(s, name, p').None?
  {
  }

  /** A later tag ends no earlier. */
  lemma TagEndMonotone(s: string, name: string, p: nat, p': nat)
    requires p <= p' && TagEnd(s, name, p).Some? && TagEnd(s, name, p').Some?
    ensures TagEnd(s, name, p).value <= TagEnd(s, name, p').value
  {
    assert s[TagEnd(s, name, p').value] == '>';
  }

  lemma GtAt(s: string, q: nat)
    requires At(s, q, Lit(">"))
    ensures s[q] == '>'
  {
    assert Lower(s[q + 0]) == ">"[0];
  }

  /** No character of a match of a pattern without `>` is a `>`. */
  lemma NoGtInMatch(s: string, k: nat, pat: string)
    requires MatchAt(s, k, pat) && '>' !in pat
    ensures forall q :: k <= q < k + |pat| ==> s[q] != '>'
  {
    forall q | k <= q < k + |pat| ensures s[q] != '>' {
      assert Lower(s[k + (q - k)]) == pat[q - k];
    }
  }

  /** An attribute found before the first `>` of a tag has its whole value
      before that `>`. */
  lemma AttrBeforeTagEnd(s: string, attr: string, h: nat, q: nat)
    requires AttrAt(s, h, attr) && h < q < |s| && s[q] == '>'
    requires '>' !in attr
    ensures ValueStart(s, h + |attr|).value < q
    ensures RunEnd(s, ValueStart(s, h + |attr|).value) <= q
  {
    NoGtInMatch(s, h, attr);
  }

  /** One match of `<name\b[^>]*attr=["']?([^"'>\s]+)["']?[^>]*>([\s\S]*?)close`,
      such as an anchor `<a ... href=...>...</a>`: the attribute value is
      `s[href..hrefEnd]`, the content `s[inner..close]`, and the match ends at
      `end`. */
  datatype Anchor = Anchor(start: nat, href: nat, hrefEnd: nat, inner: nat, close: nat, end: nat)

  /** The leftmost match of `<name\b[^>]*attr=["']?([^"'>\s]+)["']?[^>]*>([\s\S]*?)close`
      at or after `from`: the first `<name` tag with a valid `attr=` and the
      first `close` after that tag. A first such tag with no `close` after it
      ends the search, as no later tag can have one either. With `a`, `href=`
      and `</a>` it is the anchor pattern of the heading and anchor scans. */
  function FindElementWithAttr(s: string, name: string, attr: string, close: string, from: nat): (r: Option<Anchor>)
    requires attr != [] && '>' !in attr
    ensures r.Some? ==> from <= r.value.start < r.value.href < r.value.hrefEnd < r.value.inner <= r.value.close
    ensures r.Some? ==> r.value.end == r.value.close + |close| <= |s|
    ensures r.Some? ==>
      && 0 < r.value.inner
      && FindTagWithAttr(s, name, attr, from) == Some(TagMatch(r.value.start, r.value.inner - 1, r.value.href, r.value.hrefEnd))
    ensures r.Some? ==> Find(s, Lit(close), r.value.inner) == Some(r.value.close)
    ensures r.None? ==> forall p: nat :: from <= p && TagHasAttr(s, name, attr, p) ==>
      Find(s, Lit(close), TagEnd(s, name, p).value + 1).None?
  {
    match FindTagWithAttr(s, name, attr, from)
    case None => None
    case Some(t) =>
      match Find(s, Lit(close), t.gt + 1)
      case None =>
        NoCloseAfter(s, name, attr, Lit(close), from, t);
        None
      case Some(c) => Some(Anchor(t.start, t.value, t.valueEnd, t.gt + 1, c, c + |close|))
  }

  /** With no closing tag after the first tag with an attribute, there is
      none after any later such tag. */
  lemma NoCloseAfter(s: string, name: string, attr: string, close: Pattern, from: nat, t: TagMatch)
    requires attr != [] && '>' !in attr
    requires TagEnd(s, name, t.start) == Some(t.gt)
    requires forall p: nat :: from <= p < t.start ==> !TagHasAttr(s, name, attr, p)
    requires Find(s, close, t.gt + 1).None?
    ensures forall p: nat :: from <= p && TagHasAttr(s, name, attr, p) ==>
      Find(s, close, TagEnd(s, name, p).value + 1).None?
  {
    forall p: nat | from <= p && TagHasAttr(s, name, attr, p)
      ensures Find(s, close, TagEnd(s, name, p).value + 1).None?
    {
      TagEndMonotone(s, name, t.start, p);
      FindNoneAfter(s, close, t.gt + 1, TagEnd(s, name, p).value + 1);
    }
  }

  /** No match from `a` on leaves none from a later `b`. */
  lemma FindNoneAfter(s: string, pat: Pattern, a: nat, b: nat)
    requires Find(s, pat, a).None? && a <= b
    ensures Find(s, pat, b).None?
  {
  }

  /** `rel=`, an optional quote and `alternate` start at `r`. */
  predicate RelAlternateAt(s: string, r: nat) {
    MatchAt(s, r, "rel=")
    && (MatchAt(s, r + 4, "alternate")
        || (r + 4 < |s| && IsQuote(s[r + 4]) && MatchAt(s, r + 5, "alternate")))
  }

  /** Some `rel=alternate` starts in `[lo, hi)`. */
  function HasRelAlternate(s: string, lo: nat, hi: nat): (b: bool)
    ensures b <==> exists r: nat :: lo <= r < hi && RelAlternateAt(s, r)
    decreases hi - lo
  {
    if hi <= lo then false
    else RelAlternateAt(s, lo) || HasRelAlternate(s, lo + 1, hi)
  }

  /** A `<link` tag opens at `p`, followed by white space, and a
      `rel=alternate` starts before its first `>`: where
      `<link\s+[^>]*rel=["']?alternate["']?[^>]*>` can match. */
  predicate AlternateLinkAt(s: string, p: nat) {
    && At(s, p, OpenWs("link"))
    && TagEnd(s, "link", p).Some?
    && HasRelAlternate(s, p + 5, TagEnd(s, "link", p).value)
  }

  /** The leftmost match of `<link\s+[^>]*rel=["']?alternate["']?[^>]*>` at or
      after `from`, as the tag's first and last index. */
  function FindAlternateLink(s: string, from: nat): (r: Option<(nat, nat)>)
    ensures r.Some? ==> from <= r.value.0 < r.value.1 < |s| && s[r.value.1] == '>'
    ensures r.Some? ==> AlternateLinkAt(s, r.value.0) && TagEnd(s, "link", r.value.0) == Some(r.value.1)
    ensures forall p: nat :: from <= p && (r.None? || p < r.value.0) ==> !AlternateLinkAt(s, p)
    decreases |s| - from
  {
    match Find(s, OpenWs("link"), from)
    case None => None
    case Some(p) =>
      match TagEnd(s, "link", p)
      case None =>
        TagEndNoneAfterAll(s, "link", p);
        None
      case Some(q) =>
        if HasRelAlternate(s, p + 5, q) then Some((p, q)) else FindAlternateLink(s, p + 1)
  }

  /** No `<` has a `>` after it unless a `>` follows it at once: nothing that
      `/<[^>]+>/` matches. */
  ghost predicate NoTagLeft(r: string) {
    forall i, k, j :: 0 <= i < k <= j < |r| && k == i + 1 && r[i] == '<' && r[j] == '>' ==> r[k] == '>'
  }

  /** `s.replace(/<[^>]+>/g, "")`: every `<` that is followed by at least one
      character before the next `>` starts a tag, which is removed up to that
      `>`. What is left holds no such tag. */
  function RemoveTags(s: string): (r: string)
    ensures |r| <= |s|
    ensures forall c :: c in r ==> c in s
    ensures NoTagLeft(r)
    decreases |s|
  {
    if s == [] then []
    else if s[0] == '<' && |s| >= 2 && s[1] != '>' && '>' in s[1..] then
      var q := IndexOf(s[1..], '>') + 1;
      RemoveTags(s[q + 1..])
    else
      [s[0]] + RemoveTags(s[1..])
  }

  /** Every white space character is a space followed by a non-space or by
      the end. */
  ghost predicate SpacesCollapsed(w: string) {
    && (forall i :: 0 <= i < |w| && IsSpace(w[i]) ==> w[i] == ' ')
    && (forall i, j :: 0 <= i < j < |w| && j == i + 1 && IsSpace(w[i]) ==> !IsSpace(w[j]))
  }

  /** `s.replace(/\s+/g, " ")`: each run of white space becomes one space. */
  function CollapseSpaces(s: string): (r: string)
    ensures SpacesCollapsed(r)
    ensures forall c :: c in r && c != ' ' ==> c in s
    ensures s != [] ==> r != [] && r[0] == (if IsSpace(s[0]) then ' ' else s[0])
    decreases |s|
  {
    if s == [] then []
    else if IsSpace(s[0]) then
      var rest := CollapseSpaces(TrimStart(s));
      assert rest != [] ==> !IsSpace(rest[0]);
      [' '] + rest
    else [s[0]] + CollapseSpaces(s[1..])
  }

  /** `striptags` of the heading scan: tags removed, white space runs collapsed
      to one space, then trimmed. No tag is left, and every character but the
      spaces put in for white space comes from `s`. */
  function StripTags(s: string): (r: string)
    ensures Trimmed(r) && SpacesCollapsed(r)
    ensures NoTagLeft(r)
    ensures forall c :: c in r && c != ' ' ==> c in s
  {
    var c := CollapseSpaces(RemoveTags(s));
    TrimKeepsCollapsed(c);
    CollapseKeepsNoTag(RemoveTags(s));
    TrimKeepsNoTag(c);
    Trim(c)
  }

  /** Collapsing white space makes no tag: `<`, `>` and what follows a `<`
      stay what they were, up to white space becoming a space. */
  lemma {:induction false} CollapseKeepsNoTag(s: string)
    requires NoTagLeft(s)
    ensures NoTagLeft(CollapseSpaces(s))
    decreases |s|
  {
    if s == [] {
    } else if IsSpace(s[0]) {
      var t := TrimStart(s);
      NoTagInSuffix(s, |s| - |t|);
      CollapseKeepsNoTag(t);
      NoTagCons(' ', CollapseSpaces(t));
    } else {
      var t := s[1..];
      NoTagInSuffix(s, 1);
      CollapseKeepsNoTag(t);
      var ct := CollapseSpaces(t);
      if s[0] == '<' && ct != [] && ct[0] != '>' {
        NoGtAfterOpen(s);
        assert '>' !in ct;
      }
      NoTagCons(s[0], ct);
    }
  }

  /** In a text without a tag, a `<` followed by something else than `>` has
      no `>` after it. */
  lemma NoGtAfterOpen(s: string)
    requires NoTagLeft(s) && |s| >= 2 && s[0] == '<' && s[1] != '>'
    ensures '>' !in s[1..]
  {
    forall j | 1 <= j < |s| ensures s[j] != '>' {
      assert s[0] == '<';
    }
  }

  /** A suffix of a text without a tag has none. */
  lemma NoTagInSuffix(c: string, a: nat)
    requires a <= |c| && NoTagLeft(c)
    ensures NoTagLeft(c[a..])
  {
    NoTagInWindow(c, a, |c|);
    assert c[a..|c|] == c[a..];
  }

  /** A character put in front of a text without a tag makes none, unless it
      is a `<` followed by something else than `>` with a `>` later on. */
  lemma NoTagCons(c: char, t: string)
    requires NoTagLeft(t)
    requires c == '<' && t != [] && t[0] != '>' ==> '>' !in t
    ensures NoTagLeft([c] + t)
  {
    var r := [c] + t;
    forall i, k, j | 0 <= i < k <= j < |r| && k == i + 1 && r[i] == '<' && r[j] == '>'
      ensures r[k] == '>'
    {
      if i == 0 {
        assert t[j - 1] == '>';
      } else {
        assert t[i - 1] == '<' && t[j - 1] == '>';
      }
    }
  }

  /** A window of a text without a tag has none. */
  lemma NoTagInWindow(c: string, a: nat, b: nat)
    requires a <= b <= |c| && NoTagLeft(c)
    ensures NoTagLeft(c[a..b])
  {
    var w := c[a..b];
    forall i, k, j | 0 <= i < k <= j < |w| && k == i + 1 && w[i] == '<' && w[j] == '>'
      ensures w[k] == '>'
    {
      assert c[a + i] == '<' && c[a + j] == '>';
    }
  }

  /** Trimming makes no tag and adds no character. */
  lemma TrimKeepsNoTag(c: string)
    requires NoTagLeft(c)
    ensures NoTagLeft(Trim(c))
    ensures forall x :: x in Trim(c) ==> x in c
  {
    var a, b :| 0 <= a <= b <= |c| && Trim(c) == c[a..b];
    NoTagInWindow(c, a, b);
  }

  lemma TrimKeepsCollapsed(c: string)
    requires SpacesCollapsed(c)
    ensures SpacesCollapsed(Trim(c))
  {
    var t := TrimStart(c);
    var w := TrimEnd(t);
    var a := |c| - |t|;
    forall i | 0 <= i < |w| ensures w[i] == c[a + i] {
      assert w[i] == t[i];
    }
    WindowKeepsCollapsed(c, w, a);
  }

  /** A window of a collapsed text is collapsed. */
  lemma WindowKeepsCollapsed(c: string, w: string, a: nat)
    requires a + |w| <= |c| && SpacesCollapsed(c)
    requires forall i :: 0 <= i < |w| ==> w[i] == c[a + i]
    ensures SpacesCollapsed(w)
  {
    forall i, j | 0 <= i < j < |w| && j == i + 1 && IsSpace(w[i])
      ensures !IsSpace(w[j])
    {
      assert w[i] == c[a + i] && w[j] == c[a + j];
    }
  }

  /** `s.replace(/<!\[CDATA\[|\]\]>/g, "")`: one left-to-right pass that drops
      each `<![CDATA[` and each `]]>` it meets. */
  function RemoveCdata(s: string): (r: string)
    ensures |r| <= |s|
    ensures forall c :: c in r ==> c in s
    decreases |s|
  {
    if s == [] then []
    else if |s| >= 9 && s[..9] == "<![CDATA[" then RemoveCdata(s[9..])
    else if |s| >= 3 && s[..3] == "]]>" then RemoveCdata(s[3..])
    else [s[0]] + RemoveCdata(s[1..])
  }
}
