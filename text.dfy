/** String operations of the JavaScript runtime that the scripts rely on:
    `trim`, `join`, `split`, `replaceAll`, `replace` with a string pattern,
    and the decimal form of a non-negative integer. */
module Text {

  import opened Wrappers

  /** JavaScript's WhiteSpace and LineTerminator characters, which are what
      `\s` matches and what `String.prototype.trim` removes. */
  predicate IsSpace(c: char) {
    c == ' ' || c == '\t' || c == '\n' || c == '\r' || c == '\U{000B}' || c == '\U{000C}'
    || c == '\U{00A0}' || c == '\U{1680}' || ('\U{2000}' <= c <= '\U{200A}')
    || c == '\U{2028}' || c == '\U{2029}' || c == '\U{202F}' || c == '\U{205F}'
    || c == '\U{3000}' || c == '\U{FEFF}'
  }

  /** `v || fallback` for a string or `null`: the empty string is falsy. */
  function OrElse(v: Option<string>, fallback: string): string {
    if v.Some? && v.value != [] then v.value else fallback
  }

  /** No white space at either end. */
  predicate Trimmed(s: string) {
    s == [] || (!IsSpace(s[0]) && !IsSpace(s[|s| - 1]))
  }

  /** Drops the leading white space. */
  function TrimStart(s: string): (r: string)
    ensures |r| <= |s| && r == s[|s| - |r|..]
    ensures forall i :: 0 <= i < |s| - |r| ==> IsSpace(s[i])
    ensures r == [] || !IsSpace(r[0])
  {
    if s != [] && IsSpace(s[0]) then TrimStart(s[1..]) else s
  }

  /** Drops the trailing white space. */
  function TrimEnd(s: string): (r: string)
    ensures |r| <= |s| && r == s[..|r|]
    ensures forall i :: |r| <= i < |s| ==> IsSpace(s[i])
    ensures r == [] || !IsSpace(r[|r| - 1])
  {
    if s != [] && IsSpace(s[|s| - 1]) then TrimEnd(s[..|s| - 1]) else s
  }

  /** `s.trim()`: white space removed at both ends; empty exactly when `s`
      holds nothing but white space. */
  function Trim(s: string): (r: string)
    ensures Trimmed(r)
    ensures |r| <= |s|
    ensures r == [] <==> forall i :: 0 <= i < |s| ==> IsSpace(s[i])
    ensures exists a, b ::
      && 0 <= a <= b <= |s| && r == s[a..b]
      && (forall i :: 0 <= i < a ==> IsSpace(s[i]))
      && (forall i :: b <= i < |s| ==> IsSpace(s[i]))
  {
    var t := TrimStart(s);
    var r := TrimEnd(t);
    TrimWindow(s, t, r, |s| - |t|);
    r
  }

  /** What trimming both ends leaves is the window `s[a..a + |r|]`. */
  lemma TrimWindow(s: string, t: string, r: string, a: nat)
    requires a + |t| == |s| && t == s[a..] && forall i :: 0 <= i < a ==> IsSpace(s[i])
    requires |r| <= |t| && r == t[..|r|] && forall i :: |r| <= i < |t| ==> IsSpace(t[i])
    ensures r == s[a..a + |r|]
    ensures forall i :: a + |r| <= i < |s| ==> IsSpace(s[i])
    ensures t != [] ==> t[0] == s[a]
  {
    forall i | a + |r| <= i < |s| ensures IsSpace(s[i]) {
      assert s[i] == t[i - a];
    }
  }

  /** Trimming a string that is already trimmed changes nothing. */
  lemma TrimOfTrimmed(s: string)
    requires Trimmed(s)
    ensures Trim(s) == s
  {
  }

  /** `pat` occurs in `s` at index `k`. */
  predicate OccursAt(s: string, pat: string, k: nat) {
    k + |pat| <= |s| && s[k..k + |pat|] == pat
  }

  ghost predicate Contains(s: string, pat: string) {
    exists k: nat :: OccursAt(s, pat, k)
  }

  /** The first index at or after `from` at which `pat` occurs in `s`. */
  function FindFrom(s: string, pat: string, from: nat): (r: Option<nat>)
    ensures r.Some? ==> from <= r.value && OccursAt(s, pat, r.value)
    ensures forall k: nat :: from <= k && (r.None? || k < r.value) ==> !OccursAt(s, pat, k)
    decreases |s| - from
  {
    if from + |pat| > |s| then None
    else if s[from..from + |pat|] == pat then Some(from)
    else FindFrom(s, pat, from + 1)
  }

  /** `s.replaceAll(pat, rep)` for a non-empty string pattern: every occurrence
      found scanning from the left, without overlap, is replaced. */
  function ReplaceAll(s: string, pat: string, rep: string): (r: string)
    requires pat != []
    decreases |s|
  {
    match FindFrom(s, pat, 0)
    case None => s
    case Some(k) => s[..k] + rep + ReplaceAll(s[k + |pat|..], pat, rep)
  }

  /** `s.replace(pat, rep)` for a string pattern: only the first occurrence. */
  function ReplaceFirst(s: string, pat: string, rep: string): (r: string)
  {
    match FindFrom(s, pat, 0)
    case None => s
    case Some(k) => s[..k] + rep + s[k + |pat|..]
  }

  /** `q` has the shape of a template placeholder: it opens with `{{` and
      closes with `}}`. */
  predicate IsPlaceholder(q: string) {
    |q| >= 4 && q[0] == '{' && q[1] == '{' && q[|q| - 2] == '}' && q[|q| - 1] == '}'
  }

  predicate BraceFree(s: string) {
    forall i :: 0 <= i < |s| ==> s[i] != '{' && s[i] != '}'
  }

  lemma OccursInSlice(s: string, q: string, a: nat, b: nat, j: nat)
    requires a <= b <= |s| && OccursAt(s[a..b], q, j)
    ensures OccursAt(s, q, a + j)
  {
    var x, y := s[a..b][j..j + |q|], s[a + j..a + j + |q|];
    forall i | 0 <= i < |q| ensures x[i] == y[i] { }
    assert x == y;
  }

  /** A placeholder cannot straddle a brace-free text longer than its body, so
      it occurs in `a + rep + b` only if it occurs in `a` or in `b`. */
  lemma NoOccurrenceAcross(a: string, rep: string, b: string, q: string)
    requires IsPlaceholder(q) && BraceFree(rep) && |rep| + 4 > |q|
    requires !Contains(a, q) && !Contains(b, q)
    ensures !Contains(a + rep + b, q)
  {
    var out := a + rep + b;
    var r0, r1 := |a|, |a| + |rep|;
    forall j: nat ensures !OccursAt(out, q, j) {
      var w := if j + |q| <= |out| then out[j..j + |q|] else q;
      if j + |q| > |out| {
      } else
      if j + |q| <= r0 {
        assert w == a[j..j + |q|];
        assert !OccursAt(a, q, j);
      } else if j >= r1 {
        assert w == b[j - r1..j - r1 + |q|];
        assert !OccursAt(b, q, j - r1);
      } else if j >= r0 {
        assert w[0] == rep[j - r0];
      } else if j + 1 == r0 {
        assert w[1] == rep[0];
      } else if j + |q| - 1 < r1 {
        assert w[|q| - 1] == rep[j + |q| - 1 - r0];
      } else {
        assert w[|q| - 2] == rep[j + |q| - 2 - r0];
      }
    }
  }

  /** After `ReplaceAll(s, pat, rep)` a placeholder `q` does not occur, when `q`
      is the pattern replaced or did not occur before, and the replacement is
      brace-free and longer than the placeholder's body. */
  lemma {:induction false} ReplaceAllRemoves(s: string, pat: string, rep: string, q: string)
    requires pat != [] && IsPlaceholder(q) && BraceFree(rep) && |rep| + 4 > |q|
    requires q == pat || !Contains(s, q)
    ensures !Contains(ReplaceAll(s, pat, rep), q)
    decreases |s|
  {
    match FindFrom(s, pat, 0)
    case None =>
    case Some(k) =>
      var a, rest := s[..k], s[k + |pat|..];
      forall j: nat | OccursAt(rest, q, j) ensures q == pat {
        assert rest == s[k + |pat|..|s|];
        OccursInSlice(s, q, k + |pat|, |s|, j);
      }
      ReplaceAllRemoves(rest, pat, rep, q);
      forall j: nat | OccursAt(a, q, j) ensures false {
        OccursInSlice(s, q, 0, k, j);
      }
      NoOccurrenceAcross(a, rep, ReplaceAll(rest, pat, rep), q);
  }

  /** `xs.join(sep)`. */
  function Join(xs: seq<string>, sep: string): string
  {
    if xs == [] then "" else if |xs| == 1 then xs[0] else xs[0] + sep + Join(xs[1..], sep)
  }

  /** `s.split(c)` for a one-character separator; never empty, as in JavaScript. */
  function Split(s: string, c: char): (r: seq<string>)
    ensures |r| >= 1
    ensures forall i :: 0 <= i < |r| ==> c !in r[i]
    decreases |s|
  {
    if c !in s then [s]
    else
      var k := IndexOf(s, c);
      [s[..k]] + Split(s[k + 1..], c)
  }

  /** The index of the first `c` in `s`. */
  function IndexOf(s: string, c: char): (k: nat)
    requires c in s
    ensures k < |s| && s[k] == c && c !in s[..k]
  {
    if s[0] == c then 0 else
      var k := IndexOf(s[1..], c);
      assert s[1..][..k] == s[1..k + 1];
      1 + k
  }

  /** Splitting on a separator that no part contains gives the parts back. */
  lemma {:induction false} SplitJoin(xs: seq<string>, c: char)
    requires |xs| >= 1
    requires forall i :: 0 <= i < |xs| ==> c !in xs[i]
    ensures Split(Join(xs, [c]), c) == xs
  {
    if |xs| == 1 {
    } else {
      var s := Join(xs, [c]);
      assert s == xs[0] + [c] + Join(xs[1..], [c]);
      assert c in s by { assert s[|xs[0]|] == c; }
      IndexOfAfterPrefix(xs[0], c, Join(xs[1..], [c]));
      assert s[..|xs[0]|] == xs[0];
      assert s[|xs[0]| + 1..] == Join(xs[1..], [c]);
      SplitJoin(xs[1..], c);
    }
  }

  lemma IndexOfAfterPrefix(a: string, c: char, b: string)
    requires c !in a
    ensures c in a + [c] + b && IndexOf(a + [c] + b, c) == |a|
  {
    var s := a + [c] + b;
    assert s[|a|] == c;
    assert s[..|a|] == a;
    var k := IndexOf(s, c);
  }

  /** Joining the parts of a split gives the string back. */
  lemma {:induction false} JoinSplit(s: string, c: char)
    ensures Join(Split(s, c), [c]) == s
    decreases |s|
  {
    if c in s {
      var k := IndexOf(s, c);
      JoinSplit(s[k + 1..], c);
      var rest := Split(s[k + 1..], c);
      assert Split(s, c) == [s[..k]] + rest;
      assert ([s[..k]] + rest)[1..] == rest;
      assert s == s[..k] + [c] + s[k + 1..];
    }
  }

  /** JavaScript's `s.length`: the number of UTF-16 code units, two for a
      character beyond U+FFFF. It equals `|s|` exactly when no such character
      occurs. */
  function Utf16Length(s: string): (n: nat)
    ensures |s| <= n <= 2 * |s|
    ensures n == |s| <==> forall i :: 0 <= i < |s| ==> s[i] as int < 0x1_0000
  {
    if s == [] then 0
    else
      var rest := Utf16Length(s[1..]);
      assert forall i :: 1 <= i < |s| ==> s[i] == s[1..][i - 1];
      (if s[0] as int < 0x1_0000 then 1 else 2) + rest
  }

  /** The decimal digits of a non-negative integer, as JavaScript's `String(n)`. */
  function NatToString(n: nat): (r: string)
    ensures r != [] && forall i :: 0 <= i < |r| ==> '0' <= r[i] <= '9'
    ensures |r| > 1 ==> r[0] != '0'
  {
    if n < 10 then [Digit(n)] else NatToString(n / 10) + [Digit(n % 10)]
  }

  function Digit(d: nat): (c: char)
    requires d < 10
    ensures '0' <= c <= '9'
  {
    ['0', '1', '2', '3', '4', '5', '6', '7', '8', '9'][d]
  }

  /** The value of a string of decimal digits. */
  function DecimalValue(s: string): nat
    requires forall i :: 0 <= i < |s| ==> '0' <= s[i] <= '9'
  {
    if s == [] then 0 else 10 * DecimalValue(s[..|s| - 1]) + (s[|s| - 1] as int - '0' as int)
  }

  /** Reading back the decimal form gives the number: the form is unambiguous. */
  lemma {:induction false} DecimalRoundTrip(n: nat)
    ensures DecimalValue(NatToString(n)) == n
  {
    if n >= 10 {
      DecimalRoundTrip(n / 10);
      var s := NatToString(n);
      assert s[..|s| - 1] == NatToString(n / 10);
    }
  }
}
