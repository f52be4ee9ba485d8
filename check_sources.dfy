/** The link checker (scripts/check-sources.mjs): one request per source,
    the OK rule, the CSV report and the OK/KO counts. The network is the
    fetch oracle of `Http`; the elapsed time of each check is a parameter. */
module CheckSources {

  import opened Wrappers
  import opened Text
  import opened Http
  import opened Seqs
  import Scheduler

  // ---- checkOne ----

  /** An entry of the `sources` array. */
  datatype CheckSource = CheckSource(
    id: Option<string>,
    name: Option<string>,
    url: string,
    category: Option<string>,
    region: Option<string>)

  /** The `info` record `checkOne` returns. */
  datatype Info = Info(
    id: Option<string>,
    name: Option<string>,
    url: string,
    category: Option<string>,
    region: Option<string>,
    status: Option<nat>,
    ok: bool,
    responseTimeMs: Option<nat>,
    finalUrl: Option<string>,
    redirects: Option<string>,
    error: Option<string>)

  /** The record before the request: no status, not OK, nothing measured. */
  function Blank(src: CheckSource): Info {
    Info(src.id, src.name, src.url, src.category, src.region, None, false, None, None, None, None)
  }

  /** The status rule: `resp.ok || (status >= 200 && status < 400)`. */
  predicate StatusOk(resp: Response) {
    resp.Ok() || (200 <= resp.status && resp.status < 400)
  }

  /** The record `checkOne` returns for a fetch outcome, `elapsed` being the
      rounded time the check took. */
  function CheckResult(src: CheckSource, outcome: FetchOutcome, elapsed: nat): Info {
    match outcome
    case Fetched(resp) =>
      Blank(src).(status := Some(resp.status), ok := StatusOk(resp), finalUrl := Some(resp.finalUrl),
                  redirects := Some(if resp.redirected then "yes" else "no"), responseTimeMs := Some(elapsed))
    case Thrown(m) => Blank(src).(error := Some(m), responseTimeMs := Some(elapsed))
  }

  /** `checkOne(src)`: the record filled in field by field, in the `try`,
      the `catch` and the `finally`. */
  method CheckOne(src: CheckSource, fetch: Fetcher, elapsed: nat) returns (info: Info)
    ensures info == CheckResult(src, fetch(src.url), elapsed)
  {
    info := Blank(src);
    match fetch(src.url) {
      case Fetched(resp) =>
        info := info.(status := Some(resp.status));
        info := info.(ok := resp.Ok() || (resp.status >= 200 && resp.status < 400));
        info := info.(finalUrl := Some(resp.finalUrl));
        info := info.(redirects := Some(if resp.redirected then "yes" else "no"));
      case Thrown(m) =>
        info := info.(error := Some(m));
    }
    info := info.(responseTimeMs := Some(elapsed));
  }

  /** A response is OK exactly when its status is in 200..399 (`resp.ok`
      only covers 200..299); a fetch that throws leaves the record not OK,
      without status, final URL or redirect flag, and with the error text.
      The source's own fields are copied and the time is always recorded. */
  lemma OkRule(src: CheckSource, outcome: FetchOutcome, elapsed: nat)
    ensures CheckResult(src, outcome, elapsed).ok <==> outcome.Fetched? && 200 <= outcome.response.status < 400
    ensures outcome.Fetched? ==>
      && CheckResult(src, outcome, elapsed).status == Some(outcome.response.status)
      && CheckResult(src, outcome, elapsed).finalUrl == Some(outcome.response.finalUrl)
      && CheckResult(src, outcome, elapsed).error.None?
    ensures outcome.Thrown? ==>
      && CheckResult(src, outcome, elapsed).status.None?
      && CheckResult(src, outcome, elapsed).finalUrl.None?
      && CheckResult(src, outcome, elapsed).redirects.None?
      && CheckResult(src, outcome, elapsed).error == Some(outcome.message)
    ensures CheckResult(src, outcome, elapsed).responseTimeMs == Some(elapsed)
    ensures CheckResult(src, outcome, elapsed).url == src.url && CheckResult(src, outcome, elapsed).id == src.id
  {
  }

  // ---- toCSV ----

  /** A field value as JavaScript holds it. */
  datatype Value = Null | Str(s: string) | Num(n: nat) | Bool(b: bool)

  /** `String(v)` of a value that is not `null`. */
  function Show(v: Value): string
    requires !v.Null?
  {
    match v
    case Str(s) => s
    case Num(n) => NatToString(n)
    case Bool(b) => if b then "true" else "false"
  }

  /** The text of a field: `String(v)`, or the empty string for `null`. */
  function FieldText(v: Value): string {
    if v.Null? then "" else Show(v)
  }

  /** The test `/[",\n]/`. */
  predicate NeedsQuotes(s: string) {
    '"' in s || ',' in s || '\n' in s
  }

  /** `esc(v)`: `null` gives the empty string; otherwise every `"` is
      doubled and the result is wrapped in quotes when it holds `"`, `,` or a
      line feed. */
  function Esc(v: Value): string {
    if v.Null? then ""
    else
      var s := ReplaceAll(Show(v), "\"", "\"\"");
      if NeedsQuotes(s) then "\"" + s + "\"" else s
  }

  /** Every `"` of `s` doubled, character by character. */
  function Double(s: string): (r: string)
    decreases |s|
  {
    if s == [] then [] else (if s[0] == '"' then "\"\"" else [s[0]]) + Double(s[1..])
  }

  /** A field as it is written: doubled quotes, and quoted when needed. */
  function Quote(t: string): string {
    if NeedsQuotes(t) then "\"" + Double(t) + "\"" else t
  }

  lemma {:induction false} DoubleAppend(a: string, b: string)
    ensures Double(a + b) == Double(a) + Double(b)
    decreases |a|
  {
    if a != [] {
      assert (a + b)[1..] == a[1..] + b;
      DoubleAppend(a[1..], b);
    } else {
      assert a + b == b;
    }
  }

  /** Doubling changes nothing in a text without quotes. */
  lemma {:induction false} DoubleQuoteFree(s: string)
    requires '"' !in s
    ensures Double(s) == s
    decreases |s|
  {
    if s != [] {
      DoubleQuoteFree(s[1..]);
    }
  }

  /** Doubling keeps the set of characters. */
  lemma {:induction false} DoubleChars(s: string, c: char)
    ensures c in Double(s) <==> c in s
    decreases |s|
  {
    if s != [] {
      DoubleChars(s[1..], c);
      assert s == [s[0]] + s[1..];
    }
  }

  /** The one-character pattern occurs exactly where the character is. */
  lemma OccursAtChar(s: string, c: char, k: nat)
    ensures OccursAt(s, [c], k) <==> k < |s| && s[k] == c
  {
    if k < |s| {
      assert s[k..k + 1] == [s[k]];
    }
  }

  /** `replaceAll('"', '""')` is the doubling of every quote. */
  lemma {:induction false} ReplaceAllIsDouble(s: string)
    ensures ReplaceAll(s, "\"", "\"\"") == Double(s)
    decreases |s|
  {
    match FindFrom(s, "\"", 0)
    case None =>
      NoQuoteBefore(s, |s|);
      DoubleQuoteFree(s);
    case Some(k) =>
      NoQuoteBefore(s, k);
      OccursAtChar(s, '"', k);
      ReplaceAllIsDouble(s[k + 1..]);
      DoubleAtFirstQuote(s, k);
  }

  /** No quote before the first occurrence `FindFrom` reports. */
  lemma NoQuoteBefore(s: string, k: nat)
    requires k <= |s|
    requires forall j: nat :: j < k ==> !OccursAt(s, "\"", j)
    ensures '"' !in s[..k]
  {
    forall j | 0 <= j < k ensures s[..k][j] != '"' {
      OccursAtChar(s, '"', j);
    }
  }

  /** Doubling up to and including the first quote. */
  lemma DoubleAtFirstQuote(s: string, k: nat)
    requires k < |s| && s[k] == '"' && '"' !in s[..k]
    ensures Double(s) == s[..k] + "\"\"" + Double(s[k + 1..])
  {
    assert s == s[..k] + "\"" + s[k + 1..];
    DoubleQuoteAfter(s[..k], s[k + 1..]);
  }

  /** Doubling a text that has its first quote between `a` and `b`. */
  lemma DoubleQuoteAfter(a: string, b: string)
    requires '"' !in a
    ensures Double(a + "\"" + b) == a + "\"\"" + Double(b)
  {
    DoubleQuoteFree(a);
    assert a + "\"" + b == a + ("\"" + b);
    DoubleAppend(a, "\"" + b);
    DoubleAppend("\"", b);
  }

  /** The quoting rule: a field is quoted exactly when its text holds `"`,
      `,` or a line feed (a carriage return alone does not count), and its
      quotes are then doubled; any other text is written as it is, and
      `null` as the empty string. */
  lemma EscIsQuote(v: Value)
    ensures Esc(v) == Quote(FieldText(v))
    ensures NeedsQuotes(FieldText(v)) ==> Esc(v) == "\"" + Double(FieldText(v)) + "\""
    ensures !NeedsQuotes(FieldText(v)) ==> Esc(v) == FieldText(v)
    ensures v.Null? ==> Esc(v) == ""
  {
    if !v.Null? {
      var t := Show(v);
      ReplaceAllIsDouble(t);
      DoubleChars(t, '"');
      DoubleChars(t, ',');
      DoubleChars(t, '\n');
      if !NeedsQuotes(t) {
        DoubleQuoteFree(t);
      }
    }
  }

  /** The eleven columns, in order. */
  const Headers: seq<string> :=
    ["id", "name", "url", "category", "region", "status", "ok", "response_time_ms", "final_url", "redirects", "error"]

  function OptStr(o: Option<string>): Value {
    if o.Some? then Str(o.value) else Null
  }

  function OptNum(o: Option<nat>): Value {
    if o.Some? then Num(o.value) else Null
  }

  /** `headers.map(h => r[h])`. */
  function Cells(r: Info): (vs: seq<Value>)
    ensures |vs| == |Headers|
  {
    [OptStr(r.id), OptStr(r.name), Str(r.url), OptStr(r.category), OptStr(r.region), OptNum(r.status),
     Bool(r.ok), OptNum(r.responseTimeMs), OptStr(r.finalUrl), OptStr(r.redirects), OptStr(r.error)]
  }

  function EscAll(vs: seq<Value>): (r: seq<string>)
    ensures |r| == |vs| && forall i :: 0 <= i < |vs| ==> r[i] == Esc(vs[i])
  {
    if vs == [] then [] else [Esc(vs[0])] + EscAll(vs[1..])
  }

  /** The line of one record. */
  function Line(r: Info): string {
    Join(EscAll(Cells(r)), ",")
  }

  function Lines(rows: seq<Info>): (r: seq<string>)
    ensures |r| == |rows| && forall i :: 0 <= i < |rows| ==> r[i] == Line(rows[i])
  {
    if rows == [] then [] else [Line(rows[0])] + Lines(rows[1..])
  }

  /** `toCSV(rows)`: the header line, then one line per row, joined by line
      feeds, with no line feed at the end. */
  function ToCsv(rows: seq<Info>): string {
    Join([Join(Headers, ",")] + Lines(rows), "\n")
  }

  // ---- reading the report back (section 2 of RFC 4180, rules 5 to 7) ----

  /** The rest of a quoted field after its opening quote: `""` stands for a
      quote and a lone `"` closes the field. The text, and the number of
      characters read including the closing quote. */
  function QuotedBody(s: string): (r: Option<(string, nat)>)
    ensures r.Some? ==> 1 <= r.value.1 <= |s|
    decreases |s|
  {
    if s == [] then None
    else if s[0] == '"' then
      if |s| >= 2 && s[1] == '"' then
        match QuotedBody(s[2..])
        case None => None
        case Some((t, n)) => Some((['"'] + t, n + 2))
      else Some(([], 1))
    else
      match QuotedBody(s[1..])
      case None => None
      case Some((t, n)) => Some(([s[0]] + t, n + 1))
  }

  /** The length of an unquoted field: up to the next `,` or line feed. */
  function PlainLength(s: string): (n: nat)
    ensures n <= |s| && (n < |s| ==> s[n] == ',' || s[n] == '\n')
    ensures forall i :: 0 <= i < n ==> s[i] != ',' && s[i] != '\n'
    decreases |s|
  {
    if s == [] || s[0] == ',' || s[0] == '\n' then 0 else 1 + PlainLength(s[1..])
  }

  /** The field `s` starts with, and its length: quoted, or plain and free
      of quotes. It must end the text or be followed by `,` or a line feed. */
  function Field(s: string): (r: Option<(string, nat)>)
    ensures r.Some? ==> r.value.1 <= |s|
    ensures r.Some? && r.value.1 < |s| ==> s[r.value.1] == ',' || s[r.value.1] == '\n'
  {
    if s != [] && s[0] == '"' then
      match QuotedBody(s[1..])
      case None => None
      case Some((t, n)) =>
        if 1 + n == |s| || s[1 + n] == ',' || s[1 + n] == '\n' then Some((t, 1 + n)) else None
    else
      var n := PlainLength(s);
      if '"' in s[..n] then None else Some((s[..n], n))
  }

  /** The records of a CSV text whose records end with a line feed, the last
      one excepted; `None` when a field is malformed. */
  function Records(s: string): (r: Option<seq<seq<string>>>)
    ensures r.Some? ==> r.value != [] && r.value[0] != []
    decreases |s|
  {
    match Field(s)
    case None => None
    case Some((v, n)) =>
      if n == |s| then Some([[v]])
      else
        match Records(s[n + 1..])
        case None => None
        case Some(rs) => if s[n] == ',' then Some([[v] + rs[0]] + rs[1..]) else Some([[v]] + rs)
  }

  /** A doubled text followed by the closing quote reads back as the text. */
  lemma {:induction false} QuotedDouble(t: string, rest: string)
    requires rest == [] || rest[0] != '"'
    ensures QuotedBody(Double(t) + "\"" + rest) == Some((t, |Double(t)| + 1))
    decreases |t|
  {
    var s := Double(t) + "\"" + rest;
    if t == [] {
      assert s == "\"" + rest;
    } else {
      QuotedDouble(t[1..], rest);
      var head := if t[0] == '"' then "\"\"" else [t[0]];
      assert s == head + (Double(t[1..]) + "\"" + rest);
      assert s[|head|..] == Double(t[1..]) + "\"" + rest;
      assert t == [t[0]] + t[1..];
    }
  }

  /** A field as written reads back as its text, when it is followed by the
      end, a `,` or a line feed. */
  lemma FieldQuote(t: string, rest: string)
    requires rest == [] || rest[0] == ',' || rest[0] == '\n'
    ensures Field(Quote(t) + rest) == Some((t, |Quote(t)|))
  {
    if NeedsQuotes(t) {
      FieldQuoted(t, rest);
    } else {
      FieldPlain(t, rest);
    }
  }

  lemma FieldQuoted(t: string, rest: string)
    requires rest == [] || rest[0] == ',' || rest[0] == '\n'
    ensures Field("\"" + Double(t) + "\"" + rest) == Some((t, |Double(t)| + 2))
  {
    var body := Double(t) + "\"" + rest;
    var s := ['"'] + body;
    assert "\"" + Double(t) + "\"" + rest == s;
    assert s[1..] == body;
    QuotedDouble(t, rest);
    var n := |Double(t)| + 1;
    if 1 + n < |s| {
      assert s[1 + n] == rest[0];
    }
  }

  lemma FieldPlain(t: string, rest: string)
    requires !NeedsQuotes(t)
    requires rest == [] || rest[0] == ',' || rest[0] == '\n'
    ensures Field(t + rest) == Some((t, |t|))
  {
    PlainOf(t, rest);
    assert (t + rest)[..|t|] == t;
  }

  lemma {:induction false} PlainOf(t: string, rest: string)
    requires !NeedsQuotes(t)
    requires rest == [] || rest[0] == ',' || rest[0] == '\n'
    ensures PlainLength(t + rest) == |t|
    ensures t == [] ==> rest == [] || rest[0] != '"'
    ensures t != [] ==> (t + rest)[0] != '"'
    decreases |t|
  {
    if t != [] {
      assert (t + rest)[1..] == t[1..] + rest;
      assert t[0] in t;
      PlainOf(t[1..], rest);
    } else {
      assert t + rest == rest;
    }
  }

  /** The fields written out. */
  function Quotes(cells: seq<string>): (r: seq<string>)
    ensures |r| == |cells| && forall i :: 0 <= i < |cells| ==> r[i] == Quote(cells[i])
  {
    if cells == [] then [] else [Quote(cells[0])] + Quotes(cells[1..])
  }

  /** How `Records` goes on after the first field of `s`. */
  lemma RecordsCons(s: string, v: string, n: nat)
    requires Field(s) == Some((v, n))
    ensures n == |s| ==> Records(s) == Some([[v]])
    ensures n < |s| && s[n] == ',' && Records(s[n + 1..]).Some? ==>
      Records(s) == Some([[v] + Records(s[n + 1..]).value[0]] + Records(s[n + 1..]).value[1..])
    ensures n < |s| && s[n] == '\n' && Records(s[n + 1..]).Some? ==>
      Records(s) == Some([[v]] + Records(s[n + 1..]).value)
  {
  }

  /** A record line reads back as its fields; what follows it, after a line
      feed, reads on as further records. */
  lemma {:induction false} RecordLine(cells: seq<string>, tail: string)
    requires cells != []
    requires tail == [] || (tail[0] == '\n' && Records(tail[1..]).Some?)
    ensures tail == [] ==> Records(Join(Quotes(cells), ",") + tail) == Some([cells])
    ensures tail != [] ==> Records(Join(Quotes(cells), ",") + tail) == Some([cells] + Records(tail[1..]).value)
    decreases |cells|
  {
    var q := Quote(cells[0]);
    if |cells| == 1 {
      assert Join(Quotes(cells), ",") == q;
      LastField(cells[0], tail);
      assert cells == [cells[0]];
    } else {
      var more := Join(Quotes(cells[1..]), ",") + tail;
      JoinQuotesCons(cells, tail);
      RecordLine(cells[1..], tail);
      InnerField(cells[0], more);
      var r := Records(more).value;
      assert [cells[0]] + cells[1..] == cells;
      if tail == [] {
        assert r == [cells[1..]];
        assert [[cells[0]] + r[0]] + r[1..] == [cells];
      } else {
        assert r == [cells[1..]] + Records(tail[1..]).value;
        assert r[1..] == Records(tail[1..]).value;
        assert [[cells[0]] + r[0]] + r[1..] == [cells] + Records(tail[1..]).value;
      }
    }
  }

  lemma JoinQuotesCons(cells: seq<string>, tail: string)
    requires |cells| >= 2
    ensures Join(Quotes(cells), ",") + tail == Quote(cells[0]) + ("," + (Join(Quotes(cells[1..]), ",") + tail))
  {
    var qs := Quotes(cells);
    var a, b := Quote(cells[0]), Join(Quotes(cells[1..]), ",");
    assert qs[1..] == Quotes(cells[1..]);
    assert Join(qs, ",") == a + "," + b;
    AppendAssoc(a, ",", b);
    AppendAssoc(a + ",", b, tail);
    AppendAssoc(",", b, tail);
    AppendAssoc(a, ",", b + tail);
  }

  /** The last field of a line. */
  lemma LastField(t: string, tail: string)
    requires tail == [] || (tail[0] == '\n' && Records(tail[1..]).Some?)
    ensures tail == [] ==> Records(Quote(t) + tail) == Some([[t]])
    ensures tail != [] ==> Records(Quote(t) + tail) == Some([[t]] + Records(tail[1..]).value)
  {
    var q := Quote(t);
    var s := q + tail;
    FieldQuote(t, tail);
    RecordsCons(s, t, |q|);
    if tail == [] {
      assert s == q;
    } else {
      assert s[|q|] == '\n';
      assert s[|q| + 1..] == tail[1..];
    }
  }

  /** A field followed by a comma and the rest of its line. */
  lemma InnerField(t: string, more: string)
    requires Records(more).Some?
    ensures Records(Quote(t) + ("," + more)) == Some([[t] + Records(more).value[0]] + Records(more).value[1..])
  {
    var q := Quote(t);
    var s := q + ("," + more);
    FieldQuote(t, "," + more);
    RecordsCons(s, t, |q|);
    assert s[|q|] == ',';
    assert s[|q| + 1..] == more;
  }

  /** Lines of records joined by line feeds read back as the records. */
  lemma {:induction false} RecordLines(rows: seq<seq<string>>)
    requires rows != []
    requires forall i :: 0 <= i < |rows| ==> rows[i] != []
    ensures Records(Join(LinesOf(rows), "\n")) == Some(rows)
    decreases |rows|
  {
    var first := Join(Quotes(rows[0]), ",");
    if |rows| == 1 {
      assert Join(LinesOf(rows), "\n") == first + [];
      RecordLine(rows[0], []);
      assert rows == [rows[0]];
    } else {
      RecordLines(rows[1..]);
      var tail := "\n" + Join(LinesOf(rows[1..]), "\n");
      assert LinesOf(rows)[1..] == LinesOf(rows[1..]);
      assert Join(LinesOf(rows), "\n") == first + tail;
      assert tail[1..] == Join(LinesOf(rows[1..]), "\n");
      RecordLine(rows[0], tail);
      assert rows == [rows[0]] + rows[1..];
    }
  }

  function LinesOf(rows: seq<seq<string>>): (r: seq<string>)
    ensures |r| == |rows| && forall i :: 0 <= i < |rows| ==> r[i] == Join(Quotes(rows[i]), ",")
  {
    if rows == [] then [] else [Join(Quotes(rows[0]), ",")] + LinesOf(rows[1..])
  }

  /** The texts of a record's fields, in column order. */
  function Texts(vs: seq<Value>): (r: seq<string>)
    ensures |r| == |vs| && forall i :: 0 <= i < |vs| ==> r[i] == FieldText(vs[i])
  {
    if vs == [] then [] else [FieldText(vs[0])] + Texts(vs[1..])
  }

  /** The table the report holds: the header names, then the texts of each
      record. */
  function Table(rows: seq<Info>): (t: seq<seq<string>>)
    ensures |t| == |rows| + 1 && t[0] == Headers
  {
    [Headers] + RowTexts(rows)
  }

  function RowTexts(rows: seq<Info>): (t: seq<seq<string>>)
    ensures |t| == |rows| && forall i :: 0 <= i < |rows| ==> t[i] == Texts(Cells(rows[i]))
  {
    if rows == [] then [] else [Texts(Cells(rows[0]))] + RowTexts(rows[1..])
  }

  /** A text without quote, comma or line feed. */
  predicate Plain(s: string) {
    forall i :: 0 <= i < |s| ==> s[i] != '"' && s[i] != ',' && s[i] != '\n'
  }

  lemma HeaderNamesPlain()
    ensures forall i :: 0 <= i < |Headers| ==> Plain(Headers[i])
  {
  }

  lemma PlainNeedsNoQuotes(t: string)
    requires Plain(t)
    ensures !NeedsQuotes(t)
  {
    assert '"' !in t && ',' !in t && '\n' !in t;
  }

  /** Plain fields are written as they are. */
  lemma QuotesPlain(cells: seq<string>)
    requires forall i :: 0 <= i < |cells| ==> Plain(cells[i])
    ensures Quotes(cells) == cells
  {
    forall i | 0 <= i < |cells| ensures !NeedsQuotes(cells[i]) {
      PlainNeedsNoQuotes(cells[i]);
    }
  }

  /** The report reads back, record by record and field by field, as the
      header names followed by the text of every field of every row, in
      order: the quoting makes commas, quotes and line feeds inside a field
      harmless. */
  lemma CsvRoundTrip(rows: seq<Info>)
    ensures Records(ToCsv(rows)) == Some(Table(rows))
  {
    TableLines(rows);
    RecordLines(Table(rows));
  }

  lemma TableLines(rows: seq<Info>)
    ensures LinesOf(Table(rows)) == [Join(Headers, ",")] + Lines(rows)
    ensures forall i :: 0 <= i < |Table(rows)| ==> Table(rows)[i] != []
  {
    HeaderLine();
    RowLines(rows);
    LinesOfCons(Headers, RowTexts(rows));
  }

  lemma LinesOfCons(h: seq<string>, more: seq<seq<string>>)
    ensures LinesOf([h] + more) == [Join(Quotes(h), ",")] + LinesOf(more)
  {
    assert ([h] + more)[1..] == more;
  }

  /** The header line is the header names written out. */
  lemma HeaderLine()
    ensures Headers != [] && Join(Quotes(Headers), ",") == Join(Headers, ",")
  {
    HeaderNamesPlain();
    QuotesPlain(Headers);
  }

  /** The lines of the rows are their field texts written out. */
  lemma {:induction false} RowLines(rows: seq<Info>)
    ensures LinesOf(RowTexts(rows)) == Lines(rows)
    ensures forall i :: 0 <= i < |rows| ==> RowTexts(rows)[i] != []
    decreases |rows|
  {
    if rows != [] {
      RowLines(rows[1..]);
      LineIsQuotes(rows[0]);
      assert RowTexts(rows)[1..] == RowTexts(rows[1..]);
    }
  }

  /** A record's line is its field texts written out. */
  lemma LineIsQuotes(r: Info)
    ensures Line(r) == Join(Quotes(Texts(Cells(r))), ",")
  {
    var vs := Cells(r);
    forall j | 0 <= j < |vs| ensures Esc(vs[j]) == Quote(FieldText(vs[j])) {
      EscIsQuote(vs[j]);
    }
    assert EscAll(vs) == Quotes(Texts(vs));
  }

  // ---- main: the checks and the counts ----

  /** `results.filter(r => r.ok).length`. */
  function OkCount(results: seq<Info>): (n: nat)
    ensures n <= |results|
  {
    if results == [] then 0
    else OkCount(results[..|results| - 1]) + (if results[|results| - 1].ok then 1 else 0)
  }

  /** The number of records that are not OK. */
  function KoCount(results: seq<Info>): nat {
    if results == [] then 0
    else KoCount(results[..|results| - 1]) + (if results[|results| - 1].ok then 0 else 1)
  }

  /** `ko = results.length - ok` is the number of records that are not OK. */
  lemma {:induction false} OkKo(results: seq<Info>)
    ensures OkCount(results) + KoCount(results) == |results|
    decreases |results|
  {
    if results != [] {
      OkKo(results[..|results| - 1]);
    }
  }

  datatype CheckRun =
    | NoSources                                      // the "Aucune source" exit
    | Pending                                        // `pMap` never settles
    | Checked(results: seq<Info>, ok: nat, ko: nat)

  /** The checks of `main`: `pMap(sources, checkOne, concurrency)` and the
      counts; `elapsed(i)` is the time the `i`-th check took. */
  method CheckAll(sources: seq<CheckSource>, fetch: Fetcher, elapsed: nat -> nat, concurrency: int)
    returns (run: CheckRun)
    ensures sources == [] <==> run == NoSources
    ensures run == Pending <==> sources != [] && concurrency < 1
    ensures run.Checked? ==>
      && |run.results| == |sources|
      && (forall k :: 0 <= k < |sources| ==> run.results[k] == CheckResult(sources[k], fetch(sources[k].url), elapsed(k)))
      && run.ok == OkCount(run.results)
      && run.ko == KoCount(run.results)
      && run.ok + run.ko == |sources|
  {
    if |sources| == 0 {
      return NoSources;
    }
    var resolved, ret, _, _ := Scheduler.PMap(sources, (s: CheckSource, i: nat) => CheckResult(s, fetch(s.url), elapsed(i)), concurrency);
    if !resolved {
      return Pending;
    }
    var results := seq(|ret|, k requires 0 <= k < |ret| && ret[k].Some? => ret[k].value);
    var ok := OkCount(results);
    OkKo(results);
    run := Checked(results, ok, |results| - ok);
  }
}
