/**
 * The report file both scrapers write: a fixed header line, then one line per row,
 * `value(2 decimals),player,tournament,section`, rows sorted by value, highest first, with a
 * stable sort. The file's contents are modelled as the string written.
 */
module Report {
  import opened Wrappers
  import opened Text
  import opened Averages
  import opened Dedup

  // ---------------------------------------------------------------- the 2-decimal value

  /** `f"{v:.2f}"` for a value of `v` hundredths. */
  function FormatHundredths(v: nat): string {
    NatToDecimal(v / 100) + "." + [DigitChar(v % 100 / 10), DigitChar(v % 10)]
  }

  /** Reads a 2-decimal numeral back into hundredths. */
  function ParseHundredths(s: string): Option<nat> {
    var ps := Split(s, '.');
    if |ps| == 2 && ps[0] != [] && AllDigits(ps[0]) && |ps[1]| == 2 && AllDigits(ps[1])
    then Some(DecimalValue(ps[0]) * 100 + DecimalValue(ps[1]))
    else None
  }

  /** Two digits read back as their value. */
  lemma TwoDigitValue(a: nat, b: nat)
    requires a < 10 && b < 10
    ensures AllDigits([DigitChar(a), DigitChar(b)])
    ensures DecimalValue([DigitChar(a), DigitChar(b)]) == 10 * a + b
  {
    var f := [DigitChar(a), DigitChar(b)];
    assert DigitValue(f[0]) == a && DigitValue(f[1]) == b;
    assert [f[0]][..0] == [];
    assert DecimalValue([f[0]]) == a;
    assert f[..1] == [f[0]];
  }

  /** A value is its whole part, its tenths and its hundredths. */
  lemma HundredthsParts(v: nat)
    ensures v / 100 * 100 + (10 * (v % 100 / 10) + v % 10) == v
  {
  }

  /** The printed value reads back as the value. */
  lemma HundredthsRoundTrip(v: nat)
    ensures ParseHundredths(FormatHundredths(v)) == Some(v)
  {
    var w, f := NatToDecimal(v / 100), [DigitChar(v % 100 / 10), DigitChar(v % 10)];
    assert FormatHundredths(v) == w + ['.'] + f;
    assert '.' !in w by { assert AllDigits(w); }
    SplitCons(w, '.', f);
    SplitNone(f, '.');
    assert Split(FormatHundredths(v), '.') == [w, f];
    DecimalRoundTrip(v / 100);
    TwoDigitValue(v % 100 / 10, v % 10);
    HundredthsParts(v);
    assert ParseHundredths(FormatHundredths(v)) == Some(DecimalValue(w) * 100 + DecimalValue(f));
  }

  // ---------------------------------------------------------------- lines

  /** The fixed header line, without its line break. */
  const HeaderLine: string := "Value,Player,Tournament,Section"

  /** The fixed first line of every report. */
  const Header: string := HeaderLine + "\n"

  /** The fields of one row, without the line break. */
  function LineText(r: Row): string {
    FormatHundredths(r.value) + ("," + (r.player + ("," + (r.tournament + ("," + SectionName(r.section))))))
  }

  /** The line written for one row. */
  function Line(r: Row): string {
    LineText(r) + "\n"
  }

  /** The lines of `rows`, in order. */
  function Body(rows: seq<Row>): string {
    if rows == [] then "" else Line(rows[0]) + Body(rows[1..])
  }

  /** The whole file written for `rows`, in the order given. */
  function ReportText(rows: seq<Row>): string {
    Header + Body(rows)
  }

  /** Writing one more row appends its line. */
  lemma {:induction false} BodySnoc(rows: seq<Row>, r: Row)
    ensures Body(rows + [r]) == Body(rows) + Line(r)
  {
    if rows == [] {
      assert [r][1..] == [];
    } else {
      assert (rows + [r])[1..] == rows[1..] + [r];
      BodySnoc(rows[1..], r);
    }
  }

  /** Writing one more row appends its line to the report. */
  lemma ReportSnoc(rows: seq<Row>, r: Row)
    ensures ReportText(rows + [r]) == ReportText(rows) + Line(r)
  {
    BodySnoc(rows, r);
    Assoc(Header, Body(rows), Line(r));
  }

  /** The write loop: the header, then one line per row in the given order. */
  method WriteRows(rows: seq<Row>) returns (text: string)
    ensures text == ReportText(rows)
  {
    text := Header;
    assert rows[..0] == [];
    var i := 0;
    while i < |rows|
      invariant 0 <= i <= |rows|
      invariant text == ReportText(rows[..i])
    {
      ReportSnoc(rows[..i], rows[i]);
      assert rows[..i + 1] == rows[..i] + [rows[i]];
      text := text + Line(rows[i]);
      i := i + 1;
    }
    assert rows[..i] == rows;
  }

  // ---------------------------------------------------------------- reading a report back

  /** The section named `s` in a report line. */
  function SectionOf(s: string): Option<Section> {
    if s == "matches" then Some(Matches) else if s == "groups" then Some(Groups) else None
  }

  /** Reads one line (without its line break) as a row. */
  function ParseLine(l: string): Option<Row> {
    var fs := Split(l, ',');
    if |fs| != 4 then None
    else
      match ParseHundredths(fs[0])
      case None => None
      case Some(v) =>
        match SectionOf(fs[3])
        case None => None
        case Some(sec) => Some(Row(v, fs[1], fs[2], sec))
  }

  /** Reads the lines after the header; the text after the last line break must be empty. */
  function ParseLines(ls: seq<string>): Option<seq<Row>> {
    if ls == [] then None
    else if |ls| == 1 then (if ls[0] == "" then Some([]) else None)
    else
      match ParseLine(ls[0])
      case None => None
      case Some(r) =>
        match ParseLines(ls[1..])
        case None => None
        case Some(rows) => Some([r] + rows)
  }

  /** Reads a report file back as its rows. */
  function ParseReport(text: string): Option<seq<Row>> {
    var ls := Split(text, '\n');
    if ls[0] != HeaderLine then None else ParseLines(ls[1..])
  }

  /** A row whose player and tournament carry neither a comma nor a line break; the report does no
      quoting, so only such rows survive the trip through the file. */
  predicate CsvSafe(r: Row) {
    ',' !in r.player && '\n' !in r.player && ',' !in r.tournament && '\n' !in r.tournament
  }

  /** The line of a comma-free row splits into its four fields. */
  lemma LineFields(r: Row)
    requires ',' !in r.player && ',' !in r.tournament
    ensures Split(LineText(r), ',') == [FormatHundredths(r.value), r.player, r.tournament, SectionName(r.section)]
  {
    var v, p, t, s := FormatHundredths(r.value), r.player, r.tournament, SectionName(r.section);
    assert ',' !in v by { assert AllDigits(NatToDecimal(r.value / 100)); }
    SplitNone(s, ',');
    SplitCons(t, ',', s);
    SplitCons(p, ',', t + ([','] + s));
    SplitCons(v, ',', p + ([','] + (t + ([','] + s))));
  }

  /** Every row of a report is read back from its line. */
  lemma LineRoundTrip(r: Row)
    requires CsvSafe(r)
    ensures ParseLine(LineText(r)) == Some(r)
  {
    LineFields(r);
    HundredthsRoundTrip(r.value);
  }

  /** The line of a newline-free row holds no line break before its end. */
  lemma LineNoBreak(r: Row)
    requires CsvSafe(r)
    ensures '\n' !in LineText(r)
  {
    assert AllDigits(NatToDecimal(r.value / 100));
    assert '\n' !in SectionName(r.section);
  }

  /** The lines of comma- and newline-free rows read back as those rows. */
  lemma {:induction false} BodyRoundTrip(rows: seq<Row>)
    requires forall i :: 0 <= i < |rows| ==> CsvSafe(rows[i])
    ensures ParseLines(Split(Body(rows), '\n')) == Some(rows)
  {
    if rows == [] {
    } else {
      var r := rows[0];
      LineNoBreak(r);
      assert Body(rows) == LineText(r) + ['\n'] + Body(rows[1..]);
      SplitCons(LineText(r), '\n', Body(rows[1..]));
      BodyRoundTrip(rows[1..]);
      LineRoundTrip(r);
      assert [r] + rows[1..] == rows;
    }
  }

  /** Reading back a report gives exactly the rows it was written from, in order, provided no
      player or tournament name carries a comma or a line break. */
  lemma ReportRoundTrip(rows: seq<Row>)
    requires forall i :: 0 <= i < |rows| ==> CsvSafe(rows[i])
    ensures ParseReport(ReportText(rows)) == Some(rows)
  {
    assert '\n' !in HeaderLine;
    assert ReportText(rows) == HeaderLine + ['\n'] + Body(rows);
    SplitCons(HeaderLine, '\n', Body(rows));
    BodyRoundTrip(rows);
  }

  /** With no rows the report is the header line alone. */
  lemma EmptyReport()
    ensures ReportText([]) == "Value,Player,Tournament,Section\n"
  {
  }

  // ---------------------------------------------------------------- sorting by value, descending

  /** Values never increase along `s`. */
  predicate SortedDesc(s: seq<Row>) {
    forall i, j :: 0 <= i < j < |s| ==> s[i].value >= s[j].value
  }

  /** The rows of `s` whose value is `v`, in order. */
  function WithValue(s: seq<Row>, v: nat): seq<Row> {
    if s == [] then [] else (if s[0].value == v then [s[0]] else []) + WithValue(s[1..], v)
  }

  /** Inserts `x` before the first row whose value does not exceed its own. */
  function InsertDesc(x: Row, s: seq<Row>): seq<Row> {
    if s == [] || x.value >= s[0].value then [x] + s else [s[0]] + InsertDesc(x, s[1..])
  }

  /** `sorted(rows, key=value, reverse=True)`: a stable sort, highest value first. */
  function SortByValueDesc(rows: seq<Row>): seq<Row> {
    if rows == [] then [] else InsertDesc(rows[0], SortByValueDesc(rows[1..]))
  }

  lemma {:induction false} InsertDescSorted(x: Row, s: seq<Row>)
    requires SortedDesc(s)
    ensures SortedDesc(InsertDesc(x, s))
    ensures multiset(InsertDesc(x, s)) == multiset(s) + multiset{x}
  {
    InsertDescPerm(x, s);
    if s == [] || x.value >= s[0].value {
      forall k | 0 <= k < |s| ensures s[k].value <= x.value {
        if k > 0 { assert s[0].value >= s[k].value; }
      }
      ConsSorted(x, s);
    } else {
      var rest := s[1..];
      assert forall i :: 0 <= i < |rest| ==> rest[i] == s[i + 1];
      InsertDescSorted(x, rest);
      var t := InsertDesc(x, rest);
      HeadDominates(s[0], x, rest, t);
      ConsSorted(s[0], t);
    }
  }

  /** Insertion adds exactly the inserted row. */
  lemma {:induction false} InsertDescPerm(x: Row, s: seq<Row>)
    ensures multiset(InsertDesc(x, s)) == multiset(s) + multiset{x}
  {
    if s != [] && x.value < s[0].value {
      InsertDescPerm(x, s[1..]);
      assert s == [s[0]] + s[1..];
    }
  }

  /** A row at least as large as every row of a sorted list heads a sorted list. */
  lemma ConsSorted(h: Row, t: seq<Row>)
    requires SortedDesc(t)
    requires forall k :: 0 <= k < |t| ==> t[k].value <= h.value
    ensures SortedDesc([h] + t)
  {
    var s := [h] + t;
    forall i, j | 0 <= i < j < |s| ensures s[i].value >= s[j].value {
      assert s[j] == t[j - 1];
      if i > 0 { assert s[i] == t[i - 1]; }
    }
  }

  /** A row at least as large as `x` and as every row of `s` is at least as large as every row of
      a rearrangement of `s` and `x`. */
  lemma HeadDominates(h: Row, x: Row, s: seq<Row>, t: seq<Row>)
    requires x.value <= h.value
    requires forall i :: 0 <= i < |s| ==> s[i].value <= h.value
    requires multiset(t) == multiset(s) + multiset{x}
    ensures forall k :: 0 <= k < |t| ==> t[k].value <= h.value
  {
    forall k | 0 <= k < |t| ensures t[k].value <= h.value {
      assert t[k] in multiset(t);
      if t[k] != x {
        assert t[k] in s;
      }
    }
  }

  /** The sort yields a non-increasing rearrangement of its input. */
  lemma {:induction false} SortSortedPermutation(rows: seq<Row>)
    ensures SortedDesc(SortByValueDesc(rows))
    ensures multiset(SortByValueDesc(rows)) == multiset(rows)
  {
    if rows != [] {
      SortSortedPermutation(rows[1..]);
      InsertDescSorted(rows[0], SortByValueDesc(rows[1..]));
      assert rows == [rows[0]] + rows[1..];
    }
  }

  lemma {:induction false} WithValueAppend(a: seq<Row>, b: seq<Row>, v: nat)
    ensures WithValue(a + b, v) == WithValue(a, v) + WithValue(b, v)
  {
    if a != [] {
      assert (a + b)[1..] == a[1..] + b;
      WithValueAppend(a[1..], b, v);
    } else {
      assert a + b == b;
    }
  }

  lemma {:induction false} InsertDescStable(x: Row, s: seq<Row>, v: nat)
    ensures WithValue(InsertDesc(x, s), v) == WithValue([x] + s, v)
  {
    if s != [] && x.value < s[0].value {
      var y, t := s[0], s[1..];
      var ins := InsertDesc(x, t);
      InsertDescStable(x, t, v);
      assert ([y] + ins)[0] == y && ([y] + ins)[1..] == ins;
      assert ([x] + t)[0] == x && ([x] + t)[1..] == t;
      assert ([x] + s)[0] == x && ([x] + s)[1..] == s;
      var wx := if x.value == v then [x] else [];
      var wy := if y.value == v then [y] else [];
      assert WithValue([y] + ins, v) == wy + (wx + WithValue(t, v));
      assert WithValue([x] + s, v) == wx + (wy + WithValue(t, v));
      assert wx == [] || wy == [];
    }
  }

  /** The sort is stable: rows of equal value keep their relative order. */
  lemma {:induction false} SortStable(rows: seq<Row>, v: nat)
    ensures WithValue(SortByValueDesc(rows), v) == WithValue(rows, v)
  {
    if rows != [] {
      SortStable(rows[1..], v);
      InsertDescStable(rows[0], SortByValueDesc(rows[1..]), v);
      WithValueAppend([rows[0]], SortByValueDesc(rows[1..]), v);
      WithValueAppend([rows[0]], rows[1..], v);
      assert rows == [rows[0]] + rows[1..];
    }
  }

  // ---------------------------------------------------------------- write_report

  /** The report of a list of rows: each distinct row once, highest value first, and rows of equal
      value in the order of their first occurrence. */
  function DistinctReport(rows: seq<Row>): string {
    ReportText(SortByValueDesc(Distinct(rows)))
  }

  /** The rows `DistinctReport` writes are sorted by value, highest first, hold every distinct row
      of `rows` exactly once and nothing else, and keep rows of equal value in first-occurrence
      order. */
  lemma DistinctReportRows(rows: seq<Row>)
    ensures SortedDesc(SortByValueDesc(Distinct(rows)))
    ensures forall x :: multiset(SortByValueDesc(Distinct(rows)))[x] == if x in rows then 1 else 0
    ensures forall v :: WithValue(SortByValueDesc(Distinct(rows)), v) == WithValue(Distinct(rows), v)
  {
    SortSortedPermutation(Distinct(rows));
    DistinctCount(rows);
    forall v ensures WithValue(SortByValueDesc(Distinct(rows)), v) == WithValue(Distinct(rows), v) {
      SortStable(Distinct(rows), v);
    }
  }

  /** `write_report`: deduplicate, sort, and write the header and one line per row. */
  method WriteReport(rows: seq<Row>) returns (text: string)
    ensures text == DistinctReport(rows)
  {
    var uniq := Distinct(rows);
    text := WriteRows(SortByValueDesc(uniq));
  }
}
