/**
 * Calendar dates and `parse_date`: find the first "2026 Feb 15"-shaped token in the
 * whitespace-collapsed text and turn it into a proleptic Gregorian date, or nothing.
 */
module Dates {
  import opened Wrappers
  import opened Text

  /** A `datetime.date` value; `IsValidDate` is the range check `datetime.date(...)` performs. */
  datatype Date = Date(year: int, month: int, day: int)

  predicate IsLeapYear(y: int) {
    y % 4 == 0 && (y % 100 != 0 || y % 400 == 0)
  }

  function DaysInMonth(y: int, m: int): (n: int)
    requires 1 <= m <= 12
    ensures 28 <= n <= 31
  {
    if m == 2 then (if IsLeapYear(y) then 29 else 28)
    else if m == 4 || m == 6 || m == 9 || m == 11 then 30
    else 31
  }

  /** MINYEAR..MAXYEAR, a month, and a day that exists in that month. */
  predicate IsValidDate(d: Date) {
    1 <= d.year <= 9999 && 1 <= d.month <= 12 && 1 <= d.day <= DaysInMonth(d.year, d.month)
  }

  /** `a < b` on dates: chronological, i.e. lexicographic on (year, month, day). */
  predicate Before(a: Date, b: Date) {
    a.year < b.year || (a.year == b.year && (a.month < b.month || (a.month == b.month && a.day < b.day)))
  }

  /** `d - timedelta(days=1)`; `None` where Python raises OverflowError (before 0001-01-01). */
  function PrevDay(d: Date): (r: Option<Date>)
    requires IsValidDate(d)
    ensures r.None? <==> d == Date(1, 1, 1)
    ensures r.Some? ==> IsValidDate(r.value) && Before(r.value, d)
    ensures r.Some? ==> forall x :: IsValidDate(x) && Before(r.value, x) ==> !Before(x, d)
  {
    if d.day > 1 then Some(Date(d.year, d.month, d.day - 1))
    else if d.month > 1 then Some(Date(d.year, d.month - 1, DaysInMonth(d.year, d.month - 1)))
    else if d.year > 1 then Some(Date(d.year - 1, 12, 31))
    else None
  }

  // ---------------------------------------------------------------- the date token, DATE_RE

  /** The three groups of a DATE_RE match: year digits, month letters, day digits. */
  datatype DateToken = DateToken(year: string, month: string, day: string)

  /** End of the whitespace run starting at `j`. */
  function SkipSpaces(t: string, j: nat): (k: nat)
    requires j <= |t|
    ensures j <= k <= |t| && AllSpace(t[j..k])
    ensures k < |t| ==> !IsSpace(t[k])
    decreases |t| - j
  {
    if j < |t| && IsSpace(t[j]) then
      var k := SkipSpaces(t, j + 1);
      assert t[j..k] == [t[j]] + t[j + 1..k];
      k
    else j
  }

  /** Length of the digit run starting at `j`. */
  function DigitRun(t: string, j: nat): (n: nat)
    requires j <= |t|
    ensures j + n <= |t| && AllDigits(t[j..j + n])
    ensures j + n < |t| ==> !IsDigit(t[j + n])
    decreases |t| - j
  {
    if j < |t| && IsDigit(t[j]) then
      var n := 1 + DigitRun(t, j + 1);
      assert t[j..j + n] == [t[j]] + t[j + 1..j + n];
      n
    else 0
  }

  /** The match of `\b(20\d{2})\s+([A-Za-z]{3})\s+(\d{1,2})\b` that starts at index `i`, if any.
      Each part has only one way to match: `\s+` must take the whole whitespace run (the next part
      starts with a non-space), and `\d{1,2}\b` needs a run of one or two digits that is followed by
      a non-word character or the end. */
  function DateTokenAt(t: string, i: nat): (r: Option<DateToken>)
    requires i <= |t|
    ensures r.Some? ==> |r.value.year| == 4 && AllDigits(r.value.year)
    ensures r.Some? ==> |r.value.month| == 3 && AllLetters(r.value.month)
    ensures r.Some? ==> 1 <= |r.value.day| <= 2 && AllDigits(r.value.day)
  {
    if i > 0 && IsWordChar(t[i - 1]) then None
    else if !(i + 4 <= |t| && t[i] == '2' && t[i + 1] == '0' && IsDigit(t[i + 2]) && IsDigit(t[i + 3])) then None
    else
      YearDigits(t, i);
      MonthDayAt(t, i, SkipSpaces(t, i + 4))
  }

  /** The rest of a match whose year is `t[i..i + 4]`, once `\s+` has taken the whitespace up
      to `k`: three letters, then `\s+`, then the day. */
  function MonthDayAt(t: string, i: nat, k: nat): (r: Option<DateToken>)
    requires i + 4 <= k <= |t|
    ensures r.Some? ==> r.value.year == t[i..i + 4] && k > i + 4
    ensures r.Some? ==> k + 3 <= |t| && r.value.month == t[k..k + 3] && AllLetters(r.value.month)
    ensures r.Some? ==> 1 <= |r.value.day| <= 2 && AllDigits(r.value.day)
  {
    if k == i + 4 || !(k + 3 <= |t| && AllLetters(t[k..k + 3])) then None
    else DayAt(t, i, k, SkipSpaces(t, k + 3))
  }

  /** The day of a match whose year and month are `t[i..i + 4]` and `t[k..k + 3]`, once `\s+`
      has taken the whitespace up to `l`: one or two digits ending at a word boundary. */
  function DayAt(t: string, i: nat, k: nat, l: nat): (r: Option<DateToken>)
    requires i + 4 <= k && k + 3 <= l <= |t|
    ensures r.Some? ==> r.value.year == t[i..i + 4] && r.value.month == t[k..k + 3] && l > k + 3
    ensures r.Some? ==> l + |r.value.day| <= |t| && r.value.day == t[l..l + |r.value.day|]
    ensures r.Some? ==> 1 <= |r.value.day| <= 2 && AllDigits(r.value.day)
  {
    if l == k + 3 then None
    else
      var n := DigitRun(t, l);
      if n < 1 || n > 2 || (l + n < |t| && IsWordChar(t[l + n])) then None
      else Some(DateToken(t[i..i + 4], t[k..k + 3], t[l..l + n]))
  }

  /** The four characters of a "20dd" year are digits. */
  lemma YearDigits(t: string, i: nat)
    requires i + 4 <= |t| && t[i] == '2' && t[i + 1] == '0' && IsDigit(t[i + 2]) && IsDigit(t[i + 3])
    ensures AllDigits(t[i..i + 4])
  {
    assert t[i..i + 4] == [t[i], t[i + 1], t[i + 2], t[i + 3]];
  }

  /** `DATE_RE.search(t)` from index `i` on: the position of the leftmost match. */
  function FindDateFrom(t: string, i: nat): (r: Option<nat>)
    requires i <= |t|
    ensures r.Some? ==> i <= r.value <= |t| && DateTokenAt(t, r.value).Some?
    ensures r.Some? ==> forall j :: i <= j < r.value ==> DateTokenAt(t, j).None?
    ensures r.None? ==> forall j :: i <= j <= |t| ==> DateTokenAt(t, j).None?
    decreases |t| - i
  {
    if DateTokenAt(t, i).Some? then Some(i)
    else if i == |t| then None
    else FindDateFrom(t, i + 1)
  }

  /** `DATE_RE.search(t)`: the groups of the leftmost match, if any. */
  function FindDate(t: string): (r: Option<DateToken>)
    ensures r.None? <==> forall j :: 0 <= j <= |t| ==> DateTokenAt(t, j).None?
    ensures r.Some? ==> exists j :: 0 <= j <= |t| && DateTokenAt(t, j) == r
  {
    match FindDateFrom(t, 0)
    case None => None
    case Some(p) => DateTokenAt(t, p)
  }

  // ---------------------------------------------------------------- month names

  const MonthAbbrevs: seq<string> :=
    ["jan", "feb", "mar", "apr", "may", "jun", "jul", "aug", "sep", "oct", "nov", "dec"]

  function MonthIndexFrom(mon: string, i: nat): (r: Option<int>)
    requires i <= 12
    ensures r.Some? ==> i <= r.value < 12 && MonthAbbrevs[r.value] == mon
    ensures r.None? ==> forall j :: i <= j < 12 ==> MonthAbbrevs[j] != mon
    decreases 12 - i
  {
    if i == 12 then None
    else if MonthAbbrevs[i] == mon then Some(i)
    else MonthIndexFrom(mon, i + 1)
  }

  /** `strptime(mon, "%b").month` with the English month abbreviations, which `strptime` matches
      ignoring case; `None` where it raises ValueError. */
  function MonthNumber(mon: string): (m: Option<int>)
    ensures m.Some? <==> Lower(mon) in MonthAbbrevs
    ensures m.Some? ==> 1 <= m.value <= 12 && MonthAbbrevs[m.value - 1] == Lower(mon)
  {
    match MonthIndexFrom(Lower(mon), 0)
    case None => None
    case Some(i) => Some(i + 1)
  }

  // ---------------------------------------------------------------- parse_date

  /** The date a DATE_RE match denotes, if `datetime.date(int(y), month, int(d))` accepts it. */
  function TokenDate(tok: DateToken): (r: Option<Date>)
    requires AllDigits(tok.year) && AllDigits(tok.day)
    ensures r.Some? ==> IsValidDate(r.value)
  {
    match MonthNumber(tok.month)
    case None => None
    case Some(m) =>
      var d := Date(DecimalValue(tok.year), m, DecimalValue(tok.day));
      if IsValidDate(d) then Some(d) else None
  }

  /** `parse_date(text)`: only the first DATE_RE match of the collapsed text is looked at. */
  function ParseDate(text: string): (r: Option<Date>)
    ensures r.Some? ==> IsValidDate(r.value)
    ensures FindDate(Collapse(text)).None? ==> r.None?
  {
    match FindDate(Collapse(text))
    case None => None
    case Some(tok) => TokenDate(tok)
  }

  // ---------------------------------------------------------------- what parse_date reads

  /** The date a well-formed "YYYY Mon D" token denotes: the month is looked up ignoring case, and a
      day that does not exist in that month (including day 0) gives nothing. */
  function DateOfParts(y: int, mon: string, day: nat): Option<Date> {
    match MonthNumber(mon)
    case None => None
    case Some(m) => if IsValidDate(Date(y, m, day)) then Some(Date(y, m, day)) else None
  }

  lemma YearNumeral(y: int)
    requires 2000 <= y <= 2099
    ensures |NatToDecimal(y)| == 4 && NatToDecimal(y)[0] == '2' && NatToDecimal(y)[1] == '0'
  {
    assert NatToDecimal(y) == NatToDecimal(y / 10) + [DigitChar(y % 10)];
    assert NatToDecimal(y / 10) == NatToDecimal(y / 100) + [DigitChar((y / 10) % 10)];
    assert y / 100 == 20;
    assert NatToDecimal(20) == NatToDecimal(2) + [DigitChar(0)];
  }

  /** The words of "YYYY Mon D" surrounded and split by arbitrary whitespace. */
  lemma {:induction false} WordsOfDateText(ws0: string, y: string, ws1: string, mon: string, ws2: string,
                                           day: string, ws3: string, rest: string)
    requires AllSpace(ws0) && AllSpace(ws1) && AllSpace(ws2) && AllSpace(ws3)
    requires ws1 != [] && ws2 != [] && (ws3 != [] || rest == [])
    requires y != [] && NoSpace(y) && mon != [] && NoSpace(mon) && day != [] && NoSpace(day)
    ensures Words(ws0 + y + ws1 + mon + ws2 + day + ws3 + rest) == [y, mon, day] + Words(ws3 + rest)
  {
    var r3 := ws3 + rest;
    var r2 := ws2 + day + r3;
    var r1 := ws1 + mon + r2;
    calc {
      ws0 + y + ws1 + mon + ws2 + day + ws3 + rest;
      { Assoc(ws0 + y + ws1 + mon + ws2 + day, ws3, rest); }
      ws0 + y + ws1 + mon + ws2 + day + r3;
      { Assoc(ws0 + y + ws1 + mon + ws2, day, r3); }
      ws0 + y + ws1 + mon + ws2 + (day + r3);
      { Assoc(ws0 + y + ws1 + mon, ws2, day + r3); Assoc(ws2, day, r3); }
      ws0 + y + ws1 + mon + r2;
      { Assoc(ws0 + y + ws1, mon, r2); }
      ws0 + y + ws1 + (mon + r2);
      { Assoc(ws0 + y, ws1, mon + r2); Assoc(ws1, mon, r2); }
      ws0 + y + r1;
    }
    WordsCons(ws0, y, r1);
    WordsCons(ws1, mon, r2);
    WordsCons(ws2, day, r3);
  }

  /** Joining three words and then some more. */
  lemma JoinThree(y: string, mon: string, day: string, w: seq<string>) returns (tail: string)
    ensures tail == [] || tail[0] == ' '
    ensures Join(" ", [y, mon, day] + w) == y + " " + mon + " " + day + tail
  {
    var all := [y, mon, day] + w;
    tail := if w == [] then "" else " " + Join(" ", w);
    assert all[1..] == [mon, day] + w;
    assert ([mon, day] + w)[1..] == [day] + w;
    assert ([day] + w)[1..] == w;
    assert Join(" ", [day] + w) == day + tail;
    assert Join(" ", [mon, day] + w) == mon + " " + day + tail;
    assert Join(" ", all) == y + " " + (mon + " " + day + tail);
  }

  /** A run of `n` digits that is not followed by another digit is the digit run there. */
  lemma {:induction false} DigitRunOf(t: string, j: nat, n: nat)
    requires j + n <= |t| && AllDigits(t[j..j + n]) && (j + n == |t| || !IsDigit(t[j + n]))
    ensures DigitRun(t, j) == n
    decreases n
  {
    if n > 0 {
      assert t[j..j + n][0] == t[j];
      assert t[j + 1..j + 1 + (n - 1)] == t[j..j + n][1..];
      DigitRunOf(t, j + 1, n - 1);
    }
  }

  /** Where the parts of "YYYY Mon D..." sit after a text `c`. */
  lemma DateTextLayout(c: string, ys: string, mon: string, ds: string, tail: string)
    requires |ys| == 4 && |mon| == 3 && 1 <= |ds| <= 2
    ensures var t, i := c + ys + " " + mon + " " + ds + tail, |c|;
            |t| == i + 9 + |ds| + |tail| && (i > 0 ==> t[i - 1] == c[i - 1]) &&
            t[i..i + 4] == ys && t[i] == ys[0] && t[i + 1] == ys[1] && t[i + 2] == ys[2] && t[i + 3] == ys[3] &&
            t[i + 4] == ' ' && t[i + 5..i + 8] == mon && t[i + 5] == mon[0] && t[i + 8] == ' ' &&
            t[i + 9..i + 9 + |ds|] == ds && t[i + 9] == ds[0] &&
            (i + 9 + |ds| < |t| ==> t[i + 9 + |ds|] == tail[0])
  {
    var t := c + ys + " " + mon + " " + ds + tail;
    assert t == c + ys + [' '] + mon + [' '] + ds + tail;
  }

  /** Text laid out from index `i` as "20dd", one space, three letters, one space, a run of `n`
      digits and then a non-word character or the end, after a non-word character or the start,
      has a DATE_RE match at `i`. */
  lemma DateTokenAtLaidOut(t: string, i: nat, n: nat)
    requires 1 <= n <= 2 && i + 9 + n <= |t|
    requires i == 0 || !IsWordChar(t[i - 1])
    requires t[i] == '2' && t[i + 1] == '0' && IsDigit(t[i + 2]) && IsDigit(t[i + 3])
    requires t[i + 4] == ' ' && !IsSpace(t[i + 5]) && AllLetters(t[i + 5..i + 8])
    requires t[i + 8] == ' ' && !IsSpace(t[i + 9]) && AllDigits(t[i + 9..i + 9 + n])
    requires i + 9 + n == |t| || !IsWordChar(t[i + 9 + n])
    ensures DateTokenAt(t, i) == Some(DateToken(t[i..i + 4], t[i + 5..i + 8], t[i + 9..i + 9 + n]))
  {
    SkipOneSpace(t, i + 4);
    SkipOneSpace(t, i + 8);
    DigitRunOf(t, i + 9, n);
    DateTokenAtIs(t, i, i + 5, i + 9, n);
  }

  /** `DayAt` when its tests pass, with the digit run it measures. */
  lemma DayAtIs(t: string, i: nat, k: nat, l: nat, n: nat)
    requires i + 4 <= k && k + 3 < l <= |t|
    requires n == DigitRun(t, l) && 1 <= n <= 2 && !(l + n < |t| && IsWordChar(t[l + n]))
    ensures DayAt(t, i, k, l) == Some(DateToken(t[i..i + 4], t[k..k + 3], t[l..l + n]))
  {
  }

  /** `MonthDayAt` when its tests and those of `DayAt` pass. */
  lemma MonthDayAtIs(t: string, i: nat, k: nat, l: nat, n: nat)
    requires i + 4 < k && k + 3 <= |t| && AllLetters(t[k..k + 3])
    requires l == SkipSpaces(t, k + 3) && l != k + 3
    requires n == DigitRun(t, l) && 1 <= n <= 2 && !(l + n < |t| && IsWordChar(t[l + n]))
    ensures MonthDayAt(t, i, k) == Some(DateToken(t[i..i + 4], t[k..k + 3], t[l..l + n]))
  {
    DayAtIs(t, i, k, l, n);
  }

  /** `DateTokenAt` when every test of its body passes, with the positions it computes. */
  lemma DateTokenAtIs(t: string, i: nat, k: nat, l: nat, n: nat)
    requires i + 4 <= |t| && !(i > 0 && IsWordChar(t[i - 1]))
    requires t[i] == '2' && t[i + 1] == '0' && IsDigit(t[i + 2]) && IsDigit(t[i + 3])
    requires k == SkipSpaces(t, i + 4) && k != i + 4 && k + 3 <= |t| && AllLetters(t[k..k + 3])
    requires l == SkipSpaces(t, k + 3) && l != k + 3
    requires n == DigitRun(t, l) && 1 <= n <= 2 && !(l + n < |t| && IsWordChar(t[l + n]))
    ensures DateTokenAt(t, i) == Some(DateToken(t[i..i + 4], t[k..k + 3], t[l..l + n]))
  {
    MonthDayAtIs(t, i, k, l, n);
  }

  /** A single whitespace character before a non-space is the whole run. */
  lemma SkipOneSpace(t: string, j: nat)
    requires j + 1 < |t| && IsSpace(t[j]) && !IsSpace(t[j + 1])
    ensures SkipSpaces(t, j) == j + 1
  {
  }

  /** Collapsed "YYYY Mon D..." text, after text `c` ending in a non-word character, has a
      DATE_RE match right after `c`: that very token. */
  lemma DateTokenAtAfter(c: string, ys: string, mon: string, ds: string, tail: string)
    requires |ys| == 4 && ys[0] == '2' && ys[1] == '0' && AllDigits(ys)
    requires |mon| == 3 && AllLetters(mon)
    requires 1 <= |ds| <= 2 && AllDigits(ds)
    requires c == [] || !IsWordChar(c[|c| - 1])
    requires tail == [] || !IsWordChar(tail[0])
    ensures DateTokenAt(c + ys + " " + mon + " " + ds + tail, |c|) == Some(DateToken(ys, mon, ds))
  {
    var t, i := c + ys + " " + mon + " " + ds + tail, |c|;
    DateTextLayout(c, ys, mon, ds, tail);
    assert IsDigit(t[i + 2]) && IsDigit(t[i + 3]) by {
      assert IsDigit(ys[2]) && IsDigit(ys[3]);
    }
    DateTokenAtLaidOut(t, i, |ds|);
  }

  /** No DATE_RE match starts at a character that is not a digit. */
  lemma NoTokenAt(t: string, j: nat)
    requires j < |t| && !IsDigit(t[j])
    ensures DateTokenAt(t, j).None?
  {
  }

  /** The search passes over text without digits. */
  lemma {:induction false} FindDateSkip(t: string, i: nat, j: nat)
    requires i <= j <= |t|
    requires forall k :: i <= k < j ==> !IsDigit(t[k])
    ensures FindDateFrom(t, i) == FindDateFrom(t, j)
    decreases j - i
  {
    if i < j {
      NoTokenAt(t, i);
      FindDateSkip(t, i + 1, j);
    }
  }

  /** The first DATE_RE match of collapsed "YYYY Mon D..." text after digit-free text `c`
      ending in a non-word character is that very token. */
  lemma FindDateAfter(c: string, ys: string, mon: string, ds: string, tail: string)
    requires NoDigits(c) && (c == [] || !IsWordChar(c[|c| - 1]))
    requires |ys| == 4 && ys[0] == '2' && ys[1] == '0' && AllDigits(ys)
    requires |mon| == 3 && AllLetters(mon)
    requires 1 <= |ds| <= 2 && AllDigits(ds)
    requires tail == [] || !IsWordChar(tail[0])
    ensures FindDate(c + ys + " " + mon + " " + ds + tail) == Some(DateToken(ys, mon, ds))
  {
    var t := c + ys + " " + mon + " " + ds + tail;
    assert forall k :: 0 <= k < |c| ==> t[k] == c[k];
    FindDateSkip(t, 0, |c|);
    DateTokenAtAfter(c, ys, mon, ds, tail);
    assert FindDateFrom(t, |c|) == Some(|c|);
  }

  /** The first DATE_RE match of collapsed "YYYY Mon D..." text is that very token. */
  lemma DateTokenOfCollapsed(ys: string, mon: string, ds: string, tail: string)
    requires |ys| == 4 && ys[0] == '2' && ys[1] == '0' && AllDigits(ys)
    requires |mon| == 3 && AllLetters(mon)
    requires 1 <= |ds| <= 2 && AllDigits(ds)
    requires tail == [] || tail[0] == ' '
    ensures FindDate(ys + " " + mon + " " + ds + tail) == Some(DateToken(ys, mon, ds))
  {
    var t := ys + " " + mon + " " + ds + tail;
    assert "" + ys + " " + mon + " " + ds + tail == t;
    FindDateAfter("", ys, mon, ds, tail);
  }

  /** On text of the shape "YYYY Mon D" (whitespace anywhere between and around the parts, anything
      after it), `parse_date` returns exactly that date, reading the month case-insensitively; an
      unknown month or an impossible day gives nothing, whatever dates follow. */
  lemma {:induction false} ParseDateOfDateText(ws0: string, y: int, ws1: string, mon: string, ws2: string,
                                               day: nat, ws3: string, rest: string)
    requires AllSpace(ws0) && AllSpace(ws1) && AllSpace(ws2) && AllSpace(ws3)
    requires ws1 != [] && ws2 != [] && (ws3 != [] || rest == [])
    requires 2000 <= y <= 2099 && day < 100
    requires |mon| == 3 && AllLetters(mon)
    ensures ParseDate(ws0 + NatToDecimal(y) + ws1 + mon + ws2 + NatToDecimal(day) + ws3 + rest)
            == DateOfParts(y, mon, day)
  {
    var ys, ds := NatToDecimal(y), NatToDecimal(day);
    YearNumeral(y);
    DecimalLength(day);
    WordsOfDateText(ws0, ys, ws1, mon, ws2, ds, ws3, rest);
    var tail := JoinThree(ys, mon, ds, Words(ws3 + rest));
    var text := ws0 + ys + ws1 + mon + ws2 + ds + ws3 + rest;
    var collapsed := ys + " " + mon + " " + ds + tail;
    assert Collapse(text) == collapsed;
    DateTokenOfCollapsed(ys, mon, ds, tail);
    assert ParseDate(text) == TokenDate(DateToken(ys, mon, ds));
    TokenDateOfNumerals(y, mon, day);
  }

  /** A token written with the decimal numerals of a year and a day reads back as those numbers. */
  lemma TokenDateOfNumerals(y: nat, mon: string, day: nat)
    requires AllDigits(NatToDecimal(y)) && AllDigits(NatToDecimal(day))
    ensures TokenDate(DateToken(NatToDecimal(y), mon, NatToDecimal(day))) == DateOfParts(y, mon, day)
  {
    DecimalRoundTrip(y);
    DecimalRoundTrip(day);
  }

  /** Punctuation glued to a day, then collapsed text that starts with a space (or nothing),
      still starts with a non-word character (or is empty). */
  lemma GlueTail(p: string, t: string)
    requires p == [] || !IsWordChar(p[0])
    requires t == [] || t[0] == ' '
    ensures p + t == [] || !IsWordChar((p + t)[0])
  {
    if p == [] {
      assert p + t == t;
    } else {
      assert (p + t)[0] == p[0];
    }
  }

  /** Collapsing digit-free text that ends in whitespace (or is empty), followed by
      "YYYY Mon D" and punctuation glued to the day: digit-free text ending in a space (or
      nothing), then the collapsed date, then text that starts with a non-word character. */
  lemma CollapseAroundDate(pre: string, ys: string, ws1: string, mon: string, ws2: string,
                           ds: string, p: string, ws3: string, rest: string)
    returns (c: string, tail: string)
    requires NoDigits(pre) && (pre == [] || IsSpace(pre[|pre| - 1]))
    requires ys != [] && NoSpace(ys) && mon != [] && NoSpace(mon) && ds != [] && NoSpace(ds + p)
    requires AllSpace(ws1) && ws1 != [] && AllSpace(ws2) && ws2 != []
    requires AllSpace(ws3) && (ws3 != [] || rest == [])
    requires p == [] || !IsWordChar(p[0])
    ensures NoDigits(c) && (c == [] || c[|c| - 1] == ' ')
    ensures tail == [] || !IsWordChar(tail[0])
    ensures Collapse(pre + (ys + ws1 + mon + ws2 + (ds + p) + ws3 + rest))
            == c + (ys + " " + mon + " " + ds + tail)
  {
    var dp := ds + p;
    var d := ys + ws1 + mon + ws2 + dp + ws3 + rest;
    assert "" + ys == ys;
    WordsOfDateText("", ys, ws1, mon, ws2, dp, ws3, rest);
    WordsAppend(pre, d);
    var w3 := Words(ws3 + rest);
    var t3 := JoinThree(ys, mon, dp, w3);
    var x := [ys, mon, dp] + w3;
    var front := ys + " " + mon + " ";
    var j := front + dp + t3;
    tail := p + t3;
    Assoc(front, ds, p);
    Assoc(front + ds, p, t3);
    assert j == front + ds + tail;
    GlueTail(p, t3);
    var w := Words(pre);
    assert Collapse(pre + d) == Join(" ", w + x);
    if w == [] {
      c := "";
      assert w + x == x;
      assert c + j == j;
    } else {
      JoinAppend(w, x);
      c := Collapse(pre) + " ";
      CollapseNoDigits(pre);
      NoDigitsAppend(Collapse(pre), " ");
    }
  }

  /** `parse_date` finds the date after any text without digits, such as a title line or a
      weekday name: on "YYYY Mon D" (whitespace of any kind and length between the parts, a day of
      one or two digits, leading zero allowed, punctuation such as a comma right after it), it
      returns that date, reading the month case-insensitively; an unknown month or an impossible
      day gives nothing, whatever dates follow. */
  lemma ParseDateInText(pre: string, ys: string, ws1: string, mon: string, ws2: string,
                        ds: string, p: string, ws3: string, rest: string)
    requires NoDigits(pre) && (pre == [] || IsSpace(pre[|pre| - 1]))
    requires |ys| == 4 && ys[0] == '2' && ys[1] == '0' && AllDigits(ys)
    requires AllSpace(ws1) && ws1 != [] && AllSpace(ws2) && ws2 != []
    requires |mon| == 3 && AllLetters(mon)
    requires 1 <= |ds| <= 2 && AllDigits(ds)
    requires NoSpace(p) && (p == [] || !IsWordChar(p[0]))
    requires AllSpace(ws3) && (ws3 != [] || rest == [])
    ensures ParseDate(pre + (ys + ws1 + mon + ws2 + (ds + p) + ws3 + rest))
            == DateOfParts(DecimalValue(ys), mon, DecimalValue(ds))
  {
    assert NoSpace(ds + p) by {
      forall k | 0 <= k < |ds + p| ensures !IsSpace((ds + p)[k]) {
        if k < |ds| { assert (ds + p)[k] == ds[k]; } else { assert (ds + p)[k] == p[k - |ds|]; }
      }
    }
    var c, tail := CollapseAroundDate(pre, ys, ws1, mon, ws2, ds, p, ws3, rest);
    var p1 := ys + " ";
    var p2 := p1 + mon;
    var p3 := p2 + " ";
    var p4 := p3 + ds;
    Assoc(c, p4, tail);
    Assoc(c, p3, ds);
    Assoc(c, p2, " ");
    Assoc(c, p1, mon);
    Assoc(c, ys, " ");
    FindDateAfter(c, ys, mon, ds, tail);
    var text := pre + (ys + ws1 + mon + ws2 + (ds + p) + ws3 + rest);
    assert ParseDate(text) == TokenDate(DateToken(ys, mon, ds));
  }

  /** Text that is exactly "YYYY Mon D" parses to that date (when it exists). */
  lemma ParseDateOfExactText(y: int, mon: string, day: nat)
    requires 2000 <= y <= 2099 && day < 100 && |mon| == 3 && AllLetters(mon)
    ensures ParseDate(NatToDecimal(y) + " " + mon + " " + NatToDecimal(day)) == DateOfParts(y, mon, day)
  {
    ParseDateOfDateText("", y, " ", mon, " ", day, "", "");
    assert "" + NatToDecimal(y) == NatToDecimal(y);
    assert NatToDecimal(y) + " " + mon + " " + NatToDecimal(day) + "" + ""
        == NatToDecimal(y) + " " + mon + " " + NatToDecimal(day);
  }

  /** Only the first date token counts: an impossible first date hides a valid later one. */
  lemma FirstTokenOnly(y: int, mon: string, day: nat, y2: int, mon2: string, day2: nat)
    requires 2000 <= y <= 2099 && day < 100 && |mon| == 3 && AllLetters(mon)
    requires 2000 <= y2 <= 2099 && day2 < 100 && |mon2| == 3 && AllLetters(mon2)
    requires DateOfParts(y, mon, day).None?
    ensures var later := NatToDecimal(y2) + " " + mon2 + " " + NatToDecimal(day2);
            ParseDate(NatToDecimal(y) + " " + mon + " " + NatToDecimal(day) + " " + later) == None &&
            ParseDate(later) == DateOfParts(y2, mon2, day2)
  {
    var later := NatToDecimal(y2) + " " + mon2 + " " + NatToDecimal(day2);
    ParseDateOfDateText("", y, " ", mon, " ", day, " ", later);
    assert "" + NatToDecimal(y) == NatToDecimal(y);
    ParseDateOfExactText(y2, mon2, day2);
  }
}
