/**
 * Character classes and the handful of Python `str` operations the scrapers use:
 * `split()` / `" ".join(...)` (whitespace collapsing), `strip()`, `startswith`,
 * `in`, `split(sep, 1)`, `rstrip("/")`, `lower()` and `splitlines()`.
 */
module Text {
  import opened Wrappers

  /** Python's `str.isspace()`, which is also what `str.split()`, `str.strip()` and the regex
      class `\s` treat as whitespace. */
  predicate IsSpace(c: char) {
    c == ' ' || ('\t' <= c <= '\r') || ('\U{1c}' <= c <= '\U{1f}') || c == '\U{85}' || c == '\U{a0}'
    || c == '\U{1680}' || ('\U{2000}' <= c <= '\U{200a}') || c == '\U{2028}' || c == '\U{2029}'
    || c == '\U{202f}' || c == '\U{205f}' || c == '\U{3000}'
  }

  /** The characters `str.splitlines()` breaks at. */
  predicate IsLineBreak(c: char) {
    ('\n' <= c <= '\r') || ('\U{1c}' <= c <= '\U{1e}') || c == '\U{85}' || c == '\U{2028}' || c == '\U{2029}'
  }

  predicate IsDigit(c: char) { '0' <= c <= '9' }
  predicate IsLetter(c: char) { 'a' <= c <= 'z' || 'A' <= c <= 'Z' }
  predicate IsAlnum(c: char) { IsLetter(c) || IsDigit(c) }
  /** The regex class `\w`, restricted to ASCII. */
  predicate IsWordChar(c: char) { IsAlnum(c) || c == '_' }

  predicate AllSpace(s: string) { forall i :: 0 <= i < |s| ==> IsSpace(s[i]) }
  predicate NoSpace(s: string) { forall i :: 0 <= i < |s| ==> !IsSpace(s[i]) }
  predicate AllDigits(s: string) { forall i :: 0 <= i < |s| ==> IsDigit(s[i]) }
  predicate AllAlnum(s: string) { forall i :: 0 <= i < |s| ==> IsAlnum(s[i]) }
  predicate AllLetters(s: string) { forall i :: 0 <= i < |s| ==> IsLetter(s[i]) }

  function LowerChar(c: char): (d: char)
    ensures IsLetter(c) ==> 'a' <= d <= 'z'
    ensures !('A' <= c <= 'Z') ==> d == c
  {
    if 'A' <= c <= 'Z' then (c as int - 'A' as int + 'a' as int) as char else c
  }

  /** `s.lower()` on ASCII text. */
  function Lower(s: string): (r: string)
    ensures |r| == |s|
    ensures forall i :: 0 <= i < |s| ==> r[i] == LowerChar(s[i])
  {
    if s == [] then [] else [LowerChar(s[0])] + Lower(s[1..])
  }

  // ---------------------------------------------------------------- strip()

  /** `s.strip()`: drop leading and trailing whitespace. */
  function Strip(s: string): (r: string)
    ensures |r| <= |s|
    ensures r == [] <==> AllSpace(s)
    ensures r != [] ==> !IsSpace(r[0]) && !IsSpace(r[|r| - 1])
    decreases |s|
  {
    if s == [] then []
    else if IsSpace(s[0]) then
      assert AllSpace(s) <==> AllSpace(s[1..]) by {
        assert forall i :: 0 < i < |s| ==> s[i] == s[1..][i - 1];
      }
      Strip(s[1..])
    else if IsSpace(s[|s| - 1]) then
      assert !AllSpace(s) && !AllSpace(s[..|s| - 1]);
      Strip(s[..|s| - 1])
    else s
  }

  /** `r` sits at index `i` of `s`, with only whitespace before and after it. */
  predicate SpacedSlice(s: string, r: string, i: nat) {
    i + |r| <= |s| && s[i..i + |r|] == r &&
    (forall k :: 0 <= k < i ==> IsSpace(s[k])) && (forall k :: i + |r| <= k < |s| ==> IsSpace(s[k]))
  }

  /** A leading space moves the slice one place right. */
  lemma SpacedSliceLead(s: string, r: string, j: nat)
    requires s != [] && IsSpace(s[0]) && SpacedSlice(s[1..], r, j)
    ensures SpacedSlice(s, r, j + 1)
  {
    var t := s[1..];
    assert t[j..j + |r|] == s[j + 1..j + 1 + |r|];
    forall k | 0 <= k < j + 1 ensures IsSpace(s[k]) {
      if k > 0 { assert s[k] == t[k - 1]; }
    }
    forall k | j + 1 + |r| <= k < |s| ensures IsSpace(s[k]) {
      assert s[k] == t[k - 1];
    }
  }

  /** A trailing space leaves the slice where it is. */
  lemma SpacedSliceTrail(s: string, r: string, i: nat)
    requires s != [] && IsSpace(s[|s| - 1]) && SpacedSlice(s[..|s| - 1], r, i)
    ensures SpacedSlice(s, r, i)
  {
    var t := s[..|s| - 1];
    assert t[i..i + |r|] == s[i..i + |r|];
    forall k | 0 <= k < i ensures IsSpace(s[k]) {
      assert s[k] == t[k];
    }
    forall k | i + |r| <= k < |s| ensures IsSpace(s[k]) {
      if k < |t| { assert s[k] == t[k]; }
    }
  }

  /** What `strip()` keeps is a slice of `s` with only whitespace before and after it. */
  lemma {:induction false} StripSlice(s: string) returns (i: nat)
    ensures SpacedSlice(s, Strip(s), i)
    decreases |s|
  {
    if s == [] {
      i := 0;
    } else if IsSpace(s[0]) {
      assert Strip(s) == Strip(s[1..]);
      var j := StripSlice(s[1..]);
      SpacedSliceLead(s, Strip(s), j);
      i := j + 1;
    } else if IsSpace(s[|s| - 1]) {
      assert Strip(s) == Strip(s[..|s| - 1]);
      i := StripSlice(s[..|s| - 1]);
      SpacedSliceTrail(s, Strip(s), i);
    } else {
      assert Strip(s) == s;
      i := 0;
    }
  }

  // ---------------------------------------------------------------- split() and " ".join(...)

  /** Length of the leading run of non-whitespace characters. */
  function WordLen(s: string): (n: nat)
    ensures n <= |s| && NoSpace(s[..n])
    ensures n < |s| ==> IsSpace(s[n])
  {
    if s == [] || IsSpace(s[0]) then 0
    else
      var n := 1 + WordLen(s[1..]);
      assert s[..n] == [s[0]] + s[1..][..n - 1];
      n
  }

  /** `s.split()`: the maximal runs of non-whitespace characters, in order. */
  function Words(s: string): (ws: seq<string>)
    decreases |s|
  {
    if s == [] then []
    else if IsSpace(s[0]) then Words(s[1..])
    else
      var n := WordLen(s);
      [s[..n]] + Words(s[n..])
  }

  /** `sep.join(ws)`. */
  function Join(sep: string, ws: seq<string>): string {
    if |ws| == 0 then ""
    else if |ws| == 1 then ws[0]
    else ws[0] + sep + Join(sep, ws[1..])
  }

  /** A word followed by whitespace (or nothing) is read as a whole. */
  lemma {:induction false} WordLenOfWord(w: string, rest: string)
    requires NoSpace(w)
    requires rest == [] || IsSpace(rest[0])
    ensures WordLen(w + rest) == |w|
    decreases |w|
  {
    if w != [] {
      assert (w + rest)[1..] == w[1..] + rest;
      WordLenOfWord(w[1..], rest);
    }
  }

  /** Text of only whitespace holds no words. */
  lemma {:induction false} WordsOfSpace(ws: string)
    requires AllSpace(ws)
    ensures Words(ws) == []
    decreases |ws|
  {
    if ws != [] { WordsOfSpace(ws[1..]); }
  }

  /** Leading whitespace is skipped and the first word is split off whole. */
  lemma {:induction false} WordsCons(ws: string, w: string, rest: string)
    requires AllSpace(ws) && w != [] && NoSpace(w)
    requires rest == [] || IsSpace(rest[0])
    ensures Words(ws + w + rest) == [w] + Words(rest)
    decreases |ws|
  {
    if ws == [] {
      assert ws + w + rest == w + rest;
      WordLenOfWord(w, rest);
      assert (w + rest)[..|w|] == w;
      assert (w + rest)[|w|..] == rest;
    } else {
      assert (ws + w + rest)[1..] == ws[1..] + w + rest;
      WordsCons(ws[1..], w, rest);
    }
  }

  /** `" ".join(s.split())`: every whitespace run becomes one space, ends trimmed. */
  function Collapse(s: string): string {
    Join(" ", Words(s))
  }

  /** A word that ends inside `a` ends at the same place in `a + b`. */
  lemma {:induction false} WordLenAppend(a: string, b: string)
    requires WordLen(a) < |a|
    ensures WordLen(a + b) == WordLen(a)
    decreases |a|
  {
    if !IsSpace(a[0]) {
      assert (a + b)[1..] == a[1..] + b;
      WordLenAppend(a[1..], b);
    }
  }

  /** Text that ends in whitespace splits apart from whatever follows it. */
  lemma {:induction false} WordsAppend(a: string, b: string)
    requires a == [] || IsSpace(a[|a| - 1])
    ensures Words(a + b) == Words(a) + Words(b)
    decreases |a|
  {
    if a == [] {
      assert a + b == b;
    } else if IsSpace(a[0]) {
      assert (a + b)[1..] == a[1..] + b;
      WordsAppend(a[1..], b);
    } else {
      var n := WordLen(a);
      assert n < |a|;
      WordLenAppend(a, b);
      var t := a + b;
      assert t[..n] == a[..n];
      assert t[n..] == a[n..] + b;
      WordsAppend(a[n..], b);
      assert Words(t) == [a[..n]] + Words(t[n..]);
      assert Words(a) == [a[..n]] + Words(a[n..]);
    }
  }

  /** Joining two non-empty lists of words puts one separator between them. */
  lemma {:induction false} JoinAppend(w: seq<string>, v: seq<string>)
    requires w != [] && v != []
    ensures Join(" ", w + v) == Join(" ", w) + " " + Join(" ", v)
    decreases |w|
  {
    assert (w + v)[0] == w[0];
    if |w| == 1 {
      assert (w + v)[1..] == v;
    } else {
      assert (w + v)[1..] == w[1..] + v;
      JoinAppend(w[1..], v);
    }
  }

  predicate NoDigits(s: string) { forall i :: 0 <= i < |s| ==> !IsDigit(s[i]) }

  lemma NoDigitsAppend(a: string, b: string)
    requires NoDigits(a) && NoDigits(b)
    ensures NoDigits(a + b)
  {
    forall k | 0 <= k < |a + b| ensures !IsDigit((a + b)[k]) {
      if k < |a| { assert (a + b)[k] == a[k]; } else { assert (a + b)[k] == b[k - |a|]; }
    }
  }

  /** The words of text without digits have no digits. */
  lemma {:induction false} WordsNoDigits(s: string)
    requires NoDigits(s)
    ensures forall w :: w in Words(s) ==> NoDigits(w)
    decreases |s|
  {
    if s != [] {
      if IsSpace(s[0]) {
        WordsNoDigits(s[1..]);
      } else {
        var n := WordLen(s);
        WordsNoDigits(s[n..]);
        assert NoDigits(s[..n]);
      }
    }
  }

  /** Joining words without digits gives text without digits. */
  lemma {:induction false} JoinNoDigits(ws: seq<string>)
    requires forall w :: w in ws ==> NoDigits(w)
    ensures NoDigits(Join(" ", ws))
    decreases |ws|
  {
    if |ws| > 1 {
      assert ws[0] in ws;
      assert forall w :: w in ws[1..] ==> w in ws;
      JoinNoDigits(ws[1..]);
      NoDigitsAppend(ws[0], " ");
      NoDigitsAppend(ws[0] + " ", Join(" ", ws[1..]));
    } else if |ws| == 1 {
      assert ws[0] in ws;
    }
  }

  /** Collapsing whitespace brings in no digits. */
  lemma CollapseNoDigits(s: string)
    requires NoDigits(s)
    ensures NoDigits(Collapse(s))
  {
    WordsNoDigits(s);
    JoinNoDigits(Words(s));
  }

  /** Concatenation regroups freely. */
  lemma Assoc<T>(a: seq<T>, b: seq<T>, c: seq<T>)
    ensures a + b + c == a + (b + c)
  {
  }

  // ---------------------------------------------------------------- searching and cutting

  predicate StartsWith(s: string, p: string) {
    |p| <= |s| && s[..|p|] == p
  }

  /** Python's `p in s` for strings. */
  predicate Contains(s: string, p: string)
    decreases |s|
  {
    StartsWith(s, p) || (s != [] && Contains(s[1..], p))
  }

  /** `p` occurs in `s` at index `j`. */
  predicate OccursAt(s: string, p: string, j: nat) {
    j + |p| <= |s| && s[j..j + |p|] == p
  }

  lemma OccursAtTail(s: string, p: string, j: nat)
    requires s != []
    ensures OccursAt(s, p, j + 1) == OccursAt(s[1..], p, j)
  {
    if j + 1 + |p| <= |s| { assert s[j + 1..j + 1 + |p|] == s[1..][j..j + |p|]; }
  }

  /** Index of the first occurrence of `p` in `s`, if any. */
  function Find(s: string, p: string): (r: Option<nat>)
    ensures r.Some? ==> OccursAt(s, p, r.value)
    ensures r.Some? ==> forall j :: 0 <= j < r.value ==> !OccursAt(s, p, j)
    ensures r.None? ==> forall j :: 0 <= j ==> !OccursAt(s, p, j)
    decreases |s|
  {
    if StartsWith(s, p) then Some(0)
    else if s == [] then None
    else
      assert !OccursAt(s, p, 0);
      match Find(s[1..], p)
      case None =>
        assert forall j :: 1 <= j ==> !OccursAt(s, p, j) by {
          forall j | 1 <= j ensures !OccursAt(s, p, j) { OccursAtTail(s, p, j - 1); }
        }
        None
      case Some(k) =>
        OccursAtTail(s, p, k);
        assert forall j :: 1 <= j <= k ==> !OccursAt(s, p, j) by {
          forall j | 1 <= j <= k ensures !OccursAt(s, p, j) { OccursAtTail(s, p, j - 1); }
        }
        Some(k + 1)
  }

  /** `s.split(p, 1)[0]`: the text before the first `p` (all of `s` when there is none). */
  function Before(s: string, p: string): (r: string)
    ensures StartsWith(s, r)
    ensures forall j :: 0 <= j < |r| ==> !OccursAt(s, p, j)
    ensures |r| < |s| ==> OccursAt(s, p, |r|)
  {
    match Find(s, p)
    case None => s
    case Some(k) => s[..k]
  }

  /** `s.split(p, 1)[1]`: the text after the first `p`; `None` where Python raises IndexError. */
  function After(s: string, p: string): (r: Option<string>)
    ensures r.None? <==> forall j :: 0 <= j ==> !OccursAt(s, p, j)
    ensures r.Some? ==> |r.value| + |p| <= |s| && s[|s| - |r.value|..] == r.value
    ensures r.Some? ==> OccursAt(s, p, |s| - |r.value| - |p|)
    ensures r.Some? ==> forall j :: 0 <= j < |s| - |r.value| - |p| ==> !OccursAt(s, p, j)
  {
    match Find(s, p)
    case None => None
    case Some(k) => Some(s[k + |p|..])
  }

  /** A suffix holds no character its text does not hold. */
  lemma SuffixChars(s: string, r: string, c: char)
    requires |r| <= |s| && s[|s| - |r|..] == r
    ensures c in r ==> c in s
  {
    if c in r {
      var j :| 0 <= j < |r| && r[j] == c;
      assert s[|s| - |r| + j] == c;
    }
  }

  /** The first character of a slice. */
  lemma SliceHead(s: string, i: nat, j: nat)
    ensures i < j <= |s| ==> s[i..j][0] == s[i]
  {
  }

  lemma OccursAtChar(s: string, c: char, j: nat)
    ensures OccursAt(s, [c], j) <==> j < |s| && s[j] == c
  {
    if j < |s| { assert s[j..j + 1] == [s[j]]; }
  }

  /** Cutting at the first `c` keeps the text before it, which is free of `c`; without a `c`
      nothing is cut. */
  lemma BeforeChar(s: string, c: char)
    ensures StartsWith(s, Before(s, [c])) && c !in Before(s, [c])
    ensures |Before(s, [c])| < |s| ==> s[|Before(s, [c])|] == c
    ensures c !in s ==> Before(s, [c]) == s
  {
    var b := Before(s, [c]);
    OccursAtChar(s, c, |b|);
    forall j | 0 <= j < |b| ensures b[j] != c {
      OccursAtChar(s, c, j);
    }
    if c !in s {
      match Find(s, [c])
      case None =>
      case Some(k) => OccursAtChar(s, c, k);
    }
  }

  /** The text after the first `c`, when `c` occurs and the text before it has none. */
  lemma AfterChar(a: string, c: char, b: string)
    requires c !in a
    ensures After(a + [c] + b, [c]) == Some(b)
  {
    var s := a + [c] + b;
    OccursAtChar(s, c, |a|);
    match Find(s, [c])
    case None =>
    case Some(k) =>
      OccursAtChar(s, c, k);
      assert k == |a|;
      assert s[k + 1..] == b;
  }

  /** `s.rstrip(c)` for a single character `c`. */
  function RStripChar(s: string, c: char): (r: string)
    ensures StartsWith(s, r)
    ensures r != [] ==> r[|r| - 1] != c
    ensures forall k :: |r| <= k < |s| ==> s[k] == c
  {
    if s != [] && s[|s| - 1] == c then RStripChar(s[..|s| - 1], c) else s
  }

  /** The pieces of `s` between line-break characters. `str.splitlines()` differs only in treating
      "\r\n" as one break and in not producing a final empty piece; the model only ever keeps the
      non-blank pieces, on which the two agree. */
  function Lines(s: string): (ls: seq<string>)
    decreases |s|
  {
    if s == [] then [""]
    else if IsLineBreak(s[0]) then [""] + Lines(s[1..])
    else
      var rest := Lines(s[1..]);
      [[s[0]] + rest[0]] + rest[1..]
  }

  /** `s.split(c)` for a single character: the pieces between occurrences of `c`. */
  function Split(s: string, c: char): (ps: seq<string>)
    ensures |ps| >= 1
    decreases |s|
  {
    if s == [] then [""]
    else if s[0] == c then [""] + Split(s[1..], c)
    else
      var rest := Split(s[1..], c);
      [[s[0]] + rest[0]] + rest[1..]
  }

  /** Text without `c` is a single piece. */
  lemma {:induction false} SplitNone(a: string, c: char)
    requires c !in a
    ensures Split(a, c) == [a]
    decreases |a|
  {
    if a != [] {
      SplitNone(a[1..], c);
      assert [a[0]] + a[1..] == a;
    }
  }

  /** The first piece ends at the first `c`; splitting goes on after it. */
  lemma {:induction false} SplitCons(a: string, c: char, b: string)
    requires c !in a
    ensures Split(a + [c] + b, c) == [a] + Split(b, c)
    ensures Split(a + ([c] + b), c) == [a] + Split(b, c)
    decreases |a|
  {
    assert a + ([c] + b) == a + [c] + b;
    var s := a + [c] + b;
    if a == [] {
      assert s == [c] + b;
      assert s[1..] == b;
    } else {
      assert s[1..] == a[1..] + [c] + b;
      SplitCons(a[1..], c, b);
      assert [a[0]] + a[1..] == a;
    }
  }

  // ---------------------------------------------------------------- decimal numerals

  function DigitChar(d: nat): (c: char)
    requires d < 10
    ensures IsDigit(c)
  {
    ('0' as int + d) as char
  }

  function DigitValue(c: char): (d: nat)
    requires IsDigit(c)
    ensures d < 10 && DigitChar(d) == c
  {
    c as int - '0' as int
  }

  /** `str(n)` for a natural number: its decimal digits, without leading zeros. */
  function NatToDecimal(n: nat): (s: string)
    ensures 1 <= |s| && AllDigits(s)
    ensures s[0] == '0' <==> n == 0
    decreases n
  {
    if n < 10 then [DigitChar(n)] else NatToDecimal(n / 10) + [DigitChar(n % 10)]
  }

  /** `int(s)` for a string of ASCII digits. */
  function DecimalValue(s: string): nat
    requires AllDigits(s)
  {
    if s == [] then 0 else DecimalValue(s[..|s| - 1]) * 10 + DigitValue(s[|s| - 1])
  }

  /** Reading back the numeral of `n` gives `n`. */
  lemma {:induction false} DecimalRoundTrip(n: nat)
    ensures DecimalValue(NatToDecimal(n)) == n
    decreases n
  {
    var s := NatToDecimal(n);
    if n >= 10 {
      DecimalRoundTrip(n / 10);
      assert s[..|s| - 1] == NatToDecimal(n / 10);
    }
  }

  /** The numeral of `n` is one character long below 10 and two characters long below 100. */
  lemma DecimalLength(n: nat)
    ensures n < 10 ==> |NatToDecimal(n)| == 1
    ensures 10 <= n < 100 ==> |NatToDecimal(n)| == 2
  {
  }
}
