/**
 * `yorkshire.py`: read the rendered season results page as a list of tournament anchors, date
 * each anchor by the nearest ancestor whose text holds a date, collect the tournaments dated
 * yesterday, scrape their match and group listings for averages of 85.0 or more, and write one
 * report.
 */
module Yorkshire {
  import opened Wrappers
  import opened Text
  import Dates
  import opened Paths
  import opened Dedup
  import opened Averages
  import opened Report
  import opened Tournaments
  import opened Scans
  import opened Folds

  /** How many ancestors `find_card_with_date` climbs at most. */
  const MaxLevels: nat := 25

  /** An anchor of the rendered page whose `href` attribute starts with "/tournaments/": the
      `href` property as the browser reports it ("" when absent), its rendered text, and the
      rendered texts of its ancestors, nearest first. The list ends where looking up a further
      parent fails. */
  datatype Anchor = Anchor(href: string, text: string, ancestors: seq<string>)

  /** A dated card: the stripped text of the ancestor and the date it holds. */
  datatype Card = Card(text: string, date: Dates.Date)

  // ---------------------------------------------------------------- find_card_with_date

  /** The card an ancestor is, by its rendered text: the stripped text, when it is not empty and
      parses to a date. */
  function LevelCard(s: string): (c: Option<Card>)
    ensures c.Some? <==> Strip(s) != [] && Dates.ParseDate(Strip(s)).Some?
    ensures c.Some? ==> c.value.text == Strip(s) && Dates.ParseDate(c.value.text) == Some(c.value.date)
  {
    var t := Strip(s);
    if t != [] && Dates.ParseDate(t).Some? then Some(Card(t, Dates.ParseDate(t).value)) else None
  }

  function LevelFn(): string -> Option<Card> {
    (s: string) => LevelCard(s)
  }

  /** The card an anchor is dated by: the nearest of its first 25 ancestors that is a card. */
  function CardOf(anc: seq<string>): Option<Card> {
    FirstSome(anc, 0, MaxLevels, LevelFn())
  }

  /** The card of an anchor is its nearest dated ancestor among the first 25; there is none
      exactly when none of those is dated, whether the climb ran out of parents or of levels. A
      card found has a non-empty text holding its date. */
  lemma CardOfFirst(anc: seq<string>)
    ensures CardOf(anc).None? <==> forall i :: 0 <= i < MaxLevels && i < |anc| ==> LevelCard(anc[i]).None?
    ensures CardOf(anc).Some? ==>
              exists j :: 0 <= j < MaxLevels && j < |anc| && CardOf(anc) == LevelCard(anc[j]) &&
                          forall i :: 0 <= i < j ==> LevelCard(anc[i]).None?
    ensures CardOf(anc).Some? ==>
              CardOf(anc).value.text != [] && Dates.ParseDate(CardOf(anc).value.text) == Some(CardOf(anc).value.date)
  {
    var f := LevelFn();
    if CardOf(anc).Some? {
      var j := FirstSomeFound(anc, 0, MaxLevels, f);
      assert f(anc[j]) == LevelCard(anc[j]);
      forall i | 0 <= i < j ensures LevelCard(anc[i]).None? {
        assert f(anc[i]) == LevelCard(anc[i]);
      }
    } else {
      FirstSomeNone(anc, 0, MaxLevels, f);
      forall i | 0 <= i < MaxLevels && i < |anc| ensures LevelCard(anc[i]).None? {
        assert f(anc[i]) == LevelCard(anc[i]);
      }
    }
  }

  /** Ancestors above the 25th never date an anchor. */
  lemma CardOfBounded(anc: seq<string>)
    requires |anc| >= MaxLevels
    ensures CardOf(anc) == CardOf(anc[..MaxLevels])
  {
    FirstSomePrefix(anc, MaxLevels, 0, MaxLevels, LevelFn());
  }

  /** One level of the climb, as the loop tests it. */
  lemma LevelStep(anc: seq<string>, k: nat, t: string)
    requires k < MaxLevels && k < |anc| && t == Strip(anc[k])
    ensures FirstSome(anc, k, MaxLevels, LevelFn()) ==
              if t != [] && Dates.ParseDate(t).Some? then Some(Card(t, Dates.ParseDate(t).value))
              else FirstSome(anc, k + 1, MaxLevels, LevelFn())
  {
    assert LevelFn()(anc[k]) == LevelCard(anc[k]);
  }

  /** `find_card_with_date`: climb at most 25 parents, skipping those without text, and return the
      first whose text parses to a date; a parent that cannot be looked up ends the climb. */
  method FindCardWithDate(anc: seq<string>) returns (card: Option<Card>)
    ensures card == CardOf(anc)
  {
    var k := 0;
    while k < MaxLevels
      invariant 0 <= k <= MaxLevels
      invariant FirstSome(anc, k, MaxLevels, LevelFn()) == CardOf(anc)
    {
      if k >= |anc| {
        return None;
      }
      var t := Strip(anc[k]);
      LevelStep(anc, k, t);
      if t != [] {
        var d := Dates.ParseDate(t);
        if d.Some? {
          return Some(Card(t, d.value));
        }
      }
      k := k + 1;
    }
    return None;
  }

  // ---------------------------------------------------------------- the title of a tournament

  /** A line of the card text that can serve as a title: not blank, and without a date in it. */
  predicate IsTitleLine(l: string) {
    Strip(l) != [] && Dates.FindDate(Strip(l)).None?
  }

  /** The stripped title lines of a card text, in order. */
  function TitleLines(ls: seq<string>): (r: seq<string>)
    ensures forall i :: 0 <= i < |r| ==> r[i] != []
  {
    if ls == [] then []
    else (if IsTitleLine(ls[0]) then [Strip(ls[0])] else []) + TitleLines(ls[1..])
  }

  /** The title recorded for a tournament: the anchor's stripped text, else the first title line
      of its card, else its URL. */
  function TitleOf(text: string, cardText: string, url: string): (r: string)
    ensures Strip(text) != [] ==> r == Strip(text)
    ensures url != [] ==> r != []
  {
    var t := Strip(text);
    if t != [] then t
    else
      var ls := TitleLines(Lines(cardText));
      if ls != [] then ls[0] else url
  }

  /** The first title line is that of the first line of the card that can serve as a title. */
  lemma {:induction false} TitleLinesFirst(ls: seq<string>) returns (i: nat)
    requires TitleLines(ls) != []
    ensures i < |ls| && IsTitleLine(ls[i]) && TitleLines(ls)[0] == Strip(ls[i])
    ensures forall j :: 0 <= j < i ==> !IsTitleLine(ls[j])
  {
    if IsTitleLine(ls[0]) {
      i := 0;
    } else {
      var i' := TitleLinesFirst(ls[1..]);
      i := i' + 1;
      assert TitleLines(ls) == TitleLines(ls[1..]);
      forall j | 0 <= j < i ensures !IsTitleLine(ls[j]) {
        if j > 0 {
          assert ls[j] == ls[1..][j - 1];
        }
      }
    }
  }

  /** There are no title lines exactly when no line of the card can serve as a title. */
  lemma {:induction false} TitleLinesEmpty(ls: seq<string>)
    ensures TitleLines(ls) == [] <==> forall j :: 0 <= j < |ls| ==> !IsTitleLine(ls[j])
  {
    if ls != [] {
      TitleLinesEmpty(ls[1..]);
      assert forall j :: 1 <= j < |ls| ==> ls[j] == ls[1..][j - 1];
    }
  }

  /** Without anchor text, a card with a line that can serve as a title gives the first such
      line, stripped. */
  lemma TitleFromCard(text: string, cardText: string, url: string) returns (i: nat)
    requires Strip(text) == []
    requires exists i :: 0 <= i < |Lines(cardText)| && IsTitleLine(Lines(cardText)[i])
    ensures i < |Lines(cardText)| && IsTitleLine(Lines(cardText)[i])
    ensures TitleOf(text, cardText, url) == Strip(Lines(cardText)[i])
    ensures forall j :: 0 <= j < i ==> !IsTitleLine(Lines(cardText)[j])
  {
    var ls := Lines(cardText);
    TitleLinesEmpty(ls);
    i := TitleLinesFirst(ls);
  }

  /** Without anchor text, and without a line of the card that can serve as a title, the title
      is the URL. */
  lemma TitleFromUrl(text: string, cardText: string, url: string)
    requires Strip(text) == []
    requires forall i :: 0 <= i < |Lines(cardText)| ==> !IsTitleLine(Lines(cardText)[i])
    ensures TitleOf(text, cardText, url) == url
  {
    TitleLinesEmpty(Lines(cardText));
  }

  // ---------------------------------------------------------------- one anchor

  /** The anchor's path is a valid tournament path; other anchors are passed over. */
  predicate IsTournamentAnchor(a: Anchor) {
    IsValidTournamentPath(HrefToPath(a.href))
  }

  /** The anchor ends the scan: a tournament anchor without a dated card, or dated before
      yesterday (and not today). */
  predicate StopsScan(a: Anchor, today: Dates.Date, yesterday: Dates.Date) {
    IsTournamentAnchor(a) &&
    (CardOf(a.ancestors).None? ||
     (CardOf(a.ancestors).value.date != today && Dates.Before(CardOf(a.ancestors).value.date, yesterday)))
  }

  /** The anchor is a tournament anchor dated yesterday (and not today). */
  predicate IsYesterdayAnchor(a: Anchor, today: Dates.Date, yesterday: Dates.Date) {
    IsTournamentAnchor(a) && CardOf(a.ancestors).Some? &&
    CardOf(a.ancestors).value.date != today && CardOf(a.ancestors).value.date == yesterday
  }

  /** The tournament a dated tournament anchor records. */
  function EntryOf(a: Anchor): Tournament
    requires IsTournamentAnchor(a) && CardOf(a.ancestors).Some?
  {
    var url := Root + HrefToPath(a.href);
    Tournament(TitleOf(a.text, CardOf(a.ancestors).value.text, url), url)
  }

  /** What an anchor records: its entry when it is dated yesterday. */
  function HitOf(a: Anchor, today: Dates.Date, yesterday: Dates.Date): (r: seq<Tournament>)
    ensures r != [] <==> IsYesterdayAnchor(a, today, yesterday)
  {
    if IsYesterdayAnchor(a, today, yesterday) then [EntryOf(a)] else []
  }

  // ---------------------------------------------------------------- the scan, declaratively

  function HitFn(today: Dates.Date, yesterday: Dates.Date): (seq<Anchor>, Anchor) -> seq<Tournament> {
    (p: seq<Anchor>, a: Anchor) => HitOf(a, today, yesterday)
  }

  /** The tournaments of the yesterday anchors among `anchors`, duplicates included, in page order. */
  function Hits(anchors: seq<Anchor>, today: Dates.Date, yesterday: Dates.Date): seq<Tournament> {
    Emit(anchors, HitFn(today, yesterday))
  }

  function StopFn(today: Dates.Date, yesterday: Dates.Date): (seq<Anchor>, Anchor) -> bool {
    (p: seq<Anchor>, a: Anchor) => StopsScan(a, today, yesterday)
  }

  /** The index of the first anchor at or after `i` that ends the scan, or `|anchors|` when none does. */
  function ScanEndFrom(anchors: seq<Anchor>, i: nat, today: Dates.Date, yesterday: Dates.Date): (e: nat)
    requires i <= |anchors|
    ensures i <= e <= |anchors|
    ensures e < |anchors| ==> StopsScan(anchors[e], today, yesterday)
  {
    var f := StopFn(today, yesterday);
    var e := FirstStop(anchors, i, f);
    assert e < |anchors| ==> f(anchors[..e], anchors[e]);
    e
  }

  /** The index of the anchor that ends the scan, or `|anchors|` when none does. */
  function ScanEnd(anchors: seq<Anchor>, today: Dates.Date, yesterday: Dates.Date): (e: nat)
    ensures e <= |anchors|
  {
    ScanEndFrom(anchors, 0, today, yesterday)
  }

  /** What the scan returns: the yesterday anchors before the end of the scan, one per URL, each
      the first anchor with that URL, in page order. */
  function Collected(anchors: seq<Anchor>, today: Dates.Date, yesterday: Dates.Date): seq<Tournament> {
    DedupBy(Hits(anchors[..ScanEnd(anchors, today, yesterday)], today, yesterday), UrlOf)
  }

  // ---------------------------------------------------------------- the scan, as the source runs it

  /** One more anchor, in the terms the loop tests it: the hits after it, and whether the scan
      ends there. */
  lemma ScanStepAt(anchors: seq<Anchor>, i: nat, today: Dates.Date, yesterday: Dates.Date)
    requires i < |anchors|
    ensures Hits(anchors[..i + 1], today, yesterday) ==
              if IsYesterdayAnchor(anchors[i], today, yesterday)
              then Hits(anchors[..i], today, yesterday) + [EntryOf(anchors[i])]
              else Hits(anchors[..i], today, yesterday)
    ensures ScanEndFrom(anchors, i, today, yesterday) ==
              if StopsScan(anchors[i], today, yesterday) then i else ScanEndFrom(anchors, i + 1, today, yesterday)
  {
    PrefixSnoc(anchors, i);
    var h := HitFn(today, yesterday);
    EmitSnoc(anchors[..i], anchors[i], h);
    assert h(anchors[..i], anchors[i]) == HitOf(anchors[i], today, yesterday);
    var f := StopFn(today, yesterday);
    assert f(anchors[..i], anchors[i]) == StopsScan(anchors[i], today, yesterday);
  }

  /** One more anchor, in the code's own terms: with its path and its card, whether the scan
      ends there and what it records. */
  lemma AnchorStep(anchors: seq<Anchor>, i: nat, today: Dates.Date, yesterday: Dates.Date,
                   path: string, card: Option<Card>)
    requires i < |anchors| && path == HrefToPath(anchors[i].href) && card == CardOf(anchors[i].ancestors)
    ensures StopsScan(anchors[i], today, yesterday) <==>
              IsValidTournamentPath(path) &&
              (card.None? || (card.value.date != today && Dates.Before(card.value.date, yesterday)))
    ensures !StopsScan(anchors[i], today, yesterday) ==>
              ScanEndFrom(anchors, i, today, yesterday) == ScanEndFrom(anchors, i + 1, today, yesterday)
    ensures Hits(anchors[..i + 1], today, yesterday) ==
              if IsValidTournamentPath(path) && card.Some? && card.value.date != today && card.value.date == yesterday
              then Hits(anchors[..i], today, yesterday) +
                   [Tournament(TitleOf(anchors[i].text, card.value.text, Root + path), Root + path)]
              else Hits(anchors[..i], today, yesterday)
  {
    ScanStepAt(anchors, i, today, yesterday);
  }

  /** Where the scan stands still at `i` (end of input, or a stopping anchor), it has collected
      what `Collected` says. */
  lemma CollectedAt(anchors: seq<Anchor>, i: nat, today: Dates.Date, yesterday: Dates.Date)
    requires i <= |anchors|
    requires ScanEnd(anchors, today, yesterday) == ScanEndFrom(anchors, i, today, yesterday)
    requires i == |anchors| || StopsScan(anchors[i], today, yesterday)
    ensures Collected(anchors, today, yesterday) == DedupBy(Hits(anchors[..i], today, yesterday), UrlOf)
  {
  }

  /** One pass of the loop of `collect_yesterday_tournaments`: whether anchor `i` ends the scan
      and, when it does not, what has been recorded and seen after it. */
  method VisitAnchor(anchors: seq<Anchor>, i: nat, today: Dates.Date, yesterday: Dates.Date,
                     ghost hits: seq<Tournament>, results: seq<Tournament>, seen: set<string>)
    returns (stop: bool, ghost hits1: seq<Tournament>, results1: seq<Tournament>, seen1: set<string>)
    requires i < |anchors| && hits == Hits(anchors[..i], today, yesterday)
    requires results == DedupBy(hits, UrlOf) && seen == KeysOf(hits, UrlOf)
    ensures stop == StopsScan(anchors[i], today, yesterday)
    ensures !stop ==> ScanEndFrom(anchors, i, today, yesterday) == ScanEndFrom(anchors, i + 1, today, yesterday)
    ensures hits1 == Hits(anchors[..i + 1], today, yesterday)
    ensures results1 == DedupBy(hits1, UrlOf) && seen1 == KeysOf(hits1, UrlOf)
  {
    stop, hits1, results1, seen1 := false, hits, results, seen;
    var a := anchors[i];
    var path := HrefToPath(a.href);
    if !IsValidTournamentPath(path) {
      AnchorStep(anchors, i, today, yesterday, path, CardOf(a.ancestors));
      return;
    }
    var card := FindCardWithDate(a.ancestors);
    AnchorStep(anchors, i, today, yesterday, path, card);
    if card.None? {
      stop := true;
      return;
    }
    var d := card.value.date;
    if d == today {
      return;
    }
    if Dates.Before(d, yesterday) {
      stop := true;
      return;
    }
    if d == yesterday {
      var url := Root + path;
      var e := Tournament(TitleOf(a.text, card.value.text, url), url);
      RecordStep(hits, e);
      hits1 := hits + [e];
      if url !in seen {
        seen1 := seen + {url};
        results1 := results + [e];
      }
    }
  }

  /** `collect_yesterday_tournaments`, over the page's anchors. */
  method CollectYesterdayTournaments(anchors: seq<Anchor>, today: Dates.Date, yesterday: Dates.Date)
    returns (results: seq<Tournament>)
    ensures results == Collected(anchors, today, yesterday)
  {
    results := [];
    var seen: set<string> := {};
    ghost var hits: seq<Tournament> := [];
    var i := 0;
    while i < |anchors|
      invariant 0 <= i <= |anchors|
      invariant ScanEnd(anchors, today, yesterday) == ScanEndFrom(anchors, i, today, yesterday)
      invariant hits == Hits(anchors[..i], today, yesterday)
      invariant results == DedupBy(hits, UrlOf)
      invariant seen == KeysOf(hits, UrlOf)
    {
      var stop: bool;
      ghost var hits1: seq<Tournament>;
      var results1: seq<Tournament>;
      var seen1: set<string>;
      stop, hits1, results1, seen1 := VisitAnchor(anchors, i, today, yesterday, hits, results, seen);
      if stop {
        CollectedAt(anchors, i, today, yesterday);
        break;
      }
      hits, results, seen := hits1, results1, seen1;
      i := i + 1;
    }
    if i == |anchors| {
      CollectedAt(anchors, i, today, yesterday);
    }
  }

  // ---------------------------------------------------------------- what the scan collects

  /** Every hit is the entry of a yesterday anchor. */
  lemma HitsSound(anchors: seq<Anchor>, k: nat, today: Dates.Date, yesterday: Dates.Date) returns (i: nat)
    requires k < |Hits(anchors, today, yesterday)|
    ensures i < |anchors| && IsYesterdayAnchor(anchors[i], today, yesterday)
    ensures Hits(anchors, today, yesterday)[k] == EntryOf(anchors[i])
  {
    var f := HitFn(today, yesterday);
    var j;
    i, j := EmitSound(anchors, f, k);
    assert f(anchors[..i], anchors[i]) == HitOf(anchors[i], today, yesterday);
  }

  /** The entry of every yesterday anchor is a hit. */
  lemma HitsComplete(anchors: seq<Anchor>, i: nat, today: Dates.Date, yesterday: Dates.Date) returns (k: nat)
    requires i < |anchors| && IsYesterdayAnchor(anchors[i], today, yesterday)
    ensures k < |Hits(anchors, today, yesterday)| && Hits(anchors, today, yesterday)[k] == EntryOf(anchors[i])
  {
    var f := HitFn(today, yesterday);
    assert f(anchors[..i], anchors[i]) == HitOf(anchors[i], today, yesterday) == [EntryOf(anchors[i])];
    k := EmitComplete(anchors, f, i, 0);
  }

  /** Every collected tournament comes from an anchor before the end of the scan whose card is
      dated yesterday and not today: its URL is the site root followed by the anchor's path,
      that path is a valid tournament path, and its title is never empty. */
  lemma CollectedSound(anchors: seq<Anchor>, today: Dates.Date, yesterday: Dates.Date, k: nat)
    requires k < |Collected(anchors, today, yesterday)|
    ensures var t := Collected(anchors, today, yesterday)[k];
            t.title != [] && |Root| <= |t.url| && t.url[..|Root|] == Root &&
            IsValidTournamentPath(t.url[|Root|..]) &&
            exists i :: 0 <= i < ScanEnd(anchors, today, yesterday) &&
                        IsYesterdayAnchor(anchors[i], today, yesterday) &&
                        CardOf(anchors[i].ancestors).value.date == yesterday && yesterday != today &&
                        HrefToPath(anchors[i].href) == t.url[|Root|..] && EntryOf(anchors[i]) == t
  {
    var e := ScanEnd(anchors, today, yesterday);
    var hs := Hits(anchors[..e], today, yesterday);
    var t := Collected(anchors, today, yesterday)[k];
    DedupByFirst(hs, UrlOf);
    var j := FirstIndex(hs, UrlOf, UrlOf(t));
    assert t == hs[j];
    var i := HitsSound(anchors[..e], j, today, yesterday);
    assert anchors[..e][i] == anchors[i];
    var path := HrefToPath(anchors[i].href);
    assert t.url == Root + path;
    assert t.url[..|Root|] == Root && t.url[|Root|..] == path;
  }

  /** Every yesterday anchor before the end of the scan has its URL among the collected ones. */
  lemma CollectedComplete(anchors: seq<Anchor>, today: Dates.Date, yesterday: Dates.Date, i: nat)
    requires i < ScanEnd(anchors, today, yesterday)
    requires IsYesterdayAnchor(anchors[i], today, yesterday)
    ensures exists k :: 0 <= k < |Collected(anchors, today, yesterday)| &&
                        Collected(anchors, today, yesterday)[k].url == EntryOf(anchors[i]).url
  {
    var e := ScanEnd(anchors, today, yesterday);
    var hs := Hits(anchors[..e], today, yesterday);
    var t := EntryOf(anchors[i]);
    assert anchors[..e][i] == anchors[i];
    var j := HitsComplete(anchors[..e], i, today, yesterday);
    assert UrlOf(hs[j]) in KeysOf(hs, UrlOf);
    DedupByKeys(hs, UrlOf);
    KeysOfWitness(Collected(anchors, today, yesterday), UrlOf, t.url);
  }

  /** With yesterday the day before today, no collected tournament is dated today or later. */
  lemma CollectedNotToday(anchors: seq<Anchor>, today: Dates.Date, yesterday: Dates.Date, i: nat)
    requires Dates.IsValidDate(today) && Dates.PrevDay(today) == Some(yesterday)
    requires i < |anchors| && IsYesterdayAnchor(anchors[i], today, yesterday)
    ensures Dates.Before(CardOf(anchors[i].ancestors).value.date, today)
    ensures !Dates.Before(today, CardOf(anchors[i].ancestors).value.date)
  {
  }

  /** URL `u` is met, as a yesterday anchor before the end of the scan, before URL `v` is. */
  predicate FirstSeenBefore(anchors: seq<Anchor>, u: string, v: string, today: Dates.Date, yesterday: Dates.Date) {
    var hs := Hits(anchors[..ScanEnd(anchors, today, yesterday)], today, yesterday);
    u in KeysOf(hs, UrlOf) && v in KeysOf(hs, UrlOf) && FirstIndex(hs, UrlOf, u) < FirstIndex(hs, UrlOf, v)
  }

  /** No URL is collected twice, and the collected tournaments appear in the order in which their
      URLs are first met. */
  lemma CollectedDistinct(anchors: seq<Anchor>, today: Dates.Date, yesterday: Dates.Date)
    ensures var r := Collected(anchors, today, yesterday);
            forall k, l :: 0 <= k < l < |r| ==> r[k].url != r[l].url
    ensures forall k, l :: 0 <= k < l < |Collected(anchors, today, yesterday)| ==>
              FirstSeenBefore(anchors, Collected(anchors, today, yesterday)[k].url, Collected(anchors, today, yesterday)[l].url, today, yesterday)
  {
    var hs := Hits(anchors[..ScanEnd(anchors, today, yesterday)], today, yesterday);
    var r := Collected(anchors, today, yesterday);
    DedupByDistinctKeys(hs, UrlOf);
    DedupByOrder(hs, UrlOf);
    forall k, l | 0 <= k < l < |r|
      ensures r[k].url != r[l].url
    {
      assert UrlOf(r[k]) == r[k].url && UrlOf(r[l]) == r[l].url;
    }
    forall k, l | 0 <= k < l < |r|
      ensures FirstSeenBefore(anchors, r[k].url, r[l].url, today, yesterday)
    {
      assert UrlOf(r[k]) == r[k].url && UrlOf(r[l]) == r[l].url;
    }
  }

  /** The scan ends early only at a tournament anchor without a dated card, or dated before
      yesterday and not today, whether or not a yesterday anchor was met before it. */
  lemma EarlyStop(anchors: seq<Anchor>, today: Dates.Date, yesterday: Dates.Date)
    requires ScanEnd(anchors, today, yesterday) < |anchors|
    ensures var a := anchors[ScanEnd(anchors, today, yesterday)];
            IsTournamentAnchor(a) &&
            (CardOf(a.ancestors).None? ||
             (CardOf(a.ancestors).value.date != today && Dates.Before(CardOf(a.ancestors).value.date, yesterday)))
  {
  }

  /** The scan ends at the first stopping anchor: no anchor before it stops the scan. */
  lemma ScanEndFirst(anchors: seq<Anchor>, today: Dates.Date, yesterday: Dates.Date, j: nat)
    requires j < ScanEnd(anchors, today, yesterday)
    ensures !StopsScan(anchors[j], today, yesterday)
  {
    var f := StopFn(today, yesterday);
    FirstStopBefore(anchors, 0, f, j);
    assert !f(anchors[..j], anchors[j]);
  }

  /** An anchor dated before yesterday ends the scan even when it is the first tournament anchor
      on the page, so nothing is collected. */
  lemma OldFirstAnchor(anchors: seq<Anchor>, today: Dates.Date, yesterday: Dates.Date)
    requires anchors != [] && IsTournamentAnchor(anchors[0]) && CardOf(anchors[0].ancestors).Some?
    requires CardOf(anchors[0].ancestors).value.date != today
    requires Dates.Before(CardOf(anchors[0].ancestors).value.date, yesterday)
    ensures ScanEnd(anchors, today, yesterday) == 0
    ensures Collected(anchors, today, yesterday) == []
  {
    ScanStepAt(anchors, 0, today, yesterday);
    assert anchors[..0] == [];
  }

  /** Once the scan has ended early, whatever follows on the page changes nothing. */
  lemma StopIgnoresRest(anchors: seq<Anchor>, rest: seq<Anchor>, today: Dates.Date, yesterday: Dates.Date)
    requires ScanEnd(anchors, today, yesterday) < |anchors|
    ensures Collected(anchors + rest, today, yesterday) == Collected(anchors, today, yesterday)
  {
    FirstStopAppend(anchors, rest, 0, StopFn(today, yesterday));
    var e := ScanEnd(anchors, today, yesterday);
    assert (anchors + rest)[..e] == anchors[..e];
  }

  // ---------------------------------------------------------------- group links

  /** The hrefs of a `/groups` page that contain "/group/" (an absent one never does), as given. */
  function GroupHrefs(hrefs: seq<string>): seq<string> {
    if hrefs == [] then []
    else
      var n := |hrefs| - 1;
      GroupHrefs(hrefs[..n]) + (if Contains(hrefs[n], "/group/") then [hrefs[n]] else [])
  }

  /** The group pages scraped: the group links without repeats, in order of first occurrence
      (`dict.fromkeys`). */
  function GroupLinks(hrefs: seq<string>): seq<string> {
    Distinct(GroupHrefs(hrefs))
  }

  /** The links kept are exactly the hrefs containing "/group/". */
  lemma {:induction false} GroupHrefsMember(hrefs: seq<string>, u: string)
    ensures u in GroupHrefs(hrefs) <==> u in hrefs && Contains(u, "/group/")
  {
    if hrefs != [] {
      var n := |hrefs| - 1;
      GroupHrefsMember(hrefs[..n], u);
      assert hrefs == hrefs[..n] + [hrefs[n]];
    }
  }

  /** Every group link is scraped once, only hrefs containing "/group/" are, and in the order in
      which they first occur. */
  lemma GroupLinksProperties(hrefs: seq<string>)
    ensures var r := GroupLinks(hrefs);
            forall k, l :: 0 <= k < l < |r| ==> r[k] != r[l]
    ensures forall u :: u in GroupLinks(hrefs) <==> u in hrefs && Contains(u, "/group/")
    ensures forall k, l :: 0 <= k < l < |GroupLinks(hrefs)| ==>
              OccursFirstBefore(GroupHrefs(hrefs), GroupLinks(hrefs)[k], GroupLinks(hrefs)[l])
  {
    var g := GroupHrefs(hrefs);
    var r := GroupLinks(hrefs);
    DistinctProperties(g);
    assert r == Distinct(g);
    forall u ensures u in r <==> u in hrefs && Contains(u, "/group/") {
      GroupHrefsMember(hrefs, u);
    }
    forall k, l | 0 <= k < l < |r| ensures OccursFirstBefore(g, r[k], r[l]) {
      assert r[k] == Distinct(g)[k] && r[l] == Distinct(g)[l];
    }
  }

  /** Collecting the group links of a `/groups` page. */
  method CollectGroupLinks(hrefs: seq<string>) returns (links: seq<string>)
    ensures links == GroupLinks(hrefs)
  {
    var all: seq<string> := [];
    var i := 0;
    while i < |hrefs|
      invariant 0 <= i <= |hrefs|
      invariant all == GroupHrefs(hrefs[..i])
    {
      assert hrefs[..i + 1][..i] == hrefs[..i];
      var href := hrefs[i];
      if href != [] && Contains(href, "/group/") {
        all := all + [href];
      }
      i := i + 1;
    }
    assert hrefs[..i] == hrefs;
    links := RemoveRepeats(all);
  }

  // ---------------------------------------------------------------- scrape_tournament

  /** What `scrape_tournament` returns: the qualifying rows of the `/results` page, then those of
      every group page, or the first URL that cannot be fetched. */
  function ScrapeSpec(site: Site, title: string, baseUrl: string): Result<seq<Row>, string> {
    var base := RStripChar(baseUrl, '/');
    if base + "/results" !in site then Failure(base + "/results")
    else
      var mrows := Qualifying(PlayerAvgs(site[base + "/results"].pairs), title, Matches);
      if base + "/groups" !in site then Failure(base + "/groups")
      else
        match GroupRows(site, GroupLinks(site[base + "/groups"].hrefs), title)
        case Failure(u) => Failure(u)
        case Success(grows) => Success(mrows + grows)
  }

  /** Every row reaches the threshold and carries the tournament's title, and the `matches` rows
      all come before the `groups` rows; the `matches` rows are exactly the qualifying pairs of the
      `/results` page. */
  lemma ScrapeSpecRows(site: Site, title: string, baseUrl: string)
    ensures var r := ScrapeSpec(site, title, baseUrl);
            r.Success? ==> forall i :: 0 <= i < |r.value| ==>
              r.value[i].value >= Threshold && r.value[i].tournament == title
    ensures var r := ScrapeSpec(site, title, baseUrl);
            r.Success? ==> forall i, j :: 0 <= i < j < |r.value| && r.value[i].section == Groups ==>
              r.value[j].section == Groups
    ensures var r := ScrapeSpec(site, title, baseUrl);
            var results := RStripChar(baseUrl, '/') + "/results";
            r.Success? ==> forall row :: row in r.value && row.section == Matches ==>
              Avg(row.player, row.value) in PlayerAvgs(site[results].pairs)
  {
    var r := ScrapeSpec(site, title, baseUrl);
    if r.Success? {
      var base := RStripChar(baseUrl, '/');
      var links := GroupLinks(site[base + "/groups"].hrefs);
      var avgs := PlayerAvgs(site[base + "/results"].pairs);
      TournamentRows(site, avgs, links, title);
      assert r.value == Qualifying(avgs, title, Matches) + GroupRows(site, links, title).value;
    }
  }

  /** `scrape_tournament`, with the fetches answered by `site`. */
  method ScrapeTournament(site: Site, title: string, baseUrl: string) returns (r: Result<seq<Row>, string>)
    ensures r == ScrapeSpec(site, title, baseUrl)
  {
    var base := RStripChar(baseUrl, '/');
    var resultsUrl := base + "/results";
    if resultsUrl !in site {
      return Failure(resultsUrl);
    }
    var avgs := ParsePlayerAvgs(site[resultsUrl].pairs);
    var rows := AppendQualifying([], avgs, title, Matches);
    assert rows == Qualifying(PlayerAvgs(site[resultsUrl].pairs), title, Matches);
    var groupsUrl := base + "/groups";
    if groupsUrl !in site {
      return Failure(groupsUrl);
    }
    var links := CollectGroupLinks(site[groupsUrl].hrefs);
    r := ScrapeGroups(site, links, title, rows);
  }

  // ---------------------------------------------------------------- all tournaments

  /** `scrape_tournament` on one collected tournament. */
  function ScrapeFn(site: Site): Tournament -> Result<seq<Row>, string> {
    (t: Tournament) => ScrapeSpec(site, t.title, t.url)
  }

  /** The rows `main` gathers: those of `scrape_tournament` for every collected tournament in
      turn, or the first URL that cannot be fetched. */
  function AllRows(site: Site, ts: seq<Tournament>): Result<seq<Row>, string> {
    Gather(ts, ScrapeFn(site))
  }

  /** Every gathered row reaches the threshold, carries the title of one of the tournaments, and
      comes from scraping that tournament. */
  lemma AllRowsSound(site: Site, ts: seq<Tournament>, k: nat) returns (j: nat)
    requires AllRows(site, ts).Success? && k < |AllRows(site, ts).value|
    ensures j < |ts| && ScrapeSpec(site, ts[j].title, ts[j].url).Success?
    ensures AllRows(site, ts).value[k] in ScrapeSpec(site, ts[j].title, ts[j].url).value
    ensures AllRows(site, ts).value[k].tournament == ts[j].title
    ensures AllRows(site, ts).value[k].value >= Threshold
  {
    var m;
    j, m := GatherSound(ts, ScrapeFn(site), k);
    assert ScrapeFn(site)(ts[j]) == ScrapeSpec(site, ts[j].title, ts[j].url);
    ScrapeSpecRows(site, ts[j].title, ts[j].url);
  }

  /** When the rows are gathered, every tournament was scraped and all of its rows are among
      them. */
  lemma AllRowsComplete(site: Site, ts: seq<Tournament>, j: nat, row: Row)
    requires AllRows(site, ts).Success? && j < |ts|
    ensures ScrapeSpec(site, ts[j].title, ts[j].url).Success?
    ensures row in ScrapeSpec(site, ts[j].title, ts[j].url).value ==> row in AllRows(site, ts).value
  {
    var f := ScrapeFn(site);
    assert f(ts[j]) == ScrapeSpec(site, ts[j].title, ts[j].url);
    var _ := GatherComplete(ts, f, j, 0);
    if row in f(ts[j]).value {
      var m :| 0 <= m < |f(ts[j]).value| && f(ts[j]).value[m] == row;
      var _ := GatherComplete(ts, f, j, m);
    }
  }

  /** Gathering fails at the first tournament that cannot be scraped. */
  lemma AllRowsFailed(site: Site, ts: seq<Tournament>) returns (j: nat)
    requires AllRows(site, ts).Failure?
    ensures j < |ts| && ScrapeSpec(site, ts[j].title, ts[j].url) == Failure(AllRows(site, ts).error)
    ensures forall i :: 0 <= i < j ==> ScrapeSpec(site, ts[i].title, ts[i].url).Success?
  {
    var f := ScrapeFn(site);
    j := GatherFailed(ts, f);
    assert f(ts[j]) == ScrapeSpec(site, ts[j].title, ts[j].url);
    forall i | 0 <= i < j ensures ScrapeSpec(site, ts[i].title, ts[i].url).Success? {
      assert f(ts[i]) == ScrapeSpec(site, ts[i].title, ts[i].url);
    }
  }

  /** `main`'s loop over the tournaments, extending `all_rows`. */
  method ScrapeAll(site: Site, ts: seq<Tournament>) returns (r: Result<seq<Row>, string>)
    ensures r == AllRows(site, ts)
  {
    var all: seq<Row> := [];
    var i := 0;
    assert ts[..0] == [];
    while i < |ts|
      invariant 0 <= i <= |ts|
      invariant Gather(ts[..i], ScrapeFn(site)) == Success(all)
    {
      var rows := ScrapeTournament(site, ts[i].title, ts[i].url);
      GatherStep(ts, ScrapeFn(site), i);
      assert ScrapeFn(site)(ts[i]) == rows;
      if rows.Failure? {
        GatherFailure(ts, ScrapeFn(site), i + 1);
        return rows;
      }
      all := all + rows.value;
      i := i + 1;
    }
    assert ts[..i] == ts;
    return Success(all);
  }

  // ---------------------------------------------------------------- main

  /** Why a run fails: a page that cannot be fetched, or no day before today. */
  datatype RunError = FetchFailed(url: string) | NoYesterday

  /** `main`: yesterday is the day before `today`; with no tournament dated yesterday no report is
      written (`None`); otherwise the report of all their rows, or the first page that cannot be
      fetched. */
  function RunSpec(anchors: seq<Anchor>, site: Site, today: Dates.Date): (r: Result<Option<string>, RunError>)
    requires Dates.IsValidDate(today)
    ensures r == Failure(NoYesterday) <==> today == Dates.Date(1, 1, 1)
    ensures r == Success(None) <==>
              Dates.PrevDay(today).Some? && Collected(anchors, today, Dates.PrevDay(today).value) == []
    ensures r.Failure? && r.error.FetchFailed? ==>
              Dates.PrevDay(today).Some? && AllRows(site, Collected(anchors, today, Dates.PrevDay(today).value)).Failure?
  {
    match Dates.PrevDay(today)
    case None => Failure(NoYesterday)
    case Some(yesterday) =>
      var ts := Collected(anchors, today, yesterday);
      if ts == [] then Success(None)
      else
        match AllRows(site, ts)
        case Failure(u) => Failure(FetchFailed(u))
        case Success(rows) => Success(Some(DistinctReport(rows)))
  }

  /** `main`, with the clock's date given as `today` and the rendered page as its anchors. */
  method Run(anchors: seq<Anchor>, site: Site, today: Dates.Date) returns (r: Result<Option<string>, RunError>)
    requires Dates.IsValidDate(today)
    ensures r == RunSpec(anchors, site, today)
  {
    var yesterday := Dates.PrevDay(today);
    if yesterday.None? {
      return Failure(NoYesterday);
    }
    var ts := CollectYesterdayTournaments(anchors, today, yesterday.value);
    if ts == [] {
      return Success(None);
    }
    var rows := ScrapeAll(site, ts);
    if rows.Failure? {
      return Failure(FetchFailed(rows.error));
    }
    var text := WriteReport(rows.value);
    return Success(Some(text));
  }
}
