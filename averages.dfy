/**
 * The row pipeline both scrapers share: each match found on a listing page gives two
 * (player, average) pairs, pairs at or above the 85.0 threshold become report rows tagged with
 * the tournament title and the section the page belongs to. Averages are fixed-point hundredths.
 */
module Averages {
  import opened Wrappers
  import opened Text
  import opened Dedup
  import opened Folds

  /** The 85.0 threshold, in hundredths. */
  const Threshold: nat := 8500

  /** Where a row was found: the `/results` listing or a `/group/...` page. */
  datatype Section = Matches | Groups

  /** The section's name as the report writes it. */
  function SectionName(s: Section): string {
    match s
    case Matches => "matches"
    case Groups => "groups"
  }

  /** One report row: average (hundredths), player, tournament title, section. */
  datatype Row = Row(value: nat, player: string, tournament: string, section: Section)

  /** One match of the pair regex: both player captures as captured, and both averages. */
  datatype PairMatch = PairMatch(p1: string, p2: string, v1: nat, v2: nat)

  /** A player's average as read from a match line. */
  datatype Avg = Avg(player: string, value: nat)

  /** The pair of a match's first player, name stripped. */
  function FirstAvg(m: PairMatch): Avg { Avg(Strip(m.p1), m.v1) }

  /** The pair of a match's second player, name stripped. */
  function SecondAvg(m: PairMatch): Avg { Avg(Strip(m.p2), m.v2) }

  /** The flattened pairs of a page: two per match, in match order. */
  function PlayerAvgs(ms: seq<PairMatch>): (r: seq<Avg>)
    ensures |r| == 2 * |ms|
  {
    if ms == [] then []
    else
      var n := |ms| - 1;
      PlayerAvgs(ms[..n]) + [FirstAvg(ms[n]), SecondAvg(ms[n])]
  }

  /** Match `k` contributes exactly the pairs at `2k` (first player) and `2k + 1` (second player). */
  lemma {:induction false} PlayerAvgsAt(ms: seq<PairMatch>, k: nat)
    requires k < |ms|
    ensures PlayerAvgs(ms)[2 * k] == FirstAvg(ms[k])
    ensures PlayerAvgs(ms)[2 * k + 1] == SecondAvg(ms[k])
  {
    var n := |ms| - 1;
    var p := PlayerAvgs(ms[..n]);
    assert PlayerAvgs(ms) == p + [FirstAvg(ms[n]), SecondAvg(ms[n])];
    if k < n {
      PlayerAvgsAt(ms[..n], k);
      assert ms[..n][k] == ms[k];
      assert 2 * k + 1 < |p|;
    } else {
      assert 2 * k == |p|;
    }
  }

  /** The loop over the regex matches, appending two pairs per match. Converting the captured
      numerals cannot fail (the regex admits only digits with an optional fraction), so the
      source's `except ValueError: continue` never fires and is not modelled. */
  method ParsePlayerAvgs(ms: seq<PairMatch>) returns (out: seq<Avg>)
    ensures out == PlayerAvgs(ms)
  {
    out := [];
    var i := 0;
    while i < |ms|
      invariant 0 <= i <= |ms|
      invariant out == PlayerAvgs(ms[..i])
    {
      var m := ms[i];
      assert ms[..i + 1][..i] == ms[..i];
      out := out + [FirstAvg(m)];
      out := out + [SecondAvg(m)];
      i := i + 1;
    }
    assert ms[..i] == ms;
  }

  /** The pairs at or above the threshold, as rows of `title` in `section`, in pair order. */
  function Qualifying(avgs: seq<Avg>, title: string, section: Section): (rows: seq<Row>)
    ensures |rows| <= |avgs|
  {
    if avgs == [] then []
    else
      var n := |avgs| - 1;
      var a := avgs[n];
      Qualifying(avgs[..n], title, section) + (if a.value >= Threshold then [Row(a.value, a.player, title, section)] else [])
  }

  /** The loop that appends the qualifying pairs of a page to the rows gathered so far. */
  method AppendQualifying(rows: seq<Row>, avgs: seq<Avg>, title: string, section: Section)
    returns (out: seq<Row>)
    ensures out == rows + Qualifying(avgs, title, section)
  {
    out := rows;
    var i := 0;
    while i < |avgs|
      invariant 0 <= i <= |avgs|
      invariant out == rows + Qualifying(avgs[..i], title, section)
    {
      var a := avgs[i];
      PrefixSnoc(avgs, i);
      assert avgs[..i + 1][..i] == avgs[..i];
      if a.value >= Threshold {
        out := out + [Row(a.value, a.player, title, section)];
      }
      i := i + 1;
    }
    assert avgs[..i] == avgs;
  }

  /** A row is produced exactly for each pair whose average reaches the threshold (inclusive). */
  lemma {:induction false} QualifyingMember(avgs: seq<Avg>, title: string, section: Section, row: Row)
    ensures row in Qualifying(avgs, title, section) <==>
              Avg(row.player, row.value) in avgs && row.value >= Threshold &&
              row.tournament == title && row.section == section
  {
    if avgs != [] {
      var n := |avgs| - 1;
      QualifyingMember(avgs[..n], title, section, row);
      assert avgs == avgs[..n] + [avgs[n]];
    }
  }

  /** The filter keeps the order of the pairs: it distributes over concatenation. */
  lemma {:induction false} QualifyingAppend(a: seq<Avg>, b: seq<Avg>, title: string, section: Section)
    ensures Qualifying(a + b, title, section) == Qualifying(a, title, section) + Qualifying(b, title, section)
    decreases |b|
  {
    if b == [] {
      assert a + b == a;
    } else {
      var n := |b| - 1;
      var ab := a + b;
      assert ab[..|ab| - 1] == a + b[..n];
      assert ab[|ab| - 1] == b[n];
      var x := b[n];
      var last := if x.value >= Threshold then [Row(x.value, x.player, title, section)] else [];
      assert Qualifying(ab, title, section) == Qualifying(a + b[..n], title, section) + last;
      assert Qualifying(b, title, section) == Qualifying(b[..n], title, section) + last;
      QualifyingAppend(a, b[..n], title, section);
      Assoc(Qualifying(a, title, section), Qualifying(b[..n], title, section), last);
    }
  }

  /** A fetched page: the regex matches found in its text and the `href`s of its links (an
      absent attribute as ""). */
  datatype Page = Page(pairs: seq<PairMatch>, hrefs: seq<string>)

  /** The pages a run can fetch; a URL outside the map is a fetch that fails. */
  type Site = map<string, Page>

  /** Fetching one group page: its qualifying rows, or its URL when it cannot be fetched. */
  function GroupPageRows(site: Site, title: string): string -> Result<seq<Row>, string> {
    (link: string) =>
      if link in site then Success(Qualifying(PlayerAvgs(site[link].pairs), title, Groups)) else Failure(link)
  }

  /** The rows of the group pages fetched in `links` order; the first page that cannot be fetched
      aborts with its URL. */
  function GroupRows(site: Site, links: seq<string>, title: string): Result<seq<Row>, string> {
    Gather(links, GroupPageRows(site, title))
  }

  /** Every group row is a qualifying pair of one of the group pages, tagged with the title and
      the `groups` section. */
  lemma GroupRowsSound(site: Site, links: seq<string>, title: string, k: nat) returns (j: nat)
    requires GroupRows(site, links, title).Success? && k < |GroupRows(site, links, title).value|
    ensures j < |links| && links[j] in site
    ensures GroupRows(site, links, title).value[k] in Qualifying(PlayerAvgs(site[links[j]].pairs), title, Groups)
    ensures var row := GroupRows(site, links, title).value[k];
            row.value >= Threshold && row.tournament == title && row.section == Groups
  {
    var f := GroupPageRows(site, title);
    var m;
    j, m := GatherSound(links, f, k);
    var row := GroupRows(site, links, title).value[k];
    QualifyingMember(PlayerAvgs(site[links[j]].pairs), title, Groups, row);
  }

  /** The group rows are gathered exactly when every group page can be fetched; otherwise the
      failure names the first group page that cannot. */
  lemma GroupRowsFetched(site: Site, links: seq<string>, title: string)
    ensures GroupRows(site, links, title).Success? <==> forall i :: 0 <= i < |links| ==> links[i] in site
    ensures GroupRows(site, links, title).Failure? ==>
              exists j :: 0 <= j < |links| && links[j] == GroupRows(site, links, title).error && links[j] !in site &&
                          forall i :: 0 <= i < j ==> links[i] in site
  {
    var f := GroupPageRows(site, title);
    if Gather(links, f).Success? {
      forall i | 0 <= i < |links| ensures links[i] in site {
        var _ := GatherComplete(links, f, i, 0);
      }
    } else {
      var j := GatherFailed(links, f);
      assert forall i :: 0 <= i < j ==> f(links[i]).Success?;
    }
  }

  /** A tournament's rows, those of its `/results` pairs followed by those of its group pages:
      each reaches the threshold and carries the title, the `matches` rows come first and are
      exactly the qualifying pairs of the `/results` page. */
  lemma TournamentRows(site: Site, avgs: seq<Avg>, links: seq<string>, title: string)
    requires GroupRows(site, links, title).Success?
    ensures var rows := Qualifying(avgs, title, Matches) + GroupRows(site, links, title).value;
            forall i :: 0 <= i < |rows| ==> rows[i].value >= Threshold && rows[i].tournament == title
    ensures var rows := Qualifying(avgs, title, Matches) + GroupRows(site, links, title).value;
            forall i, j :: 0 <= i < j < |rows| && rows[i].section == Groups ==> rows[j].section == Groups
    ensures var rows := Qualifying(avgs, title, Matches) + GroupRows(site, links, title).value;
            forall row :: row in rows && row.section == Matches ==> Avg(row.player, row.value) in avgs
  {
    var mrows := Qualifying(avgs, title, Matches);
    var grows := GroupRows(site, links, title).value;
    forall i | 0 <= i < |mrows|
      ensures mrows[i].value >= Threshold && mrows[i].tournament == title && mrows[i].section == Matches
      ensures Avg(mrows[i].player, mrows[i].value) in avgs
    {
      QualifyingMember(avgs, title, Matches, mrows[i]);
    }
    forall i | 0 <= i < |grows|
      ensures grows[i].value >= Threshold && grows[i].tournament == title && grows[i].section == Groups
    {
      var _ := GroupRowsSound(site, links, title, i);
    }
    RowsOfSections(mrows, grows, avgs, title);
  }

  /** Rows of the `matches` section followed by rows of the `groups` section. */
  lemma RowsOfSections(mrows: seq<Row>, grows: seq<Row>, avgs: seq<Avg>, title: string)
    requires forall i :: 0 <= i < |mrows| ==>
               mrows[i].value >= Threshold && mrows[i].tournament == title && mrows[i].section == Matches &&
               Avg(mrows[i].player, mrows[i].value) in avgs
    requires forall i :: 0 <= i < |grows| ==>
               grows[i].value >= Threshold && grows[i].tournament == title && grows[i].section == Groups
    ensures var rows := mrows + grows;
            forall i :: 0 <= i < |rows| ==> rows[i].value >= Threshold && rows[i].tournament == title
    ensures var rows := mrows + grows;
            forall i, j :: 0 <= i < j < |rows| && rows[i].section == Groups ==> rows[j].section == Groups
    ensures var rows := mrows + grows;
            forall row :: row in rows && row.section == Matches ==> Avg(row.player, row.value) in avgs
  {
    var rows := mrows + grows;
    assert forall i :: 0 <= i < |rows| ==> rows[i] == if i < |mrows| then mrows[i] else grows[i - |mrows|];
  }

  /** The loop over the group pages, appending their qualifying rows to `rows`. */
  method ScrapeGroups(site: Site, links: seq<string>, title: string, rows: seq<Row>)
    returns (r: Result<seq<Row>, string>)
    ensures r == match GroupRows(site, links, title)
                 case Failure(u) => Failure(u)
                 case Success(grows) => Success(rows + grows)
  {
    var f := GroupPageRows(site, title);
    var out := rows;
    var i := 0;
    assert links[..0] == [];
    while i < |links|
      invariant 0 <= i <= |links|
      invariant Gather(links[..i], f).Success?
      invariant out == rows + Gather(links[..i], f).value
    {
      var gl := links[i];
      GatherStep(links, f, i);
      if gl !in site {
        GatherFailure(links, f, i + 1);
        return Failure(gl);
      }
      var gavgs := ParsePlayerAvgs(site[gl].pairs);
      ghost var before := Gather(links[..i], f).value;
      out := AppendQualifying(out, gavgs, title, Groups);
      Assoc(rows, before, Qualifying(gavgs, title, Groups));
      i := i + 1;
    }
    assert links[..i] == links;
    return Success(out);
  }
}
