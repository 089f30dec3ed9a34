/**
 * `run_scrapers.py`: for each region, read the season results page in document order, collect
 * the tournaments dated yesterday, scrape their match and group listings for averages of 85.0 or
 * more, and write the region's report.
 */
module RunScrapers {
  import opened Wrappers
  import opened Text
  import Dates
  import opened Paths
  import opened Dedup
  import opened Averages
  import opened Report
  import opened Tournaments
  import opened Scans
  import opened Folds

  /** One of `body.descendants`, in document order: a text node, an `<a>` tag with its `href`
      ("" when absent) and the text strings inside it, or any other tag. The strings inside a link
      also follow it as text nodes of their own. */
  datatype Node = TextNode(s: string) | LinkNode(href: string, parts: seq<string>) | OtherTag

  // ---------------------------------------------------------------- one link

  /** The path a link stands for when it is a tournament link: its `href` must start with "/",
      is cut at the first "?" and then at the first "#", and must be a valid tournament path. */
  function LinkPath(href: string): (r: Option<string>)
    ensures r.Some? ==> IsValidTournamentPath(r.value) && '?' !in r.value && '#' !in r.value
  {
    if !StartsWith(href, "/") then None
    else
      var h := StripQueryFragment(href);
      if IsValidTournamentPath(h) then Some(h) else None
  }

  /** A link is judged by its href up to the first "?" or "#": what follows is ignored. */
  lemma LinkPathCut(h: string, q: string)
    requires '?' !in h && '#' !in h
    requires q == [] || q[0] == '?' || q[0] == '#'
    ensures LinkPath(h + q) == LinkPath(h)
  {
    StripQueryFragmentOf(h, q);
    assert StripQueryFragment(h) == h;
    if h == [] {
      assert h + q == q;
    } else {
      assert (h + q)[..1] == h[..1];
    }
  }

  /** `node.get_text(" ", strip=True)`: the link's strings, each stripped, empty ones dropped,
      joined by single spaces. */
  function LinkText(parts: seq<string>): string {
    Join(" ", StrippedParts(parts))
  }

  function StrippedParts(parts: seq<string>): (r: seq<string>)
    ensures forall i :: 0 <= i < |r| ==> r[i] != []
  {
    if parts == [] then []
    else
      var t := Strip(parts[0]);
      (if t == [] then [] else [t]) + StrippedParts(parts[1..])
  }

  /** The title recorded for a link: its text with whitespace collapsed, or the URL when that is
      empty. */
  function Title(parts: seq<string>, url: string): (r: string)
    ensures url != [] ==> r != []
  {
    var t := Collapse(LinkText(parts));
    if t == [] then url else t
  }

  /** The tournament a yesterday link records. */
  function EntryOf(href: string, parts: seq<string>): Tournament
    requires LinkPath(href).Some?
  {
    var url := Root + LinkPath(href).value;
    Tournament(Title(parts, url), url)
  }

  // ---------------------------------------------------------------- the scan, declaratively

  /** `current_date` after the nodes `p`: the date of the last text node that parses as one. */
  function DateAfter(p: seq<Node>): (r: Option<Dates.Date>)
    ensures r.Some? ==> Dates.IsValidDate(r.value)
  {
    if p == [] then None
    else
      var n := p[|p| - 1];
      if n.TextNode? && Dates.ParseDate(n.s).Some? then Dates.ParseDate(n.s) else DateAfter(p[..|p| - 1])
  }

  /** Node `n`, coming after the nodes `p`, is a tournament link dated yesterday (and not today). */
  predicate YesterdayLink(p: seq<Node>, n: Node, today: Dates.Date, yesterday: Dates.Date) {
    n.LinkNode? && LinkPath(n.href).Some? && DateAfter(p) == Some(yesterday) && yesterday != today
  }

  /** What node `n`, coming after the nodes `p`, records: its entry when it is a yesterday link. */
  function HitAfter(p: seq<Node>, n: Node, today: Dates.Date, yesterday: Dates.Date): (r: seq<Tournament>)
    ensures r != [] <==> YesterdayLink(p, n, today, yesterday)
  {
    if YesterdayLink(p, n, today, yesterday) then [EntryOf(n.href, n.parts)] else []
  }

  function HitFn(today: Dates.Date, yesterday: Dates.Date): (seq<Node>, Node) -> seq<Tournament> {
    (p, n) => HitAfter(p, n, today, yesterday)
  }

  /** The tournaments of the yesterday links among `ns`, duplicates included, in node order. */
  function Hits(ns: seq<Node>, today: Dates.Date, yesterday: Dates.Date): seq<Tournament> {
    Emit(ns, HitFn(today, yesterday))
  }

  /** Node `n`, coming after the nodes `p`, ends the scan: a tournament link dated neither today
      nor later than yesterday, once a yesterday link has been seen. */
  predicate StopLink(p: seq<Node>, n: Node, today: Dates.Date, yesterday: Dates.Date) {
    n.LinkNode? && LinkPath(n.href).Some? && DateAfter(p).Some? && DateAfter(p).value != today &&
    Dates.Before(DateAfter(p).value, yesterday) && Hits(p, today, yesterday) != []
  }

  function StopFn(today: Dates.Date, yesterday: Dates.Date): (seq<Node>, Node) -> bool {
    (p, n) => StopLink(p, n, today, yesterday)
  }

  /** The index of the first node at or after `i` that ends the scan, or `|ns|` when none does. */
  function ScanEndFrom(ns: seq<Node>, i: nat, today: Dates.Date, yesterday: Dates.Date): (e: nat)
    requires i <= |ns|
    ensures i <= e <= |ns|
    ensures e < |ns| ==> StopLink(ns[..e], ns[e], today, yesterday)
  {
    var f := StopFn(today, yesterday);
    var e := FirstStop(ns, i, f);
    assert e < |ns| ==> f(ns[..e], ns[e]);
    e
  }

  /** The index of the node that ends the scan, or `|ns|` when none does. */
  function ScanEnd(ns: seq<Node>, today: Dates.Date, yesterday: Dates.Date): (e: nat)
    ensures e <= |ns|
  {
    ScanEndFrom(ns, 0, today, yesterday)
  }

  /** What the scan returns: the yesterday links before the end of the scan, one per URL, each
      the first link with that URL, in encounter order. */
  function Collected(ns: seq<Node>, today: Dates.Date, yesterday: Dates.Date): seq<Tournament> {
    DedupBy(Hits(ns[..ScanEnd(ns, today, yesterday)], today, yesterday), UrlOf)
  }

  // ---------------------------------------------------------------- the scan, as the source runs it

  /** One more node: the date and the hits after it. */
  lemma ScanStep(p: seq<Node>, n: Node, today: Dates.Date, yesterday: Dates.Date)
    ensures DateAfter(p + [n]) ==
              if n.TextNode? && Dates.ParseDate(n.s).Some? then Dates.ParseDate(n.s) else DateAfter(p)
    ensures Hits(p + [n], today, yesterday) ==
              Hits(p, today, yesterday) + HitAfter(p, n, today, yesterday)
  {
    assert (p + [n])[..|p|] == p;
    EmitSnoc(p, n, HitFn(today, yesterday));
  }

  /** One more node of the page, in the terms the loop tests them: the date and the hits after it. */
  lemma ScanStepAt(ns: seq<Node>, i: nat, today: Dates.Date, yesterday: Dates.Date)
    requires i < |ns|
    ensures DateAfter(ns[..i + 1]) ==
              if ns[i].TextNode? && Dates.ParseDate(ns[i].s).Some? then Dates.ParseDate(ns[i].s) else DateAfter(ns[..i])
    ensures Hits(ns[..i + 1], today, yesterday) ==
              if YesterdayLink(ns[..i], ns[i], today, yesterday)
              then Hits(ns[..i], today, yesterday) + [EntryOf(ns[i].href, ns[i].parts)]
              else Hits(ns[..i], today, yesterday)
    ensures ScanEndFrom(ns, i, today, yesterday) ==
              if StopLink(ns[..i], ns[i], today, yesterday) then i else ScanEndFrom(ns, i + 1, today, yesterday)
  {
    PrefixSnoc(ns, i);
    ScanStep(ns[..i], ns[i], today, yesterday);
    var f := StopFn(today, yesterday);
    assert f(ns[..i], ns[i]) == StopLink(ns[..i], ns[i], today, yesterday);
  }

  /** Where the scan stands still at `i` (end of input, or a stopping link), it has collected
      what `Collected` says. */
  lemma CollectedAt(ns: seq<Node>, i: nat, today: Dates.Date, yesterday: Dates.Date)
    requires i <= |ns|
    requires ScanEnd(ns, today, yesterday) == ScanEndFrom(ns, i, today, yesterday)
    requires i == |ns| || StopLink(ns[..i], ns[i], today, yesterday)
    ensures Collected(ns, today, yesterday) == DedupBy(Hits(ns[..i], today, yesterday), UrlOf)
  {
  }

  /** One pass of the loop of `collect_yesterday_tournaments`: whether node `i` ends the scan
      and, when it does not, the current date, the flag and what has been recorded and seen
      after it. */
  method VisitNode(ns: seq<Node>, i: nat, today: Dates.Date, yesterday: Dates.Date,
                   current: Option<Dates.Date>, found: bool, ghost hits: seq<Tournament>,
                   results: seq<Tournament>, seen: set<string>)
    returns (stop: bool, current1: Option<Dates.Date>, found1: bool, ghost hits1: seq<Tournament>,
             results1: seq<Tournament>, seen1: set<string>)
    requires i < |ns| && current == DateAfter(ns[..i]) && hits == Hits(ns[..i], today, yesterday)
    requires found == (hits != []) && results == DedupBy(hits, UrlOf) && seen == KeysOf(hits, UrlOf)
    ensures stop == StopLink(ns[..i], ns[i], today, yesterday)
    ensures !stop ==> ScanEndFrom(ns, i, today, yesterday) == ScanEndFrom(ns, i + 1, today, yesterday)
    ensures current1 == DateAfter(ns[..i + 1]) && hits1 == Hits(ns[..i + 1], today, yesterday)
    ensures found1 == (hits1 != []) && results1 == DedupBy(hits1, UrlOf) && seen1 == KeysOf(hits1, UrlOf)
  {
    stop, current1, found1, hits1, results1, seen1 := false, current, found, hits, results, seen;
    var n := ns[i];
    ScanStepAt(ns, i, today, yesterday);
    if n.TextNode? && Dates.ParseDate(n.s).Some? {
      current1 := Dates.ParseDate(n.s);
      return;
    }
    if !n.LinkNode? {
      return;
    }
    var path := LinkPath(n.href);
    if path.None? || current.None? || current.value == today {
      return;
    }
    var d := current.value;
    if Dates.Before(d, yesterday) && found {
      stop := true;
      return;
    }
    if d == yesterday {
      found1 := true;
      var url := Root + path.value;
      var e := Tournament(Title(n.parts, url), url);
      RecordStep(hits, e);
      hits1 := hits + [e];
      if url !in seen {
        seen1 := seen + {url};
        results1 := results + [e];
      }
    }
  }

  /** `collect_yesterday_tournaments`, over the page's nodes. */
  method CollectYesterdayTournaments(ns: seq<Node>, today: Dates.Date, yesterday: Dates.Date)
    returns (results: seq<Tournament>)
    ensures results == Collected(ns, today, yesterday)
  {
    results := [];
    var seen: set<string> := {};
    var current: Option<Dates.Date> := None;
    var found := false;
    ghost var hits: seq<Tournament> := [];
    var i := 0;
    while i < |ns|
      invariant 0 <= i <= |ns|
      invariant ScanEnd(ns, today, yesterday) == ScanEndFrom(ns, i, today, yesterday)
      invariant current == DateAfter(ns[..i])
      invariant hits == Hits(ns[..i], today, yesterday)
      invariant found == (hits != [])
      invariant results == DedupBy(hits, UrlOf)
      invariant seen == KeysOf(hits, UrlOf)
    {
      var stop: bool;
      var current1: Option<Dates.Date>;
      var found1: bool;
      ghost var hits1: seq<Tournament>;
      var results1: seq<Tournament>;
      var seen1: set<string>;
      stop, current1, found1, hits1, results1, seen1 :=
        VisitNode(ns, i, today, yesterday, current, found, hits, results, seen);
      if stop {
        CollectedAt(ns, i, today, yesterday);
        break;
      }
      current, found, hits, results, seen := current1, found1, hits1, results1, seen1;
      i := i + 1;
    }
    if i == |ns| {
      CollectedAt(ns, i, today, yesterday);
    }
  }

  // ---------------------------------------------------------------- what the scan collects

  /** Every hit is the entry of a yesterday link. */
  lemma HitsSound(ns: seq<Node>, k: nat, today: Dates.Date, yesterday: Dates.Date) returns (i: nat)
    requires k < |Hits(ns, today, yesterday)|
    ensures i < |ns| && YesterdayLink(ns[..i], ns[i], today, yesterday)
    ensures Hits(ns, today, yesterday)[k] == EntryOf(ns[i].href, ns[i].parts)
  {
    var f := HitFn(today, yesterday);
    var j;
    i, j := EmitSound(ns, f, k);
    assert f(ns[..i], ns[i]) == HitAfter(ns[..i], ns[i], today, yesterday);
  }

  /** The entry of every yesterday link is a hit. */
  lemma HitsComplete(ns: seq<Node>, i: nat, today: Dates.Date, yesterday: Dates.Date) returns (k: nat)
    requires i < |ns| && YesterdayLink(ns[..i], ns[i], today, yesterday)
    ensures k < |Hits(ns, today, yesterday)| && Hits(ns, today, yesterday)[k] == EntryOf(ns[i].href, ns[i].parts)
  {
    var f := HitFn(today, yesterday);
    assert f(ns[..i], ns[i]) == HitAfter(ns[..i], ns[i], today, yesterday) == [EntryOf(ns[i].href, ns[i].parts)];
    k := EmitComplete(ns, f, i, 0);
  }

  /** Every collected tournament comes from a yesterday link before the end of the scan: its URL
      is the site root followed by the link's path, that path is a valid tournament path, and its
      title is never empty. */
  lemma CollectedSound(ns: seq<Node>, today: Dates.Date, yesterday: Dates.Date, k: nat)
    requires k < |Collected(ns, today, yesterday)|
    ensures var t := Collected(ns, today, yesterday)[k];
            t.title != [] && |Root| < |t.url| && t.url[..|Root|] == Root &&
            IsValidTournamentPath(t.url[|Root|..]) &&
            exists i :: 0 <= i < ScanEnd(ns, today, yesterday) &&
                        YesterdayLink(ns[..i], ns[i], today, yesterday) &&
                        LinkPath(ns[i].href) == Some(t.url[|Root|..]) && EntryOf(ns[i].href, ns[i].parts) == t
  {
    var e := ScanEnd(ns, today, yesterday);
    var hs := Hits(ns[..e], today, yesterday);
    var t := Collected(ns, today, yesterday)[k];
    DedupByFirst(hs, UrlOf);
    var j := FirstIndex(hs, UrlOf, UrlOf(t));
    assert t == hs[j];
    var i := HitsSound(ns[..e], j, today, yesterday);
    assert ns[..e][..i] == ns[..i] && ns[..e][i] == ns[i];
    var path := LinkPath(ns[i].href).value;
    assert t.url == Root + path;
    assert t.url[..|Root|] == Root && t.url[|Root|..] == path;
  }

  /** Every yesterday link before the end of the scan has its URL among the collected ones. */
  lemma CollectedComplete(ns: seq<Node>, today: Dates.Date, yesterday: Dates.Date, i: nat)
    requires i < ScanEnd(ns, today, yesterday)
    requires YesterdayLink(ns[..i], ns[i], today, yesterday)
    ensures exists k :: 0 <= k < |Collected(ns, today, yesterday)| &&
                        Collected(ns, today, yesterday)[k].url == EntryOf(ns[i].href, ns[i].parts).url
  {
    var e := ScanEnd(ns, today, yesterday);
    var hs := Hits(ns[..e], today, yesterday);
    var t := EntryOf(ns[i].href, ns[i].parts);
    assert ns[..e][..i] == ns[..i] && ns[..e][i] == ns[i];
    var j := HitsComplete(ns[..e], i, today, yesterday);
    assert UrlOf(hs[j]) in KeysOf(hs, UrlOf);
    DedupByKeys(hs, UrlOf);
    KeysOfWitness(Collected(ns, today, yesterday), UrlOf, t.url);
  }

  /** URL `u` is met, as a yesterday link before the end of the scan, before URL `v` is. */
  predicate FirstSeenBefore(ns: seq<Node>, u: string, v: string, today: Dates.Date, yesterday: Dates.Date) {
    var hs := Hits(ns[..ScanEnd(ns, today, yesterday)], today, yesterday);
    u in KeysOf(hs, UrlOf) && v in KeysOf(hs, UrlOf) && FirstIndex(hs, UrlOf, u) < FirstIndex(hs, UrlOf, v)
  }

  /** No URL is collected twice, and the collected tournaments appear in the order in which their
      URLs are first met. */
  lemma CollectedDistinct(ns: seq<Node>, today: Dates.Date, yesterday: Dates.Date)
    ensures var r := Collected(ns, today, yesterday);
            forall k, l :: 0 <= k < l < |r| ==> r[k].url != r[l].url
    ensures forall k, l :: 0 <= k < l < |Collected(ns, today, yesterday)| ==>
              FirstSeenBefore(ns, Collected(ns, today, yesterday)[k].url, Collected(ns, today, yesterday)[l].url, today, yesterday)
  {
    var hs := Hits(ns[..ScanEnd(ns, today, yesterday)], today, yesterday);
    var r := Collected(ns, today, yesterday);
    DedupByDistinctKeys(hs, UrlOf);
    DedupByOrder(hs, UrlOf);
    forall k, l | 0 <= k < l < |r|
      ensures r[k].url != r[l].url
    {
      assert UrlOf(r[k]) == r[k].url && UrlOf(r[l]) == r[l].url;
    }
    forall k, l | 0 <= k < l < |r|
      ensures FirstSeenBefore(ns, r[k].url, r[l].url, today, yesterday)
    {
      assert UrlOf(r[k]) == r[k].url && UrlOf(r[l]) == r[l].url;
    }
  }

  /** The scan ends early only on a link dated before yesterday (and not today), and only after a
      yesterday link was met, so an early end always comes with a non-empty result. */
  lemma EarlyStop(ns: seq<Node>, today: Dates.Date, yesterday: Dates.Date)
    requires ScanEnd(ns, today, yesterday) < |ns|
    ensures var e := ScanEnd(ns, today, yesterday);
            DateAfter(ns[..e]).Some? && Dates.Before(DateAfter(ns[..e]).value, yesterday) &&
            DateAfter(ns[..e]).value != today
    ensures Collected(ns, today, yesterday) != []
  {
    var e := ScanEnd(ns, today, yesterday);
    var hs := Hits(ns[..e], today, yesterday);
    assert hs != [];
    assert UrlOf(hs[0]) in KeysOf(hs, UrlOf);
    DedupByKeys(hs, UrlOf);
  }

  /** The scan ends at the first stopping link: no node before it stops the scan. */
  lemma ScanEndFirst(ns: seq<Node>, today: Dates.Date, yesterday: Dates.Date, j: nat)
    requires j < ScanEnd(ns, today, yesterday)
    ensures !StopLink(ns[..j], ns[j], today, yesterday)
  {
    var f := StopFn(today, yesterday);
    FirstStopBefore(ns, 0, f, j);
    assert !f(ns[..j], ns[j]);
  }

  /** Once the scan has ended early, whatever follows on the page changes nothing. */
  lemma StopIgnoresRest(ns: seq<Node>, rest: seq<Node>, today: Dates.Date, yesterday: Dates.Date)
    requires ScanEnd(ns, today, yesterday) < |ns|
    ensures Collected(ns + rest, today, yesterday) == Collected(ns, today, yesterday)
  {
    FirstStopAppend(ns, rest, 0, StopFn(today, yesterday));
    var e := ScanEnd(ns, today, yesterday);
    assert (ns + rest)[..e] == ns[..e];
  }

  // ---------------------------------------------------------------- scrape_tournament

  /** A group link as collected: a relative href is put on the site root. */
  function GroupUrl(href: string): string {
    if StartsWith(href, "/") then Root + href else href
  }

  /** The group links of a `/groups` page in link order, repeats included: the hrefs that contain
      "/group/", relative ones put on the site root. */
  function GroupHrefs(hrefs: seq<string>): seq<string> {
    if hrefs == [] then []
    else
      var n := |hrefs| - 1;
      GroupHrefs(hrefs[..n]) + (if Contains(hrefs[n], "/group/") then [GroupUrl(hrefs[n])] else [])
  }

  /** The group pages scraped: the group links without repeats, in order of first occurrence. */
  function GroupLinks(hrefs: seq<string>): seq<string> {
    Distinct(GroupHrefs(hrefs))
  }

  /** Every link collected comes from an href containing "/group/". */
  lemma {:induction false} GroupHrefsSound(hrefs: seq<string>, u: string) returns (i: nat)
    requires u in GroupHrefs(hrefs)
    ensures i < |hrefs| && Contains(hrefs[i], "/group/") && u == GroupUrl(hrefs[i])
  {
    var n := |hrefs| - 1;
    var p := hrefs[..n];
    if u in GroupHrefs(p) {
      i := GroupHrefsSound(p, u);
      assert p[i] == hrefs[i];
    } else {
      i := n;
    }
  }

  /** Every href containing "/group/" is collected. */
  lemma {:induction false} GroupHrefsComplete(hrefs: seq<string>, i: nat)
    requires i < |hrefs| && Contains(hrefs[i], "/group/")
    ensures GroupUrl(hrefs[i]) in GroupHrefs(hrefs)
  {
    var n := |hrefs| - 1;
    var p := hrefs[..n];
    if i < n {
      GroupHrefsComplete(p, i);
      assert p[i] == hrefs[i];
    }
  }

  /** The links collected are exactly the hrefs containing "/group/", relative ones on the site
      root. */
  lemma GroupHrefsMember(hrefs: seq<string>, u: string)
    ensures u in GroupHrefs(hrefs) <==>
              exists i :: 0 <= i < |hrefs| && Contains(hrefs[i], "/group/") && u == GroupUrl(hrefs[i])
  {
    if u in GroupHrefs(hrefs) {
      var i := GroupHrefsSound(hrefs, u);
    }
    if exists i :: 0 <= i < |hrefs| && Contains(hrefs[i], "/group/") && u == GroupUrl(hrefs[i]) {
      var i :| 0 <= i < |hrefs| && Contains(hrefs[i], "/group/") && u == GroupUrl(hrefs[i]);
      GroupHrefsComplete(hrefs, i);
    }
  }

  /** Every group link is scraped once, and only links taken from a "/group/" href are. */
  lemma GroupLinksProperties(hrefs: seq<string>)
    ensures var r := GroupLinks(hrefs);
            forall k, l :: 0 <= k < l < |r| ==> r[k] != r[l]
    ensures forall u :: u in GroupLinks(hrefs) <==>
              exists i :: 0 <= i < |hrefs| && Contains(hrefs[i], "/group/") && u == GroupUrl(hrefs[i])
  {
    DistinctProperties(GroupHrefs(hrefs));
    forall u ensures u in GroupLinks(hrefs) <==>
              exists i :: 0 <= i < |hrefs| && Contains(hrefs[i], "/group/") && u == GroupUrl(hrefs[i])
    {
      GroupHrefsMember(hrefs, u);
    }
  }

  /** Collecting the group links of a `/groups` page. */
  method CollectGroupLinks(hrefs: seq<string>) returns (links: seq<string>)
    ensures links == GroupLinks(hrefs)
  {
    var all: seq<string> := [];
    var i := 0;
    while i < |hrefs|
      invariant 0 <= i <= |hrefs|
      invariant all == GroupHrefs(hrefs[..i])
    {
      PrefixSnoc(hrefs, i);
      assert hrefs[..i + 1][..i] == hrefs[..i];
      var href := hrefs[i];
      if Contains(href, "/group/") {
        if StartsWith(href, "/") {
          href := Root + href;
        }
        all := all + [href];
      }
      i := i + 1;
    }
    assert hrefs[..i] == hrefs;
    links := RemoveRepeats(all);
  }

  /** What `scrape_tournament` returns: the qualifying rows of the `/results` page, then those of
      every group page, or the first URL that cannot be fetched. */
  function ScrapeSpec(site: Site, title: string, baseUrl: string): Result<seq<Row>, string> {
    var base := RStripChar(baseUrl, '/');
    if base + "/results" !in site then Failure(base + "/results")
    else
      var mrows := Qualifying(PlayerAvgs(site[base + "/results"].pairs), title, Matches);
      if base + "/groups" !in site then Failure(base + "/groups")
      else
        match GroupRows(site, GroupLinks(site[base + "/groups"].hrefs), title)
        case Failure(u) => Failure(u)
        case Success(grows) => Success(mrows + grows)
  }

  /** Every row reaches the threshold and carries the tournament's title, and the `matches` rows
      all come before the `groups` rows; the `matches` rows are exactly the qualifying pairs of the
      `/results` page. */
  lemma ScrapeSpecRows(site: Site, title: string, baseUrl: string)
    ensures var r := ScrapeSpec(site, title, baseUrl);
            r.Success? ==> forall i :: 0 <= i < |r.value| ==>
              r.value[i].value >= Threshold && r.value[i].tournament == title
    ensures var r := ScrapeSpec(site, title, baseUrl);
            r.Success? ==> forall i, j :: 0 <= i < j < |r.value| && r.value[i].section == Groups ==>
              r.value[j].section == Groups
    ensures var r := ScrapeSpec(site, title, baseUrl);
            var results := RStripChar(baseUrl, '/') + "/results";
            r.Success? ==> forall row :: row in r.value && row.section == Matches ==>
              Avg(row.player, row.value) in PlayerAvgs(site[results].pairs)
  {
    var r := ScrapeSpec(site, title, baseUrl);
    if r.Success? {
      var base := RStripChar(baseUrl, '/');
      var links := GroupLinks(site[base + "/groups"].hrefs);
      var avgs := PlayerAvgs(site[base + "/results"].pairs);
      TournamentRows(site, avgs, links, title);
      assert r.value == Qualifying(avgs, title, Matches) + GroupRows(site, links, title).value;
    }
  }

  /** `scrape_tournament`, with the fetches answered by `site`. */
  method ScrapeTournament(site: Site, title: string, baseUrl: string) returns (r: Result<seq<Row>, string>)
    ensures r == ScrapeSpec(site, title, baseUrl)
  {
    var base := RStripChar(baseUrl, '/');
    var resultsUrl := base + "/results";
    if resultsUrl !in site {
      return Failure(resultsUrl);
    }
    var avgs := ParsePlayerAvgs(site[resultsUrl].pairs);
    var rows := AppendQualifying([], avgs, title, Matches);
    assert rows == Qualifying(PlayerAvgs(site[resultsUrl].pairs), title, Matches);
    var groupsUrl := base + "/groups";
    if groupsUrl !in site {
      return Failure(groupsUrl);
    }
    var links := CollectGroupLinks(site[groupsUrl].hrefs);
    r := ScrapeGroups(site, links, title, rows);
  }

  // ---------------------------------------------------------------- one region

  /** `scrape_tournament` on one collected tournament. */
  function ScrapeFn(site: Site): Tournament -> Result<seq<Row>, string> {
    (t: Tournament) => ScrapeSpec(site, t.title, t.url)
  }

  /** The rows `main` gathers for one region: those of `scrape_tournament` for every collected
      tournament in turn, or the first URL that cannot be fetched. */
  function RegionRows(site: Site, ts: seq<Tournament>): Result<seq<Row>, string> {
    Gather(ts, ScrapeFn(site))
  }

  /** Every gathered row reaches the threshold and carries the title of one of the region's
      tournaments, and comes from scraping that tournament. */
  lemma RegionRowsSound(site: Site, ts: seq<Tournament>, k: nat) returns (j: nat)
    requires RegionRows(site, ts).Success? && k < |RegionRows(site, ts).value|
    ensures j < |ts| && ScrapeSpec(site, ts[j].title, ts[j].url).Success?
    ensures RegionRows(site, ts).value[k] in ScrapeSpec(site, ts[j].title, ts[j].url).value
    ensures RegionRows(site, ts).value[k].tournament == ts[j].title
    ensures RegionRows(site, ts).value[k].value >= Threshold
  {
    var m;
    j, m := GatherSound(ts, ScrapeFn(site), k);
    assert ScrapeFn(site)(ts[j]) == ScrapeSpec(site, ts[j].title, ts[j].url);
    ScrapeSpecRows(site, ts[j].title, ts[j].url);
  }

  /** When the region's rows are gathered, every tournament was scraped and all of its rows are
      among them. */
  lemma RegionRowsComplete(site: Site, ts: seq<Tournament>, j: nat, row: Row)
    requires RegionRows(site, ts).Success? && j < |ts|
    ensures ScrapeSpec(site, ts[j].title, ts[j].url).Success?
    ensures row in ScrapeSpec(site, ts[j].title, ts[j].url).value ==> row in RegionRows(site, ts).value
  {
    var f := ScrapeFn(site);
    assert f(ts[j]) == ScrapeSpec(site, ts[j].title, ts[j].url);
    var _ := GatherComplete(ts, f, j, 0);
    if row in f(ts[j]).value {
      var m :| 0 <= m < |f(ts[j]).value| && f(ts[j]).value[m] == row;
      var _ := GatherComplete(ts, f, j, m);
    }
  }

  /** A region whose rows cannot be gathered fails at the first tournament that cannot be
      scraped. */
  lemma RegionRowsFailed(site: Site, ts: seq<Tournament>) returns (j: nat)
    requires RegionRows(site, ts).Failure?
    ensures j < |ts| && ScrapeSpec(site, ts[j].title, ts[j].url) == Failure(RegionRows(site, ts).error)
    ensures forall i :: 0 <= i < j ==> ScrapeSpec(site, ts[i].title, ts[i].url).Success?
  {
    var f := ScrapeFn(site);
    j := GatherFailed(ts, f);
    assert f(ts[j]) == ScrapeSpec(site, ts[j].title, ts[j].url);
    forall i | 0 <= i < j ensures ScrapeSpec(site, ts[i].title, ts[i].url).Success? {
      assert f(ts[i]) == ScrapeSpec(site, ts[i].title, ts[i].url);
    }
  }

  /** `main`'s loop over the collected tournaments, extending `all_rows`. */
  method ScrapeAll(site: Site, ts: seq<Tournament>) returns (r: Result<seq<Row>, string>)
    ensures r == RegionRows(site, ts)
  {
    var all: seq<Row> := [];
    var i := 0;
    assert ts[..0] == [];
    while i < |ts|
      invariant 0 <= i <= |ts|
      invariant Gather(ts[..i], ScrapeFn(site)) == Success(all)
    {
      var rows := ScrapeTournament(site, ts[i].title, ts[i].url);
      GatherStep(ts, ScrapeFn(site), i);
      assert ScrapeFn(site)(ts[i]) == rows;
      if rows.Failure? {
        GatherFailure(ts, ScrapeFn(site), i + 1);
        return rows;
      }
      all := all + rows.value;
      i := i + 1;
    }
    assert ts[..i] == ts;
    return Success(all);
  }

  /** `order` lists each row of `rows` exactly once and nothing else: one way of iterating over
      the set of `rows`. */
  ghost predicate IsEnumeration(order: seq<Row>, rows: seq<Row>) {
    forall x :: multiset(order)[x] == if x in rows then 1 else 0
  }

  /** Whatever order the set of rows is iterated in, the written rows are sorted by value, highest
      first, hold every distinct row exactly once, and read back from the CSV text unchanged when
      no player or tournament contains a comma or a line break. */
  lemma EnumerationReport(order: seq<Row>, rows: seq<Row>)
    requires IsEnumeration(order, rows)
    ensures SortedDesc(SortByValueDesc(order))
    ensures IsEnumeration(SortByValueDesc(order), rows)
    ensures (forall i :: 0 <= i < |rows| ==> CsvSafe(rows[i])) ==>
              ParseReport(ReportText(SortByValueDesc(order))) == Some(SortByValueDesc(order))
  {
    var s := SortByValueDesc(order);
    SortSortedPermutation(order);
    if forall i :: 0 <= i < |rows| ==> CsvSafe(rows[i]) {
      forall i | 0 <= i < |s| ensures CsvSafe(s[i]) {
        assert multiset(s)[s[i]] > 0;
      }
      ReportRoundTrip(s);
    }
  }

  /** Python iterates the set of rows in an order of its own, which decides the order of rows of
      equal value; the model writes them in the order of first occurrence, which is one of the
      set's enumerations. */
  lemma DistinctEnumeration(rows: seq<Row>)
    ensures IsEnumeration(Distinct(rows), rows)
  {
    DistinctCount(rows);
  }

  /** Why a run stops: a page that cannot be fetched, no region scripts at all, or no day before
      today. */
  datatype RunError = FetchFailed(url: string) | NoRegionScripts | NoYesterday

  /** A region's report file: its listing is fetched from `listings`, its tournaments collected,
      scraped from `site` and their rows written; a page that cannot be fetched ends the run. */
  function RegionReport(listings: map<string, seq<Node>>, site: Site, c: RegionConfig,
                        today: Dates.Date, yesterday: Dates.Date): (r: Result<string, RunError>)
    ensures r.Failure? ==> r.error.FetchFailed?
    ensures r.Failure? <==> c.seasonUrl !in listings ||
                            RegionRows(site, Collected(listings[c.seasonUrl], today, yesterday)).Failure?
  {
    if c.seasonUrl !in listings then Failure(FetchFailed(c.seasonUrl))
    else
      match RegionRows(site, Collected(listings[c.seasonUrl], today, yesterday))
      case Failure(u) => Failure(FetchFailed(u))
      case Success(rows) => Success(DistinctReport(rows))
  }

  /** A region without tournaments dated yesterday, or without a qualifying average, still gets
      a report: the header line alone. */
  lemma HeaderOnlyReport(listings: map<string, seq<Node>>, site: Site, c: RegionConfig,
                         today: Dates.Date, yesterday: Dates.Date)
    requires c.seasonUrl in listings
    requires Collected(listings[c.seasonUrl], today, yesterday) == [] ||
             RegionRows(site, Collected(listings[c.seasonUrl], today, yesterday)) == Success([])
    ensures RegionReport(listings, site, c, today, yesterday) == Success(HeaderLine + "\n")
  {
    var ns := listings[c.seasonUrl];
    var rows := RegionRows(site, Collected(ns, today, yesterday));
    assert rows == Success([]);
    assert Distinct<Row>([]) == [];
    assert SortByValueDesc([]) == [];
    assert ReportText([]) == HeaderLine + "\n";
  }

  /** One region of `main`. */
  method RunRegion(listings: map<string, seq<Node>>, site: Site, c: RegionConfig,
                   today: Dates.Date, yesterday: Dates.Date) returns (r: Result<string, RunError>)
    ensures r == RegionReport(listings, site, c, today, yesterday)
  {
    if c.seasonUrl !in listings {
      return Failure(FetchFailed(c.seasonUrl));
    }
    var ts := CollectYesterdayTournaments(listings[c.seasonUrl], today, yesterday);
    var rows := ScrapeAll(site, ts);
    if rows.Failure? {
      return Failure(FetchFailed(rows.error));
    }
    var text := WriteReport(rows.value);
    return Success(text);
  }

  // ---------------------------------------------------------------- main

  /** What a region script declares: its season results page and its report file. */
  datatype RegionConfig = RegionConfig(seasonUrl: string, reportPath: string)

  /** What a run leaves behind: the reports written, as (path, text) in region order, and the
      error that ended it, if any. */
  type Outcome = Partial<(string, string), RunError>

  /** One region's report, with the path it is written to. */
  function WriteFn(listings: map<string, seq<Node>>, site: Site, today: Dates.Date, yesterday: Dates.Date):
    RegionConfig -> Result<(string, string), RunError>
  {
    (c: RegionConfig) => match RegionReport(listings, site, c, today, yesterday)
         case Failure(e) => Failure(e)
         case Success(text) => Success((c.reportPath, text))
  }

  /** The regions in turn, each writing its report, until one fails. */
  function RegionsSpec(listings: map<string, seq<Node>>, site: Site, configs: seq<RegionConfig>,
                       today: Dates.Date, yesterday: Dates.Date): Outcome
  {
    Until(configs, WriteFn(listings, site, today, yesterday))
  }

  /** Each written report is its region's report, written to that region's path. */
  lemma RegionsWritten(listings: map<string, seq<Node>>, site: Site, configs: seq<RegionConfig>,
                       today: Dates.Date, yesterday: Dates.Date, k: nat)
    requires k < |RegionsSpec(listings, site, configs, today, yesterday).done|
    ensures var w := RegionsSpec(listings, site, configs, today, yesterday).done[k];
            w.0 == configs[k].reportPath &&
            RegionReport(listings, site, configs[k], today, yesterday) == Success(w.1)
  {
    var f := WriteFn(listings, site, today, yesterday);
    UntilDone(configs, f, k);
  }

  /** A run that stops does so at the region after the last one written, because a page of that
      region could not be fetched; a run that does not stop writes every region. */
  lemma RegionsStopped(listings: map<string, seq<Node>>, site: Site, configs: seq<RegionConfig>,
                       today: Dates.Date, yesterday: Dates.Date)
    ensures var o := RegionsSpec(listings, site, configs, today, yesterday);
            o.failure.None? ==> |o.done| == |configs|
    ensures var o := RegionsSpec(listings, site, configs, today, yesterday);
            o.failure.Some? ==>
              |o.done| < |configs| && o.failure.value.FetchFailed? &&
              RegionReport(listings, site, configs[|o.done|], today, yesterday) == Failure(o.failure.value)
  {
    var f := WriteFn(listings, site, today, yesterday);
    var o := Until(configs, f);
    if o.failure.Some? {
      UntilStopped(configs, f);
    }
  }

  /** `main` up to the e-mail: yesterday is the day before `today`, there must be at least one
      region script, and then every region writes its report. */
  function RunSpec(listings: map<string, seq<Node>>, site: Site, configs: seq<RegionConfig>,
                   today: Dates.Date): (o: Outcome)
    requires Dates.IsValidDate(today)
    ensures o.failure == Some(NoYesterday) <==> today == Dates.Date(1, 1, 1)
    ensures o.failure == Some(NoRegionScripts) <==> today != Dates.Date(1, 1, 1) && configs == []
  {
    match Dates.PrevDay(today)
    case None => Partial([], Some(NoYesterday))
    case Some(yesterday) =>
      if configs == [] then Partial([], Some(NoRegionScripts))
      else
        RegionsStopped(listings, site, configs, today, yesterday);
        RegionsSpec(listings, site, configs, today, yesterday)
  }

  /** `main`'s loop over the regions. */
  method RunRegions(listings: map<string, seq<Node>>, site: Site, configs: seq<RegionConfig>,
                    today: Dates.Date, yesterday: Dates.Date) returns (o: Outcome)
    ensures o == RegionsSpec(listings, site, configs, today, yesterday)
  {
    var f := WriteFn(listings, site, today, yesterday);
    var written: seq<(string, string)> := [];
    var i := 0;
    assert configs[..0] == [];
    while i < |configs|
      invariant 0 <= i <= |configs|
      invariant Until(configs[..i], f) == Partial(written, None)
    {
      var r := RunRegion(listings, site, configs[i], today, yesterday);
      UntilStep(configs, f, i);
      if r.Failure? {
        assert f(configs[i]) == Failure(r.error);
        UntilFailure(configs, f, i + 1);
        return Partial(written, Some(r.error));
      }
      assert f(configs[i]) == Success((configs[i].reportPath, r.value));
      written := written + [(configs[i].reportPath, r.value)];
      i := i + 1;
    }
    assert configs[..i] == configs;
    return Partial(written, None);
  }

  /** `main`, with the clock's date given as `today`. */
  method Run(listings: map<string, seq<Node>>, site: Site, configs: seq<RegionConfig>, today: Dates.Date)
    returns (o: Outcome)
    requires Dates.IsValidDate(today)
    ensures o == RunSpec(listings, site, configs, today)
  {
    var yesterday := Dates.PrevDay(today);
    if yesterday.None? {
      return Partial([], Some(NoYesterday));
    }
    if configs == [] {
      return Partial([], Some(NoRegionScripts));
    }
    o := RunRegions(listings, site, configs, today, yesterday.value);
  }
}
