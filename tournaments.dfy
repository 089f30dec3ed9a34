/** What the listing scans of both scrapers collect: tournaments, known by their URL. */
module Tournaments {
  import opened Dedup

  /** The site every tournament and relative group link lives on. */
  const Root: string := "https://www.dartsatlas.com"

  /** A collected tournament: its title and its URL. */
  datatype Tournament = Tournament(title: string, url: string)

  function UrlOf(t: Tournament): string { t.url }

  /** Recording one more tournament: it is appended exactly when its URL is new. */
  lemma RecordStep(hits: seq<Tournament>, e: Tournament)
    ensures KeysOf(hits + [e], UrlOf) == KeysOf(hits, UrlOf) + {e.url}
    ensures e.url in KeysOf(hits, UrlOf) ==> DedupBy(hits + [e], UrlOf) == DedupBy(hits, UrlOf)
    ensures e.url !in KeysOf(hits, UrlOf) ==> DedupBy(hits + [e], UrlOf) == DedupBy(hits, UrlOf) + [e]
  {
    DedupBySnoc(hits, e, UrlOf);
    assert UrlOf(e) == e.url;
  }
}
