/**
 * Link classification (`is_valid_tournament_path`) and href normalisation (`href_to_path` and the
 * inline query/fragment stripping of the document-order scanner).
 */
module Paths {
  import opened Wrappers
  import opened Text

  const TournamentsPrefix: string := "/tournaments/"

  /** Slugs that share the tournament path shape but are site routes, not tournaments. */
  const ReservedSlugs: set<string> := {"schedule", "results", "groups", "matches", "tournaments"}

  /** The group `^/tournaments/([A-Za-z0-9]+)$` captures, if the path matches. Python's `$` matches
      at the end of the text and also just before a newline that ends it. */
  function TournamentSlug(path: string): (r: Option<string>)
    ensures r.Some? ==> r.value != [] && AllAlnum(r.value)
  {
    if !StartsWith(path, TournamentsPrefix) then None
    else
      var rest := path[|TournamentsPrefix|..];
      var slug := if rest != [] && rest[|rest| - 1] == '\n' then rest[..|rest| - 1] else rest;
      if slug != [] && AllAlnum(slug) then Some(slug) else None
  }

  /** `is_valid_tournament_path(path)`. */
  function IsValidTournamentPath(path: string): bool {
    match TournamentSlug(path)
    case None => false
    case Some(slug) => Lower(slug) !in ReservedSlugs
  }

  /** A slug the classifier accepts: one or more ASCII letters and digits, not a reserved route in
      any letter case. */
  predicate IsAcceptedSlug(slug: string) {
    slug != [] && AllAlnum(slug) && Lower(slug) !in ReservedSlugs
  }

  /** A path is a tournament path exactly when it is "/tournaments/" and an accepted slug, with
      nothing after it but possibly one final newline. */
  lemma TournamentPathShape(path: string)
    ensures IsValidTournamentPath(path) <==>
            exists slug :: IsAcceptedSlug(slug) &&
                           (path == TournamentsPrefix + slug || path == TournamentsPrefix + slug + "\n")
  {
    if IsValidTournamentPath(path) {
      var slug := ValidPathSlug(path);
    }
    if exists slug :: IsAcceptedSlug(slug) &&
                      (path == TournamentsPrefix + slug || path == TournamentsPrefix + slug + "\n") {
      var slug :| IsAcceptedSlug(slug) &&
                  (path == TournamentsPrefix + slug || path == TournamentsPrefix + slug + "\n");
      if path == TournamentsPrefix + slug { SlugPathValid(slug, ""); } else { SlugPathValid(slug, "\n"); }
    }
  }

  lemma ValidPathSlug(path: string) returns (slug: string)
    requires IsValidTournamentPath(path)
    ensures IsAcceptedSlug(slug)
    ensures path == TournamentsPrefix + slug || path == TournamentsPrefix + slug + "\n"
  {
    slug := TournamentSlug(path).value;
    var rest := path[|TournamentsPrefix|..];
    assert path == TournamentsPrefix + rest;
    if rest != [] && rest[|rest| - 1] == '\n' {
      assert rest == slug + "\n";
    }
  }

  lemma SlugPathValid(slug: string, end: string)
    requires IsAcceptedSlug(slug)
    requires end == "" || end == "\n"
    ensures IsValidTournamentPath(TournamentsPrefix + slug + end)
  {
    var path := TournamentsPrefix + slug + end;
    assert path[..|TournamentsPrefix|] == TournamentsPrefix;
    var rest := path[|TournamentsPrefix|..];
    assert rest == slug + end;
    if end == "" {
      assert rest == slug;
      assert rest[|rest| - 1] != '\n' by { assert IsAlnum(slug[|slug| - 1]); }
    } else {
      assert rest[..|rest| - 1] == slug;
    }
    assert TournamentSlug(path) == Some(slug);
  }

  /** `href.split("?", 1)[0].split("#", 1)[0]`: the text of `href` up to its first "?" or "#". */
  function StripQueryFragment(href: string): (r: string)
    ensures StartsWith(href, r) && '?' !in r && '#' !in r
    ensures |r| < |href| ==> href[|r|] == '?' || href[|r|] == '#'
    ensures '?' !in href && '#' !in href ==> r == href
  {
    var a := Before(href, "?");
    BeforeChar(href, '?');
    var b := Before(a, "#");
    BeforeChar(a, '#');
    assert StartsWith(a, b);
    assert '?' !in b by {
      forall j | 0 <= j < |b| ensures b[j] != '?' { assert b[j] == a[j]; }
    }
    assert b == href[..|b|];
    assert |b| < |a| ==> href[|b|] == a[|b|];
    b
  }

  /** Whatever follows the first "?" or "#" is cut off. */
  lemma StripQueryFragmentOf(h: string, q: string)
    requires '?' !in h && '#' !in h
    requires q == [] || q[0] == '?' || q[0] == '#'
    ensures StripQueryFragment(h + q) == h
  {
    var r := StripQueryFragment(h + q);
    assert r == (h + q)[..|h|] == h;
  }

  /** `href_to_path(href)`: strip query and fragment, turn an absolute `http...` URL into the part
      after its host, and make a relative href start with "/". */
  function HrefToPath(href: string): (r: string)
    ensures r == [] || (r[0] == '/' && '?' !in r && '#' !in r)
    ensures href == [] ==> r == []
  {
    if href == [] then []
    else
      var h := StripQueryFragment(href);
      if StartsWith(h, "http") then
        match After(h, "://")
        case None => []
        case Some(rest) =>
          match After(rest, "/")
          case None => []
          case Some(p) =>
            SuffixChars(h, rest, '?');
            SuffixChars(h, rest, '#');
            SuffixChars(rest, p, '?');
            SuffixChars(rest, p, '#');
            "/" + p
      else if StartsWith(h, "/") then h
      else "/" + h
  }

  /** A relative href without query or fragment gets a leading "/". */
  lemma HrefToPathOfRelative(h: string)
    requires h != [] && '?' !in h && '#' !in h
    requires !StartsWith(h, "http") && !StartsWith(h, "/")
    ensures HrefToPath(h) == "/" + h
  {
    assert StripQueryFragment(h) == h;
  }

  /** A query or fragment is dropped before the href is looked at; an href that is nothing but
      a query or fragment becomes "/". */
  lemma HrefToPathCut(h: string, q: string)
    requires '?' !in h && '#' !in h
    requires q != [] && (q[0] == '?' || q[0] == '#')
    ensures HrefToPath(h + q) == if h == [] then "/" else HrefToPath(h)
  {
    StripQueryFragmentOf(h, q);
    assert StripQueryFragment(h) == h;
    if h == [] {
      assert !StartsWith(h, "http") && !StartsWith(h, "/");
      assert "/" + h == "/";
    }
  }

  /** Normalising twice is normalising once. */
  lemma HrefToPathIdempotent(href: string)
    ensures HrefToPath(HrefToPath(href)) == HrefToPath(href)
  {
    PathFixed(HrefToPath(href));
  }

  /** A path that already starts with "/" and has no query or fragment is left as it is. */
  lemma PathFixed(r: string)
    requires r == [] || (r[0] == '/' && '?' !in r && '#' !in r)
    ensures HrefToPath(r) == r
  {
    if r != [] {
      assert StripQueryFragment(r) == r;
      assert !StartsWith(r, "http") by { assert r[0] == '/'; }
      assert StartsWith(r, "/");
    }
  }

  /** The absolute URL a browser reports for a link, "http(s)://host/path", maps to "/path". */
  lemma HrefToPathOfAbsolute(scheme: string, host: string, path: string)
    requires scheme == "http" || scheme == "https"
    requires '/' !in host && '?' !in host && '#' !in host && '?' !in path && '#' !in path
    ensures HrefToPath(scheme + "://" + host + "/" + path) == "/" + path
  {
    var rest := host + "/" + path;
    assert rest == host + ['/'] + path;
    SchemeUrl(scheme, rest);
    Assoc(scheme + "://", host + "/", path);
    Assoc(scheme + "://", host, "/");
    AfterChar(host, '/', path);
  }

  /** An absolute URL with no "/" after the host maps to "". */
  lemma HrefToPathOfBareHost(scheme: string, host: string)
    requires scheme == "http" || scheme == "https"
    requires '/' !in host && '?' !in host && '#' !in host
    ensures HrefToPath(scheme + "://" + host) == []
  {
    SchemeUrl(scheme, host);
    match Find(host, "/")
    case None =>
    case Some(k) => OccursAtChar(host, '/', k);
  }

  /** "http(s)://" and then text without query or fragment: nothing is cut, and the text after
      the scheme separator is that text. */
  lemma SchemeUrl(scheme: string, rest: string)
    requires scheme == "http" || scheme == "https"
    requires '?' !in rest && '#' !in rest
    ensures StripQueryFragment(scheme + "://" + rest) == scheme + "://" + rest
    ensures StartsWith(scheme + "://" + rest, "http")
    ensures After(scheme + "://" + rest, "://") == Some(rest)
  {
    var s := scheme + "://" + rest;
    assert s == scheme + "://" + rest;
    assert '?' !in scheme + "://" && '#' !in scheme + "://";
    assert s[..4] == "http";
    assert OccursAt(s, "://", |scheme|) by { assert s[|scheme|..|scheme| + 3] == "://"; }
    match Find(s, "://")
    case None =>
    case Some(k) =>
      SliceHead(s, k, k + 3);
      assert k == |scheme|;
      assert s[k + 3..] == rest;
  }
}
