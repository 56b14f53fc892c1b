/** Link discovery of the crawlers (fetcher.py): which `href`s are
    followed, how they are made absolute, and the de-duplicated link lists
    of `get_article_links`, of each page of `fetch_paginated_posts` and of
    `fetch_archive_articles`. */
module Links {
  import opened Wrappers
  import opened Text
  import opened Web
  import opened Dedup
  import opened Collect

  /** The path fragments that mark a Ghost article link. */
  const GHOST_PATTERNS: seq<string> := ["/t/", "/posts/", "/p/"]
  /** `ARCHIVE_LINK_PATTERNS` of `fetch_archive_articles`. */
  const ARCHIVE_PATTERNS: seq<string> := ["/p/", "/posts/", "/blog/", "/article/", "/post/"]

  /** `any(pattern in href for pattern in patterns)` */
  predicate MatchesAny(href: string, patterns: seq<string>) {
    exists i | 0 <= i < |patterns| :: Contains(href, patterns[i])
  }

  /** The absolute URL a link leads to when the crawler follows it: a
      non-empty `href` containing one of `patterns`, prefixed with `origin`
      when it starts with `/`, taken as it is when it starts with `http`,
      and skipped otherwise. */
  function Absolutise(origin: string, patterns: seq<string>, href: string): (r: Option<string>)
    ensures r.Some? <==>
      href != "" && MatchesAny(href, patterns) && (StartsWith(href, "/") || StartsWith(href, "http"))
    ensures r.Some? && StartsWith(href, "/") ==> r.value == origin + href
    ensures r.Some? && !StartsWith(href, "/") ==> r.value == href
  {
    if href == "" || !MatchesAny(href, patterns) then None
    else if StartsWith(href, "/") then Some(origin + href)
    else if StartsWith(href, "http") then Some(href)
    else None
  }

  /** The Ghost crawlers' link rule, with the site origin. */
  function GhostUrl(href: string): Option<string> {
    Absolutise(SITE_ORIGIN, GHOST_PATTERNS, href)
  }

  /** The archive crawler's link rule, with the archive page's own origin. */
  function ArchiveUrl(origin: string): string -> Option<string> {
    href => Absolutise(origin, ARCHIVE_PATTERNS, href)
  }

  /** The Ghost crawlers keep a URL only when it is on the site. */
  function DomainKey(url: string): (r: Option<string>)
    ensures r.Some? <==> Contains(url, SITE_DOMAIN)
    ensures r.Some? ==> r.value == url
  {
    if Contains(url, SITE_DOMAIN) then Some(url) else None
  }

  /** The archive crawler keeps any URL. */
  function AnyKey(url: string): Option<string> {
    Some(url)
  }

  /** The shared link loop: each followed `href`, made absolute, is
      appended when `key` accepts it and it is not yet in `seen`, which then
      records it. `key` only accepts or rejects a URL. */
  method CollectLinks(hrefs: seq<string>, absolutise: string -> Option<string>,
                      key: string -> Option<string>, seen: set<string>)
    returns (links: seq<string>, seenAfter: set<string>)
    requires forall u :: key(u).Some? ==> key(u).value == u
    ensures links == DedupFrom(Collected(hrefs, absolutise), key, seen)
    ensures forall u :: u in seenAfter <==> u in seen || u in links
  {
    links := [];
    seenAfter := seen;
    var i := 0;
    assert hrefs[i..] == hrefs;
    while i < |hrefs|
      invariant LinkState(hrefs, absolutise, key, seen, links, seenAfter, i)
    {
      var full := absolutise(hrefs[i]);
      if full.Some? && key(full.value).Some? && full.value !in seenAfter {
        LinkTake(hrefs, absolutise, key, seen, links, seenAfter, i);
        links := links + [full.value];
        seenAfter := seenAfter + {full.value};
      } else {
        LinkPass(hrefs, absolutise, key, seen, links, seenAfter, i);
      }
      i := i + 1;
    }
    assert hrefs[i..] == [];
  }

  /** The state of `CollectLinks` after `i` hrefs: `seenAfter` is `seen`
      with the links so far, and those links followed by what the remaining
      hrefs yield are the whole result. */
  ghost predicate LinkState(hrefs: seq<string>, absolutise: string -> Option<string>,
                            key: string -> Option<string>, seen: set<string>,
                            links: seq<string>, seenAfter: set<string>, i: int)
  {
    && 0 <= i <= |hrefs|
    && SeenLinks(seen, links, seenAfter)
    && links + DedupFrom(Collected(hrefs[i..], absolutise), key, seenAfter)
       == DedupFrom(Collected(hrefs, absolutise), key, seen)
  }

  /** `seenAfter` is `seen` with `links` added. */
  ghost predicate SeenLinks(seen: set<string>, links: seq<string>, seenAfter: set<string>) {
    forall u :: u in seenAfter <==> u in seen || u in links
  }

  lemma SeenLinksAdd(seen: set<string>, links: seq<string>, seenAfter: set<string>, url: string)
    requires SeenLinks(seen, links, seenAfter)
    ensures SeenLinks(seen, links + [url], seenAfter + {url})
  {
  }

  lemma LinkTake(hrefs: seq<string>, absolutise: string -> Option<string>,
                 key: string -> Option<string>, seen: set<string>,
                 links: seq<string>, seenAfter: set<string>, i: int)
    requires i < |hrefs| && LinkState(hrefs, absolutise, key, seen, links, seenAfter, i)
    requires absolutise(hrefs[i]).Some? && key(absolutise(hrefs[i]).value).Some?
    requires absolutise(hrefs[i]).value !in seenAfter
    requires forall u :: key(u).Some? ==> key(u).value == u
    ensures var url := absolutise(hrefs[i]).value;
      LinkState(hrefs, absolutise, key, seen, links + [url], seenAfter + {url}, i + 1)
  {
    var url := absolutise(hrefs[i]).value;
    var rest := Collected(hrefs[i + 1..], absolutise);
    CollectedCons(hrefs, i, absolutise);
    assert key(url) == Some(url);
    DedupTakeFront(links, url, rest, key, seenAfter, DedupFrom(Collected(hrefs, absolutise), key, seen));
    SeenLinksAdd(seen, links, seenAfter, url);
  }

  lemma LinkPass(hrefs: seq<string>, absolutise: string -> Option<string>,
                 key: string -> Option<string>, seen: set<string>,
                 links: seq<string>, seenAfter: set<string>, i: int)
    requires i < |hrefs| && LinkState(hrefs, absolutise, key, seen, links, seenAfter, i)
    requires absolutise(hrefs[i]).Some? ==>
      key(absolutise(hrefs[i]).value).None? || absolutise(hrefs[i]).value in seenAfter
    requires forall u :: key(u).Some? ==> key(u).value == u
    ensures LinkState(hrefs, absolutise, key, seen, links, seenAfter, i + 1)
  {
    var rest := Collected(hrefs[i + 1..], absolutise);
    CollectedCons(hrefs, i, absolutise);
    var full := absolutise(hrefs[i]);
    if full.Some? {
      var url := full.value;
      assert key(url).Some? ==> key(url).value == url;
      DedupCons(url, rest, key, seenAfter);
      assert DedupFrom([url] + rest, key, seenAfter) == DedupFrom(rest, key, seenAfter);
    } else {
      assert [] + rest == rest;
    }
  }

  /** `get_article_links(base_url)`: the on-site article links of the page,
      in first-seen order, each once; `[]` when the request fails. */
  method GetArticleLinks(web: Web, baseUrl: string) returns (links: seq<string>)
    ensures links == ArticleLinks(web, baseUrl)
  {
    match web.listing(baseUrl)
    case Links(hrefs) =>
      var seen;
      links, seen := CollectLinks(hrefs, GhostUrl, DomainKey, {});
    case _ =>
      links := [];
  }

  function ArticleLinks(web: Web, baseUrl: string): seq<string> {
    match web.listing(baseUrl)
    case Links(hrefs) => DedupFrom(Collected(hrefs, GhostUrl), DomainKey, {})
    case _ => []
  }

  /** The links `get_article_links` returns are pairwise distinct and on the
      site, each comes from an `href` of the page, and every on-site link the
      page offers is among them. */
  lemma ArticleLinksProperties(web: Web, baseUrl: string)
    ensures var links := ArticleLinks(web, baseUrl);
      && (forall i, j | 0 <= i < j < |links| :: links[i] != links[j])
      && (forall i | 0 <= i < |links| :: Contains(links[i], SITE_DOMAIN))
      && (web.listing(baseUrl).Links? ==>
            var hrefs := web.listing(baseUrl).hrefs;
            && (forall i | 0 <= i < |links| :: links[i] in Collected(hrefs, GhostUrl))
            && (forall h | h in hrefs && GhostUrl(h).Some? && Contains(GhostUrl(h).value, SITE_DOMAIN) ::
                  GhostUrl(h).value in links))
  {
    if web.listing(baseUrl).Links? {
      var hrefs := web.listing(baseUrl).hrefs;
      var cands := Collected(hrefs, GhostUrl);
      var links := DedupFrom(cands, DomainKey, {});
      DedupIsSubsequence(cands, DomainKey, {});
      forall i | 0 <= i < |links| ensures links[i] in cands {
        SubsequenceMember(links, cands, i);
      }
      forall h | h in hrefs && GhostUrl(h).Some? && Contains(GhostUrl(h).value, SITE_DOMAIN)
        ensures GhostUrl(h).value in links
      {
        var k :| 0 <= k < |hrefs| && hrefs[k] == h;
        CollectedHas(hrefs, GhostUrl, k);
        var u := GhostUrl(h).value;
        var c :| 0 <= c < |cands| && cands[c] == u;
        DedupCoversKeys(cands, DomainKey, {}, c);
      }
    }
  }

  /** The archive page's links, each once, in first-seen order; `[]` when the
      archive page cannot be fetched. */
  function ArchiveLinks(web: Web, archiveUrl: string): (links: seq<string>)
    ensures forall i, j | 0 <= i < j < |links| :: links[i] != links[j]
  {
    match web.listing(archiveUrl)
    case Links(hrefs) => DedupFrom(Collected(hrefs, ArchiveUrl(web.origin(archiveUrl))), AnyKey, {})
    case _ => []
  }

  /** The archive crawler keeps exactly the archive page's `href`s that
      `ArchiveUrl` follows, made absolute against the archive page's own
      origin: every link is one of them, and every one of them is a link. */
  lemma ArchiveLinksProperties(web: Web, archiveUrl: string)
    ensures web.listing(archiveUrl).Links? ==>
      var hrefs := web.listing(archiveUrl).hrefs;
      var follow := ArchiveUrl(web.origin(archiveUrl));
      var links := ArchiveLinks(web, archiveUrl);
      && (forall i | 0 <= i < |links| :: links[i] in Collected(hrefs, follow))
      && (forall h | h in hrefs && follow(h).Some? :: follow(h).value in links)
    ensures !web.listing(archiveUrl).Links? ==> ArchiveLinks(web, archiveUrl) == []
  {
    if web.listing(archiveUrl).Links? {
      var hrefs := web.listing(archiveUrl).hrefs;
      var follow := ArchiveUrl(web.origin(archiveUrl));
      var cands := Collected(hrefs, follow);
      var links := DedupFrom(cands, AnyKey, {});
      DedupIsSubsequence(cands, AnyKey, {});
      forall i | 0 <= i < |links| ensures links[i] in cands {
        SubsequenceMember(links, cands, i);
      }
      forall h | h in hrefs && follow(h).Some? ensures follow(h).value in links {
        var k :| 0 <= k < |hrefs| && hrefs[k] == h;
        CollectedHas(hrefs, follow, k);
        var c :| 0 <= c < |cands| && cands[c] == follow(h).value;
        DedupCoversKeys(cands, AnyKey, {}, c);
      }
    }
  }
}
