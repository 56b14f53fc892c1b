/** The crawlers of fetcher.py: `fetch_articles`, `fetch_paginated_posts`,
    `fetch_wordpress_rss` (and `fetch_deacon_articles`, which calls it),
    `fetch_ray_articles` and `fetch_archive_articles`. Each walks a list of
    links or feed items, skips what fails or is older than `since`, and
    stops early on `limit`. */
module Crawlers {
  import opened Wrappers
  import opened Text
  import opened Web
  import opened Dedup
  import opened Collect
  import opened Links
  import opened Pages

  /** `fetch_article` as a function of the link: `None` when it raises. */
  function ArticleLookup(web: Web, cal: Calendar): string -> Option<Article> {
    url => ArticleOf(web, cal, url)
  }

  /** A link's article after the `since` filter: `None` when fetching
      raises or the filter rejects the article. */
  function Since(fetch: string -> Option<Article>, cal: Calendar, since: Option<string>): string -> Option<Article> {
    url =>
      var a := fetch(url);
      if a.Some? && KeepSince(cal, a.value.publishedAt, since) then a else None
  }

  /** `fetch_article` followed by the `since` filter. */
  function SinceEntry(web: Web, cal: Calendar, since: Option<string>): string -> Option<Article> {
    Since(ArticleLookup(web, cal), cal, since)
  }

  // ---- fetch_articles ----

  /** The links `fetch_articles` fetches: those of `get_article_links`, cut
      to `links[:limit]` when `limit` is truthy. */
  function LinksToFetch(web: Web, baseUrl: string, limit: Option<int>): seq<string> {
    var links := ArticleLinks(web, baseUrl);
    if TruthyLimit(limit) then PySliceTo(links, limit.value) else links
  }

  /** `fetch_articles(base_url, limit, since)`: the fetched articles that
      pass the `since` filter, in link order; `None` when `fetch_article`
      raises on one of the links, which nothing here catches. */
  method FetchArticles(web: Web, cal: Calendar, baseUrl: string, limit: Option<int>, since: Option<string>)
    returns (r: Option<seq<Article>>)
    ensures var urls := LinksToFetch(web, baseUrl, limit);
      && (r.None? <==> exists i | 0 <= i < |urls| :: ArticleLookup(web, cal)(urls[i]).None?)
      && (r.Some? ==> r.value == Collected(urls, SinceEntry(web, cal, since)))
  {
    var urls := GetArticleLinks(web, baseUrl);
    if TruthyLimit(limit) {
      urls := PySliceTo(urls, limit.value);
    }
    assert urls == LinksToFetch(web, baseUrl, limit);
    var lookup := ArticleLookup(web, cal);
    var articles, failed := FetchEach(lookup, cal, since, urls);
    assert Since(lookup, cal, since) == SinceEntry(web, cal, since);
    r := if failed then None else Some(articles);
  }

  /** The article loop of `fetch_articles`: fetch each link in turn, keep
      what passes the `since` filter, and give up when a fetch raises. */
  method FetchEach(fetch: string -> Option<Article>, cal: Calendar, since: Option<string>, urls: seq<string>)
    returns (articles: seq<Article>, failed: bool)
    ensures failed <==> exists i | 0 <= i < |urls| :: fetch(urls[i]).None?
    ensures !failed ==> articles == Collected(urls, Since(fetch, cal, since))
  {
    articles := [];
    var i := 0;
    while i < |urls|
      invariant 0 <= i <= |urls|
      invariant forall j | 0 <= j < i :: fetch(urls[j]).Some?
      invariant articles == Collected(urls[..i], Since(fetch, cal, since))
    {
      var article := fetch(urls[i]);
      if article.None? {
        return articles, true;
      }
      CollectedSnoc(urls, i, Since(fetch, cal, since));
      if KeepSince(cal, article.value.publishedAt, since) {
        articles := articles + [article.value];
      }
      i := i + 1;
    }
    assert urls[..i] == urls;
    return articles, false;
  }

  /** With a positive `limit`, `fetch_articles` fetches at most `limit`
      links; with a negative one it drops that many from the end. */
  lemma LinksToFetchBound(web: Web, baseUrl: string, limit: Option<int>)
    ensures var links := ArticleLinks(web, baseUrl);
      var urls := LinksToFetch(web, baseUrl, limit);
      && urls == links[..|urls|]
      && (TruthyLimit(limit) && limit.value > 0 ==> |urls| <= limit.value)
      && (TruthyLimit(limit) && limit.value < 0 ==> |urls| == if |links| + limit.value > 0 then |links| + limit.value else 0)
      && (!TruthyLimit(limit) ==> urls == links)
  {
  }

  // ---- fetch_paginated_posts ----

  /** Why the pagination loop ended. */
  datatype Stop = PageMissing | PageFailed | NoNewLinks | LimitReached | Ceiling

  /** `url` is a followed on-site link of the listing page at `pageUrl`. */
  ghost predicate Offered(web: Web, pageUrl: string, url: string) {
    web.listing(pageUrl).Links? && url in Collected(web.listing(pageUrl).hrefs, GhostUrl)
  }

  /** What the article loop of one listing page did: the article list after
      it, how many of the page's links it fetched, and whether the limit
      check fired. */
  datatype PageRun = PageRun(articles: seq<Article>, n: nat, hit: bool)

  /** The article loop of one listing page, starting from `articles`: fetch
      each link in turn, append its article when `entry` yields one, and
      stop right after the append that makes the limit check fire. */
  function PageArticles(entry: string -> Option<Article>, limit: Option<int>,
                        links: seq<string>, articles: seq<Article>): (r: PageRun)
    decreases |links|
    ensures r.n <= |links|
  {
    if links == [] then PageRun(articles, 0, false)
    else
      var a := entry(links[0]);
      var more := if a.Some? then articles + [a.value] else articles;
      if a.Some? && LimitHit(limit, |more|) then PageRun(more, 1, true)
      else
        var r := PageArticles(entry, limit, links[1..], more);
        PageRun(r.articles, r.n + 1, r.hit)
  }

  /** What the article loop of a page did, started from the articles of
      the links `fetched`: it fetched a prefix of `links` and appended their
      articles in order; it stopped early exactly when the limit check
      fired, and then the list is at the cap; otherwise it fetched every
      link and the list is still under the limit. */
  ghost predicate PageRunFacts(entry: string -> Option<Article>, limit: Option<int>,
                               links: seq<string>, fetched: seq<string>, r: PageRun)
  {
    && r.n <= |links|
    && r.articles == Collected(fetched + links[..r.n], entry)
    && (r.hit ==> r.articles != [] && LimitHit(limit, |r.articles|) && |r.articles| == Cap(limit))
    && (!r.hit ==> r.n == |links| && Unhit(limit, r.articles))
  }

  /** From a list that has not hit the limit, the article loop of a page
      does what `PageRunFacts` says. */
  lemma {:induction false} PageArticlesFacts(entry: string -> Option<Article>, limit: Option<int>,
                                             links: seq<string>, articles: seq<Article>, fetched: seq<string>)
    requires articles == Collected(fetched, entry) && Unhit(limit, articles)
    decreases |links|
    ensures PageRunFacts(entry, limit, links, fetched, PageArticles(entry, limit, links, articles))
  {
    if links == [] {
      assert fetched + links[..0] == fetched;
    } else {
      var a := entry(links[0]);
      var more := if a.Some? then articles + [a.value] else articles;
      CollectedPush(fetched, links[0], entry);
      if a.Some? && LimitHit(limit, |more|) {
        HitAtCap(limit, articles, a.value);
        assert links[..1] == [links[0]];
      } else {
        var r := PageArticles(entry, limit, links[1..], more);
        PageArticlesFacts(entry, limit, links[1..], more, fetched + [links[0]]);
        PrefixShift(fetched, links, r.n);
      }
    }
  }

  /** Moving the first link into the fetched prefix. */
  lemma PrefixShift<T>(a: seq<T>, xs: seq<T>, k: nat)
    requires k < |xs|
    ensures (a + [xs[0]]) + xs[1..][..k] == a + xs[..k + 1]
  {
    assert xs[..k + 1] == [xs[0]] + xs[1..][..k];
  }

  /** The state of the article loop of a page after `n` links: finishing
      the loop from there gives the whole loop's outcome. */
  ghost predicate PageState(entry: string -> Option<Article>, limit: Option<int>, links: seq<string>,
                            articles0: seq<Article>, articles: seq<Article>, n: nat)
  {
    && n <= |links|
    && var r := PageArticles(entry, limit, links[n..], articles);
       PageArticles(entry, limit, links, articles0) == PageRun(r.articles, r.n + n, r.hit)
  }

  lemma PageNext(entry: string -> Option<Article>, limit: Option<int>, links: seq<string>,
                 articles0: seq<Article>, articles: seq<Article>, n: nat)
    requires n < |links| && PageState(entry, limit, links, articles0, articles, n)
    ensures var a := entry(links[n]);
      var more := if a.Some? then articles + [a.value] else articles;
      if a.Some? && LimitHit(limit, |more|) then PageArticles(entry, limit, links, articles0) == PageRun(more, n + 1, true)
      else PageState(entry, limit, links, articles0, more, n + 1)
  {
    assert links[n..][0] == links[n] && links[n..][1..] == links[n + 1..];
  }

  lemma PageDone(entry: string -> Option<Article>, limit: Option<int>, links: seq<string>,
                 articles0: seq<Article>, articles: seq<Article>, n: nat)
    requires n == |links| && PageState(entry, limit, links, articles0, articles, n)
    ensures PageArticles(entry, limit, links, articles0) == PageRun(articles, n, false)
  {
    assert links[n..] == [];
  }

  /** The article loop of one listing page: fetch each new link in turn,
      keep its article when `entry` yields one, and stop as soon as the
      limit check fires (`hit`); `n` counts the links fetched. */
  method FetchPageArticles(entry: string -> Option<Article>, limit: Option<int>,
                           pageLinks: seq<string>, articles0: seq<Article>)
    returns (articles: seq<Article>, n: nat, hit: bool)
    ensures PageRun(articles, n, hit) == PageArticles(entry, limit, pageLinks, articles0)
  {
    articles := articles0;
    n := 0;
    hit := false;
    assert pageLinks[0..] == pageLinks;
    while n < |pageLinks|
      invariant PageState(entry, limit, pageLinks, articles0, articles, n)
    {
      var article := entry(pageLinks[n]);
      PageNext(entry, limit, pageLinks, articles0, articles, n);
      if article.Some? {
        articles := articles + [article.value];
        if LimitHit(limit, |articles|) {
          return articles, n + 1, true;
        }
      }
      n := n + 1;
    }
    PageDone(entry, limit, pageLinks, articles0, articles, n);
  }

  /** The new links of a listing page: its followed on-site links not seen
      before, each once, in page order. */
  function NewLinks(hrefs: seq<string>, seen: set<string>): seq<string> {
    DedupFrom(Collected(hrefs, GhostUrl), DomainKey, seen)
  }

  /** The outcome of the pagination loop: the articles, the links it
      fetched in fetch order, for each of them the number of the listing
      page that offered it, the number of pages requested, and why it
      stopped. */
  datatype Crawl = Crawl(articles: seq<Article>, fetched: seq<string>, offeredBy: seq<nat>, pages: nat, stop: Stop)

  /** The pagination loop from listing page `page` on, given the URLs seen
      so far, the articles so far, and the links fetched so far with the
      pages that offered them. Page 1 is `base_url` and page `n` is
      `base_url/page/n`; the loop stops at the first page that is missing
      (404), fails, or offers no new link, after the append that makes the
      limit check fire, or after page `MAX_PAGES`. */
  function CrawlFrom(web: Web, entry: string -> Option<Article>, baseUrl: string, limit: Option<int>,
                     page: nat, seen: set<string>, articles: seq<Article>,
                     fetched: seq<string>, offeredBy: seq<nat>): Crawl
    requires page >= 1
    decreases MAX_PAGES + 1 - page
  {
    if page > MAX_PAGES then Crawl(articles, fetched, offeredBy, page - 1, Ceiling)
    else
      match web.listing(PageUrl(baseUrl, page))
      case NotFound => Crawl(articles, fetched, offeredBy, page, PageMissing)
      case ListingFailed => Crawl(articles, fetched, offeredBy, page, PageFailed)
      case Links(hrefs) =>
        var links := NewLinks(hrefs, seen);
        if links == [] then Crawl(articles, fetched, offeredBy, page, NoNewLinks)
        else
          var run := PageArticles(entry, limit, links, articles);
          var fetchedNext := fetched + links[..run.n];
          var offeredNext := offeredBy + seq(run.n, _ => page);
          if run.hit then Crawl(run.articles, fetchedNext, offeredNext, page, LimitReached)
          else CrawlFrom(web, entry, baseUrl, limit, page + 1, seen + (set u | u in links),
                         run.articles, fetchedNext, offeredNext)
  }

  /** `fetch_paginated_posts` for the per-link step `entry`. */
  function PaginatedPosts(web: Web, entry: string -> Option<Article>, baseUrl: string, limit: Option<int>): Crawl {
    CrawlFrom(web, entry, baseUrl, limit, 1, {}, [], [], [])
  }

  /** No link occurs twice. */
  predicate NoRepeats(xs: seq<string>) {
    forall i, j | 0 <= i < j < |xs| :: xs[i] != xs[j]
  }

  /** Every followed on-site link of listing page `j` is among `fetched`. */
  ghost predicate PageCovered(web: Web, baseUrl: string, j: nat, fetched: seq<string>) {
    && web.listing(PageUrl(baseUrl, j)).Links?
    && forall u | u in Collected(web.listing(PageUrl(baseUrl, j)).hrefs, GhostUrl) && Contains(u, SITE_DOMAIN) ::
         u in fetched
  }

  /** Every fetched link is on the site and was offered by listing page
      `offeredBy[i]`, one of the first `pages` pages. */
  ghost predicate Logged(web: Web, baseUrl: string, pages: nat, fetched: seq<string>, offeredBy: seq<nat>) {
    && |offeredBy| == |fetched|
    && forall i | 0 <= i < |fetched| ::
         && Contains(fetched[i], SITE_DOMAIN)
         && 1 <= offeredBy[i] <= pages
         && Offered(web, PageUrl(baseUrl, offeredBy[i]), fetched[i])
  }

  /** What `fetch_paginated_posts` guarantees about its outcome `r`, for the
      per-link step `entry`. Between 1 and `MAX_PAGES` pages are requested.
      The articles are the `entry` values of the fetched links in fetch
      order; no link is fetched twice, and each is on the site and was
      offered by a requested page. Every page before the last answered, and
      all its on-site links were fetched. The loop stopped for the reason
      `stop` says: the last page was missing or failed, or it offered no
      new link, or the limit check fired, or the ceiling was reached; only
      the limit leaves the list at the limit, and a truthy limit bounds it. */
  ghost predicate Paginated(web: Web, entry: string -> Option<Article>, baseUrl: string, limit: Option<int>, r: Crawl) {
    && 1 <= r.pages <= MAX_PAGES
    && r.articles == Collected(r.fetched, entry)
    && NoRepeats(r.fetched)
    && Logged(web, baseUrl, r.pages, r.fetched, r.offeredBy)
    && (forall j | 1 <= j < r.pages :: PageCovered(web, baseUrl, j, r.fetched))
    && (TruthyLimit(limit) ==> |r.articles| <= Cap(limit))
    && (r.stop == LimitReached <==> r.articles != [] && LimitHit(limit, |r.articles|))
    && (r.stop == PageMissing ==> web.listing(PageUrl(baseUrl, r.pages)) == NotFound)
    && (r.stop == PageFailed ==> web.listing(PageUrl(baseUrl, r.pages)) == ListingFailed)
    && (r.stop == NoNewLinks || r.stop == Ceiling ==> PageCovered(web, baseUrl, r.pages, r.fetched))
    && (r.stop == Ceiling ==> r.pages == MAX_PAGES)
  }

  /** The state the pagination loop keeps at the start of page `page`: the
      articles are the `entry` values of the fetched links, the list is under
      the limit, no link was fetched twice, `seen` is exactly the fetched
      links, and every earlier page answered and had all its on-site links
      fetched. */
  ghost predicate CrawlState(web: Web, entry: string -> Option<Article>, baseUrl: string, limit: Option<int>,
                             page: nat, seen: set<string>, articles: seq<Article>,
                             fetched: seq<string>, offeredBy: seq<nat>)
  {
    && 1 <= page <= MAX_PAGES + 1
    && articles == Collected(fetched, entry)
    && Unhit(limit, articles)
    && NoRepeats(fetched)
    && (forall u :: u in seen <==> u in fetched)
    && Logged(web, baseUrl, page - 1, fetched, offeredBy)
    && (forall j | 1 <= j < page :: PageCovered(web, baseUrl, j, fetched))
  }

  /** `fetch_paginated_posts` keeps its guarantee for any per-link step. */
  lemma PaginatedPostsProperties(web: Web, entry: string -> Option<Article>, baseUrl: string, limit: Option<int>)
    ensures Paginated(web, entry, baseUrl, limit, PaginatedPosts(web, entry, baseUrl, limit))
  {
    CrawlFromProperties(web, entry, baseUrl, limit, 1, {}, [], [], []);
  }

  /** From any loop state, the rest of the crawl ends in an outcome with the guarantee. */
  lemma {:induction false} CrawlFromProperties(web: Web, entry: string -> Option<Article>, baseUrl: string,
                                               limit: Option<int>, page: nat, seen: set<string>,
                                               articles: seq<Article>, fetched: seq<string>, offeredBy: seq<nat>)
    requires CrawlState(web, entry, baseUrl, limit, page, seen, articles, fetched, offeredBy)
    decreases MAX_PAGES + 1 - page
    ensures Paginated(web, entry, baseUrl, limit, CrawlFrom(web, entry, baseUrl, limit, page, seen, articles, fetched, offeredBy))
  {
    if page > MAX_PAGES || !web.listing(PageUrl(baseUrl, page)).Links? {
      CrawlStops(web, entry, baseUrl, limit, page, seen, articles, fetched, offeredBy);
    } else {
      var links := NewLinks(web.listing(PageUrl(baseUrl, page)).hrefs, seen);
      var run := PageArticles(entry, limit, links, articles);
      if links == [] {
        CrawlNoNewLinks(web, entry, baseUrl, limit, page, seen, articles, fetched, offeredBy);
      } else if run.hit {
        CrawlHit(web, entry, baseUrl, limit, page, seen, articles, fetched, offeredBy);
      } else {
        CrawlNext(web, entry, baseUrl, limit, page, seen, articles, fetched, offeredBy, links, run);
        CrawlGoesOn(web, entry, baseUrl, limit, page, seen, articles, fetched, offeredBy);
        CrawlFromProperties(web, entry, baseUrl, limit, page + 1, seen + (set u | u in links), run.articles,
                            fetched + links[..run.n], offeredBy + seq(run.n, _ => page));
      }
    }
  }

  /** The ceiling, a missing page and a failed page end the crawl with the state as it is. */
  lemma CrawlStops(web: Web, entry: string -> Option<Article>, baseUrl: string, limit: Option<int>,
                   page: nat, seen: set<string>, articles: seq<Article>, fetched: seq<string>, offeredBy: seq<nat>)
    requires CrawlState(web, entry, baseUrl, limit, page, seen, articles, fetched, offeredBy)
    requires page > MAX_PAGES || !web.listing(PageUrl(baseUrl, page)).Links?
    ensures Paginated(web, entry, baseUrl, limit, CrawlFrom(web, entry, baseUrl, limit, page, seen, articles, fetched, offeredBy))
  {
    if TruthyLimit(limit) {
      UnhitWithinCap(limit, articles);
    }
  }

  /** A page with no new link ends the crawl, and all its on-site links were fetched before. */
  lemma CrawlNoNewLinks(web: Web, entry: string -> Option<Article>, baseUrl: string, limit: Option<int>,
                        page: nat, seen: set<string>, articles: seq<Article>, fetched: seq<string>, offeredBy: seq<nat>)
    requires CrawlState(web, entry, baseUrl, limit, page, seen, articles, fetched, offeredBy)
    requires page <= MAX_PAGES && web.listing(PageUrl(baseUrl, page)).Links?
    requires NewLinks(web.listing(PageUrl(baseUrl, page)).hrefs, seen) == []
    ensures Paginated(web, entry, baseUrl, limit, CrawlFrom(web, entry, baseUrl, limit, page, seen, articles, fetched, offeredBy))
  {
    var cands := Collected(web.listing(PageUrl(baseUrl, page)).hrefs, GhostUrl);
    DedupEmpty(cands, DomainKey, seen);
    forall u | u in cands && Contains(u, SITE_DOMAIN) ensures u in fetched {
      var i :| 0 <= i < |cands| && cands[i] == u;
    }
    if TruthyLimit(limit) {
      UnhitWithinCap(limit, articles);
    }
  }

  /** After the article loop of a page with new links, the fetched links
      are still distinct and logged, earlier pages stay covered, and the
      loop did what `PageRunFacts` says. */
  lemma CrawlPageState(web: Web, entry: string -> Option<Article>, baseUrl: string, limit: Option<int>,
                       page: nat, seen: set<string>, articles: seq<Article>, fetched: seq<string>, offeredBy: seq<nat>,
                       links: seq<string>, run: PageRun)
    requires CrawlState(web, entry, baseUrl, limit, page, seen, articles, fetched, offeredBy)
    requires page <= MAX_PAGES && web.listing(PageUrl(baseUrl, page)).Links?
    requires links == NewLinks(web.listing(PageUrl(baseUrl, page)).hrefs, seen)
    requires run == PageArticles(entry, limit, links, articles)
    ensures PageRunFacts(entry, limit, links, fetched, run)
    ensures NoRepeats(fetched + links[..run.n])
    ensures Logged(web, baseUrl, page, fetched + links[..run.n], offeredBy + seq(run.n, _ => page))
    ensures forall j | 1 <= j < page :: PageCovered(web, baseUrl, j, fetched + links[..run.n])
  {
    PageArticlesFacts(entry, limit, links, articles, fetched);
    CrawlPageLog(web, baseUrl, page, seen, fetched, offeredBy, links, run.n);
    CoveredGrows(web, baseUrl, page, fetched, links[..run.n]);
  }

  /** Fetching a prefix of a page's new links keeps the log. */
  lemma CrawlPageLog(web: Web, baseUrl: string, page: nat, seen: set<string>, fetched: seq<string>,
                     offeredBy: seq<nat>, links: seq<string>, n: nat)
    requires 1 <= page && web.listing(PageUrl(baseUrl, page)).Links?
    requires NoRepeats(fetched) && (forall u :: u in seen <==> u in fetched)
    requires Logged(web, baseUrl, page - 1, fetched, offeredBy)
    requires links == NewLinks(web.listing(PageUrl(baseUrl, page)).hrefs, seen) && n <= |links|
    ensures NoRepeats(fetched + links[..n])
    ensures Logged(web, baseUrl, page, fetched + links[..n], offeredBy + seq(n, _ => page))
  {
    PageLinksFacts(Collected(web.listing(PageUrl(baseUrl, page)).hrefs, GhostUrl), seen, links);
    var more := links[..n];
    AppendDistinct(fetched, more);
    LoggedExtend(web, baseUrl, page, fetched, offeredBy, more);
  }

  /** Pages covered by the fetched links stay covered as more are fetched. */
  lemma CoveredGrows(web: Web, baseUrl: string, page: nat, fetched: seq<string>, more: seq<string>)
    requires forall j | 1 <= j < page :: PageCovered(web, baseUrl, j, fetched)
    ensures forall j | 1 <= j < page :: PageCovered(web, baseUrl, j, fetched + more)
  {
    forall j | 1 <= j < page ensures PageCovered(web, baseUrl, j, fetched + more) {
      assert PageCovered(web, baseUrl, j, fetched);
    }
  }

  /** Adding a covered page to the covered pages before it. */
  lemma CoveredNext(web: Web, baseUrl: string, page: nat, fetched: seq<string>)
    requires forall j | 1 <= j < page :: PageCovered(web, baseUrl, j, fetched)
    requires PageCovered(web, baseUrl, page, fetched)
    ensures forall j | 1 <= j < page + 1 :: PageCovered(web, baseUrl, j, fetched)
  {
  }

  /** Appending links offered by page `page` to the log. */
  lemma LoggedExtend(web: Web, baseUrl: string, page: nat, fetched: seq<string>, offeredBy: seq<nat>, more: seq<string>)
    requires page >= 1 && Logged(web, baseUrl, page - 1, fetched, offeredBy)
    requires web.listing(PageUrl(baseUrl, page)).Links?
    requires forall i | 0 <= i < |more| ::
      Contains(more[i], SITE_DOMAIN) && more[i] in Collected(web.listing(PageUrl(baseUrl, page)).hrefs, GhostUrl)
    ensures Logged(web, baseUrl, page, fetched + more, offeredBy + seq(|more|, _ => page))
  {
    var all := fetched + more;
    var pageOf := offeredBy + seq(|more|, _ => page);
    forall i | 0 <= i < |all|
      ensures Contains(all[i], SITE_DOMAIN) && 1 <= pageOf[i] <= page && Offered(web, PageUrl(baseUrl, pageOf[i]), all[i])
    {
      if i >= |fetched| {
        assert all[i] == more[i - |fetched|] && pageOf[i] == page;
      }
    }
  }

  /** The append that fires the limit check ends the crawl on this page. */
  lemma CrawlHit(web: Web, entry: string -> Option<Article>, baseUrl: string, limit: Option<int>,
                 page: nat, seen: set<string>, articles: seq<Article>, fetched: seq<string>, offeredBy: seq<nat>)
    requires CrawlState(web, entry, baseUrl, limit, page, seen, articles, fetched, offeredBy)
    requires page <= MAX_PAGES && web.listing(PageUrl(baseUrl, page)).Links?
    requires NewLinks(web.listing(PageUrl(baseUrl, page)).hrefs, seen) != []
    requires PageArticles(entry, limit, NewLinks(web.listing(PageUrl(baseUrl, page)).hrefs, seen), articles).hit
    ensures Paginated(web, entry, baseUrl, limit, CrawlFrom(web, entry, baseUrl, limit, page, seen, articles, fetched, offeredBy))
  {
    var links := NewLinks(web.listing(PageUrl(baseUrl, page)).hrefs, seen);
    var run := PageArticles(entry, limit, links, articles);
    CrawlPageState(web, entry, baseUrl, limit, page, seen, articles, fetched, offeredBy, links, run);
    var r := CrawlFrom(web, entry, baseUrl, limit, page, seen, articles, fetched, offeredBy);
    assert r == Crawl(run.articles, fetched + links[..run.n], offeredBy + seq(run.n, _ => page), page, LimitReached);
  }

  /** A page whose new links were all fetched without hitting the limit
      leaves the loop state for the next page. */
  lemma CrawlNext(web: Web, entry: string -> Option<Article>, baseUrl: string, limit: Option<int>,
                  page: nat, seen: set<string>, articles: seq<Article>, fetched: seq<string>, offeredBy: seq<nat>,
                  links: seq<string>, run: PageRun)
    requires CrawlState(web, entry, baseUrl, limit, page, seen, articles, fetched, offeredBy)
    requires page <= MAX_PAGES && web.listing(PageUrl(baseUrl, page)).Links?
    requires links == NewLinks(web.listing(PageUrl(baseUrl, page)).hrefs, seen)
    requires run == PageArticles(entry, limit, links, articles) && !run.hit
    ensures CrawlState(web, entry, baseUrl, limit, page + 1, seen + (set u | u in links), run.articles,
                       fetched + links[..run.n], offeredBy + seq(run.n, _ => page))
  {
    CrawlPageState(web, entry, baseUrl, limit, page, seen, articles, fetched, offeredBy, links, run);
    assert links[..run.n] == links;
    var fetchedNext := fetched + links;
    PageCoveredByNewLinks(web, baseUrl, page, seen, fetched, links);
    CoveredNext(web, baseUrl, page, fetchedNext);
    SeenGrows(seen, fetched, links);
  }

  /** Recording a page's links as seen keeps the seen set equal to the fetched links. */
  lemma SeenGrows<T>(seen: set<T>, fetched: seq<T>, links: seq<T>)
    requires forall u :: u in seen <==> u in fetched
    ensures forall u :: u in seen + (set u | u in links) <==> u in fetched + links
  {
  }

  /** Past a page whose new links were all fetched, the crawl goes on from the next page. */
  lemma CrawlGoesOn(web: Web, entry: string -> Option<Article>, baseUrl: string, limit: Option<int>,
                    page: nat, seen: set<string>, articles: seq<Article>, fetched: seq<string>, offeredBy: seq<nat>)
    requires 1 <= page <= MAX_PAGES && web.listing(PageUrl(baseUrl, page)).Links?
    requires NewLinks(web.listing(PageUrl(baseUrl, page)).hrefs, seen) != []
    requires !PageArticles(entry, limit, NewLinks(web.listing(PageUrl(baseUrl, page)).hrefs, seen), articles).hit
    ensures var links := NewLinks(web.listing(PageUrl(baseUrl, page)).hrefs, seen);
      var run := PageArticles(entry, limit, links, articles);
      CrawlFrom(web, entry, baseUrl, limit, page, seen, articles, fetched, offeredBy) ==
      CrawlFrom(web, entry, baseUrl, limit, page + 1, seen + (set u | u in links), run.articles,
                fetched + links[..run.n], offeredBy + seq(run.n, _ => page))
  {
  }

  /** Once a page's new links are fetched, the page is covered. */
  lemma PageCoveredByNewLinks(web: Web, baseUrl: string, page: nat, seen: set<string>,
                              fetched: seq<string>, links: seq<string>)
    requires web.listing(PageUrl(baseUrl, page)).Links?
    requires links == NewLinks(web.listing(PageUrl(baseUrl, page)).hrefs, seen)
    requires forall u :: u in seen <==> u in fetched
    ensures PageCovered(web, baseUrl, page, fetched + links)
  {
    NewLinksCovered(Collected(web.listing(PageUrl(baseUrl, page)).hrefs, GhostUrl), seen, fetched, links);
  }

  /** Once a page's new links are fetched, all its on-site links are. */
  lemma NewLinksCovered(cands: seq<string>, seen: set<string>, fetched: seq<string>, links: seq<string>)
    requires links == DedupFrom(cands, DomainKey, seen)
    requires forall u :: u in seen <==> u in fetched
    ensures forall u | u in cands && Contains(u, SITE_DOMAIN) :: u in fetched + links
  {
    forall u | u in cands && Contains(u, SITE_DOMAIN) ensures u in fetched + links {
      if u !in seen {
        var i :| 0 <= i < |cands| && cands[i] == u;
        DedupCoversKeys(cands, DomainKey, seen, i);
        var m :| 0 <= m < |links| && DomainKey(links[m]) == DomainKey(u);
        assert links[m] == u;
      }
    }
  }

  /** One listing page that answered with links: collect its new on-site
      links, recording them as seen, and fetch their articles unless there
      are none (`noNew`). */
  method CrawlPage(entry: string -> Option<Article>, limit: Option<int>, hrefs: seq<string>,
                   articles0: seq<Article>, seen0: set<string>)
    returns (pageLinks: seq<string>, articles: seq<Article>, n: nat, hit: bool, seen: set<string>, noNew: bool)
    ensures pageLinks == NewLinks(hrefs, seen0) && seen == seen0 + (set u | u in pageLinks)
    ensures noNew <==> pageLinks == []
    ensures noNew ==> articles == articles0 && n == 0 && !hit
    ensures !noNew ==> PageRun(articles, n, hit) == PageArticles(entry, limit, pageLinks, articles0)
  {
    pageLinks, seen := CollectLinks(hrefs, GhostUrl, DomainKey, seen0);
    assert seen == seen0 + (set u | u in pageLinks);
    if pageLinks == [] {
      return pageLinks, articles0, 0, false, seen, true;
    }
    noNew := false;
    articles, n, hit := FetchPageArticles(entry, limit, pageLinks, articles0);
  }

  /** The pagination loop of `fetch_paginated_posts`. */
  method Paginate(web: Web, entry: string -> Option<Article>, baseUrl: string, limit: Option<int>)
    returns (articles: seq<Article>)
    ensures articles == PaginatedPosts(web, entry, baseUrl, limit).articles
  {
    ghost var crawl := PaginatedPosts(web, entry, baseUrl, limit);
    ghost var fetched: seq<string> := [];
    ghost var offeredBy: seq<nat> := [];
    articles := [];
    var seenUrls: set<string> := {};
    var currentPage := 1;
    while currentPage <= MAX_PAGES
      invariant 1 <= currentPage <= MAX_PAGES + 1
      invariant CrawlFrom(web, entry, baseUrl, limit, currentPage, seenUrls, articles, fetched, offeredBy) == crawl
    {
      var listing := web.listing(PageUrl(baseUrl, currentPage));
      if !listing.Links? {
        return;
      }
      var pageLinks, n, hit, seen, noNew;
      pageLinks, articles, n, hit, seen, noNew := CrawlPage(entry, limit, listing.hrefs, articles, seenUrls);
      if noNew || hit {
        return;
      }
      fetched := fetched + pageLinks[..n];
      offeredBy := offeredBy + seq(n, _ => currentPage);
      seenUrls := seen;
      currentPage := currentPage + 1;
    }
  }

  /** `fetch_paginated_posts(base_url, since, limit)`: `fetch_article` and
      the `since` filter are the per-link step, and a link whose fetch
      raises is skipped. */
  method FetchPaginatedPosts(web: Web, cal: Calendar, baseUrl: string, since: Option<string>, limit: Option<int>)
    returns (articles: seq<Article>)
    ensures articles == PaginatedPosts(web, SinceEntry(web, cal, since), baseUrl, limit).articles
  {
    articles := Paginate(web, SinceEntry(web, cal, since), baseUrl, limit);
  }

  /** The links a listing page contributes are new, distinct, on the site
      and among the page's followed links. */
  lemma PageLinksFacts(cands: seq<string>, seen: set<string>, pageLinks: seq<string>)
    requires pageLinks == DedupFrom(cands, DomainKey, seen)
    ensures forall i, j | 0 <= i < j < |pageLinks| :: pageLinks[i] != pageLinks[j]
    ensures forall i | 0 <= i < |pageLinks| ::
      pageLinks[i] !in seen && Contains(pageLinks[i], SITE_DOMAIN) && pageLinks[i] in cands
  {
    DedupIsSubsequence(cands, DomainKey, seen);
    forall i | 0 <= i < |pageLinks| ensures pageLinks[i] in cands {
      SubsequenceMember(pageLinks, cands, i);
    }
  }

  lemma AppendDistinct(a: seq<string>, b: seq<string>)
    requires forall i, j | 0 <= i < j < |a| :: a[i] != a[j]
    requires forall i, j | 0 <= i < j < |b| :: b[i] != b[j]
    requires forall i | 0 <= i < |b| :: b[i] !in a
    ensures forall i, j | 0 <= i < j < |a + b| :: (a + b)[i] != (a + b)[j]
  {
    forall i, j | 0 <= i < j < |a + b| ensures (a + b)[i] != (a + b)[j] {
      if j >= |a| && i < |a| {
        assert b[j - |a|] !in a;
      }
    }
  }

  /** `fetch_paginated_posts` returns each article once: the articles'
      URLs are pairwise distinct fetched links, and each article passes the
      `since` filter. */
  lemma PaginatedArticlesDistinct(web: Web, cal: Calendar, since: Option<string>, baseUrl: string, limit: Option<int>)
    ensures var r := PaginatedPosts(web, SinceEntry(web, cal, since), baseUrl, limit);
      && (forall i, j | 0 <= i < j < |r.articles| :: r.articles[i].url != r.articles[j].url)
      && (forall k | 0 <= k < |r.articles| :: r.articles[k].url in r.fetched && KeepSince(cal, r.articles[k].publishedAt, since))
  {
    var r := PaginatedPosts(web, SinceEntry(web, cal, since), baseUrl, limit);
    PaginatedPostsProperties(web, SinceEntry(web, cal, since), baseUrl, limit);
    assert r.articles == Collected(r.fetched, SinceEntry(web, cal, since));
    assert forall i, j | 0 <= i < j < |r.fetched| :: r.fetched[i] != r.fetched[j];
    SinceArticlesDistinct(web, cal, since, r.fetched);
  }

  /** The articles the Ghost per-link step keeps from distinct links have
      distinct URLs, each one of the links, and each passes the `since`
      filter. */
  lemma SinceArticlesDistinct(web: Web, cal: Calendar, since: Option<string>, fetched: seq<string>)
    requires forall i, j | 0 <= i < j < |fetched| :: fetched[i] != fetched[j]
    ensures forall i, j | 0 <= i < j < |Collected(fetched, SinceEntry(web, cal, since))| ::
      Collected(fetched, SinceEntry(web, cal, since))[i].url != Collected(fetched, SinceEntry(web, cal, since))[j].url
    ensures forall k | 0 <= k < |Collected(fetched, SinceEntry(web, cal, since))| ::
      && Collected(fetched, SinceEntry(web, cal, since))[k].url in fetched
      && KeepSince(cal, Collected(fetched, SinceEntry(web, cal, since))[k].publishedAt, since)
  {
    var entry := SinceEntry(web, cal, since);
    var articles := Collected(fetched, entry);
    forall i | 0 <= i < |fetched| ensures entry(fetched[i]).Some? ==> entry(fetched[i]).value.url == fetched[i] {
      SinceEntryOf(web, cal, since, fetched[i]);
    }
    CollectedUrlsDistinct(fetched, entry);
    forall k | 0 <= k < |articles| ensures KeepSince(cal, articles[k].publishedAt, since) {
      CollectedFrom(fetched, entry, k);
      var i :| 0 <= i < |fetched| && entry(fetched[i]) == Some(articles[k]);
      SinceEntryOf(web, cal, since, fetched[i]);
    }
  }

  /** The per-link step of the Ghost crawlers keeps the article of the link
      it was given, and only when it passes the `since` filter. */
  lemma SinceEntryOf(web: Web, cal: Calendar, since: Option<string>, url: string)
    ensures SinceEntry(web, cal, since)(url).Some? ==>
      && SinceEntry(web, cal, since)(url).value.url == url
      && KeepSince(cal, SinceEntry(web, cal, since)(url).value.publishedAt, since)
  {
    var a := ArticleOf(web, cal, url);
    assert SinceEntry(web, cal, since)(url) == if a.Some? && KeepSince(cal, a.value.publishedAt, since) then a else None;
  }

  /** Distinct links give articles with distinct URLs when each article
      carries the link it was fetched from. */
  lemma {:induction false} CollectedUrlsDistinct(xs: seq<string>, entry: string -> Option<Article>)
    requires forall i, j | 0 <= i < j < |xs| :: xs[i] != xs[j]
    requires forall i | 0 <= i < |xs| :: entry(xs[i]).Some? ==> entry(xs[i]).value.url == xs[i]
    ensures forall k | 0 <= k < |Collected(xs, entry)| :: Collected(xs, entry)[k].url in xs
    ensures forall i, j | 0 <= i < j < |Collected(xs, entry)| :: Collected(xs, entry)[i].url != Collected(xs, entry)[j].url
  {
    if xs != [] {
      var n := |xs| - 1;
      var front := xs[..n];
      var r := Collected(xs, entry);
      var head := Collected(front, entry);
      CollectedUrlsDistinct(front, entry);
      assert forall kk | 0 <= kk < |Collected(front, entry)| :: Collected(front, entry)[kk].url in front;
      assert forall ii, jj | 0 <= ii < jj < |Collected(front, entry)| ::
        Collected(front, entry)[ii].url != Collected(front, entry)[jj].url;
      assert r == head + (if entry(xs[n]).Some? then [entry(xs[n]).value] else []);
      forall k | 0 <= k < |r| ensures r[k].url in xs {
        if k < |head| {
          assert r[k] == head[k];
          assert head[k].url in front;
          var m :| 0 <= m < n && front[m] == head[k].url;
          assert xs[m] == r[k].url;
        } else {
          assert r[k].url == xs[n];
        }
      }
      forall i, j | 0 <= i < j < |r| ensures r[i].url != r[j].url {
        if j >= |head| {
          assert r[i] == head[i];
          assert r[j].url == xs[n];
          assert head[i].url in front;
          var m :| 0 <= m < n && front[m] == head[i].url;
          assert xs[m] != xs[n];
        } else {
          assert r[i] == head[i] && r[j] == head[j];
        }
      }
    }
  }

  // ---- fetch_archive_articles ----

  /** The links `fetch_archive_articles` visits: the archive page's links,
      cut to `links[:limit]` when `limit` is truthy. */
  function ArchiveLinksToFetch(web: Web, archiveUrl: string, limit: Option<int>): seq<string> {
    var links := ArchiveLinks(web, archiveUrl);
    if TruthyLimit(limit) then PySliceTo(links, limit.value) else links
  }

  /** The articles of `fetch_archive_articles`: those of the visited links
      whose page could be read and that pass the `since` filter. */
  function ArchiveArticles(web: Web, cal: Calendar, archiveUrl: string, since: Option<string>, limit: Option<int>)
    : seq<Article>
  {
    Collected(ArchiveLinksToFetch(web, archiveUrl, limit), ArchiveEntry(web, cal, since))
  }

  /** The body of the archive article loop for one link. */
  method ArchiveArticle(web: Web, cal: Calendar, since: Option<string>, url: string)
    returns (article: Option<Article>)
    ensures article == ArchiveEntry(web, cal, since)(url)
  {
    match web.getPage(url)
    case Fetched(page) =>
      var titleElem := FindFirst(ARCHIVE_TITLE_QUERIES, page.find);
      var title := if titleElem.Some? then Strip(titleElem.value.text) else "Untitled";
      title := CleanTitle(title);
      var publishedAt := ArchivePublishedAt(page, cal, ARCHIVE_DATE_SELECTORS);
      if !KeepSince(cal, publishedAt, since) {
        return None;
      }
      var rawHtml := SelectContent(page, ARCHIVE_CONTENT_SELECTORS, "");
      article := Some(Article(title, url, publishedAt, rawHtml));
    case _ =>
      article := None;
  }

  /** The article loop of `fetch_archive_articles`; it has no limit check of
      its own, the links having been cut already. */
  method ArchiveEach(web: Web, cal: Calendar, since: Option<string>, links: seq<string>)
    returns (articles: seq<Article>)
    ensures articles == Collected(links, ArchiveEntry(web, cal, since))
  {
    articles := [];
    var i := 0;
    while i < |links|
      invariant 0 <= i <= |links|
      invariant articles == Collected(links[..i], ArchiveEntry(web, cal, since))
    {
      var article := ArchiveArticle(web, cal, since, links[i]);
      CollectedSnoc(links, i, ArchiveEntry(web, cal, since));
      if article.Some? {
        articles := articles + [article.value];
      }
      i := i + 1;
    }
    assert links[..i] == links;
  }

  /** `fetch_archive_articles(archive_url, since, limit)`: `[]` when the
      archive page cannot be fetched. */
  method FetchArchiveArticles(web: Web, cal: Calendar, archiveUrl: string, since: Option<string>, limit: Option<int>)
    returns (articles: seq<Article>)
    ensures articles == ArchiveArticles(web, cal, archiveUrl, since, limit)
  {
    match web.listing(archiveUrl)
    case Links(hrefs) =>
      var links, seen := CollectLinks(hrefs, ArchiveUrl(web.origin(archiveUrl)), AnyKey, {});
      if TruthyLimit(limit) {
        links := PySliceTo(links, limit.value);
      }
      articles := ArchiveEach(web, cal, since, links);
    case _ =>
      articles := [];
  }

  /** The archive crawler returns each article once, from a link the
      archive page offered, with a cleaned title and a date that passes the
      `since` filter; a positive limit bounds the number of pages visited
      and so of articles. */
  lemma ArchiveArticlesProperties(web: Web, cal: Calendar, archiveUrl: string, since: Option<string>, limit: Option<int>)
    ensures var r := ArchiveArticles(web, cal, archiveUrl, since, limit);
      && (TruthyLimit(limit) && limit.value > 0 ==> |r| <= limit.value)
      && (forall i, j | 0 <= i < j < |r| :: r[i].url != r[j].url)
      && (forall k | 0 <= k < |r| ::
            && r[k].url in ArchiveLinks(web, archiveUrl)
            && !Contains(r[k].title, " | ") && !Contains(r[k].title, " - ")
            && KeepSince(cal, r[k].publishedAt, since))
  {
    var links := ArchiveLinksToFetch(web, archiveUrl, limit);
    var entry := ArchiveEntry(web, cal, since);
    var r := Collected(links, entry);
    var all := ArchiveLinks(web, archiveUrl);
    assert links == all[..|links|];
    forall i | 0 <= i < |links| ensures entry(links[i]).Some? ==> entry(links[i]).value.url == links[i] {
      ArchiveEntryOf(web, cal, since, links[i]);
    }
    CollectedUrlsDistinct(links, entry);
    forall k | 0 <= k < |r|
      ensures r[k].url in all
      ensures !Contains(r[k].title, " | ") && !Contains(r[k].title, " - ")
      ensures KeepSince(cal, r[k].publishedAt, since)
    {
      CollectedFrom(links, entry, k);
      var i :| 0 <= i < |links| && entry(links[i]) == Some(r[k]);
      ArchiveEntryOf(web, cal, since, links[i]);
      assert links[i] == all[i];
    }
  }
}
