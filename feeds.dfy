/** The RSS crawlers of fetcher.py: `fetch_wordpress_rss` (with
    `fetch_deacon_articles`, which calls it on Deacon Harold's feed),
    `fetch_substack_articles`, which reads a feed the same way, and
    `fetch_ray_articles`, which takes links and dates from Dr. Ray's feed
    and fetches each article page. Each walks the feed's items in order,
    skips what it cannot use, and stops as soon as the limit check fires. */
module Feeds {
  import opened Wrappers
  import opened Text
  import opened Web
  import opened Collect
  import opened Pages

  /** The content tags of a feed item, tried in this order. */
  const CONTENT_TAGS: seq<string> := ["content:encoded", "description"]

  /** The limit loop every RSS crawler runs: take each item's article when
      `entry` yields one, and stop after the append that makes the limit
      check fire. */
  method TakeEach<T>(xs: seq<T>, entry: T -> Option<Article>, limit: Option<int>) returns (articles: seq<Article>)
    ensures articles == TakeLimit(Collected(xs, entry), limit)
  {
    articles := [];
    var i := 0;
    while i < |xs|
      invariant 0 <= i <= |xs|
      invariant articles == Collected(xs[..i], entry)
      invariant Unhit(limit, articles)
    {
      var article := entry(xs[i]);
      CollectedSnoc(xs, i, entry);
      if article.Some? {
        var before := articles;
        articles := articles + [article.value];
        if LimitHit(limit, |articles|) {
          HitAtCap(limit, before, article.value);
          TakeAtHit(xs, i + 1, entry, limit);
          return;
        }
      }
      i := i + 1;
    }
    assert xs[..i] == xs;
    TakeAtEnd(articles, limit);
  }

  /** The loop stops at the append that fires the check: what it collected
      so far is what the limit lets through. */
  lemma TakeAtHit<T>(xs: seq<T>, n: nat, entry: T -> Option<Article>, limit: Option<int>)
    requires n <= |xs| && TruthyLimit(limit) && |Collected(xs[..n], entry)| == Cap(limit)
    ensures TakeLimit(Collected(xs, entry), limit) == Collected(xs[..n], entry)
  {
    CollectedPrefix(xs, n, entry);
  }

  /** A loop that never fired the check kept everything. */
  lemma TakeAtEnd(articles: seq<Article>, limit: Option<int>)
    requires Unhit(limit, articles)
    ensures TakeLimit(articles, limit) == articles
  {
    if TruthyLimit(limit) {
      UnhitWithinCap(limit, articles);
    }
  }

  // ---- fetch_wordpress_rss, fetch_substack_articles ----

  /** The item's title text, stripped; "Untitled" without a title. */
  function RssTitle(item: FeedItem): (title: string)
    ensures Stripped(title)
  {
    match item.find("title")
    case None => "Untitled"
    case Some(e) => Strip(e.text)
  }

  /** The item's link text, stripped; "" without a link. */
  function RssLink(item: FeedItem): string {
    match item.find("link")
    case None => ""
    case Some(e) => Strip(e.text)
  }

  /** The item's `pubDate` as an RFC 2822 date, shown as `%Y-%m-%d`; today
      when the item has none or it does not parse. */
  function RssDate(cal: Calendar, item: FeedItem): (publishedAt: string)
    ensures item.find("pubDate").None? ==> publishedAt == cal.today
    ensures item.find("pubDate").Some? && cal.rfc2822(Strip(item.find("pubDate").value.text)).Some? ==>
      publishedAt == cal.show(cal.rfc2822(Strip(item.find("pubDate").value.text)).value)
  {
    match item.find("pubDate")
    case None => cal.today
    case Some(e) =>
      match cal.rfc2822(Strip(e.text))
      case None => cal.today
      case Some(d) => cal.show(d)
  }

  /** The item's content: `<content:encoded>`, else `<description>`; its
      text when its `.string` is a non-empty string, else its markup; ""
      when the item has neither. */
  function RssContent(item: FeedItem): (rawHtml: string)
    ensures item.find("content:encoded").Some? ==>
      var e := item.find("content:encoded").value;
      rawHtml == if e.str.Some? && e.str.value != "" then e.text else e.markup
    ensures item.find("content:encoded").None? && item.find("description").Some? ==>
      var e := item.find("description").value;
      rawHtml == if e.str.Some? && e.str.value != "" then e.text else e.markup
    ensures item.find("content:encoded").None? && item.find("description").None? ==> rawHtml == ""
  {
    match FirstSome(CONTENT_TAGS, item.find)
    case None => ""
    case Some(e) => if e.str.Some? && e.str.value != "" then e.text else e.markup
  }

  /** The article dict built from one item. */
  function RssArticle(cal: Calendar, item: FeedItem): Article {
    Article(RssTitle(item), RssLink(item), RssDate(cal, item), RssContent(item))
  }

  /** One item after the `since` filter. */
  function RssEntry(cal: Calendar, since: Option<string>): FeedItem -> Option<Article> {
    item =>
      var a := RssArticle(cal, item);
      if KeepSince(cal, a.publishedAt, since) then Some(a) else None
  }

  /** The per-item step keeps the item's own article, with a stripped
      title, and only when it passes the `since` filter. */
  lemma RssEntryOf(cal: Calendar, since: Option<string>, item: FeedItem)
    ensures RssEntry(cal, since)(item).Some? ==>
      && RssEntry(cal, since)(item).value == RssArticle(cal, item)
      && Stripped(RssArticle(cal, item).title)
      && KeepSince(cal, RssArticle(cal, item).publishedAt, since)
  {
    var a := RssArticle(cal, item);
    assert RssEntry(cal, since)(item) == if KeepSince(cal, a.publishedAt, since) then Some(a) else None;
    assert a.title == RssTitle(item);
  }

  /** The articles of the feed at `rssUrl`: the items' articles that pass
      the `since` filter, in feed order, up to the limit; `[]` when the
      feed cannot be fetched or parsed. */
  function RssArticles(web: Web, cal: Calendar, rssUrl: string, since: Option<string>, limit: Option<int>): seq<Article> {
    match web.feed(rssUrl)
    case FeedFailed => []
    case FeedItems(items) => TakeLimit(Collected(items, RssEntry(cal, since)), limit)
  }

  /** `fetch_wordpress_rss(rss_url, source_name, since, limit)`; the source
      name only labels log lines. */
  method FetchWordpressRss(web: Web, cal: Calendar, rssUrl: string, since: Option<string>, limit: Option<int>)
    returns (articles: seq<Article>)
    ensures articles == RssArticles(web, cal, rssUrl, since, limit)
  {
    match web.feed(rssUrl)
    case FeedFailed =>
      articles := [];
    case FeedItems(items) =>
      articles := TakeEach(items, RssEntry(cal, since), limit);
  }

  /** `fetch_substack_articles(rss_url, since, limit)`, which reads a feed
      exactly as `fetch_wordpress_rss` does. */
  method FetchSubstackArticles(web: Web, cal: Calendar, rssUrl: string, since: Option<string>, limit: Option<int>)
    returns (articles: seq<Article>)
    ensures articles == RssArticles(web, cal, rssUrl, since, limit)
  {
    articles := FetchWordpressRss(web, cal, rssUrl, since, limit);
  }

  /** `fetch_deacon_articles(since, limit)` */
  method FetchDeaconArticles(web: Web, cal: Calendar, since: Option<string>, limit: Option<int>)
    returns (articles: seq<Article>)
    ensures articles == RssArticles(web, cal, DEACON_RSS_URL, since, limit)
  {
    articles := FetchWordpressRss(web, cal, DEACON_RSS_URL, since, limit);
  }

  /** Every article of a feed is the article of one of its items, in feed
      order; each passes the `since` filter and has a stripped title; a
      positive limit bounds the count, and a negative one lets at most one
      article through. */
  lemma {:induction false} RssArticlesProperties(web: Web, cal: Calendar, rssUrl: string, since: Option<string>,
                                                 limit: Option<int>)
    ensures var r := RssArticles(web, cal, rssUrl, since, limit);
      && (TruthyLimit(limit) && limit.value > 0 ==> |r| <= limit.value)
      && (TruthyLimit(limit) && limit.value < 0 ==> |r| <= 1)
      && (web.feed(rssUrl).FeedFailed? ==> r == [])
      && (forall k | 0 <= k < |r| ::
            Stripped(r[k].title) && KeepSince(cal, r[k].publishedAt, since)
            && web.feed(rssUrl).FeedItems?
            && exists i | 0 <= i < |web.feed(rssUrl).items| :: r[k] == RssArticle(cal, web.feed(rssUrl).items[i]))
  {
    var r := RssArticles(web, cal, rssUrl, since, limit);
    if web.feed(rssUrl).FeedItems? {
      var items := web.feed(rssUrl).items;
      var all := Collected(items, RssEntry(cal, since));
      forall k | 0 <= k < |r|
        ensures Stripped(r[k].title) && KeepSince(cal, r[k].publishedAt, since)
        ensures exists i | 0 <= i < |items| :: r[k] == RssArticle(cal, items[i])
      {
        assert r[k] == all[k];
        CollectedFrom(items, RssEntry(cal, since), k);
        var i :| 0 <= i < |items| && RssEntry(cal, since)(items[i]) == Some(all[k]);
        RssEntryOf(cal, since, items[i]);
      }
    }
  }

  /** Raising the limit never loses an article: a smaller positive limit
      gives a prefix of a larger one's result. */
  lemma RssLimitMonotone(web: Web, cal: Calendar, rssUrl: string, since: Option<string>, m: nat, n: nat)
    requires 0 < m <= n
    ensures var small := RssArticles(web, cal, rssUrl, since, Some(m));
      var large := RssArticles(web, cal, rssUrl, since, Some(n));
      |small| <= |large| && small == large[..|small|]
  {
  }

  // ---- fetch_ray_articles ----

  /** One item of Dr. Ray's feed: skipped without a link or when its feed
      date fails the `since` filter; otherwise the linked article is
      fetched (skipped when that raises) and, when the item has a `pubDate`,
      its date replaced by the feed's. */
  function RayEntry(web: Web, cal: Calendar, since: Option<string>): FeedItem -> Option<Article> {
    item =>
      var url := RssLink(item);
      var publishedAt := RssDate(cal, item);
      if url == "" || !KeepSince(cal, publishedAt, since) then None
      else
        match ArticleOf(web, cal, url)
        case None => None
        case Some(a) => Some(if item.find("pubDate").Some? then a.(publishedAt := publishedAt) else a)
  }

  /** The articles of Dr. Ray's feed, up to the limit; `[]` when the feed
      cannot be fetched or parsed. */
  function RayArticles(web: Web, cal: Calendar, since: Option<string>, limit: Option<int>): seq<Article> {
    match web.feed(RAY_RSS_URL)
    case FeedFailed => []
    case FeedItems(items) => TakeLimit(Collected(items, RayEntry(web, cal, since)), limit)
  }

  /** `fetch_ray_articles(since, limit)` */
  method FetchRayArticles(web: Web, cal: Calendar, since: Option<string>, limit: Option<int>)
    returns (articles: seq<Article>)
    ensures articles == RayArticles(web, cal, since, limit)
  {
    match web.feed(RAY_RSS_URL)
    case FeedFailed =>
      articles := [];
    case FeedItems(items) =>
      articles := TakeEach(items, RayEntry(web, cal, since), limit);
  }

  /** `a` comes from the Ray feed item `item`: its URL is the item's
      non-empty link, the item's feed date passes the `since` filter, and
      when the item has a `pubDate` the article carries the feed date
      rather than the page's. */
  predicate FromRayItem(cal: Calendar, since: Option<string>, a: Article, item: FeedItem) {
    && a.url == RssLink(item) != ""
    && KeepSince(cal, RssDate(cal, item), since)
    && (item.find("pubDate").Some? ==> a.publishedAt == RssDate(cal, item))
  }

  /** Every article of Dr. Ray's crawler comes from an item of the feed,
      and the limit bounds their number. */
  lemma {:induction false} RayArticlesProperties(web: Web, cal: Calendar, since: Option<string>, limit: Option<int>)
    ensures var r := RayArticles(web, cal, since, limit);
      && (TruthyLimit(limit) ==> |r| <= Cap(limit))
      && (forall k | 0 <= k < |r| ::
            web.feed(RAY_RSS_URL).FeedItems?
            && exists i | 0 <= i < |web.feed(RAY_RSS_URL).items| ::
                 FromRayItem(cal, since, r[k], web.feed(RAY_RSS_URL).items[i]))
  {
    var r := RayArticles(web, cal, since, limit);
    if web.feed(RAY_RSS_URL).FeedItems? {
      var items := web.feed(RAY_RSS_URL).items;
      var entry := RayEntry(web, cal, since);
      var all := Collected(items, entry);
      forall k | 0 <= k < |r|
        ensures exists i | 0 <= i < |items| :: FromRayItem(cal, since, r[k], items[i])
      {
        assert r[k] == all[k];
        CollectedFrom(items, entry, k);
        var i :| 0 <= i < |items| && entry(items[i]) == Some(all[k]);
        var url := RssLink(items[i]);
        assert ArticleOf(web, cal, url).Some? && ArticleOf(web, cal, url).value.url == url;
        assert FromRayItem(cal, since, r[k], items[i]);
      }
    }
  }
}
