/** The outside world of the crawlers (fetcher.py), reduced to what their
    logic branches on: pages and feeds already fetched and parsed, dates
    already parsed, and the article record they all produce. Also the two
    rules every crawler shares: the fail-open `since` filter and the
    `limit` check. */
module Web {
  import opened Wrappers
  import opened Text

  /** The site the Ghost crawlers accept links from. */
  const SITE_ORIGIN: string := "https://www.marcusbpeter.com"
  const SITE_DOMAIN: string := "marcusbpeter.com"
  /** `BASE_URL`, `DEACON_RSS_URL` and `RAY_RSS_URL` of config.py. */
  const BASE_URL: string := "https://www.marcusbpeter.com/t/posts"
  const DEACON_RSS_URL: string := "https://deaconharold.com/feed"
  const RAY_RSS_URL: string := "https://drray.com/feed"
  /** The pagination ceiling of `fetch_paginated_posts`. */
  const MAX_PAGES: int := 200
  /** The date format of `published_at` and of `since`. */
  const ISO_FORMAT: string := "%Y-%m-%d"

  /** A calendar date; `datetime` values parsed from `%Y-%m-%d` are midnights,
      so comparing them is comparing dates. */
  datatype Date = Date(year: int, month: int, day: int)

  /** `a < b` on dates. */
  predicate Before(a: Date, b: Date) {
    a.year < b.year
    || (a.year == b.year && a.month < b.month)
    || (a.year == b.year && a.month == b.month && a.day < b.day)
  }

  /** The date library: `today` is `datetime.now().strftime("%Y-%m-%d")`,
      `parse(fmt, text)` is `datetime.strptime(text, fmt)` (`None` for
      `ValueError`), `rfc2822` is `parsedate_to_datetime` (`None` for any
      exception) and `show` is `strftime("%Y-%m-%d")`. */
  datatype Calendar = Calendar(
    today: string,
    parse: (string, string) -> Option<Date>,
    rfc2822: string -> Option<Date>,
    show: Date -> string)

  /** A parsed HTML or XML element: its attributes, `get_text()`, `str(elem)`
      and `.string` (`None` when the element has more than one child). */
  datatype Element = Element(attrs: map<string, string>, text: string, markup: string, str: Option<string>)

  /** `elem.get(name) or fallback`: the attribute when present and non-empty. */
  function AttrOr(e: Element, name: string, fallback: string): string {
    if name in e.attrs && e.attrs[name] != "" then e.attrs[name] else fallback
  }

  /** A fetched and parsed page: its text and the element each query
      (`soup.find(...)` or `soup.select_one(selector)`) answers. */
  datatype Page = Page(html: string, find: string -> Option<Element>)

  /** Fetching an article page: the page, a `RequestException`, or another
      exception while reading or parsing it. */
  datatype PageFetch = Fetched(page: Page) | RequestFailed | ParseFailed

  /** Fetching a listing page: HTTP 404, any other failure, or the `href` of
      every `<a href>` in document order. */
  datatype Listing = NotFound | ListingFailed | Links(hrefs: seq<string>)

  /** An `<item>` of an RSS feed, answering `item.find(tag)`. */
  datatype FeedItem = FeedItem(find: string -> Option<Element>)

  /** Fetching and parsing an RSS feed. */
  datatype Feed = FeedFailed | FeedItems(items: seq<FeedItem>)

  /** The network as the crawlers see it. `single` is `fetch_single_url`,
      `None` when it raises; `origin` is the `scheme://netloc` of a URL. */
  datatype Web = Web(
    getPage: string -> PageFetch,
    listing: string -> Listing,
    feed: string -> Feed,
    single: string -> Option<Article>,
    origin: string -> string)

  /** The article record every crawler returns. */
  datatype Article = Article(title: string, url: string, publishedAt: string, rawHtml: string)

  /** The `since` filter shared by every crawler: an article is dropped only
      when `since` is given, both dates parse and the article is strictly
      older; an unparsable date keeps it. */
  predicate KeepSince(cal: Calendar, publishedAt: string, since: Option<string>) {
    if since.None? || since.value == "" then true
    else
      var articleDate := cal.parse(ISO_FORMAT, publishedAt);
      var sinceDate := cal.parse(ISO_FORMAT, since.value);
      !(articleDate.Some? && sinceDate.Some? && Before(articleDate.value, sinceDate.value))
  }

  /** The filter fails open. An article is kept when `since` is missing or
      empty, when either date does not parse, and when it is dated on the
      `since` day itself. It is dropped only when both dates parse and the
      article's date is strictly earlier. */
  lemma KeepSinceFailOpen(cal: Calendar, publishedAt: string, since: Option<string>)
    ensures since.None? || since.value == "" ==> KeepSince(cal, publishedAt, since)
    ensures since.Some? && (cal.parse(ISO_FORMAT, publishedAt).None? || cal.parse(ISO_FORMAT, since.value).None?) ==>
      KeepSince(cal, publishedAt, since)
    ensures since.Some? && cal.parse(ISO_FORMAT, publishedAt) == cal.parse(ISO_FORMAT, since.value) ==>
      KeepSince(cal, publishedAt, since)
    ensures !KeepSince(cal, publishedAt, since) <==>
      && since.Some? && since.value != ""
      && cal.parse(ISO_FORMAT, publishedAt).Some? && cal.parse(ISO_FORMAT, since.value).Some?
      && Before(cal.parse(ISO_FORMAT, publishedAt).value, cal.parse(ISO_FORMAT, since.value).value)
  {
  }

  /** A `limit` that Python treats as true: given and not zero. */
  predicate TruthyLimit(limit: Option<int>) {
    limit.Some? && limit.value != 0
  }

  /** `limit and n >= limit`, checked after each append. */
  predicate LimitHit(limit: Option<int>, n: int) {
    TruthyLimit(limit) && n >= limit.value
  }

  /** The length at which the check first fires: `limit` itself, or 1 for a
      negative `limit`, which fires after the first article. */
  function Cap(limit: Option<int>): int
    requires TruthyLimit(limit)
  {
    if limit.value > 0 then limit.value else 1
  }

  /** No check has fired yet on a list built by appending and checking. */
  predicate Unhit(limit: Option<int>, xs: seq<Article>) {
    xs == [] || !LimitHit(limit, |xs|)
  }

  /** The first `Cap(limit)` items when the limit is truthy, else all. */
  function TakeLimit<T>(xs: seq<T>, limit: Option<int>): (r: seq<T>)
    ensures TruthyLimit(limit) ==> |r| <= Cap(limit)
    ensures |r| <= |xs| && r == xs[..|r|]
    ensures !TruthyLimit(limit) || |xs| <= Cap(limit) ==> r == xs
  {
    if TruthyLimit(limit) && |xs| > Cap(limit) then xs[..Cap(limit)] else xs
  }

  /** A list that has not hit the limit is within its cap. */
  lemma UnhitWithinCap(limit: Option<int>, xs: seq<Article>)
    requires TruthyLimit(limit) && Unhit(limit, xs)
    ensures |xs| < Cap(limit) || (xs == [] && Cap(limit) == 1)
  {
  }

  /** The append that makes the check fire reaches the cap exactly. */
  lemma HitAtCap(limit: Option<int>, xs: seq<Article>, a: Article)
    requires Unhit(limit, xs) && LimitHit(limit, |xs| + 1)
    ensures |xs| + 1 == Cap(limit)
  {
  }

  /** Python's `xs[:k]`: a negative `k` counts from the end. */
  function PySliceTo<T>(xs: seq<T>, k: int): (r: seq<T>)
    ensures k >= 0 ==> |r| == if k < |xs| then k else |xs|
    ensures k < 0 ==> |r| == if |xs| + k > 0 then |xs| + k else 0
    ensures r == xs[..|r|]
  {
    var n := if k >= 0 then (if k < |xs| then k else |xs|)
             else (if |xs| + k > 0 then |xs| + k else 0);
    xs[..n]
  }

  /** The decimal digits of `n`. */
  function NatToString(n: nat): (s: string)
    ensures |s| >= 1
    ensures forall i | 0 <= i < |s| :: '0' <= s[i] <= '9'
  {
    var d := [(('0' as int) + n % 10) as char];
    if n < 10 then d else NatToString(n / 10) + d
  }

  /** The URL of listing page `n`: `base` for page 1, `base/page/n` after. */
  function PageUrl(base: string, n: nat): string {
    if n == 1 then base else base + "/page/" + NatToString(n)
  }
}
