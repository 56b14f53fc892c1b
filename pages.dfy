/** What the crawlers read off a fetched article page (fetcher.py): the
    title, the publication date and the content, each found by trying a
    list of queries in order and keeping the first that answers, with
    fallbacks when none does. `fetch_article` and the per-article part of
    `fetch_archive_articles` use different lists and fallbacks. */
module Pages {
  import opened Wrappers
  import opened Text
  import opened Web
  import opened Collect

  /** The title queries of `fetch_article`, tried in this order. */
  const TITLE_QUERIES: seq<string> :=
    ["meta[property=\"og:title\"]", "meta[name=\"twitter:title\"]", "title", "h1"]
  const DATE_SELECTORS: seq<string> :=
    ["time[datetime]", ".post-date", ".published", "[class*=\"date\"]"]
  const DATE_FORMATS: seq<string> :=
    ["%Y-%m-%d", "%Y-%m-%dT%H:%M:%S", "%Y-%m-%dT%H:%M:%S%z", "%B %d, %Y"]
  const CONTENT_SELECTORS: seq<string> :=
    [".gh-content", ".gh-article", ".post-full-content", ".post-content", ".content", "article", "main", ".entry-content"]

  /** The title queries of `fetch_archive_articles`. */
  const ARCHIVE_TITLE_QUERIES: seq<string> := ["title", "h1"]
  const ARCHIVE_DATE_SELECTORS: seq<string> :=
    ["time[datetime]", "time[data-time]", ".post-date", ".published", ".date", "[class*=\"date\"]", ".post-meta time", ".entry-date"]
  const ARCHIVE_DATE_FORMATS: seq<string> :=
    ["%Y-%m-%d", "%Y-%m-%dT%H:%M:%S", "%Y-%m-%dT%H:%M:%S%z", "%Y-%m-%dT%H:%M:%SZ", "%B %d, %Y", "%b %d, %Y", "%m/%d/%Y", "%d/%m/%Y"]
  const ARCHIVE_CONTENT_SELECTORS: seq<string> :=
    ["article", ".post-content", ".entry-content", ".content", "main[role=\"main\"]", "main", ".post-body", ".article-content"]

  /** The `for ...: if found: break` loop: the first value `f` yields. */
  method FindFirst<T, U>(xs: seq<T>, f: T -> Option<U>) returns (r: Option<U>)
    ensures r == FirstSome(xs, f)
  {
    var i := 0;
    while i < |xs|
      invariant 0 <= i <= |xs|
      invariant forall j | 0 <= j < i :: f(xs[j]).None?
    {
      var v := f(xs[i]);
      if v.Some? {
        FirstSomeAt(xs, f, i);
        return v;
      }
      i := i + 1;
    }
    return None;
  }

  // ---- fetch_article ----

  /** The title of `fetch_article`: the `content` attribute of the first
      title element found when it has one, else that element's text, both
      stripped; "Untitled" when there is none. */
  function ArticleTitle(page: Page): (title: string)
    ensures Stripped(title)
    ensures FirstSome(TITLE_QUERIES, page.find).None? ==> title == "Untitled"
    ensures forall i | 0 <= i < |TITLE_QUERIES| && page.find(TITLE_QUERIES[i]).Some? ::
              (forall j | 0 <= j < i :: page.find(TITLE_QUERIES[j]).None?) ==>
              title == ElementTitle(page.find(TITLE_QUERIES[i]).value)
  {
    match FirstSome(TITLE_QUERIES, page.find)
    case None => "Untitled"
    case Some(e) => ElementTitle(e)
  }

  /** The title a title element gives: its `content` attribute when it has
      one (the `<meta>` tags), else its text, stripped. */
  function ElementTitle(e: Element): (title: string)
    ensures "content" in e.attrs ==> title == Strip(e.attrs["content"])
    ensures "content" !in e.attrs ==> title == Strip(e.text)
  {
    if "content" in e.attrs then Strip(e.attrs["content"]) else Strip(e.text)
  }

  /** `strptime` of `text` under each format, for `FirstSome`. */
  function ParseWith(cal: Calendar, text: string): string -> Option<Date> {
    fmt => cal.parse(fmt, text)
  }

  /** The date one selector of `fetch_article` yields: the element's
      `datetime` attribute or else its text, stripped, cut at the first
      `T`, parsed by the first format that accepts it. */
  function ArticleDateFor(page: Page, cal: Calendar, selector: string): Option<Date> {
    match page.find(selector)
    case None => None
    case Some(e) =>
      var dateText := Strip(AttrOr(e, "datetime", e.text));
      if dateText == "" then None
      else FirstSome(DATE_FORMATS, ParseWith(cal, BeforeFirst(dateText, "T")))
  }

  function ArticleDateAt(page: Page, cal: Calendar): string -> Option<Date> {
    selector => ArticleDateFor(page, cal, selector)
  }

  /** `published_at` of `fetch_article`: the date of the first selector that
      yields one, else today. */
  function ArticleDate(page: Page, cal: Calendar): (publishedAt: string)
    ensures (forall j | 0 <= j < |DATE_SELECTORS| :: ArticleDateFor(page, cal, DATE_SELECTORS[j]).None?)
      ==> publishedAt == cal.today
    ensures (exists j | 0 <= j < |DATE_SELECTORS| :: ArticleDateFor(page, cal, DATE_SELECTORS[j]).Some?)
      ==> exists d :: publishedAt == cal.show(d)
    ensures forall i | 0 <= i < |DATE_SELECTORS| && ArticleDateFor(page, cal, DATE_SELECTORS[i]).Some? ::
              (forall j | 0 <= j < i :: ArticleDateFor(page, cal, DATE_SELECTORS[j]).None?) ==>
              publishedAt == cal.show(ArticleDateFor(page, cal, DATE_SELECTORS[i]).value)
  {
    ShownOrToday(cal, FirstSome(DATE_SELECTORS, ArticleDateAt(page, cal)))
  }

  /** A parsed date as `%Y-%m-%d`, or today when there is none. */
  function ShownOrToday(cal: Calendar, parsed: Option<Date>): string {
    match parsed
    case Some(d) => cal.show(d)
    case None => cal.today
  }

  /** The body of the date loop of `fetch_article` for one selector, with
      its inner loop over the formats. */
  method ArticleDateStep(page: Page, cal: Calendar, selector: string) returns (parsed: Option<Date>)
    ensures parsed == ArticleDateFor(page, cal, selector)
  {
    parsed := None;
    var elem := page.find(selector);
    if elem.Some? {
      var dateText := Strip(AttrOr(elem.value, "datetime", elem.value.text));
      if dateText != "" {
        parsed := FindFirst(DATE_FORMATS, ParseWith(cal, BeforeFirst(dateText, "T")));
      }
    }
  }

  /** The date loop of `fetch_article`, over its selectors. */
  method ArticlePublishedAt(page: Page, cal: Calendar, selectors: seq<string>) returns (publishedAt: string)
    ensures publishedAt == ShownOrToday(cal, FirstSome(selectors, ArticleDateAt(page, cal)))
  {
    publishedAt := cal.today;
    var i := 0;
    assert selectors[i..] == selectors;
    while i < |selectors|
      invariant 0 <= i <= |selectors|
      invariant FirstSome(selectors[i..], ArticleDateAt(page, cal)) == FirstSome(selectors, ArticleDateAt(page, cal))
    {
      var parsed := ArticleDateStep(page, cal, selectors[i]);
      assert parsed == ArticleDateAt(page, cal)(selectors[i]);
      FirstSomeStep(selectors, ArticleDateAt(page, cal), i);
      if parsed.Some? {
        publishedAt := cal.show(parsed.value);
        return;
      }
      i := i + 1;
    }
    assert selectors[i..] == [];
  }

  /** The content of a page: the markup of the first content selector that
      matches, and when that is missing or empty, the `<body>`, and when
      there is no body, `lastResort`. */
  function Content(page: Page, selectors: seq<string>, lastResort: string): (rawHtml: string)
    ensures forall i | 0 <= i < |selectors| && page.find(selectors[i]).Some? &&
              page.find(selectors[i]).value.markup != "" ::
              (forall j | 0 <= j < i :: page.find(selectors[j]).None?) ==> rawHtml == page.find(selectors[i]).value.markup
    ensures (forall j | 0 <= j < |selectors| :: page.find(selectors[j]).None?) ==>
      rawHtml == (if page.find("body").Some? then page.find("body").value.markup else lastResort)
    ensures forall i | 0 <= i < |selectors| && page.find(selectors[i]).Some? &&
              page.find(selectors[i]).value.markup == "" ::
              (forall j | 0 <= j < i :: page.find(selectors[j]).None?) ==>
              rawHtml == (if page.find("body").Some? then page.find("body").value.markup else lastResort)
  {
    var found := FirstSome(selectors, page.find);
    var raw := if found.Some? then found.value.markup else "";
    if raw != "" then raw
    else if page.find("body").Some? then page.find("body").value.markup
    else lastResort
  }

  /** The content loop and its two fallbacks. */
  method SelectContent(page: Page, selectors: seq<string>, lastResort: string) returns (rawHtml: string)
    ensures rawHtml == Content(page, selectors, lastResort)
  {
    rawHtml := "";
    var found := FindFirst(selectors, page.find);
    if found.Some? {
      rawHtml := found.value.markup;
    }
    if rawHtml == "" {
      var body := page.find("body");
      if body.Some? {
        rawHtml := body.value.markup;
      } else {
        rawHtml := lastResort;
      }
    }
  }

  /** `fetch_article(url)`: `None` when an exception other than a request
      error escapes it. */
  function ArticleOf(web: Web, cal: Calendar, url: string): (r: Option<Article>)
    ensures r.None? <==> web.getPage(url).ParseFailed?
    ensures r.Some? ==> r.value.url == url && Stripped(r.value.title)
    ensures web.getPage(url).RequestFailed? ==> r == Some(Article("Error", url, cal.today, ""))
    ensures web.getPage(url).Fetched? ==>
      && r.value.title == ArticleTitle(web.getPage(url).page)
      && r.value.publishedAt == ArticleDate(web.getPage(url).page, cal)
      && r.value.rawHtml == Content(web.getPage(url).page, CONTENT_SELECTORS, web.getPage(url).page.html)
  {
    match web.getPage(url)
    case RequestFailed => Some(Article("Error", url, cal.today, ""))
    case ParseFailed => None
    case Fetched(page) =>
      Some(Article(ArticleTitle(page), url, ArticleDate(page, cal), Content(page, CONTENT_SELECTORS, page.html)))
  }

  /** `fetch_article(url)` */
  method FetchArticle(web: Web, cal: Calendar, url: string) returns (r: Option<Article>)
    ensures r == ArticleOf(web, cal, url)
  {
    match web.getPage(url)
    case RequestFailed =>
      r := Some(Article("Error", url, cal.today, ""));
    case ParseFailed =>
      r := None;
    case Fetched(page) =>
      var title := ArticleTitle(page);
      var publishedAt := ArticlePublishedAt(page, cal, DATE_SELECTORS);
      var rawHtml := SelectContent(page, CONTENT_SELECTORS, page.html);
      r := Some(Article(title, url, publishedAt, rawHtml));
  }

  // ---- fetch_archive_articles, per article ----

  /** `title.split(sep)[0].strip()` when `sep` occurs in `title`. */
  function CutAt(title: string, sep: string): (r: string)
    requires |sep| > 0
    ensures !Contains(r, sep)
    ensures !Contains(title, sep) ==> r == title
  {
    if !Contains(title, sep) then title
    else
      var head := BeforeFirst(title, sep);
      var r := Strip(head);
      assert !Contains(r, sep) by {
        if Contains(r, sep) { ContainsInFactor(head, r, |head| - |TrimStart(head)|, sep); }
      }
      r
  }

  /** The cut keeps no text the title did not contain. */
  lemma CutAtFactor(title: string, sep: string, s: string)
    requires |sep| > 0 && Contains(CutAt(title, sep), s)
    ensures Contains(title, s)
  {
    if Contains(title, sep) {
      var head := BeforeFirst(title, sep);
      ContainsInFactor(head, Strip(head), |head| - |TrimStart(head)|, s);
      ContainsInFactor(title, head, 0, s);
    }
  }

  /** The archive title clean-up: the part before the first " | ", then
      before the first " - ", each stripped. */
  function CleanTitle(title: string): (r: string)
    ensures !Contains(r, " | ") && !Contains(r, " - ")
    ensures !Contains(title, " | ") && !Contains(title, " - ") ==> r == title
  {
    var head := CutAt(title, " | ");
    var r := CutAt(head, " - ");
    assert !Contains(r, " | ") by {
      if Contains(r, " | ") {
        CutAtFactor(head, " - ", " | ");
      }
    }
    r
  }

  /** Cleaning a cleaned title changes nothing. */
  lemma CleanTitleIdempotent(title: string)
    ensures CleanTitle(CleanTitle(title)) == CleanTitle(title)
  {
  }

  /** The archive title before clean-up: the text of `<title>` or else of
      `<h1>`, stripped; "Untitled" when the page has neither. */
  function ArchiveRawTitle(page: Page): string {
    match FirstSome(ARCHIVE_TITLE_QUERIES, page.find)
    case None => "Untitled"
    case Some(e) => Strip(e.text)
  }

  /** The date text of an archive date element: the `datetime` attribute,
      else `data-time`, else the text, stripped. */
  function ArchiveDateText(e: Element): string {
    Strip(AttrOr(e, "datetime", AttrOr(e, "data-time", e.text)))
  }

  /** The date one archive selector parses to: the element's date text, cut
      at the first `T` when it has one, under the first format that accepts
      it. */
  function ArchiveParsedFor(page: Page, cal: Calendar, selector: string): Option<Date> {
    match page.find(selector)
    case None => None
    case Some(e) =>
      var dateText := ArchiveDateText(e);
      var clean := if Contains(dateText, "T") then BeforeFirst(dateText, "T") else dateText;
      if dateText == "" then None
      else FirstSome(ARCHIVE_DATE_FORMATS, ParseWith(cal, clean))
  }

  /** Whether an archive selector yields a date that reads differently from today. */
  predicate DiffersFromToday(cal: Calendar, parsed: Option<Date>) {
    parsed.Some? && cal.show(parsed.value) != cal.today
  }

  /** The body of the archive date loop for one selector, with its inner
      loop over the formats. */
  method ArchiveDateStep(page: Page, cal: Calendar, selector: string) returns (parsed: Option<Date>)
    ensures parsed == ArchiveParsedFor(page, cal, selector)
  {
    parsed := None;
    var elem := page.find(selector);
    if elem.Some? {
      var dateText := ArchiveDateText(elem.value);
      if dateText != "" {
        var clean := if Contains(dateText, "T") then BeforeFirst(dateText, "T") else dateText;
        parsed := FindFirst(ARCHIVE_DATE_FORMATS, ParseWith(cal, clean));
      }
    }
  }

  /** The date each archive selector parses to, for `FirstDiffering`. */
  function ArchiveParsedAt(page: Page, cal: Calendar): string -> Option<Date> {
    selector => ArchiveParsedFor(page, cal, selector)
  }

  /** `published_at` of an archive article, over `selectors`: the first
      parsed date that reads differently from today, else today. The loop
      moves on while `published_at` still reads as today, so a date equal
      to today does not stop it. */
  function FirstDiffering(cal: Calendar, selectors: seq<string>, parsedAt: string -> Option<Date>): (publishedAt: string)
    ensures publishedAt == cal.today <==>
      forall j | 0 <= j < |selectors| :: !DiffersFromToday(cal, parsedAt(selectors[j]))
    ensures publishedAt != cal.today ==>
      exists j | 0 <= j < |selectors| :: DiffersFromToday(cal, parsedAt(selectors[j]))
        && publishedAt == cal.show(parsedAt(selectors[j]).value)
        && forall k | 0 <= k < j :: !DiffersFromToday(cal, parsedAt(selectors[k]))
  {
    if selectors == [] then cal.today
    else
      var parsed := parsedAt(selectors[0]);
      if DiffersFromToday(cal, parsed) then cal.show(parsed.value)
      else
        var r := FirstDiffering(cal, selectors[1..], parsedAt);
        assert forall j | 1 <= j < |selectors| :: selectors[j] == selectors[1..][j - 1];
        r
  }

  /** `published_at` of an archive article. */
  function ArchiveDate(page: Page, cal: Calendar): string {
    FirstDiffering(cal, ARCHIVE_DATE_SELECTORS, ArchiveParsedAt(page, cal))
  }

  /** The archive date loop over `selectors`. */
  method ArchivePublishedAt(page: Page, cal: Calendar, selectors: seq<string>) returns (publishedAt: string)
    ensures publishedAt == FirstDiffering(cal, selectors, ArchiveParsedAt(page, cal))
  {
    publishedAt := cal.today;
    var i := 0;
    while i < |selectors|
      invariant 0 <= i <= |selectors|
      invariant publishedAt == cal.today
      invariant FirstDiffering(cal, selectors[i..], ArchiveParsedAt(page, cal))
                == FirstDiffering(cal, selectors, ArchiveParsedAt(page, cal))
    {
      var parsed := ArchiveDateStep(page, cal, selectors[i]);
      assert selectors[i..][1..] == selectors[i + 1..];
      assert parsed == ArchiveParsedAt(page, cal)(selectors[i..][0]);
      if parsed.Some? {
        publishedAt := cal.show(parsed.value);
      }
      if publishedAt != cal.today {
        return;
      }
      i := i + 1;
    }
  }

  /** One archive link after the page is fetched: `None` when the request
      or the processing fails or the `since` filter drops it. */
  function ArchiveEntry(web: Web, cal: Calendar, since: Option<string>): string -> Option<Article> {
    url =>
      match web.getPage(url)
      case Fetched(page) =>
        var publishedAt := ArchiveDate(page, cal);
        if !KeepSince(cal, publishedAt, since) then None
        else Some(Article(CleanTitle(ArchiveRawTitle(page)), url, publishedAt,
                          Content(page, ARCHIVE_CONTENT_SELECTORS, "")))
      case _ => None
  }

  /** The archive per-link step keeps the article of the link it was given,
      with a cleaned title, and only when it passes the `since` filter. */
  lemma ArchiveEntryOf(web: Web, cal: Calendar, since: Option<string>, url: string)
    ensures ArchiveEntry(web, cal, since)(url).Some? ==>
      && ArchiveEntry(web, cal, since)(url).value.url == url
      && !Contains(ArchiveEntry(web, cal, since)(url).value.title, " | ")
      && !Contains(ArchiveEntry(web, cal, since)(url).value.title, " - ")
      && KeepSince(cal, ArchiveEntry(web, cal, since)(url).value.publishedAt, since)
  {
    if web.getPage(url).Fetched? {
      var page := web.getPage(url).page;
      var title := CleanTitle(ArchiveRawTitle(page));
      assert !Contains(title, " | ") && !Contains(title, " - ");
    }
  }
}
