# Quote harvester: the ingestion and assembly pipeline in Dafny

This project models the deterministic core of a quote harvester. The
harvester crawls Catholic blogs, cuts each article into text chunks, asks a
language model to pick and score quotes, and assembles the records worth
keeping. The model covers four parts:

- **Crawlers** (`fetcher.py`):
  - link discovery and absolutisation (`get_article_links`);
  - `fetch_articles`;
  - the paginated Ghost crawl (`fetch_paginated_posts`), with its 200-page ceiling, its run-scoped set of seen URLs, its three stop conditions and its early return on `limit`;
  - the RSS crawlers (`fetch_wordpress_rss`, `fetch_deacon_articles`, `fetch_substack_articles`, `fetch_ray_articles`);
  - the archive crawler (`fetch_archive_articles`), including its title clean-up;
  - the first-match-wins title, date and content chains of `fetch_article`;
  - the fail-open `since` filter that every crawler shares.
- **Chunker** (`clean_and_chunk` in `cleaner.py`), from the flat text onwards. It splits the text into paragraphs, strips them, drops short ones and packs them greedily into chunks.
- **Scorer response handling** (`score_chunk` in `scorer.py`). The model's reply is a datatype, and the function classifies it as `None` (fatal), `[]` (empty or malformed) or the quotes list.
- **Two harvest orchestrators**, `run_harvest` in `app.py` and `run_harvest` in `main.py`. Each one:
  - dispatches on the source;
  - loops over articles, then chunks, then scorer items;
  - admits worthy quotes with `punch_score >= 3`;
  - merges the article's metadata into each record;
  - de-duplicates by `edited_line`.

  The two differ in how they treat a bad source, a non-list scorer result, an exception in a chunk and the dedup key. Both are modelled side by side, with lemmas that relate them.

The outside world is abstracted as values:

- HTTP and HTML parsing: the `Web` datatype (`web.dfy`) holds function-valued fields. They give the page that a URL fetches to, the `href`s of a listing page, the items of a feed, the element each CSS query finds, and the origin of a URL.
- Dates: the `Calendar` datatype gives `today`, `strptime`, `parsedate_to_datetime` and `strftime`.
- Text extraction: the text that BeautifulSoup extracts from HTML is a function `extractText`.
- The language model: a function `oracle` from the chunk text to a `Reply`.

Python values that the orchestrators inspect are modelled as `Json` (`json.dfy`). An exception that escapes `run_harvest` becomes `Failure(e)` in a `Result`.

Each loop in the source is a `method` with a `while` loop and its invariants. The method is proved equal to a specification function. The properties the source promises are then proved about that function as lemmas.

Module layout:

- `wrappers.dfy` (module `Wrappers`): `Option` and `Result`.
- `text.dfy` (module `Text`): `strip`, `split`, `join`, substring search.
- `json.dfy` (module `Json`): decoded JSON values, `dict.get`, `{**a, **b}`, truthiness, hashing.
- `collect.dfy` (module `Collect`): "append what each input yields" loops and first-match chains.
- `dedup.dfy` (module `Dedup`): the seen-set dedup loop that keeps the first occurrence.
- `web.dfy` (module `Web`): the abstract web and calendar, the `since` filter and the `limit` check.
- `links.dfy` (module `Links`): `href` filtering, absolutisation and link lists.
- `pages.dfy` (module `Pages`): title, date and content extraction from an article page.
- `crawlers.dfy` (module `Crawlers`): `fetch_articles`, `fetch_paginated_posts`, `fetch_archive_articles`.
- `feeds.dfy` (module `Feeds`): the RSS crawlers.
- `cleaner.dfy` (module `Cleaner`): `clean_and_chunk`.
- `scorer.dfy` (module `Scorer`): `score_chunk`.
- `quotes.dfy` (module `Quotes`): what both orchestrators share: the environment, record merge, loop shapes.
- `app_harvest.dfy` (module `AppHarvest`): `run_harvest` of `app.py`.
- `cli_harvest.dfy` (module `CliHarvest`): `run_harvest` of `main.py`, and how it differs from `app.py`.

## Model

| member | source | states |
|---|---|---|
| Text.Strip | cleaner.py:22 | `strip()` returns a factor of its input that has no whitespace at either end |
| Text.StripIdempotent | cleaner.py:22 | stripping twice is stripping once |
| Text.StripSpaces | cleaner.py:22 | `strip()` removes only whitespace: everything before and after the factor it returns is whitespace |
| Text.JoinSplit | cleaner.py:22 | joining the pieces of `text.split("\n\n")` with the separator gives the text back |
| Cleaner.NonBlank | cleaner.py:22 | every kept paragraph is non-empty and stripped, and there are no more of them than pieces |
| Cleaner.NonBlankSelects | cleaner.py:22 | dropping blank pieces works piece by piece and keeps their order: the filter of a concatenation is the concatenation of the filters, and one piece gives its stripped text exactly when that is not empty |
| Cleaner.LongEnough | cleaner.py:25 | keeps exactly the paragraphs at least `min_length` long, and nothing else (as a set) |
| Cleaner.LongEnoughSelects | cleaner.py:25 | the length filter works paragraph by paragraph and keeps their order: the filter of a concatenation is the concatenation of the filters, and one paragraph is kept exactly when it is at least `min_length` long |
| Cleaner.LongEnoughSubsequence | cleaner.py:25 | the surviving paragraphs are a subsequence of the paragraphs: in their order, none invented |
| Cleaner.ValidParagraphs | cleaner.py:22-25 | every surviving paragraph is non-empty, stripped and at least `min_length` long |
| Cleaner.ValidParagraphsSelects | cleaner.py:22-25 | the survivors are a subsequence of the stripped non-blank paragraphs, so in their order and none invented, and every one of those at least `min_length` long survives |
| Cleaner.CleanAndChunk | cleaner.py:5-51 | empty HTML gives `[]`; otherwise the packing loop returns exactly the chunks of the extracted text |
| Cleaner.Pack | cleaner.py:31-49 | the `current_chunk` loop returns the greedy grouping of the surviving paragraphs, each group joined with `"\n\n"` |
| Cleaner.Joined | cleaner.py:38-49 | each chunk is its group of paragraphs joined with `"\n\n"` |
| Cleaner.ChunksProperties | cleaner.py:27-49 | chunks joined with `"\n\n"` give the surviving paragraphs joined with `"\n\n"` (none dropped, duplicated, reordered or split); every chunk is non-empty and stripped; `[]` exactly when no paragraph survives; otherwise between 1 and the paragraph count of chunks; a chunk of two or more paragraphs fits `max_chunk_len`; packing is greedy, so a chunk plus 2 plus the next chunk's first paragraph exceeds `max_chunk_len` |
| Cleaner.BlankTextHasNoChunks | cleaner.py:22-28 | whitespace-only text has no paragraphs and no chunks, and this is not an error |
| Scorer.ScoreChunk | scorer.py:66-86 | `None` exactly when the call fails, the content does not decode or the decoded value is not an object; a list `quotes` is returned unchanged, with no cap of 3; a missing or non-list `quotes` gives `[]` |
| Scorer.ScoreTruthy | scorer.py:70-75 | the result is truthy exactly when the reply carries a non-empty `quotes` list; `[]` only ever comes from a decoded object, never from a failure |
| Web.KeepSinceFailOpen | fetcher.py:180-188 | an article is dropped only when `since` is given, both dates parse and the article is strictly older; an equal date or an unparsable one is kept |
| Web.TakeLimit | fetcher.py:737-739 | with a truthy `limit`, the result is a prefix of the items no longer than the limit (or 1 for a negative limit); without one, all items |
| Web.PySliceTo | fetcher.py:172-173 | `xs[:k]` is a prefix of `xs`, of length `k` (capped at the length), or of the length plus `k` (at least 0) for a negative `k` |
| Links.Absolutise | fetcher.py:36-44 | an `href` is followed exactly when it is non-empty, contains one of the patterns and starts with `/` or `http`; a `/` link is prefixed with the origin, an `http` link is kept verbatim |
| Links.DomainKey | fetcher.py:519 | a URL is accepted exactly when it contains `marcusbpeter.com` |
| Links.CollectLinks | fetcher.py:509-521 | the link loop appends each followed, accepted, unseen URL once, in first-seen order; the seen set grows by exactly the appended links |
| Links.GetArticleLinks | fetcher.py:19-53 | returns the de-duplicated on-site links of the page, or `[]` when the request fails |
| Links.ArticleLinksProperties | fetcher.py:31-49 | the links are pairwise distinct and on the site; each comes from an `href` of the page, and every on-site link the page offers is among them |
| Links.ArchiveLinks | fetcher.py:326-343 | the archive crawler's link list has no duplicates |
| Links.ArchiveLinksProperties | fetcher.py:326-343 | the archive links are exactly the `href`s that contain an archive pattern and start with `/` or `http`, made absolute against the archive page's own origin: each link is one of them and each of them is a link; `[]` when the archive page cannot be fetched |
| Collect.FirstSome | fetcher.py:136-140 | a first-match chain yields nothing exactly when no query answers; otherwise it yields the answer of the first query that answers |
| Pages.FindFirst | fetcher.py:75-80 | the loop over queries returns the first answer |
| Pages.ArticleTitle | fetcher.py:75-83 | the title is stripped; it is "Untitled" when no title query answers; otherwise the first query that answers decides, through `ElementTitle` |
| Pages.ElementTitle | fetcher.py:79-81 | a title element gives its `content` attribute when it has one, else its text, stripped |
| Pages.ArticleDate | fetcher.py:85-120 | `published_at` is today when no date selector yields a parsable date; otherwise it is the formatted date of the first selector that yields one |
| Pages.ArticlePublishedAt | fetcher.py:94-120 | over any list of selectors, the selector and format loops yield the date of the first selector that gives one, else today |
| Pages.Content | fetcher.py:122-149 | the markup of the first content selector that answers (when non-empty); when none answers, or the first that answers has empty markup, the body's markup, else the whole HTML |
| Pages.SelectContent | fetcher.py:135-149 | the content loop with its two fallbacks computes `Content` |
| Pages.ArticleOf | fetcher.py:56-165 | raises exactly when the page cannot be processed; a request failure gives the "Error" article with empty `raw_html` dated today; otherwise the article carries the URL, the title of `ArticleTitle`, the date of `ArticleDate` and the chained content |
| Pages.FetchArticle | fetcher.py:56-165 | `fetch_article` computes `ArticleOf` |
| Pages.CutAt | fetcher.py:367-370 | the first segment of a split contains no separator, and a title without the separator is unchanged |
| Pages.CutAtFactor | fetcher.py:367-370 | the first segment contains no text the title did not contain |
| Pages.CleanTitle | fetcher.py:366-370 | the cleaned archive title contains neither the space-bar-space nor the space-dash-space separator, and a title with neither is unchanged |
| Pages.CleanTitleIdempotent | fetcher.py:366-370 | cleaning a cleaned title changes nothing |
| Pages.FirstDiffering | fetcher.py:372-408 | the archive date is today exactly when no selector yields a date that differs from today; otherwise it is the first such date |
| Pages.ArchivePublishedAt | fetcher.py:375-408 | the archive date loop, which stops only on a date other than today, computes `FirstDiffering` |
| Crawlers.FetchArticles | fetcher.py:168-193 | the result fails exactly when `fetch_article` raises on one of the cut links; otherwise it holds the articles of those links that pass the `since` filter, in link order |
| Crawlers.FetchEach | fetcher.py:175-193 | the article loop raises exactly when one fetch raises, and otherwise keeps what passes the filter |
| Crawlers.LinksToFetchBound | fetcher.py:172-173 | the fetched links are a prefix of the found links: at most `limit` for a positive limit, all but the last `-limit` for a negative one, and all without a limit |
| Crawlers.PageArticlesFacts | fetcher.py:531-558 | one page fetches a prefix of its new links and keeps the articles of exactly those; it stops early exactly when the limit check fires, and the list is then at the cap; otherwise it fetched every new link |
| Crawlers.FetchPageArticles | fetcher.py:531-558 | the per-page article loop computes `PageArticles` |
| Crawlers.PaginatedPostsProperties | fetcher.py:463-570 | the crawl requests between 1 and 200 pages (page 1 is `base_url`, page n is `base_url/page/n`); no link is fetched twice; every fetched link is on the site and offered by a requested page; every on-site link of every page before the last is fetched; the articles are the filtered fetches in order; a truthy limit bounds their count; it stops on a 404, a failed page, a page with no unseen link, the limit (exactly when the limit check fires) or the ceiling of 200 pages |
| Crawlers.CrawlFromProperties | fetcher.py:484-570 | from any crawl state the rest of the crawl keeps those guarantees |
| Crawlers.CrawlPage | fetcher.py:503-558 | one listing page: its new links are the unseen on-site links in order and the seen set grows by exactly them; no new link changes nothing; otherwise the article loop computes `PageArticles` |
| Crawlers.Paginate | fetcher.py:484-570 | the `while current_page <= MAX_PAGES` loop returns the articles of the crawl `PaginatedPosts` |
| Crawlers.FetchPaginatedPosts | fetcher.py:463-570 | `fetch_paginated_posts` returns the articles of `PaginatedPosts` with the `since` filter as the per-link step |
| Crawlers.PaginatedArticlesDistinct | fetcher.py:519-554 | the paginated articles have pairwise distinct URLs, each a fetched link, and each passes the `since` filter |
| Crawlers.CollectedUrlsDistinct | fetcher.py:519-548 | distinct links give articles with distinct URLs |
| Crawlers.ArchiveArticle | fetcher.py:353-450 | one archive link is skipped when its page fails or the filter drops it; otherwise it gives the cleaned title, the first differing date and the chained content |
| Crawlers.ArchiveEach | fetcher.py:353-453 | the archive article loop keeps the entries of the links in order, and a failing link skips only itself |
| Crawlers.FetchArchiveArticles | fetcher.py:281-460 | `fetch_archive_articles` computes the archive article list |
| Crawlers.ArchiveArticlesProperties | fetcher.py:342-420 | a positive limit bounds the count; URLs are distinct and come from the archive's links; titles contain neither separator; every article passes the `since` filter |
| Feeds.TakeEach | fetcher.py:727-739 | the RSS item loop keeps the items' articles in order and stops after the append that fires the limit check |
| Feeds.RssTitle | fetcher.py:216-217 | an item's title is stripped |
| Feeds.RssDate | fetcher.py:224-238 | the `pubDate` as an RFC 2822 date, or today when the item has none or it does not parse |
| Feeds.RssContent | fetcher.py:721-725 | `content:encoded` wins over `description`, and `description` is used when `content:encoded` is absent; the element's text when its `.string` is a non-empty string, else its markup; "" when the item has neither |
| Feeds.FetchWordpressRss | fetcher.py:662-749 | the crawler computes the feed's article list; `[]` when the feed fails |
| Feeds.FetchSubstackArticles | fetcher.py:196-278 | the Substack crawler reads a feed exactly as the WordPress one does |
| Feeds.FetchDeaconArticles | fetcher.py:573-583 | the WordPress crawler on Deacon Harold's feed |
| Feeds.RssArticlesProperties | fetcher.py:706-742 | a positive limit bounds the count, and a negative one lets at most one article through; a failed feed gives `[]`; every article is an item's article with a stripped title that passes the filter |
| Feeds.RssLimitMonotone | fetcher.py:737-739 | a smaller positive limit gives a prefix of a larger one's result |
| Feeds.FetchRayArticles | fetcher.py:586-659 | the crawler computes Dr. Ray's article list |
| Feeds.RayArticlesProperties | fetcher.py:606-652 | a truthy limit bounds the count; every article comes from an item with a non-empty link whose feed date passes the filter; the feed date overrides the page's date when the item has a `pubDate` |
| Dedup.DedupFrom | app.py:254-264 | the kept items have keys, no key is kept twice, and there are no more of them than the input |
| Dedup.KeepFirst | app.py:255-264 | the seen-set loop computes `DedupFrom` |
| Dedup.DedupIsSubsequence | app.py:257-264 | dedup output is a subsequence of its input, so order is preserved |
| Dedup.DedupFirstWins | app.py:261-264 | the kept item for a key is its first occurrence |
| Dedup.DedupCoversKeys | app.py:257-264 | every key of the input is kept by some item |
| Dedup.DedupIdempotent | app.py:255-264 | running the dedup on its own output changes nothing |
| Quotes.MergeReads | app.py:245-250 | a merged record starts with `source_title`, `source_url` and `published_at` and holds each key once; a key reads from the quote when the quote has it, and from the article otherwise |
| Quotes.Gather | app.py:205-251 | a loop that lets exceptions out fails exactly when one input raises, and then with the first input's exception |
| Quotes.GatherAsConcat | app.py:220-251 | when nothing raises, that loop is the plain concatenation of what each input yields |
| AppHarvest.Judge | app.py:230-251 | an item is admitted exactly when it is a dict with a string or missing `edited_line`, a truthy `is_quote_worthy` (default False) and an integer `punch_score` (default 0) of at least 3; the record is the merge; the run raises exactly on a non-dict item, a non-string `edited_line`, or a worthy item whose score is not an integer |
| AppHarvest.ProcessResults | app.py:230-252 | the quote loop appends the admitted records in order, or raises the first item's exception |
| AppHarvest.ProcessChunk | app.py:220-252 | a falsy scorer result contributes nothing, and a non-list result is treated as a one-element list |
| AppHarvest.ProcessArticle | app.py:211-252 | an article without HTML is skipped; otherwise its chunks are processed in order |
| AppHarvest.GatherChunks | app.py:220-252 | the chunk loop gathers the chunks' records |
| AppHarvest.ProcessArticles | app.py:205-252 | the article loop gathers every article's records, or the first exception |
| AppHarvest.FetchSource | app.py:174-200 | dispatch on `source`, returning exactly `Fetched`: the articles of the paginated crawl `PaginatedPosts`, the single page, Dr. Ray's or Deacon Harold's feed; nothing for an unknown source, for the URL mode without a URL, or when the single page cannot be fetched |
| AppHarvest.RunHarvest | app.py:164-266 | the run returns the de-duplicated records of exactly the articles `FetchSource` returns, or the exception the quote loop raises; an unknown source or `single_url` without a URL returns `[]` |
| AppHarvest.RecordOfChunk | app.py:222-251 | every record of a chunk is an admissible quote merged with the article |
| AppHarvest.RecordOfArticle | app.py:211-251 | every record of an article comes from an article with HTML |
| AppHarvest.RecordOfRun | app.py:205-251 | every record comes from one of the articles, and carries a truthy `is_quote_worthy` and an integer `punch_score` of at least 3 |
| AppHarvest.MergeAdmitted | app.py:237-250 | merging an admissible quote gives a record that passes the filter |
| AppHarvest.HarvestedProperties | app.py:254-266 | the output is a subsequence of the admitted records; every output record has a non-empty stripped line, comes from an article with HTML and passes the filter; stripped lines are distinct; the first record of each line wins; the dedup is idempotent |
| AppHarvest.EmptyRuns | app.py:175-200 | an unknown source, `single_url` without a URL, or a single page that cannot be fetched gives no articles and `[]` |
| AppHarvest.NothingToScore | app.py:211-225 | an article without HTML, or a chunk whose result is `None` or `[]`, contributes nothing |
| CliHarvest.Judge | main.py:64-77 | an item is admitted exactly when it is a dict with a truthy `is_quote_worthy` and an integer `punch_score` of at least 3; the record is the merge; the item raises exactly when it is not a dict, or is worthy with a non-integer score |
| CliHarvest.ProcessQuotes | main.py:64-78 | the quote loop appends admitted records in order and stops at the first item that raises, keeping what it appended |
| CliHarvest.ProcessChunk | main.py:56-82 | a `None` result or a non-list result contributes nothing; an exception ends only this chunk |
| CliHarvest.ConcatChunks | main.py:56-82 | the chunk loop concatenates the chunks' records |
| CliHarvest.ProcessArticle | main.py:48-82 | an article's records are its chunks' records, in order |
| CliHarvest.ProcessArticles | main.py:46-82 | the article loop concatenates the articles' records |
| CliHarvest.DedupLines | main.py:86-94 | the dedup loop computes `Unique`: the first record of each truthy `edited_line`, or `TypeError` for an unhashable line |
| CliHarvest.FetchSource | main.py:24-38 | dispatch on `source`, returning exactly `Fetched` (the articles of the paginated crawl `PaginatedPosts` for `ghost`): a URL-less URL mode or an unknown source raises `ValueError`; a single page that cannot be fetched raises |
| CliHarvest.RunHarvest | main.py:11-98 | the run returns the de-duplicated records of exactly the articles `FetchSource` returns, or the exception it raises; a bad source or the URL mode without a URL raises `ValueError` |
| CliHarvest.RaiseEndsChunk | main.py:56-82 | an item that raises ends its chunk: the later items of that chunk contribute nothing |
| CliHarvest.ChunkIsolation | main.py:56-82 | an article's records are those of the chunks before, of this chunk and of the chunks after, so what happens in one chunk leaves the others alone |
| CliHarvest.NothingFromChunk | main.py:58-63 | a `None` or non-list scorer result contributes nothing |
| CliHarvest.RecordOfChunk | main.py:64-77 | every record of a chunk is a qualifying quote merged with the article |
| CliHarvest.ScanFrom | main.py:64-77 | every record the quote loop appends is a qualifying quote merged with the article |
| CliHarvest.RecordOfRun | main.py:46-82 | every record comes from one of the articles and passes the filter |
| CliHarvest.MergeAdmitted | main.py:69-76 | merging a qualifying quote gives a record that passes the filter |
| CliHarvest.UniqueProperties | main.py:86-96 | the dedup raises exactly when a truthy line is unhashable; otherwise the output is a subsequence with truthy, pairwise distinct exact lines, the first record of each line wins, and the dedup is idempotent |
| CliHarvest.ScanAgrees | main.py:64-77 | on a chunk where `app.py` raises nothing, both quote loops append the same records |
| CliHarvest.RecordsAgree | main.py:46-82 | whenever `app.py` raises nothing, both entry points collect the same records before dedup |
| CliHarvest.TrimmedAgainstExact | main.py:87-94 | the lines "a" and " a" are one line to `app.py`, which keeps the first record, and two lines to `main.py`, which keeps both |

## Left out

- The language model: `oracle` maps a chunk's text to one reply, so equal chunks get equal replies within a run. The real call is not deterministic. The OpenAI client, `SYSTEM_PROMPT`, the model name and the temperature are not part of this model.
- HTML parsing is not modelled. BeautifulSoup's `find`, `select_one`, `find_all` and `get_text`, and the junk-tag removal at cleaner.py:10-16, are abstract inputs: the `find` of a `Page`, the `href`s of a `Listing`, the items of a `Feed`, and `extractText`.
- HTTP is abstract. `requests` and the browser-then-basic header retry of `fetch_article` become one fetch outcome per URL: a page, a `RequestException`, or another exception. A listing gives a 404, another failure, or its links. Status codes other than these are not distinguished.
- A page that is fetched twice is assumed to give the same answer. This matters to `fetch_articles`, to the Ray crawler and to a run that revisits a URL.
- Date parsing is abstract. `strptime`, `parsedate_to_datetime` and `strftime` are the functions of `Calendar`. Dates are `(year, month, day)`, which is what `%Y-%m-%d` values compare on.
- `datetime.now()` is `Calendar.today`, one value for the whole run.
- `urlparse(...).scheme + "://" + netloc` is `Web.origin`.
- `fetch_single_url` is `Web.single`. It is `None` when it raises, otherwise one article.
- Floats are not modelled: `Json` has no float case. A float `punch_score` would be compared numerically in Python; here it can only be an `Int` or `Bool`.
- `print`, `st.write` and `st.error` logging are left out. So are the Streamlit UI, `send_quotes_to_slack`, `set_background`, `exporter.py`, `ai_core.py`, `nio_key_drop.py`, `app_old.py` and the `main()` argument parsing. `config.py` contributes only its constants.
- `fetch_site_articles` is a one-line alias of `fetch_articles` and has no model of its own.
- AppHarvest.ProcessChunk: the branch that wraps a single dict result into a list is modelled, but the modelled `score_chunk` only returns lists, so that branch never runs.
- CliHarvest.ProcessArticle: the source reads `article["raw_html"]` and the other keys by subscript. Every modelled crawler fills all four keys, so the `KeyError` that a missing key would raise is not modelled.
- Crawlers.FetchArticles, Crawlers.Paginate, Feeds.FetchRayArticles: the per-link and per-item steps are the specification functions `ArticleOf`, `ArchiveEntry` and `RayEntry`, evaluated as values. The loops do not call the `FetchArticle` or `ArchiveArticle` methods, which are proved equal to those functions separately.
- Crawlers.PaginatedPostsProperties: the count of listing requests is bounded through the crawl's page count, at most `MAX_PAGES`, rather than counted as I/O.
- Links.ArchiveLinks: the archive crawler walks `soup.find_all('a', href=True)` once. The selector list `ARCHIVE_LINK_SELECTORS` at fetcher.py:291 is defined but unused, so it is not modelled.
- Pages.ArticleOf: any exception other than a `RequestException` while reading an article page escapes `fetch_article`. It is modelled as `None`, and every caller that catches it skips the link. `fetch_articles` does not catch it; there it is the failure of `Crawlers.FetchArticles`.
