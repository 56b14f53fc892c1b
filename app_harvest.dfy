/** `run_harvest` of app.py: fetch the articles of the chosen source (any
    fetch failure gives an empty run), score every chunk of every article,
    admit the worthy quotes, merge the article metadata into each, and keep
    the first record of each trimmed `edited_line`. Nothing after the fetch
    catches an exception: a malformed scorer item ends the whole run. */
module AppHarvest {
  import opened Wrappers
  import opened Text
  import opened Json
  import opened Web
  import opened Cleaner
  import opened Scorer
  import opened Dedup
  import opened Crawlers
  import opened Feeds
  import opened Quotes

  /** The quote fields the admission filter lets through: an `edited_line`
      that is text or missing, a truthy `is_quote_worthy` and an integer
      `punch_score` of at least `MIN_PUNCH_SCORE`, where the missing fields
      count as `""`, `False` and `0`. */
  predicate Admissible(q: Dict) {
    && (Get(q, "edited_line").None? || Get(q, "edited_line").value.Str?)
    && Truthy(GetOr(q, "is_quote_worthy", Bool(false)))
    && AsInt(GetOr(q, "punch_score", Int(0))).Some?
    && AsInt(GetOr(q, "punch_score", Int(0))).value >= MIN_PUNCH_SCORE
  }

  /** The body of the result loop for one item of article `a`. It raises
      when the item is not a dict, when its `edited_line` cannot be sliced
      and concatenated to text, and when a worthy item's `punch_score`
      cannot be compared with an int; it admits exactly the admissible
      items, merged with the article's metadata. */
  function Judge(a: Article, item: Json): (s: Step)
    ensures s.Admit? <==> item.Obj? && Admissible(item.fields)
    ensures s.Admit? ==> s.record == Merge(a, item.fields)
    ensures !item.Obj? ==> s == Raise(AttributeError)
    ensures s.Raise? <==>
      || !item.Obj?
      || !GetOr(item.fields, "edited_line", Str("")).Str?
      || (Truthy(GetOr(item.fields, "is_quote_worthy", Bool(false)))
          && AsInt(GetOr(item.fields, "punch_score", Int(0))).None?)
  {
    if !item.Obj? then Raise(AttributeError)
    else
      var score := GetOr(item.fields, "punch_score", Int(0));
      var worthy := GetOr(item.fields, "is_quote_worthy", Bool(false));
      var line := GetOr(item.fields, "edited_line", Str(""));
      if !line.Str? then Raise(TypeError)
      else if !Truthy(worthy) then Skip
      else if AsInt(score).None? then Raise(TypeError)
      else if AsInt(score).value < MIN_PUNCH_SCORE then Skip
      else Admit(Merge(a, item.fields))
  }

  function ItemStep(a: Article): Json -> Result<seq<Json>, Exc> {
    item =>
      match Judge(a, item)
      case Admit(r) => Success([r])
      case Skip => Success([])
      case Raise(e) => Failure(e)
  }

  /** The records of one chunk: none for a falsy scorer result (`None` or
      `[]`), else those of each item of the result, a lone dict counting as
      a one-item list. */
  function ChunkRecords(env: Env, a: Article, chunk: string): Result<seq<Json>, Exc> {
    var result := Score(env, chunk);
    if result.None? || !Truthy(result.value) then Success([])
    else Gather(Results(result.value), ItemStep(a))
  }

  function ChunkStep(env: Env, a: Article): string -> Result<seq<Json>, Exc> {
    chunk => ChunkRecords(env, a, chunk)
  }

  /** The records of one article: none without HTML, else those of each of
      its chunks. */
  function ArticleRecords(env: Env, a: Article): Result<seq<Json>, Exc> {
    if a.rawHtml == "" then Success([]) else Gather(ChunksOf(env, a.rawHtml), ChunkStep(env, a))
  }

  function ArticleStep(env: Env): Article -> Result<seq<Json>, Exc> {
    a => ArticleRecords(env, a)
  }

  /** `all_quotes` once every article is processed, or the exception that
      ended the run. */
  function AllRecords(env: Env, articles: seq<Article>): Result<seq<Json>, Exc> {
    Gather(articles, ArticleStep(env))
  }

  /** The dedup key `q.get("edited_line", "").strip()`, `None` when it is
      empty and the record is dropped. `Judge` raises on every other kind
      of `edited_line`, so only text or a missing line reaches here. */
  function LineKey(record: Json): Option<string> {
    if !record.Obj? then None
    else
      match Get(record.fields, "edited_line")
      case Some(Str(s)) => if Strip(s) == "" then None else Some(Strip(s))
      case _ => None
  }

  /** `unique_quotes`: the first record of each non-empty trimmed line. */
  function Unique(records: seq<Json>): seq<Json> {
    DedupFrom(records, LineKey, {})
  }

  /** What processing `articles` returns, or the exception it raises. */
  function Harvested(env: Env, articles: seq<Article>): Result<seq<Json>, Exc> {
    match AllRecords(env, articles)
    case Success(records) => Success(Unique(records))
    case Failure(e) => Failure(e)
  }

  /** The sources the app knows. */
  const SOURCES: set<string> := {"marcus_all", "single_url", "ray", "deacon"}

  /** `url` is missing or empty (`not url`). */
  predicate NoUrl(url: Option<string>) {
    url.None? || url.value == ""
  }

  /** The articles the fetch step produces for the arguments: the
      paginated crawl of `BASE_URL`, the single page (nothing when it cannot
      be fetched), Dr. Ray's or Deacon Harold's feed, and nothing for an
      unknown source or the URL mode without a URL. */
  function Fetched(env: Env, source: string, url: Option<string>, since: Option<string>,
                   limit: Option<int>): seq<Article>
  {
    if source == "marcus_all" then
      PaginatedPosts(env.web, SinceEntry(env.web, env.cal, since), BASE_URL, limit).articles
    else if source == "single_url" then
      if NoUrl(url) || env.web.single(url.value).None? then [] else [env.web.single(url.value).value]
    else if source == "ray" then
      RayArticles(env.web, env.cal, since, limit)
    else if source == "deacon" then
      RssArticles(env.web, env.cal, DEACON_RSS_URL, since, limit)
    else
      []
  }


  // ---- the loops of run_harvest ----

  /** The `for quote_result in results` loop. */
  method ProcessResults(a: Article, results: seq<Json>) returns (r: Result<seq<Json>, Exc>)
    ensures r == Gather(results, ItemStep(a))
  {
    var quotes: seq<Json> := [];
    var i := 0;
    assert results[i..] == results;
    PrependNil(Gather(results, ItemStep(a)));
    while i < |results|
      invariant 0 <= i <= |results|
      invariant Gather(results, ItemStep(a)) == Prepend(quotes, Gather(results[i..], ItemStep(a)))
    {
      GatherStep(results, i, ItemStep(a));
      ghost var rest := Gather(results[i + 1..], ItemStep(a));
      var item := results[i];
      if !item.Obj? {
        return Failure(AttributeError);
      }
      var score := GetOr(item.fields, "punch_score", Int(0));
      var worthy := GetOr(item.fields, "is_quote_worthy", Bool(false));
      var line := GetOr(item.fields, "edited_line", Str(""));
      if !line.Str? {
        return Failure(TypeError);
      }
      if !Truthy(worthy) {
        assert Judge(a, item) == Skip;
        PrependNil(rest);
        i := i + 1;
        continue;
      }
      var n := AsInt(score);
      if n.None? {
        return Failure(TypeError);
      }
      if n.value < MIN_PUNCH_SCORE {
        assert Judge(a, item) == Skip;
        PrependNil(rest);
        i := i + 1;
        continue;
      }
      var record := Merge(a, item.fields);
      assert Judge(a, item) == Admit(record);
      PrependPrepend(quotes, [record], rest);
      quotes := quotes + [record];
      i := i + 1;
    }
    assert results[i..] == [] && quotes + [] == quotes;
    return Success(quotes);
  }

  /** One iteration of the chunk loop: score the chunk, skip a falsy
      result, and process the items of the rest. */
  method ProcessChunk(env: Env, a: Article, chunk: string) returns (r: Result<seq<Json>, Exc>)
    ensures r == ChunkRecords(env, a, chunk)
  {
    var result := ScoreChunk(env.oracle(chunk));
    if result.None? || !Truthy(result.value) {
      return Success([]);
    }
    var value := result.value;
    var results := if value.Arr? then value.items else [value];
    r := ProcessResults(a, results);
  }

  /** One iteration of the article loop: skip an article without HTML,
      otherwise chunk it and process each chunk. */
  method ProcessArticle(env: Env, a: Article) returns (r: Result<seq<Json>, Exc>)
    ensures r == ArticleRecords(env, a)
  {
    if a.rawHtml == "" {
      return Success([]);
    }
    var chunks := CleanAndChunk(a.rawHtml, env.extractText, MIN_LENGTH, MAX_CHUNK_LEN);
    assert chunks == ChunksOf(env, a.rawHtml);
    r := GatherChunks(env, a, chunks);
  }

  /** The chunk loop. */
  method GatherChunks(env: Env, a: Article, chunks: seq<string>) returns (r: Result<seq<Json>, Exc>)
    ensures r == Gather(chunks, ChunkStep(env, a))
  {
    var quotes: seq<Json> := [];
    var i := 0;
    assert chunks[i..] == chunks;
    PrependNil(Gather(chunks, ChunkStep(env, a)));
    while i < |chunks|
      invariant 0 <= i <= |chunks|
      invariant Gather(chunks, ChunkStep(env, a)) == Prepend(quotes, Gather(chunks[i..], ChunkStep(env, a)))
    {
      GatherStep(chunks, i, ChunkStep(env, a));
      var found := ProcessChunk(env, a, chunks[i]);
      if found.Failure? {
        return Failure(found.error);
      }
      PrependPrepend(quotes, found.value, Gather(chunks[i + 1..], ChunkStep(env, a)));
      quotes := quotes + found.value;
      i := i + 1;
    }
    assert chunks[i..] == [] && quotes + [] == quotes;
    return Success(quotes);
  }

  /** The article loop, building `all_quotes`. */
  method ProcessArticles(env: Env, articles: seq<Article>) returns (r: Result<seq<Json>, Exc>)
    ensures r == AllRecords(env, articles)
  {
    var allQuotes: seq<Json> := [];
    var i := 0;
    assert articles[i..] == articles;
    PrependNil(AllRecords(env, articles));
    while i < |articles|
      invariant 0 <= i <= |articles|
      invariant AllRecords(env, articles) == Prepend(allQuotes, Gather(articles[i..], ArticleStep(env)))
    {
      GatherStep(articles, i, ArticleStep(env));
      var found := ProcessArticle(env, articles[i]);
      if found.Failure? {
        return Failure(found.error);
      }
      PrependPrepend(allQuotes, found.value, Gather(articles[i + 1..], ArticleStep(env)));
      allQuotes := allQuotes + found.value;
      i := i + 1;
    }
    assert articles[i..] == [] && allQuotes + [] == allQuotes;
    return Success(allQuotes);
  }

  /** The fetch step: dispatch on `source`; the URL mode without a URL, an
      unknown source and a failed fetch give no articles. */
  method FetchSource(env: Env, source: string, url: Option<string>, since: Option<string>, limit: Option<int>)
    returns (articles: seq<Article>)
    ensures articles == Fetched(env, source, url, since, limit)
  {
    if source == "marcus_all" {
      articles := FetchPaginatedPosts(env.web, env.cal, BASE_URL, since, limit);
    } else if source == "single_url" {
      if NoUrl(url) {
        return [];
      }
      var page := env.web.single(url.value);
      if page.None? {
        return [];
      }
      articles := [page.value];
    } else if source == "ray" {
      articles := FetchRayArticles(env.web, env.cal, since, limit);
    } else if source == "deacon" {
      articles := FetchDeaconArticles(env.web, env.cal, since, limit);
    } else {
      articles := [];
    }
  }

  /** `run_harvest(source, url, since, limit)`: the unique quote records of
      the fetched articles, or the exception processing raised. An unknown
      source and the URL mode without a URL give an empty run. */
  method RunHarvest(env: Env, source: string, url: Option<string>, since: Option<string>, limit: Option<int>)
    returns (r: Result<seq<Json>, Exc>)
    ensures r == Harvested(env, Fetched(env, source, url, since, limit))
    ensures source !in SOURCES || (source == "single_url" && NoUrl(url)) ==> r == Success([])
  {
    var articles := FetchSource(env, source, url, since, limit);
    var all := ProcessArticles(env, articles);
    if all.Failure? {
      return Failure(all.error);
    }
    var unique := KeepFirst(all.value, LineKey);
    return Success(unique);
  }

  // ---- properties ----

  /** A record comes from article `a`: it is the merge of `a`'s metadata
      with an admissible scorer item. */
  ghost predicate FromArticle(a: Article, record: Json) {
    exists q :: Admissible(q) && record == Merge(a, q)
  }

  /** A record of one chunk comes from the chunk's article. */
  lemma RecordOfChunk(env: Env, a: Article, chunk: string, record: Json)
    requires ChunkRecords(env, a, chunk).Success? && record in ChunkRecords(env, a, chunk).value
    ensures FromArticle(a, record)
  {
    var result := Score(env, chunk);
    var items := Results(result.value);
    GatherFrom(items, ItemStep(a), record);
    var j :| 0 <= j < |items| && ItemStep(a)(items[j]).Success? && record in ItemStep(a)(items[j]).value;
    var s := Judge(a, items[j]);
    assert s.Admit? && record == s.record;
    assert Admissible(items[j].fields) && record == Merge(a, items[j].fields);
  }

  /** A record of one article comes from that article, which has HTML. */
  lemma RecordOfArticle(env: Env, a: Article, record: Json)
    requires ArticleRecords(env, a).Success? && record in ArticleRecords(env, a).value
    ensures a.rawHtml != "" && FromArticle(a, record)
  {
    var chunks := ChunksOf(env, a.rawHtml);
    GatherFrom(chunks, ChunkStep(env, a), record);
    var c :| 0 <= c < |chunks| && ChunkStep(env, a)(chunks[c]).Success? && record in ChunkStep(env, a)(chunks[c]).value;
    RecordOfChunk(env, a, chunks[c], record);
  }

  /** A record of the run comes from an article with HTML, and reads back
      as worthy with a score of at least `MIN_PUNCH_SCORE`: the metadata
      keys never shadow those fields. */
  lemma RecordOfRun(env: Env, articles: seq<Article>, record: Json)
    requires AllRecords(env, articles).Success? && record in AllRecords(env, articles).value
    ensures exists i | 0 <= i < |articles| :: articles[i].rawHtml != "" && FromArticle(articles[i], record)
    ensures Admitted(record)
  {
    GatherFrom(articles, ArticleStep(env), record);
    var i :| 0 <= i < |articles| && ArticleStep(env)(articles[i]).Success? && record in ArticleStep(env)(articles[i]).value;
    RecordOfArticle(env, articles[i], record);
    var q :| Admissible(q) && record == Merge(articles[i], q);
    MergeAdmitted(articles[i], q);
  }

  /** The admission fields survive the merge. */
  lemma MergeAdmitted(a: Article, q: Dict)
    requires Admissible(q)
    ensures Admitted(Merge(a, q))
  {
    MergeReads(a, q, "is_quote_worthy");
    MergeReads(a, q, "punch_score");
  }

  /** A record that carries a truthy `is_quote_worthy` and an integer
      `punch_score` of at least `MIN_PUNCH_SCORE`. */
  predicate Admitted(record: Json) {
    && record.Obj?
    && Get(record.fields, "is_quote_worthy").Some? && Truthy(Get(record.fields, "is_quote_worthy").value)
    && Get(record.fields, "punch_score").Some?
    && AsInt(Get(record.fields, "punch_score").value).Some?
    && AsInt(Get(record.fields, "punch_score").value).value >= MIN_PUNCH_SCORE
  }

  /** What a successful run returns: records that each merge an article
      with HTML with an admissible item and read back as admitted, in
      processing order (a subsequence of `all_quotes`), each with a
      non-empty trimmed `edited_line` that no other record shares, the first
      record of each line winning; a second dedup pass changes nothing. */
  lemma HarvestedProperties(env: Env, articles: seq<Article>)
    requires Harvested(env, articles).Success?
    ensures var all := AllRecords(env, articles).value;
      var out := Harvested(env, articles).value;
      && IsSubsequence(out, all)
      && (forall k | 0 <= k < |out| ::
            && LineKey(out[k]).Some? && LineKey(out[k]).value != ""
            && (exists i | 0 <= i < |articles| :: articles[i].rawHtml != "" && FromArticle(articles[i], out[k]))
            && Admitted(out[k]))
      && (forall i, j | 0 <= i < j < |out| :: LineKey(out[i]) != LineKey(out[j]))
      && (forall i, m | 0 <= i < |all| && IsFirstNew(all, LineKey, {}, i) && 0 <= m < |out| &&
                        LineKey(out[m]) == LineKey(all[i]) :: out[m] == all[i])
      && Unique(out) == out
  {
    var all := AllRecords(env, articles).value;
    var out := Unique(all);
    DedupIsSubsequence(all, LineKey, {});
    forall k | 0 <= k < |out|
      ensures exists i | 0 <= i < |articles| :: articles[i].rawHtml != "" && FromArticle(articles[i], out[k])
      ensures Admitted(out[k])
    {
      SubsequenceMember(out, all, k);
      RecordOfRun(env, articles, out[k]);
    }
    forall i, m | 0 <= i < |all| && IsFirstNew(all, LineKey, {}, i) && 0 <= m < |out| &&
                  LineKey(out[m]) == LineKey(all[i])
      ensures out[m] == all[i]
    {
      DedupFirstWins(all, LineKey, {}, i, m);
    }
    DedupIdempotent(all, LineKey);
  }

  /** An unknown source, the URL mode without a URL, and a single page that
      cannot be fetched leave no articles, and no articles give an empty
      run. */
  lemma EmptyRuns(env: Env, source: string, url: Option<string>, since: Option<string>, limit: Option<int>)
    requires source !in SOURCES || (source == "single_url" && (NoUrl(url) || env.web.single(url.value).None?))
    ensures Fetched(env, source, url, since, limit) == []
    ensures Harvested(env, Fetched(env, source, url, since, limit)) == Success([])
  {
  }

  /** An article without HTML, and a chunk whose scorer result is `None` or
      `[]`, contribute no records and raise nothing. */
  lemma NothingToScore(env: Env, a: Article, chunk: string)
    ensures a.rawHtml == "" ==> ArticleRecords(env, a) == Success([])
    ensures Score(env, chunk).None? || Score(env, chunk) == Some(Arr([])) ==> ChunkRecords(env, a, chunk) == Success([])
  {
  }
}
