/** `run_harvest` of main.py, the command-line pipeline: fetch the articles
    of the chosen source (a bad source or a failed single-page fetch
    raises), score every chunk of every article, admit the worthy quotes,
    merge the article metadata into each, and keep the first record of each
    exact `edited_line`. An exception while one chunk's items are processed
    ends only that chunk. */
module CliHarvest {
  import opened Wrappers
  import opened Text
  import opened Json
  import opened Web
  import opened Cleaner
  import opened Scorer
  import opened Dedup
  import opened Crawlers
  import opened Feeds
  import opened Quotes
  import App = AppHarvest

  /** The quote fields the admission test passes: a truthy
      `is_quote_worthy` and an integer `punch_score` of at least
      `MIN_PUNCH_SCORE`, where missing fields count as `False` and `0`. */
  predicate Qualifies(q: Dict) {
    && Truthy(GetOr(q, "is_quote_worthy", Bool(false)))
    && AsInt(GetOr(q, "punch_score", Int(0))).Some?
    && AsInt(GetOr(q, "punch_score", Int(0))).value >= MIN_PUNCH_SCORE
  }

  /** The body of the quote loop for one item of article `a`: it raises when
      the item is not a dict and when a worthy item's `punch_score` cannot be
      compared with an int (the comparison is short-circuited for an
      unworthy item), and admits exactly the qualifying items, merged with
      the article's metadata. */
  function Judge(a: Article, item: Json): (s: Step)
    ensures s.Admit? <==> item.Obj? && Qualifies(item.fields)
    ensures s.Admit? ==> s.record == Merge(a, item.fields)
    ensures !item.Obj? ==> s == Raise(AttributeError)
    ensures s.Raise? <==>
      || !item.Obj?
      || (Truthy(GetOr(item.fields, "is_quote_worthy", Bool(false)))
          && AsInt(GetOr(item.fields, "punch_score", Int(0))).None?)
  {
    if !item.Obj? then Raise(AttributeError)
    else
      var worthy := GetOr(item.fields, "is_quote_worthy", Bool(false));
      var score := GetOr(item.fields, "punch_score", Int(0));
      if !Truthy(worthy) then Skip
      else if AsInt(score).None? then Raise(TypeError)
      else if AsInt(score).value >= MIN_PUNCH_SCORE then Admit(Merge(a, item.fields))
      else Skip
  }

  /** The records the quote loop appends before it runs out of items or an
      item raises. */
  function Scan(a: Article, items: seq<Json>): seq<Json> {
    if items == [] then []
    else
      match Judge(a, items[0])
      case Raise(_) => []
      case Skip => Scan(a, items[1..])
      case Admit(r) => [r] + Scan(a, items[1..])
  }

  /** The records of one chunk: none for a `None` result or a result that is
      not a list, else what the quote loop appends. */
  function ChunkRecords(env: Env, a: Article, chunk: string): seq<Json> {
    match Score(env, chunk)
    case None => []
    case Some(result) => if result.Arr? then Scan(a, result.items) else []
  }

  function ChunkStep(env: Env, a: Article): string -> seq<Json> {
    chunk => ChunkRecords(env, a, chunk)
  }

  /** The records of one article, chunk by chunk. */
  function ArticleRecords(env: Env, a: Article): seq<Json> {
    Concat(ChunksOf(env, a.rawHtml), ChunkStep(env, a))
  }

  function ArticleStep(env: Env): Article -> seq<Json> {
    a => ArticleRecords(env, a)
  }

  /** `all_quotes` once every article is processed. */
  function AllRecords(env: Env, articles: seq<Article>): seq<Json> {
    Concat(articles, ArticleStep(env))
  }

  /** `quote.get('edited_line', '')` */
  function Line(record: Json): Json {
    if record.Obj? then GetOr(record.fields, "edited_line", Str("")) else Str("")
  }

  /** The member of `seen_lines` a record is compared as: its line, as a
      set holds it; `None` for a falsy line, which is skipped. */
  function LineKey(record: Json): Option<Json> {
    var line := Line(record);
    if !Truthy(line) then None else HashKey(line)
  }

  /** A truthy line that a set cannot hold: looking it up raises `TypeError`. */
  predicate Unhashable(record: Json) {
    Truthy(Line(record)) && HashKey(Line(record)).None?
  }

  /** `unique_quotes`, or the `TypeError` of an unhashable line. */
  function Unique(records: seq<Json>): Result<seq<Json>, Exc> {
    if exists i | 0 <= i < |records| :: Unhashable(records[i]) then Failure(TypeError)
    else Success(DedupFrom(records, LineKey, {}))
  }

  /** What processing `articles` returns, or the exception it raises. */
  function Harvested(env: Env, articles: seq<Article>): Result<seq<Json>, Exc> {
    Unique(AllRecords(env, articles))
  }

  /** The sources the command line knows. */
  const SOURCES: set<string> := {"url", "ghost", "deacon", "ray"}

  /** The articles the fetch step produces for the arguments, or what it
      raises: the URL mode needs a URL and a page that can be fetched, the
      Ghost source is the paginated crawl of `BASE_URL`, the two feeds are
      read as their crawlers read them, and any other source is refused. */
  function Fetched(env: Env, source: string, url: Option<string>, since: Option<string>,
                   limit: Option<int>): Result<seq<Article>, Exc>
  {
    if source == "url" then
      if App.NoUrl(url) then Failure(ValueError)
      else if env.web.single(url.value).None? then Failure(RequestError)
      else Success([env.web.single(url.value).value])
    else if source == "ghost" then
      Success(PaginatedPosts(env.web, SinceEntry(env.web, env.cal, since), BASE_URL, limit).articles)
    else if source == "deacon" then
      Success(RssArticles(env.web, env.cal, DEACON_RSS_URL, since, limit))
    else if source == "ray" then
      Success(RayArticles(env.web, env.cal, since, limit))
    else
      Failure(ValueError)
  }


  /** The outcome of a run once the fetch step is done. */
  function Outcome(env: Env, fetched: Result<seq<Article>, Exc>): Result<seq<Json>, Exc> {
    match fetched
    case Failure(e) => Failure(e)
    case Success(articles) => Harvested(env, articles)
  }

  // ---- the loops of run_harvest ----

  /** The `for quote in result_list` loop, left at the first exception. */
  method ProcessQuotes(a: Article, items: seq<Json>) returns (records: seq<Json>)
    ensures records == Scan(a, items)
  {
    records := [];
    var i := 0;
    assert items[i..] == items;
    while i < |items|
      invariant 0 <= i <= |items|
      invariant records + Scan(a, items[i..]) == Scan(a, items)
    {
      assert items[i..][0] == items[i] && items[i..][1..] == items[i + 1..];
      var quote := items[i];
      if !quote.Obj? {
        break;
      }
      var worthy := GetOr(quote.fields, "is_quote_worthy", Bool(false));
      var score := GetOr(quote.fields, "punch_score", Int(0));
      if Truthy(worthy) {
        var n := AsInt(score);
        if n.None? {
          break;
        }
        if n.value >= MIN_PUNCH_SCORE {
          var record := Merge(a, quote.fields);
          assert records + [record] + Scan(a, items[i + 1..]) == records + ([record] + Scan(a, items[i + 1..]));
          records := records + [record];
        }
      }
      i := i + 1;
    }
    assert records + [] == records;
  }

  /** One iteration of the chunk loop, inside its `try`. */
  method ProcessChunk(env: Env, a: Article, chunk: string) returns (records: seq<Json>)
    ensures records == ChunkRecords(env, a, chunk)
  {
    var resultList := ScoreChunk(env.oracle(chunk));
    if resultList.None? {
      return [];
    }
    var result := resultList.value;
    if result.Arr? {
      records := ProcessQuotes(a, result.items);
    } else {
      records := [];
    }
  }

  /** The chunk loop of one article. */
  method ConcatChunks(env: Env, a: Article, chunks: seq<string>) returns (records: seq<Json>)
    ensures records == Concat(chunks, ChunkStep(env, a))
  {
    records := [];
    var i := 0;
    ConcatStart(chunks, ChunkStep(env, a));
    while i < |chunks|
      invariant ConcatState(chunks, ChunkStep(env, a), records, i)
    {
      var found := ProcessChunk(env, a, chunks[i]);
      ConcatAdvance(chunks, ChunkStep(env, a), records, i);
      records := records + found;
      i := i + 1;
    }
    ConcatDone(chunks, ChunkStep(env, a), records, i);
  }

  /** One iteration of the article loop. */
  method ProcessArticle(env: Env, a: Article) returns (records: seq<Json>)
    ensures records == ArticleRecords(env, a)
  {
    var chunks := CleanAndChunk(a.rawHtml, env.extractText, MIN_LENGTH, MAX_CHUNK_LEN);
    assert chunks == ChunksOf(env, a.rawHtml);
    records := ConcatChunks(env, a, chunks);
  }

  /** The article loop, building `all_quotes`. */
  method ProcessArticles(env: Env, articles: seq<Article>) returns (allQuotes: seq<Json>)
    ensures allQuotes == AllRecords(env, articles)
  {
    allQuotes := [];
    var i := 0;
    ConcatStart(articles, ArticleStep(env));
    while i < |articles|
      invariant ConcatState(articles, ArticleStep(env), allQuotes, i)
    {
      var found := ProcessArticle(env, articles[i]);
      ConcatAdvance(articles, ArticleStep(env), allQuotes, i);
      allQuotes := allQuotes + found;
      i := i + 1;
    }
    ConcatDone(articles, ArticleStep(env), allQuotes, i);
  }

  /** The dedup loop with its `seen_lines` set. */
  method DedupLines(records: seq<Json>) returns (r: Result<seq<Json>, Exc>)
    ensures r == Unique(records)
  {
    var unique: seq<Json> := [];
    var seenLines: set<Json> := {};
    var i := 0;
    assert records[i..] == records;
    while i < |records|
      invariant KeepState(records, LineKey, unique, seenLines, i)
      invariant forall j | 0 <= j < i :: !Unhashable(records[j])
    {
      var line := Line(records[i]);
      if Truthy(line) {
        var member := HashKey(line);
        if member.None? {
          assert Unhashable(records[i]);
          return Failure(TypeError);
        }
        if member.value !in seenLines {
          KeepTake(records, LineKey, unique, seenLines, i);
          seenLines := seenLines + {member.value};
          unique := unique + [records[i]];
        } else {
          KeepSkip(records, LineKey, unique, seenLines, i);
        }
      } else {
        KeepSkip(records, LineKey, unique, seenLines, i);
      }
      i := i + 1;
    }
    KeepEnd(records, LineKey, unique, seenLines, i);
    return Success(unique);
  }

  /** The fetch step: dispatch on `source`. */
  method FetchSource(env: Env, source: string, url: Option<string>, since: Option<string>, limit: Option<int>)
    returns (fetched: Result<seq<Article>, Exc>)
    ensures fetched == Fetched(env, source, url, since, limit)
  {
    if source == "url" {
      if App.NoUrl(url) {
        return Failure(ValueError);
      }
      var page := env.web.single(url.value);
      if page.None? {
        return Failure(RequestError);
      }
      fetched := Success([page.value]);
    } else if source == "ghost" {
      var articles := FetchPaginatedPosts(env.web, env.cal, BASE_URL, since, limit);
      fetched := Success(articles);
    } else if source == "deacon" {
      var articles := FetchDeaconArticles(env.web, env.cal, since, limit);
      fetched := Success(articles);
    } else if source == "ray" {
      var articles := FetchRayArticles(env.web, env.cal, since, limit);
      fetched := Success(articles);
    } else {
      fetched := Failure(ValueError);
    }
  }

  /** `run_harvest(source, limit, since, url)`: the unique quote records of
      the fetched articles, or the exception that escaped. An unknown
      source and the URL mode without a URL raise `ValueError`. */
  method RunHarvest(env: Env, source: string, url: Option<string>, since: Option<string>, limit: Option<int>)
    returns (r: Result<seq<Json>, Exc>)
    ensures r == Outcome(env, Fetched(env, source, url, since, limit))
    ensures source !in SOURCES || (source == "url" && App.NoUrl(url)) ==> r == Failure(ValueError)
  {
    var got := FetchSource(env, source, url, since, limit);
    if got.Failure? {
      return Failure(got.error);
    }
    var all := ProcessArticles(env, got.value);
    r := DedupLines(all);
  }

  // ---- properties ----

  /** An item that raises ends its chunk: the records of the chunk are those
      of the items before it, whatever follows. */
  lemma {:induction false} RaiseEndsChunk(a: Article, items: seq<Json>, i: nat)
    requires i < |items| && Judge(a, items[i]).Raise?
    ensures Scan(a, items) == Scan(a, items[..i])
  {
    if i > 0 && !Judge(a, items[0]).Raise? {
      assert items[1..][i - 1] == items[i];
      RaiseEndsChunk(a, items[1..], i - 1);
      assert items[..i][1..] == items[1..][..i - 1];
    }
  }

  /** Each chunk contributes its own records whatever the others do: an
      exception in chunk `i` costs only records of chunk `i`. */
  lemma ChunkIsolation(env: Env, a: Article, i: nat)
    requires i < |ChunksOf(env, a.rawHtml)|
    ensures var chunks := ChunksOf(env, a.rawHtml);
      ArticleRecords(env, a) ==
        Concat(chunks[..i], ChunkStep(env, a)) + ChunkRecords(env, a, chunks[i]) + Concat(chunks[i + 1..], ChunkStep(env, a))
  {
    ConcatSplit(ChunksOf(env, a.rawHtml), i, ChunkStep(env, a));
  }

  /** A `None` result and a result that is not a list contribute nothing. */
  lemma NothingFromChunk(env: Env, a: Article, chunk: string)
    requires Score(env, chunk).None? || !Score(env, chunk).value.Arr?
    ensures ChunkRecords(env, a, chunk) == []
  {
  }

  /** A record of a chunk merges its article with a qualifying item. */
  lemma RecordOfChunk(env: Env, a: Article, chunk: string, record: Json)
    requires record in ChunkRecords(env, a, chunk)
    ensures exists q :: Qualifies(q) && record == Merge(a, q)
  {
    var items := Score(env, chunk).value.items;
    ScanFrom(a, items, record);
  }

  lemma {:induction false} ScanFrom(a: Article, items: seq<Json>, record: Json)
    requires record in Scan(a, items)
    ensures exists q :: Qualifies(q) && record == Merge(a, q)
  {
    var s := Judge(a, items[0]);
    if s.Admit? && record == s.record {
      assert Qualifies(items[0].fields) && record == Merge(a, items[0].fields);
    } else {
      ScanFrom(a, items[1..], record);
    }
  }

  /** Every record of the run merges one of the articles with a qualifying
      item, and reads back as worthy with a score of at least
      `MIN_PUNCH_SCORE`. */
  lemma RecordOfRun(env: Env, articles: seq<Article>, record: Json)
    requires record in AllRecords(env, articles)
    ensures exists i, q | 0 <= i < |articles| :: Qualifies(q) && record == Merge(articles[i], q)
    ensures App.Admitted(record)
  {
    ConcatFrom(articles, ArticleStep(env), record);
    var i :| 0 <= i < |articles| && record in ArticleStep(env)(articles[i]);
    var a := articles[i];
    ConcatFrom(ChunksOf(env, a.rawHtml), ChunkStep(env, a), record);
    var c :| 0 <= c < |ChunksOf(env, a.rawHtml)| && record in ChunkStep(env, a)(ChunksOf(env, a.rawHtml)[c]);
    RecordOfChunk(env, a, ChunksOf(env, a.rawHtml)[c], record);
    var q :| Qualifies(q) && record == Merge(a, q);
    MergeAdmitted(a, q);
  }

  /** The admission fields survive the merge. */
  lemma MergeAdmitted(a: Article, q: Dict)
    requires Qualifies(q)
    ensures App.Admitted(Merge(a, q))
  {
    MergeReads(a, q, "is_quote_worthy");
    MergeReads(a, q, "punch_score");
  }

  /** The dedup pass raises exactly when some record has a truthy line that
      is a list or a dict. Otherwise it keeps, in order, the first record of
      each exact line, drops the records with a falsy line, and a second
      pass changes nothing. */
  lemma UniqueProperties(records: seq<Json>)
    ensures Unique(records).Failure? <==> exists i | 0 <= i < |records| :: Unhashable(records[i])
    ensures Unique(records).Success? ==>
      var out := Unique(records).value;
      && IsSubsequence(out, records)
      && (forall k | 0 <= k < |out| :: Truthy(Line(out[k])) && LineKey(out[k]) == HashKey(Line(out[k])))
      && (forall i, j | 0 <= i < j < |out| :: HashKey(Line(out[i])) != HashKey(Line(out[j])))
      && (forall i, m | 0 <= i < |records| && IsFirstNew(records, LineKey, {}, i) && 0 <= m < |out| &&
                        LineKey(out[m]) == LineKey(records[i]) :: out[m] == records[i])
      && Unique(out) == Success(out)
  {
    if Unique(records).Success? {
      var out := DedupFrom(records, LineKey, {});
      DedupIsSubsequence(records, LineKey, {});
      forall i, m | 0 <= i < |records| && IsFirstNew(records, LineKey, {}, i) && 0 <= m < |out| &&
                    LineKey(out[m]) == LineKey(records[i])
        ensures out[m] == records[i]
      {
        DedupFirstWins(records, LineKey, {}, i, m);
      }
      DedupIdempotent(records, LineKey);
      assert forall k | 0 <= k < |out| :: !Unhashable(out[k]);
    }
  }

  /** The quote loops agree with app.py's wherever app.py does not raise. */
  lemma {:induction false} ScanAgrees(a: Article, items: seq<Json>)
    requires Gather(items, App.ItemStep(a)).Success?
    ensures Gather(items, App.ItemStep(a)).value == Scan(a, items)
  {
    if items != [] {
      var item := items[0];
      assert App.ItemStep(a)(item).Success?;
      assert App.Judge(a, item) == Judge(a, item);
      assert forall i | 0 <= i < |items[1..]| :: items[1..][i] == items[i + 1];
      ScanAgrees(a, items[1..]);
    }
  }

  lemma ChunkAgrees(env: Env, a: Article, chunk: string)
    requires App.ChunkRecords(env, a, chunk).Success?
    ensures App.ChunkRecords(env, a, chunk).value == ChunkRecords(env, a, chunk)
  {
    var result := Score(env, chunk);
    if result.Some? && Truthy(result.value) {
      ScanAgrees(a, result.value.items);
    }
  }

  lemma ArticleAgrees(env: Env, a: Article)
    requires App.ArticleRecords(env, a).Success?
    ensures App.ArticleRecords(env, a).value == ArticleRecords(env, a)
  {
    if a.rawHtml != "" {
      var chunks := ChunksOf(env, a.rawHtml);
      forall i | 0 <= i < |chunks| && App.ChunkStep(env, a)(chunks[i]).Success?
        ensures App.ChunkStep(env, a)(chunks[i]).value == ChunkStep(env, a)(chunks[i])
      {
        ChunkAgrees(env, a, chunks[i]);
      }
      GatherAsConcat(chunks, App.ChunkStep(env, a), ChunkStep(env, a));
    }
  }

  /** When app.py's processing does not raise, both pipelines collect the
      same records in the same order; they differ only in what raises and
      in how the records are de-duplicated. */
  lemma RecordsAgree(env: Env, articles: seq<Article>)
    requires App.AllRecords(env, articles).Success?
    ensures App.AllRecords(env, articles).value == AllRecords(env, articles)
  {
    forall i | 0 <= i < |articles| && App.ArticleStep(env)(articles[i]).Success?
      ensures App.ArticleStep(env)(articles[i]).value == ArticleStep(env)(articles[i])
    {
      ArticleAgrees(env, articles[i]);
    }
    GatherAsConcat(articles, App.ArticleStep(env), ArticleStep(env));
  }

  /** app.py trims a line before comparing it and main.py does not: two
      records whose lines differ only in a leading blank are one quote to
      app.py and two to main.py. */
  lemma TrimmedAgainstExact(a: Article)
    ensures var r1 := Merge(a, [("edited_line", Str("a"))]);
      var r2 := Merge(a, [("edited_line", Str(" a"))]);
      App.Unique([r1, r2]) == [r1] && Unique([r1, r2]) == Success([r1, r2])
  {
    var r1 := Merge(a, [("edited_line", Str("a"))]);
    var r2 := Merge(a, [("edited_line", Str(" a"))]);
    LineOfMerge(a, "a");
    LineOfMerge(a, " a");
    StripBlankA();
    assert App.LineKey(r1) == Some("a") && App.LineKey(r2) == Some("a");
    assert LineKey(r1) == Some(Str("a")) && LineKey(r2) == Some(Str(" a"));
    SameKeyKeepsFirst(r1, r2);
    DistinctKeysKeepBoth(r1, r2);
  }

  lemma SameKeyKeepsFirst(r1: Json, r2: Json)
    requires App.LineKey(r1).Some? && App.LineKey(r2) == App.LineKey(r1)
    ensures App.Unique([r1, r2]) == [r1]
  {
    DedupPairSame(r1, r2, App.LineKey);
  }

  lemma DistinctKeysKeepBoth(r1: Json, r2: Json)
    requires LineKey(r1).Some? && LineKey(r2).Some? && LineKey(r1) != LineKey(r2)
    ensures Unique([r1, r2]) == Success([r1, r2])
  {
    DedupPairDistinct(r1, r2, LineKey);
    assert !Unhashable(r1) && !Unhashable(r2);
    assert forall i | 0 <= i < |[r1, r2]| :: !Unhashable([r1, r2][i]);
  }

  lemma LineOfMerge(a: Article, line: string)
    ensures Get(Merge(a, [("edited_line", Str(line))]).fields, "edited_line") == Some(Str(line))
  {
    var q: Dict := [("edited_line", Str(line))];
    MergeReads(a, q, "edited_line");
    assert Get(q, "edited_line") == Some(Str(line));
  }

  lemma StripBlankA()
    ensures Strip(" a") == "a" && Strip("a") == "a"
  {
    assert IsSpace(' ') && !IsSpace('a');
    assert " a"[1..] == "a";
    assert TrimStart(" a") == "a";
    StripStripped("a");
  }
}
