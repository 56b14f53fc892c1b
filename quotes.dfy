/** What the two `run_harvest` functions (app.py and main.py) share: the
    environment a run reads, how a quote record is assembled from an article
    and a scorer item, and the shapes of their nested loops. */
module Quotes {
  import opened Wrappers
  import opened Json
  import opened Web
  import opened Cleaner
  import opened Scorer

  /** `MIN_PUNCH_SCORE` of config.py. */
  const MIN_PUNCH_SCORE: int := 3

  /** The exceptions that can escape a run. */
  datatype Exc =
    | ValueError      // a bad `source`, or the URL mode without a URL
    | AttributeError  // `.get` on a scorer item that is not a dict
    | TypeError       // a slice, comparison or set lookup on a value of the wrong type; slicing a
                      // dict `edited_line` raises `KeyError` on Python 3.12 and later, which no
                      // caller tells apart, so it is folded in here
    | RequestError    // `fetch_single_url` could not fetch its page

  /** What the quote loop does with one scorer item: append a record, go
      on to the next item, or raise. */
  datatype Step = Admit(record: Json) | Skip | Raise(error: Exc)

  /** Everything a run reads besides its arguments: the web and the calendar
      the crawlers see, the text `clean_and_chunk` extracts from HTML, and
      the model's reply to each chunk. */
  datatype Env = Env(web: Web, cal: Calendar, extractText: string -> string, oracle: string -> Reply)

  /** `clean_and_chunk(raw_html)` with its default bounds. */
  function ChunksOf(env: Env, html: string): seq<string> {
    if html == "" then [] else Chunks(env.extractText(html), MIN_LENGTH, MAX_CHUNK_LEN)
  }

  /** `score_chunk(chunk)` */
  function Score(env: Env, chunk: string): Option<Json> {
    ScoreChunk(env.oracle(chunk))
  }

  /** The keys the article metadata puts at the head of every record. */
  const META_KEYS: seq<string> := ["source_title", "source_url", "published_at"]

  /** The article metadata a record starts from. */
  function Meta(a: Article): Dict {
    [("source_title", Str(a.title)), ("source_url", Str(a.url)), ("published_at", Str(a.publishedAt))]
  }

  /** `{"source_title": title, "source_url": url, "published_at": date, **quote}` */
  function Merge(a: Article, quote: Dict): Json {
    Obj(Update(Meta(a), quote))
  }

  /** A merged record starts with the three metadata keys, holds no key
      twice, and reads each key from the quote when the quote has it and
      from the article otherwise. */
  lemma MergeReads(a: Article, quote: Dict, k: string)
    ensures Merge(a, quote).Obj? && DistinctKeys(Merge(a, quote).fields)
    ensures |Merge(a, quote).fields| >= 3 && Keys(Merge(a, quote).fields)[..3] == META_KEYS
    ensures Get(Merge(a, quote).fields, k) ==
      if Get(quote, k).Some? then Get(quote, k)
      else if k == "source_title" then Some(Str(a.title))
      else if k == "source_url" then Some(Str(a.url))
      else if k == "published_at" then Some(Str(a.publishedAt))
      else None
  {
    var meta := Meta(a);
    assert DistinctKeys(meta);
    GetUpdate(meta, quote, k);
    UpdateKeysPrefix(meta, quote);
    assert Keys(meta) == META_KEYS;
    assert meta[1..][1..][1..] == [];
    assert Get(meta[1..][1..], k) == if k == "published_at" then Some(Str(a.publishedAt)) else None;
    assert Get(meta[1..], k) ==
      if k == "published_at" then Some(Str(a.publishedAt))
      else if k == "source_url" then Some(Str(a.url))
      else None;
  }

  /** `result if isinstance(result, list) else [result]` */
  function Results(result: Json): seq<Json> {
    if result.Arr? then result.items else [result]
  }

  // ---- loops whose body may raise out of the run ----

  /** `Success(prefix + ys)` after `Success(ys)`; a failure stays. */
  function Prepend(prefix: seq<Json>, r: Result<seq<Json>, Exc>): Result<seq<Json>, Exc> {
    match r
    case Success(ys) => Success(prefix + ys)
    case Failure(e) => Failure(e)
  }

  /** A loop that appends what each input yields and lets an exception out
      of the whole run: the records of all inputs in order, or the first
      exception raised. */
  function Gather<T>(xs: seq<T>, f: T -> Result<seq<Json>, Exc>): (r: Result<seq<Json>, Exc>)
    ensures r.Failure? <==> exists i | 0 <= i < |xs| :: f(xs[i]).Failure?
    ensures r.Failure? ==> exists i | 0 <= i < |xs| ::
      f(xs[i]) == Failure(r.error) && forall j | 0 <= j < i :: f(xs[j]).Success?
  {
    if xs == [] then Success([])
    else
      match f(xs[0])
      case Failure(e) => Failure(e)
      case Success(ys) =>
        var rest := Gather(xs[1..], f);
        assert forall i | 0 <= i < |xs[1..]| :: xs[1..][i] == xs[i + 1];
        Prepend(ys, rest)
  }

  /** One step of `Gather` at index `i`, for the loops that compute it. */
  lemma GatherStep<T>(xs: seq<T>, i: nat, f: T -> Result<seq<Json>, Exc>)
    requires i < |xs|
    ensures Gather(xs[i..], f) ==
      match f(xs[i])
      case Failure(e) => Failure(e)
      case Success(ys) => Prepend(ys, Gather(xs[i + 1..], f))
  {
    assert xs[i..][0] == xs[i] && xs[i..][1..] == xs[i + 1..];
  }

  lemma PrependNil(r: Result<seq<Json>, Exc>)
    ensures Prepend([], r) == r
  {
    if r.Success? {
      assert [] + r.value == r.value;
    }
  }

  lemma PrependPrepend(a: seq<Json>, b: seq<Json>, r: Result<seq<Json>, Exc>)
    ensures Prepend(a, Prepend(b, r)) == Prepend(a + b, r)
  {
    if r.Success? {
      assert a + (b + r.value) == (a + b) + r.value;
    }
  }

  /** Every record `Gather` collects was yielded by one of the inputs. */
  lemma {:induction false} GatherFrom<T>(xs: seq<T>, f: T -> Result<seq<Json>, Exc>, x: Json)
    requires Gather(xs, f).Success? && x in Gather(xs, f).value
    ensures exists i | 0 <= i < |xs| :: f(xs[i]).Success? && x in f(xs[i]).value
  {
    var ys := f(xs[0]).value;
    if x !in ys {
      GatherFrom(xs[1..], f, x);
      var i :| 0 <= i < |xs[1..]| && f(xs[1..][i]).Success? && x in f(xs[1..][i]).value;
      assert xs[1..][i] == xs[i + 1];
    }
  }

  /** When no input raises, `Gather` is the plain concatenation of what
      they yield. */
  lemma {:induction false} GatherAsConcat<T>(xs: seq<T>, f: T -> Result<seq<Json>, Exc>, g: T -> seq<Json>)
    requires forall i | 0 <= i < |xs| :: f(xs[i]).Success? ==> f(xs[i]).value == g(xs[i])
    requires Gather(xs, f).Success?
    ensures Gather(xs, f) == Success(Concat(xs, g))
  {
    if xs != [] {
      assert forall i | 0 <= i < |xs[1..]| :: xs[1..][i] == xs[i + 1];
      GatherAsConcat(xs[1..], f, g);
    }
  }

  // ---- loops whose body cannot raise ----

  /** A loop that appends what each input yields: `[y for x in xs for y in f(x)]`. */
  function Concat<T>(xs: seq<T>, f: T -> seq<Json>): seq<Json> {
    if xs == [] then [] else f(xs[0]) + Concat(xs[1..], f)
  }

  /** One step of `Concat` at index `i`. */
  lemma ConcatStep<T>(xs: seq<T>, i: nat, f: T -> seq<Json>)
    requires i < |xs|
    ensures Concat(xs[i..], f) == f(xs[i]) + Concat(xs[i + 1..], f)
  {
    assert xs[i..][0] == xs[i] && xs[i..][1..] == xs[i + 1..];
  }

  /** The state of a loop computing `Concat(xs, f)` after `i` inputs: the
      records so far, followed by those of the remaining inputs, are all of
      them. */
  ghost predicate ConcatState<T>(xs: seq<T>, f: T -> seq<Json>, acc: seq<Json>, i: int) {
    0 <= i <= |xs| && acc + Concat(xs[i..], f) == Concat(xs, f)
  }

  lemma ConcatStart<T>(xs: seq<T>, f: T -> seq<Json>)
    ensures ConcatState(xs, f, [], 0)
  {
    assert xs[0..] == xs;
  }

  lemma ConcatAdvance<T>(xs: seq<T>, f: T -> seq<Json>, acc: seq<Json>, i: int)
    requires i < |xs| && ConcatState(xs, f, acc, i)
    ensures ConcatState(xs, f, acc + f(xs[i]), i + 1)
  {
    ConcatStep(xs, i, f);
    var rest := Concat(xs[i + 1..], f);
    assert acc + (f(xs[i]) + rest) == acc + f(xs[i]) + rest;
  }

  lemma ConcatDone<T>(xs: seq<T>, f: T -> seq<Json>, acc: seq<Json>, i: int)
    requires ConcatState(xs, f, acc, i) && i >= |xs|
    ensures acc == Concat(xs, f)
  {
    assert xs[i..] == [];
    assert acc + [] == acc;
  }

  /** The records of a concatenation of inputs are the records of each part. */
  lemma {:induction false} ConcatAppend<T>(xs: seq<T>, ys: seq<T>, f: T -> seq<Json>)
    ensures Concat(xs + ys, f) == Concat(xs, f) + Concat(ys, f)
  {
    if xs == [] {
      assert xs + ys == ys;
    } else {
      assert (xs + ys)[0] == xs[0] && (xs + ys)[1..] == xs[1..] + ys;
      ConcatAppend(xs[1..], ys, f);
    }
  }

  /** The records of the input at `i` sit between those of the inputs
      before and after it. */
  lemma ConcatSplit<T>(xs: seq<T>, i: nat, f: T -> seq<Json>)
    requires i < |xs|
    ensures Concat(xs, f) == Concat(xs[..i], f) + f(xs[i]) + Concat(xs[i + 1..], f)
  {
    var front, back := xs[..i], xs[i..];
    assert xs == front + back;
    ConcatAppend(front, back, f);
    ConcatStep(xs, i, f);
    var a, b, c := Concat(front, f), f(xs[i]), Concat(xs[i + 1..], f);
    assert a + (b + c) == a + b + c;
  }

  /** Every record `Concat` collects was yielded by one of the inputs. */
  lemma {:induction false} ConcatFrom<T>(xs: seq<T>, f: T -> seq<Json>, x: Json)
    requires x in Concat(xs, f)
    ensures exists i | 0 <= i < |xs| :: x in f(xs[i])
  {
    if x !in f(xs[0]) {
      ConcatFrom(xs[1..], f, x);
      var i :| 0 <= i < |xs[1..]| && x in f(xs[1..][i]);
      assert xs[1..][i] == xs[i + 1];
    }
  }
}
