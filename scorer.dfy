/** `score_chunk` (scorer.py): how the reply of the language model is turned
    into the scorer's result. The call itself (client construction, prompt,
    network) is abstracted as a `Reply`. */
module Scorer {
  import opened Wrappers
  import opened Json

  /** What the model call produced. */
  datatype Reply =
    | CallFailed            // client, credential or transport error, or no message content
    | Undecodable           // the content is not valid JSON
    | Decoded(value: Json)  // `json.loads(content)`

  /** The reply carries a decoded JSON object, the only case `.get` succeeds on. */
  predicate IsObjectReply(reply: Reply) {
    reply.Decoded? && reply.value.Obj?
  }

  /** The `quotes` member of a decoded object, if any. */
  function QuotesField(reply: Reply): Option<Json>
    requires IsObjectReply(reply)
  {
    Get(reply.value.fields, "quotes")
  }

  /** `score_chunk(chunk_text)` given the model's reply: `None` when the
      call, the decoding or the lookup fails; the `quotes` list unchanged
      when it is a list; `[]` when it is missing or is not a list. */
  function ScoreChunk(reply: Reply): (r: Option<Json>)
    ensures r.None? <==> !IsObjectReply(reply)
    ensures r.Some? ==> r.value.Arr?
    ensures IsObjectReply(reply) && QuotesField(reply).Some? && QuotesField(reply).value.Arr? ==>
      r == QuotesField(reply)
    ensures IsObjectReply(reply) && (QuotesField(reply).None? || !QuotesField(reply).value.Arr?) ==>
      r == Some(Arr([]))
  {
    match reply
    case Decoded(Obj(fields)) =>
      var quotes := Get(fields, "quotes").GetOr(Arr([]));
      if !quotes.Arr? then Some(Arr([])) else Some(quotes)
    case _ => None
  }

  /** The result is truthy exactly when the reply carries a non-empty `quotes`
      list: a fatal failure and "nothing found or malformed" are both falsy,
      and they are told apart only by `None` against `[]`. */
  lemma ScoreTruthy(reply: Reply)
    ensures ScoreChunk(reply).Some? && Truthy(ScoreChunk(reply).value) <==>
      IsObjectReply(reply) && QuotesField(reply).Some? && QuotesField(reply).value.Arr?
      && QuotesField(reply).value.items != []
    ensures ScoreChunk(reply) != Some(Arr([])) || IsObjectReply(reply)
  {
  }
}
