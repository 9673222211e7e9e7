/**
 * The sentiment call (src/lib/gemini.ts) seen from its caller: the model's reply
 * is an input. A reply that parses is returned as is, one that does not parse
 * becomes the neutral fallback, and an error from the model call is thrown on.
 */
module Gemini {
  import opened Wrappers
  import opened Types

  /** What the model call produced for one post text. */
  datatype Reply = Parsed(analysis: SentimentAnalysis) | Unparseable | CallFailed

  /** The error `analyzeSentiment` throws when the model call itself fails. */
  datatype SentimentError = ModelCallError

  /** The result returned when the reply is not JSON. */
  const Fallback: SentimentAnalysis := SentimentAnalysis(0.0, Neutral, 0.0)

  /** `analyzeSentiment(text)`, given what the model replied to the prompt for `text`. */
  function AnalyzeSentiment(reply: Reply): (r: Result<SentimentAnalysis, SentimentError>)
    ensures r.Err? <==> reply.CallFailed?
    ensures reply.Parsed? ==> r == Ok(reply.analysis)
    ensures reply.Unparseable? ==> r.Ok? && r.value.score == 0.0 && r.value.polarity == Neutral && r.value.confidence == 0.0
  {
    match reply
    case Parsed(a) => Ok(a)
    case Unparseable => Ok(Fallback)
    case CallFailed => Err(ModelCallError)
  }
}
