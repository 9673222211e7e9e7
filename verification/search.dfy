/**
 * The dashboard's search handler (`handleSearch` in src/pages/Index.tsx): the
 * initialisation guard, the fetch, the "no posts" short-circuit, the
 * order-preserving sentiment map and the assembly of the stored report.
 * Toasts and the loading flag are left out; what remains is which outcome is
 * reached, what is stored, and which external calls are made.
 */
module Search {
  import opened Wrappers
  import opened Types
  import Reddit
  import Gemini
  import Aggregate

  /** How a search ends, in terms of the toast it shows. */
  datatype Outcome = NotInitialized | NoPosts | AnalysisFailed | Complete

  /**
   * One run of the handler: its outcome, the stored result afterwards, whether
   * the posts were fetched, and the post texts sent for sentiment, in order.
   */
  datatype SearchRun = SearchRun(outcome: Outcome, stored: Option<StockSentiment>, fetched: bool, analysed: seq<string>)

  /** The model's reply to the prompt built from a post text. */
  type Model = string -> Gemini.Reply

  /** The value `post.subreddit` reads for a fetched post. */
  type GroupKey = Post -> string

  function Texts(posts: seq<Post>): seq<string> {
    seq(|posts|, k requires 0 <= k < |posts| => posts[k].text)
  }

  /** `Promise.all(posts.map(...))`: every post analysed, order kept; any thrown error rejects the lot. */
  function AnalyzeAll(posts: seq<Post>, model: Model, groupKey: GroupKey): (r: Option<seq<AnalyzedPost>>)
    ensures r.None? <==> exists k :: 0 <= k < |posts| && model(posts[k].text).CallFailed?
    ensures r.Some? ==> |r.value| == |posts|
    ensures r.Some? ==> forall k :: 0 <= k < |posts| ==>
      && r.value[k].post == posts[k]
      && r.value[k].subreddit == groupKey(posts[k])
      && Gemini.AnalyzeSentiment(model(posts[k].text)) == Ok(r.value[k].sentiment)
  {
    if |posts| == 0 then Some([])
    else
      match Gemini.AnalyzeSentiment(model(posts[0].text))
      case Err(_) => None
      case Ok(s) =>
        var rest := AnalyzeAll(posts[1..], model, groupKey);
        if rest.None? then
          var k :| 0 <= k < |posts[1..]| && model(posts[1..][k].text).CallFailed?;
          assert model(posts[k + 1].text).CallFailed?;
          None
        else
          Some([AnalyzedPost(posts[0], groupKey(posts[0]), s)] + rest.value)
  }

  /**
   * The `StockSentiment` stored at step 5, with the breakdown in its corrected
   * form (one own entry per key). Its label counts add up to the number of posts.
   */
  function Report(symbol: string, posts: seq<Post>, analyzed: seq<AnalyzedPost>): (rep: StockSentiment)
    requires |analyzed| == |posts| > 0
    ensures rep.tweetCount == |rep.latestTweets|
    ensures rep.distribution.positive + rep.distribution.negative + rep.distribution.neutral == rep.tweetCount
    ensures Aggregate.ScoresInRange(rep.latestTweets) ==> 0.0 <= rep.overallScore <= 1.0
  {
    StockSentiment(
      symbol,
      Aggregate.OverallScore(analyzed),
      |posts|,
      Aggregate.DistributionOf(analyzed),
      analyzed,
      Aggregate.Breakdown(analyzed))
  }

  /** `handleSearch(symbol)` from the stored result `stored`. */
  function HandleSearch(initialized: bool, stored: Option<StockSentiment>, symbol: string,
                        fetch: Reddit.Fetcher, model: Model, groupKey: GroupKey): (r: SearchRun)
    ensures !initialized ==> r == SearchRun(NotInitialized, stored, false, [])
    ensures initialized ==> r.fetched && r.outcome != NotInitialized
    ensures initialized && Reddit.FetchRedditPosts(symbol, fetch) == [] ==>
      r == SearchRun(NoPosts, stored, true, [])
    ensures initialized && Reddit.FetchRedditPosts(symbol, fetch) != [] ==>
      && r.analysed == Texts(Reddit.FetchRedditPosts(symbol, fetch))
      && (r.outcome == AnalysisFailed <==>
            exists k :: 0 <= k < |Reddit.FetchRedditPosts(symbol, fetch)|
              && model(Reddit.FetchRedditPosts(symbol, fetch)[k].text).CallFailed?)
      && (r.outcome == AnalysisFailed || r.outcome == Complete)
    ensures r.outcome != Complete ==> r.stored == stored
    ensures r.outcome == Complete ==> r.stored.Some? && r.stored.value.symbol == symbol
  {
    if !initialized then SearchRun(NotInitialized, stored, false, [])
    else
      var posts := Reddit.FetchRedditPosts(symbol, fetch);
      if |posts| == 0 then SearchRun(NoPosts, stored, true, [])
      else
        match AnalyzeAll(posts, model, groupKey)
        case None => SearchRun(AnalysisFailed, stored, true, Texts(posts))
        case Some(analyzed) => SearchRun(Complete, Some(Report(symbol, posts, analyzed)), true, Texts(posts))
  }

  /**
   * A completed search stores a report whose post list is the fetched list in
   * order with a sentiment attached to each, whose counts add up, and whose
   * breakdown describes the analysed posts.
   */
  lemma CompletedReport(initialized: bool, stored: Option<StockSentiment>, symbol: string,
                        fetch: Reddit.Fetcher, model: Model, groupKey: GroupKey)
    requires HandleSearch(initialized, stored, symbol, fetch, model, groupKey).outcome == Complete
    ensures var posts := Reddit.FetchRedditPosts(symbol, fetch);
      var rep := HandleSearch(initialized, stored, symbol, fetch, model, groupKey).stored.value;
      && 0 < |posts| <= Reddit.MaxPosts
      && rep.tweetCount == |posts| == |rep.latestTweets|
      && (forall k :: 0 <= k < |posts| ==> rep.latestTweets[k].post == posts[k])
      && (forall k :: 0 <= k < |posts| ==>
            Gemini.AnalyzeSentiment(model(posts[k].text)) == Ok(rep.latestTweets[k].sentiment))
      && rep.distribution.positive + rep.distribution.negative + rep.distribution.neutral == rep.tweetCount
      && rep.distribution.positive == Aggregate.CountLabel(rep.latestTweets, Positive)
      && rep.distribution.negative == Aggregate.CountLabel(rep.latestTweets, Negative)
      && rep.distribution.neutral == Aggregate.CountLabel(rep.latestTweets, Neutral)
      && rep.overallScore == (Aggregate.SumScores(rep.latestTweets) / (rep.tweetCount as real) + 1.0) / 2.0
      && (Aggregate.ScoresInRange(rep.latestTweets) ==> 0.0 <= rep.overallScore <= 1.0)
      && Aggregate.Describes(rep.subredditBreakdown, rep.latestTweets)
      && Aggregate.SumPosts(rep.subredditBreakdown) == rep.tweetCount
      && ((forall k :: 0 <= k < |posts| ==> groupKey(posts[k]) !in Aggregate.InheritedKeys) ==>
            rep.subredditBreakdown == Aggregate.BreakdownAsWritten(rep.latestTweets))
  {
    var posts := Reddit.FetchRedditPosts(symbol, fetch);
    var analyzed := AnalyzeAll(posts, model, groupKey).value;
    Aggregate.DistributionCounts(analyzed);
    Aggregate.BreakdownCorrect(analyzed);
    Aggregate.BreakdownTotal(analyzed);
    if forall k :: 0 <= k < |posts| ==> groupKey(posts[k]) !in Aggregate.InheritedKeys {
      assert forall k :: 0 <= k < |analyzed| ==> analyzed[k].subreddit == groupKey(posts[k]);
      Aggregate.AsWrittenAgreesOffInheritedKeys(analyzed);
    }
  }

  /** A model reply that is not JSON counts as a neutral post rather than failing the search. */
  lemma UnparseableRepliesCountNeutral(initialized: bool, stored: Option<StockSentiment>, symbol: string,
                                       fetch: Reddit.Fetcher, model: Model, groupKey: GroupKey)
    requires initialized
    requires Reddit.FetchRedditPosts(symbol, fetch) != []
    requires forall k :: 0 <= k < |Reddit.FetchRedditPosts(symbol, fetch)| ==>
      model(Reddit.FetchRedditPosts(symbol, fetch)[k].text).Unparseable?
    ensures var r := HandleSearch(initialized, stored, symbol, fetch, model, groupKey);
      r.outcome == Complete
      && r.stored.value.distribution == Distribution(0, 0, |Reddit.FetchRedditPosts(symbol, fetch)|)
      && r.stored.value.overallScore == 0.5
  {
    var posts := Reddit.FetchRedditPosts(symbol, fetch);
    var analyzed := AnalyzeAll(posts, model, groupKey).value;
    forall k | 0 <= k < |analyzed| ensures analyzed[k].sentiment == Gemini.Fallback {
      assert Gemini.AnalyzeSentiment(model(posts[k].text)) == Ok(analyzed[k].sentiment);
    }
    NeutralSummary(analyzed);
    assert Report(symbol, posts, analyzed).distribution == Aggregate.DistributionOf(analyzed);
    assert Report(symbol, posts, analyzed).overallScore == Aggregate.OverallScore(analyzed);
  }

  lemma NeutralSummary(analyzed: seq<AnalyzedPost>)
    requires |analyzed| > 0
    requires forall k :: 0 <= k < |analyzed| ==> analyzed[k].sentiment == Gemini.Fallback
    ensures Aggregate.DistributionOf(analyzed) == Distribution(0, 0, |analyzed|)
    ensures Aggregate.OverallScore(analyzed) == 0.5
  {
    Aggregate.DistributionCounts(analyzed);
    Aggregate.AbsentLabelCountsZero(analyzed, Positive);
    Aggregate.AbsentLabelCountsZero(analyzed, Negative);
    ZeroScoresSumToZero(analyzed);
  }

  lemma {:induction false} ZeroScoresSumToZero(ps: seq<AnalyzedPost>)
    requires forall k :: 0 <= k < |ps| ==> ps[k].sentiment.score == 0.0
    ensures Aggregate.SumScores(ps) == 0.0
  {
    if |ps| > 0 {
      var init := ps[..|ps| - 1];
      assert forall k :: 0 <= k < |init| ==> init[k] == ps[k];
      ZeroScoresSumToZero(init);
    }
  }
}
