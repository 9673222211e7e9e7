/**
 * The records the dashboard passes around (src/types/index.ts and the
 * settings record of src/components/AnalysisSettings.tsx). Scores are `real`;
 * instants are milliseconds since the epoch.
 */
module Types {

  /** The three sentiment labels a model reply may carry. */
  datatype Label = Positive | Negative | Neutral

  /** One sentiment classification (`polarity` is the source's `label` field, a Dafny keyword). */
  datatype SentimentAnalysis = SentimentAnalysis(score: real, polarity: Label, confidence: real)

  /** A post as the Reddit fetcher returns it; `timestampMs` is the instant the ISO string denotes. */
  datatype Post = Post(id: string, text: string, author: string, timestampMs: int)

  /**
   * A fetched post with its sentiment attached (`{ ...post, sentiment }`), plus the
   * grouping key the subreddit breakdown reads as `post.subreddit`.
   */
  datatype AnalyzedPost = AnalyzedPost(post: Post, subreddit: string, sentiment: SentimentAnalysis)

  /** Label counts of a search. */
  datatype Distribution = Distribution(positive: nat, negative: nat, neutral: nat)

  /** One entry of the subreddit breakdown. */
  datatype GroupStats = GroupStats(name: string, posts: nat, totalScore: real, avgSentiment: real)

  /** The stored result of a completed search. */
  datatype StockSentiment = StockSentiment(
    symbol: string,
    overallScore: real,
    tweetCount: nat,
    distribution: Distribution,
    latestTweets: seq<AnalyzedPost>,
    subredditBreakdown: seq<GroupStats>)

  /** The settings object the settings editor emits. */
  datatype Settings = Settings(startDate: int, endDate: int, subreddits: seq<string>)
}
