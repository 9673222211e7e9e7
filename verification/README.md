# Stock sentiment dashboard: a Dafny model of its logic

The dashboard takes a stock ticker and fetches recent Reddit posts that mention it. It asks a language model for the sentiment of each post and shows a summary: an overall score, a positive/negative/neutral distribution and a per-subreddit breakdown. This project models the sequential logic that sits inside its React handlers and helpers, written as pure functions over immutable datatypes:

- `Ticker` models the ticker box's submit handler (`src/components/StockSearch.tsx`). It trims the input, ignores blank input and upper-cases the rest.
- `Reddit` models the post fetcher (`src/lib/reddit.ts`). It searches three fixed subreddits and flattens their listings in subreddit order. Each child becomes a post whose text is the title, plus a space and the self text when there is self text. Posts with empty text are dropped and the first ten are kept. Any failed request or undecodable body makes the whole result empty.
- `Gemini` models how the caller sees the sentiment call (`src/lib/gemini.ts`):
  - a reply that parses is returned as is;
  - a reply that does not parse becomes the neutral fallback `{score: 0, label: neutral, confidence: 0}`;
  - an error from the model call is thrown on.
- `Aggregate` models the reductions in the search handler (`src/pages/Index.tsx`): the mean score rescaled by `(mean + 1) / 2`, the label distribution and the subreddit breakdown. The mean and the distribution are the source's left folds. The breakdown has two versions. `BreakdownAsWritten` is the source's fold over a plain `{}`, and `Breakdown` is the corrected fold that the search handler stores (see Findings).
- `Search` models the search handler itself:
  - the "initialized" guard;
  - the short-circuit when no posts come back;
  - the order-preserving map that attaches a sentiment to each post;
  - assembly of the stored report.
- `SettingsEditor` models the analysis-settings editor (`src/components/AnalysisSettings.tsx`). Its state is the subreddit list, the text typed in the add box and two date bounds. It supports typing, add, remove and date changes, and reports the settings object each edit emits.

Inputs that come from outside the program are function parameters:

- The Reddit endpoint is a parameter `Fetcher = (subreddit, symbol) -> Response`. A response either failed (transport error or a body that is not JSON) or is a body whose `data.children` may be missing.
- The language model is a parameter `Model = text -> Reply`. A reply is `Parsed(analysis)`, `Unparseable` or `CallFailed`.
- The value the breakdown reads as `post.subreddit` is a parameter `GroupKey = Post -> string`. The fetcher never sets that field. With the code as written, every post therefore carries the same absent key, and `Aggregate.SingleGroupForUniformKey` shows that the breakdown then has one entry.
- The "initialized" flag and the current instant (for the settings defaults) are plain arguments.

Scores and means are `real`. Instants are integer milliseconds. The source's `label` field is called `polarity` here, because `label` is a Dafny keyword.

Facts about the code that the model keeps:

- The fetcher ignores the settings argument passed to it at `src/pages/Index.tsx:67`.
- The fetcher neither filters by date nor sorts, and it keeps at most 10 posts.
- The sentiment call has no retry.

## Model

| member | source | states |
|---|---|---|
| Ticker.HandleSubmit | src/components/StockSearch.tsx:15-20 | No search happens exactly when the input is all white space. Otherwise there is exactly one search. Its symbol is non-empty, does not start or end with white space, and contains no lower-case ASCII letter. It is the upper-cased infix that remains once a white-space prefix and a white-space suffix are removed. |
| Ticker.TrimIsInfix | src/components/StockSearch.tsx:17 | `trim` returns the infix between a white-space prefix and a white-space suffix. The result is empty or has non-white-space ends. It is empty exactly when the input is all white space. |
| Ticker.SubmitIdempotent | src/components/StockSearch.tsx:17-18 | Submitting the emitted symbol again emits the same symbol. |
| Ticker.InteriorPreserved | src/components/StockSearch.tsx:18 | For input with non-blank ends, the symbol has the input's length and each character, inner spaces included, is that character upper-cased. |
| Reddit.PostText | src/lib/reddit.ts:21 | The text is the title alone when the self text is absent or empty. Otherwise it is title + " " + self text. It is empty exactly when the title is empty and there is no self text. |
| Reddit.ToPost | src/lib/reddit.ts:19-24 | `id` and `author` are copied. The text is `PostText`. The instant is `created_utc` × 1000 ms. |
| Reddit.FetchRedditPosts | src/lib/reddit.ts:2-31 | At most 10 posts are returned, and every post has non-empty text. If any of the three requests fails, the result is empty. |
| Reddit.KeptPosts | src/lib/reddit.ts:19-25 | Mapping then filtering yields no more posts than there are listing children, and none of them has empty text. Membership and order are in `KeptPostsMembers` and `KeptPostsAppend`. |
| Reddit.KeptPostsAppend | src/lib/reddit.ts:17-25 | Mapping then filtering distributes over concatenation, so listing order and API order are kept and nothing is sorted. |
| Reddit.KeptPostsMembers | src/lib/reddit.ts:19-25 | A post survives exactly when some listing child builds it and its text is non-empty. |
| Reddit.FetchIsPrefix | src/lib/reddit.ts:17-26 | When every request succeeds, the result is a prefix of the kept posts, of length min(10, number kept). |
| Reddit.FetchOrder | src/lib/reddit.ts:5-18 | The candidates come from wallstreetbets, then stocks, then investing. A missing `data.children` contributes nothing. |
| Reddit.OneFailureEmptiesAll | src/lib/reddit.ts:6-30 | One failed subreddit request makes the whole result empty. |
| Gemini.AnalyzeSentiment | src/lib/gemini.ts:26-35 | A parsed reply is returned unchanged. An unparseable reply yields score 0, label neutral and confidence 0. Only a failed model call is an error. |
| Aggregate.SumScores | src/pages/Index.tsx:91-92 | The left-fold sum of n scores lies in [-n, n] when every score lies in [-1,1]. |
| Aggregate.OverallScore | src/pages/Index.tsx:91-92 | Twice the score minus one equals the mean raw score (the rescale written at line 122). The score lies in [0,1] whenever every raw score lies in [-1,1]. |
| Aggregate.DistributionOf | src/pages/Index.tsx:95-101 | The positive, negative and neutral counts sum to the number of posts. |
| Aggregate.DistributionCounts | src/pages/Index.tsx:95-101 | Each count of the fold equals the number of posts that carry that label. |
| Aggregate.AbsentLabelCountsZero | src/pages/Index.tsx:97-100 | A label that no post carries keeps the count 0. |
| Aggregate.Breakdown | src/pages/Index.tsx:104-117 | This is the corrected fold, with one own entry per key. It never has more entries than posts. The full description (one entry per distinct key, with per-group count, sum and mean, the counts adding up to the post count) is in `BreakdownCorrect`, `BreakdownTotal` and `BreakdownKeys`. |
| Aggregate.BreakdownAsWritten | src/pages/Index.tsx:104-117 | This is the fold over a plain `{}` object, with entries in order of first occurrence (see Left out for `Object.values` key order). It has at most one entry per post, and no entry names a key inherited from `Object.prototype`. |
| Aggregate.AccumulateTotal | src/pages/Index.tsx:104-117 | One fold step raises the sum of the `posts` fields by exactly one, whether it creates an entry or bumps an existing one. |
| Aggregate.AccumulateSummarises | src/pages/Index.tsx:104-117 | If the breakdown described the posts seen so far, then after one fold step every entry holds its group's count, score sum and mean over those posts plus the new one. |
| Aggregate.AccumulateCovers | src/pages/Index.tsx:104-117 | If the breakdown described the posts seen so far, then after one fold step every key of those posts and of the new post has an entry. |
| Aggregate.BreakdownCorrect | src/pages/Index.tsx:104-117 | Entry names are distinct, and every post's key has an entry. Each entry holds its group's post count (> 0), its score sum, and the mean `totalScore / posts`. |
| Aggregate.BreakdownTotal | src/pages/Index.tsx:104-117 | The `posts` fields of the breakdown sum to the number of posts. |
| Aggregate.BreakdownKeys | src/pages/Index.tsx:104-117 | A key has an entry exactly when some post carries it. |
| Aggregate.SingleGroupForUniformKey | src/pages/Index.tsx:105 | When every post has the same key, the breakdown is one entry that holds all the posts. |
| Aggregate.InheritedKeyDropsGroup | src/pages/Index.tsx:104-112 | As written, a post filed under "constructor" leaves the breakdown empty. The corrected fold gives a total of 1. |
| Aggregate.AsWrittenAgreesOffInheritedKeys | src/pages/Index.tsx:104-117 | If no key names an inherited `Object.prototype` member, the fold as written equals the corrected one. |
| Search.AnalyzeAll | src/pages/Index.tsx:80-88 | Every post is analysed and the order is kept. Each result is the post unchanged plus its key and sentiment. The batch fails exactly when some model call fails. |
| Search.Report | src/pages/Index.tsx:119-129 | `tweetCount` is the length of `latestTweets`, and the label counts sum to `tweetCount`. The overall score lies in [0,1] when every score lies in [-1,1]. The breakdown's totals are in `CompletedReport`. |
| Search.HandleSearch | src/pages/Index.tsx:54-145 | If not initialized, there is no fetch, no analysis and no change to the stored result. If no posts come back, there is no analysis call and the stored result is kept. Otherwise each fetched text is sent for analysis, in order, and the search fails exactly when some model call fails. Only a completed search replaces the stored result, and the new result carries the searched symbol. |
| Search.CompletedReport | src/pages/Index.tsx:119-129 | A completed report is built as follows. `tweetCount` and the length of `latestTweets` both equal the number of fetched posts (1 to 10). `latestTweets` holds the fetched posts in order, each with its own sentiment. The distribution counts the labels and sums to `tweetCount`. `overallScore` is (sum/len + 1)/2, which lies in [0,1] for scores in [-1,1]. The stored breakdown is the corrected one. It describes the posts, and its counts sum to `tweetCount`. When no post's key names an inherited `Object.prototype` member, it equals `BreakdownAsWritten`, the source's `{}` fold up to key order. |
| Search.UnparseableRepliesCountNeutral | src/pages/Index.tsx:80-101 | If no model reply parses, the search still completes with every post neutral and an overall score of 0.5. |
| SettingsEditor.Initial | src/components/AnalysisSettings.tsx:25-29 | The editor starts with the three default subreddits (no duplicates), an empty add box, and the range from 30 days before now to now. |
| SettingsEditor.SetNewSubreddit | src/components/AnalysisSettings.tsx:97 | Typing only changes the add box and emits nothing. |
| SettingsEditor.AddSubreddit | src/components/AnalysisSettings.tsx:31-38 | A non-empty, unlisted name is appended at the end and the box is cleared. The emitted settings are the new state. An empty or listed name changes nothing and emits nothing. An add keeps the list free of duplicates. |
| SettingsEditor.RemoveSubreddit | src/components/AnalysisSettings.tsx:40-44 | The result is `Without` of the old list, so exactly the other names remain (`WithoutMembers`) and they keep their order (`WithoutAppend`). An absent name leaves the list equal to the original. The dates and the box are unchanged. The settings are always emitted, and duplicate-freedom is kept. |
| SettingsEditor.WithoutAppend | src/components/AnalysisSettings.tsx:41 | The filter distributes over concatenation, so the names that remain keep their order. |
| SettingsEditor.DateChange | src/components/AnalysisSettings.tsx:46-55 | An undefined date changes nothing and emits nothing. Otherwise only the chosen bound changes, and start ≤ end is not enforced. The emitted settings are the new state. |
| SettingsEditor.AddThenRemove | src/components/AnalysisSettings.tsx:31-44 | Removing a name just added restores the original list. |
| SettingsEditor.AddIdempotent | src/components/AnalysisSettings.tsx:32 | A second add of the same box changes nothing and emits nothing. |
| SettingsEditor.RemoveIdempotent | src/components/AnalysisSettings.tsx:41 | Removing twice is the same as removing once. |

## Left out

- Network I/O: the Reddit `fetch` and its URL become the `Fetcher` parameter, so the query parameters `limit=10&sort=new` and the unescaped symbol in the URL are outside the model.
- Concurrency: the `Promise.all` fan-outs in `src/lib/reddit.ts` and `src/pages/Index.tsx` are sequential maps that keep order.
- The timestamp's ISO string formatting is left out. The model keeps the instant in milliseconds.
- Reddit.FetchRedditPosts: it does not model the `RangeError` that `toISOString` throws for an instant outside the JavaScript Date range, which would also empty the result. It also does not model listing children that lack a `data` field or a title. `created_utc` is taken as whole seconds.
- The model's replies are assumed to match the `SentimentAnalysis` type. A parsed reply with a label other than the three would add a fourth key to the distribution, and this is not modelled.
- The Gemini client itself is left out: initialisation (`initGemini`, `handleInitialize`), the prompt text, the model name and the "client not initialized" error. The search handler only calls it after initialisation.
- React state, toasts, the loading flag and the disabled submit button are UI plumbing.
- Search.HandleSearch: the stored report holds the corrected subreddit breakdown (`Aggregate.Breakdown`), not the source's `{}` fold. For a key inherited from `Object.prototype`, the source drops the group and the model keeps it. `Search.CompletedReport` proves that the two agree whenever no such key occurs, and the Findings row records the difference.
- Diagnostic logging is not modelled: the `console.error` calls at `src/lib/reddit.ts:28`, `src/lib/gemini.ts:29` and `src/pages/Index.tsx:136` have no effect on results.
- The chart and card rendering in `src/pages/Index.tsx`, `src/components/SentimentChart.tsx` and `src/components/TweetList.tsx` is rendering only.
- Floating point: scores are `real`, so rounding, NaN and infinities are not modelled.
- Ticker.HandleSubmit: it upper-cases ASCII letters only. Unicode case mapping, which can change the length of a string, is not modelled. White space follows JavaScript's `trim` set.
- Aggregate.Breakdown: entries are kept in order of first occurrence. `Object.values` lists integer-like keys first, in numeric order, and the model does not reproduce that order.
- Aggregate.BreakdownAsWritten: the same holds for the fold as written. Its entries are in order of first occurrence, not in `Object.values` order for integer-like keys.
- Search.AnalyzeAll: the model reply depends only on the post text, so two posts with equal text always get the same reply. The source makes one independent model call per post (`src/pages/Index.tsx:81-82`), and its replies may differ.
- The editor's subreddit list is emitted to the page but never reaches the fetcher, which always searches its three fixed subreddits. The link between them is not modelled.

## Findings

| source | as written | input that shows it | evidently intended | confidence | as-written member | corrected member |
|---|---|---|---|---|---|---|
| src/pages/Index.tsx:104-117 | The breakdown accumulator is a plain `{}`. For a key such as `constructor`, `toString` or `__proto__`, `acc[key]` is the inherited member, so it is truthy and no own entry is created. The increments land on the inherited member, and `Object.values` omits the group. | One analysed post whose subreddit is "constructor": the breakdown is empty, and its counts sum to 0 instead of 1. | Every key gets its own entry (a `Map` or `Object.create(null)`), so the counts sum to the post count. | medium, not executed (latent: the fetcher as written never sets the key) | Aggregate.InheritedKeyDropsGroup | Aggregate.BreakdownTotal |
