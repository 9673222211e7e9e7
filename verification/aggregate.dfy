/**
 * The reductions `handleSearch` applies to the analysed posts
 * (src/pages/Index.tsx, steps 3 and 4): the mean score, the label
 * distribution and the per-subreddit breakdown. The mean and the distribution
 * are the left folds the source performs, one post at a time. The breakdown
 * comes twice: `BreakdownAsWritten` is the source's fold over a plain object,
 * and `Breakdown` is the corrected fold with one own entry per key. The lemmas
 * relate the folds to independent per-label and per-group counts.
 */
module Aggregate {
  import opened Wrappers
  import opened Types

  // ---------------------------------------------------------------------------
  // Scores and the overall score

  predicate ScoresInRange(ps: seq<AnalyzedPost>) {
    forall k :: 0 <= k < |ps| ==> -1.0 <= ps[k].sentiment.score <= 1.0
  }

  /** `reduce((a, b) => a + b, 0)` over the scores; n scores in [-1,1] sum to within [-n, n]. */
  function SumScores(ps: seq<AnalyzedPost>): (r: real)
    ensures ScoresInRange(ps) ==> -(|ps| as real) <= r <= |ps| as real
  {
    if |ps| == 0 then 0.0
    else
      var init := ps[..|ps| - 1];
      assert ScoresInRange(ps) ==> ScoresInRange(init) by {
        assert forall k :: 0 <= k < |init| ==> init[k] == ps[k];
      }
      SumScores(init) + ps[|ps| - 1].sentiment.score
  }

  /** The mean raw score. */
  function MeanScore(ps: seq<AnalyzedPost>): real
    requires |ps| > 0
  {
    SumScores(ps) / (|ps| as real)
  }

  /** `(overallScore + 1) / 2`: the mean rescaled from [-1,1] to [0,1]. */
  function OverallScore(ps: seq<AnalyzedPost>): (r: real)
    requires |ps| > 0
    ensures ScoresInRange(ps) ==> 0.0 <= r <= 1.0
    ensures r * 2.0 - 1.0 == MeanScore(ps)
  {
    if ScoresInRange(ps) then
      MeanInUnitRange(SumScores(ps), |ps| as real);
      (MeanScore(ps) + 1.0) / 2.0
    else
      (MeanScore(ps) + 1.0) / 2.0
  }

  lemma MeanInUnitRange(sum: real, n: real)
    requires n > 0.0 && -n <= sum <= n
    ensures -1.0 <= sum / n <= 1.0
  {
  }

  // ---------------------------------------------------------------------------
  // Label distribution

  /** `acc[post.sentiment.label]++`. */
  function Tally(acc: Distribution, l: Label): Distribution {
    match l
    case Positive => acc.(positive := acc.positive + 1)
    case Negative => acc.(negative := acc.negative + 1)
    case Neutral => acc.(neutral := acc.neutral + 1)
  }

  /** The distribution fold, starting from `{ positive: 0, negative: 0, neutral: 0 }`. */
  function DistributionOf(ps: seq<AnalyzedPost>): (d: Distribution)
    ensures d.positive + d.negative + d.neutral == |ps|
  {
    if |ps| == 0 then Distribution(0, 0, 0)
    else Tally(DistributionOf(ps[..|ps| - 1]), ps[|ps| - 1].sentiment.polarity)
  }

  /** The number of posts carrying label `l`, counted from the front. */
  function CountLabel(ps: seq<AnalyzedPost>, l: Label): nat {
    if |ps| == 0 then 0
    else (if ps[0].sentiment.polarity == l then 1 else 0) + CountLabel(ps[1..], l)
  }

  lemma {:induction false} CountLabelSnoc(ps: seq<AnalyzedPost>, p: AnalyzedPost, l: Label)
    ensures CountLabel(ps + [p], l) == CountLabel(ps, l) + (if p.sentiment.polarity == l then 1 else 0)
  {
    if |ps| > 0 {
      assert (ps + [p])[1..] == ps[1..] + [p];
      CountLabelSnoc(ps[1..], p, l);
    } else {
      assert ps + [p] == [p];
    }
  }

  /** Each count of the fold is the number of posts carrying that label. */
  lemma {:induction false} DistributionCounts(ps: seq<AnalyzedPost>)
    ensures DistributionOf(ps) == Distribution(CountLabel(ps, Positive), CountLabel(ps, Negative), CountLabel(ps, Neutral))
  {
    if |ps| > 0 {
      var init := ps[..|ps| - 1];
      var last := ps[|ps| - 1];
      assert init + [last] == ps;
      DistributionCounts(init);
      CountLabelSnoc(init, last, Positive);
      CountLabelSnoc(init, last, Negative);
      CountLabelSnoc(init, last, Neutral);
    }
  }

  /** A label that no post carries keeps its initial count of 0. */
  lemma {:induction false} AbsentLabelCountsZero(ps: seq<AnalyzedPost>, l: Label)
    requires forall k :: 0 <= k < |ps| ==> ps[k].sentiment.polarity != l
    ensures CountLabel(ps, l) == 0
  {
    if |ps| > 0 {
      assert forall k :: 0 <= k < |ps[1..]| ==> ps[1..][k] == ps[k + 1];
      AbsentLabelCountsZero(ps[1..], l);
    }
  }

  // ---------------------------------------------------------------------------
  // Subreddit breakdown

  /** Where `acc[name]` lives in the breakdown, if it exists yet. */
  function FindGroup(acc: seq<GroupStats>, name: string): (r: Option<nat>)
    ensures r.Some? ==> r.value < |acc| && acc[r.value].name == name
    ensures r.None? ==> forall i :: 0 <= i < |acc| ==> acc[i].name != name
  {
    if |acc| == 0 then None
    else if acc[|acc| - 1].name == name then Some(|acc| - 1)
    else FindGroup(acc[..|acc| - 1], name)
  }

  /** `posts++`, `totalScore += score`, `avgSentiment = totalScore / posts`. */
  function Bump(g: GroupStats, score: real): GroupStats {
    var total := g.totalScore + score;
    GroupStats(g.name, g.posts + 1, total, total / ((g.posts + 1) as real))
  }

  /** One step of the breakdown fold: create the entry if missing, then bump it. */
  function Accumulate(acc: seq<GroupStats>, p: AnalyzedPost): seq<GroupStats> {
    match FindGroup(acc, p.subreddit)
    case None => acc + [Bump(GroupStats(p.subreddit, 0, 0.0, 0.0), p.sentiment.score)]
    case Some(i) => acc[i := Bump(acc[i], p.sentiment.score)]
  }

  /**
   * The breakdown fold with one own entry per key; entries appear in order of
   * first occurrence, so there are never more entries than posts.
   */
  function Breakdown(ps: seq<AnalyzedPost>): (bd: seq<GroupStats>)
    ensures |bd| <= |ps|
  {
    if |ps| == 0 then [] else Accumulate(Breakdown(ps[..|ps| - 1]), ps[|ps| - 1])
  }

  /** The number of posts whose grouping key is `name`. */
  function CountGroup(ps: seq<AnalyzedPost>, name: string): nat {
    if |ps| == 0 then 0
    else (if ps[0].subreddit == name then 1 else 0) + CountGroup(ps[1..], name)
  }

  /** The sum of the scores of the posts whose grouping key is `name`. */
  function GroupScore(ps: seq<AnalyzedPost>, name: string): real {
    if |ps| == 0 then 0.0
    else (if ps[0].subreddit == name then ps[0].sentiment.score else 0.0) + GroupScore(ps[1..], name)
  }

  predicate HasGroup(bd: seq<GroupStats>, name: string) {
    exists i :: 0 <= i < |bd| && bd[i].name == name
  }

  predicate Mentions(ps: seq<AnalyzedPost>, name: string) {
    exists k :: 0 <= k < |ps| && ps[k].subreddit == name
  }

  predicate NamesDistinct(bd: seq<GroupStats>) {
    forall i, j :: 0 <= i < j < |bd| ==> bd[i].name != bd[j].name
  }

  /** Entry `g` holds the count, the score sum and the mean score of its group in `ps`. */
  predicate Summarises(g: GroupStats, ps: seq<AnalyzedPost>) {
    && g.posts == CountGroup(ps, g.name)
    && g.posts > 0
    && g.totalScore == GroupScore(ps, g.name)
    && g.avgSentiment == g.totalScore / (g.posts as real)
  }

  /** `bd` is a faithful breakdown of `ps`. */
  predicate Describes(bd: seq<GroupStats>, ps: seq<AnalyzedPost>) {
    && NamesDistinct(bd)
    && (forall i :: 0 <= i < |bd| ==> Summarises(bd[i], ps))
    && (forall k :: 0 <= k < |ps| ==> HasGroup(bd, ps[k].subreddit))
  }

  /** The sum of the `posts` fields. */
  function SumPosts(bd: seq<GroupStats>): nat {
    if |bd| == 0 then 0 else SumPosts(bd[..|bd| - 1]) + bd[|bd| - 1].posts
  }

  lemma {:induction false} CountGroupSnoc(ps: seq<AnalyzedPost>, p: AnalyzedPost, name: string)
    ensures CountGroup(ps + [p], name) == CountGroup(ps, name) + (if p.subreddit == name then 1 else 0)
    ensures GroupScore(ps + [p], name) == GroupScore(ps, name) + (if p.subreddit == name then p.sentiment.score else 0.0)
  {
    if |ps| > 0 {
      assert (ps + [p])[1..] == ps[1..] + [p];
      CountGroupSnoc(ps[1..], p, name);
    } else {
      assert ps + [p] == [p];
    }
  }

  lemma {:induction false} CountGroupPositive(ps: seq<AnalyzedPost>, name: string)
    ensures CountGroup(ps, name) > 0 <==> Mentions(ps, name)
  {
    if |ps| > 0 {
      CountGroupPositive(ps[1..], name);
      if Mentions(ps[1..], name) {
        var k :| 0 <= k < |ps[1..]| && ps[1..][k].subreddit == name;
        assert ps[k + 1].subreddit == name;
      }
      if Mentions(ps, name) && ps[0].subreddit != name {
        var k :| 0 <= k < |ps| && ps[k].subreddit == name;
        assert ps[1..][k - 1].subreddit == name;
      }
    }
  }

  lemma SumPostsAppend(bd: seq<GroupStats>, g: GroupStats)
    ensures SumPosts(bd + [g]) == SumPosts(bd) + g.posts
  {
    assert (bd + [g])[..|bd|] == bd;
  }

  lemma {:induction false} SumPostsUpdate(bd: seq<GroupStats>, i: nat, g: GroupStats)
    requires i < |bd|
    ensures SumPosts(bd[i := g]) == SumPosts(bd) - bd[i].posts + g.posts
    decreases |bd|
  {
    var n := |bd| - 1;
    if i < n {
      assert bd[i := g][..n] == bd[..n][i := g];
      SumPostsUpdate(bd[..n], i, g);
    } else {
      assert bd[i := g][..n] == bd[..n];
    }
  }

  /** One fold step adds exactly one post to the per-group counts. */
  lemma AccumulateTotal(bd: seq<GroupStats>, p: AnalyzedPost)
    ensures SumPosts(Accumulate(bd, p)) == SumPosts(bd) + 1
  {
    match FindGroup(bd, p.subreddit)
    case None => SumPostsAppend(bd, Bump(GroupStats(p.subreddit, 0, 0.0, 0.0), p.sentiment.score));
    case Some(j) => SumPostsUpdate(bd, j, Bump(bd[j], p.sentiment.score));
  }

  /** After one fold step every entry still summarises its group, the new post included. */
  lemma AccumulateSummarises(bd: seq<GroupStats>, ps: seq<AnalyzedPost>, p: AnalyzedPost)
    requires Describes(bd, ps)
    ensures forall i :: 0 <= i < |Accumulate(bd, p)| ==> Summarises(Accumulate(bd, p)[i], ps + [p])
  {
    var qs := ps + [p];
    var key := p.subreddit;
    var bd' := Accumulate(bd, p);
    match FindGroup(bd, key)
    case None =>
      forall k | 0 <= k < |ps| ensures ps[k].subreddit != key {
        assert HasGroup(bd, ps[k].subreddit);
      }
      CountGroupPositive(ps, key);
      GroupScoreAbsent(ps, key);
      forall i | 0 <= i < |bd'| ensures Summarises(bd'[i], qs) {
        CountGroupSnoc(ps, p, bd'[i].name);
        if i < |bd| {
          assert bd'[i] == bd[i] && Summarises(bd[i], ps);
        }
      }
    case Some(j) =>
      forall i | 0 <= i < |bd'| ensures Summarises(bd'[i], qs) {
        CountGroupSnoc(ps, p, bd'[i].name);
        assert Summarises(bd[i], ps);
      }
  }

  /** After one fold step every key carried by a post, the new one included, has an entry. */
  lemma AccumulateCovers(bd: seq<GroupStats>, ps: seq<AnalyzedPost>, p: AnalyzedPost)
    requires Describes(bd, ps)
    ensures forall k :: 0 <= k < |ps + [p]| ==> HasGroup(Accumulate(bd, p), (ps + [p])[k].subreddit)
  {
    var qs := ps + [p];
    var bd' := Accumulate(bd, p);
    var j := match FindGroup(bd, p.subreddit) case None => |bd| case Some(j) => j;
    assert j < |bd'| && bd'[j].name == p.subreddit;
    forall k | 0 <= k < |qs| ensures HasGroup(bd', qs[k].subreddit) {
      if k < |ps| {
        assert qs[k] == ps[k];
        var i :| 0 <= i < |bd| && bd[i].name == ps[k].subreddit;
        assert bd'[i].name == qs[k].subreddit;
      } else {
        assert bd'[j].name == qs[k].subreddit;
      }
    }
  }

  lemma {:induction false} GroupScoreAbsent(ps: seq<AnalyzedPost>, name: string)
    requires !Mentions(ps, name)
    ensures GroupScore(ps, name) == 0.0
  {
    if |ps| > 0 {
      forall k | 0 <= k < |ps[1..]| ensures ps[1..][k].subreddit != name {
        assert ps[1..][k] == ps[k + 1];
      }
      GroupScoreAbsent(ps[1..], name);
    }
  }

  /**
   * The breakdown has one entry per distinct grouping key, each holding its
   * group's post count, score sum and mean score.
   */
  lemma {:induction false} BreakdownCorrect(ps: seq<AnalyzedPost>)
    ensures Describes(Breakdown(ps), ps)
  {
    if |ps| > 0 {
      var init := ps[..|ps| - 1];
      assert init + [ps[|ps| - 1]] == ps;
      BreakdownCorrect(init);
      AccumulateSummarises(Breakdown(init), init, ps[|ps| - 1]);
      AccumulateCovers(Breakdown(init), init, ps[|ps| - 1]);
    }
  }

  /** The per-group counts add up to the number of posts. */
  lemma {:induction false} BreakdownTotal(ps: seq<AnalyzedPost>)
    ensures SumPosts(Breakdown(ps)) == |ps|
  {
    if |ps| > 0 {
      BreakdownTotal(ps[..|ps| - 1]);
      AccumulateTotal(Breakdown(ps[..|ps| - 1]), ps[|ps| - 1]);
    }
  }

  /** Every entry names a key some post carries, and every carried key has an entry. */
  lemma BreakdownKeys(ps: seq<AnalyzedPost>, name: string)
    ensures HasGroup(Breakdown(ps), name) <==> Mentions(ps, name)
  {
    var bd := Breakdown(ps);
    BreakdownCorrect(ps);
    CountGroupPositive(ps, name);
    if HasGroup(bd, name) {
      var i :| 0 <= i < |bd| && bd[i].name == name;
      assert Summarises(bd[i], ps);
    }
    if Mentions(ps, name) {
      var k :| 0 <= k < |ps| && ps[k].subreddit == name;
      assert HasGroup(bd, ps[k].subreddit);
    }
  }

  /**
   * When every post carries the same key, as with the fetcher's posts, which
   * never set one, the breakdown is a single entry holding all the posts.
   */
  lemma {:induction false} SingleGroupForUniformKey(ps: seq<AnalyzedPost>, key: string)
    requires |ps| > 0
    requires forall k :: 0 <= k < |ps| ==> ps[k].subreddit == key
    ensures |Breakdown(ps)| == 1
    ensures Breakdown(ps)[0].name == key && Breakdown(ps)[0].posts == |ps|
  {
    var bd := Breakdown(ps);
    BreakdownCorrect(ps);
    BreakdownTotal(ps);
    assert HasGroup(bd, ps[0].subreddit);
    forall i | 0 <= i < |bd| ensures bd[i].name == key {
      assert Summarises(bd[i], ps);
      CountGroupPositive(ps, bd[i].name);
    }
    if |bd| > 1 {
      assert false;
    }
    assert SumPosts(bd) == SumPosts(bd[..0]) + bd[0].posts;
  }

  // ---------------------------------------------------------------------------
  // The breakdown fold as written, over a plain object literal

  /**
   * Keys every object literal inherits from `Object.prototype`. For these
   * `acc[key]` is already truthy, so the fold never creates an own entry and
   * its increments land on the inherited member; `Object.values` then omits
   * the group.
   */
  const InheritedKeys: set<string> := {
    "constructor", "__proto__", "toString", "toLocaleString", "valueOf",
    "hasOwnProperty", "isPrototypeOf", "propertyIsEnumerable",
    "__defineGetter__", "__defineSetter__", "__lookupGetter__", "__lookupSetter__"
  }

  /** One step of the fold as written: a post with an inherited key leaves no trace. */
  function AccumulateAsWritten(acc: seq<GroupStats>, p: AnalyzedPost): seq<GroupStats> {
    if p.subreddit in InheritedKeys then acc else Accumulate(acc, p)
  }

  /**
   * The breakdown the source's `{}` accumulator reports through `Object.values`:
   * no entry ever names an inherited key.
   */
  function BreakdownAsWritten(ps: seq<AnalyzedPost>): (bd: seq<GroupStats>)
    ensures |bd| <= |ps|
    ensures forall i :: 0 <= i < |bd| ==> bd[i].name !in InheritedKeys
  {
    if |ps| == 0 then []
    else
      var prev := BreakdownAsWritten(ps[..|ps| - 1]);
      var last := ps[|ps| - 1];
      var bd := AccumulateAsWritten(prev, last);
      assert forall i :: 0 <= i < |bd| ==> (i < |prev| && bd[i].name == prev[i].name) || bd[i].name == last.subreddit;
      bd
  }

  /** A single post filed under "constructor" vanishes from the breakdown as written. */
  lemma InheritedKeyDropsGroup()
    ensures var ps := [AnalyzedPost(Post("p1", "AAPL to the moon", "u1", 0), "constructor",
                                    SentimentAnalysis(0.5, Positive, 0.9))];
      BreakdownAsWritten(ps) == [] && SumPosts(BreakdownAsWritten(ps)) != |ps|
      && SumPosts(Breakdown(ps)) == |ps|
  {
    var ps := [AnalyzedPost(Post("p1", "AAPL to the moon", "u1", 0), "constructor",
                            SentimentAnalysis(0.5, Positive, 0.9))];
    assert ps[..0] == [];
    BreakdownTotal(ps);
  }

  /** Away from the inherited keys the fold as written and the corrected one agree. */
  lemma {:induction false} AsWrittenAgreesOffInheritedKeys(ps: seq<AnalyzedPost>)
    requires forall k :: 0 <= k < |ps| ==> ps[k].subreddit !in InheritedKeys
    ensures BreakdownAsWritten(ps) == Breakdown(ps)
  {
    if |ps| > 0 {
      var init := ps[..|ps| - 1];
      assert forall k :: 0 <= k < |init| ==> init[k] == ps[k];
      AsWrittenAgreesOffInheritedKeys(init);
    }
  }
}
