/**
 * The post fetcher (src/lib/reddit.ts) minus the network: one search request per
 * fixed subreddit, the listings flattened in subreddit order, each child turned
 * into a post, posts with empty text dropped, the first ten kept. A failed
 * request or an undecodable body anywhere makes the whole result empty.
 */
module Reddit {
  import opened Wrappers
  import opened Types

  /** The subreddits searched, in the order their listings are concatenated. */
  const Subreddits: seq<string> := ["wallstreetbets", "stocks", "investing"]

  /** At most this many posts are returned. */
  const MaxPosts: nat := 10

  /** The fields of one listing child's `data` that the fetcher reads; `selftext` may be absent. */
  datatype RawItem = RawItem(id: string, title: string, selftext: Option<string>, author: string, createdUtc: int)

  /**
   * One subreddit request: it either throws (transport error or a body that is
   * not JSON) or yields a body whose `data.children` may be missing.
   */
  datatype Response = RequestFailed | Body(children: Option<seq<RawItem>>)

  /** The search endpoint, as a function of subreddit and symbol. */
  type Fetcher = (string, string) -> Response

  /** `selftext` counts only when present and non-empty (JavaScript truthiness). */
  predicate HasSelftext(item: RawItem) {
    item.selftext.Some? && item.selftext.value != ""
  }

  /** The post text: the title, then a space and the self text when there is one. */
  function PostText(item: RawItem): (text: string)
    ensures !HasSelftext(item) ==> text == item.title
    ensures HasSelftext(item) ==> text == item.title + " " + item.selftext.value
    ensures text == [] <==> item.title == [] && !HasSelftext(item)
  {
    item.title + (if HasSelftext(item) then " " + item.selftext.value else "")
  }

  /** The post built from one listing child. */
  function ToPost(item: RawItem): (p: Post)
    ensures p.id == item.id && p.author == item.author
    ensures p.text == PostText(item)
    ensures p.timestampMs == item.createdUtc * 1000
  {
    Post(item.id, PostText(item), item.author, item.createdUtc * 1000)
  }

  /** `data.data?.children || []`: a missing listing contributes nothing. */
  function Listing(children: Option<seq<RawItem>>): seq<RawItem> {
    if children.Some? then children.value else []
  }

  predicate AnyFailed(responses: seq<Response>) {
    exists k :: 0 <= k < |responses| && responses[k].RequestFailed?
  }

  /** `posts.flat()` over bodies that all decoded. */
  function Flatten(responses: seq<Response>): seq<RawItem>
    requires !AnyFailed(responses)
  {
    if |responses| == 0 then []
    else Listing(responses[0].children) + Flatten(responses[1..])
  }

  /** `.map(toPost).filter(post => post.text.length > 0)`: no more posts than children, none with empty text. */
  function KeptPosts(items: seq<RawItem>): (posts: seq<Post>)
    ensures |posts| <= |items|
    ensures forall k :: 0 <= k < |posts| ==> posts[k].text != []
  {
    if |items| == 0 then []
    else
      var p := ToPost(items[0]);
      (if p.text != [] then [p] else []) + KeptPosts(items[1..])
  }

  /** The responses of the three subreddit requests, in subreddit order. */
  function Responses(symbol: string, fetch: Fetcher): seq<Response> {
    seq(|Subreddits|, k requires 0 <= k < |Subreddits| => fetch(Subreddits[k], symbol))
  }

  /** `fetchRedditPosts(symbol)`. */
  function FetchRedditPosts(symbol: string, fetch: Fetcher): (posts: seq<Post>)
    ensures |posts| <= MaxPosts
    ensures forall k :: 0 <= k < |posts| ==> posts[k].text != []
    ensures AnyFailed(Responses(symbol, fetch)) ==> posts == []
  {
    var responses := Responses(symbol, fetch);
    if AnyFailed(responses) then []
    else
      var kept := KeptPosts(Flatten(responses));
      if |kept| <= MaxPosts then kept else kept[..MaxPosts]
  }

  /** Filtering distributes over concatenation: the order of the listings is kept. */
  lemma {:induction false} KeptPostsAppend(a: seq<RawItem>, b: seq<RawItem>)
    ensures KeptPosts(a + b) == KeptPosts(a) + KeptPosts(b)
  {
    if |a| > 0 {
      assert (a + b)[1..] == a[1..] + b;
      KeptPostsAppend(a[1..], b);
    } else {
      assert a + b == b;
    }
  }

  /** A post survives the filter exactly when some child builds it and its text is non-empty. */
  lemma {:induction false} KeptPostsMembers(items: seq<RawItem>, p: Post)
    ensures p in KeptPosts(items) <==> p.text != [] && exists k :: 0 <= k < |items| && ToPost(items[k]) == p
  {
    if |items| > 0 {
      KeptPostsMembers(items[1..], p);
      if exists k :: 0 <= k < |items| && ToPost(items[k]) == p {
        var k :| 0 <= k < |items| && ToPost(items[k]) == p;
        if k > 0 {
          assert ToPost(items[1..][k - 1]) == p;
        }
      }
      if exists k :: 0 <= k < |items[1..]| && ToPost(items[1..][k]) == p {
        var k :| 0 <= k < |items[1..]| && ToPost(items[1..][k]) == p;
        assert ToPost(items[k + 1]) == p;
      }
    }
  }

  /** The result is the first `min(10, n)` of the `n` kept posts, in flattened order. */
  lemma FetchIsPrefix(symbol: string, fetch: Fetcher)
    requires !AnyFailed(Responses(symbol, fetch))
    ensures var kept := KeptPosts(Flatten(Responses(symbol, fetch)));
      var posts := FetchRedditPosts(symbol, fetch);
      posts <= kept && |posts| == (if |kept| < MaxPosts then |kept| else MaxPosts)
  {
  }

  /**
   * With every request answered, the candidates are the wallstreetbets listing's
   * posts, then the stocks listing's, then the investing listing's, each in API
   * order; there is no date filter and no sort.
   */
  lemma FetchOrder(symbol: string, fetch: Fetcher)
    requires fetch("wallstreetbets", symbol).Body?
    requires fetch("stocks", symbol).Body?
    requires fetch("investing", symbol).Body?
    ensures !AnyFailed(Responses(symbol, fetch))
    ensures KeptPosts(Flatten(Responses(symbol, fetch)))
      == KeptPosts(Listing(fetch("wallstreetbets", symbol).children))
       + KeptPosts(Listing(fetch("stocks", symbol).children))
       + KeptPosts(Listing(fetch("investing", symbol).children))
  {
    var rs := Responses(symbol, fetch);
    var l0 := Listing(rs[0].children);
    var l1 := Listing(rs[1].children);
    var l2 := Listing(rs[2].children);
    assert rs[0] == fetch("wallstreetbets", symbol);
    assert rs[1] == fetch("stocks", symbol);
    assert rs[2] == fetch("investing", symbol);
    assert !AnyFailed(rs);
    assert Flatten(rs[2..]) == l2 + Flatten(rs[3..]);
    assert Flatten(rs[1..]) == l1 + Flatten(rs[2..]) by {
      assert rs[1..][1..] == rs[2..];
    }
    assert Flatten(rs) == l0 + Flatten(rs[1..]);
    assert Flatten(rs) == l0 + (l1 + (l2 + []));
    assert l0 + (l1 + (l2 + [])) == l0 + l1 + l2;
    KeptPostsAppend(l0 + l1, l2);
    KeptPostsAppend(l0, l1);
  }

  /** A failure of any one of the three requests empties the whole result. */
  lemma OneFailureEmptiesAll(symbol: string, fetch: Fetcher, k: nat)
    requires k < |Subreddits| && fetch(Subreddits[k], symbol).RequestFailed?
    ensures FetchRedditPosts(symbol, fetch) == []
  {
    assert Responses(symbol, fetch)[k].RequestFailed?;
  }
}
