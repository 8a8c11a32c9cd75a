/**
 * The post extractor (`get_latest_post`): pick the second child of the group's
 * feed and return its author and message text, stripped, or nothing.
 */
module Extractor {
  import opened Options
  import opened Text

  /**
   * One child of the feed as the browser driver sees it. A field is `None`
   * when its sub-element (the profile name, the story message) cannot be
   * found or read, which in the driver raises an exception.
   */
  datatype RawPost = RawPost(author: Option<string>, body: Option<string>)

  /**
   * What the browser shows this cycle: `Failed` when the wait for the feed
   * times out or listing its children raises, otherwise the feed's children
   * in document order.
   */
  datatype Page = Failed | Rendered(posts: seq<RawPost>)

  /** A post as returned by the extractor: both texts already stripped. */
  datatype Post = Post(author: string, body: string)

  /**
   * `get_latest_post`: `None` stands for the pair `(None, None)`. Index 0 is
   * skipped on purpose; a failure before the children are read, a feed of
   * fewer than two children or a missing sub-element yields `None` instead of
   * an error.
   */
  function LatestPost(page: Page): (r: Option<Post>)
    ensures r.Some? <==>
      page.Rendered? && |page.posts| > 1 &&
      page.posts[1].author.Some? && page.posts[1].body.Some?
    ensures r.Some? ==>
      NoOuterSpace(r.value.author) && Trims(page.posts[1].author.value, r.value.author) &&
      NoOuterSpace(r.value.body) && Trims(page.posts[1].body.value, r.value.body)
  {
    match page
    case Failed => None
    case Rendered(posts) =>
      if |posts| > 1 then
        var second := posts[1];
        if second.author.Some? && second.body.Some? then
          Some(Post(Strip(second.author.value), Strip(second.body.value)))
        else
          None
      else
        None
  }

  /** A feed with zero or one children yields nothing. */
  lemma TooFewPosts(posts: seq<RawPost>)
    requires |posts| <= 1
    ensures LatestPost(Rendered(posts)) == None
  {
  }

  /** A failed wait or listing, or a second child whose author or message is missing, yields nothing rather than an error. */
  lemma FailureYieldsNothing(page: Page)
    requires page.Failed? ||
      (|page.posts| > 1 && (page.posts[1].author.None? || page.posts[1].body.None?))
    ensures LatestPost(page) == None
  {
  }

  /** Only the child at index 1 matters: the first child and every child after the second are ignored. */
  lemma OnlySecondPostMatters(p: seq<RawPost>, q: seq<RawPost>)
    requires |p| > 1 && |q| > 1 && p[1] == q[1]
    ensures LatestPost(Rendered(p)) == LatestPost(Rendered(q))
  {
  }

  /** The returned texts are exactly the stripped raw texts, and stripping them again changes nothing. */
  lemma ResultIsStripped(page: Page)
    requires LatestPost(page).Some?
    ensures var post := LatestPost(page).value;
      post.author == Strip(page.posts[1].author.value) &&
      post.body == Strip(page.posts[1].body.value) &&
      Strip(post.author) == post.author && Strip(post.body) == post.body
  {
    var post := LatestPost(page).value;
    StripIdempotent(post.author);
    StripIdempotent(post.body);
  }
}
