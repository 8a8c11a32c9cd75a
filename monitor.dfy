/**
 * The change detector inside `monitor_group`: the remembered sender and post
 * content, the per-poll decision, and the polling loop run over a finite
 * sequence of page snapshots.
 */
module Monitor {
  import opened Options
  import opened Extractor
  import opened Text

  /** What one poll concludes; only `NewPost` changes what is remembered. */
  datatype Verdict = NoPost | NewPost | SamePost

  /** `(last_sender, last_post_content)`. */
  datatype Seen = Seen(lastSender: Option<string>, lastContent: Option<string>)

  /** Both start out as `None`. */
  const Initial: Seen := Seen(None, None)

  /** Python truthiness of `sender_name and post_content`: `None` and the empty string are false. */
  predicate Present(x: Option<Post>) {
    x.Some? && x.value.author != "" && x.value.body != ""
  }

  /** The state that remembers post `p`. */
  function Remember(p: Post): Seen {
    Seen(Some(p.author), Some(p.body))
  }

  /**
   * One iteration's comparison and update. Novelty is a difference in either
   * field; a missing or empty field leaves the state alone.
   */
  function Step(s: Seen, x: Option<Post>): (r: (Verdict, Seen))
    ensures r.0 == NoPost <==> !Present(x)
    ensures r.0 == NewPost <==> Present(x) && Remember(x.value) != s
    ensures r.1 == if Present(x) then Remember(x.value) else s
  {
    if Present(x) then
      if Some(x.value.author) != s.lastSender || Some(x.value.body) != s.lastContent then
        (NewPost, Remember(x.value))
      else
        (SamePost, s)
    else
      (NoPost, s)
  }

  /** A missing or empty field: verdict `NoPost`, state unchanged. */
  lemma AbsentLeavesState(s: Seen, x: Option<Post>)
    requires x.None? || x.value.author == "" || x.value.body == ""
    ensures Step(s, x) == (NoPost, s)
  {
  }

  /** Both fields present and either one differs from what is remembered: `NewPost`, and exactly this post is remembered. */
  lemma EitherFieldIsNew(s: Seen, p: Post)
    requires p.author != "" && p.body != ""
    requires Some(p.author) != s.lastSender || Some(p.body) != s.lastContent
    ensures Step(s, Some(p)) == (NewPost, Seen(Some(p.author), Some(p.body)))
  {
  }

  /** Both fields present and both equal to what is remembered: `SamePost`, state unchanged. */
  lemma BothEqualIsDuplicate(s: Seen, p: Post)
    requires p.author != "" && p.body != ""
    requires Some(p.author) == s.lastSender && Some(p.body) == s.lastContent
    ensures Step(s, Some(p)) == (SamePost, s)
  {
  }

  /** Feeding the same extraction twice in a row: the second step is `SamePost` (or `NoPost` if it was absent) and changes nothing. */
  lemma RepeatIsDuplicate(s: Seen, x: Option<Post>)
    ensures var t := Step(s, x).1;
      Step(t, x) == (if Present(x) then SamePost else NoPost, t)
  {
  }

  /** The extraction result of each snapshot, in order. */
  function Polled(pages: seq<Page>): seq<Option<Post>> {
    if pages == [] then []
    else Polled(pages[..|pages| - 1]) + [LatestPost(pages[|pages| - 1])]
  }

  /** Reference definition of the remembered state: the most recent present post, or `Initial` when there was none. */
  function LastPresent(xs: seq<Option<Post>>): Seen {
    if xs == [] then Initial
    else if Present(xs[|xs| - 1]) then Remember(xs[|xs| - 1].value)
    else LastPresent(xs[..|xs| - 1])
  }

  /** One step from the reference state gives the reference state of the longer history. */
  lemma StepTracksLastPresent(xs: seq<Option<Post>>, x: Option<Post>)
    ensures Step(LastPresent(xs), x).1 == LastPresent(xs + [x])
  {
    assert (xs + [x])[..|xs|] == xs;
  }

  /** With no present post so far, the remembered state is still the initial one. */
  lemma {:induction false} NothingPresentIsInitial(xs: seq<Option<Post>>)
    requires forall i :: 0 <= i < |xs| ==> !Present(xs[i])
    ensures LastPresent(xs) == Initial
    decreases |xs|
  {
    if xs != [] {
      NothingPresentIsInitial(xs[..|xs| - 1]);
    }
  }

  /** From the initial state, the first present post is always `NewPost`. */
  lemma FirstPresentIsNew(xs: seq<Option<Post>>, x: Option<Post>)
    requires forall i :: 0 <= i < |xs| ==> !Present(xs[i])
    requires Present(x)
    ensures Step(LastPresent(xs), x).0 == NewPost
  {
    NothingPresentIsInitial(xs);
  }

  /** The remembered state is either the initial one or a pair of non-empty stripped texts. */
  ghost predicate WellFormed(s: Seen) {
    s == Initial ||
    (s.lastSender.Some? && s.lastContent.Some? &&
     s.lastSender.value != "" && s.lastContent.value != "" &&
     NoOuterSpace(s.lastSender.value) && NoOuterSpace(s.lastContent.value))
  }

  /** Every state the loop reaches is well formed. */
  lemma {:induction false} LastPresentWellFormed(pages: seq<Page>)
    ensures WellFormed(LastPresent(Polled(pages)))
    decreases |pages|
  {
    if pages != [] {
      var init := Polled(pages[..|pages| - 1]);
      var x := LatestPost(pages[|pages| - 1]);
      assert (init + [x])[..|init|] == init;
      if !Present(x) {
        LastPresentWellFormed(pages[..|pages| - 1]);
      }
    }
  }

  /**
   * Four polls: a feed with one child (nothing extracted), then Alice's post
   * "Hello" twice, then the same author with the edited text "Hello world".
   */
  lemma AliceScenario()
    ensures var hello := Some(Post("Alice", "Hello"));
      var edited := Some(Post("Alice", "Hello world"));
      Step(Initial, LatestPost(Rendered([RawPost(Some("Alice"), Some("Pinned"))]))) == (NoPost, Initial) &&
      Step(Initial, hello) == (NewPost, Seen(Some("Alice"), Some("Hello"))) &&
      Step(Seen(Some("Alice"), Some("Hello")), hello).0 == SamePost &&
      Step(Seen(Some("Alice"), Some("Hello")), edited) == (NewPost, Seen(Some("Alice"), Some("Hello world")))
  {
  }

  /**
   * `monitor_group`, run over a finite sequence of page snapshots instead of
   * forever: each iteration extracts, classifies with `Step` and updates
   * `last_sender` and `last_post_content`.
   */
  method MonitorGroup(pages: seq<Page>)
    returns (verdicts: seq<Verdict>, lastSender: Option<string>, lastPostContent: Option<string>)
    ensures |verdicts| == |pages|
    ensures Seen(lastSender, lastPostContent) == LastPresent(Polled(pages))
    ensures forall i :: 0 <= i < |pages| ==>
      verdicts[i] == Step(LastPresent(Polled(pages[..i])), LatestPost(pages[i])).0
  {
    lastSender, lastPostContent := None, None;
    verdicts := [];
    for i := 0 to |pages|
      invariant |verdicts| == i
      invariant Seen(lastSender, lastPostContent) == LastPresent(Polled(pages[..i]))
      invariant forall k :: 0 <= k < i ==>
        verdicts[k] == Step(LastPresent(Polled(pages[..k])), LatestPost(pages[k])).0
    {
      var post := LatestPost(pages[i]);
      var (verdict, seen) := Step(Seen(lastSender, lastPostContent), post);
      assert pages[..i + 1][..i] == pages[..i];
      StepTracksLastPresent(Polled(pages[..i]), post);
      verdicts := verdicts + [verdict];
      lastSender, lastPostContent := seen.lastSender, seen.lastContent;
    }
    assert pages[..|pages|] == pages;
  }
}
