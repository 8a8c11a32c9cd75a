# Facebook group post monitor: post selection and change detection

`pk.py` polls a Facebook group page: each minute it opens a fresh browser,
loads cookies, navigates to the group, takes the author and text of the
second post in the feed (`get_latest_post`) and compares them with the last
post it saw (`monitor_group`). This project models the part of that script
that makes decisions:

- `Text` (text.dfy): Python's `str.strip()` over the character set of
  `str.isspace()`, with its characterisation: the result has no outer
  whitespace, is cut out of the input between whitespace-only ends, is the
  only such core, and stripping twice changes nothing.
- `Extractor` (extractor.dfy): `get_latest_post` as a function from an
  abstract page snapshot to `Option<Post>`. A page is either `Failed` (the
  wait for the feed container timed out, or listing the feed's children
  raised) or `Rendered` with the feed's children in document order; a
  child's author or message is `None` when its sub-element could not be
  found or read. `None` as the result stands for the pair `(None, None)`.
- `Monitor` (monitor.dfy): the state `(last_sender, last_post_content)`, the
  pure step `Step(state, extraction) -> (verdict, state)` with its three
  outcomes (no post, new post, same post), a reference definition
  `LastPresent` (the most recent present post) and the method `MonitorGroup`,
  which runs the polling loop over a finite sequence of page snapshots,
  updating the two variables through `Step`, and is proved to end in
  `LastPresent` of what it extracted and to give each poll the verdict `Step`
  gives against the history before it.
- `Options` (options.dfy): the `Option` datatype standing for Python's `None`.

Three points where this code differs from what a reader might assume of a
post monitor; the model follows the code:

- A notifier is often assumed; this code has none. Detection of a new post
  only prints it (pk.py:102). `NewPost` is a verdict and nothing more.
- One might expect only a field that cannot be located to count as absent.
  The code also treats an empty field as "no new post", because `sender_name
  and post_content` is false for the empty string; a field that is
  whitespace only strips to the empty string. `Monitor.Present` follows the
  code.
- One might expect any error in an iteration to be caught so that polling
  goes on. Only `get_latest_post` (pk.py:80-82) and `load_cookies`
  (pk.py:39-50) catch their errors.
  `setup_driver()` (pk.py:91), the navigation in `access_group` (pk.py:55,
  called at pk.py:94) and `driver.quit()` (pk.py:111) are unguarded: an
  exception from any of them ends `monitor_group`, and the driver of that
  iteration is not quit.

## Model

| member | source | states |
|---|---|---|
| `Text.TrimStart` | pk.py:73 | the leading half of `strip()`: the result is a suffix of the input, everything cut is whitespace, and the result does not start with whitespace |
| `Text.TrimEnd` | pk.py:76 | the trailing half of `strip()`: the result is a prefix of the input, everything cut is whitespace, and the result does not end with whitespace |
| `Text.Strip` | pk.py:73 | `strip()` returns a text with no leading or trailing whitespace that is the input with whitespace-only ends removed |
| `Text.StripUnique` | pk.py:76 | whitespace ends around a core without outer whitespace strip to exactly that core, so the result of `strip()` is determined |
| `Text.StripIdempotent` | pk.py:73 | a text without outer whitespace is left unchanged, so stripping an already stripped text changes nothing |
| `Text.StripEmpty` | pk.py:99 | `strip()` yields the empty (falsy) string exactly when the text is whitespace only |
| `Extractor.LatestPost` | pk.py:59-82 | a post is returned exactly when the feed appeared and was listed, has more than one child and the second child has both sub-elements; its author and body have no outer whitespace and are the stripped texts of child 1 |
| `Extractor.TooFewPosts` | pk.py:69-79 | a feed with zero or one children yields `(None, None)` |
| `Extractor.FailureYieldsNothing` | pk.py:61-82 | a timed-out wait or failed listing of the feed, or a missing author or message element of child 1, yields `(None, None)` instead of an error |
| `Extractor.OnlySecondPostMatters` | pk.py:67-78 | two feeds with the same child at index 1 give the same result, whatever child 0 and the children after index 1 are |
| `Extractor.ResultIsStripped` | pk.py:73-78 | the returned author and body are `strip()` of the raw texts of child 1, and stripping them again changes nothing |
| `Monitor.Step` | pk.py:99-108 | "no post" exactly when a field is `None` or empty; "new" exactly when both are present and the remembered pair differs in either field; afterwards the state is the present post, or unchanged when there is none |
| `Monitor.AbsentLeavesState` | pk.py:99-108 | a `None` or empty field gives "no post" and leaves `(last_sender, last_post_content)` unchanged |
| `Monitor.EitherFieldIsNew` | pk.py:100-104 | both fields present and either one different gives "new" and the state becomes exactly `(sender_name, post_content)` |
| `Monitor.BothEqualIsDuplicate` | pk.py:100-106 | both fields present and both equal to the remembered ones gives "same post" and an unchanged state |
| `Monitor.RepeatIsDuplicate` | pk.py:99-106 | the same extraction fed twice in a row gives "same post" (or "no post" if absent) the second time, with no state change |
| `Monitor.StepTracksLastPresent` | pk.py:99-108 | one step from the most recent present post of a history yields the most recent present post of the history extended by one poll |
| `Monitor.NothingPresentIsInitial` | pk.py:86-87 | while no poll has produced a present post, the state is still `(None, None)` |
| `Monitor.FirstPresentIsNew` | pk.py:86-104 | starting from `(None, None)`, the first present post is always classified "new" |
| `Monitor.LastPresentWellFormed` | pk.py:96-104 | the state is always `(None, None)` or a pair of non-empty texts without outer whitespace |
| `Monitor.AliceScenario` | pk.py:99-108 | four polls: a feed with a single child extracts nothing and leaves the initial state; ("Alice", "Hello") is new from the initial state, the same again is a duplicate, and ("Alice", "Hello world") is new |
| `Monitor.MonitorGroup` | pk.py:84-113 | the polling loop over a finite run ends with `(last_sender, last_post_content)` equal to the most recent present extracted post (or `(None, None)`), and each poll's verdict is that of `Step` against the state left by the polls before it |

## Left out

- Browser set-up (`setup_driver`, pk.py:23-35): Chrome options, environment lookup and driver construction are foreign library calls.
- Cookie loading (`load_cookies`, pk.py:37-50): file reading, JSON decoding and `add_cookie`; its error handling only prints.
- Navigation (`access_group`, pk.py:52-57): page loading and the fixed five-second sleep; when it succeeds, the page that results is the input `Extractor.Page`, and when it raises, polling ends (see the third point above), which the model does not represent as a step.
- The 15-second `WebDriverWait`, the CSS selectors and `find_elements` / `find_element` / `.text` (pk.py:62-76): replaced by the abstract `Page` (`Failed` for a timeout or a failing `find_elements`, or the list of children) and `RawPost` (a `None` field is an element that could not be found or read).
- `driver.quit()` and the 60-second sleep (pk.py:111-113): resource handling and timing with no effect on the decisions.
- Log and print output, the `logging` set-up and `load_dotenv` (pk.py:14-20, pk.py:81, pk.py:102, pk.py:106, pk.py:108): the verdict stands in for the message printed.
- Monitor.MonitorGroup: runs over a finite sequence of snapshots. The source's `while True` never ends normally, but it does end on an uncaught exception from browser set-up, navigation or `driver.quit()`; a finite run stands for the polls completed before such an exception (or any prefix of a run that never meets one).
- A notifier or HTTP delivery: the code has none.
