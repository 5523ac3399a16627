# Pull-request review bot: chunking and report pipeline

A Dafny model of the `handler` of a serverless GitHub bot, `src/lib.rs`. The bot
reacts to pull-request webhook events. It downloads the pull request's patch and
cuts it into per-commit chunks at the `"From "` lines that open each commit of a
mailbox-format patch. A line is appended to a chunk only while the chunk built
so far counts fewer than 3800 tokens, so the last line accepted may take the
chunk past that count. The bot asks a completion service to review every
chunk, and asks for a summary when more than one review came back. It then
posts one comment: a fixed preamble, the optional summary followed by a
`## Details` heading, then one `### Commit i` section per review, numbered
from 1.

The model is functional. Its outside collaborators are parameters:

- the downloaded patch text (`None` when the download fails);
- the token counter, an abstract `string -> nat`;
- the completion service, given as its answers: `reviewReply(i)` answers the
  i-th review call, and `summaryReply` answers the summary call. Answers may
  depend on anything the service remembers, so the model places no constraint
  on them.

The handler's outside actions (download, completion calls, comment) are
returned as an ordered list of effects, so the lemmas can say which calls
happen and in what order.

Modules, one per component:

- `Wrappers`: `Option`.
- `Decimal`: decimal rendering of numbers, used for `"PR#{n}"` and `"### Commit {i}"`.
- `Text`: prefix test, newline-terminated joining, and Rust's `str::lines()`.
- `Splitter`: the commit-splitting loop. It comes with an independent reference
  definition: the lines cut into marker groups (`Groups`), each group cut to its
  longest accepted prefix (`KeptFrom`). A theorem proves the loop equals the
  reference.
- `Review`: one request per chunk in session `"PR#n"`, the answered reviews in
  order, and the `"------"`-delimited transcript sent to the summary call.
- `Report`: composition of the comment.
- `Handler`: the event gate and the whole pipeline as a list of effects.

Three behaviours of the code that are easy to misread:

- The `"From "` line is the first line of the chunk it opens: `clear()` at
  src/lib.rs:111 empties the chunk and control falls through to the append at
  src/lib.rs:117-120.
- Every completion call passes `restart: true` (src/lib.rs:151-155, 169-173),
  so the review calls of one pull request do not build on each other. The
  model places no constraint on the answers either way.
- A pull request without an author makes `unwrap` panic (src/lib.rs:78). The
  model records a `Panicked` outcome with no effects.

## Model

| member | source | states |
|---|---|---|
| Handler.Gate | src/lib.rs:62-81 | A pull request comes through the gate exactly for a pull-request event whose action is not `Closed`, and it is the event's own pull request. |
| Handler.Handle | src/lib.rs:62-186 | The run is ignored exactly when the gate lets nothing through. Any run with an effect starts with the download of the event's pull request. A posted run has at least three effects and ends with the comment. Stopping for lack of commits, or posting, needs a downloaded patch. |
| Decimal.NatToString | src/lib.rs:82 | The decimal form of a number is at least one digit, all digits, with no leading zero. |
| Review.SessionId | src/lib.rs:82 | The session id is `"PR#"` followed by one or more decimal digits. |
| Splitter.Step | src/lib.rs:104-120 | A `"From "` line closes the current chunk, if non-empty, and starts a new one that holds the line exactly when the empty text is under the ceiling. Any other line is appended to the current chunk exactly when the chunk so far counts under 3800 tokens, and is dropped otherwise. |
| Splitter.SplitCommits | src/lib.rs:101-128 | The loop over the lines, then the last non-empty chunk stored, gives at most one chunk per line. |
| Splitter.OneMarkerPerChunk | src/lib.rs:103-128 | Every chunk is the first m >= 1 lines of one marker group of the input, each followed by a newline, and none of those lines after the first starts with `"From "`: a chunk never spans two commits. |
| Review.Somes | src/lib.rs:156-162 | The collected reviews are no more than the calls, and each is the answer of some call. |
| Review.Transcript | src/lib.rs:158-160 | The transcript is empty exactly when there are no reviews. Otherwise it opens with the `"------\n"` delimiter. |
| Report.Sections | src/lib.rs:180-184 | The sections are empty exactly when there are no reviews. Otherwise they open with `"### Commit " + first + "\n"` and the first review. |
| Handler.GateOnlyOpenPullRequests | src/lib.rs:62-81 | The handler ignores the event exactly when the payload is not a pull-request event or its action is `Closed`. An ignored event has no effects at all. Every run that has an effect starts with the download. |
| Handler.UnwrapPanics | src/lib.rs:74-99 | Past the gate, a missing author panics before any effect, and a failed download panics right after the download. |
| Review.SessionIdInjective | src/lib.rs:82 | The session id `"PR#" + n` is different for different pull-request numbers. |
| Decimal.ParseNatToString | src/lib.rs:82 | Reading back the decimal rendering of a number gives the number. |
| Decimal.NatToStringInjective | src/lib.rs:82 | Two numbers render to the same digits exactly when they are equal. |
| Text.Lines | src/lib.rs:103 | `str::lines()` gives no lines exactly for the empty text. No line holds a newline. |
| Text.LinesOfJoin | src/lib.rs:103 | Splitting the newline-terminated join of lines (no CR or LF inside) gives back those lines. |
| Text.JoinOfLines | src/lib.rs:103 | For a text without CR that is empty or ends in a newline, joining its lines, each followed by a newline, gives back the text. |
| Splitter.GroupsShape | src/lib.rs:103-112 | Marker groups are one leading group with no markers, then one group per `"From "` line. Each of those starts with its marker and holds no other marker. Flattened in order, the groups are exactly the input lines. |
| Splitter.KeptFrom | src/lib.rs:113-120 | Each accepted line was appended while the token count of the chunk so far was below 3800. Acceptance stops at the first prefix whose count reaches 3800, or at the end of the group. |
| Splitter.Chunks | src/lib.rs:106-108 | Every chunk is non-empty, ends with a newline, and there are at most as many chunks as groups. |
| Splitter.SplitCommitsIsChunksOfGroups | src/lib.rs:101-128 | For every token counter, the loop's output equals the reference: the marker groups in order, each cut to its longest accepted prefix, empty results left out. |
| Splitter.SplitPatch | src/lib.rs:101-128 | The imperative loop, statement for statement, returns the reference chunking. All its chunks are non-empty and end with a newline. |
| Splitter.ChunksArePrefixesOfGroups | src/lib.rs:104-128 | Each chunk is the first m >= 1 lines of one marker group, each followed by a newline. Each chunk is non-empty and ends with a newline. |
| Splitter.ChunkCount | src/lib.rs:103-134 | If the empty text is under the ceiling, there is one chunk per `"From "` line, plus one if the first line is not a marker. So there are no chunks exactly when the patch has no lines. |
| Splitter.LaterChunksStartWithMarker | src/lib.rs:104-120 | If the empty text is under the ceiling, every chunk after the first starts with `"From "`. |
| Splitter.SplitLossless | src/lib.rs:101-128 | The chunks, concatenated in order, equal the input lines each followed by a newline, exactly when no group dropped a line. They are never longer than that. |
| Review.SomesAppend | src/lib.rs:156-162 | Collecting the answered reviews over two runs of calls gives the reviews of the first run, then those of the second. |
| Review.SomesContents | src/lib.rs:156-162 | There are at most as many reviews as chunks, with equality exactly when every call was answered. A text is a review exactly when some call returned it. |
| Review.SomesAllAnswered | src/lib.rs:156-162 | When every call is answered, review i is the answer to call i. |
| Review.TranscriptAppend | src/lib.rs:158-160 | The `"------\n"`-delimited transcript of two runs of reviews is the transcript of the first run followed by that of the second. |
| Review.ReviewCommits | src/lib.rs:136-163 | The review loop makes one request per chunk, in chunk order, with the session id and the review prompt. It keeps the answered reviews in order. Its transcript holds exactly those reviews. |
| Report.SectionsAppend | src/lib.rs:180-184 | Section numbering continues across a split of the reviews. |
| Report.SectionAt | src/lib.rs:180-184 | Review i (0-based) appears as the section `"### Commit " + (i+1)`. It sits between the sections of the reviews before it and after it. |
| Report.Compose | src/lib.rs:165-184 | Every report starts with the fixed preamble. With zero reviews, the report is exactly the preamble. |
| Report.ComposeOneReview | src/lib.rs:165-184 | With one review there is no summary and no `## Details`. The report is the preamble and `"### Commit 1\n" + review + "\n\n"`. |
| Report.ComposeWithSummary | src/lib.rs:167-184 | With several reviews and an answered summary call, the report is the preamble, the summary, `"\n\n## Details\n\n"`, then the numbered sections. |
| Report.ComposeWithoutSummary | src/lib.rs:165-184 | With at most one review or an unanswered summary call, the numbered sections follow the preamble directly. |
| Handler.EmptyPatchAborts | src/lib.rs:101-134 | If the empty text is under the ceiling, the handler stops after the download exactly when the patch is empty. It then makes no completion call and posts no comment. |
| Handler.PostedShape | src/lib.rs:136-186 | A posted run is the download, then the review calls, then the summary calls, then the comment. |
| Handler.PostedEffects | src/lib.rs:136-186 | The download comes first. Then there is one review call per chunk, in chunk order, in session `"PR#n"`. The summary call over the transcript follows exactly when more than one review came back. Last comes the single comment, which starts with the preamble. |
| Handler.PostedCompletionCount | src/lib.rs:138-179 | A posted run makes one completion call per chunk, plus one if more than one review came back. |
| Handler.SeveralCommitsAllAnswered | src/lib.rs:101-186 | Suppose the patch starts with a `"From "` line, holds k >= 2 of them, and every review call is answered. Then the run has k review calls, the summary call, and the comment: k + 3 effects, k + 1 of them completion calls. |

## Left out

- `run` and its environment-variable defaults and event subscription (src/lib.rs:18-47): configuration and event-loop plumbing.
- The patch URL, the HTTP request and `from_utf8_lossy` (src/lib.rs:84-99): network I/O. The model takes the decoded text as a parameter, with `None` for a failed request.
- The URI parse `unwrap` (src/lib.rs:90): the model does not decide which owner and repository names give an invalid URI.
- Slack messages and error-log writes (src/lib.rs:65, 89, 124-125, 132, 157, 175): logging only.
- The tiktoken cl100k encoder (src/lib.rs:59, 115): a foreign library, modelled as an abstract token counter. Lemmas that need it assume the empty text counts below 3800; the real encoder gives 0 tokens for it.
- The wording of the two system prompts and the chat options, model GPT-3.5 and `restart: true` (src/lib.rs:139-155, 168-173): constant inputs to the external service. The prompts are modelled as two tags.
- The internals of `chat_completion` (src/lib.rs:156, 174): an external service, modelled as free answers.
- `create_comment` and its `unwrap` (src/lib.rs:186): the model ends with the comment effect and its body.
- The pull-request title (src/lib.rs:76): the handler reads it but never uses it.
- Text.Lines: models current Rust `str::lines()`, which strips a carriage return only when a newline follows it. Older Rust also stripped a bare trailing carriage return on the last line; that case is not modelled.
- u64 pull-request numbers are modelled as unbounded `nat`. Numbers are only rendered, never computed with, so this loses nothing.
- async/tokio: one event is handled sequentially, with no concurrency.
