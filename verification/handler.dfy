/** The webhook handler end to end: the event gate, the patch download, the
    splitter, one review call per chunk, the optional summary call and the
    comment, recorded as the ordered list of outside effects the handler
    performs. */
module Handler {
  import opened Wrappers
  import opened Text
  import opened Splitter
  import opened Review
  import opened Report

  /** What happened to the pull request (the variants the handler tells apart
      are `Closed` and all the others). */
  datatype PullRequestAction = Opened | Edited | Closed | Reopened | Synchronize | OtherAction(name: string)

  /** The fields of the pull request the handler reads. */
  datatype PullRequest = PullRequest(number: nat, title: Option<string>, author: Option<string>)

  /** The webhook payload: a pull-request event, or any other kind of event. */
  datatype Payload =
    | PullRequestEvent(action: PullRequestAction, pullRequest: PullRequest)
    | OtherEvent

  /** The handler's outside collaborators, as their answers:
      the downloaded patch text (`None` when the download fails), the token
      counter, the answer to the i-th review call, and the answer to the
      summary call. */
  datatype Collaborators = Collaborators(
    patch: Option<string>,
    count: TokenCount,
    reviewReply: nat -> Option<string>,
    summaryReply: Option<string>)

  /** An outside action of the handler, in the order performed. */
  datatype Effect =
    | FetchPatch(number: nat)
    | Complete(request: Request)
    | PostComment(number: nat, body: string)

  /** How the handler ended: it ignored the event, crashed on an `unwrap`,
      found no commit in the patch, or posted its report. */
  datatype Status = Ignored | Panicked | NoCommits | Posted

  datatype Outcome = Outcome(status: Status, effects: seq<Effect>)

  /** The event gate: the pull request of a pull-request event that is not a
      close; nothing for every other payload. */
  function Gate(payload: Payload): (pr: Option<PullRequest>)
    ensures pr.Some? <==> payload.PullRequestEvent? && payload.action != Closed
    ensures pr.Some? ==> pr.value == payload.pullRequest
  {
    match payload
    case PullRequestEvent(action, pr) => if action == Closed then None else Some(pr)
    case OtherEvent => None
  }

  function ReviewCalls(session: string, commits: seq<string>): seq<Effect> {
    var requests := ReviewRequests(session, commits);
    seq(|requests|, i requires 0 <= i < |requests| => Complete(requests[i]))
  }

  /** The reviews of the chunks: the answered review calls, in chunk order. */
  function ReviewsOf(commits: seq<string>, env: Collaborators): seq<string> {
    Somes(Answers(|commits|, env.reviewReply))
  }

  function SummaryCalls(session: string, reviews: seq<string>): seq<Effect> {
    if SummaryRequested(reviews) then [Complete(Request(session, SummaryPrompt, Transcript(reviews)))] else []
  }

  /** Everything after the download once there is at least one chunk. */
  function ReviewAndReport(number: nat, commits: seq<string>, env: Collaborators): seq<Effect> {
    var session := SessionId(number);
    var reviews := ReviewsOf(commits, env);
    ReviewCalls(session, commits) + SummaryCalls(session, reviews)
    + [PostComment(number, Compose(reviews, env.summaryReply))]
  }

  /** The handler run on one event. */
  function Handle(payload: Payload, env: Collaborators): (o: Outcome)
    ensures o.status == Ignored <==> Gate(payload).None?
    ensures o.effects != [] ==> payload.PullRequestEvent? && o.effects[0] == FetchPatch(payload.pullRequest.number)
    ensures o.status == Posted ==> |o.effects| >= 3 && o.effects[|o.effects| - 1].PostComment?
    ensures o.status == NoCommits || o.status == Posted ==> env.patch.Some?
  {
    match Gate(payload)
    case None => Outcome(Ignored, [])
    case Some(pr) =>
      if pr.author.None? then Outcome(Panicked, [])
      else
        match env.patch
        case None => Outcome(Panicked, [FetchPatch(pr.number)])
        case Some(text) =>
          var commits := CommitsOf(text, env);
          if |commits| < 1 then Outcome(NoCommits, [FetchPatch(pr.number)])
          else Outcome(Posted, [FetchPatch(pr.number)] + ReviewAndReport(pr.number, commits, env))
  }

  /** The chunks the handler reviews for a downloaded patch. */
  function CommitsOf(text: string, env: Collaborators): seq<string> {
    SplitCommits(Lines(text), env.count)
  }

  function CompletionCount(effects: seq<Effect>): nat
    decreases |effects|
  {
    if effects == [] then 0
    else (if effects[0].Complete? then 1 else 0) + CompletionCount(effects[1..])
  }

  lemma {:induction false} CompletionCountAppend(a: seq<Effect>, b: seq<Effect>)
    ensures CompletionCount(a + b) == CompletionCount(a) + CompletionCount(b)
    decreases |a|
  {
    if a == [] {
      assert a + b == b;
    } else {
      assert (a + b)[1..] == a[1..] + b;
      CompletionCountAppend(a[1..], b);
    }
  }

  lemma {:induction false} CompletionCountAll(effects: seq<Effect>)
    requires forall i :: 0 <= i < |effects| ==> effects[i].Complete?
    ensures CompletionCount(effects) == |effects|
    decreases |effects|
  {
    if effects != [] {
      CompletionCountAll(effects[1..]);
    }
  }

  // ---------------------------------------------------------------------
  // Properties of the handler.

  /** Only a pull-request event that is not a close gets past the gate; any
      other payload ends the handler with no download, no call, no comment. */
  lemma GateOnlyOpenPullRequests(payload: Payload, env: Collaborators)
    ensures Handle(payload, env).status == Ignored
        <==> !(payload.PullRequestEvent? && payload.action != Closed)
    ensures Handle(payload, env).status == Ignored ==> Handle(payload, env).effects == []
    ensures Handle(payload, env).effects != [] ==> Handle(payload, env).effects[0].FetchPatch?
  {
  }

  /** Past the gate, a missing author crashes the handler before the
      download, and a failed download crashes it right after. */
  lemma UnwrapPanics(action: PullRequestAction, pr: PullRequest, env: Collaborators)
    requires action != Closed
    ensures pr.author.None? ==> Handle(PullRequestEvent(action, pr), env) == Outcome(Panicked, [])
    ensures pr.author.Some? && env.patch.None?
        ==> Handle(PullRequestEvent(action, pr), env) == Outcome(Panicked, [FetchPatch(pr.number)])
  {
  }

  /** With an empty text costing less than the ceiling, the handler gives up
      after the download exactly when the patch is empty, before any
      completion call or comment. */
  lemma EmptyPatchAborts(pr: PullRequest, action: PullRequestAction, env: Collaborators)
    requires action != Closed && pr.author.Some? && env.patch.Some?
    requires env.count("") < TokenCeiling
    ensures Handle(PullRequestEvent(action, pr), env).status == NoCommits <==> env.patch.value == ""
    ensures Handle(PullRequestEvent(action, pr), env).status == NoCommits
        ==> Handle(PullRequestEvent(action, pr), env).effects == [FetchPatch(pr.number)]
  {
    ChunkCount(Lines(env.patch.value), env.count);
  }

  /** The effects of a posted report: the download, the review calls, the
      summary calls, the comment. */
  lemma PostedShape(payload: Payload, env: Collaborators)
    requires Handle(payload, env).status == Posted
    ensures var pr := Gate(payload).value;
            var commits := CommitsOf(env.patch.value, env);
            var reviews := ReviewsOf(commits, env);
            && |commits| >= 1
            && Handle(payload, env).effects
               == [FetchPatch(pr.number)]
                  + (ReviewCalls(SessionId(pr.number), commits) + SummaryCalls(SessionId(pr.number), reviews)
                     + [PostComment(pr.number, Compose(reviews, env.summaryReply))])
  {
  }

  /** When a report is posted: the download comes first, then one review call
      per chunk in chunk order, all in session "PR#n", then the summary call
      exactly when more than one review came back, and last the single comment,
      which opens with the preamble. */
  lemma PostedEffects(payload: Payload, env: Collaborators)
    requires Handle(payload, env).status == Posted
    ensures var pr := Gate(payload).value;
            var commits := CommitsOf(env.patch.value, env);
            var reviews := ReviewsOf(commits, env);
            var effects := Handle(payload, env).effects;
            && |commits| >= 1
            && |effects| == |commits| + (if SummaryRequested(reviews) then 1 else 0) + 2
            && effects[0] == FetchPatch(pr.number)
            && (forall i :: 0 <= i < |commits| ==>
                  effects[1 + i] == Complete(Request(SessionId(pr.number), ReviewPrompt, commits[i])))
            && (SummaryRequested(reviews) ==>
                  effects[1 + |commits|] == Complete(Request(SessionId(pr.number), SummaryPrompt, Transcript(reviews))))
            && effects[|effects| - 1] == PostComment(pr.number, Compose(reviews, env.summaryReply))
            && StartsWith(effects[|effects| - 1].body, Preamble)
  {
    PostedShape(payload, env);
  }

  /** Completion calls made for a posted report: one per chunk, plus the
      summary call when more than one review came back. */
  lemma PostedCompletionCount(payload: Payload, env: Collaborators)
    requires Handle(payload, env).status == Posted
    ensures var commits := CommitsOf(env.patch.value, env);
            CompletionCount(Handle(payload, env).effects)
            == |commits| + (if |ReviewsOf(commits, env)| > 1 then 1 else 0)
  {
    PostedShape(payload, env);
    var pr := Gate(payload).value;
    var commits := CommitsOf(env.patch.value, env);
    var session := SessionId(pr.number);
    var reviews := ReviewsOf(commits, env);
    var reviewCalls, summaryCalls := ReviewCalls(session, commits), SummaryCalls(session, reviews);
    var fetch, post := [FetchPatch(pr.number)], [PostComment(pr.number, Compose(reviews, env.summaryReply))];
    CompletionCountAll(reviewCalls);
    CompletionCountAll(summaryCalls);
    CompletionCountAppend(reviewCalls, summaryCalls);
    CompletionCountAppend(reviewCalls + summaryCalls, post);
    CompletionCountAppend(fetch, reviewCalls + summaryCalls + post);
    assert CompletionCount(post) == 0;
    assert CompletionCount(fetch) == 0;
  }

  /** A patch of k >= 2 commits (it opens with a "From " line and holds k of
      them) on an open pull request, every review call answered: k review
      calls, then the summary call, then the comment. */
  lemma SeveralCommitsAllAnswered(payload: Payload, env: Collaborators, k: nat)
    requires payload.PullRequestEvent? && payload.action != Closed && payload.pullRequest.author.Some?
    requires env.patch.Some? && env.count("") < TokenCeiling
    requires Lines(env.patch.value) != [] && IsMarker(Lines(env.patch.value)[0])
    requires CountMarkers(Lines(env.patch.value)) == k >= 2
    requires forall i: nat :: env.reviewReply(i).Some?
    ensures Handle(payload, env).status == Posted
    ensures |Handle(payload, env).effects| == k + 3
    ensures CompletionCount(Handle(payload, env).effects) == k + 1
    ensures Handle(payload, env).effects[k + 1].Complete?
         && Handle(payload, env).effects[k + 1].request.prompt == SummaryPrompt
    ensures Handle(payload, env).effects[k + 2].PostComment?
  {
    var commits := CommitsOf(env.patch.value, env);
    ChunkCount(Lines(env.patch.value), env.count);
    assert |commits| == k;
    var answers := Answers(k, env.reviewReply);
    SomesContents(answers);
    assert |ReviewsOf(commits, env)| == k;
    PostedEffects(payload, env);
    PostedCompletionCount(payload, env);
  }
}
