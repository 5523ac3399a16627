/** Review collection: one completion request per chunk, in chunk order, all in
    the pull request's session; the answers that came back are kept in order
    and also written into a "------"-delimited transcript for the summary. */
module Review {
  import opened Wrappers
  import opened Decimal

  /** The two fixed system instructions (their wording is not modelled). */
  datatype Prompt = ReviewPrompt | SummaryPrompt

  /** One call to the completion service. */
  datatype Request = Request(session: string, prompt: Prompt, message: string)

  /** The session id of pull request `number`: "PR#" and its decimal digits. */
  function SessionId(number: nat): (id: string)
    ensures |id| > 3 && id[..3] == "PR#"
    ensures AllDigits(id[3..])
  {
    "PR#" + NatToString(number)
  }

  /** Different pull requests never share a session. */
  lemma SessionIdInjective(a: nat, b: nat)
    ensures SessionId(a) == SessionId(b) <==> a == b
  {
    assert SessionId(a)[3..] == NatToString(a);
    assert SessionId(b)[3..] == NatToString(b);
    NatToStringInjective(a, b);
  }

  /** The request sent for every chunk, in chunk order. */
  function ReviewRequests(session: string, commits: seq<string>): seq<Request> {
    seq(|commits|, i requires 0 <= i < |commits| => Request(session, ReviewPrompt, commits[i]))
  }

  /** The service's answer to each of the first `n` review calls. */
  function Answers(n: nat, reply: nat -> Option<string>): seq<Option<string>> {
    seq(n, (i: nat) => reply(i))
  }

  /** The answers that came back, in order; failed calls are skipped. */
  function Somes(answers: seq<Option<string>>): (reviews: seq<string>)
    ensures |reviews| <= |answers|
    ensures forall r :: r in reviews ==> Some(r) in answers
    decreases |answers|
  {
    if answers == [] then []
    else (if answers[0].Some? then [answers[0].value] else []) + Somes(answers[1..])
  }

  /** Start of every review in the transcript. */
  const Delimiter: string := "------\n"

  /** Every review behind a delimiter line and followed by a newline. */
  function Transcript(reviews: seq<string>): (t: string)
    ensures t == "" <==> reviews == []
    ensures reviews != [] ==> |t| > |Delimiter| && t[..|Delimiter|] == Delimiter
    decreases |reviews|
  {
    if reviews == [] then "" else Delimiter + reviews[0] + "\n" + Transcript(reviews[1..])
  }

  /** Collecting over two runs of answers is collecting over each, in order. */
  lemma {:induction false} SomesAppend(a: seq<Option<string>>, b: seq<Option<string>>)
    ensures Somes(a + b) == Somes(a) + Somes(b)
    decreases |a|
  {
    if a == [] {
      assert a + b == b;
    } else {
      assert (a + b)[1..] == a[1..] + b;
      SomesAppend(a[1..], b);
    }
  }

  /** At most one review per chunk, exactly one per chunk when every call
      answered, and the reviews are precisely the answers that came back. */
  lemma {:induction false} SomesContents(answers: seq<Option<string>>)
    ensures |Somes(answers)| <= |answers|
    ensures |Somes(answers)| == |answers| <==> forall i :: 0 <= i < |answers| ==> answers[i].Some?
    ensures forall r :: r in Somes(answers) <==> Some(r) in answers
    decreases |answers|
  {
    if answers != [] {
      SomesContents(answers[1..]);
      assert forall x :: x in answers <==> x == answers[0] || x in answers[1..];
      if |Somes(answers)| == |answers| {
        forall i | 0 <= i < |answers|
          ensures answers[i].Some?
        {
          if i > 0 {
            assert answers[i] == answers[1..][i - 1];
          }
        }
      }
    }
  }

  /** When every call answered, review i is answer i. */
  lemma {:induction false} SomesAllAnswered(answers: seq<Option<string>>)
    requires forall i :: 0 <= i < |answers| ==> answers[i].Some?
    ensures |Somes(answers)| == |answers|
    ensures forall i :: 0 <= i < |answers| ==> Somes(answers)[i] == answers[i].value
    decreases |answers|
  {
    if answers != [] {
      SomesAllAnswered(answers[1..]);
      forall i | 0 <= i < |answers|
        ensures Somes(answers)[i] == answers[i].value
      {
        if i > 0 {
          assert answers[i] == answers[1..][i - 1];
        }
      }
    }
  }

  lemma {:induction false} TranscriptAppend(a: seq<string>, b: seq<string>)
    ensures Transcript(a + b) == Transcript(a) + Transcript(b)
    decreases |a|
  {
    if a == [] {
      assert a + b == b;
    } else {
      assert (a + b)[1..] == a[1..] + b;
      TranscriptAppend(a[1..], b);
    }
  }

  /** The review loop: one request per chunk in order, the answered reviews
      kept in order, and the transcript of exactly those reviews. */
  method ReviewCommits(session: string, commits: seq<string>, reply: nat -> Option<string>)
    returns (requests: seq<Request>, reviews: seq<string>, reviewsText: string)
    ensures |requests| == |commits|
    ensures forall i :: 0 <= i < |commits| ==> requests[i] == Request(session, ReviewPrompt, commits[i])
    ensures reviews == Somes(Answers(|commits|, reply))
    ensures reviewsText == Transcript(reviews)
  {
    requests, reviews, reviewsText := [], [], "";
    for i := 0 to |commits|
      invariant |requests| == i
      invariant forall j :: 0 <= j < i ==> requests[j] == Request(session, ReviewPrompt, commits[j])
      invariant reviews == Somes(Answers(i, reply))
      invariant reviewsText == Transcript(reviews)
    {
      requests := requests + [Request(session, ReviewPrompt, commits[i])];
      var answer := reply(i);
      assert Answers(i + 1, reply) == Answers(i, reply) + [answer];
      SomesAppend(Answers(i, reply), [answer]);
      assert Somes([answer]) == (if answer.Some? then [answer.value] else []);
      if answer.Some? {
        reviewsText := reviewsText + Delimiter + answer.value + "\n";
        TranscriptAppend(reviews, [answer.value]);
        assert Transcript([answer.value]) == Delimiter + answer.value + "\n" + Transcript([]);
        reviews := reviews + [answer.value];
      }
    }
  }
}
