/** Composition of the comment posted on the pull request: a fixed preamble,
    then the summary and a "## Details" heading when there was more than one
    review and the summary call answered, then one numbered section per review. */
module Report {
  import opened Wrappers
  import opened Decimal
  import opened Text

  /** The fixed opening of every report. */
  const Preamble: string := "Hello, I am a [serverless review bot](https://github.com/flows-network/github-pr-summary/) on [flows.network](https://flows.network/). Here are my reviews of code commits in this PR.\n\n------\n\n"

  /** Follows the summary, before the per-commit sections. */
  const DetailsHeading: string := "\n\n## Details\n\n"

  /** The section of the review numbered `n`. */
  function Section(n: nat, review: string): string {
    "### Commit " + NatToString(n) + "\n" + review + "\n\n"
  }

  /** The reviews as sections numbered from `first` on. */
  function Sections(reviews: seq<string>, first: nat): (s: string)
    ensures s == "" <==> reviews == []
    ensures reviews != [] ==> StartsWith(s, "### Commit " + NatToString(first) + "\n" + reviews[0])
    decreases |reviews|
  {
    if reviews == [] then ""
    else
      var head, rest := Section(first, reviews[0]), Sections(reviews[1..], first + 1);
      PrefixOfAppend("### Commit " + NatToString(first) + "\n" + reviews[0], "\n\n");
      StartsWithExtend(head, rest, "### Commit " + NatToString(first) + "\n" + reviews[0]);
      head + rest
  }

  /** The summary call is made only for more than one review. */
  predicate SummaryRequested(reviews: seq<string>) {
    |reviews| > 1
  }

  /** The report; `summary` is the summary call's answer, read only when the
      call is made. Every report opens with the preamble; with no review it is
      nothing else. */
  function Compose(reviews: seq<string>, summary: Option<string>): (r: string)
    ensures StartsWith(r, Preamble)
    ensures reviews == [] ==> r == Preamble
  {
    PrefixOfAppend(Preamble, Body(reviews, summary));
    Preamble + Body(reviews, summary)
  }

  /** Everything after the preamble. */
  function Body(reviews: seq<string>, summary: Option<string>): string {
    SummaryPart(reviews, summary) + Sections(reviews, 1)
  }

  /** The summary and its heading, present only when the summary was
      requested and answered. */
  function SummaryPart(reviews: seq<string>, summary: Option<string>): string {
    if SummaryRequested(reviews) && summary.Some? then summary.value + DetailsHeading else ""
  }

  /** Numbering continues across a split of the reviews. */
  lemma {:induction false} SectionsAppend(a: seq<string>, b: seq<string>, first: nat)
    ensures Sections(a + b, first) == Sections(a, first) + Sections(b, first + |a|)
    decreases |a|
  {
    if a == [] {
      assert a + b == b;
    } else {
      assert (a + b)[1..] == a[1..] + b;
      SectionsAppend(a[1..], b, first + 1);
    }
  }

  /** Review i (0-based) is the section numbered `first + i`, between the
      sections of the reviews before and after it. */
  lemma SectionAt(reviews: seq<string>, first: nat, i: nat)
    requires i < |reviews|
    ensures Sections(reviews, first)
         == Sections(reviews[..i], first) + Section(first + i, reviews[i]) + Sections(reviews[i + 1..], first + i + 1)
  {
    var before, rest := reviews[..i], reviews[i..];
    assert reviews == before + rest;
    SectionsAppend(before, rest, first);
    SectionsCons(rest, first + i);
    assert rest[1..] == reviews[i + 1..];
    var x, y, z := Sections(before, first), Section(first + i, reviews[i]), Sections(reviews[i + 1..], first + i + 1);
    assert x + (y + z) == x + y + z;
  }

  lemma SectionsCons(reviews: seq<string>, first: nat)
    requires reviews != []
    ensures Sections(reviews, first) == Section(first, reviews[0]) + Sections(reviews[1..], first + 1)
  {
  }

  /** With one review there is no summary and no "## Details": the preamble
      and a single section numbered 1, whatever the summary answer. */
  lemma ComposeOneReview(review: string, summary: Option<string>)
    ensures Compose([review], summary) == Preamble + ("### Commit 1\n" + review + "\n\n")
  {
    BodyOneReview(review, summary);
  }

  lemma BodyOneReview(review: string, summary: Option<string>)
    ensures Body([review], summary) == "### Commit 1\n" + review + "\n\n"
  {
    assert DigitChar(1) == '1';
    assert NatToString(1) == "1";
    assert SummaryPart([review], summary) == "";
    assert Sections([review], 1) == "### Commit 1\n" + review + "\n\n";
  }

  /** With several reviews and an answered summary call, the summary comes
      first, followed by the "## Details" heading, then the sections. */
  lemma ComposeWithSummary(reviews: seq<string>, summary: string)
    requires |reviews| > 1
    ensures Compose(reviews, Some(summary)) == Preamble + (summary + DetailsHeading + Sections(reviews, 1))
  {
    BodyWithSummary(reviews, summary);
  }

  lemma BodyWithSummary(reviews: seq<string>, summary: string)
    requires |reviews| > 1
    ensures Body(reviews, Some(summary)) == summary + DetailsHeading + Sections(reviews, 1)
  {
  }

  /** With the summary not requested or not answered, the sections follow
      the preamble directly. */
  lemma ComposeWithoutSummary(reviews: seq<string>, summary: Option<string>)
    requires |reviews| <= 1 || summary.None?
    ensures Compose(reviews, summary) == Preamble + Sections(reviews, 1)
  {
    BodyWithoutSummary(reviews, summary);
  }

  lemma BodyWithoutSummary(reviews: seq<string>, summary: Option<string>)
    requires |reviews| <= 1 || summary.None?
    ensures Body(reviews, summary) == Sections(reviews, 1)
  {
  }
}
