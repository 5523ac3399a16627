/** The commit splitter: cuts the patch's lines into per-commit chunks at
    "From " marker lines, each chunk growing only while the token count of the
    chunk built so far stays under the ceiling. */
module Splitter {
  import opened Text

  /** First characters of the line that opens a commit in a mailbox-format patch. */
  const Marker: string := "From "

  /** A chunk accepts another line only while it counts fewer tokens than this
      (the completion model reads at most 4096). */
  const TokenCeiling: nat := 3800

  /** The tokenizer, left abstract: the number of tokens a text encodes to. */
  type TokenCount = string -> nat

  predicate IsMarker(line: string) {
    StartsWith(line, Marker)
  }

  predicate NoMarker(lines: seq<string>) {
    forall l :: l in lines ==> !IsMarker(l)
  }

  function CountMarkers(lines: seq<string>): nat
    decreases |lines|
  {
    if lines == [] then 0
    else (if IsMarker(lines[0]) then 1 else 0) + CountMarkers(lines[1..])
  }

  // ---------------------------------------------------------------------
  // The loop as written: a left fold over the lines.

  /** Loop state: the chunks closed so far and the chunk being built. */
  datatype ScanState = ScanState(commits: seq<string>, current: string)

  /** The closed chunks plus the chunk being built, unless it is empty. */
  function Close(s: ScanState): seq<string> {
    if s.current != "" then s.commits + [s.current] else s.commits
  }

  /** One loop iteration: a marker closes the current chunk and empties it;
      then the line (marker or not) is appended when the chunk so far is under
      the ceiling, and dropped otherwise. */
  function Step(s: ScanState, line: string, count: TokenCount): (r: ScanState)
    ensures IsMarker(line) ==> r.commits == Close(s)
    ensures IsMarker(line) ==> (r.current == line + "\n" <==> count("") < TokenCeiling)
    ensures IsMarker(line) ==> (r.current == "" <==> count("") >= TokenCeiling)
    ensures !IsMarker(line) ==> r.commits == s.commits
    ensures !IsMarker(line) ==> (r.current == s.current + line + "\n" <==> count(s.current) < TokenCeiling)
    ensures !IsMarker(line) ==> (r.current == s.current <==> count(s.current) >= TokenCeiling)
  {
    var started := if IsMarker(line) then ScanState(Close(s), "") else s;
    if count(started.current) < TokenCeiling
    then ScanState(started.commits, started.current + line + "\n")
    else started
  }

  function Scan(s: ScanState, lines: seq<string>, count: TokenCount): ScanState
    decreases |lines|
  {
    if lines == [] then s else Scan(Step(s, lines[0], count), lines[1..], count)
  }

  /** The chunks the handler reviews: the loop run from nothing, then the last
      chunk stored if it is non-empty. There is at most one chunk per line. */
  function SplitCommits(lines: seq<string>, count: TokenCount): (cs: seq<string>)
    ensures |cs| <= |lines|
  {
    ScanBounds(ScanState([], ""), lines, count);
    Close(Scan(ScanState([], ""), lines, count))
  }

  /** Each line adds at most one chunk. */
  lemma {:induction false} ScanBounds(s: ScanState, lines: seq<string>, count: TokenCount)
    ensures |Close(Scan(s, lines, count))| <= |Close(s)| + |lines|
    decreases |lines|
  {
    if lines == [] {
    } else {
      var s1 := Step(s, lines[0], count);
      assert |Close(s1)| <= |Close(s)| + 1;
      ScanBounds(s1, lines[1..], count);
    }
  }

  // ---------------------------------------------------------------------
  // Reference definition: commit groups and their longest accepted prefixes.

  function Flatten(groups: seq<seq<string>>): seq<string>
    decreases |groups|
  {
    if groups == [] then [] else groups[0] + Flatten(groups[1..])
  }

  /** A commit group: a marker line followed by non-marker lines. */
  predicate IsCommitGroup(g: seq<string>) {
    |g| > 0 && IsMarker(g[0]) && NoMarker(g[1..])
  }

  /** The lines cut at markers: the lines before the first marker (possibly
      none), then one group per marker. */
  function Groups(lines: seq<string>): (gs: seq<seq<string>>)
    ensures |gs| >= 1
    decreases |lines|
  {
    if lines == [] then [[]]
    else
      var rest := Groups(lines[1..]);
      if IsMarker(lines[0]) then [[], [lines[0]] + rest[0]] + rest[1..]
      else [[lines[0]] + rest[0]] + rest[1..]
  }

  /** `Groups` cuts exactly at the markers: one group per marker plus the
      leading one, nothing lost or reordered, the leading group marker-free and
      every other group a marker line followed by non-marker lines. */
  lemma {:induction false} GroupsShape(lines: seq<string>)
    ensures |Groups(lines)| == 1 + CountMarkers(lines)
    ensures Flatten(Groups(lines)) == lines
    ensures NoMarker(Groups(lines)[0])
    ensures Groups(lines)[0] == [] <==> lines == [] || IsMarker(lines[0])
    ensures forall i :: 1 <= i < |Groups(lines)| ==> IsCommitGroup(Groups(lines)[i])
    decreases |lines|
  {
    if lines != [] {
      var l0 := lines[0];
      var rest := Groups(lines[1..]);
      var gs := Groups(lines);
      GroupsShape(lines[1..]);
      assert Flatten(rest) == rest[0] + Flatten(rest[1..]);
      assert lines == [l0] + lines[1..];
      if IsMarker(l0) {
        assert gs[1..] == [[l0] + rest[0]] + rest[1..];
        assert gs[2..] == rest[1..];
        assert ([l0] + rest[0])[1..] == rest[0];
        assert Flatten(gs[1..]) == [l0] + rest[0] + Flatten(rest[1..]);
        forall i | 1 <= i < |gs|
          ensures IsCommitGroup(gs[i])
        {
          if i > 1 {
            assert gs[i] == rest[i - 1];
          }
        }
      } else {
        assert gs[1..] == rest[1..];
        forall i | 1 <= i < |gs|
          ensures IsCommitGroup(gs[i])
        {
          assert gs[i] == rest[i];
        }
      }
    }
  }

  /** The number of leading lines of `block` kept, searching from `k`: the
      first `m` at which the lines before it already reach the ceiling, or all
      of them. */
  function KeptFrom(block: seq<string>, k: nat, count: TokenCount): (m: nat)
    requires k <= |block|
    ensures k <= m <= |block|
    ensures forall j :: k <= j < m ==> count(Join(block[..j])) < TokenCeiling
    ensures m == |block| || count(Join(block[..m])) >= TokenCeiling
    decreases |block| - k
  {
    if k == |block| || count(Join(block[..k])) >= TokenCeiling then k
    else KeptFrom(block, k + 1, count)
  }

  function Kept(block: seq<string>, count: TokenCount): nat {
    KeptFrom(block, 0, count)
  }

  /** The chunk a group becomes: its longest prefix each of whose lines was
      added while the text before it was under the ceiling. */
  function Truncate(block: seq<string>, count: TokenCount): string {
    Join(block[..Kept(block, count)])
  }

  /** The truncated groups in order, empty ones left out. */
  function Chunks(groups: seq<seq<string>>, count: TokenCount): (cs: seq<string>)
    ensures |cs| <= |groups|
    ensures forall c :: c in cs ==> c != "" && c[|c| - 1] == '\n'
    decreases |groups|
  {
    if groups == [] then []
    else
      var kept := groups[0][..Kept(groups[0], count)];
      if kept == [] then Chunks(groups[1..], count)
      else
        JoinEndsWithNewline(kept);
        [Join(kept)] + Chunks(groups[1..], count)
  }

  // ---------------------------------------------------------------------
  // Proof that the loop computes the reference.

  /** The text the loop grows from `acc` over the lines of one group. */
  function Grow(acc: string, block: seq<string>, count: TokenCount): string
    decreases |block|
  {
    if block == [] then acc
    else if count(acc) < TokenCeiling then Grow(acc + block[0] + "\n", block[1..], count)
    else acc
  }

  function NonEmpty(s: string): seq<string> {
    if s == "" then [] else [s]
  }

  lemma GrowCons(acc: string, line: string, block: seq<string>, count: TokenCount)
    ensures Grow(acc, [line] + block, count)
         == Grow(if count(acc) < TokenCeiling then acc + line + "\n" else acc, block, count)
  {
    assert ([line] + block)[1..] == block;
  }

  lemma {:induction false} GrowIsTruncate(block: seq<string>, k: nat, count: TokenCount)
    requires k <= |block|
    ensures Grow(Join(block[..k]), block[k..], count) == Join(block[..KeptFrom(block, k, count)])
    decreases |block| - k
  {
    if k < |block| {
      assert block[k..] == [block[k]] + block[k + 1..];
      GrowCons(Join(block[..k]), block[k], block[k + 1..], count);
      if count(Join(block[..k])) < TokenCeiling {
        assert block[..k + 1] == block[..k] + [block[k]];
        JoinSnoc(block[..k], block[k]);
        GrowIsTruncate(block, k + 1, count);
      }
    }
  }

  lemma ChunksCons(groups: seq<seq<string>>, count: TokenCount)
    requires groups != []
    ensures Chunks(groups, count) == NonEmpty(Truncate(groups[0], count)) + Chunks(groups[1..], count)
  {
    var kept := groups[0][..Kept(groups[0], count)];
    if kept != [] {
      JoinEndsWithNewline(kept);
    }
  }

  /** How the groups of `lines` arise from the groups of its tail: a line that
      is not a marker joins the leading group. */
  lemma GroupsConsPlain(lines: seq<string>)
    requires lines != [] && !IsMarker(lines[0])
    ensures Groups(lines)[0] == [lines[0]] + Groups(lines[1..])[0]
    ensures Groups(lines)[1..] == Groups(lines[1..])[1..]
  {
    var rest := Groups(lines[1..]);
    var gs := [[lines[0]] + rest[0]] + rest[1..];
    assert gs[1..] == rest[1..];
  }

  /** A marker line opens a group of its own behind an empty leading group. */
  lemma GroupsConsMarker(lines: seq<string>)
    requires lines != [] && IsMarker(lines[0])
    ensures Groups(lines)[0] == []
    ensures Groups(lines)[1..] == [[lines[0]] + Groups(lines[1..])[0]] + Groups(lines[1..])[1..]
  {
    var rest := Groups(lines[1..]);
    var gs := [[], [lines[0]] + rest[0]] + rest[1..];
    assert gs[1..] == [[lines[0]] + rest[0]] + rest[1..];
  }

  lemma {:induction false} MarkerStepShape(commits: seq<string>, acc: string, l0: string, r0: seq<string>, tail: seq<seq<string>>, count: TokenCount)
    requires IsMarker(l0)
    ensures Step(ScanState(commits, acc), l0, count).commits
              + NonEmpty(Grow(Step(ScanState(commits, acc), l0, count).current, r0, count))
              + Chunks(tail, count)
         == commits + NonEmpty(acc) + Chunks([[l0] + r0] + tail, count)
  {
    var s1 := Step(ScanState(commits, acc), l0, count);
    var block := [l0] + r0;
    var closed, started, later := commits + NonEmpty(acc), NonEmpty(Truncate(block, count)), Chunks(tail, count);
    assert s1.commits == closed;
    GrowCons("", l0, r0, count);
    GrowFromEmpty(block, count);
    assert NonEmpty(Grow(s1.current, r0, count)) == started;
    ChunksCons([block] + tail, count);
    assert ([block] + tail)[1..] == tail;
    assert Chunks([block] + tail, count) == started + later;
    assert closed + started + later == closed + (started + later);
  }

  /** The loop, started from any state, ends with the closed chunks, the
      current chunk grown by the first group, then the chunks of the other groups. */
  lemma {:induction false} ScanShape(commits: seq<string>, acc: string, lines: seq<string>, count: TokenCount)
    ensures Close(Scan(ScanState(commits, acc), lines, count))
         == commits + NonEmpty(Grow(acc, Groups(lines)[0], count)) + Chunks(Groups(lines)[1..], count)
    decreases |lines|
  {
    if lines != [] {
      var l0 := lines[0];
      var rest := Groups(lines[1..]);
      var s1 := Step(ScanState(commits, acc), l0, count);
      assert Scan(ScanState(commits, acc), lines, count) == Scan(s1, lines[1..], count);
      ScanShape(s1.commits, s1.current, lines[1..], count);
      if IsMarker(l0) {
        GroupsConsMarker(lines);
        MarkerStepShape(commits, acc, l0, rest[0], rest[1..], count);
      } else {
        GroupsConsPlain(lines);
        GrowCons(acc, l0, rest[0], count);
      }
    }
  }

  /** The loop computes the reference: the chunks of the marker groups, each
      cut to its longest accepted prefix, empty ones left out, in order. */
  lemma {:induction false} SplitCommitsIsChunksOfGroups(lines: seq<string>, count: TokenCount)
    ensures SplitCommits(lines, count) == Chunks(Groups(lines), count)
  {
    var gs := Groups(lines);
    var first, others := NonEmpty(Truncate(gs[0], count)), Chunks(gs[1..], count);
    ScanShape([], "", lines, count);
    GrowFromEmpty(gs[0], count);
    assert SplitCommits(lines, count) == [] + first + others;
    ChunksCons(gs, count);
    assert [] + first + others == first + others;
  }

  lemma GrowFromEmpty(block: seq<string>, count: TokenCount)
    ensures Grow("", block, count) == Truncate(block, count)
  {
    GrowIsTruncate(block, 0, count);
    assert block[..0] == [] && block[0..] == block;
  }

  /** With an empty text under the ceiling, a non-empty group keeps its first line. */
  lemma KeptPositive(block: seq<string>, count: TokenCount)
    requires count("") < TokenCeiling
    requires block != []
    ensures Kept(block, count) >= 1
    ensures Truncate(block, count) != ""
  {
    assert block[..0] == [];
    JoinEndsWithNewline(block[..Kept(block, count)]);
  }

  lemma {:induction false} ChunksOfNonEmptyGroups(groups: seq<seq<string>>, count: TokenCount)
    requires count("") < TokenCeiling
    requires forall i :: 0 <= i < |groups| ==> groups[i] != []
    ensures |Chunks(groups, count)| == |groups|
    decreases |groups|
  {
    if groups != [] {
      KeptPositive(groups[0], count);
      ChunksCons(groups, count);
      ChunksOfNonEmptyGroups(groups[1..], count);
    }
  }

  lemma {:induction false} ChunksOfCommitGroups(groups: seq<seq<string>>, count: TokenCount)
    requires count("") < TokenCeiling
    requires forall i :: 0 <= i < |groups| ==> IsCommitGroup(groups[i])
    ensures forall c :: c in Chunks(groups, count) ==> IsMarker(c)
    decreases |groups|
  {
    if groups != [] {
      var g := groups[0];
      KeptPositive(g, count);
      JoinStartsWithFirst(g[..Kept(g, count)], Marker);
      ChunksCons(groups, count);
      ChunksOfCommitGroups(groups[1..], count);
    }
  }

  /** Chunk count: one per marker line, plus one when the patch does not start
      with a marker; so no chunk at all exactly when there are no lines. */
  lemma {:induction false} ChunkCount(lines: seq<string>, count: TokenCount)
    requires count("") < TokenCeiling
    ensures |SplitCommits(lines, count)|
         == CountMarkers(lines) + (if lines != [] && !IsMarker(lines[0]) then 1 else 0)
    ensures SplitCommits(lines, count) == [] <==> lines == []
  {
    SplitCommitsIsChunksOfGroups(lines, count);
    GroupsShape(lines);
    var gs := Groups(lines);
    ChunksCons(gs, count);
    ChunksOfNonEmptyGroups(gs[1..], count);
    if gs[0] != [] {
      KeptPositive(gs[0], count);
    } else {
      assert Truncate(gs[0], count) == "";
    }
  }

  /** Every chunk after the first starts with its "From " line. */
  lemma {:induction false} LaterChunksStartWithMarker(lines: seq<string>, count: TokenCount)
    requires count("") < TokenCeiling
    ensures forall i :: 1 <= i < |SplitCommits(lines, count)| ==> IsMarker(SplitCommits(lines, count)[i])
  {
    SplitCommitsIsChunksOfGroups(lines, count);
    GroupsShape(lines);
    var gs := Groups(lines);
    var cs := SplitCommits(lines, count);
    ChunksCons(gs, count);
    ChunksOfCommitGroups(gs[1..], count);
    var head := NonEmpty(Truncate(gs[0], count));
    forall i | 1 <= i < |cs|
      ensures IsMarker(cs[i])
    {
      assert cs[i] == Chunks(gs[1..], count)[i - |head|];
    }
  }

  lemma {:induction false} ChunksFromGroups(groups: seq<seq<string>>, count: TokenCount)
    ensures forall c :: c in Chunks(groups, count) ==>
      exists g :: g in groups && Kept(g, count) >= 1 && c == Join(g[..Kept(g, count)])
    decreases |groups|
  {
    if groups != [] {
      var g := groups[0];
      ChunksCons(groups, count);
      ChunksFromGroups(groups[1..], count);
      assert forall h :: h in groups[1..] ==> h in groups;
      if Kept(g, count) == 0 {
        assert g[..0] == [];
      }
    }
  }

  /** Each chunk is the first m >= 1 lines of one group (a marker line and the
      non-marker lines after it, or the lines before the first marker), each
      line followed by a newline; the chunks are non-empty and end with a newline. */
  lemma {:induction false} ChunksArePrefixesOfGroups(lines: seq<string>, count: TokenCount)
    ensures forall c :: c in SplitCommits(lines, count) ==>
      exists g :: g in Groups(lines) && Kept(g, count) >= 1 && c == Join(g[..Kept(g, count)])
    ensures forall c :: c in SplitCommits(lines, count) ==> c != "" && c[|c| - 1] == '\n'
  {
    SplitCommitsIsChunksOfGroups(lines, count);
    ChunksFromGroups(Groups(lines), count);
  }

  /** A chunk holds one commit: it is the first m >= 1 lines of one marker
      group of the input, and none of those lines after the first starts
      with "From ". */
  lemma {:induction false} OneMarkerPerChunk(lines: seq<string>, count: TokenCount)
    ensures forall c :: c in SplitCommits(lines, count) ==>
      exists g, m :: g in Groups(lines) && 1 <= m <= |g| && c == Join(g[..m]) && NoMarker(g[..m][1..])
  {
    ChunksArePrefixesOfGroups(lines, count);
    GroupTailsNoMarker(lines);
    forall c | c in SplitCommits(lines, count)
      ensures exists g, m :: g in Groups(lines) && 1 <= m <= |g| && c == Join(g[..m]) && NoMarker(g[..m][1..])
    {
      var g :| g in Groups(lines) && Kept(g, count) >= 1 && c == Join(g[..Kept(g, count)]);
      PrefixTailNoMarker(g, Kept(g, count));
    }
  }

  /** Past its first line, no group holds a marker. */
  lemma GroupTailsNoMarker(lines: seq<string>)
    ensures forall g :: g in Groups(lines) ==> g == [] || NoMarker(g[1..])
  {
    GroupsShape(lines);
    var gs := Groups(lines);
    forall g | g in gs
      ensures g == [] || NoMarker(g[1..])
    {
      var i :| 0 <= i < |gs| && gs[i] == g;
      if i == 0 && g != [] {
        assert forall l :: l in g[1..] ==> l in g;
      }
    }
  }

  lemma PrefixTailNoMarker(g: seq<string>, m: nat)
    requires 1 <= m <= |g| && NoMarker(g[1..])
    ensures NoMarker(g[..m][1..])
  {
    assert forall l :: l in g[..m][1..] ==> l in g[1..];
  }

  /** No line of any group is dropped. */
  predicate NoDrop(lines: seq<string>, count: TokenCount) {
    forall g :: g in Groups(lines) ==> Kept(g, count) == |g|
  }

  lemma JoinPrefixShorter(g: seq<string>, m: nat)
    requires m <= |g|
    ensures |Join(g[..m])| + (|g| - m) <= |Join(g)|
  {
    assert g == g[..m] + g[m..];
    JoinAppend(g[..m], g[m..]);
    JoinLength(g[m..]);
  }

  lemma CancelPrefix(t: string, x: string, y: string)
    ensures t + x == t + y <==> x == y
  {
    if t + x == t + y {
      assert x == (t + x)[|t|..];
      assert y == (t + y)[|t|..];
    }
  }

  lemma {:induction false} ChunksConcat(groups: seq<seq<string>>, count: TokenCount)
    ensures |Concat(Chunks(groups, count))| <= |Join(Flatten(groups))|
    ensures Concat(Chunks(groups, count)) == Join(Flatten(groups))
        <==> forall g :: g in groups ==> Kept(g, count) == |g|
    decreases |groups|
  {
    if groups != [] {
      var g := groups[0];
      var t := Truncate(g, count);
      var restChunks := Concat(Chunks(groups[1..], count));
      var restLines := Join(Flatten(groups[1..]));
      ChunksCons(groups, count);
      ChunksConcat(groups[1..], count);
      ConcatAppend(NonEmpty(t), Chunks(groups[1..], count));
      assert Concat(NonEmpty(t)) == t;
      assert Concat(Chunks(groups, count)) == t + restChunks;
      JoinAppend(g, Flatten(groups[1..]));
      assert Join(Flatten(groups)) == Join(g) + restLines;
      JoinPrefixShorter(g, Kept(g, count));
      assert forall h :: h in groups <==> h == g || h in groups[1..];
      if Kept(g, count) == |g| {
        assert g[..|g|] == g;
        CancelPrefix(t, restChunks, restLines);
      } else {
        assert |t| < |Join(g)|;
      }
    }
  }

  /** Lossless exactly when nothing is dropped: the chunks, concatenated in
      order, are the input lines each ended by a newline. */
  lemma {:induction false} SplitLossless(lines: seq<string>, count: TokenCount)
    ensures Concat(SplitCommits(lines, count)) == Join(lines) <==> NoDrop(lines, count)
    ensures |Concat(SplitCommits(lines, count))| <= |Join(lines)|
  {
    SplitCommitsIsChunksOfGroups(lines, count);
    GroupsShape(lines);
    ChunksConcat(Groups(lines), count);
  }

  // ---------------------------------------------------------------------
  // The loop as an imperative method, statement for statement.

  /** Splits the patch lines into commit chunks the way the handler's loop
      does; the result is the reference chunking of the marker groups. */
  method SplitPatch(lines: seq<string>, count: TokenCount) returns (commits: seq<string>)
    ensures commits == Chunks(Groups(lines), count)
    ensures forall c :: c in commits ==> c != "" && c[|c| - 1] == '\n'
  {
    commits := [];
    var current := "";
    for i := 0 to |lines|
      invariant Close(Scan(ScanState(commits, current), lines[i..], count)) == SplitCommits(lines, count)
    {
      var line := lines[i];
      if IsMarker(line) {
        if current != "" {
          commits := commits + [current];
        }
        current := "";
      }
      if count(current) < TokenCeiling {
        current := current + line + "\n";
      }
      assert lines[i..][1..] == lines[i + 1..];
    }
    if current != "" {
      commits := commits + [current];
    }
    SplitCommitsIsChunksOfGroups(lines, count);
  }
}
