/** String helpers the pipeline is built from: prefix test, newline-terminated
    joining, concatenation, and Rust's `str::lines()` line splitting. */
module Text {

  /** `s` begins with `prefix` (Rust `str::starts_with`). */
  predicate StartsWith(s: string, prefix: string) {
    |prefix| <= |s| && s[..|prefix|] == prefix
  }

  /** A text starts with any text it is built from. */
  lemma PrefixOfAppend(p: string, rest: string)
    ensures StartsWith(p + rest, p)
  {
    assert (p + rest)[..|p|] == p;
  }

  lemma StartsWithExtend(s: string, t: string, prefix: string)
    requires StartsWith(s, prefix)
    ensures StartsWith(s + t, prefix)
  {
    assert (s + t)[..|prefix|] == s[..|prefix|];
  }

  /** The parts one after another. */
  function Concat(parts: seq<string>): string
    decreases |parts|
  {
    if parts == [] then "" else parts[0] + Concat(parts[1..])
  }

  lemma {:induction false} ConcatAppend(a: seq<string>, b: seq<string>)
    ensures Concat(a + b) == Concat(a) + Concat(b)
    decreases |a|
  {
    if a != [] {
      assert (a + b)[1..] == a[1..] + b;
      ConcatAppend(a[1..], b);
    } else {
      assert a + b == b;
    }
  }

  /** Every line followed by a newline, in order: what `push_str(line)` then
      `push('\n')` builds up. */
  function Join(lines: seq<string>): string
    decreases |lines|
  {
    if lines == [] then "" else lines[0] + "\n" + Join(lines[1..])
  }

  lemma {:induction false} JoinAppend(a: seq<string>, b: seq<string>)
    ensures Join(a + b) == Join(a) + Join(b)
    decreases |a|
  {
    if a != [] {
      assert (a + b)[1..] == a[1..] + b;
      JoinAppend(a[1..], b);
    } else {
      assert a + b == b;
    }
  }

  lemma JoinSnoc(lines: seq<string>, line: string)
    ensures Join(lines + [line]) == Join(lines) + line + "\n"
  {
    JoinAppend(lines, [line]);
    assert Join([line]) == line + "\n" + Join([]);
  }

  /** A non-empty join is non-empty and ends with a newline. */
  lemma JoinEndsWithNewline(lines: seq<string>)
    requires lines != []
    ensures Join(lines) != ""
    ensures Join(lines)[|Join(lines)| - 1] == '\n'
  {
    var init := lines[..|lines| - 1];
    assert lines == init + [lines[|lines| - 1]];
    JoinSnoc(init, lines[|lines| - 1]);
  }

  /** A join starts with its first line. */
  lemma JoinStartsWithFirst(lines: seq<string>, prefix: string)
    requires lines != [] && StartsWith(lines[0], prefix)
    ensures StartsWith(Join(lines), prefix)
  {
    StartsWithExtend(lines[0], "\n" + Join(lines[1..]), prefix);
    assert Join(lines) == lines[0] + ("\n" + Join(lines[1..]));
  }

  /** Every line contributes at least its newline. */
  lemma {:induction false} JoinLength(lines: seq<string>)
    ensures |Join(lines)| >= |lines|
    decreases |lines|
  {
    if lines != [] {
      JoinLength(lines[1..]);
    }
  }

  // ---------------------------------------------------------------------
  // Rust `str::lines()`: split at "\n", drop one "\r" right before a "\n",
  // and a final line terminator does not produce an empty last line.

  /** Index of the first newline at or after `i`, or `|t|` when there is none. */
  function LineEnd(t: string, i: nat): (j: nat)
    requires i <= |t|
    ensures i <= j <= |t|
    ensures j < |t| ==> t[j] == '\n'
    ensures forall k :: i <= k < j ==> t[k] != '\n'
    decreases |t| - i
  {
    if i == |t| || t[i] == '\n' then i else LineEnd(t, i + 1)
  }

  function StripCR(line: string): string {
    if |line| > 0 && line[|line| - 1] == '\r' then line[..|line| - 1] else line
  }

  function Lines(t: string): (ls: seq<string>)
    ensures ls == [] <==> t == ""
    ensures forall l :: l in ls ==> '\n' !in l
    decreases |t|
  {
    if t == "" then []
    else
      var j := LineEnd(t, 0);
      if j == |t| then [t]
      else
        var first := StripCR(t[..j]);
        assert forall k :: 0 <= k < |first| ==> first[k] == t[k];
        [first] + Lines(t[j + 1..])
  }

  /** `Lines` recovers the lines of a joined text whose lines hold no
      terminator characters. */
  lemma {:induction false} LinesOfJoin(ls: seq<string>)
    requires forall l :: l in ls ==> '\n' !in l && '\r' !in l
    ensures Lines(Join(ls)) == ls
    decreases |ls|
  {
    if ls != [] {
      var t := Join(ls);
      var l0 := ls[0];
      assert l0 in ls;
      assert '\n' !in l0 && '\r' !in l0;
      assert |l0| > 0 ==> l0[|l0| - 1] in l0;
      assert t == l0 + "\n" + Join(ls[1..]);
      assert forall k :: 0 <= k < |l0| ==> t[k] == l0[k];
      assert t[|l0|] == '\n';
      assert forall k :: 0 <= k < |l0| ==> l0[k] != '\n';
      var j := LineEnd(t, 0);
      assert j <= |l0|;
      assert j == |l0|;
      assert t[..|l0|] == l0;
      assert t[|l0| + 1..] == Join(ls[1..]);
      assert forall l :: l in ls[1..] ==> l in ls;
      LinesOfJoin(ls[1..]);
      assert StripCR(l0) == l0;
      assert Lines(t) == [l0] + Lines(Join(ls[1..]));
      assert ls == [l0] + ls[1..];
    }
  }

  /** Joining the lines of a text without carriage returns that is empty or
      ends in a newline gives the text back. */
  lemma {:induction false} JoinOfLines(t: string)
    requires '\r' !in t
    requires t == "" || t[|t| - 1] == '\n'
    ensures Join(Lines(t)) == t
    decreases |t|
  {
    if t != "" {
      var j := FirstLine(t);
      JoinOfLines(t[j + 1..]);
    }
  }

  /** The first line of a non-empty text ending in a newline, and what is left. */
  lemma {:induction false} FirstLine(t: string) returns (j: nat)
    requires '\r' !in t
    requires t != "" && t[|t| - 1] == '\n'
    ensures j < |t|
    ensures Lines(t) == [t[..j]] + Lines(t[j + 1..])
    ensures t == t[..j] + "\n" + t[j + 1..]
    ensures '\r' !in t[j + 1..]
    ensures t[j + 1..] == "" || t[|t| - 1] == '\n'
  {
    j := LineEnd(t, 0);
    var first, rest := t[..j], t[j + 1..];
    assert '\r' !in first;
    StripCRWithoutCR(first);
    assert forall c :: c in rest ==> c in t;
  }

  lemma StripCRWithoutCR(line: string)
    requires '\r' !in line
    ensures StripCR(line) == line
  {
    if |line| > 0 {
      assert line[|line| - 1] in line;
    }
  }
}
