/** The two template filters registered for the site's templates:
    `remove_newlines` and `dedent`. Lines are split on '\n' only. */
module TemplateTags {

  // ---------------------------------------------------------------------------
  // remove_newlines: text.replace('\n', ' ').rstrip(' ')

  /** `s.replace('\n', ' ')`. */
  function NewlinesToSpaces(s: string): (r: string)
    ensures |r| == |s|
    ensures forall i :: 0 <= i < |s| ==> r[i] == (if s[i] == '\n' then ' ' else s[i])
  {
    seq(|s|, i requires 0 <= i < |s| => if s[i] == '\n' then ' ' else s[i])
  }

  /** `s.rstrip(' ')`. */
  function RStripSpaces(s: string): string
    decreases |s|
  {
    if s != [] && s[|s| - 1] == ' ' then RStripSpaces(s[..|s| - 1]) else s
  }

  function RemoveNewlines(text: string): string
  {
    RStripSpaces(NewlinesToSpaces(text))
  }

  /** `rstrip(' ')` keeps a prefix, removes only spaces, and leaves no trailing space. */
  lemma {:induction false} RStripSpacesSplits(s: string)
    ensures var r := RStripSpaces(s);
      && |r| <= |s| && r == s[..|r|]
      && (forall i :: |r| <= i < |s| ==> s[i] == ' ')
      && (r == [] || r[|r| - 1] != ' ')
    decreases |s|
  {
    if s != [] && s[|s| - 1] == ' ' {
      RStripSpacesSplits(s[..|s| - 1]);
    }
  }

  /** The filtered text has no newline and no trailing space; every character
      it keeps is the input's, with each newline turned into a space; and only
      spaces (or newlines) were cut from the end. */
  lemma RemoveNewlinesSpec(text: string)
    ensures var r := RemoveNewlines(text);
      && '\n' !in r
      && (r == [] || r[|r| - 1] != ' ')
      && |r| <= |text|
      && (forall i :: 0 <= i < |r| ==> r[i] == (if text[i] == '\n' then ' ' else text[i]))
      && (forall i :: |r| <= i < |text| ==> text[i] == ' ' || text[i] == '\n')
  {
    var spaced := NewlinesToSpaces(text);
    RStripSpacesSplits(spaced);
    var r := RStripSpaces(spaced);
    forall i | 0 <= i < |r| ensures r[i] != '\n' {
      assert r[i] == spaced[i];
    }
  }

  lemma {:induction false} RStripSpacesNoTrailing(s: string)
    requires s == [] || s[|s| - 1] != ' '
    ensures RStripSpaces(s) == s
  {
  }

  /** Filtering twice is filtering once. */
  lemma RemoveNewlinesIdempotent(text: string)
    ensures RemoveNewlines(RemoveNewlines(text)) == RemoveNewlines(text)
  {
    var r := RemoveNewlines(text);
    RemoveNewlinesSpec(text);
    assert NewlinesToSpaces(r) == r;
    RStripSpacesNoTrailing(r);
  }

  // ---------------------------------------------------------------------------
  // dedent: "\n".join(line.lstrip(' ') for line in text.splitlines())

  /** `line.lstrip(' ')`. */
  function LStripSpaces(line: string): string
    decreases |line|
  {
    if line != [] && line[0] == ' ' then LStripSpaces(line[1..]) else line
  }

  /** `lstrip(' ')` keeps a suffix, removes only spaces, and the result does
      not start with a space; any other first character, a tab say, stays. */
  lemma {:induction false} LStripSpacesSplits(line: string)
    ensures var r := LStripSpaces(line);
      && |r| <= |line| && r == line[|line| - |r|..]
      && (forall i :: 0 <= i < |line| - |r| ==> line[i] == ' ')
      && (r == [] || r[0] != ' ')
      && (line != [] && line[0] != ' ' ==> r == line)
    decreases |line|
  {
    if line != [] && line[0] == ' ' {
      LStripSpacesSplits(line[1..]);
    }
  }

  /** Index of the first '\n' of `s`, or |s| when there is none. */
  function FirstNewline(s: string): (k: nat)
    ensures k <= |s| && '\n' !in s[..k]
    ensures k < |s| ==> s[k] == '\n'
    decreases |s|
  {
    if s == [] then 0
    else if s[0] == '\n' then 0
    else
      var k := 1 + FirstNewline(s[1..]);
      assert s[..k] == [s[0]] + s[1..][..k - 1];
      k
  }

  /** `s.splitlines()` restricted to '\n': no empty line after a final '\n'. */
  function SplitLines(s: string): (lines: seq<string>)
    ensures forall i :: 0 <= i < |lines| ==> '\n' !in lines[i]
    decreases |s|
  {
    if s == [] then []
    else
      var k := FirstNewline(s);
      if k == |s| then [s] else [s[..k]] + SplitLines(s[k + 1..])
  }

  /** `"\n".join(lines)`. */
  function JoinLines(lines: seq<string>): string
    decreases |lines|
  {
    if lines == [] then ""
    else if |lines| == 1 then lines[0]
    else lines[0] + "\n" + JoinLines(lines[1..])
  }

  /** `s.split('\n')`: always at least one piece. */
  function SplitAtNewlines(s: string): (pieces: seq<string>)
    ensures pieces != []
    decreases |s|
  {
    var k := FirstNewline(s);
    if k == |s| then [s] else [s[..k]] + SplitAtNewlines(s[k + 1..])
  }

  /** Joining lines that hold no newline can be undone by splitting at newlines. */
  lemma {:induction false} SplitJoinLines(lines: seq<string>)
    requires lines != []
    requires forall i :: 0 <= i < |lines| ==> '\n' !in lines[i]
    ensures SplitAtNewlines(JoinLines(lines)) == lines
    decreases |lines|
  {
    var head := lines[0];
    if |lines| == 1 {
      FirstNewlineAbsent(head);
    } else {
      var rest := JoinLines(lines[1..]);
      var s := head + "\n" + rest;
      FirstNewlineAfter(head, rest);
      assert s[..|head|] == head && s[|head| + 1..] == rest;
      SplitJoinLines(lines[1..]);
    }
  }

  lemma FirstNewlineAbsent(s: string)
    requires '\n' !in s
    ensures FirstNewline(s) == |s|
  {
  }

  lemma {:induction false} FirstNewlineAfter(head: string, rest: string)
    requires '\n' !in head
    ensures FirstNewline(head + "\n" + rest) == |head|
    decreases |head|
  {
    if head != [] {
      assert (head + "\n" + rest)[1..] == head[1..] + "\n" + rest;
      assert forall c :: c in head[1..] ==> c in head;
      FirstNewlineAfter(head[1..], rest);
    }
  }

  /** Splitting text that does not end in a newline and joining the lines again gives it back. */
  lemma {:induction false} JoinSplitLines(s: string)
    requires s == [] || s[|s| - 1] != '\n'
    ensures JoinLines(SplitLines(s)) == s
    decreases |s|
  {
    if s != [] {
      var k := FirstNewline(s);
      if k < |s| {
        var rest := s[k + 1..];
        assert rest != [] && rest[|rest| - 1] != '\n';
        JoinSplitLines(rest);
        assert SplitLines(s) == [s[..k]] + SplitLines(rest);
        assert SplitLines(rest) != [];
        assert s == s[..k] + "\n" + rest;
      }
    }
  }

  /** One output line per input line: the i-th is the i-th input line with its
      leading spaces removed. */
  predicate DedentedLines(lines: seq<string>, results: seq<string>)
  {
    && |results| == |lines|
    && forall i :: 0 <= i < |lines| ==> results[i] == LStripSpaces(lines[i])
  }

  method Dedent(text: string) returns (r: string)
    ensures exists results :: DedentedLines(SplitLines(text), results) && r == JoinLines(results)
  {
    var lines := SplitLines(text);
    var results: seq<string> := [];
    for i := 0 to |lines|
      invariant DedentedLines(lines[..i], results)
    {
      results := results + [LStripSpaces(lines[i])];
    }
    assert lines[..|lines|] == lines;
    r := JoinLines(results);
  }

  /** Dedented text splits back, at its newlines, into exactly the dedented
      input lines: same number, same order, none starting with a space, each
      the input line minus some leading spaces. */
  lemma DedentLines(text: string, results: seq<string>)
    requires SplitLines(text) != []
    requires DedentedLines(SplitLines(text), results)
    ensures var lines := SplitLines(text);
      && SplitAtNewlines(JoinLines(results)) == results
      && |results| == |lines|
      && forall i :: 0 <= i < |results| ==>
           && (results[i] == [] || results[i][0] != ' ')
           && |results[i]| <= |lines[i]|
           && results[i] == lines[i][|lines[i]| - |results[i]|..]
           && (forall j :: 0 <= j < |lines[i]| - |results[i]| ==> lines[i][j] == ' ')
  {
    var lines := SplitLines(text);
    forall i | 0 <= i < |results|
      ensures '\n' !in results[i]
      ensures results[i] == [] || results[i][0] != ' '
      ensures |results[i]| <= |lines[i]| && results[i] == lines[i][|lines[i]| - |results[i]|..]
      ensures forall j :: 0 <= j < |lines[i]| - |results[i]| ==> lines[i][j] == ' '
    {
      LStripSpacesSplits(lines[i]);
      assert forall c :: c in results[i] ==> c in lines[i];
    }
    SplitJoinLines(results);
  }
}
