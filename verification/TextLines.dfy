/** Reading a text file line by line. */
module TextLines {
  predicate IsBreak(c: char) {
    c == '\n' || c == '\r'
  }

  predicate Unbroken(line: string) {
    forall i :: 0 <= i < |line| ==> !IsBreak(line[i])
  }

  /** Position of the first line break, or the length. */
  function BreakAt(s: string): (i: nat)
    ensures i <= |s|
    ensures forall k :: 0 <= k < i ==> !IsBreak(s[k])
    ensures i < |s| ==> IsBreak(s[i])
  {
    if s == [] || IsBreak(s[0]) then 0 else 1 + BreakAt(s[1..])
  }

  /** Iterating a text file: universal newlines, no line after a final break. */
  function Lines(s: string): seq<string>
    decreases |s|
  {
    if s == [] then []
    else
      var i := BreakAt(s);
      if i == |s| then [s]
      else [s[..i]] + Lines(s[if s[i] == '\r' && i + 1 < |s| && s[i + 1] == '\n' then i + 2 else i + 1..])
  }

  lemma FirstBreak(line: string, s: string)
    requires line < s && s[|line|] == '\n' && Unbroken(line)
    ensures BreakAt(s) == |line|
  {
    assert forall i :: 0 <= i < |line| ==> s[i] == line[i];
  }

  lemma LinesOfBreak(line: string, s: string)
    requires line < s && s[|line|] == '\n' && BreakAt(s) == |line|
    ensures Lines(s) == [line] + Lines(s[|line| + 1..])
  {
    assert s[..|line|] == line;
  }

  lemma LinesOfOne(line: string, rest: string)
    requires Unbroken(line)
    ensures Lines(line + ("\n" + rest)) == [line] + Lines(rest)
  {
    var s := line + ("\n" + rest);
    FirstBreak(line, s);
    LinesOfBreak(line, s);
    assert s[|line| + 1..] == rest;
  }

  /** Each of the three line ends ends a line, a carriage return with a line feed after it only once. */
  lemma AnyBreakEndsALine(line: string, end: string, rest: string)
    requires Unbroken(line)
    requires end == "\n" || end == "\r\n" || (end == "\r" && (rest == "" || rest[0] != '\n'))
    ensures Lines(line + (end + rest)) == [line] + Lines(rest)
  {
    var s := line + (end + rest);
    assert s[|line|] == end[0] && s[..|line|] == line && s[|line| + |end|..] == rest;
    assert |end| == 2 ==> s[|line| + 1] == end[1];
    assert |end| == 1 && rest != "" ==> s[|line| + 1] == rest[0];
    BreakIsFirst(line, s, |end|);
  }

  lemma BreakIsFirst(line: string, s: string, width: nat)
    requires line < s && IsBreak(s[|line|]) && Unbroken(line)
    requires width == if s[|line|] == '\r' && |line| + 1 < |s| && s[|line| + 1] == '\n' then 2 else 1
    ensures Lines(s) == [line] + Lines(s[|line| + width..])
  {
    assert forall i :: 0 <= i < |line| ==> s[i] == line[i];
    assert BreakAt(s) == |line| && s[..|line|] == line;
  }

  lemma LastLineNeedsNoBreak(line: string)
    requires Unbroken(line) && line != ""
    ensures Lines(line) == [line]
  {
  }

  function JoinLines(lines: seq<string>): string {
    if lines == [] then "" else lines[0] + ("\n" + JoinLines(lines[1..]))
  }

  lemma {:induction false} LinesOfJoin(lines: seq<string>)
    requires forall i :: 0 <= i < |lines| ==> Unbroken(lines[i])
    ensures Lines(JoinLines(lines)) == lines
  {
    if lines != [] {
      LinesOfOne(lines[0], JoinLines(lines[1..]));
      LinesOfJoin(lines[1..]);
    }
  }

  /** A line appended to a file is its last line. */
  lemma {:induction false} JoinOneMore(lines: seq<string>, line: string)
    ensures JoinLines(lines + [line]) == JoinLines(lines) + (line + "\n")
  {
    if lines == [] {
      assert lines + [line] == [line] && [line][1..] == [];
      assert line + ("\n" + "") == line + "\n";
    } else {
      var first, rest := lines[0], JoinLines(lines[1..]);
      JoinOneMore(lines[1..], line);
      assert (lines + [line])[1..] == lines[1..] + [line];
      assert first + ("\n" + (rest + (line + "\n"))) == (first + ("\n" + rest)) + (line + "\n");
    }
  }
}
