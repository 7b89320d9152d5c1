/** Text as newline-terminated lines: the split, what is left over, and that there is no other. */
module LineText {
  import opened Concatenation

  predicate OneLine(s: string) {
    '\n' !in s
  }

  /** std::string::find('\n'), with the length standing for npos. */
  function NewlineAt(s: string): (i: nat)
    ensures i <= |s| && forall k :: 0 <= k < i ==> s[k] != '\n'
    ensures i < |s| ==> s[i] == '\n'
  {
    if s == "" || s[0] == '\n' then 0 else NewlineAt(s[1..]) + 1
  }

  /** The complete lines of a text, without their newlines. */
  function Lines(s: string): seq<string> {
    var i := NewlineAt(s);
    if i == |s| then [] else [s[..i]] + Lines(s[i + 1..])
  }

  /** What follows the last newline. */
  function Residue(s: string): string {
    var i := NewlineAt(s);
    if i == |s| then s else Residue(s[i + 1..])
  }

  function Unlines(lines: seq<string>): string {
    if lines == [] then "" else lines[0] + "\n" + Unlines(lines[1..])
  }

  lemma NewlineIsFirst(s: string, t: string)
    requires OneLine(s)
    ensures NewlineAt(s + "\n" + t) == |s|
    ensures NewlineAt(s) == |s|
  {
    var text := s + "\n" + t;
    assert text[|s|] == '\n' && forall k :: 0 <= k < |s| ==> text[k] == s[k];
  }

  /** Splitting commutes with arrival: what is buffered is the residue of all that came before. */
  lemma {:induction false} LinesOfMore(s: string, t: string)
    ensures Lines(s + t) == Lines(s) + Lines(Residue(s) + t)
    ensures Residue(s + t) == Residue(Residue(s) + t)
  {
    var i := NewlineAt(s);
    if i < |s| {
      var line, rest := s[..i], s[i + 1..];
      FirstLine(s);
      Assoc(line + "\n", rest, t);
      LinesOfCons(line, rest + t);
      LinesOfMore(rest, t);
    }
  }

  /** Lines and residue reconstruct the text. */
  lemma {:induction false} LinesReconstruct(s: string)
    ensures Unlines(Lines(s)) + Residue(s) == s
  {
    var i := NewlineAt(s);
    if i < |s| {
      LinesReconstruct(s[i + 1..]);
      UnlinesCons(s[..i], Lines(s[i + 1..]));
      Assoc(s[..i] + "\n", Unlines(Lines(s[i + 1..])), Residue(s[i + 1..]));
      FirstLine(s);
    }
  }

  lemma FirstLine(s: string)
    requires NewlineAt(s) < |s|
    ensures s == s[..NewlineAt(s)] + "\n" + s[NewlineAt(s) + 1..]
  {
    hide NewlineAt;
    SplitAt(s, NewlineAt(s));
    assert [s[NewlineAt(s)]] == "\n";
  }

  lemma SplitAt(s: string, i: nat)
    requires i < |s|
    ensures s == s[..i] + [s[i]] + s[i + 1..]
  {
  }

  lemma UnlinesCons(line: string, others: seq<string>)
    ensures Unlines([line] + others) == line + "\n" + Unlines(others)
  {
    assert ([line] + others)[1..] == others;
  }

  /** No line and no residue contains a newline. */
  lemma {:induction false} LinesAreLines(s: string)
    ensures OneLine(Residue(s)) && forall k :: 0 <= k < |Lines(s)| ==> OneLine(Lines(s)[k])
  {
    var i := NewlineAt(s);
    if i < |s| {
      LinesAreLines(s[i + 1..]);
    }
  }

  /** The split is the only one: newline-free lines followed by a newline-free rest. */
  lemma {:induction false} LinesUnique(lines: seq<string>, rest: string)
    requires OneLine(rest) && forall k :: 0 <= k < |lines| ==> OneLine(lines[k])
    ensures Lines(Unlines(lines) + rest) == lines && Residue(Unlines(lines) + rest) == rest
  {
    if lines == [] {
      assert Unlines(lines) + rest == rest;
      NewlineIsFirst(rest, "");
    } else {
      hide OneLine, Lines, Residue, NewlineAt;
      var t := Unlines(lines[1..]) + rest;
      assert Unlines(lines) == lines[0] + "\n" + Unlines(lines[1..]);
      assert [lines[0]] + lines[1..] == lines;
      hide Unlines;
      Assoc(lines[0] + "\n", Unlines(lines[1..]), rest);
      LinesOfCons(lines[0], t);
      LinesUnique(lines[1..], rest);
    }
  }

  lemma LinesOfCons(line: string, t: string)
    requires OneLine(line)
    ensures Lines(line + "\n" + t) == [line] + Lines(t)
    ensures Residue(line + "\n" + t) == Residue(t)
  {
    var s := line + "\n" + t;
    NewlineIsFirst(line, t);
    assert s[..|line|] == line && s[|line| + 1..] == t;
  }
}
