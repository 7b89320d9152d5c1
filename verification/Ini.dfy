/**
 config::ConfigManager::parseIni: a fold over lines that carries the current section,
 how it composes, and what it reads back from a written configuration.
 */
module Ini {
  import opened LineText
  import opened Concatenation

  type Section = map<string, string>
  type Sections = map<string, Section>

  /** What has been read so far, and the section the next entry goes to. */
  datatype Reading = Reading(sections: Sections, current: string)

  const NOTHING := Reading(map[], "")

  // ---------------------------------------------------------------------- trim

  predicate IsBlank(c: char) {
    c == ' ' || c == '\t' || c == '\r' || c == '\n'
  }

  predicate AllBlank(s: string) {
    forall i :: 0 <= i < |s| ==> IsBlank(s[i])
  }

  /** The first character that is not blank, or the length. */
  function FirstInk(s: string): (i: nat)
    ensures i <= |s| && AllBlank(s[..i]) && (i < |s| ==> !IsBlank(s[i]))
  {
    if s == "" || !IsBlank(s[0]) then 0 else FirstInk(s[1..]) + 1
  }

  /** One past the last character that is not blank, or zero. */
  function LastInk(s: string): (i: nat)
    ensures i <= |s| && AllBlank(s[i..]) && (i > 0 ==> !IsBlank(s[i - 1]))
  {
    if s == "" || !IsBlank(s[|s| - 1]) then |s| else LastInk(s[..|s| - 1])
  }

  function Trim(s: string): string {
    if FirstInk(s) == |s| then ""
    else
      InkMeets(s);
      s[FirstInk(s)..LastInk(s)]
  }

  lemma InkMeets(s: string)
    requires FirstInk(s) < |s|
    ensures FirstInk(s) < LastInk(s)
  {
    hide FirstInk, LastInk;
    BlankFrom(s, LastInk(s));
  }

  lemma BlankFrom(s: string, end: nat)
    requires end <= |s| && AllBlank(s[end..])
    ensures forall k :: end <= k < |s| ==> IsBlank(s[k])
  {
    forall k | end <= k < |s| ensures IsBlank(s[k]) {
      assert s[end..][k - end] == s[k];
    }
  }

  predicate IsTrimmed(s: string) {
    s != "" ==> !IsBlank(s[0]) && !IsBlank(s[|s| - 1])
  }

  lemma TrimIsTrimmed(s: string)
    ensures IsTrimmed(Trim(s))
  {
    if FirstInk(s) < |s| {
      InkMeets(s);
    }
  }

  /** The trimmed text is the one stretch that is not blank at its ends with only blanks around it. */
  lemma TrimIsCore(before: string, core: string, after: string)
    requires AllBlank(before) && AllBlank(after)
    ensures Trim(before + core + after) == core <==> IsTrimmed(core)
  {
    if IsTrimmed(core) {
      CoreIsTrim(before, core, after);
    } else {
      TrimIsTrimmed(before + core + after);
    }
  }

  lemma CoreIsTrim(before: string, core: string, after: string)
    requires AllBlank(before) && AllBlank(after) && IsTrimmed(core)
    ensures Trim(before + core + after) == core
  {
    hide FirstInk, LastInk;
    var s := before + core + after;
    if core == "" {
      assert AllBlank(s);
    } else {
      assert s == before + (core + after);
      FirstIs(s, before, core + after);
      LastIs(s, before + core, after);
      hide AllBlank, IsTrimmed;
      assert s[|before|..|before + core|] == core;
    }
  }

  lemma FirstIs(s: string, before: string, others: string)
    requires s == before + others && AllBlank(before) && others != "" && !IsBlank(others[0])
    ensures FirstInk(s) == |before|
  {
    hide FirstInk;
    var i := FirstInk(s);
    assert s[|before|] == others[0];
    assert forall k :: 0 <= k < i ==> s[..i][k] == s[k];
    assert forall k :: 0 <= k < |before| ==> s[k] == before[k];
  }

  lemma LastIs(s: string, others: string, after: string)
    requires s == others + after && AllBlank(after) && others != "" && !IsBlank(others[|others| - 1])
    ensures LastInk(s) == |others|
  {
    hide LastInk;
    var i := LastInk(s);
    assert s[|others| - 1] == others[|others| - 1];
    assert forall k :: i <= k < |s| ==> s[i..][k - i] == s[k];
    assert forall k :: |others| <= k < |s| ==> s[k] == after[k - |others|];
  }

  // ------------------------------------------------------------------- one line

  /** Where the first '=' is, or the length. */
  function EqualsAt(s: string): (i: nat)
    ensures i <= |s| && '=' !in s[..i] && (i < |s| ==> s[i] == '=')
  {
    if s == "" || s[0] == '=' then 0
    else
      var i := EqualsAt(s[1..]) + 1;
      assert s[..i] == [s[0]] + s[1..][..i - 1];
      i
  }

  predicate IsRemark(t: string) {
    t == "" || t[0] == ';' || t[0] == '#'
  }

  predicate IsHeading(t: string) {
    t != "" && t[0] == '[' && t[|t| - 1] == ']'
  }

  function SectionOf(sections: Sections, name: string): Section {
    if name in sections then sections[name] else map[]
  }

  /** result[section][key] = value, which makes the section if it is not there. */
  function Put(sections: Sections, section: string, key: string, value: string): Sections {
    sections[section := SectionOf(sections, section)[key := value]]
  }

  function ReadLine(r: Reading, line: string): Reading {
    var t := Trim(line);
    if IsRemark(t) then r
    else if IsHeading(t) then r.(current := t[1..|t| - 1])
    else
      var eq := EqualsAt(t);
      if eq == |t| then r
      else r.(sections := Put(r.sections, r.current, Trim(t[..eq]), Trim(t[eq + 1..])))
  }

  function ReadLines(r: Reading, lines: seq<string>): Reading
    decreases lines
  {
    if lines == [] then r else ReadLines(ReadLine(r, lines[0]), lines[1..])
  }

  /** The lines std::getline delivers: a last one without a newline counts if it is not empty. */
  function GetLines(text: string): seq<string> {
    Lines(text) + if Residue(text) == "" then [] else [Residue(text)]
  }

  /** Reading a text on top of what was read before. */
  function Continue(r: Reading, text: string): Reading {
    ReadLines(r, GetLines(text))
  }

  method ParseIni(text: string) returns (result: Sections)
    ensures result == Continue(NOTHING, text).sections
  {
    result := map[];
    var currentSection := "";
    var stream := text;
    while stream != ""
      invariant Continue(Reading(result, currentSection), stream) == Continue(NOTHING, text)
      decreases |stream|
    {
      var end := NewlineAt(stream);
      var line := stream[..end];
      ghost var before := Reading(result, currentSection);
      GetOne(stream, before);
      stream := Rest(stream);
      hide Continue, Trim, EqualsAt, Put;
      var trimmed := Trim(line);
      if IsRemark(trimmed) {
        continue;
      }
      if IsHeading(trimmed) {
        currentSection := trimmed[1..|trimmed| - 1];
        continue;
      }
      var eq := EqualsAt(trimmed);
      if eq == |trimmed| {
        continue;
      }
      var key, value := Trim(trimmed[..eq]), Trim(trimmed[eq + 1..]);
      result := Put(result, currentSection, key, value);
    }
    assert GetLines("") == [];
  }

  /** What one std::getline leaves in the stream. */
  function Rest(stream: string): string {
    var end := NewlineAt(stream);
    if end < |stream| then stream[end + 1..] else ""
  }

  lemma GetOne(stream: string, r: Reading)
    requires stream != ""
    ensures Continue(r, stream) == Continue(ReadLine(r, stream[..NewlineAt(stream)]), Rest(stream))
  {
    hide ReadLine;
    var end := NewlineAt(stream);
    var line, rest := stream[..end], Rest(stream);
    if end < |stream| {
      assert Lines(stream) == [line] + Lines(rest);
      assert Residue(stream) == Residue(rest);
    } else {
      assert line == stream && GetLines("") == [];
    }
    assert GetLines(stream) == [line] + GetLines(rest);
    hide GetLines;
    assert ([line] + GetLines(rest))[1..] == GetLines(rest);
  }

  // ---------------------------------------------------------------- composition

  lemma {:induction false} ReadMore(r: Reading, a: seq<string>, b: seq<string>)
    ensures ReadLines(r, a + b) == ReadLines(ReadLines(r, a), b)
    decreases a
  {
    hide ReadLine;
    if a == [] {
      assert a + b == b;
    } else {
      assert (a + b)[0] == a[0] && (a + b)[1..] == a[1..] + b;
      ReadMore(ReadLine(r, a[0]), a[1..], b);
    }
  }

  lemma BlankLine(r: Reading)
    ensures ReadLine(r, "") == r
  {
  }

  /** Reading two texts with a newline between them is reading one and then the other. */
  lemma TextsCompose(r: Reading, a: string, b: string)
    ensures Continue(r, a + "\n" + b) == Continue(Continue(r, a), b)
  {
    hide ReadLine, ReadLines;
    var end, more := Residue(a), Lines(a);
    LinesOfBoth(a, b);
    ReadMore(r, more + [end], GetLines(b));
    ReadMore(r, more, [end]);
    LastLine(ReadLines(r, more), end);
    BlankLine(ReadLines(r, more));
    assert GetLines(a) == if end == "" then more else more + [end];
  }

  lemma LinesOfBoth(a: string, b: string)
    ensures GetLines(a + "\n" + b) == (Lines(a) + [Residue(a)]) + GetLines(b)
  {
    var end := Residue(a);
    LinesAreLines(a);
    LinesOfMore(a, "\n" + b);
    LinesOfCons(end, b);
    Assoc(a, "\n", b);
    Assoc(end, "\n", b);
    hide Lines, Residue;
    var text := a + "\n" + b;
    assert text == a + ("\n" + b);
    assert Residue(text) == Residue(b);
    assert Lines(text) == Lines(a) + ([end] + Lines(b));
    Assoc4(Lines(a), [end], Lines(b), if Residue(b) == "" then [] else [Residue(b)]);
  }

  lemma LastLine(r: Reading, line: string)
    ensures ReadLines(r, [line]) == ReadLine(r, line)
  {
    assert [line][1..] == [];
  }

  /** Entries of the second map over those of the first, section by section. */
  function Overlay(base: Sections, top: Sections): Sections {
    map s | s in base.Keys + top.Keys :: SectionOf(base, s) + SectionOf(top, s)
  }

  lemma SectionOfOverlay(base: Sections, top: Sections, n: string)
    ensures SectionOf(Overlay(base, top), n) == SectionOf(base, n) + SectionOf(top, n)
  {
    var none: Section := map[];
    assert none + none == none;
  }

  lemma MergePut(a: Section, b: Section, k: string, v: string)
    ensures (a + b)[k := v] == a + b[k := v]
  {
  }

  lemma PutOverlays(base: Sections, top: Sections, s: string, k: string, v: string)
    ensures Put(Overlay(base, top), s, k, v) == Overlay(base, Put(top, s, k, v))
  {
    var put := Put(top, s, k, v);
    var l, r := Put(Overlay(base, top), s, k, v), Overlay(base, put);
    assert put.Keys == top.Keys + {s};
    assert l.Keys == r.Keys;
    OtherSections(top, s, k, v);
    OtherSections(Overlay(base, top), s, k, v);
    OwnSection(top, s, k, v);
    OwnSection(Overlay(base, top), s, k, v);
    MergePut(SectionOf(base, s), SectionOf(top, s), k, v);
    hide SectionOf, Put, Overlay;
    forall n ensures SectionOf(l, n) == SectionOf(r, n) {
      SectionOfOverlay(base, top, n);
      SectionOfOverlay(base, put, n);
    }
    SameSections(l, r);
  }

  lemma SameSections(l: Sections, r: Sections)
    requires l.Keys == r.Keys && forall n :: SectionOf(l, n) == SectionOf(r, n)
    ensures l == r
  {
    forall n | n in l ensures l[n] == r[n] {
      assert SectionOf(l, n) == SectionOf(r, n);
    }
  }

  lemma OtherSections(top: Sections, s: string, k: string, v: string)
    ensures forall n :: n != s ==> SectionOf(Put(top, s, k, v), n) == SectionOf(top, n)
  {
  }

  lemma OwnSection(top: Sections, s: string, k: string, v: string)
    ensures SectionOf(Put(top, s, k, v), s) == SectionOf(top, s)[k := v]
  {
  }

  lemma LineOverlays(base: Sections, r: Reading, line: string)
    ensures var n, o := ReadLine(r, line), ReadLine(Reading(Overlay(base, r.sections), r.current), line);
            o.current == n.current && o.sections == Overlay(base, n.sections)
  {
    var t := Trim(line);
    var eq := EqualsAt(t);
    hide Overlay, Put;
    if eq < |t| {
      PutOverlays(base, r.sections, r.current, Trim(t[..eq]), Trim(t[eq + 1..]));
    }
  }

  lemma {:induction false} LinesOverlay(base: Sections, r: Reading, lines: seq<string>)
    ensures var n, o := ReadLines(r, lines), ReadLines(Reading(Overlay(base, r.sections), r.current), lines);
            o.current == n.current && o.sections == Overlay(base, n.sections)
    decreases lines
  {
    hide ReadLine, Overlay;
    if lines != [] {
      LineOverlays(base, r, lines[0]);
      LinesOverlay(base, ReadLine(r, lines[0]), lines[1..]);
    }
  }

  lemma OverlayNothing(base: Sections)
    ensures Overlay(base, map[]) == base
  {
    var o := Overlay(base, map[]);
    assert o.Keys == base.Keys;
    forall n | n in o ensures o[n] == base[n] {
      assert base[n] + map[] == base[n];
    }
  }

  /**
   Parsing a, a newline and b is parsing a, then laying over it what b says on its
   own when it starts in the section a ends in. The last write of a key wins.
   */
  lemma ParseIsOverlay(a: string, b: string)
    ensures var first := Continue(NOTHING, a);
            var second := Continue(Reading(map[], first.current), b);
            Continue(NOTHING, a + "\n" + b) == Reading(Overlay(first.sections, second.sections), second.current)
  {
    TextsCompose(NOTHING, a, b);
    var first := Continue(NOTHING, a);
    hide ReadLines, GetLines;
    OverlayNothing(first.sections);
    LinesOverlay(first.sections, Reading(map[], first.current), GetLines(b));
  }

  // ------------------------------------------------------ lines without effect

  /** Blank, a comment, or neither a heading nor an entry. */
  predicate IsNoise(line: string) {
    var t := Trim(line);
    IsRemark(t) || (!IsHeading(t) && '=' !in t)
  }

  /** These are the lines that change nothing, whatever came before. */
  lemma NoiseIsIdle(line: string)
    ensures IsNoise(line) <==> forall r :: ReadLine(r, line) == r
  {
    var t := Trim(line);
    if !IsNoise(line) {
      var other := Reading(map[], t + " ");
      if IsHeading(t) {
        assert |ReadLine(other, line).current| < |other.current|;
      } else {
        assert EqualsAt(t) < |t| by { assert t[..|t|] == t; }
        assert other.current in ReadLine(other, line).sections;
      }
    } else if !IsRemark(t) {
      assert EqualsAt(t) == |t|;
    }
  }

  /** Such a line can be inserted anywhere. */
  lemma NoiseInserts(a: string, line: string, b: string)
    requires IsNoise(line) && OneLine(line)
    ensures Continue(NOTHING, a + "\n" + line + "\n" + b) == Continue(NOTHING, a + "\n" + b)
  {
    assert a + "\n" + line + "\n" + b == a + "\n" + (line + "\n" + b);
    TextsCompose(NOTHING, a, line + "\n" + b);
    TextsCompose(NOTHING, a, b);
    var r := Continue(NOTHING, a);
    TextsCompose(r, line, b);
    NoiseIsIdle(line);
    if line != "" {
      LinesUnique([], line);
      assert Unlines([]) + line == line;
      assert GetLines(line) == [line];
      LastLine(r, line);
    } else {
      assert GetLines(line) == [];
    }
  }
}
