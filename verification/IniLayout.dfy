/**
 Written configurations: which entries read back as they were written, and which
 section maps are what some text says.
 */
module IniLayout {
  import opened Ini
  import opened LineText

  datatype Entry = Entry(key: string, value: string)
  datatype Block = Block(name: string, entries: seq<Entry>)

  function EntryLine(e: Entry): string {
    e.key + "=" + e.value
  }

  function Heading(name: string): string {
    "[" + name + "]"
  }

  /** Nothing in the entry makes its line mean something else. */
  predicate CleanEntry(e: Entry) {
    && IsTrimmed(e.key) && IsTrimmed(e.value) && '=' !in e.key
    && (e.key != "" ==> e.key[0] != ';' && e.key[0] != '#')
    && !(e.key != "" && e.key[0] == '[' && e.value != "" && e.value[|e.value| - 1] == ']')
  }

  // -------------------------------------------------------------- lines read back

  lemma TrimmedStays(s: string)
    requires IsTrimmed(s)
    ensures Trim(s) == s
  {
    TrimIsCore("", s, "");
    assert "" + s + "" == s;
  }

  /** Any section name reads back from its heading. */
  lemma HeadingIsRead(r: Reading, name: string)
    ensures ReadLine(r, Heading(name)) == r.(current := name)
  {
    var line := Heading(name);
    TrimmedStays(line);
    assert line[1..|line| - 1] == name;
  }

  lemma EqualsFirst(key: string, value: string)
    requires '=' !in key
    ensures EqualsAt(key + "=" + value) == |key|
  {
    var t := key + "=" + value;
    var i := EqualsAt(t);
    assert t[|key|] == '=' && forall k :: 0 <= k < |key| ==> t[k] == key[k];
    assert forall k :: 0 <= k < i ==> t[..i][k] == t[k];
  }

  lemma CleanIsRead(r: Reading, e: Entry)
    requires CleanEntry(e)
    ensures ReadLine(r, EntryLine(e)) == r.(sections := Put(r.sections, r.current, e.key, e.value))
  {
    var t := EntryLine(e);
    EqualsFirst(e.key, e.value);
    TrimmedStays(t);
    assert t[..|e.key|] == e.key && t[|e.key| + 1..] == e.value;
    TrimmedStays(e.key);
    TrimmedStays(e.value);
    hide Trim, EqualsAt, Put;
  }

  lemma TrimHead(s: string)
    requires s != "" && !IsBlank(s[0])
    ensures Trim(s) != "" && Trim(s)[0] == s[0]
  {
    assert FirstInk(s) == 0;
    InkMeets(s);
  }

  lemma TrimTail(s: string)
    requires s != "" && !IsBlank(s[|s| - 1])
    ensures Trim(s) != "" && Trim(s)[|Trim(s)| - 1] == s[|s| - 1]
  {
    assert LastInk(s) == |s|;
    assert s[..|s|] == s;
    InkMeets(s);
  }

  lemma TrimWithin(s: string, c: char)
    ensures c in Trim(s) ==> c in s
  {
    if FirstInk(s) < |s| {
      InkMeets(s);
    }
  }

  /** The line is an entry. */
  predicate IsEntry(t: string) {
    !IsRemark(t) && !IsHeading(t) && '=' in t
  }

  function EntryOf(t: string): Entry
    requires IsEntry(t)
  {
    Entry(Trim(t[..EqualsAt(t)]), Trim(if EqualsAt(t) < |t| then t[EqualsAt(t) + 1..] else ""))
  }

  lemma EqualsFound(t: string)
    ensures EqualsAt(t) < |t| <==> '=' in t
  {
    if EqualsAt(t) == |t| {
      assert t[..|t|] == t;
    }
  }

  /** What a line can add is clean, whatever the line. */
  lemma EntriesAreClean(t: string)
    requires IsTrimmed(t) && IsEntry(t)
    ensures CleanEntry(EntryOf(t))
  {
    EqualsFound(t);
    var eq := EqualsAt(t);
    var left, right := t[..eq], t[eq + 1..];
    TrimIsTrimmed(left);
    TrimIsTrimmed(right);
    TrimWithin(left, '=');
    hide Trim, EqualsAt, IsBlank;
    if left != "" {
      assert left[0] == t[0];
      TrimHead(left);
    } else {
      TrimWithinAll(left);
    }
    if right != "" {
      assert right[|right| - 1] == t[|t| - 1];
      TrimTail(right);
    } else {
      TrimWithinAll(right);
    }
  }

  lemma TrimWithinAll(s: string)
    requires s == ""
    ensures Trim(s) == ""
  {
  }

  /** An entry reads back as it was written if and only if it is clean. */
  lemma EntryReadsBack(e: Entry)
    ensures CleanEntry(e) <==>
            forall r :: ReadLine(r, EntryLine(e)) == r.(sections := Put(r.sections, r.current, e.key, e.value))
  {
    if CleanEntry(e) {
      forall r ensures ReadLine(r, EntryLine(e)) == r.(sections := Put(r.sections, r.current, e.key, e.value)) {
        CleanIsRead(r, e);
      }
    } else {
      var r := ReadLine(NOTHING, EntryLine(e));
      var t := Trim(EntryLine(e));
      TrimIsTrimmed(EntryLine(e));
      EqualsFound(t);
      hide Trim, EqualsAt, CleanEntry;
      if IsEntry(t) {
        EntriesAreClean(t);
        OnlyEntry(EntryOf(t), e);
      }
      assert r.sections != Put(map[], "", e.key, e.value);
    }
  }

  lemma OnlyEntry(a: Entry, b: Entry)
    requires a != b
    ensures Put(map[], "", a.key, a.value) != Put(map[], "", b.key, b.value)
  {
    var x, y := Put(map[], "", a.key, a.value), Put(map[], "", b.key, b.value);
    assert x[""] == map[a.key := a.value] && y[""] == map[b.key := b.value];
    assert a.key in x[""] && x[""][a.key] == a.value;
  }

  // ----------------------------------------------------------- whole configurations

  function EntryLines(es: seq<Entry>): seq<string> {
    if es == [] then [] else EntryLines(es[..|es| - 1]) + [EntryLine(es[|es| - 1])]
  }

  function LinesOf(layout: seq<Block>): seq<string> {
    if layout == [] then []
    else
      var last := layout[|layout| - 1];
      LinesOf(layout[..|layout| - 1]) + ([Heading(last.name)] + EntryLines(last.entries))
  }

  /** The configuration as text, each line ended by a newline. */
  function Render(layout: seq<Block>): string {
    Unlines(LinesOf(layout))
  }

  function PutAll(m: Sections, name: string, es: seq<Entry>): Sections {
    if es == [] then m
    else
      var last := es[|es| - 1];
      Put(PutAll(m, name, es[..|es| - 1]), name, last.key, last.value)
  }

  /** What a layout says, the last entry for a key winning. */
  function Meaning(layout: seq<Block>): Sections {
    if layout == [] then map[]
    else PutAll(Meaning(layout[..|layout| - 1]), layout[|layout| - 1].name, layout[|layout| - 1].entries)
  }

  predicate Writable(e: Entry) {
    CleanEntry(e) && OneLine(e.key) && OneLine(e.value)
  }

  predicate WritableAll(es: seq<Entry>) {
    forall i :: 0 <= i < |es| ==> Writable(es[i])
  }

  predicate WritableLayout(layout: seq<Block>) {
    forall i :: 0 <= i < |layout| ==> OneLine(layout[i].name) && WritableAll(layout[i].entries)
  }

  lemma {:induction false} EntriesRead(r: Reading, es: seq<Entry>)
    requires WritableAll(es)
    ensures ReadLines(r, EntryLines(es)) == r.(sections := PutAll(r.sections, r.current, es))
    ensures forall i :: 0 <= i < |EntryLines(es)| ==> OneLine(EntryLines(es)[i])
  {
    hide ReadLine, CleanEntry, Put;
    if es != [] {
      var init, last := es[..|es| - 1], es[|es| - 1];
      EntriesRead(r, init);
      ReadMore(r, EntryLines(init), [EntryLine(last)]);
      LastLine(ReadLines(r, EntryLines(init)), EntryLine(last));
      CleanIsRead(ReadLines(r, EntryLines(init)), last);
      hide ReadLines;
    }
  }

  lemma {:induction false} LayoutRead(layout: seq<Block>)
    requires WritableLayout(layout)
    ensures ReadLines(NOTHING, LinesOf(layout)).sections == Meaning(layout)
    ensures forall i :: 0 <= i < |LinesOf(layout)| ==> OneLine(LinesOf(layout)[i])
  {
    hide ReadLine, WritableAll, EntryLines, PutAll;
    if layout != [] {
      var init, last := layout[..|layout| - 1], layout[|layout| - 1];
      LayoutRead(init);
      var r := ReadLines(NOTHING, LinesOf(init));
      BlockRead(r, last);
      ReadMore(NOTHING, LinesOf(init), [Heading(last.name)] + EntryLines(last.entries));
      hide ReadLines;
    }
  }

  lemma BlockRead(r: Reading, b: Block)
    requires OneLine(b.name) && WritableAll(b.entries)
    ensures var lines := [Heading(b.name)] + EntryLines(b.entries);
            && ReadLines(r, lines) == Reading(PutAll(r.sections, b.name, b.entries), b.name)
            && forall i :: 0 <= i < |lines| ==> OneLine(lines[i])
  {
    ReadMore(r, [Heading(b.name)], EntryLines(b.entries));
    LastLine(r, Heading(b.name));
    HeadingIsRead(r, b.name);
    EntriesRead(r.(current := b.name), b.entries);
    hide ReadLine, ReadLines, EntryLines, PutAll;
  }

  /** A written configuration parses to what it says. */
  lemma RenderReadsBack(layout: seq<Block>)
    requires WritableLayout(layout)
    ensures Continue(NOTHING, Render(layout)).sections == Meaning(layout)
  {
    LayoutRead(layout);
    hide LinesOf, Meaning;
    var lines := LinesOf(layout);
    LinesUnique(lines, "");
    assert Unlines(lines) + "" == Unlines(lines);
    assert GetLines(Render(layout)) == lines + [] == lines;
  }

  // --------------------------------------------------------- what texts can say

  predicate CleanSection(m: Section) {
    m != map[] && forall k :: k in m ==> Writable(Entry(k, m[k]))
  }

  predicate CleanSections(m: Sections) {
    forall s :: s in m ==> OneLine(s) && CleanSection(m[s])
  }

  lemma PutIsClean(m: Sections, s: string, e: Entry)
    requires CleanSections(m) && OneLine(s) && Writable(e)
    ensures CleanSections(Put(m, s, e.key, e.value))
  {
    hide Writable, OneLine;
    var p := SectionOf(m, s)[e.key := e.value];
    assert e.key in p;
    forall k | k in p ensures Writable(Entry(k, p[k])) {
      if k == e.key {
        assert Entry(k, p[k]) == e;
      }
    }
  }

  predicate CleanReading(r: Reading) {
    CleanSections(r.sections) && OneLine(r.current)
  }

  lemma LineIsClean(r: Reading, line: string)
    requires CleanReading(r) && OneLine(line)
    ensures CleanReading(ReadLine(r, line))
  {
    var t := Trim(line);
    TrimIsTrimmed(line);
    TrimWithin(line, '\n');
    EqualsFound(t);
    hide CleanSections, Trim, EqualsAt;
    if IsEntry(t) {
      EntriesAreClean(t);
      TrimWithin(t[..EqualsAt(t)], '\n');
      TrimWithin(t[EqualsAt(t) + 1..], '\n');
      PutIsClean(r.sections, r.current, EntryOf(t));
    }
  }

  lemma {:induction false} LinesAreClean(r: Reading, lines: seq<string>)
    requires CleanReading(r) && forall i :: 0 <= i < |lines| ==> OneLine(lines[i])
    ensures CleanReading(ReadLines(r, lines))
    decreases lines
  {
    hide CleanReading, ReadLine, OneLine;
    if lines != [] {
      LineIsClean(r, lines[0]);
      LinesAreClean(ReadLine(r, lines[0]), lines[1..]);
    }
  }

  /** Entries that spell out a section. */
  lemma {:induction false} Spell(m: Section, base: Sections, name: string) returns (es: seq<Entry>)
    requires (forall k :: k in m ==> Writable(Entry(k, m[k]))) && name !in base
    ensures WritableAll(es) && PutAll(base, name, es) == if m == map[] then base else base[name := m]
    decreases |m|
  {
    hide Writable;
    if m == map[] {
      es := [];
    } else {
      var k :| k in m;
      var shorter := m - {k};
      assert shorter.Keys == m.Keys - {k};
      var init := Spell(shorter, base, name);
      es := init + [Entry(k, m[k])];
      assert es[..|es| - 1] == init;
      assert m == shorter[k := m[k]];
      hide WritableAll;
      PutLast(base, name, shorter, k, m[k]);
    }
  }

  lemma PutLast(base: Sections, name: string, m: Section, k: string, v: string)
    requires name !in base
    ensures Put(if m == map[] then base else base[name := m], name, k, v) == base[name := m[k := v]]
  {
  }

  lemma SpellOut(m: Section, base: Sections, name: string) returns (es: seq<Entry>)
    requires CleanSection(m) && name !in base
    ensures WritableAll(es) && PutAll(base, name, es) == base[name := m]
  {
    hide WritableAll;
    es := Spell(m, base, name);
  }

  lemma Without(m: Sections, s: string)
    requires CleanSections(m) && s in m
    ensures var shorter := m - {s};
            |shorter| < |m| && s !in shorter && CleanSections(shorter) && m == shorter[s := m[s]]
  {
    hide CleanSection;
    var shorter := m - {s};
    assert shorter.Keys == m.Keys - {s};
  }

  /** A layout that says a given map. */
  lemma {:induction false} WriteOut(m: Sections) returns (layout: seq<Block>)
    requires CleanSections(m)
    ensures WritableLayout(layout) && Meaning(layout) == m
    decreases |m|
  {
    hide CleanSection, WritableAll, PutAll;
    if m == map[] {
      layout := [];
    } else {
      var s :| s in m;
      Without(m, s);
      var init := WriteOut(m - {s});
      var es := SpellOut(m[s], m - {s}, s);
      hide CleanSections;
      layout := init + [Block(s, es)];
      assert layout[..|layout| - 1] == init;
    }
  }

  /**
   The maps some text says are exactly the clean ones: no section without an entry,
   names on one line, entries that read back.
   */
  lemma SayableIffClean(m: Sections)
    ensures (exists text :: Continue(NOTHING, text).sections == m) <==> CleanSections(m)
  {
    if CleanSections(m) {
      var layout := WriteOut(m);
      RenderReadsBack(layout);
    }
    forall text | Continue(NOTHING, text).sections == m ensures CleanSections(m) {
      LinesAreLines(text);
      LinesAreClean(NOTHING, GetLines(text));
    }
  }
}
