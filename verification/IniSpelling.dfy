/**
 Lines of a configuration as people write them: blanks, named by their codes, around keys,
 values, headings and at the ends of lines.
 */
module IniSpelling {
  import opened Ini
  import opened IniLayout
  import opened LineText

  /** Nothing but spaces (32), tabs (9), carriage returns (13) and newlines (10). */
  predicate OnlyBlanks(s: string) {
    forall i :: 0 <= i < |s| ==> BlankCode(s[i] as int)
  }

  predicate BlankCode(code: int) {
    code == 32 || code == 9 || code == 13 || code == 10
  }

  lemma BlankByCode(c: char)
    ensures BlankCode(c as int) <==> IsBlank(c)
  {
  }

  lemma BlanksAreBlank(s: string)
    ensures OnlyBlanks(s) <==> AllBlank(s)
  {
    forall i | 0 <= i < |s| ensures BlankCode(s[i] as int) <==> IsBlank(s[i]) {
      BlankByCode(s[i]);
    }
    hide BlankCode, IsBlank;
  }

  /** Inked at both ends. */
  predicate NoBlankEnds(s: string) {
    s != "" ==> !BlankCode(s[0] as int) && !BlankCode(s[|s| - 1] as int)
  }

  lemma TrimByCode(before: string, core: string, after: string)
    requires OnlyBlanks(before) && OnlyBlanks(after) && NoBlankEnds(core)
    ensures Trim(before + core + after) == core
  {
    BlanksAreBlank(before);
    BlanksAreBlank(after);
    if core != "" {
      BlankByCode(core[0]);
      BlankByCode(core[|core| - 1]);
    }
    hide Trim, BlankCode, IsBlank;
    TrimIsCore(before, core, after);
  }

  /** A section name in brackets, with blanks around them. */
  lemma SpacedHeadingIsRead(r: Reading, before: string, name: string, after: string)
    requires OnlyBlanks(before) && OnlyBlanks(after)
    ensures ReadLine(r, before + ("[" + name + "]") + after) == r.(current := name)
  {
    var core := "[" + name + "]";
    TrimByCode(before, core, after);
    hide Trim, OnlyBlanks;
    assert core[1..|core| - 1] == name;
  }

  /** What starts with a semicolon (59) or a number sign (35) behind its blanks says nothing. */
  lemma RemarkIsIdle(r: Reading, before: string, mark: char, remark: string)
    requires OnlyBlanks(before) && (mark as int == 59 || mark as int == 35)
    ensures ReadLine(r, before + ([mark] + remark)) == r
  {
    var s := before + ([mark] + remark);
    BlanksAreBlank(before);
    BlankByCode(mark);
    FirstIs(s, before, [mark] + remark);
    InkMeets(s);
    hide FirstInk, LastInk, OnlyBlanks;
    assert s[|before|] == mark;
  }

  /** Nor does a line of blanks. */
  lemma BlankLineIsIdle(r: Reading, line: string)
    requires OnlyBlanks(line)
    ensures ReadLine(r, line) == r
  {
    TrimByCode(line, "", "");
    assert line + "" + "" == line;
    hide Trim;
  }

  /** An entry nothing in which is taken for something else: its ends, a remark (59, 35) or a heading (91, 93). */
  predicate PlainEntry(key: string, value: string) {
    && NoBlankEnds(key) && NoBlankEnds(value) && '=' !in key
    && (key != "" ==> key[0] as int != 59 && key[0] as int != 35)
    && !(key != "" && key[0] as int == 91 && value != "" && value[|value| - 1] as int == 93)
  }

  /** The key and the blanks behind it, none if there is no key. */
  function Left(key: string, blanks: string): string {
    if key == "" then "" else key + blanks
  }

  function Right(blanks: string, value: string): string {
    if value == "" then "" else blanks + value
  }

  lemma LeftIsKey(key: string, blanks: string)
    requires OnlyBlanks(blanks) && NoBlankEnds(key) && '=' !in key
    ensures Trim(Left(key, blanks)) == key && '=' !in Left(key, blanks)
    ensures if key == "" then Left(key, blanks) == "" else Left(key, blanks) != "" && Left(key, blanks)[0] == key[0]
  {
    if key == "" {
      TrimByCode("", "", "");
    } else {
      TrimByCode("", key, blanks);
      assert "" + key + blanks == key + blanks;
    }
    hide Trim;
    forall i | 0 <= i < |blanks| ensures blanks[i] != '=' {
      assert BlankCode(blanks[i] as int);
    }
  }

  lemma RightIsValue(blanks: string, value: string)
    requires OnlyBlanks(blanks) && NoBlankEnds(value)
    ensures var right := Right(blanks, value);
            Trim(right) == value &&
            if value == "" then right == "" else right != "" && right[|right| - 1] == value[|value| - 1]
  {
    if value == "" {
      TrimByCode("", "", "");
    } else {
      TrimByCode(blanks, value, "");
      assert blanks + value + "" == blanks + value;
    }
    hide Trim;
  }

  /** An entry's line, its ends trimmed, is no remark and no heading. */
  lemma CoreIsEntry(key: string, value: string, left: string, right: string)
    requires PlainEntry(key, value)
    requires if key == "" then left == "" else left != "" && left[0] == key[0]
    requires if value == "" then right == "" else right != "" && right[|right| - 1] == value[|value| - 1]
    ensures var t := left + "=" + right;
            NoBlankEnds(t) && !IsRemark(t) && !IsHeading(t)
  {
    var t := left + "=" + right;
    assert t[0] == if key == "" then '=' else key[0];
    assert t[|t| - 1] == if value == "" then '=' else value[|value| - 1];
  }

  lemma CoreIsRead(r: Reading, lead: string, left: string, right: string, tail: string)
    requires OnlyBlanks(lead) && OnlyBlanks(tail) && '=' !in left
    requires var t := left + "=" + right; NoBlankEnds(t) && !IsRemark(t) && !IsHeading(t)
    ensures ReadLine(r, lead + (left + "=" + right) + tail)
         == r.(sections := Ini.Put(r.sections, r.current, Trim(left), Trim(right)))
  {
    var t := left + "=" + right;
    TrimByCode(lead, t, tail);
    EqualsFirst(left, right);
    hide Trim, EqualsAt, OnlyBlanks, IsRemark, IsHeading, NoBlankEnds, Ini.Put;
    assert t[..|left|] == left && t[|left| + 1..] == right;
  }

  lemma Around(lead: string, left: string, right: string, tail: string)
    ensures lead + (left + "=" + right) + tail == (lead + left) + "=" + (right + tail)
  {
  }

  lemma Regrouped(w0: string, key: string, w1: string, w2: string, value: string, w3: string)
    ensures w0 + key + w1 + "=" + w2 + value + w3 == (w0 + key + w1) + "=" + (w2 + value + w3)
  {
  }

  lemma LeadIs(w0: string, key: string, w1: string)
    ensures (if key == "" then w0 + w1 else w0) + Left(key, w1) == w0 + key + w1
  {
  }

  lemma TailIs(w2: string, value: string, w3: string)
    ensures Right(w2, value) + (if value == "" then w2 + w3 else w3) == w2 + value + w3
  {
  }

  lemma BlanksJoin(a: string, b: string)
    requires OnlyBlanks(a) && OnlyBlanks(b)
    ensures OnlyBlanks(a + b)
  {
  }

  /** The entry as its section stores it. */
  function Stored(r: Reading, key: string, value: string): Reading {
    var section: Section := if r.current in r.sections then r.sections[r.current] else map[];
    Reading(r.sections[r.current := section[key := value]], r.current)
  }

  /**
   However an entry is spaced, and whichever of the blanks ends its line, a carriage
   return say, it is stored under the current section as key and value.
   */
  lemma SpacedEntryIsRead(r: Reading, w0: string, key: string, w1: string, w2: string, value: string, w3: string)
    requires OnlyBlanks(w0) && OnlyBlanks(w1) && OnlyBlanks(w2) && OnlyBlanks(w3) && PlainEntry(key, value)
    ensures ReadLine(r, w0 + key + w1 + "=" + w2 + value + w3) == Stored(r, key, value)
  {
    LeftIsKey(key, w1);
    RightIsValue(w2, value);
    CoreIsEntry(key, value, Left(key, w1), Right(w2, value));
    BlanksJoin(w0, w1);
    BlanksJoin(w2, w3);
    hide Trim, ReadLine, OnlyBlanks, IsRemark, IsHeading, NoBlankEnds, Left, Right;
    var lead, tail := if key == "" then w0 + w1 else w0, if value == "" then w2 + w3 else w3;
    CoreIsRead(r, lead, Left(key, w1), Right(w2, value), tail);
    Around(lead, Left(key, w1), Right(w2, value), tail);
    Regrouped(w0, key, w1, w2, value, w3);
    LeadIs(w0, key, w1);
    TailIs(w2, value, w3);
  }

  /** As it is usually written: with a space on either side of the sign. */
  lemma UsualEntryIsRead(r: Reading, key: string, value: string)
    requires PlainEntry(key, value)
    ensures ReadLine(r, key + " = " + value) == Stored(r, key, value)
  {
    SpacedEntryIsRead(r, "", key, " ", " ", value, "");
    UsualText(key, value);
    hide ReadLine, PlainEntry, Stored;
  }

  lemma UsualText(key: string, value: string)
    ensures "" + key + " " + "=" + " " + value + "" == key + " = " + value
  {
  }

  /** And on a line from a system that ends them with a carriage return too. */
  lemma ReturnedEntryIsRead(r: Reading, key: string, value: string)
    requires PlainEntry(key, value)
    ensures ReadLine(r, key + "=" + value + "\r") == Stored(r, key, value)
  {
    SpacedEntryIsRead(r, "", key, "", "", value, "\r");
    ReturnedText(key, value);
    hide ReadLine, PlainEntry, Stored;
  }

  lemma ReturnedText(key: string, value: string)
    ensures "" + key + "" + "=" + "" + value + "\r" == key + "=" + value + "\r"
  {
  }

  /** Before any heading the section has no name. */
  lemma EntryWithoutHeading(key: string, value: string)
    requires PlainEntry(key, value) && OneLine(key) && OneLine(value)
    ensures Continue(NOTHING, key + " = " + value).sections == map["" := map[key := value]]
  {
    var line := key + " = " + value;
    UsualEntryIsRead(NOTHING, key, value);
    assert Stored(NOTHING, key, value).sections == map["" := map[key := value]];
    hide ReadLine, PlainEntry, Stored;
    OnlyLine(line);
    LastLine(NOTHING, line);
  }

  lemma OnlyLine(line: string)
    requires OneLine(line) && line != ""
    ensures GetLines(line) == [line]
  {
    NewlineIsFirst(line, "");
    assert line + "" == line;
  }
}
