/** What the GIMP palette reader promises: how each kind of line is handled,
    how repeated names are renamed, that the name list only grows, and that a
    well-formed palette file reads back as the colours it was written from. */
module GplReaderProps {
  import opened PyErrors
  import opened PyText
  import opened GplReader

  // ---- one line at a time ----

  /** Before the colour section, blank lines, "Name:" lines, comments and any
      line that is not a section or column header (e.g. "GIMP Palette") change nothing. */
  lemma HeaderLinesSkipped(st: ReaderState, raw: string)
    requires !st.foundColors
    requires var line := Strip(raw);
      line == [] || (line != "#" && !StartsWith(line, "#Colors:")
                     && (StartsWith(line, "Name:") || !StartsWith(line, "Columns:")))
    ensures Step(st, raw) == Ok(st)
  {
  }

  /** A bare "#" opens the colour section without choosing a style; a
      "#Colors:" header before the section opens it and chooses the
      tab-separated decimal style. */
  lemma SectionOpeners(st: ReaderState, raw: string)
    ensures Strip(raw) == "#" ==> Step(st, raw) == Ok(st.(foundColors := true))
    ensures !st.foundColors && Strip(raw) != "#" && StartsWith(Strip(raw), "#Colors:") ==>
      Step(st, raw) == Ok(st.(style := DecimalRgbHex, foundColors := true))
  {
  }

  /** Python's strip() drops one leading space from an already stripped text. */
  lemma StripAfterSpace(s: string)
    requires s != [] && !IsSpace(s[0]) && !IsSpace(s[|s| - 1])
    ensures Strip(" " + s) == s
  {
    var t := " " + s;
    assert t[1..] == s;
    assert LeadingSpace(t) == 1;
    assert TrailingSpace(t) == 0;
  }

  /** int() skips the blank before a rendered number. */
  lemma ParseIntAfterSpace(n: int)
    ensures ParseInt(" " + DecimalString(n)) == Some(n)
  {
    var digits := DecimalString(n);
    DecimalStringPlain(n);
    assert Strip(" " + digits) == digits by {
      StripAfterSpace(digits);
    }
    ParseIntDecimal(n);
  }

  /** "Columns: N" splits on ':' into the key and " N". */
  lemma ColumnsSplit(n: int)
    ensures SplitOn("Columns: " + DecimalString(n), ':') == ["Columns", " " + DecimalString(n)]
  {
    var digits := DecimalString(n);
    DecimalStringPlain(n);
    assert "Columns: " + digits == "Columns" + [':'] + (" " + digits);
    assert ':' !in " " + digits;
    SplitOnCons("Columns", " " + digits, ':');
    SplitOnNone(" " + digits, ':');
  }

  /** The number written after "Columns:" is the one int() reads back. */
  lemma ColumnsValue(n: int)
    ensures var line := "Columns: " + DecimalString(n);
      |SplitOn(line, ':')| > 1 && ParseInt(SplitOn(line, ':')[1]) == Some(n)
  {
    ColumnsSplit(n);
    ParseIntAfterSpace(n);
  }

  /** "Columns: N" is already stripped and is recognised as a column header only. */
  lemma ColumnsShape(n: int)
    ensures var line := "Columns: " + DecimalString(n);
      && Strip(line) == line && line != [] && line != "#"
      && !StartsWith(line, "#Colors:") && !StartsWith(line, "Name:")
      && StartsWith(line, "Columns:")
  {
    var digits := DecimalString(n);
    var line := "Columns: " + digits;
    DecimalStringPlain(n);
    assert line[|line| - 1] == digits[|digits| - 1];
    assert line[0] == 'C';
    FirstCharDiffers(line, "#Colors:");
    FirstCharDiffers(line, "Name:");
    assert line[..8] == "Columns:";
  }

  /** "Columns: N" before the colour section: N = 1 selects the decimal+hex
      style, N = 3 or 16 the named style, and any other N raises. */
  lemma ColumnsHeader(st: ReaderState, n: int)
    requires !st.foundColors
    ensures Step(st, "Columns: " + DecimalString(n)) ==
      if n == 1 then Ok(st.(style := DecimalRgbHex))
      else if n == 3 || n == 16 then Ok(st.(style := Named))
      else Err(NotImplementedError(DecimalString(n) + " columns for colors"))
  {
    var line := "Columns: " + DecimalString(n);
    ColumnsValue(n);
    ColumnsShape(n);
    assert Step(st, line) ==
      match ColumnsStyle(line)
      case Err(e) => Err(e)
      case Ok(style) => Ok(st.(style := style));
  }

  /** A colour line reached while the style is still unknown (a bare "#" with
      no header before it) raises. */
  lemma UnknownStyleRaises(st: ReaderState, raw: string)
    requires st.foundColors && st.style == Unknown
    requires Strip(raw) != [] && Strip(raw) != "#"
    ensures Step(st, raw) == Err(NotImplementedError("Entry style UNKNOWN"))
  {
  }

  /** So a file whose colour section is opened only by a bare "#" fails on its
      first colour line. */
  lemma BareHashThenColorRaises(raw: string)
    requires Strip(raw) != [] && Strip(raw) != "#"
    ensures Parse(["#", raw]) == Err(NotImplementedError("Entry style UNKNOWN"))
  {
    var lines := ["#", raw];
    var inSection := Start.(foundColors := true);
    assert Strip("#") == "#";
    assert Step(Start, lines[0]) == Ok(inSection);
    assert lines[1..] == [raw];
    UnknownStyleRaises(inSection, raw);
    assert Run(inSection, [raw]) == Err(NotImplementedError("Entry style UNKNOWN"));
    assert Run(Start, lines) == Run(inSection, [raw]);
  }

  /** Inside the colour section each successfully read line other than "#"
      appends exactly one name; every other line leaves the name list and the
      map alone. */
  lemma StepListsEachColorLine(st: ReaderState, raw: string)
    requires Step(st, raw).Ok?
    ensures var next := Step(st, raw).value;
      if st.foundColors && Strip(raw) != [] && Strip(raw) != "#" then
        && |next.names| == |st.names| + 1
        && next.names[..|st.names|] == st.names
        && next.colorNames[next.names[|st.names|]] == ParseEntry(st.style, Strip(raw)).value.color
      else
        next.names == st.names && next.colorNames == st.colorNames
  {
    var next := Step(st, raw).value;
    if st.foundColors && Strip(raw) != [] && Strip(raw) != "#" {
      assert next.names[..|st.names|] == st.names;
    }
  }

  /** A colour line whose name is already taken is stored under the name plus
      '_rrggbb'; the earlier entry keeps its bare name and its colour. A fresh
      name is stored as it is. */
  lemma RenameOnDuplicate(st: ReaderState, raw: string, e: Entry)
    requires st.foundColors && Strip(raw) != [] && Strip(raw) != "#"
    requires ParseEntry(st.style, Strip(raw)) == Ok(e)
    ensures Step(st, raw).Ok?
    ensures var next := Step(st, raw).value;
      && (e.name !in st.colorNames ==> next.names == st.names + [e.name])
      && (e.name in st.colorNames ==>
            && next.names == st.names + [e.name + Suffix(e.color)]
            && e.name + Suffix(e.color) != e.name
            && next.colorNames[e.name] == st.colorNames[e.name])
      && next.colorNames[next.names[|next.names| - 1]] == e.color
  {
    var renamed := e.name + Suffix(e.color);
    assert |renamed| > |e.name|;
  }

  /** The renaming does not guarantee unique names: when the suffixed name is
      itself already taken, the earlier colour under that name is overwritten
      and the list holds that name twice. */
  lemma RenameCanCollide(st: ReaderState, raw: string, e: Entry)
    requires NamesKnown(st.colorNames, st.names)
    requires st.foundColors && Strip(raw) != [] && Strip(raw) != "#"
    requires ParseEntry(st.style, Strip(raw)) == Ok(e)
    requires e.name in st.colorNames && e.name + Suffix(e.color) in st.colorNames
    ensures Step(st, raw).Ok?
    ensures var next := Step(st, raw).value;
      && next.colorNames.Keys == st.colorNames.Keys
      && next.colorNames[e.name + Suffix(e.color)] == e.color
      && exists i :: 0 <= i < |st.names| && next.names[i] == next.names[|st.names|]
  {
    var renamed := e.name + Suffix(e.color);
    var next := Step(st, raw).value;
    assert renamed in st.names;
    var i :| 0 <= i < |st.names| && st.names[i] == renamed;
    assert next.names[i] == next.names[|st.names|];
  }

  // ---- whole runs ----

  /** Each turn of the loop keeps every listed name in the map and every key listed. */
  lemma StepKeepsNamesKnown(st: ReaderState, raw: string)
    requires NamesKnown(st.colorNames, st.names)
    requires Step(st, raw).Ok?
    ensures NamesKnown(Step(st, raw).value.colorNames, Step(st, raw).value.names)
  {
    var next := Step(st, raw).value;
    forall n
      ensures n in next.colorNames <==> n in next.names
    {
      if next.names != st.names {
        assert next.names == st.names + [next.names[|st.names|]] by {
          StepListsEachColorLine(st, raw);
        }
      }
    }
  }

  lemma {:induction false} RunKeepsNamesKnown(st: ReaderState, lines: seq<string>)
    requires NamesKnown(st.colorNames, st.names)
    requires Run(st, lines).Ok?
    ensures NamesKnown(Run(st, lines).value.colorNames, Run(st, lines).value.names)
    decreases |lines|
  {
    if lines != [] {
      StepKeepsNamesKnown(st, lines[0]);
      RunKeepsNamesKnown(Step(st, lines[0]).value, lines[1..]);
    }
  }

  /** Every name in the list has a colour in the map and every key is listed,
      so looking each listed name up cannot fail. */
  lemma ParseNamesKnown(lines: seq<string>)
    requires Parse(lines).Ok?
    ensures NamesKnown(Parse(lines).value.colorNames, Parse(lines).value.names)
  {
    RunKeepsNamesKnown(Start, lines);
  }

  /** Names are only ever appended and keys only ever added: an entry, once
      listed, keeps its place and its name for the rest of the file. */
  lemma {:induction false} RunOnlyAppends(st: ReaderState, lines: seq<string>)
    requires Run(st, lines).Ok?
    ensures var last := Run(st, lines).value;
      && |st.names| <= |last.names| && last.names[..|st.names|] == st.names
      && st.colorNames.Keys <= last.colorNames.Keys
      && |last.names| <= |st.names| + |lines|
    decreases |lines|
  {
    if lines != [] {
      var next := Step(st, lines[0]).value;
      StepListsEachColorLine(st, lines[0]);
      RunOnlyAppends(next, lines[1..]);
      var last := Run(st, lines).value;
      assert last.names[..|st.names|] == last.names[..|next.names|][..|st.names|];
    }
  }

  /** The loop over a + b is the loop over a, then over b from where a left off. */
  lemma {:induction false} RunConcat(st: ReaderState, a: seq<string>, b: seq<string>)
    ensures Run(st, a + b) ==
      match Run(st, a)
      case Err(e) => Err(e)
      case Ok(mid) => Run(mid, b)
    decreases |a|
  {
    if a == [] {
      assert a + b == b;
    } else {
      assert (a + b)[0] == a[0] && (a + b)[1..] == a[1..] + b;
      if Step(st, a[0]).Ok? {
        RunConcat(Step(st, a[0]).value, a[1..], b);
      }
    }
  }

  // ---- round trip: a palette written out as a .gpl file reads back ----

  /** The colour field of a named-style line: "R G B". */
  function NamedColors(c: Rgb): string {
    DecimalString(c.r) + " " + DecimalString(c.g) + " " + DecimalString(c.b)
  }

  /** A colour line in the named style: "R G B<TAB>name". */
  function NamedLine(e: Entry): string {
    Join([NamedColors(e.color), e.name], '\t')
  }

  /** A colour line in the decimal+hex style: "R<TAB>G<TAB>B<TAB>name". */
  function HexLine(e: Entry): string {
    Join([DecimalString(e.color.r), DecimalString(e.color.g), DecimalString(e.color.b), e.name], '\t')
  }

  function EntryLine(style: EntryStyle, e: Entry): string {
    if style == Named then NamedLine(e) else HexLine(e)
  }

  function EntryLines(style: EntryStyle, es: seq<Entry>): seq<string> {
    if es == [] then [] else [EntryLine(style, es[0])] + EntryLines(style, es[1..])
  }

  function EntryNames(es: seq<Entry>): seq<string> {
    if es == [] then [] else [es[0].name] + EntryNames(es[1..])
  }

  function EntryColors(es: seq<Entry>): seq<Rgb> {
    if es == [] then [] else [es[0].color] + EntryColors(es[1..])
  }

  function EntryMap(es: seq<Entry>): map<string, Rgb> {
    if es == [] then map[] else map[es[0].name := es[0].color] + EntryMap(es[1..])
  }

  /** A name that can stand last on a line: non-empty, no tab, not ending in whitespace. */
  predicate PlainName(name: string) {
    name != [] && '\t' !in name && !IsSpace(name[|name| - 1])
  }

  /** Entries a .gpl file can hold without renaming: plain names, no name twice. */
  predicate WellFormedEntries(es: seq<Entry>) {
    && (forall i :: 0 <= i < |es| ==> PlainName(es[i].name))
    && (forall i, j :: 0 <= i < j < |es| ==> es[i].name != es[j].name)
  }

  lemma {:induction false} EntryNamesAt(es: seq<Entry>)
    ensures |EntryNames(es)| == |es| && |EntryColors(es)| == |es|
    ensures forall i :: 0 <= i < |es| ==> EntryNames(es)[i] == es[i].name && EntryColors(es)[i] == es[i].color
  {
    if es != [] {
      EntryNamesAt(es[1..]);
    }
  }

  /** The map built from the entries has exactly their names as keys. */
  lemma {:induction false} EntryMapKeys(es: seq<Entry>)
    ensures forall n :: n in EntryMap(es) <==> exists i :: 0 <= i < |es| && es[i].name == n
  {
    if es != [] {
      EntryMapKeys(es[1..]);
      forall n | n in EntryMap(es)
        ensures exists i :: 0 <= i < |es| && es[i].name == n
      {
        if n != es[0].name {
          assert n in EntryMap(es[1..]);
          var k :| 0 <= k < |es[1..]| && es[1..][k].name == n;
          assert es[k + 1].name == n;
        }
      }
      forall n | exists i :: 0 <= i < |es| && es[i].name == n
        ensures n in EntryMap(es)
      {
        var i :| 0 <= i < |es| && es[i].name == n;
        if i > 0 {
          assert es[1..][i - 1].name == n;
        }
      }
    }
  }

  /** With distinct names, the map built from the entries gives each entry's colour. */
  lemma {:induction false} EntryMapValues(es: seq<Entry>)
    requires forall i, j :: 0 <= i < j < |es| ==> es[i].name != es[j].name
    ensures forall i :: 0 <= i < |es| ==> es[i].name in EntryMap(es) && EntryMap(es)[es[i].name] == es[i].color
  {
    if es != [] {
      EntryMapValues(es[1..]);
      EntryMapKeys(es[1..]);
      assert es[0].name !in EntryMap(es[1..]) by {
        forall k | 0 <= k < |es[1..]|
          ensures es[1..][k].name != es[0].name
        {
          assert es[1..][k] == es[k + 1];
        }
      }
      forall i | 0 <= i < |es|
        ensures es[i].name in EntryMap(es) && EntryMap(es)[es[i].name] == es[i].color
      {
        if i > 0 {
          assert es[1..][i - 1] == es[i];
        }
      }
    }
  }

  /** Inside the colour section, a line that is neither blank nor "#" is read
      as a colour entry in the current style. */
  lemma StepColorLine(st: ReaderState, raw: string)
    requires st.foundColors && Strip(raw) != [] && Strip(raw) != "#"
    ensures Step(st, raw) ==
      match ParseEntry(st.style, Strip(raw))
      case Err(e) => Err(e)
      case Ok(e) => Ok(AddColor(st, e))
  {
  }

  /** A written colour line starts with a digit or '-' and ends with the name,
      so strip() leaves it as it is. */
  lemma EntryLineStripped(style: EntryStyle, e: Entry)
    requires PlainName(e.name)
    ensures var line := EntryLine(style, e);
      Strip(line) == line && line != [] && line != "#"
  {
    var r := DecimalString(e.color.r);
    DecimalStringPlain(e.color.r);
    var parts := if style == Named then [NamedColors(e.color), e.name]
      else [r, DecimalString(e.color.g), DecimalString(e.color.b), e.name];
    assert parts[0][0] == r[0];
    JoinFirst(parts, '\t');
    JoinLast(parts, '\t');
    var line := EntryLine(style, e);
    assert line == Join(parts, '\t');
    assert line[0] != '#';
  }

  /** A named-style line splits on tabs into its colour field and its name. */
  lemma NamedLineFields(e: Entry)
    requires PlainName(e.name)
    ensures SplitOn(NamedLine(e), '\t') == [NamedColors(e.color), e.name]
  {
    var colors := NamedColors(e.color);
    DecimalStringPlain(e.color.r);
    DecimalStringPlain(e.color.g);
    DecimalStringPlain(e.color.b);
    assert '\t' !in colors;
    SplitOnJoinInverse([colors, e.name], '\t');
  }

  /** The colour field splits on whitespace into the three numbers. */
  lemma NamedColorsWords(c: Rgb)
    ensures Words(NamedColors(c)) == [DecimalString(c.r), DecimalString(c.g), DecimalString(c.b)]
  {
    DecimalStringPlain(c.r);
    DecimalStringPlain(c.g);
    DecimalStringPlain(c.b);
    WordsOfThree(DecimalString(c.r), DecimalString(c.g), DecimalString(c.b));
  }

  lemma NamedLineParses(e: Entry)
    requires PlainName(e.name)
    ensures ParseNamedEntry(NamedLine(e)) == Ok(e)
  {
    NamedLineFields(e);
    NamedColorsWords(e.color);
    ParseIntDecimal(e.color.r);
    ParseIntDecimal(e.color.g);
    ParseIntDecimal(e.color.b);
  }

  /** A decimal+hex line splits on tabs into the three numbers and the name. */
  lemma HexLineFields(e: Entry)
    requires PlainName(e.name)
    ensures SplitOn(HexLine(e), '\t') ==
      [DecimalString(e.color.r), DecimalString(e.color.g), DecimalString(e.color.b), e.name]
  {
    DecimalStringPlain(e.color.r);
    DecimalStringPlain(e.color.g);
    DecimalStringPlain(e.color.b);
    SplitOnJoinInverse([DecimalString(e.color.r), DecimalString(e.color.g), DecimalString(e.color.b), e.name], '\t');
  }

  lemma HexLineParses(e: Entry)
    requires PlainName(e.name)
    ensures ParseHexEntry(HexLine(e)) == Ok(e)
  {
    HexLineFields(e);
    ParseIntDecimal(e.color.r);
    ParseIntDecimal(e.color.g);
    ParseIntDecimal(e.color.b);
  }

  /** A written colour line is already stripped, is not "#", and reads back as its entry. */
  lemma EntryLineParses(style: EntryStyle, e: Entry)
    requires style != Unknown && PlainName(e.name)
    ensures var line := EntryLine(style, e);
      Strip(line) == line && line != [] && line != "#" && ParseEntry(style, line) == Ok(e)
  {
    EntryLineStripped(style, e);
    if style == Named {
      NamedLineParses(e);
    } else {
      HexLineParses(e);
    }
  }

  /** Inside the colour section, a written colour line adds its entry. */
  lemma StepEntryLine(st: ReaderState, e: Entry)
    requires st.foundColors && st.style != Unknown && PlainName(e.name)
    ensures Step(st, EntryLine(st.style, e)) == Ok(AddColor(st, e))
  {
    EntryLineParses(st.style, e);
    StepColorLine(st, EntryLine(st.style, e));
  }

  /** The entries after the first are well formed too, and none of them
      reuses the first one's name. */
  lemma WellFormedTail(es: seq<Entry>)
    requires es != [] && WellFormedEntries(es)
    ensures WellFormedEntries(es[1..])
    ensures forall i :: 0 <= i < |es[1..]| ==> es[1..][i] == es[i + 1] && es[i + 1].name != es[0].name
  {
    forall i, j | 0 <= i < j < |es[1..]|
      ensures es[1..][i].name != es[1..][j].name
    {
      assert es[1..][i] == es[i + 1] && es[1..][j] == es[j + 1];
    }
  }

  /** Regrouping a map update and a union; a lemma of its own so that the
      induction step of RunReadsAs does not carry it in its solver context. */
  lemma MapUpdateThenUnion(m: map<string, Rgb>, k: string, v: Rgb, rest: map<string, Rgb>)
    ensures m[k := v] + rest == m + (map[k := v] + rest)
  {
  }

  /** Regrouping an append and a concatenation, kept apart for the same reason. */
  lemma AppendThenConcat(a: seq<string>, x: string, b: seq<string>)
    ensures (a + [x]) + b == a + ([x] + b)
  {
  }

  /** A line that, inside the colour section, is read as the given entry. */
  predicate ReadsAs(style: EntryStyle, line: string, e: Entry) {
    Strip(line) != [] && Strip(line) != "#" && ParseEntry(style, Strip(line)) == Ok(e)
  }

  /** Inside the colour section, lines that each read as one of a list of
      entries with distinct, not yet used names add those entries in order,
      none renamed. */
  lemma {:induction false} RunReadsAs(st: ReaderState, lines: seq<string>, es: seq<Entry>)
    requires st.foundColors && |lines| == |es|
    requires forall i :: 0 <= i < |lines| ==> ReadsAs(st.style, lines[i], es[i])
    requires WellFormedEntries(es)
    requires forall i :: 0 <= i < |es| ==> es[i].name !in st.colorNames
    ensures Run(st, lines) ==
      Ok(st.(colorNames := st.colorNames + EntryMap(es), names := st.names + EntryNames(es)))
    decreases |lines|
  {
    if es == [] {
      assert st.names + [] == st.names;
      assert st.colorNames + map[] == st.colorNames;
    } else {
      var first, rest := es[0], es[1..];
      assert ReadsAs(st.style, lines[0], first);
      StepColorLine(st, lines[0]);
      var next := st.(colorNames := st.colorNames[first.name := first.color], names := st.names + [first.name]);
      assert Step(st, lines[0]) == Ok(next);
      assert forall i :: 0 <= i < |lines[1..]| ==> lines[1..][i] == lines[i + 1];
      WellFormedTail(es);
      RunReadsAs(next, lines[1..], rest);
      MapUpdateThenUnion(st.colorNames, first.name, first.color, EntryMap(rest));
      assert EntryNames(es) == [first.name] + EntryNames(rest);
      AppendThenConcat(st.names, first.name, EntryNames(rest));
    }
  }

  lemma {:induction false} EntryLinesAt(style: EntryStyle, es: seq<Entry>)
    ensures |EntryLines(style, es)| == |es|
    ensures forall i :: 0 <= i < |es| ==> EntryLines(style, es)[i] == EntryLine(style, es[i])
  {
    if es != [] {
      EntryLinesAt(style, es[1..]);
    }
  }

  /** Inside the colour section, the written lines of distinct, not yet used
      names are each read as one new entry, in order, none renamed. */
  lemma RunEntries(st: ReaderState, style: EntryStyle, es: seq<Entry>)
    requires st.foundColors && st.style == style && style != Unknown
    requires WellFormedEntries(es)
    requires forall i :: 0 <= i < |es| ==> es[i].name !in st.colorNames
    ensures Run(st, EntryLines(style, es)) ==
      Ok(st.(colorNames := st.colorNames + EntryMap(es), names := st.names + EntryNames(es)))
  {
    var lines := EntryLines(style, es);
    EntryLinesAt(style, es);
    forall i | 0 <= i < |lines|
      ensures ReadsAs(style, lines[i], es[i])
    {
      EntryLineParses(style, es[i]);
    }
    RunReadsAs(st, lines, es);
  }

  /** The header GIMP writes for a named-style palette. */
  const NamedHeader: seq<string> := ["GIMP Palette", "Name: eink", "Columns: " + DecimalString(3), "#"]

  lemma NamedHeaderTitle()
    ensures Step(Start, NamedHeader[0]) == Ok(Start)
  {
    var line := NamedHeader[0];
    assert Strip(line) == line by {
      assert !IsSpace(line[0]) && !IsSpace(line[|line| - 1]);
    }
    assert !StartsWith(line, "#Colors:") by {
      FirstCharDiffers(line, "#Colors:");
    }
    assert !StartsWith(line, "Columns:") by {
      FirstCharDiffers(line, "Columns:");
    }
    assert line != "#" by {
      assert |line| != 1;
    }
    HeaderLinesSkipped(Start, line);
  }

  lemma NamedHeaderName()
    ensures Step(Start, NamedHeader[1]) == Ok(Start)
  {
    var line := NamedHeader[1];
    assert Strip(line) == line by {
      assert !IsSpace(line[0]) && !IsSpace(line[|line| - 1]);
    }
    assert !StartsWith(line, "#Colors:") by {
      FirstCharDiffers(line, "#Colors:");
    }
    assert StartsWith(line, "Name:") by {
      assert line[..5] == "Name:";
    }
    assert line != "#" by {
      assert |line| != 1;
    }
    HeaderLinesSkipped(Start, line);
  }

  lemma NamedHeaderHash(st: ReaderState)
    ensures Step(st, NamedHeader[3]) == Ok(st.(foundColors := true))
  {
    assert Strip(NamedHeader[3]) == "#";
  }

  /** A line that the reader takes in its stride moves the loop on by one line. */
  lemma RunStep(st: ReaderState, raw: string, rest: seq<string>, next: ReaderState)
    requires Step(st, raw) == Ok(next)
    ensures Run(st, [raw] + rest) == Run(next, rest)
  {
    assert ([raw] + rest)[0] == raw && ([raw] + rest)[1..] == rest;
  }

  lemma NamedHeaderRun(h: seq<string>)
    requires h == NamedHeader
    ensures Run(Start, h) == Ok(Start.(style := Named, foundColors := true))
  {
    var st := Start.(style := Named);
    var t3 := [h[3]] + [];
    var t2 := [h[2]] + t3;
    var t1 := [h[1]] + t2;
    assert h == [h[0]] + t1;
    assert Run(Start, [h[0]] + t1) == Run(Start, t1) by {
      NamedHeaderTitle();
      RunStep(Start, h[0], t1, Start);
    }
    assert Run(Start, t1) == Run(Start, t2) by {
      NamedHeaderName();
      RunStep(Start, h[1], t2, Start);
    }
    assert Run(Start, t2) == Run(st, t3) by {
      ColumnsHeader(Start, 3);
      RunStep(Start, h[2], t3, st);
    }
    assert Run(st, t3) == Run(st.(foundColors := true), []) by {
      NamedHeaderHash(st);
      RunStep(st, h[3], [], st.(foundColors := true));
    }
  }

  /** A lone "#Colors:" line opens the section in the decimal+hex style. */
  lemma HexHeaderRun(h: seq<string>)
    requires h == ["#Colors:"]
    ensures Run(Start, h) == Ok(Start.(style := DecimalRgbHex, foundColors := true))
  {
    var line := h[0];
    assert Strip(line) == line by {
      assert !IsSpace(line[0]) && !IsSpace(line[|line| - 1]);
    }
    assert line != "#" && StartsWith(line, "#Colors:");
    SectionOpeners(Start, line);
    RunStep(Start, line, [], Start.(style := DecimalRgbHex, foundColors := true));
    assert h == [line] + [];
  }

  /** A file whose header leaves the reader inside the colour section with
      nothing read yet reads back as the entries written after it. */
  lemma ParseAfterHeader(header: seq<string>, st: ReaderState, es: seq<Entry>)
    requires Run(Start, header) == Ok(st) && st.colorNames == map[] && st.names == []
    requires Run(st, EntryLines(st.style, es)) ==
      Ok(st.(colorNames := st.colorNames + EntryMap(es), names := st.names + EntryNames(es)))
    ensures Parse(header + EntryLines(st.style, es)) == Ok(Palette(EntryMap(es), EntryNames(es)))
  {
    var lines := EntryLines(st.style, es);
    assert Run(Start, header + lines) == Run(st, lines) by {
      RunConcat(Start, header, lines);
    }
    var last := st.(colorNames := st.colorNames + EntryMap(es), names := st.names + EntryNames(es));
    assert last.colorNames == EntryMap(es) by {
      assert map[] + EntryMap(es) == EntryMap(es);
    }
    assert last.names == EntryNames(es) by {
      assert [] + EntryNames(es) == EntryNames(es);
    }
  }

  /** A named-style palette file reads back as its entries: one name per
      colour line, in file order, each with its colour. */
  lemma ParseNamedFile(es: seq<Entry>)
    requires WellFormedEntries(es)
    ensures Parse(NamedHeader + EntryLines(Named, es)) == Ok(Palette(EntryMap(es), EntryNames(es)))
  {
    var st := Start.(style := Named, foundColors := true);
    NamedHeaderRun(NamedHeader);
    RunEntries(st, Named, es);
    ParseAfterHeader(NamedHeader, st, es);
  }

  /** A decimal+hex palette file, opened by a "#Colors:" header, reads back
      as its entries in the same way. */
  lemma ParseHexFile(es: seq<Entry>)
    requires WellFormedEntries(es)
    ensures Parse(["#Colors:"] + EntryLines(DecimalRgbHex, es)) == Ok(Palette(EntryMap(es), EntryNames(es)))
  {
    var st := Start.(style := DecimalRgbHex, foundColors := true);
    var headerLines := ["#Colors:"];
    assert Run(Start, headerLines) == Ok(st) by {
      HexHeaderRun(headerLines);
    }
    RunEntries(st, DecimalRgbHex, es);
    ParseAfterHeader(headerLines, st, es);
  }
}
