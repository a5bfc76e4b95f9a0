/** The GIMP palette (.gpl) reader of image_convert.py: a line-oriented state
    machine that waits for the colour section, learns the entry style from the
    header, and collects a name -> RGB map and the names in file order. */
module GplReader {
  import opened PyErrors
  import opened PyText

  /** One colour as three Python ints (int() accepts any value, even negative ones). */
  datatype Rgb = Rgb(r: int, g: int, b: int)

  /** 'UNKNOWN', 'NAMED' or 'DECIMAL_RBG+HEX' in the source. */
  datatype EntryStyle = Unknown | Named | DecimalRgbHex

  /** A colour line's name field and colour, before any renaming. */
  datatype Entry = Entry(name: string, color: Rgb)

  /** The reader's local variables: found_colors, color_entry_style,
      color_names and color_names_list. */
  datatype ReaderState = ReaderState(
    foundColors: bool,
    style: EntryStyle,
    colorNames: map<string, Rgb>,
    names: seq<string>)

  /** What the reader returns: (color_names, color_names_list). */
  datatype Palette = Palette(colorNames: map<string, Rgb>, names: seq<string>)

  const Start := ReaderState(false, Unknown, map[], [])

  /** Every listed name has a colour and every colour is listed. */
  ghost predicate NamesKnown(colorNames: map<string, Rgb>, names: seq<string>) {
    forall n :: n in colorNames <==> n in names
  }

  /** '_%02x%02x%02x' % (r, g, b): the suffix that disambiguates a repeated
      name; for byte-sized channels it is '_' and six hex digits spelling the colour. */
  function Suffix(c: Rgb): (s: string)
    ensures |s| >= 7 && s[0] == '_'
    ensures 0 <= c.r < 256 && 0 <= c.g < 256 && 0 <= c.b < 256 ==>
      && |s| == 7
      && HexValue(s[1]) * 16 + HexValue(s[2]) == c.r
      && HexValue(s[3]) * 16 + HexValue(s[4]) == c.g
      && HexValue(s[5]) * 16 + HexValue(s[6]) == c.b
      && forall i :: 1 <= i < 7 ==> 0 <= HexValue(s[i]) < 16
  {
    var hr, hg, hb := Hex2(c.r), Hex2(c.g), Hex2(c.b);
    SuffixLayout(hr, hg, hb);
    "_" + hr + hg + hb
  }

  /** Where the characters of three two-character fields land after the '_'. */
  lemma SuffixLayout(hr: string, hg: string, hb: string)
    ensures var s := "_" + hr + hg + hb;
      && |s| == 1 + |hr| + |hg| + |hb| && s[0] == '_'
      && (|hr| == 2 && |hg| == 2 && |hb| == 2 ==>
            && s[1] == hr[0] && s[2] == hr[1]
            && s[3] == hg[0] && s[4] == hg[1]
            && s[5] == hb[0] && s[6] == hb[1])
  {
  }

  /** The key a colour line is stored under: its own name, or that name with
      the colour's suffix when the name is already in the map. */
  function StoredName(colorNames: map<string, Rgb>, e: Entry): string {
    if e.name in colorNames then e.name + Suffix(e.color) else e.name
  }

  /** Store the colour under its (possibly renamed) key and append that key
      to the list of names. */
  function AddColor(st: ReaderState, e: Entry): ReaderState {
    var name := StoredName(st.colorNames, e);
    st.(colorNames := st.colorNames[name := e.color], names := st.names + [name])
  }

  /** A NAMED line: "R G B<TAB>name". */
  function ParseNamedEntry(line: string): Result<Entry> {
    var fields := SplitOn(line, '\t');
    if |fields| != 2 then Err(ValueError)
    else
      var words := Words(fields[0]);
      if |words| != 3 then Err(ValueError)
      else
        match (ParseInt(words[0]), ParseInt(words[1]), ParseInt(words[2]))
        case (Some(r), Some(g), Some(b)) => Ok(Entry(fields[1], Rgb(r, g, b)))
        case _ => Err(ValueError)
  }

  /** A DECIMAL_RBG+HEX line: "R<TAB>G<TAB>B<TAB>hex", the hex text being the name. */
  function ParseHexEntry(line: string): Result<Entry> {
    var fields := SplitOn(line, '\t');
    if |fields| != 4 then Err(ValueError)
    else
      match (ParseInt(fields[0]), ParseInt(fields[1]), ParseInt(fields[2]))
      case (Some(r), Some(g), Some(b)) => Ok(Entry(fields[3], Rgb(r, g, b)))
      case _ => Err(ValueError)
  }

  function ParseEntry(style: EntryStyle, line: string): Result<Entry> {
    match style
    case Named => ParseNamedEntry(line)
    case DecimalRgbHex => ParseHexEntry(line)
    case Unknown => Err(NotImplementedError("Entry style UNKNOWN"))
  }

  /** A line that starts with a "Key:" header splits on ':' into at least two pieces. */
  lemma HeaderHasColon(line: string, header: string)
    requires |header| > 0 && header[|header| - 1] == ':' && StartsWith(line, header)
    ensures |SplitOn(line, ':')| > 1
  {
    assert line[|header| - 1] == header[|header| - 1];
    assert line[|header| - 1] in line;
  }

  /** The style a "Columns: N" header selects: int(line.split(':')[1]). */
  function ColumnsStyle(line: string): Result<EntryStyle>
    requires StartsWith(line, "Columns:")
  {
    HeaderHasColon(line, "Columns:");
    match ParseInt(SplitOn(line, ':')[1])
    case None => Err(ValueError)
    case Some(n) =>
      if n == 1 then Ok(DecimalRgbHex)
      else if n == 3 || n == 16 then Ok(Named)
      else Err(NotImplementedError(DecimalString(n) + " columns for colors"))
  }

  /** One turn of the reader's loop on one raw line of the file. */
  function Step(st: ReaderState, raw: string): Result<ReaderState> {
    var line := Strip(raw);
    if line == [] then Ok(st)
    else if line == "#" then Ok(st.(foundColors := true))
    else if !st.foundColors && StartsWith(line, "#Colors:") then
      Ok(st.(style := DecimalRgbHex, foundColors := true))
    else if !st.foundColors && StartsWith(line, "Name:") then Ok(st)
    else if !st.foundColors && StartsWith(line, "Columns:") then
      match ColumnsStyle(line)
      case Err(e) => Err(e)
      case Ok(style) => Ok(st.(style := style))
    else if st.foundColors then
      match ParseEntry(st.style, line)
      case Err(e) => Err(e)
      case Ok(e) => Ok(AddColor(st, e))
    else Ok(st)
  }

  /** The reader's loop over the remaining lines; the first exception ends it. */
  function Run(st: ReaderState, lines: seq<string>): Result<ReaderState>
    decreases |lines|
  {
    if lines == [] then Ok(st)
    else
      match Step(st, lines[0])
      case Err(e) => Err(e)
      case Ok(next) => Run(next, lines[1..])
  }

  /** open_parse_gimp_palette_gpl_file on the lines of the file. */
  function Parse(lines: seq<string>): Result<Palette> {
    match Run(Start, lines)
    case Err(e) => Err(e)
    case Ok(st) => Ok(Palette(st.colorNames, st.names))
  }

  /** The body of the reader's `if found_colors:` branch up to the renaming:
      split the line by the entry style and convert the three channels with int(). */
  method ReadColorEntry(colorEntryStyle: EntryStyle, line: string) returns (res: Result<Entry>)
    ensures res == ParseEntry(colorEntryStyle, line)
  {
    var colorName: string;
    var r, g, b: Option<int>;
    if colorEntryStyle == Named {
      var fields := SplitOn(line, '\t');
      if |fields| != 2 {
        return Err(ValueError);
      }
      colorName := fields[1];
      var words := Words(fields[0]);
      if |words| != 3 {
        return Err(ValueError);
      }
      r, g, b := ParseInt(words[0]), ParseInt(words[1]), ParseInt(words[2]);
    } else if colorEntryStyle == DecimalRgbHex {
      var fields := SplitOn(line, '\t');
      if |fields| != 4 {
        return Err(ValueError);
      }
      colorName := fields[3];
      r, g, b := ParseInt(fields[0]), ParseInt(fields[1]), ParseInt(fields[2]);
    } else {
      return Err(NotImplementedError("Entry style UNKNOWN"));
    }
    if r.None? || g.None? || b.None? {
      return Err(ValueError);
    }
    return Ok(Entry(colorName, Rgb(r.value, g.value, b.value)));
  }

  /** The reader's handling of a "Columns: N" header line: the entry style
      that N selects, or the exception raised for it. */
  method ReadColumnsHeader(line: string) returns (res: Result<EntryStyle>)
    requires StartsWith(line, "Columns:")
    ensures res == ColumnsStyle(line)
  {
    HeaderHasColon(line, "Columns:");
    var expectedColumnCount := ParseInt(SplitOn(line, ':')[1]);
    if expectedColumnCount.None? {
      return Err(ValueError);
    }
    var n := expectedColumnCount.value;
    if n == 1 {
      return Ok(DecimalRgbHex);
    } else if n == 3 || n == 16 {
      return Ok(Named);
    }
    return Err(NotImplementedError(DecimalString(n) + " columns for colors"));
  }

  /** The reader as the source writes it: one pass over the lines, updating
      the two flags, the map and the list in place. */
  method OpenParseGimpPaletteGplFile(lines: seq<string>) returns (res: Result<Palette>)
    ensures res == Parse(lines)
  {
    var colorNames: map<string, Rgb> := map[];
    var colorNamesList: seq<string> := [];
    var foundColors := false;
    var colorEntryStyle := Unknown;
    var i := 0;
    while i < |lines|
      invariant 0 <= i <= |lines|
      invariant Run(Start, lines) == Run(ReaderState(foundColors, colorEntryStyle, colorNames, colorNamesList), lines[i..])
    {
      ghost var before := ReaderState(foundColors, colorEntryStyle, colorNames, colorNamesList);
      ghost var raw := lines[i];
      assert lines[i..][0] == raw && lines[i..][1..] == lines[i + 1..];
      assert Run(before, lines[i..]) ==
        match Step(before, raw)
        case Err(e) => Err(e)
        case Ok(next) => Run(next, lines[i + 1..]);
      var line := Strip(lines[i]);
      i := i + 1;
      if line == [] {
        assert Step(before, raw) == Ok(before);
      } else if line == "#" {
        foundColors := true;
        assert Step(before, raw) == Ok(before.(foundColors := true));
      } else if !foundColors && StartsWith(line, "#Colors:") {
        colorEntryStyle := DecimalRgbHex;
        foundColors := true;
        assert Step(before, raw) == Ok(before.(style := DecimalRgbHex, foundColors := true));
      } else if !foundColors && StartsWith(line, "Name:") {
        assert Step(before, raw) == Ok(before);
      } else if !foundColors && StartsWith(line, "Columns:") {
        var style := ReadColumnsHeader(line);
        if style.Err? {
          assert Step(before, raw) == Err(style.error);
          return Err(style.error);
        }
        colorEntryStyle := style.value;
        assert Step(before, raw) == Ok(before.(style := colorEntryStyle));
      } else if !foundColors {
        assert Step(before, raw) == Ok(before);
      } else {
        var entry := ReadColorEntry(colorEntryStyle, line);
        if entry.Err? {
          assert Step(before, raw) == Err(entry.error);
          return Err(entry.error);
        }
        var colorName, rgb := entry.value.name, entry.value.color;
        assert Step(before, raw) == Ok(AddColor(before, entry.value));
        if colorName in colorNames {
          colorName := colorName + Suffix(rgb);
        }
        colorNames := colorNames[colorName := rgb];
        colorNamesList := colorNamesList + [colorName];
      }
    }
    assert lines[i..] == [];
    return Ok(Palette(colorNames, colorNamesList));
  }
}
