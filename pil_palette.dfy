/** The two conversions between a palette and PIL's flat palette list in
    image_convert.py: gpl2pil_256palette, which lays the colours of a .gpl file
    out as r, g, b, r, g, b, ... padded with zeros up to 256 colours, and
    mygetpalette, which regroups such a flat list into (r, g, b) triples. */
module PilPalette {
  import opened PyErrors
  import opened GplReader
  import opened GplReaderProps

  /** Colours laid out as r, g, b, r, g, b, ... */
  function Flatten(cs: seq<Rgb>): (flat: seq<int>)
    ensures |flat| == 3 * |cs|
  {
    if cs == [] then [] else [cs[0].r, cs[0].g, cs[0].b] + Flatten(cs[1..])
  }

  /** Colour i sits at entries 3i, 3i+1 and 3i+2 of the flat list. */
  lemma {:induction false} FlattenAt(cs: seq<Rgb>)
    ensures forall i :: 0 <= i < |cs| ==>
      Flatten(cs)[3 * i] == cs[i].r && Flatten(cs)[3 * i + 1] == cs[i].g && Flatten(cs)[3 * i + 2] == cs[i].b
    decreases |cs|
  {
    if cs != [] {
      var rest := cs[1..];
      FlattenAt(rest);
      var flat := Flatten(cs);
      forall i | 1 <= i < |cs|
        ensures flat[3 * i] == cs[i].r && flat[3 * i + 1] == cs[i].g && flat[3 * i + 2] == cs[i].b
      {
        assert rest[i - 1] == cs[i];
        assert flat[3 * i] == Flatten(rest)[3 * (i - 1)];
        assert flat[3 * i + 1] == Flatten(rest)[3 * (i - 1) + 1];
        assert flat[3 * i + 2] == Flatten(rest)[3 * (i - 1) + 2];
      }
    }
  }

  /** [0] * n */
  function Zeros(n: nat): (z: seq<int>)
    ensures |z| == n && forall i :: 0 <= i < n ==> z[i] == 0
  {
    seq(n, _ => 0)
  }

  /** The colours of a parsed palette, in the order of its name list. */
  function Colors(p: Palette): (cs: seq<Rgb>)
    requires NamesKnown(p.colorNames, p.names)
    ensures |cs| == |p.names|
    ensures forall i :: 0 <= i < |cs| ==> cs[i] == p.colorNames[p.names[i]]
  {
    seq(|p.names|, i requires 0 <= i < |p.names| => p.colorNames[p.names[i]])
  }

  /** The list gpl2pil_256palette returns for a parsed palette: the colours,
      then zeros up to 768 entries when there are fewer than 256 colours. */
  function PilTable(p: Palette): seq<int>
    requires NamesKnown(p.colorNames, p.names)
  {
    var n := |p.names|;
    Flatten(Colors(p)) + if n < 256 then Zeros(3 * (256 - n)) else []
  }

  /** gpl2pil_256palette on the lines of a .gpl file: the reader's error, or the table. */
  function Gpl2Pil(lines: seq<string>): Result<seq<int>> {
    match Parse(lines)
    case Err(e) => Err(e)
    case Ok(p) =>
      ParseNamesKnown(lines);
      Ok(PilTable(p))
  }

  /** gpl2pil_256palette as the source writes it: read the file, append each
      listed colour's three channels, then pad. */
  method Gpl2Pil256Palette(lines: seq<string>) returns (res: Result<seq<int>>)
    ensures res == Gpl2Pil(lines)
  {
    var parsed := OpenParseGimpPaletteGplFile(lines);
    if parsed.Err? {
      return Err(parsed.error);
    }
    var colorPalette, colorNamesOrdered := parsed.value.colorNames, parsed.value.names;
    assert NamesKnown(colorPalette, colorNamesOrdered) by {
      ParseNamesKnown(lines);
    }
    ghost var cs := Colors(parsed.value);
    ghost var padding := if |colorNamesOrdered| < 256 then Zeros(3 * (256 - |colorNamesOrdered|)) else [];
    assert Gpl2Pil(lines) == Ok(Flatten(cs) + padding);
    var rgbList: seq<int> := [];
    for k := 0 to |colorNamesOrdered|
      invariant rgbList == Flatten(cs[..k])
    {
      var rgbTuple := colorPalette[colorNamesOrdered[k]];
      ghost var before := rgbList;
      rgbList := rgbList + [rgbTuple.r];
      rgbList := rgbList + [rgbTuple.g];
      rgbList := rgbList + [rgbTuple.b];
      assert rgbList == Flatten(cs[..k + 1]) by {
        assert rgbTuple == cs[k];
        FlattenPrefix(cs, k);
        AppendThree(before, rgbTuple.r, rgbTuple.g, rgbTuple.b);
      }
    }
    assert cs[..|colorNamesOrdered|] == cs;
    if |colorNamesOrdered| < 256 {
      rgbList := rgbList + Zeros(3 * (256 - |colorNamesOrdered|));
    } else {
      assert rgbList + [] == rgbList;
    }
    return Ok(rgbList);
  }

  lemma {:induction false} FlattenAppend(cs: seq<Rgb>, c: Rgb)
    ensures Flatten(cs + [c]) == Flatten(cs) + [c.r, c.g, c.b]
    decreases |cs|
  {
    if cs == [] {
      assert cs + [c] == [c];
    } else {
      assert (cs + [c])[1..] == cs[1..] + [c];
      FlattenAppend(cs[1..], c);
    }
  }

  /** Flattening one more colour of a list appends its three channels. */
  /** Three appends are one append of the triple; a lemma of its own so that
      the loop body of Gpl2Pil256Palette does not carry it in its solver context. */
  lemma AppendThree(s: seq<int>, x: int, y: int, z: int)
    ensures s + [x] + [y] + [z] == s + [x, y, z]
  {
  }

  lemma FlattenPrefix(cs: seq<Rgb>, k: nat)
    requires k < |cs|
    ensures Flatten(cs[..k + 1]) == Flatten(cs[..k]) + [cs[k].r, cs[k].g, cs[k].b]
  {
    assert cs[..k + 1] == cs[..k] + [cs[k]];
    FlattenAppend(cs[..k], cs[k]);
  }

  /** For n <= 256 colours the table has 768 entries: colour i at 3i..3i+2 and
      zeros after the last colour; for more colours it holds just the colours. */
  lemma PilTableLayout(p: Palette)
    requires NamesKnown(p.colorNames, p.names)
    ensures var n, t := |p.names|, PilTable(p);
      && (n <= 256 ==> |t| == 768)
      && (n > 256 ==> |t| == 3 * n)
      && (forall i :: 0 <= i < n ==>
            var c := p.colorNames[p.names[i]];
            t[3 * i] == c.r && t[3 * i + 1] == c.g && t[3 * i + 2] == c.b)
      && (forall j :: 3 * n <= j < |t| ==> t[j] == 0)
  {
    var n := |p.names|;
    var flat := Flatten(Colors(p));
    FlattenAt(Colors(p));
    var t := PilTable(p);
    assert t[..3 * n] == flat;
    forall i | 0 <= i < n
      ensures t[3 * i] == flat[3 * i] && t[3 * i + 1] == flat[3 * i + 1] && t[3 * i + 2] == flat[3 * i + 2]
    {
      assert t[..3 * n][3 * i] == t[3 * i];
      assert t[..3 * n][3 * i + 1] == t[3 * i + 1];
      assert t[..3 * n][3 * i + 2] == t[3 * i + 2];
    }
  }

  /** A named-style .gpl file of well-formed entries becomes the table of its
      colours in file order, zero-padded. */
  lemma Gpl2PilOfNamedFile(es: seq<Entry>)
    requires WellFormedEntries(es)
    ensures Gpl2Pil(NamedHeader + EntryLines(Named, es)) ==
      Ok(Flatten(EntryColors(es)) + if |es| < 256 then Zeros(3 * (256 - |es|)) else [])
  {
    var lines := NamedHeader + EntryLines(Named, es);
    var p := Palette(EntryMap(es), EntryNames(es));
    assert Parse(lines) == Ok(p) by {
      ParseNamedFile(es);
    }
    assert NamesKnown(p.colorNames, p.names) by {
      ParseNamesKnown(lines);
    }
    assert Gpl2Pil(lines) == Ok(PilTable(p));
    assert |p.names| == |es| && Colors(p) == EntryColors(es) by {
      EntryNamesAt(es);
      EntryMapValues(es);
    }
  }

  // ---- mygetpalette ----

  /** Popping r, g, b off the front of the list until it is empty; a pop from
      an empty list raises IndexError. */
  function Regroup(s: seq<int>): Result<seq<Rgb>>
    decreases |s|
  {
    if s == [] then Ok([])
    else if |s| < 3 then Err(IndexError)
    else
      match Regroup(s[3..])
      case Err(e) => Err(e)
      case Ok(rest) => Ok([Rgb(s[0], s[1], s[2])] + rest)
  }

  /** mygetpalette(pal_type, orig_image_palette). */
  function GetPalette(palType: string, orig: seq<int>): Result<seq<Rgb>> {
    if palType != "RGB" then Ok([]) else Regroup(orig)
  }

  /** Regrouping succeeds exactly on lists whose length is a multiple of 3,
      and then yields triple i from entries 3i, 3i+1 and 3i+2. */
  lemma {:induction false} RegroupTriples(s: seq<int>)
    ensures Regroup(s).Ok? <==> |s| % 3 == 0
    ensures Regroup(s).Ok? ==>
      && |Regroup(s).value| == |s| / 3
      && forall i :: 0 <= i < |s| / 3 ==> Regroup(s).value[i] == Rgb(s[3 * i], s[3 * i + 1], s[3 * i + 2])
    decreases |s|
  {
    if |s| >= 3 {
      var tail := s[3..];
      RegroupTriples(tail);
      if Regroup(tail).Ok? {
        var ts := Regroup(s).value;
        forall i | 1 <= i < |s| / 3
          ensures ts[i] == Rgb(s[3 * i], s[3 * i + 1], s[3 * i + 2])
        {
          assert ts[i] == Regroup(tail).value[i - 1];
          assert tail[3 * (i - 1)] == s[3 * i];
        }
      }
    }
  }

  /** mygetpalette undoes the flattening done by gpl2pil_256palette. */
  lemma {:induction false} RegroupFlatten(cs: seq<Rgb>)
    ensures Regroup(Flatten(cs)) == Ok(cs)
    decreases |cs|
  {
    if cs != [] {
      var flat := Flatten(cs);
      assert flat[..3] == [cs[0].r, cs[0].g, cs[0].b] && flat[3..] == Flatten(cs[1..]);
      RegroupFlatten(cs[1..]);
      assert [cs[0]] + cs[1..] == cs;
    }
  }

  /** ... and flattening the triples gives back the list. */
  lemma {:induction false} FlattenRegroup(s: seq<int>)
    requires |s| % 3 == 0
    ensures Regroup(s).Ok? && Flatten(Regroup(s).value) == s
    decreases |s|
  {
    if s != [] {
      var tail := s[3..];
      FlattenRegroup(tail);
      var c, rest := Rgb(s[0], s[1], s[2]), Regroup(tail).value;
      assert Regroup(s) == Ok([c] + rest);
      assert ([c] + rest)[0] == c && ([c] + rest)[1..] == rest;
      assert Flatten([c] + rest) == [s[0], s[1], s[2]] + tail;
      assert [s[0], s[1], s[2]] + tail == s;
    }
  }

  /** mygetpalette as the source writes it: pop three ints at a time from a
      copy of the list; the caller's list is a value and stays as it was. */
  method MyGetPalette(palType: string, origImagePalette: seq<int>) returns (res: Result<seq<Rgb>>)
    ensures res == GetPalette(palType, origImagePalette)
  {
    var palette: seq<Rgb> := [];
    if palType != "RGB" {
      return Ok(palette);
    }
    var imagePalette := origImagePalette;
    if Regroup(imagePalette).Ok? {
      assert palette + Regroup(imagePalette).value == Regroup(imagePalette).value;
    }
    while imagePalette != []
      invariant Regroup(origImagePalette) ==
        match Regroup(imagePalette)
        case Err(e) => Err(e)
        case Ok(rest) => Ok(palette + rest)
      decreases |imagePalette|
    {
      if |imagePalette| < 3 {
        return Err(IndexError);
      }
      var r, g, b := imagePalette[0], imagePalette[1], imagePalette[2];
      imagePalette := imagePalette[3..];
      if Regroup(imagePalette).Ok? {
        var rest := Regroup(imagePalette).value;
        assert (palette + [Rgb(r, g, b)]) + rest == palette + ([Rgb(r, g, b)] + rest);
      }
      palette := palette + [Rgb(r, g, b)];
    }
    assert palette + [] == palette;
    return Ok(palette);
  }

  /** Reading the table of a parsed .gpl file back with mygetpalette gives the
      file's colours in order, then black for the padding up to 256 colours. */
  lemma GetPaletteOfTable(p: Palette)
    requires NamesKnown(p.colorNames, p.names)
    ensures GetPalette("RGB", PilTable(p)) ==
      Ok(Colors(p) + if |p.names| < 256 then seq(256 - |p.names|, _ => Rgb(0, 0, 0)) else [])
  {
    var n := |p.names|;
    var pad: seq<Rgb> := if n < 256 then seq(256 - n, _ => Rgb(0, 0, 0)) else [];
    FlattenAppendAll(Colors(p), pad);
    FlattenAt(pad);
    if n < 256 {
      forall j | 0 <= j < |Flatten(pad)|
        ensures Flatten(pad)[j] == 0
      {
        var i := j / 3;
        assert j == 3 * i || j == 3 * i + 1 || j == 3 * i + 2;
        assert i < |pad| && pad[i] == Rgb(0, 0, 0);
      }
    }
    assert Flatten(pad) == if n < 256 then Zeros(3 * (256 - n)) else [];
    RegroupFlatten(Colors(p) + pad);
  }

  lemma {:induction false} FlattenAppendAll(a: seq<Rgb>, b: seq<Rgb>)
    ensures Flatten(a + b) == Flatten(a) + Flatten(b)
    decreases |a|
  {
    if a == [] {
      assert a + b == b;
    } else {
      assert (a + b)[1..] == a[1..] + b;
      FlattenAppendAll(a[1..], b);
    }
  }
}
