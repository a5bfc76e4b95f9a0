# image_convert core in Dafny

This project models the arithmetic and parsing core of two scripts. image_convert.py is a general converter. convert_eink_7_colors.py is its 7-colour e-ink variant. Both prepare pictures for small e-ink colour displays. The model covers:

- **The GIMP palette reader** (`open_parse_gimp_palette_gpl_file`). It reads a `.gpl` file line by line and waits for the colour section. A `#Colors:` header or a `Columns: N` header sets the entry style. The reader then collects a map from name to `(r, g, b)` and the list of names in file order. A repeated name is stored with a `_rrggbb` suffix. Modules `GplReader` and `GplReaderProps`.
- **The PIL palette builders.** `gpl2pil_256palette` flattens the colours in list order and pads the result with zeros up to 768 ints. `mygetpalette` regroups a flat palette into `(r, g, b)` triples. Module `PilPalette`.
- **The 4-bit raw packer** (`save_4bit_index_nano_raw`). It writes the height, then the width, each as two big-endian bytes. Then it writes one byte `(p0 << 4) | p1` for every pair of pixel indices. Module `NanoRaw`, with Python's `|` on non-negative ints written out as `Or`.
- **The geometry of `convert_one`** in both scripts:
  - The default palette and the default resolution.
  - The choice of target orientation.
  - The scale plan: ratio, resized size and paste offsets.
  - The cut plan: delta, padding tuple and crop box.
  - The errors these steps raise.

  Modules `FitGeometry`, `ImageConvert` and `EinkSevenColors`.

Modules `PyText`, `PyNum` and `PyErrors` give the Python built-ins the core relies on:

- `str.strip`, `str.split(sep)`, `str.split()`, `str.startswith` and `int()` on decimal strings;
- `int()` on floats, which truncates toward zero, and `max`;
- the exceptions raised.

Each imperative routine is a `method` with a loop, as in the source. It is proved equal to a specification function. The properties are proved about that function:

- A well-formed palette file reads back the colours and names it was written from.
- The reader's map and name list always describe the same names.
- The 256-entry PIL table is laid out as the colours in order, then zeros.
- Regrouping and flattening are inverse to each other.
- A packed stream carries its size header and unpacks to the original pixels.
- Scale mode always covers the target.
- Cut mode's delta is never positive.
- The e-ink script computes exactly what image_convert.py computes at 800 x 480.

### Behaviour of the code worth knowing

- A bare `#` line opens the colour section without choosing an entry style. A file with no `#Colors:` or `Columns:` header therefore raises `NotImplementedError('Entry style UNKNOWN')` on its first colour line (`GplReaderProps.BareHashThenColorRaises`).
- More than 256 colours is not an error. The PIL table then holds `3 * n` ints and no padding (`PilPalette.PilTableLayout`).
- An odd pixel count is not padded with a zero nibble. The loop reads past the end of the pixel list and raises `IndexError`.
- An index of 16 or more in the first pixel of a pair makes `int.to_bytes(..., 1)` raise `OverflowError`. In the second pixel it is OR-ed silently into the high nibble (`NanoRaw.SecondIndexMerged`).
- In scale mode the ratio is the larger of the two, so the resized image covers the target. Both paste offsets are therefore at most 0: the paste crops the resized image, centred (`FitGeometry.ScaleCovers`).
- In cut mode the delta for the padded axis is never positive. The "padding" is a crop or nothing (`FitGeometry.CutDeltaNonPositive`).
- A `display_mode` other than `scale` and `cut` never assigns `resized_image`. Its first use raises `UnboundLocalError`.
- A zero side of the image, or of the resolution, raises `ZeroDivisionError` where the source divides by it.
- A renamed duplicate can collide with a name already in the map. The map then loses an entry, while the list names the key twice (`GplReaderProps.RenameCanCollide`).

## Model

| member | source | states |
|---|---|---|
| GplReader.OpenParseGimpPaletteGplFile | image_convert.py:18-73 | the line loop with its flags, map and list returns exactly what the reader specification `Parse` returns, error for error |
| GplReader.Suffix | image_convert.py:55-56 | the rename suffix is `_` and then, for byte-sized channels, exactly six lower-case hex digits, which spell r, g and b in pairs |
| GplReaderProps.HeaderLinesSkipped | image_convert.py:25-38 | before the colour section, blank lines, `Name:` lines and unrecognised lines leave the reader state unchanged |
| GplReaderProps.SectionOpeners | image_convert.py:30-36 | `#` opens the colour section at any time and keeps the style. `#Colors:` before the section opens it and selects DECIMAL_RBG+HEX |
| GplReaderProps.ColumnsHeader | image_convert.py:39-47 | for every integer N, the line `Columns: N` sets the style for 1, 3 and 16 and raises NotImplementedError for any other N |
| GplReaderProps.UnknownStyleRaises | image_convert.py:68-69 | in the colour section with no style chosen, every non-blank line raises NotImplementedError('Entry style UNKNOWN') |
| GplReaderProps.BareHashThenColorRaises | image_convert.py:30-69 | a file made of a bare `#` and then any colour line raises, because `#` sets no style |
| GplReaderProps.StepListsEachColorLine | image_convert.py:48-70 | a colour line that reads adds exactly one name to the list, keeps the earlier names, and maps the new name to the line's colour. Any other line leaves the map and the list alone |
| GplReaderProps.RenameOnDuplicate | image_convert.py:55-57 | a new name is listed as it is. A repeated name is listed with the colour suffix, which differs from the name. The first colour stored under the name is kept |
| GplReaderProps.RenameCanCollide | image_convert.py:55-57 | when the suffixed name is also taken, its colour is overwritten, no key is added, and the list holds that name twice |
| GplReaderProps.StepKeepsNamesKnown | image_convert.py:48-70 | one line keeps the invariant that the map's keys are exactly the listed names |
| GplReaderProps.RunKeepsNamesKnown | image_convert.py:25-70 | the whole loop keeps that invariant |
| GplReaderProps.ParseNamesKnown | image_convert.py:18-73 | in every palette the reader returns, the map's keys are exactly the names in the list |
| GplReaderProps.RunOnlyAppends | image_convert.py:25-70 | later lines only append to the list and only add keys to the map, at most one name per line |
| GplReaderProps.RunConcat | image_convert.py:25-70 | reading `a + b` is reading `a`, then reading `b` from where it stopped; the first exception ends it |
| GplReaderProps.EntryMapKeys | image_convert.py:57 | a name is a key of the entries' map exactly when some entry carries it |
| GplReaderProps.EntryMapValues | image_convert.py:57 | with distinct names, each entry's name maps to that entry's colour |
| GplReaderProps.NamedLineParses | image_convert.py:51-57 | the NAMED line `R G B<TAB>name` of an entry parses back to that entry |
| GplReaderProps.HexLineParses | image_convert.py:58-67 | the DECIMAL_RBG+HEX line `R<TAB>G<TAB>B<TAB>name` of an entry parses back to that entry |
| GplReaderProps.EntryLineParses | image_convert.py:25-69 | an entry's line is unchanged by strip, is not a section opener, and parses back to the entry in either style |
| GplReaderProps.StepEntryLine | image_convert.py:48-70 | in the colour section, an entry's line adds that entry to the map and the list |
| GplReaderProps.RunEntries | image_convert.py:25-70 | the lines of well-formed entries with fresh names add exactly those entries' map and names, in order |
| GplReaderProps.ParseNamedFile | image_convert.py:18-73 | a `GIMP Palette` / `Name:` / `Columns: 3` / `#` file of well-formed entries reads as those names in order, each mapped to its colour |
| GplReaderProps.ParseHexFile | image_convert.py:18-73 | a `#Colors:` file of well-formed entries reads as those names in order, each mapped to its colour |
| PyText.Strip | image_convert.py:26 | strip gives the empty string exactly for all-whitespace input. A non-empty result neither starts nor ends with whitespace, and a string without whitespace at its ends is unchanged |
| PyText.StripSlice | image_convert.py:26 | what strip keeps is a slice of the input, and everything cut off either end is whitespace. With Strip's own clauses this fixes the result |
| PyText.SplitOn | image_convert.py:52 | `split(sep)` yields one more piece than the separator count, and no piece contains the separator |
| PyText.SplitOnJoin | image_convert.py:52 | joining the pieces of `split(sep)` with the separator gives back the string |
| PyText.SplitOnJoinInverse | image_convert.py:52 | splitting a join of separator-free pieces gives back the pieces |
| PyText.Words | image_convert.py:53 | `split()` yields non-empty pieces with no whitespace |
| PyText.WordsEmpty | image_convert.py:53 | `split()` yields no pieces exactly when the string is all whitespace |
| PyText.WordsAfterSpace | image_convert.py:53 | `split()` skips any leading whitespace character |
| PyText.WordsCons | image_convert.py:53 | a non-empty whitespace-free word followed by whitespace or by nothing is split off whole, before the words of the rest. With WordsAfterSpace and the empty case this fixes `split()` on every string |
| PyText.WordsOfThree | image_convert.py:53 | `split()` of three whitespace-free words separated by single spaces gives those three words |
| PyText.ParseIntDecimal | image_convert.py:53 | int() reads back the decimal spelling of every integer (the model has no limit on the digit count) |
| PyNum.Trunc | image_convert.py:198 | int() of a float truncates toward zero: the floor for x >= 0 and the ceiling for x < 0 |
| PilPalette.Gpl2Pil256Palette | image_convert.py:75-87 | the append loop and the padding return exactly the table specification `Gpl2Pil`, and propagate the reader's exceptions |
| PilPalette.FlattenAt | image_convert.py:78-82 | the flat list holds colour i's r, g and b at positions 3i, 3i+1 and 3i+2 |
| PilPalette.PilTableLayout | image_convert.py:78-84 | the table is 768 ints for up to 256 colours and 3n beyond that. It holds the listed colours' channels in list order and zeros after them |
| PilPalette.Gpl2PilOfNamedFile | image_convert.py:75-87 | for a well-formed NAMED file, the table is the entries' colours flattened in file order, then zeros up to 768 |
| PilPalette.MyGetPalette | image_convert.py:113-124 | the regrouping loop returns exactly `GetPalette`. A non-RGB type gives the empty list, and a flat list whose length is not a multiple of 3 raises IndexError |
| PilPalette.RegroupTriples | image_convert.py:116-123 | regrouping succeeds exactly on lengths divisible by 3. Triple i is entries 3i, 3i+1 and 3i+2 |
| PilPalette.RegroupFlatten | image_convert.py:113-124 | regrouping a flattened list of colours gives those colours back |
| PilPalette.FlattenRegroup | image_convert.py:113-124 | flattening the regrouped triples gives the flat list back |
| PilPalette.GetPaletteOfTable | image_convert.py:75-124 | regrouping a gpl2pil table gives the palette's colours in order, then black up to 256 entries |
| NanoRaw.UInt16BE | image_convert.py:156 | `to_bytes(2, "big")` succeeds exactly below 65536. The two bytes are high then low, and together they spell n |
| NanoRaw.PackedByteNibbles | image_convert.py:166 | `(c0 << 4) \| c1` fits a byte exactly when c0 < 16. For two nibbles, the byte's high nibble is c0 and its low nibble is c1 |
| NanoRaw.Save4BitIndexNanoRaw | image_convert.py:153-168 | the header and the pair loop over the nibbles buffer produce exactly `Pack4Bit`, including its IndexError and OverflowError cases |
| NanoRaw.PackPairsSucceeds | image_convert.py:158-166 | the pair loop succeeds exactly for an even pixel count whose first indices of each pair are below 16. It then writes half as many bytes as pixels |
| NanoRaw.PackPairsNibbles | image_convert.py:158-166 | for 4-bit indices, byte k holds pixel 2k in the high nibble and pixel 2k+1 in the low nibble |
| NanoRaw.UnpackAt | image_convert.py:166 | unpacking gives byte k's high and low nibbles at positions 2k and 2k+1 |
| NanoRaw.Pack4BitSucceeds | image_convert.py:153-166 | the whole write succeeds exactly for 16-bit sizes, an even pixel count and first-of-pair indices below 16 |
| NanoRaw.PackRoundTrip | image_convert.py:153-168 | for 16-bit sizes and an even count of 4-bit indices, the output is 4 + n/2 bytes. Bytes 0-1 spell the height, bytes 2-3 spell the width, and the rest unpacks to the pixels |
| NanoRaw.PackTwoPixels | image_convert.py:153-166 | a 2 x 1 image of indices 3 and 5 packs to `00 01 00 02 35` |
| NanoRaw.SecondIndexMerged | image_convert.py:166 | a second index of 0x20 after index 1 gives the same byte as indices 3 and 0 |
| FitGeometry.TargetChoice | image_convert.py:182-191 | the target is the resolution exactly for `landscape`, or for no direction and an image wider than tall. Otherwise it is the swapped pair |
| FitGeometry.ScaledSideCovers | image_convert.py:195-207 | a side scaled by at least target/side is at least the target, and its offset is at most 0. At exactly that ratio it equals the target, with offset 0 |
| FitGeometry.ScaleCovers | image_convert.py:193-208 | with positive sides the resized image covers the target on both axes and both offsets are at most 0. The axis that sets the ratio fits exactly, with offset 0 |
| FitGeometry.ScaleIdentity | image_convert.py:193-208 | an image already the target size is scaled by 1, kept at its size and pasted at (0, 0) |
| FitGeometry.CutShape | image_convert.py:209-220 | the crop box is the whole image. The padded axis's two halves add up to the delta, with the first half being the floor of half of it, and the other axis gets none |
| FitGeometry.RatioCompare | image_convert.py:210 | comparing `w/h` with `tw/th` is comparing the scaled other side with the side itself |
| FitGeometry.WideDeltaNonPositive | image_convert.py:211-214 | when the image is relatively wider, `int(h * tw / th - w)` is at most 0 |
| FitGeometry.TallDeltaNonPositive | image_convert.py:216-219 | when the image is relatively taller, `int(w * th / tw - h)` is at most 0 |
| FitGeometry.CutDeltaNonPositive | image_convert.py:209-220 | with positive sides, cut mode always succeeds and its delta is never positive |
| ImageConvert.Repeat | image_convert.py:173 | a tuple repeated k times has k times its length, and its entry i is the tuple's entry i mod the tuple's length |
| ImageConvert.DefaultPaletteLayout | image_convert.py:173 | the default palette is 768 ints: black, white, green, blue, red, yellow and orange, then 249 blacks |
| ImageConvert.DefaultTarget | image_convert.py:174-191 | with no resolution the target is 800 x 480 for landscape, or for no direction and a wide image. Otherwise it is 480 x 800 |
| ImageConvert.ConvertOneSucceeds | image_convert.py:171-222 | for positive sides, convert_one succeeds exactly for modes `scale` and `cut`. Any other mode raises UnboundLocalError |
| EinkSevenColors.EinkTargetChoice | convert_eink_7_colors.py:22-32 | the target is 800 x 480 exactly for landscape, or for no direction and a wide image. Otherwise it is 480 x 800 |
| EinkSevenColors.PaletteLayout | convert_eink_7_colors.py:69 | the putpalette tuple is the seven e-ink colours in order, then 249 blacks, 768 ints in all |
| EinkSevenColors.SameAsImageConvert | convert_eink_7_colors.py:15-63 | this convert_one computes what image_convert.py's computes with resolution 800 x 480 and no palette, for every image, direction and mode |
| EinkSevenColors.Scale1600x960 | convert_eink_7_colors.py:34-49 | a 1600 x 960 picture in scale mode is halved to 800 x 480 and pasted at (0, 0) |

## Left out

- Quantization, dithering and every PIL image operation (open, convert, resize, paste, pad, crop, putpalette, save). These belong to the imaging library. The model stops at the numbers convert_one hands to it.
- Floating point: ratios and deltas are exact reals. Python's float rounding before `int()` is not modelled.
- File input and output. The reader takes the file's lines. The packer returns the bytes it would write, and an exception returns no bytes, although the source has already written the header and earlier pairs to `test_4bit.bin` by then.
- NanoRaw.Save4BitIndexNanoRaw: the image is given as its height, width and pixel indices (0-255). The palette checks at the start of `save_4bit_index_nano_raw`, its `mygetpalette` call and its prints do not affect the bytes written and are not modelled.
- The pixel count is not tied to width x height. The packer reads whatever pixel list it is given, as the source does.
- The command line, `main`, the output file names and all `print` calls.
- The Python 2 branch that maps `ord` over the palette bytes. Only Python 3 is modelled.
- PyText.ParseIntDecimal: `int()` is modelled for ASCII decimal digits, an optional sign, surrounding whitespace and single underscores between digits. Non-ASCII digits are not modelled. Nor is CPython's limit on the length of a decimal string: from 3.11 (and the 3.7-3.10 security releases) `int()` raises ValueError on more than 4300 digits, which the model accepts.
- ImageConvert.ConvertOne: the palette and resolution arguments follow Python truthiness. An empty palette falls back to the default. An empty resolution tuple is not representable, since the resolution is a pair.
