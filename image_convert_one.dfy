/** convert_one of image_convert.py, up to the hand-over to PIL: fill in the
    default palette and resolution, pick the target size from the
    orientation, and compute the scale or cut plan. */
module ImageConvert {
  import opened PyErrors
  import opened GplReader
  import opened PilPalette
  import opened FitGeometry

  /** What convert_one passes on to PIL: the canvas size, the fit plan and
      the palette given to putpalette. */
  datatype Conversion = Conversion(target: Size, fit: Fit, palette: seq<int>)

  /** t * k for a tuple t. */
  function Repeat(t: seq<int>, k: nat): (r: seq<int>)
    ensures |r| == |t| * k
    ensures |t| > 0 ==> forall i :: 0 <= i < |r| ==> r[i] == t[i % |t|]
  {
    if k == 0 then []
    else
      var rest := Repeat(t, k - 1);
      RepeatAt(t, rest);
      t + rest
  }

  /** One more copy of t in front keeps entry i equal to t[i mod |t|]. */
  lemma RepeatAt(t: seq<int>, rest: seq<int>)
    requires |t| > 0 ==> forall i :: 0 <= i < |rest| ==> rest[i] == t[i % |t|]
    ensures |t| > 0 ==> forall i :: 0 <= i < |t + rest| ==> (t + rest)[i] == t[i % |t|]
  {
    if |t| > 0 {
      forall i | 0 <= i < |t + rest| ensures (t + rest)[i] == t[i % |t|] {
        if i < |t| {
          assert i % |t| == i;
        } else {
          assert (t + rest)[i] == rest[i - |t|];
          ModAfterPeriod(i - |t|, |t|);
        }
      }
    }
  }

  /** Adding the period does not change the remainder. */
  lemma ModAfterPeriod(x: nat, n: nat)
    requires n > 0
    ensures (x + n) % n == x % n
  {
    var q, m := x / n, x % n;
    var p, r := (x + n) / n, (x + n) % n;
    var d := p - q - 1;
    assert d * n == m - r by {
      assert x == q * n + m && x + n == p * n + r;
      assert d * n == p * n - q * n - n;
    }
  }

  /** Black, white, green, blue, red, yellow, orange. */
  const SevenColors: seq<Rgb> := [
    Rgb(0, 0, 0), Rgb(255, 255, 255), Rgb(0, 255, 0), Rgb(0, 0, 255),
    Rgb(255, 0, 0), Rgb(255, 255, 0), Rgb(255, 128, 0)]

  /** The palette used when none is given: the seven e-ink colours, then
      black for the 249 unused entries. */
  const DefaultPalette: seq<int> :=
    [0, 0, 0, 255, 255, 255, 0, 255, 0, 0, 0, 255, 255, 0, 0, 255, 255, 0, 255, 128, 0] + Repeat([0, 0, 0], 249)

  const DefaultResolution := Size(800, 480)

  /** pil_256_color_palette or DEFAULT: None and the empty tuple are false. */
  function PaletteOrDefault(palette: Option<seq<int>>): seq<int> {
    if palette.None? || palette.value == [] then DefaultPalette else palette.value
  }

  /** resolution or (800, 480) */
  function ResolutionOrDefault(resolution: Option<Size>): Size {
    if resolution.None? then DefaultResolution else resolution.value
  }

  /** convert_one for an input image of the given size. */
  function ConvertOne(image: Size, direction: Option<string>, mode: string,
                      palette: Option<seq<int>>, resolution: Option<Size>): Result<Conversion>
  {
    var pal := PaletteOrDefault(palette);
    var target := Target(image, direction, ResolutionOrDefault(resolution));
    match FitFor(image, target, mode)
    case Err(e) => Err(e)
    case Ok(fit) => Ok(Conversion(target, fit, pal))
  }

  // ---- properties ----

  lemma {:induction false} RepeatBlack(k: nat)
    ensures Flatten(seq(k, _ => Rgb(0, 0, 0))) == Repeat([0, 0, 0], k)
  {
    if k > 0 {
      var blacks := seq(k, _ => Rgb(0, 0, 0));
      assert blacks[1..] == seq(k - 1, _ => Rgb(0, 0, 0));
      RepeatBlack(k - 1);
    }
  }

  lemma SevenColorsFlat()
    ensures Flatten(SevenColors) ==
      [0, 0, 0, 255, 255, 255, 0, 255, 0, 0, 0, 255, 255, 0, 0, 255, 255, 0, 255, 128, 0]
  {
  }

  /** The default palette is the seven colours, then 249 blacks, laid out flat. */
  lemma DefaultPaletteFlat()
    ensures Flatten(SevenColors + seq(249, _ => Rgb(0, 0, 0))) == DefaultPalette
  {
    var blacks := seq(249, _ => Rgb(0, 0, 0));
    FlattenAppendAll(SevenColors, blacks);
    RepeatBlack(249);
    SevenColorsFlat();
  }

  /** The default palette is 256 RGB triples, 768 ints: the seven colours in
      order, then 249 times black. */
  lemma DefaultPaletteLayout()
    ensures |DefaultPalette| == 768
    ensures GetPalette("RGB", DefaultPalette) == Ok(SevenColors + seq(249, _ => Rgb(0, 0, 0)))
  {
    DefaultPaletteFlat();
    RegroupFlatten(SevenColors + seq(249, _ => Rgb(0, 0, 0)));
  }

  /** With no resolution given, the target is 800 x 480 for 'landscape' or
      for no direction and a wide image, and 480 x 800 otherwise. */
  lemma DefaultTarget(image: Size, direction: Option<string>, mode: string, palette: Option<seq<int>>)
    requires ConvertOne(image, direction, mode, palette, None).Ok?
    ensures var t := ConvertOne(image, direction, mode, palette, None).value.target;
      if (DirectionGiven(direction) && direction.value == "landscape")
         || (!DirectionGiven(direction) && image.width > image.height)
      then t == Size(800, 480) else t == Size(480, 800)
  {
    TargetChoice(image, direction, DefaultResolution);
  }

  /** For an image with positive sides and a resolution with positive sides,
      convert_one raises only for a mode other than 'scale' and 'cut'. */
  lemma ConvertOneSucceeds(image: Size, direction: Option<string>, mode: string,
                           palette: Option<seq<int>>, resolution: Option<Size>)
    requires image.width > 0 && image.height > 0
    requires resolution.Some? ==> resolution.value.width > 0 && resolution.value.height > 0
    ensures ConvertOne(image, direction, mode, palette, resolution).Ok? <==> mode == "scale" || mode == "cut"
    ensures mode !in {"scale", "cut"} ==>
      ConvertOne(image, direction, mode, palette, resolution) == Err(UnboundLocalError)
  {
    var target := Target(image, direction, ResolutionOrDefault(resolution));
    if mode == "scale" {
      ScaleCovers(image, target);
    } else if mode == "cut" {
      CutDeltaNonPositive(image, target);
    }
  }
}
