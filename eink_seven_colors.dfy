/** convert_one of convert_eink_7_colors.py, up to the hand-over to PIL: the
    same fitting as image_convert.py with the 800 x 480 display written into
    the code, and a fixed seven-colour palette. */
module EinkSevenColors {
  import opened PyErrors
  import opened GplReader
  import opened PilPalette
  import opened PyNum
  import opened FitGeometry
  import ImageConvert

  /** The orientation test with the display size spelled out. */
  function EinkTarget(image: Size, direction: Option<string>): Size {
    if DirectionGiven(direction) then
      if direction.value == "landscape" then Size(800, 480) else Size(480, 800)
    else if image.width > image.height then Size(800, 480)
    else Size(480, 800)
  }

  /** The tuple given to putpalette: black, white, green, blue, red, yellow,
      orange, then (0, 0, 0) * 249. */
  const Palette: seq<int> :=
    [0, 0, 0, 255, 255, 255, 0, 255, 0, 0, 0, 255, 255, 0, 0, 255, 255, 0, 255, 128, 0]
    + ImageConvert.Repeat([0, 0, 0], 249)

  /** convert_one for an input image of the given size. */
  function ConvertOne(image: Size, direction: Option<string>, mode: string): Result<ImageConvert.Conversion> {
    var target := EinkTarget(image, direction);
    match FitFor(image, target, mode)
    case Err(e) => Err(e)
    case Ok(fit) => Ok(ImageConvert.Conversion(target, fit, Palette))
  }

  // ---- properties ----

  /** The target is 800 x 480 exactly for 'landscape', or for no direction
      and an image wider than tall; otherwise it is 480 x 800. */
  lemma EinkTargetChoice(image: Size, direction: Option<string>)
    ensures var t := EinkTarget(image, direction);
      && (t == Size(800, 480) <==>
            (DirectionGiven(direction) && direction.value == "landscape")
            || (!DirectionGiven(direction) && image.width > image.height))
      && (t != Size(800, 480) ==> t == Size(480, 800))
  {
  }

  /** The palette is 256 triples, 768 ints: the seven colours, then 249 blacks. */
  lemma PaletteLayout()
    ensures |Palette| == 768
    ensures GetPalette("RGB", Palette) == Ok(ImageConvert.SevenColors + seq(249, _ => Rgb(0, 0, 0)))
  {
    assert Palette == ImageConvert.DefaultPalette;
    ImageConvert.DefaultPaletteLayout();
  }

  /** Everything this script computes for PIL (target, resized size, offsets,
      delta, padding, box, palette and the errors) is what image_convert.py's
      convert_one computes with resolution (800, 480), given explicitly or by
      default, and no palette. */
  lemma SameAsImageConvert(image: Size, direction: Option<string>, mode: string)
    ensures ConvertOne(image, direction, mode) ==
      ImageConvert.ConvertOne(image, direction, mode, None, Some(Size(800, 480)))
    ensures ConvertOne(image, direction, mode) ==
      ImageConvert.ConvertOne(image, direction, mode, None, None)
  {
    assert Palette == ImageConvert.DefaultPalette;
    assert EinkTarget(image, direction) == Target(image, direction, Size(800, 480));
  }

  /** A 1600 x 960 picture in scale mode: ratio 0.5, resized to 800 x 480,
      pasted at (0, 0). */
  lemma Scale1600x960()
    ensures ConvertOne(Size(1600, 960), None, "scale") ==
      Ok(ImageConvert.Conversion(Size(800, 480), Scaled(0.5, Size(800, 480), 0, 0), Palette))
  {
    var image := Size(1600, 960);
    assert EinkTarget(image, None) == Size(800, 480);
    assert 800.0 / 1600.0 == 0.5 && 480.0 / 960.0 == 0.5;
    assert Resized(1600, 0.5) == 800 by {
      TruncOfInt(800);
    }
    assert Resized(960, 0.5) == 480 by {
      TruncOfInt(480);
    }
  }
}
