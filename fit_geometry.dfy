/** The numbers convert_one hands to PIL when it fits an image to a display:
    the target size picked from the orientation, and either the scale plan
    (ratio, resized size, paste offsets) or the cut plan (delta, padding
    tuple, crop box). Both scripts run the same arithmetic; image_convert.py
    takes the display resolution as a parameter, convert_eink_7_colors.py
    spells out 800 x 480. */
module FitGeometry {
  import opened PyErrors
  import opened PyNum

  /** A (width, height) pair. */
  datatype Size = Size(width: int, height: int)

  /** What each fitting mode computes. */
  datatype Fit =
    | Scaled(ratio: real, resized: Size, left: int, top: int)
    | CutPlan(delta: int, padding: (int, int, int, int), box: (int, int, int, int))

  /** Python truthiness of the display_direction argument: None and '' are false. */
  predicate DirectionGiven(direction: Option<string>) {
    direction.Some? && direction.value != ""
  }

  /** The resolution for a landscape target, the swapped pair otherwise. */
  function Target(image: Size, direction: Option<string>, resolution: Size): Size {
    if DirectionGiven(direction) then
      if direction.value == "landscape" then resolution else Size(resolution.height, resolution.width)
    else if image.width > image.height then resolution
    else Size(resolution.height, resolution.width)
  }

  /** int(side * scale_ratio) */
  function Resized(side: int, ratio: real): int {
    Trunc(side as real * ratio)
  }

  /** (target - resized) // 2: the paste offset that centres the resized image. */
  function Offset(t: int, resized: int): int {
    (t - resized) / 2
  }

  /** Scale mode: scale_ratio = max(tw / w, th / h), resized = int(side *
      ratio), offsets (target - resized) // 2. */
  function ScaleFit(image: Size, target: Size): Result<Fit> {
    var w, h := image.width, image.height;
    if w == 0 || h == 0 then Err(ZeroDivisionError)
    else
      var ratio := Max(target.width as real / w as real, target.height as real / h as real);
      var rw, rh := Resized(w, ratio), Resized(h, ratio);
      Ok(Scaled(ratio, Size(rw, rh), Offset(target.width, rw), Offset(target.height, rh)))
  }

  /** w / h >= tw / th, with Python's true division. */
  predicate WiderThanTarget(w: int, h: int, tw: int, th: int)
    requires h != 0 && th != 0
  {
    w as real / h as real >= tw as real / th as real
  }

  /** int(side * t1 / t2 - other): how much the other side falls short of
      the length that would give it the target's aspect. */
  function CutDelta(side: int, t1: int, t2: int, other: int): int
    requires t2 != 0
  {
    Trunc(side as real * t1 as real / t2 as real - other as real)
  }

  /** Cut mode: compare aspect ratios, compute the delta along the axis to
      pad, split it into two halves, and crop the box (0, 0, w, h). */
  function CutFit(image: Size, target: Size): Result<Fit> {
    var w, h, tw, th := image.width, image.height, target.width, target.height;
    if h == 0 || th == 0 then Err(ZeroDivisionError)
    else if WiderThanTarget(w, h, tw, th) then
      var d := CutDelta(h, tw, th, w);
      Ok(CutPlan(d, (d / 2, 0, d - d / 2, 0), (0, 0, w, h)))
    else if tw == 0 then Err(ZeroDivisionError)
    else
      var d := CutDelta(w, th, tw, h);
      Ok(CutPlan(d, (0, d / 2, 0, d - d / 2), (0, 0, w, h)))
  }

  /** The display_mode dispatch: 'scale', 'cut', or neither, in which case
      resized_image is never assigned and its first use raises. */
  function FitFor(image: Size, target: Size, mode: string): Result<Fit> {
    if mode == "scale" then ScaleFit(image, target)
    else if mode == "cut" then CutFit(image, target)
    else Err(UnboundLocalError)
  }

  // ---- target selection ----

  /** For a non-square resolution, the target is the resolution exactly when
      the direction is 'landscape', or is unset and the image is wider than
      tall; in every other case it is the swapped pair, so a square image
      with no direction goes to portrait. */
  lemma TargetChoice(image: Size, direction: Option<string>, resolution: Size)
    requires resolution.width != resolution.height
    ensures var t := Target(image, direction, resolution);
      && (t == resolution <==>
            (DirectionGiven(direction) && direction.value == "landscape")
            || (!DirectionGiven(direction) && image.width > image.height))
      && (t != resolution ==> t == Size(resolution.height, resolution.width))
  {
  }

  // ---- scale mode ----

  /** x / x is 1; kept apart from ScaleIdentity, whose context makes it costly. */
  lemma DivSelf(x: real)
    requires x > 0.0
    ensures x / x == 1.0
  {
  }

  /** A side scaled by at least target / side is at least the target. */
  lemma ScaledAtLeast(s: real, t: real, ratio: real)
    requires s > 0.0 && ratio >= t / s
    ensures s * ratio >= t
  {
    assert s * ratio >= s * (t / s);
    assert s * (t / s) == t;
  }

  /** One axis of the scale plan: a side scaled by a ratio at least
      target / side covers the target, and exactly meets it when the ratio
      is target / side. */
  lemma ScaledSideCovers(side: int, t: int, ratio: real)
    requires side > 0 && ratio >= t as real / side as real
    ensures Resized(side, ratio) >= t && Offset(t, Resized(side, ratio)) <= 0
    ensures ratio == t as real / side as real ==> Resized(side, ratio) == t && Offset(t, Resized(side, ratio)) == 0
  {
    var x := side as real * ratio;
    ScaledAtLeast(side as real, t as real, ratio);
    assert Resized(side, ratio) >= t by {
      TruncAtLeast(x, t);
    }
    if ratio == t as real / side as real {
      assert x == t as real;
      TruncOfInt(t);
    }
  }

  /** With positive image sides the resized image covers the target on both
      axes, so both paste offsets are at most 0, and the axis that decided
      the ratio is resized to exactly the target with offset 0. */
  lemma ScaleCovers(image: Size, target: Size)
    requires image.width > 0 && image.height > 0
    ensures ScaleFit(image, target).Ok?
    ensures var f := ScaleFit(image, target).value;
      && f.Scaled?
      && f.resized.width >= target.width && f.resized.height >= target.height
      && f.left <= 0 && f.top <= 0
      && (f.ratio == target.width as real / image.width as real ==>
            f.resized.width == target.width && f.left == 0)
      && (f.ratio == target.height as real / image.height as real ==>
            f.resized.height == target.height && f.top == 0)
  {
    var w, h := image.width, image.height;
    var ratio := Max(target.width as real / w as real, target.height as real / h as real);
    ScaledSideCovers(w, target.width, ratio);
    ScaledSideCovers(h, target.height, ratio);
  }

  /** A source already the size of the target is kept as it is: ratio 1,
      resized to itself, pasted at (0, 0). */
  lemma ScaleIdentity(image: Size)
    requires image.width > 0 && image.height > 0
    ensures ScaleFit(image, image) == Ok(Scaled(1.0, image, 0, 0))
  {
    var w, h := image.width as real, image.height as real;
    assert Max(w / w, h / h) == 1.0 by {
      DivSelf(w);
      DivSelf(h);
    }
    assert Resized(image.width, 1.0) == image.width by {
      TruncOfInt(image.width);
    }
    assert Resized(image.height, 1.0) == image.height by {
      TruncOfInt(image.height);
    }
  }

  // ---- cut mode ----

  /** The crop box is always the whole image, and the two padding halves on
      the padded axis add up to the delta (the first half being the floor of
      half of it) while the other axis gets none. */
  lemma CutShape(image: Size, target: Size)
    requires CutFit(image, target).Ok?
    ensures var f := CutFit(image, target).value;
      && f.CutPlan?
      && f.box == (0, 0, image.width, image.height)
      && ((f.padding.0 + f.padding.2 == f.delta && f.padding.1 == 0 && f.padding.3 == 0
           && 2 * f.padding.0 <= f.delta <= 2 * f.padding.0 + 1)
          || (f.padding.1 + f.padding.3 == f.delta && f.padding.0 == 0 && f.padding.2 == 0
           && 2 * f.padding.1 <= f.delta <= 2 * f.padding.1 + 1))
  {
  }

  /** Dividing both sides of a < or >= comparison of two ratios by positive
      numbers: w / h >= tw / th exactly when h * tw / th <= w. */
  lemma RatioCompare(w: real, h: real, tw: real, th: real)
    requires h > 0.0 && th > 0.0 && tw > 0.0
    ensures w / h >= tw / th <==> h * tw / th <= w
    ensures w / h < tw / th <==> w * th / tw < h
  {
    assert w / h >= tw / th <==> w * th >= tw * h by {
      assert w / h * (h * th) == w * th;
      assert tw / th * (h * th) == tw * h;
    }
    assert h * tw / th <= w <==> h * tw <= w * th by {
      assert h * tw / th * th == h * tw;
    }
    assert w * th / tw < h <==> w * th < h * tw by {
      assert w * th / tw * tw == w * th;
    }
  }

  /** Padding the width: the height scaled to the target's aspect is at most
      the width, so the delta is not positive. */
  lemma WideDeltaNonPositive(w: int, h: int, tw: int, th: int)
    requires w > 0 && h > 0 && tw > 0 && th > 0 && WiderThanTarget(w, h, tw, th)
    ensures CutDelta(h, tw, th, w) <= 0
  {
    var x := h as real * tw as real / th as real;
    assert x <= w as real by {
      RatioCompare(w as real, h as real, tw as real, th as real);
    }
    TruncNonPositive(x - w as real);
  }

  /** Padding the height: likewise with the roles of the sides swapped. */
  lemma TallDeltaNonPositive(w: int, h: int, tw: int, th: int)
    requires w > 0 && h > 0 && tw > 0 && th > 0 && !WiderThanTarget(w, h, tw, th)
    ensures CutDelta(w, th, tw, h) <= 0
  {
    var x := w as real * th as real / tw as real;
    assert x < h as real by {
      RatioCompare(w as real, h as real, tw as real, th as real);
    }
    TruncNonPositive(x - h as real);
  }

  /** With positive sides the delta is never positive: the image always has
      at least the target's aspect on the axis chosen for padding, so the
      "padding" computed is in fact zero or a crop amount. */
  lemma CutDeltaNonPositive(image: Size, target: Size)
    requires image.width > 0 && image.height > 0 && target.width > 0 && target.height > 0
    ensures CutFit(image, target).Ok?
    ensures CutFit(image, target).value.delta <= 0
  {
    var w, h, tw, th := image.width, image.height, target.width, target.height;
    if WiderThanTarget(w, h, tw, th) {
      WideDeltaNonPositive(w, h, tw, th);
    } else {
      TallDeltaNonPositive(w, h, tw, th);
    }
  }
}
