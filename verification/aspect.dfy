/** The aspect normalizer, `ensure_tiktok_format` (main.py:24-55), reduced to
    its decision and geometry.

    The source compares `height / width` with the 9:16 portrait target 16/9:
    within 0.01 the file is left alone; a smaller ratio (too wide) is cropped
    to `int(height * 9 / 16)` columns centred horizontally, at full height; a
    larger ratio gets a `pad` filter of the same width and `int(width * 16 / 9)`
    rows. The ratio test is stated on integers by cross-multiplication
    (`100 * |9h - 16w| < 9w`) and proved equal to the test on exact reals. */
module AspectNormalizer {

  /** The `-vf` filter handed to the re-encode call. */
  datatype Filter =
    | Crop(width: nat, height: nat, x: nat, y: nat)  // crop=W:H:X:Y
    | Pad(width: nat, height: nat)                   // pad=W:H:(ow-iw)/2:(oh-ih)/2

  datatype Decision =
    | Keep                      // already 9:16, the input path is returned untouched
    | Reencode(filter: Filter)  // re-encode through the filter, then replace the file

  /** `height / width` raises ZeroDivisionError for a zero width. */
  datatype Outcome = Decided(decision: Decision) | ZeroDivision

  predicate IsCrop(r: Outcome) {
    r.Decided? && r.decision.Reencode? && r.decision.filter.Crop?
  }

  predicate IsPad(r: Outcome) {
    r.Decided? && r.decision.Reencode? && r.decision.filter.Pad?
  }

  function Abs(x: int): nat {
    if x < 0 then -x else x
  }

  function RealAbs(x: real): real {
    if x < 0.0 then -x else x
  }

  /** `abs(height / width - 16 / 9) < 0.01`, multiplied out by `9 * width`. */
  predicate NearTarget(width: nat, height: nat)
    ensures NearTarget(width, height) ==> width > 0
  {
    100 * Abs(9 * height - 16 * width) < 9 * width
  }

  /** `height / width < 16 / 9`, multiplied out by `9 * width`. */
  predicate TooWide(width: nat, height: nat)
    ensures TooWide(width, height) ==> width > 0
  {
    9 * height < 16 * width
  }

  /** The decision `ensure_tiktok_format` takes for a probed frame size. */
  function Normalize(width: nat, height: nat): (r: Outcome)
    ensures r == ZeroDivision <==> width == 0
    ensures r == Decided(Keep) <==> width > 0 && NearTarget(width, height)
  {
    if width == 0 then ZeroDivision
    else if NearTarget(width, height) then Decided(Keep)
    else if TooWide(width, height) then
      var newWidth := (height * 9) / 16;
      CropWidthBelowFrame(width, height);
      Decided(Reencode(Crop(newWidth, height, (width - newWidth) / 2, 0)))
    else
      Decided(Reencode(Pad(width, (width * 16) / 9)))
  }

  // ---------------------------------------------------------------------
  // The integer tests are the exact-real tests
  // ---------------------------------------------------------------------

  /** `(height / width - 16 / 9) * 9 * width == 9 * height - 16 * width`. */
  lemma ScaledDifference(width: nat, height: nat)
    requires width > 0
    ensures (height as real / width as real - 16.0 / 9.0) * (9 * width) as real ==
            (9 * height - 16 * width) as real
  {
    var w := width as real;
    var h := height as real;
    assert (h / w) * w == h;
    assert (16.0 / 9.0) * 9.0 == 16.0;
    calc {
      (h / w - 16.0 / 9.0) * (9 * width) as real;
      (h / w - 16.0 / 9.0) * (9.0 * w);
      9.0 * ((h / w) * w) - ((16.0 / 9.0) * 9.0) * w;
      9.0 * h - 16.0 * w;
    }
  }

  lemma PositiveProduct(x: real, y: real)
    requires x > 0.0 && y > 0.0
    ensures x * y > 0.0
  {
  }

  /** Scaling by a positive factor preserves a strict bound on the magnitude. */
  lemma ScaledBound(q: real, d: real, n: real)
    requires d > 0.0 && q * d == n
    ensures RealAbs(q) < 0.01 <==> 100.0 * RealAbs(n) < d
  {
    var a := RealAbs(q);
    if q < 0.0 {
      assert a * d == -(q * d);
    } else {
      assert a * d == q * d;
    }
    assert a * d == RealAbs(n);
    if a < 0.01 {
      PositiveProduct(0.01 - a, d);
      assert 0.01 * d - a * d == (0.01 - a) * d;
    } else if a > 0.01 {
      PositiveProduct(a - 0.01, d);
      assert a * d - 0.01 * d == (a - 0.01) * d;
    } else {
      assert a * d == 0.01 * d;
    }
  }

  /** The tolerance test on integers agrees with the test on exact ratios. */
  lemma NearTargetExact(width: nat, height: nat)
    requires width > 0
    ensures NearTarget(width, height) <==>
            RealAbs(height as real / width as real - 16.0 / 9.0) < 0.01
  {
    ScaledDifference(width, height);
    var n := 9 * height - 16 * width;
    ScaledBound(height as real / width as real - 16.0 / 9.0, (9 * width) as real, n as real);
    assert RealAbs(n as real) == Abs(n) as real;
  }

  /** The crop/pad split on integers agrees with `height / width < 16 / 9`. */
  lemma TooWideExact(width: nat, height: nat)
    requires width > 0
    ensures TooWide(width, height) <==> height as real / width as real < 16.0 / 9.0
  {
    ScaledDifference(width, height);
    var q := height as real / width as real - 16.0 / 9.0;
    var d := (9 * width) as real;
    if q < 0.0 {
      assert q * d < 0.0 * d;
    } else {
      assert q * d >= 0.0 * d;
    }
  }

  /** The three-way decision, stated on the exact ratio `height / width`:
      keep within 0.01 of 16/9, crop below it, pad at or above it. */
  lemma ClassificationExact(width: nat, height: nat)
    requires width > 0
    ensures var ratio := height as real / width as real;
            var near := RealAbs(ratio - 16.0 / 9.0) < 0.01;
            var r := Normalize(width, height);
            (r == Decided(Keep) <==> near) &&
            (IsCrop(r) <==> !near && ratio < 16.0 / 9.0) &&
            (IsPad(r) <==> !near && ratio >= 16.0 / 9.0)
  {
    NearTargetExact(width, height);
    TooWideExact(width, height);
  }

  // ---------------------------------------------------------------------
  // Geometry
  // ---------------------------------------------------------------------

  /** When the frame is too wide, `int(height * 9 / 16)` is below its width. */
  lemma CropWidthBelowFrame(width: nat, height: nat)
    requires TooWide(width, height)
    ensures (height * 9) / 16 < width
  {
  }

  /** Crop branch: taken exactly for a too-wide frame outside the tolerance;
      the full height is kept at y = 0, the new width is the widest that is
      not wider than 9:16, and the window is centred inside the frame
      (the right margin is the left one or one more). */
  lemma CropGeometry(width: nat, height: nat)
    requires width > 0
    ensures IsCrop(Normalize(width, height)) <==>
            !NearTarget(width, height) && TooWide(width, height)
    ensures IsCrop(Normalize(width, height)) ==>
            var c := Normalize(width, height).decision.filter;
            c.height == height && c.y == 0 &&
            c.width < width &&
            16 * c.width <= 9 * height < 16 * (c.width + 1) &&
            c.x + c.width <= width &&
            (width - c.width - c.x == c.x || width - c.width - c.x == c.x + 1)
  {
  }

  /** Pad branch: taken exactly for a too-narrow frame outside the tolerance;
      the width is kept and the height is `floor(16 * width / 9)`. As written,
      that height is always below the input height: the frame never gets
      taller. */
  lemma PadGeometry(width: nat, height: nat)
    requires width > 0
    ensures IsPad(Normalize(width, height)) <==>
            !NearTarget(width, height) && !TooWide(width, height)
    ensures IsPad(Normalize(width, height)) ==>
            var p := Normalize(width, height).decision.filter;
            p.width == width &&
            9 * p.height <= 16 * width < 9 * (p.height + 1) &&
            p.height < height
  {
  }

  // ---------------------------------------------------------------------
  // Worked cases
  // ---------------------------------------------------------------------

  /** 1920x1080 landscape: crop to 607 columns at x = 656. A square 1080x1080
      frame has ratio 1 < 16/9, so it is cropped as well (to 607 columns at
      x = 236), not padded. A 1080x1920 portrait frame is kept. */
  lemma WorkedCases()
    ensures Normalize(1920, 1080) == Decided(Reencode(Crop(607, 1080, 656, 0)))
    ensures Normalize(1080, 1080) == Decided(Reencode(Crop(607, 1080, 236, 0)))
    ensures Normalize(1080, 1920) == Decided(Keep)
    ensures Normalize(1000, 2000) == Decided(Reencode(Pad(1000, 1777)))
  {
  }

  /** The tolerance boundary at width 900 (target height 1600): about 0.0089
      off the target (8/900) is kept, about 0.0111 off (10/900) is re-encoded,
      on either side. */
  lemma ToleranceBoundary()
    ensures Normalize(900, 1608) == Decided(Keep)
    ensures Normalize(900, 1592) == Decided(Keep)
    ensures Normalize(900, 1610).Decided? && Normalize(900, 1610).decision.Reencode?
    ensures Normalize(900, 1590).Decided? && Normalize(900, 1590).decision.Reencode?
  {
  }
}
