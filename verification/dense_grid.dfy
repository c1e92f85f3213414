/**
 * The parameter computation of dense sampling: from the image width W,
 * height H and requested feature count N, the grid step, the feature scale,
 * the column and row counts, the leftover margins and the pixel offset that
 * are handed to the dense feature detector.
 *
 * Every step the C++ code leaves undefined (signed overflow, division by
 * zero, the square root of a negative number converted to `int`) is a
 * `Fault`; all of them arise before the detector is built.
 */
module DenseGrid {
  import opened Outcomes
  import opened CppArith
  import opened IntSqrt

  datatype Fault =
    | AreaOverflow        // W * H does not fit in an int
    | DivisionByZero      // N == 0 in (W * H) / N
    | NegativeDensity     // sqrt of a negative (W * H) / N
    | ZeroStep            // ceil(interval) == 0, so W / ceil(interval) is not finite
    | MarginAreaOverflow  // odd_cols * odd_rows does not fit in an int
    | NegativeMarginArea  // sqrt of a negative (odd_cols * odd_rows) / 4

  /** The locals of the parameter computation, each as an exact integer. */
  datatype Grid = Grid(
    density: int,    // (W * H) / N, truncated: the square of `interval`
    step: nat,       // ceil(interval)
    scale: nat,      // ceil(interval / 2)
    colCount: int,   // sample_col_num
    rowCount: int,   // sample_row_num
    oddCols: int,    // odd_cols
    oddRows: int,    // odd_rows
    offset: nat)     // int(sift + 0.5)

  /** The arguments of the dense feature detector's constructor. */
  datatype DetectorConfig = DetectorConfig(
    initFeatureScale: nat,
    featureScaleLevels: nat,
    featureScaleMul: real,
    initXyStep: nat,
    initImgBound: nat,
    varyXyStepWithScale: bool,
    varyImgBoundWithScale: bool)

  /**
   * The computation of `extract_using_dense` from reading the image size up
   * to `sift = sqrt((odd_cols * odd_rows) / 4)`, the last value the detector needs.
   * Note that `oddRows` subtracts the row span from the WIDTH, as the code does.
   */
  function Plan(width: nat, height: nat, featureNum: int): (r: Result<Grid, Fault>)
    ensures r == Failure(AreaOverflow) <==> width * height > IntMax
    ensures r == Failure(DivisionByZero) <==> width * height <= IntMax && featureNum == 0
    ensures r == Failure(NegativeDensity) <==>
              width * height <= IntMax && featureNum < 0 && -featureNum <= width * height
    ensures r == Failure(ZeroStep) <==>
              width * height <= IntMax && featureNum != 0 && width * height < Abs(featureNum)
    ensures r.Success? || r.error.MarginAreaOverflow? || r.error.NegativeMarginArea? <==>
              1 <= featureNum <= width * height <= IntMax
  {
    var area := width * height;
    match DensityOf(area, featureNum)
    case Failure(e) => Failure(e)
    case Success(density) => Layout(width, height, density)
  }

  /**
   * `interval = sqrt((W * H) / N)` with the division truncated, and the zero
   * test on `ceil(interval)` that the divisions `W / ceil(interval)` need.
   */
  function DensityOf(area: nat, featureNum: int): (r: Result<nat, Fault>)
    ensures r == Failure(AreaOverflow) <==> area > IntMax
    ensures r == Failure(DivisionByZero) <==> area <= IntMax && featureNum == 0
    ensures r == Failure(NegativeDensity) <==>
              area <= IntMax && featureNum < 0 && -featureNum <= area
    ensures r == Failure(ZeroStep) <==>
              area <= IntMax && featureNum != 0 && area < Abs(featureNum)
    ensures r.Success? <==> 1 <= featureNum <= area <= IntMax
    ensures r.Success? ==> r.value == TruncDiv(area, featureNum) >= 1
  {
    if area > IntMax then Failure(AreaOverflow)
    else if featureNum == 0 then Failure(DivisionByZero)
    else
      var density := TruncDiv(area, featureNum);
      DensitySign(area, featureNum);
      if density < 0 then Failure(NegativeDensity)
      else if CeilSqrt(density) == 0 then Failure(ZeroStep)
      else Success(density)
  }

  /**
   * `scale`, `sample_col_num`, `sample_row_num`, `odd_cols`, `odd_rows` and
   * `sift`, once the density is known to be positive.
   */
  function Layout(width: nat, height: nat, density: nat): (r: Result<Grid, Fault>)
    requires 1 <= density
    ensures r.Failure? ==> r.error.MarginAreaOverflow? || r.error.NegativeMarginArea?
  {
    var step := CeilSqrt(density);
    var scale := HalfCeilSqrt(density);
    var colCount := width / step;
    var rowCount := height / step;
    var oddCols := width - colCount * step;
    var oddRows := width - rowCount * step;
    var marginArea := oddCols * oddRows;
    if !InInt(marginArea) then Failure(MarginAreaOverflow)
    else
      var quarter := TruncDiv(marginArea, 4);
      if quarter < 0 then Failure(NegativeMarginArea)
      else Success(Grid(density, step, scale, colCount, rowCount, oddCols, oddRows, RoundSqrt(quarter)))
  }

  /** Signs of the truncated quotient of a non-negative area. */
  lemma DensitySign(area: nat, featureNum: int)
    requires featureNum != 0
    ensures TruncDiv(area, featureNum) < 0 <==> featureNum < 0 && -featureNum <= area
    ensures TruncDiv(area, featureNum) == 0 <==> area < Abs(featureNum)
  {
    var q := TruncDiv(area, featureNum);
    if q != 0 {
      ProductMagnitude(q, featureNum);
    }
  }

  lemma ProductMagnitude(q: int, n: int)
    requires q != 0 && n != 0
    ensures Abs(q * n) >= Abs(n)
    ensures q * n > 0 <==> (q > 0) == (n > 0)
  {
    var a: int, b: int := Abs(q), Abs(n);
    PositiveProduct(a, b);
    if q > 0 && n > 0 {
      assert q * n == a * b;
    } else if q > 0 {
      assert q * n == a * (-b) == -(a * b);
    } else if n > 0 {
      assert q * n == (-a) * b == -(a * b);
    } else {
      assert q * n == (-a) * (-b) == a * b;
    }
  }

  lemma PositiveProduct(a: int, b: int)
    requires 1 <= a && 1 <= b
    ensures b <= a * b
  {
    assert a * b == (a - 1) * b + b;
  }

  /** The detector built at the end of `extract_using_dense`. */
  function Config(g: Grid): DetectorConfig {
    DetectorConfig(
      initFeatureScale := g.scale,
      featureScaleLevels := 1,
      featureScaleMul := 0.1,
      initXyStep := g.step,
      initImgBound := g.offset,
      varyXyStepWithScale := true,
      varyImgBoundWithScale := false)
  }
}

/** Properties of the dense sampling parameters. */
module DenseGridFacts {
  import opened Outcomes
  import opened CppArith
  import opened IntSqrt
  import opened DenseGrid

  /** The fields of a successful plan, each by the expression that defines it. */
  lemma PlanShape(width: nat, height: nat, featureNum: int)
    requires Plan(width, height, featureNum).Success?
    ensures var g := Plan(width, height, featureNum).value;
      && 1 <= featureNum <= width * height <= IntMax
      && g.density == TruncDiv(width * height, featureNum)
      && 1 <= g.density
      && g.step == CeilSqrt(g.density)
      && g.scale == HalfCeilSqrt(g.density)
      && g.colCount == width / g.step
      && g.rowCount == height / g.step
      && g.oddCols == width - g.colCount * g.step
      && g.oddRows == width - g.rowCount * g.step
      && InInt(g.oddCols * g.oddRows)
      && 0 <= TruncDiv(g.oddCols * g.oddRows, 4)
      && g.offset == RoundSqrt(TruncDiv(g.oddCols * g.oddRows, 4))
  {
  }

  /**
   * The grid step is `ceil(sqrt((W * H) / N))`: the least integer whose
   * square covers the density, and at least 1.
   */
  lemma StepCoversDensity(width: nat, height: nat, featureNum: int)
    requires Plan(width, height, featureNum).Success?
    ensures var g := Plan(width, height, featureNum).value;
      && 1 <= featureNum
      && g.density == width * height / featureNum
      && 1 <= g.step
      && g.step * g.step >= g.density
      && (g.step - 1) * (g.step - 1) < g.density
  {
    PlanShape(width, height, featureNum);
    TruncDivNonNegative(width * height, featureNum);
  }

  /** `sample_col_num = W / c` and `odd_cols = W mod c`, so `0 <= odd_cols < c`. */
  lemma ColumnMargin(width: nat, height: nat, featureNum: int)
    requires Plan(width, height, featureNum).Success?
    ensures var g := Plan(width, height, featureNum).value;
      && g.colCount == width / g.step
      && g.oddCols == width % g.step
      && 0 <= g.oddCols < g.step
  {
    PlanShape(width, height, featureNum);
    ColumnSpan(width, Plan(width, height, featureNum).value.step);
  }

  /** What the columns leave over is the remainder of the width. */
  lemma ColumnSpan(width: nat, step: nat)
    requires 1 <= step
    ensures width - (width / step) * step == width % step
    ensures 0 <= width % step < step
  {
  }

  /**
   * `odd_rows` subtracts the row span from the width: it equals `odd_cols`
   * on a square image and is non-negative when the image is not taller than
   * wide, but it differs from `odd_cols` by whole steps otherwise.
   */
  lemma RowMarginUsesWidth(width: nat, height: nat, featureNum: int)
    requires Plan(width, height, featureNum).Success?
    ensures var g := Plan(width, height, featureNum).value;
      && g.rowCount == height / g.step
      && g.oddRows == width - (height / g.step) * g.step
      && g.oddRows - g.oddCols == (g.colCount - g.rowCount) * g.step
      && (width == height ==> g.oddRows == g.oddCols)
      && (height <= width ==> 0 <= g.oddRows)
  {
    PlanShape(width, height, featureNum);
    var g := Plan(width, height, featureNum).value;
    RowSpan(width, height, g.step);
  }

  /** The row span `(H / c) * c` never exceeds the height. */
  lemma RowSpan(width: nat, height: nat, step: nat)
    requires 1 <= step
    ensures (height / step) * step <= height
    ensures (width / step - height / step) * step == (width / step) * step - (height / step) * step
  {
  }

  /** The square root of a negative `(odd_cols * odd_rows) / 4` needs an image taller than it is wide. */
  lemma OnlyTallImagesHaveNegativeMarginArea(width: nat, height: nat, featureNum: int)
    requires Plan(width, height, featureNum) == Failure(NegativeMarginArea)
    ensures width < height
  {
    if height <= width {
      var density := TruncDiv(width * height, featureNum);
      var step := CeilSqrt(density);
      RowSpan(width, height, step);
      var oddCols := width - (width / step) * step;
      var oddRows := width - (height / step) * step;
      NonNegativeProduct(oddCols, oddRows);
      TruncDivByFour(oddCols * oddRows);
    }
  }

  /**
   * `odd_cols * odd_rows` overflows only on an image wider than it is tall:
   * otherwise `0 <= odd_cols <= W` and `|odd_rows| <= H`, so the product is
   * bounded by `W * H`.
   */
  lemma OnlyWideImagesOverflowMarginArea(width: nat, height: nat, featureNum: int)
    requires Plan(width, height, featureNum) == Failure(MarginAreaOverflow)
    ensures height < width
  {
    if width <= height {
      var area := width * height;
      var density := TruncDiv(area, featureNum);
      assert DensityOf(area, featureNum) == Success(density);
      var step := CeilSqrt(density);
      var oddCols := width - (width / step) * step;
      var oddRows := width - (height / step) * step;
      MarginFactorsBounded(width, height, step);
      MarginProductBound(oddCols, oddRows, width, height);
      assert InInt(oddCols * oddRows);
    }
  }

  /**
   * On an image no wider than tall, `odd_cols * odd_rows` is within `W * H`
   * in magnitude, so it fits in an `int` whenever the area does.
   */
  lemma MarginAreaBounded(width: nat, height: nat, featureNum: int)
    requires 1 <= featureNum <= width * height <= IntMax && width <= height
    ensures var step := CeilSqrt(TruncDiv(width * height, featureNum));
      var oddCols := width - (width / step) * step;
      var oddRows := width - (height / step) * step;
      && 1 <= step
      && -(width * height) <= oddCols * oddRows <= width * height
  {
    var density := TruncDiv(width * height, featureNum);
    assert DensityOf(width * height, featureNum) == Success(density);
    var step := CeilSqrt(density);
    MarginFactorsBounded(width, height, step);
    MarginProductBound(width - (width / step) * step, width - (height / step) * step, width, height);
  }

  /** For `W <= H`: `0 <= odd_cols <= W` and `-H <= odd_rows <= H`. */
  lemma MarginFactorsBounded(width: nat, height: nat, step: nat)
    requires 1 <= step && width <= height
    ensures 0 <= width - (width / step) * step <= width
    ensures -(height as int) <= width - (height / step) * step <= height
  {
    ColumnSpan(width, step);
    RowSpan(width, height, step);
    NonNegativeProduct(width / step, step);
    NonNegativeProduct(height / step, step);
  }

  /** A product of factors bounded by `W` and by `H` in magnitude is within `W * H`. */
  lemma MarginProductBound(a: int, b: int, width: nat, height: nat)
    requires 0 <= a <= width && -(height as int) <= b <= height
    ensures -(width * height) <= a * b <= width * height
  {
    if 0 <= b {
      ScaleUp(a, b, width);
      ScaleUp(b, width, height);
      assert a * b <= width * height;
    } else {
      ScaleUp(a, -b, width);
      ScaleUp(-b, width, height);
      assert a * (-b) == -(a * b);
    }
  }

  /** Multiplying by a non-negative factor keeps the order of non-negative numbers. */
  lemma ScaleUp(x: int, y: int, z: int)
    requires 0 <= x <= z && 0 <= y
    ensures x * y <= z * y
  {
    assert z * y == x * y + (z - x) * y;
    NonNegativeProduct(z - x, y);
  }

  lemma NonNegativeProduct(a: int, b: int)
    requires 0 <= a && 0 <= b
    ensures 0 <= a * b
  {
  }

  /**
   * The offset is `sqrt(q)` rounded, with `q = (odd_cols * odd_rows) / 4`
   * truncated: 0 exactly when `q` is 0, otherwise the integer within a half
   * of `sqrt(q)`.
   */
  lemma OffsetRoundsQuarterMarginArea(width: nat, height: nat, featureNum: int)
    requires Plan(width, height, featureNum).Success?
    ensures var g := Plan(width, height, featureNum).value;
      var q := TruncDiv(g.oddCols * g.oddRows, 4);
      && 0 <= q
      && (g.offset == 0 <==> q == 0)
      && 4 * q < (2 * g.offset + 1) * (2 * g.offset + 1)
      && (g.offset == 0 || (2 * g.offset - 1) * (2 * g.offset - 1) <= 4 * q)
  {
    PlanShape(width, height, featureNum);
  }

  /**
   * The feature scale `ceil(interval / 2)` is the least `s` with `4 s^2` at
   * least the density, and twice it is the step or one more.
   */
  lemma ScaleBracketsStep(width: nat, height: nat, featureNum: int)
    requires Plan(width, height, featureNum).Success?
    ensures var g := Plan(width, height, featureNum).value;
      && 1 <= g.scale
      && 4 * g.scale * g.scale >= g.density
      && 4 * (g.scale - 1) * (g.scale - 1) < g.density
      && g.step <= 2 * g.scale <= g.step + 1
  {
    PlanShape(width, height, featureNum);
    HalfStep(Plan(width, height, featureNum).value.density);
  }

  /** `ceil(sqrt(k))` and `ceil(sqrt(k) / 2)` are within one of a factor two. */
  lemma HalfStep(k: int)
    requires 1 <= k
    ensures CeilSqrt(k) <= 2 * HalfCeilSqrt(k) <= CeilSqrt(k) + 1
  {
    HalfStepBounds(k, CeilSqrt(k), HalfCeilSqrt(k));
  }

  lemma HalfStepBounds(k: int, c: nat, s: nat)
    requires 1 <= c && (c - 1) * (c - 1) < k
    requires 1 <= s && 4 * s * s >= k && 4 * (s - 1) * (s - 1) < k
    requires c * c >= k
    ensures c <= 2 * s <= c + 1
  {
    var t, u := 2 * s, 2 * (s - 1);
    assert t * t == 4 * s * s;
    assert u * u == 4 * (s - 1) * (s - 1);
    SquareLess(c - 1, t);
    SquareLess(u, c);
  }

  /**
   * On a square image with a feasible count the computation always reaches
   * the detector, both margins are `W mod c`, and the offset is half of that
   * margin rounded down.
   */
  lemma SquareImageCentresGrid(side: nat, featureNum: int)
    requires 1 <= featureNum <= side * side <= IntMax
    ensures Plan(side, side, featureNum).Success?
    ensures var g := Plan(side, side, featureNum).value;
      && g.oddRows == g.oddCols == side % g.step
      && g.offset == (side % g.step) / 2
  {
    var area := side * side;
    var density := TruncDiv(area, featureNum);
    DensityAtMostArea(area, featureNum);
    var step := CeilSqrt(density);
    SquareLess(step - 1, side);
    var o := side % step;
    assert side - (side / step) * step == o;
    SquareMonotone(o, side);
    HalfMarginOffset(o);
  }

  lemma DensityAtMostArea(area: nat, featureNum: int)
    requires 1 <= featureNum
    ensures TruncDiv(area, featureNum) == area / featureNum <= area
  {
    TruncDivNonNegative(area, featureNum);
  }

  /** For a margin `o`, `int(sqrt((o * o) / 4) + 0.5)` is `o / 2`. */
  lemma HalfMarginOffset(o: nat)
    ensures 0 <= TruncDiv(o * o, 4) == (o * o) / 4
    ensures RoundSqrt(TruncDiv(o * o, 4)) == o / 2
  {
    TruncDivByFour(o * o);
    var q := (o * o) / 4;
    var r := o / 2;
    assert (2 * r + 1) * (2 * r + 1) == 4 * (r * r) + 4 * r + 1;
    assert (2 * r - 1) * (2 * r - 1) == 4 * (r * r) - 4 * r + 1;
    if o % 2 == 0 {
      assert o * o == 4 * (r * r);
    } else {
      assert o * o == 4 * (r * r + r) + 1;
    }
    RoundSqrtUnique(q, r);
  }

  /**
   * The detector `extract_using_dense` builds from a successful plan: its
   * step is the least c with c * c >= (W * H) / N, its feature scale s has
   * c <= 2s <= c + 1, its image bound is the rounded square root of the
   * quarter margin area, and it samples one scale level whose step grows
   * with the scale while the bound does not.
   */
  lemma DetectorFollowsPlan(width: nat, height: nat, featureNum: int)
    requires Plan(width, height, featureNum).Success?
    ensures var g := Plan(width, height, featureNum).value;
      var c := Config(g);
      var q := TruncDiv(g.oddCols * g.oddRows, 4);
      && 1 <= c.initXyStep
      && c.initXyStep * c.initXyStep >= width * height / featureNum
      && (c.initXyStep - 1) * (c.initXyStep - 1) < width * height / featureNum
      && c.initXyStep <= 2 * c.initFeatureScale <= c.initXyStep + 1
      && 0 <= q
      && 4 * q < (2 * c.initImgBound + 1) * (2 * c.initImgBound + 1)
      && (c.initImgBound == 0 || (2 * c.initImgBound - 1) * (2 * c.initImgBound - 1) <= 4 * q)
      && c.featureScaleLevels == 1 && c.featureScaleMul == 0.1
      && c.varyXyStepWithScale && !c.varyImgBoundWithScale
  {
    StepCoversDensity(width, height, featureNum);
    ScaleBracketsStep(width, height, featureNum);
    OffsetRoundsQuarterMarginArea(width, height, featureNum);
  }

  /** 100 x 100 pixels, 4 features: step 50, scale 25, no margin, no offset. */
  lemma SquareExample()
    ensures Plan(100, 100, 4) == Success(Grid(2500, 50, 25, 2, 2, 0, 0, 0))
  {
    assert DensityOf(10000, 4) == Success(2500);
    CeilSqrtUnique(2500, 50);
    HalfCeilSqrtUnique(2500, 25);
    assert 100 / 50 == 2;
    assert Layout(100, 100, 2500) == Success(Grid(2500, 50, 25, 2, 2, 0, 0, 0));
  }

  /**
   * 10 x 100 pixels, 1 feature: step 32, `odd_rows = 10 - 3 * 32 = -86`, and
   * `(10 * -86) / 4 = -215` has no square root.
   */
  lemma TallImageExample()
    ensures Plan(10, 100, 1) == Failure(NegativeMarginArea)
  {
    assert TruncDiv(1000, 1) == 1000;
    assert DensityOf(1000, 1) == Success(1000);
    CeilSqrtUnique(1000, 32);
    assert 10 / 32 == 0 && 100 / 32 == 3;
    assert TruncDiv(-860, 4) == -215;
    assert Layout(10, 100, 1000) == Failure(NegativeMarginArea);
  }

  /**
   * 2147483647 x 1 pixels, 1 feature: the area fits in an `int`, the step
   * is 46341 and `odd_cols` is 41707, but `odd_rows` is the whole width, so
   * `odd_cols * odd_rows` overflows.
   */
  lemma MarginOverflowExample()
    ensures Plan(IntMax, 1, 1) == Failure(MarginAreaOverflow)
  {
    assert TruncDiv(IntMax, 1) == IntMax;
    assert DensityOf(IntMax, 1) == Success(IntMax);
    assert 46340 * 46340 == 2147395600 < IntMax;
    assert 46341 * 46341 == 2147488281;
    CeilSqrtUnique(IntMax, 46341);
    assert IntMax / 46341 == 46340 && 1 / 46341 == 0;
    assert IntMax - 46340 * 46341 == 41707;
    assert 41707 * IntMax > IntMax;
    assert Layout(IntMax, 1, IntMax) == Failure(MarginAreaOverflow);
  }

  /**
   * 105 x 10 pixels, 10 features: step 11, but `odd_rows = 105 - 0 * 11` is
   * far beyond the step, and the offset 13 exceeds the image height.
   */
  lemma WideImageExample()
    ensures Plan(105, 10, 10) == Success(Grid(105, 11, 6, 9, 0, 6, 105, 13))
    ensures Plan(105, 10, 10).value.oddRows > Plan(105, 10, 10).value.step
    ensures Plan(105, 10, 10).value.offset > 10
  {
    assert TruncDiv(1050, 10) == 105;
    assert DensityOf(1050, 10) == Success(105);
    CeilSqrtUnique(105, 11);
    HalfCeilSqrtUnique(105, 6);
    assert 105 / 11 == 9 && 10 / 11 == 0;
    assert TruncDiv(630, 4) == 157;
    RoundSqrtUnique(157, 13);
    assert Layout(105, 10, 105) == Success(Grid(105, 11, 6, 9, 0, 6, 105, 13));
  }
}
