/**
 * Construction of a pinhole camera intrinsic from a frame's metadata
 * (`create_intrinsic_from_meta` in worker/app.py). Sizes are integers as
 * they arrive in the metadata JSON; matrix entries and scale factors are reals.
 * A matrix written in JSON with integers only becomes an integer numpy array,
 * and a scaled entry stored back into it is truncated toward zero.
 */
module Intrinsics {
  import opened Wrappers

  /** An image size, the metadata's `[width, height]` pair. */
  datatype Size = Size(width: int, height: int)

  /** One row of a 3x3 matrix. */
  datatype Row = Row(c0: real, c1: real, c2: real)

  /** True when `x` is a whole number. */
  predicate IsWhole(x: real)
  {
    x.Floor as real == x
  }

  /**
   * A 3x3 camera matrix K, rows r0..r2. `integral` is whether `np.array`
   * gave it an integer dtype, which it does when every JSON entry is an integer.
   */
  datatype Mat3 = Mat3(r0: Row, r1: Row, r2: Row, integral: bool) {
    /** An integer array holds whole numbers only. */
    predicate Valid()
    {
      integral ==>
        && IsWhole(r0.c0) && IsWhole(r0.c1) && IsWhole(r0.c2)
        && IsWhole(r1.c0) && IsWhole(r1.c1) && IsWhole(r1.c2)
        && IsWhole(r2.c0) && IsWhole(r2.c1) && IsWhole(r2.c2)
    }

    /** K[0,0] */
    function Fx(): real { r0.c0 }
    /** K[1,1] */
    function Fy(): real { r1.c1 }
    /** K[0,2] */
    function Cx(): real { r0.c2 }
    /** K[1,2] */
    function Cy(): real { r1.c2 }
  }

  /** The metadata keys the construction consults; each may be absent. */
  datatype Meta = Meta(
    depthSize: Option<Size>,
    kDepth: Option<Mat3>,
    kColor: Option<Mat3>,
    colorSize: Option<Size>)

  /** A metadata record without any of the keys. */
  const EMPTY_META := Meta(None, None, None, None)

  /** Open3D's PinholeCameraIntrinsic(width, height, fx, fy, cx, cy). */
  datatype Pinhole = Pinhole(width: int, height: int, fx: real, fy: real, cx: real, cy: real)

  /**
   * The exceptions the construction can raise: a KeyError for a missing
   * `K_color` or `colorSize`, a ZeroDivisionError for a zero colour width or height.
   */
  datatype MetaError = MissingKColor | MissingColorSize | ZeroColorWidth | ZeroColorHeight

  /** The intrinsic read off matrix `k` for an image of size `size`. */
  function FromMatrix(size: Size, k: Mat3): Pinhole
  {
    Pinhole(size.width, size.height, k.Fx(), k.Fy(), k.Cx(), k.Cy())
  }

  /** Python's `int()` of a float: the whole number next to `x` on the side of zero. */
  function TruncTowardZero(x: real): (r: real)
    ensures IsWhole(r)
    ensures 0.0 <= x ==> 0.0 <= r <= x < r + 1.0
    ensures x < 0.0 ==> r - 1.0 < x <= r <= 0.0
  {
    if 0.0 <= x then
      var f := x.Floor;
      assert (f as real).Floor == f;
      f as real
    else
      var f := (-x).Floor;
      assert (-(f as real)).Floor == -f;
      -(f as real)
  }

  /** Truncation keeps a whole number. */
  lemma TruncKeepsWhole(x: real)
    ensures IsWhole(x) ==> TruncTowardZero(x) == x
  {
    if IsWhole(x) && x < 0.0 {
      assert (-x).Floor == -(x.Floor);
    }
  }

  /** The value a numpy array of the given kind holds after `x` is stored into it. */
  function Stored(integral: bool, x: real): real
  {
    if integral then TruncTowardZero(x) else x
  }

  /** Scaling an entry by one and storing it back keeps it. */
  lemma StoredUnitScale(integral: bool, x: real, s: real)
    ensures s == 1.0 && (integral ==> IsWhole(x)) ==> Stored(integral, x * s) == x
  {
    if s == 1.0 {
      assert x * s == x;
      TruncKeepsWhole(x);
    }
  }

  /**
   * The copy of `k` with fx and cx multiplied by `sx` and fy and cy by `sy`,
   * each product stored back into the array (truncated for an integer array);
   * every other entry, and the array's kind, is kept.
   */
  function Rescale(k: Mat3, sx: real, sy: real): (r: Mat3)
    ensures r.Fx() == Stored(k.integral, k.Fx() * sx) && r.Cx() == Stored(k.integral, k.Cx() * sx)
    ensures r.Fy() == Stored(k.integral, k.Fy() * sy) && r.Cy() == Stored(k.integral, k.Cy() * sy)
    ensures r.r0.c1 == k.r0.c1 && r.r1.c0 == k.r1.c0 && r.r2 == k.r2 && r.integral == k.integral
    ensures k.Valid() ==> r.Valid()
    ensures sx == 1.0 && sy == 1.0 && k.Valid() ==> r == k
  {
    var fx, cx := Stored(k.integral, k.Fx() * sx), Stored(k.integral, k.Cx() * sx);
    var fy, cy := Stored(k.integral, k.Fy() * sy), Stored(k.integral, k.Cy() * sy);
    StoredUnitScale(k.integral, k.Fx(), sx);
    StoredUnitScale(k.integral, k.Cx(), sx);
    StoredUnitScale(k.integral, k.Fy(), sy);
    StoredUnitScale(k.integral, k.Cy(), sy);
    Mat3(Row(fx, k.r0.c1, cx), Row(k.r1.c0, fy, cy), k.r2, k.integral)
  }

  /** The ratio `num / den` of two metadata integers, as Python's true division. */
  function Ratio(num: int, den: int): real
    requires den != 0
  {
    num as real / den as real
  }

  /**
   * The depth-resolution fallback: `K_color` scaled from the colour size to
   * `depth`. Fails as the source does when `K_color` or `colorSize` is missing
   * or a colour dimension is zero, in that order.
   */
  function ScaledColor(meta: Meta, depth: Size): (r: Result<Pinhole, MetaError>)
    ensures r.Failure? <==>
      meta.kColor.None? || meta.colorSize.None? ||
      meta.colorSize.value.width == 0 || meta.colorSize.value.height == 0
    ensures r.Failure? ==>
      r.error == (if meta.kColor.None? then MissingKColor
                  else if meta.colorSize.None? then MissingColorSize
                  else if meta.colorSize.value.width == 0 then ZeroColorWidth
                  else ZeroColorHeight)
    ensures r.Success? ==>
      var color, k := meta.colorSize.value, meta.kColor.value;
      var sx, sy := Ratio(depth.width, color.width), Ratio(depth.height, color.height);
      r.value == Pinhole(depth.width, depth.height,
        Stored(k.integral, k.Fx() * sx), Stored(k.integral, k.Fy() * sy),
        Stored(k.integral, k.Cx() * sx), Stored(k.integral, k.Cy() * sy))
  {
    if meta.kColor.None? then Failure(MissingKColor)
    else if meta.colorSize.None? then Failure(MissingColorSize)
    else if meta.colorSize.value.width == 0 then Failure(ZeroColorWidth)
    else if meta.colorSize.value.height == 0 then Failure(ZeroColorHeight)
    else
      var color := meta.colorSize.value;
      var k := Rescale(meta.kColor.value, Ratio(depth.width, color.width), Ratio(depth.height, color.height));
      Success(FromMatrix(depth, k))
  }

  /** True when the depth-resolution route is taken. */
  predicate UsesDepthSize(meta: Meta, useDepthSize: bool)
  {
    useDepthSize && meta.depthSize.Some?
  }

  /**
   * `create_intrinsic_from_meta(meta, use_depth_size)`: the depth size with
   * `K_depth` when both are there; the depth size with `K_color` rescaled when
   * `K_depth` is absent; otherwise the colour size with `K_color` as it is.
   */
  function CreateIntrinsic(meta: Meta, useDepthSize: bool): (r: Result<Pinhole, MetaError>)
    // depth size and K_depth: K_depth's entries unchanged
    ensures UsesDepthSize(meta, useDepthSize) && meta.kDepth.Some? ==>
      r == Success(FromMatrix(meta.depthSize.value, meta.kDepth.value))
    // depth size without K_depth: K_color's fx, cx scaled by width ratio, fy, cy by height
    // ratio, each stored back into K (truncated toward zero when K is an integer array)
    ensures UsesDepthSize(meta, useDepthSize) && meta.kDepth.None? ==>
      r == ScaledColor(meta, meta.depthSize.value)
    // colour route: colour size and K_color unchanged
    ensures !UsesDepthSize(meta, useDepthSize) ==>
      (r.Success? <==> meta.kColor.Some? && meta.colorSize.Some?) &&
      (r.Success? ==> r.value == FromMatrix(meta.colorSize.value, meta.kColor.value))
    // when it fails, it is for one of the missing or zero inputs above
    ensures r.Failure? <==>
      if UsesDepthSize(meta, useDepthSize) then
        meta.kDepth.None? &&
        (meta.kColor.None? || meta.colorSize.None? ||
         meta.colorSize.value.width == 0 || meta.colorSize.value.height == 0)
      else meta.kColor.None? || meta.colorSize.None?
  {
    if UsesDepthSize(meta, useDepthSize) then
      var depth := meta.depthSize.value;
      if meta.kDepth.Some? then Success(FromMatrix(depth, meta.kDepth.value))
      else ScaledColor(meta, depth)
    else if meta.colorSize.None? then Failure(MissingColorSize)
    else if meta.kColor.None? then Failure(MissingKColor)
    else Success(FromMatrix(meta.colorSize.value, meta.kColor.value))
  }

  /** Horizontal pixel coordinate of camera-space point (x, _, z) under `p`. */
  function ProjectU(p: Pinhole, x: real, z: real): real
    requires z != 0.0
  {
    p.fx * (x / z) + p.cx
  }

  /** Vertical pixel coordinate of camera-space point (_, y, z) under `p`. */
  function ProjectV(p: Pinhole, y: real, z: real): real
    requires z != 0.0
  {
    p.fy * (y / z) + p.cy
  }

  /**
   * For a floating-point `K_color`, the fallback intrinsic is the colour
   * camera seen at depth resolution: a camera-space point projects to the
   * depth pixel whose coordinates are its colour pixel's coordinates times
   * the resolution ratios.
   */
  lemma FallbackProjectsProportionally(meta: Meta, x: real, y: real, z: real)
    requires meta.depthSize.Some? && meta.kDepth.None?
    requires meta.kColor.Some? ==> !meta.kColor.value.integral
    requires CreateIntrinsic(meta, true).Success?
    requires z != 0.0
    ensures meta.colorSize.Some? && meta.colorSize.value.width != 0 && meta.colorSize.value.height != 0
    ensures CreateIntrinsic(meta, false).Success?
    ensures var depth, color := meta.depthSize.value, meta.colorSize.value;
      var d, c := CreateIntrinsic(meta, true).value, CreateIntrinsic(meta, false).value;
      && ProjectU(d, x, z) == ProjectU(c, x, z) * Ratio(depth.width, color.width)
      && ProjectV(d, y, z) == ProjectV(c, y, z) * Ratio(depth.height, color.height)
  {
  }

  /**
   * When the depth and colour sizes agree, the fallback scales by one: it
   * yields exactly the intrinsic of the colour route.
   */
  lemma FallbackIsIdentityAtColorSize(meta: Meta)
    requires meta.depthSize.Some? && meta.kDepth.None?
    requires meta.colorSize == meta.depthSize
    requires meta.depthSize.value.width != 0 && meta.depthSize.value.height != 0
    requires meta.kColor.Some? ==> meta.kColor.value.Valid()
    ensures CreateIntrinsic(meta, true) == CreateIntrinsic(meta, false)
  {
    var size, k := meta.depthSize.value, meta.kColor;
    var w, h := size.width as real, size.height as real;
    assert Ratio(size.width, size.width) == 1.0 by { assert w / w == 1.0; }
    assert Ratio(size.height, size.height) == 1.0 by { assert h / h == 1.0; }
    if k.Some? {
      assert ScaledColor(meta, size) == Success(FromMatrix(size, Rescale(k.value, 1.0, 1.0)));
    }
  }

  /**
   * A zero colour dimension fails only the fallback: with equal sizes of zero
   * width, the fallback divides by zero while the colour route succeeds.
   */
  lemma ZeroColorWidthFailsOnlyFallback(k: Mat3)
    ensures var meta := Meta(Some(Size(0, 5)), None, Some(k), Some(Size(0, 5)));
      && CreateIntrinsic(meta, true) == Failure(ZeroColorWidth)
      && CreateIntrinsic(meta, false) == Success(FromMatrix(Size(0, 5), k))
  {
  }

  function Abs(x: real): real
  {
    if x < 0.0 then -x else x
  }

  /** Every rescaled entry of an integer matrix truncates its exact product. */
  lemma RescaleTruncates(k: Mat3, sx: real, sy: real)
    requires k.integral
    ensures var r := Rescale(k, sx, sy);
      && Truncates(r.Fx(), k.Fx() * sx) && Truncates(r.Cx(), k.Cx() * sx)
      && Truncates(r.Fy(), k.Fy() * sy) && Truncates(r.Cy(), k.Cy() * sy)
  {
    TruncationBound(k.Fx() * sx);
    TruncationBound(k.Cx() * sx);
    TruncationBound(k.Fy() * sy);
    TruncationBound(k.Cy() * sy);
  }

  /** `stored` is a whole number within one of `exact` and no larger in magnitude. */
  predicate Truncates(stored: real, exact: real)
  {
    IsWhole(stored) && Abs(stored - exact) < 1.0 && Abs(stored) <= Abs(exact)
  }

  lemma TruncationBound(x: real)
    ensures Truncates(TruncTowardZero(x), x)
  {
  }

  /**
   * An integer `K_color` of 500-pixel focal length for a 1920x1440 colour
   * image, rescaled to a 256x192 depth image, gives fx = fy = 66 and cx = 42
   * where exact scaling gives 200/3 and 128/3; cy = 32 is exact.
   */
  lemma IntegralFallbackExample()
    ensures var k := Mat3(Row(500.0, 0.0, 320.0), Row(0.0, 500.0, 240.0), Row(0.0, 0.0, 1.0), true);
      var meta := Meta(Some(Size(256, 192)), None, Some(k), Some(Size(1920, 1440)));
      && CreateIntrinsic(meta, true) == Success(Pinhole(256, 192, 66.0, 66.0, 42.0, 32.0))
      && CreateIntrinsic(meta.(kColor := Some(k.(integral := false))), true)
         == Success(Pinhole(256, 192, 200.0 / 3.0, 200.0 / 3.0, 128.0 / 3.0, 32.0))
  {
    assert Ratio(256, 1920) == 2.0 / 15.0;
    assert Ratio(192, 1440) == 2.0 / 15.0;
    assert TruncTowardZero(200.0 / 3.0) == 66.0;
    assert TruncTowardZero(128.0 / 3.0) == 42.0;
    assert TruncTowardZero(32.0) == 32.0;
  }

  /** With `K_depth` present on the depth route, the colour keys are never consulted. */
  lemma DepthMatrixOverridesColor(meta: Meta, kColor: Option<Mat3>, colorSize: Option<Size>)
    requires meta.depthSize.Some? && meta.kDepth.Some?
    ensures CreateIntrinsic(meta, true) == CreateIntrinsic(meta.(kColor := kColor, colorSize := colorSize), true)
    ensures CreateIntrinsic(meta, true).Success?
  {
  }

  /** The colour route never consults the depth keys. */
  lemma ColorRouteIgnoresDepthKeys(meta: Meta, depthSize: Option<Size>, kDepth: Option<Mat3>)
    ensures CreateIntrinsic(meta, false) == CreateIntrinsic(meta.(depthSize := depthSize, kDepth := kDepth), false)
  {
  }
}
