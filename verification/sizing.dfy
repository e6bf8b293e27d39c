/**
  The size a rasterised page is shown at: unchanged when it fits the canvas,
  otherwise scaled down, keeping its aspect ratio, until it fits. Arithmetic
  is exact (`real`), with Python's `int()` on a float modelled as truncation
  toward zero.
 */
module Sizing {
  import opened Outcomes

  /** A width and a height in pixels. */
  datatype Size = Size(width: int, height: int)

  /** The failure the resize branch can raise: a division by zero. */
  datatype FitError = ZeroDivision

  /** Python's `int()` on a number: truncation toward zero. */
  function Trunc(v: real): (n: int)
    ensures 0.0 <= v ==> n as real <= v < (n + 1) as real
    ensures v < 0.0 ==> (n - 1) as real < v <= n as real
  {
    if 0.0 <= v then v.Floor else -((-v).Floor)
  }

  /** The image is larger than the canvas in at least one dimension. */
  predicate Overflows(originalWidth: nat, originalHeight: nat, canvasWidth: int, canvasHeight: int) {
    originalWidth > canvasWidth || originalHeight > canvasHeight
  }

  /**
    The size the page image is shown at. An image that fits is kept as it is;
    one that overflows is scaled so that one side equals the canvas's and the
    other is at most the canvas's. An overflowing image with a zero side makes
    the aspect-ratio division fail.
   */
  function FitWithin(originalWidth: nat, originalHeight: nat, canvasWidth: int, canvasHeight: int): (r: Result<Size, FitError>)
    ensures r.Failure? <==> Overflows(originalWidth, originalHeight, canvasWidth, canvasHeight)
                            && (originalWidth == 0 || originalHeight == 0)
    ensures !Overflows(originalWidth, originalHeight, canvasWidth, canvasHeight)
            ==> r == Success(Size(originalWidth, originalHeight))
    ensures r.Success? ==> r.value.width <= canvasWidth && r.value.height <= canvasHeight
    ensures r.Success? && Overflows(originalWidth, originalHeight, canvasWidth, canvasHeight)
            ==> r.value.width == canvasWidth || r.value.height == canvasHeight
  {
    if Overflows(originalWidth, originalHeight, canvasWidth, canvasHeight) then
      if originalHeight == 0 then Failure(ZeroDivision)
      else
        var aspectRatio := originalWidth as real / originalHeight as real;
        if aspectRatio == 0.0 then Failure(ZeroDivision)
        else if canvasWidth as real / aspectRatio < canvasHeight as real then
          Success(Size(canvasWidth, Trunc(canvasWidth as real / aspectRatio)))
        else
          var w := canvasHeight as real * aspectRatio;
          assert w <= canvasWidth as real by {
            assert canvasWidth as real / aspectRatio * aspectRatio == canvasWidth as real;
          }
          Success(Size(Trunc(w), canvasHeight))
    else Success(Size(originalWidth, originalHeight))
  }

  /** Multiplying by a positive factor preserves strict order, both ways. */
  lemma MulMonotonic(a: real, b: real, k: real)
    requires 0.0 < k
    ensures a < b <==> a * k < b * k
    ensures a <= b <==> a * k <= b * k
  {
    assert b * k - a * k == (b - a) * k;
  }

  /** Converting a product of integers to a real multiplies their conversions. */
  lemma CastMul(a: int, b: int)
    ensures (a * b) as real == a as real * b as real
  {
  }

  /** Dividing by a non-zero real and multiplying back gives the number again. */
  lemma DivMulCancel(a: real, k: real)
    requires k != 0.0
    ensures a / k * k == a
  {
  }

  /**
    The scaled height of the width-limited branch lies strictly below the
    original height (and so the canvas width below the original width).
   */
  lemma WidthLimitedShrinks(ow: real, oh: real, cw: real, ch: real)
    requires 0.0 < ow && 0.0 < oh && 0.0 <= cw
    requires ow > cw || oh > ch
    requires cw / (ow / oh) < ch
    ensures cw / (ow / oh) < oh && cw < ow
  {
    var ar := ow / oh;
    var v := cw / ar;
    DivMulCancel(cw, ar);
    DivMulCancel(ow, oh);
    MulMonotonic(v, oh, ar);
  }

  /**
    The scaled width of the height-limited branch lies strictly below the
    original width (and so the canvas height below the original height).
   */
  lemma HeightLimitedShrinks(ow: real, oh: real, cw: real, ch: real)
    requires 0.0 < ow && 0.0 < oh && 0.0 <= ch
    requires ow > cw || oh > ch
    requires ch <= cw / (ow / oh)
    ensures ch * (ow / oh) < ow && ch < oh
  {
    var ar := ow / oh;
    DivMulCancel(cw, ar);
    DivMulCancel(ow, oh);
    MulMonotonic(ch, cw / ar, ar);
    MulMonotonic(ch, oh, ar);
  }

  /**
    With a non-negative canvas the shown image is never larger than the
    rasterised page in either dimension, and never negative.
   */
  lemma FitNeverUpscales(originalWidth: nat, originalHeight: nat, canvasWidth: int, canvasHeight: int)
    requires 0 <= canvasWidth && 0 <= canvasHeight
    requires FitWithin(originalWidth, originalHeight, canvasWidth, canvasHeight).Success?
    ensures var s := FitWithin(originalWidth, originalHeight, canvasWidth, canvasHeight).value;
            0 <= s.width <= originalWidth && 0 <= s.height <= originalHeight
  {
    if Overflows(originalWidth, originalHeight, canvasWidth, canvasHeight) {
      var ow, oh := originalWidth as real, originalHeight as real;
      var cw, ch := canvasWidth as real, canvasHeight as real;
      assert 0.0 < ow / oh;
      if cw / (ow / oh) < ch {
        WidthLimitedShrinks(ow, oh, cw, ch);
      } else {
        HeightLimitedShrinks(ow, oh, cw, ch);
      }
    }
  }

  /** An integer below v stays below v once both are multiplied by k. */
  lemma LowerCross(v: real, k: nat, p: int, n: int)
    requires 0 < k && v * k as real == p as real && n as real <= v
    ensures n * k <= p
  {
    MulMonotonic(n as real, v, k as real);
    CastMul(n, k);
  }

  /** An integer above v stays above v once both are multiplied by k. */
  lemma UpperCross(v: real, k: nat, p: int, m: int)
    requires 0 < k && v * k as real == p as real && v < m as real
    ensures p < m * k
  {
    MulMonotonic(v, m as real, k as real);
    CastMul(m, k);
  }

  /**
    When v times a positive integer k is the integer p, truncating a
    non-negative v brackets p between consecutive multiples of k.
   */
  lemma TruncCrossBounds(v: real, k: nat, p: int)
    requires 0.0 <= v && 0 < k && v * k as real == p as real
    ensures Trunc(v) * k <= p < (Trunc(v) + 1) * k
  {
    LowerCross(v, k, p, Trunc(v));
    UpperCross(v, k, p, Trunc(v) + 1);
  }

  /** Scaling by a ratio a / b and then by b scales by a. */
  lemma RatioTimes(c: real, a: real, b: real)
    requires b != 0.0
    ensures c * (a / b) * b == c * a
  {
    assert a / b * b == a;
    assert c * (a / b) * b == c * (a / b * b);
  }

  /** Dividing by a ratio a / b and then scaling by a scales by b. */
  lemma DivRatioTimes(c: real, a: real, b: real)
    requires a != 0.0 && b != 0.0
    ensures c / (a / b) * a == c * b
  {
    assert c / (a / b) == c * b / a;
  }

  /** In the width-limited branch the computed height keeps the ratio up to truncation. */
  lemma WidthLimitedAspect(ow: nat, oh: nat, cw: nat)
    requires 0 < ow && 0 < oh
    ensures var h := Trunc(cw as real / (ow as real / oh as real));
            h * ow <= cw * oh < (h + 1) * ow
  {
    DivRatioTimes(cw as real, ow as real, oh as real);
    CastMul(cw, oh);
    TruncCrossBounds(cw as real / (ow as real / oh as real), ow, cw * oh);
  }

  /** In the height-limited branch the computed width keeps the ratio up to truncation. */
  lemma HeightLimitedAspect(ow: nat, oh: nat, ch: nat)
    requires 0 < ow && 0 < oh
    ensures var w := Trunc(ch as real * (ow as real / oh as real));
            w * oh <= ch * ow < (w + 1) * oh
  {
    RatioTimes(ch as real, ow as real, oh as real);
    CastMul(ch, ow);
    TruncCrossBounds(ch as real * (ow as real / oh as real), oh, ch * ow);
  }

  /**
    A scaled image keeps the page's aspect ratio up to the truncation of the
    computed side: on the side that was computed, the cross products of the
    shown and original sizes differ by less than one pixel times the
    original side.
   */
  lemma FitKeepsAspectRatio(originalWidth: nat, originalHeight: nat, canvasWidth: int, canvasHeight: int)
    requires 0 <= canvasWidth && 0 <= canvasHeight
    requires Overflows(originalWidth, originalHeight, canvasWidth, canvasHeight)
    requires FitWithin(originalWidth, originalHeight, canvasWidth, canvasHeight).Success?
    ensures var s := FitWithin(originalWidth, originalHeight, canvasWidth, canvasHeight).value;
            || (s.width == canvasWidth
                && s.height * originalWidth <= s.width * originalHeight < (s.height + 1) * originalWidth)
            || (s.height == canvasHeight
                && s.width * originalHeight <= s.height * originalWidth < (s.width + 1) * originalHeight)
  {
    var ar := originalWidth as real / originalHeight as real;
    if canvasWidth as real / ar < canvasHeight as real {
      WidthLimitedAspect(originalWidth, originalHeight, canvasWidth);
    } else {
      HeightLimitedAspect(originalWidth, originalHeight, canvasHeight);
    }
  }
}
