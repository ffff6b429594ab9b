/**
 Cover-crop geometry of `resize_and_crop` in main.py.

 The source works with Python floats: it compares `tw / w` with `th / h`,
 then truncates `h * (tw / w)` (or `w * (th / h)`) with `int()`. This module
 reads that code in exact arithmetic: the ratio comparison becomes the
 integer cross-multiplication `tw * h > th * w`, and the truncation becomes
 floor division `(h * tw) / w` on non-negative integers. `ExactResize` below
 transliterates the float code over Dafny's exact `real` numbers, and
 `ResizedMatchesExact` proves the integer reading equal to it.

 Only dimensions and the crop box are computed; the pixel work of
 `image.resize` and `image.crop` is outside the model.
 */
module Geometry {
  import opened Arithmetic

  /** A width and a height in pixels: a source image size or a target size. */
  datatype Size = Size(width: int, height: int)

  /** A crop box in PIL's order: (left, upper, right, lower), right and lower exclusive. */
  datatype Box = Box(left: int, top: int, right: int, bottom: int)

  /** What `resize_and_crop` hands to PIL: the resize dimensions and the crop box. */
  datatype Cover = Cover(resized: Size, box: Box)

  predicate Positive(s: Size) {
    s.width > 0 && s.height > 0
  }

  /** True when the target is relatively wider than the source, i.e.
      `tw / w > th / h`; the width is then pinned to the target.
      Ties (`tw * h == th * w`) pin the height. */
  predicate WidthPinned(src: Size, target: Size) {
    target.width * src.height > target.height * src.width
  }

  /** The size the source image is resized to before cropping (main.py:158-165).
      The resized image covers the target on both axes, and one axis equals
      the target exactly. */
  function ResizedSize(src: Size, target: Size): (r: Size)
    requires Positive(src) && Positive(target)
    ensures r.width >= target.width && r.height >= target.height
    ensures WidthPinned(src, target) ==> r.width == target.width
    ensures !WidthPinned(src, target) ==> r.height == target.height
    // the unpinned axis is the exact scaled length rounded down
    ensures WidthPinned(src, target) ==>
              r.height * src.width <= src.height * target.width < (r.height + 1) * src.width
    ensures !WidthPinned(src, target) ==>
              r.width * src.height <= src.width * target.height < (r.width + 1) * src.height
  {
    if WidthPinned(src, target) then
      var h := (src.height * target.width) / src.width;
      DivAtLeast(src.height * target.width, target.height, src.width);
      Size(target.width, h)
    else
      var w := (src.width * target.height) / src.height;
      DivAtLeast(src.width * target.height, target.width, src.height);
      Size(w, target.height)
  }

  /** The centred crop box of size `target` inside an image of size `resized`
      (main.py:171-177). Python's `//` floors; for the divisor 2 Dafny's
      Euclidean `/` is the same operation. */
  function CenteredCrop(resized: Size, target: Size): (b: Box)
    ensures b.right - b.left == target.width
    ensures b.bottom - b.top == target.height
    ensures resized.width >= target.width ==>
              0 <= b.left && b.right <= resized.width
    ensures resized.height >= target.height ==>
              0 <= b.top && b.bottom <= resized.height
    // centred: the far margin exceeds the near margin by 0 or 1 pixel
    ensures (resized.width - b.right) - b.left in {0, 1}
    ensures (resized.height - b.bottom) - b.top in {0, 1}
    ensures resized.width == target.width ==> b.left == 0
    ensures resized.height == target.height ==> b.top == 0
  {
    var left := (resized.width - target.width) / 2;
    var top := (resized.height - target.height) / 2;
    Box(left, top, left + target.width, top + target.height)
  }

  /** `resize_and_crop` (main.py:155-178): resize to cover, then crop the
      centred target-sized window. The result is exactly the target size,
      lies inside the resized image with margins differing by at most one
      pixel, and is not cut on the pinned axis. */
  function ResizeAndCrop(src: Size, target: Size): (c: Cover)
    requires Positive(src) && Positive(target)
    ensures c.box.right - c.box.left == target.width
    ensures c.box.bottom - c.box.top == target.height
    ensures c.resized.width >= target.width && c.resized.height >= target.height
    ensures 0 <= c.box.left && c.box.right <= c.resized.width
    ensures 0 <= c.box.top && c.box.bottom <= c.resized.height
    ensures (c.resized.width - c.box.right) - c.box.left in {0, 1}
    ensures (c.resized.height - c.box.bottom) - c.box.top in {0, 1}
    ensures WidthPinned(src, target) ==> c.resized.width == target.width && c.box.left == 0
    ensures !WidthPinned(src, target) ==> c.resized.height == target.height && c.box.top == 0
  {
    var resized := ResizedSize(src, target);
    Cover(resized, CenteredCrop(resized, target))
  }

  /** A target with the source's aspect ratio is reached by scaling alone:
      the resized image already has the target size and nothing is cut. */
  lemma ProportionalTargetNoCrop(src: Size, target: Size)
    requires Positive(src) && Positive(target)
    requires target.width * src.height == target.height * src.width
    ensures ResizeAndCrop(src, target).resized == target
    ensures ResizeAndCrop(src, target).box == Box(0, 0, target.width, target.height)
  {
    assert src.width * target.height == target.width * src.height;
    DivModUnique(target.width * src.height, target.width, 0, src.height);
  }

  /** The float code of main.py:158-165 read over exact reals:
      `width_ratio = tw / w`, `height_ratio = th / h`, the larger ratio pins
      its axis, and `int()` truncates the other scaled length (all values are
      non-negative, so truncation is the floor). */
  function ExactResize(src: Size, target: Size): Size
    requires Positive(src)
  {
    var widthRatio := target.width as real / src.width as real;
    var heightRatio := target.height as real / src.height as real;
    if widthRatio > heightRatio then
      Size(target.width, (src.height as real * widthRatio).Floor)
    else
      Size((src.width as real * heightRatio).Floor, target.height)
  }

  /** Floor of an exact quotient is integer division. */
  lemma FloorOfQuotient(a: int, d: int)
    requires a >= 0 && d > 0
    ensures (a as real / d as real).Floor == a / d
  {
    var q, m := a / d, a % d;
    assert a == q * d + m && 0 <= m < d;
    var x := a as real / d as real;
    var f := m as real / d as real;
    assert 0.0 <= f < 1.0;
    assert a as real == q as real * d as real + m as real;
    assert x == q as real + f;
  }

  /** `a * (b / d) == (a * b) / d` over reals. */
  lemma ScaleByRatio(a: int, b: int, d: int)
    requires d > 0
    ensures a as real * (b as real / d as real) == (a * b) as real / d as real
  {
  }

  /** Cross-multiplication decides the ratio comparison exactly. */
  lemma RatioComparison(src: Size, target: Size)
    requires Positive(src) && Positive(target)
    ensures (target.width as real / src.width as real > target.height as real / src.height as real)
            <==> WidthPinned(src, target)
  {
    var w, h := src.width as real, src.height as real;
    var tw, th := target.width as real, target.height as real;
    assert (target.width * src.height) as real == tw * h;
    assert (target.height * src.width) as real == th * w;
    assert tw / w * (w * h) == tw * h;
    assert th / h * (w * h) == th * w;
    assert w * h > 0.0;
  }

  /** The integer model agrees with the exact-arithmetic reading of the float code. */
  lemma ResizedMatchesExact(src: Size, target: Size)
    requires Positive(src) && Positive(target)
    ensures ResizedSize(src, target) == ExactResize(src, target)
  {
    RatioComparison(src, target);
    if WidthPinned(src, target) {
      ScaleByRatio(src.height, target.width, src.width);
      FloorOfQuotient(src.height * target.width, src.width);
    } else {
      ScaleByRatio(src.width, target.height, src.height);
      FloorOfQuotient(src.width * target.height, src.height);
    }
  }
}
