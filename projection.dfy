/** The affine map from geographic coordinates to pixel coordinates, and the
    image size derived from the extents of the data. */
module Projection {
  import opened Reals

  /** A geographic bounding box. */
  datatype Extents = Extents(minX: real, minY: real, maxX: real, maxY: real)

  /** A geographic point: (longitude, latitude). */
  type Coord = (real, real)

  /** `lineWidth` and `lineHeight`: the spans of the extents. */
  function LineWidth(e: Extents): real { e.maxX - e.minX }
  function LineHeight(e: Extents): real { e.maxY - e.minY }

  /** Swift's `Int(x)` for a `Double` x: truncation toward zero. */
  function Truncate(x: real): (r: int)
    ensures x >= 0.0 ==> 0 <= r && r as real <= x < r as real + 1.0
    ensures x <= 0.0 ==> r <= 0 && r as real - 1.0 < x <= r as real
  {
    if x >= 0.0 then x.Floor else -((-x).Floor)
  }

  /** The image set-up the script derives once: the extents, the requested
      image width in pixels and the scale factor. */
  datatype Viewport = Viewport(extents: Extents, imageWidth: int, scale: real)

  /** Both spans are positive; the script divides by each of them. */
  predicate HasPositiveSpans(v: Viewport) {
    LineWidth(v.extents) > 0.0 && LineHeight(v.extents) > 0.0
  }

  /** `aspectRatio = lineWidth / lineHeight`. */
  function AspectRatio(v: Viewport): (a: real)
    requires HasPositiveSpans(v)
    ensures a > 0.0 && a * LineHeight(v.extents) == LineWidth(v.extents)
  {
    LineWidth(v.extents) / LineHeight(v.extents)
  }

  /** `imageHeight = Int(Double(imageWidth) / aspectRatio)`. */
  function ImageHeight(v: Viewport): (h: int)
    requires HasPositiveSpans(v)
    ensures v.imageWidth >= 0 ==> h >= 0
    ensures v.imageWidth <= 0 ==> h <= 0
  {
    Truncate(v.imageWidth as real / AspectRatio(v))
  }

  /** `imageToLineWidthRatio`: pixels per unit of longitude. */
  function WidthRatio(v: Viewport): (r: real)
    requires HasPositiveSpans(v)
    ensures v.imageWidth > 0 ==> r > 0.0
    ensures v.imageWidth == 0 ==> r == 0.0
  {
    v.imageWidth as real / LineWidth(v.extents)
  }

  /** `imageToLineHeightRatio`: pixels per unit of latitude, computed from
      the truncated image height. */
  function HeightRatio(v: Viewport): (r: real)
    requires HasPositiveSpans(v)
    ensures ImageHeight(v) > 0 ==> r > 0.0
    ensures ImageHeight(v) == 0 ==> r == 0.0
  {
    ImageHeight(v) as real / LineHeight(v.extents)
  }

  /** `thisX`, written in the script with two negations. They cancel: x
      grows with the distance east of the minimum longitude, so the x axis
      is not mirrored. */
  function ProjectX(v: Viewport, lon: real): (x: real)
    requires HasPositiveSpans(v)
    ensures lon == v.extents.minX ==> x == 0.0
  {
    (v.extents.minX - lon) * -1.0 * WidthRatio(v) * v.scale
  }

  /** `thisY`: the minimum latitude is row 0. */
  function ProjectY(v: Viewport, lat: real): (y: real)
    requires HasPositiveSpans(v)
    ensures lat == v.extents.minY ==> y == 0.0
  {
    (lat - v.extents.minY) * HeightRatio(v) * v.scale
  }

  /** The pixel point of a geographic point: the minimum corner of the
      extents is the origin. */
  function Project(v: Viewport, c: Coord): (p: (real, real))
    requires HasPositiveSpans(v)
    ensures c == (v.extents.minX, v.extents.minY) ==> p == (0.0, 0.0)
  {
    (ProjectX(v, c.0), ProjectY(v, c.1))
  }

  /** The two negations of `thisX` cancel: x is the distance east of the
      minimum longitude, in pixels. */
  lemma ProjectXIsNotMirrored(v: Viewport, lon: real)
    requires HasPositiveSpans(v)
    ensures ProjectX(v, lon) == (lon - v.extents.minX) * WidthRatio(v) * v.scale
  {
  }

  /** The image height keeps the aspect ratio of the extents, up to the
      truncation: h <= width * lineHeight / lineWidth < h + 1. */
  lemma ImageHeightKeepsAspect(v: Viewport)
    requires HasPositiveSpans(v) && v.imageWidth >= 0
    ensures var h, lw, lh := ImageHeight(v), LineWidth(v.extents), LineHeight(v.extents);
      0 <= h &&
      h as real * lw <= v.imageWidth as real * lh < (h as real + 1.0) * lw
  {
    var w, a := v.imageWidth as real, AspectRatio(v);
    var x := w / a;
    DivideMultiply(w, a);
    MultiplyPositive(x, 0.0, a);
    assert 0.0 <= x;
    TruncatedQuotient(ImageHeight(v) as real, w, a, LineHeight(v.extents), LineWidth(v.extents));
  }

  /** For positive a and lh with a * lh == lw, h <= w / a < h + 1 gives
      h * lw <= w * lh < (h + 1) * lw. */
  lemma TruncatedQuotient(h: real, w: real, a: real, lh: real, lw: real)
    requires a > 0.0 && lh > 0.0 && a * lh == lw
    requires h <= w / a < h + 1.0
    ensures h * lw <= w * lh < (h + 1.0) * lw
  {
    var x, h1 := w / a, h + 1.0;
    DivideMultiply(w, a);
    BoundsTimesPositive(h, x, h1, a);
    var ha, h1a := h * a, h1 * a;
    assert ha <= w < h1a;
    BoundsTimesPositive(ha, w, h1a, lh);
    Associate(h, a, lh);
    Associate(h1, a, lh);
  }

  /** Square extents give a square image: the height equals the width. */
  lemma SquareExtentsKeepWidth(v: Viewport)
    requires HasPositiveSpans(v) && LineWidth(v.extents) == LineHeight(v.extents)
    requires v.imageWidth >= 0
    ensures ImageHeight(v) == v.imageWidth
  {
    var a, lh := AspectRatio(v), LineHeight(v.extents);
    MultiplyPositive(a, 1.0, lh);
    MultiplyPositive(1.0, a, lh);
    assert a == 1.0;
    assert v.imageWidth as real / 1.0 == v.imageWidth as real;
  }

  /** The minimum corner of the extents maps to pixel (0, 0) and the
      maximum corner to (imageWidth * scale, imageHeight * scale). */
  lemma CornersMapToImageCorners(v: Viewport)
    requires HasPositiveSpans(v)
    ensures Project(v, (v.extents.minX, v.extents.minY)) == (0.0, 0.0)
    ensures Project(v, (v.extents.maxX, v.extents.maxY)) ==
            (v.imageWidth as real * v.scale, ImageHeight(v) as real * v.scale)
  {
    var e := v.extents;
    var lw, lh := LineWidth(e), LineHeight(e);
    var wr, hr := WidthRatio(v), HeightRatio(v);
    assert ProjectX(v, e.minX) == 0.0 * wr * v.scale == 0.0;
    assert ProjectY(v, e.minY) == 0.0 * hr * v.scale == 0.0;
    DivideMultiply(v.imageWidth as real, lw);
    DivideMultiply(ImageHeight(v) as real, lh);
    assert lw * wr == v.imageWidth as real;
    assert lh * hr == ImageHeight(v) as real;
    assert ProjectX(v, e.maxX) == lw * wr * v.scale;
    assert ProjectY(v, e.maxY) == lh * hr * v.scale;
    assert ProjectX(v, e.maxX) == v.imageWidth as real * v.scale;
    assert ProjectY(v, e.maxY) == ImageHeight(v) as real * v.scale;
  }

  /** With a positive width and scale, a larger longitude gives a larger x:
      the x axis is not mirrored. */
  lemma ProjectXIsStrictlyMonotone(v: Viewport, lon1: real, lon2: real)
    requires HasPositiveSpans(v) && v.imageWidth > 0 && v.scale > 0.0
    requires lon1 < lon2
    ensures ProjectX(v, lon1) < ProjectX(v, lon2)
  {
    var e, r, sc := v.extents, WidthRatio(v), v.scale;
    var d1, d2, k := lon1 - e.minX, lon2 - e.minX, r * sc;
    ProjectXIsNotMirrored(v, lon1);
    ProjectXIsNotMirrored(v, lon2);
    MultiplyPositive(0.0, r, sc);
    assert k > 0.0;
    Associate(d1, r, sc);
    Associate(d2, r, sc);
    MultiplyPositive(d1, d2, k);
  }

  /** With a positive image height and scale, a larger latitude gives a
      larger y. */
  lemma ProjectYIsStrictlyMonotone(v: Viewport, lat1: real, lat2: real)
    requires HasPositiveSpans(v) && ImageHeight(v) > 0 && v.scale > 0.0
    requires lat1 < lat2
    ensures ProjectY(v, lat1) < ProjectY(v, lat2)
  {
    var e, r, sc := v.extents, HeightRatio(v), v.scale;
    var d1, d2, k := lat1 - e.minY, lat2 - e.minY, r * sc;
    assert ProjectY(v, lat1) == d1 * r * sc && ProjectY(v, lat2) == d2 * r * sc;
    MultiplyPositive(0.0, r, sc);
    assert k > 0.0;
    Associate(d1, r, sc);
    Associate(d2, r, sc);
    MultiplyPositive(d1, d2, k);
  }

  /** The projection can be undone when neither axis collapses. */
  predicate IsInvertible(v: Viewport) {
    HasPositiveSpans(v) && v.imageWidth != 0 && ImageHeight(v) != 0 && v.scale != 0.0
  }

  /** The combined factors of `Project` on each axis are non-zero for an
      invertible viewport. */
  lemma FactorsAreNonZero(v: Viewport)
    requires IsInvertible(v)
    ensures WidthRatio(v) * v.scale != 0.0 && HeightRatio(v) * v.scale != 0.0
  {
    DivideMultiply(v.imageWidth as real, LineWidth(v.extents));
    DivideMultiply(ImageHeight(v) as real, LineHeight(v.extents));
    NonZeroProduct(WidthRatio(v), v.scale);
    NonZeroProduct(HeightRatio(v), v.scale);
  }

  /** The longitude of a pixel column: the inverse of `ProjectX`. */
  function UnprojectX(v: Viewport, x: real): real
    requires IsInvertible(v)
  {
    FactorsAreNonZero(v);
    v.extents.minX + x / (WidthRatio(v) * v.scale)
  }

  /** The latitude of a pixel row: the inverse of `ProjectY`. */
  function UnprojectY(v: Viewport, y: real): real
    requires IsInvertible(v)
  {
    FactorsAreNonZero(v);
    v.extents.minY + y / (HeightRatio(v) * v.scale)
  }

  /** The geographic point of a pixel point: the inverse of `Project`. */
  function Unproject(v: Viewport, p: (real, real)): Coord
    requires IsInvertible(v)
  {
    (UnprojectX(v, p.0), UnprojectY(v, p.1))
  }

  /** One axis of the projection, x = (c - m) * r * s, undone by
      c = m + x / (r * s), and the other way round. */
  lemma AxisInverse(m: real, c: real, x: real, r: real, s: real)
    requires r * s != 0.0
    ensures m + (c - m) * r * s / (r * s) == c
    ensures (m + x / (r * s) - m) * r * s == x
  {
    Associate(c - m, r, s);
    MultiplyDivide(c - m, r * s);
    Associate(x / (r * s), r, s);
    DivideMultiply(x, r * s);
  }

  /** `UnprojectX` undoes `ProjectX`, and the other way round. */
  lemma XInverse(v: Viewport, lon: real, x: real)
    requires IsInvertible(v)
    ensures UnprojectX(v, ProjectX(v, lon)) == lon
    ensures ProjectX(v, UnprojectX(v, x)) == x
  {
    FactorsAreNonZero(v);
    AxisInverse(v.extents.minX, lon, x, WidthRatio(v), v.scale);
  }

  /** `UnprojectY` undoes `ProjectY`, and the other way round. */
  lemma YInverse(v: Viewport, lat: real, y: real)
    requires IsInvertible(v)
    ensures UnprojectY(v, ProjectY(v, lat)) == lat
    ensures ProjectY(v, UnprojectY(v, y)) == y
  {
    FactorsAreNonZero(v);
    AxisInverse(v.extents.minY, lat, y, HeightRatio(v), v.scale);
  }

  /** Projecting and then unprojecting gives back the geographic point. */
  lemma UnprojectProject(v: Viewport, c: Coord)
    requires IsInvertible(v)
    ensures Unproject(v, Project(v, c)) == c
  {
    XInverse(v, c.0, 0.0);
    YInverse(v, c.1, 0.0);
  }

  /** Unprojecting and then projecting gives back the pixel point. */
  lemma ProjectUnproject(v: Viewport, p: (real, real))
    requires IsInvertible(v)
    ensures Project(v, Unproject(v, p)) == p
  {
    XInverse(v, 0.0, p.0);
    YInverse(v, 0.0, p.1);
  }
}
