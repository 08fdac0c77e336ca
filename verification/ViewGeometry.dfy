/** site/image-slot.js: the arithmetic that pans, scales and clamps an image in its frame.

    Lengths are reals, offsets are percentages of the frame from its centre, and the scale is relative
    to the fit. Rounding is not modelled. */
module ViewGeometry {
  import opened Wrappers

  datatype View = View(s: real, x: real, y: real)

  /** `_geom`: image and frame sizes, once the image has loaded and the slot has a box, and the scale at which
      the image fills the frame, or fits inside it. */
  datatype Geometry = Geometry(iw: real, ih: real, fw: real, fh: real, base: real) {
    predicate Valid() {
      iw > 0.0 && ih > 0.0 && fw > 0.0 && fh > 0.0 && base > 0.0
    }

    /** The base is the fit's. */
    predicate Fits(contain: bool)
      requires iw > 0.0 && ih > 0.0
    {
      base == if contain then Min(fw / iw, fh / ih) else Max(fw / iw, fh / ih)
    }
  }

  const S_MAX := 5.0

  function Min(a: real, b: real): real {
    if a < b then a else b
  }

  function Max(a: real, b: real): real {
    if a > b then a else b
  }

  function ClampS(s: real): real {
    Max(1.0, Min(S_MAX, s))
  }

  /** A scale within the slot's range stays; another goes to the end it is past. */
  lemma ClampSIs(s: real)
    ensures 1.0 <= s <= 5.0 ==> ClampS(s) == s
    ensures s < 1.0 ==> ClampS(s) == 1.0
    ensures s > 5.0 ==> ClampS(s) == 5.0
  {
  }

  /** The base, of either fit, is a scale. */
  lemma FitIsPositive(g: Geometry, contain: bool)
    requires g.iw > 0.0 && g.ih > 0.0 && g.fw > 0.0 && g.fh > 0.0 && g.Fits(contain)
    ensures g.Valid()
  {
    Quotient(g.fw, g.iw);
    Quotient(g.fh, g.ih);
  }

  /** `_geom`: none until the image has loaded, or while the slot has no box. */
  function Geom(iw: real, ih: real, fw: real, fh: real, contain: bool): (r: Option<Geometry>)
    requires iw >= 0.0 && ih >= 0.0 && fw >= 0.0 && fh >= 0.0
    ensures r.Some? <==> iw > 0.0 && ih > 0.0 && fw > 0.0 && fh > 0.0
    ensures r.Some? ==> r.value.Valid() && r.value.Fits(contain)
    ensures r.Some? ==> r.value.iw == iw && r.value.ih == ih && r.value.fw == fw && r.value.fh == fh
  {
    if iw == 0.0 || ih == 0.0 || fw == 0.0 || fh == 0.0 then None
    else
      var g := Geometry(iw, ih, fw, fh, if contain then Min(fw / iw, fh / ih) else Max(fw / iw, fh / ih));
      FitIsPositive(g, contain);
      Some(g)
  }

  /** At the base of a cover fit the image fills the frame on both axes, and just does on one; at that of a contain
      fit it goes into the frame on both, and just does on one. */
  lemma FitIs(g: Geometry, contain: bool)
    requires g.Valid() && g.Fits(contain)
    ensures g.iw * g.base == g.fw || g.ih * g.base == g.fh
    ensures contain ==> g.iw * g.base <= g.fw && g.ih * g.base <= g.fh
    ensures !contain ==> g.iw * g.base >= g.fw && g.ih * g.base >= g.fh
  {
    FitOnAxis(g.iw, g.fw, g.base);
    FitOnAxis(g.ih, g.fh, g.base);
  }

  lemma FitOnAxis(image: real, frame: real, base: real)
    requires image > 0.0
    ensures base == frame / image ==> image * base == frame
    ensures base <= frame / image ==> image * base <= frame
    ensures base >= frame / image ==> image * base >= frame
  {
    var q := frame / image;
    assert q * image == frame;
    if base <= q {
      Times(base, q, image);
    }
    if base >= q {
      Times(q, base, image);
    }
  }

  lemma Times(a: real, b: real, c: real)
    requires a <= b && c > 0.0
    ensures c * a <= c * b
  {
  }

  /** The image's size on an axis, in per cent of the frame's. */
  function SizePct(image: real, frame: real, base: real, s: real): real
    requires frame > 0.0
  {
    image * base * s / frame * 100.0
  }

  function WidthPct(g: Geometry, s: real): real
    requires g.Valid()
  {
    SizePct(g.iw, g.fw, g.base, s)
  }

  function HeightPct(g: Geometry, s: real): real
    requires g.Valid()
  {
    SizePct(g.ih, g.fh, g.base, s)
  }

  /** How far an offset may go: half the overflow past the frame's edge. */
  function PanRange(sizePct: real): real {
    Max(0.0, (sizePct / 100.0 - 1.0) * 50.0)
  }

  function ClampTo(m: real, v: real): real {
    Max(-m, Min(m, v))
  }

  /** `_clampView`. */
  function ClampView(g: Geometry, v: View): View
    requires g.Valid()
  {
    View(v.s, ClampTo(PanRange(WidthPct(g, v.s)), v.x), ClampTo(PanRange(HeightPct(g, v.s)), v.y))
  }

  // ---------------------------------------------------------------- clamping

  /** On one axis, the image covers the frame from edge to edge. */
  predicate Covers(sizePct: real, offset: real) {
    50.0 + offset - sizePct / 2.0 <= 0.0 && 100.0 <= 50.0 + offset + sizePct / 2.0
  }

  /** On an axis where the image reaches past the frame, clamping leaves no gap and moves the image no
      further than it must; on one where it does not, clamping centres it. Clamping again does nothing. */
  lemma ClampAxis(sizePct: real, v: real)
    ensures var c := ClampTo(PanRange(sizePct), v);
      && (sizePct >= 100.0 ==> Covers(sizePct, c))
      && (sizePct <= 100.0 ==> c == 0.0)
      && (Covers(sizePct, v) ==> c == v)
      && (sizePct >= 100.0 ==> forall w :: Covers(sizePct, w) ==> (v - c) * (v - c) <= (v - w) * (v - w))
      && ClampTo(PanRange(sizePct), c) == c
  {
    var m, c := PanRange(sizePct), ClampTo(PanRange(sizePct), v);
    if sizePct >= 100.0 {
      forall w | Covers(sizePct, w) ensures (v - c) * (v - c) <= (v - w) * (v - w) {
        assert -m <= w <= m;
        if v > m {
          assert 0.0 <= v - c <= v - w;
          SquareGrows(v - c, v - w);
        } else if v < -m {
          assert 0.0 <= c - v <= w - v;
          SquareGrows(c - v, w - v);
        }
      }
    }
  }

  lemma SquareGrows(a: real, b: real)
    requires 0.0 <= a <= b
    ensures a * a <= b * b
  {
    assert a * a <= a * b <= b * b;
  }

  lemma Scaled(i: real, f: real, base: real, s: real)
    requires i > 0.0 && f > 0.0 && s >= 1.0 && base >= f / i
    ensures SizePct(i, f, base, s) >= 100.0
  {
    assert i * (f / i) == f;
    assert i * base >= f;
    assert i * base * s >= f * 1.0;
    assert i * base * s / f >= 1.0;
  }

  lemma MaxIsOver(a: real, b: real)
    ensures Max(a, b) >= a && Max(a, b) >= b
  {
  }

  lemma CoverFills(g: Geometry, s: real)
    requires g.Valid() && g.Fits(false) && s >= 1.0
    ensures WidthPct(g, s) >= 100.0 && HeightPct(g, s) >= 100.0
  {
    MaxIsOver(g.fw / g.iw, g.fh / g.ih);
    Scaled(g.iw, g.fw, g.base, s);
    Scaled(g.ih, g.fh, g.base, s);
  }

  /** A clamped cover view at a scale the slot allows leaves no part of the frame uncovered. */
  lemma CoverLeavesNoGap(g: Geometry, v: View)
    requires g.Valid() && g.Fits(false) && 1.0 <= v.s <= S_MAX
    ensures var c := ClampView(g, v); Covers(WidthPct(g, c.s), c.x) && Covers(HeightPct(g, c.s), c.y)
  {
    CoverFills(g, v.s);
    ClampAxis(WidthPct(g, v.s), v.x);
    ClampAxis(HeightPct(g, v.s), v.y);
  }

  /** A clamped contain view covers each axis it overflows and is centred on each it does not. */
  lemma ContainCoversOrCentres(g: Geometry, v: View)
    requires g.Valid() && g.Fits(true)
    ensures var c := ClampView(g, v);
      && (if WidthPct(g, c.s) > 100.0 then Covers(WidthPct(g, c.s), c.x) else c.x == 0.0)
      && (if HeightPct(g, c.s) > 100.0 then Covers(HeightPct(g, c.s), c.y) else c.y == 0.0)
  {
    ClampAxis(WidthPct(g, v.s), v.x);
    ClampAxis(HeightPct(g, v.s), v.y);
  }

  lemma ClampIsIdempotent(g: Geometry, v: View)
    requires g.Valid()
    ensures ClampView(g, ClampView(g, v)) == ClampView(g, v)
  {
    ClampAxis(WidthPct(g, v.s), v.x);
    ClampAxis(HeightPct(g, v.s), v.y);
  }

  // ---------------------------------------------------------------- wheel zoom

  /** The wheel handler up to its clamp: the cursor at (`cx`, `cy`) from the centre. */
  function Zoom(v: View, next: real, cx: real, cy: real): View
    requires v.s > 0.0
  {
    var k := next / v.s;
    View(next, cx * (1.0 - k) + v.x * k, cy * (1.0 - k) + v.y * k)
  }

  /** Where on the image, relative to its centre and its unscaled size, a frame position lies. */
  function ImagePoint(offset: real, s: real, at: real): real
    requires s > 0.0
  {
    (at - offset) / s
  }

  /** Zooming gives the view the scale asked for, keeps the image point under the cursor under it, and zooming back
      restores the view. */
  lemma ZoomFixesTheCursor(v: View, next: real, cx: real, cy: real)
    requires v.s > 0.0 && next > 0.0
    ensures var z := Zoom(v, next, cx, cy);
      && z.s == next
      && ImagePoint(z.x, z.s, cx) == ImagePoint(v.x, v.s, cx)
      && ImagePoint(z.y, z.s, cy) == ImagePoint(v.y, v.s, cy)
      && Zoom(z, v.s, cx, cy) == v
  {
    ZoomAxis(v.s, next, v.x, cx);
    ZoomAxis(v.s, next, v.y, cy);
  }

  lemma ZoomAxis(s: real, next: real, x: real, c: real)
    requires s > 0.0 && next > 0.0
    ensures var k := next / s;
      var x' := c * (1.0 - k) + x * k;
      (c - x') / next == (c - x) / s && c * (1.0 - s / next) + x' * (s / next) == x
  {
    var k := next / s;
    var x' := c * (1.0 - k) + x * k;
    assert c - x' == k * (c - x);
    assert k * s == next;
    var q := (c - x) / s;
    assert q * s == c - x;
    assert c - x' == k * (q * s) == q * next;
    var j := s / next;
    Inverse(s, next);
    assert x' * j == c * j - c * (k * j) + x * (k * j);
  }

  lemma Inverse(a: real, b: real)
    requires a > 0.0 && b > 0.0
    ensures (a / b) * (b / a) == 1.0
  {
    var j, k := a / b, b / a;
    assert j * b == a && k * a == b;
    var jk := j * k;
    assert jk * a == j * (k * a) == j * b == a;
    assert (jk - 1.0) * a == 0.0;
  }

  // ---------------------------------------------------------------- corner resize

  /** A resize in progress: the image's size and centre when the drag began, in pixels of the frame; the
      corner dragged, as a direction on each axis; the diagonal's length. */
  datatype Grip = Grip(s0: real, w0: real, h0: real, cx0: real, cy0: real, sx: real, sy: real, diag0: real) {
    predicate Valid() {
      s0 > 0.0 && w0 > 0.0 && h0 > 0.0 && diag0 > 0.0 && diag0 * diag0 == w0 * w0 + h0 * h0
      && (sx == 1.0 || sx == -1.0) && (sy == 1.0 || sy == -1.0)
    }
  }

  /** The grip a pointer-down takes on the image as it is shown: `sx` and `sy` say which corner, `diag0` is the
      length of the image's diagonal, which is given since it is a square root. */
  function GripOf(g: Geometry, v: View, sx: real, sy: real, diag0: real): Grip
    requires g.Valid()
  {
    Grip(v.s, g.iw * g.base * v.s, g.ih * g.base * v.s, (50.0 + v.x) / 100.0 * g.fw, (50.0 + v.y) / 100.0 * g.fh,
         sx, sy, diag0)
  }

  /** What is a corner, and its image's diagonal. */
  predicate IsGrip(g: Geometry, v: View, sx: real, sy: real, diag0: real)
    requires g.Valid()
  {
    && v.s > 0.0 && (sx == 1.0 || sx == -1.0) && (sy == 1.0 || sy == -1.0)
    && diag0 > 0.0 && diag0 * diag0 == Square(g.iw * g.base * v.s) + Square(g.ih * g.base * v.s)
  }

  function Square(a: real): real {
    a * a
  }

  /** Where a view shows the edge of the image on one axis, in pixels of the frame: its centre, and half its size
      towards `to`. */
  function Edge(offset: real, sizePct: real, frame: real, to: real): real {
    (50.0 + offset) / 100.0 * frame + to * (sizePct / 100.0 * frame) / 2.0
  }

  /** The corner of the image as a view shows it. */
  function ShownX(g: Geometry, v: View, sx: real): real
    requires g.Valid()
  {
    Edge(v.x, WidthPct(g, v.s), g.fw, sx)
  }

  function ShownY(g: Geometry, v: View, sy: real): real
    requires g.Valid()
  {
    Edge(v.y, HeightPct(g, v.s), g.fh, sy)
  }

  /** The offset stored for a centre. */
  function OffsetOf(c: real, frame: real): real
    requires frame > 0.0
  {
    c / frame * 100.0 - 50.0
  }

  /** The view a grip and a scale come to, before the clamp. */
  function Dragged(g: Geometry, p: Grip, s: real): View
    requires g.Valid() && p.Valid()
  {
    View(s, OffsetOf(CentreX(p, s), g.fw), OffsetOf(CentreY(p, s), g.fh))
  }

  lemma GripIsValid(g: Geometry, v: View, sx: real, sy: real, diag0: real)
    requires g.Valid() && IsGrip(g, v, sx, sy, diag0)
    ensures GripOf(g, v, sx, sy, diag0).Valid()
  {
    Positive(g.iw, g.base, v.s);
    Positive(g.ih, g.base, v.s);
  }

  lemma Quotient(a: real, b: real)
    requires a > 0.0 && b > 0.0
    ensures a / b > 0.0
  {
  }

  lemma Positive(a: real, b: real, c: real)
    requires a > 0.0 && b > 0.0 && c > 0.0
    ensures a * b * c > 0.0
  {
  }

  /** What is shown is the image at its base and scale: that many pixels wide and high, its centre that far from the
      frame's. */
  lemma ShownIs(g: Geometry, v: View)
    requires g.Valid()
    ensures ShownX(g, v, 1.0) - ShownX(g, v, -1.0) == g.iw * g.base * v.s
    ensures ShownY(g, v, 1.0) - ShownY(g, v, -1.0) == g.ih * g.base * v.s
    ensures (ShownX(g, v, 1.0) + ShownX(g, v, -1.0)) / 2.0 == g.fw / 2.0 + v.x / 100.0 * g.fw
    ensures (ShownY(g, v, 1.0) + ShownY(g, v, -1.0)) / 2.0 == g.fh / 2.0 + v.y / 100.0 * g.fh
  {
    Pixels(g.iw, g.fw, g.base, v.s);
    Pixels(g.ih, g.fh, g.base, v.s);
  }

  /** A size in per cent of the frame, in pixels. */
  lemma Pixels(image: real, frame: real, base: real, s: real)
    requires frame > 0.0
    ensures SizePct(image, frame, base, s) / 100.0 * frame == image * base * s
  {
    var q := image * base * s / frame;
    assert q * frame == image * base * s;
  }

  /** A centre in pixels, from the offset it is stored as. */
  lemma Centred(c: real, frame: real)
    requires frame > 0.0
    ensures (50.0 + OffsetOf(c, frame)) / 100.0 * frame == c
  {
    var q := c / frame;
    assert q * frame == c;
  }

  /** The corner opposite the one dragged. */
  function OppositeX(cx: real, w: real, sx: real): real {
    cx - sx * w / 2.0
  }

  function Projection(p: Grip, px: real, py: real): real
    requires p.Valid()
  {
    (px - OppositeX(p.cx0, p.w0, p.sx)) * (p.sx * p.w0 / p.diag0) +
    (py - OppositeX(p.cy0, p.h0, p.sy)) * (p.sy * p.h0 / p.diag0)
  }

  /** The scale a pointer position asks for, and the centre that goes with a scale, before the clamp. */
  function AskedScale(p: Grip, px: real, py: real): real
    requires p.Valid()
  {
    p.s0 * Projection(p, px, py) / p.diag0
  }

  /** The centre, on one axis, that leaves the opposite edge where it is. */
  function Centre(c0: real, w0: real, sign: real, diag0: real, s: real, s0: real): real
    requires diag0 > 0.0 && s0 > 0.0
  {
    OppositeX(c0, w0, sign) + sign * w0 / diag0 * (diag0 * s / s0) / 2.0
  }

  function CentreX(p: Grip, s: real): real
    requires p.Valid()
  {
    Centre(p.cx0, p.w0, p.sx, p.diag0, s, p.s0)
  }

  function CentreY(p: Grip, s: real): real
    requires p.Valid()
  {
    Centre(p.cy0, p.h0, p.sy, p.diag0, s, p.s0)
  }

  /** Whatever scale the drag comes to, the corner of the image opposite the one dragged is shown where it
      was. */
  lemma ResizeFixesTheOppositeCorner(g: Geometry, v: View, sx: real, sy: real, diag0: real, s: real)
    requires g.Valid() && IsGrip(g, v, sx, sy, diag0)
    ensures GripOf(g, v, sx, sy, diag0).Valid()
    ensures ShownX(g, Dragged(g, GripOf(g, v, sx, sy, diag0), s), -sx) == ShownX(g, v, -sx)
    ensures ShownY(g, Dragged(g, GripOf(g, v, sx, sy, diag0), s), -sy) == ShownY(g, v, -sy)
  {
    GripIsValid(g, v, sx, sy, diag0);
    var p := GripOf(g, v, sx, sy, diag0);
    var d := Dragged(g, p, s);
    FixedX(g, v, d, p, s);
    FixedY(g, v, d, p, s);
  }

  lemma FixedX(g: Geometry, v: View, d: View, p: Grip, s: real)
    requires g.Valid() && p.Valid() && d.s == s && d.x == OffsetOf(CentreX(p, s), g.fw)
    requires p.s0 == v.s && p.w0 == g.iw * g.base * v.s && p.cx0 == (50.0 + v.x) / 100.0 * g.fw
    ensures ShownX(g, d, -p.sx) == ShownX(g, v, -p.sx)
    ensures ShownX(g, d, p.sx) == OppositeX(p.cx0, p.w0, p.sx) + Along(p.w0, p.sx, s, p.s0)
  {
    EdgesMove(Axis(g.iw, g.fw, g.base), v.s, s, v.x, d.x, p.cx0, p.w0, p.diag0, p.sx);
  }

  lemma FixedY(g: Geometry, v: View, d: View, p: Grip, s: real)
    requires g.Valid() && p.Valid() && d.s == s && d.y == OffsetOf(CentreY(p, s), g.fh)
    requires p.s0 == v.s && p.h0 == g.ih * g.base * v.s && p.cy0 == (50.0 + v.y) / 100.0 * g.fh
    ensures ShownY(g, d, -p.sy) == ShownY(g, v, -p.sy)
    ensures ShownY(g, d, p.sy) == OppositeX(p.cy0, p.h0, p.sy) + Along(p.h0, p.sy, s, p.s0)
  {
    EdgesMove(Axis(g.ih, g.fh, g.base), v.s, s, v.y, d.y, p.cy0, p.h0, p.diag0, p.sy);
  }

  /** One axis: the image's own size, the frame's, and the fit. */
  datatype Axis = Axis(image: real, frame: real, base: real)

  /** On one axis the edge opposite the one dragged stays where it was shown, and the dragged one is the scale's
      share of the diagonal from it. */
  lemma EdgesMove(a: Axis, s0: real, s: real, was: real, now: real, c0: real, w0: real, diag: real, sign: real)
    requires a.frame > 0.0 && s0 > 0.0 && diag > 0.0
    requires c0 == (50.0 + was) / 100.0 * a.frame && w0 == a.image * a.base * s0
    requires now == OffsetOf(Centre(c0, w0, sign, diag, s, s0), a.frame)
    ensures Edge(now, SizePct(a.image, a.frame, a.base, s), a.frame, -sign)
      == Edge(was, SizePct(a.image, a.frame, a.base, s0), a.frame, -sign)
    ensures Edge(now, SizePct(a.image, a.frame, a.base, s), a.frame, sign) ==
            OppositeX(c0, w0, sign) + Along(w0, sign, s, s0)
  {
    var c := Centre(c0, w0, sign, diag, s, s0);
    EdgeBefore(a.image, a.frame, a.base, s0, was, -sign);
    EdgeAfter(a.image, a.frame, a.base, s0, s, c, -sign);
    EdgeAfter(a.image, a.frame, a.base, s0, s, c, sign);
    OppositeStays(c0, w0, diag, s, s0, sign);
    CornerAlong(c0, w0, diag, s, s0, sign);
  }

  /** Half the image's size from its centre, in pixels, at the scale the drag began with. */
  lemma EdgeBefore(image: real, frame: real, base: real, s0: real, offset: real, to: real)
    requires frame > 0.0
    ensures Edge(offset, SizePct(image, frame, base, s0), frame, to) ==
            HalfFrom((50.0 + offset) / 100.0 * frame, image * base * s0, to)
  {
    Pixels(image, frame, base, s0);
  }

  /** And at any other. */
  lemma EdgeAfter(image: real, frame: real, base: real, s0: real, s: real, c: real, to: real)
    requires frame > 0.0 && s0 > 0.0
    ensures Edge(OffsetOf(c, frame), SizePct(image, frame, base, s), frame, to) ==
            HalfFrom(c, image * base * s0 * s / s0, to)
  {
    Pixels(image, frame, base, s);
    Rescaled(image * base, s0, s);
    Centred(c, frame);
  }

  function HalfFrom(c: real, size: real, to: real): real {
    c + to * size / 2.0
  }

  /** The centre moves by half of what the size grows. */
  lemma OppositeStays(c: real, w: real, diag: real, s: real, s0: real, sign: real)
    requires diag > 0.0 && s0 > 0.0
    ensures HalfFrom(Centre(c, w, sign, diag, s, s0), w * s / s0, -sign) == HalfFrom(c, w, -sign)
  {
    AlongDiagonal(w, diag, s, s0, sign);
    var size := w * s / s0;
    assert -sign * size == -(sign * size) && -sign * w == -(sign * w);
  }

  lemma Rescaled(size: real, s0: real, s: real)
    requires s0 > 0.0
    ensures size * s0 * s / s0 == size * s
  {
    assert size * s0 * s == size * s * s0;
  }

  /** The view a drag of the corner to the pointer comes to. */
  function Resized(g: Geometry, p: Grip, px: real, py: real): View
    requires g.Valid() && p.Valid()
  {
    ClampView(g, Dragged(g, p, ClampS(AskedScale(p, px, py))))
  }

  /** The part of the element that pans and scales: no geometry until the image has loaded. */
  class Reframing {
    var view: View
    var geometry: Geometry
    var loaded: bool

    predicate Valid()
      reads this
    {
      geometry.Valid() && 1.0 <= view.s <= S_MAX
    }

    constructor (geometry: Geometry, view: View)
      requires geometry.Valid() && 1.0 <= view.s <= S_MAX
      ensures Valid() && this.view == view && this.geometry == geometry && loaded
    {
      this.geometry, this.view, loaded := geometry, view, true;
    }

    function Clamped(v: View): View
      reads this
      requires geometry.Valid()
    {
      if loaded then ClampView(geometry, v) else v
    }

    method Clamp()
      requires Valid()
      modifies this`view
      ensures Valid() && view == Clamped(old(view))
    {
      if loaded {
        var mx := PanRange(WidthPct(geometry, view.s));
        var my := PanRange(HeightPct(geometry, view.s));
        view := view.(x := ClampTo(mx, view.x));
        view := view.(y := ClampTo(my, view.y));
      }
    }

    /** A pan from where the drag began, by the pointer's travel in per cent of the frame. */
    method Pan(start: View, dx: real, dy: real)
      requires Valid()
      modifies this`view
      ensures Valid() && view == Clamped(View(old(view).s, start.x + dx, start.y + dy))
    {
      view := view.(x := start.x + dx);
      view := view.(y := start.y + dy);
      Clamp();
    }

    /** The wheel, with `factor` the power its travel comes to. */
    method Wheel(factor: real, cx: real, cy: real)
      requires Valid()
      modifies this`view
      ensures Valid()
      ensures var next := ClampS(old(view).s * factor);
        view == if next == old(view).s then old(view) else Clamped(Zoom(old(view), next, cx, cy))
    {
      var prev := view.s;
      var next := ClampS(prev * factor);
      if next == prev {
        return;
      }
      ZoomTo(next, cx, cy);
    }

    /** The zoom itself, about the cursor. */
    method ZoomTo(next: real, cx: real, cy: real)
      requires Valid() && 1.0 <= next <= S_MAX
      modifies this`view
      ensures Valid() && view == Clamped(Zoom(old(view), next, cx, cy))
    {
      view := Zoom(view, next, cx, cy);
      Clamp();
    }

    /** The pointer-down on a corner. */
    method Grab(sx: real, sy: real, diag0: real) returns (p: Grip)
      requires Valid() && loaded && IsGrip(geometry, view, sx, sy, diag0)
      ensures p == GripOf(geometry, view, sx, sy, diag0) && p.Valid()
    {
      var w0, h0 := geometry.iw * geometry.base * view.s, geometry.ih * geometry.base * view.s;
      var cx0, cy0 := (50.0 + view.x) / 100.0 * geometry.fw, (50.0 + view.y) / 100.0 * geometry.fh;
      GripIsValid(geometry, view, sx, sy, diag0);
      p := Grip(view.s, w0, h0, cx0, cy0, sx, sy, diag0);
    }

    /** A corner drag's pointer move, with the grip taken on the view `start`. */
    method Resize(p: Grip, ghost start: View, px: real, py: real)
      requires Valid() && loaded && p.Valid()
      requires p == GripOf(geometry, start, p.sx, p.sy, p.diag0)
      modifies this`view
      ensures Valid() && view == Resized(geometry, p, px, py)
    {
      var s := ClampS(AskedScale(p, px, py));
      view := View(s, CentreX(p, s) / geometry.fw * 100.0 - 50.0, CentreY(p, s) / geometry.fh * 100.0 - 50.0);
      Clamp();
    }
  }

  /** What a drag comes to: at the scale asked for, or the end of the slot's range it is past, the view that leaves the
      opposite corner where it was, clamped; and that view itself where it leaves nothing to clamp. */
  lemma ResizeComesTo(g: Geometry, p: Grip, px: real, py: real)
    requires g.Valid() && p.Valid()
    ensures var asked := AskedScale(p, px, py);
      var s := if asked < 1.0 then 1.0 else if asked > 5.0 then 5.0 else asked;
      var d := Dragged(g, p, s);
      && Resized(g, p, px, py).s == s
      && (Covers(WidthPct(g, s), d.x) && Covers(HeightPct(g, s), d.y) ==> Resized(g, p, px, py) == d)
      && (WidthPct(g, s) >= 100.0 ==> Covers(WidthPct(g, s), Resized(g, p, px, py).x))
      && (HeightPct(g, s) >= 100.0 ==> Covers(HeightPct(g, s), Resized(g, p, px, py).y))
  {
    var asked := AskedScale(p, px, py);
    ClampSIs(asked);
    var d := Dragged(g, p, ClampS(asked));
    ClampAxis(WidthPct(g, d.s), d.x);
    ClampAxis(HeightPct(g, d.s), d.y);
  }

  /** From the opposite corner to the one dragged, when the drag began. */
  function Diagonal(p: Grip): (real, real) {
    (p.sx * p.w0, p.sy * p.h0)
  }

  /** At the scale asked for, the corner dragged is shown at the point of the image's diagonal nearest the
      pointer: what is left between them is perpendicular to it. */
  lemma DraggedCornerFollowsThePointer(g: Geometry, v: View, sx: real, sy: real, diag0: real, px: real, py: real)
    requires g.Valid() && IsGrip(g, v, sx, sy, diag0)
    ensures GripOf(g, v, sx, sy, diag0).Valid()
    ensures var p := GripOf(g, v, sx, sy, diag0);
      var d := Dragged(g, p, AskedScale(p, px, py));
      Across(px - ShownX(g, d, sx), py - ShownY(g, d, sy), Diagonal(p)) == 0.0
  {
    GripIsValid(g, v, sx, sy, diag0);
    var p := GripOf(g, v, sx, sy, diag0);
    var s := AskedScale(p, px, py);
    DraggedIs(g, v, sx, sy, diag0, s);
    NearestOnDiagonal(p, px, py);
    var d := Dragged(g, p, s);
    Left(px, ShownX(g, d, sx), OppositeX(p.cx0, p.w0, sx), Along(p.w0, sx, s, p.s0));
    Left(py, ShownY(g, d, sy), OppositeX(p.cy0, p.h0, sy), Along(p.h0, sy, s, p.s0));
  }

  lemma Left(p: real, corner: real, o: real, along: real)
    requires corner == o + along
    ensures p - corner == p - o - along
  {
  }

  /** The scale's share of the diagonal, on one axis. */
  function Along(w0: real, sign: real, s: real, s0: real): real
    requires s0 > 0.0
  {
    sign * w0 * (s / s0)
  }

  lemma DraggedIs(g: Geometry, v: View, sx: real, sy: real, diag0: real, s: real)
    requires g.Valid() && IsGrip(g, v, sx, sy, diag0) && GripOf(g, v, sx, sy, diag0).Valid()
    ensures var p := GripOf(g, v, sx, sy, diag0);
      && ShownX(g, Dragged(g, p, s), sx) == OppositeX(p.cx0, p.w0, sx) + Along(p.w0, sx, s, p.s0)
      && ShownY(g, Dragged(g, p, s), sy) == OppositeX(p.cy0, p.h0, sy) + Along(p.h0, sy, s, p.s0)
  {
    var p := GripOf(g, v, sx, sy, diag0);
    FixedX(g, v, Dragged(g, p, s), p, s);
    FixedY(g, v, Dragged(g, p, s), p, s);
  }

  /** How far a vector points along another: nothing when they are perpendicular. */
  function Across(x: real, y: real, v: (real, real)): real {
    x * v.0 + y * v.1
  }

  lemma CornerAlong(c: real, w: real, diag: real, s: real, s0: real, sign: real)
    requires diag > 0.0 && s0 > 0.0
    ensures HalfFrom(Centre(c, w, sign, diag, s, s0), w * s / s0, sign) == OppositeX(c, w, sign) + Along(w, sign, s, s0)
  {
    AlongDiagonal(w, diag, s, s0, sign);
    var r := s / s0;
    assert w * s / s0 == w * r;
    assert sign * (w * r) == sign * w * r;
  }

  lemma NearestOnDiagonal(p: Grip, px: real, py: real)
    requires p.Valid()
    ensures var s := AskedScale(p, px, py);
      Across(px - OppositeX(p.cx0, p.w0, p.sx) - Along(p.w0, p.sx, s, p.s0),
             py - OppositeX(p.cy0, p.h0, p.sy) - Along(p.h0, p.sy, s, p.s0), Diagonal(p)) == 0.0
  {
    var a, b := Diagonal(p).0, Diagonal(p).1;
    var vx, vy := px - OppositeX(p.cx0, p.w0, p.sx), py - OppositeX(p.cy0, p.h0, p.sy);
    assert a * a == p.w0 * p.w0 && b * b == p.h0 * p.h0;
    ScaleRatio(p.s0, Projection(p, px, py), p.diag0, AskedScale(p, px, py));
    Perpendicular(vx, vy, a / p.diag0, b / p.diag0, p.diag0, a, b, AskedScale(p, px, py) / p.s0);
  }

  lemma ScaleRatio(s0: real, proj: real, diag: real, s: real)
    requires s0 > 0.0 && diag > 0.0 && s == s0 * proj / diag
    ensures s / s0 * diag == proj
  {
    var t := s / s0;
    assert t * s0 == s && s * diag == s0 * proj;
    assert (t * diag) * s0 == proj * s0;
    assert (t * diag - proj) * s0 == 0.0;
  }

  /** `u` is `a`, `b` over its length; `t` times `a`, `b` is the projection of `v` on it. */
  lemma Perpendicular(vx: real, vy: real, ux: real, uy: real, diag: real, a: real, b: real, t: real)
    requires ux * diag == a && uy * diag == b && diag * diag == a * a + b * b
    requires t * diag == vx * ux + vy * uy
    ensures (vx - a * t) * a + (vy - b * t) * b == 0.0
  {
    assert (t * diag) * diag == (vx * ux + vy * uy) * diag == vx * a + vy * b;
    assert t * (diag * diag) == t * (a * a + b * b);
  }

  lemma AlongDiagonal(w: real, diag: real, s: real, s0: real, sign: real)
    requires diag > 0.0 && s0 > 0.0
    ensures sign * w / diag * (diag * s / s0) == sign * (w * s / s0)
  {
    var u, r := sign * w / diag, s / s0;
    assert u * diag == sign * w && r * s0 == s;
    assert diag * s / s0 == diag * r;
    assert w * s / s0 == w * r;
    assert u * (diag * r) == (u * diag) * r;
  }
}
