/**
 * Perimeter geometry of the timing game (src/app/blackpool/lib/geometry.ts).
 *
 * A position on the board is a real `t`; only its fractional part matters.
 * `TToXY` walks that fraction of the perimeter of the inset rectangle clockwise
 * from its top-left corner, and `IsHit` tests it against a zone that may wrap
 * past 1.  Numbers are exact reals: IEEE-754 rounding is not modelled.
 */
module Geometry {

  /** `x - Math.floor(x)`: the fractional part, always in [0, 1). */
  function Frac(x: real): (r: real)
    ensures 0.0 <= r < 1.0
    ensures x - r == x.Floor as real
  {
    x - x.Floor as real
  }

  /** A value already in [0, 1) is its own fractional part. */
  lemma FracOfUnit(x: real)
    requires 0.0 <= x < 1.0
    ensures Frac(x) == x
  {
    assert x.Floor == 0;
  }

  /** Shifting by a whole number does not change the fractional part. */
  lemma FracShift(x: real, k: int)
    ensures Frac(x + k as real) == Frac(x)
  {
    var n := x.Floor;
    assert n as real + k as real <= x + k as real < n as real + k as real + 1.0;
    assert (x + k as real).Floor == n + k;
  }

  /** `Math.max(a, Math.min(b, n))`. */
  function Clamp(n: real, a: real, b: real): (r: real)
    ensures a <= b ==> a <= r <= b
    ensures a <= n <= b ==> r == n
    ensures a <= b && n < a ==> r == a
    ensures a <= b && b < n ==> r == b
  {
    var m := if b < n then b else n;
    if a < m then m else a
  }

  /** `randRange(a, b)`, with the value `Math.random()` returned passed in as `draw`. */
  function RandRange(a: real, b: real, draw: real): (r: real)
    requires 0.0 <= draw < 1.0
    ensures a <= b ==> a <= r <= b
    ensures a < b ==> r < b
  {
    var span := b - a;
    var d := draw * span;
    assert span >= 0.0 ==> 0.0 <= d <= span && (span > 0.0 ==> d < span) by {
      ScaleBelow(draw, span);
    }
    a + d
  }

  /** For `0 <= f < 1` and `p >= 0`, the product `f * p` lies in [0, p], below `p` when `p > 0`. */
  lemma ScaleBelow(f: real, p: real)
    requires 0.0 <= f < 1.0
    ensures p >= 0.0 ==> 0.0 <= f * p <= p
    ensures p > 0.0 ==> f * p < p
  {
    if p > 0.0 {
      assert (1.0 - f) * p > 0.0;
    }
  }

  /** A hit window on the normalised perimeter; it wraps past 1 when `start > end`. */
  datatype Zone = Zone(start: real, end: real)

  /** A point of the board, in the board's pixel coordinates. */
  datatype Point = Point(x: real, y: real)

  /** Interior width `w - 2*inset`. */
  function InnerW(w: real, inset: real): real { w - inset * 2.0 }

  /** Interior height `h - 2*inset`. */
  function InnerH(h: real, inset: real): real { h - inset * 2.0 }

  /** Perimeter `2*(W + H)` of the interior rectangle. */
  function Perimeter(w: real, h: real, inset: real): real
  {
    2.0 * (InnerW(w, inset) + InnerH(h, inset))
  }

  /** The arc length lies in [0, P) on a non-degenerate board. */
  lemma ArcInRange(t: real, w: real, h: real, inset: real)
    requires InnerW(w, inset) > 0.0 && InnerH(h, inset) > 0.0
    ensures 0.0 <= Frac(t) * Perimeter(w, h, inset) < Perimeter(w, h, inset)
  {
    FracScaled(t, Perimeter(w, h, inset));
  }

  /** A fractional part scaled by a positive length lies in [0, length). */
  lemma FracScaled(t: real, p: real)
    requires p > 0.0
    ensures 0.0 <= Frac(t) * p < p
  {
    ScaleBelow(Frac(t), p);
  }

  /**
   * `tToXY`: the arc length `s = (t - Math.floor(t)) * P` is walked along
   * the edges by `PointAt`. On a board of positive size the point lies on
   * the interior boundary.
   */
  function TToXY(t: real, w: real, h: real, inset: real): (p: Point)
    ensures InnerW(w, inset) > 0.0 && InnerH(h, inset) > 0.0 ==>
      OnInnerBoundary(p, InnerW(w, inset), InnerH(h, inset), inset)
  {
    if InnerW(w, inset) > 0.0 && InnerH(h, inset) > 0.0 then
      ArcPointOnBoundary(Frac(t), InnerW(w, inset), InnerH(h, inset), inset);
      ArcPoint(Frac(t), InnerW(w, inset), InnerH(h, inset), inset)
    else
      ArcPoint(Frac(t), InnerW(w, inset), InnerH(h, inset), inset)
  }

  /** The point at the fraction `f` of the perimeter of a `W` by `H` rectangle. */
  function ArcPoint(f: real, W: real, H: real, inset: real): Point
  {
    PointAt(f * (2.0 * (W + H)), W, H, inset)
  }

  /**
   * The point at arc length `s` from the top-left interior corner: `s` is
   * tested against the edges top, right, bottom, left in that order, each
   * test with `<=`, and each edge's length is subtracted before the next test.
   */
  function PointAt(s: real, W: real, H: real, inset: real): Point
  {
    if s <= W then Point(inset + s, inset)
    else if s - W <= H then Point(inset + W, inset + (s - W))
    else if s - W - H <= W then Point(inset + W - (s - W - H), inset + H)
    else Point(inset, inset + H - (s - W - H - W))
  }

  /**
   * Reads back the clockwise arc length of a point on the interior boundary,
   * with the same first-match convention: the top edge owns both of its
   * corners, the right, bottom and left edges own their far corner only.
   */
  function ArcLengthOf(p: Point, W: real, H: real, inset: real): real
  {
    if p.y == inset then p.x - inset
    else if p.x == inset + W then W + (p.y - inset)
    else if p.y == inset + H then W + H + (inset + W - p.x)
    else W + H + W + (inset + H - p.y)
  }

  /** The point lies on the boundary of the `W` by `H` rectangle whose top-left corner is (inset, inset). */
  ghost predicate OnInnerBoundary(p: Point, W: real, H: real, inset: real)
  {
    inset <= p.x <= inset + W && inset <= p.y <= inset + H &&
    (p.x == inset || p.x == inset + W || p.y == inset || p.y == inset + H)
  }

  /**
   * `TToXY` loses nothing: the arc length it walked can be read back from the
   * point.
   */
  lemma TToXYRoundTrip(t: real, w: real, h: real, inset: real)
    requires InnerW(w, inset) > 0.0 && InnerH(h, inset) > 0.0
    ensures ArcLengthOf(TToXY(t, w, h, inset), InnerW(w, inset), InnerH(h, inset), inset)
         == Frac(t) * Perimeter(w, h, inset)
  {
    ArcPointOnBoundary(Frac(t), InnerW(w, inset), InnerH(h, inset), inset);
  }

  lemma ArcPointOnBoundary(f: real, W: real, H: real, inset: real)
    requires W > 0.0 && H > 0.0 && 0.0 <= f < 1.0
    ensures OnInnerBoundary(ArcPoint(f, W, H, inset), W, H, inset)
    ensures ArcLengthOf(ArcPoint(f, W, H, inset), W, H, inset) == f * (2.0 * (W + H))
  {
    var s := f * (2.0 * (W + H));
    ScaleBelow(f, 2.0 * (W + H));
    PointAtOnBoundary(s, W, H, inset);
  }

  /** Every arc length in [0, P) is placed on the boundary, and can be read back from the point. */
  lemma PointAtOnBoundary(s: real, W: real, H: real, inset: real)
    requires W > 0.0 && H > 0.0
    requires 0.0 <= s < 2.0 * (W + H)
    ensures OnInnerBoundary(PointAt(s, W, H, inset), W, H, inset)
    ensures ArcLengthOf(PointAt(s, W, H, inset), W, H, inset) == s
  {
  }

  /** Hence distinct positions in [0, 1) give distinct points. */
  lemma TToXYInjective(t1: real, t2: real, w: real, h: real, inset: real)
    requires InnerW(w, inset) > 0.0 && InnerH(h, inset) > 0.0
    requires 0.0 <= t1 < 1.0 && 0.0 <= t2 < 1.0
    requires TToXY(t1, w, h, inset) == TToXY(t2, w, h, inset)
    ensures t1 == t2
  {
    FracOfUnit(t1);
    FracOfUnit(t2);
    ArcPointInjective(Frac(t1), Frac(t2), InnerW(w, inset), InnerH(h, inset), inset);
  }

  lemma ArcPointInjective(f1: real, f2: real, W: real, H: real, inset: real)
    requires W > 0.0 && H > 0.0 && 0.0 <= f1 < 1.0 && 0.0 <= f2 < 1.0
    requires ArcPoint(f1, W, H, inset) == ArcPoint(f2, W, H, inset)
    ensures f1 == f2
  {
    ArcPointOnBoundary(f1, W, H, inset);
    ArcPointOnBoundary(f2, W, H, inset);
    assert (f1 - f2) * (2.0 * (W + H)) == 0.0;
  }

  /** Position 0 is the top-left interior corner. */
  lemma TToXYOrigin(w: real, h: real, inset: real)
    requires InnerW(w, inset) >= 0.0
    ensures TToXY(0.0, w, h, inset) == Point(inset, inset)
  {
    FracOfUnit(0.0);
  }

  /**
   * An arc length exactly on an edge boundary is placed by the earlier edge:
   * `s == W` by the top edge, `s == W + H` by the right edge and
   * `s == 2W + H` by the bottom edge, each at the corner it shares with the next.
   */
  lemma PointAtCorners(W: real, H: real, inset: real)
    requires W > 0.0 && H > 0.0
    ensures PointAt(W, W, H, inset) == Point(inset + W, inset)
    ensures PointAt(W + H, W, H, inset) == Point(inset + W, inset + H)
    ensures PointAt(W + H + W, W, H, inset) == Point(inset, inset + H)
  {
  }

  /** Adding a whole number of laps does not move the point. */
  lemma TToXYPeriodic(t: real, k: int, w: real, h: real, inset: real)
    ensures TToXY(t + k as real, w, h, inset) == TToXY(t, w, h, inset)
  {
    FracShift(t, k);
  }

  /**
   * `isHit`: all three values are reduced to their fractional parts; a zone
   * with `start <= end` is the closed interval [start, end], otherwise it
   * wraps past 1 and is [start, 1) together with [0, end]. Either way
   * `t` is a hit exactly when the clockwise distance from `start` to `t`
   * is at most the clockwise distance from `start` to `end`.
   */
  function IsHit(t: real, start: real, end: real): (hit: bool)
    ensures hit <==> Frac(Frac(t) - Frac(start)) <= Frac(Frac(end) - Frac(start))
  {
    var t, start, end := Frac(t), Frac(start), Frac(end);
    ClockwiseDistance(start, t);
    ClockwiseDistance(start, end);
    if start <= end then t >= start && t <= end
    else t >= start || t <= end
  }

  /** The clockwise distance from `a` to `b`, both in [0, 1). */
  lemma ClockwiseDistance(a: real, b: real)
    requires 0.0 <= a < 1.0 && 0.0 <= b < 1.0
    ensures Frac(b - a) == if a <= b then b - a else b - a + 1.0
  {
    if a <= b {
      FracOfUnit(b - a);
    } else {
      FracShift(b - a, 1);
      FracOfUnit(b - a + 1.0);
    }
  }

  /** The zone is closed at both ends, whether or not it wraps. */
  lemma IsHitEndpoints(start: real, end: real)
    requires 0.0 <= start < 1.0 && 0.0 <= end < 1.0
    ensures IsHit(start, start, end) && IsHit(end, start, end)
  {
    FracOfUnit(start);
    FracOfUnit(end);
  }

  /** A non-wrapping zone is exactly the closed interval between its ends. */
  lemma IsHitPlain(t: real, start: real, end: real)
    requires 0.0 <= start <= end < 1.0
    ensures IsHit(t, start, end) <==> start <= Frac(t) <= end
  {
    FracOfUnit(start);
    FracOfUnit(end);
  }

  /** A wrapping zone is the part from `start` up to 1 together with the part from 0 up to `end`. */
  lemma IsHitWrapping(t: real, start: real, end: real)
    requires 0.0 <= end < start < 1.0
    ensures IsHit(t, start, end) <==> Frac(t) >= start || Frac(t) <= end
  {
    FracOfUnit(start);
    FracOfUnit(end);
  }

  /** The wrap examples: 0.95 lies in the zone [0.9, 0.1] and 0.5 does not. */
  lemma IsHitWrapExamples()
    ensures IsHit(0.95, 0.9, 0.1)
    ensures !IsHit(0.5, 0.9, 0.1)
  {
    FracOfUnit(0.95);
    FracOfUnit(0.9);
    FracOfUnit(0.1);
    FracOfUnit(0.5);
  }

  /** Only fractional parts matter: shifting any argument by whole laps keeps the verdict. */
  lemma IsHitPeriodic(t: real, start: real, end: real, i: int, j: int, k: int)
    ensures IsHit(t + i as real, start + j as real, end + k as real) == IsHit(t, start, end)
  {
    FracShift(t, i);
    FracShift(start, j);
    FracShift(end, k);
  }
}
