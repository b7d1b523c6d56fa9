/**
 * The zone segment projector (`segmentForEdge` in
 * src/app/blackpool/components/ZoneOverlay.tsx): which part of one edge of
 * the board the hit zone covers, in that edge's own coordinates.
 *
 * Arc lengths run clockwise from the top-left interior corner over a
 * perimeter of length `p`; an edge is the arc-length span
 * [offsetBefore, offsetBefore + edgeLen].
 */
module ZoneOverlay {
  import opened Wrappers
  import opened Geometry

  /** A closed arc-length interval [lo, hi]; the source's `[number, number]` pair. */
  datatype Span = Span(lo: real, hi: real)

  function Min(a: real, b: real): real { if a <= b then a else b }

  function Max(a: real, b: real): real { if a >= b then a else b }

  /** `norm`: the fractional part of `x`, scaled to an arc length of the perimeter `p`. */
  function Norm(x: real, p: real): (r: real)
    ensures p > 0.0 ==> 0.0 <= r < p
  {
    ScaleBelow(Frac(x), p);
    Frac(x) * p
  }

  /**
   * The zone from arc length `sA` to arc length `sB` as at most two
   * intervals: one when it does not wrap, otherwise the part up to the end
   * of the perimeter and the part from its start.
   */
  function ZoneIntervals(sA: real, sB: real, p: real): (ivs: seq<Span>)
    ensures 1 <= |ivs| <= 2
    ensures |ivs| == 1 <==> sA <= sB
  {
    if sA <= sB then [Span(sA, sB)] else [Span(sA, p), Span(0.0, sB)]
  }

  /** `x` lies in one of the intervals. */
  ghost predicate InSome(ivs: seq<Span>, x: real)
  {
    exists i :: 0 <= i < |ivs| && ivs[i].lo <= x <= ivs[i].hi
  }

  /**
   * The split covers exactly the zone taken cyclically: the interval
   * [sA, sB] when the zone does not wrap, and everything from sA on or up to
   * sB when it does.
   */
  lemma ZoneIntervalsCover(sA: real, sB: real, p: real, x: real)
    requires 0.0 <= sA < p && 0.0 <= sB < p && 0.0 <= x < p
    ensures InSome(ZoneIntervals(sA, sB, p), x)
        <==> if sA <= sB then sA <= x <= sB else x >= sA || x <= sB
  {
    var ivs := ZoneIntervals(sA, sB, p);
    if sA <= sB {
      if sA <= x <= sB { assert ivs[0].lo <= x <= ivs[0].hi; }
    } else {
      if x >= sA { assert ivs[0].lo <= x <= ivs[0].hi; }
      if x <= sB { assert ivs[1].lo <= x <= ivs[1].hi; }
    }
  }

  /** Scaling by a positive perimeter keeps the order of two fractions. */
  lemma ScaleMonotone(a: real, b: real, p: real)
    requires p > 0.0
    ensures a <= b <==> a * p <= b * p
  {
    if a <= b {
      assert (b - a) * p >= 0.0;
    } else {
      assert (a - b) * p > 0.0;
    }
  }

  /**
   * The projector highlights exactly the hit zone: a position lies in one of
   * the zone's arc-length intervals iff `isHit` accepts it.
   */
  lemma ZoneIntervalsMatchIsHit(t: real, start: real, end: real, p: real)
    requires p > 0.0
    ensures InSome(ZoneIntervals(Norm(start, p), Norm(end, p), p), Norm(t, p))
        <==> IsHit(t, start, end)
  {
    ZoneIntervalsCover(Norm(start, p), Norm(end, p), p, Norm(t, p));
    NormMonotone(start, end, p);
    NormMonotone(start, t, p);
    NormMonotone(t, end, p);
  }

  lemma NormMonotone(x: real, y: real, p: real)
    requires p > 0.0
    ensures Frac(x) <= Frac(y) <==> Norm(x, p) <= Norm(y, p)
  {
    ScaledOrder(Frac(x), Frac(y), Norm(x, p), Norm(y, p), p);
  }

  /** `ScaleMonotone` for products already named, so the caller needs no arithmetic. */
  lemma ScaledOrder(a: real, b: real, na: real, nb: real, p: real)
    requires p > 0.0 && na == a * p && nb == b * p
    ensures a <= b <==> na <= nb
  {
    ScaleMonotone(a, b, p);
  }

  /** One zone interval cut to the edge span [off, off + len]: `[Math.max(a, off), Math.min(b, off + len)]`. */
  function Clip(iv: Span, off: real, len: real): (c: Span)
    ensures c.lo >= off && c.lo >= iv.lo
    ensures c.hi <= off + len && c.hi <= iv.hi
  {
    Span(Max(iv.lo, off), Min(iv.hi, off + len))
  }

  /** A point lies in the cut piece exactly when it lies in both the interval and the edge span. */
  lemma ClipExact(iv: Span, off: real, len: real, x: real)
    ensures var c := Clip(iv, off, len);
      c.lo <= x <= c.hi <==> iv.lo <= x <= iv.hi && off <= x <= off + len
  {
  }

  /** The cut piece has positive length (`b2 > a2`); touching at one point does not count. */
  predicate Overlaps(c: Span) { c.hi > c.lo }

  /**
   * One step of the loop: a piece of positive length widens the running
   * enclosing span to the smallest span holding both; any other piece leaves
   * it as it was.
   */
  function Widen(acc: Option<Span>, c: Span): (r: Option<Span>)
    ensures !Overlaps(c) ==> r == acc
    ensures Overlaps(c) ==> r.Some? && r.value.lo <= c.lo && c.hi <= r.value.hi
    ensures Overlaps(c) && acc.Some? ==> r.value.lo <= acc.value.lo && acc.value.hi <= r.value.hi
    ensures Overlaps(c) ==> (r.value.lo == c.lo || (acc.Some? && r.value.lo == acc.value.lo))
    ensures Overlaps(c) ==> (r.value.hi == c.hi || (acc.Some? && r.value.hi == acc.value.hi))
  {
    if !Overlaps(c) then acc
    else if acc.None? then Some(c)
    else Some(Span(Min(acc.value.lo, c.lo), Max(acc.value.hi, c.hi)))
  }

  /**
   * The enclosing span of the cut pieces of `ivs`, visited in order. It lies
   * inside the edge and has positive length, and there is none exactly when
   * no cut piece has positive length.
   */
  function Enclosing(ivs: seq<Span>, off: real, len: real): (r: Option<Span>)
    ensures r.Some? ==> off <= r.value.lo < r.value.hi <= off + len
    ensures r.None? <==> forall i :: 0 <= i < |ivs| ==> !Overlaps(Clip(ivs[i], off, len))
    decreases |ivs|
  {
    if |ivs| == 0 then None
    else
      var front := ivs[..|ivs| - 1];
      assert forall i :: 0 <= i < |front| ==> front[i] == ivs[i];
      Widen(Enclosing(front, off, len), Clip(ivs[|ivs| - 1], off, len))
  }

  /** The enclosing span in edge-local coordinates (the edge starts at 0). */
  function ToLocal(r: Option<Span>, off: real): Option<Span>
  {
    if r.None? then None else Some(Span(r.value.lo - off, r.value.hi - off))
  }

  /** The span encloses every cut piece of positive length. */
  lemma {:induction false} EnclosingCovers(ivs: seq<Span>, off: real, len: real, i: int)
    requires 0 <= i < |ivs| && Overlaps(Clip(ivs[i], off, len))
    ensures var r := Enclosing(ivs, off, len);
      r.Some? && r.value.lo <= Clip(ivs[i], off, len).lo && Clip(ivs[i], off, len).hi <= r.value.hi
  {
    var front := ivs[..|ivs| - 1];
    if i < |ivs| - 1 {
      assert front[i] == ivs[i];
      EnclosingCovers(front, off, len, i);
    }
  }

  /**
   * The span covers every part of the zone that lies on the edge: a point of
   * the edge inside a zone interval whose cut piece has positive length is
   * inside the span.
   */
  lemma EnclosingCoversZone(ivs: seq<Span>, off: real, len: real, i: int, x: real)
    requires 0 <= i < |ivs| && Overlaps(Clip(ivs[i], off, len))
    requires ivs[i].lo <= x <= ivs[i].hi && off <= x <= off + len
    ensures var r := Enclosing(ivs, off, len);
      r.Some? && r.value.lo <= x <= r.value.hi
  {
    ClipExact(ivs[i], off, len, x);
    EnclosingCovers(ivs, off, len, i);
  }

  /** The span is the smallest one: its ends are ends of cut pieces of positive length. */
  lemma {:induction false} EnclosingTight(ivs: seq<Span>, off: real, len: real)
    requires Enclosing(ivs, off, len).Some?
    ensures var r := Enclosing(ivs, off, len).value;
      && (exists i :: 0 <= i < |ivs| && Overlaps(Clip(ivs[i], off, len)) && Clip(ivs[i], off, len).lo == r.lo)
      && (exists j :: 0 <= j < |ivs| && Overlaps(Clip(ivs[j], off, len)) && Clip(ivs[j], off, len).hi == r.hi)
  {
    var n := |ivs|;
    var front := ivs[..n - 1];
    var c := Clip(ivs[n - 1], off, len);
    var r := Enclosing(ivs, off, len).value;
    var prev := Enclosing(front, off, len);
    if prev.Some? {
      EnclosingTight(front, off, len);
      var i :| 0 <= i < |front| && Overlaps(Clip(front[i], off, len)) && Clip(front[i], off, len).lo == prev.value.lo;
      var j :| 0 <= j < |front| && Overlaps(Clip(front[j], off, len)) && Clip(front[j], off, len).hi == prev.value.hi;
      assert front[i] == ivs[i] && front[j] == ivs[j];
      if !Overlaps(c) {
        assert r == prev.value;
      } else {
        if r.lo != prev.value.lo { assert r.lo == c.lo; }
        if r.hi != prev.value.hi { assert r.hi == c.hi; }
      }
    } else {
      assert Overlaps(c) && r == c;
    }
  }

  /** The two wrap intervals may be visited in either order. */
  lemma EnclosingOrderFree(a: Span, b: Span, off: real, len: real)
    ensures Enclosing([a, b], off, len) == Enclosing([b, a], off, len)
  {
    assert [a, b][..1] == [a];
    assert [b, a][..1] == [b];
    assert [a][..0] == [] && [b][..0] == [];
  }

  /**
   * `segmentForEdge`: the part of the zone from `startT` to `endT` that lies
   * on the edge [offsetBefore, offsetBefore + edgeLen] of a board with
   * perimeter `p`, as the enclosing span of the cut pieces in edge-local
   * coordinates, or `None` when the zone does not cover a piece of positive
   * length of that edge.
   */
  method SegmentForEdge(p: real, startT: real, endT: real, edgeLen: real, offsetBefore: real)
    returns (seg: Option<Span>)
    ensures seg == ToLocal(Enclosing(ZoneIntervals(Norm(startT, p), Norm(endT, p), p), offsetBefore, edgeLen), offsetBefore)
    ensures seg.Some? ==> 0.0 <= seg.value.lo < seg.value.hi <= edgeLen
    ensures seg.None? <==>
      forall iv :: iv in ZoneIntervals(Norm(startT, p), Norm(endT, p), p) ==> !Overlaps(Clip(iv, offsetBefore, edgeLen))
  {
    var sA := Norm(startT, p);
    var sB := Norm(endT, p);
    var intervals := ZoneIntervals(sA, sB, p);
    var totalOnEdge: Option<Span> := None;
    for i := 0 to |intervals|
      invariant totalOnEdge == Enclosing(intervals[..i], offsetBefore, edgeLen)
    {
      var a2 := Max(intervals[i].lo, offsetBefore);
      var b2 := Min(intervals[i].hi, offsetBefore + edgeLen);
      if b2 > a2 {
        totalOnEdge := if totalOnEdge.Some?
          then Some(Span(Min(totalOnEdge.value.lo, a2), Max(totalOnEdge.value.hi, b2)))
          else Some(Span(a2, b2));
      }
      assert intervals[..i + 1][..i] == intervals[..i];
    }
    assert intervals[..|intervals|] == intervals;
    if totalOnEdge.None? {
      return None;
    }
    return Some(Span(totalOnEdge.value.lo - offsetBefore, totalOnEdge.value.hi - offsetBefore));
  }

  /** The four edges as (offsetBefore, edgeLen), in the order top, right, bottom, left. */
  function Edges(W: real, H: real): (es: seq<(real, real)>)
    ensures |es| == 4
  {
    [(0.0, W), (W, H), (W + H, W), (W + H + W, H)]
  }

  /**
   * The edges tile the perimeter: the first starts at 0, each starts where
   * the one before ends, and the last ends at `2*(W + H)`; so every arc
   * length in [0, P] lies on some edge.
   */
  lemma {:induction false} EdgesTile(W: real, H: real, x: real)
    requires 0.0 <= x <= 2.0 * (W + H) && W >= 0.0 && H >= 0.0
    ensures Edges(W, H)[0].0 == 0.0
    ensures forall k :: 0 <= k < 3 ==> Edges(W, H)[k + 1].0 == Edges(W, H)[k].0 + Edges(W, H)[k].1
    ensures Edges(W, H)[3].0 + Edges(W, H)[3].1 == 2.0 * (W + H)
    ensures exists k :: 0 <= k < 4 && Edges(W, H)[k].0 <= x <= Edges(W, H)[k].0 + Edges(W, H)[k].1
  {
    var es := Edges(W, H);
    if x <= W { assert es[0].0 <= x <= es[0].0 + es[0].1; }
    else if x <= W + H { assert es[1].0 <= x <= es[1].0 + es[1].1; }
    else if x <= W + H + W { assert es[2].0 <= x <= es[2].0 + es[2].1; }
    else { assert es[3].0 <= x <= es[3].0 + es[3].1; }
  }

  /** The highlighted sub-segment of each edge of the board. */
  datatype EdgeSegments = EdgeSegments(top: Option<Span>, right: Option<Span>, bottom: Option<Span>, left: Option<Span>)

  /**
   * The four calls of `segmentForEdge` in `ZoneOverlay`, one per row of
   * `Edges`: offsets 0, W, W+H, 2W+H and lengths W, H, W, H.
   */
  method ZoneSegments(w: real, h: real, inset: real, zone: Zone) returns (segs: EdgeSegments)
    ensures var es, P := Edges(InnerW(w, inset), InnerH(h, inset)), Perimeter(w, h, inset);
      var ivs := ZoneIntervals(Norm(zone.start, P), Norm(zone.end, P), P);
      && segs.top == ToLocal(Enclosing(ivs, es[0].0, es[0].1), es[0].0)
      && segs.right == ToLocal(Enclosing(ivs, es[1].0, es[1].1), es[1].0)
      && segs.bottom == ToLocal(Enclosing(ivs, es[2].0, es[2].1), es[2].0)
      && segs.left == ToLocal(Enclosing(ivs, es[3].0, es[3].1), es[3].0)
    ensures segs.top.Some? ==> 0.0 <= segs.top.value.lo < segs.top.value.hi <= InnerW(w, inset)
    ensures segs.right.Some? ==> 0.0 <= segs.right.value.lo < segs.right.value.hi <= InnerH(h, inset)
    ensures segs.bottom.Some? ==> 0.0 <= segs.bottom.value.lo < segs.bottom.value.hi <= InnerW(w, inset)
    ensures segs.left.Some? ==> 0.0 <= segs.left.value.lo < segs.left.value.hi <= InnerH(h, inset)
  {
    var es := Edges(InnerW(w, inset), InnerH(h, inset));
    var P := Perimeter(w, h, inset);
    var top := SegmentForEdge(P, zone.start, zone.end, es[0].1, es[0].0);
    var right := SegmentForEdge(P, zone.start, zone.end, es[1].1, es[1].0);
    var bottom := SegmentForEdge(P, zone.start, zone.end, es[2].1, es[2].0);
    var left := SegmentForEdge(P, zone.start, zone.end, es[3].1, es[3].0);
    segs := EdgeSegments(top, right, bottom, left);
  }
}
