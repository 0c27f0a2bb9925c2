/**
 * The arithmetic of `drawBaseGraph`: the bounding box of the solver's
 * positions, the min/max projection into the padded canvas rectangle, and the
 * rule that an arrow is drawn only between two nodes that have a position.
 * Reals stand for JavaScript numbers (idealised: no rounding, no NaN).
 */
module Layout {
  import opened Common

  type Node = string

  datatype Point = Point(x: real, y: real)

  /** The bounds `minX, maxX, minY, maxY` of the supplied coordinates. */
  datatype Bounds = Bounds(minX: real, maxX: real, minY: real, maxY: real)

  /** One arrow drawn from node `u` at `from` to node `v` at `to`. */
  datatype Segment = Segment(u: Node, v: Node, from: Point, to: Point)

  /** The margin kept free on every side of the canvas (`pad`). */
  const Pad: real := 80.0

  /** The bounds used when no position is supplied at all. */
  const DefaultBounds: Bounds := Bounds(0.0, 1.0, 0.0, 1.0)

  /**
   * `b` is what the bounds computation yields for `positions`: the defaults
   * when there is no position, otherwise the smallest and largest coordinate
   * on each axis, each attained by some node.
   */
  ghost predicate IsBoundingBox(b: Bounds, positions: map<Node, Point>) {
    if positions == map[] then b == DefaultBounds
    else
      && (exists n :: n in positions && positions[n].x == b.minX)
      && (exists n :: n in positions && positions[n].x == b.maxX)
      && (exists n :: n in positions && positions[n].y == b.minY)
      && (exists n :: n in positions && positions[n].y == b.maxY)
      && (forall n :: n in positions ==> b.minX <= positions[n].x <= b.maxX)
      && (forall n :: n in positions ==> b.minY <= positions[n].y <= b.maxY)
  }

  /** Only one box satisfies `IsBoundingBox`, whatever order the values are visited in. */
  lemma BoundingBoxUnique(b1: Bounds, b2: Bounds, positions: map<Node, Point>)
    requires IsBoundingBox(b1, positions) && IsBoundingBox(b2, positions)
    ensures b1 == b2
  {
    if positions != map[] {
      var a1 :| a1 in positions && positions[a1].x == b1.minX;
      var a2 :| a2 in positions && positions[a2].x == b2.minX;
      var c1 :| c1 in positions && positions[c1].x == b1.maxX;
      var c2 :| c2 in positions && positions[c2].x == b2.maxX;
      var d1 :| d1 in positions && positions[d1].y == b1.minY;
      var d2 :| d2 in positions && positions[d2].y == b2.minY;
      var e1 :| e1 in positions && positions[e1].y == b1.maxY;
      var e2 :| e2 in positions && positions[e2].y == b2.maxY;
      assert b1.minX <= positions[a2].x && b2.minX <= positions[a1].x;
      assert b1.maxX >= positions[c2].x && b2.maxX >= positions[c1].x;
      assert b1.minY <= positions[d2].y && b2.minY <= positions[d1].y;
      assert b1.maxY >= positions[e2].y && b2.maxY >= positions[e1].y;
    }
  }

  /**
   * The bounds of `Object.values(positions)`: `Math.min` and `Math.max` of
   * each axis, or the defaults [0,1] x [0,1] when the object is empty.
   */
  method ComputeBounds(positions: map<Node, Point>) returns (b: Bounds)
    ensures IsBoundingBox(b, positions)
  {
    if positions == map[] {
      return DefaultBounds;
    }
    var n0 :| n0 in positions;
    var minX, maxX, minY, maxY := positions[n0].x, positions[n0].x, positions[n0].y, positions[n0].y;
    ghost var wMinX, wMaxX, wMinY, wMaxY := n0, n0, n0, n0;
    var seen := {n0};
    var rest := positions.Keys - {n0};
    while rest != {}
      invariant seen <= positions.Keys && rest == positions.Keys - seen
      invariant wMinX in seen && positions[wMinX].x == minX
      invariant wMaxX in seen && positions[wMaxX].x == maxX
      invariant wMinY in seen && positions[wMinY].y == minY
      invariant wMaxY in seen && positions[wMaxY].y == maxY
      invariant forall n :: n in seen ==> minX <= positions[n].x <= maxX
      invariant forall n :: n in seen ==> minY <= positions[n].y <= maxY
      decreases rest
    {
      var n :| n in rest;
      var p := positions[n];
      if p.x < minX { minX, wMinX := p.x, n; }
      if p.x > maxX { maxX, wMaxX := p.x, n; }
      if p.y < minY { minY, wMinY := p.y, n; }
      if p.y > maxY { maxY, wMaxY := p.y, n; }
      seen := seen + {n};
      rest := rest - {n};
    }
    b := Bounds(minX, maxX, minY, maxY);
  }

  /** The divisor of one axis: its extent, or 1 when the extent is zero (`maxX - minX || 1`). */
  function Divisor(lo: real, hi: real): (d: real)
    ensures d != 0.0
    ensures hi != lo ==> d == hi - lo
  {
    if hi - lo == 0.0 then 1.0 else hi - lo
  }

  /** One axis of the projection: `pad + (c - lo) / divisor * span`. */
  function ToPixel(c: real, lo: real, hi: real, span: real): real {
    Pad + (c - lo) / Divisor(lo, hi) * span
  }

  /** The pixel position of a domain point, in a canvas of the given size. */
  function Project(p: Point, b: Bounds, width: real, height: real): Point {
    Point(ToPixel(p.x, b.minX, b.maxX, width - 2.0 * Pad),
          ToPixel(p.y, b.minY, b.maxY, height - 2.0 * Pad))
  }

  /** The coordinate a node is projected from: its supplied position or the fallback. */
  function Supplied(positions: map<Node, Point>, fallback: Node -> Point, n: Node): Point {
    if n in positions then positions[n] else fallback(n)
  }

  /**
   * `posPx` is the layout `drawBaseGraph` computes: one entry per listed node,
   * each the projection of that node's coordinate under the bounding box of
   * the supplied positions.
   */
  ghost predicate IsLayout(posPx: map<Node, Point>, nodes: seq<Node>, positions: map<Node, Point>,
                           width: real, height: real, fallback: Node -> Point)
  {
    && posPx.Keys == set n | n in nodes
    && exists b :: IsBoundingBox(b, positions) &&
         forall n :: n in posPx ==> posPx[n] == Project(Supplied(positions, fallback, n), b, width, height)
  }

  /**
   * The bounds and the `nodes.forEach` loop of `drawBaseGraph` that fills
   * `posPx`. `fallback` stands for the `[Math.random(), Math.random()]`
   * drawn for a node without a supplied position.
   */
  method ComputeLayout(nodes: seq<Node>, positions: map<Node, Point>, width: real, height: real,
                       fallback: Node -> Point)
    returns (posPx: map<Node, Point>)
    ensures IsLayout(posPx, nodes, positions, width, height, fallback)
  {
    var b := ComputeBounds(positions);
    posPx := map[];
    var i := 0;
    while i < |nodes|
      invariant 0 <= i <= |nodes|
      invariant posPx.Keys == set n | n in nodes[..i]
      invariant forall n :: n in posPx ==> posPx[n] == Project(Supplied(positions, fallback, n), b, width, height)
    {
      var n := nodes[i];
      var p := if n in positions then positions[n] else fallback(n);
      posPx := posPx[n := Project(p, b, width, height)];
      assert nodes[..i + 1] == nodes[..i] + [n];
      i := i + 1;
    }
    assert nodes[..i] == nodes;
  }

  /** The smallest coordinate of an axis is projected onto the padding line. */
  lemma LowMapsToPad(lo: real, hi: real, span: real)
    ensures ToPixel(lo, lo, hi, span) == Pad
  {
  }

  /** With a non-zero extent, the largest coordinate is projected onto the far padding line. */
  lemma HighMapsToFarEdge(lo: real, hi: real, span: real)
    requires hi != lo
    ensures ToPixel(hi, lo, hi, span) == Pad + span
  {
    assert (hi - lo) / Divisor(lo, hi) == 1.0;
  }

  /** With a zero extent the divisor is 1, so every coordinate equal to the bound lands on the padding line. */
  lemma DegenerateMapsToPad(c: real, span: real)
    ensures ToPixel(c, c, c, span) == Pad
  {
  }

  /** A coordinate between the bounds is projected between the two padding lines. */
  lemma ToPixelWithin(c: real, lo: real, hi: real, span: real)
    requires lo <= c <= hi && 0.0 <= span
    ensures Pad <= ToPixel(c, lo, hi, span) <= Pad + span
  {
    var d := Divisor(lo, hi);
    if hi == lo {
      assert (c - lo) / d == 0.0;
    } else {
      var t := (c - lo) / d;
      assert 0.0 <= t by { assert d > 0.0; }
      assert t <= 1.0 by { assert c - lo <= d; assert d > 0.0; }
      assert t * span <= span by { assert span - t * span == (1.0 - t) * span; }
      assert 0.0 <= t * span;
      assert ToPixel(c, lo, hi, span) == Pad + t * span;
      assert Pad + t * span <= Pad + span;
    }
  }

  /**
   * Every supplied position falls inside the padded rectangle
   * [Pad, width - Pad] x [Pad, height - Pad], the nodes attaining the bounds
   * land on its edges, and an axis whose coordinates are all equal collapses
   * onto the padding line.
   */
  lemma {:induction false} SuppliedPositionsFillPaddedRectangle(positions: map<Node, Point>, b: Bounds,
                                                                width: real, height: real, n: Node)
    requires IsBoundingBox(b, positions) && n in positions
    requires 2.0 * Pad <= width && 2.0 * Pad <= height
    ensures var q := Project(positions[n], b, width, height);
      Pad <= q.x <= width - Pad && Pad <= q.y <= height - Pad
    ensures positions[n].x == b.minX ==> Project(positions[n], b, width, height).x == Pad
    ensures positions[n].y == b.minY ==> Project(positions[n], b, width, height).y == Pad
    ensures positions[n].x == b.maxX && b.minX != b.maxX ==> Project(positions[n], b, width, height).x == width - Pad
    ensures positions[n].y == b.maxY && b.minY != b.maxY ==> Project(positions[n], b, width, height).y == height - Pad
    ensures b.minX == b.maxX ==> Project(positions[n], b, width, height).x == Pad
    ensures b.minY == b.maxY ==> Project(positions[n], b, width, height).y == Pad
  {
    var p := positions[n];
    ToPixelWithin(p.x, b.minX, b.maxX, width - 2.0 * Pad);
    ToPixelWithin(p.y, b.minY, b.maxY, height - 2.0 * Pad);
    if b.minX != b.maxX { HighMapsToFarEdge(b.minX, b.maxX, width - 2.0 * Pad); }
    if b.minY != b.maxY { HighMapsToFarEdge(b.minY, b.maxY, height - 2.0 * Pad); }
  }

  /** The three-node example: on a 360 x 360 canvas A and B sit at x 80 and 280, C at y 280. */
  lemma ThreeNodeExample()
    ensures var positions := map["A" := Point(0.0, 0.0), "B" := Point(10.0, 0.0), "C" := Point(5.0, 10.0)];
      var b := Bounds(0.0, 10.0, 0.0, 10.0);
      && IsBoundingBox(b, positions)
      && Project(positions["A"], b, 360.0, 360.0).x == 80.0
      && Project(positions["B"], b, 360.0, 360.0).x == 280.0
      && Project(positions["C"], b, 360.0, 360.0).y == 280.0
  {
    var positions := map["A" := Point(0.0, 0.0), "B" := Point(10.0, 0.0), "C" := Point(5.0, 10.0)];
    assert positions["A"].x == 0.0 && positions["B"].x == 10.0;
    assert positions["A"].y == 0.0 && positions["C"].y == 10.0;
    assert forall n :: n in positions ==> n == "A" || n == "B" || n == "C";
  }

  /** Two nodes at the same point both project onto the padding corner: no division by zero. */
  lemma EqualPositionsExample()
    ensures var positions := map["A" := Point(3.0, 3.0), "B" := Point(3.0, 3.0)];
      var b := Bounds(3.0, 3.0, 3.0, 3.0);
      && IsBoundingBox(b, positions)
      && Project(positions["A"], b, 360.0, 360.0) == Point(Pad, Pad)
      && Project(positions["B"], b, 360.0, 360.0) == Point(Pad, Pad)
  {
    var positions := map["A" := Point(3.0, 3.0), "B" := Point(3.0, 3.0)];
    assert positions["A"] == Point(3.0, 3.0);
    assert forall n :: n in positions ==> n == "A" || n == "B";
  }

  /**
   * The arrows drawn for a list of node pairs: one per pair whose endpoints
   * both have a pixel position, in list order; pairs with a missing endpoint
   * are skipped (`if (!p1 || !p2) return` / `continue`).
   */
  function Arrows(pairs: seq<(Node, Node)>, posPx: map<Node, Point>): seq<Segment> {
    if pairs == [] then []
    else
      var last := pairs[|pairs| - 1];
      Arrows(pairs[..|pairs| - 1], posPx)
        + (if last.0 in posPx && last.1 in posPx then [Segment(last.0, last.1, posPx[last.0], posPx[last.1])] else [])
  }

  /**
   * The arrows are exactly the positioned pairs: every arrow comes from a
   * listed pair with both endpoints positioned and is drawn at their
   * positions, and every such pair yields an arrow.
   */
  lemma {:induction false} ArrowsExactly(pairs: seq<(Node, Node)>, posPx: map<Node, Point>)
    ensures |Arrows(pairs, posPx)| <= |pairs|
    ensures forall s :: s in Arrows(pairs, posPx) ==>
      (s.u, s.v) in pairs && s.u in posPx && s.v in posPx && s.from == posPx[s.u] && s.to == posPx[s.v]
    ensures forall k :: 0 <= k < |pairs| && pairs[k].0 in posPx && pairs[k].1 in posPx ==>
      Segment(pairs[k].0, pairs[k].1, posPx[pairs[k].0], posPx[pairs[k].1]) in Arrows(pairs, posPx)
  {
    if pairs != [] {
      var init := pairs[..|pairs| - 1];
      ArrowsExactly(init, posPx);
      forall k | 0 <= k < |init| ensures init[k] == pairs[k] { }
      assert forall p :: p in init ==> p in pairs;
    }
  }

  /** When every endpoint is positioned, every pair is drawn. */
  lemma {:induction false} AllPositionedAllDrawn(pairs: seq<(Node, Node)>, posPx: map<Node, Point>)
    requires forall k :: 0 <= k < |pairs| ==> pairs[k].0 in posPx && pairs[k].1 in posPx
    ensures |Arrows(pairs, posPx)| == |pairs|
  {
    if pairs != [] {
      AllPositionedAllDrawn(pairs[..|pairs| - 1], posPx);
    }
  }
}
