/** The filled triangle: which pixels fillTriangle covers, measured against the ideal triangle. */
module Triangle {
  import opened Bytes
  import Line

  datatype Point = Point(x: int, y: int)

  /** C's integer division by a positive divisor: truncation toward zero. */
  function CDiv(n: int, d: int): int
    requires 0 < d
  {
    if n >= 0 then n / d else -(-n / d)
  }

  /** The scanline crossing of the edge from p down to q, truncated toward p.x. */
  function Crossing(p: Point, q: Point, y: int): int
    requires p.y < q.y
  {
    p.x + CDiv((q.x - p.x) * (y - p.y), q.y - p.y)
  }

  /** The three conditional swaps that order the vertices by y. */
  function Ordered(p: Point, q: Point): (Point, Point) {
    if p.y > q.y then (q, p) else (p, q)
  }

  function Sort(p: Point, q: Point, r: Point): (Point, Point, Point) {
    var (a, b) := Ordered(p, q);
    var (b', c) := Ordered(b, r);
    var (a', b'') := Ordered(a, b');
    (a', b'', c)
  }

  predicate Between(i: int, x: int, j: int) {
    i <= x <= j || j <= x <= i
  }

  /** The two ends of scanline y, for vertices in order and not all on one line. */
  function Ends(a: Point, b: Point, c: Point, y: int): (int, int)
    requires a.y <= b.y <= c.y && a.y < c.y && a.y <= y <= c.y
  {
    (if y < b.y || b.y == c.y then Crossing(a, b, y) else Crossing(b, c, y), Crossing(a, c, y))
  }

  /** The accumulator of an edge dx columns wide, k scanlines down. */
  function Accumulated(dx: int, k: int): int {
    dx * k
  }

  lemma UpperEnds(a: Point, b: Point, c: Point, y: int)
    requires a.y <= b.y <= c.y && a.y < c.y && a.y <= y <= c.y && (y < b.y || b.y == c.y)
    ensures a.y < b.y
    ensures Ends(a, b, c, y) ==
              (a.x + CDiv(Accumulated(b.x - a.x, y - a.y), b.y - a.y),
               a.x + CDiv(Accumulated(c.x - a.x, y - a.y), c.y - a.y))
  {
    hide CDiv;
  }

  lemma LowerEnds(a: Point, b: Point, c: Point, y: int)
    requires a.y <= b.y < c.y && b.y <= y <= c.y
    ensures Ends(a, b, c, y) ==
              (b.x + CDiv(Accumulated(c.x - b.x, y - b.y), c.y - b.y),
               a.x + CDiv(Accumulated(c.x - a.x, y - a.y), c.y - a.y))
  {
    hide CDiv;
  }

  predicate InSorted(a: Point, b: Point, c: Point, x: int, y: int)
    requires a.y <= b.y <= c.y
  {
    && a.y <= y <= c.y
    && if a.y == c.y then Between(a.x, x, b.x) || Between(b.x, x, c.x) || Between(a.x, x, c.x)
       else var (i, j) := Ends(a, b, c, y); Between(i, x, j)
  }

  predicate InTriangle(p: Point, q: Point, r: Point, x: int, y: int) {
    var (a, b, c) := Sort(p, q, r);
    InSorted(a, b, c, x, y)
  }

  /** The order in which the vertices are given does not matter. */
  lemma VertexOrder(p: Point, q: Point, r: Point, x: int, y: int)
    ensures InTriangle(p, q, r, x, y) <==> InTriangle(q, p, r, x, y)
    ensures InTriangle(p, q, r, x, y) <==> InTriangle(p, r, q, x, y)
    ensures InTriangle(p, q, r, x, y) <==> InTriangle(r, q, p, x, y)
  {
    hide CDiv;
  }

  // ---- truncated division ------------------------------------------------------------------

  /** The truncated quotient is the floor or the ceiling of the true one. */
  lemma CDivRounds(n: int, d: int)
    requires 0 < d
    ensures Abs(CDiv(n, d) * d - n) < d
    ensures 0 <= n ==> 0 <= CDiv(n, d) && CDiv(n, d) * d <= n
    ensures n <= 0 ==> CDiv(n, d) <= 0 && n <= CDiv(n, d) * d
  {
    var m := Abs(n);
    assert m == m / d * d + m % d;
    Quotient(m, d);
    assert -(m / d) * d == -(m / d * d);
  }

  lemma Quotient(m: int, d: int)
    requires 0 < d && 0 <= m
    ensures 0 <= m / d
  {
  }

  /** An integer on one side of n / d is on the same side of the truncated quotient, or on it. */
  lemma CDivSides(n: int, d: int, k: int)
    requires 0 < d
    ensures n <= k * d ==> CDiv(n, d) <= k
    ensures k * d <= n ==> k <= CDiv(n, d)
  {
    CDivRounds(n, d);
    var t := CDiv(n, d);
    if n <= k * d && k < t {
      Scale(d, k + 1, t);
    } else if k * d <= n && t < k {
      Scale(d, t + 1, k);
    }
  }

  // ---- geometry of the scanlines -----------------------------------------------------------

  /** A crossing lies within one pixel of the ideal edge, and between its two end points. */
  lemma CrossingRounds(p: Point, q: Point, y: int)
    requires p.y < q.y && p.y <= y <= q.y
    ensures Abs((Crossing(p, q, y) - p.x) * (q.y - p.y) - (q.x - p.x) * (y - p.y)) < q.y - p.y
    ensures Between(p.x, Crossing(p, q, y), q.x)
    ensures y == p.y ==> Crossing(p, q, y) == p.x
    ensures y == q.y ==> Crossing(p, q, y) == q.x
  {
    var dx, dy, k := q.x - p.x, q.y - p.y, y - p.y;
    CDivRounds(dx * k, dy);
    Product(dx, k, dy);
    CDivSides(dx * k, dy, dx);
    CDivSides(dx * k, dy, 0);
  }

  lemma Product(dx: int, k: int, dy: int)
    requires 0 <= k <= dy
    ensures 0 <= dx ==> 0 <= dx * k <= dx * dy
    ensures dx <= 0 ==> dx * dy <= dx * k <= 0
  {
    if 0 <= dx {
      Scale(dx, 0, k);
      Scale(dx, k, dy);
      Commute(dx, k);
      Commute(dx, dy);
    } else {
      Scale(-dx, 0, k);
      Scale(-dx, k, dy);
      Commute(-dx, k);
      Commute(-dx, dy);
      Negate(dx, k);
      Negate(dx, dy);
    }
  }

  /** All three vertices are covered. */
  lemma VerticesCovered(a: Point, b: Point, c: Point)
    requires a.y <= b.y <= c.y
    ensures InSorted(a, b, c, a.x, a.y) && InSorted(a, b, c, b.x, b.y) && InSorted(a, b, c, c.x, c.y)
  {
    hide Crossing;
    if a.y < c.y {
      CrossingRounds(a, c, a.y);
      CrossingRounds(a, c, b.y);
      CrossingRounds(a, c, c.y);
      if a.y < b.y {
        CrossingRounds(a, b, a.y);
        CrossingRounds(a, b, b.y);
      }
      if b.y < c.y {
        CrossingRounds(b, c, b.y);
        CrossingRounds(b, c, c.y);
      }
    }
  }

  /** The pixel lies on the ideal edge from p to q or to the right of it (left: the other way round). */
  ghost predicate RightOf(p: Point, q: Point, x: int, y: int) {
    (q.x - p.x) * (y - p.y) <= (x - p.x) * (q.y - p.y)
  }

  ghost predicate LeftOf(p: Point, q: Point, x: int, y: int) {
    (x - p.x) * (q.y - p.y) <= (q.x - p.x) * (y - p.y)
  }

  /** Every pixel of the ideal closed triangle is covered. */
  lemma CoversIdeal(a: Point, b: Point, c: Point, x: int, y: int)
    requires a.y <= b.y <= c.y && a.y < c.y && a.y <= y <= c.y
    requires var (p, q) := if y < b.y || b.y == c.y then (a, b) else (b, c);
             (RightOf(p, q, x, y) && LeftOf(a, c, x, y)) || (LeftOf(p, q, x, y) && RightOf(a, c, x, y))
    ensures InSorted(a, b, c, x, y)
  {
    hide CDiv;
    var (p, q) := if y < b.y || b.y == c.y then (a, b) else (b, c);
    CDivSides((q.x - p.x) * (y - p.y), q.y - p.y, x - p.x);
    CDivSides((c.x - a.x) * (y - a.y), c.y - a.y, x - a.x);
  }

  /** Every covered pixel is within one pixel of the ideal triangle: moved by one pixel along its row, it lies on
      the inner side of either edge. */
  lemma NearIdeal(a: Point, b: Point, c: Point, x: int, y: int)
    requires a.y <= b.y <= c.y && a.y < c.y && a.y <= y <= c.y && InSorted(a, b, c, x, y)
    ensures var (p, q) := if y < b.y || b.y == c.y then (a, b) else (b, c);
            (RightOf(p, q, x + 1, y) && LeftOf(a, c, x - 1, y)) || (LeftOf(p, q, x - 1, y) && RightOf(a, c, x + 1, y))
  {
    hide CDiv, RightOf, LeftOf;
    var (p, q) := if y < b.y || b.y == c.y then (a, b) else (b, c);
    NearCrossing(p, q, x, y);
    NearCrossing(a, c, x, y);
  }

  /** A pixel on one side of the truncated crossing is on that side of the edge, give or take one pixel. */
  lemma NearCrossing(p: Point, q: Point, x: int, y: int)
    requires p.y < q.y
    ensures Crossing(p, q, y) <= x ==> RightOf(p, q, x + 1, y)
    ensures x <= Crossing(p, q, y) ==> LeftOf(p, q, x - 1, y)
  {
    var n, d := (q.x - p.x) * (y - p.y), q.y - p.y;
    CDivRounds(n, d);
    var t := CDiv(n, d);
    if p.x + t <= x {
      Scale(d, t + 1, x + 1 - p.x);
      Scale(d, t + 1, t + 1);
    }
    if x <= p.x + t {
      Scale(d, x - 1 - p.x, t - 1);
      Scale(d, t, t);
    }
  }

  /** No pixel lies outside the box around the vertices. */
  lemma WithinBox(a: Point, b: Point, c: Point, x: int, y: int, lo: int, hi: int)
    requires a.y <= b.y <= c.y && InSorted(a, b, c, x, y)
    requires lo <= a.x <= hi && lo <= b.x <= hi && lo <= c.x <= hi
    ensures lo <= x <= hi && a.y <= y <= c.y
  {
    hide Crossing;
    if a.y < c.y {
      CrossingRounds(a, c, y);
      if y < b.y || b.y == c.y {
        CrossingRounds(a, b, y);
      } else {
        CrossingRounds(b, c, y);
      }
    }
  }

  /** The last row of the first scanline loop: one above the middle vertex, except for a flat bottom. */
  function RowLast(y1: int16, y2: int16): int16 {
    if y1 == y2 then y1 else Wrap16(y1 - 1)
  }

  /** The first loop ends no later than the middle vertex and the row counter passes the lowest vertex
      exactly when the lowest row is not 32767 and the middle one not -32768. */
  lemma RowsLeave(y0: int16, y1: int16, y2: int16)
    requires y0 <= y1 <= y2 && y0 < y2
    ensures RowLast(y1, y2) <= y1 && Line.Leaves(y0, y2) <==> y2 < 0x7FFF && -0x8000 < y1
  {
    Line.LeavesIff(y0, y2);
  }

  /** For example, with the two upper vertices at -32768 the first loop runs over every row, and its divisor
      is 0; with the lowest vertex at 32767 the last loop does not end. */
  lemma EndlessRows()
    ensures RowLast(-32768, 0) == 32767 && !Line.Leaves(0, 32767)
  {
    Line.LeavesIff(0, 32767);
  }

  /** The accumulators stay within 32 bits. */
  lemma AccumulatorFits(dx: int, k: int)
    requires Fits16(dx) && 0 <= k <= 0x8000
    ensures -0x4000_0000 <= Accumulated(dx, k) <= 0x4000_0000
  {
    Product(dx, k, 0x8000);
  }

  lemma NothingAccumulated(dx: int)
    ensures Accumulated(dx, 0) == 0
  {
  }

  /** One turn of the scanline loops: the accumulator grows by the edge's width. */
  lemma Accumulate(dx: int, k: int)
    requires Fits16(dx) && 0 <= k < 0x8000
    ensures Accumulated(dx, k + 1) == Accumulated(dx, k) + dx && -0x4000_0000 <= Accumulated(dx, k + 1) <= 0x4000_0000
  {
    AccumulatorFits(dx, k + 1);
  }
}
