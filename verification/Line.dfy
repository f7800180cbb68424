/** Bresenham's line, measured against the ideal line between the end points. */
module Line {
  import opened Bytes
  import opened Screen

  /** The error term after k major and m minor steps. */
  ghost function ErrorTerm(dx: int, dy: int, k: int, m: int): int {
    dx / 2 - k * dy + m * dx
  }

  /** Along a run of dx major steps that climbs dy <= dx, the pixel of step k lies m rows up: the error
      term is within [0, dx). */
  ghost predicate OnMinor(dx: int, dy: int, k: int, m: int) {
    if dx == 0 then m == 0 else 0 <= ErrorTerm(dx, dy, k, m) < dx
  }

  /** End points in major-axis order, u0 <= u1. */
  ghost predicate OnRun(u0: int, v0: int, u1: int, v1: int, x: int, y: int) {
    u0 <= x <= u1 && OnMinor(u1 - u0, Abs(v1 - v0), x - u0, if v0 < v1 then y - v0 else v0 - y)
  }

  ghost predicate Steep(x0: int, y0: int, x1: int, y1: int) {
    Abs(y1 - y0) > Abs(x1 - x0)
  }

  ghost predicate OnMajor(x0: int, y0: int, x1: int, y1: int, x: int, y: int) {
    if x0 > x1 then OnRun(x1, y1, x0, y0, x, y) else OnRun(x0, y0, x1, y1, x, y)
  }

  /** (x, y) is one of the pixels of the line from (x0, y0) to (x1, y1). */
  ghost predicate OnLine(x0: int, y0: int, x1: int, y1: int, x: int, y: int) {
    if Steep(x0, y0, x1, y1) then OnMajor(y0, x0, y1, x1, y, x) else OnMajor(x0, y0, x1, y1, x, y)
  }

  // ---- the 16-bit counter ------------------------------------------------------------------

  /** The larger major coordinate, at which the loop is to stop. */
  function MajorEnd(x0: int, y0: int, x1: int, y1: int): int {
    if Abs(y1 - y0) > Abs(x1 - x0) then if y0 > y1 then y0 else y1
    else if x0 > x1 then x0 else x1
  }

  /** A 16-bit counter after n increments. */
  function Counter(start: int16, n: nat): int16 {
    if n == 0 then start else Wrap16(Counter(start, n - 1) + 1)
  }

  /** Some turn finds the guard `counter <= last` false. */
  ghost predicate Leaves(start: int16, last: int16) {
    exists n :: Counter(start, n) > last
  }

  lemma {:induction false} Counts(start: int16, n: nat)
    requires start + n <= 0x7FFF
    ensures Counter(start, n) == start + n
  {
    if n > 0 {
      Counts(start, n - 1);
    }
  }

  /** A loop over a 16-bit counter ends exactly when its last value is not the largest one. */
  lemma LeavesIff(start: int16, last: int16)
    requires start <= last
    ensures Leaves(start, last) <==> last < 0x7FFF
  {
    if last < 0x7FFF {
      Counts(start, last + 1 - start);
      assert Counter(start, last + 1 - start) > last;
    }
  }

  /** The smaller major coordinate, at which the loop starts. */
  function MajorStart(x0: int, y0: int, x1: int, y1: int): int {
    if Abs(y1 - y0) > Abs(x1 - x0) then if y0 > y1 then y1 else y0
    else if x0 > x1 then x1 else x0
  }

  /** The loop of writeLine ends exactly when the larger major coordinate is not 32767. */
  lemma LineLeaves(x0: int16, y0: int16, x1: int16, y1: int16)
    ensures Leaves(MajorStart(x0, y0, x1, y1), MajorEnd(x0, y0, x1, y1)) <==> MajorEnd(x0, y0, x1, y1) < 0x7FFF
  {
    LeavesIff(MajorStart(x0, y0, x1, y1), MajorEnd(x0, y0, x1, y1));
  }

  /** For example, the line from (0, 0) to (32767, 1) is never finished, the one to (1, 32766) is. */
  lemma EndlessLine()
    ensures !Leaves(MajorStart(0, 0, 32767, 1), MajorEnd(0, 0, 32767, 1))
    ensures Leaves(MajorStart(0, 0, 1, 32766), MajorEnd(0, 0, 1, 32766))
  {
    LineLeaves(0, 0, 32767, 1);
    LineLeaves(0, 0, 1, 32766);
  }

  // ---- properties of the error term --------------------------------------------------------

  lemma MinorUnique(dx: int, dy: int, k: int, m: int, n: int)
    requires 0 <= dx && OnMinor(dx, dy, k, m) && OnMinor(dx, dy, k, n)
    ensures m == n
  {
    if dx > 0 {
      if m < n {
        Scale(dx, m + 1, n);
      } else if n < m {
        Scale(dx, n + 1, m);
      }
    }
  }

  lemma RunUnique(u0: int, v0: int, u1: int, v1: int, x: int, y: int, z: int)
    ensures OnRun(u0, v0, u1, v1, x, y) && OnRun(u0, v0, u1, v1, x, z) ==> y == z
  {
    if OnRun(u0, v0, u1, v1, x, y) && OnRun(u0, v0, u1, v1, x, z) {
      MinorUnique(u1 - u0, Abs(v1 - v0), x - u0, if v0 < v1 then y - v0 else v0 - y,
                  if v0 < v1 then z - v0 else v0 - z);
    }
  }

  /** One step of the loop: subtract dy, and correct by dx when negative. */
  lemma MinorStep(dx: int, dy: int, k: int, m: int)
    ensures ErrorTerm(dx, dy, k + 1, m) == ErrorTerm(dx, dy, k, m) - dy
    ensures ErrorTerm(dx, dy, k + 1, m + 1) == ErrorTerm(dx, dy, k, m) - dy + dx
  {
    assert (k + 1) * dy == k * dy + dy;
    assert (m + 1) * dx == m * dx + dx;
  }

  lemma ErrorStart(dx: int, dy: int)
    ensures ErrorTerm(dx, dy, 0, 0) == dx / 2
  {
  }

  /** The state of the loop identifies the pixel it is about to plot. */
  lemma PixelOnRun(u0: int, v0: int, u1: int, v1: int, x: int, m: int)
    requires u0 <= x <= u1 && Abs(v1 - v0) <= u1 - u0 && 0 <= m
    requires var err := ErrorTerm(u1 - u0, Abs(v1 - v0), x - u0, m);
             0 <= err && if u1 == u0 then m == 0 else err < u1 - u0
    ensures OnRun(u0, v0, u1, v1, x, if v0 < v1 then v0 + m else v0 - m)
  {
  }

  /** The line is 8-connected: from one major step to the next it climbs by at most one. */
  lemma MinorConnected(dx: int, dy: int, k: int, m: int, n: int)
    requires 0 <= dy <= dx && 0 < dx && OnMinor(dx, dy, k, m) && OnMinor(dx, dy, k + 1, n)
    ensures m <= n <= m + 1
  {
    MinorStep(dx, dy, k, m);
    if ErrorTerm(dx, dy, k, m) - dy < 0 {
      MinorUnique(dx, dy, k + 1, m + 1, n);
    } else {
      MinorUnique(dx, dy, k + 1, m, n);
    }
  }

  /** Both ends are hit exactly, and the line never leaves the rows between them. */
  lemma {:induction false} MinorRange(dx: int, dy: int, k: int) returns (m: int)
    requires 0 <= dy <= dx && 0 <= k <= dx
    ensures OnMinor(dx, dy, k, m) && 0 <= m <= dy
    ensures k == 0 ==> m == 0
    ensures k == dx ==> m == dy
    decreases k
  {
    if k == 0 {
      return 0;
    }
    var n := MinorRange(dx, dy, k - 1);
    MinorStep(dx, dy, k - 1, n);
    m := if ErrorTerm(dx, dy, k - 1, n) - dy < 0 then n + 1 else n;
    EndExact(dx, dy);
    if k == dx {
      MinorUnique(dx, dy, k, m, dy);
    }
    if m > dy {
      Scale(dy, k, dx);
      Scale(dx, dy + 1, m);
    }
  }

  lemma EndExact(dx: int, dy: int)
    requires 0 <= dy <= dx && 0 < dx
    ensures OnMinor(dx, dy, dx, dy)
  {
    assert dx * dy == dy * dx;
  }

  lemma RowsWithin(dx: int, dy: int, k: int, m: int)
    requires 0 <= dy <= dx
    ensures 0 <= k <= dx && OnMinor(dx, dy, k, m) ==> 0 <= m <= dy
  {
    if 0 <= k <= dx && OnMinor(dx, dy, k, m) {
      var n := MinorRange(dx, dy, k);
      MinorUnique(dx, dy, k, m, n);
    }
  }

  // ---- properties of the line --------------------------------------------------------------

  /** Every pixel lies within half a pixel of the ideal line, measured along the minor axis. */
  lemma HalfPixel(u0: int, v0: int, u1: int, v1: int, x: int, y: int)
    requires Abs(v1 - v0) <= u1 - u0 && OnRun(u0, v0, u1, v1, x, y)
    ensures 2 * Abs((y - v0) * (u1 - u0) - (x - u0) * (v1 - v0)) <= u1 - u0
  {
    var dx, dy, k, m := u1 - u0, Abs(v1 - v0), x - u0, if v0 < v1 then y - v0 else v0 - y;
    if v0 < v1 {
      assert (y - v0) * dx - k * (v1 - v0) == m * dx - k * dy;
    } else {
      assert (y - v0) * dx == -(m * dx) by { Negate(m, dx); }
      assert k * (v1 - v0) == -(k * dy) by { Negate(dy, k); }
    }
  }

  /** Each major coordinate between the ends has exactly one pixel, and both end points are on the line. */
  lemma OnePixelPerStep(u0: int, v0: int, u1: int, v1: int, x: int) returns (y: int)
    requires Abs(v1 - v0) <= u1 - u0 && u0 <= x <= u1
    ensures OnRun(u0, v0, u1, v1, x, y) && forall z :: OnRun(u0, v0, u1, v1, x, z) ==> z == y
    ensures (x == u0 ==> y == v0) && (x == u1 ==> y == v1)
    ensures if v0 < v1 then v0 <= y <= v1 else v1 <= y <= v0
  {
    var dx, dy, k := u1 - u0, Abs(v1 - v0), x - u0;
    var m := MinorRange(dx, dy, k);
    y := if v0 < v1 then v0 + m else v0 - m;
    forall z | OnRun(u0, v0, u1, v1, x, z) ensures z == y {
      MinorUnique(dx, dy, k, m, if v0 < v1 then z - v0 else v0 - z);
    }
  }

  /** Exchanging the end points gives the same pixels. */
  lemma SwapEnds(x0: int, y0: int, x1: int, y1: int, x: int, y: int)
    ensures OnLine(x0, y0, x1, y1, x, y) <==> OnLine(x1, y1, x0, y0, x, y)
  {
  }

  /** An axis-aligned line is the straight run of pixels that the shortcuts of drawLine draw. */
  lemma StraightRun(u0: int, v0: int, u1: int, x: int, y: int)
    requires u0 <= u1
    ensures OnRun(u0, v0, u1, v0, x, y) <==> u0 <= x <= u1 && y == v0
  {
    var dx, m := u1 - u0, v0 - y;
    if dx > 0 {
      if m > 0 {
        Scale(dx, 1, m);
      } else if m < 0 {
        Scale(dx, m, -1);
      }
    }
  }

  /** Neighbouring pixels, side by side or corner to corner. */
  predicate Touching(p: (int, int), q: (int, int)) {
    Abs(q.0 - p.0) <= 1 && Abs(q.1 - p.1) <= 1
  }

  /** The pixels of a run in order: one per major coordinate, each touching the next, from end to end. */
  ghost predicate Path(pts: seq<(int, int)>, u0: int, v0: int, u1: int, v1: int) {
    && u0 <= u1 && |pts| == u1 - u0 + 1 && pts[0] == (u0, v0) && pts[u1 - u0] == (u1, v1)
    && (forall i :: 0 <= i < |pts| ==> pts[i].0 == u0 + i && OnRun(u0, v0, u1, v1, pts[i].0, pts[i].1))
    && (forall i, j :: 0 <= i < |pts| && j == i + 1 && j < |pts| ==> Touching(pts[i], pts[j]))
  }

  lemma {:induction false} FirstPixels(u0: int, v0: int, u1: int, v1: int, n: int) returns (pts: seq<(int, int)>)
    requires Abs(v1 - v0) <= u1 - u0 && 0 <= n <= u1 - u0 + 1
    ensures |pts| == n && forall i :: 0 <= i < n ==> pts[i].0 == u0 + i && OnRun(u0, v0, u1, v1, pts[i].0, pts[i].1)
  {
    if n == 0 {
      return [];
    }
    pts := FirstPixels(u0, v0, u1, v1, n - 1);
    var y := OnePixelPerStep(u0, v0, u1, v1, u0 + n - 1);
    pts := pts + [(u0 + n - 1, y)];
  }

  lemma RunConnected(u0: int, v0: int, u1: int, v1: int, x: int, y: int, z: int)
    requires Abs(v1 - v0) <= u1 - u0 && OnRun(u0, v0, u1, v1, x, y) && OnRun(u0, v0, u1, v1, x + 1, z)
    ensures Abs(z - y) <= 1
  {
    var m, n := if v0 < v1 then y - v0 else v0 - y, if v0 < v1 then z - v0 else v0 - z;
    MinorConnected(u1 - u0, Abs(v1 - v0), x - u0, m, n);
  }

  lemma RunPath(u0: int, v0: int, u1: int, v1: int) returns (pts: seq<(int, int)>)
    requires Abs(v1 - v0) <= u1 - u0
    ensures Path(pts, u0, v0, u1, v1)
  {
    hide OnRun;
    pts := FirstPixels(u0, v0, u1, v1, u1 - u0 + 1);
    var first := OnePixelPerStep(u0, v0, u1, v1, u0);
    var last := OnePixelPerStep(u0, v0, u1, v1, u1);
    forall i, j | 0 <= i < |pts| && j == i + 1 && j < |pts| ensures Touching(pts[i], pts[j]) {
      RunConnected(u0, v0, u1, v1, pts[i].0, pts[i].1, pts[j].1);
    }
  }

  /** The pixels of the line as a path: max(|dx|, |dy|) + 1 of them, all different, each touching the next,
      from one end point to the other. */
  ghost predicate Traced(pts: seq<(int, int)>, x0: int, y0: int, x1: int, y1: int) {
    && |pts| == (if Steep(x0, y0, x1, y1) then Abs(y1 - y0) else Abs(x1 - x0)) + 1
    && Distinct(pts) && (forall x, y :: OnLine(x0, y0, x1, y1, x, y) <==> (x, y) in pts)
    && (forall i, j :: 0 <= i < |pts| && j == i + 1 && j < |pts| ==> Touching(pts[i], pts[j]))
    && ((pts[0] == (x0, y0) && pts[|pts| - 1] == (x1, y1)) || (pts[0] == (x1, y1) && pts[|pts| - 1] == (x0, y0)))
  }

  /** The same path with the axes exchanged. */
  function Flip(pts: seq<(int, int)>): (r: seq<(int, int)>)
    ensures |r| == |pts| && forall x, y :: (x, y) in r <==> (y, x) in pts
  {
    var r := seq(|pts|, i requires 0 <= i < |pts| => (pts[i].1, pts[i].0));
    assert forall x, y :: (y, x) in pts ==> (x, y) in r by {
      forall x, y | (y, x) in pts ensures (x, y) in r {
        var i :| 0 <= i < |pts| && pts[i] == (y, x);
        assert r[i] == (x, y);
      }
    }
    r
  }

  lemma LineIsPath(x0: int, y0: int, x1: int, y1: int) returns (pts: seq<(int, int)>)
    ensures Traced(pts, x0, y0, x1, y1)
  {
    hide OnRun, Touching, Distinct, Path, Flip;
    var steep := Steep(x0, y0, x1, y1);
    var (a, b, c, e) := if steep then (y0, x0, y1, x1) else (x0, y0, x1, y1);
    var (u0, v0, u1, v1) := if a > c then (c, e, a, b) else (a, b, c, e);
    var run := RunPath(u0, v0, u1, v1);
    PathDistinct(run, u0, v0, u1, v1);
    PathTouching(run, u0, v0, u1, v1);
    pts := if steep then Flip(run) else run;
    forall x, y ensures OnLine(x0, y0, x1, y1, x, y) <==> (x, y) in pts {
      OnPath(run, u0, v0, u1, v1, if steep then y else x, if steep then x else y);
      assert (x, y) in Flip(run) <==> (y, x) in run;
    }
  }

  lemma PathTouching(pts: seq<(int, int)>, u0: int, v0: int, u1: int, v1: int)
    requires Path(pts, u0, v0, u1, v1)
    ensures var r := Flip(pts);
            && |pts| == |r| == u1 - u0 + 1 > 0
            && pts[0] == (u0, v0) && pts[|pts| - 1] == (u1, v1) && r[0] == (v0, u0) && r[|pts| - 1] == (v1, u1)
    ensures forall i, j :: 0 <= i < |pts| && j == i + 1 && j < |pts| ==>
              Touching(pts[i], pts[j]) && Touching(Flip(pts)[i], Flip(pts)[j])
  {
    hide OnRun, Touching;
    forall i, j | 0 <= i < |pts| && j == i + 1 && j < |pts|
      ensures Touching(pts[i], pts[j]) && Touching(Flip(pts)[i], Flip(pts)[j])
    {
      TouchingFlipped(pts[i], pts[j]);
    }
  }

  lemma PathDistinct(pts: seq<(int, int)>, u0: int, v0: int, u1: int, v1: int)
    requires Path(pts, u0, v0, u1, v1)
    ensures Distinct(pts) && Distinct(Flip(pts))
  {
    hide OnRun;
    forall i, j | 0 <= i < j < |pts| ensures pts[i] != pts[j] && Flip(pts)[i] != Flip(pts)[j] {
      assert pts[i].0 == u0 + i && pts[j].0 == u0 + j;
    }
  }

  lemma TouchingFlipped(p: (int, int), q: (int, int))
    ensures Touching(p, q) <==> Touching((p.1, p.0), (q.1, q.0))
  {
  }

  /** A path holds all pixels of its run. */
  lemma OnPath(pts: seq<(int, int)>, u0: int, v0: int, u1: int, v1: int, x: int, y: int)
    requires Path(pts, u0, v0, u1, v1)
    ensures OnRun(u0, v0, u1, v1, x, y) <==> (x, y) in pts
  {
    if OnRun(u0, v0, u1, v1, x, y) {
      RunUnique(u0, v0, u1, v1, x, y, pts[x - u0].1);
      assert pts[x - u0] == (x, y);
    }
  }
}
