/** The midpoint circle algorithm, measured against the ideal circle.

    Squares are compared instead of roots: b is the integer nearest to sqrt(r*r - a*a) exactly when
    (b - 1/2)^2 < r*r - a*a + 1/4 <= (b + 1/2)^2, which clears to the inequalities of `Nearest`. */
module Circle {
  import opened Bytes

  /** b is the integer nearest to sqrt(r*r - a*a). */
  ghost predicate Nearest(r: int, a: int, b: int) {
    && 0 <= b
    && r * r - a * a <= b * b + b
    && (b > 0 ==> b * b - b < r * r - a * a)
  }

  /** The pixel offset (dx, dy) lies on the ideal outline: its larger coordinate is the rounded height
      of the circle over its smaller one. */
  ghost predicate Outline(r: int, dx: int, dy: int) {
    if Abs(dx) <= Abs(dy) then Nearest(r, Abs(dx), Abs(dy)) else Nearest(r, Abs(dy), Abs(dx))
  }

  /** Within the column-wise vertical hull of the outline. */
  ghost predicate Disc(r: int, dx: int, dy: int) {
    exists k: nat :: Outline(r, dx, k) && Abs(dy) <= k
  }

  /** Both squares are compared through their factors. */
  lemma SquareStep(a: int, b: int)
    requires 0 <= a < b
    ensures a * a + a <= b * b - b && a * a + 2 * a + 1 <= b * b && a * a < b * b
  {
    Scale(b, a + 1, b);
    Scale(a + 1, a + 1, b);
    assert (a + 1) * (a + 1) == a * a + 2 * a + 1;
    assert b * b - b == (b - 1) * b;
    Scale(b, a, b - 1);
    Scale(a, a + 1, b);
    assert (a + 1) * a == a * a + a;
  }

  lemma NearestUnique(r: int, a: int, b: int, c: int)
    requires Nearest(r, a, b) && Nearest(r, a, c)
    ensures b == c
  {
    if b < c {
      SquareStep(b, c);
    } else if c < b {
      SquareStep(c, b);
    }
  }

  /** No outline pixel lies further out than r. */
  lemma OutlineWithin(r: int, dx: int, dy: int)
    requires 0 <= r && Outline(r, dx, dy)
    ensures Abs(dx) <= r && Abs(dy) <= r
  {
    var b := if Abs(dx) <= Abs(dy) then Abs(dy) else Abs(dx);
    if b > r {
      SquareStep(r, b);
    }
  }

  // ---- the state of the midpoint loop ------------------------------------------------------

  ghost predicate Midpoint(r: int, x: int, y: int, f: int) {
    && 0 <= y <= r && 0 <= x <= y + 1
    && f == (x + 1) * (x + 1) + y * y - y - r * r
    && r * r <= x * x + y * y + y
    && Outline(r, x, y)
  }

  lemma MidpointInit(r: int)
    requires 0 <= r
    ensures Midpoint(r, 0, r, 1 - r)
  {
  }

  /** Everything the loop computes fits 16 bits for radii up to 16383. */
  lemma MidpointBounds(r: int, x: int, y: int, f: int)
    requires Midpoint(r, x, y, f)
    ensures 1 - 2 * r <= f <= 2 * r + 1
    ensures x < y && f >= 0 ==> -2 * r <= f - 2 * (y - 1) && f - 2 * (y - 1) <= 2 * r + 1
  {
    if x <= y {
      assert (x + 1) * (x + 1) == x * x + 2 * x + 1;
    } else {
      assert (x + 1) * (x + 1) == (y + 2) * (y + 2) == y * y + 4 * y + 4;
      assert (y + 1) * (y + 1) == y * y + 2 * y + 1;
    }
  }

  /** Every plotted offset is off the circle by at most y in the squares. */
  lemma MidpointError(r: int, x: int, y: int, f: int)
    requires Midpoint(r, x, y, f)
    ensures Abs(x * x + y * y - r * r) <= y
  {
    if x == y + 1 {
      assert x * x == y * y + 2 * y + 1;
    }
  }

  lemma MidpointStep(r: int, x: int, y: int, f: int)
    requires Midpoint(r, x, y, f) && x < y
    ensures f >= 0 ==> Midpoint(r, x + 1, y - 1, f - 2 * (y - 1) + 2 * (x + 1) + 1)
    ensures f < 0 ==> Midpoint(r, x + 1, y, f + 2 * (x + 1) + 1)
  {
    assert (x + 1) * (x + 1) == x * x + 2 * x + 1;
    assert (x + 2) * (x + 2) == x * x + 4 * x + 4;
    assert (y - 1) * (y - 1) == y * y - 2 * y + 1;
  }

  // ---- the outline, octant by octant -------------------------------------------------------

  function Min(i: int, j: int): int {
    if i < j then i else j
  }

  /** Two rounded heights: further along the octant the circle is lower. */
  lemma NearestFalls(r: int, a: int, b: int, x: int, y: int)
    requires 0 <= a <= x && Nearest(r, a, b) && Nearest(r, x, y) && 0 < y
    ensures y <= b && (a < x ==> y * y - y < b * b + b)
  {
    SquareLe(a, x);
    if b < y {
      SquareStep(b, y);
    }
  }

  /** When the loop ends, no outline pixel has its smaller coordinate beyond the last x. */
  lemma OctantComplete(r: int, x: int, y: int, f: int, dx: int, dy: int)
    requires Midpoint(r, x, y, f) && y <= x && Outline(r, dx, dy)
    ensures Min(Abs(dx), Abs(dy)) <= y
  {
    var a, b := if Abs(dx) <= Abs(dy) then Abs(dx) else Abs(dy), if Abs(dx) <= Abs(dy) then Abs(dy) else Abs(dx);
    assert (y + 1) * (y + 1) == y * y + 2 * y + 1;
    if a > y {
      SquareLe(y + 1, a);
      SquareStep(y, b);
    }
  }

  /** The pixels that the last step of the loop plots a second time: the diagonal one, or the pair
      next to the diagonal when the outline steps over it. */
  ghost predicate Join(r: int, dx: int, dy: int) {
    var a, b := Min(Abs(dx), Abs(dy)), Abs(dx) + Abs(dy) - Min(Abs(dx), Abs(dy));
    a == b || (0 < a && b == a + 1 && !Nearest(r, a + 1, a + 1))
  }

  /** What drawCircle leaves painted: the outline, but in inverse mode without the joins. */
  ghost predicate Plotted(r: int, color: int, dx: int, dy: int) {
    Outline(r, dx, dy) && (color == 2 ==> !Join(r, dx, dy))
  }

  /** The state after the points of column offsets 0..x: all octants so far, or the finished circle. */
  ghost predicate PlottedUpTo(r: int, color: int, x: int, y: int, dx: int, dy: int) {
    if x < y then Outline(r, dx, dy) && Min(Abs(dx), Abs(dy)) <= x else Plotted(r, color, dx, dy)
  }

  /** The eight calls for (x, y), x > 0: in inverse mode coinciding points cancel. */
  predicate Eight(color: int, x: int, y: int, dx: int, dy: int) {
    var once := (Abs(dx) == x && Abs(dy) == y) || (Abs(dx) == y && Abs(dy) == x);
    if color == 2 then once && x != y && 0 < y else once
  }

  function Max(i: int, j: int): int {
    if i < j then j else i
  }

  /** The loop ends on the diagonal: only the diagonal pixels are joins. */
  lemma JoinOnDiagonal(r: int, x: int, a: int, b: int)
    requires 0 < x && Nearest(r, x, x) && 0 <= a <= b && a <= x && Nearest(r, a, b)
    ensures a == b || (0 < a && b == a + 1 && !Nearest(r, a + 1, a + 1)) <==> a == x
  {
    NearestFalls(r, a, b, x, x);
    if a == x {
      NearestUnique(r, x, b, x);
    }
  }

  /** The loop ends beside the diagonal: only the last pair before it is a join. */
  lemma JoinBeside(r: int, y: int, a: int, b: int)
    requires 0 <= y && Nearest(r, y, y + 1) && !Nearest(r, y + 1, y + 1)
    requires 0 <= a <= b && a <= y && Nearest(r, a, b)
    ensures a == b || (0 < a && b == a + 1 && !Nearest(r, a + 1, a + 1)) <==> a == y && 0 < y
  {
    NearestFalls(r, a, b, y, y + 1);
    if a == y {
      NearestUnique(r, y, b, y + 1);
    }
  }

  lemma MidpointOutline(r: int, x: int, y: int, f: int)
    requires Midpoint(r, x, y, f)
    ensures 0 <= y <= r && 0 <= x <= y + 1 && Outline(r, x, y)
  {
  }

  /** When the loop ends beside the diagonal, the diagonal pixel is not on the outline. */
  lemma BesideDiagonal(r: int, x: int, y: int, f: int)
    requires Midpoint(r, x, y, f) && x == y + 1
    ensures Nearest(r, y, y + 1) && !Nearest(r, y + 1, y + 1)
  {
    assert (y + 1) * (y + 1) == y * y + 2 * y + 1;
  }

  /** One turn of drawCircle's loop, pixel by pixel. */
  lemma OutlineStep(r: int, color: int, px: int, py: int, f: int, x: int, y: int, f': int, dx: int, dy: int)
    requires Midpoint(r, px, py, f) && px < py && Midpoint(r, x, y, f')
    requires x == px + 1 && y == if f >= 0 then py - 1 else py
    ensures PlottedUpTo(r, color, x, y, dx, dy) <==>
              var was, eight := PlottedUpTo(r, color, px, py, dx, dy), Eight(color, x, y, dx, dy);
              if color == 2 then was != eight else was || eight
  {
    hide Nearest, Midpoint;
    MidpointOutline(r, px, py, f);
    MidpointOutline(r, x, y, f');
    var a, b := Min(Abs(dx), Abs(dy)), Max(Abs(dx), Abs(dy));
    assert Outline(r, dx, dy) <==> Nearest(r, a, b);
    if x < y {
      if a == x && Nearest(r, a, b) {
        NearestUnique(r, x, b, y);
      }
    } else if Nearest(r, a, b) {
      OctantComplete(r, x, y, f', dx, dy);
      if x == y {
        JoinOnDiagonal(r, x, a, b);
        if a == x {
          NearestUnique(r, x, b, x);
        }
      } else {
        BesideDiagonal(r, x, y, f');
        JoinBeside(r, y, a, b);
        if a == y {
          NearestUnique(r, y, b, y + 1);
        }
      }
    }
  }

  lemma OutlineStart(r: int, dx: int, dy: int)
    requires 0 <= r
    ensures Outline(r, dx, dy) && Min(Abs(dx), Abs(dy)) == 0 <==> (dx == 0 && Abs(dy) == r) || (Abs(dx) == r && dy == 0)
    ensures r == 0 ==> (Outline(r, dx, dy) <==> dx == 0 && dy == 0)
  {
    var b := Max(Abs(dx), Abs(dy));
    if Outline(r, dx, dy) && Min(Abs(dx), Abs(dy)) == 0 {
      NearestUnique(r, 0, b, r);
    }
    if r == 0 && Outline(r, dx, dy) {
      OutlineWithin(r, dx, dy);
    }
  }

  /** The loop ends, from any of its states. */
  lemma {:induction false} LoopEnds(r: int, x0: int, y0: int, f0: int) returns (x: int, y: int, f: int)
    requires Midpoint(r, x0, y0, f0)
    ensures Midpoint(r, x, y, f) && y <= x
    decreases y0 - x0
  {
    if y0 <= x0 {
      return x0, y0, f0;
    }
    MidpointStep(r, x0, y0, f0);
    if f0 >= 0 {
      x, y, f := LoopEnds(r, x0 + 1, y0 - 1, f0 - 2 * (y0 - 1) + 2 * (x0 + 1) + 1);
    } else {
      x, y, f := LoopEnds(r, x0 + 1, y0, f0 + 2 * (x0 + 1) + 1);
    }
  }

  /** An outline drawn in inverse mode is complete for radius 1 only. */
  lemma InverseOutline(r: int)
    requires 0 <= r
    ensures (forall dx, dy :: Outline(r, dx, dy) ==> Plotted(r, 2, dx, dy)) <==> r == 1
  {
    if r == 1 {
      forall dx, dy | Outline(r, dx, dy) ensures !Join(r, dx, dy) {
        OutlineWithin(r, dx, dy);
      }
    } else {
      MidpointInit(r);
      var x, y, f := LoopEnds(r, 0, r, 1 - r);
      assert (y + 1) * (y + 1) == y * y + 2 * y + 1;
      assert Outline(r, x, y);
      assert Join(r, x, y) by {
        if x == y + 1 && y == 0 {
          SmallRadius(r);
        }
      }
    }
  }

  lemma SmallRadius(r: int)
    requires 0 <= r && Nearest(r, 0, 1)
    ensures r == 1
  {
    if r > 1 {
      SquareLe(2, r);
    }
  }

  // ---- the columns of the filled circle ----------------------------------------------------

  /** h is the topmost outline row of column i. */
  ghost predicate ColumnTop(r: int, i: int, h: int) {
    0 <= h && Outline(r, i, h) && forall k: nat :: Outline(r, i, k) ==> k <= h
  }

  /** The "x" columns: while x <= y, the loop's y is the top of column x. */
  lemma TopOfXColumn(r: int, x: int, y: int, f: int)
    requires Midpoint(r, x, y, f) && x <= y
    ensures ColumnTop(r, x, y)
  {
    NearestIsTop(r, x, y);
  }

  lemma NearestIsTop(r: int, x: int, y: int)
    requires 0 <= x <= y && Nearest(r, x, y)
    ensures ColumnTop(r, x, y)
  {
    forall k: nat | Outline(r, x, k) ensures k <= y {
      if k >= x {
        NearestUnique(r, x, y, k);
      }
    }
  }

  /** The "py" columns: when the loop is about to leave row y, the column y has its top at the old x. */
  lemma TopOfYColumn(r: int, x: int, y: int, f: int)
    requires Midpoint(r, x, y, f) && x < y && f >= 0
    ensures ColumnTop(r, y, x)
  {
    forall k: nat | Outline(r, y, k) ensures k <= x {
      if k > y {
        SquareStep(y, k);
        SquareStep(x, y);
      } else if k > x {
        if k > x + 1 {
          SquareStep(x + 1, k);
        }
      }
    }
  }

  /** Every column within the radius has an outline pixel, hence a top. */
  lemma ColumnHasTop(r: int, i: int) returns (h: int)
    requires 0 <= i <= r
    ensures ColumnTop(r, i, h)
  {
    var b := RoundedRoot(r * r - i * i) by { SquareLe(i, r); }
    if b >= i {
      NearestIsTop(r, i, b);
      return b;
    }
    SquareLe(i, r);
    assert i * i - i < r * r;
    var k := LargestBelow(r * r - i * i + i);
    SquareStep(b, i);
    if k * k < r * r - i * i - i {
      assert (k + 1) * (k + 1) == k * k + 2 * k + 1;
      SquareLe(i, k);
    }
    if k > i { SquareStep(i, k); }
    forall m: nat | Outline(r, i, m) ensures m <= k {
      if m > k {
        SquareLe(k + 1, m);
        if m >= i { NearestUnique(r, i, m, b); }
      }
    }
    return k;
  }

  lemma SquareLe(a: int, b: int)
    requires 0 <= a <= b
    ensures a * a <= b * b
  {
    if a < b {
      SquareStep(a, b);
    }
  }

  lemma {:induction false} RoundedRoot(n: int) returns (b: int)
    requires 0 <= n
    ensures 0 <= b && n <= b * b + b && (b > 0 ==> b * b - b < n)
    decreases n
  {
    if n == 0 {
      return 0;
    }
    b := RoundedRoot(n - 1);
    if n > b * b + b {
      b := b + 1;
      assert b * b - b == (b - 1) * (b - 1) + (b - 1);
    }
  }

  lemma {:induction false} LargestBelow(n: int) returns (k: int)
    requires 0 < n
    ensures 0 <= k && k * k < n <= (k + 1) * (k + 1)
    decreases n
  {
    if n == 1 {
      return 0;
    }
    k := LargestBelow(n - 1);
    if n > (k + 1) * (k + 1) {
      k := k + 1;
      assert (k + 1) * (k + 1) == k * k + 2 * k + 1;
    }
  }

  /** The filled disc contains every lattice point of the true disc and stays within half a pixel of it. */
  lemma DiscIsRound(r: int, dx: int, dy: int)
    requires 0 <= r
    ensures dx * dx + dy * dy <= r * r ==> Disc(r, dx, dy)
    ensures Disc(r, dx, dy) ==> dx * dx + dy * dy <= r * r + r
  {
    var i, j := Abs(dx), Abs(dy);
    assert dx * dx == i * i && dy * dy == j * j;
    if i * i + j * j <= r * r {
      if i > r { SquareStep(r, i); }
      var h := ColumnHasTop(r, i);
      assert Outline(r, dx, h);
      if j > h {
        AboveTheTop(r, i, h);
        SquareLe(h + 1, j);
      }
    }
    if Disc(r, dx, dy) {
      var k: nat :| Outline(r, dx, k) && j <= k;
      OutlineWithin(r, dx, k);
      SquareLe(j, k);
      assert i * i + k * k <= r * r + r;
    }
  }

  lemma AboveTheTop(r: int, i: int, h: int)
    requires 0 <= i <= r && ColumnTop(r, i, h)
    ensures i * i + (h + 1) * (h + 1) > r * r
  {
    assert (h + 1) * (h + 1) == h * h + 2 * h + 1;
    if h < i {
      assert !Outline(r, i, h + 1);
    }
  }

  /** The step shared by the circle loops; all five variables stay within 16 bits. */
  method Advance(ghost r: int, f0: int16, ddFx0: int16, ddFy0: int16, x0: int16, y0: int16)
    returns (f: int16, ddFx: int16, ddFy: int16, x: int16, y: int16)
    requires r <= 16383 && Midpoint(r, x0, y0, f0) && x0 < y0 && ddFx0 == 2 * x0 + 1 && ddFy0 == -2 * y0
    ensures Midpoint(r, x, y, f) && 0 <= y <= r && 0 <= x <= y + 1 && ddFx == 2 * x + 1 && ddFy == -2 * y
    ensures x == x0 + 1 && y == if f0 >= 0 then y0 - 1 else y0
  {
    f, ddFx, ddFy, x, y := f0, ddFx0, ddFy0, x0, y0;
    MidpointBounds(r, x, y, f);
    MidpointStep(r, x, y, f);
    if f >= 0 {
      y := y - 1;
      ddFy := ddFy + 2;
      f := f + ddFy;
    }
    x := x + 1;
    ddFx := ddFx + 2;
    MidpointBounds(r, x, y, f + ddFx);
    f := f + ddFx;
  }
}
