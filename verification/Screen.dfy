/** What drawing means, independent of how a framebuffer packs its bits: rotation of
    coordinates, the three drawing modes, and the relation "exactly this region was painted". */
module Screen {
  import opened Bytes

  /** The panel's unrotated size and the rotation in force (0 to 3). */
  datatype Geometry = Geometry(WIDTH: int, HEIGHT: int, rotation: int) {
    predicate Valid() {
      0 <= WIDTH <= 0x7FFF && 0 <= HEIGHT <= 0x7FFF && 0 <= rotation < 4
    }

    function Width(): int {
      if rotation == 0 || rotation == 2 then WIDTH else HEIGHT
    }

    function Height(): int {
      if rotation == 0 || rotation == 2 then HEIGHT else WIDTH
    }

    predicate OnScreen(x: int, y: int) {
      0 <= x < Width() && 0 <= y < Height()
    }

    predicate OnPanel(c: int, r: int) {
      0 <= c < WIDTH && 0 <= r < HEIGHT
    }

    function RawX(x: int, y: int): int {
      if rotation == 0 then x else if rotation == 1 then WIDTH - 1 - y
      else if rotation == 2 then WIDTH - 1 - x else y
    }

    function RawY(x: int, y: int): int {
      if rotation == 0 then y else if rotation == 1 then x
      else if rotation == 2 then HEIGHT - 1 - y else HEIGHT - 1 - x
    }

    function UserX(c: int, r: int): int {
      if rotation == 0 then c else if rotation == 1 then r
      else if rotation == 2 then WIDTH - 1 - c else HEIGHT - 1 - r
    }

    function UserY(c: int, r: int): int {
      if rotation == 0 then r else if rotation == 1 then WIDTH - 1 - c
      else if rotation == 2 then HEIGHT - 1 - r else c
    }

    /** The rotated coordinates of a point are representable, so rewriting x and y in place is exact. */
    predicate Fits(x: int, y: int) {
      Fits16(x) && Fits16(y) && Fits16(RawX(x, y)) && Fits16(RawY(x, y))
    }
  }

  /** Rotating is a bijection of the plane that maps the visible rectangle onto the panel. */
  lemma RotationBijective(g: Geometry, x: int, y: int, c: int, r: int)
    requires g.Valid()
    ensures g.RawX(x, y) == c && g.RawY(x, y) == r <==> g.UserX(c, r) == x && g.UserY(c, r) == y
    ensures g.OnScreen(x, y) <==> g.OnPanel(g.RawX(x, y), g.RawY(x, y))
  {
  }

  /** Rotation r turns the screen by r quarters clockwise: its origin is in the r-th corner, counted from the top
      left, and its axes are turned as often. */
  lemma RotationTurns(g: Geometry, x: int, y: int)
    requires g.Valid()
    ensures (g.RawX(0, 0), g.RawY(0, 0)) ==
              [(0, 0), (g.WIDTH - 1, 0), (g.WIDTH - 1, g.HEIGHT - 1), (0, g.HEIGHT - 1)][g.rotation]
    ensures (g.RawX(x + 1, y) - g.RawX(x, y), g.RawY(x + 1, y) - g.RawY(x, y)) ==
              [(1, 0), (0, 1), (-1, 0), (0, -1)][g.rotation]
    ensures (g.RawX(x, y + 1) - g.RawX(x, y), g.RawY(x, y + 1) - g.RawY(x, y)) ==
              [(0, 1), (-1, 0), (0, -1), (1, 0)][g.rotation]
  {
  }

  const BLACK := 0
  const WHITE := 1
  const INVERSE := 2

  /** What painting once does to a pixel; an unknown colour does nothing. */
  function Apply(color: int, b: bool): bool {
    if color == WHITE then true else if color == BLACK then false
    else if color == INVERSE then !b else b
  }

  /** The colours by number. */
  lemma ColourNumbers(b: bool)
    ensures Apply(0, b) == false && Apply(1, b) == true && Apply(2, b) == !b
  {
  }

  /** The stored pixels of a panel, indexed by raw column and row; false outside the buffer. */
  type Image = (int, int) -> bool
  type Region = (int, int) -> bool

  /** `after` is `before` with every point of R painted exactly once and nothing else changed. */
  ghost predicate PaintedRaw(before: Image, after: Image, color: int, R: Region) {
    forall c, r :: after(c, r) == if R(c, r) then Apply(color, before(c, r)) else before(c, r)
  }

  /** A region of screen coordinates, seen on the panel and clipped to it. */
  ghost function OnRaw(g: Geometry, R: Region): Region {
    (c: int, r: int) => g.OnPanel(c, r) && R(g.UserX(c, r), g.UserY(c, r))
  }

  /** The same relation for a region given in (rotated) screen coordinates, clipped to the screen. */
  ghost predicate Painted(g: Geometry, before: Image, after: Image, color: int, R: Region) {
    PaintedRaw(before, after, color, OnRaw(g, R))
  }

  /** Painting two regions without a common point, one after the other, paints their union once. */
  lemma PaintBoth(a: Image, b: Image, c: Image, color: int, R: Region, S: Region, U: Region)
    requires PaintedRaw(a, b, color, R) && PaintedRaw(b, c, color, S)
    requires forall x, y :: U(x, y) <==> R(x, y) || S(x, y)
    requires forall x, y :: !(R(x, y) && S(x, y))
    ensures PaintedRaw(a, c, color, U)
  {
  }

  lemma PaintBothOnScreen(g: Geometry, a: Image, b: Image, c: Image, color: int, R: Region, S: Region, U: Region)
    requires Painted(g, a, b, color, R) && Painted(g, b, c, color, S)
    requires forall x, y :: U(x, y) <==> R(x, y) || S(x, y)
    requires forall x, y :: !(R(x, y) && S(x, y))
    ensures Painted(g, a, c, color, U)
  {
    PaintBoth(a, b, c, color, OnRaw(g, R), OnRaw(g, S), OnRaw(g, U));
  }

  /** Painting twice in general: black and white paint the union, inverse the symmetric difference. */
  predicate Merged(color: int, first: bool, second: bool) {
    if color == INVERSE then first != second else first || second
  }

  lemma PaintAgain(g: Geometry, a: Image, b: Image, c: Image, color: int, R: Region, S: Region, U: Region)
    requires 0 <= color <= INVERSE && Painted(g, a, b, color, R) && Painted(g, b, c, color, S)
    requires forall x, y :: U(x, y) <==> Merged(color, R(x, y), S(x, y))
    ensures Painted(g, a, c, color, U)
  {
  }

  /** Flipping the same region twice restores the image. */
  lemma InverseTwice(a: Image, b: Image, c: Image, R: Region)
    requires PaintedRaw(a, b, INVERSE, R) && PaintedRaw(b, c, INVERSE, R)
    ensures forall x, y :: c(x, y) == a(x, y)
  {
  }

  ghost function Box(x: int, y: int, w: int, h: int): Region {
    (a: int, b: int) => x <= a < x + w && y <= b < y + h
  }

  lemma SameRegion(a: Image, b: Image, color: int, R: Region, S: Region)
    requires PaintedRaw(a, b, color, R)
    requires forall x, y :: R(x, y) <==> S(x, y)
    ensures PaintedRaw(a, b, color, S)
  {
  }

  lemma SameOnScreen(g: Geometry, a: Image, b: Image, color: int, R: Region, S: Region)
    requires Painted(g, a, b, color, R)
    requires forall x, y :: R(x, y) <==> S(x, y)
    ensures Painted(g, a, b, color, S)
  {
    SameRegion(a, b, color, OnRaw(g, R), OnRaw(g, S));
  }

  lemma EmptyOnScreen(g: Geometry, a: Image, color: int, R: Region)
    requires forall x, y :: !R(x, y)
    ensures Painted(g, a, a, color, R)
  {
  }

  datatype Rect = Rect(x: int, y: int, w: int, h: int)

  /** The rectangle of panel cells that a rectangle of screen points occupies. */
  ghost function Rotated(g: Geometry, x: int, y: int, w: int, h: int): Rect {
    match g.rotation
    case 0 => Rect(x, y, w, h)
    case 1 => Rect(g.WIDTH - y - h, x, h, w)
    case 2 => Rect(g.WIDTH - x - w, g.HEIGHT - y - h, w, h)
    case _ => Rect(y, g.HEIGHT - x - w, h, w)
  }

  /** What a fast line needs of its coordinates: the turned line starts in the 16-bit range, and so does what
      clipping its first end leaves of its length. Across the line, where it is one cell wide, a coordinate that
      wraps is off the panel before and after. */
  ghost predicate LineFits(g: Geometry, x: int, y: int, w: int, h: int) {
    var q := Rotated(g, x, y, w, h);
    && (Fits16(q.x) || q.w == 1) && (Fits16(q.y) || q.h == 1)
    && (q.x < 0 ==> -0x8000 <= q.x + q.w) && (q.y < 0 ==> -0x8000 <= q.y + q.h)
  }

  /** Painting a rectangle of panel cells, clipped, paints the rectangle of screen points, clipped. */
  lemma PaintRotated(g: Geometry, before: Image, after: Image, color: int, x: int, y: int, w: int, h: int, q: Rect)
    requires g.Valid() && q == Rotated(g, x, y, w, h)
    requires Painted(g.(rotation := 0), before, after, color, Box(q.x, q.y, q.w, q.h))
    ensures Painted(g, before, after, color, Box(x, y, w, h))
  {
    forall c, r
      ensures OnRaw(g.(rotation := 0), Box(q.x, q.y, q.w, q.h))(c, r) <==> OnRaw(g, Box(x, y, w, h))(c, r)
    {
      assert g.(rotation := 0).UserX(c, r) == c && g.(rotation := 0).UserY(c, r) == r;
      assert Box(q.x, q.y, q.w, q.h)(c, r) <==> Box(x, y, w, h)(g.UserX(c, r), g.UserY(c, r));
    }
    SameRegion(before, after, color, OnRaw(g.(rotation := 0), Box(q.x, q.y, q.w, q.h)), OnRaw(g, Box(x, y, w, h)));
  }

  lemma PaintNothing(g: Geometry, image: Image, color: int, x: int, y: int, w: int, h: int)
    requires g.Valid()
    requires forall a, b :: !(g.OnScreen(a, b) && Box(x, y, w, h)(a, b))
    ensures Painted(g, image, image, color, Box(x, y, w, h))
  {
    forall c, r ensures !OnRaw(g, Box(x, y, w, h))(c, r) {
      var a, b := g.UserX(c, r), g.UserY(c, r);
      RotationBijective(g, a, b, c, r);
      assert !(g.OnScreen(a, b) && Box(x, y, w, h)(a, b));
    }
  }

  /** A rectangle on an unrotated panel, clipped by hand, is the rectangle asked for. */
  lemma ClippedBox(g: Geometry, was: Image, now: Image, color: int, x0: int, y0: int, w0: int, h0: int,
                   x: int, y: int, w: int, h: int)
    requires g.Valid() && g.rotation == 0 && PaintedRaw(was, now, color, Box(x, y, w, h))
    requires x == if x0 < 0 then 0 else x0
    requires y == if y0 < 0 then 0 else y0
    requires x + w == if x0 + w0 > g.WIDTH then g.WIDTH else x0 + w0
    requires y + h == if y0 + h0 > g.HEIGHT then g.HEIGHT else y0 + h0
    ensures Painted(g, was, now, color, Box(x0, y0, w0, h0))
  {
    forall c, r ensures Box(x, y, w, h)(c, r) <==> OnRaw(g, Box(x0, y0, w0, h0))(c, r) {
      assert Box(x0, y0, w0, h0)(g.UserX(c, r), g.UserY(c, r)) <==> Box(x0, y0, w0, h0)(c, r);
    }
    SameRegion(was, now, color, Box(x, y, w, h), OnRaw(g, Box(x0, y0, w0, h0)));
  }

  // ---- pixel by pixel ----------------------------------------------------------------------

  ghost predicate Distinct(pts: seq<(int, int)>) {
    forall i, j :: 0 <= i < j < |pts| ==> pts[i] != pts[j]
  }

  ghost function PointsOf(pts: seq<(int, int)>): Region {
    (x: int, y: int) => (x, y) in pts
  }

  ghost function HPoints(x: int, y: int, w: int): (pts: seq<(int, int)>)
    ensures Distinct(pts) && forall a, b :: (a, b) in pts <==> Box(x, y, w, 1)(a, b)
  {
    var pts := seq(if w > 0 then w else 0, i => (x + i, y));
    assert forall a, b :: Box(x, y, w, 1)(a, b) ==> pts[a - x] == (a, b);
    pts
  }

  ghost function VPoints(x: int, y: int, h: int): (pts: seq<(int, int)>)
    ensures Distinct(pts) && forall a, b :: (a, b) in pts <==> Box(x, y, 1, h)(a, b)
  {
    var pts := seq(if h > 0 then h else 0, i => (x, y + i));
    assert forall a, b :: Box(x, y, 1, h)(a, b) ==> pts[b - y] == (a, b);
    pts
  }

  /** A run of drawPixel calls, one image after each call: over distinct points, it paints exactly them. */
  lemma {:induction false} PixelRun(g: Geometry, images: seq<Image>, pts: seq<(int, int)>, color: int)
    requires |images| == |pts| + 1 && Distinct(pts)
    requires forall i :: 0 <= i < |pts| ==> Painted(g, images[i], images[i + 1], color, Box(pts[i].0, pts[i].1, 1, 1))
    ensures Painted(g, images[0], images[|pts|], color, PointsOf(pts))
  {
    hide Painted;
    if pts == [] {
      EmptyOnScreen(g, images[0], color, PointsOf(pts));
    } else {
      var n := |pts| - 1;
      var front, p := pts[..n], pts[n];
      PixelRun(g, images[..n + 1], front, color);
      assert pts == front + [p] && p !in front;
      PaintBothOnScreen(g, images[0], images[n], images[n + 1], color, PointsOf(front), Box(p.0, p.1, 1, 1),
                        PointsOf(pts));
    }
  }

  /** A line or shape that paints a region leaves the image that drawing its pixels one by one leaves. */
  lemma PaintedIsPixelRun(g: Geometry, now: Image, R: Region, images: seq<Image>, pts: seq<(int, int)>, color: int)
    requires g.Valid() && |images| == |pts| + 1 && Distinct(pts)
    requires forall i :: 0 <= i < |pts| ==> Painted(g, images[i], images[i + 1], color, Box(pts[i].0, pts[i].1, 1, 1))
    requires Painted(g, images[0], now, color, R)
    requires forall x, y :: g.OnScreen(x, y) ==> (R(x, y) <==> (x, y) in pts)
    ensures forall c, r :: now(c, r) == images[|pts|](c, r)
  {
    PixelRun(g, images, pts, color);
    forall c, r ensures OnRaw(g, R)(c, r) <==> OnRaw(g, PointsOf(pts))(c, r) {
      var x, y := g.UserX(c, r), g.UserY(c, r);
      RotationBijective(g, x, y, c, r);
      assert g.OnScreen(x, y) ==> (R(x, y) <==> (x, y) in pts);
    }
  }

  // ---- pictures in several colours ---------------------------------------------------------

  /** `after` is `before` with every visible point (x, y) of R painted once, in its own colour. */
  ghost predicate Pictured(g: Geometry, before: Image, after: Image, R: Region, colour: (int, int) -> int) {
    forall c, r :: after(c, r) == if OnRaw(g, R)(c, r) then Apply(colour(g.UserX(c, r), g.UserY(c, r)), before(c, r))
                                  else before(c, r)
  }

  /** A region painted in one colour joins the picture where that is its points' colour. */
  lemma PictureBox(g: Geometry, a: Image, b: Image, c: Image, R: Region, S: Region, U: Region,
                   colour: (int, int) -> int, v: int)
    requires Pictured(g, a, b, R, colour) && Painted(g, b, c, v, S)
    requires forall x, y :: (U(x, y) <==> R(x, y) || S(x, y)) && !(R(x, y) && S(x, y))
    requires forall x, y :: S(x, y) ==> colour(x, y) == v
    ensures Pictured(g, a, c, U, colour)
  {
  }

  /** Two pictures of regions without a common point. */
  lemma PictureBoth(g: Geometry, a: Image, b: Image, c: Image, R: Region, S: Region, U: Region,
                    colour: (int, int) -> int)
    requires Pictured(g, a, b, R, colour) && Pictured(g, b, c, S, colour)
    requires forall x, y :: (U(x, y) <==> R(x, y) || S(x, y)) && !(R(x, y) && S(x, y))
    ensures Pictured(g, a, c, U, colour)
  {
  }

  lemma SameColours(g: Geometry, a: Image, b: Image, R: Region, colour: (int, int) -> int, other: (int, int) -> int)
    requires Pictured(g, a, b, R, colour) && forall x, y :: R(x, y) ==> colour(x, y) == other(x, y)
    ensures Pictured(g, a, b, R, other)
  {
  }

  lemma SamePicture(g: Geometry, a: Image, b: Image, R: Region, S: Region, colour: (int, int) -> int)
    requires Pictured(g, a, b, R, colour) && forall x, y :: R(x, y) <==> S(x, y)
    ensures Pictured(g, a, b, S, colour)
  {
  }

  lemma EmptyPicture(g: Geometry, a: Image, R: Region, colour: (int, int) -> int)
    requires forall x, y :: !R(x, y)
    ensures Pictured(g, a, a, R, colour)
  {
  }
}
