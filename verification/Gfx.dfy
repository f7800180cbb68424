/** The shape rasterisers of the base graphics class, drawing on the SSD1306: the virtual calls
    writeFastVLine, writeFastHLine and writePixel resolve to that display's methods. */
module Gfx {
  import opened Bytes
  import opened Screen
  import opened Circle
  import opened Line
  import opened Triangle
  import Ssd1306

  type Display = Ssd1306.Ssd1306

  /** All coordinates of the rectangle with these opposite corners survive rotation in 16 bits. */
  ghost predicate Fits(g: Geometry, x0: int, y0: int, x1: int, y1: int) {
    g.Fits(x0, y0) && g.Fits(x1, y1)
  }

  lemma RunFits(g: Geometry, x0: int, y0: int, x1: int, y1: int, x: int, y: int, h: int)
    requires Fits(g, x0, y0, x1, y1) && x0 <= x <= x1 && y0 <= y <= y1 && y0 <= y + h - 1 <= y1
    ensures LineFits(g, x, y, 1, h) && Fits16(x) && Fits16(y)
  {
  }

  lemma CornersFit(g: Geometry, x0: int, y0: int, x1: int, y1: int, x: int)
    requires Fits(g, x0, y0, x1, y1) && x0 <= x <= x1
    ensures Fits(g, x0, y0, x, y1) && Fits(g, x, y0, x1, y1)
  {
  }

  // ---- filled circles ----------------------------------------------------------------------

  /** Which side of the centre fillCircleHelper works on: bit 0 the right one, bit 1 the left one. */
  datatype Sides = Sides(right: bool, left: bool)

  function SidesOf(corners: uint8): Sides {
    Sides(corners % 2 == 1, corners / 2 % 2 == 1)
  }

  /** Columns 1..r on the chosen sides of the centre, each the hull of its outline pixels, stretched
      downwards by delta. */
  ghost predicate InSides(r: int, s: Sides, delta: int, dx: int, dy: int) {
    && (if dx > 0 then s.right else s.left)
    && 1 <= Abs(dx) <= r
    && exists k :: 0 <= k && Outline(r, Abs(dx), k) && -k <= dy <= k + delta
  }

  ghost function SidesAt(x0: int, y0: int, r: int, s: Sides, delta: int): Region {
    (px: int, py: int) => InSides(r, s, delta, px - x0, py - y0)
  }

  /** The columns finished when the loop stands at (x, y): the "x" columns and the "py" columns. */
  predicate ColumnDone(x: int, y: int, i: int) {
    (i <= x && i <= y) || y < i
  }

  ghost function Done(x0: int, y0: int, r: int, s: Sides, delta: int, x: int, y: int): Region {
    (px: int, py: int) => ColumnDone(x, y, Abs(px - x0)) && InSides(r, s, delta, px - x0, py - y0)
  }

  ghost function OneColumn(x0: int, y0: int, r: int, s: Sides, delta: int, i: int): Region {
    (px: int, py: int) => Abs(px - x0) == i && InSides(r, s, delta, px - x0, py - y0)
  }

  /** A run of rows around the centre in column x; empty unless selected. */
  ghost function Run(on: bool, x: int, y0: int, h: int, delta: int): Region {
    (px: int, py: int) => on && Box(x, y0 - h, 1, 2 * h + delta)(px, py)
  }

  lemma ColumnRuns(x0: int, y0: int, r: int, s: Sides, delta: int, i: int, h: int, px: int, py: int)
    requires 1 <= i <= r && ColumnTop(r, i, h) && delta >= -1
    ensures OneColumn(x0, y0, r, s, delta, i)(px, py) <==>
              Run(s.right, x0 + i, y0, h, delta + 1)(px, py) || Run(s.left, x0 - i, y0, h, delta + 1)(px, py)
  {
    hide Outline;
    var dx, dy := px - x0, py - y0;
    assert InSides(r, s, delta, dx, dy) && Abs(dx) == i <==>
           (if dx > 0 then s.right else s.left) && Abs(dx) == i && -h <= dy <= h + delta;
  }

  lemma AddColumn(g: Geometry, was: Image, mid: Image, now: Image, color: int,
                  x0: int, y0: int, r: int, s: Sides, delta: int, x: int, y: int, i: int, x': int, y': int)
    requires Painted(g, was, mid, color, Done(x0, y0, r, s, delta, x, y))
    requires Painted(g, mid, now, color, OneColumn(x0, y0, r, s, delta, i))
    requires !ColumnDone(x, y, i)
    requires forall j: nat :: ColumnDone(x', y', j) <==> ColumnDone(x, y, j) || i == j
    ensures Painted(g, was, now, color, Done(x0, y0, r, s, delta, x', y'))
  {
    hide InSides, Painted;
    var R, S := Done(x0, y0, r, s, delta, x, y), OneColumn(x0, y0, r, s, delta, i);
    var U := Done(x0, y0, r, s, delta, x', y');
    forall px, py ensures U(px, py) <==> R(px, py) || S(px, py) {
      assert ColumnDone(x', y', Abs(px - x0)) <==> ColumnDone(x, y, Abs(px - x0)) || i == Abs(px - x0);
    }
    PaintBothOnScreen(g, was, mid, now, color, R, S, U);
  }

  lemma NothingDone(g: Geometry, was: Image, color: int, x0: int, y0: int, r: int, s: Sides, delta: int)
    ensures Painted(g, was, was, color, Done(x0, y0, r, s, delta, 0, r))
  {
    forall px, py ensures !Done(x0, y0, r, s, delta, 0, r)(px, py) {
      assert InSides(r, s, delta, px - x0, py - y0) ==> !ColumnDone(0, r, Abs(px - x0));
    }
    EmptyOnScreen(g, was, color, Done(x0, y0, r, s, delta, 0, r));
  }

  lemma AllDone(g: Geometry, was: Image, now: Image, color: int, x0: int, y0: int, r: int, s: Sides, delta: int,
                x: int, y: int)
    requires y <= x && Painted(g, was, now, color, Done(x0, y0, r, s, delta, x, y))
    ensures Painted(g, was, now, color, SidesAt(x0, y0, r, s, delta))
  {
    hide InSides, Painted;
    var R, S := Done(x0, y0, r, s, delta, x, y), SidesAt(x0, y0, r, s, delta);
    forall px, py ensures R(px, py) <==> S(px, py) {
      assert ColumnDone(x, y, Abs(px - x0));
    }
    SameOnScreen(g, was, now, color, R, S);
  }

  /** One column offset of fillCircleHelper: a vertical line on each selected side. */
  method FillColumns(d: Display, x0: int16, y0: int16, i: int16, h: int16, s: Sides, delta: int16, color: uint16,
                     ghost r: int, ghost stretch: int)
    requires d.Valid() && color <= INVERSE
    requires delta == stretch + 1 && stretch >= -1 && 1 <= i <= r && 0 <= h <= r && ColumnTop(r, i, h)
    requires Fits16(2 * r + delta)
    requires s.right ==> Fits(d.Geo(), x0, y0 - r, x0 + r, y0 + r + stretch)
    requires s.left ==> Fits(d.Geo(), x0 - r, y0 - r, x0, y0 + r + stretch)
    modifies d.buffer
    ensures Painted(d.Geo(), old(d.Pages()), d.Pages(), color, OneColumn(x0, y0, r, s, stretch, i))
  {
    hide ColumnTop, OneColumn, Painted, Fits, Geometry.Fits, LineFits, Ssd1306.EachPixel, Ssd1306.PageImage, VPoints;
    ghost var g, was := d.Geo(), d.Pages();
    if s.right {
      RunFits(g, x0, y0 - r, x0 + r, y0 + r + stretch, x0 + i, y0 - h, 2 * h + delta);
      d.DrawFastVLine(x0 + i, y0 - h, 2 * h + delta, color);
    }
    ghost var mid := d.Pages();
    if s.left {
      RunFits(g, x0 - r, y0 - r, x0, y0 + r + stretch, x0 - i, y0 - h, 2 * h + delta);
      d.DrawFastVLine(x0 - i, y0 - h, 2 * h + delta, color);
    }
    TwoRuns(g, was, mid, d.Pages(), color, x0, y0, r, s, stretch, i, h);
  }

  lemma TwoRuns(g: Geometry, was: Image, mid: Image, now: Image, color: int,
                x0: int, y0: int, r: int, s: Sides, delta: int, i: int, h: int)
    requires 1 <= i <= r && ColumnTop(r, i, h) && delta >= -1
    requires if s.right then Painted(g, was, mid, color, Box(x0 + i, y0 - h, 1, 2 * h + delta + 1)) else mid == was
    requires if s.left then Painted(g, mid, now, color, Box(x0 - i, y0 - h, 1, 2 * h + delta + 1)) else now == mid
    ensures Painted(g, was, now, color, OneColumn(x0, y0, r, s, delta, i))
  {
    hide ColumnTop, InSides, Painted;
    var R, S := Run(s.right, x0 + i, y0, h, delta + 1), Run(s.left, x0 - i, y0, h, delta + 1);
    if s.right {
      SameOnScreen(g, was, mid, color, Box(x0 + i, y0 - h, 1, 2 * h + delta + 1), R);
    } else {
      EmptyOnScreen(g, was, color, R);
    }
    if s.left {
      SameOnScreen(g, mid, now, color, Box(x0 - i, y0 - h, 1, 2 * h + delta + 1), S);
    } else {
      EmptyOnScreen(g, mid, color, S);
    }
    forall px, py ensures OneColumn(x0, y0, r, s, delta, i)(px, py) <==> R(px, py) || S(px, py) {
      ColumnRuns(x0, y0, r, s, delta, i, h, px, py);
    }
    PaintBothOnScreen(g, was, mid, now, color, R, S, OneColumn(x0, y0, r, s, delta, i));
  }

  method FillCircleHelper(d: Display, x0: int16, y0: int16, r: int16, corners: uint8, delta0: int16, color: uint16)
    requires d.Valid() && color <= INVERSE
    requires 0 <= r <= 16383 && delta0 >= -1 && Fits16(2 * r + delta0 + 1)
    requires r > 0 && SidesOf(corners).right ==> Fits(d.Geo(), x0, y0 - r, x0 + r, y0 + r + delta0)
    requires r > 0 && SidesOf(corners).left ==> Fits(d.Geo(), x0 - r, y0 - r, x0, y0 + r + delta0)
    modifies d.buffer
    ensures Painted(d.Geo(), old(d.Pages()), d.Pages(), color, SidesAt(x0, y0, r, SidesOf(corners), delta0))
  {
    hide Midpoint, ColumnTop, OneColumn, Painted, Fits;
    ghost var g, was := d.Geo(), d.Pages();
    MidpointInit(r);
    var s := SidesOf(corners);
    var f: int16, ddFx: int16, ddFy: int16 := 1 - r, 1, -2 * r;
    var x: int16, y: int16 := 0, r;
    var px, py := x, y;
    var delta: int16 := delta0 + 1;
    NothingDone(g, was, color, x0, y0, r, s, delta0);
    while x < y
      invariant Midpoint(r, x, y, f) && 0 <= y <= r && 0 <= x <= y + 1
      invariant ddFx == 2 * x + 1 && ddFy == -2 * y && px == x && py == y
      invariant Painted(g, was, d.Pages(), color, Done(x0, y0, r, s, delta0, x, y))
    {
      ghost var F, qx := f, px;
      f, ddFx, ddFy, x, y := Advance(r, f, ddFx, ddFy, x, y);
      if x < y + 1 {
        ghost var mid := d.Pages();
        TopOfXColumn(r, x, y, f);
        FillColumns(d, x0, y0, x, y, s, delta, color, r, delta0);
        AddColumn(g, was, mid, d.Pages(), color, x0, y0, r, s, delta0, px, py, x, x, py);
        qx := x;
      }
      if y != py {
        ghost var mid := d.Pages();
        TopOfYColumn(r, px, py, F);
        FillColumns(d, x0, y0, py, px, s, delta, color, r, delta0);
        AddColumn(g, was, mid, d.Pages(), color, x0, y0, r, s, delta0, qx, py, py, x, y);
        py := y;
      }
      px := x;
    }
    AllDone(g, was, d.Pages(), color, x0, y0, r, s, delta0, x, y);
  }

  ghost function DiscAt(x0: int, y0: int, r: int): Region {
    (px: int, py: int) => Disc(r, px - x0, py - y0)
  }

  /** The centre line and the two sides make up the disc, and do not overlap. */
  lemma DiscParts(x0: int, y0: int, r: int, px: int, py: int)
    requires 0 <= r
    ensures DiscAt(x0, y0, r)(px, py) <==>
              Box(x0, y0 - r, 1, 2 * r + 1)(px, py) || SidesAt(x0, y0, r, Sides(true, true), 0)(px, py)
    ensures !(Box(x0, y0 - r, 1, 2 * r + 1)(px, py) && SidesAt(x0, y0, r, Sides(true, true), 0)(px, py))
  {
    var dx, dy := px - x0, py - y0;
    if dx == 0 {
      NearestIsTop(r, 0, r);
      assert Outline(r, dx, r);
    }
    if Disc(r, dx, dy) {
      var k: nat :| Outline(r, dx, k) && Abs(dy) <= k;
      OutlineWithin(r, dx, k);
      assert Outline(r, Abs(dx), k);
    }
    if InSides(r, Sides(true, true), 0, dx, dy) {
      var k :| 0 <= k && Outline(r, Abs(dx), k) && -k <= dy <= k;
      assert Outline(r, dx, k);
    }
  }

  /** fillCircle paints the hull of the outline, each pixel exactly once, in every colour. */
  method FillCircle(d: Display, x0: int16, y0: int16, r: int16, color: uint16)
    requires d.Valid() && color <= INVERSE && 0 <= r <= 16383
    requires Fits(d.Geo(), x0 - r, y0 - r, x0 + r, y0 + r)
    modifies d.buffer
    ensures Painted(d.Geo(), old(d.Pages()), d.Pages(), color, DiscAt(x0, y0, r))
  {
    hide Painted, DiscAt, SidesAt, Fits, Geometry.Fits, LineFits, Ssd1306.EachPixel, Ssd1306.PageImage, VPoints;
    ghost var g, was := d.Geo(), d.Pages();
    RunFits(g, x0 - r, y0 - r, x0 + r, y0 + r, x0, y0 - r, 2 * r + 1);
    d.DrawFastVLine(x0, y0 - r, 2 * r + 1, color);
    ghost var mid := d.Pages();
    CornersFit(g, x0 - r, y0 - r, x0 + r, y0 + r, x0);
    FillCircleHelper(d, x0, y0, r, 3, 0, color);
    PaintDisc(g, was, mid, d.Pages(), color, x0, y0, r);
  }

  /** Filling the same circle a second time in inverse restores every byte of the buffer. */
  method FillCircleTwice(d: Display, x0: int16, y0: int16, r: int16)
    requires d.Valid() && 0 <= r <= 16383 && Fits(d.Geo(), x0 - r, y0 - r, x0 + r, y0 + r)
    modifies d.buffer
    ensures d.buffer[..] == old(d.buffer[..])
  {
    hide Painted, DiscAt, Fits, Geometry.Fits, Ssd1306.PageImage;
    ghost var s := d.buffer[..];
    FillCircle(d, x0, y0, r, INVERSE);
    ghost var t := d.buffer[..];
    FillCircle(d, x0, y0, r, INVERSE);
    Ssd1306.SecondInverseRestores(d.Geo(), s, t, d.buffer[..], DiscAt(x0, y0, r));
  }

  lemma PaintDisc(g: Geometry, was: Image, mid: Image, now: Image, color: int, x0: int, y0: int, r: int)
    requires 0 <= r
    requires Painted(g, was, mid, color, Box(x0, y0 - r, 1, 2 * r + 1))
    requires Painted(g, mid, now, color, SidesAt(x0, y0, r, Sides(true, true), 0))
    ensures Painted(g, was, now, color, DiscAt(x0, y0, r))
  {
    hide Painted, Disc, Outline;
    var R, S := Box(x0, y0 - r, 1, 2 * r + 1), SidesAt(x0, y0, r, Sides(true, true), 0);
    forall px, py ensures (DiscAt(x0, y0, r)(px, py) <==> R(px, py) || S(px, py)) && !(R(px, py) && S(px, py)) {
      DiscParts(x0, y0, r, px, py);
    }
    PaintBothOnScreen(g, was, mid, now, color, R, S, DiscAt(x0, y0, r));
  }

  // ---- rectangles --------------------------------------------------------------------------

  /** The columns of a rectangle are lines that fit, and the column counter does not wrap. */
  ghost predicate RectFits(g: Geometry, x: int, y: int, w: int, h: int) {
    Fits16(x + w) && LineFits(g, x, y, 1, h) && LineFits(g, x + w - 1, y, 1, h)
  }

  /** The column loop of fillRect ends exactly when the rectangle does not reach column 32767. */
  lemma ColumnsLeave(x: int16, w: int16)
    requires 0 < w
    ensures (exists n :: Line.Counter(x, n) >= x + w) <==> x + w <= 0x7FFF
  {
    if x + w <= 0x7FFF {
      Line.Counts(x, w);
      assert Line.Counter(x, w) >= x + w;
    }
  }

  /** For example, a rectangle of 32767 columns from column 1 on is never finished. */
  lemma EndlessRect()
    ensures !exists n :: Line.Counter(1, n) >= 1 + 32767
  {
    ColumnsLeave(1, 32767);
  }

  lemma ColumnFits(g: Geometry, x: int, y: int, w: int, h: int, i: int)
    requires RectFits(g, x, y, w, h) && x <= i < x + w
    ensures LineFits(g, i, y, 1, h)
  {
  }

  /** What the display makes of a colour in vertical runs of h rows from y on: one that it does not know whitens
      the whole pages of each run and leaves its other pixels alone. */
  ghost function Ink(g: Geometry, color: int, y: int, h: int): (int, int) -> int {
    (px: int, py: int) =>
      if color > INVERSE && Ssd1306.StrayPages(g, Rotated(g, px, y, 1, h))(g.RawX(px, py), g.RawY(px, py)) then WHITE
      else color
  }

  /** One vertical run in any colour. */
  lemma InkRun(g: Geometry, was: Image, now: Image, color: int, x: int, y: int, h: int)
    requires g.Valid() && 0 <= color
    requires color <= INVERSE ==> Painted(g, was, now, color, Box(x, y, 1, h))
    requires color > INVERSE ==> PaintedRaw(was, now, WHITE, Ssd1306.StrayPages(g, Rotated(g, x, y, 1, h)))
    ensures Pictured(g, was, now, Box(x, y, 1, h), Ink(g, color, y, h))
  {
    if color > INVERSE {
      forall c, r ensures Ssd1306.StrayPages(g, Rotated(g, x, y, 1, h))(c, r) ==> OnRaw(g, Box(x, y, 1, h))(c, r) {
        StrayInside(g, x, y, h, c, r);
      }
      forall c, r ensures g.RawX(g.UserX(c, r), g.UserY(c, r)) == c && g.RawY(g.UserX(c, r), g.UserY(c, r)) == r {
        RotationBijective(g, g.UserX(c, r), g.UserY(c, r), c, r);
      }
    }
  }

  lemma StrayInside(g: Geometry, x: int, y: int, h: int, c: int, r: int)
    requires g.Valid()
    ensures Ssd1306.StrayPages(g, Rotated(g, x, y, 1, h))(c, r) ==> OnRaw(g, Box(x, y, 1, h))(c, r)
  {
    var q := Rotated(g, x, y, 1, h);
    if Ssd1306.StrayPages(g, q)(c, r) {
      assert c == q.x && q.w == 1 && q.y <= r < q.y + q.h && q.y + 8 <= q.y + q.h;
      assert Box(x, y, 1, h)(g.UserX(c, r), g.UserY(c, r));
    }
  }

  /** A single pixel in any colour. */
  lemma InkDot(g: Geometry, was: Image, now: Image, color: int, x: int, y: int)
    requires g.Valid() && Painted(g, was, now, color, Box(x, y, 1, 1))
    ensures Pictured(g, was, now, Box(x, y, 1, 1), Ink(g, color, y, 1))
  {
    forall px, py ensures Ink(g, color, y, 1)(px, py) == color {
      StrayInside(g, px, y, 1, g.RawX(px, py), g.RawY(px, py));
    }
  }

  /** Runs without a whole page show nothing of an unknown colour: short ones, and those turned on their side. */
  lemma InkUnseen(g: Geometry, color: int, y: int, h: int, px: int, py: int)
    requires h < 8 || g.rotation == 1 || g.rotation == 3
    ensures Ink(g, color, y, h)(px, py) == color
  {
    var q := Rotated(g, px, y, 1, h);
    assert q.w == 1 ==> q.h < 8;
    assert Ssd1306.ClipTop(q.y) >= q.y && Ssd1306.ClipBottom(g.HEIGHT, q.y + q.h) <= q.y + q.h;
    assert forall c, r :: !Ssd1306.StrayPages(g, q)(c, r);
  }

  /** In a colour that the display knows the ink is that colour. */
  lemma InkKnown(g: Geometry, was: Image, now: Image, color: int, R: Region, y: int, h: int)
    requires color <= INVERSE && Pictured(g, was, now, R, Ink(g, color, y, h))
    ensures Painted(g, was, now, color, R)
  {
  }

  /** The base class's fillRect: one vertical line per column. */
  method FillRect(d: Display, x: int16, y: int16, w: int16, h: int16, color: uint16)
    requires d.Valid() && (w > 0 ==> RectFits(d.Geo(), x, y, w, h))
    modifies d.buffer
    ensures color <= INVERSE ==> Painted(d.Geo(), old(d.Pages()), d.Pages(), color, Box(x, y, w, h))
    ensures Pictured(d.Geo(), old(d.Pages()), d.Pages(), Box(x, y, w, h), Ink(d.Geo(), color, y, h))
  {
    hide Painted, PaintedRaw, Pictured, Ink, Ssd1306.StrayPages, LineFits;
    ghost var g, was, ink := d.Geo(), d.Pages(), Ink(d.Geo(), color, y, h);
    var i: int16 := x;
    EmptyPicture(g, was, Box(x, y, 0, h), ink);
    while i < x + w
      invariant x <= i && (i <= x + w || i == x)
      invariant Pictured(g, was, d.Pages(), Box(x, y, i - x, h), ink)
    {
      ghost var mid := d.Pages();
      ColumnFits(g, x, y, w, h, i);
      d.DrawFastVLine(i, y, h, color);
      InkRun(g, mid, d.Pages(), color, i, y, h);
      PictureBoth(g, was, mid, d.Pages(), Box(x, y, i - x, h), Box(i, y, 1, h), Box(x, y, i + 1 - x, h), ink);
      i := i + 1;
    }
    SamePicture(g, was, d.Pages(), Box(x, y, i - x, h), Box(x, y, w, h), ink);
    if color <= INVERSE {
      InkKnown(g, was, d.Pages(), color, Box(x, y, w, h), y, h);
    }
  }

  function MinorRadius(w: int, h: int, r: int): int {
    var m := (if w < h then w else h) / 2;
    if r > m then m else r
  }

  /** The radius drawn is the largest up to the one asked for whose corners fit the rectangle. */
  lemma LargestRadius(w: int, h: int, r: int, m: int)
    requires 0 <= w && 0 <= h
    ensures m <= MinorRadius(w, h, r) <==> m <= r && 2 * m <= w && 2 * m <= h
  {
  }

  /** A rectangle whose corners are quarter discs of radius r. */
  ghost function RoundRectAt(x: int, y: int, w: int, h: int, r: int): Region {
    (px: int, py: int) =>
      || Box(x + r, y, w - 2 * r, h)(px, py)
      || InSides(r, Sides(true, false), h - 2 * r - 1, px - (x + w - r - 1), py - (y + r))
      || InSides(r, Sides(false, true), h - 2 * r - 1, px - (x + r), py - (y + r))
  }

  /** fillRoundRect: middle rectangle and the two sides have no pixel in common. */
  method FillRoundRect(d: Display, x: int16, y: int16, w: int16, h: int16, r0: int16, color: uint16)
    requires d.Valid() && color <= INVERSE && 0 <= w && 0 <= h && 0 <= r0
    requires w > 0 ==> Fits16(x + w - MinorRadius(w, h, r0)) && Fits(d.Geo(), x, y, x + w - 1, y + h - 1)
    modifies d.buffer
    ensures Painted(d.Geo(), old(d.Pages()), d.Pages(), color, RoundRectAt(x, y, w, h, MinorRadius(w, h, r0)))
    ensures 2 * r0 <= w && 2 * r0 <= h ==>
              Painted(d.Geo(), old(d.Pages()), d.Pages(), color, RoundRectAt(x, y, w, h, r0))
  {
    hide Painted, InSides, RoundRectAt, SidesAt, Box, Geometry.Fits, LineFits;
    ghost var g, was := d.Geo(), d.Pages();
    var r := r0;
    var maxRadius: int16 := (if w < h then w else h) / 2;
    if r > maxRadius {
      r := maxRadius;
    }
    LargestRadius(w, h, r0, r0);
    if w > 0 {
      MiddleFits(g, x, y, w, h, r);
    }
    FillRect(d, x + r, y, w - 2 * r, h, color);
    ghost var mid := d.Pages();
    FillCircleHelper(d, Wrap16(x + w - r - 1), y + r, r, 1, h - 2 * r - 1, color);
    if r == 0 {
      EmptySides(g, mid, d.Pages(), color, Wrap16(x + w - r - 1), x + w - r - 1, y + r, Sides(true, false), h - 1);
    }
    ghost var mid2 := d.Pages();
    FillCircleHelper(d, x + r, y + r, r, 2, h - 2 * r - 1, color);
    PaintRoundRect(g, was, mid, mid2, d.Pages(), color, x, y, w, h, r);
  }

  /** The middle rectangle and the two sides stay within the rectangle. */
  lemma MiddleFits(g: Geometry, x: int, y: int, w: int, h: int, r: int)
    requires 0 < w && 0 <= h && 0 <= r && 2 * r <= w && 2 * r <= h
    requires Fits16(x + w - r) && Fits(g, x, y, x + w - 1, y + h - 1)
    ensures w - 2 * r > 0 ==> RectFits(g, x + r, y, w - 2 * r, h)
    ensures r > 0 ==> Fits(g, x + w - r - 1, y, x + w - 1, y + h - 1) && Fits(g, x, y, x + r, y + h - 1)
    ensures Fits16(x + r) && Fits16(y + r) && Fits16(x + w - r - 1)
  {
    hide LineFits, Geometry.Fits;
    if h > 0 {
      BoxFits(g, x, y, x + w - 1, y + h - 1, x, y, x + r, y + h - 1);
      BoxFits(g, x, y, x + w - 1, y + h - 1, x + w - r - 1, y, x + w - 1, y + h - 1);
      if w - 2 * r > 0 {
        BoxFits(g, x, y, x + w - 1, y + h - 1, x + r, y, x + w - r - 1, y + h - 1);
      }
    } else {
      FlatFits(g, x, y, w);
    }
  }

  lemma FlatFits(g: Geometry, x: int, y: int, w: int)
    requires 0 < w && Fits(g, x, y, x + w - 1, y - 1)
    ensures Fits16(x) && Fits16(y) && Fits16(x + w - 1)
    ensures LineFits(g, x, y, 1, 0) && LineFits(g, x + w - 1, y, 1, 0)
  {
  }

  /** Sides of radius 0 are empty, wherever they stand. */
  lemma EmptySides(g: Geometry, a: Image, b: Image, color: int, x: int, x': int, y: int, s: Sides, delta: int)
    requires Painted(g, a, b, color, SidesAt(x, y, 0, s, delta))
    ensures Painted(g, a, b, color, SidesAt(x', y, 0, s, delta))
  {
    hide Painted, Outline;
    forall dx, dy ensures !InSides(0, s, delta, dx, dy) {
    }
    SameOnScreen(g, a, b, color, SidesAt(x, y, 0, s, delta), SidesAt(x', y, 0, s, delta));
  }

  /** Coordinates inside a rectangle that fits. */
  lemma BoxFits(g: Geometry, x0: int, y0: int, x1: int, y1: int, a0: int, b0: int, a1: int, b1: int)
    requires Fits(g, x0, y0, x1, y1)
    requires x0 <= a0 <= a1 <= x1 && y0 <= b0 <= b1 <= y1
    ensures Fits(g, a0, b0, a1, b1) && Fits16(a0) && Fits16(b0) && Fits16(a1) && Fits16(b1)
    ensures LineFits(g, a0, b0, a1 - a0 + 1, 1)
    ensures LineFits(g, a0, b0, 1, b1 - b0 + 1) && LineFits(g, a1, b0, 1, b1 - b0 + 1)
  {
    hide LineFits;
    RowInside(g, x0, y0, x1, y1, a0, b0, a1);
    RunFits(g, x0, y0, x1, y1, a0, b0, b1 - b0 + 1);
    RunFits(g, x0, y0, x1, y1, a1, b0, b1 - b0 + 1);
  }

  lemma RowInside(g: Geometry, x0: int, y0: int, x1: int, y1: int, a0: int, b: int, a1: int)
    requires Fits(g, x0, y0, x1, y1) && x0 <= a0 <= a1 <= x1 && y0 <= b <= y1
    ensures LineFits(g, a0, b, a1 - a0 + 1, 1)
  {
  }

  lemma PaintRoundRect(g: Geometry, a: Image, b: Image, c: Image, d: Image, color: int, x: int, y: int, w: int,
                       h: int, r: int)
    requires 0 <= r && 2 * r <= w
    requires Painted(g, a, b, color, Box(x + r, y, w - 2 * r, h))
    requires Painted(g, b, c, color, SidesAt(x + w - r - 1, y + r, r, Sides(true, false), h - 2 * r - 1))
    requires Painted(g, c, d, color, SidesAt(x + r, y + r, r, Sides(false, true), h - 2 * r - 1))
    ensures Painted(g, a, d, color, RoundRectAt(x, y, w, h, r))
  {
    hide Painted, InSides;
    var M := Box(x + r, y, w - 2 * r, h);
    var R := SidesAt(x + w - r - 1, y + r, r, Sides(true, false), h - 2 * r - 1);
    var L := SidesAt(x + r, y + r, r, Sides(false, true), h - 2 * r - 1);
    var MR: Region := (px, py) => M(px, py) || R(px, py);
    forall px, py ensures !(M(px, py) && R(px, py)) && !(MR(px, py) && L(px, py)) {
      SideColumns(r, h - 2 * r - 1, px - (x + w - r - 1), py - (y + r));
      SideColumns(r, h - 2 * r - 1, px - (x + r), py - (y + r));
    }
    PaintBothOnScreen(g, a, b, c, color, M, R, MR);
    PaintBothOnScreen(g, a, c, d, color, MR, L, RoundRectAt(x, y, w, h, r));
  }

  lemma SideColumns(r: int, delta: int, dx: int, dy: int)
    ensures InSides(r, Sides(true, false), delta, dx, dy) ==> 1 <= dx <= r
    ensures InSides(r, Sides(false, true), delta, dx, dy) ==> -r <= dx <= -1
    ensures InSides(r, Sides(true, true), delta, dx, dy) <==>
              InSides(r, Sides(true, false), delta, dx, dy) || InSides(r, Sides(false, true), delta, dx, dy)
  {
    hide Outline;
  }

  /** A square with full corner radius is the disc: the two fills agree. */
  lemma RoundSquareIsDisc(x0: int, y0: int, r: int, px: int, py: int)
    requires 0 <= r
    ensures RoundRectAt(x0 - r, y0 - r, 2 * r + 1, 2 * r + 1, r)(px, py) <==> DiscAt(x0, y0, r)(px, py)
  {
    hide InSides, DiscAt;
    DiscParts(x0, y0, r, px, py);
    SideColumns(r, 0, px - x0, py - y0);
    assert px - (x0 - r + (2 * r + 1) - r - 1) == px - x0 == px - (x0 - r + r);
    assert 2 * r + 1 - 2 * r - 1 == 0 && py - (y0 - r + r) == py - y0;
  }

  /** How far v lies outside lo..hi, with its sign. */
  function Beyond(v: int, lo: int, hi: int): int {
    if v < lo then v - lo else if v > hi then v - hi else 0
  }

  /** The rounded rectangle is the rectangle without what lies outside the quarter discs at its corners. */
  lemma RoundRectIs(x: int, y: int, w: int, h: int, r: int, px: int, py: int)
    requires 0 <= r && 2 * r <= w && 2 * r <= h
    ensures RoundRectAt(x, y, w, h, r)(px, py) <==>
              && Box(x, y, w, h)(px, py)
              && Disc(r, Beyond(px, x + r, x + w - r - 1), Beyond(py, y + r, y + h - r - 1))
  {
    hide InSides, Disc;
    SideColumns(r, h - 2 * r - 1, px - (x + w - r - 1), py - (y + r));
    SideColumns(r, h - 2 * r - 1, px - (x + r), py - (y + r));
    if x + r <= px < x + w - r && y <= py < y + h {
      MiddleColumn(r, Beyond(py, y + r, y + h - r - 1));
    } else if x <= px < x + r {
      SideIs(r, Sides(false, true), h, px - (x + r), py - (y + r));
    } else if x + w - r <= px < x + w {
      SideIs(r, Sides(true, false), h, px - (x + w - r - 1), py - (y + r));
    }
  }

  lemma MiddleColumn(r: int, dy: int)
    requires 0 <= r && Abs(dy) <= r
    ensures Disc(r, 0, dy)
  {
    assert Outline(r, 0, r);
  }

  /** A column of a stretched side: the disc's column with its middle row repeated. */
  lemma SideIs(r: int, s: Sides, h: int, dx: int, dy: int)
    requires 1 <= Abs(dx) <= r && 2 * r <= h && if dx > 0 then s.right else s.left
    ensures InSides(r, s, h - 2 * r - 1, dx, dy) <==> -r <= dy < h - r && Disc(r, dx, Beyond(dy, 0, h - 2 * r - 1))
  {
    hide Nearest;
    var delta := h - 2 * r - 1;
    var top := ColumnHasTop(r, Abs(dx));
    assert Outline(r, dx, top) && Outline(r, Abs(dx), top);
    if InSides(r, s, delta, dx, dy) {
      var k :| 0 <= k && Outline(r, Abs(dx), k) && -k <= dy <= k + delta;
      OutlineWithin(r, Abs(dx), k);
      assert Outline(r, dx, k);
    }
    if -r <= dy < h - r && Disc(r, dx, Beyond(dy, 0, delta)) {
      var k: nat :| Outline(r, dx, k) && Abs(Beyond(dy, 0, delta)) <= k;
      assert Outline(r, Abs(dx), k);
    }
  }

  // ---- circle outlines ---------------------------------------------------------------------

  ghost function Dot(x: int, y: int): Region {
    Box(x, y, 1, 1)
  }

  /** The four reflections of one offset, u and v not negative: in inverse mode coinciding points cancel. */
  ghost function FourAt(color: int, x0: int, y0: int, u: int, v: int): Region {
    (px: int, py: int) => Abs(px - x0) == u && Abs(py - y0) == v && (color == INVERSE ==> u > 0 && v > 0)
  }

  /** Merging the four reflections one by one. */
  lemma FourMerged(color: int, dx: int, dy: int, u: int, v: int)
    requires 0 <= u && 0 <= v
    ensures var p, q, m, n := dx == u, dx == -u, dy == v, dy == -v;
            Merged(color, Merged(color, Merged(color, p && m, q && m), p && n), q && n) <==>
              Abs(dx) == u && Abs(dy) == v && (color == INVERSE ==> u > 0 && v > 0)
  {
  }

  lemma MergeDots(g: Geometry, a: Image, b: Image, c: Image, d: Image, e: Image, color: int,
                  x0: int, y0: int, u: int, v: int)
    requires 0 <= color <= INVERSE && 0 <= u && 0 <= v
    requires Painted(g, a, b, color, Dot(x0 + u, y0 + v)) && Painted(g, b, c, color, Dot(x0 - u, y0 + v))
    requires Painted(g, c, d, color, Dot(x0 + u, y0 - v)) && Painted(g, d, e, color, Dot(x0 - u, y0 - v))
    ensures Painted(g, a, e, color, FourAt(color, x0, y0, u, v))
  {
    hide Painted;
    var P, Q, R, S := Dot(x0 + u, y0 + v), Dot(x0 - u, y0 + v), Dot(x0 + u, y0 - v), Dot(x0 - u, y0 - v);
    forall px, py
      ensures FourAt(color, x0, y0, u, v)(px, py) <==>
                Merged(color, Merged(color, Merged(color, P(px, py), Q(px, py)), R(px, py)), S(px, py))
    {
      assert forall i, j :: Dot(i, j)(px, py) <==> px == i && py == j;
      FourMerged(color, px - x0, py - y0, u, v);
    }
    PaintFour(g, a, b, c, d, e, color, P, Q, R, S, FourAt(color, x0, y0, u, v));
  }

  lemma PaintFour(g: Geometry, a: Image, b: Image, c: Image, d: Image, e: Image, color: int,
                  P: Region, Q: Region, R: Region, S: Region, U: Region)
    requires 0 <= color <= INVERSE
    requires Painted(g, a, b, color, P) && Painted(g, b, c, color, Q)
    requires Painted(g, c, d, color, R) && Painted(g, d, e, color, S)
    requires forall x, y :: U(x, y) <==> Merged(color, Merged(color, Merged(color, P(x, y), Q(x, y)), R(x, y)), S(x, y))
    ensures Painted(g, a, e, color, U)
  {
    hide Painted, Merged;
    var two: Region := (x, y) => Merged(color, P(x, y), Q(x, y));
    var three: Region := (x, y) => Merged(color, two(x, y), R(x, y));
    PaintAgain(g, a, b, c, color, P, Q, two);
    PaintAgain(g, a, c, d, color, two, R, three);
    PaintAgain(g, a, d, e, color, three, S, U);
  }

  method PlotFour(d: Display, x0: int16, y0: int16, u: int16, v: int16, color: uint16)
    requires d.Valid() && color <= INVERSE && 0 <= u && 0 <= v
    requires Fits16(x0 - u) && Fits16(x0 + u) && Fits16(y0 - v) && Fits16(y0 + v)
    modifies d.buffer
    ensures Painted(d.Geo(), old(d.Pages()), d.Pages(), color, FourAt(color, x0, y0, u, v))
  {
    hide Painted, FourAt;
    ghost var a := d.Pages();
    d.DrawPixel(x0 + u, y0 + v, color);
    ghost var b := d.Pages();
    d.DrawPixel(x0 - u, y0 + v, color);
    ghost var c := d.Pages();
    d.DrawPixel(x0 + u, y0 - v, color);
    ghost var e := d.Pages();
    d.DrawPixel(x0 - u, y0 - v, color);
    MergeDots(d.Geo(), a, b, c, e, d.Pages(), color, x0, y0, u, v);
  }

  ghost function EightAt(color: int, x0: int, y0: int, x: int, y: int): Region {
    (px: int, py: int) => Eight(color, x, y, px - x0, py - y0)
  }

  ghost function UpTo(color: int, x0: int, y0: int, r: int, x: int, y: int): Region {
    (px: int, py: int) => PlottedUpTo(r, color, x, y, px - x0, py - y0)
  }

  ghost function OutlineAt(color: int, x0: int, y0: int, r: int): Region {
    (px: int, py: int) => Plotted(r, color, px - x0, py - y0)
  }

  lemma MergeStep(g: Geometry, was: Image, mid: Image, now: Image, color: int, x0: int, y0: int,
                  r: int, px: int, py: int, f: int, x: int, y: int, f': int)
    requires 0 <= color <= INVERSE
    requires Midpoint(r, px, py, f) && px < py && Midpoint(r, x, y, f')
    requires x == px + 1 && y == if f >= 0 then py - 1 else py
    requires Painted(g, was, mid, color, UpTo(color, x0, y0, r, px, py))
    requires Painted(g, mid, now, color, EightAt(color, x0, y0, x, y))
    ensures Painted(g, was, now, color, UpTo(color, x0, y0, r, x, y))
  {
    hide Painted, Midpoint, PlottedUpTo, Eight;
    var R, S, U := UpTo(color, x0, y0, r, px, py), EightAt(color, x0, y0, x, y), UpTo(color, x0, y0, r, x, y);
    forall a, b ensures U(a, b) <==> Merged(color, R(a, b), S(a, b)) {
      OutlineStep(r, color, px, py, f, x, y, f', a - x0, b - y0);
    }
    PaintAgain(g, was, mid, now, color, R, S, U);
  }

  lemma MergeFours(g: Geometry, a: Image, b: Image, c: Image, color: int, x0: int, y0: int, x: int, y: int)
    requires 0 <= color <= INVERSE && 0 < x && 0 <= y
    requires Painted(g, a, b, color, FourAt(color, x0, y0, x, y))
    requires Painted(g, b, c, color, FourAt(color, x0, y0, y, x))
    ensures Painted(g, a, c, color, EightAt(color, x0, y0, x, y))
  {
    hide Painted;
    var R, S, U := FourAt(color, x0, y0, x, y), FourAt(color, x0, y0, y, x), EightAt(color, x0, y0, x, y);
    forall px, py ensures U(px, py) <==> Merged(color, R(px, py), S(px, py)) {
      assert U(px, py) <==> Eight(color, x, y, px - x0, py - y0);
    }
    PaintAgain(g, a, b, c, color, R, S, U);
  }

  method PlotEight(d: Display, x0: int16, y0: int16, x: int16, y: int16, color: uint16)
    requires d.Valid() && color <= INVERSE && 0 < x && 0 <= y
    requires Fits16(x0 - x) && Fits16(x0 + x) && Fits16(y0 - y) && Fits16(y0 + y)
    requires Fits16(x0 - y) && Fits16(x0 + y) && Fits16(y0 - x) && Fits16(y0 + x)
    modifies d.buffer
    ensures Painted(d.Geo(), old(d.Pages()), d.Pages(), color, EightAt(color, x0, y0, x, y))
  {
    hide Painted, FourAt, EightAt;
    ghost var was := d.Pages();
    PlotFour(d, x0, y0, x, y, color);
    ghost var mid := d.Pages();
    PlotFour(d, x0, y0, y, x, color);
    MergeFours(d.Geo(), was, mid, d.Pages(), color, x0, y0, x, y);
  }

  lemma StartOutline(g: Geometry, a: Image, b: Image, c: Image, d: Image, e: Image, color: int,
                     x0: int, y0: int, r: int)
    requires 0 <= color <= INVERSE && 0 <= r
    requires Painted(g, a, b, color, Dot(x0, y0 + r)) && Painted(g, b, c, color, Dot(x0, y0 - r))
    requires Painted(g, c, d, color, Dot(x0 + r, y0)) && Painted(g, d, e, color, Dot(x0 - r, y0))
    ensures Painted(g, a, e, color, UpTo(color, x0, y0, r, 0, r))
  {
    hide Painted, PlottedUpTo;
    var P, Q, R, S := Dot(x0, y0 + r), Dot(x0, y0 - r), Dot(x0 + r, y0), Dot(x0 - r, y0);
    forall px, py
      ensures UpTo(color, x0, y0, r, 0, r)(px, py) <==>
                Merged(color, Merged(color, Merged(color, P(px, py), Q(px, py)), R(px, py)), S(px, py))
    {
      StartMerged(color, r, px - x0, py - y0);
      assert forall i, j :: Dot(i, j)(px, py) <==> px == i && py == j;
    }
    PaintFour(g, a, b, c, d, e, color, P, Q, R, S, UpTo(color, x0, y0, r, 0, r));
  }

  /** The four extreme pixels, which coincide for radius 0. */
  lemma StartMerged(color: int, r: int, dx: int, dy: int)
    requires 0 <= color <= INVERSE && 0 <= r
    ensures var p, q, m, n := dx == 0 && dy == r, dx == 0 && dy == -r, dx == r && dy == 0, dx == -r && dy == 0;
            PlottedUpTo(r, color, 0, r, dx, dy) <==> Merged(color, Merged(color, Merged(color, p, q), m), n)
  {
    hide Outline;
    OutlineStart(r, dx, dy);
  }

  /** drawCircle paints exactly the ideal outline; in inverse mode it misses exactly the joins. */
  method DrawCircle(d: Display, x0: int16, y0: int16, r: int16, color: uint16)
    requires d.Valid() && color <= INVERSE && 0 <= r <= 16383
    requires Fits16(x0 - r) && Fits16(x0 + r) && Fits16(y0 - r) && Fits16(y0 + r)
    modifies d.buffer
    ensures Painted(d.Geo(), old(d.Pages()), d.Pages(), color, OutlineAt(color, x0, y0, r))
  {
    hide Painted, Midpoint, UpTo, EightAt, FourAt;
    ghost var g, was := d.Geo(), d.Pages();
    MidpointInit(r);
    var f: int16, ddFx: int16, ddFy: int16 := 1 - r, 1, -2 * r;
    var x: int16, y: int16 := 0, r;
    d.DrawPixel(x0, y0 + r, color);
    ghost var a := d.Pages();
    d.DrawPixel(x0, y0 - r, color);
    ghost var b := d.Pages();
    d.DrawPixel(x0 + r, y0, color);
    ghost var c := d.Pages();
    d.DrawPixel(x0 - r, y0, color);
    StartOutline(g, was, a, b, c, d.Pages(), color, x0, y0, r);
    while x < y
      invariant Midpoint(r, x, y, f) && 0 <= y <= r && 0 <= x <= y + 1
      invariant ddFx == 2 * x + 1 && ddFy == -2 * y
      invariant Painted(g, was, d.Pages(), color, UpTo(color, x0, y0, r, x, y))
    {
      ghost var px, py, F, mid := x, y, f, d.Pages();
      f, ddFx, ddFy, x, y := Advance(r, f, ddFx, ddFy, x, y);
      PlotEight(d, x0, y0, x, y, color);
      MergeStep(g, was, mid, d.Pages(), color, x0, y0, r, px, py, F, x, y, f);
    }
    FinishOutline(g, was, d.Pages(), color, x0, y0, r, x, y);
  }

  lemma FinishOutline(g: Geometry, was: Image, now: Image, color: int, x0: int, y0: int, r: int, x: int, y: int)
    requires y <= x && Painted(g, was, now, color, UpTo(color, x0, y0, r, x, y))
    ensures Painted(g, was, now, color, OutlineAt(color, x0, y0, r))
  {
    hide Painted, Plotted;
    var R, S := UpTo(color, x0, y0, r, x, y), OutlineAt(color, x0, y0, r);
    forall px, py ensures R(px, py) <==> S(px, py) {
      assert R(px, py) <==> PlottedUpTo(r, color, x, y, px - x0, py - y0);
    }
    SameOnScreen(g, was, now, color, R, S);
  }

  /** Two pixels of the drawn outline in the same column, with py between them. */
  ghost predicate Spanned(x0: int, y0: int, r: int, px: int, py: int, top: int, bottom: int) {
    OutlineAt(WHITE, x0, y0, r)(px, top) && OutlineAt(WHITE, x0, y0, r)(px, bottom) && top <= py <= bottom
  }

  lemma OutlineRow(x0: int, y0: int, r: int, px: int, py: int)
    ensures OutlineAt(WHITE, x0, y0, r)(px, py) <==> Outline(r, px - x0, Abs(py - y0))
  {
    hide Nearest, Join;
    assert Plotted(r, WHITE, px - x0, py - y0) <==> Outline(r, px - x0, py - y0);
    assert Abs(Abs(py - y0)) == Abs(py - y0);
  }

  /** What fillCircle fills is, column by column, what lies between the pixels drawCircle plots. */
  lemma FillIsHullOfOutline(x0: int, y0: int, r: int, px: int, py: int)
    ensures DiscAt(x0, y0, r)(px, py) <==> exists top, bottom :: Spanned(x0, y0, r, px, py, top, bottom)
  {
    hide Outline, OutlineAt;
    if Disc(r, px - x0, py - y0) {
      var k: nat :| Outline(r, px - x0, k) && Abs(py - y0) <= k;
      OutlineRow(x0, y0, r, px, y0 - k);
      OutlineRow(x0, y0, r, px, y0 + k);
      assert Spanned(x0, y0, r, px, py, y0 - k, y0 + k);
    }
    if top, bottom :| Spanned(x0, y0, r, px, py, top, bottom) {
      OutlineRow(x0, y0, r, px, top);
      OutlineRow(x0, y0, r, px, bottom);
      assert Abs(py - y0) <= Max(Abs(top - y0), Abs(bottom - y0));
    }
  }

  // ---- lines -------------------------------------------------------------------------------

  ghost function LineAt(x0: int, y0: int, x1: int, y1: int): Region {
    (px: int, py: int) => OnLine(x0, y0, x1, y1, px, py)
  }

  /** The first pixels of a run, up to but excluding major coordinate x. */
  ghost function RunAt(steep: bool, u0: int, v0: int, u1: int, v1: int, x: int): Region {
    if steep
    then (px: int, py: int) => py < x && OnRun(u0, v0, u1, v1, py, px)
    else (px: int, py: int) => px < x && OnRun(u0, v0, u1, v1, px, py)
  }

  lemma AddDot(g: Geometry, was: Image, mid: Image, now: Image, color: int, steep: bool,
               u0: int, v0: int, u1: int, v1: int, x: int, y: int)
    requires u0 <= x && OnRun(u0, v0, u1, v1, x, y)
    requires Painted(g, was, mid, color, RunAt(steep, u0, v0, u1, v1, x))
    requires Painted(g, mid, now, color, if steep then Dot(y, x) else Dot(x, y))
    ensures Painted(g, was, now, color, RunAt(steep, u0, v0, u1, v1, x + 1))
  {
    hide Painted, OnRun;
    var R, S := RunAt(steep, u0, v0, u1, v1, x), if steep then Dot(y, x) else Dot(x, y);
    var U := RunAt(steep, u0, v0, u1, v1, x + 1);
    forall px, py ensures (U(px, py) <==> R(px, py) || S(px, py)) && !(R(px, py) && S(px, py)) {
      RunUnique(u0, v0, u1, v1, if steep then py else px, y, if steep then px else py);
      assert forall i, j :: Dot(i, j)(px, py) <==> px == i && py == j;
    }
    PaintBothOnScreen(g, was, mid, now, color, R, S, U);
  }

  lemma StartRun(g: Geometry, was: Image, color: int, steep: bool, u0: int, v0: int, u1: int, v1: int)
    ensures Painted(g, was, was, color, RunAt(steep, u0, v0, u1, v1, u0))
  {
    EmptyOnScreen(g, was, color, RunAt(steep, u0, v0, u1, v1, u0));
  }

  /** The loop of writeLine, once the end points are in major-axis order. */
  method WriteRun(d: Display, steep: bool, u0: int16, v0: int16, u1: int16, v1: int16, color: uint16)
    requires d.Valid() && color <= INVERSE
    requires Abs(v1 - v0) <= u1 - u0 <= 0x7FFF && u1 < 0x7FFF
    modifies d.buffer
    ensures Painted(d.Geo(), old(d.Pages()), d.Pages(), color, RunAt(steep, u0, v0, u1, v1, u1 + 1))
  {
    hide Painted, RunAt, OnRun, ErrorTerm;
    ghost var g, was, m := d.Geo(), d.Pages(), 0;
    var x0, y0 := u0, v0;
    var dx: int16, dy: int16 := u1 - u0, Abs(v1 - v0);
    var err: int16 := dx / 2;
    var ystep: int := if v0 < v1 then 1 else -1;
    StartRun(g, was, color, steep, u0, v0, u1, v1);
    ErrorStart(dx, dy);
    while x0 <= u1
      invariant u0 <= x0 <= u1 + 1 && (x0 <= u1 ==> y0 == if v0 < v1 then v0 + m else v0 - m)
      invariant err == ErrorTerm(dx, dy, x0 - u0, m) && 0 <= err && if dx == 0 then m == err == 0 else err < dx
      invariant 0 <= m && (x0 <= u1 ==> m <= dy)
      invariant Painted(g, was, d.Pages(), color, RunAt(steep, u0, v0, u1, v1, x0))
    {
      ghost var mid := d.Pages();
      if steep {
        d.DrawPixel(y0, x0, color);
      } else {
        d.DrawPixel(x0, y0, color);
      }
      PixelOnRun(u0, v0, u1, v1, x0, m);
      AddDot(g, was, mid, d.Pages(), color, steep, u0, v0, u1, v1, x0, y0);
      MinorStep(dx, dy, x0 - u0, m);
      err := err - dy;
      if err < 0 {
        y0 := Wrap16(y0 + ystep);
        err := err + dx;
        m := m + 1;
      }
      x0 := Wrap16(x0 + 1);
      RowsWithin(dx, dy, x0 - u0, m);
    }
  }

  /** The general line, of any slope and direction. */
  method WriteLine(d: Display, x0': int16, y0': int16, x1': int16, y1': int16, color: uint16)
    requires d.Valid() && color <= INVERSE
    requires Abs(x1' - x0') <= 0x7FFF && Abs(y1' - y0') <= 0x7FFF && MajorEnd(x0', y0', x1', y1') < 0x7FFF
    modifies d.buffer
    ensures Painted(d.Geo(), old(d.Pages()), d.Pages(), color, LineAt(x0', y0', x1', y1'))
  {
    hide Painted, LineAt, RunAt;
    var x0, y0, x1, y1 := x0', y0', x1', y1';
    var steep := Abs(y1 - y0) > Abs(x1 - x0);
    if steep {
      x0, y0 := y0, x0;
      x1, y1 := y1, x1;
    }
    if x0 > x1 {
      x0, x1 := x1, x0;
      y0, y1 := y1, y0;
    }
    WriteRun(d, steep, x0, y0, x1, y1, color);
    FinishLine(d.Geo(), old(d.Pages()), d.Pages(), color, x0', y0', x1', y1', steep, x0, y0, x1, y1);
  }

  lemma FinishLine(g: Geometry, was: Image, now: Image, color: int, x0: int, y0: int, x1: int, y1: int,
                   steep: bool, u0: int, v0: int, u1: int, v1: int)
    requires steep <==> Steep(x0, y0, x1, y1)
    requires var (a, b, c, e) := if steep then (y0, x0, y1, x1) else (x0, y0, x1, y1);
             (u0, v0, u1, v1) == if a > c then (c, e, a, b) else (a, b, c, e)
    requires Painted(g, was, now, color, RunAt(steep, u0, v0, u1, v1, u1 + 1))
    ensures Painted(g, was, now, color, LineAt(x0, y0, x1, y1))
  {
    hide Painted;
    var R, S := RunAt(steep, u0, v0, u1, v1, u1 + 1), LineAt(x0, y0, x1, y1);
    forall px, py ensures R(px, py) <==> S(px, py) {
      assert R(px, py) <==> if steep then OnRun(u0, v0, u1, v1, py, px) else OnRun(u0, v0, u1, v1, px, py);
    }
    SameOnScreen(g, was, now, color, R, S);
  }

  lemma StraightLine(g: Geometry, was: Image, now: Image, color: int, x0: int, y0: int, x1: int, y1: int,
                     x: int, y: int, w: int, h: int)
    requires x0 == x1 || y0 == y1
    requires x == (if x0 > x1 then x1 else x0) && w == Abs(x1 - x0) + 1
    requires y == (if y0 > y1 then y1 else y0) && h == Abs(y1 - y0) + 1
    requires Painted(g, was, now, color, Box(x, y, w, h))
    ensures Painted(g, was, now, color, LineAt(x0, y0, x1, y1))
  {
    hide Painted;
    forall px, py ensures Box(x, y, w, h)(px, py) <==> LineAt(x0, y0, x1, y1)(px, py) {
      if x0 == x1 && y0 != y1 {
        StraightRun(y, x, y + h - 1, py, px);
      } else {
        StraightRun(x, y, x + w - 1, px, py);
      }
    }
    SameOnScreen(g, was, now, color, Box(x, y, w, h), LineAt(x0, y0, x1, y1));
  }

  /** drawLine: the axis-aligned shortcuts draw the same pixels as the general line. */
  method DrawLine(d: Display, x0: int16, y0: int16, x1: int16, y1: int16, color: uint16)
    requires d.Valid() && color <= INVERSE
    requires if x0 == x1 then Abs(y1 - y0) < 0x7FFF && LineFits(d.Geo(), x0, Min(y0, y1), 1, Abs(y1 - y0) + 1)
             else if y0 == y1 then Abs(x1 - x0) < 0x7FFF && LineFits(d.Geo(), Min(x0, x1), y0, Abs(x1 - x0) + 1, 1)
             else Abs(x1 - x0) <= 0x7FFF && Abs(y1 - y0) <= 0x7FFF && MajorEnd(x0, y0, x1, y1) < 0x7FFF
    modifies d.buffer
    ensures Painted(d.Geo(), old(d.Pages()), d.Pages(), color, LineAt(x0, y0, x1, y1))
  {
    hide Painted, LineAt, LineFits, Ssd1306.EachPixel, Ssd1306.PageImage, VPoints, HPoints;
    ghost var g, was := d.Geo(), d.Pages();
    if x0 == x1 {
      var top, bottom := y0, y1;
      if top > bottom {
        top, bottom := bottom, top;
      }
      d.DrawFastVLine(x0, top, bottom - top + 1, color);
      StraightLine(g, was, d.Pages(), color, x0, y0, x1, y1, x0, top, 1, bottom - top + 1);
    } else if y0 == y1 {
      var left, right := x0, x1;
      if left > right {
        left, right := right, left;
      }
      d.DrawFastHLine(left, y0, right - left + 1, color);
      StraightLine(g, was, d.Pages(), color, x0, y0, x1, y1, left, y0, right - left + 1, 1);
    } else {
      WriteLine(d, x0, y0, x1, y1, color);
    }
  }

  // ---- filled triangles --------------------------------------------------------------------

  ghost function TriangleAt(p: Point, q: Point, r: Point): Region {
    (px: int, py: int) => InTriangle(p, q, r, px, py)
  }

  /** The scanlines above row y of a triangle with vertices in order. */
  ghost function RowsAbove(a: Point, b: Point, c: Point, y: int): Region {
    (px: int, py: int) => a.y <= b.y <= c.y && py < y && InSorted(a, b, c, px, py)
  }

  lemma AddRow(g: Geometry, was: Image, mid: Image, now: Image, color: int, a: Point, b: Point, c: Point, y: int,
               lo: int, hi: int)
    requires a.y <= b.y <= c.y && a.y < c.y && a.y <= y <= c.y
    requires var (i, j) := Ends(a, b, c, y); lo == Min(i, j) && hi == Max(i, j)
    requires Painted(g, was, mid, color, RowsAbove(a, b, c, y))
    requires Painted(g, mid, now, color, Box(lo, y, hi - lo + 1, 1))
    ensures Painted(g, was, now, color, RowsAbove(a, b, c, y + 1))
  {
    hide Painted, Ends;
    PaintBothOnScreen(g, was, mid, now, color, RowsAbove(a, b, c, y), Box(lo, y, hi - lo + 1, 1),
                      RowsAbove(a, b, c, y + 1));
  }

  /** A triangle small enough for the 16-bit differences, on representable coordinates, whose row counter
      neither wraps nor starts from a wrapped end. */
  ghost predicate TriangleFits(g: Geometry, p: Point, q: Point, r: Point, lo: int, hi: int) {
    && lo <= p.x <= hi && lo <= q.x <= hi && lo <= r.x <= hi && hi - lo < 0x7FFF
    && Abs(p.y - q.y) <= 0x7FFF && Abs(q.y - r.y) <= 0x7FFF && Abs(p.y - r.y) <= 0x7FFF
    && Fits(g, lo, p.y, hi, p.y) && Fits(g, lo, q.y, hi, q.y) && Fits(g, lo, r.y, hi, r.y)
    && var (a, b, c) := Sort(p, q, r); a.y < c.y ==> c.y < 0x7FFF && -0x8000 < b.y
  }

  lemma EndsFit(g: Geometry, a: Point, b: Point, c: Point, y: int, lo: int, hi: int)
    requires a.y <= b.y <= c.y && a.y < c.y && a.y <= y <= c.y && TriangleFits(g, a, b, c, lo, hi)
    ensures var (i, j) := Ends(a, b, c, y);
            && lo <= i <= hi && lo <= j <= hi && Fits16(i) && Fits16(j) && Abs(j - i) + 1 <= 0x7FFF
            && LineFits(g, Min(i, j), y, Abs(j - i) + 1, 1)
  {
    hide Ends, TriangleFits, LineFits, Geometry.Fits;
    RowFits(g, a, b, c, y, lo, hi);
    EndsWithin(a, b, c, y, lo, hi);
    var (i, j) := Ends(a, b, c, y);
    BoxFits(g, lo, y, hi, y, Min(i, j), y, Max(i, j), y);
  }

  lemma EndsWithin(a: Point, b: Point, c: Point, y: int, lo: int, hi: int)
    requires a.y <= b.y <= c.y && a.y < c.y && a.y <= y <= c.y
    requires lo <= a.x <= hi && lo <= b.x <= hi && lo <= c.x <= hi
    ensures var (i, j) := Ends(a, b, c, y); lo <= i <= hi && lo <= j <= hi
  {
    hide Crossing;
    CrossingRounds(a, c, y);
    if y < b.y || b.y == c.y {
      CrossingRounds(a, b, y);
    } else {
      CrossingRounds(b, c, y);
    }
  }

  lemma RowFits(g: Geometry, a: Point, b: Point, c: Point, y: int, lo: int, hi: int)
    requires a.y <= y <= c.y && TriangleFits(g, a, b, c, lo, hi)
    ensures Fits(g, lo, y, hi, y) && hi - lo < 0x7FFF && lo <= a.x <= hi && lo <= b.x <= hi && lo <= c.x <= hi
  {
  }

  /** One scanline of the loops. */
  method FillRow(d: Display, y: int16, a0: int16, b0: int16, color: uint16, ghost was: Image,
                 ghost p: Point, ghost q: Point, ghost r: Point, ghost lo: int, ghost hi: int)
    requires d.Valid() && color <= INVERSE
    requires p.y <= q.y <= r.y && p.y < r.y && p.y <= y <= r.y && TriangleFits(d.Geo(), p, q, r, lo, hi)
    requires (a0, b0) == Ends(p, q, r, y)
    requires Painted(d.Geo(), was, d.Pages(), color, RowsAbove(p, q, r, y))
    modifies d.buffer
    ensures Painted(d.Geo(), was, d.Pages(), color, RowsAbove(p, q, r, y + 1))
  {
    hide Painted, RowsAbove, Ends, TriangleFits, LineFits;
    ghost var mid := d.Pages();
    var a, b := a0, b0;
    EndsFit(d.Geo(), p, q, r, y, lo, hi);
    if a > b {
      a, b := b, a;
    }
    d.DrawFastHLine(a, y, b - a + 1, color);
    AddRow(d.Geo(), was, mid, d.Pages(), color, p, q, r, y, a, b);
  }

  lemma DifferencesFit(g: Geometry, a: Point, b: Point, c: Point, lo: int, hi: int)
    requires TriangleFits(g, a, b, c, lo, hi) && a.y <= b.y <= c.y && a.y < c.y
    ensures Fits16(b.x - a.x) && Fits16(c.x - a.x) && Fits16(c.x - b.x)
    ensures c.y - a.y <= 0x7FFF && c.y < 0x7FFF && -0x8000 < b.y
  {
  }

  /** The first scanline loop: down to the middle vertex, or through a flat bottom. */
  method UpperRows(d: Display, x0: int16, y0: int16, x1: int16, y1: int16, x2: int16, y2: int16, color: uint16,
                   ghost lo: int, ghost hi: int)
    returns (y: int16)
    requires d.Valid() && color <= INVERSE && y0 <= y1 <= y2 && y0 < y2
    requires TriangleFits(d.Geo(), Point(x0, y0), Point(x1, y1), Point(x2, y2), lo, hi)
    modifies d.buffer
    ensures y == if y1 == y2 then y2 + 1 else y1
    ensures Painted(d.Geo(), old(d.Pages()), d.Pages(), color,
                    RowsAbove(Point(x0, y0), Point(x1, y1), Point(x2, y2), y))
  {
    hide Painted, RowsAbove, CDiv, Ends, Accumulated, TriangleFits, Ssd1306.PageImage, Wrap16;
    WrapFits();
    ghost var g, was, p, q, r := d.Geo(), d.Pages(), Point(x0, y0), Point(x1, y1), Point(x2, y2);
    DifferencesFit(g, p, q, r, lo, hi);
    var dx01: int16, dy01: int16, dx02: int16, dy02: int16 := x1 - x0, y1 - y0, x2 - x0, y2 - y0;
    var sa: int32, sb: int32 := 0, 0;
    NothingAccumulated(dx01);
    NothingAccumulated(dx02);
    var last := RowLast(y1, y2);
    y := y0;
    NoRows(g, was, color, p, q, r);
    while y <= last
      invariant y0 <= y <= last + 1
      invariant sa == Accumulated(dx01, y - y0) && sb == Accumulated(dx02, y - y0)
      invariant Painted(g, was, d.Pages(), color, RowsAbove(p, q, r, y))
    {
      EndsFit(g, p, q, r, y, lo, hi);
      UpperEnds(p, q, r, y);
      var a: int16, b: int16 := x0 + CDiv(sa, dy01), x0 + CDiv(sb, dy02);
      Accumulate(dx01, y - y0);
      Accumulate(dx02, y - y0);
      sa, sb := sa + dx01, sb + dx02;
      FillRow(d, y, a, b, color, was, p, q, r, lo, hi);
      y := Wrap16(y + 1);
    }
  }

  /** The second scanline loop, from the middle vertex down; empty for a flat bottom. */
  method LowerRows(d: Display, x0: int16, y0: int16, x1: int16, y1: int16, x2: int16, y2: int16, color: uint16,
                   start: int16, ghost lo: int, ghost hi: int, ghost was: Image)
    requires d.Valid() && color <= INVERSE && y0 <= y1 <= y2 && y0 < y2
    requires TriangleFits(d.Geo(), Point(x0, y0), Point(x1, y1), Point(x2, y2), lo, hi)
    requires start == if y1 == y2 then y2 + 1 else y1
    requires Painted(d.Geo(), was, d.Pages(), color, RowsAbove(Point(x0, y0), Point(x1, y1), Point(x2, y2), start))
    modifies d.buffer
    ensures Painted(d.Geo(), was, d.Pages(), color, RowsAbove(Point(x0, y0), Point(x1, y1), Point(x2, y2), y2 + 1))
  {
    hide Painted, RowsAbove, CDiv, Ends, Accumulated, TriangleFits, Ssd1306.PageImage, Wrap16;
    WrapFits();
    ghost var g, p, q, r := d.Geo(), Point(x0, y0), Point(x1, y1), Point(x2, y2);
    DifferencesFit(g, p, q, r, lo, hi);
    var dx02: int16, dy02: int16, dx12: int16, dy12: int16 := x2 - x0, y2 - y0, x2 - x1, y2 - y1;
    var y := start;
    AccumulatorFits(dx12, y - y1);
    AccumulatorFits(dx02, y - y0);
    var sa: int32, sb: int32 := Accumulated(dx12, y - y1), Accumulated(dx02, y - y0);
    while y <= y2
      invariant y1 <= y <= y2 + 1 && (y1 == y2 ==> y == y2 + 1)
      invariant sa == Accumulated(dx12, y - y1) && sb == Accumulated(dx02, y - y0)
      invariant Painted(g, was, d.Pages(), color, RowsAbove(p, q, r, y))
    {
      EndsFit(g, p, q, r, y, lo, hi);
      LowerEnds(p, q, r, y);
      var a: int16, b: int16 := x1 + CDiv(sa, dy12), x0 + CDiv(sb, dy02);
      Accumulate(dx12, y - y1);
      Accumulate(dx02, y - y0);
      sa, sb := sa + dx12, sb + dx02;
      FillRow(d, y, a, b, color, was, p, q, r, lo, hi);
      y := Wrap16(y + 1);
    }
  }

  /** The scanlines of a triangle whose vertices are in order and not on one line. */
  method FillRows(d: Display, x0: int16, y0: int16, x1: int16, y1: int16, x2: int16, y2: int16, color: uint16,
                  ghost lo: int, ghost hi: int)
    requires d.Valid() && color <= INVERSE && y0 <= y1 <= y2 && y0 < y2
    requires TriangleFits(d.Geo(), Point(x0, y0), Point(x1, y1), Point(x2, y2), lo, hi)
    modifies d.buffer
    ensures Painted(d.Geo(), old(d.Pages()), d.Pages(), color,
                    RowsAbove(Point(x0, y0), Point(x1, y1), Point(x2, y2), y2 + 1))
  {
    hide Painted, RowsAbove, TriangleFits;
    ghost var was := d.Pages();
    var y := UpperRows(d, x0, y0, x1, y1, x2, y2, color, lo, hi);
    LowerRows(d, x0, y0, x1, y1, x2, y2, color, y, lo, hi, was);
  }

  lemma NoRows(g: Geometry, was: Image, color: int, a: Point, b: Point, c: Point)
    requires a.y <= b.y <= c.y
    ensures Painted(g, was, was, color, RowsAbove(a, b, c, a.y))
  {
    hide Ends;
    EmptyOnScreen(g, was, color, RowsAbove(a, b, c, a.y));
  }

  /** fillTriangle paints each scanline of the triangle exactly once, for vertices in any order. */
  method FillTriangle(d: Display, x0': int16, y0': int16, x1': int16, y1': int16, x2': int16, y2': int16, color: uint16,
                      ghost lo: int, ghost hi: int)
    requires d.Valid() && color <= INVERSE
    requires TriangleFits(d.Geo(), Point(x0', y0'), Point(x1', y1'), Point(x2', y2'), lo, hi)
    modifies d.buffer
    ensures Painted(d.Geo(), old(d.Pages()), d.Pages(), color,
                    TriangleAt(Point(x0', y0'), Point(x1', y1'), Point(x2', y2')))
  {
    hide Painted, TriangleAt, RowsAbove, Geometry.Fits, LineFits;
    ghost var g, was := d.Geo(), d.Pages();
    var x0, y0, x1, y1, x2, y2 := x0', y0', x1', y1', x2', y2';
    if y0 > y1 {
      y0, y1 := y1, y0;
      x0, x1 := x1, x0;
    }
    if y1 > y2 {
      y2, y1 := y1, y2;
      x2, x1 := x1, x2;
    }
    if y0 > y1 {
      y0, y1 := y1, y0;
      x0, x1 := x1, x0;
    }
    if y0 == y2 {
      var a, b := x0, x0;
      if x1 < a {
        a := x1;
      } else if x1 > b {
        b := x1;
      }
      if x2 < a {
        a := x2;
      } else if x2 > b {
        b := x2;
      }
      BoxFits(g, lo, y0, hi, y0, a, y0, b, y0);
      d.DrawFastHLine(a, y0, b - a + 1, color);
      FlatTriangle(g, was, d.Pages(), color, Point(x0, y0), Point(x1, y1), Point(x2, y2), a, b);
    } else {
      FillRows(d, x0, y0, x1, y1, x2, y2, color, lo, hi);
    }
    FinishTriangle(g, was, d.Pages(), color, Point(x0', y0'), Point(x1', y1'), Point(x2', y2'),
                   Point(x0, y0), Point(x1, y1), Point(x2, y2));
  }

  lemma FlatTriangle(g: Geometry, was: Image, now: Image, color: int, a: Point, b: Point, c: Point, lo: int, hi: int)
    requires a.y == b.y == c.y
    requires lo == Min(Min(a.x, b.x), c.x) && hi == Max(Max(a.x, b.x), c.x)
    requires Painted(g, was, now, color, Box(lo, a.y, hi - lo + 1, 1))
    ensures Painted(g, was, now, color, RowsAbove(a, b, c, c.y + 1))
  {
    hide Painted;
    SameOnScreen(g, was, now, color, Box(lo, a.y, hi - lo + 1, 1), RowsAbove(a, b, c, c.y + 1));
  }

  lemma FinishTriangle(g: Geometry, was: Image, now: Image, color: int, p: Point, q: Point, r: Point,
                       a: Point, b: Point, c: Point)
    requires (a, b, c) == Sort(p, q, r) && Painted(g, was, now, color, RowsAbove(a, b, c, c.y + 1))
    ensures Painted(g, was, now, color, TriangleAt(p, q, r))
  {
    hide Painted, Ends;
    SameOnScreen(g, was, now, color, RowsAbove(a, b, c, c.y + 1), TriangleAt(p, q, r));
  }
}
