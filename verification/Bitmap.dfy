/** drawBitmap with a background colour, and the round trip from a canvas to the display. */
module Bitmap {
  import opened Bytes
  import opened Screen
  import Canvas1
  import Ssd1306

  /** The pixel (i, j) of a bitmap whose scanlines are padded to whole bytes. */
  ghost predicate BitmapBit(bitmap: seq<bv8>, w: int, i: int, j: int) {
    Canvas1.RowImage((w + 7) / 8, bitmap)(i, j)
  }

  ghost function ColourAt(bitmap: seq<bv8>, w: int, x: int, y: int, color: int, bg: int): (int, int) -> int {
    (px: int, py: int) => if BitmapBit(bitmap, w, px - x, py - y) then color else bg
  }

  /** The byte after k shifts to the left: `b <<= 1` once per pixel. */
  function Shifted(b: bv8, k: nat): bv8 {
    if k == 0 then b else Shifted(b, k - 1) << 1
  }

  lemma Unshift(b: bv8, k: nat)
    requires 0 < k < 8
    ensures Get(b << 1, k) == Get(b, k - 1)
  {
  }

  lemma {:induction false} ShiftedBit(b: bv8, k: nat, j: nat)
    requires k <= j < 8
    ensures Get(Shifted(b, k), j) == Get(b, j - k)
  {
    if k > 0 {
      Unshift(Shifted(b, k - 1), j);
      ShiftedBit(b, k - 1, j - 1);
    }
  }

  /** The test `b & 0x80` after k shifts reads pixel k of the byte. */
  lemma ShiftRegister(b: bv8, k: nat)
    requires k < 8
    ensures Shifted(b, k) & 0x80 != 0 <==> Canvas1.Lit(b, k)
  {
    ShiftedBit(b, k, 7);
    assert Get(Shifted(b, k), 7) <==> Shifted(b, k) & 0x80 != 0;
  }

  /** Rows above j, and in row j the first i pixels. */
  ghost function Scanned(x: int, y: int, w: int, j: int, i: int): Region {
    (px: int, py: int) => x <= px < x + w && y <= py && (py < y + j || (py == y + j && px < x + i))
  }

  /** Between two pixels: the shift register holds the byte of the previous pixel, shifted to it. */
  ghost predicate Loaded(bits: seq<bv8>, w: int, j: int, i: nat, b: bv8) {
    i % 8 != 0 ==> b == Shifted(ByteAt(bits, (w + 7) / 8, j, i), i % 8 - 1)
  }

  /** `if (i & 7) b <<= 1; else b = bitmap[j * byteWidth + i / 8];` */
  method ReadPixel(bitmap: array<bv8>, w: int16, h: int16, byteWidth: int16, j: int16, i: int16, b0: bv8)
    returns (b: bv8)
    requires 0 <= i < w && 0 <= j < h && byteWidth == (w + 7) / 8 && h * byteWidth <= bitmap.Length
    requires Loaded(bitmap[..], w, j, i, b0)
    ensures Loaded(bitmap[..], w, j, i + 1, b)
    ensures b & 0x80 != 0 <==> BitmapBit(bitmap[..], w, i, j)
  {
    hide Shifted, BitmapBit;
    ByteInside(byteWidth, h, bitmap.Length, w, j, i);
    var k := i % 8;
    if k != 0 {
      ShiftOnce(b0, ByteAt(bitmap[..], byteWidth, j, i), k);
      b := b0 << 1;
    } else {
      b := bitmap[j * byteWidth + i / 8];
      ShiftNone(b);
    }
    ReadBit(bitmap[..], w, h, i, j, b);
    NextByte(bitmap[..], byteWidth, j, i);
    StillLoaded(bitmap[..], w, j, i, b);
  }

  method DrawBitmap(d: Ssd1306.Ssd1306, x: int16, y0: int16, bitmap: array<bv8>, w: int16, h: int16,
                    color: uint16, bg: uint16)
    requires d.Valid() && bitmap != d.buffer && 0 <= w && 0 <= h
    requires h * ((w + 7) / 8) <= bitmap.Length
    modifies d.buffer
    ensures Pictured(d.Geo(), old(d.Pages()), d.Pages(), Box(x, y0, w, h), ColourAt(bitmap[..], w, x, y0, color, bg))
  {
    hide Pictured, Painted, Scanned, Loaded, ColourAt, BitmapBit, Ssd1306.PageImage, Wrap16;
    WrapNext();
    ghost var g, was, bits := d.Geo(), d.Pages(), bitmap[..];
    ghost var colour := ColourAt(bits, w, x, y0, color, bg);
    var byteWidth: int16 := (w + 7) / 8;
    var b: bv8 := 0;
    var y: int16 := y0;
    var j: int16 := 0;
    StartScan(g, was, x, y0, w, colour);
    while j < h
      invariant 0 <= j <= h && y == Wrap16(y0 + j)
      invariant Pictured(g, was, d.Pages(), Scanned(x, y0, w, j, 0), colour)
    {
      var i: int16 := 0;
      NothingLoaded(bits, w, j, b);
      while i < w
        invariant 0 <= i <= w && Loaded(bits, w, j, i, b)
        invariant Pictured(g, was, d.Pages(), Scanned(x, y0, w, j, i), colour)
      {
        ghost var mid := d.Pages();
        b := ReadPixel(bitmap, w, h, byteWidth, j, i, b);
        d.DrawPixel(Wrap16(x + i), y, if b & 0x80 != 0 then color else bg);
        NextPixel(g, was, mid, d.Pages(), bits, x, y0, w, j, i, color, bg);
        i := i + 1;
      }
      NextScanline(g, was, d.Pages(), x, y0, w, j, colour);
      j := j + 1;
      y := Wrap16(y + 1);
    }
    FinishScan(g, was, d.Pages(), x, y0, w, h, colour);
  }

  /** The same function drawing on a canvas instead of the display. */
  method DrawBitmapOnCanvas(d: Canvas1.GFXcanvas1, x: int16, y0: int16, bitmap: array<bv8>, w: int16, h: int16,
                            color: uint16, bg: uint16)
    requires d.Valid() && bitmap != d.buffer && 0 <= w && 0 <= h
    requires h * ((w + 7) / 8) <= bitmap.Length
    modifies d.buffer
    ensures Pictured(d.Geo(), old(d.Rows()), d.Rows(), Box(x, y0, w, h),
                     ColourAt(bitmap[..], w, x, y0, Canvas1.Mode(color), Canvas1.Mode(bg)))
  {
    hide Pictured, Painted, Scanned, Loaded, ColourAt, BitmapBit, Canvas1.Mode, Canvas1.RowImage, Wrap16;
    WrapNext();
    ghost var g, was, bits := d.Geo(), d.Rows(), bitmap[..];
    ghost var on, off := Canvas1.Mode(color), Canvas1.Mode(bg);
    ghost var colour := ColourAt(bits, w, x, y0, on, off);
    var byteWidth: int16 := (w + 7) / 8;
    var b: bv8 := 0;
    var y: int16 := y0;
    var j: int16 := 0;
    StartScan(g, was, x, y0, w, colour);
    while j < h
      invariant 0 <= j <= h && y == Wrap16(y0 + j)
      invariant Pictured(g, was, d.Rows(), Scanned(x, y0, w, j, 0), colour)
    {
      var i: int16 := 0;
      NothingLoaded(bits, w, j, b);
      while i < w
        invariant 0 <= i <= w && Loaded(bits, w, j, i, b)
        invariant Pictured(g, was, d.Rows(), Scanned(x, y0, w, j, i), colour)
      {
        ghost var mid := d.Rows();
        b := ReadPixel(bitmap, w, h, byteWidth, j, i, b);
        d.DrawPixel(Wrap16(x + i), y, if b & 0x80 != 0 then color else bg);
        NextPixel(g, was, mid, d.Rows(), bits, x, y0, w, j, i, on, off);
        i := i + 1;
      }
      NextScanline(g, was, d.Rows(), x, y0, w, j, colour);
      j := j + 1;
      y := Wrap16(y + 1);
    }
    FinishScan(g, was, d.Rows(), x, y0, w, h, colour);
  }

  /** A pixel whose coordinates wrap is off the screen, before and after. */
  lemma WrappedDot(g: Geometry, a: Image, b: Image, color: int, x: int, y: int)
    requires g.Valid() && -0x8000 <= x <= 0xFFFE && -0x8000 <= y <= 0xFFFE
    requires Painted(g, a, b, color, Box(Wrap16(x), Wrap16(y), 1, 1))
    ensures Painted(g, a, b, color, Box(x, y, 1, 1))
  {
    hide PaintedRaw;
    var R, S := Box(Wrap16(x), Wrap16(y), 1, 1), Box(x, y, 1, 1);
    forall c, r ensures OnRaw(g, R)(c, r) <==> OnRaw(g, S)(c, r) {
      var px, py := g.UserX(c, r), g.UserY(c, r);
      RotationBijective(g, px, py, c, r);
      assert g.OnScreen(px, py) ==> (R(px, py) <==> S(px, py));
    }
    SameRegion(a, b, color, OnRaw(g, R), OnRaw(g, S));
  }

  lemma NothingLoaded(bits: seq<bv8>, w: int, j: int, b: bv8)
    ensures Loaded(bits, w, j, 0, b)
  {
  }

  lemma StillLoaded(bits: seq<bv8>, w: int, j: int, i: int, b: bv8)
    requires 0 <= i && b == Shifted(ByteAt(bits, (w + 7) / 8, j, i), i % 8)
    ensures Loaded(bits, w, j, i + 1, b)
  {
    hide Shifted;
    NextByte(bits, (w + 7) / 8, j, i);
    assert (i + 1) % 8 != 0 ==> (i + 1) % 8 - 1 == i % 8;
  }

  ghost function ByteAt(bits: seq<bv8>, byteWidth: int, j: int, i: int): bv8 {
    if 0 <= j * byteWidth + i / 8 < |bits| then bits[j * byteWidth + i / 8] else 0
  }

  lemma ByteInside(byteWidth: int, h: int, n: int, w: int, j: int, i: int)
    requires 0 <= j < h && 0 <= i < w && byteWidth == (w + 7) / 8 && h * byteWidth <= n
    ensures 0 <= j * byteWidth + i / 8 < n
  {
    IndexBound(byteWidth, h, j, i / 8);
  }

  lemma ShiftOnce(b: bv8, source: bv8, k: nat)
    requires 0 < k && b == Shifted(source, k - 1)
    ensures b << 1 == Shifted(source, k)
  {
  }

  lemma ShiftNone(b: bv8)
    ensures b == Shifted(b, 0)
  {
  }

  lemma NextByte(bits: seq<bv8>, byteWidth: int, j: int, i: int)
    requires 0 <= i
    ensures (i + 1) % 8 != 0 ==> ByteAt(bits, byteWidth, j, i + 1) == ByteAt(bits, byteWidth, j, i)
  {
    assert (i + 1) % 8 != 0 ==> (i + 1) / 8 == i / 8;
  }

  lemma ReadBit(bits: seq<bv8>, w: int, h: int, i: int, j: int, b: bv8)
    requires 0 <= i < w && 0 <= j < h && h * ((w + 7) / 8) <= |bits|
    requires b == Shifted(ByteAt(bits, (w + 7) / 8, j, i), i % 8)
    ensures b & 0x80 != 0 <==> BitmapBit(bits, w, i, j)
  {
    hide Canvas1.Lit, Shifted;
    ByteInside((w + 7) / 8, h, |bits|, w, j, i);
    ShiftRegister(ByteAt(bits, (w + 7) / 8, j, i), i % 8);
  }

  lemma StartScan(g: Geometry, was: Image, x: int, y: int, w: int, colour: (int, int) -> int)
    ensures Pictured(g, was, was, Scanned(x, y, w, 0, 0), colour)
  {
    EmptyPicture(g, was, Scanned(x, y, w, 0, 0), colour);
  }

  lemma NextPixel(g: Geometry, was: Image, mid: Image, now: Image, bits: seq<bv8>, x: int, y: int, w: int,
                  j: int, i: int, color: int, bg: int)
    requires 0 <= i < w && 0 <= j && g.Valid() && -0x8000 <= x <= x + i <= 0xFFFE && -0x8000 <= y <= y + j <= 0xFFFE
    requires Pictured(g, was, mid, Scanned(x, y, w, j, i), ColourAt(bits, w, x, y, color, bg))
    requires Painted(g, mid, now, if BitmapBit(bits, w, i, j) then color else bg,
                     Box(Wrap16(x + i), Wrap16(y + j), 1, 1))
    ensures Pictured(g, was, now, Scanned(x, y, w, j, i + 1), ColourAt(bits, w, x, y, color, bg))
  {
    hide Pictured, Painted, BitmapBit, Wrap16;
    WrappedDot(g, mid, now, if BitmapBit(bits, w, i, j) then color else bg, x + i, y + j);
    assert x + i - x == i && y + j - y == j;
    PictureBox(g, was, mid, now, Scanned(x, y, w, j, i), Box(x + i, y + j, 1, 1), Scanned(x, y, w, j, i + 1),
               ColourAt(bits, w, x, y, color, bg), if BitmapBit(bits, w, i, j) then color else bg);
  }

  lemma NextScanline(g: Geometry, was: Image, now: Image, x: int, y: int, w: int, j: int, colour: (int, int) -> int)
    requires 0 <= w && 0 <= j && Pictured(g, was, now, Scanned(x, y, w, j, w), colour)
    ensures Pictured(g, was, now, Scanned(x, y, w, j + 1, 0), colour)
  {
    hide Pictured;
    SamePicture(g, was, now, Scanned(x, y, w, j, w), Scanned(x, y, w, j + 1, 0), colour);
  }

  lemma FinishScan(g: Geometry, was: Image, now: Image, x: int, y: int, w: int, h: int, colour: (int, int) -> int)
    requires 0 <= h && Pictured(g, was, now, Scanned(x, y, w, h, 0), colour)
    ensures Pictured(g, was, now, Box(x, y, w, h), colour)
  {
    hide Pictured;
    SamePicture(g, was, now, Scanned(x, y, w, h, 0), Box(x, y, w, h), colour);
  }

  /** A canvas buffer drawn in (white, black) at the origin of an unrotated panel of the same size is
      reproduced: every pixel of the panel equals the canvas's raw pixel, whatever was there before. */
  lemma CanvasRoundTrip(W: int, H: int, canvas: seq<bv8>, before: Image, after: Image)
    requires 0 <= W && 0 <= H
    requires Pictured(Geometry(W, H, 0), before, after, Box(0, 0, W, H), ColourAt(canvas, W, 0, 0, WHITE, BLACK))
    ensures forall c, r :: 0 <= c < W && 0 <= r < H ==>
              after(c, r) == Canvas1.RowImage(Canvas1.RowBytes(W), canvas)(c, r)
  {
    var g := Geometry(W, H, 0);
    forall c, r | 0 <= c < W && 0 <= r < H
      ensures after(c, r) == Canvas1.RowImage(Canvas1.RowBytes(W), canvas)(c, r)
    {
      assert Box(0, 0, W, H)(g.UserX(c, r), g.UserY(c, r)) <==> Box(0, 0, W, H)(c, r);
    }
  }

  /** `display.drawBitmap(0, 0, canvas.getBuffer(), WIDTH, HEIGHT, WHITE, BLACK)`: the display shows the canvas. */
  method CopyToDisplay(src: Canvas1.GFXcanvas1, d: Ssd1306.Ssd1306)
    requires src.Valid() && d.Valid() && src.buffer != d.buffer
    requires d.rotation == 0 && src.WIDTH == d.WIDTH && src.HEIGHT == d.HEIGHT
    modifies d.buffer
    ensures forall c, r :: 0 <= c < d.WIDTH && 0 <= r < d.HEIGHT ==> d.Pages()(c, r) == src.Rows()(c, r)
  {
    hide Pictured, ColourAt, Canvas1.RowImage, Ssd1306.PageImage;
    ghost var was := d.Pages();
    DrawBitmap(d, 0, 0, src.buffer, d.WIDTH, d.HEIGHT, WHITE, BLACK);
    CanvasRoundTrip(d.WIDTH, d.HEIGHT, src.buffer[..], was, d.Pages());
  }

  /** The same onto another canvas, in any colour but 0 on 0. */
  method CopyToCanvas(src: Canvas1.GFXcanvas1, d: Canvas1.GFXcanvas1, color: uint16)
    requires src.Valid() && d.Valid() && src.buffer != d.buffer && color > 0
    requires d.rotation == 0 && src.WIDTH == d.WIDTH && src.HEIGHT == d.HEIGHT
    modifies d.buffer
    ensures forall c, r :: 0 <= c < d.WIDTH && 0 <= r < d.HEIGHT ==> d.Rows()(c, r) == src.Rows()(c, r)
  {
    hide Pictured, ColourAt, Canvas1.RowImage;
    ghost var was := d.Rows();
    DrawBitmapOnCanvas(d, 0, 0, src.buffer, d.WIDTH, d.HEIGHT, color, 0);
    CanvasRoundTrip(d.WIDTH, d.HEIGHT, src.buffer[..], was, d.Rows());
  }
}
