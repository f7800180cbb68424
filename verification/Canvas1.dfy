/** The 1-bit canvas: rows are padded to whole bytes, and the most significant bit is the leftmost pixel. */
module Canvas1 {
  import opened Bytes
  import opened Screen

  // ---- the row layout ----------------------------------------------------------------------

  ghost function RowImage(rb: int, buf: seq<bv8>): Image {
    (c: int, r: int) =>
      0 <= c && c / 8 < rb && 0 <= r && 0 <= r * rb + c / 8 < |buf| && Lit(buf[r * rb + c / 8], c % 8)
  }

  /** `0x80 >> j`, the mask of the j-th pixel of a byte. */
  function BitOf(j: nat): bv8
    requires j < 8
  {
    Mask(7 - j)
  }

  /** The j-th pixel of a byte, from the left. */
  predicate Lit(b: bv8, j: nat)
    requires j < 8
  {
    Get(b, 7 - j)
  }

  /** Within the byte that starts at column 8 * q, the mask selects exactly the columns lo..hi-1. */
  ghost predicate CoversColumns(mask: bv8, q: int, lo: int, hi: int) {
    forall j :: 0 <= j < 8 ==> (Lit(mask, j) <==> lo <= 8 * q + j < hi)
  }

  /** The value of a byte after `if (color) |= mask else &= ~mask`. */
  function Masked(color: int, b: bv8, mask: bv8): bv8 {
    if color > 0 then b | mask else b & !mask
  }

  /** The drawing mode of a canvas colour: every colour but 0 sets the pixel. */
  function Mode(color: int): int {
    if color > 0 then WHITE else BLACK
  }

  lemma PixelAt(rb: int, H: int, buf: seq<bv8>, c: int, r: int)
    requires 0 <= c < 8 * rb && 0 <= r < H && |buf| == H * rb
    ensures 0 <= c / 8 + r * rb < |buf|
    ensures RowImage(rb, buf)(c, r) == Lit(buf[c / 8 + r * rb], c % 8)
  {
    IndexBound(rb, H, r, c / 8);
  }

  /** A byte is the binary number of its eight pixels, the leftmost highest. */
  lemma RowValue(rb: int, H: int, s: seq<bv8>, q: int, r: int)
    requires 0 <= q < rb && 0 <= r < H && |s| == H * rb
    ensures 0 <= r * rb + q < |s|
    ensures Value(seq(8, j requires 0 <= j < 8 => RowImage(rb, s)(8 * q + j, r))) == s[r * rb + q] as int
  {
    hide RowImage, Value, Get;
    IndexBound(rb, H, r, q);
    var bits := seq(8, j requires 0 <= j < 8 => RowImage(rb, s)(8 * q + j, r));
    forall j | 0 <= j < 8 ensures bits[j] == Get(s[r * rb + q], 7 - j) {
      PixelAt(rb, H, s, 8 * q + j, r);
      assert (8 * q + j) / 8 == q && (8 * q + j) % 8 == j;
    }
    ByteValue(s[r * rb + q], bits);
  }

  lemma MaskedLit(color: int, b: bv8, mask: bv8, j: nat)
    requires j < 8
    ensures Lit(Masked(color, b, mask), j) == if Lit(mask, j) then Apply(Mode(color), Lit(b, j)) else Lit(b, j)
  {
    OrBits(b, mask, 7 - j);
    AndNotBits(b, mask, 7 - j);
  }

  lemma StoreMasked(rb: int, H: int, s: seq<bv8>, q: int, r: int, color: int, mask: bv8, lo: int, hi: int)
    requires 0 <= q < rb && 0 <= r < H && |s| == H * rb && 0 <= r * rb + q < |s|
    requires 8 * q <= lo && hi <= 8 * q + 8 && CoversColumns(mask, q, lo, hi)
    ensures PaintedRaw(RowImage(rb, s), RowImage(rb, s[r * rb + q := Masked(color, s[r * rb + q], mask)]), Mode(color),
                       Box(lo, r, hi - lo, 1))
  {
    var i, b := r * rb + q, s[r * rb + q];
    var nb := Masked(color, b, mask);
    forall j | 0 <= j < 8
      ensures Lit(nb, j) == if lo <= 8 * q + j < hi then Apply(Mode(color), Lit(b, j)) else Lit(b, j)
    {
      MaskedLit(color, b, mask, j);
    }
    StoreByte(rb, H, s, q, r, nb, Mode(color), lo, hi);
  }

  lemma StoreByte(rb: int, H: int, s: seq<bv8>, q: int, r: int, nb: bv8, mode: int, lo: int, hi: int)
    requires 0 <= q < rb && 0 <= r < H && |s| == H * rb && 0 <= r * rb + q < |s|
    requires 8 * q <= lo && hi <= 8 * q + 8
    requires forall j :: 0 <= j < 8 ==>
      Lit(nb, j) == if lo <= 8 * q + j < hi then Apply(mode, Lit(s[r * rb + q], j)) else Lit(s[r * rb + q], j)
    ensures PaintedRaw(RowImage(rb, s), RowImage(rb, s[r * rb + q := nb]), mode, Box(lo, r, hi - lo, 1))
  {
    var i := r * rb + q;
    hide Lit, Apply;
    forall a, b
      ensures RowImage(rb, s[i := nb])(a, b)
           == if Box(lo, r, hi - lo, 1)(a, b) then Apply(mode, RowImage(rb, s)(a, b)) else RowImage(rb, s)(a, b)
    {
      if 0 <= a && a / 8 < rb && 0 <= b {
        var p, j := a / 8, a % 8;
        assert a == 8 * p + j && 0 <= j < 8;
        IndexBound(rb, H, b, p);
        if b * rb + p == i {
          IndexInjective(rb, b, p, r, q);
        }
      }
    }
  }

  lemma BitOfColumn(c: int)
    requires 0 <= c
    ensures CoversColumns(BitOf(c % 8), c / 8, c, c + 1)
  {
    forall j | 0 <= j < 8 ensures Lit(BitOf(c % 8), j) <==> c <= 8 * (c / 8) + j < c + 1 {
      MaskBits(7 - c % 8, 7 - j);
    }
  }

  /** Bit k of byte q is the pixel in column 8 * q + 7 - k. */
  lemma ColumnOf(q: int, k: nat)
    requires 0 <= q && k < 8
    ensures (8 * q + (7 - k)) / 8 == q && (8 * q + (7 - k)) % 8 == 7 - k && 7 - (7 - k) == k
  {
  }

  /** Two buffers that show the same pixels, padding columns included, are equal byte for byte. */
  lemma SamePixelsSameBuffer(rb: int, H: int, s: seq<bv8>, t: seq<bv8>)
    requires 0 <= rb && 0 <= H && |s| == |t| == H * rb
    requires forall c, r :: RowImage(rb, s)(c, r) == RowImage(rb, t)(c, r)
    ensures s == t
  {
    hide Get;
    forall i | 0 <= i < |s| ensures s[i] == t[i] {
      assert rb > 0;
      var r, q := i / rb, i % rb;
      assert i == r * rb + q;
      IndexBound(rb, H, r, q);
      forall k | 0 <= k < 8 ensures Get(s[i], k) == Get(t[i], k) {
        ColumnOf(q, k);
        var c := 8 * q + (7 - k);
        assert RowImage(rb, s)(c, r) == RowImage(rb, t)(c, r);
      }
      SameBits(s[i], t[i]);
    }
  }

  lemma NothingPainted(image: Image, mode: int, x: int, y: int)
    ensures PaintedRaw(image, image, mode, Box(x, y, 0, 1))
    ensures PaintedRaw(image, image, mode, Box(x, y, 1, 0))
  {
  }

  /** Exactly the pixels lo..hi-1 of a byte. */
  ghost predicate LitFrom(mask: bv8, lo: int, hi: int) {
    forall j :: 0 <= j < 8 ==> (Lit(mask, j) <==> lo <= j < hi)
  }

  lemma MaskWithBit(mask: bv8, start: nat, i: nat)
    requires start <= i < 8 && LitFrom(mask, start, i)
    ensures LitFrom(mask | BitOf(i), start, i + 1)
  {
    hide Get, Mask;
    var m := mask | BitOf(i);
    forall j | 0 <= j < 8 ensures Lit(m, j) <==> start <= j < i + 1 {
      OrBits(mask, BitOf(i), 7 - j);
      MaskBits(7 - i, 7 - j);
      assert Lit(mask, j) <==> start <= j < i;
    }
  }

  function WholeByte(color: int): bv8 {
    if color > 0 then 0xFF else 0
  }

  lemma StoreWhole(rb: int, H: int, s: seq<bv8>, q: int, r: int, color: int)
    requires 0 <= q < rb && 0 <= r < H && |s| == H * rb && 0 <= r * rb + q < |s| && 0 <= color
    ensures PaintedRaw(RowImage(rb, s), RowImage(rb, s[r * rb + q := WholeByte(color)]), Mode(color),
                       Box(8 * q, r, 8, 1))
  {
    var b := s[r * rb + q];
    forall j | 0 <= j < 8 ensures Lit(WholeByte(color), j) == Apply(Mode(color), Lit(b, j)) {
      ConstantBits(7 - j);
    }
    StoreByte(rb, H, s, q, r, WholeByte(color), Mode(color), 8 * q, 8 * q + 8);
  }

  /** A clipped, rotated line on the panel is the line asked for, clipped. */
  lemma ClippedLine(g: Geometry, was: Image, now: Image, mode: int, x: int, y: int, w: int, h: int,
                    x0: int, y0: int, w0: int, h0: int)
    requires g.Valid()
    requires forall a, b :: g.OnScreen(a, b) ==> (Box(x, y, w, h)(a, b) <==> Box(x0, y0, w0, h0)(a, b))
    requires forall a, b :: Box(x, y, w, h)(a, b) ==> g.OnScreen(a, b)
    requires var q := Rotated(g, x, y, w, h); PaintedRaw(was, now, mode, Box(q.x, q.y, q.w, q.h))
    ensures Painted(g, was, now, mode, Box(x0, y0, w0, h0))
  {
    hide PaintedRaw;
    var q := Rotated(g, x, y, w, h);
    forall c, r ensures Box(q.x, q.y, q.w, q.h)(c, r) <==> OnRaw(g, Box(x0, y0, w0, h0))(c, r) {
      var a, b := g.UserX(c, r), g.UserY(c, r);
      RotationBijective(g, a, b, c, r);
      assert Box(q.x, q.y, q.w, q.h)(c, r) <==> Box(x, y, w, h)(a, b);
      assert g.OnScreen(a, b) ==> (Box(x, y, w, h)(a, b) <==> Box(x0, y0, w0, h0)(a, b));
    }
    SameRegion(was, now, mode, Box(q.x, q.y, q.w, q.h), OnRaw(g, Box(x0, y0, w0, h0)));
  }

  // ---- per-pixel drawing, the reference the fast lines are measured against ----------------

  function RowBytes(W: int): int {
    (W + 7) / 8
  }

  /** A buffer with the size of the canvas. */
  ghost predicate Sized(g: Geometry, s: seq<bv8>) {
    g.Valid() && |s| == g.HEIGHT * RowBytes(g.WIDTH)
  }

  ghost function Shown(g: Geometry, s: seq<bv8>): Image {
    RowImage(RowBytes(g.WIDTH), s)
  }

  /** The buffer after one call of drawPixel. */
  ghost function PutPixel(g: Geometry, s: seq<bv8>, x: int, y: int, color: int): (t: seq<bv8>)
    requires Sized(g, s)
    ensures Sized(g, t)
  {
    if g.OnScreen(x, y) then
      RotationBijective(g, x, y, g.RawX(x, y), g.RawY(x, y));
      var c, r, rb := g.RawX(x, y), g.RawY(x, y), RowBytes(g.WIDTH);
      PixelAt(rb, g.HEIGHT, s, c, r);
      s[r * rb + c / 8 := Masked(color, s[r * rb + c / 8], BitOf(c % 8))]
    else s
  }

  /** The buffer after one call of drawPixel for each point, in order. */
  ghost function EachPixel(g: Geometry, s: seq<bv8>, pts: seq<(int, int)>, color: int): (t: seq<bv8>)
    requires Sized(g, s)
    ensures Sized(g, t)
  {
    if pts == [] then s
    else PutPixel(g, EachPixel(g, s, pts[..|pts| - 1], color), pts[|pts| - 1].0, pts[|pts| - 1].1, color)
  }

  lemma PutPixelPaints(g: Geometry, s: seq<bv8>, x: int, y: int, color: int)
    requires Sized(g, s)
    ensures Painted(g, Shown(g, s), Shown(g, PutPixel(g, s, x, y, color)), Mode(color), Box(x, y, 1, 1))
  {
    hide PaintedRaw, Mode, RowImage, CoversColumns, Masked, BitOf;
    var was, now := Shown(g, s), Shown(g, PutPixel(g, s, x, y, color));
    if g.OnScreen(x, y) {
      var c, r, rb := g.RawX(x, y), g.RawY(x, y), RowBytes(g.WIDTH);
      RotationBijective(g, x, y, c, r);
      BitOfColumn(c);
      PixelAt(rb, g.HEIGHT, s, c, r);
      StoreMasked(rb, g.HEIGHT, s, c / 8, r, color, BitOf(c % 8), c, c + 1);
      ClippedBox(g.(rotation := 0), was, now, Mode(color), c, r, 1, 1, c, r, 1, 1);
      PaintRotated(g, was, now, Mode(color), x, y, 1, 1, Rect(c, r, 1, 1));
    } else {
      PaintNothing(g, was, Mode(color), x, y, 1, 1);
    }
  }

  /** The images that drawPixel passes through, point by point. */
  ghost function Steps(g: Geometry, s: seq<bv8>, pts: seq<(int, int)>, color: int): (images: seq<Image>)
    requires Sized(g, s)
    ensures |images| == |pts| + 1
  {
    seq(|pts| + 1, i requires 0 <= i <= |pts| => Shown(g, EachPixel(g, s, pts[..i], color)))
  }

  /** A painted region determines the whole buffer, padding included: it is the one that drawPixel over its
      visible points, in any order, leaves. */
  lemma PaintedIsEachPixel(g: Geometry, s: seq<bv8>, t: seq<bv8>, pts: seq<(int, int)>, color: int, R: Region)
    requires Sized(g, s) && Sized(g, t) && Distinct(pts)
    requires Painted(g, Shown(g, s), Shown(g, t), Mode(color), R)
    requires forall x, y :: g.OnScreen(x, y) ==> (R(x, y) <==> (x, y) in pts)
    ensures t == EachPixel(g, s, pts, color)
  {
    hide Painted, Mode, RowImage, PutPixel, Geometry.OnScreen;
    var images := Steps(g, s, pts, color);
    forall i | 0 <= i < |pts| ensures Painted(g, images[i], images[i + 1], Mode(color), Box(pts[i].0, pts[i].1, 1, 1)) {
      var front := pts[..i + 1];
      assert front[..i] == pts[..i];
      PutPixelPaints(g, EachPixel(g, s, pts[..i], color), pts[i].0, pts[i].1, color);
    }
    assert pts[..|pts|] == pts && pts[..0] == [];
    PaintedIsPixelRun(g, Shown(g, t), R, images, pts, Mode(color));
    SamePixelsSameBuffer(RowBytes(g.WIDTH), g.HEIGHT, t, EachPixel(g, s, pts, color));
  }

  lemma PixelSet(g: Geometry, was: Image, now: Image, x: int, y: int, color: int)
    requires g.Valid() && 0 <= color && Painted(g, was, now, Mode(color), Box(x, y, 1, 1))
    ensures g.OnScreen(x, y) ==> now(g.RawX(x, y), g.RawY(x, y)) == (color != 0)
  {
    RotationBijective(g, x, y, g.RawX(x, y), g.RawY(x, y));
  }

  lemma SamePaint(g: Geometry, s: seq<bv8>, t: seq<bv8>, u: seq<bv8>, mode: int, R: Region)
    requires Sized(g, s) && Sized(g, t) && Sized(g, u)
    requires Painted(g, Shown(g, s), Shown(g, t), mode, R) && Painted(g, Shown(g, s), Shown(g, u), mode, R)
    ensures t == u
  {
    hide RowImage;
    SamePixelsSameBuffer(RowBytes(g.WIDTH), g.HEIGHT, t, u);
  }

  lemma DarkRows(rb: int, s: seq<bv8>)
    requires forall i :: 0 <= i < |s| ==> s[i] == 0
    ensures forall c, r :: !RowImage(rb, s)(c, r)
  {
    forall c, r ensures !RowImage(rb, s)(c, r) {
      if 0 <= c {
        ConstantBits(7 - c % 8);
      }
    }
  }

  class GFXcanvas1 {
    const WIDTH: int
    const HEIGHT: int
    const buffer: array<bv8>
    var rotation: int
    var width: int
    var height: int

    ghost predicate Valid()
      reads this
    {
      && 0 <= WIDTH <= 0x7FFF && 0 <= HEIGHT <= 0x7FFF && 0 <= rotation < 4
      && width == Geo().Width() && height == Geo().Height()
      && buffer.Length == HEIGHT * RowBytes(WIDTH)
    }

    ghost function Geo(): Geometry
      reads this
    {
      Geometry(WIDTH, HEIGHT, rotation)
    }

    ghost function Rows(): Image
      reads this, buffer
    {
      RowImage(RowBytes(WIDTH), buffer[..])
    }

    /** The base class keeps the size in signed 16 bits, so larger sizes make no usable canvas. */
    constructor (w: uint16, h: uint16)
      ensures fresh(buffer) && buffer.Length == h * RowBytes(w)
      ensures WIDTH == Wrap16(w) && HEIGHT == Wrap16(h) && rotation == 0
      ensures w <= 0x7FFF && h <= 0x7FFF <==> Valid()
      ensures forall c, r :: !Rows()(c, r)
    {
      Scale(RowBytes(w), 0, h);
      WIDTH, HEIGHT, rotation, width, height := Wrap16(w), Wrap16(h), 0, Wrap16(w), Wrap16(h);
      buffer := new bv8[h * RowBytes(w)](_ => 0);
      new;
      DarkRows(RowBytes(WIDTH), buffer[..]);
    }

    method SetRotation(x: uint8)
      requires Valid()
      modifies this
      ensures Valid() && rotation == x % 4
    {
      rotation := x % 4;
      if rotation == 0 || rotation == 2 {
        width, height := WIDTH, HEIGHT;
      } else {
        width, height := HEIGHT, WIDTH;
      }
    }

    /** `*ptr |= mask` or `*ptr &= ~mask` for the byte q of row r. */
    method WriteMasked(q: int, r: int, color: uint16, mask: bv8, ghost lo: int, ghost hi: int)
      requires Valid() && 0 <= q < RowBytes(WIDTH) && 0 <= r < HEIGHT
      requires 8 * q <= lo && hi <= 8 * q + 8 && CoversColumns(mask, q, lo, hi)
      modifies buffer
      ensures PaintedRaw(old(Rows()), Rows(), Mode(color), Box(lo, r, hi - lo, 1))
    {
      hide PaintedRaw, RowImage, CoversColumns, Masked;
      IndexBound(RowBytes(WIDTH), HEIGHT, r, q);
      var i := r * RowBytes(WIDTH) + q;
      ghost var was := buffer[..];
      buffer[i] := Masked(color, buffer[i], mask);
      assert buffer[..] == was[i := Masked(color, was[i], mask)];
      StoreMasked(RowBytes(WIDTH), HEIGHT, was, q, r, color, mask, lo, hi);
    }

    method DrawPixel(x0: int16, y0: int16, color: uint16)
      requires Valid()
      modifies buffer
      ensures Painted(Geo(), old(Rows()), Rows(), Mode(color), Box(x0, y0, 1, 1))
      ensures buffer[..] == PutPixel(Geo(), old(buffer[..]), x0, y0, color)
      ensures Geo().OnScreen(x0, y0) ==> Rows()(Geo().RawX(x0, y0), Geo().RawY(x0, y0)) == (color != 0)
    {
      hide PaintedRaw, RowImage, CoversColumns, Mask, PutPixel;
      ghost var g, was := Geo(), buffer[..];
      if x0 < 0 || y0 < 0 || x0 >= width || y0 >= height {
        PaintNothing(g, Rows(), Mode(color), x0, y0, 1, 1);
      } else {
        StorePixel(x0, y0, color);
      }
      PutPixelPaints(g, was, x0, y0, color);
      SamePaint(g, was, buffer[..], PutPixel(g, was, x0, y0, color), Mode(color), Box(x0, y0, 1, 1));
      PixelSet(g, Shown(g, was), Rows(), x0, y0, color);
    }

    /** A pixel on the screen: rotate and store one bit. */
    method StorePixel(x0: int16, y0: int16, color: uint16)
      requires Valid() && Geo().OnScreen(x0, y0)
      modifies buffer
      ensures Painted(Geo(), old(Rows()), Rows(), Mode(color), Box(x0, y0, 1, 1))
    {
      hide PaintedRaw, RowImage, CoversColumns, Mask;
      var x, y := x0, y0;
      match rotation {
        case 1 =>
          var t := x;
          x := WIDTH - 1 - y;
          y := t;
        case 2 =>
          x := WIDTH - 1 - x;
          y := HEIGHT - 1 - y;
        case 3 =>
          var t := x;
          x := y;
          y := HEIGHT - 1 - t;
        case _ =>
      }
      BitOfColumn(x);
      WriteMasked(x / 8, y, color, BitOf(x % 8), x, x + 1);
      ClippedBox(Geo().(rotation := 0), old(Rows()), Rows(), Mode(color), x, y, 1, 1, x, y, 1, 1);
      PaintRotated(Geo(), old(Rows()), Rows(), Mode(color), x0, y0, 1, 1, Rect(x, y, 1, 1));
    }

    method GetRawPixel(x: int16, y: int16) returns (on: bool)
      requires Valid()
      ensures on <==> Geo().OnPanel(x, y) && Rows()(x, y)
    {
      hide RowImage, Mask;
      if x < 0 || y < 0 || x >= WIDTH || y >= HEIGHT {
        return false;
      }
      PixelAt(RowBytes(WIDTH), HEIGHT, buffer[..], x, y);
      return buffer[x / 8 + y * RowBytes(WIDTH)] & BitOf(x % 8) != 0;
    }

    /** getPixel checks bounds after rotating; points off the screen read as false all the same. */
    method GetPixel(x0: int16, y0: int16) returns (on: bool)
      requires Valid()
      ensures on <==> Geo().OnScreen(x0, y0) && Rows()(Geo().RawX(x0, y0), Geo().RawY(x0, y0))
    {
      hide RowImage;
      var x, y := x0, y0;
      match rotation {
        case 1 =>
          var t := x;
          x := Wrap16(WIDTH - 1 - y);
          y := t;
        case 2 =>
          x := Wrap16(WIDTH - 1 - x);
          y := Wrap16(HEIGHT - 1 - y);
        case 3 =>
          var t := x;
          x := y;
          y := Wrap16(HEIGHT - 1 - t);
        case _ =>
      }
      RotationBijective(Geo(), x0, y0, Geo().RawX(x0, y0), Geo().RawY(x0, y0));
      on := GetRawPixel(x, y);
    }

    /** The loops that build a byte mask bit by bit: positions i.. of the byte, at most n of them. */
    method MaskFrom(start: nat, n0: nat) returns (mask: bv8, n: nat)
      requires start <= 8
      ensures n == if n0 < 8 - start then 0 else n0 - (8 - start)
      ensures LitFrom(mask, start, start + n0 - n)
    {
      mask, n := 0, n0;
      var i := start;
      forall j | 0 <= j < 8 ensures !Lit(0, j) {
        ConstantBits(7 - j);
      }
      while i < 8 && n > 0
        invariant start <= i <= 8 && n == n0 - (i - start)
        invariant LitFrom(mask, start, i)
      {
        MaskWithBit(mask, start, i);
        mask := mask | BitOf(i);
        n := n - 1;
        i := i + 1;
      }
    }

    /** `memset(ptr, color > 0 ? 0xFF : 0x00, n)` on n bytes of row r. */
    method FillBytes(q0: int, r: int, n: nat, color: uint16)
      requires Valid() && 0 <= q0 && q0 + n <= RowBytes(WIDTH) && 0 <= r < HEIGHT
      modifies buffer
      ensures PaintedRaw(old(Rows()), Rows(), Mode(color), Box(8 * q0, r, 8 * n, 1))
    {
      hide PaintedRaw, RowImage, CoversColumns, Masked, Mode, Lit;
      ghost var was := Rows();
      NothingPainted(was, Mode(color), 8 * q0, r);
      for k := 0 to n
        invariant PaintedRaw(was, Rows(), Mode(color), Box(8 * q0, r, 8 * k, 1))
      {
        ghost var mid, s := Rows(), buffer[..];
        IndexBound(RowBytes(WIDTH), HEIGHT, r, q0 + k);
        var i := r * RowBytes(WIDTH) + (q0 + k);
        buffer[i] := if color > 0 then 0xFF else 0;
        assert buffer[..] == s[i := WholeByte(color)];
        StoreWhole(RowBytes(WIDTH), HEIGHT, s, q0 + k, r, color);
        PaintBoth(was, mid, Rows(), Mode(color), Box(8 * q0, r, 8 * k, 1), Box(8 * (q0 + k), r, 8, 1),
                  Box(8 * q0, r, 8 * (k + 1), 1));
      }
    }

    /** A byte of row r whose pixels start..start+n-1 are painted. */
    method WritePart(q: int, r: int, start: nat, mask: bv8, n: nat, color: uint16)
      requires Valid() && 0 <= q < RowBytes(WIDTH) && 0 <= r < HEIGHT && start + n <= 8
      requires LitFrom(mask, start, start + n)
      modifies buffer
      ensures PaintedRaw(old(Rows()), Rows(), Mode(color), Box(8 * q + start, r, n, 1))
    {
      hide PaintedRaw, RowImage, Lit;
      WriteMasked(q, r, color, mask, 8 * q + start, 8 * q + start + n);
    }

    /** Raw coordinates, already clipped: partial byte, whole bytes, partial byte. */
    method DrawFastRawHLine(x: int16, y: int16, w: int16, color: uint16)
      requires Valid() && 0 <= w && 0 <= x && x + w <= WIDTH && 0 <= y < HEIGHT && (x < WIDTH || x == w == 0)
      modifies buffer
      ensures PaintedRaw(old(Rows()), Rows(), Mode(color), Box(x, y, w, 1))
    {
      hide PaintedRaw, RowImage, LitFrom, Mode;
      ghost var was := Rows();
      var q, k := x / 8, x % 8;
      assert x == 8 * q + k;
      var remaining: nat := w;
      NothingPainted(was, Mode(color), x, y);
      if k > 0 {
        var mask;
        mask, remaining := MaskFrom(k, w);
        WritePart(q, y, k, mask, w - remaining, color);
        q := q + 1;
      }
      if remaining > 0 {
        HLineRest(q, y, remaining, color, was, x, w);
      }
    }

    /** From a byte boundary on. */
    method HLineRest(q: int, y: int, remaining: nat, color: uint16, ghost was: Image, ghost x: int, ghost w: int)
      requires Valid() && 0 <= q && 8 * q + remaining == x + w <= WIDTH && x <= 8 * q && 0 <= y < HEIGHT
      requires PaintedRaw(was, Rows(), Mode(color), Box(x, y, 8 * q - x, 1))
      modifies buffer
      ensures PaintedRaw(was, Rows(), Mode(color), Box(x, y, w, 1))
    {
      hide PaintedRaw, RowImage, LitFrom, Mode;
      var whole, last := remaining / 8, remaining % 8;
      assert remaining == 8 * whole + last;
      ghost var mid := Rows();
      FillBytes(q, y, whole, color);
      PaintBoth(was, mid, Rows(), Mode(color), Box(x, y, 8 * q - x, 1), Box(8 * q, y, 8 * whole, 1),
                Box(x, y, 8 * (q + whole) - x, 1));
      if last > 0 {
        mid := Rows();
        var mask, rest := MaskFrom(0, last);
        WritePart(q + whole, y, 0, mask, last, color);
        PaintBoth(was, mid, Rows(), Mode(color), Box(x, y, 8 * (q + whole) - x, 1), Box(8 * (q + whole), y, last, 1),
                  Box(x, y, w, 1));
      }
    }

    method DrawFastRawVLine(x: int16, y: int16, h: int16, color: uint16)
      requires Valid() && 0 <= h && 0 <= x < WIDTH && 0 <= y && y + h <= HEIGHT
      modifies buffer
      ensures PaintedRaw(old(Rows()), Rows(), Mode(color), Box(x, y, 1, h))
    {
      hide PaintedRaw, RowImage, CoversColumns, Mode, BitOf;
      ghost var was := Rows();
      var mask := BitOf(x % 8);
      BitOfColumn(x);
      NothingPainted(was, Mode(color), x, y);
      var q := x / 8;
      assert 0 <= q < RowBytes(WIDTH) && 8 * q <= x && x + 1 <= 8 * q + 8;
      for i := 0 to h
        invariant PaintedRaw(was, Rows(), Mode(color), Box(x, y, 1, i))
      {
        ghost var mid := Rows();
        WriteMasked(q, y + i, color, mask, x, x + 1);
        PaintBoth(was, mid, Rows(), Mode(color), Box(x, y, 1, i), Box(x, y + i, 1, 1), Box(x, y, 1, i + 1));
      }
    }

    /** A line that is clipped to the screen, in screen coordinates: turn it and draw it raw. */
    method DrawRotatedVLine(x0: int16, y0: int16, h: int16, color: uint16)
      requires Valid() && 0 <= h && 0 <= x0 < width && 0 <= y0 && y0 + h <= height
               && (1 <= h || 0 < y0 < height || y0 == h == height == 0)
      modifies buffer
      ensures var q := Rotated(Geo(), x0, y0, 1, h);
              PaintedRaw(old(Rows()), Rows(), Mode(color), Box(q.x, q.y, q.w, q.h))
    {
      hide PaintedRaw, RowImage, Mode;
      var x, y: int16 := x0, y0;
      match rotation {
        case 0 =>
          DrawFastRawVLine(x, y, h, color);
        case 1 =>
          var t := x;
          x := WIDTH - 1 - y;
          y := t;
          x := x - (h - 1);
          DrawFastRawHLine(x, y, h, color);
        case 2 =>
          x := WIDTH - 1 - x;
          y := HEIGHT - 1 - y;
          y := y - (h - 1);
          DrawFastRawVLine(x, y, h, color);
        case _ =>
          var t := x;
          x := y;
          y := HEIGHT - 1 - t;
          DrawFastRawHLine(x, y, h, color);
      }
    }

    method DrawRotatedHLine(x0: int16, y0: int16, w: int16, color: uint16)
      requires Valid() && 0 <= w && 0 <= y0 < height && 0 <= x0 && x0 + w <= width
               && (1 <= w || 0 < x0 < width || x0 == w == width == 0)
      modifies buffer
      ensures var q := Rotated(Geo(), x0, y0, w, 1);
              PaintedRaw(old(Rows()), Rows(), Mode(color), Box(q.x, q.y, q.w, q.h))
    {
      hide PaintedRaw, RowImage, Mode;
      var x, y: int16 := x0, y0;
      match rotation {
        case 0 =>
          DrawFastRawHLine(x, y, w, color);
        case 1 =>
          var t := x;
          x := WIDTH - 1 - y;
          y := t;
          DrawFastRawVLine(x, y, w, color);
        case 2 =>
          x := WIDTH - 1 - x;
          y := HEIGHT - 1 - y;
          x := x - (w - 1);
          DrawFastRawHLine(x, y, w, color);
        case _ =>
          var t := x;
          x := y;
          y := HEIGHT - 1 - t;
          y := y - (w - 1);
          DrawFastRawVLine(x, y, w, color);
      }
    }

    method DrawFastVLine(x0: int16, y0: int16, h0: int16, color: uint16)
      requires Valid() && -0x8000 < h0 && (h0 < 0 ==> Fits16(y0 + h0 + 1))
      modifies buffer
      ensures Painted(Geo(), old(Rows()), Rows(), Mode(color),
                      if h0 < 0 then Box(x0, y0 + h0 + 1, 1, -h0) else Box(x0, y0, 1, h0))
      ensures buffer[..] == EachPixel(Geo(), old(buffer[..]),
                                      VPoints(x0, if h0 < 0 then y0 + h0 + 1 else y0, Abs(h0)), color)
    {
      hide PaintedRaw, RowImage, Mode, Painted;
      var x, y, h: int16 := x0, y0, h0;
      ghost var g, was, top, len := Geo(), Rows(), if h0 < 0 then y0 + h0 + 1 else y0, Abs(h0);
      if h < 0 {
        h := -h;
        y := y - (h - 1);
        if y < 0 {
          h := h + y;
          y := 0;
        }
      }
      if x < 0 || x >= width || y >= height || y + h - 1 < 0 {
        PaintNothing(g, was, Mode(color), x0, top, 1, len);
        PaintedIsEachPixel(g, buffer[..], buffer[..], VPoints(x0, top, len), color, Box(x0, top, 1, len));
        return;
      }
      if y < 0 {
        h := h + y;
        y := 0;
      }
      if y + h > height {
        h := height - y;
      }
      DrawRotatedVLine(x, y, h, color);
      ClippedLine(g, was, Rows(), Mode(color), x, y, 1, h, x0, top, 1, len);
      PaintedIsEachPixel(g, old(buffer[..]), buffer[..], VPoints(x0, top, len), color, Box(x0, top, 1, len));
    }

    method DrawFastHLine(x0: int16, y0: int16, w0: int16, color: uint16)
      requires Valid() && -0x8000 < w0 && (w0 < 0 ==> Fits16(x0 + w0 + 1))
      modifies buffer
      ensures Painted(Geo(), old(Rows()), Rows(), Mode(color),
                      if w0 < 0 then Box(x0 + w0 + 1, y0, -w0, 1) else Box(x0, y0, w0, 1))
      ensures buffer[..] == EachPixel(Geo(), old(buffer[..]),
                                      HPoints(if w0 < 0 then x0 + w0 + 1 else x0, y0, Abs(w0)), color)
    {
      hide PaintedRaw, RowImage, Mode, Painted;
      var x, y, w: int16 := x0, y0, w0;
      ghost var g, was, left, len := Geo(), Rows(), if w0 < 0 then x0 + w0 + 1 else x0, Abs(w0);
      if w < 0 {
        w := -w;
        x := x - (w - 1);
        if x < 0 {
          w := w + x;
          x := 0;
        }
      }
      if y < 0 || y >= height || x >= width || x + w - 1 < 0 {
        PaintNothing(g, was, Mode(color), left, y0, len, 1);
        PaintedIsEachPixel(g, buffer[..], buffer[..], HPoints(left, y0, len), color, Box(left, y0, len, 1));
        return;
      }
      if x < 0 {
        w := w + x;
        x := 0;
      }
      if x + w >= width {
        w := width - x;
      }
      DrawRotatedHLine(x, y, w, color);
      ClippedLine(g, was, Rows(), Mode(color), x, y, w, 1, left, y0, len, 1);
      PaintedIsEachPixel(g, old(buffer[..]), buffer[..], HPoints(left, y0, len), color, Box(left, y0, len, 1));
    }
  }
}
