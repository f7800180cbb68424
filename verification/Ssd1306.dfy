/** The SSD1306 framebuffer: one byte holds eight vertically adjacent pixels (a page), pages are
    stored one after the other, and the least significant bit is the topmost row. */
module Ssd1306 {
  import opened Bytes
  import opened Screen

  // ---- the page layout -------------------------------------------------------------------

  ghost function PageImage(W: int, buf: seq<bv8>): Image {
    (c: int, r: int) =>
      0 <= c < W && 0 <= r && 0 <= r / 8 * W + c < |buf| && Get(buf[r / 8 * W + c], r % 8)
  }

  /** The value of a byte after `switch (color) { |= mask, &= ~mask, ^= mask }`. */
  function Masked(color: int, b: bv8, mask: bv8): bv8 {
    if color == WHITE then b | mask else if color == BLACK then b & !mask
    else if color == INVERSE then b ^ mask else b
  }

  lemma MaskedBits(color: int, b: bv8, m: bv8, k: nat)
    requires k < 8
    ensures Get(Masked(color, b, m), k) == if Get(m, k) then Apply(color, Get(b, k)) else Get(b, k)
  {
    OrBits(b, m, k);
    AndNotBits(b, m, k);
    XorBits(b, m, k);
  }

  lemma PixelAt(W: int, P: int, buf: seq<bv8>, c: int, r: int)
    requires 0 <= c < W && 0 <= r < 8 * P && |buf| == P * W
    ensures 0 <= c + r / 8 * W < |buf|
    ensures PageImage(W, buf)(c, r) == Get(buf[c + r / 8 * W], r % 8)
  {
    IndexBound(W, P, r / 8, c);
  }

  /** A byte is the binary number of the eight rows of its page in its column, the bottom row highest. */
  lemma PageValue(W: int, P: int, s: seq<bv8>, p: int, c: int)
    requires 0 <= c < W && 0 <= p < P && |s| == P * W
    ensures 0 <= p * W + c < |s|
    ensures Value(seq(8, i requires 0 <= i < 8 => PageImage(W, s)(c, 8 * p + 7 - i))) == s[p * W + c] as int
  {
    hide PageImage, Value, Get;
    IndexBound(W, P, p, c);
    var bits := seq(8, i requires 0 <= i < 8 => PageImage(W, s)(c, 8 * p + 7 - i));
    forall i | 0 <= i < 8 ensures bits[i] == Get(s[p * W + c], 7 - i) {
      PixelAt(W, P, s, c, 8 * p + (7 - i));
      assert (8 * p + (7 - i)) / 8 == p && (8 * p + (7 - i)) % 8 == 7 - i;
    }
    ByteValue(s[p * W + c], bits);
  }

  /** Two buffers that show the same pixels, padding rows included, are equal byte for byte. */
  lemma SamePixelsSameBuffer(W: int, P: int, s: seq<bv8>, t: seq<bv8>)
    requires 0 <= W && 0 <= P && |s| == |t| == P * W
    requires forall c, r :: PageImage(W, s)(c, r) == PageImage(W, t)(c, r)
    ensures s == t
  {
    forall i | 0 <= i < |s| ensures s[i] == t[i] {
      assert W > 0;
      var p, c := i / W, i % W;
      assert i == p * W + c;
      IndexBound(W, P, p, c);
      forall k | 0 <= k < 8 ensures Get(s[i], k) == Get(t[i], k) {
        assert (8 * p + k) / 8 == p && (8 * p + k) % 8 == k;
        assert PageImage(W, s)(c, 8 * p + k) == PageImage(W, t)(c, 8 * p + k);
      }
      SameBits(s[i], t[i]);
    }
  }

  /** Storing a byte whose rows lo..hi-1 are painted, and whose other rows are kept, paints that run. */
  lemma StorePage(W: int, P: int, s: seq<bv8>, p: int, x: int, nb: bv8, color: int, lo: int, hi: int)
    requires 0 <= x < W && 0 <= p < P && |s| == P * W
    requires 8 * p <= lo && hi <= 8 * p + 8
    requires 0 <= p * W + x < |s|
    requires forall k :: 0 <= k < 8 ==>
      Get(nb, k) == if lo <= 8 * p + k < hi then Apply(color, Get(s[p * W + x], k)) else Get(s[p * W + x], k)
    ensures PaintedRaw(PageImage(W, s), PageImage(W, s[p * W + x := nb]), color, Box(x, lo, 1, hi - lo))
  {
    hide Get, Apply, PageImage;
    forall c, r
      ensures PageImage(W, s[p * W + x := nb])(c, r)
           == if Box(x, lo, 1, hi - lo)(c, r) then Apply(color, PageImage(W, s)(c, r)) else PageImage(W, s)(c, r)
    {
      if 0 <= c < W && 0 <= r {
        PagePixel(W, s, c, r);
        PagePixel(W, s[p * W + x := nb], c, r);
        StoredPixel(W, P, s, p, x, nb, c, r / 8, r % 8);
      } else {
        NoPixel(W, s, c, r);
        NoPixel(W, s[p * W + x := nb], c, r);
      }
    }
  }

  /** Bit k of page q in column c after one byte was stored at page p, column x. */
  lemma StoredPixel(W: int, P: int, s: seq<bv8>, p: int, x: int, nb: bv8, c: int, q: int, k: nat)
    requires 0 <= x < W && 0 <= c < W && 0 <= p < P && |s| == P * W && 0 <= p * W + x < |s| && 0 <= q && k < 8
    ensures BitAt(W, s[p * W + x := nb], c, q, k) ==
              if c == x && q == p then Get(nb, k) else BitAt(W, s, c, q, k)
    ensures c == x && q == p ==> BitAt(W, s, c, q, k) == Get(s[p * W + x], k)
  {
    hide Get;
    IndexBound(W, P, q, c);
    if q * W + c == p * W + x {
      IndexInjective(W, q, c, p, x);
    }
  }

  ghost predicate BitAt(W: int, s: seq<bv8>, c: int, q: int, k: nat)
    requires k < 8
  {
    0 <= q * W + c < |s| && Get(s[q * W + c], k)
  }

  lemma PagePixel(W: int, s: seq<bv8>, c: int, r: int)
    requires 0 <= c < W && 0 <= r
    ensures PageImage(W, s)(c, r) == BitAt(W, s, c, r / 8, r % 8) && r == 8 * (r / 8) + r % 8
  {
    hide Get;
  }

  lemma NoPixel(W: int, s: seq<bv8>, c: int, r: int)
    requires !(0 <= c < W && 0 <= r)
    ensures !PageImage(W, s)(c, r)
  {
  }

  /** Within page p, the mask selects exactly the rows lo..hi-1. */
  ghost predicate CoversRows(mask: bv8, p: int, lo: int, hi: int) {
    forall k :: 0 <= k < 8 ==> (Get(mask, k) <==> lo <= 8 * p + k < hi)
  }

  lemma StoreMasked(W: int, P: int, s: seq<bv8>, p: int, x: int, color: int, mask: bv8, lo: int, hi: int)
    requires 0 <= x < W && 0 <= p < P && |s| == P * W
    requires 0 <= p * W + x < |s|
    requires 8 * p <= lo && hi <= 8 * p + 8
    requires CoversRows(mask, p, lo, hi)
    ensures PaintedRaw(PageImage(W, s), PageImage(W, s[p * W + x := Masked(color, s[p * W + x], mask)]), color,
                       Box(x, lo, 1, hi - lo))
  {
    var b := s[p * W + x];
    forall k | 0 <= k < 8
      ensures Get(Masked(color, b, mask), k) == if lo <= 8 * p + k < hi then Apply(color, Get(b, k)) else Get(b, k)
    {
      MaskedBits(color, b, mask, k);
    }
    StorePage(W, P, s, p, x, Masked(color, b, mask), color, lo, hi);
  }

  lemma MaskOfRow(y: int)
    requires 0 <= y
    ensures CoversRows(Mask(y % 8), y / 8, y, y + 1)
  {
    forall k | 0 <= k < 8 ensures Get(Mask(y % 8), k) <==> y <= 8 * (y / 8) + k < y + 1 {
      MaskBits(y % 8, k);
    }
  }

  /** The mode in which whole bytes are written: every unknown colour counts as white. */
  function Effective(color: int): int {
    if color <= INVERSE then color else WHITE
  }

  function WholeByte(color: int, b: bv8): bv8 {
    if color == INVERSE then b ^ 0xFF else if color != BLACK then 0xFF else 0
  }

  lemma StoreWhole(W: int, P: int, s: seq<bv8>, p: int, x: int, color: int)
    requires 0 <= x < W && 0 <= p < P && |s| == P * W
    requires 0 <= p * W + x < |s|
    requires 0 <= color
    ensures PaintedRaw(PageImage(W, s), PageImage(W, s[p * W + x := WholeByte(color, s[p * W + x])]),
                       Effective(color), Box(x, 8 * p, 1, 8))
  {
    var b, paint := s[p * W + x], Effective(color);
    forall k | 0 <= k < 8 ensures Get(WholeByte(color, b), k) == Apply(paint, Get(b, k)) {
      ConstantBits(k);
      XorBits(b, 0xFF, k);
    }
    StorePage(W, P, s, p, x, WholeByte(color, b), paint, 8 * p, 8 * p + 8);
  }

  /** premask[m]: the high m bits. postmask[m]: the low m bits. */
  const PREMASK: seq<bv8> := [0x00, 0x80, 0xC0, 0xE0, 0xF0, 0xF8, 0xFC, 0xFE]
  const POSTMASK: seq<bv8> := [0x00, 0x01, 0x03, 0x07, 0x0F, 0x1F, 0x3F, 0x7F]

  lemma PremaskBits(m: nat, k: nat)
    requires m < 8 && k < 8
    ensures Get(PREMASK[m], k) <==> k >= 8 - m
  {
    MaskIsOneBit(k);
  }

  lemma PostmaskBits(m: nat, k: nat)
    requires m < 8 && k < 8
    ensures Get(POSTMASK[m], k) <==> k < m
  {
    MaskIsOneBit(k);
  }

  /** The rows of column x whose whole page lies within rows top..bottom-1. */
  ghost function WholePages(x: int, top: int, bottom: int): Region {
    (c: int, r: int) => c == x && top <= r / 8 * 8 && r / 8 * 8 + 8 <= bottom
  }

  function FirstMask(mod: int, h: int): bv8
    requires 0 < mod < 8 && 0 < h
  {
    if h < mod then PREMASK[mod] & ((0xFF as bv8) >> (mod - h)) else PREMASK[mod]
  }

  /** The mask of the first, partial byte of a run: `premask[mod]`, cut off when the run ends inside it. */
  lemma PremaskRun(p: int, k: int, h: int)
    requires 0 < k < 8 && 0 < h
    ensures CoversRows(FirstMask(8 - k, h), p, 8 * p + k, if h < 8 - k then 8 * p + k + h else 8 * p + 8)
  {
    var mask := FirstMask(8 - k, h);
    forall j | 0 <= j < 8 ensures Get(mask, j) <==> k <= j < k + h {
      PremaskBits(8 - k, j);
      if h < 8 - k {
        ShiftedOnesBits(8 - k - h, j);
        AndBits(PREMASK[8 - k], (0xFF as bv8) >> (8 - k - h), j);
      }
    }
  }

  lemma PostmaskRun(p: int, h: int)
    requires 0 <= h < 8
    ensures CoversRows(POSTMASK[h % 8], p, 8 * p, 8 * p + h)
  {
    forall k | 0 <= k < 8 ensures Get(POSTMASK[h], k) <==> k < h {
      PostmaskBits(h, k);
    }
  }

  /** Rows y..cur-1 of column x have been drawn; for an unknown colour, the whole pages among them. */
  ghost predicate RunDrawn(was: Image, now: Image, color: int, x: int, y: int, cur: int) {
    if color <= INVERSE
    then PaintedRaw(was, now, color, Box(x, y, 1, cur - y))
    else PaintedRaw(was, now, WHITE, WholePages(x, y, cur))
  }

  /** Rows that do not fill their page: an unknown colour leaves them alone. */
  lemma RunFirst(was: Image, now: Image, color: int, x: int, p: int, k: int, hi: int)
    requires 0 <= color && 0 < k && 8 * p + k < hi <= 8 * p + 8
    requires PaintedRaw(was, now, color, Box(x, 8 * p + k, 1, hi - (8 * p + k)))
    ensures RunDrawn(was, now, color, x, 8 * p + k, hi)
  {
  }

  lemma RunPages(was: Image, mid: Image, now: Image, color: int, x: int, y: int, p: int, q: int)
    requires 0 <= color && y <= 8 * p < y + 8 && p <= q && RunDrawn(was, mid, color, x, y, 8 * p)
    requires PaintedRaw(mid, now, Effective(color), Box(x, 8 * p, 1, 8 * (q - p)))
    ensures RunDrawn(was, now, color, x, y, 8 * q)
  {
    if color <= INVERSE {
      PaintBoth(was, mid, now, color, Box(x, y, 1, 8 * p - y), Box(x, 8 * p, 1, 8 * (q - p)), Box(x, y, 1, 8 * q - y));
    } else {
      PaintBoth(was, mid, now, WHITE, WholePages(x, y, 8 * p), Box(x, 8 * p, 1, 8 * (q - p)), WholePages(x, y, 8 * q));
    }
  }

  lemma RunLast(was: Image, mid: Image, now: Image, color: int, x: int, y: int, p: int, h: int)
    requires 0 <= color && y <= 8 * p && 0 < h < 8 && RunDrawn(was, mid, color, x, y, 8 * p)
    requires PaintedRaw(mid, now, color, Box(x, 8 * p, 1, h))
    ensures RunDrawn(was, now, color, x, y, 8 * p + h)
  {
    if color <= INVERSE {
      PaintBoth(was, mid, now, color, Box(x, y, 1, 8 * p - y), Box(x, 8 * p, 1, h), Box(x, y, 1, 8 * p + h - y));
    } else {
      SameRegion(was, now, WHITE, WholePages(x, y, 8 * p), WholePages(x, y, 8 * p + h));
    }
  }

  /** From the clipped run y1..y1+h1-1, empty when the column is off the panel, to the run asked for. */
  lemma ClippedRun(g: Geometry, was: Image, now: Image, color: int, x: int, y0: int, h0: int, y1: int, h1: int)
    requires g.Valid() && g.rotation == 0 && 0 <= color
    requires y1 == if y0 < 0 then 0 else y0
    requires y1 + h1 == if y0 + h0 > g.HEIGHT then g.HEIGHT else y0 + h0
    requires if 0 <= x < g.WIDTH && h1 > 0 then RunDrawn(was, now, color, x, y1, y1 + h1)
             else forall c, r :: now(c, r) == was(c, r)
    ensures color <= INVERSE ==> Painted(g, was, now, color, Box(x, y0, 1, h0))
    ensures color > INVERSE ==> Painted(g, was, now, WHITE, WholePages(x, y1, y1 + h1))
  {
    var R := if color <= INVERSE then Box(x, y0, 1, h0) else WholePages(x, y1, y1 + h1);
    var S := if color <= INVERSE then Box(x, y1, 1, h1) else R;
    forall c, r
      ensures OnRaw(g, R)(c, r) <==> 0 <= x < g.WIDTH && h1 > 0 && S(c, r)
    {
      assert g.UserX(c, r) == c && g.UserY(c, r) == r;
    }
  }

  function ClipTop(y: int): int {
    if y < 0 then 0 else y
  }

  function ClipBottom(H: int, y: int): int {
    if y > H then H else y
  }

  /** What a line of unknown colour whitens: the whole pages of a vertical run of panel cells. */
  ghost function StrayPages(g: Geometry, q: Rect): Region {
    (c: int, r: int) =>
      q.w == 1 && g.OnPanel(c, r) && WholePages(q.x, ClipTop(q.y), ClipBottom(g.HEIGHT, q.y + q.h))(c, r)
  }

  lemma LineDrawn(g: Geometry, was: Image, now: Image, color: int, x: int, y: int, w: int, h: int, q: Rect,
                  vertical: bool)
    requires g.Valid() && 0 <= color && q == Rotated(g, x, y, w, h)
    requires if vertical then q.w == 1 else q.h == 1
    requires color <= INVERSE || !vertical ==> Painted(g.(rotation := 0), was, now, color, Box(q.x, q.y, q.w, q.h))
    requires color > INVERSE && vertical ==>
               Painted(g.(rotation := 0), was, now, WHITE,
                       WholePages(q.x, ClipTop(q.y), ClipBottom(g.HEIGHT, q.y + q.h)))
    ensures color <= INVERSE ==> Painted(g, was, now, color, Box(x, y, w, h))
    ensures color > INVERSE ==> PaintedRaw(was, now, WHITE, StrayPages(g, q))
  {
    if color <= INVERSE {
      PaintRotated(g, was, now, color, x, y, w, h, q);
    } else if vertical {
      var g0 := g.(rotation := 0);
      var R := WholePages(q.x, ClipTop(q.y), ClipBottom(g.HEIGHT, q.y + q.h));
      forall c, r ensures OnRaw(g0, R)(c, r) <==> StrayPages(g, q)(c, r) {
        assert R(g0.UserX(c, r), g0.UserY(c, r)) <==> R(c, r);
      }
      SameRegion(was, now, WHITE, OnRaw(g0, R), StrayPages(g, q));
    }
  }

  /** Across the line, a wrapped coordinate is as far off the panel as the true one. */
  ghost predicate Wrapped(q: Rect, x: int, y: int) {
    && (x == q.x || (q.w == 1 && q.x >= 0x8000 && x == q.x - 0x1_0000 && x < 0))
    && (y == q.y || (q.h == 1 && q.y >= 0x8000 && y == q.y - 0x1_0000 && y < 0))
  }

  /** The start of a run of n cells counted from the other end of a side. */
  function FromEnd(side: int, v: int16, n: int16): int16
    requires 0 <= side <= 0x7FFF
  {
    Wrap16(Wrap16(side - v - 1) - (n - 1))
  }

  lemma FromEndIs(side: int, v: int16, n: int16)
    requires 0 <= side <= 0x7FFF
    ensures Fits16(side - v - n) ==> FromEnd(side, v, n) == side - v - n
    ensures n == 1 && !Fits16(side - v - n) ==>
              side - v - n >= 0x8000 && FromEnd(side, v, n) == side - v - n - 0x1_0000 < 0
  {
  }

  /** The rotation switch turns the run, up to a coordinate across it that wraps. */
  lemma RunTurned(g: Geometry, x0: int16, y0: int16, w: int16, h: int16, x: int16, y: int16)
    requires g.Valid() && (w == 1 || h == 1) && LineFits(g, x0, y0, w, h)
    requires (x, y) == match g.rotation
                       case 0 => (x0, y0)
                       case 1 => (FromEnd(g.WIDTH, y0, h), x0)
                       case 2 => (FromEnd(g.WIDTH, x0, w), FromEnd(g.HEIGHT, y0, h))
                       case _ => (y0, FromEnd(g.HEIGHT, x0, w))
    ensures var q := Rotated(g, x0, y0, w, h);
            && Wrapped(q, x, y) && (if g.rotation == 1 || g.rotation == 3 then q.w == h && q.h == w
                                    else q.w == w && q.h == h)
            && (q.h == 1 && x < 0 ==> -0x8000 <= x + q.w) && (q.w == 1 && y < 0 ==> -0x8000 <= y + q.h)
  {
    hide FromEnd;
    if g.rotation == 1 {
      FromEndIs(g.WIDTH, y0, h);
    } else if g.rotation == 2 {
      FromEndIs(g.WIDTH, x0, w);
      FromEndIs(g.HEIGHT, y0, h);
    } else if g.rotation == 3 {
      FromEndIs(g.HEIGHT, x0, w);
    }
  }

  lemma Unwrapped(g: Geometry, was: Image, now: Image, color: int, q: Rect, x: int, y: int, vertical: bool)
    requires g.Valid() && g.rotation == 0 && Wrapped(q, x, y)
    requires if vertical then q.w == 1 else q.h == 1
    ensures Painted(g, was, now, color, Box(x, y, q.w, q.h)) ==> Painted(g, was, now, color, Box(q.x, q.y, q.w, q.h))
    ensures vertical && Painted(g, was, now, color, WholePages(x, ClipTop(y), ClipBottom(g.HEIGHT, y + q.h))) ==>
              Painted(g, was, now, color, WholePages(q.x, ClipTop(q.y), ClipBottom(g.HEIGHT, q.y + q.h)))
  {
    hide PaintedRaw;
    var R, S := Box(x, y, q.w, q.h), Box(q.x, q.y, q.w, q.h);
    forall c, r ensures OnRaw(g, R)(c, r) <==> OnRaw(g, S)(c, r) {
      OnUnrotated(g, R, c, r);
      OnUnrotated(g, S, c, r);
    }
    if Painted(g, was, now, color, R) {
      SameRegion(was, now, color, OnRaw(g, R), OnRaw(g, S));
    }
    if vertical {
      var R' := WholePages(x, ClipTop(y), ClipBottom(g.HEIGHT, y + q.h));
      var S' := WholePages(q.x, ClipTop(q.y), ClipBottom(g.HEIGHT, q.y + q.h));
      forall c, r ensures OnRaw(g, R')(c, r) <==> OnRaw(g, S')(c, r) {
        OnUnrotated(g, R', c, r);
        OnUnrotated(g, S', c, r);
      }
      if Painted(g, was, now, color, R') {
        SameRegion(was, now, color, OnRaw(g, R'), OnRaw(g, S'));
      }
    }
  }

  lemma OnUnrotated(g: Geometry, R: Region, c: int, r: int)
    requires g.rotation == 0
    ensures OnRaw(g, R)(c, r) <==> g.OnPanel(c, r) && R(c, r)
  {
    assert g.UserX(c, r) == c && g.UserY(c, r) == r;
  }

  // ---- per-pixel drawing, the reference the fast lines are measured against ---------------

  function PageCount(H: int): int {
    (H + 7) / 8
  }

  /** A buffer with the size of the panel. */
  ghost predicate Sized(g: Geometry, s: seq<bv8>) {
    g.Valid() && |s| == PageCount(g.HEIGHT) * g.WIDTH
  }

  /** The buffer after one call of drawPixel. */
  ghost function PutPixel(g: Geometry, s: seq<bv8>, x: int, y: int, color: int): (t: seq<bv8>)
    requires Sized(g, s)
    ensures Sized(g, t)
  {
    if g.OnScreen(x, y) then
      RotationBijective(g, x, y, g.RawX(x, y), g.RawY(x, y));
      var c, r := g.RawX(x, y), g.RawY(x, y);
      PixelAt(g.WIDTH, PageCount(g.HEIGHT), s, c, r);
      s[c + r / 8 * g.WIDTH := Masked(color, s[c + r / 8 * g.WIDTH], Mask(r % 8))]
    else s
  }

  /** The buffer after one call of drawPixel for each point, in order. */
  ghost function EachPixel(g: Geometry, s: seq<bv8>, pts: seq<(int, int)>, color: int): (t: seq<bv8>)
    requires Sized(g, s)
    ensures Sized(g, t)
  {
    if pts == [] then s
    else PutPixel(g, EachPixel(g, s, pts[..|pts| - 1], color), pts[|pts| - 1].0, pts[|pts| - 1].1, color)
  }

  lemma PutPixelPaints(g: Geometry, s: seq<bv8>, x: int, y: int, color: int)
    requires Sized(g, s)
    ensures Painted(g, PageImage(g.WIDTH, s), PageImage(g.WIDTH, PutPixel(g, s, x, y, color)), color, Box(x, y, 1, 1))
  {
    hide PaintedRaw, PageImage, CoversRows, Masked, Mask;
    var was, now := PageImage(g.WIDTH, s), PageImage(g.WIDTH, PutPixel(g, s, x, y, color));
    if g.OnScreen(x, y) {
      var c, r := g.RawX(x, y), g.RawY(x, y);
      RotationBijective(g, x, y, c, r);
      MaskOfRow(r);
      PixelAt(g.WIDTH, PageCount(g.HEIGHT), s, c, r);
      StoreMasked(g.WIDTH, PageCount(g.HEIGHT), s, r / 8, c, color, Mask(r % 8), r, r + 1);
      ClippedBox(g.(rotation := 0), was, now, color, c, r, 1, 1, c, r, 1, 1);
      PaintRotated(g, was, now, color, x, y, 1, 1, Rect(c, r, 1, 1));
    } else {
      PaintNothing(g, was, color, x, y, 1, 1);
    }
  }

  /** Drawing distinct points one by one paints exactly these points. */
  lemma {:induction false} EachPixelPaints(g: Geometry, s: seq<bv8>, pts: seq<(int, int)>, color: int)
    requires Sized(g, s) && Distinct(pts)
    ensures Painted(g, PageImage(g.WIDTH, s), PageImage(g.WIDTH, EachPixel(g, s, pts, color)), color, PointsOf(pts))
  {
    if pts == [] {
    } else {
      var front, p := pts[..|pts| - 1], pts[|pts| - 1];
      EachPixelPaints(g, s, front, color);
      var t := EachPixel(g, s, front, color);
      PutPixelPaints(g, t, p.0, p.1, color);
      assert pts == front + [p];
      assert p !in front;
      PaintBothOnScreen(g, PageImage(g.WIDTH, s), PageImage(g.WIDTH, t),
                        PageImage(g.WIDTH, PutPixel(g, t, p.0, p.1, color)),
                        color, PointsOf(front), Box(p.0, p.1, 1, 1), PointsOf(pts));
    }
  }

  lemma SamePaint(g: Geometry, s: seq<bv8>, t: seq<bv8>, u: seq<bv8>, color: int, R: Region)
    requires Sized(g, s) && Sized(g, t) && Sized(g, u)
    requires Painted(g, PageImage(g.WIDTH, s), PageImage(g.WIDTH, t), color, R)
    requires Painted(g, PageImage(g.WIDTH, s), PageImage(g.WIDTH, u), color, R)
    ensures t == u
  {
    SamePixelsSameBuffer(g.WIDTH, PageCount(g.HEIGHT), t, u);
  }

  /** A painted region determines the whole buffer: any order of distinct points that covers the
      visible part of the region gives the same bytes. */
  lemma PaintedIsEachPixel(g: Geometry, s: seq<bv8>, t: seq<bv8>, pts: seq<(int, int)>, color: int, R: Region)
    requires Sized(g, s) && Sized(g, t) && Distinct(pts)
    requires Painted(g, PageImage(g.WIDTH, s), PageImage(g.WIDTH, t), color, R)
    requires forall x, y :: g.OnScreen(x, y) ==> (R(x, y) <==> (x, y) in pts)
    ensures t == EachPixel(g, s, pts, color)
  {
    EachPixelPaints(g, s, pts, color);
    var u := EachPixel(g, s, pts, color);
    forall c, r ensures PageImage(g.WIDTH, t)(c, r) == PageImage(g.WIDTH, u)(c, r) {
      var x, y := g.UserX(c, r), g.UserY(c, r);
      RotationBijective(g, x, y, c, r);
      assert g.OnScreen(x, y) ==> (R(x, y) <==> (x, y) in pts);
      assert OnRaw(g, R)(c, r) <==> OnRaw(g, PointsOf(pts))(c, r);
    }
    SamePixelsSameBuffer(g.WIDTH, PageCount(g.HEIGHT), t, u);
  }

  /** Drawing the same shape a second time in inverse restores the buffer, byte for byte. */
  lemma SecondInverseRestores(g: Geometry, s: seq<bv8>, t: seq<bv8>, u: seq<bv8>, R: Region)
    requires Sized(g, s) && Sized(g, t) && Sized(g, u)
    requires Painted(g, PageImage(g.WIDTH, s), PageImage(g.WIDTH, t), INVERSE, R)
    requires Painted(g, PageImage(g.WIDTH, t), PageImage(g.WIDTH, u), INVERSE, R)
    ensures u == s
  {
    InverseTwice(PageImage(g.WIDTH, s), PageImage(g.WIDTH, t), PageImage(g.WIDTH, u), OnRaw(g, R));
    SamePixelsSameBuffer(g.WIDTH, PageCount(g.HEIGHT), u, s);
  }

  // ---- lines in a colour other than black, white and inverse ------------------------------

  /** The clipped run of panel cells is vertical and contains a page from its first row to its last. */
  predicate CoversWholePage(g: Geometry, q: Rect) {
    && q.w == 1 && 0 <= q.x < g.WIDTH
    && (ClipTop(q.y) + 7) / 8 * 8 + 8 <= ClipBottom(g.HEIGHT, q.y + q.h)
  }

  lemma {:induction false} UnknownColourPixels(g: Geometry, s: seq<bv8>, pts: seq<(int, int)>, color: int)
    requires Sized(g, s) && color > INVERSE
    ensures EachPixel(g, s, pts, color) == s
  {
    if pts == [] {
    } else {
      UnknownColourPixels(g, s, pts[..|pts| - 1], color);
    }
  }

  /** drawPixel ignores an unknown colour, and the fast lines do too, unless the run covers a whole
      page: then a black screen shows the difference. */
  lemma UnknownColourLine(g: Geometry, s: seq<bv8>, t: seq<bv8>, pts: seq<(int, int)>, color: int, q: Rect)
    requires Sized(g, s) && Sized(g, t) && color > INVERSE
    requires PaintedRaw(PageImage(g.WIDTH, s), PageImage(g.WIDTH, t), WHITE, StrayPages(g, q))
    ensures !CoversWholePage(g, q) ==> t == EachPixel(g, s, pts, color)
    ensures CoversWholePage(g, q) && (forall c, r :: !PageImage(g.WIDTH, s)(c, r)) ==> t != EachPixel(g, s, pts, color)
  {
    hide PageImage, EachPixel, WholePages, StrayPages, CoversWholePage;
    UnknownColourPixels(g, s, pts, color);
    if CoversWholePage(g, q) {
      var c, r := StrayTop(g, q);
      assert PageImage(g.WIDTH, t)(c, r);
    } else {
      NothingStray(g, q);
      SamePixelsSameBuffer(g.WIDTH, PageCount(g.HEIGHT), t, s);
    }
  }

  /** The first row of the first whole page is whitened. */
  lemma StrayTop(g: Geometry, q: Rect) returns (c: int, r: int)
    requires CoversWholePage(g, q)
    ensures StrayPages(g, q)(c, r)
  {
    c, r := q.x, (ClipTop(q.y) + 7) / 8 * 8;
  }

  lemma NothingStray(g: Geometry, q: Rect)
    requires !CoversWholePage(g, q)
    ensures forall c, r :: !StrayPages(g, q)(c, r)
  {
  }

  class Ssd1306 {
    const WIDTH: int
    const HEIGHT: int
    const buffer: array<bv8>
    var rotation: int
    var width: int
    var height: int

    ghost predicate Valid()
      reads this
    {
      && 0 <= WIDTH <= 255 && 0 <= HEIGHT <= 255 && 0 <= rotation < 4
      && width == Geo().Width() && height == Geo().Height()
      && buffer.Length == PageCount(HEIGHT) * WIDTH
    }

    ghost function Geo(): Geometry
      reads this
    {
      Geometry(WIDTH, HEIGHT, rotation)
    }

    ghost function Pages(): Image
      reads this, buffer
    {
      PageImage(WIDTH, buffer[..])
    }

    constructor (w: uint8, h: uint8)
      ensures Valid() && fresh(buffer)
      ensures WIDTH == w && HEIGHT == h && rotation == 0 && buffer.Length == w * ((h + 7) / 8)
      ensures forall c, r :: !Pages()(c, r)
    {
      WIDTH, HEIGHT, rotation, width, height := w, h, 0, w, h;
      Commute(w, (h + 7) / 8);
      buffer := new bv8[(h + 7) / 8 * w](_ => 0);
      new;
      forall c, r ensures !PageImage(WIDTH, buffer[..])(c, r) {
        if 0 <= r {
          ConstantBits(r % 8);
        }
      }
    }

    method SetRotation(x: uint8)
      requires Valid()
      modifies this
      ensures Valid() && rotation == x % 4
    {
      rotation := x % 4;
      if rotation == 0 || rotation == 2 {
        width, height := WIDTH, HEIGHT;
      } else {
        width, height := HEIGHT, WIDTH;
      }
    }

    /** The `switch (color)` of the drawing functions, applied to the byte at page p, column x. */
    method WriteMasked(p: int, x: int, color: uint16, mask: bv8, ghost lo: int, ghost hi: int)
      requires Valid() && 0 <= x < WIDTH && 0 <= p < PageCount(HEIGHT)
      requires 8 * p <= lo && hi <= 8 * p + 8
      requires CoversRows(mask, p, lo, hi)
      modifies buffer
      ensures PaintedRaw(old(Pages()), Pages(), color, Box(x, lo, 1, hi - lo))
    {
      hide PaintedRaw, PageImage, CoversRows, Masked;
      IndexBound(WIDTH, PageCount(HEIGHT), p, x);
      var i := p * WIDTH + x;
      ghost var was := buffer[..];
      buffer[i] := Masked(color, buffer[i], mask);
      assert buffer[..] == was[i := Masked(color, was[i], mask)];
      StoreMasked(WIDTH, PageCount(HEIGHT), was, p, x, color, mask, lo, hi);
    }

    /** One turn of the whole-byte loops: invert the byte, or store `(color != BLACK) ? 255 : 0`. */
    method WritePage(p: int, x: int, color: uint16)
      requires Valid() && 0 <= x < WIDTH && 0 <= p < PageCount(HEIGHT)
      modifies buffer
      ensures PaintedRaw(old(Pages()), Pages(), Effective(color), Box(x, 8 * p, 1, 8))
    {
      hide PaintedRaw, PageImage;
      IndexBound(WIDTH, PageCount(HEIGHT), p, x);
      var i := p * WIDTH + x;
      ghost var was := buffer[..];
      buffer[i] := if color == INVERSE then buffer[i] ^ 0xFF else if color != BLACK then 0xFF else 0;
      assert buffer[..] == was[i := WholeByte(color, was[i])];
      StoreWhole(WIDTH, PageCount(HEIGHT), was, p, x, color);
    }

    method DrawPixel(x0: int16, y0: int16, color: uint16)
      requires Valid()
      modifies buffer
      ensures Painted(Geo(), old(Pages()), Pages(), color, Box(x0, y0, 1, 1))
      ensures buffer[..] == PutPixel(Geo(), old(buffer[..]), x0, y0, color)
    {
      hide PaintedRaw, PageImage, CoversRows, Mask;
      PutPixelPaints(Geo(), buffer[..], x0, y0, color);
      var x, y := x0, y0;
      if x >= 0 && x < width && y >= 0 && y < height {
        if rotation == 1 {
          x, y := y, x;
          x := WIDTH - x - 1;
        } else if rotation == 2 {
          x := WIDTH - x - 1;
          y := HEIGHT - y - 1;
        } else if rotation == 3 {
          x, y := y, x;
          y := HEIGHT - y - 1;
        }
        MaskOfRow(y);
        WriteMasked(y / 8, x, color, Mask(y % 8), y, y + 1);
        ClippedBox(Geo().(rotation := 0), old(Pages()), Pages(), color, x, y, 1, 1, x, y, 1, 1);
        PaintRotated(Geo(), old(Pages()), Pages(), color, x0, y0, 1, 1, Rect(x, y, 1, 1));
      } else {
        PaintNothing(Geo(), Pages(), color, x0, y0, 1, 1);
      }
      SamePaint(Geo(), old(buffer[..]), buffer[..], PutPixel(Geo(), old(buffer[..]), x0, y0, color), color,
                Box(x0, y0, 1, 1));
    }

    method GetPixel(x0: int16, y0: int16) returns (on: bool)
      requires Valid()
      ensures on <==> Geo().OnScreen(x0, y0) && Pages()(Geo().RawX(x0, y0), Geo().RawY(x0, y0))
    {
      hide PageImage;
      var x, y := x0, y0;
      if x >= 0 && x < width && y >= 0 && y < height {
        if rotation == 1 {
          x, y := y, x;
          x := WIDTH - x - 1;
        } else if rotation == 2 {
          x := WIDTH - x - 1;
          y := HEIGHT - y - 1;
        } else if rotation == 3 {
          x, y := y, x;
          y := HEIGHT - y - 1;
        }
        on := ReadBit(x, y);
        return;
      }
      return false;
    }

    /** `buffer[x + (y / 8) * WIDTH] & (1 << (y & 7))` */
    method ReadBit(x: int16, y: int16) returns (on: bool)
      requires Valid() && Geo().OnPanel(x, y)
      ensures on <==> Pages()(x, y)
    {
      hide PageImage, Mask;
      PixelAt(WIDTH, PageCount(HEIGHT), buffer[..], x, y);
      return buffer[x + y / 8 * WIDTH] & Mask(y % 8) != 0;
    }

    /** Raw coordinates. The precondition is that the length left after clipping is representable. */
    method DrawFastHLineInternal(x0: int16, y: int16, w0: int16, color: uint16)
      requires Valid() && (x0 < 0 ==> -0x8000 <= x0 + w0)
      modifies buffer
      ensures Painted(Geo().(rotation := 0), old(Pages()), Pages(), color, Box(x0, y, w0, 1))
    {
      var x, w: int16 := x0, w0;
      ghost var g := Geo().(rotation := 0);
      ghost var was := Pages();
      if y >= 0 && y < HEIGHT {
        if x < 0 {
          w := w + x;
          x := 0;
        }
        if x + w > WIDTH {
          w := WIDTH - x;
        }
        if w > 0 {
          ghost var left, right := x, x + w;
          var mask := Mask(y % 8);
          MaskOfRow(y);
          while w != 0
            invariant 0 <= w && left <= x && x + w == right <= WIDTH
            invariant PaintedRaw(was, Pages(), color, Box(left, y, x - left, 1))
            decreases w
          {
            ghost var mid := Pages();
            WriteMasked(y / 8, x, color, mask, y, y + 1);
            PaintBoth(was, mid, Pages(), color, Box(left, y, x - left, 1), Box(x, y, 1, 1),
                      Box(left, y, x + 1 - left, 1));
            x := x + 1;
            w := w - 1;
          }
          ClippedBox(g, was, Pages(), color, x0, y, w0, 1, left, y, x - left, 1);
          return;
        }
      }
      PaintNothing(g, was, color, x0, y, w0, 1);
    }

    /** The first, partial byte of a run that starts k rows below a page boundary. */
    method DrawFirstByte(p: int, k: int, x: int, h0: uint8, color: uint16) returns (h: uint8)
      requires Valid() && 0 <= x < WIDTH && 0 <= p && 0 < k < 8 && 0 < h0 && 8 * p + k + h0 <= HEIGHT
      modifies buffer
      ensures h == if h0 < 8 - k then 0 else h0 - (8 - k)
      ensures RunDrawn(old(Pages()), Pages(), color, x, 8 * p + k, 8 * p + k + h0 - h)
    {
      hide PaintedRaw, PageImage, CoversRows, FirstMask, RunDrawn;
      ghost var was := Pages();
      var mod: uint8 := 8 - k;
      h := if h0 < mod then 0 else h0 - mod;
      ghost var hi := if h0 < mod then 8 * p + k + h0 else 8 * p + 8;
      PremaskRun(p, k, h0);
      WriteMasked(p, x, color, FirstMask(mod, h0), 8 * p + k, hi);
      RunFirst(was, Pages(), color, x, p, k, hi);
      assert hi == 8 * p + k + h0 - h;
    }

    /** The whole-byte loops: eight rows at a time from page p0, while at least eight remain. */
    method WritePages(p0: int, x: int, h0: uint8, color: uint16) returns (p: int, h: uint8)
      requires Valid() && 0 <= x < WIDTH && 0 <= p0 && 8 * p0 + h0 <= HEIGHT
      modifies buffer
      ensures 8 * p + h == 8 * p0 + h0 && h < 8 && p0 <= p
      ensures PaintedRaw(old(Pages()), Pages(), Effective(color), Box(x, 8 * p0, 1, 8 * (p - p0)))
    {
      p, h := p0, h0;
      ghost var was := Pages();
      while h >= 8
        invariant p0 <= p && 8 * p + h == 8 * p0 + h0
        invariant PaintedRaw(was, Pages(), Effective(color), Box(x, 8 * p0, 1, 8 * (p - p0)))
      {
        ghost var mid := Pages();
        WritePage(p, x, color);
        PaintBoth(was, mid, Pages(), Effective(color), Box(x, 8 * p0, 1, 8 * (p - p0)), Box(x, 8 * p, 1, 8),
                  Box(x, 8 * p0, 1, 8 * (p + 1 - p0)));
        p := p + 1;
        h := h - 8;
      }
    }

    /** From a page boundary on: whole bytes, then the final partial byte. */
    method DrawAligned(p0: int, x: int, h0: uint8, color: uint16, ghost was: Image, ghost y: int)
      requires Valid() && 0 <= x < WIDTH && 0 <= p0 && 8 * p0 + h0 <= HEIGHT
      requires y <= 8 * p0 < y + 8 && RunDrawn(was, Pages(), color, x, y, 8 * p0)
      modifies buffer
      ensures RunDrawn(was, Pages(), color, x, y, 8 * p0 + h0)
    {
      ghost var mid := Pages();
      var p, h := WritePages(p0, x, h0, color);
      RunPages(was, mid, Pages(), color, x, y, p0, p);
      if h != 0 {
        mid := Pages();
        PostmaskRun(p, h);
        WriteMasked(p, x, color, POSTMASK[h % 8], 8 * p, 8 * p + h);
        RunLast(was, mid, Pages(), color, x, y, p, h);
      }
    }

    /** The clipped vertical run: a partial byte, whole bytes, a partial byte. */
    method DrawRun(x: int, y: uint8, h0: uint8, color: uint16)
      requires Valid() && 0 <= x < WIDTH && 0 < h0 && y + h0 <= HEIGHT
      modifies buffer
      ensures RunDrawn(old(Pages()), Pages(), color, x, y, y + h0)
    {
      ghost var was := Pages();
      var h, p, k := h0, y / 8, y % 8;
      assert y == 8 * p + k;
      if k != 0 {
        h := DrawFirstByte(p, k, x, h0, color);
        p := p + 1;
      }
      if h != 0 {
        assert 8 * p + h == y + h0;
        DrawAligned(p, x, h, color, was, y);
      }
    }

    /** Raw coordinates. For an unknown colour only the whole bytes are written, as white. */
    method DrawFastVLineInternal(x: int16, y0: int16, h0: int16, color: uint16)
      requires Valid() && (y0 < 0 ==> -0x8000 <= y0 + h0)
      modifies buffer
      ensures color <= INVERSE ==>
                Painted(Geo().(rotation := 0), old(Pages()), Pages(), color, Box(x, y0, 1, h0))
      ensures color > INVERSE ==>
                Painted(Geo().(rotation := 0), old(Pages()), Pages(), WHITE,
                        WholePages(x, ClipTop(y0), ClipBottom(HEIGHT, y0 + h0)))
    {
      ghost var was := Pages();
      ghost var y1 := ClipTop(y0);
      ghost var h1 := ClipBottom(HEIGHT, y0 + h0) - y1;
      if x >= 0 && x < WIDTH {
        var y, h: int16 := y0, h0;
        if y < 0 {
          h := h + y;
          y := 0;
        }
        if y + h > HEIGHT {
          h := HEIGHT - y;
        }
        if h > 0 {
          DrawRun(x, y, h, color);
        }
      }
      ClippedRun(Geo().(rotation := 0), was, Pages(), color, x, y0, h0, y1, h1);
    }

    /** The rotation switch of drawFastHLine: the first panel cell of the turned line. */
    method TurnHLine(x0: int16, y0: int16, w: int16) returns (x: int16, y: int16, bSwap: bool)
      requires Valid() && LineFits(Geo(), x0, y0, w, 1)
      ensures bSwap <==> rotation == 1 || rotation == 3
      ensures var q := Rotated(Geo(), x0, y0, w, 1);
              Wrapped(q, x, y) && if bSwap then q.w == 1 && q.h == w else q.w == w && q.h == 1
      ensures if bSwap then y < 0 ==> -0x8000 <= y + w else x < 0 ==> -0x8000 <= x + w
    {
      hide Rotated, LineFits, Wrapped;
      x, y := x0, y0;
      bSwap := false;
      match rotation {
        case 1 =>
          bSwap := true;
          x, y := y, x;
          x := Wrap16(WIDTH - x - 1);
        case 2 =>
          x := Wrap16(WIDTH - x - 1);
          y := Wrap16(HEIGHT - y - 1);
          x := Wrap16(x - (w - 1));
        case 3 =>
          bSwap := true;
          x, y := y, x;
          y := Wrap16(HEIGHT - y - 1);
          y := Wrap16(y - (w - 1));
        case _ =>
      }
      RunTurned(Geo(), x0, y0, w, 1, x, y);
    }

    method DrawFastHLine(x0: int16, y0: int16, w: int16, color: uint16)
      requires Valid() && LineFits(Geo(), x0, y0, w, 1)
      modifies buffer
      ensures color <= INVERSE ==> Painted(Geo(), old(Pages()), Pages(), color, Box(x0, y0, w, 1))
      ensures color <= INVERSE ==> buffer[..] == EachPixel(Geo(), old(buffer[..]), HPoints(x0, y0, w), color)
      ensures color > INVERSE ==>
                PaintedRaw(old(Pages()), Pages(), WHITE, StrayPages(Geo(), Rotated(Geo(), x0, y0, w, 1)))
    {
      hide PaintedRaw, PageImage, EachPixel, PutPixel;
      var x, y, bSwap := TurnHLine(x0, y0, w);
      if bSwap {
        DrawFastVLineInternal(x, y, w, color);
      } else {
        DrawFastHLineInternal(x, y, w, color);
      }
      ghost var g, q := Geo(), Rotated(Geo(), x0, y0, w, 1);
      ghost var effect := if color > INVERSE && bSwap then WHITE else color;
      Unwrapped(g.(rotation := 0), old(Pages()), Pages(), effect, q, x, y, bSwap);
      LineDrawn(g, old(Pages()), Pages(), color, x0, y0, w, 1, q, bSwap);
      if color <= INVERSE {
        PaintedIsEachPixel(Geo(), old(buffer[..]), buffer[..], HPoints(x0, y0, w), color, Box(x0, y0, w, 1));
      }
    }

    /** The rotation switch of drawFastVLine. */
    method TurnVLine(x0: int16, y0: int16, h: int16) returns (x: int16, y: int16, bSwap: bool)
      requires Valid() && LineFits(Geo(), x0, y0, 1, h)
      ensures bSwap <==> rotation == 1 || rotation == 3
      ensures var q := Rotated(Geo(), x0, y0, 1, h);
              Wrapped(q, x, y) && if bSwap then q.w == h && q.h == 1 else q.w == 1 && q.h == h
      ensures if bSwap then x < 0 ==> -0x8000 <= x + h else y < 0 ==> -0x8000 <= y + h
    {
      hide Rotated, LineFits, Wrapped;
      x, y := x0, y0;
      bSwap := false;
      match rotation {
        case 1 =>
          bSwap := true;
          x, y := y, x;
          x := Wrap16(WIDTH - x - 1);
          x := Wrap16(x - (h - 1));
        case 2 =>
          x := Wrap16(WIDTH - x - 1);
          y := Wrap16(HEIGHT - y - 1);
          y := Wrap16(y - (h - 1));
        case 3 =>
          bSwap := true;
          x, y := y, x;
          y := Wrap16(HEIGHT - y - 1);
        case _ =>
      }
      RunTurned(Geo(), x0, y0, 1, h, x, y);
    }

    method DrawFastVLine(x0: int16, y0: int16, h: int16, color: uint16)
      requires Valid() && LineFits(Geo(), x0, y0, 1, h)
      modifies buffer
      ensures color <= INVERSE ==> Painted(Geo(), old(Pages()), Pages(), color, Box(x0, y0, 1, h))
      ensures color <= INVERSE ==> buffer[..] == EachPixel(Geo(), old(buffer[..]), VPoints(x0, y0, h), color)
      ensures color > INVERSE ==>
                PaintedRaw(old(Pages()), Pages(), WHITE, StrayPages(Geo(), Rotated(Geo(), x0, y0, 1, h)))
    {
      hide PaintedRaw, PageImage, EachPixel, PutPixel;
      var x, y, bSwap := TurnVLine(x0, y0, h);
      if bSwap {
        DrawFastHLineInternal(x, y, h, color);
      } else {
        DrawFastVLineInternal(x, y, h, color);
      }
      ghost var g, q := Geo(), Rotated(Geo(), x0, y0, 1, h);
      ghost var effect := if color > INVERSE && !bSwap then WHITE else color;
      Unwrapped(g.(rotation := 0), old(Pages()), Pages(), effect, q, x, y, !bSwap);
      LineDrawn(g, old(Pages()), Pages(), color, x0, y0, 1, h, q, !bSwap);
      if color <= INVERSE {
        PaintedIsEachPixel(Geo(), old(buffer[..]), buffer[..], VPoints(x0, y0, h), color, Box(x0, y0, 1, h));
      }
    }
  }

  /** For example, a line of colour 3 over the first page of a black panel leaves another buffer than drawPixel. */
  method StrayLine() returns (d: Ssd1306, ghost before: seq<bv8>)
    ensures fresh(d) && d.Valid() && Sized(d.Geo(), before) && forall c, r :: !PageImage(d.WIDTH, before)(c, r)
    ensures d.buffer[..] != EachPixel(d.Geo(), before, VPoints(0, 0, 8), 3)
  {
    hide PageImage, EachPixel;
    d := new Ssd1306(128, 64);
    before := d.buffer[..];
    d.DrawFastVLine(0, 0, 8, 3);
    UnknownColourLine(d.Geo(), before, d.buffer[..], VPoints(0, 0, 8), 3, Rotated(d.Geo(), 0, 0, 1, 8));
  }
}
