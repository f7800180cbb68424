/** A colour panel behind a serial bus: an address window is set, then pixels are pushed into it row by row. */
module Panel {
  import opened Bytes

  type Raster = (int, int) -> int

  /** The window is w columns wide from column x; (cx, cy) is where the next pixel goes. */
  datatype Panel = Panel(screen: Raster, x: int, w: int, cx: int, cy: int)

  function Window(p: Panel, x: int, y: int, w: int): Panel {
    Panel(p.screen, x, w, x, y)
  }

  function Push(p: Panel, c: uint16): Panel {
    var screen: Raster := (a: int, b: int) => if a == p.cx && b == p.cy then c else p.screen(a, b);
    if p.cx + 1 == p.x + p.w then p.(screen := screen, cx := p.x, cy := p.cy + 1)
    else p.(screen := screen, cx := p.cx + 1)
  }

  function PushAll(p: Panel, cs: seq<uint16>): Panel {
    if cs == [] then p else Push(PushAll(p, cs[..|cs| - 1]), cs[|cs| - 1])
  }

  lemma {:induction false} PushConcat(p: Panel, s: seq<uint16>, t: seq<uint16>)
    ensures PushAll(p, s + t) == PushAll(PushAll(p, s), t)
  {
    if t == [] {
      assert s + t == s;
    } else {
      var n := |t| - 1;
      PushConcat(p, s, t[..n]);
      assert (s + t)[..|s + t| - 1] == s + t[..n];
    }
  }

  /** The first pixels of a row: they land side by side from the cursor. */
  lemma {:induction false} PushPart(p: Panel, cs: seq<uint16>)
    requires p.cx == p.x && |cs| < p.w
    ensures var q := PushAll(p, cs);
            && q.cx == p.x + |cs| && q.cy == p.cy && q.x == p.x && q.w == p.w
            && forall a, b :: q.screen(a, b) == if b == p.cy
                && p.x <= a < p.x + |cs| then cs[a - p.x] else p.screen(a, b)
  {
    if cs != [] {
      PushPart(p, cs[..|cs| - 1]);
    }
  }

  /** A whole row: it fills the window's width, and the cursor moves to the start of the next row. */
  lemma PushRow(p: Panel, cs: seq<uint16>)
    requires p.cx == p.x && |cs| == p.w > 0
    ensures var q := PushAll(p, cs);
            && q.cx == p.x && q.cy == p.cy + 1 && q.x == p.x && q.w == p.w
            && forall a, b :: q.screen(a, b) == if b == p.cy
                && p.x <= a < p.x + p.w then cs[a - p.x] else p.screen(a, b)
  {
    PushPart(p, cs[..|cs| - 1]);
  }

  function Repeat(c: uint16, n: nat): (cs: seq<uint16>)
    ensures |cs| == n && forall i :: 0 <= i < n ==> cs[i] == c
  {
    seq(n, i => c)
  }

  /** h rows of one colour fill the w by h window, and nothing else. */
  lemma {:induction false} FillWindow(p: Panel, c: uint16, h: nat)
    requires p.cx == p.x && p.w > 0
    requires 0 <= p.w * h
    ensures var q := PushAll(p, Repeat(c, p.w * h));
            && q.cx == p.x && q.cy == p.cy + h && q.x == p.x && q.w == p.w
            && forall a, b :: q.screen(a, b) ==
                 if p.x <= a < p.x + p.w && p.cy <= b < p.cy + h then c else p.screen(a, b)
  {
    if h == 0 {
      assert Repeat(c, p.w * h) == [];
    } else {
      assert p.w * h == p.w * (h - 1) + p.w;
      ProductNatural(p.w, h - 1);
      FillWindow(p, c, h - 1);
      var q := PushAll(p, Repeat(c, p.w * (h - 1)));
      assert Repeat(c, p.w * h) == Repeat(c, p.w * (h - 1)) + Repeat(c, p.w);
      PushConcat(p, Repeat(c, p.w * (h - 1)), Repeat(c, p.w));
      PushRow(q, Repeat(c, p.w));
    }
  }

  lemma ProductNatural(a: int, b: int)
    requires 0 <= a && 0 <= b
    ensures 0 <= a * b
  {
    Scale(b, 0, a);
  }
}
