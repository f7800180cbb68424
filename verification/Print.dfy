/** Drawing characters on the SSD1306, and the promise of getTextBounds: nothing is inked outside. */
module Print {
  import opened Bytes
  import opened Screen
  import opened Text
  import Bitmap
  import opened Gfx
  import Ssd1306

  type Display = Ssd1306.Ssd1306

  // ---- which pixels a character inks -------------------------------------------------------

  /** The screen pixels of glyph pixel (i, j), magnified sx by sy. */
  ghost predicate InBlock(place: Rect, sx: int, sy: int, i: int, j: int, px: int, py: int) {
    Box(place.x + i * sx, place.y + j * sy, sx, sy)(px, py)
  }

  /** No pixel belongs to two blocks. */
  lemma BlockUnique(place: Rect, sx: int, sy: int, i: int, j: int, k: int, l: int, px: int, py: int)
    requires InBlock(place, sx, sy, i, j, px, py) && InBlock(place, sx, sy, k, l, px, py)
    ensures i == k && j == l
  {
    IndexInjective(sx, i, px - place.x - i * sx, k, px - place.x - k * sx);
    IndexInjective(sy, j, py - place.y - j * sy, l, py - place.y - l * sy);
  }

  /** The character of the built-in table: one code is skipped unless the code page is the correct one. */
  function TableIndex(cp437: bool, c: uint8): uint8 {
    if !cp437 && c >= 176 then (c + 1) % 256 else c
  }

  /** In the incorrect code page entry 176 of the table is never shown, and the last character, past the end of
      the table, shows the first entry; otherwise different characters show different entries. */
  lemma TableSkips(c: uint8, d: uint8)
    ensures TableIndex(true, c) == c && (c < 176 ==> TableIndex(false, c) == c)
    ensures TableIndex(false, c) != 176
    ensures TableIndex(false, c) == TableIndex(false, d) <==> c == d || (c, d) == (0, 255) || (c, d) == (255, 0)
  {
  }

  function Columns(st: Style, c: uint8): int
    requires st.Valid() && st.Has(c)
  {
    if st.font.Classic? then 5 else st.GlyphOf(c).width
  }

  function Rows(st: Style, c: uint8): int
    requires st.Valid() && st.Has(c)
  {
    if st.font.Classic? then 8 else st.GlyphOf(c).height
  }

  /** The glyph has a dot in column i, row j: a column of bits from the top, or a stream of bits row by row. */
  predicate Dot(st: Style, c: uint8, i: int, j: int)
    requires st.Valid() && st.Has(c) && 0 <= i < Columns(st, c) && 0 <= j < Rows(st, c)
  {
    match st.font
    case Classic(table, cp437) => Get(table[TableIndex(cp437, c) * 5 + i], j)
    case Custom(bitmap, _, _, _, _) =>
      var g := st.GlyphOf(c);
      StreamInside(g.width, g.height, i, j);
      Get(bitmap[g.bitmapOffset + (j * g.width + i) / 8], 7 - (j * g.width + i) % 8)
  }

  lemma StreamInside(w: int, h: int, i: int, j: int)
    requires 0 <= i < w && 0 <= j < h
    ensures 0 <= j * w + i < w * h && (j * w + i) / 8 < (w * h + 7) / 8
  {
    IndexBound(w, h, j, i);
    assert w * h == h * w;
  }

  /** The dots of a glyph. */
  ghost function Dots(st: Style, c: uint8): (int, int) -> bool
    requires st.Valid() && st.Has(c)
  {
    (i: int, j: int) => 0 <= i < Columns(st, c) && 0 <= j < Rows(st, c) && Dot(st, c, i, j)
  }

  /** A byte of the built-in table is the binary number of a column's dots, the bottom one highest. */
  lemma ColumnValue(st: Style, c: uint8, i: int)
    requires st.Valid() && st.Has(c) && st.font.Classic? && 0 <= i < 5
    ensures Value(seq(8, j requires 0 <= j < 8 => Dots(st, c)(i, 7 - j)))
         == st.font.table[TableIndex(st.font.cp437, c) * 5 + i] as int
  {
    hide Value, Get, Dots, TableIndex;
    var bits := seq(8, j requires 0 <= j < 8 => Dots(st, c)(i, 7 - j));
    var column := st.font.table[TableIndex(st.font.cp437, c) * 5 + i];
    forall j | 0 <= j < 8 ensures bits[j] == Get(column, 7 - j) {
      DotOfTable(st, c, i, 7 - j);
    }
    ByteValue(column, bits);
  }

  /** A byte of a custom glyph's stream is the binary number of its next eight dots, row by row, the first one
      highest. */
  lemma StreamValue(st: Style, c: uint8, n: nat)
    requires st.Valid() && st.Has(c) && st.font.Custom?
    requires var g := st.GlyphOf(c); 8 * n + 8 <= g.width * g.height
    ensures var g := st.GlyphOf(c);
            && 0 < g.width && g.bitmapOffset + n < |st.font.bitmap|
            && Value(seq(8, k requires 0 <= k < 8 => Dots(st, c)((8 * n + k) % g.width, (8 * n + k) / g.width)))
            == st.font.bitmap[g.bitmapOffset + n] as int
  {
    hide Value, Get, Dots;
    var g := st.GlyphOf(c);
    var bits := seq(8, k requires 0 <= k < 8 => Dots(st, c)((8 * n + k) % g.width, (8 * n + k) / g.width));
    forall k | 0 <= k < 8 ensures bits[k] == Get(st.font.bitmap[g.bitmapOffset + n], 7 - k) {
      StreamPlace(g.width, g.height, n, k);
      DotOfStream(st, c, (8 * n + k) % g.width, (8 * n + k) / g.width, Get(st.font.bitmap[g.bitmapOffset + n], 7 - k));
    }
    ByteValue(st.font.bitmap[g.bitmapOffset + n], bits);
  }

  lemma StreamPlace(w: int, h: int, n: nat, k: nat)
    requires 0 < w && 0 <= h && k < 8 && 8 * n + k < w * h
    ensures var i, j := (8 * n + k) % w, (8 * n + k) / w;
            0 <= i < w && 0 <= j < h && j * w + i == 8 * n + k && (8 * n + k) / 8 == n && (8 * n + k) % 8 == k
  {
    var v := 8 * n + k;
    assert v == v / w * w + v % w;
    IndexBound(w, h, v / w, v % w);
    assert w * h == h * w;
  }

  lemma DotsInside(st: Style, c: uint8, i: int, j: int)
    requires st.Valid() && st.Has(c)
    ensures Dots(st, c)(i, j) ==> 0 <= i < Columns(st, c) && 0 <= j < Rows(st, c)
  {
  }

  /** The pixels of the selected blocks. */
  ghost function Blocks(place: Rect, sx: int, sy: int, sel: (int, int) -> bool): Region {
    (px: int, py: int) => exists i, j :: sel(i, j) && InBlock(place, sx, sy, i, j, px, py)
  }

  /** What a character paints: its dots, or with a background colour of its own the whole cell. */
  ghost function CharRegion(st: Style, c: uint8, place: Rect, background: bool): Region
    requires st.Valid() && st.Has(c)
  {
    if background && st.font.Classic? then Box(place.x, place.y, 6 * st.sx, 8 * st.sy)
    else Blocks(place, st.sx, st.sy, Dots(st, c))
  }

  /** Dots in the text colour, gaps and the spacing column in the background colour, each as the display renders
      it in a run as high as the block, or the column, that is filled there. */
  ghost function CharColour(g: Geometry, st: Style, c: uint8, place: Rect, color: int, bg: int): (int, int) -> int
    requires st.Valid() && st.Has(c)
  {
    (px: int, py: int) =>
      var i, j := (px - place.x) / st.sx, (py - place.y) / st.sy;
      if i == 5 && st.font.Classic? then Ink(g, bg, place.y, 8 * st.sy)(px, py)
      else Ink(g, if Dots(st, c)(i, j) then color else bg, place.y + j * st.sy, st.sy)(px, py)
  }

  /** The colours of one block. */
  lemma BlockColour(g: Geometry, st: Style, c: uint8, place: Rect, color: int, bg: int, i: int, j: int,
                    px: int, py: int)
    requires st.Valid() && st.Has(c) && InBlock(place, st.sx, st.sy, i, j, px, py)
    ensures CharColour(g, st, c, place, color, bg)(px, py) ==
              if i == 5 && st.font.Classic? then Ink(g, bg, place.y, 8 * st.sy)(px, py)
              else Ink(g, if Dots(st, c)(i, j) then color else bg, place.y + j * st.sy, st.sy)(px, py)
  {
    hide Ink, Dots;
    Quotient(px - place.x, st.sx, i);
    Quotient(py - place.y, st.sy, j);
  }

  lemma Quotient(v: int, d: int, q: int)
    requires 0 < d && q * d <= v < q * d + d
    ensures v / d == q
  {
    IndexInjective(d, q, v - q * d, v / d, v % d);
  }

  lemma BlockInked(place: Rect, sx: int, sy: int, sel: (int, int) -> bool, i: int, j: int, px: int, py: int)
    requires InBlock(place, sx, sy, i, j, px, py)
    ensures Blocks(place, sx, sy, sel)(px, py) <==> sel(i, j)
  {
    if Blocks(place, sx, sy, sel)(px, py) {
      var k, l :| sel(k, l) && InBlock(place, sx, sy, k, l, px, py);
      BlockUnique(place, sx, sy, i, j, k, l, px, py);
    }
  }

  /** One more block, painted in the colours of its pixels. */
  lemma AddBlock(g: Geometry, was: Image, mid: Image, now: Image, place: Rect, sx: int, sy: int,
                 sel: (int, int) -> bool, more: (int, int) -> bool, i: int, j: int, colour: (int, int) -> int)
    requires Pictured(g, was, mid, Blocks(place, sx, sy, sel), colour) && !sel(i, j)
    requires Pictured(g, mid, now, Box(place.x + i * sx, place.y + j * sy, sx, sy), colour)
    requires forall k, l :: more(k, l) <==> sel(k, l) || (k == i && l == j)
    ensures Pictured(g, was, now, Blocks(place, sx, sy, more), colour)
  {
    hide Pictured, Blocks;
    var R, S := Blocks(place, sx, sy, sel), Box(place.x + i * sx, place.y + j * sy, sx, sy);
    var U := Blocks(place, sx, sy, more);
    forall px, py ensures (U(px, py) <==> R(px, py) || S(px, py)) && !(R(px, py) && S(px, py)) {
      MoreBlocks(place, sx, sy, sel, more, i, j, px, py);
    }
    PictureBoth(g, was, mid, now, R, S, U, colour);
  }

  lemma MoreBlocks(place: Rect, sx: int, sy: int, sel: (int, int) -> bool, more: (int, int) -> bool, i: int, j: int,
                   px: int, py: int)
    requires forall k, l :: more(k, l) <==> sel(k, l) || (k == i && l == j)
    requires !sel(i, j)
    ensures Blocks(place, sx, sy, more)(px, py) <==>
              Blocks(place, sx, sy, sel)(px, py) || InBlock(place, sx, sy, i, j, px, py)
    ensures !(Blocks(place, sx, sy, sel)(px, py) && InBlock(place, sx, sy, i, j, px, py))
  {
    hide InBlock;
    if InBlock(place, sx, sy, i, j, px, py) {
      BlockInked(place, sx, sy, sel, i, j, px, py);
      assert more(i, j);
    }
  }

  /** The blocks finished after i whole columns and j rows of the next (classic), or after j whole rows and i
      columns of the next (custom). */
  ghost function ColumnsDone(st: Style, c: uint8, background: bool, i: int, j: int): (int, int) -> bool
    requires st.Valid() && st.Has(c)
  {
    (k: int, l: int) => 0 <= k < 5 && 0 <= l < 8 && (k < i || (k == i && l < j)) && (background || Dots(st, c)(k, l))
  }

  ghost function RowsDone(st: Style, c: uint8, i: int, j: int): (int, int) -> bool
    requires st.Valid() && st.Has(c)
  {
    (k: int, l: int) => (l < j || (l == j && k < i)) && Dots(st, c)(k, l)
  }

  /** One turn of the inner loop: the block is painted in its colour, or left alone. */
  lemma NextBlock(g: Geometry, was: Image, mid: Image, now: Image, st: Style, c: uint8, place: Rect,
                  sel: (int, int) -> bool, more: (int, int) -> bool, i: int, j: int,
                  background: bool, color: int, bg: int)
    requires st.Valid() && st.Has(c) && !sel(i, j) && (st.font.Classic? ==> i < 5)
    requires Pictured(g, was, mid, Blocks(place, st.sx, st.sy, sel), CharColour(g, st, c, place, color, bg))
    requires forall k, l :: more(k, l) <==> sel(k, l) || (k == i && l == j && (background || Dots(st, c)(i, j)))
    requires if background || Dots(st, c)(i, j)
             then Pictured(g, mid, now, Box(place.x + i * st.sx, place.y + j * st.sy, st.sx, st.sy),
                           Ink(g, if Dots(st, c)(i, j) then color else bg, place.y + j * st.sy, st.sy))
             else now == mid
    ensures Pictured(g, was, now, Blocks(place, st.sx, st.sy, more), CharColour(g, st, c, place, color, bg))
  {
    hide Pictured, CharColour, Dots, InBlock, Ink;
    var colour := CharColour(g, st, c, place, color, bg);
    if background || Dots(st, c)(i, j) {
      var S := Box(place.x + i * st.sx, place.y + j * st.sy, st.sx, st.sy);
      var ink := Ink(g, if Dots(st, c)(i, j) then color else bg, place.y + j * st.sy, st.sy);
      forall px, py | S(px, py) ensures ink(px, py) == colour(px, py) {
        InBlockIs(place, st.sx, st.sy, i, j, px, py);
        BlockColour(g, st, c, place, color, bg, i, j, px, py);
      }
      SameColours(g, mid, now, S, ink, colour);
      AddBlock(g, was, mid, now, place, st.sx, st.sy, sel, more, i, j, colour);
    } else {
      SamePicture(g, was, mid, Blocks(place, st.sx, st.sy, sel), Blocks(place, st.sx, st.sy, more), colour);
    }
  }

  lemma InBlockIs(place: Rect, sx: int, sy: int, i: int, j: int, px: int, py: int)
    ensures InBlock(place, sx, sy, i, j, px, py) <==> Box(place.x + i * sx, place.y + j * sy, sx, sy)(px, py)
  {
  }

  lemma SameBlocks(g: Geometry, a: Image, b: Image, place: Rect, sx: int, sy: int,
                   sel: (int, int) -> bool, more: (int, int) -> bool, colour: (int, int) -> int)
    requires Pictured(g, a, b, Blocks(place, sx, sy, sel), colour)
    requires forall i, j :: sel(i, j) <==> more(i, j)
    ensures Pictured(g, a, b, Blocks(place, sx, sy, more), colour)
  {
    hide Pictured, InBlock;
    SamePicture(g, a, b, Blocks(place, sx, sy, sel), Blocks(place, sx, sy, more), colour);
  }

  lemma NoBlocks(g: Geometry, a: Image, place: Rect, sx: int, sy: int, sel: (int, int) -> bool,
                 colour: (int, int) -> int)
    requires forall i, j :: !sel(i, j)
    ensures Pictured(g, a, a, Blocks(place, sx, sy, sel), colour)
  {
    hide Pictured;
    EmptyPicture(g, a, Blocks(place, sx, sy, sel), colour);
  }

  // ---- drawing one block -------------------------------------------------------------------

  ghost predicate BlockFits(g: Geometry, x: int, y: int, w: int, h: int) {
    Fits16(x + w) && Fits(g, x, y, x + w - 1, y + h - 1)
  }

  lemma BlockInCell(g: Geometry, q: Rect, sx: int, sy: int, n: int, m: int, i: int, j: int)
    requires BlockFits(g, q.x, q.y, q.w, q.h) && 0 < sx && 0 < sy && q.w == n * sx && q.h == m * sy
    requires 0 <= i < n && 0 <= j < m
    ensures 0 <= i * sx && i * sx + sx <= q.w && 0 <= j * sy && j * sy + sy <= q.h
    ensures BlockFits(g, q.x + i * sx, q.y + j * sy, sx, sy) && Fits16(q.x + i * sx) && Fits16(q.y + j * sy)
  {
    hide BlockFits;
    Scale(sx, 0, i);
    Scale(sx, i + 1, n);
    Scale(sy, 0, j);
    Scale(sy, j + 1, m);
    SmallerFits(g, q.x, q.y, q.w, q.h, i * sx, j * sy, sx, sy);
  }

  lemma SmallerFits(g: Geometry, x: int, y: int, w: int, h: int, dx: int, dy: int, v: int, u: int)
    requires BlockFits(g, x, y, w, h) && 0 <= dx && 0 < v && dx + v <= w && 0 <= dy && 0 < u && dy + u <= h
    ensures BlockFits(g, x + dx, y + dy, v, u) && Fits16(x + dx) && Fits16(y + dy)
  {
    hide LineFits, Geometry.Fits;
    BoxFits(g, x, y, x + w - 1, y + h - 1, x + dx, y + dy, x + dx + v - 1, y + dy + u - 1);
  }

  /** `if (size_x == 1 && size_y == 1) writePixel(...) else writeFillRect(...)` */
  method DrawBlock(d: Display, x: int16, y: int16, sx: uint8, sy: uint8, color: uint16)
    requires d.Valid() && 1 <= sx && 1 <= sy && BlockFits(d.Geo(), x, y, sx, sy)
    modifies d.buffer
    ensures Pictured(d.Geo(), old(d.Pages()), d.Pages(), Box(x, y, sx, sy), Ink(d.Geo(), color, y, sy))
  {
    hide Painted, Pictured, Ink, Geometry.Fits, LineFits;
    if sx == 1 && sy == 1 {
      ghost var was := d.Pages();
      d.DrawPixel(x, y, color);
      InkDot(d.Geo(), was, d.Pages(), color, x, y);
    } else {
      BoxFits(d.Geo(), x, y, x + sx - 1, y + sy - 1, x, y, x + sx - 1, y + sy - 1);
      FillRect(d, x, y, sx, sy, color);
    }
  }

  // ---- one character -----------------------------------------------------------------------

  /** `line >>= 1` once per row: the lowest bit is row j of the column. */
  ghost predicate Remaining(column: bv8, j: nat, line: bv8) {
    forall k :: j <= k < 8 ==> Get(line, k - j) == Get(column, k)
  }

  lemma ShiftDown(b: bv8, k: nat)
    requires k < 7
    ensures Get(b >> 1, k) == Get(b, k + 1)
  {
  }

  lemma NextRow(column: bv8, j: nat, line: bv8)
    requires j < 8 && Remaining(column, j, line)
    ensures Remaining(column, j + 1, line >> 1)
  {
    forall k | j + 1 <= k < 8 ensures Get(line >> 1, k - j - 1) == Get(column, k) {
      ShiftDown(line, k - j - 1);
    }
  }

  lemma LowestBit(column: bv8, j: nat, line: bv8)
    requires j < 8 && Remaining(column, j, line)
    ensures line & 1 != 0 <==> Get(column, j)
  {
    assert Get(line, 0) <==> line & 1 != 0;
    assert Get(line, j - j) == Get(column, j);
  }

  /** The loops stand before row j of column i: everything earlier is drawn. */
  ghost predicate ColumnsDrawn(g: Geometry, was: Image, now: Image, st: Style, c: uint8, q: Rect, color: int, bg: int,
                               i: int, j: int)
    requires st.Valid() && st.Has(c)
  {
    Pictured(g, was, now, Blocks(q, st.sx, st.sy, ColumnsDone(st, c, bg != color, i, j)),
             CharColour(g, st, c, q, color, bg))
  }

  /** The eight rows of column i. */
  method ClassicColumn(d: Display, st: Style, c: uint8, x: int16, y: int16, i: int, color: uint16, bg: uint16,
                       ghost was: Image)
    requires d.Valid() && st.Valid() && st.Has(c) && st.font.Classic? && 0 <= i < 5
    requires BlockFits(d.Geo(), x, y, 6 * st.sx, 8 * st.sy)
    requires ColumnsDrawn(d.Geo(), was, d.Pages(), st, c, Rect(x, y, 6 * st.sx, 8 * st.sy), color, bg, i, 0)
    modifies d.buffer
    ensures ColumnsDrawn(d.Geo(), was, d.Pages(), st, c, Rect(x, y, 6 * st.sx, 8 * st.sy), color, bg, i + 1, 0)
  {
    hide Pictured, Ink, ColumnsDrawn, Dots, BlockFits, Remaining, Get, TableIndex, Ssd1306.PageImage;
    ghost var g, q := d.Geo(), Rect(x, y, 6 * st.sx, 8 * st.sy);
    var line := st.font.table[TableIndex(st.font.cp437, c) * 5 + i];
    ghost var column := line;
    StartColumn(column);
    for j := 0 to 8
      invariant Remaining(column, j, line)
      invariant ColumnsDrawn(g, was, d.Pages(), st, c, q, color, bg, i, j)
    {
      ghost var mid := d.Pages();
      LowestBit(column, j, line);
      DotOfTable(st, c, i, j);
      BlockInCell(g, q, st.sx, st.sy, 6, 8, i, j);
      if line & 1 != 0 {
        DrawBlock(d, x + i * st.sx, y + j * st.sy, st.sx, st.sy, color);
      } else if bg != color {
        DrawBlock(d, x + i * st.sx, y + j * st.sy, st.sx, st.sy, bg);
      }
      NextClassicRow(g, was, mid, d.Pages(), st, c, q, i, j, color, bg);
      NextRow(column, j, line);
      line := line >> 1;
    }
    NextClassicColumn(g, was, d.Pages(), st, c, q, i, color, bg);
  }

  lemma DotOfTable(st: Style, c: uint8, i: int, j: int)
    requires st.Valid() && st.Has(c) && st.font.Classic? && 0 <= i < 5 && 0 <= j < 8
    ensures Dots(st, c)(i, j) <==> Get(st.font.table[TableIndex(st.font.cp437, c) * 5 + i], j)
  {
  }

  lemma NextClassicRow(g: Geometry, was: Image, mid: Image, now: Image, st: Style, c: uint8, q: Rect, i: int, j: int,
                       color: int, bg: int)
    requires st.Valid() && st.Has(c) && st.font.Classic? && 0 <= i < 5 && 0 <= j < 8
    requires ColumnsDrawn(g, was, mid, st, c, q, color, bg, i, j)
    requires if Dots(st, c)(i, j) || bg != color
             then Pictured(g, mid, now, Box(q.x + i * st.sx, q.y + j * st.sy, st.sx, st.sy),
                           Ink(g, if Dots(st, c)(i, j) then color else bg, q.y + j * st.sy, st.sy))
             else now == mid
    ensures ColumnsDrawn(g, was, now, st, c, q, color, bg, i, j + 1)
  {
    hide Pictured, Ink, Blocks, CharColour, Dots;
    NextBlock(g, was, mid, now, st, c, q, ColumnsDone(st, c, bg != color, i, j),
              ColumnsDone(st, c, bg != color, i, j + 1), i, j, bg != color, color, bg);
  }

  lemma NextClassicColumn(g: Geometry, was: Image, now: Image, st: Style, c: uint8, q: Rect, i: int,
                          color: int, bg: int)
    requires st.Valid() && st.Has(c) && ColumnsDrawn(g, was, now, st, c, q, color, bg, i, 8)
    ensures ColumnsDrawn(g, was, now, st, c, q, color, bg, i + 1, 0)
  {
    hide Pictured, Blocks, CharColour, Dots;
    SameBlocks(g, was, now, q, st.sx, st.sy, ColumnsDone(st, c, bg != color, i, 8),
               ColumnsDone(st, c, bg != color, i + 1, 0), CharColour(g, st, c, q, color, bg));
  }

  lemma StartColumn(column: bv8)
    ensures Remaining(column, 0, column)
  {
  }

  /** Every pixel of a cell lies in one of its blocks, and every block of a cell within it. */
  lemma BlockOf(q: Rect, sx: int, sy: int, n: int, m: int, px: int, py: int) returns (i: int, j: int)
    requires 0 < sx && 0 < sy && Box(q.x, q.y, n * sx, m * sy)(px, py)
    ensures 0 <= i < n && 0 <= j < m && InBlock(q, sx, sy, i, j, px, py)
  {
    i, j := (px - q.x) / sx, (py - q.y) / sy;
    Divided(px - q.x, sx, n);
    Divided(py - q.y, sy, m);
  }

  lemma Divided(v: int, d: int, n: int)
    requires 0 < d && 0 <= v < n * d
    ensures 0 <= v / d < n && v / d * d <= v < v / d * d + d
  {
    var q := v / d;
    assert v == q * d + v % d;
    if q < 0 {
      Scale(d, q, -1);
    } else if q >= n {
      Scale(d, n, q);
    }
  }

  lemma BlockWithin(q: Rect, sx: int, sy: int, n: int, m: int, i: int, j: int, px: int, py: int)
    requires 0 < sx && 0 < sy && 0 <= i < n && 0 <= j < m && InBlock(q, sx, sy, i, j, px, py)
    ensures Box(q.x, q.y, n * sx, m * sy)(px, py)
  {
    Scale(sx, 0, i);
    Scale(sx, i + 1, n);
    Scale(sy, 0, j);
    Scale(sy, j + 1, m);
  }

  /** The spacing column completes the five drawn ones to the cell. */
  lemma SpacingColumn(g: Geometry, st: Style, c: uint8, q: Rect, color: int, bg: int, px: int, py: int)
    requires st.Valid() && st.Has(c) && st.font.Classic?
    ensures var R := Blocks(q, st.sx, st.sy, ColumnsDone(st, c, true, 5, 0));
            var S := Box(q.x + 5 * st.sx, q.y, st.sx, 8 * st.sy);
            && (Box(q.x, q.y, 6 * st.sx, 8 * st.sy)(px, py) <==> R(px, py) || S(px, py)) && !(R(px, py) && S(px, py))
            && (S(px, py) ==> CharColour(g, st, c, q, color, bg)(px, py) == Ink(g, bg, q.y, 8 * st.sy)(px, py))
  {
    hide InBlock, Dot, Ink, CharColour;
    if Box(q.x, q.y, 6 * st.sx, 8 * st.sy)(px, py) {
      var i, j := BlockOf(q, st.sx, st.sy, 6, 8, px, py);
      BlockInked(q, st.sx, st.sy, ColumnsDone(st, c, true, 5, 0), i, j, px, py);
      BlockColour(g, st, c, q, color, bg, i, j, px, py);
      LastBlock(q, st.sx, st.sy, i, j, px, py);
    }
    if Blocks(q, st.sx, st.sy, ColumnsDone(st, c, true, 5, 0))(px, py) {
      var i, j :| ColumnsDone(st, c, true, 5, 0)(i, j) && InBlock(q, st.sx, st.sy, i, j, px, py);
      BlockWithin(q, st.sx, st.sy, 6, 8, i, j, px, py);
    }
  }

  lemma LastBlock(q: Rect, sx: int, sy: int, i: int, j: int, px: int, py: int)
    requires 0 < sx && 0 < sy && 0 <= i < 6 && 0 <= j < 8 && InBlock(q, sx, sy, i, j, px, py)
    ensures Box(q.x + 5 * sx, q.y, sx, 8 * sy)(px, py) <==> i == 5
  {
    Scale(sy, 0, j);
    Scale(sy, j + 1, 8);
    if i < 5 {
      Scale(sx, i + 1, 5);
    }
  }

  /** The five columns, and with a background the spacing column. */
  method DrawClassic(d: Display, st: Style, c: uint8, x: int16, y: int16, color: uint16, bg: uint16)
    requires d.Valid() && st.Valid() && st.Has(c) && st.font.Classic?
    requires BlockFits(d.Geo(), x, y, 6 * st.sx, 8 * st.sy)
    modifies d.buffer
    ensures var q := Rect(x, y, 6 * st.sx, 8 * st.sy);
            Pictured(d.Geo(), old(d.Pages()), d.Pages(), CharRegion(st, c, q, bg != color),
                     CharColour(d.Geo(), st, c, q, color, bg))
  {
    hide Pictured, Painted, Blocks, CharColour, Geometry.Fits, Dots;
    ghost var g, q, background, was := d.Geo(), Rect(x, y, 6 * st.sx, 8 * st.sy), bg != color, d.Pages();
    NoBlocks(g, was, q, st.sx, st.sy, ColumnsDone(st, c, background, 0, 0), CharColour(g, st, c, q, color, bg));
    for i := 0 to 5
      invariant ColumnsDrawn(g, was, d.Pages(), st, c, q, color, bg, i, 0)
    {
      ClassicColumn(d, st, c, x, y, i, color, bg, was);
    }
    ghost var mid := d.Pages();
    if bg != color {
      DrawSpacing(d, x, y, st.sx, st.sy, bg);
    }
    FinishClassic(g, was, mid, d.Pages(), st, c, q, background, color, bg);
  }

  method DrawSpacing(d: Display, x: int16, y: int16, sx: uint8, sy: uint8, bg: uint16)
    requires d.Valid() && 1 <= sx && 1 <= sy && BlockFits(d.Geo(), x, y, 6 * sx, 8 * sy)
    modifies d.buffer
    ensures Pictured(d.Geo(), old(d.Pages()), d.Pages(), Box(x + 5 * sx, y, sx, 8 * sy), Ink(d.Geo(), bg, y, 8 * sy))
  {
    hide Painted, PaintedRaw, Pictured, Ink, Geometry.Fits, LineFits, Ssd1306.StrayPages;
    BoxFits(d.Geo(), x, y, x + 6 * sx - 1, y + 8 * sy - 1, x + 5 * sx, y, x + 6 * sx - 1, y + 8 * sy - 1);
    RunFits(d.Geo(), x, y, x + 6 * sx - 1, y + 8 * sy - 1, x + 5 * sx, y, 8 * sy);
    if sx == 1 && sy == 1 {
      ghost var was := d.Pages();
      d.DrawFastVLine(x + 5, y, 8, bg);
      InkRun(d.Geo(), was, d.Pages(), bg, x + 5, y, 8);
    } else {
      FillRect(d, x + 5 * sx, y, sx, 8 * sy, bg);
    }
  }

  lemma FinishClassic(g: Geometry, was: Image, mid: Image, now: Image, st: Style, c: uint8, q: Rect, background: bool,
                      color: int, bg: int)
    requires st.Valid() && st.Has(c) && st.font.Classic?
    requires background == (bg != color) && ColumnsDrawn(g, was, mid, st, c, q, color, bg, 5, 0)
    requires if background
             then Pictured(g, mid, now, Box(q.x + 5 * st.sx, q.y, st.sx, 8 * st.sy), Ink(g, bg, q.y, 8 * st.sy))
             else now == mid
    ensures Pictured(g, was, now, CharRegion(st, c, q, background), CharColour(g, st, c, q, color, bg))
  {
    hide Pictured, Blocks, CharColour, Dot, Ink;
    if background {
      var R, S := Blocks(q, st.sx, st.sy, ColumnsDone(st, c, true, 5, 0)), Box(q.x + 5 * st.sx, q.y, st.sx, 8 * st.sy);
      forall px, py {
        SpacingColumn(g, st, c, q, color, bg, px, py);
      }
      SameColours(g, mid, now, S, Ink(g, bg, q.y, 8 * st.sy), CharColour(g, st, c, q, color, bg));
      PictureBoth(g, was, mid, now, R, S, Box(q.x, q.y, 6 * st.sx, 8 * st.sy), CharColour(g, st, c, q, color, bg));
    } else {
      forall i, j ensures ColumnsDone(st, c, false, 5, 0)(i, j) <==> Dots(st, c)(i, j) {
        DotsInside(st, c, i, j);
      }
      SameBlocks(g, was, mid, q, st.sx, st.sy, ColumnsDone(st, c, false, 5, 0), Dots(st, c),
                 CharColour(g, st, c, q, color, bg));
    }
  }

  // ---- custom glyphs -----------------------------------------------------------------------

  /** Before bit n of a glyph's stream: the wrapping bit counter, the next byte to read, and the shift
      register with the rest of the current byte. */
  ghost predicate Streamed(bitmap: seq<bv8>, offset: int, n: int, bo: int, bit: int, bits: bv8) {
    && 0 <= n && bit % 8 == n % 8 && bo == offset + (n + 7) / 8
    && (n % 8 != 0 ==> 0 <= offset + n / 8 < |bitmap| && bits == Bitmap.Shifted(bitmap[offset + n / 8], n % 8))
  }

  lemma StreamStep(n: nat, bit: uint8)
    requires bit % 8 == n % 8
    ensures (bit + 1) % 256 % 8 == (n + 1) % 8
    ensures if n % 8 == 0 then (n + 7) / 8 == n / 8 else (n + 7) / 8 == n / 8 + 1
    ensures (n + 1 + 7) / 8 == n / 8 + 1
    ensures (n + 1) % 8 != 0 ==> (n + 1) / 8 == n / 8 && (n + 1) % 8 == n % 8 + 1
  {
  }

  /** `if (!(bit++ & 7)) bits = bitmap[bo++];`, the test of the highest bit, and `bits <<= 1`. */
  method ReadDot(bitmap: seq<bv8>, bo0: uint16, bit0: uint8, bits0: bv8, ghost offset: int, ghost n: int,
                 ghost total: int)
    returns (bo: uint16, bit: uint8, bits: bv8, lit: bool)
    requires Streamed(bitmap, offset, n, bo0, bit0, bits0) && n < total
    requires 0 <= offset && offset + (total + 7) / 8 <= |bitmap| <= 0xFFFF
    ensures Streamed(bitmap, offset, n + 1, bo, bit, bits)
    ensures offset + n / 8 < |bitmap| && (lit <==> Get(bitmap[offset + n / 8], 7 - n % 8))
  {
    hide Bitmap.Shifted, Get;
    bo, bit, bits := bo0, bit0, bits0;
    StreamStep(n, bit);
    ghost var source := bitmap[offset + n / 8];
    if bit % 8 == 0 {
      bits := bitmap[bo];
      bo := bo + 1;
      Bitmap.ShiftNone(bits);
    }
    bit := (bit + 1) % 256;
    Bitmap.ShiftRegister(source, n % 8);
    lit := bits & 0x80 != 0;
    Bitmap.ShiftOnce(bits, source, n % 8 + 1);
    bits := bits << 1;
  }

  /** The loop stands before column i of row j: everything earlier is drawn, and the stream is there. */
  ghost predicate AtDot(st: Style, c: uint8, i: int, j: int, bo: int, bit: int, bits: bv8)
    requires st.Valid() && st.Has(c) && st.font.Custom?
  {
    Streamed(st.font.bitmap, st.GlyphOf(c).bitmapOffset, j * st.GlyphOf(c).width + i, bo, bit, bits)
  }

  ghost predicate DrawnTo(g: Geometry, was: Image, now: Image, st: Style, c: uint8, q: Rect, i: int, j: int, color: int)
    requires st.Valid() && st.Has(c)
  {
    Pictured(g, was, now, Blocks(q, st.sx, st.sy, RowsDone(st, c, i, j)), CharColour(g, st, c, q, color, color))
  }

  lemma StartGlyph(g: Geometry, was: Image, st: Style, c: uint8, q: Rect, color: int)
    requires st.Valid() && st.Has(c) && st.font.Custom?
    ensures AtDot(st, c, 0, 0, st.GlyphOf(c).bitmapOffset, 0, 0) && DrawnTo(g, was, was, st, c, q, 0, 0, color)
  {
    hide Pictured, Dots;
    forall k, l ensures !RowsDone(st, c, 0, 0)(k, l) {
      DotsInside(st, c, k, l);
    }
    NoBlocks(g, was, q, st.sx, st.sy, RowsDone(st, c, 0, 0), CharColour(g, st, c, q, color, color));
  }

  lemma NextColumn(g: Geometry, was: Image, mid: Image, now: Image, st: Style, c: uint8, q: Rect, i: int, j: int,
                   color: int)
    requires st.Valid() && st.Has(c) && st.font.Custom? && DrawnTo(g, was, mid, st, c, q, i, j, color)
    requires if Dots(st, c)(i, j)
             then Pictured(g, mid, now, Box(q.x + i * st.sx, q.y + j * st.sy, st.sx, st.sy),
                           Ink(g, color, q.y + j * st.sy, st.sy))
             else now == mid
    ensures DrawnTo(g, was, now, st, c, q, i + 1, j, color)
  {
    hide Pictured, Painted, Dots, Blocks, CharColour;
    NextBlock(g, was, mid, now, st, c, q, RowsDone(st, c, i, j), RowsDone(st, c, i + 1, j), i, j, false, color, color);
  }

  lemma NextGlyphRow(g: Geometry, was: Image, now: Image, st: Style, c: uint8, q: Rect, j: int, color: int, bo: int,
                     bit: int, bits: bv8)
    requires st.Valid() && st.Has(c) && st.font.Custom?
    requires AtDot(st, c, Columns(st, c), j, bo, bit, bits) && DrawnTo(g, was, now, st, c, q, Columns(st, c), j, color)
    ensures AtDot(st, c, 0, j + 1, bo, bit, bits) && DrawnTo(g, was, now, st, c, q, 0, j + 1, color)
  {
    hide Pictured, Dots, Blocks, CharColour, Streamed;
    var w := st.GlyphOf(c).width;
    assert (j + 1) * w == j * w + w;
    forall k, l ensures RowsDone(st, c, w, j)(k, l) <==> RowsDone(st, c, 0, j + 1)(k, l) {
      DotsInside(st, c, k, l);
    }
    SameBlocks(g, was, now, q, st.sx, st.sy, RowsDone(st, c, w, j), RowsDone(st, c, 0, j + 1),
               CharColour(g, st, c, q, color, color));
  }

  lemma FinishGlyph(g: Geometry, was: Image, now: Image, st: Style, c: uint8, q: Rect, color: int)
    requires st.Valid() && st.Has(c) && DrawnTo(g, was, now, st, c, q, 0, Rows(st, c), color)
    ensures Pictured(g, was, now, Blocks(q, st.sx, st.sy, Dots(st, c)), CharColour(g, st, c, q, color, color))
  {
    hide Pictured, Dots, Blocks, CharColour;
    forall k, l ensures RowsDone(st, c, 0, Rows(st, c))(k, l) <==> Dots(st, c)(k, l) {
      DotsInside(st, c, k, l);
    }
    SameBlocks(g, was, now, q, st.sx, st.sy, RowsDone(st, c, 0, Rows(st, c)), Dots(st, c),
               CharColour(g, st, c, q, color, color));
  }

  /** The next dot of the stream. */
  method NextDot(st: Style, c: uint8, xx: int, yy: int, bo0: uint16, bit0: uint8, bits0: bv8)
    returns (bo: uint16, bit: uint8, bits: bv8, lit: bool)
    requires st.Valid() && st.Has(c) && st.font.Custom?
    requires 0 <= xx < st.GlyphOf(c).width && 0 <= yy < st.GlyphOf(c).height && AtDot(st, c, xx, yy, bo0, bit0, bits0)
    ensures AtDot(st, c, xx + 1, yy, bo, bit, bits) && (lit <==> Dots(st, c)(xx, yy))
  {
    hide Streamed, Dots;
    var glyph := st.GlyphOf(c);
    ghost var n := yy * glyph.width + xx;
    StreamInside(glyph.width, glyph.height, xx, yy);
    bo, bit, bits, lit := ReadDot(st.font.bitmap, bo0, bit0, bits0, glyph.bitmapOffset, n, glyph.width * glyph.height);
    DotOfStream(st, c, xx, yy, lit);
  }

  /** Where the code draws dot (xx, yy) is its block of the cell. */
  lemma DotPlace(g: Geometry, st: Style, c: uint8, at: Cursor, xx: int, yy: int)
    requires st.Valid() && st.Has(c) && st.font.Custom?
    requires 0 <= xx < st.GlyphOf(c).width && 0 <= yy < st.GlyphOf(c).height
    requires var q := Cell(st, at, c); BlockFits(g, q.x, q.y, q.w, q.h)
    ensures var q, glyph := Cell(st, at, c), st.GlyphOf(c);
            var x, y := at.x + (glyph.xOffset + xx) * st.sx, at.y + (glyph.yOffset + yy) * st.sy;
            x == q.x + xx * st.sx && y == q.y + yy * st.sy && Fits16(x) && Fits16(y) && BlockFits(g, x, y, st.sx, st.sy)
  {
    hide BlockFits, Font.Valid;
    var q, glyph := Cell(st, at, c), st.GlyphOf(c);
    BlockInCell(g, q, st.sx, st.sy, glyph.width, glyph.height, xx, yy);
    Offset(glyph.xOffset, xx, st.sx);
    Offset(glyph.yOffset, yy, st.sy);
  }

  /** One turn of the inner loop. */
  method CustomDot(d: Display, st: Style, c: uint8, x: int16, y: int16, xx: int, yy: int, bo0: uint16, bit0: uint8,
                   bits0: bv8, color: uint16)
    returns (bo: uint16, bit: uint8, bits: bv8)
    requires d.Valid() && st.Valid() && st.Has(c) && st.font.Custom?
    requires 0 <= xx < st.GlyphOf(c).width && 0 <= yy < st.GlyphOf(c).height
    requires var q := Cell(st, Cursor(x, y), c); BlockFits(d.Geo(), q.x, q.y, q.w, q.h)
    requires AtDot(st, c, xx, yy, bo0, bit0, bits0)
    modifies d.buffer
    ensures AtDot(st, c, xx + 1, yy, bo, bit, bits)
    ensures var q := Cell(st, Cursor(x, y), c);
            if Dots(st, c)(xx, yy)
            then Pictured(d.Geo(), old(d.Pages()), d.Pages(), Box(q.x + xx * st.sx, q.y + yy * st.sy, st.sx, st.sy),
                          Ink(d.Geo(), color, q.y + yy * st.sy, st.sy))
            else d.Pages() == old(d.Pages())
  {
    hide Pictured, Ink, BlockFits, AtDot, Dots, Cell, Ssd1306.PageImage;
    var lit;
    bo, bit, bits, lit := NextDot(st, c, xx, yy, bo0, bit0, bits0);
    if lit {
      DotPlace(d.Geo(), st, c, Cursor(x, y), xx, yy);
      var glyph := st.GlyphOf(c);
      DrawBlock(d, x + (glyph.xOffset + xx) * st.sx, y + (glyph.yOffset + yy) * st.sy, st.sx, st.sy, color);
    }
  }

  lemma DotOfStream(st: Style, c: uint8, i: int, j: int, lit: bool)
    requires st.Valid() && st.Has(c) && st.font.Custom? && 0 <= i < st.GlyphOf(c).width
             && 0 <= j < st.GlyphOf(c).height
    requires var g := st.GlyphOf(c);
             0 <= j * g.width + i && g.bitmapOffset + (j * g.width + i) / 8 < |st.font.bitmap|
             && (lit <==> Get(st.font.bitmap[g.bitmapOffset + (j * g.width + i) / 8], 7 - (j * g.width + i) % 8))
    ensures Dots(st, c)(i, j) <==> lit
  {
  }

  lemma Offset(o: int, i: int, s: int)
    ensures (o + i) * s == o * s + i * s
  {
  }

  /** A custom glyph: its dots, row by row, without a background. */
  method DrawCustom(d: Display, st: Style, c: uint8, x: int16, y: int16, color: uint16)
    requires d.Valid() && st.Valid() && st.Has(c) && st.font.Custom?
    requires var q := Cell(st, Cursor(x, y), c); !st.Blank(c) ==> BlockFits(d.Geo(), q.x, q.y, q.w, q.h)
    modifies d.buffer
    ensures var q := Cell(st, Cursor(x, y), c);
            Pictured(d.Geo(), old(d.Pages()), d.Pages(), CharRegion(st, c, q, false),
                     CharColour(d.Geo(), st, c, q, color, color))
  {
    hide Pictured, Painted, Blocks, CharColour, BlockFits, Dots, AtDot, DrawnTo, Cell;
    var w, h, bo := st.GlyphOf(c).width, st.GlyphOf(c).height, st.GlyphOf(c).bitmapOffset;
    var bits: bv8, bit: uint8 := 0, 0;
    ghost var g, was, q := d.Geo(), d.Pages(), Cell(st, Cursor(x, y), c);
    StartGlyph(g, was, st, c, q, color);
    for yy := 0 to h
      invariant AtDot(st, c, 0, yy, bo, bit, bits) && DrawnTo(g, was, d.Pages(), st, c, q, 0, yy, color)
    {
      for xx := 0 to w
        invariant AtDot(st, c, xx, yy, bo, bit, bits) && DrawnTo(g, was, d.Pages(), st, c, q, xx, yy, color)
      {
        ghost var mid := d.Pages();
        bo, bit, bits := CustomDot(d, st, c, x, y, xx, yy, bo, bit, bits, color);
        NextColumn(g, was, mid, d.Pages(), st, c, q, xx, yy, color);
      }
      NextGlyphRow(g, was, d.Pages(), st, c, q, yy, color, bo, bit, bits);
    }
    FinishGlyph(g, was, d.Pages(), st, c, q, color);
  }

  // ---- drawChar and write ------------------------------------------------------------------

  /** Everything a character paints lies in its cell. */
  lemma InkInCell(st: Style, c: uint8, place: Cursor, background: bool, px: int, py: int)
    requires st.Valid() && st.Has(c)
    ensures var q := Cell(st, place, c); CharRegion(st, c, q, background)(px, py) ==> Box(q.x, q.y, q.w, q.h)(px, py)
  {
    hide Dot, InBlock;
    var q := Cell(st, place, c);
    if Blocks(q, st.sx, st.sy, Dots(st, c))(px, py) {
      var i, j :| Dots(st, c)(i, j) && InBlock(q, st.sx, st.sy, i, j, px, py);
      DotsInside(st, c, i, j);
      BlockWithin(q, st.sx, st.sy, if st.font.Classic? then 6 else Columns(st, c), Rows(st, c), i, j, px, py);
    }
  }

  /** The built-in font is clipped: a cell beside the screen is not drawn at all. */
  predicate Clipped(g: Geometry, st: Style, q: Rect) {
    st.font.Classic? && (q.x >= g.Width() || q.y >= g.Height() || q.x + q.w - 1 < 0 || q.y + q.h - 1 < 0)
  }

  lemma NothingVisible(g: Geometry, a: Image, st: Style, c: uint8, place: Cursor, background: bool,
                       colour: (int, int) -> int)
    requires g.Valid() && st.Valid() && st.Has(c) && (Clipped(g, st, Cell(st, place, c)) || st.Blank(c))
    ensures Pictured(g, a, a, CharRegion(st, c, Cell(st, place, c), background), colour)
  {
    hide CharRegion, Cell;
    var R := CharRegion(st, c, Cell(st, place, c), background);
    forall p, r ensures !OnRaw(g, R)(p, r) {
      var x, y := g.UserX(p, r), g.UserY(p, r);
      RotationBijective(g, x, y, p, r);
      InkInCell(st, c, place, background, x, y);
      if st.Blank(c) {
        BlankCell(st, c, place);
      }
    }
  }

  lemma BlankCell(st: Style, c: uint8, place: Cursor)
    requires st.Valid() && st.Has(c) && st.Blank(c)
    ensures Cell(st, place, c).w == 0 || Cell(st, place, c).h == 0
  {
  }

  /** A custom font has no background: its dots are all there is to colour. */
  lemma NoBackground(g: Geometry, a: Image, b: Image, st: Style, c: uint8, q: Rect, color: int, bg: int,
                     background: bool)
    requires st.Valid() && st.Has(c) && st.font.Custom?
    requires Pictured(g, a, b, CharRegion(st, c, q, false), CharColour(g, st, c, q, color, color))
    ensures Pictured(g, a, b, CharRegion(st, c, q, background), CharColour(g, st, c, q, color, bg))
  {
    hide CharColour, Dots, Ink;
    forall px, py | CharRegion(st, c, q, false)(px, py)
      ensures CharColour(g, st, c, q, color, color)(px, py) == CharColour(g, st, c, q, color, bg)(px, py)
    {
      var i, j :| Dots(st, c)(i, j) && InBlock(q, st.sx, st.sy, i, j, px, py);
      BlockColour(g, st, c, q, color, color, i, j, px, py);
      BlockColour(g, st, c, q, color, bg, i, j, px, py);
    }
    SameColours(g, a, b, CharRegion(st, c, q, false), CharColour(g, st, c, q, color, color),
                CharColour(g, st, c, q, color, bg));
  }

  method DrawChar(d: Display, st: Style, x: int16, y: int16, c: uint8, color: uint16, bg: uint16)
    requires d.Valid() && st.Valid() && st.Has(c)
    requires var q := Cell(st, Cursor(x, y), c);
             Clipped(d.Geo(), st, q) || st.Blank(c) || BlockFits(d.Geo(), q.x, q.y, q.w, q.h)
    modifies d.buffer
    ensures var q := Cell(st, Cursor(x, y), c);
            Pictured(d.Geo(), old(d.Pages()), d.Pages(), CharRegion(st, c, q, bg != color),
                     CharColour(d.Geo(), st, c, q, color, bg))
  {
    hide Pictured, CharRegion, CharColour, BlockFits;
    ghost var g, was, q := d.Geo(), d.Pages(), Cell(st, Cursor(x, y), c);
    if st.font.Classic? {
      if x >= d.width || y >= d.height || x + 6 * st.sx - 1 < 0 || y + 8 * st.sy - 1 < 0 {
        NothingVisible(g, was, st, c, Cursor(x, y), bg != color, CharColour(g, st, c, q, color, bg));
        return;
      }
      DrawClassic(d, st, c, x, y, color, bg);
    } else {
      DrawCustom(d, st, c, x, y, color);
      NoBackground(g, was, d.Pages(), st, c, q, color, bg, bg != color);
    }
  }

  /** White on black, a character of the built-in font shows its glyph: every visible pixel of its cell is lit
      exactly when its dot is in the table, whatever was there before. */
  lemma GlyphShown(g: Geometry, was: Image, now: Image, st: Style, c: uint8, q: Rect, i: int, j: int, p: int, r: int)
    requires g.Valid() && st.Valid() && st.Has(c) && st.font.Classic? && g.OnPanel(p, r)
    requires Pictured(g, was, now, CharRegion(st, c, q, true), CharColour(g, st, c, q, WHITE, BLACK))
    requires 0 <= i < 6 && 0 <= j < 8 && InBlock(q, st.sx, st.sy, i, j, g.UserX(p, r), g.UserY(p, r))
    ensures now(p, r) <==> i < 5 && Get(st.font.table[TableIndex(st.font.cp437, c) * 5 + i], j)
  {
    hide CharColour, Dots, Get, TableIndex;
    if i < 5 {
      DotOfTable(st, c, i, j);
    }
    BlockWithin(q, st.sx, st.sy, 6, 8, i, j, g.UserX(p, r), g.UserY(p, r));
    BlockColour(g, st, c, q, WHITE, BLACK, i, j, g.UserX(p, r), g.UserY(p, r));
  }

  /** Text in a colour that the display does not know, as it is initially, shows nothing while its dots are less
      than a page high, or on a screen turned sideways. */
  lemma UnseenText(g: Geometry, was: Image, now: Image, st: Style, c: uint8, place: Cursor, color: int)
    requires g.Valid() && st.Valid() && st.Has(c) && color > INVERSE
    requires st.sy < 8 || g.rotation == 1 || g.rotation == 3
    requires var q := Cell(st, place, c);
             Pictured(g, was, now, CharRegion(st, c, q, false), CharColour(g, st, c, q, color, color))
    ensures forall p, r :: now(p, r) == was(p, r)
  {
    hide CharColour, Dots, Ink;
    var q := Cell(st, place, c);
    forall px, py | CharRegion(st, c, q, false)(px, py) ensures CharColour(g, st, c, q, color, color)(px, py) == color {
      var i, j :| Dots(st, c)(i, j) && InBlock(q, st.sx, st.sy, i, j, px, py);
      DotsInside(st, c, i, j);
      BlockColour(g, st, c, q, color, color, i, j, px, py);
      InkUnseen(g, color, q.y + j * st.sy, st.sy, px, py);
    }
  }

  /** The effect of writing one character with the cursor at a place. */
  ghost predicate Wrote(g: Geometry, was: Image, now: Image, st: Style, at: Cursor, c: uint8, color: int, bg: int)
    requires st.Valid()
  {
    if st.Prints(c) then
      var q := Cell(st, WritePlace(st, at, c), c);
      Pictured(g, was, now, CharRegion(st, c, q, bg != color), CharColour(g, st, c, q, color, bg))
    else now == was
  }

  /** The cursor stays in 16 bits, and so do the coordinates of what is drawn. */
  ghost predicate WriteFits(g: Geometry, st: Style, at: Cursor, c: uint8)
    requires st.Valid()
  {
    && Fits16(Written(st, at, c).x) && Fits16(Written(st, at, c).y)
    && (st.Prints(c) ==>
          var place := WritePlace(st, at, c);
          var q := Cell(st, place, c);
          Fits16(place.y) && (Clipped(g, st, q) || st.Blank(c) || BlockFits(g, q.x, q.y, q.w, q.h)))
  }

  /** The text state of a display. */
  class Printer {
    const display: Display
    var gfxFont: Font
    var cursorX: int16
    var cursorY: int16
    var textcolor: uint16
    var textbgcolor: uint16
    var textsizeX: uint8
    var textsizeY: uint8
    var wrap: bool

    function Style(): Style
      reads this, display
    {
      Text.Style(gfxFont, textsizeX, textsizeY, wrap, display.width)
    }

    ghost predicate Valid()
      reads this, display
    {
      display.Valid() && Style().Valid()
    }

    function At(): Cursor
      reads this
    {
      Cursor(cursorX, cursorY)
    }

    constructor (display: Display, font: Font)
      requires display.Valid() && font.Valid() && font.Classic?
      ensures Valid() && this.display == display && gfxFont == font && At() == Cursor(0, 0)
      ensures textcolor == textbgcolor == 0xFFFF && textsizeX == textsizeY == 1 && wrap
    {
      this.display, gfxFont, cursorX, cursorY := display, font, 0, 0;
      textcolor, textbgcolor, textsizeX, textsizeY, wrap := 0xFFFF, 0xFFFF, 1, 1, true;
    }

    /** One colour: the background is left alone. */
    method SetTextColor(c: uint16)
      requires Valid()
      modifies this`textcolor, this`textbgcolor
      ensures Valid() && textcolor == textbgcolor == c
    {
      textcolor, textbgcolor := c, c;
    }

    method SetTextColors(c: uint16, bg: uint16)
      requires Valid()
      modifies this`textcolor, this`textbgcolor
      ensures Valid() && textcolor == c && textbgcolor == bg
    {
      textcolor, textbgcolor := c, bg;
    }

    /** A size of 0 counts as 1. */
    method SetTextSize(x: uint8, y: uint8)
      requires Valid()
      modifies this`textsizeX, this`textsizeY
      ensures Valid() && (x > 0 ==> textsizeX == x) && (y > 0 ==> textsizeY == y)
    {
      textsizeX := if x > 0 then x else 1;
      textsizeY := if y > 0 then y else 1;
    }

    /** The cursor moves between the top of the built-in cell and the base line of custom glyphs; changing
        the font and back leaves it where it was. */
    method SetFont(font: Font)
      requires Valid() && font.Valid() && Fits16(cursorY + 6) && Fits16(cursorY - 6)
      modifies this`gfxFont, this`cursorY
      ensures Valid() && gfxFont == font
      ensures cursorY - (if font.Custom? then 6 else 0) == old(cursorY) - (if old(gfxFont).Custom? then 6 else 0)
    {
      if font.Custom? {
        if gfxFont.Classic? {
          cursorY := cursorY + 6;
        }
      } else if gfxFont.Custom? {
        cursorY := cursorY - 6;
      }
      gfxFont := font;
    }

    method Write(c: uint8)
      requires Valid() && WriteFits(display.Geo(), Style(), At(), c)
      modifies this`cursorX, this`cursorY, display.buffer
      ensures Valid() && At() == Written(Style(), old(At()), c)
      ensures Wrote(display.Geo(), old(display.Pages()), display.Pages(), Style(), old(At()), c, textcolor, textbgcolor)
    {
      hide Pictured, CharRegion, CharColour, BlockFits;
      if gfxFont.Classic? {
        WriteClassic(c);
      } else {
        WriteCustom(c);
      }
    }

    method WriteClassic(c: uint8)
      requires Valid() && WriteFits(display.Geo(), Style(), At(), c)
      requires gfxFont.Classic?
      modifies this`cursorX, this`cursorY, display.buffer
      ensures Valid() && At() == Written(Style(), old(At()), c)
      ensures Wrote(display.Geo(), old(display.Pages()), display.Pages(), Style(), old(At()), c, textcolor, textbgcolor)
    {
      hide Pictured, CharRegion, CharColour, BlockFits;
      if c == NEWLINE {
        cursorX := 0;
        cursorY := cursorY + textsizeY * 8;
      } else if c != RETURN {
        if wrap && cursorX + textsizeX * 6 > display.width {
          cursorX := 0;
          cursorY := cursorY + textsizeY * 8;
        }
        DrawChar(display, Style(), cursorX, cursorY, c, textcolor, textbgcolor);
        cursorX := cursorX + textsizeX * 6;
      }
    }

    method WriteCustom(c: uint8)
      requires Valid() && WriteFits(display.Geo(), Style(), At(), c)
      requires gfxFont.Custom?
      modifies this`cursorX, this`cursorY, display.buffer
      ensures Valid() && At() == Written(Style(), old(At()), c)
      ensures Wrote(display.Geo(), old(display.Pages()), display.Pages(), Style(), old(At()), c, textcolor, textbgcolor)
    {
      hide Pictured, CharRegion, CharColour, BlockFits;
      if c == NEWLINE {
        cursorX := 0;
        cursorY := cursorY + textsizeY * gfxFont.yAdvance;
      } else if c != RETURN {
        if c >= gfxFont.first && c <= gfxFont.last {
          var glyph := gfxFont.glyphs[c - gfxFont.first];
          if glyph.width > 0 && glyph.height > 0 {
            if wrap && cursorX + textsizeX * (glyph.xOffset + glyph.width) > display.width {
              cursorX := 0;
              cursorY := cursorY + textsizeY * gfxFont.yAdvance;
            }
            DrawChar(display, Style(), cursorX, cursorY, c, textcolor, textbgcolor);
          } else {
            NothingVisible(display.Geo(), display.Pages(), Style(), c, At(), textbgcolor != textcolor,
                           CharColour(display.Geo(), Style(), c, Cell(Style(), At(), c), textcolor, textbgcolor));
          }
          cursorX := cursorX + glyph.xAdvance * textsizeX;
        }
      }
    }

    /** getTextBounds for a string in memory: the smallest rectangle that the cells need. */
    method GetTextBounds(s: seq<uint8>, x0: int16, y0: int16) returns (x1: int16, y1: int16, w: uint16, h: uint16)
      requires Valid() && TextFits(Style(), Cursor(x0, y0), s)
      ensures Rect(x1, y1, w, h)
           == BoundsRect(Cursor(x0, y0), Hull(Style(), Cursor(x0, y0), s, Bounds(0x7FFF, 0x7FFF, -1, -1)))
      ensures Tight(Style(), Cursor(x0, y0), s, Bounds(0x7FFF, 0x7FFF, -1, -1), Rect(x1, y1, w, h))
    {
      x1, y1, w, h := TextBounds(Style(), s, x0, y0, 0x7FFF, 0x7FFF);
    }

    /** The variant for a string in flash starts from the size of the screen. */
    method GetFlashTextBounds(s: seq<uint8>, x0: int16, y0: int16) returns (x1: int16, y1: int16, w: uint16, h: uint16)
      requires Valid() && TextFits(Style(), Cursor(x0, y0), s)
      ensures Rect(x1, y1, w, h)
           == BoundsRect(Cursor(x0, y0),
                         Hull(Style(), Cursor(x0, y0), s, Bounds(display.width, display.height, -1, -1)))
      ensures Tight(Style(), Cursor(x0, y0), s, Bounds(display.width, display.height, -1, -1), Rect(x1, y1, w, h))
    {
      x1, y1, w, h := TextBounds(Style(), s, x0, y0, display.width, display.height);
    }
  }

  // ---- the promise of getTextBounds --------------------------------------------------------

  /** The two images differ at most within the rectangle. */
  ghost predicate Inside(g: Geometry, a: Image, b: Image, r: Rect) {
    forall p, q :: b(p, q) != a(p, q) ==> Box(r.x, r.y, r.w, r.h)(g.UserX(p, q), g.UserY(p, q))
  }

  lemma InsideBoth(g: Geometry, a: Image, b: Image, c: Image, r: Rect)
    requires Inside(g, a, b, r) && Inside(g, b, c, r)
    ensures Inside(g, a, c, r)
  {
    forall p, q | c(p, q) != a(p, q) ensures Box(r.x, r.y, r.w, r.h)(g.UserX(p, q), g.UserY(p, q)) {
      assert c(p, q) != b(p, q) || b(p, q) != a(p, q);
    }
  }

  /** Writing a string character by character changes no pixel outside the rectangle that measuring it
      reports, unless a blank glyph overruns a line. */
  lemma {:induction false} TextStaysInBounds(g: Geometry, st: Style, at: Cursor, s: seq<uint8>, images: seq<Image>,
                                             color: int, bg: int, start: Bounds)
    requires g.Valid() && st.Valid() && |images| == |s| + 1
    requires forall i :: 0 <= i < |s| ==>
               Wrote(g, images[i], images[i + 1], st, WrittenAll(st, at, s[..i]), s[i], color, bg)
    requires NoneParts(st, at, s)
    requires var b := Hull(st, at, s, start); b.maxx - b.minx < 0xFFFF && b.maxy - b.miny < 0xFFFF
    ensures forall i :: 0 <= i <= |s| ==> Inside(g, images[0], images[i], BoundsRect(at, Hull(st, at, s, start)))
  {
    hide Pictured, BoundsRect, Hull, Wrote, Parts;
    SameCursors(st, at, s);
    HullEncloses(st, at, s, start);
    var b := Hull(st, at, s, start);
    var r := BoundsRect(at, b);
    for n := 0 to |s|
      invariant forall i :: 0 <= i <= n ==> Inside(g, images[0], images[i], r)
    {
      forall p, q | images[n + 1](p, q) != images[n](p, q)
        ensures Box(r.x, r.y, r.w, r.h)(g.UserX(p, q), g.UserY(p, q))
      {
        CharStaysInBounds(g, images[n], images[n + 1], st, at, s, n, color, bg, b, p, q);
      }
      InsideBoth(g, images[0], images[n], images[n + 1], r);
    }
  }

  lemma CharStaysInBounds(g: Geometry, was: Image, now: Image, st: Style, at: Cursor, s: seq<uint8>, i: int,
                          color: int, bg: int, b: Bounds, p: int, q: int)
    requires st.Valid() && 0 <= i < |s| && Wrote(g, was, now, st, WrittenAll(st, at, s[..i]), s[i], color, bg)
    requires !Parts(st, WrittenAll(st, at, s[..i]), s[i]) && WrittenAll(st, at, s[..i]) == MeasuredAll(st, at, s[..i])
    requires st.Prints(s[i]) ==> Encloses(b, CellOf(st, at, s, i))
    requires b.maxx - b.minx < 0xFFFF && b.maxy - b.miny < 0xFFFF && now(p, q) != was(p, q)
    ensures var r := BoundsRect(at, b); Box(r.x, r.y, r.w, r.h)(g.UserX(p, q), g.UserY(p, q))
  {
    hide CharRegion, CharColour, Cell, BoundsRect, MeasuredAll, WrittenAll;
    var place := WritePlace(st, WrittenAll(st, at, s[..i]), s[i]);
    InkInCell(st, s[i], place, bg != color, g.UserX(p, q), g.UserY(p, q));
    CellInRect(at, b, CellOf(st, at, s, i), g.UserX(p, q), g.UserY(p, q));
    if st.Blank(s[i]) {
      BlankCell(st, s[i], place);
    }
  }

  lemma WrittenNothing(st: Style, at: Cursor)
    requires st.Valid()
    ensures WrittenAll(st, at, []) == at
  {
  }

  lemma WrittenNext(st: Style, at: Cursor, s: seq<uint8>, i: int)
    requires st.Valid() && 0 <= i < |s|
    ensures WrittenAll(st, at, s[..i + 1]) == Written(st, WrittenAll(st, at, s[..i]), s[i])
  {
    hide Written;
    assert s[..i + 1][..i] == s[..i];
  }

  /** Write a string and compare with what measuring it says: for every string that fits, in a font or layout
      without overrunning blanks, no pixel changes outside the reported rectangle. */
  method WriteMeasured(p: Printer, s: seq<uint8>) returns (x1: int16, y1: int16, w: uint16, h: uint16)
    requires p.Valid()
    requires TextFits(p.Style(), p.At(), s) && NoneParts(p.Style(), p.At(), s)
    requires forall i :: 0 <= i < |s| ==>
               WriteFits(p.display.Geo(), p.Style(), WrittenAll(p.Style(), p.At(), s[..i]), s[i])
    requires var b := Hull(p.Style(), p.At(), s, Bounds(0x7FFF, 0x7FFF, -1, -1));
             b.maxx - b.minx < 0xFFFF && b.maxy - b.miny < 0xFFFF
    modifies p`cursorX, p`cursorY, p.display.buffer
    ensures p.Valid() && p.At() == WrittenAll(p.Style(), old(p.At()), s)
    ensures Rect(x1, y1, w, h)
         == BoundsRect(old(p.At()), Hull(p.Style(), old(p.At()), s, Bounds(0x7FFF, 0x7FFF, -1, -1)))
    ensures Inside(p.display.Geo(), old(p.display.Pages()), p.display.Pages(), Rect(x1, y1, w, h))
  {
    hide Pictured, BoundsRect, Hull, Wrote, NoneParts, WriteFits, TextFits, Inside, Written, WrittenAll;
    x1, y1, w, h := p.GetTextBounds(s, p.cursorX, p.cursorY);
    ghost var g, st, at, images := p.display.Geo(), p.Style(), p.At(), [p.display.Pages()];
    WrittenNothing(st, at);
    assert s[..0] == [];
    for i := 0 to |s|
      invariant p.Valid() && p.Style() == st && p.display.Geo() == g && p.At() == WrittenAll(st, at, s[..i])
      invariant p.textcolor == old(p.textcolor) && p.textbgcolor == old(p.textbgcolor)
      invariant |images| == i + 1 && images[0] == old(p.display.Pages()) && images[i] == p.display.Pages()
      invariant forall j :: 0 <= j < i ==>
                  Wrote(g, images[j], images[j + 1], st, WrittenAll(st, at, s[..j]), s[j], p.textcolor, p.textbgcolor)
    {
      WrittenNext(st, at, s, i);
      p.Write(s[i]);
      images := images + [p.display.Pages()];
    }
    assert s[..|s|] == s;
    TextStaysInBounds(g, st, at, s, images, p.textcolor, p.textbgcolor, Bounds(0x7FFF, 0x7FFF, -1, -1));
  }
}
