/** Text layout: where each character of a string is put, how far the cursor moves, and the rectangle
    that getTextBounds reports. Characters are bytes. */
module Text {
  import opened Bytes
  import opened Screen

  datatype Glyph = Glyph(bitmapOffset: uint16, width: uint8, height: uint8, xAdvance: uint8, xOffset: int8,
                         yOffset: int8)

  /** The built-in 5 by 8 font, five column bytes per character, or a custom font. */
  datatype Font =
    | Classic(table: seq<bv8>, cp437: bool)
    | Custom(bitmap: seq<bv8>, glyphs: seq<Glyph>, first: uint8, last: uint8, yAdvance: uint8)
  {
    predicate Valid() {
      match this
      case Classic(table, _) => |table| == 1280
      case Custom(bitmap, glyphs, first, last, _) =>
        && |bitmap| <= 0xFFFF && |glyphs| >= last - first + 1
        && forall i :: 0 <= i < |glyphs| ==>
            glyphs[i].bitmapOffset + (glyphs[i].width * glyphs[i].height + 7) / 8 <= |bitmap|
    }
  }

  const NEWLINE := 10
  const RETURN := 13

  /** Everything but the cursor that decides where text goes. */
  datatype Style = Style(font: Font, sx: uint8, sy: uint8, wrap: bool, width: int) {
    predicate Valid() {
      font.Valid() && 1 <= sx && 1 <= sy
    }

    function LineHeight(): int {
      if font.Classic? then sy * 8 else sy * font.yAdvance
    }

    /** The font has a glyph for the character. */
    predicate Has(c: uint8) {
      font.Custom? ==> font.first <= c <= font.last
    }

    /** The character is one that `write` puts on the screen. */
    predicate Prints(c: uint8) {
      c != NEWLINE && c != RETURN && Has(c)
    }

    function GlyphOf(c: uint8): Glyph
      requires Valid() && font.Custom? && Has(c)
    {
      font.glyphs[c - font.first]
    }

    /** A custom glyph without a bitmap, such as a space. */
    predicate Blank(c: uint8)
      requires Valid() && Has(c)
    {
      font.Custom? && (GlyphOf(c).width == 0 || GlyphOf(c).height == 0)
    }

    /** How far to the right of the cursor the character reaches. */
    function Reach(c: uint8): int
      requires Valid() && Has(c)
    {
      if font.Classic? then sx * 6 else sx * (GlyphOf(c).xOffset + GlyphOf(c).width)
    }

    function Advance(c: uint8): int
      requires Valid() && Has(c)
    {
      if font.Classic? then sx * 6 else GlyphOf(c).xAdvance * sx
    }

    /** The character does not fit on the line any more. */
    predicate Overruns(at: Cursor, c: uint8)
      requires Valid() && Has(c)
    {
      wrap && at.x + Reach(c) > width
    }
  }

  datatype Cursor = Cursor(x: int, y: int)

  function NextLine(st: Style, at: Cursor): Cursor {
    Cursor(0, at.y + st.LineHeight())
  }

  /** Where `write` puts a character: a blank glyph never starts a new line. */
  function WritePlace(st: Style, at: Cursor, c: uint8): Cursor
    requires st.Valid() && st.Has(c)
  {
    if st.Overruns(at, c) && !st.Blank(c) then NextLine(st, at) else at
  }

  /** Where `charBounds` puts it. */
  function BoundsPlace(st: Style, at: Cursor, c: uint8): Cursor
    requires st.Valid() && st.Has(c)
  {
    if st.Overruns(at, c) then NextLine(st, at) else at
  }

  /** The cursor after one character, put where `place` says. */
  function After(st: Style, at: Cursor, c: uint8, place: Cursor): Cursor
    requires st.Valid()
  {
    if c == NEWLINE then NextLine(st, at)
    else if st.Prints(c) then Cursor(place.x + st.Advance(c), place.y)
    else at
  }

  function Written(st: Style, at: Cursor, c: uint8): Cursor
    requires st.Valid()
  {
    After(st, at, c, if st.Prints(c) then WritePlace(st, at, c) else at)
  }

  function Measured(st: Style, at: Cursor, c: uint8): Cursor
    requires st.Valid()
  {
    After(st, at, c, if st.Prints(c) then BoundsPlace(st, at, c) else at)
  }

  /** The cursor after the first characters of a string. */
  function WrittenAll(st: Style, at: Cursor, s: seq<uint8>): Cursor
    requires st.Valid()
  {
    if s == [] then at else Written(st, WrittenAll(st, at, s[..|s| - 1]), s[|s| - 1])
  }

  function MeasuredAll(st: Style, at: Cursor, s: seq<uint8>): Cursor
    requires st.Valid()
  {
    if s == [] then at else Measured(st, MeasuredAll(st, at, s[..|s| - 1]), s[|s| - 1])
  }

  // ---- the two cursors ---------------------------------------------------------------------

  /** A blank glyph at the end of a line: measuring starts a new line, writing does not. */
  predicate Parts(st: Style, at: Cursor, c: uint8)
    requires st.Valid()
  {
    st.Prints(c) && st.Blank(c) && st.Overruns(at, c) && at != NextLine(st, at)
  }

  lemma CursorsAgree(st: Style, at: Cursor, c: uint8)
    requires st.Valid()
    ensures Written(st, at, c) == Measured(st, at, c) <==> !Parts(st, at, c)
  {
    if st.Prints(c) && st.Blank(c) && st.Overruns(at, c) {
      assert WritePlace(st, at, c) == at && BoundsPlace(st, at, c) == NextLine(st, at);
    }
  }

  /** Measuring and writing stand at the same cursor before and after every character. */
  ghost predicate Together(st: Style, at: Cursor, s: seq<uint8>)
    requires st.Valid()
  {
    forall i :: 0 <= i <= |s| ==> WrittenAll(st, at, s[..i]) == MeasuredAll(st, at, s[..i])
  }

  /** No blank glyph overruns a line while the string is written. */
  ghost predicate NoneParts(st: Style, at: Cursor, s: seq<uint8>)
    requires st.Valid()
  {
    forall i :: 0 <= i < |s| ==> !Parts(st, WrittenAll(st, at, s[..i]), s[i])
  }

  lemma TogetherStep(st: Style, at: Cursor, s: seq<uint8>)
    requires st.Valid() && s != []
    ensures Together(st, at, s) <==>
              Together(st, at, s[..|s| - 1]) && WrittenAll(st, at, s) == MeasuredAll(st, at, s)
  {
    hide WrittenAll, MeasuredAll;
    var front := s[..|s| - 1];
    forall i | 0 <= i < |s| ensures s[..i] == front[..i] {
    }
    assert s[..|s|] == s;
    if Together(st, at, s) {
      forall i | 0 <= i <= |front| ensures WrittenAll(st, at, front[..i]) == MeasuredAll(st, at, front[..i]) {
        assert s[..i] == front[..i];
      }
    }
  }

  lemma NonePartsStep(st: Style, at: Cursor, s: seq<uint8>)
    requires st.Valid() && s != []
    ensures var n := |s| - 1;
            NoneParts(st, at, s) <==> NoneParts(st, at, s[..n]) && !Parts(st, WrittenAll(st, at, s[..n]), s[n])
  {
    hide WrittenAll, Parts;
    var front := s[..|s| - 1];
    forall i | 0 <= i < |s| ensures s[..i] == front[..i] {
    }
    if NoneParts(st, at, s) {
      forall i | 0 <= i < |front| ensures !Parts(st, WrittenAll(st, at, front[..i]), front[i]) {
        assert s[..i] == front[..i] && s[i] == front[i];
      }
    }
  }

  /** The cursors stay together exactly when no blank glyph overruns. */
  lemma {:induction false} SameCursors(st: Style, at: Cursor, s: seq<uint8>)
    requires st.Valid()
    ensures Together(st, at, s) <==> NoneParts(st, at, s)
  {
    hide Written, Measured, Parts, NoneParts;
    if s == [] {
      NothingParts(st, at);
    } else {
      var n := |s| - 1;
      hide Together;
      SameCursors(st, at, s[..n]);
      TogetherStep(st, at, s);
      NonePartsStep(st, at, s);
      if Together(st, at, s[..n]) {
        LastTogether(st, at, s[..n]);
        CursorsAgree(st, WrittenAll(st, at, s[..n]), s[n]);
      }
    }
  }

  lemma NothingParts(st: Style, at: Cursor)
    requires st.Valid()
    ensures NoneParts(st, at, [])
  {
  }

  lemma LastTogether(st: Style, at: Cursor, s: seq<uint8>)
    requires st.Valid() && Together(st, at, s)
    ensures WrittenAll(st, at, s) == MeasuredAll(st, at, s)
  {
    hide WrittenAll, MeasuredAll;
    assert s[..|s|] == s;
  }

  /** It always holds in the classic font, in a font without blank glyphs, and without wrapping. */
  lemma SolidFont(st: Style, at: Cursor, c: uint8)
    requires st.Valid()
    requires st.font.Classic? || !st.wrap || forall i :: 0 <= i < |st.font.glyphs| ==>
               st.font.glyphs[i].width > 0 && st.font.glyphs[i].height > 0
    ensures !Parts(st, at, c)
  {
  }

  /** It fails for a space at the end of a line: after it, writing stands at column 12 and measuring at 6. */
  lemma SpaceOverruns()
    ensures var st := Style(Custom([], [Glyph(0, 0, 0, 6, 0, 0)], 32, 32, 8), 1, 1, true, 5);
            Written(st, Cursor(6, 0), 32) == Cursor(12, 0) && Measured(st, Cursor(6, 0), 32) == Cursor(6, 8)
  {
    var st := Style(Custom([], [Glyph(0, 0, 0, 6, 0, 0)], 32, 32, 8), 1, 1, true, 5);
    assert st.Prints(32) && st.Blank(32) && st.Overruns(Cursor(6, 0), 32);
  }

  // ---- where the cursor stands -------------------------------------------------------------

  function Newlines(s: seq<uint8>): nat {
    if s == [] then 0 else Newlines(s[..|s| - 1]) + if s[|s| - 1] == 10 then 1 else 0
  }

  /** The columns of dots that a character takes up; a carriage return and a missing character take up none. */
  function Breadth(st: Style, c: uint8): nat
    requires st.Valid()
  {
    match st.font
    case Classic(_, _) => if c == 10 || c == 13 then 0 else 6
    case Custom(_, glyphs, first, last, _) =>
      if c != 10 && c != 13 && first <= c <= last then glyphs[c - first].xAdvance else 0
  }

  /** The columns since the last newline. */
  function LineColumns(st: Style, s: seq<uint8>): nat
    requires st.Valid()
  {
    if s == [] || s[|s| - 1] == 10 then 0 else LineColumns(st, s[..|s| - 1]) + Breadth(st, s[|s| - 1])
  }

  /** Without wrapping, the cursor has moved by the columns of the current line, and by one line for each newline. */
  lemma {:induction false} UnwrappedText(st: Style, at: Cursor, s: seq<uint8>)
    requires st.Valid() && !st.wrap
    ensures WrittenAll(st, at, s) == MeasuredAll(st, at, s) == Unwrapped(st, at, Newlines(s), LineColumns(st, s))
  {
    if s != [] {
      var n, c := |s| - 1, s[|s| - 1];
      UnwrappedText(st, at, s[..n]);
      hide Written, Measured, Breadth, Unwrapped;
      CharMoves(st, WrittenAll(st, at, s[..n]), c);
      UnwrappedMore(st, at, Newlines(s[..n]), LineColumns(st, s[..n]), c);
    }
  }

  /** The cursor after some newlines and some columns on the line that they begin. */
  function Unwrapped(st: Style, at: Cursor, newlines: nat, columns: nat): Cursor {
    Cursor((if newlines == 0 then at.x else 0) + st.sx * columns,
           at.y + newlines * (st.sy * (if st.font.Classic? then 8 else st.font.yAdvance)))
  }

  lemma UnwrappedMore(st: Style, at: Cursor, newlines: nat, columns: nat, c: uint8)
    requires st.Valid()
    ensures var h := st.sy * (if st.font.Classic? then 8 else st.font.yAdvance);
            var from := Unwrapped(st, at, newlines, columns);
            && Unwrapped(st, at, newlines + 1, 0) == Cursor(0, from.y + h)
            && Unwrapped(st, at, newlines, columns + Breadth(st, c)) == Cursor(from.x + st.sx * Breadth(st, c), from.y)
    ensures Unwrapped(st, at, 0, 0) == at
  {
    hide Breadth;
    Distribute(newlines, 1, st.sy * (if st.font.Classic? then 8 else st.font.yAdvance));
    Distribute(columns, Breadth(st, c), st.sx);
  }

  lemma Distribute(a: int, b: int, c: int)
    ensures (a + b) * c == a * c + b * c && c * (a + b) == c * a + c * b
  {
  }

  lemma CharMoves(st: Style, at: Cursor, c: uint8)
    requires st.Valid() && !st.wrap
    ensures Written(st, at, c) == Measured(st, at, c)
    ensures Measured(st, at, c) ==
              if c == 10 then Cursor(0, at.y + st.sy * (if st.font.Classic? then 8 else st.font.yAdvance))
              else Cursor(at.x + st.sx * Breadth(st, c), at.y)
  {
    if !st.Prints(c) {
      assert Breadth(st, c) == 0;
    } else if st.font.Custom? {
      Commute(st.sx, st.font.glyphs[c - st.font.first].xAdvance);
    }
  }

  /** Characters that take up a cell of the built-in font. */
  ghost predicate Plain(s: seq<uint8>) {
    forall i :: 0 <= i < |s| ==> s[i] != 10 && s[i] != 13
  }

  /** Wrapped text in the built-in font stands in a grid of as many columns as fit the screen: the character with
      index row * n + col is in its row and column. */
  lemma {:induction false} WrappedGrid(st: Style, y: int, s: seq<uint8>, n: int, row: nat, col: nat)
    requires st.Valid() && st.font.Classic? && st.wrap && Plain(s)
    requires 0 < n && n * (6 * st.sx) <= st.width < (n + 1) * (6 * st.sx)
    requires col < n && row * n + col == |s| - 1
    ensures CellOf(st, Cursor(0, y), s, |s| - 1) ==
              Rect(col * (6 * st.sx), y + row * (8 * st.sy), 6 * st.sx, 8 * st.sy)
    ensures MeasuredAll(st, Cursor(0, y), s) == Cursor((col + 1) * (6 * st.sx), y + row * (8 * st.sy))
    decreases |s|
  {
    var k, w, h := |s| - 1, 6 * st.sx, 8 * st.sy;
    Scale(w, col + 1, n);
    if col > 0 {
      WrappedGrid(st, y, s[..k], n, row, col - 1);
    } else if row > 0 {
      assert (row - 1) * n + (n - 1) == k - 1;
      WrappedGrid(st, y, s[..k], n, row - 1, n - 1);
      assert (n + 1) * w == n * w + w && row * h == (row - 1) * h + h;
    }
    assert (col + 1) * w == col * w + w;
  }

  /** Characters of the built-in font that fit one line stand side by side. */
  lemma {:induction false} OneLine(st: Style, at: Cursor, s: seq<uint8>, i: nat)
    requires st.Valid() && st.font.Classic? && Plain(s) && i <= |s|
    requires st.wrap ==> at.x + |s| * (6 * st.sx) <= st.width
    ensures MeasuredAll(st, at, s[..i]) == Cursor(at.x + i * (6 * st.sx), at.y)
    ensures i < |s| ==> CellOf(st, at, s, i) == Rect(at.x + i * (6 * st.sx), at.y, 6 * st.sx, 8 * st.sy)
  {
    var w := 6 * st.sx;
    if i > 0 {
      OneLine(st, at, s, i - 1);
      assert s[..i][..i - 1] == s[..i - 1];
      assert i * w == (i - 1) * w + w;
    }
    if i < |s| {
      Scale(w, i + 1, |s|);
      assert (i + 1) * w == i * w + w;
    }
  }

  // ---- character cells and the bounding rectangle ------------------------------------------

  /** The rectangle a character occupies when put at a place. */
  function Cell(st: Style, place: Cursor, c: uint8): Rect
    requires st.Valid() && st.Has(c)
  {
    if st.font.Classic? then Rect(place.x, place.y, st.sx * 6, st.sy * 8)
    else
      var g := st.GlyphOf(c);
      Rect(place.x + g.xOffset * st.sx, place.y + g.yOffset * st.sy, g.width * st.sx, g.height * st.sy)
  }

  /** The running minima and maxima. */
  datatype Bounds = Bounds(minx: int, miny: int, maxx: int, maxy: int)

  function Grow(b: Bounds, q: Rect): Bounds {
    Bounds(if q.x < b.minx then q.x else b.minx, if q.y < b.miny then q.y else b.miny,
           if q.x + q.w - 1 > b.maxx then q.x + q.w - 1 else b.maxx,
           if q.y + q.h - 1 > b.maxy then q.y + q.h - 1 else b.maxy)
  }

  function Hull(st: Style, at: Cursor, s: seq<uint8>, start: Bounds): Bounds
    requires st.Valid()
  {
    if s == [] then start
    else
      var b, n := Hull(st, at, s[..|s| - 1], start), |s| - 1;
      if st.Prints(s[n]) then Grow(b, CellOf(st, at, s, n)) else b
  }

  /** The cell of the i-th character as it is measured. */
  function CellOf(st: Style, at: Cursor, s: seq<uint8>, i: int): Rect
    requires st.Valid() && 0 <= i < |s| && st.Prints(s[i])
  {
    Cell(st, BoundsPlace(st, MeasuredAll(st, at, s[..i]), s[i]), s[i])
  }

  predicate Encloses(b: Bounds, q: Rect) {
    b.minx <= q.x && q.x + q.w - 1 <= b.maxx && b.miny <= q.y && q.y + q.h - 1 <= b.maxy
  }

  /** The hull encloses every cell and the bounds it started from. */
  lemma {:induction false} HullEncloses(st: Style, at: Cursor, s: seq<uint8>, start: Bounds)
    requires st.Valid()
    ensures forall i :: 0 <= i < |s| && st.Prints(s[i]) ==> Encloses(Hull(st, at, s, start), CellOf(st, at, s, i))
    ensures var b := Hull(st, at, s, start);
            b.minx <= start.minx && b.miny <= start.miny && start.maxx <= b.maxx && start.maxy <= b.maxy
  {
    hide Cell, BoundsPlace, Measured;
    if s != [] {
      var n := |s| - 1;
      HullEncloses(st, at, s[..n], start);
      forall i | 0 <= i < n && st.Prints(s[i]) ensures CellOf(st, at, s[..n], i) == CellOf(st, at, s, i) {
        assert s[..n][..i] == s[..i];
      }
    }
  }

  /** It is the smallest such: whatever encloses the cells and the start encloses the hull. */
  lemma {:induction false} HullSmallest(st: Style, at: Cursor, s: seq<uint8>, start: Bounds, b: Bounds)
    requires st.Valid()
    requires forall i :: 0 <= i < |s| && st.Prints(s[i]) ==> Encloses(b, CellOf(st, at, s, i))
    requires b.minx <= start.minx && b.miny <= start.miny && start.maxx <= b.maxx && start.maxy <= b.maxy
    ensures var h := Hull(st, at, s, start);
            b.minx <= h.minx && b.miny <= h.miny && h.maxx <= b.maxx && h.maxy <= b.maxy
  {
    hide Cell, BoundsPlace, Measured;
    if s != [] {
      var n := |s| - 1;
      forall i | 0 <= i < n && st.Prints(s[i]) ensures Encloses(b, CellOf(st, at, s[..n], i)) {
        assert s[..n][..i] == s[..i] && s[..n][i] == s[i];
        assert CellOf(st, at, s, i) == CellOf(st, at, s[..n], i);
      }
      HullSmallest(st, at, s[..n], start, b);
    }
  }

  /** What the caller gets for one axis: the start of the run stays where the cursor was when nothing was
      found, and the length is kept in 16 bits. */
  function Extent(start: int, min: int, max: int): (int, int) {
    if max >= min then (min, (max - min + 1) % 0x1_0000) else (start, 0)
  }

  function BoundsRect(at: Cursor, b: Bounds): Rect {
    var (x, w) := Extent(at.x, b.minx, b.maxx);
    var (y, h) := Extent(at.y, b.miny, b.maxy);
    Rect(x, y, w, h)
  }

  /** The reported rectangle contains every pixel of an enclosed cell, as its sides fit 16 bits. */
  lemma CellInRect(at: Cursor, b: Bounds, q: Rect, px: int, py: int)
    requires Encloses(b, q) && b.maxx - b.minx < 0xFFFF && b.maxy - b.miny < 0xFFFF
    ensures Box(q.x, q.y, q.w, q.h)(px, py) ==>
              var r := BoundsRect(at, b); Box(r.x, r.y, r.w, r.h)(px, py)
  {
  }

  /** The rectangle contains every measured cell and the edges that the bounds start from. */
  ghost predicate Around(st: Style, at: Cursor, s: seq<uint8>, start: Bounds, r: Rect)
    requires st.Valid()
  {
    && (forall i :: 0 <= i < |s| && st.Prints(s[i]) ==>
          var q := CellOf(st, at, s, i);
          r.x <= q.x && q.x + q.w <= r.x + r.w && r.y <= q.y && q.y + q.h <= r.y + r.h)
    && r.x <= start.minx && start.maxx < r.x + r.w && r.y <= start.miny && start.maxy < r.y + r.h
  }

  /** Bounds that are not inverted, with sides of at most 65535 pixels. */
  predicate Proper(b: Bounds) {
    0 <= b.maxx - b.minx < 0xFFFF && 0 <= b.maxy - b.miny < 0xFFFF
  }

  /** The rectangle reported for a string: the smallest around its cells, or the starting point without any size
      when nothing prints. */
  ghost predicate Tight(st: Style, at: Cursor, s: seq<uint8>, start: Bounds, r: Rect)
    requires st.Valid()
  {
    && (Proper(Hull(st, at, s, start)) ==>
          && Around(st, at, s, start, r)
          && forall t :: Around(st, at, s, start, t) ==>
               t.x <= r.x && r.x + r.w <= t.x + t.w && t.y <= r.y && r.y + r.h <= t.y + t.h)
    && ((forall i :: 0 <= i < |s| ==> !st.Prints(s[i])) && start.maxx < start.minx && start.maxy < start.miny ==>
          r == Rect(at.x, at.y, 0, 0))
  }

  lemma BoundsTight(st: Style, at: Cursor, s: seq<uint8>, start: Bounds)
    requires st.Valid()
    ensures Tight(st, at, s, start, BoundsRect(at, Hull(st, at, s, start)))
  {
    hide CellOf, Hull;
    var b := Hull(st, at, s, start);
    var r := BoundsRect(at, b);
    if Proper(b) {
      HullEncloses(st, at, s, start);
      forall t | Around(st, at, s, start, t)
        ensures t.x <= r.x && r.x + r.w <= t.x + t.w && t.y <= r.y && r.y + r.h <= t.y + t.h
      {
        HullSmallest(st, at, s, start, Bounds(t.x, t.y, t.x + t.w - 1, t.y + t.h - 1));
      }
    }
    if forall i :: 0 <= i < |s| ==> !st.Prints(s[i]) {
      NothingPrints(st, at, s, start);
    }
  }

  lemma {:induction false} NothingPrints(st: Style, at: Cursor, s: seq<uint8>, start: Bounds)
    requires st.Valid() && forall i :: 0 <= i < |s| ==> !st.Prints(s[i])
    ensures Hull(st, at, s, start) == start
  {
    if s != [] {
      NothingPrints(st, at, s[..|s| - 1], start);
    }
  }

  /** The hull is not inverted as soon as a character prints whose cell is not empty. */
  lemma HullProper(st: Style, at: Cursor, s: seq<uint8>, start: Bounds, i: int)
    requires st.Valid() && 0 <= i < |s| && st.Prints(s[i])
    requires CellOf(st, at, s, i).w > 0 && CellOf(st, at, s, i).h > 0
    ensures var b := Hull(st, at, s, start); b.minx <= b.maxx && b.miny <= b.maxy
  {
    hide CellOf, Hull;
    HullEncloses(st, at, s, start);
  }

  /** One line of the built-in font at a visible place is measured as wide as its characters, and one cell high. */
  lemma LineBounds(st: Style, at: Cursor, s: seq<uint8>)
    requires st.Valid() && st.font.Classic? && Plain(s) && s != []
    requires 0 <= at.x <= 0x7FFF && 0 <= at.y <= 0x7FFF && |s| * (6 * st.sx) <= 0xFFFF
    requires st.wrap ==> at.x + |s| * (6 * st.sx) <= st.width
    ensures BoundsRect(at, Hull(st, at, s, Bounds(0x7FFF, 0x7FFF, -1, -1)))
         == Rect(at.x, at.y, |s| * (6 * st.sx), 8 * st.sy)
  {
    hide CellOf, Hull;
    var start, w, h := Bounds(0x7FFF, 0x7FFF, -1, -1), 6 * st.sx, 8 * st.sy;
    var b, whole := Hull(st, at, s, start), Bounds(at.x, at.y, at.x + |s| * w - 1, at.y + h - 1);
    forall i | 0 <= i < |s| ensures CellOf(st, at, s, i) == Rect(at.x + i * w, at.y, w, h) && i * w + w <= |s| * w {
      OneLine(st, at, s, i);
      Scale(w, i + 1, |s|);
      assert (i + 1) * w == i * w + w;
    }
    forall i | 0 <= i < |s| ensures Encloses(whole, CellOf(st, at, s, i)) {
      Scale(w, 0, i);
    }
    Scale(w, 1, |s|);
    HullSmallest(st, at, s, start, whole);
    HullEncloses(st, at, s, start);
    assert Encloses(b, CellOf(st, at, s, 0)) && Encloses(b, CellOf(st, at, s, |s| - 1));
    assert (|s| - 1) * w + w == |s| * w;
  }

  /** With wrapping, a glyph stays on the line exactly when its cell ends within the screen. */
  lemma WrapsWhenNeeded(st: Style, at: Cursor, c: uint8)
    requires st.Valid() && st.wrap && st.Prints(c) && !st.Blank(c)
    ensures var q := Cell(st, at, c);
            WritePlace(st, at, c) == if q.x + q.w <= st.width then at else Cursor(0, at.y + st.LineHeight())
  {
    if st.font.Custom? {
      CustomCell(st, at, c);
      Distribute(st.GlyphOf(c).xOffset, st.GlyphOf(c).width, st.sx);
    }
  }

  // ---- no overflow -------------------------------------------------------------------------

  /** The cursors and the cell of one measured character are representable. */
  predicate StepFits(st: Style, at: Cursor, c: uint8)
    requires st.Valid()
  {
    && Fits16(at.x) && Fits16(at.y) && Fits16(Measured(st, at, c).x) && Fits16(Measured(st, at, c).y)
    && (st.Prints(c) ==>
          var place := BoundsPlace(st, at, c);
          var q := Cell(st, place, c);
          && Fits16(place.y) && Fits16(q.x) && Fits16(q.y) && Fits16(q.x + q.w - 1) && Fits16(q.y + q.h - 1))
  }

  predicate TextFits(st: Style, at: Cursor, s: seq<uint8>)
    requires st.Valid()
  {
    forall i :: 0 <= i < |s| ==> StepFits(st, MeasuredAll(st, at, s[..i]), s[i])
  }

  /** The four comparisons that widen the bounds by a cell. */
  method Widen(x1: int, y1: int, x2: int, y2: int, minx0: int16, miny0: int16, maxx0: int16, maxy0: int16)
    returns (minx: int16, miny: int16, maxx: int16, maxy: int16)
    requires Fits16(x1) && Fits16(y1) && Fits16(x2) && Fits16(y2)
    ensures Bounds(minx, miny, maxx, maxy) ==
              Grow(Bounds(minx0, miny0, maxx0, maxy0), Rect(x1, y1, x2 + 1 - x1, y2 + 1 - y1))
  {
    minx, miny, maxx, maxy := minx0, miny0, maxx0, maxy0;
    if x1 < minx {
      minx := x1;
    }
    if y1 < miny {
      miny := y1;
    }
    if x2 > maxx {
      maxx := x2;
    }
    if y2 > maxy {
      maxy := y2;
    }
  }

  method CharBounds(st: Style, c: uint8, x0: int16, y0: int16,
                    minx0: int16, miny0: int16, maxx0: int16, maxy0: int16)
    returns (x: int16, y: int16, minx: int16, miny: int16, maxx: int16, maxy: int16)
    requires st.Valid() && StepFits(st, Cursor(x0, y0), c)
    ensures Cursor(x, y) == Measured(st, Cursor(x0, y0), c)
    ensures Bounds(minx, miny, maxx, maxy) ==
              var b := Bounds(minx0, miny0, maxx0, maxy0);
              if st.Prints(c) then Grow(b, Cell(st, BoundsPlace(st, Cursor(x0, y0), c), c)) else b
  {
    hide Measured, StepFits, Grow, Cell, BoundsPlace;
    if st.font.Classic? {
      x, y, minx, miny, maxx, maxy := ClassicBounds(st, c, x0, y0, minx0, miny0, maxx0, maxy0);
    } else {
      x, y, minx, miny, maxx, maxy := CustomBounds(st, c, x0, y0, minx0, miny0, maxx0, maxy0);
    }
  }

  method ClassicBounds(st: Style, c: uint8, x0: int16, y0: int16,
                       minx0: int16, miny0: int16, maxx0: int16, maxy0: int16)
    returns (x: int16, y: int16, minx: int16, miny: int16, maxx: int16, maxy: int16)
    requires st.Valid() && StepFits(st, Cursor(x0, y0), c) && st.font.Classic?
    ensures Cursor(x, y) == Measured(st, Cursor(x0, y0), c)
    ensures Bounds(minx, miny, maxx, maxy) ==
              var b := Bounds(minx0, miny0, maxx0, maxy0);
              if st.Prints(c) then Grow(b, Cell(st, BoundsPlace(st, Cursor(x0, y0), c), c)) else b
  {
    hide Grow;
    x, y, minx, miny, maxx, maxy := x0, y0, minx0, miny0, maxx0, maxy0;
    if c == NEWLINE {
      x := 0;
      y := y + st.sy * 8;
    } else if c != RETURN {
      if st.wrap && x + st.sx * 6 > st.width {
        x := 0;
        y := y + st.sy * 8;
      }
      var x2, y2 := x + st.sx * 6 - 1, y + st.sy * 8 - 1;
      minx, miny, maxx, maxy := Widen(x, y, x2, y2, minx, miny, maxx, maxy);
      x := x + st.sx * 6;
    }
  }

  lemma CustomLine(st: Style)
    ensures st.font.Custom? ==> st.LineHeight() == st.sy * st.font.yAdvance
  {
  }

  /** The products as charBounds writes them. */
  lemma CustomCell(st: Style, at: Cursor, c: uint8)
    requires st.Valid() && st.font.Custom? && st.Has(c)
    ensures c - st.font.first < |st.font.glyphs|
    ensures var g := st.font.glyphs[c - st.font.first];
            && st.Reach(c) == (g.xOffset + g.width) * st.sx && st.Advance(c) == g.xAdvance * st.sx
            && Cell(st, at, c) ==
                 Rect(at.x + g.xOffset * st.sx, at.y + g.yOffset * st.sy, g.width * st.sx, g.height * st.sy)
  {
    var g := st.GlyphOf(c);
    Commute(st.sx, g.xOffset + g.width);
  }

  method CustomBounds(st: Style, c: uint8, x0: int16, y0: int16,
                      minx0: int16, miny0: int16, maxx0: int16, maxy0: int16)
    returns (x: int16, y: int16, minx: int16, miny: int16, maxx: int16, maxy: int16)
    requires st.Valid() && StepFits(st, Cursor(x0, y0), c) && st.font.Custom?
    ensures Cursor(x, y) == Measured(st, Cursor(x0, y0), c)
    ensures Bounds(minx, miny, maxx, maxy) ==
              var b := Bounds(minx0, miny0, maxx0, maxy0);
              if st.Prints(c) then Grow(b, Cell(st, BoundsPlace(st, Cursor(x0, y0), c), c)) else b
  {
    hide Grow, Cell, Style.Reach, Style.Advance, Style.LineHeight, Font.Valid;
    if st.Prints(c) {
      CustomCell(st, Cursor(x0, y0), c);
      CustomCell(st, NextLine(st, Cursor(x0, y0)), c);
    }
    CustomLine(st);
    x, y, minx, miny, maxx, maxy := x0, y0, minx0, miny0, maxx0, maxy0;
    if c == NEWLINE {
      x := 0;
      y := y + st.sy * st.font.yAdvance;
    } else if c != RETURN {
      if c >= st.font.first && c <= st.font.last {
        var g := st.font.glyphs[c - st.font.first];
        if st.wrap && x + (g.xOffset + g.width) * st.sx > st.width {
          x := 0;
          y := y + st.sy * st.font.yAdvance;
        }
        var x1: int16, y1: int16 := x + g.xOffset * st.sx, y + g.yOffset * st.sy;
        var x2: int16, y2: int16 := x1 + g.width * st.sx - 1, y1 + g.height * st.sy - 1;
        minx, miny, maxx, maxy := Widen(x1, y1, x2, y2, minx, miny, maxx, maxy);
        x := x + g.xAdvance * st.sx;
      }
    }
  }

  /** The loop of getTextBounds over a string without its terminator; minx0 and miny0 are 0x7FFF for a
      string in memory and the screen's size for one in flash. */
  method TextBounds(st: Style, s: seq<uint8>, x0: int16, y0: int16, minx0: int16, miny0: int16)
    returns (x1: int16, y1: int16, w: uint16, h: uint16)
    requires st.Valid() && TextFits(st, Cursor(x0, y0), s)
    ensures Rect(x1, y1, w, h) == BoundsRect(Cursor(x0, y0), Hull(st, Cursor(x0, y0), s, Bounds(minx0, miny0, -1, -1)))
    ensures Tight(st, Cursor(x0, y0), s, Bounds(minx0, miny0, -1, -1), Rect(x1, y1, w, h))
  {
    hide Measured, StepFits, Grow, Tight;
    var x, y, minx, miny, maxx: int16, maxy: int16 := x0, y0, minx0, miny0, -1, -1;
    x1, y1, w, h := x0, y0, 0, 0;
    ghost var at, start := Cursor(x0, y0), Bounds(minx0, miny0, -1, -1);
    for i := 0 to |s|
      invariant Cursor(x, y) == MeasuredAll(st, at, s[..i])
      invariant Bounds(minx, miny, maxx, maxy) == Hull(st, at, s[..i], start)
    {
      assert s[..i + 1][..i] == s[..i];
      x, y, minx, miny, maxx, maxy := CharBounds(st, s[i], x, y, minx, miny, maxx, maxy);
    }
    assert s[..|s|] == s;
    BoundsTight(st, at, s, start);
    if maxx >= minx {
      x1 := minx;
      w := (maxx - minx + 1) % 0x1_0000;
    }
    if maxy >= miny {
      y1 := miny;
      h := (maxy - miny + 1) % 0x1_0000;
    }
  }
}
