# Verified models of the display, LED and networking code

This project states and proves, in Dafny, what the core algorithms of this repository do: the integer
rasterisers and framebuffers it draws its OLED with, text layout, the NeoPixel brightness arithmetic, the SPI
colour display, the Wi-Fi scan list, the alert queue, the provisioning mode machine and the bit-banged SPI
transfer. `dafny verify dfyconfig.toml` checks all of it.

Code that changes state is modelled as classes and methods with the same loops and branches; each is proved against a
specification, and lemmas say what the specification means. C integer types are subset types (`Bytes`): arithmetic
happens in `int`, as C promotes it, and each narrowing assignment carries a proof that nothing is cut off, or an
explicit wrap (`Bytes.Wrap16`, `% 0x1_0000`) where the code relies on it, suffers from it, or never uses the wrapped
value. Bits are tied to numbers by `Bytes.ByteValue`: the binary digits of a byte, highest first, are its value; what
a byte of a buffer, a glyph or a wire means is stated through that.

Preconditions that bound coordinates say that values the code goes on to use fit its 16-bit variables. For the fast
lines this is `Screen.LineFits`: the turned run starts in range, and so does what clipping its first end leaves of its
length; lines that run far off the other end are clipped, as in the code, and the coordinate across the run may wrap,
for it stays off the panel. The shapes ask for more: all corners of a filled figure in range after rotation, and, for
oblique lines and triangles, differences of coordinates that fit 16 bits.

## Modules

| module | what it is about |
|---|---|
| `Bytes` | integer widths, bits of a byte, index arithmetic |
| `Screen` | rotation, the three drawing modes, and `Painted`: exactly this region was painted once, clipped, and nothing else changed |
| `Ssd1306` | the page-packed framebuffer, its fast lines, and the reference "one drawPixel per point" |
| `Circle`, `Line`, `Triangle` | what the rasterisers compute, measured against the ideal figure |
| `Gfx` | the rasterisers themselves, drawing on the SSD1306 |
| `Canvas1`, `Bitmap` | the 1-bit canvas, drawBitmap, and the round trip between the two layouts |
| `Text`, `Print` | cursors, bounding rectangles and glyphs |
| `NeoPixel` | premultiplied LED bytes under changing brightness |
| `Panel`, `Spitft` | the address window of a colour display, DMA fills and streamed bitmaps |
| `WifiScan`, `Alerts`, `Provisioning`, `SoftSpi` | the four smaller stateful cores |

`Screen.Painted(g, before, after, color, R)` is the central relation. It fixes every pixel of the result, so a
line that skips a pixel, draws one twice (visible in inverse mode), touches a padding bit or another row, or
clips wrongly does not satisfy it. `Ssd1306.PaintedIsEachPixel` and `Canvas1.PaintedIsEachPixel` turn it into equality
of buffers with drawPixel called once per point; the fast lines of both carry that equality in their own contracts.

## Where the code does less than it seems to promise

- Fast vertical runs on the SSD1306 take an unknown colour for white in whole bytes, while drawPixel ignores
  it. `Ssd1306.UnknownColourLine` says when the two agree: exactly when the clipped run contains no whole page;
  `Ssd1306.StrayLine` draws one that does. Filled rectangles and text inherit this (`Gfx.Ink`); text in the initial
  colour, which is unknown, shows nothing while its dots are less than a page high (`Print.UnseenText`).
- drawCircle plots the pixels where octants join twice. In inverse mode they come out unchanged;
  `Gfx.DrawCircle` says which, and `Circle.InverseOutline` that the outline is complete for radius 1 only. The
  filled circle has no such pixels, as the comment at `Adafruit_GFX.cpp:494-495` requires.
- `fill` of the LED strip adds first and count in 16 bits (`NeoPixel.FillReach`, `NeoPixel.FillWraps`), and the
  byte count of a long strip wraps likewise (`NeoPixel.BufferCoversStrip`, `NeoPixel.StripTooLong`): it covers the
  strip exactly when it does not wrap.
- write and charBounds treat a blank custom glyph at the end of a line differently, so the cursor of measured
  text and of written text part there and only there (`Text.SameCursors`, `Text.SpaceOverruns`).
- A reset received while a boot or reconnect waits for Wi-Fi wipes the credentials, calls `WiFi.disconnect(true)`
  and reopens the portal, but the wait goes on. If the driver still reports a connection before it ends, the device
  is in station mode without credentials (`Provisioning.ProvisioningManager.TryStored`, with the exact condition).
  That it does so after a disconnect is an assumption about the driver, made in the environment of
  `Provisioning.OperationalAfterReset`; the code itself does not rule it out.
- The software SPI transfer leaves the clock low in mode 2, whose idle level is high. Every bit is still
  sampled once (`SoftSpi.SpiDevice.Transfer`).
- The line's loop compares a 16-bit counter with its end point, so it ends exactly when the larger major coordinate
  is not 32767 (`Line.LineLeaves`); the line from (0, 0) to (32767, 1) is never finished (`Line.EndlessLine`). All
  other end points within reach of 16-bit differences are drawn, though the minor coordinate may wrap after the
  last pixel. The rectangle's column loop likewise ends exactly when column 32767 is not part of it
  (`Gfx.ColumnsLeave`, `Gfx.EndlessRect`). The triangle's rows end exactly when the lowest row is not 32767, and its
  first loop stops at the middle vertex exactly when that is not at -32768 (`Triangle.RowsLeave`,
  `Triangle.EndlessRows`); a flat triangle has no such limit.
- The descriptor list of the colour display is as long as a full screen needs, and the number of descriptors for a
  run is rounded up in 32 bits. It stays within the list, and there is one to end the chain at, exactly when the
  run is no longer than the list times the pixels of one descriptor (`Spitft.DescriptorsNeeded`). One pixel more
  than a full 240 by 320 screen overruns the list, and a run of 2^32 - 1 pixels leaves it without a descriptor
  (`Spitft.RunTooLong`).

## Model

| member | source | states |
|---|---|---|
| Screen.RotationBijective | libraries/Adafruit_SSD1306/Adafruit_SSD1306.cpp:648-668 | each of the four rotations is a bijection of the plane, and it maps the visible rectangle onto the panel and nothing else onto it |
| Screen.RotationTurns | libraries/Adafruit_SSD1306/Adafruit_SSD1306.cpp:648-668 | rotation r turns the screen by r quarters clockwise: which corner its origin is in and where its axes point |
| Screen.ColourNumbers | libraries/Adafruit_SSD1306/Adafruit_SSD1306.cpp:665-675 | colour 0 clears a pixel, 1 sets it, 2 flips it |
| Bytes.ByteValue | libraries/Adafruit_SSD1306/Adafruit_SSD1306.cpp:665-675 | the bits that masks select are the binary digits of the byte |
| Screen.PaintBothOnScreen | libraries/Adafruit_GFX_Library/Adafruit_GFX.cpp:494-495 | two regions without a common point, painted one after the other, are their union painted once; this is what lets an inverse fill be composed of lines |
| Screen.PaintAgain | libraries/Adafruit_GFX_Library/Adafruit_GFX.cpp:357-394 | where two paintings overlap, black and white keep the union and inverse keeps the symmetric difference |
| Screen.InverseTwice | libraries/Adafruit_SSD1306/Adafruit_SSD1306.cpp:648-677 | flipping one region twice restores every pixel |
| Screen.PaintRotated | libraries/Adafruit_SSD1306/Adafruit_SSD1306.cpp:706-741 | painting a clipped rectangle of panel cells is painting the clipped rectangle of screen points it was turned from |
| Screen.PixelRun | libraries/Adafruit_SSD1306/Adafruit_SSD1306.cpp:648-677 | for any sequence of single-pixel drawings over distinct points, on any image, the result is that set of points painted once |
| Screen.PaintedIsPixelRun | libraries/Adafruit_GFX_Library/Adafruit_GFX.cpp:1913-2116 | whatever paints a region leaves the image that any order of single-pixel drawings of its visible points leaves |
| Screen.PictureBox | libraries/Adafruit_GFX_Library/Adafruit_GFX.cpp:817-834 | a region painted in one colour joins a many-coloured picture, provided the two do not overlap |
| Ssd1306.SamePixelsSameBuffer | libraries/Adafruit_SSD1306/Adafruit_SSD1306.cpp:648-677 | two buffers that show the same pixels, padding rows of the last page included, are equal byte for byte |
| Ssd1306.PageValue | libraries/Adafruit_SSD1306/Adafruit_SSD1306.cpp:665-675 | a byte of the buffer is the binary number of the eight rows of its page in its column, the bottom row highest |
| Ssd1306.StoreMasked | libraries/Adafruit_SSD1306/Adafruit_SSD1306.cpp:665-675 | changing one byte through a mask paints exactly the rows of that page and column that the mask selects, for every colour |
| Ssd1306.StoreWhole | libraries/Adafruit_SSD1306/Adafruit_SSD1306.cpp:904-920 | storing a whole byte paints eight rows, and an unknown colour counts as white there |
| Ssd1306.PremaskRun | libraries/Adafruit_SSD1306/Adafruit_SSD1306.cpp:872-884 | the first mask of a vertical run, cut off when the run ends inside its page, selects exactly the rows of the run in that page |
| Ssd1306.PostmaskRun | libraries/Adafruit_SSD1306/Adafruit_SSD1306.cpp:923-932 | the last mask selects exactly the rows that remain |
| Ssd1306.RunPages | libraries/Adafruit_SSD1306/Adafruit_SSD1306.cpp:900-921 | whole pages continue the run without gap or overlap |
| Ssd1306.LineDrawn | libraries/Adafruit_SSD1306/Adafruit_SSD1306.cpp:706-836 | a rotated, clipped run of panel cells is the line asked for; an unknown colour whitens exactly the whole pages of vertical runs |
| Ssd1306.PutPixelPaints | libraries/Adafruit_SSD1306/Adafruit_SSD1306.cpp:648-677 | one drawPixel paints exactly its point, clipped, under every rotation |
| Ssd1306.EachPixelPaints | libraries/Adafruit_SSD1306/Adafruit_SSD1306.cpp:648-677 | drawPixel over a list of distinct points paints exactly these points |
| Ssd1306.PaintedIsEachPixel | libraries/Adafruit_SSD1306/Adafruit_SSD1306.cpp:706-948 | a painted region determines the whole buffer: it equals drawPixel over any list of distinct points with the same visible part |
| Ssd1306.SecondInverseRestores | libraries/Adafruit_GFX_Library/Adafruit_GFX.cpp:452-511 | two inverse paintings of one region, whatever draws them, restore the buffer byte for byte, padding included |
| Ssd1306.UnknownColourPixels | libraries/Adafruit_SSD1306/Adafruit_SSD1306.cpp:648-677 | drawPixel ignores every colour other than black, white and inverse |
| Ssd1306.UnknownColourLine | libraries/Adafruit_SSD1306/Adafruit_SSD1306.cpp:854-948 | for such a colour a fast line agrees with drawPixel if its clipped run contains no whole page, and on a black screen only then |
| Ssd1306.StrayLine | libraries/Adafruit_SSD1306/Adafruit_SSD1306.cpp:854-948 | such a line: colour 3 over the first page of a black 128 by 64 panel |
| Ssd1306.Ssd1306.constructor | libraries/Adafruit_SSD1306/Adafruit_SSD1306.cpp:499 | a panel starts black and unrotated, with one byte per column and page, WIDTH * ((HEIGHT + 7) / 8) in all |
| Ssd1306.Ssd1306.SetRotation | libraries/Adafruit_GFX_Library/Adafruit_GFX.cpp:1316-1330 | rotations count modulo four and exchange width and height |
| Ssd1306.Ssd1306.DrawPixel | libraries/Adafruit_SSD1306/Adafruit_SSD1306.cpp:648-677 | the buffer changes at exactly one bit, or not at all off the screen |
| Ssd1306.Ssd1306.GetPixel | libraries/Adafruit_SSD1306/Adafruit_SSD1306.cpp:961-981 | reads back the drawn pixel under rotation; false off the screen |
| Ssd1306.Ssd1306.DrawFastHLineInternal | libraries/Adafruit_SSD1306/Adafruit_SSD1306.cpp:755-788 | a horizontal run of panel cells, clipped on both sides, painted once |
| Ssd1306.Ssd1306.DrawFirstByte | libraries/Adafruit_SSD1306/Adafruit_SSD1306.cpp:872-901 | the rows up to the first page boundary, painted once; the count of remaining rows |
| Ssd1306.Ssd1306.WritePages | libraries/Adafruit_SSD1306/Adafruit_SSD1306.cpp:900-921 | as many whole pages as fit, painted once, never past the run |
| Ssd1306.Ssd1306.DrawFastVLineInternal | libraries/Adafruit_SSD1306/Adafruit_SSD1306.cpp:854-948 | a vertical run of panel cells, clipped, painted once through partial byte, whole bytes, partial byte |
| Ssd1306.Ssd1306.TurnHLine | libraries/Adafruit_SSD1306/Adafruit_SSD1306.cpp:706-730 | the rotation switch yields the first panel cell of the turned line, however its intermediate values wrap |
| Ssd1306.Ssd1306.TurnVLine | libraries/Adafruit_SSD1306/Adafruit_SSD1306.cpp:806-830 | the same for a vertical line |
| Ssd1306.RunTurned | libraries/Adafruit_SSD1306/Adafruit_SSD1306.cpp:706-830 | whatever the steps of the rotation switch wrap to, the cell they end at is the first of the turned run, up to a coordinate across it that is off the panel |
| Ssd1306.Unwrapped | libraries/Adafruit_SSD1306/Adafruit_SSD1306.cpp:706-836 | a coordinate that wraps across the line is off the panel before and after, so the line asked for is still what is drawn |
| Ssd1306.Ssd1306.DrawFastHLine | libraries/Adafruit_SSD1306/Adafruit_SSD1306.cpp:706-741 | every rotation, and every position and length whose turned run starts in the 16-bit range: the buffer equals one drawPixel per point |
| Ssd1306.Ssd1306.DrawFastVLine | libraries/Adafruit_SSD1306/Adafruit_SSD1306.cpp:806-836 | every rotation, and every position and length whose turned run starts in the 16-bit range: the buffer equals one drawPixel per point |
| Circle.NearestUnique | libraries/Adafruit_GFX_Library/Adafruit_GFX.cpp:357-394 | the rounded height of a circle over a column is unique |
| Circle.OutlineWithin | libraries/Adafruit_GFX_Library/Adafruit_GFX.cpp:357-394 | no outline pixel is further than r from the centre along an axis |
| Circle.MidpointStep | libraries/Adafruit_GFX_Library/Adafruit_GFX.cpp:374-382 | each turn of the loop keeps the error term equal to its closed form and the offset on the rounded circle |
| Circle.MidpointError | libraries/Adafruit_GFX_Library/Adafruit_GFX.cpp:374-382 | every generated offset satisfies the circle equation up to y |
| Circle.MidpointBounds | libraries/Adafruit_GFX_Library/Adafruit_GFX.cpp:362-382 | the error term stays within 1-2r and 2r+1 between turns, so 16 bits suffice up to r = 16383 |
| Circle.LoopEnds | libraries/Adafruit_GFX_Library/Adafruit_GFX.cpp:374-392 | from every state the loop reaches x = y or x = y+1 |
| Circle.OctantComplete | libraries/Adafruit_GFX_Library/Adafruit_GFX.cpp:374-392 | when the loop ends no outline pixel of any octant is missing |
| Circle.OutlineStep | libraries/Adafruit_GFX_Library/Adafruit_GFX.cpp:374-392 | what the eight pixels of one turn add to the outline, pixel by pixel, in all colours, the last turn and the diagonal included |
| Circle.InverseOutline | libraries/Adafruit_GFX_Library/Adafruit_GFX.cpp:357-394 | an outline drawn in inverse is complete exactly for radius 1: otherwise the pixels where octants join are flipped twice |
| Circle.TopOfXColumn | libraries/Adafruit_GFX_Library/Adafruit_GFX.cpp:496-501 | while x <= y the loop holds the topmost outline row of column x |
| Circle.TopOfYColumn | libraries/Adafruit_GFX_Library/Adafruit_GFX.cpp:502-506 | when y is about to fall, the old x is the topmost outline row of column y |
| Circle.ColumnHasTop | libraries/Adafruit_GFX_Library/Adafruit_GFX.cpp:471-511 | every column within the radius has a topmost outline row |
| Circle.DiscIsRound | libraries/Adafruit_GFX_Library/Adafruit_GFX.cpp:452-511 | the filled disc contains every lattice point with x*x + y*y <= r*r, and none with x*x + y*y > r*r + r |
| Circle.Advance | libraries/Adafruit_GFX_Library/Adafruit_GFX.cpp:486-493 | the step shared by the circle loops keeps the invariant with all five variables in 16 bits |
| Gfx.ColumnRuns | libraries/Adafruit_GFX_Library/Adafruit_GFX.cpp:496-508 | one column offset is one vertical run on each selected side |
| Gfx.AddColumn | libraries/Adafruit_GFX_Library/Adafruit_GFX.cpp:494-509 | a finished column is never drawn again |
| Gfx.FillCircleHelper | libraries/Adafruit_GFX_Library/Adafruit_GFX.cpp:471-511 | columns 1..r of the chosen sides, each the hull of its outline pixels stretched by delta, each painted exactly once |
| Gfx.DiscParts | libraries/Adafruit_GFX_Library/Adafruit_GFX.cpp:452-458 | the centre line and the two sides make up the disc and share no pixel |
| Gfx.FillCircle | libraries/Adafruit_GFX_Library/Adafruit_GFX.cpp:452-458 | every pixel of the disc is painted exactly once in every colour |
| Gfx.FillCircleTwice | libraries/Adafruit_GFX_Library/Adafruit_GFX.cpp:452-511 | filling the same circle twice in inverse restores every byte of the buffer |
| Gfx.FillIsHullOfOutline | libraries/Adafruit_GFX_Library/Adafruit_GFX.cpp:357-511 | what fillCircle fills lies, column by column, between two pixels of what drawCircle plots, and is all that does |
| Gfx.FillRect | libraries/Adafruit_GFX_Library/Adafruit_GFX.cpp:300-307 | the rectangle painted once, column by column, and nothing for a width that is not positive; a colour the display does not know whitens the whole pages of its columns and no other pixel |
| Gfx.InkRun | libraries/Adafruit_GFX_Library/Adafruit_GFX.cpp:300-307 | what one column of a filled rectangle looks like in any colour |
| Gfx.InkUnseen | libraries/Adafruit_GFX_Library/Adafruit_GFX.cpp:300-307 | an unknown colour shows nothing in columns shorter than a page, or turned on their side |
| Gfx.ColumnsLeave | libraries/Adafruit_GFX_Library/Adafruit_GFX.cpp:300-307 | the 16-bit column counter passes the last column exactly when that is not column 32767 |
| Gfx.EndlessRect | libraries/Adafruit_GFX_Library/Adafruit_GFX.cpp:300-307 | a rectangle for which it never does |
| Gfx.SideColumns | libraries/Adafruit_GFX_Library/Adafruit_GFX.cpp:574-586 | left and right corner fills stay on their own sides |
| Gfx.FillRoundRect | libraries/Adafruit_GFX_Library/Adafruit_GFX.cpp:574-586 | the rounded rectangle with the radius asked for, or the largest that fits, each pixel painted once |
| Gfx.LargestRadius | libraries/Adafruit_GFX_Library/Adafruit_GFX.cpp:576-578 | the radius drawn is the largest one up to that asked for whose corners fit both sides |
| Gfx.RoundRectIs | libraries/Adafruit_GFX_Library/Adafruit_GFX.cpp:574-586 | the rounded rectangle is the rectangle without the points that lie outside the quarter discs at its corners |
| Gfx.RoundSquareIsDisc | libraries/Adafruit_GFX_Library/Adafruit_GFX.cpp:574-586 | a square of side 2r+1 with corner radius r is the disc of fillCircle |
| Gfx.MergeDots | libraries/Adafruit_GFX_Library/Adafruit_GFX.cpp:384-391 | four reflected pixels: coinciding ones cancel in inverse mode |
| Gfx.DrawCircle | libraries/Adafruit_GFX_Library/Adafruit_GFX.cpp:357-394 | exactly the ideal outline; in inverse mode without the pixels where octants join |
| Gfx.WriteRun | libraries/Adafruit_GFX_Library/Adafruit_GFX.cpp:148-172 | one pixel per major step, error term within its range; the minor coordinate may wrap after the last pixel |
| Gfx.WriteLine | libraries/Adafruit_GFX_Library/Adafruit_GFX.cpp:132-173 | exactly the pixels of the line, whichever end comes first, for every end point at which the loop ends |
| Gfx.StraightLine | libraries/Adafruit_GFX_Library/Adafruit_GFX.cpp:330-346 | an axis-aligned run is the line between its ends |
| Gfx.DrawLine | libraries/Adafruit_GFX_Library/Adafruit_GFX.cpp:330-346 | the axis-aligned shortcuts draw the same pixels as the general line |
| Gfx.EndsFit | libraries/Adafruit_GFX_Library/Adafruit_GFX.cpp:669-699 | both ends of a scanline stay between the smallest and the largest vertex coordinate |
| Gfx.AddRow | libraries/Adafruit_GFX_Library/Adafruit_GFX.cpp:669-681 | one scanline joins those above it |
| Gfx.UpperRows | libraries/Adafruit_GFX_Library/Adafruit_GFX.cpp:664-681 | the rows down to the middle vertex, or through a flat bottom |
| Gfx.LowerRows | libraries/Adafruit_GFX_Library/Adafruit_GFX.cpp:685-699 | the rows from the middle vertex down |
| Gfx.FillRows | libraries/Adafruit_GFX_Library/Adafruit_GFX.cpp:654-700 | each scanline is painted once; the accumulators equal their products, fit 32 bits, and no division is by zero |
| Gfx.FillTriangle | libraries/Adafruit_GFX_Library/Adafruit_GFX.cpp:619-701 | the triangle of three vertices in any order, each pixel painted once, flat triangles included |
| Line.MinorStep | libraries/Adafruit_GFX_Library/Adafruit_GFX.cpp:161-172 | the error term after each turn equals its closed form |
| Line.MinorUnique | libraries/Adafruit_GFX_Library/Adafruit_GFX.cpp:161-172 | each major coordinate has at most one pixel |
| Line.MinorConnected | libraries/Adafruit_GFX_Library/Adafruit_GFX.cpp:161-172 | along the major axis the error term lets the line climb by at most one per step |
| Line.MinorRange | libraries/Adafruit_GFX_Library/Adafruit_GFX.cpp:161-172 | each major step has a pixel, within the rows between the ends, and both ends are hit |
| Line.OnePixelPerStep | libraries/Adafruit_GFX_Library/Adafruit_GFX.cpp:132-173 | exactly one pixel per major coordinate of a run, both ends among them |
| Line.HalfPixel | libraries/Adafruit_GFX_Library/Adafruit_GFX.cpp:132-173 | every pixel is within half a pixel of the ideal line along the minor axis |
| Line.LineIsPath | libraries/Adafruit_GFX_Library/Adafruit_GFX.cpp:132-173 | the pixels of any line form a path of max(abs(dx), abs(dy)) + 1 different pixels, each touching the next, from one end point to the other |
| Line.LeavesIff | libraries/Adafruit_GFX_Library/Adafruit_GFX.cpp:161 | a loop over a 16-bit counter ends exactly when its last value is not 32767 |
| Line.LineLeaves | libraries/Adafruit_GFX_Library/Adafruit_GFX.cpp:143-172 | hence the loop of any line ends exactly when its larger major coordinate is not 32767 |
| Line.EndlessLine | libraries/Adafruit_GFX_Library/Adafruit_GFX.cpp:161-172 | a line that does not end, and one close to the limit that does |
| Line.SwapEnds | libraries/Adafruit_GFX_Library/Adafruit_GFX.cpp:137-146 | exchanging the end points gives the same set of pixels |
| Line.StraightRun | libraries/Adafruit_GFX_Library/Adafruit_GFX.cpp:330-346 | on an axis-aligned line the pixels are the plain run |
| Triangle.VertexOrder | libraries/Adafruit_GFX_Library/Adafruit_GFX.cpp:624-636 | the order of the vertices does not matter |
| Triangle.CDivSides | libraries/Adafruit_GFX_Library/Adafruit_GFX.cpp:670-671 | truncated division stays on the side of the true quotient |
| Triangle.CrossingRounds | libraries/Adafruit_GFX_Library/Adafruit_GFX.cpp:669-699 | a crossing is within one pixel of the true edge and between its end points, exact at both |
| Triangle.VerticesCovered | libraries/Adafruit_GFX_Library/Adafruit_GFX.cpp:619-701 | all three vertices are covered |
| Triangle.CoversIdeal | libraries/Adafruit_GFX_Library/Adafruit_GFX.cpp:619-701 | every pixel of the ideal closed triangle is covered |
| Triangle.NearIdeal | libraries/Adafruit_GFX_Library/Adafruit_GFX.cpp:619-701 | every covered pixel is within one pixel, along the row, of the ideal triangle's edges |
| Triangle.NearCrossing | libraries/Adafruit_GFX_Library/Adafruit_GFX.cpp:669-699 | a pixel on one side of the truncated crossing is on that side of the true edge, give or take one pixel |
| Triangle.WithinBox | libraries/Adafruit_GFX_Library/Adafruit_GFX.cpp:619-701 | no pixel lies outside the box around the vertices |
| Triangle.AccumulatorFits | libraries/Adafruit_GFX_Library/Adafruit_GFX.cpp:656-691 | the accumulators cannot leave 32 bits |
| Triangle.Accumulate | libraries/Adafruit_GFX_Library/Adafruit_GFX.cpp:672-691 | one turn keeps each accumulator equal to its product, within 32 bits |
| Triangle.RowsLeave | libraries/Adafruit_GFX_Library/Adafruit_GFX.cpp:664-699 | the first loop stops at the middle vertex and the row counter passes the lowest exactly when the lowest row is not 32767 and the middle one not -32768 |
| Triangle.EndlessRows | libraries/Adafruit_GFX_Library/Adafruit_GFX.cpp:664-699 | inputs at which each of the two fails |
| Canvas1.SamePixelsSameBuffer | libraries/Adafruit_GFX_Library/Adafruit_GFX.cpp:1797-1833 | two canvas buffers that show the same pixels, padding columns included, are equal |
| Canvas1.RowValue | libraries/Adafruit_GFX_Library/Adafruit_GFX.cpp:2090-2116 | a byte of the buffer is the binary number of its eight pixels, the leftmost highest |
| Canvas1.StoreMasked | libraries/Adafruit_GFX_Library/Adafruit_GFX.cpp:1797-1833 | changing one byte through a mask paints exactly the columns of that row that the mask selects |
| Canvas1.MaskWithBit | libraries/Adafruit_GFX_Library/Adafruit_GFX.cpp:2072-2080 | a mask built bit by bit selects exactly the pixels counted off |
| Canvas1.PutPixelPaints | libraries/Adafruit_GFX_Library/Adafruit_GFX.cpp:1797-1833 | one drawPixel paints exactly its point, clipped, under every rotation |
| Canvas1.PaintedIsEachPixel | libraries/Adafruit_GFX_Library/Adafruit_GFX.cpp:1913-2116 | a painted region determines the whole buffer, padding included: it equals drawPixel over any list of distinct points with the same visible part |
| Canvas1.ClippedLine | libraries/Adafruit_GFX_Library/Adafruit_GFX.cpp:1913-2013 | a line clipped on the screen and turned onto the panel is the line asked for |
| Canvas1.GFXcanvas1.constructor | libraries/Adafruit_GFX_Library/Adafruit_GFX.cpp:1767-1777 | a canvas starts black, rows padded to whole bytes; it is usable exactly for sizes that fit the signed 16 bits of the base class |
| Canvas1.GFXcanvas1.DrawPixel | libraries/Adafruit_GFX_Library/Adafruit_GFX.cpp:1797-1833 | exactly one bit changes, or none off the screen; any colour but 0 sets it |
| Canvas1.GFXcanvas1.GetRawPixel | libraries/Adafruit_GFX_Library/Adafruit_GFX.cpp:1876-1889 | the stored pixel; false outside the canvas |
| Canvas1.GFXcanvas1.GetPixel | libraries/Adafruit_GFX_Library/Adafruit_GFX.cpp:1844-1863 | the pixel under the rotation; false off the screen, even where the turned coordinate wraps |
| Canvas1.GFXcanvas1.MaskFrom | libraries/Adafruit_GFX_Library/Adafruit_GFX.cpp:2072-2080 | the mask of a partial byte and the number of pixels left over |
| Canvas1.GFXcanvas1.DrawFastRawHLine | libraries/Adafruit_GFX_Library/Adafruit_GFX.cpp:2062-2116 | partial byte, whole bytes, partial byte: the run painted once, no other row or padding touched |
| Canvas1.GFXcanvas1.DrawFastRawVLine | libraries/Adafruit_GFX_Library/Adafruit_GFX.cpp:2024-2051 | one bit in each row of the run |
| Canvas1.GFXcanvas1.DrawFastVLine | libraries/Adafruit_GFX_Library/Adafruit_GFX.cpp:1913-1958 | negative lengths run upwards; under every rotation the buffer equals one drawPixel per point |
| Canvas1.GFXcanvas1.DrawFastHLine | libraries/Adafruit_GFX_Library/Adafruit_GFX.cpp:1969-2013 | negative lengths run to the left; under every rotation the buffer equals one drawPixel per point |
| Bitmap.ShiftRegister | libraries/Adafruit_GFX_Library/Adafruit_GFX.cpp:826-830 | the shift register read equals direct selection of the bit, for every column of a byte |
| Bitmap.ReadPixel | libraries/Adafruit_GFX_Library/Adafruit_GFX.cpp:826-830 | each turn reads the bitmap bit of its own pixel |
| Bitmap.WrappedDot | libraries/Adafruit_GFX_Library/Adafruit_GFX.cpp:817-834 | a pixel whose coordinates wrap is off the screen before and after |
| Bitmap.DrawBitmap | libraries/Adafruit_GFX_Library/Adafruit_GFX.cpp:817-834 | every visible point of the rectangle gets the colour of its own bit, everything else is kept |
| Bitmap.DrawBitmapOnCanvas | libraries/Adafruit_GFX_Library/Adafruit_GFX.cpp:817-834 | the same on a canvas, where every colour but 0 sets the pixel |
| Bitmap.CanvasRoundTrip | libraries/Adafruit_GFX_Library/Adafruit_GFX.cpp:817-834 | a picture of a canvas buffer, white on black over a whole unrotated screen, has the pixels of that canvas |
| Bitmap.CopyToDisplay | libraries/Adafruit_GFX_Library/Adafruit_GFX.cpp:817-834 | drawing a canvas on an unrotated display of its size makes every pixel of the display equal to the raw pixel of the canvas, whatever was there before |
| Bitmap.CopyToCanvas | libraries/Adafruit_GFX_Library/Adafruit_GFX.cpp:817-834 | the same onto another canvas |
| Text.CursorsAgree | libraries/Adafruit_GFX_Library/Adafruit_GFX.cpp:1242-1286 | after one character measuring and writing stand at the same cursor exactly when no blank glyph overruns the line |
| Text.SameCursors | libraries/Adafruit_GFX_Library/Adafruit_GFX.cpp:1242-1433 | the cursors agree on all prefixes of a string exactly when no blank glyph overruns while it is written |
| Text.SolidFont | libraries/Adafruit_GFX_Library/Adafruit_GFX.cpp:1242-1433 | the built-in font, a font without blank glyphs, and text without wrapping never part the cursors |
| Text.SpaceOverruns | libraries/Adafruit_GFX_Library/Adafruit_GFX.cpp:1258-1284 | a space at the end of a line parts them: a concrete font and cursor |
| Text.UnwrappedText | libraries/Adafruit_GFX_Library/Adafruit_GFX.cpp:1242-1433 | without wrapping, the cursor has moved by size times the columns of the current line, and by one line height for each newline |
| Text.WrappedGrid | libraries/Adafruit_GFX_Library/Adafruit_GFX.cpp:1371-1433 | wrapped text in the built-in font stands in a grid of 6 by 8 cells, as many columns as fit the screen |
| Text.WrapsWhenNeeded | libraries/Adafruit_GFX_Library/Adafruit_GFX.cpp:1242-1286 | a glyph stays on the line exactly when its cell ends within the screen |
| Text.CustomCell | libraries/Adafruit_GFX_Library/Adafruit_GFX.cpp:1391-1404 | the cell of a custom glyph by its offsets and size |
| Text.HullEncloses | libraries/Adafruit_GFX_Library/Adafruit_GFX.cpp:1371-1433 | the running minima and maxima enclose every character cell |
| Text.HullSmallest | libraries/Adafruit_GFX_Library/Adafruit_GFX.cpp:1371-1433 | nothing smaller encloses the cells and the initial bounds |
| Text.CellInRect | libraries/Adafruit_GFX_Library/Adafruit_GFX.cpp:1466-1473 | the reported rectangle contains every pixel of an enclosed cell, as long as its sides fit 16 bits |
| Text.BoundsTight | libraries/Adafruit_GFX_Library/Adafruit_GFX.cpp:1448-1474 | the rectangle reported is the smallest around the measured cells and the initial bounds, as long as its sides fit 16 bits; when nothing prints it is the starting point with size 0 |
| Text.HullProper | libraries/Adafruit_GFX_Library/Adafruit_GFX.cpp:1448-1474 | one printed cell that is not empty is enough for the bounds not to be inverted |
| Text.OneLine | libraries/Adafruit_GFX_Library/Adafruit_GFX.cpp:1371-1433 | characters of the built-in font that fit one line stand side by side |
| Text.LineBounds | libraries/Adafruit_GFX_Library/Adafruit_GFX.cpp:1448-1474 | one line of n characters of the built-in font is measured 6n by 8, times the text size, from where it starts |
| Text.Widen | libraries/Adafruit_GFX_Library/Adafruit_GFX.cpp:1397-1404 | the four comparisons widen the bounds to the smallest that hold the cell too |
| Text.CharBounds | libraries/Adafruit_GFX_Library/Adafruit_GFX.cpp:1371-1433 | the cursor and the bounds after one measured character |
| Text.TextBounds | libraries/Adafruit_GFX_Library/Adafruit_GFX.cpp:1448-1474 | the smallest rectangle around the cells of a whole string; the starting point and size 0 when nothing prints |
| Print.BlockUnique | libraries/Adafruit_GFX_Library/Adafruit_GFX.cpp:1150-1166 | the magnified blocks of a glyph do not overlap |
| Print.BlockOf | libraries/Adafruit_GFX_Library/Adafruit_GFX.cpp:1150-1172 | and they fill the cell |
| Print.TableSkips | libraries/Adafruit_GFX_Library/Adafruit_GFX.cpp:1146-1147 | in the incorrect code page entry 176 is never shown, 255 shows entry 0, and otherwise different characters show different entries |
| Print.ColumnValue | libraries/Adafruit_GFX_Library/Adafruit_GFX.cpp:1150-1166 | a byte of the built-in table is the binary number of a column's dots, the bottom one highest |
| Print.StreamValue | libraries/Adafruit_GFX_Library/Adafruit_GFX.cpp:1216-1229 | a byte of a custom glyph is the binary number of its next eight dots, row by row, the first one highest |
| Print.NextBlock | libraries/Adafruit_GFX_Library/Adafruit_GFX.cpp:1150-1166 | one turn of the glyph loops: a dot in the text colour, a gap in the background colour or untouched |
| Print.SpacingColumn | libraries/Adafruit_GFX_Library/Adafruit_GFX.cpp:1167-1172 | the sixth column completes the cell and is all background |
| Print.DrawBlock | libraries/Adafruit_GFX_Library/Adafruit_GFX.cpp:1154-1158 | a pixel or a magnified square in any colour, painted once as the display renders that colour |
| Print.ReadDot | libraries/Adafruit_GFX_Library/Adafruit_GFX.cpp:1218-1229 | the bit stream of a custom glyph, read byte by byte through a shift register and a counter that wraps |
| Print.NextDot | libraries/Adafruit_GFX_Library/Adafruit_GFX.cpp:1216-1229 | each turn reads the dot of its own column and row |
| Print.DrawClassic | libraries/Adafruit_GFX_Library/Adafruit_GFX.cpp:1149-1172 | the built-in glyph: every dot of the table in the text colour, the rest of the cell in a different background colour, for all colours |
| Print.DrawCustom | libraries/Adafruit_GFX_Library/Adafruit_GFX.cpp:1181-1232 | the custom glyph: dot (i, j) is bit j*width+i of its stream |
| Print.DrawChar | libraries/Adafruit_GFX_Library/Adafruit_GFX.cpp:1134-1235 | any character the font has, in any colours, on the screen in the clipped cell or not at all |
| Print.GlyphShown | libraries/Adafruit_GFX_Library/Adafruit_GFX.cpp:1134-1176 | white on black, every visible pixel of a built-in character's cell is lit exactly when its dot is in the table, whatever was there before |
| Print.InkInCell | libraries/Adafruit_GFX_Library/Adafruit_GFX.cpp:1134-1235 | a character paints nothing outside its cell |
| Print.UnseenText | libraries/Adafruit_GFX_Library/Adafruit_GFX.cpp:1134-1235 | text in a colour the display does not know changes no pixel while its dots are less than a page high, or on a screen turned sideways |
| Print.Printer.constructor | libraries/Adafruit_GFX_Library/Adafruit_GFX.cpp:110-120 | top left corner, size 1, wrapping on, both colours 0xFFFF |
| Print.Printer.SetTextColor | libraries/Adafruit_GFX_Library/Adafruit_GFX.h:144 | one colour for text and background, so the background stays |
| Print.Printer.SetTextColors | libraries/Adafruit_GFX_Library/Adafruit_GFX.h:153-156 | a background of its own |
| Print.Printer.SetTextSize | libraries/Adafruit_GFX_Library/Adafruit_GFX.cpp:1305-1308 | sizes are at least 1 |
| Print.Printer.SetFont | libraries/Adafruit_GFX_Library/Adafruit_GFX.cpp:1338-1351 | changing the font kind and back leaves the cursor where it was |
| Print.Printer.Write | libraries/Adafruit_GFX_Library/Adafruit_GFX.cpp:1242-1286 | the cursor moves as specified and exactly the glyph at the wrapped position is painted, in whatever colours are set |
| Print.Printer.GetTextBounds | libraries/Adafruit_GFX_Library/Adafruit_GFX.cpp:1448-1474 | the smallest rectangle around the measured cells, from inverted initial bounds |
| Print.Printer.GetFlashTextBounds | libraries/Adafruit_GFX_Library/Adafruit_GFX.cpp:1510-1532 | the smallest rectangle around the measured cells and the initial bounds, which are those of the screen |
| Print.TextStaysInBounds | libraries/Adafruit_GFX_Library/Adafruit_GFX.cpp:1242-1474 | for any run of images related by `write` on a string without overrunning blanks, none differs from the first outside the reported rectangle |
| Print.WriteMeasured | libraries/Adafruit_GFX_Library/Adafruit_GFX.cpp:1242-1474 | measuring a string with getTextBounds and then writing it character by character changes no pixel outside the rectangle obtained |
| NeoPixel.Scaled | libraries/Adafruit_NeoPixel/Adafruit_NeoPixel.cpp:3438-3442 | a scaled component never exceeds the brightness level |
| NeoPixel.ScaledIs | libraries/Adafruit_NeoPixel/Adafruit_NeoPixel.cpp:3438-3442 | at level b a component c is stored as c * (b + 1) / 256, rounded down |
| NeoPixel.UnscaledFits | libraries/Adafruit_NeoPixel/Adafruit_NeoPixel.cpp:3667-3694 | a stored byte within the level reads back as at most 255: no channel runs into the next |
| NeoPixel.ReadBack | libraries/Adafruit_NeoPixel/Adafruit_NeoPixel.cpp:3661-3695 | scaling a component and undoing it gives v with c - 256/B - 1 < v <= c |
| NeoPixel.WriteThenRead | libraries/Adafruit_NeoPixel/Adafruit_NeoPixel.cpp:3434-3695 | getPixelColor right after setPixelColor returns a colour each of whose components is within that bound of the one written, and no white |
| NeoPixel.RescaleFits | libraries/Adafruit_NeoPixel/Adafruit_NeoPixel.cpp:3733-3745 | no product of the rescaling loop leaves 16 bits and no result exceeds the new level |
| NeoPixel.RescaleByte | libraries/Adafruit_NeoPixel/Adafruit_NeoPixel.cpp:3740-3743 | one turn of that loop, in 16-bit arithmetic |
| NeoPixel.RescaleError | libraries/Adafruit_NeoPixel/Adafruit_NeoPixel.cpp:3712-3746 | rescaling never exceeds the ideal c*(b+1)/old and loses less than two steps against it |
| NeoPixel.RescaleMonotone | libraries/Adafruit_NeoPixel/Adafruit_NeoPixel.cpp:3712-3746 | rescaling keeps the order of two bytes |
| NeoPixel.FillReach | libraries/Adafruit_NeoPixel/Adafruit_NeoPixel.cpp:3535-3548 | `fill` covers the requested range up to the end of the strip exactly when first + count does not wrap in 16 bits; otherwise it fills nothing |
| NeoPixel.FillRest | libraries/Adafruit_NeoPixel/Adafruit_NeoPixel.cpp:3535-3548 | a count of 0 fills the rest of the strip |
| NeoPixel.FillWraps | libraries/Adafruit_NeoPixel/Adafruit_NeoPixel.cpp:3535-3548 | an instance where it wraps and fills nothing |
| NeoPixel.BufferCoversStrip | libraries/Adafruit_NeoPixel/Adafruit_NeoPixel.cpp:176-187 | the 16-bit byte count covers every pixel exactly when the product does not wrap |
| NeoPixel.StripTooLong | libraries/Adafruit_NeoPixel/Adafruit_NeoPixel.cpp:176-187 | a strip of 21846 three-byte pixels gets a buffer of two bytes |
| NeoPixel.PackUnpacks | libraries/Adafruit_NeoPixel/Adafruit_NeoPixel.cpp:3496-3508 | packing four components and taking them apart is the identity |
| NeoPixel.PackedValue | libraries/Adafruit_NeoPixel/Adafruit_NeoPixel.cpp:3496-3508 | the components are the digits of the packed colour to the base 256: white, red, green, blue |
| NeoPixel.NamedTypes | libraries/Adafruit_NeoPixel/Adafruit_NeoPixel.cpp:206-227 | green-red-blue strips have three bytes per pixel, those with white four |
| NeoPixel.PixelsApart | libraries/Adafruit_NeoPixel/Adafruit_NeoPixel.cpp:3434-3515 | different pixels own disjoint bytes |
| NeoPixel.LevelOf | libraries/Adafruit_NeoPixel/Adafruit_NeoPixel.cpp:3712-3752 | the field stored for level b reads back as b, and equals the one in force exactly when b is the level in force |
| NeoPixel.Strip.constructor | libraries/Adafruit_NeoPixel/Adafruit_NeoPixel.cpp:107-114 | an empty strip at full brightness, green first, then red and blue |
| NeoPixel.Strip.UpdateLength | libraries/Adafruit_NeoPixel/Adafruit_NeoPixel.cpp:176-187 | all pixels off, type and brightness kept; the strip is usable exactly when its byte count does not wrap in 16 bits |
| NeoPixel.Strip.UpdateType | libraries/Adafruit_NeoPixel/Adafruit_NeoPixel.cpp:206-227 | data survive unless the pixel size changes, then everything is off; the strip stays usable exactly for a type with distinct offsets whose byte count fits |
| NeoPixel.Strip.SetPixelColorRGBW | libraries/Adafruit_NeoPixel/Adafruit_NeoPixel.cpp:3466-3488 | the pixel holds the scaled components, no other pixel changes, no stored byte exceeds the level |
| NeoPixel.Strip.SetPixelColorRGB | libraries/Adafruit_NeoPixel/Adafruit_NeoPixel.cpp:3434-3454 | the same with white off |
| NeoPixel.Strip.SetPixelColor | libraries/Adafruit_NeoPixel/Adafruit_NeoPixel.cpp:3496-3515 | the same for a packed colour |
| NeoPixel.Strip.Fill | libraries/Adafruit_NeoPixel/Adafruit_NeoPixel.cpp:3528-3549 | exactly the pixels from first up to the computed end show the colour |
| NeoPixel.Strip.Clear | libraries/Adafruit_NeoPixel/Adafruit_NeoPixel.cpp:3757 | every byte is 0 |
| NeoPixel.Strip.SetBrightness | libraries/Adafruit_NeoPixel/Adafruit_NeoPixel.cpp:3712-3746 | every byte is rescaled to the new level, the invariant holds again, and the same level changes nothing |
| NeoPixel.Strip.GetPixelColor | libraries/Adafruit_NeoPixel/Adafruit_NeoPixel.cpp:3661-3695 | each component is read back on its own; 0 out of range |
| Panel.PushConcat | libraries/Adafruit_GFX_Library/Adafruit_SPITFT.cpp:1004-1146 | pushing pixels in two portions is pushing them at once |
| Panel.PushRow | libraries/Adafruit_GFX_Library/Adafruit_SPITFT.cpp:1884-1919 | a row of pixels fills one row of the window and moves to the next |
| Panel.FillWindow | libraries/Adafruit_GFX_Library/Adafruit_SPITFT.cpp:1676-1681 | w*h pixels of one colour fill exactly the w by h window |
| Spitft.SentColour | libraries/Adafruit_GFX_Library/Adafruit_SPITFT.cpp:1303-1361 | one descriptor sends as many copies of the colour as it has pixels, from the swapped buffer or the single byte |
| Spitft.SwapBoth | libraries/Adafruit_GFX_Library/Adafruit_SPITFT.cpp:971-995 | swapping a colour exchanges its high and its low byte |
| Spitft.RoundUp | libraries/Adafruit_GFX_Library/Adafruit_SPITFT.cpp:1313-1352 | the number of descriptors is enough for the run and never exceeds those allocated |
| Spitft.DescriptorsNeeded | libraries/Adafruit_GFX_Library/Adafruit_SPITFT.cpp:1313-1352 | with the code's 32-bit sum, the descriptors filled in are at least one and at most those allocated exactly when the run is no longer than the list can send |
| Spitft.CountWraps | libraries/Adafruit_GFX_Library/Adafruit_SPITFT.cpp:1313-1352 | the count is the run rounded up to descriptors, unless the sum wraps: then it is 0 |
| Spitft.RunTooLong | libraries/Adafruit_GFX_Library/Adafruit_SPITFT.cpp:1313-1352 | a run one pixel longer than a 240 by 320 screen needs descriptor 121 of 120, and one of 2^32 - 1 pixels gets none |
| Spitft.RoomOnScreen | libraries/Adafruit_GFX_Library/Adafruit_SPITFT.cpp:684-685 | every run that fits the screen fits the list, for both kinds of colour |
| Spitft.FullBufferFits | libraries/Adafruit_GFX_Library/Adafruit_SPITFT.cpp:670-677 | the byte count of a full buffer fits a descriptor exactly when no side of the screen exceeds 16382 |
| Spitft.NextChunk | libraries/Adafruit_GFX_Library/Adafruit_SPITFT.cpp:1313-1361 | every chunk but the last is full, and the last ends the run |
| Spitft.PairsFit | libraries/Adafruit_GFX_Library/Adafruit_SPITFT.cpp:1336-1348 | filling in pairs never runs past the buffer |
| Spitft.Tft.constructor | libraries/Adafruit_GFX_Library/Adafruit_SPITFT.cpp:670-685 | the buffer sizes chosen at start: two scanlines rounded to even, and enough descriptors for the whole screen; usable exactly when no side exceeds 16382 |
| Spitft.Tft.ExtendFill | libraries/Adafruit_GFX_Library/Adafruit_SPITFT.cpp:1329-1349 | whatever the cache held, the buffer now holds the colour for as long as a descriptor can reach |
| Spitft.Tft.Chain | libraries/Adafruit_GFX_Library/Adafruit_SPITFT.cpp:1313-1361 | for every run that the descriptor list can send, the chain sends exactly that many copies and ends where it should |
| Spitft.Tft.WriteColor | libraries/Adafruit_GFX_Library/Adafruit_SPITFT.cpp:1303-1393 | the display receives exactly len copies of the colour, as from a freshly filled buffer, over every history of calls, for every run the descriptor list can send |
| Spitft.Tft.SendSpan | libraries/Adafruit_GFX_Library/Adafruit_SPITFT.cpp:1070-1101 | filling one half of the buffer does not disturb the transfer in flight from the other half |
| Spitft.Tft.DmaWait | libraries/Adafruit_GFX_Library/Adafruit_SPITFT.cpp:1177-1190 | waiting delivers the pixels in flight |
| Spitft.Tft.WritePixels | libraries/Adafruit_GFX_Library/Adafruit_SPITFT.cpp:1060-1146 | little-endian pixels: the display has received them in order once the transfer in flight has ended, at once when blocking, and the fill cache is forgotten |
| Spitft.Tft.WriteBigEndian | libraries/Adafruit_GFX_Library/Adafruit_SPITFT.cpp:1102-1146 | big-endian pixels, blocking: the display receives them in order with their bytes exchanged, for every run that the descriptor list can send |
| Spitft.Tft.ChainPixels | libraries/Adafruit_GFX_Library/Adafruit_SPITFT.cpp:1109-1119 | the descriptors chained over a bitmap together send it in order, and the chain ends where it should |
| Spitft.Tft.WriteFillRectPreclipped | libraries/Adafruit_GFX_Library/Adafruit_SPITFT.cpp:1676-1681 | exactly the rectangle gets the colour |
| Spitft.Tft.FillRect | libraries/Adafruit_GFX_Library/Adafruit_SPITFT.cpp:1730-1770 | signed sizes, clipping: every visible pixel of the rectangle gets the colour, no other changes, every window is inside the screen and not empty |
| Spitft.RunBackwards | libraries/Adafruit_GFX_Library/Adafruit_SPITFT.cpp:1730-1745 | a negative size stands for as many pixels that end at the given one |
| Spitft.Tft.DrawFastHLine | libraries/Adafruit_GFX_Library/Adafruit_SPITFT.cpp:1788-1812 | signed length: every visible pixel of the line, no other |
| Spitft.Tft.DrawFastVLine | libraries/Adafruit_GFX_Library/Adafruit_SPITFT.cpp:1829-1853 | signed length: every visible pixel of the line, no other |
| Spitft.Tft.SendRows | libraries/Adafruit_GFX_Library/Adafruit_SPITFT.cpp:1912-1918 | the clipped window shows the clipped part of the bitmap |
| Spitft.Tft.DrawRGBBitmap | libraries/Adafruit_GFX_Library/Adafruit_SPITFT.cpp:1884-1919 | every visible pixel shows the bitmap pixel with its own original index |
| Spitft.PixelAt | libraries/Adafruit_GFX_Library/Adafruit_SPITFT.cpp:1884-1919 | pixel (i, j) of the bitmap is entry j * w + i |
| WifiScan.QualityScale | libraries/WiFiManager/WiFiManager.cpp:3455-3466 | quality is 0 up to -100 dBm, 100 from -50 dBm on, and rises by 2 for each dBm between |
| WifiScan.QualityMonotone | libraries/WiFiManager/WiFiManager.cpp:3455-3466 | a stronger signal is never rated lower |
| WifiScan.PassesAbove | libraries/WiFiManager/WiFiManager.cpp:1636-1638 | a minimum of 0 to 99 lets exactly the signals through with 2 * (rssi + 100) above it, a negative one all, one of 100 none |
| WifiScan.Exchange | libraries/WiFiManager/WiFiManager.cpp:1580-1586 | one exchange keeps the permutation and what is already in place |
| WifiScan.SortByRssi | libraries/WiFiManager/WiFiManager.cpp:1573-1586 | the index array is a permutation in descending order of signal strength |
| WifiScan.AllSelected | libraries/WiFiManager/WiFiManager.cpp:1573-1586 | a repetition-free array of all n indices misses none |
| WifiScan.RemoveDuplicates | libraries/WiFiManager/WiFiManager.cpp:1596-1610 | exactly the entries with an earlier entry of the same name become -1, whatever the driver answers for index -1 |
| WifiScan.FirstOfName | libraries/WiFiManager/WiFiManager.cpp:1596-1610 | the first entry of each name survives |
| WifiScan.PageStrongest | libraries/WiFiManager/WiFiManager.cpp:1573-1644 | with duplicates removed every name appears once, for its strongest access point |
| WifiScan.PageNames | libraries/WiFiManager/WiFiManager.cpp:1573-1644 | a name is listed exactly when it is not empty and some access point of that name is good enough |
| WifiScan.PageAll | libraries/WiFiManager/WiFiManager.cpp:1629-1644 | with duplicates kept every network worth showing is listed |
| WifiScan.GetScanItemOut | libraries/WiFiManager/WiFiManager.cpp:1573-1644 | all of this for the page as computed, and in dBm: with a minimum q of 0 to 99, a network, or a name, is listed exactly when it is named and 2 * (rssi + 100) > q for it, or for an access point of that name |
| Alerts.WindowLimit | labs/minimal_demo/screen_manager.cpp:47-58 | no time window as long as a round, wherever it begins, accepts more than twice the limit of one type |
| Alerts.FirstRound | labs/minimal_demo/screen_manager.cpp:47-52 | such a window meets at most two consecutive rounds |
| Alerts.CountMore | labs/minimal_demo/screen_manager.cpp:53-58 | one accepted alert counts for its own type and round only, within the limit |
| Alerts.CountNone | labs/minimal_demo/screen_manager.cpp:49-52 | a new round starts with no alerts |
| Alerts.ScreenManager.PushAlert | labs/minimal_demo/screen_manager.cpp:47-59 | accepted exactly when the type has room in the round; a full queue loses its oldest; accepted alerts are, in order, those gone and those waiting |
| Alerts.ScreenManager.ClearAlerts | labs/minimal_demo/screen_manager.cpp:60 | waiting alerts leave in order as cleared |
| Alerts.ScreenManager.DrawAlert | labs/minimal_demo/screen_manager.cpp:118-132 | an alert stays until its time is up, then the oldest waiting one is shown |
| Provisioning.ProvisioningManager.constructor | apps/ProvisioningManager/ProvisioningManager.cpp:7-21 | the portal is open, nothing is pending |
| Provisioning.ProvisioningManager.HandleSerialCommands | apps/ProvisioningManager/ProvisioningManager.cpp:95-123 | a reset wipes the credentials and restarts the portal from any state |
| Provisioning.ProvisioningManager.InitProvisioning | apps/ProvisioningManager/ProvisioningManager.cpp:143-152 | access-point mode, nothing pending |
| Provisioning.ProvisioningManager.EnterOperationalMode | apps/ProvisioningManager/ProvisioningManager.cpp:230-244 | station mode, state Success, nothing pending |
| Provisioning.ProvisioningManager.WaitForNetwork | apps/ProvisioningManager/ProvisioningManager.cpp:254-263 | the wait asks for the status once a pass until the first yes or until the time is up, begins no pass after that, and hears one command a pass; a reset wipes the state, and nothing else changes it |
| Provisioning.ProvisioningManager.ConnectToNetwork | apps/ProvisioningManager/ProvisioningManager.cpp:246-275 | such a wait, and then the answer to one more question; without a reset during it the state is untouched, with one it is that of a fresh portal |
| Provisioning.ProvisioningManager.TryStored | apps/ProvisioningManager/ProvisioningManager.cpp:182-192 | station mode exactly when connected; stored credentials are gone there exactly when a reset came during the wait |
| Provisioning.ProvisioningManager.Begin | apps/ProvisioningManager/ProvisioningManager.cpp:23-38 | boot keeps the invariant and tries exactly the stored pair |
| Provisioning.ProvisioningManager.HandleSave | apps/ProvisioningManager/ProvisioningManager.cpp:497-541 | the new pair is stored and the end of the portal scheduled exactly when it connected; otherwise a failure is reported, and what was stored stays unless a reset came in |
| Provisioning.ProvisioningManager.ConcludeSave | apps/ProvisioningManager/ProvisioningManager.cpp:514-541 | success stores the pair and schedules the end of the portal, failure reopens it |
| Provisioning.ProvisioningManager.Reconnect | apps/ProvisioningManager/ProvisioningManager.cpp:64-82 | nothing happens while connected or within the backoff; then the stored pair is tried, and the mode is station exactly when it connects; with no pair stored the portal opens |
| Provisioning.ProvisioningManager.BeginTurn | apps/ProvisioningManager/ProvisioningManager.cpp:41-46 | a reset leaves a fresh portal, a due shutdown station mode, everything else changes nothing |
| Provisioning.ProvisioningManager.Serve | apps/ProvisioningManager/ProvisioningManager.cpp:48-90 | the portal serves the request, or the station watches its connection |
| Provisioning.ProvisioningManager.Loop | apps/ProvisioningManager/ProvisioningManager.cpp:40-93 | everything one turn does, case by case: a reset heard, a shutdown due, a save, a quiet portal, a station connected, waiting, trying the stored pair, or giving up for the portal |
| Provisioning.Run | apps/ProvisioningManager/ProvisioningManager.cpp:23-93 | over every run: the invariant, each turn as above, and a reset heard by the loop with no save after it leaves a portal without credentials at the end |
| Provisioning.ResetSticks | apps/ProvisioningManager/ProvisioningManager.cpp:40-93 | after a reset the device stays a portal without credentials until something is saved |
| Provisioning.PortalEnds | apps/ProvisioningManager/ProvisioningManager.cpp:40-46 | a scheduled end of the portal comes: without a reset or another save, one of the next delay / 10 + 1 turns finds it due and, if there is a backoff, leaves station mode with the pair saved |
| Provisioning.KeptWithoutReset | apps/ProvisioningManager/ProvisioningManager.cpp:40-123 | in a run that hears no reset, not even while waiting, the pair stored at the end was stored at the beginning or has connected since |
| Provisioning.OperationalAfterReset | apps/ProvisioningManager/ProvisioningManager.cpp:112-118 | a run that ends in station mode without credentials although a reset was received |
| SoftSpi.NextMask | libraries/Adafruit_BusIO/Adafruit_SPIDevice.cpp:192-193 | the loop mask walks through the bits in the chosen order and then becomes 0 |
| SoftSpi.ByteOnWire | libraries/Adafruit_BusIO/Adafruit_SPIDevice.cpp:172-193 | the eight bits of a byte on the wire are its binary digits, the highest first or, with the other bit order, the lowest |
| SoftSpi.BufferOnWire | libraries/Adafruit_BusIO/Adafruit_SPIDevice.cpp:171-267 | so each byte of a buffer is the number that its eight bits on the wire make |
| SoftSpi.FirstLevel | libraries/Adafruit_BusIO/Adafruit_SPIDevice.cpp:172-193 | the first level is the highest bit of the first byte, or with the other bit order the lowest |
| SoftSpi.PolarityAndPhase | libraries/Adafruit_BusIO/Adafruit_SPIDevice.cpp:195-262 | modes 2 and 3 idle high, and in modes 0 and 2 the sampling edge is the one that leaves the idle level |
| SoftSpi.WireBitsDecode | libraries/Adafruit_BusIO/Adafruit_SPIDevice.cpp:171-267 | the bits on the wire determine the bytes, in both bit orders |
| SoftSpi.BitsDecode | libraries/Adafruit_BusIO/Adafruit_SPIDevice.cpp:192-215 | the eight bits of a byte determine it |
| SoftSpi.AddBit | libraries/Adafruit_BusIO/Adafruit_SPIDevice.cpp:212-215 | each bit read lands at its own position of the reply |
| SoftSpi.ReplyIs | libraries/Adafruit_BusIO/Adafruit_SPIDevice.cpp:212-215 | a reply is the number that the eight bits read make, in the bit order |
| SoftSpi.SpiDevice.BitCell | libraries/Adafruit_BusIO/Adafruit_SPIDevice.cpp:195-262 | one sampling edge per bit in every mode; the level there is the bit sent even when the write was skipped |
| SoftSpi.SpiDevice.TransferBit | libraries/Adafruit_BusIO/Adafruit_SPIDevice.cpp:195-262 | the k-th bit goes out on one sampling edge, and what is read joins the reply |
| SoftSpi.SpiDevice.TransferByte | libraries/Adafruit_BusIO/Adafruit_SPIDevice.cpp:182-266 | eight sampling edges that carry the bits of the byte in order; the reply is what was read |
| SoftSpi.SpiDevice.Transfer | libraries/Adafruit_BusIO/Adafruit_SPIDevice.cpp:171-267 | a peer that samples at the edges and reads eight levels as a number, in the bit order, receives the bytes of the buffer; the buffer becomes the numbers read on MISO; in loopback nothing changes; the clock ends idle except in mode 2 |

## Left out

- Gfx.FillRoundRect: negative sizes and radii, for which the code draws figures it does not describe, and rectangles with a corner outside the 16-bit range.
- Gfx.FillCircle: negative radii, which draw nothing sensible, and radii above 16383, where the 16-bit variables overflow.
- Gfx.DrawLine: coordinates whose differences do not fit 16 bits, where the code's own variables overflow.
- Gfx.FillTriangle: vertices so far apart that differences leave 16 bits, and flat rows with an end outside the range; `lo` and `hi` are ghost bounds on the vertices' x coordinates.
- Text.CellInRect: a text exactly 65536 pixels wide or high, whose length wraps to 0 in the code.
- Print.DrawChar: characters outside a custom font, of which the code itself warns.
- Canvas1.GFXcanvas1.constructor: drawing on canvases wider or higher than 32767, whose size turns negative in the base class.
- NeoPixel.Strip.UpdateLength: what later calls do on a strip whose byte count has wrapped.
- NeoPixel.Strip.UpdateType: what later calls do on a strip whose type has coinciding offsets.
- NeoPixel.Strip.SetPixelColorRGBW: the three overloads repeat one computation in the code and share one body here.
- Spitft.Tft.WritePixels: its two own descriptor slots; the transfer in flight is modelled by the part of the buffer it may still read, and other calls before the wait are excluded, as the documentation of the code demands.
- Spitft.Tft.WriteBigEndian: calls that do not block, and a transfer already in flight when it is called.
- Spitft.Tft.constructor: a side of 32767, which rounded to even leaves 16 bits, so that the code divides by zero; no call is made on a screen with a side above 16382 (FullBufferFits).
- Spitft.Tft.WriteColor: the branches for other processors (ESP32 chunks, nRF52, RT-Thread, bit-banged and parallel buses); short runs stand for the pixel-by-pixel branch of a hardware bus.
- Provisioning.Run: drives the loop with a list of requests; starting the access point always succeeds, and the success broadcast, LEDs, DNS and HTTP server have no effect on the state.
- Alerts.ScreenManager.PushAlert: the rule is fixed for a run, and the millisecond clock does not roll over.
- SoftSpi.SpiDevice.Transfer: delays between edges, the hardware branch, and an empty buffer, whose first byte the code reads before its loop.
- Shapes are drawn on the SSD1306 only: other subclasses of the graphics base class, and its own slower lines, are not modelled.
- The code is inlined where the model has small methods with a contract each (one page, one column, one scanline, one bit cell).
- drawRect, drawRoundRect, drawCircleHelper, drawTriangle, the other bitmap formats, the 8-bit and 16-bit canvases: easier variants of what is here.
- writeFillRect and the write variants of the fast lines on the colour display repeat fillRect and the lines.
- The String overload of getTextBounds leaves its results unset for an empty string; the terminating zero of a C string is not part of the modelled one.
- Allocation failures, callers that write into the buffers directly, and constructors' hardware set-up.
- show, ColorHSV, rainbow and gamma of the LED library: timing or finite tables.
- HTML, JSON and encryption details of the scan page; drawing the alerts; the icon and font tables.
