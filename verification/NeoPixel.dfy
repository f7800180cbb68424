/** The LED strip: stored bytes are premultiplied by the brightness and rescaled whenever it changes. */
module NeoPixel {
  import opened Bytes

  // ---- the fixed-point arithmetic ----------------------------------------------------------

  /** The brightness field holds the level plus one, rolled over: 0 stands for 255, no scaling. */
  function Level(brightness: uint8): uint8 {
    (brightness + 255) % 256
  }

  /** The field for level b, and when it is the one in force. */
  lemma LevelOf(b: uint8, brightness: uint8)
    ensures Level((b + 1) % 256) == b && ((b + 1) % 256 == brightness <==> Level(brightness) == b)
    ensures (brightness + 255) % 256 == Level(brightness)
  {
  }

  /** What a colour component is stored as. */
  function Scaled(c: uint8, brightness: uint8): (p: uint8)
    ensures p <= Level(brightness)
  {
    if brightness != 0 then
      ScaledFits(c, brightness);
      c * brightness / 256
    else c
  }

  /** Without a brightness, components are stored as they are. */
  lemma Unscaled0(c: uint8, brightness: uint8)
    ensures brightness == 0 ==> Scaled(c, brightness) == c
  {
  }

  /** At level b a component is stored as c * (b + 1) / 256, rounded down. */
  lemma ScaledIs(c: uint8, b: uint8)
    ensures var p := Scaled(c, (b + 1) % 256); 256 * p <= c * (b + 1) < 256 * p + 256
  {
    var k := b + 1;
    if b == 255 {
      assert k % 256 == 0;
    } else {
      assert k % 256 == k;
      DivBounds(c * k, 256);
    }
  }

  lemma ScaledFits(c: int, b: int)
    requires 0 <= c <= 255 && 0 < b <= 255
    ensures 0 <= c * b / 256 <= b - 1
  {
    Scale(b, 0, c);
    Scale(b, c, 255);
  }

  /** What a stored byte is read back as; it fits a byte because it never exceeds the level. */
  function Unscaled(p: uint8, brightness: uint8): (c: uint8)
    requires p <= Level(brightness)
  {
    if brightness != 0 then
      UnscaledFits(p, brightness);
      p * 256 / brightness
    else p
  }

  lemma UnscaledFits(p: int, b: int)
    requires 0 <= p < b <= 255
    ensures 0 <= p * 256 / b <= 255
  {
    DivBounds(p * 256, b);
    if p * 256 / b > 255 {
      Scale(b, 256, p * 256 / b);
    }
  }

  lemma DivBounds(n: int, d: int)
    requires 0 <= n && 0 < d
    ensures 0 <= n / d && n / d * d <= n < n / d * d + d
  {
    assert n == n / d * d + n % d;
  }

  predicate ReadAs(c: uint8, v: uint8, brightness: uint8) {
    v <= c && if brightness == 0 then v == c else c * brightness - 256 - brightness < v * brightness
  }

  /** Reading a component back right after writing it gives at most what was written, and loses less
      than 256 / brightness + 1: c - 256 / B - 1 < v <= c. */
  lemma ReadBack(c: uint8, brightness: uint8)
    ensures ReadAs(c, Unscaled(Scaled(c, brightness), brightness), brightness)
  {
    if brightness != 0 {
      var p: int := Scaled(c, brightness);
      var v := Unscaled(p, brightness);
      DivBounds(p * 256, brightness);
      if v > c {
        Scale(brightness, c + 1, v);
      }
    }
  }

  /** setBrightness's multiplier; the special case for full brightness is the same formula. */
  function Multiplier(from: uint8, b: uint8): (scale: uint16)
  {
    if from == 0 then 0
    else if b == 255 then
      DivBounds(65535, from); DivShrinks(65535, from);
      65535 / from
    else
      DivBounds((b + 1) * 256 - 1, from); DivShrinks((b + 1) * 256 - 1, from);
      ((b + 1) * 256 - 1) / from
  }

  lemma DivShrinks(n: int, d: int)
    requires 0 <= n && 0 < d
    ensures n / d <= n
  {
    DivBounds(n, d);
    Scale(n / d, 1, d);
    assert n / d * d == d * (n / d);
  }

  /** A stored byte after the level changes from `from` to b. */
  function Rescaled(c: uint8, from: uint8, b: uint8): int {
    c * Multiplier(from, b) / 256
  }

  /** One turn of the rescaling loop: the product fits 16 bits. */
  method RescaleByte(c: uint8, ghost from: uint8, ghost b: uint8, scale: uint16) returns (p: uint8)
    requires c <= from && scale == Multiplier(from, b)
    ensures p == Rescaled(c, from, b) <= b
  {
    RescaleFits(c, from, b);
    var product: uint16 := c * scale;
    p := product / 256;
  }

  /** No product of the rescaling loop leaves 16 bits, and the result never exceeds the new level. */
  lemma RescaleFits(c: uint8, from: uint8, b: uint8)
    requires c <= from
    ensures 0 <= c * Multiplier(from, b) <= 65535
    ensures 0 <= Rescaled(c, from, b) <= b
  {
    var s := Multiplier(from, b);
    if from > 0 {
      DivBounds((b + 1) * 256 - 1, from);
      Scale(s, c, from);
      Scale(s, 0, c);
      assert s * from == from * s;
    }
  }

  /** Rescaling a byte never makes it brighter than the ideal c * (b + 1) / from, and loses less than two
      steps against it. */
  lemma RescaleError(c: uint8, from: uint8, b: uint8)
    requires c <= from && 0 < from
    ensures var n := Rescaled(c, from, b);
            n * from <= c * (b + 1) < (n + 2) * from
  {
    var s := Multiplier(from, b);
    RescaleFits(c, from, b);
    DivBounds((b + 1) * 256 - 1, from);
    RescaleUpper(c * s / 256, s, from, c, b + 1);
    RescaleLower(c * s / 256, s, from, c, b + 1);
  }

  lemma RescaleUpper(n: int, s: int, d: int, c: int, k: int)
    requires 256 * n <= c * s && s * d <= 256 * k - 1 && 0 <= c && 0 <= d
    ensures n * d <= c * k
  {
    Scale(d, 256 * n, c * s);
    Scale(c, s * d, 256 * k - 1);
    Regroup(c, s, d);
    assert 256 * n * d == 256 * (n * d);
    assert (256 * k - 1) * c == 256 * (c * k) - c;
  }

  lemma RescaleLower(n: int, s: int, d: int, c: int, k: int)
    requires c * s <= 256 * n + 255 && 256 * k <= s * d + d && 0 <= c <= 255 && 0 < d
    ensures c * k < (n + 2) * d
  {
    Scale(c, 256 * k, s * d + d);
    Scale(d, c * s, 256 * n + 255);
    Scale(d, c, 255);
    Regroup(c, s, d);
    assert 256 * k * c == 256 * (c * k);
    assert (s * d + d) * c == s * d * c + c * d;
    assert (256 * n + 255) * d == 256 * (n * d) + 255 * d;
    assert (n + 2) * d == n * d + 2 * d;
  }

  lemma Regroup(c: int, s: int, d: int)
    ensures s * d * c == c * s * d == (c * s) * d
  {
  }

  /** Rescaling keeps the order of two bytes, so hues are not turned around. */
  lemma RescaleMonotone(c: uint8, d: uint8, from: uint8, b: uint8)
    requires c <= d <= from
    ensures Rescaled(c, from, b) <= Rescaled(d, from, b)
  {
    Scale(Multiplier(from, b), c, d);
  }

  /** One past the last pixel of `fill`: the sum is stored in 16 bits before it is clipped. */
  function FillEnd(first: uint16, count: uint16, numLEDs: uint16): uint16 {
    if count == 0 then numLEDs
    else
      var end := (first + count) % 0x1_0000;
      if end > numLEDs then numLEDs else end
  }

  /** `fill` reaches the last requested pixel, or the end of the strip, exactly when the sum does not wrap. */
  lemma FillReach(first: uint16, count: uint16, numLEDs: uint16)
    requires first < numLEDs && 0 < count
    ensures FillEnd(first, count, numLEDs) == (if first + count < numLEDs then first + count else numLEDs)
       <==> first + count <= 0xFFFF
    ensures first + count > 0xFFFF ==> FillEnd(first, count, numLEDs) < first
  {
  }

  /** A count of 0 asks for the rest of the strip. */
  lemma FillRest(first: uint16, numLEDs: uint16)
    ensures FillEnd(first, 0, numLEDs) == numLEDs
  {
  }

  /** For example: 65535 pixels requested from the second one on fill nothing at all. */
  lemma FillWraps()
    ensures FillEnd(1, 65535, 10) == 0
  {
  }

  /** The byte count is kept in 16 bits: it covers every pixel exactly when the product does not wrap. */
  lemma BufferCoversStrip(numLEDs: uint16, bytesPerPixel: int)
    requires bytesPerPixel == 3 || bytesPerPixel == 4
    ensures (forall n: int :: 0 <= n < numLEDs ==>
            n * bytesPerPixel + bytesPerPixel <= numLEDs * bytesPerPixel % 0x1_0000)
       <==> numLEDs * bytesPerPixel <= 0xFFFF
  {
    if numLEDs * bytesPerPixel > 0xFFFF {
      var n := numLEDs - 1;
      assert n * bytesPerPixel + bytesPerPixel == numLEDs * bytesPerPixel;
    }
  }

  /** For example: the count of 21846 pixels of three bytes wraps to 2, less than one pixel. */
  lemma StripTooLong()
    ensures 21846 * 3 % 0x1_0000 == 2
    ensures !(forall n: int :: 0 <= n < 21846 ==> n * 3 + 3 <= 21846 * 3 % 0x1_0000)
  {
    BufferCoversStrip(21846, 3);
  }

  // ---- packed colours ----------------------------------------------------------------------

  /** `(w << 24) | (r << 16) | (g << 8) | b`: with components below 256 the shifted parts do not overlap,
      and the bitwise or is their sum. */
  function Pack(w: uint8, r: uint8, g: uint8, b: uint8): uint32 {
    ((w * 256 + r) * 256 + g) * 256 + b
  }

  /** The components of a packed colour, by shifts of eight bits. */
  function White(c: uint32): uint8 { c / 256 / 256 / 256 }
  function Red(c: uint32): uint8 { c / 256 / 256 % 256 }
  function Green(c: uint32): uint8 { c / 256 % 256 }
  function Blue(c: uint32): uint8 { c % 256 }

  lemma PackUnpacks(w: uint8, r: uint8, g: uint8, b: uint8)
    ensures var c := Pack(w, r, g, b); White(c) == w && Red(c) == r && Green(c) == g && Blue(c) == b
  {
    LastByte((w * 256 + r) * 256 + g, b);
    LastByte(w * 256 + r, g);
    LastByte(w, r);
  }

  /** The components are the digits of the packed colour to the base 256, white highest and blue lowest. */
  lemma PackedValue(c: uint32)
    ensures c == White(c) * 0x100_0000 + Red(c) * 0x1_0000 + Green(c) * 0x100 + Blue(c)
  {
  }

  lemma LastByte(x: int, d: uint8)
    requires 0 <= x
    ensures (x * 256 + d) / 256 == x && (x * 256 + d) % 256 == d
  {
  }

  /** Pixel n of a strip owns the bytes n * k .. n * k + k - 1. */
  lemma PixelInside(n: int, k: int, numLEDs: int)
    requires 0 <= n < numLEDs && 0 < k
    ensures 0 <= n * k && n * k + k <= numLEDs * k
  {
    Scale(k, n + 1, numLEDs);
    Scale(k, 0, n);
  }

  lemma PixelsApart(n: int, m: int, k: int)
    requires 0 < k && n != m
    ensures n * k + k <= m * k || m * k + k <= n * k
  {
    if n < m {
      Scale(k, n + 1, m);
    } else {
      Scale(k, m + 1, n);
    }
  }

  /** The k bytes of pixel n. */
  function Slice(bytes: seq<uint8>, n: int, k: int): seq<uint8> {
    if 0 <= n * k && 0 <= k && n * k + k <= |bytes| then bytes[n * k..n * k + k] else []
  }

  lemma SliceAt(bytes: seq<uint8>, n: int, k: int, numLEDs: int, limit: int)
    requires 0 <= n < numLEDs && 0 < k && |bytes| == numLEDs * k && forall i :: 0 <= i < |bytes| ==> bytes[i] <= limit
    ensures 0 <= n * k && n * k + k <= |bytes| && |Slice(bytes, n, k)| == k
    ensures forall o :: 0 <= o < k ==> Slice(bytes, n, k)[o] == bytes[n * k + o] <= limit
  {
    PixelInside(n, k, numLEDs);
  }

  /** Changing the bytes of one pixel leaves those of the others. */
  lemma SliceApart(was: seq<uint8>, now: seq<uint8>, n: int, k: int, m: int)
    requires |was| == |now| && 0 < k && m != n
    requires forall i :: 0 <= i < |was| && !(n * k <= i < n * k + k) ==> now[i] == was[i]
    ensures Slice(now, m, k) == Slice(was, m, k)
  {
    PixelsApart(n, m, k);
  }

  class Strip {
    var numLEDs: uint16
    var numBytes: uint16
    var brightness: uint8
    var pixels: array<uint8>
    var rOffset: int
    var gOffset: int
    var bOffset: int
    var wOffset: int

    /** The byte order of a pixel type: distinct offsets, white equal to red when there is no white. */
    ghost predicate OrderValid()
      reads this
    {
      && 0 <= rOffset < Bytes() && 0 <= gOffset < Bytes() && 0 <= bOffset < Bytes() && 0 <= wOffset < Bytes()
      && rOffset != gOffset && rOffset != bOffset && gOffset != bOffset && wOffset != gOffset && wOffset != bOffset
    }

    /** Bytes per pixel. */
    function Bytes(): int
      reads this
    {
      if wOffset == rOffset then 3 else 4
    }

    /** No stored byte exceeds the brightness level. */
    ghost predicate Valid()
      reads this, pixels
    {
      && OrderValid()
      && pixels.Length == numBytes == numLEDs * Bytes()
      && forall i :: 0 <= i < numBytes ==> pixels[i] <= Level(brightness)
    }

    /** The bytes of pixel n. */
    ghost function PixelBytes(n: int): (s: seq<uint8>)
      requires Valid() && 0 <= n < numLEDs
      reads this, pixels
      ensures |s| == Bytes() && forall k :: 0 <= k < |s| ==> s[k] <= Level(brightness)
    {
      SliceAt(pixels[..], n, Bytes(), numLEDs, Level(brightness));
      Slice(pixels[..], n, Bytes())
    }

    /** The bytes of a pixel are the scaled components. */
    ghost predicate Holds(s: seq<uint8>, r: uint8, g: uint8, b: uint8, w: uint8)
      requires OrderValid() && |s| == Bytes()
      reads this
    {
      && s[rOffset] == Scaled(r, brightness) && s[gOffset] == Scaled(g, brightness)
      && s[bOffset] == Scaled(b, brightness)
      && (wOffset != rOffset ==> s[wOffset] == Scaled(w, brightness))
    }

    ghost predicate Shows(n: int, r: uint8, g: uint8, b: uint8, w: uint8)
      requires Valid() && 0 <= n < numLEDs
      reads this, pixels
    {
      Holds(PixelBytes(n), r, g, b, w)
    }

    constructor ()
      ensures Valid() && numLEDs == 0 && Level(brightness) == 255
      ensures (rOffset, gOffset, bOffset, wOffset) == (1, 0, 2, 1)
      ensures fresh(pixels)
    {
      numLEDs, numBytes, brightness, pixels := 0, 0, 0, new uint8[0];
      rOffset, gOffset, bOffset, wOffset := 1, 0, 2, 1;
    }

    /** The byte count is kept in 16 bits: the strip is usable exactly when it does not wrap. */
    method UpdateLength(n: uint16)
      modifies this
      ensures numLEDs == n && numBytes == n * Bytes() % 0x1_0000 && pixels.Length == numBytes && fresh(pixels)
      ensures unchanged(`brightness, `rOffset, `gOffset, `bOffset, `wOffset)
      ensures forall i :: 0 <= i < numBytes ==> pixels[i] == 0
      ensures Valid() <==> OrderValid() && n * Bytes() <= 0xFFFF
    {
      numBytes := n * Bytes() % 0x1_0000;
      pixels := new uint8[numBytes](_ => 0);
      numLEDs := n;
    }

    /** A new byte order. Data survives, unchanged and not reordered, unless the pixel size changes. The strip
        stays usable exactly for a proper type whose byte count fits. */
    method UpdateType(t: uint16)
      requires Valid()
      modifies this
      ensures numLEDs == old(numLEDs) && brightness == old(brightness)
      ensures wOffset == t / 64 % 4 && rOffset == t / 16 % 4 && gOffset == t / 4 % 4 && bOffset == t % 4
      ensures if Bytes() == old(Bytes()) then pixels == old(pixels)
              else fresh(pixels) && forall i :: 0 <= i < pixels.Length ==> pixels[i] == 0
      ensures Valid() <==> TypeValid(t) && numLEDs * Bytes() <= 0xFFFF
    {
      var oldThreeBytesPerPixel := wOffset == rOffset;
      wOffset, rOffset, gOffset, bOffset := t / 64 % 4, t / 16 % 4, t / 4 % 4, t % 4;
      var newThreeBytesPerPixel := wOffset == rOffset;
      assert OrderValid() <==> TypeValid(t);
      if newThreeBytesPerPixel != oldThreeBytesPerPixel {
        UpdateLength(numLEDs);
      }
    }

    method StoreAt(p: int, r: uint8, g: uint8, b: uint8, w: uint8, ghost limit: int)
      requires OrderValid() && 0 <= p && p + Bytes() <= pixels.Length
      requires r <= limit && g <= limit && b <= limit && w <= limit
      requires forall i :: 0 <= i < pixels.Length ==> pixels[i] <= limit
      modifies pixels
      ensures pixels[p + rOffset] == r && pixels[p + gOffset] == g && pixels[p + bOffset] == b
      ensures wOffset != rOffset ==> pixels[p + wOffset] == w
      ensures forall i :: 0 <= i < pixels.Length && !(p <= i < p + Bytes()) ==> pixels[i] == old(pixels[i])
      ensures forall i :: 0 <= i < pixels.Length ==> pixels[i] <= limit
    {
      if wOffset != rOffset {
        pixels[p + wOffset] := w;
      }
      pixels[p + rOffset] := r;
      pixels[p + gOffset] := g;
      pixels[p + bOffset] := b;
    }

    /** The first byte of pixel n. */
    function Start(n: int): int
      reads this
    {
      n * Bytes()
    }

    /** `p = &pixels[n * 3]` or `&pixels[n * 4]` */
    method PixelStart(n: uint16) returns (p: int)
      requires Valid() && n < numLEDs
      ensures p == Start(n) && 0 <= p && p + Bytes() <= pixels.Length
      ensures forall o :: 0 <= o < Bytes() ==> PixelBytes(n)[o] == pixels[p + o]
    {
      hide Level, Slice;
      SliceAt(pixels[..], n, Bytes(), numLEDs, Level(brightness));
      p := n * (if wOffset == rOffset then 3 else 4);
    }

    lemma Sliced()
      requires Valid()
      ensures forall m :: 0 <= m < numLEDs ==> PixelBytes(m) == Slice(pixels[..], m, Bytes())
    {
      hide Level, Slice;
    }

    /** Other bytes than those of pixel n are as before. */
    lemma Rewritten(was: seq<uint8>, n: int, p: int)
      requires Valid() && 0 <= n < numLEDs && p == Start(n) && |was| == pixels.Length
      requires forall i :: 0 <= i < pixels.Length && !(p <= i < p + Bytes()) ==> pixels[i] == was[i]
      ensures 0 <= p && p + Bytes() <= pixels.Length
      ensures forall o :: 0 <= o < Bytes() ==> PixelBytes(n)[o] == pixels[p + o]
      ensures forall m :: 0 <= m < numLEDs && m != n ==> PixelBytes(m) == Slice(was, m, Bytes())
    {
      hide Level, Slice;
      SliceAt(pixels[..], n, Bytes(), numLEDs, Level(brightness));
      forall m | 0 <= m < numLEDs && m != n ensures PixelBytes(m) == Slice(was, m, Bytes()) {
        SliceApart(was, pixels[..], n, Bytes(), m);
      }
    }

    /** The bytes of pixel n, already scaled. */
    method StorePixel(n: uint16, r: uint8, g: uint8, b: uint8, w: uint8)
      requires Valid() && n < numLEDs
      requires r <= Level(brightness) && g <= Level(brightness) && b <= Level(brightness) && w <= Level(brightness)
      modifies pixels
      ensures Valid()
      ensures var s := PixelBytes(n);
              s[rOffset] == r && s[gOffset] == g && s[bOffset] == b && (wOffset != rOffset ==> s[wOffset] == w)
      ensures forall m :: 0 <= m < numLEDs && m != n ==> PixelBytes(m) == old(PixelBytes(m))
    {
      hide Level, Slice, Start, PixelBytes;
      ghost var was := pixels[..];
      Sliced();
      var p := PixelStart(n);
      StoreAt(p, r, g, b, w, Level(brightness));
      Rewritten(was, n, p);
    }

    /** The three setPixelColor overloads: red, green, blue and white each scaled and stored. */
    method SetPixelColorRGBW(n: uint16, r0: uint8, g0: uint8, b0: uint8, w0: uint8)
      requires Valid()
      modifies pixels
      ensures Valid()
      ensures n < numLEDs ==> Shows(n, r0, g0, b0, w0)
      ensures forall m :: 0 <= m < numLEDs && m != n ==> PixelBytes(m) == old(PixelBytes(m))
      ensures n >= numLEDs ==> pixels[..] == old(pixels[..])
    {
      hide Scaled, Level;
      if n < numLEDs {
        var r, g, b, w := r0, g0, b0, w0;
        if brightness != 0 {
          r, g, b, w := Scaled(r0, brightness), Scaled(g0, brightness), Scaled(b0, brightness), Scaled(w0, brightness);
        }
        Unscaled0(r0, brightness); Unscaled0(g0, brightness); Unscaled0(b0, brightness); Unscaled0(w0, brightness);
        StorePixel(n, r, g, b, w);
      }
    }

    method SetPixelColorRGB(n: uint16, r: uint8, g: uint8, b: uint8)
      requires Valid()
      modifies pixels
      ensures Valid()
      ensures n < numLEDs ==> Shows(n, r, g, b, 0)
      ensures forall m :: 0 <= m < numLEDs && m != n ==> PixelBytes(m) == old(PixelBytes(m))
      ensures n >= numLEDs ==> pixels[..] == old(pixels[..])
    {
      SetPixelColorRGBW(n, r, g, b, 0);
    }

    method SetPixelColor(n: uint16, c: uint32)
      requires Valid()
      modifies pixels
      ensures Valid()
      ensures n < numLEDs ==> Shows(n, Red(c), Green(c), Blue(c), White(c))
      ensures forall m :: 0 <= m < numLEDs && m != n ==> PixelBytes(m) == old(PixelBytes(m))
      ensures n >= numLEDs ==> pixels[..] == old(pixels[..])
    {
      SetPixelColorRGBW(n, Red(c), Green(c), Blue(c), White(c));
    }

    method Fill(c: uint32, first: uint16, count: uint16)
      requires Valid()
      modifies pixels
      ensures Valid()
      ensures forall n :: first <= n < FillEnd(first, count, numLEDs) ==> Shows(n, Red(c), Green(c), Blue(c), White(c))
      ensures forall n :: 0 <= n < numLEDs && !(first <= n < FillEnd(first, count, numLEDs)) ==>
                PixelBytes(n) == old(PixelBytes(n))
    {
      hide Scaled, Level, Red, Green, Blue, White, Holds, PixelBytes;
      if first >= numLEDs {
        return;
      }
      var end: uint16;
      if count == 0 {
        end := numLEDs;
      } else {
        end := (first + count) % 0x1_0000;
        if end > numLEDs {
          end := numLEDs;
        }
      }
      var i := first;
      while i < end
        invariant first <= i && (i <= end || i == first) && Valid() && unchanged(this)
        invariant forall n :: first <= n < i ==> Shows(n, Red(c), Green(c), Blue(c), White(c))
        invariant forall n :: 0 <= n < numLEDs && !(first <= n < i) ==> PixelBytes(n) == old(PixelBytes(n))
      {
        label Before:
        SetPixelColor(i, c);
        forall m | first <= m < i ensures Shows(m, Red(c), Green(c), Blue(c), White(c)) {
          assert old@Before(Shows(m, Red(c), Green(c), Blue(c), White(c)));
          assert PixelBytes(m) == old@Before(PixelBytes(m));
        }
        i := i + 1;
      }
    }

    method Clear()
      requires Valid()
      modifies pixels
      ensures Valid() && forall i :: 0 <= i < numBytes ==> pixels[i] == 0
    {
      for i := 0 to numBytes
        invariant Valid() && forall j :: 0 <= j < i ==> pixels[j] == 0
      {
        pixels[i] := 0;
      }
    }

    /** Every stored byte is rescaled to the new level; setting the same level again changes nothing. */
    method SetBrightness(b: uint8)
      requires Valid()
      modifies this`brightness, pixels
      ensures Valid() && GetBrightness() == b
      ensures if b == old(GetBrightness()) then pixels[..] == old(pixels[..])
              else forall i :: 0 <= i < numBytes ==> pixels[i] == Rescaled(old(pixels[i]), old(GetBrightness()), b)
    {
      hide Multiplier, Rescaled, Level;
      LevelOf(b, brightness);
      var newBrightness: uint8 := (b + 1) % 256;
      if newBrightness != brightness {
        var oldBrightness: uint8 := (brightness + 255) % 256;
        var scale := Multiplier(oldBrightness, b);
        ghost var was := pixels[..];
        for i := 0 to numBytes
          invariant forall j :: 0 <= j < i ==> pixels[j] == Rescaled(was[j], oldBrightness, b) <= b
          invariant forall j :: i <= j < numBytes ==> pixels[j] == was[j]
        {
          pixels[i] := RescaleByte(pixels[i], oldBrightness, b, scale);
        }
        brightness := newBrightness;
      }
    }

    function GetBrightness(): uint8
      reads this
    {
      Level(brightness)
    }

    /** Each component is read back on its own: none carries into its neighbour. */
    method GetPixelColor(n: uint16) returns (c: uint32)
      requires Valid()
      ensures n >= numLEDs ==> c == 0
      ensures n < numLEDs ==>
                c == Pack(if wOffset == rOffset then 0 else Unscaled(PixelBytes(n)[wOffset], brightness),
                          Unscaled(PixelBytes(n)[rOffset], brightness), Unscaled(PixelBytes(n)[gOffset], brightness),
                          Unscaled(PixelBytes(n)[bOffset], brightness))
    {
      if n >= numLEDs {
        return 0;
      }
      hide Unscaled, Level, PixelBytes, Pack, Slice;
      var r, g, b, w := Channels(n);
      c := Pack(if wOffset == rOffset then 0 else Unscaled(w, brightness),
                Unscaled(r, brightness), Unscaled(g, brightness), Unscaled(b, brightness));
    }

    /** The stored components of a pixel. */
    method Channels(n: uint16) returns (r: uint8, g: uint8, b: uint8, w: uint8)
      requires Valid() && n < numLEDs
      ensures var s := PixelBytes(n); r == s[rOffset] && g == s[gOffset] && b == s[bOffset] && w == s[wOffset]
    {
      hide Level, PixelBytes, Slice;
      var p := PixelStart(n);
      r, g, b, w := pixels[p + rOffset], pixels[p + gOffset], pixels[p + bOffset], pixels[p + wOffset];
    }
  }

  /** A pixel type whose offsets are distinct and inside the pixel. */
  predicate TypeValid(t: uint16) {
    var w, r, g, b, k := t / 64 % 4, t / 16 % 4, t / 4 % 4, t % 4, TypeBytes(t);
    w < k && r < k && g < k && b < k && r != g && r != b && g != b && w != g && w != b
  }

  function TypeBytes(t: uint16): int {
    if t / 64 % 4 == t / 16 % 4 then 3 else 4
  }

  /** The types for strips without and with white, green sent first: three and four bytes. */
  lemma NamedTypes()
    ensures TypeValid(82) && TypeBytes(82) == 3 && TypeValid(210) && TypeBytes(210) == 4
  {
  }

  /** Write a pixel and read it back: each component loses less than 256 / brightness + 1, whatever the type of
      the strip, and nothing at full brightness. */
  method WriteThenRead(s: Strip, n: uint16, r: uint8, g: uint8, b: uint8) returns (c: uint32)
    requires s.Valid() && n < s.numLEDs
    modifies s.pixels
    ensures s.Valid() && White(c) == 0
    ensures ReadAs(r, Red(c), s.brightness) && ReadAs(g, Green(c), s.brightness) && ReadAs(b, Blue(c), s.brightness)
  {
    hide Scaled, Unscaled, Level, Pack, Red, Green, Blue, White, ReadAs;
    s.SetPixelColorRGB(n, r, g, b);
    c := s.GetPixelColor(n);
    ReadBack(r, s.brightness);
    ReadBack(g, s.brightness);
    ReadBack(b, s.brightness);
    NoWhite(s.brightness);
    PackUnpacks(0, Unscaled(Scaled(r, s.brightness), s.brightness), Unscaled(Scaled(g, s.brightness), s.brightness),
                Unscaled(Scaled(b, s.brightness), s.brightness));
  }

  lemma NoWhite(brightness: uint8)
    ensures Unscaled(Scaled(0, brightness), brightness) == 0
  {
  }
}
