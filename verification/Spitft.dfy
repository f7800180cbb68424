/** The SPI colour display: clipping, address windows and the DMA fill cache. */
module Spitft {
  import opened Bytes
  import opened Panel

  /** The display expects the high byte first, memory holds the low byte first. */
  function Swap(v: uint16): uint16 {
    v % 256 * 256 + v / 256
  }

  /** The two bytes of a colour change places. */
  lemma SwapBoth(hi: uint8, lo: uint8)
    ensures Swap(hi * 256 + lo) == lo * 256 + hi
  {
  }

  lemma SwapTwice(v: uint16)
    ensures Swap(Swap(v)) == v
  {
  }

  function Swapped(vs: seq<uint16>): (r: seq<uint16>)
    ensures |r| == |vs|
  {
    seq(|vs|, i requires 0 <= i < |vs| => Swap(vs[i]))
  }

  /** Pixels swapped into a buffer go out as they were. */
  lemma SwappedBack(buf: seq<uint16>, dest: int, colors: seq<uint16>, from: int, count: int)
    requires 0 <= dest && 0 <= from && 0 <= count && dest + count <= |buf| && from + count <= |colors|
    requires forall i :: dest <= i < dest + count ==> buf[i] == Swap(colors[from + (i - dest)])
    ensures Swapped(buf[dest..dest + count]) == colors[from..from + count]
  {
    hide Swap;
    var s, t := Swapped(buf[dest..dest + count]), colors[from..from + count];
    forall i | 0 <= i < count ensures s[i] == t[i] {
      assert buf[dest + i] == Swap(colors[from + (dest + i - dest)]);
      SwapTwice(t[i]);
    }
  }

  /** A DMA descriptor: `bytes` bytes from pixel `start` of its source, or (without address increment) that many
      copies of the one-byte buffer; `more` says that another descriptor follows. */
  datatype Descriptor = Descriptor(srcInc: bool, start: int, bytes: uint16, more: bool)

  /** The pixels the display receives for one descriptor. */
  function Sent(d: Descriptor, buf: seq<uint16>, one: uint8): seq<uint16> {
    if !d.srcInc then Repeat(one * 256 + one, d.bytes / 2)
    else if 0 <= d.start && d.start + d.bytes / 2 <= |buf| then Swapped(buf[d.start..d.start + d.bytes / 2])
    else []
  }

  function SentAll(ds: seq<Descriptor>, buf: seq<uint16>, one: uint8): seq<uint16> {
    if ds == [] then [] else SentAll(ds[..|ds| - 1], buf, one) + Sent(ds[|ds| - 1], buf, one)
  }

  lemma SentOne(ds: seq<Descriptor>, d: Descriptor, buf: seq<uint16>, one: uint8)
    ensures SentAll(ds + [d], buf, one) == SentAll(ds, buf, one) + Sent(d, buf, one)
  {
    assert (ds + [d])[..|ds|] == ds;
  }

  lemma NothingSent(buf: seq<uint16>, one: uint8, color: uint16)
    ensures SentAll([], buf, one) == Repeat(color, 0)
  {
  }

  /** A descriptor of this kind can send `count` pixels of the colour. */
  ghost predicate Supplies(buf: seq<uint16>, one: uint8, srcInc: bool, count: int, color: uint16) {
    if srcInc then 0 <= count <= |buf| && forall i :: 0 <= i < count ==> buf[i] == Swap(color)
    else color == one * 256 + one
  }

  lemma SupplyLess(buf: seq<uint16>, one: uint8, srcInc: bool, count: int, fewer: int, color: uint16)
    requires Supplies(buf, one, srcInc, count, color) && 0 <= fewer <= count
    ensures Supplies(buf, one, srcInc, fewer, color)
  {
  }

  lemma SentColour(d: Descriptor, buf: seq<uint16>, one: uint8, count: int, color: uint16)
    requires 0 <= count && d.start == 0 && d.bytes == 2 * count && Supplies(buf, one, d.srcInc, count, color)
    ensures Sent(d, buf, one) == Repeat(color, count)
  {
    hide Swap;
    SwapTwice(color);
  }

  lemma NothingSwapped(buf: seq<uint16>, from: int, one: uint8)
    requires 0 <= from <= |buf|
    ensures SentAll([], buf, one) == Swapped(buf[from..from])
  {
  }

  /** A descriptor that points into a bitmap continues what the ones before have sent of it. */
  lemma SentPixels(d: Descriptor, buf: seq<uint16>, one: uint8, from: int, at: int, count: int)
    requires 0 <= from <= at && 0 <= count && at + count <= |buf| && d.srcInc && d.start == at && d.bytes == 2 * count
    ensures Swapped(buf[from..at]) + Sent(d, buf, one) == Swapped(buf[from..at + count])
  {
    hide Swap;
  }

  /** The number of descriptors is the length divided by the chunk size, rounded up. */
  predicate ChunksLeft(len: int, chunk: int, n: int) {
    0 <= n && (n - 1) * chunk < len <= n * chunk
  }

  lemma RoundUp(len: int, chunk: int, limit: int, rows: int)
    requires 0 < chunk && 0 < len <= limit && limit <= rows * chunk
    ensures ChunksLeft(len, chunk, (len + chunk - 1) / chunk) && 0 < (len + chunk - 1) / chunk <= rows
  {
    var n := (len + chunk - 1) / chunk;
    assert len + chunk - 1 == n * chunk + (len + chunk - 1) % chunk;
    Scale(chunk, 0, 0);
    if n <= 0 {
      Scale(chunk, n, 0);
    }
    Scale(chunk, n, n);
    if n > rows {
      Scale(chunk, rows + 1, n);
      Scale(chunk, rows + 1, rows + 1);
    }
  }

  lemma StartChain(len: uint32, chunk: int, descriptors: int)
    requires 0 < chunk <= 32767 && 0 < len && 0 < DescriptorCount(len, chunk) <= descriptors
    ensures ChunksLeft(len, chunk, DescriptorCount(len, chunk))
  {
    CountWraps(len, chunk);
    RoundedUp(len, chunk, descriptors);
    RoundUp(len, chunk, len, descriptors);
  }

  lemma NextChunk(len: int, chunk: int, n: int)
    requires 0 < chunk && 0 < n && ChunksLeft(len, chunk, n)
    ensures 0 < len && (len > chunk ==> n > 1 && ChunksLeft(len - chunk, chunk, n - 1)) && (len <= chunk ==> n == 1)
  {
    Scale(chunk, 0, n - 1);
    Scale(chunk, n - 1, n - 1);
    Scale(chunk, n, n);
    if n > 1 {
      Scale(chunk, 1, n - 1);
    }
  }

  /** The buffer holds two scanlines, each rounded up to an even number of pixels. */
  predicate TwoScanlines(maxFillLen: int) {
    maxFillLen % 4 == 0
  }

  /** Pairs of pixels that cover `count` pixels. */
  function Pairs(count: int): int {
    (count + 1) / 2
  }

  lemma PairsFit(count: int, maxFillLen: int)
    requires 0 <= count <= maxFillLen && TwoScanlines(maxFillLen)
    ensures 0 <= Pairs(count) && count <= 2 * Pairs(count) <= maxFillLen
  {
    var q := maxFillLen / 4;
    assert maxFillLen == 4 * q;
    var t := Pairs(count) - 2 * q;
    assert 2 * t <= 1;
    assert t <= 0;
  }

  /** How many pixels one descriptor sends: with equal bytes the single byte repeats, else the fill buffer limits it. */
  function ChunkOf(color: uint16, maxFillLen: int): int {
    if color / 256 == color % 256 then 32767 else maxFillLen
  }

  /** The number of descriptors filled in for a run: rounded up, but the sum is taken in 32 bits. */
  function DescriptorCount(len: uint32, chunk: int): int
    requires 0 < chunk
  {
    (len + chunk - 1) % 0x1_0000_0000 / chunk
  }

  lemma RoundedUp(len: int, chunk: int, n: int)
    requires 0 < chunk && 0 <= len && 0 <= n
    ensures (len + chunk - 1) / chunk <= n <==> len <= n * chunk
  {
    var m := (len + chunk - 1) / chunk;
    assert len + chunk - 1 == m * chunk + (len + chunk - 1) % chunk;
    if m <= n {
      Scale(chunk, m, n);
    } else {
      Scale(chunk, n + 1, m);
      Scale(chunk, n + 1, n + 1);
    }
  }

  /** A sum that wraps leaves no descriptor at all. */
  lemma CountWraps(len: uint32, chunk: int)
    requires 0 < chunk <= 32767 && 0 < len
    ensures if len + chunk - 1 <= 0xFFFF_FFFF
            then DescriptorCount(len, chunk) == (len + chunk - 1) / chunk > 0
            else DescriptorCount(len, chunk) == 0
  {
    var sum := len + chunk - 1;
    if sum <= 0xFFFF_FFFF {
      RoundedUp(len, chunk, 0);
    } else {
      var rest := sum % 0x1_0000_0000;
      assert rest == sum - 0x1_0000_0000 && 0 <= rest < chunk;
      RoundedUp(0, chunk, 0);
      Below(rest, chunk);
    }
  }

  lemma Below(v: int, d: int)
    requires 0 <= v < d
    ensures v / d == 0
  {
  }

  /** The descriptors filled in stay within the list, and there is one to end the chain at, exactly when the
      list can send the run. */
  lemma DescriptorsNeeded(len: uint32, chunk: int, descriptors: int)
    requires 0 < len && 0 < chunk <= 32767 && 0 <= descriptors && descriptors * chunk + chunk <= 0x1_0000_0000
    ensures 0 < DescriptorCount(len, chunk) <= descriptors <==> len <= descriptors * chunk
  {
    CountWraps(len, chunk);
    RoundedUp(len, chunk, descriptors);
  }

  /** For example, one pixel more than a 240 by 320 screen needs one descriptor more than its list has, and the
      longest run of all gets none. */
  lemma RunTooLong()
    ensures var n := (240 * 320 + (640 - 1)) / 640;
            n == 120 && DescriptorCount(240 * 320, 640) == n && DescriptorCount(240 * 320 + 1, 640) == n + 1
    ensures DescriptorCount(0xFFFF_FFFF, 32767) == 0
  {
  }

  /** The run can be sent: short runs without descriptors, others when the descriptors filled in are within the list. */
  predicate Room(color: uint16, len: uint32, descriptors: int, maxFillLen: int) {
    var chunk := ChunkOf(color, maxFillLen);
    len < 16 || (0 < chunk && 0 < DescriptorCount(len, chunk) <= descriptors)
  }

  /** A descriptor that sends the whole fill buffer has a 16-bit byte count exactly when no side of the screen
      exceeds 16382. */
  lemma FullBufferFits(side: int)
    requires 1 <= side <= 0x7FFF
    ensures var major := side + side % 2; 2 * (2 * major) <= 0xFFFF <==> side <= 16382
  {
  }

  /** Enough descriptors for the whole screen, each sending the whole fill buffer. */
  predicate Capacity(width: int, height: int, descriptors: int, maxFillLen: int) {
    width * height <= descriptors * maxFillLen
  }

  lemma Halves(major: int)
    requires major % 2 == 0
    ensures TwoScanlines(major * 2)
  {
  }

  lemma BufferLists(area: int, maxFillLen: int, width: int, height: int)
    requires 0 < area == width * height && 0 < maxFillLen
    ensures 0 <= (area + (maxFillLen - 1)) / maxFillLen
    ensures Capacity(width, height, (area + (maxFillLen - 1)) / maxFillLen, maxFillLen)
  {
    Scale(area, 1, maxFillLen);
    Commute(area, maxFillLen);
    RoundUp(area, maxFillLen, area, area);
  }

  class Tft {
    const width: int
    const height: int
    const maxFillLen: int
    const pixelBuf: array<uint16>
    const descriptor: array<Descriptor>
    var onePixelBuf: uint8
    var lastFillColor: uint16
    var lastFillLen: uint32
    var panel: Panel
    // the DMA transfer in flight: it may read its part of pixelBuf until it is waited for
    var dmaBusy: bool
    var dmaStart: int
    var dmaCount: int

    ghost predicate Shape()
      reads this
    {
      && 1 <= width <= 0x7FFF && 1 <= height <= 0x7FFF
      && 2 <= maxFillLen <= 32767 && TwoScanlines(maxFillLen) && pixelBuf.Length == maxFillLen
      && Capacity(width, height, descriptor.Length, maxFillLen)
    }

    /** The first lastFillLen pixels of the fill buffer hold the last colour, and no transfer is in flight. */
    ghost predicate Valid()
      reads this, pixelBuf
    {
      && Shape() && !dmaBusy && lastFillLen <= maxFillLen
      && forall i :: 0 <= i < lastFillLen ==> pixelBuf[i] == Swap(lastFillColor)
    }

    /** The buffer sizes chosen by initSPI: two scanlines of the longer side, and enough descriptors to send the
        whole screen from them. The result is usable exactly when a full buffer fits a descriptor. */
    constructor (w: int16, h: int16, screen: Raster)
      requires 1 <= w <= 32766 && 1 <= h <= 32766
      ensures Valid() <==> w <= 16382 && h <= 16382
      ensures var major := if w > h then w else h; pixelBuf.Length == 2 * (major + major % 2)
      ensures descriptor.Length == (w * h + (pixelBuf.Length - 1)) / pixelBuf.Length
      ensures width == w && height == h && panel.screen == screen && fresh(pixelBuf) && fresh(descriptor)
    {
      hide Capacity, TwoScanlines;
      var major := if w > h then w else h;
      major := major + major % 2;
      Halves(major);
      AreaFits(w, h, w, h);
      BufferLists(w * h, major * 2, w, h);
      width, height, maxFillLen := w, h, major * 2;
      pixelBuf := new uint16[major * 2](_ => 0);
      descriptor := new Descriptor[(w * h + (major * 2 - 1)) / (major * 2)](_ => Descriptor(false, 0, 0, false));
      onePixelBuf, lastFillColor, lastFillLen, panel := 0, 0, 0, Panel(screen, 0, w, 0, 0);
      dmaBusy, dmaStart, dmaCount := false, 0, 0;
    }

    /** The pixels of the transfer in flight, as its part of the buffer stands now. */
    function InFlight(): seq<uint16>
      reads this, pixelBuf
    {
      if dmaBusy && 0 <= dmaStart && 0 <= dmaCount && dmaStart + dmaCount <= pixelBuf.Length
      then Swapped(pixelBuf[dmaStart..dmaStart + dmaCount]) else []
    }

    method SetAddrWindow(x: int16, y: int16, w: int16, h: int16)
      requires 0 <= x && 0 < w && x + w <= width && 0 <= y && 0 < h && y + h <= height
      modifies this`panel
      ensures panel == Window(old(panel), x, y, w)
    {
      panel := Window(panel, x, y, w);
    }

    method SpiWrite16(color: uint16)
      modifies this`panel
      ensures panel == Push(old(panel), color)
    {
      panel := Push(panel, color);
    }

    // ---- the fill cache --------------------------------------------------------------------

    /** `pixelPtr[i] = twoPixels` for pairs from..to-1, which are the pixels lo..hi-1. */
    method FillPairs(from: int, to: int, color: uint16, ghost lo: int, ghost hi: int)
      requires 0 <= from && 2 * to <= pixelBuf.Length && lo == 2 * from && hi == 2 * to
      modifies pixelBuf
      ensures forall i :: lo <= i < hi ==> pixelBuf[i] == Swap(color)
      ensures forall i :: 0 <= i < lo && i < pixelBuf.Length ==> pixelBuf[i] == old(pixelBuf[i])
    {
      hide Swap;
      var i := from;
      while i < to
        invariant from <= i && (i <= to || i == from)
        invariant forall j :: 2 * from <= j < 2 * i ==> pixelBuf[j] == Swap(color)
        invariant forall j :: 0 <= j < 2 * from && j < pixelBuf.Length ==> pixelBuf[j] == old(pixelBuf[j])
      {
        pixelBuf[2 * i] := Swap(color);
        pixelBuf[2 * i + 1] := Swap(color);
        i := i + 1;
      }
    }

    /** Make the buffer hold the colour for as many pixels as one descriptor can send, reusing what the
        last fill left there. */
    method ExtendFill(color: uint16, len: uint32)
      requires Valid() && 0 < len
      modifies this`lastFillColor, this`lastFillLen, pixelBuf
      ensures Valid() && lastFillColor == color && (if len < maxFillLen then len else maxFillLen) <= lastFillLen
    {
      hide Swap, Capacity, TwoScanlines, Pairs;
      var count := if len < maxFillLen then len else maxFillLen;
      var fillEnd := Pairs(count);
      PairsFit(count, maxFillLen);
      if color == lastFillColor {
        if len > lastFillLen {
          var fillStart := lastFillLen / 2;
          FillPairs(fillStart, fillEnd, color, 2 * fillStart, 2 * fillEnd);
          lastFillLen := fillEnd * 2;
        }
      } else {
        FillPairs(0, fillEnd, color, 0, 2 * fillEnd);
        lastFillLen := fillEnd * 2;
        lastFillColor := color;
      }
    }

    method AddDescriptor(d: int, srcInc: bool, count: int, color: uint16, ghost done: int, ghost limit: int)
      requires 0 <= d < descriptor.Length && 0 < count <= 32767 && 0 <= done && done + count == limit
      requires Supplies(pixelBuf[..], onePixelBuf, srcInc, count, color)
      requires SentAll(descriptor[..d], pixelBuf[..], onePixelBuf) == Repeat(color, done)
      modifies descriptor
      ensures descriptor[..d] == old(descriptor[..d]) && descriptor[d].more
      ensures SentAll(descriptor[..d + 1], pixelBuf[..], onePixelBuf) == Repeat(color, limit)
    {
      hide Supplies, Sent, SentAll;
      ghost var ds := descriptor[..d];
      descriptor[d] := Descriptor(srcInc, 0, count * 2, true);
      assert descriptor[..d + 1] == ds + [descriptor[d]];
      SentOne(ds, descriptor[d], pixelBuf[..], onePixelBuf);
      SentColour(descriptor[d], pixelBuf[..], onePixelBuf, count, color);
      assert Repeat(color, done) + Repeat(color, count) == Repeat(color, limit);
    }

    /** `descriptor[d - 1].DESCADDR = 0` ends the chain; what is sent stays the same. */
    method EndChain(n: int, ghost buf: seq<uint16>)
      requires 0 < n <= descriptor.Length && forall i :: 0 <= i < n ==> descriptor[i].more
      modifies descriptor
      ensures forall i :: 0 <= i < n ==> (descriptor[i].more <==> i < n - 1)
      ensures SentAll(descriptor[..n], buf, onePixelBuf) == old(SentAll(descriptor[..n], buf, onePixelBuf))
    {
      hide SentAll;
      ghost var front, last := descriptor[..n - 1], descriptor[n - 1];
      assert descriptor[..n] == front + [last];
      SentOne(front, last, buf, onePixelBuf);
      descriptor[n - 1] := descriptor[n - 1].(more := false);
      assert descriptor[..n] == front + [last.(more := false)];
      SentOne(front, last.(more := false), buf, onePixelBuf);
    }

    lemma CacheSupplies(count: int)
      requires Valid() && 0 <= count <= lastFillLen
      ensures Supplies(pixelBuf[..], onePixelBuf, true, count, lastFillColor)
    {
    }

    /** The loops that chain descriptors of at most `chunk` pixels each. */
    method Chain(len0: uint32, chunk: int, srcInc: bool, color: uint16) returns (n: int)
      requires Shape() && 0 < chunk <= 32767 && 0 < len0 && 0 < DescriptorCount(len0, chunk) <= descriptor.Length
      requires Supplies(pixelBuf[..], onePixelBuf, srcInc, if len0 < chunk then len0 else chunk, color)
      modifies descriptor
      ensures 0 < n <= descriptor.Length
      ensures forall i :: 0 <= i < n ==> (descriptor[i].more <==> i < n - 1)
      ensures SentAll(descriptor[..n], pixelBuf[..], onePixelBuf) == Repeat(color, len0)
    {
      hide ChunksLeft, SentAll, Supplies, DescriptorCount;
      var len: int := len0;
      StartChain(len0, chunk, descriptor.Length);
      n := DescriptorCount(len0, chunk);
      var d := 0;
      NothingSent(pixelBuf[..], onePixelBuf, color);
      assert descriptor[..0] == [];
      while d < n
        invariant 0 <= d <= n && 0 <= len <= len0
        invariant if d < n then ChunksLeft(len, chunk, n - d) else len == 0
        invariant forall i :: 0 <= i < d ==> descriptor[i].more
        invariant SentAll(descriptor[..d], pixelBuf[..], onePixelBuf) == Repeat(color, len0 - len)
      {
        NextChunk(len, chunk, n - d);
        var count := if len < chunk then len else chunk;
        SupplyLess(pixelBuf[..], onePixelBuf, srcInc, if len0 < chunk then len0 else chunk, count, color);
        ghost var before := descriptor[..d];
        AddDescriptor(d, srcInc, count, color, len0 - len, len0 - len + count);
        assert forall i :: 0 <= i < d ==> descriptor[i] == before[i];
        len := len - count;
        d := d + 1;
      }
      EndChain(n, pixelBuf[..]);
    }

    /** The DMA engine: it follows the chain from the first descriptor, reading from the source. */
    method Transfer(src: array<uint16>, ghost n: int)
      requires 0 < n <= descriptor.Length && forall i :: 0 <= i < n ==> (descriptor[i].more <==> i < n - 1)
      modifies this`panel
      ensures panel == PushAll(old(panel), SentAll(descriptor[..n], src[..], onePixelBuf))
    {
      hide Sent, SentAll, PushAll;
      NoPixels(panel);
      NothingSent(src[..], onePixelBuf, 0);
      assert descriptor[..0] == [] && Repeat(0, 0) == [];
      var i := 0;
      var more := true;
      while more
        invariant 0 <= i <= n && (more <==> i < n)
        invariant panel == PushAll(old(panel), SentAll(descriptor[..i], src[..], onePixelBuf))
        decreases n - i
      {
        assert descriptor[..i + 1] == descriptor[..i] + [descriptor[i]];
        ghost var next := Sent(descriptor[i], src[..], onePixelBuf);
        SentOne(descriptor[..i], descriptor[i], src[..], onePixelBuf);
        PushConcat(old(panel), SentAll(descriptor[..i], src[..], onePixelBuf), next);
        panel := PushAll(panel, Sent(descriptor[i], src[..], onePixelBuf));
        more := descriptor[i].more;
        i := i + 1;
      }
    }

    /** writeColor: whatever the cache holds, the display receives exactly len copies of the colour. */
    method WriteColor(color: uint16, len: uint32)
      requires Valid() && Room(color, len, descriptor.Length, maxFillLen)
      modifies this`panel, this`onePixelBuf, this`lastFillColor, this`lastFillLen, pixelBuf, descriptor
      ensures Valid() && panel == PushAll(old(panel), Repeat(color, len))
    {
      if len == 0 {
        return;
      }
      if len >= 16 {
        WriteColorDma(color, len);
      } else {
        WriteShort(color, len);
      }
    }

    method WriteColorDma(color: uint16, len: uint32)
      requires Valid() && 16 <= len && Room(color, len, descriptor.Length, maxFillLen)
      modifies this`panel, this`onePixelBuf, this`lastFillColor, this`lastFillLen, pixelBuf, descriptor
      ensures Valid() && panel == PushAll(old(panel), Repeat(color, len))
    {
      hide SentAll, Swap, PushAll, DescriptorCount;
      var hi, lo := color / 256, color % 256;
      var n;
      if hi == lo {
        onePixelBuf := lo;
        assert Supplies(pixelBuf[..], onePixelBuf, false, if len < 32767 then len else 32767, color);
        n := Chain(len, 32767, false, color);
      } else {
        ExtendFill(color, len);
        CacheSupplies(if len < maxFillLen then len else maxFillLen);
        n := Chain(len, maxFillLen, true, color);
      }
      Transfer(pixelBuf, n);
    }

    /** Short runs go out pixel by pixel, high byte first. */
    method WriteShort(color: uint16, len: uint32)
      modifies this`panel
      ensures panel == PushAll(old(panel), Repeat(color, len))
    {
      var hi, lo := color / 256, color % 256;
      for i := 0 to len
        invariant panel == PushAll(old(panel), Repeat(color, i))
      {
        assert Repeat(color, i + 1)[..i] == Repeat(color, i);
        SpiWrite16(hi * 256 + lo);
      }
    }

    // ---- streaming pixels ------------------------------------------------------------------

    /** `while (dma_busy);` — the engine has read its part of the buffer by then. */
    method DmaWait()
      modifies this`panel, this`dmaBusy
      ensures !dmaBusy && panel == PushAll(old(panel), old(InFlight()))
    {
      panel := PushAll(panel, InFlight());
      dmaBusy := false;
    }

    /** swapBytes from the bitmap into one half of the buffer. */
    method SwapBytes(colors: array<uint16>, from: int, count: int, dest: int)
      requires Shape() && 0 <= from && 0 <= count && from + count <= colors.Length && colors != pixelBuf
      requires 0 <= dest && dest + count <= maxFillLen
      modifies pixelBuf
      ensures forall i :: dest <= i < dest + count ==> pixelBuf[i] == Swap(colors[from + (i - dest)])
      ensures forall i :: 0 <= i < maxFillLen && !(dest <= i < dest + count) ==> pixelBuf[i] == old(pixelBuf[i])
    {
      hide Swap;
      for i := 0 to count
        invariant forall j :: dest <= j < dest + i ==> pixelBuf[j] == Swap(colors[from + (j - dest)])
        invariant forall j :: 0 <= j < maxFillLen && !(dest <= j < dest + i) ==> pixelBuf[j] == old(pixelBuf[j])
      {
        pixelBuf[dest + i] := Swap(colors[from + i]);
      }
    }

    /** The start of one half of the buffer. */
    function Half(idx: int): int {
      if idx == 0 then 0 else maxFillLen / 2
    }

    /** One turn of writePixels: fill one half of the buffer while the other one may still be in flight,
        wait, and start the new transfer. */
    method SendSpan(colors: array<uint16>, from: int, count: int, idx: int, ghost base: Panel, ghost start: int)
      requires Shape() && 0 <= start <= from && 0 < count <= maxFillLen / 2 && from + count <= colors.Length
               && colors != pixelBuf
      requires 0 <= idx <= 1 && (dmaBusy ==> dmaStart == Half(1 - idx) && 0 <= dmaCount <= maxFillLen / 2)
      requires PushAll(panel, InFlight()) == PushAll(base, colors[start..from])
      modifies this`panel, this`dmaBusy, this`dmaStart, this`dmaCount, pixelBuf
      ensures dmaBusy && dmaStart == Half(idx) && dmaCount == count
      ensures PushAll(panel, InFlight()) == PushAll(base, colors[start..from + count])
    {
      hide Swap, PushAll, TwoScanlines, Capacity;
      ghost var flying := InFlight();
      SwapBytes(colors, from, count, Half(idx));
      assert InFlight() == flying;
      DmaWait();
      dmaBusy, dmaStart, dmaCount := true, Half(idx), count;
      SwappedBack(pixelBuf[..], Half(idx), colors[..], from, count);
      assert colors[start..from] + colors[from..from + count] == colors[start..from + count];
      PushConcat(base, colors[start..from], colors[from..from + count]);
    }

    /** Between a non-blocking writePixels and the wait for it: all of Valid but the finished transfer. */
    ghost predicate Waiting()
      reads this, pixelBuf
    {
      Shape() && lastFillLen <= maxFillLen && forall i :: 0 <= i < lastFillLen ==> pixelBuf[i] == Swap(lastFillColor)
    }

    /** writePixels: the display receives the pixels in order, the last of them when the transfer in flight has
        ended, and the fill cache is forgotten. */
    method WritePixels(colors: array<uint16>, from: int, len: int, block: bool)
      requires Valid() && 0 <= from && 0 <= len && from + len <= colors.Length && colors != pixelBuf
      modifies this`panel, this`dmaBusy, this`dmaStart, this`dmaCount, this`lastFillColor, this`lastFillLen, pixelBuf
      ensures Waiting() && PushAll(panel, InFlight()) == PushAll(old(panel), colors[from..from + len])
      ensures block ==> Valid() && panel == PushAll(old(panel), colors[from..from + len])
    {
      hide Swap, PushAll, TwoScanlines, Capacity;
      NoPixels(panel);
      if len == 0 {
        return;
      }
      var maxSpan := maxFillLen / 2;
      var idx, at, end := 0, from, from + len;
      assert InFlight() == [] == colors[from..at];
      while at < end
        invariant from <= at <= end && 0 <= idx <= 1 && Shape()
        invariant dmaBusy ==> dmaStart == Half(1 - idx) && 0 <= dmaCount <= maxSpan
        invariant PushAll(panel, InFlight()) == PushAll(old(panel), colors[from..at])
      {
        var count := if end - at < maxSpan then end - at else maxSpan;
        SendSpan(colors, at, count, idx, old(panel), from);
        idx := 1 - idx;
        at := at + count;
      }
      lastFillColor, lastFillLen := 0, 0;
      if block {
        DmaWait();
        NoPixels(panel);
      }
    }

    /** The big-endian branch of writePixels, blocking: descriptors point straight into the bitmap, whose pixels
        have their bytes in the display's order already. */
    method WriteBigEndian(colors: array<uint16>, from: int, len: uint32)
      requires Valid() && 0 <= from && from + len <= colors.Length
      requires len == 0 || 0 < DescriptorCount(len, 32767) <= descriptor.Length
      modifies this`panel, this`lastFillColor, this`lastFillLen, descriptor
      ensures Valid() && panel == PushAll(old(panel), Swapped(colors[from..from + len]))
    {
      hide SentAll, PushAll, Swap, DescriptorCount, Swapped;
      if len == 0 {
        NoPixels(panel);
        return;
      }
      var n := ChainPixels(colors, from, len);
      Transfer(colors, n);
      lastFillColor, lastFillLen := 0, 0;
    }

    /** The loop that chains descriptors over the bitmap. */
    method ChainPixels(colors: array<uint16>, from: int, len0: uint32) returns (n: int)
      requires Shape() && 0 <= from && 0 < len0 && from + len0 <= colors.Length
      requires 0 < DescriptorCount(len0, 32767) <= descriptor.Length
      modifies descriptor
      ensures 0 < n <= descriptor.Length && forall i :: 0 <= i < n ==> (descriptor[i].more <==> i < n - 1)
      ensures SentAll(descriptor[..n], colors[..], onePixelBuf) == Swapped(colors[from..from + len0])
    {
      hide ChunksLeft, SentAll, DescriptorCount, Swapped, Swap, Sent;
      var len: int, at := len0, from;
      StartChain(len0, 32767, descriptor.Length);
      n := DescriptorCount(len0, 32767);
      var d := 0;
      NothingSwapped(colors[..], from, onePixelBuf);
      assert descriptor[..0] == [];
      while d < n
        invariant 0 <= d <= n && 0 <= len <= len0 && at == from + (len0 - len)
        invariant if d < n then ChunksLeft(len, 32767, n - d) else len == 0
        invariant forall i :: 0 <= i < d ==> descriptor[i].more
        invariant SentAll(descriptor[..d], colors[..], onePixelBuf) == Swapped(colors[from..at])
      {
        NextChunk(len, 32767, n - d);
        var count := if len < 32767 then len else 32767;
        ghost var before := descriptor[..d];
        descriptor[d] := Descriptor(true, at, count * 2, true);
        assert descriptor[..d + 1] == before + [descriptor[d]];
        SentOne(before, descriptor[d], colors[..], onePixelBuf);
        SentPixels(descriptor[d], colors[..], onePixelBuf, from, at, count);
        len := len - count;
        at := at + count;
        d := d + 1;
      }
      EndChain(n, colors[..]);
    }

    // ---- clipped rectangles ----------------------------------------------------------------

    method WriteFillRectPreclipped(x: int16, y: int16, w: int16, h: int16, color: uint16)
      requires Valid() && 0 <= x && 0 < w && x + w <= width && 0 <= y && 0 < h && y + h <= height
      modifies this`panel, this`onePixelBuf, this`lastFillColor, this`lastFillLen, pixelBuf, descriptor
      ensures Valid()
      ensures forall a, b :: panel.screen(a, b) == if x <= a < x + w
              && y <= b < y + h then color else old(panel.screen)(a, b)
    {
      hide Swap, PushAll;
      SetAddrWindow(x, y, w, h);
      AreaFits(w, h, width, height);
      RoomOnScreen(color, w * h, width, height, descriptor.Length, maxFillLen);
      ghost var p := panel;
      WriteColor(color, w * h);
      FillWindow(p, color, h);
    }

    /** fillRect and writeFillRect: a negative size runs to the left or upwards; every visible pixel of the
        rectangle gets the colour, as a loop over its pixels with clipping would do. */
    method FillRect(x0: int16, y0: int16, w0: int16, h0: int16, color: uint16)
      requires Valid() && SpanFits(x0, w0) && SpanFits(y0, h0)
      modifies this`panel, this`onePixelBuf, this`lastFillColor, this`lastFillLen, pixelBuf, descriptor
      ensures Valid()
      ensures forall a, b :: panel.screen(a, b) ==
                if Visible(a, b) && InSigned(x0, w0, a) && InSigned(y0, h0, b) then color else old(panel.screen)(a, b)
    {
      hide PushAll, Swap;
      var x, y, w, h := x0, y0, w0, h0;
      if w != 0 && h != 0 {
        if w < 0 {
          x := x + (w + 1);
          w := -w;
        }
        if x < width {
          if h < 0 {
            y := y + (h + 1);
            h := -h;
          }
          if y < height {
            var x2: int16 := x + w - 1;
            if x2 >= 0 {
              var y2: int16 := y + h - 1;
              if y2 >= 0 {
                if x < 0 {
                  x := 0;
                  w := x2 + 1;
                }
                if y < 0 {
                  y := 0;
                  h := y2 + 1;
                }
                if x2 >= width {
                  w := width - x;
                }
                if y2 >= height {
                  h := height - y;
                }
                WriteFillRectPreclipped(x, y, w, h, color);
              }
            }
          }
        }
      }
    }

    predicate Visible(a: int, b: int) {
      0 <= a < width && 0 <= b < height
    }

    method DrawFastHLine(x0: int16, y: int16, w0: int16, color: uint16)
      requires Valid() && SpanFits(x0, w0)
      modifies this`panel, this`onePixelBuf, this`lastFillColor, this`lastFillLen, pixelBuf, descriptor
      ensures Valid()
      ensures forall a, b :: panel.screen(a, b) ==
                if Visible(a, b) && InSigned(x0, w0, a) && b == y then color else old(panel.screen)(a, b)
    {
      hide PushAll, Swap;
      var x, w := x0, w0;
      if y >= 0 && y < height && w != 0 {
        if w < 0 {
          x := x + (w + 1);
          w := -w;
        }
        if x < width {
          var x2: int16 := x + w - 1;
          if x2 >= 0 {
            if x < 0 {
              x := 0;
              w := x2 + 1;
            }
            if x2 >= width {
              w := width - x;
            }
            WriteFillRectPreclipped(x, y, w, 1, color);
          }
        }
      }
    }

    method DrawFastVLine(x: int16, y0: int16, h0: int16, color: uint16)
      requires Valid() && SpanFits(y0, h0)
      modifies this`panel, this`onePixelBuf, this`lastFillColor, this`lastFillLen, pixelBuf, descriptor
      ensures Valid()
      ensures forall a, b :: panel.screen(a, b) ==
                if Visible(a, b) && a == x && InSigned(y0, h0, b) then color else old(panel.screen)(a, b)
    {
      hide PushAll, Swap;
      var y, h := y0, h0;
      if x >= 0 && x < width && h != 0 {
        if h < 0 {
          y := y + (h + 1);
          h := -h;
        }
        if y < height {
          var y2: int16 := y + h - 1;
          if y2 >= 0 {
            if y < 0 {
              y := 0;
              h := y2 + 1;
            }
            if y2 >= height {
              h := height - y;
            }
            WriteFillRectPreclipped(x, y, 1, h, color);
          }
        }
      }
    }

    /** drawRGBBitmap: every visible pixel (a, b) of the target rectangle shows the bitmap's pixel at row
        b - y0 and column a - x0 of the unclipped bitmap. */
    method DrawRGBBitmap(x0: int16, y0: int16, colors: array<uint16>, w0: int16, h0: int16)
      requires Valid() && 0 < w0 && 0 < h0 && w0 * h0 <= colors.Length && colors != pixelBuf
      requires Fits16(x0 + w0 - 1) && Fits16(y0 + h0 - 1)
      modifies this`panel, this`dmaBusy, this`dmaStart, this`dmaCount, this`lastFillColor, this`lastFillLen, pixelBuf
      ensures Valid()
      ensures forall a, b :: panel.screen(a, b) ==
                if Visible(a, b) && x0 <= a < x0 + w0 && y0 <= b < y0 + h0 then Pixel(colors[..], w0, a - x0, b - y0)
                else old(panel.screen)(a, b)
    {
      hide PushAll, Swap, Pixel;
      var x, y, w, h := x0, y0, w0, h0;
      if x >= width || y >= height {
        return;
      }
      var x2: int16 := x + w - 1;
      if x2 < 0 {
        return;
      }
      var y2: int16 := y + h - 1;
      if y2 < 0 {
        return;
      }
      var bx1, by1: int16 := 0, 0;
      var saveW := w;
      if x < 0 {
        w := w + x;
        bx1 := -x;
        x := 0;
      }
      if y < 0 {
        h := h + y;
        by1 := -y;
        y := 0;
      }
      if x2 >= width {
        w := width - x;
      }
      if y2 >= height {
        h := height - y;
      }
      SendRows(colors, by1 * saveW + bx1, x, y, w, h, saveW, bx1, by1, h0);
    }

    /** The clipped window, one clipped scanline at a time. */
    method SendRows(colors: array<uint16>, start: int, x: int16, y: int16, w: int16, h: int16, saveW: int16,
                    ghost bx1: int, ghost by1: int, ghost h0: int)
      requires Valid() && colors != pixelBuf && saveW * h0 <= colors.Length
      requires 0 <= x && 0 < w && x + w <= width && 0 <= y && 0 < h && y + h <= height
      requires 0 <= bx1 && bx1 + w <= saveW && 0 <= by1 && by1 + h <= h0 && start == by1 * saveW + bx1
      modifies this`panel, this`dmaBusy, this`dmaStart, this`dmaCount, this`lastFillColor, this`lastFillLen, pixelBuf
      ensures Valid()
      ensures forall a, b :: panel.screen(a, b) ==
                if x <= a < x + w && y <= b < y + h then Pixel(colors[..], saveW, bx1 + (a - x), by1 + (b - y))
                else old(panel.screen)(a, b)
    {
      hide PushAll, Swap, Pixel, RowsShown, TwoScanlines, Capacity;
      ghost var was := panel.screen;
      SetAddrWindow(x, y, w, h);
      NoRowsShown(was, colors[..], saveW, bx1, by1, x, y, w);
      var p := start;
      for j := 0 to h
        invariant Valid() && p == (by1 + j) * saveW + bx1
        invariant panel.x == panel.cx == x && panel.w == w && panel.cy == y + j
        invariant RowsShown(panel.screen, was, colors[..], saveW, bx1, by1, x, y, w, j)
      {
        RowInside(saveW, h0, by1 + j, bx1, w);
        NextRowShown(panel, was, colors[..], p, saveW, bx1, by1, x, y, w, j);
        WritePixels(colors, p, w, true);
        p := p + saveW;
      }
      AllRowsShown(panel.screen, was, colors[..], saveW, bx1, by1, x, y, w, h);
    }
  }

  /** j rows of a window of the bitmap are shown at (x, y), the rest of the screen is as it was. */
  ghost predicate RowsShown(now: Raster, was: Raster, colors: seq<uint16>, saveW: int, bx1: int, by1: int,
                            x: int, y: int, w: int, j: int) {
    forall a, b :: now(a, b) ==
      if x <= a < x + w && y <= b < y + j then Pixel(colors, saveW, bx1 + (a - x), by1 + (b - y)) else was(a, b)
  }

  lemma NoRowsShown(was: Raster, colors: seq<uint16>, saveW: int, bx1: int, by1: int, x: int, y: int, w: int)
    ensures RowsShown(was, was, colors, saveW, bx1, by1, x, y, w, 0)
  {
  }

  lemma NextRowShown(p: Panel, was: Raster, colors: seq<uint16>, from: int, saveW: int, bx1: int, by1: int,
                     x: int, y: int, w: int, j: int)
    requires p.x == p.cx == x && p.w == w > 0 && p.cy == y + j && 0 <= j
    requires from == (by1 + j) * saveW + bx1 && 0 <= from && from + w <= |colors|
    requires RowsShown(p.screen, was, colors, saveW, bx1, by1, x, y, w, j)
    ensures var q := PushAll(p, colors[from..from + w]);
            && q.x == q.cx == x && q.w == w && q.cy == y + j + 1
            && RowsShown(q.screen, was, colors, saveW, bx1, by1, x, y, w, j + 1)
  {
    hide PushAll, Pixel;
    PushRow(p, colors[from..from + w]);
    var q, row := PushAll(p, colors[from..from + w]), colors[from..from + w];
    forall a, b
      ensures q.screen(a, b) ==
                if x <= a < x + w && y <= b < y + j + 1 then Pixel(colors, saveW, bx1 + (a - x), by1 + (b - y))
                else was(a, b)
    {
      if b == y + j && x <= a < x + w {
        assert row[a - x] == colors[from + (a - x)];
        PixelAt(colors, saveW, bx1 + (a - x), by1 + (b - y), from + (a - x));
      }
    }
  }

  lemma PixelAt(colors: seq<uint16>, w: int, i: int, j: int, k: int)
    requires k == j * w + i && 0 <= k < |colors|
    ensures Pixel(colors, w, i, j) == colors[k]
  {
  }

  lemma AllRowsShown(now: Raster, was: Raster, colors: seq<uint16>, saveW: int, bx1: int, by1: int,
                     x: int, y: int, w: int, h: int)
    requires RowsShown(now, was, colors, saveW, bx1, by1, x, y, w, h)
    ensures forall a, b :: now(a, b) ==
              if x <= a < x + w && y <= b < y + h then Pixel(colors, saveW, bx1 + (a - x), by1 + (b - y))
              else was(a, b)
  {
  }

  /** The pixel (i, j) of a bitmap w pixels wide. */
  function Pixel(colors: seq<uint16>, w: int, i: int, j: int): int {
    if 0 <= j * w + i < |colors| then colors[j * w + i] else 0
  }

  /** v is one of the |n| coordinates that start at x and run right, or left when n is negative. */
  predicate InSigned(x: int, n: int, v: int) {
    if n < 0 then x + n < v <= x else x <= v < x + n
  }

  /** A run of negative size is the run of that many pixels that ends where it starts. */
  lemma RunBackwards(x: int, n: int, v: int)
    requires n <= 0
    ensures InSigned(x, n, v) <==> InSigned(x + n + 1, -n, v)
  {
  }

  /** The far end of a signed size, and the size itself turned positive, are representable. */
  predicate SpanFits(x: int, n: int) {
    if n < 0 then -0x8000 < n && Fits16(x + n + 1) else n > 0 ==> Fits16(x + n - 1)
  }

  lemma NoPixels(p: Panel)
    ensures PushAll(p, []) == p
  {
  }

  lemma AreaFits(w: int, h: int, W: int, H: int)
    requires 0 < w <= W <= 0x7FFF && 0 < h <= H <= 0x7FFF
    ensures 0 <= w * h <= W * H <= 0x3FFF_0001
  {
    Scale(h, w, W);
    Scale(W, h, H);
    Scale(H, W, 0x7FFF);
    Commute(W, h);
    Commute(W, H);
    Scale(h, 0, w);
  }

  lemma RowInside(w: int, h: int, j: int, i: int, n: int)
    requires 0 <= j < h && 0 <= i && 0 <= n && i + n <= w
    ensures 0 <= j * w + i && j * w + i + n <= w * h && (j + 1) * w == j * w + w
  {
    Scale(w, j + 1, h);
    Scale(w, 0, j);
    Commute(w, h);
  }

  /** Everything that fits the screen fits the descriptor list. */
  lemma RoomOnScreen(color: uint16, len: int, width: int, height: int, descriptors: int, maxFillLen: int)
    requires 0 <= len <= width * height <= 0x3FFF_0001 && 0 <= descriptors && 0 < maxFillLen <= 32767
    requires Capacity(width, height, descriptors, maxFillLen)
    ensures Room(color, len, descriptors, maxFillLen)
  {
    var chunk := ChunkOf(color, maxFillLen);
    EnoughDescriptors(descriptors, maxFillLen, chunk);
    if len > 0 {
      CountWraps(len, chunk);
      RoundedUp(len, chunk, descriptors);
    }
  }

  lemma EnoughDescriptors(n: int, maxFillLen: int, chunk: int)
    requires 0 <= n && 0 <= maxFillLen <= chunk
    ensures n * maxFillLen <= n * chunk
  {
    Scale(n, maxFillLen, chunk);
    Commute(n, maxFillLen);
    Commute(n, chunk);
  }
}
