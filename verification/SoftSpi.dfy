/** The bit-banged SPI transfer, observed on its lines: a peer samples MOSI at the sampling edge of the
    clock, and the level on MISO is read back. */
module SoftSpi {
  import opened Bytes

  /** The position in the byte of the k-th bit on the wire. */
  function Position(lsbFirst: bool, k: nat): nat
    requires k < 8
  {
    if lsbFirst then k else 7 - k
  }

  /** The mask `b` of the k-th turn of the bit loop; 0 ends it. */
  function LoopMask(lsbFirst: bool, k: nat): bv8
    requires k <= 8
  {
    if k == 8 then 0 else Mask(Position(lsbFirst, k))
  }

  function Shift(b: bv8, lsbFirst: bool): bv8 {
    if lsbFirst then b << 1 else b >> 1
  }

  lemma NextMask(lsbFirst: bool, k: nat)
    requires k < 8
    ensures Shift(LoopMask(lsbFirst, k), lsbFirst) == LoopMask(lsbFirst, k + 1)
  {
  }

  /** `reply |= b` */
  function WithBit(reply: bv8, b: bv8): bv8 {
    reply | b
  }

  /** The first n bits of a byte in wire order. */
  function BitsOf(b: bv8, lsbFirst: bool, n: nat): (bits: seq<bool>)
    requires n <= 8
    ensures |bits| == n
  {
    seq(n, k requires 0 <= k < n => Get(b, Position(lsbFirst, k)))
  }

  /** All bits of the bytes, one byte after the other. */
  function WireBits(bytes: seq<bv8>, lsbFirst: bool): seq<bool> {
    if bytes == [] then [] else WireBits(bytes[..|bytes| - 1], lsbFirst) + BitsOf(bytes[|bytes| - 1], lsbFirst, 8)
  }

  lemma BitsDecode(a: bv8, b: bv8, lsbFirst: bool)
    requires BitsOf(a, lsbFirst, 8) == BitsOf(b, lsbFirst, 8)
    ensures a == b
  {
    hide Get;
    forall p | 0 <= p < 8 ensures Get(a, p) == Get(b, p) {
      var k := if lsbFirst then p else 7 - p;
      assert BitsOf(a, lsbFirst, 8)[k] == Get(a, p) && BitsOf(b, lsbFirst, 8)[k] == Get(b, p);
    }
    SameBits(a, b);
  }

  /** Eight bits on the wire as a number: the first bit is the highest, or with the other bit order the lowest. */
  function Number(bits: seq<bool>, lsbFirst: bool): nat {
    Value(if lsbFirst then Backwards(bits) else bits)
  }

  /** The bits of a byte in wire order are its binary digits. */
  lemma ByteOnWire(b: bv8, lsbFirst: bool)
    ensures Number(BitsOf(b, lsbFirst, 8), lsbFirst) == b as int
  {
    hide Value, Get;
    var bits := BitsOf(b, lsbFirst, 8);
    ByteValue(b, if lsbFirst then Backwards(bits) else bits);
  }

  /** So each byte of a buffer is the number that its eight bits on the wire make. */
  lemma {:induction false} BufferOnWire(s: seq<bv8>, lsbFirst: bool, i: nat)
    requires i < |s|
    ensures |WireBits(s, lsbFirst)| == 8 * |s|
    ensures Number(WireBits(s, lsbFirst)[8 * i..8 * i + 8], lsbFirst) == s[i] as int
  {
    hide BitsOf, Number;
    var n := |s| - 1;
    WireLength(s, lsbFirst);
    WireLength(s[..n], lsbFirst);
    var all := WireBits(s, lsbFirst);
    if i == n {
      assert all[8 * i..8 * i + 8] == BitsOf(s[n], lsbFirst, 8);
      ByteOnWire(s[n], lsbFirst);
    } else {
      assert all[8 * i..8 * i + 8] == WireBits(s[..n], lsbFirst)[8 * i..8 * i + 8];
      BufferOnWire(s[..n], lsbFirst, i);
    }
  }

  /** The i-th eight levels, read as a number in the bit order, are the byte. */
  ghost predicate SentAs(levels: seq<bool>, i: nat, b: bv8, lsbFirst: bool) {
    8 * i + 8 <= |levels| && Number(levels[8 * i..8 * i + 8], lsbFirst) == b as int
  }

  lemma WireNumbers(s: seq<bv8>, lsbFirst: bool)
    ensures forall i :: 0 <= i < |s| ==> SentAs(WireBits(s, lsbFirst), i, s[i], lsbFirst)
  {
    hide Number, WireBits;
    forall i | 0 <= i < |s| ensures SentAs(WireBits(s, lsbFirst), i, s[i], lsbFirst) {
      BufferOnWire(s, lsbFirst, i);
    }
  }

  /** For example, with the most significant bit first, the first level is high for bytes from 0x80 on. */
  lemma FirstLevel(b: bv8)
    ensures WireBits([b], false)[0] <==> b >= 0x80
    ensures WireBits([b], true)[0] <==> b % 2 == 1
  {
    hide Get, WireBits;
    OneByte(b, false);
    OneByte(b, true);
    EndBits(b);
  }

  lemma OneByte(b: bv8, lsbFirst: bool)
    ensures WireBits([b], lsbFirst) == BitsOf(b, lsbFirst, 8)
  {
    hide BitsOf;
    assert [b][..0] == [];
  }

  lemma EndBits(b: bv8)
    ensures Get(b, 7) <==> b >= 0x80
    ensures Get(b, 0) <==> b % 2 == 1
  {
  }

  /** The wire decodes: equal bit streams come from equal bytes. */
  lemma {:induction false} WireBitsDecode(s: seq<bv8>, t: seq<bv8>, lsbFirst: bool)
    requires WireBits(s, lsbFirst) == WireBits(t, lsbFirst)
    ensures s == t
  {
    hide BitsOf;
    WireLength(s, lsbFirst);
    WireLength(t, lsbFirst);
    if s != [] {
      var n := |s| - 1;
      WireLength(s[..n], lsbFirst);
      WireLength(t[..n], lsbFirst);
      var u, v := WireBits(s, lsbFirst), WireBits(t, lsbFirst);
      assert u[..8 * n] == WireBits(s[..n], lsbFirst) && v[..8 * n] == WireBits(t[..n], lsbFirst);
      WireBitsDecode(s[..n], t[..n], lsbFirst);
      assert u[8 * n..] == BitsOf(s[n], lsbFirst, 8) && v[8 * n..] == BitsOf(t[n], lsbFirst, 8);
      BitsDecode(s[n], t[n], lsbFirst);
      assert s == s[..n] + [s[n]] && t == t[..n] + [t[n]];
    }
  }

  lemma {:induction false} WireLength(s: seq<bv8>, lsbFirst: bool)
    ensures |WireBits(s, lsbFirst)| == 8 * |s|
  {
    if s != [] {
      WireLength(s[..|s| - 1], lsbFirst);
    }
  }

  /** The clock level that a sampling edge leads to: rising in modes 0 and 3, falling in modes 1 and 2. */
  predicate SamplesHigh(mode: int) {
    mode == 0 || mode == 3
  }

  /** The clock level between transfers that the mode prescribes. */
  predicate IdleHigh(mode: int) {
    mode == 2 || mode == 3
  }

  /** The two halves of a mode's number: its clock polarity is the level between transfers, and its phase is 0 when
      the sampling edge leaves that level. */
  lemma PolarityAndPhase(mode: int)
    requires 0 <= mode <= 3
    ensures IdleHigh(mode) <==> mode / 2 == 1
    ensures SamplesHigh(mode) != IdleHigh(mode) <==> mode % 2 == 0
  {
  }

  class SpiDevice {
    const mode: int
    const lsbFirst: bool
    const hasMosi: bool
    const hasMiso: bool
    const loopback: bool         // MISO is wired to MOSI
    const peer: nat -> bool      // otherwise: what the peer answers, bit by bit
    var mosi: bool
    var clock: bool
    ghost var sampled: seq<bool> // MOSI at every sampling edge
    ghost var read: seq<bool>    // MISO every time it was read
    var readCount: nat

    ghost predicate Valid()
      reads this
    {
      0 <= mode <= 3 && readCount == |read|
    }

    /** Between two bits, so that the coming bit has exactly one sampling edge. */
    ghost predicate Ready()
      reads this
    {
      Valid() && (mode != 2 ==> clock == IdleHigh(mode))
    }

    method SetClock(level: bool)
      modifies this`clock, this`sampled
      ensures clock == level
      ensures sampled == if level != old(clock) && level == SamplesHigh(mode)
              then old(sampled) + [mosi] else old(sampled)
    {
      if level != clock && level == SamplesHigh(mode) {
        sampled := sampled + [mosi];
      }
      clock := level;
    }

    method ReadMiso() returns (level: bool)
      requires Valid()
      modifies this`read, this`readCount
      ensures Valid() && read == old(read) + [level]
      ensures level == if loopback then mosi else peer(old(readCount))
    {
      level := if loopback then mosi else peer(readCount);
      read := read + [level];
      readCount := readCount + 1;
    }

    /** One bit cell. In modes 0 and 2 MOSI is only written when its level has to change. */
    method BitCell(towrite: bool, lastmosi0: bool, reply0: bv8, b: bv8) returns (lastmosi: bool, reply: bv8)
      requires Ready() && (lastmosi0 == towrite ==> !hasMosi || mosi == towrite || mode == 1 || mode == 3)
      modifies this
      ensures Ready() && clock == (mode == 3)
      ensures hasMosi ==> mosi == towrite && (mode == 0 || mode == 2 ==> lastmosi == towrite)
      ensures !hasMosi ==> mosi == old(mosi) && lastmosi == lastmosi0
      ensures sampled == old(sampled) + [mosi]
      ensures if hasMiso then |read| == |old(read)| + 1 && old(read) == read[..|read| - 1] else read == old(read)
      ensures hasMiso ==> read[|read| - 1] == if loopback then mosi else peer(|old(read)|)
      ensures reply == if hasMiso && read[|read| - 1] then WithBit(reply0, b) else reply0
    {
      lastmosi, reply := lastmosi0, reply0;
      var level := false;
      if mode == 0 || mode == 2 {
        if hasMosi && lastmosi != towrite {
          mosi := towrite;
          lastmosi := towrite;
        }
        SetClock(true);
        if hasMiso {
          level := ReadMiso();
          if level {
            reply := WithBit(reply, b);
          }
        }
        SetClock(false);
      } else if mode == 3 {
        if hasMosi {
          mosi := towrite;
        }
        SetClock(false);
        SetClock(true);
        if hasMiso {
          level := ReadMiso();
          if level {
            reply := WithBit(reply, b);
          }
        }
      } else {
        SetClock(true);
        if hasMosi {
          mosi := towrite;
        }
        SetClock(false);
        if hasMiso {
          level := ReadMiso();
          if level {
            reply := WithBit(reply, b);
          }
        }
      }
    }

    /** One turn of the bit loop: the k-th bit goes out, and what is read joins the reply. */
    method TransferBit(send: bv8, lastmosi0: bool, reply0: bv8, b: bv8, ghost k: nat, ghost bits: seq<bool>)
      returns (lastmosi: bool, reply: bv8, ghost level: bool)
      requires k < 8 && b == LoopMask(lsbFirst, k) && |bits| == k && Ready() && Fresh(lastmosi0, TestBit(send, b))
      requires hasMiso ==> Assembled(reply0, bits, lsbFirst)
      modifies this
      ensures Ready() && clock == (mode == 3) && (hasMosi && (mode == 0 || mode == 2) ==> lastmosi == mosi)
      ensures |sampled| == |old(sampled)| + 1 && (hasMosi ==> sampled == old(sampled) + [TestBit(send, b)])
      ensures if hasMiso then read == old(read) + [level] && Assembled(reply, bits + [level], lsbFirst)
              else read == old(read)
      ensures hasMiso && hasMosi && loopback ==> level == TestBit(send, b)
    {
      hide Assembled, LoopMask, TestBit, IdleHigh, WithBit;
      lastmosi, reply := BitCell(TestBit(send, b), lastmosi0, reply0, b);
      level := false;
      if hasMiso {
        level := read[|read| - 1];
        AddBit(reply0, bits, lsbFirst, level);
      }
    }

    /** The bit loop for one byte. */
    method TransferByte(send: bv8, lastmosi0: bool) returns (lastmosi: bool, reply: bv8)
      requires Ready() && Fresh(lastmosi0, TestBit(send, LoopMask(lsbFirst, 0)))
      modifies this
      ensures Ready() && clock == (mode == 3)
      ensures hasMosi && (mode == 0 || mode == 2) ==> lastmosi == mosi
      ensures hasMosi ==> sampled == old(sampled) + BitsOf(send, lsbFirst, 8)
      ensures |sampled| == |old(sampled)| + 8
      ensures if hasMiso
              then |read| == |old(read)| + 8 && old(read) <= read && Assembled(reply, read[|old(read)|..], lsbFirst)
              else read == old(read)
      ensures hasMiso && hasMosi && loopback ==> reply == send
    {
      hide Assembled, BitsOf, LoopMask, TestBit, Get, IdleHigh, Shift, WithBit;
      lastmosi, reply := lastmosi0, 0;
      var b := LoopMask(lsbFirst, 0);
      ghost var k, bits: seq<bool> := 0, [];
      NothingAssembled(lsbFirst);
      NoBitsYet(send, lsbFirst);
      while b != 0
        invariant 0 <= k <= 8 && b == LoopMask(lsbFirst, k) && Ready()
        invariant k > 0 ==> clock == (mode == 3)
        invariant if k == 0 then lastmosi == lastmosi0 && mosi == old(mosi)
                  else hasMosi && (mode == 0 || mode == 2) ==> lastmosi == mosi
        invariant |sampled| == |old(sampled)| + k
        invariant hasMosi ==> sampled == old(sampled) + BitsOf(send, lsbFirst, k)
        invariant |bits| == k
        invariant if hasMiso then read == old(read) + bits && Assembled(reply, bits, lsbFirst) else read == old(read)
        invariant hasMiso && hasMosi && loopback ==> bits == BitsOf(send, lsbFirst, k)
        decreases 8 - k
      {
        LoopEnds(lsbFirst, k);
        NextMask(lsbFirst, k);
        ghost var level;
        lastmosi, reply, level := TransferBit(send, lastmosi, reply, b, k, bits);
        NextBit(send, lsbFirst, k);
        bits := bits + [level];
        b := Shift(b, lsbFirst);
        k := k + 1;
      }
      LoopEnds(lsbFirst, k);
      assert hasMiso ==> read[|old(read)|..] == bits;
      if hasMiso && hasMosi && loopback {
        AssembledAll(reply, send, lsbFirst);
      }
    }

    /** The first bit is written even where unchanged levels are not. */
    ghost predicate Fresh(lastmosi: bool, towrite: bool)
      reads this
    {
      lastmosi == towrite ==> !hasMosi || mosi == towrite || mode == 1 || mode == 3
    }

    /** The whole transfer. A peer that samples MOSI receives the bytes in order, eight bits each; every
        byte of the buffer becomes what was read on MISO; with MISO wired to MOSI nothing changes. The clock
        ends at the idle level of the mode, except in mode 2. */
    method Transfer(buffer: array<bv8>)
      requires Ready() && buffer.Length > 0
      modifies this, buffer
      ensures Ready() && clock == (mode == 3) && (clock == IdleHigh(mode) <==> mode != 2)
      ensures |sampled| == |old(sampled)| + 8 * buffer.Length
      ensures hasMosi ==> sampled == old(sampled) + WireBits(old(buffer[..]), lsbFirst)
      ensures if hasMiso then |read| == |old(read)| + 8 * buffer.Length && old(read) <= read
                && forall i :: 0 <= i < buffer.Length ==>
                     Assembled(buffer[i], read[|old(read)| + 8 * i..|old(read)| + 8 * i + 8], lsbFirst)
              else buffer[..] == old(buffer[..])
      ensures hasMiso && hasMosi && loopback ==> buffer[..] == old(buffer[..])
      ensures forall i :: 0 <= i < buffer.Length ==>
                && (hasMosi ==> SentAs(sampled[|old(sampled)|..], i, old(buffer[i]), lsbFirst))
                && (hasMiso ==> SentAs(read[|old(read)|..], i, buffer[i], lsbFirst))
    {
      hide Assembled, WireBits, SentAs;
      TransferBytes(buffer);
      if hasMosi {
        assert sampled[|old(sampled)|..] == WireBits(old(buffer[..]), lsbFirst);
        WireNumbers(old(buffer[..]), lsbFirst);
      }
      if hasMiso {
        ReplyNumbers(read, |old(read)|, buffer[..], lsbFirst);
      }
    }

    /** The loop over the bytes. */
    method TransferBytes(buffer: array<bv8>)
      requires Ready() && buffer.Length > 0
      modifies this, buffer
      ensures Ready() && clock == (mode == 3) && (clock == IdleHigh(mode) <==> mode != 2)
      ensures |sampled| == |old(sampled)| + 8 * buffer.Length
      ensures hasMosi ==> sampled == old(sampled) + WireBits(old(buffer[..]), lsbFirst)
      ensures if hasMiso then |read| == |old(read)| + 8 * buffer.Length && old(read) <= read
                && forall i :: 0 <= i < buffer.Length ==>
                     Assembled(buffer[i], read[|old(read)| + 8 * i..|old(read)| + 8 * i + 8], lsbFirst)
              else buffer[..] == old(buffer[..])
      ensures hasMiso && hasMosi && loopback ==> buffer[..] == old(buffer[..])
    {
      hide Assembled, BitsOf, LoopMask, TestBit, WireBits;
      var lastmosi := !TestBit(buffer[0], LoopMask(lsbFirst, 0));
      ghost var was := buffer[..];
      NoWire(lsbFirst);
      assert was[..0] == [];
      for i := 0 to buffer.Length
        invariant Ready() && (i > 0 ==> clock == (mode == 3))
        invariant i == 0 ==> lastmosi == !TestBit(was[0], LoopMask(lsbFirst, 0))
        invariant i > 0 && hasMosi && (mode == 0 || mode == 2) ==> lastmosi == mosi
        invariant |sampled| == |old(sampled)| + 8 * i
        invariant hasMosi ==> sampled == old(sampled) + WireBits(was[..i], lsbFirst)
        invariant if hasMiso then |read| == |old(read)| + 8 * i && old(read) <= read
                    && forall j :: 0 <= j < i ==>
                         Assembled(buffer[j], read[|old(read)| + 8 * j..|old(read)| + 8 * j + 8], lsbFirst)
                  else true
        invariant forall j :: i <= j < buffer.Length || !hasMiso || (hasMosi && loopback) ==>
                    0 <= j < buffer.Length ==> buffer[j] == was[j]
      {
        ghost var before := read;
        var reply;
        lastmosi, reply := TransferByte(buffer[i], lastmosi);
        NextByte(was, lsbFirst, i);
        if hasMiso {
          buffer[i] := reply;
          forall j | 0 <= j < i
            ensures read[|old(read)| + 8 * j..|old(read)| + 8 * j + 8]
                    == before[|old(read)| + 8 * j..|old(read)| + 8 * j + 8]
          {
          }
          assert read[|before|..] == read[|old(read)| + 8 * i..|old(read)| + 8 * i + 8];
        }
      }
      assert was[..buffer.Length] == was;
    }
  }

  function TestBit(send: bv8, b: bv8): bool {
    send & b != 0
  }

  /** A byte that holds the given bits at their positions, and zeros elsewhere. */
  ghost predicate Assembled(reply: bv8, bits: seq<bool>, lsbFirst: bool) {
    |bits| <= 8 && forall j :: 0 <= j < 8 ==> (Get(reply, Position(lsbFirst, j)) <==> j < |bits| && bits[j])
  }

  lemma NothingAssembled(lsbFirst: bool)
    ensures Assembled(0, [], lsbFirst)
  {
    forall j | 0 <= j < 8 ensures !Get(0, Position(lsbFirst, j)) {
      ConstantBits(Position(lsbFirst, j));
    }
  }

  lemma AddBit(reply: bv8, bits: seq<bool>, lsbFirst: bool, level: bool)
    requires |bits| < 8 && Assembled(reply, bits, lsbFirst)
    ensures Assembled(if level then WithBit(reply, LoopMask(lsbFirst, |bits|)) else reply, bits + [level], lsbFirst)
  {
    hide Get, Mask;
    var k, more := |bits|, bits + [level];
    var m := Mask(Position(lsbFirst, k));
    var r := if level then reply | m else reply;
    forall j | 0 <= j < 8 ensures Get(r, Position(lsbFirst, j)) <==> j < k + 1 && more[j] {
      OrBits(reply, m, Position(lsbFirst, j));
      MaskBits(Position(lsbFirst, k), Position(lsbFirst, j));
      assert Get(m, Position(lsbFirst, j)) <==> j == k;
      assert Get(reply, Position(lsbFirst, j)) <==> j < k && bits[j];
    }
  }

  /** A byte assembled from eight bits is the number that they make. */
  lemma ReplyIs(reply: bv8, bits: seq<bool>, lsbFirst: bool)
    requires Assembled(reply, bits, lsbFirst) && |bits| == 8
    ensures Number(bits, lsbFirst) == reply as int
  {
    AssembledBits(reply, bits, lsbFirst);
    ByteOnWire(reply, lsbFirst);
  }

  lemma ReplyNumbers(read: seq<bool>, from: nat, replies: seq<bv8>, lsbFirst: bool)
    requires |read| == from + 8 * |replies|
    requires forall i :: 0 <= i < |replies| ==>
               Assembled(replies[i], read[from + 8 * i..from + 8 * i + 8], lsbFirst)
    ensures forall i :: 0 <= i < |replies| ==> SentAs(read[from..], i, replies[i], lsbFirst)
  {
    hide Assembled, Number;
    forall i | 0 <= i < |replies| ensures SentAs(read[from..], i, replies[i], lsbFirst) {
      ReplyIs(replies[i], read[from + 8 * i..from + 8 * i + 8], lsbFirst);
      assert read[from..][8 * i..8 * i + 8] == read[from + 8 * i..from + 8 * i + 8];
    }
  }

  lemma AssembledBits(reply: bv8, bits: seq<bool>, lsbFirst: bool)
    requires Assembled(reply, bits, lsbFirst) && |bits| == 8
    ensures bits == BitsOf(reply, lsbFirst, 8)
  {
    hide Get;
  }

  lemma AssembledAll(reply: bv8, send: bv8, lsbFirst: bool)
    requires Assembled(reply, BitsOf(send, lsbFirst, 8), lsbFirst)
    ensures reply == send
  {
    forall p | 0 <= p < 8 ensures Get(reply, p) == Get(send, p) {
      var j := if lsbFirst then p else 7 - p;
      assert Position(lsbFirst, j) == p;
    }
    SameBits(reply, send);
  }

  lemma NoBitsYet(send: bv8, lsbFirst: bool)
    ensures BitsOf(send, lsbFirst, 0) == []
  {
  }

  lemma NextBit(send: bv8, lsbFirst: bool, k: nat)
    requires k < 8
    ensures BitsOf(send, lsbFirst, k + 1) == BitsOf(send, lsbFirst, k) + [TestBit(send, LoopMask(lsbFirst, k))]
  {
  }

  lemma LoopEnds(lsbFirst: bool, k: nat)
    requires k <= 8
    ensures LoopMask(lsbFirst, k) == 0 <==> k == 8
  {
  }

  lemma NoWire(lsbFirst: bool)
    ensures WireBits([], lsbFirst) == []
  {
  }

  lemma NextByte(bytes: seq<bv8>, lsbFirst: bool, i: nat)
    requires i < |bytes|
    ensures WireBits(bytes[..i + 1], lsbFirst) == WireBits(bytes[..i], lsbFirst) + BitsOf(bytes[i], lsbFirst, 8)
  {
    assert bytes[..i + 1][..i] == bytes[..i];
  }
}
