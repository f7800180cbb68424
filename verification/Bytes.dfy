/** Fixed-width integers and the single-bit view of a byte.

    The C integer types are subset types of `int`: arithmetic happens in `int`, as C promotes,
    and every narrowing assignment carries a proof that no truncation takes place. */
module Bytes {
  type int8 = i: int | -0x80 <= i <= 0x7F
  type int16 = i: int | -0x8000 <= i <= 0x7FFF
  type int32 = i: int | -0x8000_0000 <= i <= 0x7FFF_FFFF
  type uint8 = i: int | 0 <= i <= 0xFF
  type uint16 = i: int | 0 <= i <= 0xFFFF
  type uint32 = i: int | 0 <= i <= 0xFFFF_FFFF

  predicate Fits16(i: int) {
    -0x8000 <= i <= 0x7FFF
  }

  /** The conversion to 16 bits of a value that is out of range by less than the width. */
  function Wrap16(i: int): int16
    requires -0x1_8000 <= i < 0x1_8000
  {
    if i > 0x7FFF then i - 0x1_0000 else if i < -0x8000 then i + 0x1_0000 else i
  }

  lemma WrapNext()
    ensures forall i :: -0x8000 <= i <= 0xFFFE ==> Wrap16(Wrap16(i) + 1) == Wrap16(i + 1)
    ensures forall i :: Fits16(i) ==> Wrap16(i) == i
  {
  }

  lemma WrapFits()
    ensures forall i :: Fits16(i) ==> Wrap16(i) == i
  {
  }

  function Abs(i: int): nat {
    if i < 0 then -i else i
  }

  /** `1 << k`, the mask of bit k (bit 0 is the least significant). */
  function Mask(k: nat): bv8
    requires k < 8
  {
    [1, 2, 4, 8, 16, 32, 64, 128][k]
  }

  predicate Get(b: bv8, k: nat)
    requires k < 8
  {
    b & Mask(k) != 0
  }

  lemma MaskIsOneBit(k: nat)
    requires k < 8
    ensures Mask(k) in {1, 2, 4, 8, 16, 32, 64, 128}
  {
  }

  lemma MaskBits(j: nat, k: nat)
    requires j < 8 && k < 8
    ensures Get(Mask(j), k) <==> j == k
  {
  }

  lemma OrBits(b: bv8, m: bv8, k: nat)
    requires k < 8
    ensures Get(b | m, k) <==> Get(b, k) || Get(m, k)
  {
  }

  lemma AndNotBits(b: bv8, m: bv8, k: nat)
    requires k < 8
    ensures Get(b & !m, k) <==> Get(b, k) && !Get(m, k)
  {
  }

  lemma XorAt(b: bv8, m: bv8, p: bv8)
    requires p == 1 || p == 2 || p == 4 || p == 8 || p == 16 || p == 32 || p == 64 || p == 128
    ensures ((b ^ m) & p != 0) == ((b & p != 0) != (m & p != 0))
  {
  }

  lemma XorBits(b: bv8, m: bv8, k: nat)
    requires k < 8
    ensures Get(b ^ m, k) <==> Get(b, k) != Get(m, k)
  {
    MaskIsOneBit(k);
    XorAt(b, m, Mask(k));
  }

  /** `0xFF >> n` keeps the low 8-n bits. */
  lemma ShiftedOnesBits(n: nat, k: nat)
    requires n < 8 && k < 8
    ensures Get((0xFF as bv8) >> n, k) <==> k < 8 - n
  {
  }

  lemma AndBits(b: bv8, m: bv8, k: nat)
    requires k < 8
    ensures Get(b & m, k) <==> Get(b, k) && Get(m, k)
  {
  }

  lemma ConstantBits(k: nat)
    requires k < 8
    ensures !Get(0, k) && Get(0xFF, k)
  {
    MaskIsOneBit(k);
  }

  lemma SameBits(a: bv8, b: bv8)
    requires forall k :: 0 <= k < 8 ==> Get(a, k) == Get(b, k)
    ensures a == b
  {
    assert Get(a, 0) == Get(b, 0) && Get(a, 1) == Get(b, 1) && Get(a, 2) == Get(b, 2) && Get(a, 3) == Get(b, 3);
    assert Get(a, 4) == Get(b, 4) && Get(a, 5) == Get(b, 5) && Get(a, 6) == Get(b, 6) && Get(a, 7) == Get(b, 7);
  }

  // ---- bits as binary digits -------------------------------------------------------------

  function Digit(bit: bool): nat {
    if bit then 1 else 0
  }

  /** The bits read as a binary number, the first one highest. */
  function Value(bits: seq<bool>): nat {
    if bits == [] then 0 else 2 * Value(bits[..|bits| - 1]) + Digit(bits[|bits| - 1])
  }

  function Backwards(bits: seq<bool>): (r: seq<bool>)
    ensures |r| == |bits|
  {
    seq(|bits|, i requires 0 <= i < |bits| => bits[|bits| - 1 - i])
  }

  /** The first n binary digits of a byte as a number. */
  function Leading(b: bv8, n: nat): nat
    requires n <= 8
  {
    if n == 0 then 0 else 2 * Leading(b, n - 1) + Digit(Get(b, 8 - n))
  }

  lemma DigitSum(b: bv8)
    ensures b as int == 128 * Digit(Get(b, 7)) + 64 * Digit(Get(b, 6)) + 32 * Digit(Get(b, 5)) + 16 * Digit(Get(b, 4))
                        + 8 * Digit(Get(b, 3)) + 4 * Digit(Get(b, 2)) + 2 * Digit(Get(b, 1)) + Digit(Get(b, 0))
  {
  }

  lemma LeadingAll(b: bv8)
    ensures Leading(b, 8) == b as int
  {
    hide Digit, Get, Leading;
    DigitSum(b);
    LeadingNone(b);
    LeadingFour(b, 0);
    LeadingFour(b, 4);
  }

  lemma LeadingFour(b: bv8, n: nat)
    requires n <= 4
    ensures Leading(b, n + 4) == 16 * Leading(b, n) + 8 * Digit(Get(b, 7 - n)) + 4 * Digit(Get(b, 6 - n))
                                 + 2 * Digit(Get(b, 5 - n)) + Digit(Get(b, 4 - n))
  {
    hide Digit, Get, Leading;
    LeadingTwo(b, n);
    LeadingTwo(b, n + 2);
  }

  lemma LeadingNone(b: bv8)
    ensures Leading(b, 0) == 0
  {
  }

  lemma LeadingTwo(b: bv8, n: nat)
    requires n <= 6
    ensures Leading(b, n + 2) == 4 * Leading(b, n) + 2 * Digit(Get(b, 7 - n)) + Digit(Get(b, 6 - n))
  {
    hide Digit, Get;
    assert Leading(b, n + 1) == 2 * Leading(b, n) + Digit(Get(b, 7 - n));
  }

  lemma {:induction false} LeadingValue(b: bv8, bits: seq<bool>, n: nat)
    requires n <= |bits| == 8 && forall i :: 0 <= i < 8 ==> bits[i] == Get(b, 7 - i)
    ensures Value(bits[..n]) == Leading(b, n)
  {
    hide Get, Digit;
    if n > 0 {
      LeadingValue(b, bits, n - 1);
      assert bits[..n][..n - 1] == bits[..n - 1];
    }
  }

  /** Get counts binary digits from the lowest: the digits of a byte, highest first, are its value. */
  lemma ByteValue(b: bv8, bits: seq<bool>)
    requires |bits| == 8 && forall i :: 0 <= i < 8 ==> bits[i] == Get(b, 7 - i)
    ensures Value(bits) == b as int
  {
    hide Get, Digit, Value, Leading;
    LeadingValue(b, bits, 8);
    LeadingAll(b);
    assert bits[..8] == bits;
  }

  // ---- nonlinear index arithmetic -------------------------------------------------------

  /** A packed index determines its row and its offset in the row. */
  lemma IndexInjective(stride: int, p: int, c: int, q: int, d: int)
    requires 0 <= c < stride && 0 <= d < stride
    requires p * stride + c == q * stride + d
    ensures p == q && c == d
  {
    if p < q {
      Scale(stride, p + 1, q);
    } else if q < p {
      Scale(stride, q + 1, p);
    }
  }

  lemma Scale(stride: int, a: int, b: int)
    requires 0 <= stride && a <= b
    ensures a * stride <= b * stride
    ensures (a - 1) * stride == a * stride - stride
  {
  }

  lemma Commute(a: int, b: int)
    ensures a * b == b * a
  {
  }

  lemma Negate(a: int, b: int)
    ensures -a * b == -(a * b) && b * -a == -(a * b) && b * a == a * b
  {
  }

  lemma IndexBound(stride: int, rows: int, p: int, c: int)
    requires 0 <= c < stride && 0 <= rows
    ensures 0 <= p * stride + c < rows * stride <==> 0 <= p < rows
  {
    if p < 0 {
      Scale(stride, p, -1);
    } else if p >= rows {
      Scale(stride, rows, p);
    } else {
      Scale(stride, p + 1, rows);
      Scale(stride, 0, p);
    }
  }
}
