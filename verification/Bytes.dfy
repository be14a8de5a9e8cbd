/** A space stored in bytes: bit 0 of the space is the top bit of byte 0. */
module Bytes {
  import opened Bits

  function Mask(k: nat): bv8
    requires k < 8
  {
    if k == 0 then 0x80 else if k == 1 then 0x40 else if k == 2 then 0x20 else if k == 3 then 0x10
    else if k == 4 then 0x08 else if k == 5 then 0x04 else if k == 6 then 0x02 else 0x01
  }

  predicate BitOf(b: bv8, k: nat)
    requires k < 8
  {
    b & Mask(k) != 0
  }

  predicate BitAt(bytes: seq<bv8>, p: nat)
    requires p < 8 * |bytes|
  {
    BitOf(bytes[p / 8], p % 8)
  }

  /** The space that the bytes hold. */
  function Unpack(bytes: seq<bv8>): (s: Space)
    ensures |s| == 8 * |bytes|
    ensures forall p {:trigger s[p]} | 0 <= p < |s| :: s[p] == BitAt(bytes, p)
  {
    seq(8 * |bytes|, p requires 0 <= p < 8 * |bytes| => BitAt(bytes, p))
  }

  /** Eight bits as a number, the first one lowest. */
  function EightBits(b0: bool, b1: bool, b2: bool, b3: bool, b4: bool, b5: bool, b6: bool, b7: bool): nat {
    Bit(b0) + 2 * Bit(b1) + 4 * Bit(b2) + 8 * Bit(b3) + 0x10 * Bit(b4) + 0x20 * Bit(b5) + 0x40 * Bit(b6) + 0x80 * Bit(b7)
  }

  /** As a number, a byte has its bit 0 on top. */
  lemma ByteSum(b: bv8)
    ensures b as nat == EightBits(BitOf(b, 7), BitOf(b, 6), BitOf(b, 5), BitOf(b, 4), BitOf(b, 3), BitOf(b, 2), BitOf(b, 1), BitOf(b, 0))
  {
  }

  /** Any eight bits make a byte. */
  function ByteOf(bits: Space): bv8
    requires |bits| == 8
  {
    (if bits[0] then 0x80 else 0) | (if bits[1] then 0x40 else 0) | (if bits[2] then 0x20 else 0) | (if bits[3] then 0x10 else 0)
    | (if bits[4] then 0x08 else 0) | (if bits[5] then 0x04 else 0) | (if bits[6] then 0x02 else 0) | (if bits[7] then 0x01 else 0)
  }

  lemma ByteOfBit(bits: Space, k: nat)
    requires |bits| == 8 && k < 8
    ensures BitOf(ByteOf(bits), k) == bits[k]
  {
  }

  /** The top k bits of a byte, and the bits below them. */
  function KeepHigh(k: nat): bv8
    requires k <= 8
  {
    [0x00, 0x80, 0xC0, 0xE0, 0xF0, 0xF8, 0xFC, 0xFE, 0xFF][k]
  }

  function KeepLow(k: nat): bv8
    requires k <= 8
  {
    [0xFF, 0x7F, 0x3F, 0x1F, 0x0F, 0x07, 0x03, 0x01, 0x00][k]
  }

  lemma KeepBits(k: nat, j: nat)
    requires k <= 8 && j < 8
    ensures BitOf(KeepHigh(k), j) <==> j < k
    ensures BitOf(KeepLow(k), j) <==> j >= k
  {
  }

  lemma MaskBit(k: nat, j: nat)
    requires k < 8 && j < 8
    ensures BitOf(Mask(k), j) <==> j == k
  {
  }

  lemma NotBit(b: bv8, j: nat)
    requires j < 8
    ensures BitOf(!b, j) <==> !BitOf(b, j)
  {
    hide Mask;
    MaskOne(j);
    MaskSplit(b, Mask(j));
  }

  lemma MaskOne(k: nat)
    requires k < 8
    ensures Mask(k) in {0x80, 0x40, 0x20, 0x10, 0x08, 0x04, 0x02, 0x01}
  {
  }

  lemma MaskSplit(b: bv8, m: bv8)
    requires m in {0x80, 0x40, 0x20, 0x10, 0x08, 0x04, 0x02, 0x01}
    ensures !b & m != 0 <==> b & m == 0
  {
  }

  lemma BlendBit(d: bv8, s: bv8, m: bv8, j: nat)
    requires j < 8
    ensures BitOf((d & !m) | (s & m), j) == if BitOf(m, j) then BitOf(s, j) else BitOf(d, j)
  {
    hide BitOf;
    OrBit(d & !m, s & m, j);
    AndBit(d, !m, j);
    AndBit(s, m, j);
    NotBit(m, j);
  }

  function ShiftLeft(b: bv8, k: nat): bv8
    requires k < 8
  {
    b << k
  }

  function ShiftRight(b: bv8, k: nat): bv8
    requires k < 8
  {
    b >> k
  }

  lemma ShiftLeftBit(b: bv8, k: nat, j: nat)
    requires k < 8 && j < 8
    ensures BitOf(ShiftLeft(b, k), j) == (j + k < 8 && BitOf(b, j + k))
  {
  }

  lemma ShiftRightBit(b: bv8, k: nat, j: nat)
    requires k < 8 && j < 8
    ensures BitOf(ShiftRight(b, k), j) == (k <= j && BitOf(b, j - k))
  {
  }

  lemma OrBit(a: bv8, b: bv8, j: nat)
    requires j < 8
    ensures BitOf(a | b, j) == (BitOf(a, j) || BitOf(b, j))
  {
    hide Mask;
    var m := Mask(j);
    assert (a | b) & m == (a & m) | (b & m);
    OrZero(a & m, b & m);
  }

  lemma OrZero(a: bv8, b: bv8)
    ensures a | b == 0 <==> a == 0 && b == 0
  {
  }

  lemma AndBit(a: bv8, b: bv8, j: nat)
    requires j < 8
    ensures BitOf(a & b, j) == (BitOf(a, j) && BitOf(b, j))
  {
    hide Mask;
    MaskOne(j);
    AndMask(a, b, Mask(j));
  }

  lemma AndMask(a: bv8, b: bv8, m: bv8)
    requires m in {0x80, 0x40, 0x20, 0x10, 0x08, 0x04, 0x02, 0x01}
    ensures a & b & m != 0 <==> a & m != 0 && b & m != 0
  {
  }
}
