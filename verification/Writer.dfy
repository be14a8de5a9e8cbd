/** The field writer of runtime/gcc/copy_emit.c, and rows written with it. */
module Writer {
  import opened Bits
  import opened Bytes
  import opened BitCopy
  import opened Machine

  /** Bit i of a number. */
  function Digit(v: nat, i: nat): bool {
    if i == 0 then v % 2 == 1 else Digit(v / 2, i - 1)
  }

  /** The number with its k lowest bits dropped. */
  function Dropped(v: nat, k: nat): nat {
    if k == 0 then v else Dropped(v / 2, k - 1)
  }

  lemma {:induction false} DigitDropped(v: nat, k: nat, i: nat)
    ensures Digit(Dropped(v, k), i) == Digit(v, k + i)
    decreases k
  {
    if k > 0 {
      DigitDropped(v / 2, k - 1, i);
    }
  }

  lemma {:induction false} DroppedIs(v: nat, k: nat)
    ensures Dropped(v, k) == v / Pow2(k)
    decreases k
  {
    if k > 0 {
      DroppedIs(v / 2, k - 1);
      Halved(v, Pow2(k - 1));
    }
  }

  lemma Halved(v: nat, m: nat)
    requires m > 0
    ensures v / 2 / m == v / (2 * m)
  {
    var q, r := v / 2 / m, v / 2 % m;
    MulAssoc(2, m, q);
    assert v == v % 2 + 2 * r + (2 * m) * q;
    DivModUnique(2 * m, q, v % 2 + 2 * r);
  }

  lemma {:induction false} BitDigit(s: Space, at: nat, w: nat, i: nat)
    requires at + w <= |s| && i < w
    ensures s[at + i] == Digit(Val(s, at, w), i)
    decreases i
  {
    if i > 0 {
      BitDigit(s, at + 1, w - 1, i - 1);
      assert Val(s, at, w) / 2 == Val(s, at + 1, w - 1);
    }
  }

  lemma DigitIs(v: nat, i: nat)
    ensures Digit(v, i) == (v / Pow2(i) % 2 == 1)
  {
    DigitDropped(v, i, 0);
    DroppedIs(v, i);
  }

  /** The low byte of a number turned around: its bit 0 on top. */
  function ReverseByte(v: nat): bv8 {
    (if Digit(v, 0) then 0x80 else 0) | (if Digit(v, 1) then 0x40 else 0)
    | (if Digit(v, 2) then 0x20 else 0) | (if Digit(v, 3) then 0x10 else 0)
    | (if Digit(v, 4) then 0x08 else 0) | (if Digit(v, 5) then 0x04 else 0)
    | (if Digit(v, 6) then 0x02 else 0) | (if Digit(v, 7) then 0x01 else 0)
  }

  lemma ReverseByteBit(v: nat, j: nat)
    requires j < 8
    ensures BitOf(ReverseByte(v), j) == Digit(v, j)
  {
    hide Digit;
  }

  /** Bits offset .. offset+count-1 of a byte. */
  function FieldMask(offset: nat, count: nat): bv8
    requires 0 < count && offset + count <= 8
  {
    ShiftRight(0xFF, offset) & ShiftLeft(0xFF, 8 - offset - count)
  }

  lemma FieldMaskBit(offset: nat, count: nat, j: nat)
    requires 0 < count && offset + count <= 8 && j < 8
    ensures BitOf(FieldMask(offset, count), j) <==> offset <= j < offset + count
  {
    hide ShiftRight, ShiftLeft, BitOf;
    ShiftRightBit(0xFF, offset, j);
    ShiftLeftBit(0xFF, 8 - offset - count, j);
    AndBit(ShiftRight(0xFF, offset), ShiftLeft(0xFF, 8 - offset - count), j);
    AllOnes(j);
    if j >= offset { AllOnes(j - offset); }
    if j + 8 - offset - count < 8 { AllOnes(j + 8 - offset - count); }
  }

  lemma AllOnes(j: nat)
    requires j < 8
    ensures BitOf(0xFF, j)
  {
  }

  /** The bytes differ only in a field, which holds the low bits of the value, lowest first. */
  ghost predicate Wrote(before: seq<bv8>, after: seq<bv8>, at: nat, width: nat, value: nat)
    requires at + width <= 8 * |before|
  {
    && |after| == |before|
    && forall p {:trigger BitAt(after, p)} {:trigger BitAt(before, p)} | 0 <= p < 8 * |before| ::
         BitAt(after, p) == if at <= p < at + width then Digit(value, p - at) else BitAt(before, p)
  }

  lemma WroteThen(a: seq<bv8>, b: seq<bv8>, d: seq<bv8>, at: nat, count: nat, width: nat, value: nat)
    requires at + width <= 8 * |a| && count <= width
    requires Wrote(a, b, at, count, value) && Wrote(b, d, at + count, width - count, Dropped(value, count))
    ensures Wrote(a, d, at, width, value)
  {
    hide BitAt;
    forall p {:trigger BitAt(d, p)} {:trigger BitAt(a, p)} | 0 <= p < 8 * |a|
      ensures BitAt(d, p) == if at <= p < at + width then Digit(value, p - at) else BitAt(a, p)
    {
      assert BitAt(b, p) == BitAt(b, p);
      if at + count <= p < at + width {
        DigitDropped(value, count, p - at - count);
      }
    }
  }

  /** Part of a field inside one byte. */
  lemma ByteWrote(before: seq<bv8>, after: seq<bv8>, i: nat, offset: nat, count: nat, value: nat)
    requires i < |before| && 0 < count && offset + count <= 8
    requires var m := FieldMask(offset, count);
      after == before[i := (before[i] & !m) | (ShiftRight(ReverseByte(value), offset) & m)]
    ensures Wrote(before, after, 8 * i + offset, count, value)
  {
    hide BitOf, BitAt, ShiftRight, ShiftLeft, FieldMask, ReverseByte, Digit;
    var m := FieldMask(offset, count);
    BytePut(before, after, i, after[i]);
    forall p {:trigger BitAt(after, p)} {:trigger BitAt(before, p)} | 0 <= p < 8 * |before|
      ensures BitAt(after, p) == if 8 * i + offset <= p < 8 * i + offset + count then Digit(value, p - 8 * i - offset) else BitAt(before, p)
    {
      InByte(i, offset, count, p);
      if p / 8 == i {
        FieldBit(before[i], value, offset, count, p % 8);
        BitInByte(before, p);
      }
    }
  }

  lemma InByte(i: nat, offset: nat, count: nat, p: nat)
    requires offset + count <= 8
    ensures 8 * i + offset <= p < 8 * i + offset + count ==> p / 8 == i
    ensures p / 8 == i ==> p - 8 * i == p % 8
  {
  }

  lemma FieldBit(b: bv8, value: nat, offset: nat, count: nat, j: nat)
    requires 0 < count && offset + count <= 8 && j < 8
    ensures var m := FieldMask(offset, count);
      BitOf((b & !m) | (ShiftRight(ReverseByte(value), offset) & m), j) ==
        if offset <= j < offset + count then Digit(value, j - offset) else BitOf(b, j)
  {
    hide BitOf, ShiftRight, FieldMask, ReverseByte, Digit;
    BlendBit(b, ShiftRight(ReverseByte(value), offset), FieldMask(offset, count), j);
    FieldMaskBit(offset, count, j);
    ShiftRightBit(ReverseByte(value), offset, j);
    if j >= offset { ReverseByteBit(value, j - offset); }
  }

  lemma BitInByte(bytes: seq<bv8>, p: nat)
    requires p < 8 * |bytes|
    ensures BitAt(bytes, p) == BitOf(bytes[p / 8], p % 8)
  {
  }

  /** Writes the low bits of a value into the space, lowest first, byte by byte under masks. */
  method WriteField(data: array<bv8>, at: nat, width: nat, value: nat)
    requires at + width <= 8 * data.Length
    modifies data
    ensures Wrote(old(data[..]), data[..], at, width, value)
    ensures forall p | 0 <= p < 8 * data.Length ::
      BitAt(data[..], p) == if at <= p < at + width then Digit(value, p - at) else BitAt(old(data[..]), p)
  {
    hide BitAt, BitOf, Mask, FieldMask, ReverseByte, ShiftRight;
    if width == 1 {
      SetBit(data, at, value % 2 == 1);
      return;
    }
    var k := 0;
    var rest := value;
    while k < width
      invariant 0 <= k <= width && rest == Dropped(value, k)
      invariant Wrote(old(data[..]), data[..], at, k, value)
    {
      var i, offset := (at + k) / 8, (at + k) % 8;
      var count := if 8 - offset > width - k then width - k else 8 - offset;
      ghost var before := data[..];
      WriteByte(data, i, offset, count, rest);
      WroteThen(old(data[..]), before, data[..], at, k, k + count, value);
      DroppedTwice(value, k, count);
      rest := Dropped(rest, count);
      k := k + count;
    }
  }

  /** The part of a field that lies in one byte. */
  method WriteByte(data: array<bv8>, i: nat, offset: nat, count: nat, value: nat)
    requires i < data.Length && 0 < count && offset + count <= 8
    modifies data
    ensures Wrote(old(data[..]), data[..], 8 * i + offset, count, value)
  {
    hide BitAt, BitOf, FieldMask, ReverseByte, ShiftRight, Wrote;
    var mask := FieldMask(offset, count);
    data[i] := (data[i] & !mask) | (ShiftRight(ReverseByte(value), offset) & mask);
    ByteWrote(old(data[..]), data[..], i, offset, count, value);
  }

  lemma {:induction false} DroppedTwice(v: nat, j: nat, k: nat)
    ensures Dropped(Dropped(v, j), k) == Dropped(v, j + k)
    decreases j
  {
    if j > 0 {
      DroppedTwice(v / 2, j - 1, k);
    }
  }

  /** A field that was written reads back as the value, cut to the width. */
  lemma {:induction false} DigitsVal(s: Space, at: nat, w: nat, v: nat)
    requires at + w <= |s|
    requires forall p | at <= p < at + w :: s[p] == Digit(v, p - at)
    ensures Val(s, at, w) == v % Pow2(w)
    decreases w
  {
    if w > 0 {
      forall p | at + 1 <= p < at + w ensures s[p] == Digit(v / 2, p - at - 1) {
      }
      DigitsVal(s, at + 1, w - 1, v / 2);
      assert s[at] == Digit(v, 0);
      HalfMod(v, Pow2(w - 1));
    }
  }

  lemma HalfMod(v: nat, m: nat)
    requires m > 0
    ensures v % (2 * m) == v % 2 + 2 * (v / 2 % m)
  {
    var q, r := v / 2 / m, v / 2 % m;
    assert v / 2 == m * q + r;
    MulAssoc(2, m, q);
    DivModUnique(2 * m, q, v % 2 + 2 * r);
  }
}
