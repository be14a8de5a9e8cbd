/**
 * The field reader of src/space.c. A 32-bit unsigned value is given by its bits, lowest first, so the
 * masks and shifts of the original are operations on bit lists; its number is Val of the list.
 */
module Reader {
  import opened Bits
  import opened Bytes

  type Word32 = w: seq<bool> | |w| == 32 witness seq(32, i => false)

  function Shl(w: Word32, k: nat): Word32
    requires k <= 32
  {
    seq(32, i => i >= k && i < 32 && w[i - k])
  }

  function Shr(w: Word32, k: nat): Word32
    requires k <= 32
  {
    seq(32, i => 0 <= i && i + k < 32 && w[i + k])
  }

  function And(a: Word32, b: Word32): Word32 {
    seq(32, i requires 0 <= i < 32 => a[i] && b[i])
  }

  function Or(a: Word32, b: Word32): Word32 {
    seq(32, i requires 0 <= i < 32 => a[i] || b[i])
  }

  /** The word whose bits repeat with a period: n ones, then n zeros. */
  function Stripes(n: nat): Word32
    requires n > 0
  {
    seq(32, i requires 0 <= i < 32 => i % (2 * n) < n)
  }

  /** 2^n - 1. */
  function Ones(n: nat): Word32 {
    seq(32, i requires 0 <= i < 32 => i < n)
  }

  /** A byte as a number: its top bit is the highest. */
  function Widen(b: bv8): Word32 {
    seq(32, i requires 0 <= i < 32 => i < 8 && BitOf(b, 7 - i))
  }

  /** One exchange of neighbouring groups of n bits. */
  function Exchange(w: Word32, n: nat): Word32
    requires 0 < n <= 16
  {
    Or(Shl(And(w, Stripes(n)), n), And(Shr(w, n), Stripes(n)))
  }

  function ReverseBitsInBytes(w: Word32): Word32 {
    Exchange(Exchange(Exchange(w, 1), 2), 4)
  }

  function Partner(n: nat, i: int): int
    requires 0 < n
  {
    if i % (2 * n) < n then i + n else i - n
  }

  lemma PartnerLow(n: nat, i: nat)
    requires n in {1, 2, 4} && i < 32
    ensures 0 <= Partner(n, i) < 32
    ensures i % (2 * n) < n ==> Partner(n, i) % (2 * n) == i % (2 * n) + n
    ensures i % (2 * n) >= n ==> Partner(n, i) % (2 * n) == i % (2 * n) - n
  {
    if n == 1 {
      PartnerIn(1, 16, i / 2, i % 2);
    } else if n == 2 {
      PartnerIn(2, 8, i / 4, i % 4);
    } else {
      PartnerIn(4, 4, i / 8, i % 8);
    }
  }

  lemma PartnerIn(n: nat, m: nat, q: nat, r: nat)
    requires (n == 1 && m == 16) || (n == 2 && m == 8) || (n == 4 && m == 4)
    requires q < m && r < 2 * n
    ensures var i := 2 * n * q + r; i % (2 * n) == r && i < 32
    ensures var p := 2 * n * q + (if r < n then r + n else r - n); p < 32 && p % (2 * n) == if r < n then r + n else r - n
  {
    DivModUnique(2 * n, q, r);
    DivModUnique(2 * n, q, if r < n then r + n else r - n);
  }

  lemma ExchangeAt(w: Word32, n: nat, i: nat)
    requires n in {1, 2, 4} && i < 32
    ensures 0 <= Partner(n, i) < 32 && Exchange(w, n)[i] == w[Partner(n, i)]
  {
    PartnerLow(n, i);
    var x, y := Shl(And(w, Stripes(n)), n), And(Shr(w, n), Stripes(n));
    assert Stripes(n)[i] == (i % (2 * n) < n);
    if i % (2 * n) < n {
      if i >= n {
        PartnerBelow(n, i);
        assert !Stripes(n)[i - n];
      }
      assert !x[i];
      assert y[i] == w[i + n];
    } else {
      assert !y[i];
      assert Stripes(n)[i - n];
      assert x[i] == w[i - n];
    }
  }

  lemma PartnerBelow(n: nat, i: nat)
    requires n in {1, 2, 4} && n <= i < 32 && i % (2 * n) < n
    ensures (i - n) % (2 * n) >= n
  {
  }

  lemma PartnersTurn(i: nat)
    requires i < 32
    ensures 0 <= Partner(4, i) < 32 && 0 <= Partner(2, Partner(4, i)) < 32
    ensures Partner(1, Partner(2, Partner(4, i))) == 8 * (i / 8) + 7 - i % 8
  {
  }

  /** Three exchanges turn every byte of the word around. */
  lemma ReverseBits(w: Word32, i: nat)
    requires i < 32
    ensures ReverseBitsInBytes(w)[i] == w[8 * (i / 8) + 7 - i % 8]
  {
    var v := Exchange(w, 1);
    var u := Exchange(v, 2);
    PartnersTurn(i);
    ExchangeAt(u, 4, i);
    ExchangeAt(v, 2, Partner(4, i));
    ExchangeAt(w, 1, Partner(2, Partner(4, i)));
  }

  /** Four bytes of the space as one word, lowest byte first. */
  function Pack(a: bv8, b: bv8, c: bv8, d: bv8): Word32 {
    Or(Or(Widen(a), Shl(Widen(b), 8)), Or(Shl(Widen(c), 16), Shl(Widen(d), 24)))
  }

  lemma PackedBit(bytes: seq<bv8>, i: nat)
    requires |bytes| == 4 && i < 32
    ensures ReverseBitsInBytes(Pack(bytes[0], bytes[1], bytes[2], bytes[3]))[i] == BitOf(bytes[i / 8], i % 8)
  {
    hide BitOf, ReverseBitsInBytes, Pack;
    ReverseBits(Pack(bytes[0], bytes[1], bytes[2], bytes[3]), i);
    ByteOf(i / 8, 7 - i % 8);
    PackAt(bytes[0], bytes[1], bytes[2], bytes[3], 8 * (i / 8) + 7 - i % 8);
    assert [bytes[0], bytes[1], bytes[2], bytes[3]] == bytes;
  }

  lemma PackAt(a: bv8, b: bv8, c: bv8, d: bv8, j: nat)
    requires j < 32
    ensures Pack(a, b, c, d)[j] == BitOf([a, b, c, d][j / 8], 7 - j % 8)
  {
    hide BitOf;
    WidenAt(a, 0, j);
    WidenAt(b, 8, j);
    WidenAt(c, 16, j);
    WidenAt(d, 24, j);
  }

  lemma WidenAt(b: bv8, k: nat, j: nat)
    requires k in {0, 8, 16, 24} && j < 32
    ensures Shl(Widen(b), k)[j] == (k <= j < k + 8 && BitOf(b, 7 - j % 8))
    ensures k == 0 ==> Widen(b)[j] == Shl(Widen(b), k)[j]
  {
    hide BitOf;
  }

  lemma WidenReversed(b: bv8, i: nat)
    requires i < 32
    ensures ReverseBitsInBytes(Widen(b))[i] == (i < 8 && BitOf(b, i))
  {
    hide BitOf;
    ReverseBits(Widen(b), i);
    assert i >= 8 ==> 8 * (i / 8) + 7 - i % 8 >= 8;
  }

  /** The word read at an offset: four bytes, and a fifth where they do not reach. */
  function Window(bytes: seq<bv8>, byte: nat, offset: nat, n: nat): Word32
    requires byte + 4 <= |bytes| && offset < 8 && n < 32 && 8 * byte + offset + n <= 8 * |bytes|
  {
    var value := Shr(ReverseBitsInBytes(Pack(bytes[byte], bytes[byte + 1], bytes[byte + 2], bytes[byte + 3])), offset);
    var more := if n + offset > 32 then Or(value, Shl(ReverseBitsInBytes(Widen(bytes[byte + 4])), 32 - offset)) else value;
    And(more, Ones(n))
  }

  lemma ByteOf(byte: nat, k: nat)
    ensures (8 * byte + k) / 8 == byte + k / 8 && (8 * byte + k) % 8 == k % 8
  {
  }

  /** A window is assembled from its four bytes and the overflow of the fifth. */
  lemma WindowParts(bytes: seq<bv8>, byte: nat, offset: nat, n: nat, i: nat)
    requires byte + 4 <= |bytes| && offset < 8 && n < 32 && 8 * byte + offset + n <= 8 * |bytes| && i < 32
    ensures var four := ReverseBitsInBytes(Pack(bytes[byte], bytes[byte + 1], bytes[byte + 2], bytes[byte + 3]));
      Window(bytes, byte, offset, n)[i] ==
        (i < n && if offset + i < 32 then four[offset + i]
                  else ReverseBitsInBytes(Widen(bytes[byte + 4]))[offset + i - 32])
  {
    hide ReverseBitsInBytes, Pack, Widen;
  }

  lemma WindowBit(bytes: seq<bv8>, byte: nat, offset: nat, n: nat, i: nat)
    requires byte + 4 <= |bytes| && offset < 8 && n < 32 && 8 * byte + offset + n <= 8 * |bytes| && i < 32
    ensures Window(bytes, byte, offset, n)[i] == (i < n && BitAt(bytes, 8 * byte + offset + i))
  {
    hide BitOf, ReverseBitsInBytes, Pack, Widen, Window;
    WindowParts(bytes, byte, offset, n, i);
    if i < n {
      var k := offset + i;
      ByteOf(byte, k);
      if k < 32 {
        PackedBit(bytes[byte..byte + 4], k);
      } else {
        WidenReversed(bytes[byte + 4], k - 32);
      }
    }
  }

  /**
   * Reads n bits as a number, lowest bit first: a whole word at a time, with the bytes turned around,
   * or bit by bit at the end of the space.
   */
  method GetArgument(space: array<bv8>, src: nat, n: nat) returns (value: Word32)
    requires n < 32 && src + n <= 8 * space.Length
    ensures forall i | 0 <= i < 32 :: value[i] == (i < n && BitAt(space[..], src + i))
    ensures Val(value, 0, 32) == Val(Unpack(space[..]), src, n)
  {
    hide BitAt, ReverseBitsInBytes, Widen, Pack;
    var byte, offset := src / 8, src % 8;
    if byte + 4 > space.Length {
      value := seq(32, i => false);
      var i := 0;
      while i < n
        invariant 0 <= i <= n
        invariant forall j | 0 <= j < 32 :: value[j] == (j < i && BitAt(space[..], src + j))
      {
        value := value[i := value[i] || BitAt(space[..], src + i)];
        i := i + 1;
      }
    } else {
      var packed := Pack(space[byte], space[byte + 1], space[byte + 2], space[byte + 3]);
      value := Shr(ReverseBitsInBytes(packed), offset);
      if n + offset > 32 {
        value := Or(value, Shl(ReverseBitsInBytes(Widen(space[byte + 4])), 32 - offset));
      }
      value := And(value, Ones(n));
      assert value == Window(space[..], byte, offset, n);
      forall i | 0 <= i < 32 ensures value[i] == (i < n && BitAt(space[..], src + i)) {
        WindowBit(space[..], byte, offset, n, i);
      }
    }
    NumberRead(value, Unpack(space[..]), src, n);
  }

  /** Zero bits on top do not count. */
  lemma {:induction false} NumberRead(w: seq<bool>, s: Space, src: nat, n: nat)
    requires n <= |w| && src + n <= |s|
    requires forall i | 0 <= i < |w| :: w[i] == (i < n && s[src + i])
    ensures Val(w, 0, |w|) == Val(s, src, n)
  {
    ValSplit(w, 0, n, |w| - n);
    ValMove(w, 0, s, src, n);
    ZeroVal(w, n);
  }

  lemma {:induction false} ZeroVal(w: seq<bool>, k: nat)
    requires k <= |w|
    requires forall i | k <= i < |w| :: !w[i]
    ensures Val(w, k, |w| - k) == 0
    decreases |w| - k
  {
    if k < |w| {
      ZeroVal(w, k + 1);
    }
  }
}
