/** The bit copy of src/bitcopy.c over byte arrays, on every one of its paths. */
module BitCopy {
  import opened Bits
  import opened Bytes

  /** The target after n bits have been copied into it, all of them taken from the source as it was. */
  ghost predicate Moved(src: seq<bv8>, dst: seq<bv8>, n: nat, from: nat, to: nat, now: seq<bv8>)
    requires from + n <= 8 * |src| && to + n <= 8 * |dst|
  {
    && |now| == |dst|
    && forall p {:trigger BitAt(now, p)} {:trigger BitAt(dst, p)} | 0 <= p < 8 * |dst| ::
         BitAt(now, p) == if to <= p < to + n then BitAt(src, p - to + from) else BitAt(dst, p)
  }

  /** A write to one byte changes the bits of that byte. */
  lemma BytePut(before: seq<bv8>, after: seq<bv8>, i: nat, b: bv8)
    requires i < |before| && after == before[i := b]
    ensures forall p {:trigger BitAt(after, p)} {:trigger BitAt(before, p)} | 0 <= p < 8 * |before| ::
      BitAt(after, p) == if p / 8 == i then BitOf(b, p % 8) else BitAt(before, p)
  {
    hide BitOf;
  }

  method SetBit(a: array<bv8>, p: nat, v: bool)
    requires p < 8 * a.Length
    modifies a
    ensures forall q | 0 <= q < 8 * a.Length :: BitAt(a[..], q) == if q == p then v else BitAt(old(a[..]), q)
  {
    hide BitOf, Mask, BitAt;
    var mask := Mask(p % 8);
    if v {
      a[p / 8] := a[p / 8] | mask;
    } else {
      a[p / 8] := a[p / 8] & !mask;
    }
    BitPut(old(a[..]), a[..], p, v);
  }

  lemma BitPut(before: seq<bv8>, after: seq<bv8>, p: nat, v: bool)
    requires p < 8 * |before|
    requires var b := before[p / 8]; after == before[p / 8 := if v then b | Mask(p % 8) else b & !Mask(p % 8)]
    ensures forall q | 0 <= q < 8 * |before| :: BitAt(after, q) == if q == p then v else BitAt(before, q)
  {
    hide BitOf, Mask;
    var i, k := p / 8, p % 8;
    SetBitBits(before[i], k);
    BytePut(before, after, i, after[i]);
    forall q | 0 <= q < 8 * |before| ensures BitAt(after, q) == if q == p then v else BitAt(before, q) {
      if q / 8 == i {
        assert BitAt(before, q) == BitOf(before[i], q % 8);
        assert q % 8 == k <==> q == p;
      }
    }
  }

  lemma SetBitBits(b: bv8, k: nat)
    requires k < 8
    ensures forall j | 0 <= j < 8 :: BitOf(b | Mask(k), j) == (j == k || BitOf(b, j))
    ensures forall j | 0 <= j < 8 :: BitOf(b & !Mask(k), j) == (j != k && BitOf(b, j))
  {
    hide BitOf, Mask;
    forall j | 0 <= j < 8
      ensures BitOf(b | Mask(k), j) == (j == k || BitOf(b, j)) && BitOf(b & !Mask(k), j) == (j != k && BitOf(b, j))
    {
      SetOneBit(b, k, j);
    }
  }

  lemma SetOneBit(b: bv8, k: nat, j: nat)
    requires k < 8 && j < 8
    ensures BitOf(b | Mask(k), j) == (j == k || BitOf(b, j)) && BitOf(b & !Mask(k), j) == (j != k && BitOf(b, j))
  {
    hide BitOf, Mask;
    MaskBit(k, j);
    OrBit(b, Mask(k), j);
    ClearOneBit(b, Mask(k), j);
  }

  lemma ClearOneBit(b: bv8, mask: bv8, j: nat)
    requires j < 8
    ensures BitOf(b & !mask, j) == (!BitOf(mask, j) && BitOf(b, j))
  {
    hide BitOf, Mask;
    NotBit(mask, j);
    AndBit(b, !mask, j);
  }

  /** Bit by bit, in the direction that never overwrites a bit still to be read. */
  method CopyBitwise(n: nat, src: array<bv8>, from: nat, dst: array<bv8>, to: nat)
    requires from + n <= 8 * src.Length && to + n <= 8 * dst.Length
    modifies dst
    ensures Moved(old(src[..]), old(dst[..]), n, from, to, dst[..])
    ensures forall p | 0 <= p < 8 * dst.Length ::
      BitAt(dst[..], p) == if to <= p < to + n then BitAt(old(src[..]), p - to + from) else BitAt(old(dst[..]), p)
  {
    hide BitAt;
    if to < from {
      var i := 0;
      while i < n
        invariant 0 <= i <= n
        invariant Moved(old(src[..]), old(dst[..]), i, from, to, dst[..])
      {
        SetBit(dst, to + i, BitAt(src[..], from + i));
        i := i + 1;
      }
    } else {
      var i := n;
      while i > 0
        invariant 0 <= i <= n
        invariant Moved(old(src[..]), old(dst[..]), n - i, from + i, to + i, dst[..])
      {
        i := i - 1;
        SetBit(dst, to + i, BitAt(src[..], from + i));
      }
    }
  }

  /** Two pieces one after the other; the second may find the source already changed elsewhere. */
  lemma MovedThen(src: seq<bv8>, dst: seq<bv8>, k: nat, m: nat, from: nat, to: nat, src': seq<bv8>, mid: seq<bv8>, now: seq<bv8>)
    requires from + k + m <= 8 * |src| && to + k + m <= 8 * |dst| && |src'| == |src|
    requires Moved(src, dst, k, from, to, mid) && Moved(src', mid, m, from + k, to + k, now)
    requires forall p {:trigger BitAt(src', p)} | from + k <= p < from + k + m :: BitAt(src', p) == BitAt(src, p)
    ensures Moved(src, dst, k + m, from, to, now)
  {
    hide BitAt;
    forall p {:trigger BitAt(now, p)} {:trigger BitAt(dst, p)} | 0 <= p < 8 * |dst|
      ensures BitAt(now, p) == if to <= p < to + k + m then BitAt(src, p - to + from) else BitAt(dst, p)
    {
      assert BitAt(mid, p) == BitAt(mid, p);
    }
  }

  lemma MovedNone(src: seq<bv8>, dst: seq<bv8>, from: nat, to: nat)
    requires from <= 8 * |src| && to <= 8 * |dst|
    ensures Moved(src, dst, 0, from, to, dst)
  {
  }

  method CopyBytes(n: nat, src: array<bv8>, s: nat, dst: array<bv8>, d: nat)
    requires s + n <= src.Length && d + n <= dst.Length
    modifies dst
    ensures Moved(old(src[..]), old(dst[..]), 8 * n, 8 * s, 8 * d, dst[..])
  {
    forall i | 0 <= i < n {
      dst[d + i] := src[s + i];
    }
    hide BitOf;
    forall p {:trigger BitAt(dst[..], p)} | 0 <= p < 8 * dst.Length
      ensures BitAt(dst[..], p) == if 8 * d <= p < 8 * d + 8 * n then BitAt(old(src[..]), p - 8 * d + 8 * s) else BitAt(old(dst[..]), p)
    {
      if 8 * d <= p < 8 * d + 8 * n {
        var q := p - 8 * d + 8 * s;
        assert q / 8 == p / 8 - d + s && q % 8 == p % 8;
        assert dst[d + (p / 8 - d)] == old(src[s + (p / 8 - d)]);
      }
    }
  }

  /** Bits lo..hi-1 of one byte. */
  method CopyMasked(mask: bv8, lo: nat, hi: nat, src: array<bv8>, s: nat, dst: array<bv8>, d: nat)
    requires s < src.Length && d < dst.Length && lo <= hi <= 8
    requires forall j | 0 <= j < 8 :: BitOf(mask, j) <==> lo <= j < hi
    modifies dst
    ensures Moved(old(src[..]), old(dst[..]), hi - lo, 8 * s + lo, 8 * d + lo, dst[..])
  {
    hide BitOf, Moved;
    dst[d] := (dst[d] & !mask) | (src[s] & mask);
    MaskedMoved(old(src[..]), old(dst[..]), dst[..], mask, lo, hi, s, d);
  }

  lemma MaskedMoved(src: seq<bv8>, dst: seq<bv8>, now: seq<bv8>, mask: bv8, lo: nat, hi: nat, s: nat, d: nat)
    requires s < |src| && d < |dst| && lo <= hi <= 8 && now == dst[d := (dst[d] & !mask) | (src[s] & mask)]
    requires forall j | 0 <= j < 8 :: BitOf(mask, j) <==> lo <= j < hi
    ensures Moved(src, dst, hi - lo, 8 * s + lo, 8 * d + lo, now)
  {
    hide BitOf;
    var b, c := dst[d], src[s];
    BytePut(dst, now, d, now[d]);
    forall j | 0 <= j < 8 ensures BitOf(now[d], j) == if lo <= j < hi then BitOf(c, j) else BitOf(b, j) {
      BlendBit(b, c, mask, j);
    }
    BlendMoved(src, dst, now, now[d], lo, hi, s, d);
  }

  lemma BlendMoved(src: seq<bv8>, dst: seq<bv8>, now: seq<bv8>, x: bv8, lo: nat, hi: nat, s: nat, d: nat)
    requires s < |src| && d < |dst| == |now| && lo <= hi <= 8
    requires forall p {:trigger BitAt(now, p)} {:trigger BitAt(dst, p)} | 0 <= p < 8 * |dst| ::
      BitAt(now, p) == if p / 8 == d then BitOf(x, p % 8) else BitAt(dst, p)
    requires forall j | 0 <= j < 8 :: BitOf(x, j) == if lo <= j < hi then BitOf(src[s], j) else BitOf(dst[d], j)
    ensures Moved(src, dst, hi - lo, 8 * s + lo, 8 * d + lo, now)
  {
    hide BitOf;
    forall p {:trigger BitAt(now, p)} {:trigger BitAt(dst, p)} | 0 <= p < 8 * |dst|
      ensures BitAt(now, p) == if 8 * d + lo <= p < 8 * d + hi then BitAt(src, p - 8 * d + 8 * s) else BitAt(dst, p)
    {
      var j := p % 8;
      if p / 8 == d {
        assert p == 8 * d + j && (8 * s + j) / 8 == s && (8 * s + j) % 8 == j;
      }
    }
  }

  /** One target byte from two neighbouring source bytes. */
  method CopyShifted(mod: nat, src: array<bv8>, s: nat, dst: array<bv8>, d: nat)
    requires mod < 8 && 8 * s + mod + 8 <= 8 * src.Length && d < dst.Length
    modifies dst
    ensures Moved(old(src[..]), old(dst[..]), 8, 8 * s + mod, 8 * d, dst[..])
  {
    hide BitOf, ShiftLeft, ShiftRight, Moved;
    var c := ShiftLeft(src[s], mod);
    if mod > 0 {
      c := c | ShiftRight(src[s + 1], 8 - mod);
    }
    dst[d] := c;
    ShiftedMoved(old(src[..]), old(dst[..]), dst[..], mod, s, d, c);
  }

  lemma ShiftedMoved(src: seq<bv8>, dst: seq<bv8>, now: seq<bv8>, mod: nat, s: nat, d: nat, c: bv8)
    requires mod < 8 && 8 * s + mod + 8 <= 8 * |src| && d < |dst| && now == dst[d := c]
    requires c == if mod > 0 then ShiftLeft(src[s], mod) | ShiftRight(src[s + 1], 8 - mod) else ShiftLeft(src[s], mod)
    ensures Moved(src, dst, 8, 8 * s + mod, 8 * d, now)
  {
    hide BitAt, BitOf, ShiftLeft, ShiftRight;
    var x, y := src[s], src[if mod > 0 then s + 1 else s];
    ShiftedBits(x, y, mod, c);
    BytePut(dst, now, d, c);
    forall p {:trigger BitAt(now, p)} {:trigger BitAt(dst, p)} | 0 <= p < 8 * |dst|
      ensures BitAt(now, p) == if 8 * d <= p < 8 * d + 8 then BitAt(src, p - 8 * d + 8 * s + mod) else BitAt(dst, p)
    {
      assert 8 * d <= p < 8 * d + 8 <==> p / 8 == d;
      if p / 8 == d {
        FunnelAt(src, x, y, s, mod, p % 8);
        assert 8 * s + mod + p % 8 == p - 8 * d + 8 * s + mod;
      }
    }
  }

  lemma FunnelAt(src: seq<bv8>, x: bv8, y: bv8, s: nat, mod: nat, j: nat)
    requires mod < 8 && j < 8 && 8 * s + mod + 8 <= 8 * |src|
    requires x == src[s] && y == src[if mod > 0 then s + 1 else s]
    ensures BitAt(src, 8 * s + mod + j) == if j + mod < 8 then BitOf(x, j + mod) else BitOf(y, j + mod - 8)
  {
    hide BitOf;
    var q := 8 * s + mod + j;
    assert q / 8 == (if j + mod < 8 then s else s + 1);
    assert q % 8 == (if j + mod < 8 then j + mod else j + mod - 8);
  }

  lemma ShiftedBits(x: bv8, y: bv8, mod: nat, c: bv8)
    requires mod < 8
    requires c == if mod > 0 then ShiftLeft(x, mod) | ShiftRight(y, 8 - mod) else ShiftLeft(x, mod)
    ensures forall j | 0 <= j < 8 :: BitOf(c, j) == if j + mod < 8 then BitOf(x, j + mod) else BitOf(y, j + mod - 8)
  {
    hide BitOf, ShiftLeft, ShiftRight;
    forall j | 0 <= j < 8 ensures BitOf(c, j) == if j + mod < 8 then BitOf(x, j + mod) else BitOf(y, j + mod - 8) {
      ShiftLeftBit(x, mod, j);
      if mod > 0 {
        ShiftRightBit(y, 8 - mod, j);
        OrBit(ShiftLeft(x, mod), ShiftRight(y, 8 - mod), j);
      }
    }
  }

  /**
   * Copies n bits within or between buffers. The result is the one of a copy that reads every bit
   * before it writes any, whatever the positions, also when the two ranges overlap or share a byte.
   */
  method Bitcpy(n: nat, src: array<bv8>, from: nat, dst: array<bv8>, to: nat)
    requires from + n <= 8 * src.Length && to + n <= 8 * dst.Length
    modifies dst
    ensures Moved(old(src[..]), old(dst[..]), n, from, to, dst[..])
    ensures forall p | 0 <= p < 8 * dst.Length ::
      BitAt(dst[..], p) == if to <= p < to + n then BitAt(old(src[..]), p - to + from) else BitAt(old(dst[..]), p)
  {
    hide BitAt, BitOf, KeepHigh, KeepLow;
    if n == 0 || (src == dst && from == to) {
      return;
    }
    if n < 8 || (src == dst && from < to + n && to < from + n) {
      CopyBitwise(n, src, from, dst, to);
      return;
    }
    if from % 8 == 0 && to % 8 == 0 {
      CopyAligned(n, src, from, dst, to);
    } else if from % 8 == to % 8 {
      CopySameOffset(n, src, from, dst, to);
    } else {
      CopyAcross(n, src, from, dst, to);
    }
  }

  /** The ranges do not meet: a write to the target leaves the source's bits alone. */
  ghost predicate Disjoint(n: nat, src: array<bv8>, from: nat, dst: array<bv8>, to: nat) {
    src != dst || from + n <= to || to + n <= from
  }

  lemma SourceKept(src: array<bv8>, dst: array<bv8>, n: nat, k: nat, m: nat, from: nat, to: nat, src0: seq<bv8>, dst0: seq<bv8>)
    requires from + n <= 8 * src.Length && to + n <= 8 * dst.Length && k + m <= n
    requires |src0| == src.Length && |dst0| == dst.Length && (src == dst ==> src0 == dst0)
    requires src != dst ==> src[..] == src0
    requires Disjoint(n, src, from, dst, to) && Moved(src0, dst0, k, from, to, dst[..])
    ensures forall p {:trigger BitAt(src[..], p)} | from + k <= p < from + k + m :: BitAt(src[..], p) == BitAt(src0, p)
  {
    hide BitAt;
    if src == dst {
      assert src[..] == dst[..];
    }
  }

  /** Whole bytes, then the top bits of the last one. */
  method CopyAligned(n: nat, src: array<bv8>, from: nat, dst: array<bv8>, to: nat)
    requires from + n <= 8 * src.Length && to + n <= 8 * dst.Length
    requires from % 8 == 0 && to % 8 == 0 && Disjoint(n, src, from, dst, to)
    modifies dst
    ensures Moved(old(src[..]), old(dst[..]), n, from, to, dst[..])
  {
    hide BitAt, BitOf, KeepHigh, KeepLow;
    var bytes, rem := n / 8, n % 8;
    CopyBytes(bytes, src, from / 8, dst, to / 8);
    if rem > 0 {
      ghost var src1, mid := src[..], dst[..];
      SourceKept(src, dst, n, 8 * bytes, rem, from, to, old(src[..]), old(dst[..]));
      forall j | 0 <= j < 8 ensures BitOf(KeepHigh(rem), j) <==> 0 <= j < rem {
        KeepBits(rem, j);
      }
      CopyMasked(KeepHigh(rem), 0, rem, src, from / 8 + bytes, dst, to / 8 + bytes);
      MovedThen(old(src[..]), old(dst[..]), 8 * bytes, rem, from, to, src1, mid, dst[..]);
    }
  }

  /** The first byte's low bits make both positions whole. */
  method CopySameOffset(n: nat, src: array<bv8>, from: nat, dst: array<bv8>, to: nat)
    requires from + n <= 8 * src.Length && to + n <= 8 * dst.Length && n >= 8
    requires from % 8 == to % 8 != 0 && Disjoint(n, src, from, dst, to)
    modifies dst
    ensures Moved(old(src[..]), old(dst[..]), n, from, to, dst[..])
  {
    hide BitAt, BitOf, KeepHigh, KeepLow;
    var mod := to % 8;
    var head := 8 - mod;
    forall j | 0 <= j < 8 ensures BitOf(KeepLow(mod), j) <==> mod <= j < 8 {
      KeepBits(mod, j);
    }
    CopyMasked(KeepLow(mod), mod, 8, src, from / 8, dst, to / 8);
    ghost var src1, mid := src[..], dst[..];
    SourceKept(src, dst, n, head, n - head, from, to, old(src[..]), old(dst[..]));
    CopyAligned(n - head, src, from + head, dst, to + head);
    MovedThen(old(src[..]), old(dst[..]), head, n - head, from, to, src1, mid, dst[..]);
  }

  /** Different offsets: up to a whole target byte, byte by byte, and the rest. */
  method CopyAcross(n: nat, src: array<bv8>, from: nat, dst: array<bv8>, to: nat)
    requires from + n <= 8 * src.Length && to + n <= 8 * dst.Length && n >= 8
    requires from % 8 != to % 8 && Disjoint(n, src, from, dst, to)
    modifies dst
    ensures Moved(old(src[..]), old(dst[..]), n, from, to, dst[..])
  {
    hide BitAt, BitOf, Moved, Disjoint;
    var done := 0;
    MovedNone(src[..], dst[..], from, to);
    if to % 8 != 0 {
      done := 8 - to % 8;
      CopyBitwise(done, src, from, dst, to);
    }
    assert (to + done) % 8 == 0;
    while n - done >= 8
      invariant 0 <= done <= n && (to + done) % 8 == 0
      invariant src != dst ==> src[..] == old(src[..])
      invariant Moved(old(src[..]), old(dst[..]), done, from, to, dst[..])
    {
      ghost var src1, mid := src[..], dst[..];
      SourceKept(src, dst, n, done, 8, from, to, old(src[..]), old(dst[..]));
      CopyShifted((from + done) % 8, src, (from + done) / 8, dst, (to + done) / 8);
      MovedThen(old(src[..]), old(dst[..]), done, 8, from, to, src1, mid, dst[..]);
      done := done + 8;
    }
    if n > done {
      CopyRest(n, done, src, from, dst, to, old(src[..]), old(dst[..]));
    }
  }

  /** The bits behind those already copied. */
  method CopyRest(n: nat, done: nat, src: array<bv8>, from: nat, dst: array<bv8>, to: nat, ghost src0: seq<bv8>, ghost dst0: seq<bv8>)
    requires from + n <= 8 * src.Length && to + n <= 8 * dst.Length && done <= n && Disjoint(n, src, from, dst, to)
    requires |src0| == src.Length && |dst0| == dst.Length && (src == dst ==> src0 == dst0) && (src != dst ==> src[..] == src0)
    requires Moved(src0, dst0, done, from, to, dst[..])
    modifies dst
    ensures Moved(src0, dst0, n, from, to, dst[..])
  {
    hide BitAt, BitOf, Moved, Disjoint;
    ghost var src1, mid := src[..], dst[..];
    SourceKept(src, dst, n, done, n - done, from, to, src0, dst0);
    CopyBitwise(n - done, src, from + done, dst, to + done);
    MovedThen(src0, dst0, done, n - done, from, to, src1, mid, dst[..]);
  }
}
