/** Bit strings, the numbers they spell low bit first, and the bit copy. */
module Bits {

  type Space = seq<bool>

  function Pow2(k: nat): (r: nat)
    ensures r > 0
  {
    if k == 0 then 1 else 2 * Pow2(k - 1)
  }

  function Bit(b: bool): nat {
    if b then 1 else 0
  }

  /** The number spelled by the w bits at position at, least significant bit first. */
  function Val(s: Space, at: nat, w: nat): (v: nat)
    requires at + w <= |s|
    ensures v < Pow2(w)
    decreases |s| - at
  {
    if w == 0 then 0 else Bit(s[at]) + 2 * Val(s, at + 1, w - 1)
  }

  /** The one operation of the machine: all n source bits are read before any is written. */
  function CopyBits(s: Space, n: nat, dst: nat, src: nat): (t: Space)
    requires dst + n <= |s| && src + n <= |s|
    ensures |t| == |s|
    ensures forall p {:trigger t[p]} | 0 <= p < |s| ::
      t[p] == if dst <= p < dst + n then s[p - dst + src] else s[p]
  {
    s[..dst] + s[src..src + n] + s[dst + n..]
  }

  /** A number depends only on its own bits, wherever they lie. */
  lemma {:induction false} ValMove(s: Space, a: nat, t: Space, b: nat, w: nat)
    requires a + w <= |s| && b + w <= |t|
    requires forall p {:trigger s[p]} | a <= p < a + w :: s[p] == t[p - a + b]
    ensures Val(s, a, w) == Val(t, b, w)
    decreases w
  {
    if w > 0 {
      assert s[a] == t[b];
      ValMove(s, a + 1, t, b + 1, w - 1);
    }
  }

  lemma ValFrame(s: Space, t: Space, a: nat, w: nat)
    requires a + w <= |s| && a + w <= |t|
    requires forall p {:trigger s[p]} {:trigger t[p]} | a <= p < a + w :: s[p] == t[p]
    ensures Val(s, a, w) == Val(t, a, w)
  {
    ValMove(s, a, t, a, w);
  }

  /** A number lying wholly inside the copied bits is the number that lay at the source. */
  lemma CopyInside(s: Space, n: nat, dst: nat, src: nat, a: nat, w: nat)
    requires dst + n <= |s| && src + n <= |s| && dst <= a && a + w <= dst + n
    ensures Val(CopyBits(s, n, dst, src), a, w) == Val(s, a - dst + src, w)
  {
    ValMove(CopyBits(s, n, dst, src), a, s, a - dst + src, w);
  }

  /** A number lying wholly outside the copied bits stays. */
  lemma CopyOutside(s: Space, n: nat, dst: nat, src: nat, a: nat, w: nat)
    requires dst + n <= |s| && src + n <= |s| && a + w <= |s|
    requires a + w <= dst || dst + n <= a
    ensures Val(CopyBits(s, n, dst, src), a, w) == Val(s, a, w)
  {
    ValFrame(CopyBits(s, n, dst, src), s, a, w);
  }

  lemma {:induction false} ValSplit(s: Space, at: nat, v: nat, w: nat)
    requires at + v + w <= |s|
    ensures Val(s, at, v + w) == Val(s, at, v) + Pow2(v) * Val(s, at + v, w)
    decreases v
  {
    if v > 0 {
      ValSplit(s, at + 1, v - 1, w);
      MulAssoc(2, Pow2(v - 1), Val(s, at + v, w));
    }
  }

  lemma MulAssoc(a: int, b: int, c: int)
    ensures a * (b * c) == (a * b) * c
  {
  }

  lemma ValSnoc(s: Space, at: nat, w: nat)
    requires at + w + 1 <= |s|
    ensures Val(s, at, w + 1) == Val(s, at, w) + Pow2(w) * Bit(s[at + w])
  {
    ValSplit(s, at, w, 1);
    assert Val(s, at + w, 1) == Bit(s[at + w]) + 2 * Val(s, at + w + 1, 0);
  }

  lemma {:induction false} Pow2Add(a: nat, b: nat)
    ensures Pow2(a + b) == Pow2(a) * Pow2(b)
  {
    if a > 0 {
      Pow2Add(a - 1, b);
      MulAssoc(2, Pow2(a - 1), Pow2(b));
    }
  }

  lemma SmallPowers()
    ensures Pow2(0) == 1 && Pow2(1) == 2 && Pow2(2) == 4 && Pow2(3) == 8 && Pow2(4) == 16
    ensures Pow2(5) == 32 && Pow2(6) == 64
  {
  }

  /** v with the w bits from off replaced by those of x. */
  function Replace(v: nat, off: nat, w: nat, x: nat): nat
    decreases off + w
  {
    if off > 0 then v % 2 + 2 * Replace(v / 2, off - 1, w, x)
    else if w > 0 then x % 2 + 2 * Replace(v / 2, 0, w - 1, x / 2)
    else v
  }

  lemma {:induction false} ReplaceAll(v: nat, w: nat, x: nat)
    requires v < Pow2(w) && x < Pow2(w)
    ensures Replace(v, 0, w, x) == x
    decreases w
  {
    if w > 0 {
      ReplaceAll(v / 2, w - 1, x / 2);
    }
  }

  lemma Doubled(h: nat, k: nat)
    requires k > 0
    ensures Pow2(k) == 2 * Pow2(k - 1)
    ensures h * Pow2(k) == 2 * (h * Pow2(k - 1))
    ensures Pow2(k) * h == 2 * (Pow2(k - 1) * h)
  {
    MulAssoc(h, 2, Pow2(k - 1));
    MulAssoc(2, Pow2(k - 1), h);
  }

  lemma ReplaceDown(v: nat, off: nat, w: nat, x: nat, u: nat)
    requires off + w > 0 && u == v / 2
    ensures Replace(v, off, w, x) ==
      if off > 0 then v % 2 + 2 * Replace(u, off - 1, w, x) else x % 2 + 2 * Replace(u, 0, w - 1, x / 2)
  {
  }

  /** Bits put where v has only zeros add up. */
  lemma {:induction false} ReplaceZeros(l: nat, h: nat, off: nat, w: nat, x: nat)
    requires l < Pow2(off) && x < Pow2(w)
    ensures Replace(l + h * Pow2(off + w), off, w, x) == l + h * Pow2(off + w) + Pow2(off) * x
    decreases off + w
  {
    if off + w > 0 {
      var high := h * Pow2(off + w - 1);
      Doubled(h, off + w);
      ReplaceDown(l + h * Pow2(off + w), off, w, x, l / 2 + high);
      if off > 0 {
        Doubled(x, off);
        hide Pow2, Replace;
        ReplaceZeros(l / 2, h, off - 1, w, x);
      } else {
        ReplaceZeros(0, h, 0, w - 1, x / 2);
      }
    }
  }

  lemma {:induction false} MulMonotone(m: nat, a: int, b: int)
    requires a < b
    ensures m * a + m <= m * b
    decreases b - a
  {
    Distribute(m, b - 1, 1);
    if a + 1 < b {
      MulMonotone(m, a, b - 1);
    }
  }

  lemma DivModUnique(m: nat, q: nat, r: nat)
    requires r < m
    ensures (r + m * q) / m == q && (r + m * q) % m == r
  {
    var n := r + m * q;
    if n / m < q {
      MulMonotone(m, n / m, q);
    } else if n / m > q {
      MulMonotone(m, q, n / m);
    }
  }

  lemma SmallMod(v: nat, m: nat)
    requires v < m
    ensures v % m == v
  {
  }

  lemma Distribute(a: int, b: int, c: int)
    ensures a * (b + c) == a * b + a * c
  {
  }

  /** Copying w bits over part of a field replaces those bits of its number. */
  lemma {:induction false} ValReplace(s: Space, t: Space, at: nat, width: nat, off: nat, w: nat)
    requires |s| == |t| && at + width <= |s| && off + w <= width
    requires forall p {:trigger t[p]} | at <= p < at + width && !(at + off <= p < at + off + w) :: t[p] == s[p]
    ensures Val(t, at, width) == Replace(Val(s, at, width), off, w, Val(t, at + off, w))
    decreases width
  {
    if off > 0 {
      ValReplace(s, t, at + 1, width - 1, off - 1, w);
    } else if w > 0 {
      ValReplace(s, t, at + 1, width - 1, 0, w - 1);
    } else {
      ValFrame(t, s, at, width);
    }
  }
}
