/** Carries: the ripple definition, groups of positions, and what they mean for numbers. */
module Prefix {
  import opened Bits

  /** The carry into position i of x + y + cin. */
  function CarryIn(x: Space, y: Space, cin: bool, i: nat): bool
    requires i <= |x| && i <= |y|
  {
    if i == 0 then cin
    else
      var c := CarryIn(x, y, cin, i - 1);
      (x[i - 1] && y[i - 1]) || (x[i - 1] != y[i - 1] && c)
  }

  function SumBit(x: Space, y: Space, cin: bool, i: nat): bool
    requires i < |x| && i < |y|
  {
    (x[i] != y[i]) != CarryIn(x, y, cin, i)
  }

  /** The bits so defined spell the sum. */
  lemma {:induction false} SumSpells(x: Space, y: Space, z: Space, cin: bool, n: nat)
    requires n <= |x| && n <= |y| && n <= |z| && forall i | 0 <= i < n :: z[i] == SumBit(x, y, cin, i)
    ensures Val(z, 0, n) + Pow2(n) * Bit(CarryIn(x, y, cin, n)) == Val(x, 0, n) + Val(y, 0, n) + Bit(cin)
  {
    hide Val;
    if n == 0 {
      assert Pow2(0) == 1;
      ValNone(x);
      ValNone(y);
      ValNone(z);
    } else {
      SumSpells(x, y, z, cin, n - 1);
      ValSnoc(x, 0, n - 1);
      ValSnoc(y, 0, n - 1);
      ValSnoc(z, 0, n - 1);
      var c, d := CarryIn(x, y, cin, n - 1), CarryIn(x, y, cin, n);
      assert Bit(z[n - 1]) + 2 * Bit(d) == Bit(x[n - 1]) + Bit(y[n - 1]) + Bit(c);
      Scale(Pow2(n - 1), Bit(z[n - 1]), Bit(d), Bit(x[n - 1]), Bit(y[n - 1]), Bit(c));
    }
  }

  lemma ValNone(s: Space)
    ensures Val(s, 0, 0) == 0
  {
  }

  lemma Scale(m: nat, z: nat, d: nat, x: nat, y: nat, c: nat)
    requires z + 2 * d == x + y + c
    ensures m * z + 2 * m * d == m * x + m * y + m * c
  {
    assert m * (z + 2 * d) == m * (x + y + c);
  }

  /** The complement of a word is what is missing to all ones. */
  lemma {:induction false} Complement(y: Space, z: Space, n: nat)
    requires n <= |y| && n <= |z| && forall i | 0 <= i < n :: z[i] == !y[i]
    ensures Val(y, 0, n) + Val(z, 0, n) + 1 == Pow2(n)
  {
    hide Val;
    if n == 0 {
      ValNone(y);
      ValNone(z);
    } else {
      Complement(y, z, n - 1);
      ValSnoc(y, 0, n - 1);
      ValSnoc(z, 0, n - 1);
    }
  }

  /** A group of positions lo .. hi-1 generates a carry of its own. */
  function Generates(g: Space, p: Space, lo: nat, hi: nat): bool
    requires hi <= |g| && hi <= |p|
    decreases hi
  {
    hi > lo && (g[hi - 1] || (p[hi - 1] && Generates(g, p, lo, hi - 1)))
  }

  /** A group passes a carry on. */
  predicate Propagates(p: Space, lo: nat, hi: nat)
    requires hi <= |p|
  {
    forall i | lo <= i < hi :: p[i]
  }

  /** Two neighbouring groups make one. */
  lemma {:induction false} Combine(g: Space, p: Space, lo: nat, mid: nat, hi: nat)
    requires lo <= mid <= hi && hi <= |g| && hi <= |p|
    ensures Generates(g, p, lo, hi) == (Generates(g, p, mid, hi) || (Propagates(p, mid, hi) && Generates(g, p, lo, mid)))
    ensures Propagates(p, lo, hi) == (Propagates(p, lo, mid) && Propagates(p, mid, hi))
    decreases hi
  {
    if mid < hi {
      Combine(g, p, lo, mid, hi - 1);
      assert Propagates(p, mid, hi) == (Propagates(p, mid, hi - 1) && p[hi - 1]);
    }
  }

  /** The carry into a position, from the group of all positions below it. */
  lemma {:induction false} CarryOfGroup(x: Space, y: Space, g: Space, p: Space, cin: bool, i: nat)
    requires i <= |x| && i <= |y| && i <= |g| && i <= |p|
    requires forall k | 0 <= k < i :: g[k] == (x[k] && y[k]) && p[k] == (x[k] != y[k])
    ensures CarryIn(x, y, cin, i) == (Generates(g, p, 0, i) || (Propagates(p, 0, i) && cin))
  {
    if i > 0 {
      CarryOfGroup(x, y, g, p, cin, i - 1);
      assert Propagates(p, 0, i) == (Propagates(p, 0, i - 1) && p[i - 1]);
    }
  }
}
