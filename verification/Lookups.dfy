/** Table lookups and plain copies inside a chunk: what the operations of the generators do to the data. */
module Lookups {
  import opened Bits
  import opened Machine
  import opened Layers
  import opened Programs
  import opened Emission

  predicate InSpan(p: int, at: nat, n: nat) {
    at <= p < at + n
  }

  ghost function Span(at: nat, n: nat): iset<int> {
    iset p | InSpan(p, at, n)
  }

  /** The spaces differ only inside the area. */
  ghost predicate Same(s: Space, t: Space, area: iset<int>) {
    && |s| == |t|
    && forall p {:trigger t[p]} {:trigger s[p]} | 0 <= p < |s| && p !in area :: t[p] == s[p]
  }

  lemma SameSize(s: Space, t: Space, area: iset<int>)
    requires Same(s, t, area)
    ensures |t| == |s|
  {
  }

  lemma SameSelf(s: Space, area: iset<int>)
    ensures Same(s, s, area)
  {
  }

  predicate Apart(a: nat, an: nat, b: nat, bn: nat) {
    a + an <= b || b + bn <= a
  }

  lemma SpanInside(a: nat, n: nat, b: nat, m: nat)
    requires a <= b && b + m <= a + n
    ensures Span(b, m) <= Span(a, n)
  {
  }

  /** A stretch of zeros. */
  ghost predicate Blank(s: Space, at: nat, n: nat) {
    at + n <= |s| && forall p | at <= p < at + n :: !s[p]
  }

  lemma BlankKept(s: Space, t: Space, area: iset<int>, at: nat, n: nat)
    requires Blank(s, at, n) && Same(s, t, area) && Span(at, n) !! area
    ensures Blank(t, at, n)
  {
    forall p | at <= p < at + n ensures !t[p] {
      assert p in Span(at, n);
    }
  }

  lemma BlankPart(s: Space, at: nat, n: nat, from: nat, m: nat)
    requires Blank(s, at, n) && at <= from && from + m <= at + n
    ensures Blank(s, from, m)
  {
  }

  lemma SameThen(s: Space, t: Space, u: Space, first: iset<int>, second: iset<int>, both: iset<int>)
    requires Same(s, t, first) && Same(t, u, second) && first <= both && second <= both
    ensures Same(s, u, both)
  {
  }

  lemma SameVal(s: Space, t: Space, area: iset<int>, at: nat, w: nat)
    requires Same(s, t, area) && at + w <= |s| && Span(at, w) !! area
    ensures Val(t, at, w) == Val(s, at, w)
  {
    hide Val;
    forall p | at <= p < at + w ensures t[p] == s[p] {
      assert p in Span(at, w);
    }
    ValFrame(t, s, at, w);
  }

  lemma CopySame(s: Space, n: nat, dst: nat, src: nat)
    requires dst + n <= |s| && src + n <= |s|
    ensures Same(s, CopyBits(s, n, dst, src), Span(dst, n))
  {
  }

  /** Where a program may write: behind the processor, outside the program. */
  predicate Writable(c: Config, code: Code, s: Space, at: nat, n: nat)
    requires c.Valid()
  {
    c.LayerBits() <= at && at + n <= |s| && (at + n <= code.fixed || code.limit <= at)
  }

  predicate Readable(c: Config, s: Space, at: nat, n: nat)
    requires c.Valid()
  {
    c.LayerBits() <= at && at + n <= |s|
  }

  function Plain(n: nat, dst: nat, src: nat): Op {
    Op(n, dst, src, [])
  }

  function IndexPatches(off: nat, inputs: seq<nat>): (r: seq<Patch>)
    ensures |r| == |inputs|
  {
    seq(|inputs|, i requires 0 <= i < |inputs| => Patch(SrcField, off + i, 1, inputs[i]))
  }

  /** Reads w bits of a table entry of 2^off bits chosen by the input bits, first input lowest. */
  function Lookup(w: nat, dst: nat, table: nat, off: nat, inputs: seq<nat>): Op {
    Op(w, dst, table, IndexPatches(off, inputs))
  }

  predicate Within(inputs: seq<nat>, n: nat) {
    forall i | 0 <= i < |inputs| :: inputs[i] < n
  }

  /** How far into its table a lookup reads. */
  function Offset(s: Space, off: nat, inputs: seq<nat>): (r: nat)
    requires Within(inputs, |s|)
  {
    if inputs == [] then 0
    else
      var k := |inputs| - 1;
      Offset(s, off, inputs[..k]) + Pow2(off + k) * Bit(s[inputs[k]])
  }

  lemma {:induction false} OffsetBound(s: Space, off: nat, inputs: seq<nat>)
    requires Within(inputs, |s|)
    ensures Offset(s, off, inputs) + Pow2(off) <= Pow2(off + |inputs|)
    decreases |inputs|
  {
    if inputs != [] {
      OffsetBound(s, off, inputs[..|inputs| - 1]);
    }
  }

  lemma PlainExec(c: Config, code: Code, s: Space, n: nat, dst: nat, src: nat)
    requires c.Valid() && n > 0 && Writable(c, code, s, dst, n) && Readable(c, s, src, n)
    ensures Allowed(c, code, s, Plain(n, dst, src))
    ensures ExecOp(c, s, Plain(n, dst, src)) == CopyBits(s, n, dst, src)
  {
  }

  lemma LookupBit(s: Space, p: nat)
    requires p < |s|
    ensures Val(s, p, 1) == Bit(s[p])
  {
    assert Val(s, p + 1, 0) == 0;
  }

  /** Setting bit i of a number whose bit i is still zero. */
  lemma SetBit(h: nat, n: nat, l: nat, i: nat, b: nat)
    requires i < n && l < Pow2(i) && b < 2
    ensures Replace(h * Pow2(n) + l, i, 1, b) == h * Pow2(n) + l + Pow2(i) * b
  {
    hide Replace;
    Pow2Add(n - i - 1, i + 1);
    MulAssoc(h, Pow2(n - i - 1), Pow2(i + 1));
    assert Pow2(1) == 2;
    ReplaceZeros(l, h * Pow2(n - i - 1), i, 1, b);
  }

  /** The patched source of a lookup is the table plus the entry's offset. */
  lemma {:induction false} LookupSource(s: Space, off: nat, inputs: seq<nat>, m: nat, h: nat)
    requires m <= |inputs| && Within(inputs, |s|)
    ensures var table := h * Pow2(off + |inputs|);
      var ps := IndexPatches(off, inputs);
      && (forall p | p in ps :: p.from + p.width <= |s|)
      && (forall p | p in ps[..m] :: p.from + p.width <= |s|)
      && Patched(s, table, SrcField, ps[..m]) == table + Offset(s, off, inputs[..m])
      && (forall dst: nat :: Patched(s, dst, DstField, ps[..m]) == dst)
    decreases m
  {
    hide Val, Replace, Pow2;
    var ps := IndexPatches(off, inputs);
    if m > 0 {
      var i := m - 1;
      LookupSource(s, off, inputs, i, h);
      assert inputs[..m][..i] == inputs[..i];
      assert ps[..m][..i] == ps[..i];
      var table := h * Pow2(off + |inputs|);
      var l := Offset(s, off, inputs[..i]);
      LookupBit(s, inputs[i]);
      OffsetBound(s, off, inputs[..i]);
      SetBit(h, off + |inputs|, l, off + i, Bit(s[inputs[i]]));
    }
  }

  /** A lookup copies the entry that its inputs select. */
  lemma LookupExec(c: Config, code: Code, s: Space, w: nat, dst: nat, table: nat, off: nat, inputs: seq<nat>, h: nat)
    requires c.Valid() && w > 0 && off + |inputs| <= c.ab && Writable(c, code, s, dst, w)
    requires table == h * Pow2(off + |inputs|) && Within(inputs, |s|)
    requires forall i | 0 <= i < |inputs| :: Readable(c, s, inputs[i], 1)
    requires Readable(c, s, table + Offset(s, off, inputs), w)
    ensures Allowed(c, code, s, Lookup(w, dst, table, off, inputs))
    ensures ExecOp(c, s, Lookup(w, dst, table, off, inputs)) == CopyBits(s, w, dst, table + Offset(s, off, inputs))
  {
    hide Offset, Patched, Pow2;
    var ps := IndexPatches(off, inputs);
    assert ps[..|ps|] == ps && inputs[..|inputs|] == inputs;
    LookupSource(s, off, inputs, |inputs|, h);
  }

  lemma ExecSnoc(c: Config, code: Code, s: Space, ops: seq<Op>, t: Space, op: Op)
    requires c.Valid() && Exec(c, code, s, ops) == Some(t) && Allowed(c, code, t, op)
    ensures Exec(c, code, s, ops + [op]) == Some(ExecOp(c, t, op))
  {
    assert (ops + [op])[..|ops|] == ops;
  }

  lemma SnocPlain(c: Config, code: Code, s: Space, ops: seq<Op>, t: Space, n: nat, dst: nat, src: nat)
    requires c.Valid() && Exec(c, code, s, ops) == Some(t)
    requires n > 0 && Writable(c, code, t, dst, n) && Readable(c, t, src, n)
    ensures Exec(c, code, s, ops + [Plain(n, dst, src)]) == Some(CopyBits(t, n, dst, src))
  {
    PlainExec(c, code, t, n, dst, src);
    ExecSnoc(c, code, s, ops, t, Plain(n, dst, src));
  }

  lemma OffsetSnoc(s: Space, off: nat, inputs: seq<nat>, x: nat)
    requires Within(inputs, |s|) && x < |s|
    ensures Offset(s, off, inputs + [x]) == Offset(s, off, inputs) + Pow2(off + |inputs|) * Bit(s[x])
  {
    assert (inputs + [x])[..|inputs|] == inputs;
  }

  lemma OffsetTwo(s: Space, off: nat, a: nat, b: nat)
    requires a < |s| && b < |s|
    ensures Offset(s, off, [a, b]) == Pow2(off) * Bit(s[a]) + Pow2(off + 1) * Bit(s[b])
  {
    OffsetSnoc(s, off, [], a);
    OffsetSnoc(s, off, [a], b);
    assert [] + [a] == [a] && [a] + [b] == [a, b];
    assert Offset(s, off, []) == 0;
  }

  lemma OffsetThree(s: Space, off: nat, a: nat, b: nat, d: nat)
    requires a < |s| && b < |s| && d < |s|
    ensures Offset(s, off, [a, b, d]) ==
      Pow2(off) * Bit(s[a]) + Pow2(off + 1) * Bit(s[b]) + Pow2(off + 2) * Bit(s[d])
  {
    OffsetTwo(s, off, a, b);
    OffsetSnoc(s, off, [a, b], d);
    assert [a, b] + [d] == [a, b, d];
  }

  lemma SnocLookup2(c: Config, code: Code, s: Space, ops: seq<Op>, t: Space, dst: nat, table: nat, a: nat, b: nat)
    requires c.Valid() && 4 <= c.ab && Exec(c, code, s, ops) == Some(t)
    requires Writable(c, code, t, dst, 1) && table % 4 == 0 && Readable(c, t, table, 4)
    requires Readable(c, t, a, 1) && Readable(c, t, b, 1)
    ensures Exec(c, code, s, ops + [Lookup(1, dst, table, 0, [a, b])]) ==
      Some(CopyBits(t, 1, dst, table + Bit(t[a]) + 2 * Bit(t[b])))
  {
    hide Offset, Pow2, Exec, Allowed, ExecOp, IndexPatches;
    OffsetTwo(t, 0, a, b);
    SmallPowers();
    LookupExec(c, code, t, 1, dst, table, 0, [a, b], table / 4);
    ExecSnoc(c, code, s, ops, t, Lookup(1, dst, table, 0, [a, b]));
  }

  lemma SnocLookup3(c: Config, code: Code, s: Space, ops: seq<Op>, t: Space, dst: nat, table: nat,
                    a: nat, b: nat, d: nat)
    requires c.Valid() && 4 <= c.ab && Exec(c, code, s, ops) == Some(t)
    requires Writable(c, code, t, dst, 1) && table % 8 == 0 && Readable(c, t, table, 8)
    requires Readable(c, t, a, 1) && Readable(c, t, b, 1) && Readable(c, t, d, 1)
    ensures Exec(c, code, s, ops + [Lookup(1, dst, table, 0, [a, b, d])]) ==
      Some(CopyBits(t, 1, dst, table + Bit(t[a]) + 2 * Bit(t[b]) + 4 * Bit(t[d])))
  {
    hide Offset, Pow2, Exec, Allowed, ExecOp, IndexPatches;
    OffsetThree(t, 0, a, b, d);
    SmallPowers();
    LookupExec(c, code, t, 1, dst, table, 0, [a, b, d], table / 8);
    ExecSnoc(c, code, s, ops, t, Lookup(1, dst, table, 0, [a, b, d]));
  }

  /** The same with entries of two bits. */
  lemma SnocPair3(c: Config, code: Code, s: Space, ops: seq<Op>, t: Space, dst: nat, table: nat,
                  a: nat, b: nat, d: nat)
    requires c.Valid() && 4 <= c.ab && Exec(c, code, s, ops) == Some(t)
    requires Writable(c, code, t, dst, 2) && table % 16 == 0 && Readable(c, t, table, 16)
    requires Readable(c, t, a, 1) && Readable(c, t, b, 1) && Readable(c, t, d, 1)
    ensures Exec(c, code, s, ops + [Lookup(2, dst, table, 1, [a, b, d])]) ==
      Some(CopyBits(t, 2, dst, table + 2 * Bit(t[a]) + 4 * Bit(t[b]) + 8 * Bit(t[d])))
  {
    hide Offset, Pow2, Exec, Allowed, ExecOp, IndexPatches;
    OffsetThree(t, 1, a, b, d);
    SmallPowers();
    LookupExec(c, code, t, 2, dst, table, 1, [a, b, d], table / 16);
    ExecSnoc(c, code, s, ops, t, Lookup(2, dst, table, 1, [a, b, d]));
  }
}
