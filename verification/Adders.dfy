/** The two adders of the RV32I generators as lists of gates: the ripple adder and the prefix adder. */
module Adders {
  import opened Bits
  import opened Prefix

  type Memory = map<nat, bool>

  function Get(m: Memory, at: nat): bool {
    at in m && m[at]
  }

  datatype Function = And | Or | Xor | Not | Andn | Xnor | OrAnd | XorOr

  /** One look-up or one copy of a bit; Sum leaves the sum of three bits in two neighbouring ones. */
  datatype Gate =
    | Look(f: Function, dst: nat, inputs: seq<nat>)
    | Move(dst: nat, src: nat)
    | Sum(dst: nat, a: nat, b: nat, c: nat)

  function Apply(f: Function, v: seq<bool>): bool {
    match f
    case And => |v| == 2 && v[0] && v[1]
    case Or => |v| == 2 && (v[0] || v[1])
    case Xor => |v| == 2 && v[0] != v[1]
    case Not => |v| == 1 && !v[0]
    case Andn => |v| == 2 && v[0] && !v[1]
    case Xnor => |v| == 2 && v[0] == v[1]
    case OrAnd => |v| == 3 && (v[0] || (v[1] && v[2]))
    case XorOr => |v| == 3 && v[0] != (v[1] || v[2])
  }

  function Inputs(m: Memory, at: seq<nat>): (v: seq<bool>)
    ensures |v| == |at|
  {
    seq(|at|, i requires 0 <= i < |at| => Get(m, at[i]))
  }

  function Step(m: Memory, g: Gate): Memory {
    match g
    case Look(f, dst, inputs) => m[dst := Apply(f, Inputs(m, inputs))]
    case Move(dst, src) => m[dst := Get(m, src)]
    case Sum(dst, a, b, c) =>
      var n := Bit(Get(m, a)) + Bit(Get(m, b)) + Bit(Get(m, c));
      m[dst := n % 2 == 1][dst + 1 := n >= 2]
  }

  /** What each look-up leaves, as arithmetic on zeros and ones. */
  lemma LooksMean(m: Memory, dst: nat, a: nat, b: nat, c: nat)
    ensures var x, y, z := Bit(Get(m, a)), Bit(Get(m, b)), Bit(Get(m, c));
      && Bit(Get(Step(m, Look(And, dst, [a, b])), dst)) == x * y
      && Bit(Get(Step(m, Look(Or, dst, [a, b])), dst)) == (x + y + 1) / 2
      && Bit(Get(Step(m, Look(Xor, dst, [a, b])), dst)) == (x + y) % 2
      && Bit(Get(Step(m, Look(Not, dst, [a])), dst)) == 1 - x
      && Bit(Get(Step(m, Look(Andn, dst, [a, b])), dst)) == x * (1 - y)
      && Bit(Get(Step(m, Look(Xnor, dst, [a, b])), dst)) == (x + y + 1) % 2
      && Bit(Get(Step(m, Look(OrAnd, dst, [a, b, c])), dst)) == (x + y * z + 1) / 2
      && Bit(Get(Step(m, Look(XorOr, dst, [a, b, c])), dst)) == (x + (y + z + 1) / 2) % 2
  {
    assert Inputs(m, [a]) == [Get(m, a)];
    assert Inputs(m, [a, b]) == [Get(m, a), Get(m, b)];
    assert Inputs(m, [a, b, c]) == [Get(m, a), Get(m, b), Get(m, c)];
  }

  function Run(m: Memory, gates: seq<Gate>): Memory {
    if gates == [] then m else Step(Run(m, gates[..|gates| - 1]), gates[|gates| - 1])
  }

  lemma {:induction false} RunAppend(m: Memory, xs: seq<Gate>, ys: seq<Gate>)
    ensures Run(m, xs + ys) == Run(Run(m, xs), ys)
    decreases |ys|
  {
    hide Step;
    if ys == [] {
      assert xs + ys == xs;
    } else {
      RunAppend(m, xs, ys[..|ys| - 1]);
      assert (xs + ys)[..|xs + ys| - 1] == xs + ys[..|ys| - 1];
    }
  }

  lemma RunSnoc(m: Memory, xs: seq<Gate>, g: Gate)
    ensures Run(m, xs + [g]) == Step(Run(m, xs), g)
  {
    hide Step;
    assert (xs + [g])[..|xs|] == xs;
  }

  /** w bits of the memory. */
  function Word(m: Memory, at: nat, w: nat): (s: Space)
    ensures |s| == w
  {
    seq(w, i requires 0 <= i < w => Get(m, at + i))
  }

  predicate Inside(p: nat, at: nat, n: nat) {
    at <= p < at + n
  }

  predicate Apart(a: nat, an: nat, b: nat, bn: nat) {
    a + an <= b || b + bn <= a
  }

  /** Where the prefix adder works: generate and propagate bits, and two pairs of buffers. */
  datatype Scratch = Scratch(g0: nat, p0: nat, ag: nat, ap: nat, bg: nat, bp: nat, carry: nat)

  ghost predicate Placed(s: Scratch, w: nat) {
    && Apart(s.g0, w, s.p0, w) && Apart(s.g0, w, s.ag, w) && Apart(s.g0, w, s.ap, w) && Apart(s.g0, w, s.bg, w) && Apart(s.g0, w, s.bp, w)
    && Apart(s.p0, w, s.ag, w) && Apart(s.p0, w, s.ap, w) && Apart(s.p0, w, s.bg, w) && Apart(s.p0, w, s.bp, w)
    && Apart(s.ag, w, s.ap, w) && Apart(s.ag, w, s.bg, w) && Apart(s.ag, w, s.bp, w)
    && Apart(s.ap, w, s.bg, w) && Apart(s.ap, w, s.bp, w) && Apart(s.bg, w, s.bp, w)
  }

  function InitBit(s: Scratch, a: nat, b: nat, subtract: bool, i: nat): seq<Gate> {
    if subtract then [Look(Andn, s.g0 + i, [a + i, b + i]), Look(Xnor, s.p0 + i, [a + i, b + i])]
    else [Look(And, s.g0 + i, [a + i, b + i]), Look(Xor, s.p0 + i, [a + i, b + i])]
  }

  function InitGates(s: Scratch, a: nat, b: nat, subtract: bool, n: nat): seq<Gate> {
    if n == 0 then [] else InitGates(s, a, b, subtract, n - 1) + InitBit(s, a, b, subtract, n - 1)
  }

  /** Position i of the operands has been turned into generate and propagate. */
  predicate Formed(m: Memory, t: Memory, s: Scratch, a: nat, b: nat, subtract: bool, i: nat) {
    && Get(t, s.g0 + i) == (Get(m, a + i) && (Get(m, b + i) != subtract))
    && Get(t, s.p0 + i) == (Get(m, a + i) != (Get(m, b + i) != subtract))
  }

  /** Nothing outside two stretches of memory has changed. */
  ghost predicate Only(m: Memory, t: Memory, x: nat, y: nat, w: nat) {
    forall p: nat {:trigger Get(t, p)} {:trigger Get(m, p)} | !Inside(p, x, w) && !Inside(p, y, w) :: Get(t, p) == Get(m, p)
  }

  lemma TwoSteps(m: Memory, g: Gate, h: Gate)
    ensures Run(m, [g, h]) == Step(Step(m, g), h) && Run(m, [g]) == Step(m, g)
  {
    hide Step;
    RunSnoc(m, [], g);
    RunSnoc(m, [g], h);
    assert [] + [g] == [g] && [g] + [h] == [g, h];
  }

  lemma InitBitRuns(m: Memory, s: Scratch, a: nat, b: nat, subtract: bool, i: nat, w: nat)
    requires i < w && Apart(s.g0, w, s.p0, w)
    requires Apart(a, w, s.g0, w) && Apart(b, w, s.g0, w)
    ensures var t := Run(m, InitBit(s, a, b, subtract, i));
      && Formed(m, t, s, a, b, subtract, i)
      && forall p: nat {:trigger Get(t, p)} {:trigger Get(m, p)} | p != s.g0 + i && p != s.p0 + i :: Get(t, p) == Get(m, p)
  {
    hide Run;
    var bit := InitBit(s, a, b, subtract, i);
    TwoSteps(m, bit[0], bit[1]);
    assert bit == [bit[0], bit[1]];
    var t := Step(m, bit[0]);
    assert Inputs(m, [a + i, b + i]) == [Get(m, a + i), Get(m, b + i)];
    assert Inputs(t, [a + i, b + i]) == [Get(m, a + i), Get(m, b + i)];
  }

  lemma {:induction false} InitRuns(m: Memory, s: Scratch, a: nat, b: nat, subtract: bool, n: nat, w: nat)
    requires n <= w && Apart(s.g0, w, s.p0, w)
    requires Apart(a, w, s.g0, w) && Apart(a, w, s.p0, w) && Apart(b, w, s.g0, w) && Apart(b, w, s.p0, w)
    ensures var t := Run(m, InitGates(s, a, b, subtract, n));
      Only(m, t, s.g0, s.p0, w) && forall i | 0 <= i < n :: Formed(m, t, s, a, b, subtract, i)
  {
    hide Run;
    if n == 0 {
      RunNothing(m);
    } else {
      var k := n - 1;
      InitRuns(m, s, a, b, subtract, k, w);
      var before := Run(m, InitGates(s, a, b, subtract, k));
      RunAppend(m, InitGates(s, a, b, subtract, k), InitBit(s, a, b, subtract, k));
      InitBitRuns(before, s, a, b, subtract, k, w);
      var t := Run(before, InitBit(s, a, b, subtract, k));
      hide InitBit;
      forall i | 0 <= i < n ensures Formed(m, t, s, a, b, subtract, i) {
        if i < k { assert Formed(m, before, s, a, b, subtract, i); } else { assert Formed(before, t, s, a, b, subtract, k); }
      }
    }
  }

  lemma RunNothing(m: Memory)
    ensures Run(m, []) == m
  {
  }

  /** One position of a stage: combined with the position shift below it, or copied. */
  function StageBit(sg: nat, sp: nat, dg: nat, dp: nat, shift: nat, i: nat): seq<Gate> {
    if i < shift then [Move(dg + i, sg + i), Move(dp + i, sp + i)]
    else [Look(OrAnd, dg + i, [sg + i, sp + i, sg + i - shift]), Look(And, dp + i, [sp + i, sp + i - shift])]
  }

  function StageGates(sg: nat, sp: nat, dg: nat, dp: nat, shift: nat, n: nat): seq<Gate> {
    if n == 0 then [] else StageGates(sg, sp, dg, dp, shift, n - 1) + StageBit(sg, sp, dg, dp, shift, n - 1)
  }

  predicate Staged(m: Memory, t: Memory, sg: nat, sp: nat, dg: nat, dp: nat, shift: nat, i: nat) {
    && Get(t, dg + i) == (Get(m, sg + i) || (i >= shift && Get(m, sp + i) && Get(m, sg + i - shift)))
    && Get(t, dp + i) == (Get(m, sp + i) && (i >= shift ==> Get(m, sp + i - shift)))
  }

  lemma StageBitRuns(m: Memory, sg: nat, sp: nat, dg: nat, dp: nat, shift: nat, i: nat, w: nat)
    requires i < w && Apart(dg, w, dp, w) && Apart(sp, w, dg, w)
    ensures var t := Run(m, StageBit(sg, sp, dg, dp, shift, i));
      && Staged(m, t, sg, sp, dg, dp, shift, i)
      && forall p: nat {:trigger Get(t, p)} {:trigger Get(m, p)} | p != dg + i && p != dp + i :: Get(t, p) == Get(m, p)
  {
    hide Run;
    var bit := StageBit(sg, sp, dg, dp, shift, i);
    TwoSteps(m, bit[0], bit[1]);
    assert bit == [bit[0], bit[1]];
    var t := Step(m, bit[0]);
    if i >= shift {
      assert Inputs(m, [sg + i, sp + i, sg + i - shift]) == [Get(m, sg + i), Get(m, sp + i), Get(m, sg + i - shift)];
      assert Inputs(t, [sp + i, sp + i - shift]) == [Get(m, sp + i), Get(m, sp + i - shift)];
    }
  }

  lemma {:induction false} StageRuns(m: Memory, sg: nat, sp: nat, dg: nat, dp: nat, shift: nat, n: nat, w: nat)
    requires n <= w && Apart(dg, w, dp, w)
    requires Apart(sg, w, dg, w) && Apart(sg, w, dp, w) && Apart(sp, w, dg, w) && Apart(sp, w, dp, w)
    ensures var t := Run(m, StageGates(sg, sp, dg, dp, shift, n));
      Only(m, t, dg, dp, w) && forall i | 0 <= i < n :: Staged(m, t, sg, sp, dg, dp, shift, i)
  {
    hide Run;
    if n == 0 {
      RunNothing(m);
    } else {
      var k := n - 1;
      StageRuns(m, sg, sp, dg, dp, shift, k, w);
      var before := Run(m, StageGates(sg, sp, dg, dp, shift, k));
      RunAppend(m, StageGates(sg, sp, dg, dp, shift, k), StageBit(sg, sp, dg, dp, shift, k));
      StageBitRuns(before, sg, sp, dg, dp, shift, k, w);
      var t := Run(before, StageBit(sg, sp, dg, dp, shift, k));
      hide StageBit;
      forall i | 0 <= i < n ensures Staged(m, t, sg, sp, dg, dp, shift, i) {
        if i < k { assert Staged(m, before, sg, sp, dg, dp, shift, i); } else { assert Staged(before, t, sg, sp, dg, dp, shift, k); }
      }
    }
  }

  /** Lowest position of the group of span positions that ends at i. */
  function Low(i: nat, span: nat): nat {
    if i + 1 <= span then 0 else i + 1 - span
  }

  /** A pair of buffers holds, for every position, the group of the last span positions up to it. */
  ghost predicate Groups(t: Memory, bg: nat, bp: nat, g: Space, p: Space, span: nat, w: nat) {
    && |g| == w && |p| == w
    && forall i {:trigger GroupAt(t, bg, bp, g, p, span, i)} | 0 <= i < w :: GroupAt(t, bg, bp, g, p, span, i)
  }

  ghost predicate GroupAt(t: Memory, bg: nat, bp: nat, g: Space, p: Space, span: nat, i: nat)
    requires i < |g| && i < |p|
  {
    && Get(t, bg + i) == Generates(g, p, Low(i, span), i + 1)
    && Get(t, bp + i) == Propagates(p, Low(i, span), i + 1)
  }

  /** A stage doubles the groups. */
  lemma StageGroups(m: Memory, t: Memory, sg: nat, sp: nat, dg: nat, dp: nat, g: Space, p: Space, span: nat, w: nat)
    requires span > 0 && Groups(m, sg, sp, g, p, span, w)
    requires forall i | 0 <= i < w :: Staged(m, t, sg, sp, dg, dp, span, i)
    ensures Groups(t, dg, dp, g, p, 2 * span, w)
  {
    forall i | 0 <= i < w ensures GroupAt(t, dg, dp, g, p, 2 * span, i) {
      assert Staged(m, t, sg, sp, dg, dp, span, i);
      assert GroupAt(m, sg, sp, g, p, span, i);
      if i >= span {
        assert GroupAt(m, sg, sp, g, p, span, i - span);
        Combine(g, p, Low(i, 2 * span), i + 1 - span, i + 1);
      }
    }
  }

  /** The pair of buffers that holds the result of k stages. */
  function GroupsAt(s: Scratch, k: nat): nat {
    if k == 0 then s.g0 else if k % 2 == 1 then s.ag else s.bg
  }

  function PassesAt(s: Scratch, k: nat): nat {
    if k == 0 then s.p0 else if k % 2 == 1 then s.ap else s.bp
  }

  function StagesGates(s: Scratch, w: nat, k: nat): seq<Gate> {
    if k == 0 then []
    else
      var stage := StageGates(GroupsAt(s, k - 1), PassesAt(s, k - 1), GroupsAt(s, k), PassesAt(s, k), Pow2(k - 1), w);
      StagesGates(s, w, k - 1) + stage
  }

  ghost predicate BesideBuffers(m: Memory, t: Memory, s: Scratch, w: nat) {
    forall p: nat {:trigger Get(t, p)} {:trigger Get(m, p)} |
      !Inside(p, s.ag, w) && !Inside(p, s.ap, w) && !Inside(p, s.bg, w) && !Inside(p, s.bp, w) :: Get(t, p) == Get(m, p)
  }

  lemma BuffersApart(s: Scratch, w: nat, k: nat)
    requires Placed(s, w) && k > 0
    ensures var sg, sp, dg, dp := GroupsAt(s, k - 1), PassesAt(s, k - 1), GroupsAt(s, k), PassesAt(s, k);
      && Apart(dg, w, dp, w) && Apart(sg, w, dg, w) && Apart(sg, w, dp, w) && Apart(sp, w, dg, w) && Apart(sp, w, dp, w)
      && ((dg == s.ag && dp == s.ap) || (dg == s.bg && dp == s.bp))
  {
  }

  /** After k stages every position knows the group of the last 2^k positions. */
  lemma {:induction false} StagesRun(m: Memory, s: Scratch, g: Space, p: Space, w: nat, k: nat)
    requires Placed(s, w) && Groups(m, s.g0, s.p0, g, p, 1, w)
    ensures var t := Run(m, StagesGates(s, w, k));
      Groups(t, GroupsAt(s, k), PassesAt(s, k), g, p, Pow2(k), w) && BesideBuffers(m, t, s, w)
    decreases k
  {
    hide Run, Groups;
    if k == 0 {
      RunNothing(m);
      assert Pow2(0) == 1;
    } else {
      StagesRun(m, s, g, p, w, k - 1);
      var before := Run(m, StagesGates(s, w, k - 1));
      var sg, sp, dg, dp := GroupsAt(s, k - 1), PassesAt(s, k - 1), GroupsAt(s, k), PassesAt(s, k);
      BuffersApart(s, w, k);
      RunAppend(m, StagesGates(s, w, k - 1), StageGates(sg, sp, dg, dp, Pow2(k - 1), w));
      StageRuns(before, sg, sp, dg, dp, Pow2(k - 1), w, w);
      var t := Run(before, StageGates(sg, sp, dg, dp, Pow2(k - 1), w));
      StageGroups(before, t, sg, sp, dg, dp, g, p, Pow2(k - 1), w);
      OnlyBuffers(m, before, t, s, dg, dp, w);
    }
  }

  lemma OnlyBuffers(m: Memory, before: Memory, t: Memory, s: Scratch, dg: nat, dp: nat, w: nat)
    requires BesideBuffers(m, before, s, w) && Only(before, t, dg, dp, w)
    requires (dg == s.ag && dp == s.ap) || (dg == s.bg && dp == s.bp)
    ensures BesideBuffers(m, t, s, w)
  {
    forall p: nat {:trigger Get(t, p)} {:trigger Get(m, p)} |
      !Inside(p, s.ag, w) && !Inside(p, s.ap, w) && !Inside(p, s.bg, w) && !Inside(p, s.bp, w) ensures Get(t, p) == Get(m, p)
    {
      assert Get(before, p) == Get(m, p);
    }
  }

  /** One bit of the result from the propagate bit and the group below. */
  function ResultBit(s: Scratch, dst: nat, cin: nat, subtract: bool, k: nat, i: nat): Gate {
    if i == 0 then Look(Xor, dst, [s.p0, cin])
    else if subtract then Look(XorOr, dst + i, [s.p0 + i, GroupsAt(s, k) + i - 1, PassesAt(s, k) + i - 1])
    else Look(Xor, dst + i, [s.p0 + i, GroupsAt(s, k) + i - 1])
  }

  function ResultGates(s: Scratch, dst: nat, cin: nat, subtract: bool, k: nat, n: nat): seq<Gate> {
    if n == 0 then [] else ResultGates(s, dst, cin, subtract, k, n - 1) + [ResultBit(s, dst, cin, subtract, k, n - 1)]
  }

  function CarryGate(s: Scratch, subtract: bool, k: nat, w: nat): Gate
    requires w > 0
  {
    if subtract then Look(Or, s.carry, [GroupsAt(s, k) + w - 1, PassesAt(s, k) + w - 1]) else Move(s.carry, GroupsAt(s, k) + w - 1)
  }

  /** The whole prefix adder for words of w = 2^k bits. cin is the address of the constant 0 or 1. */
  function PrefixGates(s: Scratch, dst: nat, a: nat, b: nat, cin: nat, subtract: bool, k: nat): seq<Gate> {
    InitGates(s, a, b, subtract, Pow2(k)) + StagesGates(s, Pow2(k), k) + ResultGates(s, dst, cin, subtract, k, Pow2(k))
    + [CarryGate(s, subtract, k, Pow2(k))]
  }

  /** y as the adder sees it: complemented for a subtraction. */
  function Operand(y: Space, subtract: bool): (z: Space)
    ensures |z| == |y|
  {
    seq(|y|, i requires 0 <= i < |y| => y[i] != subtract)
  }

  /** What the result gates may not write: the bits they still have to read. */
  ghost predicate ResultPlaced(s: Scratch, dst: nat, cin: nat, w: nat) {
    && Apart(dst, w, s.p0, w) && Apart(dst, w, s.ag, w) && Apart(dst, w, s.ap, w) && Apart(dst, w, s.bg, w) && Apart(dst, w, s.bp, w)
    && Apart(dst, w, s.g0, w) && Apart(dst, w, cin, 1)
  }

  predicate Result(t: Memory, u: Memory, s: Scratch, dst: nat, cin: nat, subtract: bool, k: nat, i: nat) {
    Get(u, dst + i) ==
      if i == 0 then Get(t, s.p0) != Get(t, cin)
      else Get(t, s.p0 + i) != (Get(t, GroupsAt(s, k) + i - 1) || (subtract && Get(t, PassesAt(s, k) + i - 1)))
  }

  ghost predicate Outside(t: Memory, u: Memory, dst: nat, n: nat) {
    forall p: nat {:trigger Get(u, p)} {:trigger Get(t, p)} | !Inside(p, dst, n) :: Get(u, p) == Get(t, p)
  }

  lemma ResultBitRuns(t: Memory, v: Memory, s: Scratch, dst: nat, cin: nat, subtract: bool, k: nat, i: nat, w: nat)
    requires ResultPlaced(s, dst, cin, w) && i < w
    requires Outside(t, v, dst, w)
    ensures var u := Step(v, ResultBit(s, dst, cin, subtract, k, i));
      Result(t, u, s, dst, cin, subtract, k, i) && forall p: nat {:trigger Get(u, p)} | p != dst + i :: Get(u, p) == Get(v, p)
  {
    var gate := ResultBit(s, dst, cin, subtract, k, i);
    hide Result;
    if i == 0 {
      assert Inputs(v, [s.p0, cin]) == [Get(t, s.p0), Get(t, cin)];
      ResultFirst(t, v, s, dst, cin, subtract, k);
    } else {
      assert Get(v, s.p0 + i) == Get(t, s.p0 + i);
      assert Get(v, GroupsAt(s, k) + i - 1) == Get(t, GroupsAt(s, k) + i - 1);
      assert Get(v, PassesAt(s, k) + i - 1) == Get(t, PassesAt(s, k) + i - 1);
      ResultLater(t, v, s, dst, cin, subtract, k, i);
    }
  }

  lemma ResultFirst(t: Memory, v: Memory, s: Scratch, dst: nat, cin: nat, subtract: bool, k: nat)
    requires Inputs(v, [s.p0, cin]) == [Get(t, s.p0), Get(t, cin)]
    ensures Result(t, Step(v, ResultBit(s, dst, cin, subtract, k, 0)), s, dst, cin, subtract, k, 0)
  {
  }

  lemma ResultLater(t: Memory, v: Memory, s: Scratch, dst: nat, cin: nat, subtract: bool, k: nat, i: nat)
    requires i > 0 && Get(v, s.p0 + i) == Get(t, s.p0 + i)
    requires Get(v, GroupsAt(s, k) + i - 1) == Get(t, GroupsAt(s, k) + i - 1)
    requires Get(v, PassesAt(s, k) + i - 1) == Get(t, PassesAt(s, k) + i - 1)
    ensures Result(t, Step(v, ResultBit(s, dst, cin, subtract, k, i)), s, dst, cin, subtract, k, i)
  {
    hide GroupsAt, PassesAt;
    var x, y, z := Get(v, s.p0 + i), Get(v, GroupsAt(s, k) + i - 1), Get(v, PassesAt(s, k) + i - 1);
    assert Inputs(v, [s.p0 + i, GroupsAt(s, k) + i - 1, PassesAt(s, k) + i - 1]) == [x, y, z];
    assert Inputs(v, [s.p0 + i, GroupsAt(s, k) + i - 1]) == [x, y];
  }

  lemma {:induction false} ResultRuns(t: Memory, s: Scratch, dst: nat, cin: nat, subtract: bool, k: nat, n: nat, w: nat)
    requires ResultPlaced(s, dst, cin, w) && n <= w
    ensures var u := Run(t, ResultGates(s, dst, cin, subtract, k, n));
      && (forall i | 0 <= i < n :: Result(t, u, s, dst, cin, subtract, k, i))
      && Outside(t, u, dst, n)
    decreases n
  {
    hide Run;
    if n == 0 {
      RunNothing(t);
    } else {
      var j := n - 1;
      ResultRuns(t, s, dst, cin, subtract, k, j, w);
      var v := Run(t, ResultGates(s, dst, cin, subtract, k, j));
      RunSnoc(t, ResultGates(s, dst, cin, subtract, k, j), ResultBit(s, dst, cin, subtract, k, j));
      ResultBitRuns(t, v, s, dst, cin, subtract, k, j, w);
      hide ResultBit, Step;
      var u := Run(t, ResultGates(s, dst, cin, subtract, k, n));
      assert Outside(t, u, dst, n);
      forall i | 0 <= i < n ensures Result(t, u, s, dst, cin, subtract, k, i) {
        if i < j { assert Result(t, v, s, dst, cin, subtract, k, i); }
      }
    }
  }

  /** Where the operands and the result of a prefix addition may lie. The result may overlap the operands. */
  ghost predicate WordsPlaced(s: Scratch, dst: nat, a: nat, b: nat, cin: nat, w: nat) {
    && Placed(s, w) && ResultPlaced(s, dst, cin, w) && w > 0
    && Apart(a, w, s.g0, w) && Apart(a, w, s.p0, w) && Apart(b, w, s.g0, w) && Apart(b, w, s.p0, w)
    && Apart(cin, 1, s.g0, w) && Apart(cin, 1, s.p0, w) && Apart(cin, 1, s.ag, w) && Apart(cin, 1, s.ap, w)
    && Apart(cin, 1, s.bg, w) && Apart(cin, 1, s.bp, w)
    && Apart(s.carry, 1, dst, w) && Apart(s.carry, 1, s.g0, w)
  }

  /** The result of an adder: every bit of the sum, and the carry out. */
  ghost predicate Added(m: Memory, t: Memory, dst: nat, carry: nat, a: nat, b: nat, subtract: bool, w: nat) {
    var x, y := Word(m, a, w), Operand(Word(m, b, w), subtract);
    && (forall i {:trigger SumBit(x, y, subtract, i)} | 0 <= i < w :: Get(t, dst + i) == SumBit(x, y, subtract, i))
    && Get(t, carry) == CarryIn(x, y, subtract, w)
  }

  /** For every width 2^k the prefix adder leaves exactly the bits and the carry of the ripple definition. */
  lemma PrefixAdds(m: Memory, s: Scratch, dst: nat, a: nat, b: nat, cin: nat, subtract: bool, k: nat)
    requires WordsPlaced(s, dst, a, b, cin, Pow2(k)) && Get(m, cin) == subtract
    ensures Added(m, Run(m, PrefixGates(s, dst, a, b, cin, subtract, k)), dst, s.carry, a, b, subtract, Pow2(k))
  {
    hide Run, Pow2, StagesGates, InitGates, ResultGates, Formed, Groups, Only, Result, Outside, Added, Step, CarryGate, WordsPlaced, BesideBuffers, Pairs;
    var w := Pow2(k);
    var g, p := PairsOf(Word(m, a, w), Operand(Word(m, b, w), subtract), w);
    PlacedWords(s, dst, a, b, cin, w);
    InitRuns(m, s, a, b, subtract, w, w);
    var t1 := Run(m, InitGates(s, a, b, subtract, w));
    FirstGroups(m, t1, s, a, b, subtract, g, p, w);
    StagesRun(t1, s, g, p, w, k);
    var t2 := Run(t1, StagesGates(s, w, k));
    ResultRuns(t2, s, dst, cin, subtract, k, w, w);
    var t3 := Run(t2, ResultGates(s, dst, cin, subtract, k, w));
    FourParts(m, InitGates(s, a, b, subtract, w), StagesGates(s, w, k), ResultGates(s, dst, cin, subtract, k, w), CarryGate(s, subtract, k, w));
    AddedAtLast(m, t1, t2, t3, Step(t3, CarryGate(s, subtract, k, w)), s, dst, a, b, cin, subtract, k, g, p, w);
  }

  lemma PlacedWords(s: Scratch, dst: nat, a: nat, b: nat, cin: nat, w: nat)
    requires WordsPlaced(s, dst, a, b, cin, w)
    ensures Placed(s, w) && ResultPlaced(s, dst, cin, w) && Apart(s.g0, w, s.p0, w)
    ensures Apart(a, w, s.g0, w) && Apart(a, w, s.p0, w) && Apart(b, w, s.g0, w) && Apart(b, w, s.p0, w)
  {
  }

  lemma PairsOf(x: Space, y: Space, w: nat) returns (g: Space, p: Space)
    requires |x| == w && |y| == w
    ensures Pairs(x, y, g, p, w)
  {
    g, p := seq(w, i requires 0 <= i < w => x[i] && y[i]), seq(w, i requires 0 <= i < w => x[i] != y[i]);
  }

  lemma FourParts(m: Memory, w: seq<Gate>, x: seq<Gate>, y: seq<Gate>, z: Gate)
    ensures Run(m, w + x + y + [z]) == Step(Run(Run(Run(m, w), x), y), z)
  {
    hide Run, Step;
    RunSnoc(m, w + x + y, z);
    RunAppend(m, w + x, y);
    RunAppend(m, w, x);
  }

  /** Generate and propagate of the operands, position by position. */
  ghost predicate Pairs(x: Space, y: Space, g: Space, p: Space, w: nat) {
    && |x| == w && |y| == w && |g| == w && |p| == w
    && forall i {:trigger g[i]} {:trigger p[i]} | 0 <= i < w :: g[i] == (x[i] && y[i]) && p[i] == (x[i] != y[i])
  }

  lemma FirstGroups(m: Memory, t: Memory, s: Scratch, a: nat, b: nat, subtract: bool, g: Space, p: Space, w: nat)
    requires forall i | 0 <= i < w :: Formed(m, t, s, a, b, subtract, i)
    requires Pairs(Word(m, a, w), Operand(Word(m, b, w), subtract), g, p, w)
    ensures Groups(t, s.g0, s.p0, g, p, 1, w)
  {
    forall i | 0 <= i < w ensures GroupAt(t, s.g0, s.p0, g, p, 1, i) {
      assert Formed(m, t, s, a, b, subtract, i);
      assert Word(m, a, w)[i] == Get(m, a + i) && Word(m, b, w)[i] == Get(m, b + i);
      assert g[i] == g[i];
      assert !Generates(g, p, i, i);
    }
  }

  /** The groups of 2^k positions reach down to position 0, so they decide the carries. */
  lemma CarriesKnown(t: Memory, s: Scratch, x: Space, y: Space, g: Space, p: Space, subtract: bool, k: nat, w: nat, i: nat)
    requires Pairs(x, y, g, p, w) && Groups(t, GroupsAt(s, k), PassesAt(s, k), g, p, w, w) && 0 < i <= w
    ensures CarryIn(x, y, subtract, i) == (Get(t, GroupsAt(s, k) + i - 1) || (subtract && Get(t, PassesAt(s, k) + i - 1)))
  {
    hide GroupsAt, PassesAt;
    assert GroupAt(t, GroupsAt(s, k), PassesAt(s, k), g, p, w, i - 1);
    assert forall j | 0 <= j < i :: g[j] == (x[j] && y[j]) && p[j] == (x[j] != y[j]);
    CarryOfGroup(x, y, g, p, subtract, i);
  }

  lemma AddedAtLast(m: Memory, t1: Memory, t2: Memory, t3: Memory, t4: Memory, s: Scratch, dst: nat, a: nat, b: nat, cin: nat,
                    subtract: bool, k: nat, g: Space, p: Space, w: nat)
    requires WordsPlaced(s, dst, a, b, cin, w) && Get(m, cin) == subtract
    requires Pairs(Word(m, a, w), Operand(Word(m, b, w), subtract), g, p, w)
    requires Only(m, t1, s.g0, s.p0, w) && Groups(t1, s.g0, s.p0, g, p, 1, w)
    requires BesideBuffers(t1, t2, s, w) && Groups(t2, GroupsAt(s, k), PassesAt(s, k), g, p, w, w)
    requires forall i | 0 <= i < w :: Result(t2, t3, s, dst, cin, subtract, k, i)
    requires Outside(t2, t3, dst, w)
    requires t4 == Step(t3, CarryGate(s, subtract, k, w))
    ensures Added(m, t4, dst, s.carry, a, b, subtract, w)
  {
    var x, y := Word(m, a, w), Operand(Word(m, b, w), subtract);
    assert Get(t2, cin) == Get(t1, cin) == subtract;
    forall i {:trigger SumBit(x, y, subtract, i)} | 0 <= i < w ensures Get(t4, dst + i) == SumBit(x, y, subtract, i) {
      assert Get(t4, dst + i) == Get(t3, dst + i);
      BitOfSum(t1, t2, t3, s, dst, x, y, cin, subtract, k, g, p, w, i);
    }
    CarriesKnown(t2, s, x, y, g, p, subtract, k, w, w);
    CarryRuns(t2, t3, s, dst, cin, subtract, k, w);
  }

  lemma BitOfSum(t1: Memory, t2: Memory, t3: Memory, s: Scratch, dst: nat, x: Space, y: Space, cin: nat, subtract: bool, k: nat,
                 g: Space, p: Space, w: nat, i: nat)
    requires Placed(s, w) && i < w && Pairs(x, y, g, p, w) && Get(t2, cin) == subtract && Groups(t1, s.g0, s.p0, g, p, 1, w)
    requires BesideBuffers(t1, t2, s, w) && Groups(t2, GroupsAt(s, k), PassesAt(s, k), g, p, w, w)
    requires Result(t2, t3, s, dst, cin, subtract, k, i)
    ensures Get(t3, dst + i) == SumBit(x, y, subtract, i)
  {
    hide GroupsAt, PassesAt;
    assert GroupAt(t1, s.g0, s.p0, g, p, 1, i);
    assert Get(t2, s.p0 + i) == Get(t1, s.p0 + i) == p[i];
    if i > 0 {
      CarriesKnown(t2, s, x, y, g, p, subtract, k, w, i);
    }
  }

  lemma CarryRuns(t2: Memory, t3: Memory, s: Scratch, dst: nat, cin: nat, subtract: bool, k: nat, w: nat)
    requires ResultPlaced(s, dst, cin, w) && w > 0
    requires Outside(t2, t3, dst, w)
    ensures var t := Step(t3, CarryGate(s, subtract, k, w));
      Get(t, s.carry) == (Get(t2, GroupsAt(s, k) + w - 1) || (subtract && Get(t2, PassesAt(s, k) + w - 1)))
  {
    var x, y := GroupsAt(s, k) + w - 1, PassesAt(s, k) + w - 1;
    assert Get(t3, x) == Get(t2, x) && Get(t3, y) == Get(t2, y);
    hide GroupsAt, PassesAt;
    assert Inputs(t3, [x, y]) == [Get(t2, x), Get(t2, y)];
  }

  /** One position of the ripple adder: complement for a subtraction, sum and carry, result bit, carry. */
  function RippleBit(dst: nat, a: nat, b: nat, temp: nat, pair: nat, carry: nat, subtract: bool, i: nat): seq<Gate> {
    if subtract then [Look(Not, temp + i, [b + i]), Sum(pair, a + i, temp + i, carry), Move(dst + i, pair), Move(carry, pair + 1)]
    else [Sum(pair, a + i, b + i, carry), Move(dst + i, pair), Move(carry, pair + 1)]
  }

  /** The ripple adder; cin is the address of the constant 0 or 1. */
  function RippleGates(dst: nat, a: nat, b: nat, temp: nat, pair: nat, carry: nat, cin: nat, subtract: bool, n: nat): seq<Gate> {
    if n == 0 then [Move(carry, cin)]
    else RippleGates(dst, a, b, temp, pair, carry, cin, subtract, n - 1) + RippleBit(dst, a, b, temp, pair, carry, subtract, n - 1)
  }

  /** The result may take the place of an operand, but not overlap it otherwise. */
  ghost predicate RipplePlaced(dst: nat, a: nat, b: nat, temp: nat, pair: nat, carry: nat, w: nat) {
    && Apart(temp, w, a, w) && Apart(temp, w, b, w) && Apart(temp, w, dst, w) && Apart(temp, w, pair, 2) && Apart(temp, w, carry, 1)
    && Apart(pair, 2, a, w) && Apart(pair, 2, b, w) && Apart(pair, 2, dst, w) && Apart(pair, 2, carry, 1)
    && Apart(carry, 1, a, w) && Apart(carry, 1, b, w) && Apart(carry, 1, dst, w)
    && (dst == a || Apart(dst, w, a, w)) && (dst == b || Apart(dst, w, b, w))
  }

  lemma SumIs(m: Memory, dst: nat, a: nat, b: nat, c: nat)
    ensures var t := Step(m, Sum(dst, a, b, c));
      && Get(t, dst) == ((Get(m, a) != Get(m, b)) != Get(m, c))
      && Get(t, dst + 1) == ((Get(m, a) && Get(m, b)) || (Get(m, a) != Get(m, b) && Get(m, c)))
      && forall p: nat {:trigger Get(t, p)} | p != dst && p != dst + 1 :: Get(t, p) == Get(m, p)
  {
  }

  lemma MoveIs(m: Memory, dst: nat, src: nat)
    ensures var t := Step(m, Move(dst, src));
      Get(t, dst) == Get(m, src) && forall p: nat {:trigger Get(t, p)} | p != dst :: Get(t, p) == Get(m, p)
  {
  }

  lemma NotIs(m: Memory, dst: nat, src: nat)
    ensures var t := Step(m, Look(Not, dst, [src]));
      Get(t, dst) == !Get(m, src) && forall p: nat {:trigger Get(t, p)} | p != dst :: Get(t, p) == Get(m, p)
  {
    assert Inputs(m, [src]) == [Get(m, src)];
  }

  lemma RippleBitRuns(m: Memory, dst: nat, a: nat, b: nat, temp: nat, pair: nat, carry: nat, subtract: bool, i: nat, w: nat)
    requires RipplePlaced(dst, a, b, temp, pair, carry, w) && i < w
    ensures var t := Run(m, RippleBit(dst, a, b, temp, pair, carry, subtract, i));
      var x, y, c := Get(m, a + i), Get(m, b + i) != subtract, Get(m, carry);
      && Get(t, dst + i) == ((x != y) != c) && Get(t, carry) == ((x && y) || (x != y && c))
      && forall p: nat {:trigger Get(t, p)} {:trigger Get(m, p)} |
           p != dst + i && p != temp + i && p != carry && !Inside(p, pair, 2) :: Get(t, p) == Get(m, p)
  {
    hide Step, Run;
    var bit := RippleBit(dst, a, b, temp, pair, carry, subtract, i);
    var n := if subtract then 1 else 0;
    var m0 := if subtract then Step(m, bit[0]) else m;
    if subtract { NotIs(m, temp + i, b + i); }
    var second := if subtract then temp + i else b + i;
    SumIs(m0, pair, a + i, second, carry);
    var m1 := Step(m0, bit[n]);
    MoveIs(m1, dst + i, pair);
    var m2 := Step(m1, bit[n + 1]);
    MoveIs(m2, carry, pair + 1);
    RunSome(m, bit);
  }

  lemma RunSome(m: Memory, g: seq<Gate>)
    ensures |g| == 3 ==> Run(m, g) == Step(Step(Step(m, g[0]), g[1]), g[2])
    ensures |g| == 4 ==> Run(m, g) == Step(Step(Step(Step(m, g[0]), g[1]), g[2]), g[3])
  {
    hide Step;
    if |g| == 3 || |g| == 4 {
      TwoSteps(m, g[0], g[1]);
      RunSnoc(m, [g[0], g[1]], g[2]);
      if |g| == 3 {
        assert [g[0], g[1]] + [g[2]] == g;
      } else {
        RunSnoc(m, [g[0], g[1]] + [g[2]], g[3]);
        assert [g[0], g[1]] + [g[2]] + [g[3]] == g;
      }
    }
  }

  /** n positions done: their result bits, the carry so far, the operands still to be read. */
  ghost predicate Rippled(m: Memory, t: Memory, dst: nat, a: nat, b: nat, temp: nat, pair: nat, carry: nat, subtract: bool, w: nat, n: nat)
    requires n <= w
  {
    var x, y := Word(m, a, w), Operand(Word(m, b, w), subtract);
    && (forall i {:trigger SumBit(x, y, subtract, i)} | 0 <= i < n :: Get(t, dst + i) == SumBit(x, y, subtract, i))
    && Get(t, carry) == CarryIn(x, y, subtract, n)
    && forall p: nat {:trigger Get(t, p)} {:trigger Get(m, p)} |
         !Inside(p, dst, n) && !Inside(p, temp, w) && p != carry && !Inside(p, pair, 2) :: Get(t, p) == Get(m, p)
  }

  lemma RippledMore(m: Memory, v: Memory, t: Memory, dst: nat, a: nat, b: nat, temp: nat, pair: nat, carry: nat, subtract: bool, w: nat, n: nat)
    requires n < w && RipplePlaced(dst, a, b, temp, pair, carry, w) && Rippled(m, v, dst, a, b, temp, pair, carry, subtract, w, n)
    requires var x, y, c := Get(v, a + n), Get(v, b + n) != subtract, Get(v, carry);
      && Get(t, dst + n) == ((x != y) != c) && Get(t, carry) == ((x && y) || (x != y && c))
    requires forall p: nat {:trigger Get(t, p)} {:trigger Get(v, p)} |
      p != dst + n && p != temp + n && p != carry && !Inside(p, pair, 2) :: Get(t, p) == Get(v, p)
    ensures Rippled(m, t, dst, a, b, temp, pair, carry, subtract, w, n + 1)
  {
    hide RipplePlaced, Word, Operand, SumBit, CarryIn;
    var x, y := Word(m, a, w), Operand(Word(m, b, w), subtract);
    RippleOperands(m, v, dst, a, b, temp, pair, carry, subtract, w, n);
    RippleNext(x, y, subtract, n);
    forall i {:trigger SumBit(x, y, subtract, i)} | 0 <= i < n + 1 ensures Get(t, dst + i) == SumBit(x, y, subtract, i) {
      if i < n {
        assert Get(v, dst + i) == SumBit(x, y, subtract, i);
        RippleApart(dst, a, b, temp, pair, carry, w, n, i);
        assert Get(t, dst + i) == Get(v, dst + i);
      }
    }
    forall p: nat {:trigger Get(t, p)} {:trigger Get(m, p)} |
      !Inside(p, dst, n + 1) && !Inside(p, temp, w) && p != carry && !Inside(p, pair, 2) ensures Get(t, p) == Get(m, p)
    {
      assert Get(t, p) == Get(v, p);
    }
  }

  /** The operand bits of a position are still as they were. */
  lemma RippleOperands(m: Memory, v: Memory, dst: nat, a: nat, b: nat, temp: nat, pair: nat, carry: nat, subtract: bool, w: nat, n: nat)
    requires n < w && RipplePlaced(dst, a, b, temp, pair, carry, w) && Rippled(m, v, dst, a, b, temp, pair, carry, subtract, w, n)
    ensures Get(v, a + n) == Word(m, a, w)[n] && (Get(v, b + n) != subtract) == Operand(Word(m, b, w), subtract)[n]
    ensures Get(v, carry) == CarryIn(Word(m, a, w), Operand(Word(m, b, w), subtract), subtract, n)
  {
    hide SumBit, CarryIn;
    assert Get(v, a + n) == Get(m, a + n);
    assert Get(v, b + n) == Get(m, b + n);
  }

  lemma RippleNext(x: Space, y: Space, cin: bool, n: nat)
    requires n < |x| == |y|
    ensures SumBit(x, y, cin, n) == ((x[n] != y[n]) != CarryIn(x, y, cin, n))
    ensures CarryIn(x, y, cin, n + 1) == ((x[n] && y[n]) || (x[n] != y[n] && CarryIn(x, y, cin, n)))
  {
  }

  lemma RippleApart(dst: nat, a: nat, b: nat, temp: nat, pair: nat, carry: nat, w: nat, n: nat, i: nat)
    requires RipplePlaced(dst, a, b, temp, pair, carry, w) && i < n < w
    ensures dst + i != dst + n && dst + i != temp + n && dst + i != carry && !Inside(dst + i, pair, 2)
  {
  }

  lemma {:induction false} RippleRuns(m: Memory, dst: nat, a: nat, b: nat, temp: nat, pair: nat, carry: nat, cin: nat, subtract: bool, w: nat, n: nat)
    requires RipplePlaced(dst, a, b, temp, pair, carry, w) && n <= w && Get(m, cin) == subtract
    ensures Rippled(m, Run(m, RippleGates(dst, a, b, temp, pair, carry, cin, subtract, n)), dst, a, b, temp, pair, carry, subtract, w, n)
  {
    hide Run, Rippled, RippleBit, RipplePlaced;
    if n == 0 {
      RippleNone(m, dst, a, b, temp, pair, carry, cin, subtract, w);
    } else {
      var k := n - 1;
      RippleRuns(m, dst, a, b, temp, pair, carry, cin, subtract, w, k);
      var before := RippleGates(dst, a, b, temp, pair, carry, cin, subtract, k);
      var v := Run(m, before);
      RunAppend(m, before, RippleBit(dst, a, b, temp, pair, carry, subtract, k));
      RippleBitRuns(v, dst, a, b, temp, pair, carry, subtract, k, w);
      RippledMore(m, v, Run(v, RippleBit(dst, a, b, temp, pair, carry, subtract, k)), dst, a, b, temp, pair, carry, subtract, w, k);
    }
  }

  lemma RippleNone(m: Memory, dst: nat, a: nat, b: nat, temp: nat, pair: nat, carry: nat, cin: nat, subtract: bool, w: nat)
    requires Get(m, cin) == subtract
    ensures Rippled(m, Run(m, [Move(carry, cin)]), dst, a, b, temp, pair, carry, subtract, w, 0)
  {
    RunSnoc(m, [], Move(carry, cin));
    assert [] + [Move(carry, cin)] == [Move(carry, cin)];
    MoveIs(m, carry, cin);
    hide Step, Run;
  }

  lemma RippleAdds(m: Memory, dst: nat, a: nat, b: nat, temp: nat, pair: nat, carry: nat, cin: nat, subtract: bool, w: nat)
    requires RipplePlaced(dst, a, b, temp, pair, carry, w) && Get(m, cin) == subtract
    ensures Added(m, Run(m, RippleGates(dst, a, b, temp, pair, carry, cin, subtract, w)), dst, carry, a, b, subtract, w)
  {
    hide Run;
    RippleRuns(m, dst, a, b, temp, pair, carry, cin, subtract, w, w);
  }

  /** The prefix adder replaces the ripple adder: same bits, same carry, for every width 2^k. */
  lemma AddersAgree(m: Memory, s: Scratch, dst: nat, a: nat, b: nat, temp: nat, pair: nat, cin: nat, subtract: bool, k: nat, i: nat)
    requires WordsPlaced(s, dst, a, b, cin, Pow2(k)) && RipplePlaced(dst, a, b, temp, pair, s.carry, Pow2(k))
    requires Get(m, cin) == subtract && i < Pow2(k)
    ensures var t := Run(m, PrefixGates(s, dst, a, b, cin, subtract, k));
      var u := Run(m, RippleGates(dst, a, b, temp, pair, s.carry, cin, subtract, Pow2(k)));
      Get(t, dst + i) == Get(u, dst + i) && Get(t, s.carry) == Get(u, s.carry)
  {
    hide Run, Pow2, PrefixGates, RippleGates, WordsPlaced, RipplePlaced;
    PrefixAdds(m, s, dst, a, b, cin, subtract, k);
    RippleAdds(m, dst, a, b, temp, pair, s.carry, cin, subtract, Pow2(k));
    AddedBit(m, Run(m, PrefixGates(s, dst, a, b, cin, subtract, k)), dst, s.carry, a, b, subtract, Pow2(k), i);
    AddedBit(m, Run(m, RippleGates(dst, a, b, temp, pair, s.carry, cin, subtract, Pow2(k))), dst, s.carry, a, b, subtract, Pow2(k), i);
  }

  lemma AddedBit(m: Memory, t: Memory, dst: nat, carry: nat, a: nat, b: nat, subtract: bool, w: nat, i: nat)
    requires Added(m, t, dst, carry, a, b, subtract, w) && i < w
    ensures Get(t, dst + i) == SumBit(Word(m, a, w), Operand(Word(m, b, w), subtract), subtract, i)
    ensures Get(t, carry) == CarryIn(Word(m, a, w), Operand(Word(m, b, w), subtract), subtract, w)
  {
  }

  /** Sum and carry as numbers; after a subtraction the carry is set when nothing was borrowed. */
  lemma AddedSpells(m: Memory, t: Memory, dst: nat, carry: nat, a: nat, b: nat, subtract: bool, w: nat)
    requires Added(m, t, dst, carry, a, b, subtract, w)
    ensures var x, y, z, c := Val(Word(m, a, w), 0, w), Val(Word(m, b, w), 0, w), Val(Word(t, dst, w), 0, w), Bit(Get(t, carry));
      if subtract then z + y + Pow2(w) * c == x + Pow2(w) else z + Pow2(w) * c == x + y
  {
    hide Val;
    var x, y, z := Word(m, a, w), Operand(Word(m, b, w), subtract), Word(t, dst, w);
    forall i | 0 <= i < w ensures z[i] == SumBit(x, y, subtract, i) {
    }
    SumSpells(x, y, z, subtract, w);
    if subtract {
      Complement(Word(m, b, w), y, w);
    } else {
      assert y == Word(m, b, w);
    }
  }

  /** The words that the bulk generator sets aside for its adder, behind scratch word 64. */
  function BulkScratch(base: nat, carry: nat): Scratch {
    Scratch(base + 64 * 32, base + 65 * 32, base + 66 * 32, base + 67 * 32, base + 68 * 32, base + 69 * 32, carry)
  }

  /** They hold 32-bit words apart, so any operands outside them will do. */
  lemma BulkPlaced(base: nat, carry: nat, dst: nat, a: nat, b: nat, cin: nat)
    requires Apart(dst, 32, base + 2048, 192) && Apart(a, 32, base + 2048, 192) && Apart(b, 32, base + 2048, 192)
    requires Apart(cin, 1, base + 2048, 192) && Apart(dst, 32, cin, 1) && Apart(carry, 1, base + 2048, 192) && Apart(carry, 1, dst, 32)
    ensures WordsPlaced(BulkScratch(base, carry), dst, a, b, cin, 32) && Pow2(5) == 32
  {
  }

  lemma SpelledIs(x: nat, y: nat, z: nat, c: nat, subtract: bool, m: nat)
    requires x < m && y < m && z < m && c <= 1
    requires if subtract then z + y + m * c == x + m else z + m * c == x + y
    ensures z == (if subtract then m + x - y else x + y) % m
    ensures c == (if subtract then Bit(x >= y) else Bit(x + y >= m))
  {
    assert m * c == if c == 0 then 0 else m;
    DivModUnique(m, c, z);
  }

  lemma StageStart()
    ensures Pow2(0) == 1
  {
  }

  lemma StageDoubles(k: nat)
    ensures Pow2(k + 1) == 2 * Pow2(k)
  {
  }
}
