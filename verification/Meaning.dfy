/**
 * What the statements of a text promise, as laws of numbers: which way a branch goes behind a comparison, and what
 * every computing statement leaves in its register, with all other registers and the flags as they were.
 */
module Meaning {
  import opened Bits
  import opened Machine
  import opened Layers
  import opened Programs
  import opened Emission
  import opened Items
  import opened Lookups
  import opened CopyEmit
  import opened Arith
  import opened Compare
  import opened Multiply
  import opened Divide
  import opened Division
  import opened Shifts
  import opened Report
  import opened Writer
  import opened Texts
  import opened Execution

  /** A word as a number with a sign. */
  function Value32(v: nat): int {
    if v < 0x8000_0000 then v else v - 0x1_0000_0000
  }

  // ---- Branches.

  /** Between its first and its last statement, an execution of n statements compares nothing. */
  ghost predicate Uncompared(text: seq<Statement>, start: Standing, n: nat)
    requires start.state.Valid()
  {
    forall k: nat {:trigger ExecuteSteps(text, start, k)} | 0 < k < n && ExecuteSteps(text, start, k).Some? ::
      var x := ExecuteSteps(text, start, k).value;
      x.Running? && x.pc < |text| ==> !text[x.pc].Test?
  }

  lemma {:induction false} OrderLasts(text: seq<Statement>, start: Standing, n: nat)
    requires start.state.Valid() && n > 0 && ExecuteSteps(text, start, n).Some? && Uncompared(text, start, n)
    ensures ExecuteSteps(text, start, 1).Some? && ExecuteSteps(text, start, n).value.state.order == ExecuteSteps(text, start, 1).value.state.order
    decreases n
  {
    if n > 1 {
      OrderLasts(text, start, n - 1);
      var x := ExecuteSteps(text, start, n - 1).value;
      OrderKept(text, x);
    }
  }

  lemma OrderKept(text: seq<Statement>, x: Standing)
    requires x.state.Valid() && Execute(text, x).Some? && (x.Running? && x.pc < |text| ==> !text[x.pc].Test?)
    ensures Execute(text, x).value.state.order == x.state.order
  {
    hide Quotient, Remainder, Shifted, BitByBit, Extended, ToWord, Product;
  }

  lemma FirstStep(text: seq<Statement>, start: Standing)
    requires start.state.Valid()
    ensures ExecuteSteps(text, start, 1) == Execute(text, start)
  {
    assert ExecuteSteps(text, start, 0) == Some(start);
  }

  /**
   * A comparison of two words, and later, with no other comparison on the way, a branch: control goes behind the label if and only if
   * the relation that the branch asks for holds, or fails to hold if the branch is inverted; otherwise to the next statement.
   */
  lemma BranchGoes(text: seq<Statement>, pc: nat, s: State, left: Reg, right: Reg, n: nat, at: nat, t: State, flag: Flag, inverted: bool, name: nat, target: nat)
    requires s.Valid() && t.Valid() && pc < |text| && text[pc] == Test(left, right) && n > 0 && Uncompared(text, Running(pc, s), n)
    requires ExecuteSteps(text, Running(pc, s), n) == Some(Running(at, t)) && at < |text| && text[at] == When(flag, inverted, name)
    requires target < |text| && text[target] == Label(name) && forall i | 0 <= i < |text| && text[i] == Label(name) :: i == target
    ensures var x, y := s.regs[left], s.regs[right];
      var relation := match flag
        case Eq => x == y
        case Lts => Value32(x) < Value32(y)
        case Les => Value32(x) <= Value32(y)
        case Ltu => x < y
        case Leu => x <= y;
      Execute(text, Running(at, t)) == Some(Running(if relation != inverted then target + 1 else at + 1, t))
  {
    OrderLasts(text, Running(pc, s), n);
    FirstStep(text, Running(pc, s));
    hide ExecuteSteps;
    assert Defined(text, name) == Some(target);
  }

  /** In particular directly behind the comparison, for any two words. */
  lemma BranchBehind(text: seq<Statement>, pc: nat, s: State, left: Reg, right: Reg, flag: Flag, inverted: bool, name: nat, target: nat)
    requires s.Valid() && pc + 1 < |text| && text[pc] == Test(left, right) && text[pc + 1] == When(flag, inverted, name)
    requires target < |text| && text[target] == Label(name) && forall i | 0 <= i < |text| && text[i] == Label(name) :: i == target
    ensures var x, y := s.regs[left], s.regs[right];
      var relation := match flag
        case Eq => x == y
        case Lts => Value32(x) < Value32(y)
        case Les => Value32(x) <= Value32(y)
        case Ltu => x < y
        case Leu => x <= y;
      exists t: State :: t.Valid() && t.regs == s.regs
        && ExecuteSteps(text, Running(pc, s), 2) == Some(Running(if relation != inverted then target + 1 else pc + 2, t))
  {
    FirstStep(text, Running(pc, s));
    var t := Do(Test(left, right), s);
    BranchGoes(text, pc, s, left, right, 1, pc + 1, t, flag, inverted, name, target);
    assert ExecuteSteps(text, Running(pc, s), 2) == Execute(text, Running(pc + 1, t));
  }

  /** A label leads on, a GoTo behind its label, and a Return or the end of the text out of the function; registers and flags stay. */
  lemma ControlMeans(text: seq<Statement>, pc: nat, s: State, target: nat)
    requires s.Valid()
    ensures pc < |text| && text[pc].Label? ==> Execute(text, Running(pc, s)) == Some(Running(pc + 1, s))
    ensures (pc < |text| && target < |text| && text[pc].GoTo? && text[target] == Label(text[pc].name)
             && forall i | 0 <= i < |text| && text[i] == Label(text[pc].name) :: i == target)
      ==> Execute(text, Running(pc, s)) == Some(Running(target + 1, s))
    ensures pc >= |text| || text[pc].Return? ==> Execute(text, Running(pc, s)) == Some(Returned(s))
  {
    if pc < |text| && text[pc].GoTo? && target < |text| && text[target] == Label(text[pc].name) {
      assert Defined(text, text[pc].name).Some?;
    }
  }

  // ---- Statements that compute.

  /** One register gets a value, nothing else changes, and control goes to the next statement. */
  ghost predicate Puts(text: seq<Statement>, pc: nat, s: State, dst: Reg, r: nat)
    requires s.Valid()
  {
    r < 0x1_0000_0000 && Execute(text, Running(pc, s)) == Some(Running(pc + 1, State(s.regs[dst := r], s.order)))
  }

  lemma DoPuts(text: seq<Statement>, pc: nat, s: State, dst: Reg, r: nat)
    requires s.Valid() && pc < |text| && Computes(text[pc]) && Do(text[pc], s) == s.Set(dst, r)
    ensures Puts(text, pc, s, dst, r)
  {
    hide Do;
    assert Do(text[pc], s).regs[dst] < WORD;
  }

  lemma MovesMean(text: seq<Statement>, pc: nat, s: State, dst: Reg, src: Reg, value: Value)
    requires s.Valid() && pc < |text|
    ensures text[pc] == Load(dst, value) ==> Puts(text, pc, s, dst, value)
    ensures text[pc] == Copy(dst, src) ==> Puts(text, pc, s, dst, s.regs[src])
    ensures text[pc] == Nothing ==> Execute(text, Running(pc, s)) == Some(Running(pc + 1, s))
  {
  }

  /** The low byte or half, between 0 and its bound, or between minus and plus half of it. */
  lemma ExtendMeans(text: seq<Statement>, pc: nat, s: State, dst: Reg, src: Reg, wide: bool, signed: bool) returns (r: nat)
    requires s.Valid() && pc < |text| && text[pc] == Extend(dst, src, wide, signed)
    ensures var m := if wide then 0x1_0000 else 0x100;
      && Puts(text, pc, s, dst, r) && r % m == s.regs[src] % m
      && if signed then -m <= 2 * Value32(r) < m else r < m
  {
    r := Extended(s.regs[src], wide, signed);
    hide Extended;
    DoPuts(text, pc, s, dst, r);
    ExtendedLaw(s.regs[src], wide, signed);
  }

  lemma ExtendedLaw(x: nat, wide: bool, signed: bool)
    ensures var m, r := if wide then 0x1_0000 else 0x100, Extended(x, wide, signed);
      r % m == x % m && if signed then -m <= 2 * Value32(r) < m else r < m
  {
  }

  /** Sums and differences modulo 2^32. */
  lemma ChangeMeans(text: seq<Statement>, pc: nat, s: State, dst: Reg, value: Value, down: bool) returns (r: nat)
    requires s.Valid() && pc < |text| && text[pc] == Change(dst, value, down)
    ensures Puts(text, pc, s, dst, r)
    ensures if down then (r + value) % 0x1_0000_0000 == s.regs[dst] else r == (s.regs[dst] + value) % 0x1_0000_0000
  {
    DoChange(s, dst, value, down);
    hide Do;
    assert s.regs[dst] < WORD;
    r := ToWord(if down then WORD + s.regs[dst] - value else s.regs[dst] + value);
    DoPuts(text, pc, s, dst, r);
  }

  lemma TotalMeans(text: seq<Statement>, pc: nat, s: State, dst: Reg, src: Reg, subtract: bool) returns (r: nat)
    requires s.Valid() && pc < |text| && text[pc] == Total(dst, src, subtract)
    ensures Puts(text, pc, s, dst, r)
    ensures if subtract then (r + s.regs[src]) % 0x1_0000_0000 == s.regs[dst] else r == (s.regs[dst] + s.regs[src]) % 0x1_0000_0000
  {
    DoTotal(s, dst, src, subtract);
    hide Do;
    assert s.regs[dst] < WORD && s.regs[src] < WORD;
    r := ToWord(if subtract then WORD + s.regs[dst] - s.regs[src] else s.regs[dst] + s.regs[src]);
    DoPuts(text, pc, s, dst, r);
  }

  lemma NegateMeans(text: seq<Statement>, pc: nat, s: State, dst: Reg, src: Reg) returns (r: nat)
    requires s.Valid() && pc < |text| && text[pc] == Negate(dst, src)
    ensures Puts(text, pc, s, dst, r) && (r + s.regs[src]) % 0x1_0000_0000 == 0
  {
    DoNegate(s, dst, src);
    hide Do;
    assert s.regs[src] < WORD;
    r := ToWord(WORD - s.regs[src]);
    DoPuts(text, pc, s, dst, r);
  }

  lemma InvertMeans(text: seq<Statement>, pc: nat, s: State, dst: Reg, src: Reg) returns (r: nat)
    requires s.Valid() && pc < |text| && text[pc] == Invert(dst, src)
    ensures Puts(text, pc, s, dst, r) && forall i: nat | i < 32 :: Digit(r, i) == !Digit(s.regs[src], i)
  {
    var y := s.regs[src];
    assert Do(text[pc], s) == s.Set(dst, WORD - 1 - y) && y < WORD;
    hide Do, Digit;
    r := WORD - 1 - y;
    DoPuts(text, pc, s, dst, r);
    Pow2Word();
    hide Pow2;
    forall i: nat | i < 32 ensures Digit(r, i) == !Digit(y, i) {
      InvertDigit(y, 32, i);
    }
  }

  lemma {:induction false} InvertDigit(y: nat, w: nat, i: nat)
    requires y < Pow2(w) && i < w
    ensures Digit(Pow2(w) - 1 - y, i) == !Digit(y, i)
    decreases w
  {
    if i > 0 {
      InvertDigit(y / 2, w - 1, i - 1);
      assert (Pow2(w) - 1 - y) / 2 == Pow2(w - 1) - 1 - y / 2;
    }
  }

  /** Bit by bit. */
  lemma BitwiseMeans(text: seq<Statement>, pc: nat, s: State, gate: Gate, dst: Reg, src: Reg) returns (r: nat)
    requires s.Valid() && pc < |text| && text[pc] == Bitwise(gate, dst, src)
    ensures Puts(text, pc, s, dst, r)
    ensures forall i: nat | i < 32 ::
      var a, b := Digit(s.regs[dst], i), Digit(s.regs[src], i);
      Digit(r, i) == match gate case And => a && b case Or => a || b case Xor => a != b
  {
    var x, y := s.regs[dst], s.regs[src];
    r := BitByBit(gate, x, y);
    DoPuts(text, pc, s, dst, r);
    hide Val, Digit;
    var bits := seq(32, i requires 0 <= i < 32 => gate.Apply(Digit(x, i), Digit(y, i)));
    forall i: nat | i < 32 ensures Digit(r, i) == gate.Apply(Digit(x, i), Digit(y, i)) {
      BitDigit(bits, 0, 32, i);
    }
  }

  /** The product modulo 2^32. */
  lemma MulMeans(text: seq<Statement>, pc: nat, s: State, dst: Reg, src: Reg) returns (r: nat)
    requires s.Valid() && pc < |text| && text[pc] == Mul(dst, src)
    ensures Puts(text, pc, s, dst, r) && r == s.regs[dst] * s.regs[src] % 0x1_0000_0000
  {
    r := Product(s.regs[dst], s.regs[src]) % WORD;
    DoPuts(text, pc, s, dst, r);
  }

  /** Truncating division; a zero divisor gives all ones and the dividend, and the one quotient that is no word wraps around. */
  lemma DivMeans(text: seq<Statement>, pc: nat, s: State, dst: Reg, src: Reg, signed: bool, remainder: bool) returns (r: nat)
    requires s.Valid() && pc < |text| && text[pc] == Div(dst, src, signed, remainder)
    ensures Puts(text, pc, s, dst, r)
    ensures var x, y := s.regs[dst], s.regs[src];
      if y == 0 then r == if remainder then x else 0xFFFF_FFFF
      else if signed then Truncated(Value32(x), Value32(y), Value32(r), remainder)
      else if remainder then r < y && exists q: nat :: x == q * y + r
      else r * y <= x < r * y + y
  {
    hide Quotient, Remainder;
    var x, y := s.regs[dst], s.regs[src];
    r := if remainder then Remainder(signed, x, y) else Quotient(signed, x, y);
    DivisionBound(signed, x, y);
    DoPuts(text, pc, s, dst, r);
    if y != 0 && signed {
      SignedLaw(x, y, remainder);
    } else {
      UnsignedLaw(x, y, signed);
    }
  }

  /** z is the quotient or the remainder of x by y, rounded towards zero; the quotient of the most negative word by minus one is that word. */
  ghost predicate Truncated(x: int, y: int, z: int, remainder: bool) {
    if remainder then Rest(x, y, z) && exists q: int :: x == q * y + z
    else if x == -0x8000_0000 && y == -1 then z == x
    else Rest(x, y, x - z * y)
  }

  /** Smaller than the divisor, and of the dividend's sign. */
  predicate Rest(x: int, y: int, z: int) {
    && (if z < 0 then -z else z) < (if y < 0 then -y else y)
    && (z != 0 ==> (z < 0 <==> x < 0))
  }

  lemma UnsignedLaw(x: nat, y: nat, signed: bool)
    ensures y == 0 ==> Quotient(signed, x, y) == 0xFFFF_FFFF && Remainder(signed, x, y) == x
    ensures y != 0 && !signed ==>
      var q, r := Quotient(signed, x, y), Remainder(signed, x, y);
      q * y <= x < q * y + y && r < y && x == q * y + r
  {
    if y != 0 {
      DivModIs(x, y);
      assert y * (x / y) == (x / y) * y;
    }
  }

  lemma SignedLaw(x: nat, y: nat, remainder: bool)
    requires x < WORD && y < WORD && y != 0
    ensures Truncated(Value32(x), Value32(y), Value32(if remainder then Remainder(true, x, y) else Quotient(true, x, y)), remainder)
  {
    var a, b := Signed(x), Signed(y);
    assert a == Value32(x) && b == Value32(y) != 0;
    TruncLaw(a, b);
    var q, r := TruncDiv(a, b), TruncRem(a, b);
    hide TruncDiv, TruncRem;
    assert Rest(a, b, r) && a == q * b + r;
    if remainder {
      Fits(r);
    } else if !(a == -0x8000_0000 && b == -1) {
      QuotientFits(a, b, q, r);
      Fits(q);
    } else {
      assert q == 0x8000_0000;
    }
  }

  lemma Fits(z: int)
    requires -0x8000_0000 <= z < 0x8000_0000
    ensures ToWord(z) < 0x1_0000_0000 && Value32(ToWord(z)) == z
  {
  }

  lemma QuotientFits(a: int, b: int, q: int, r: int)
    requires -0x8000_0000 <= a < 0x8000_0000 && b != 0 && a == q * b + r && Rest(a, b, r) && !(a == -0x8000_0000 && b == -1)
    ensures -0x8000_0000 <= q < 0x8000_0000
  {
    SignProducts(q, b);
    if q >= 0x8000_0000 {
      AtLeast(q, b);
    } else if q < -0x8000_0000 {
      AtLeast(-q, b);
    }
  }

  /** A product is at least as large as either factor. */
  lemma AtLeast(q: int, b: int)
    requires q > 0 && b != 0
    ensures b > 0 ==> q * b >= q && q * b >= b
    ensures b < 0 ==> q * b <= -q && q * b <= b
    ensures b <= -2 ==> q * b <= -2 * q
  {
  }

  /** By the low five bits of the count: a product modulo 2^32, or a quotient rounded down, of the word or of the word as a number with a sign. */
  lemma ShiftMeans(text: seq<Statement>, pc: nat, s: State, dst: Reg, src: Reg, direction: Direction) returns (r: nat)
    requires s.Valid() && pc < |text| && text[pc] == Shift(dst, src, direction)
    ensures Puts(text, pc, s, dst, r)
    ensures var x, p := s.regs[dst], Pow2(s.regs[src] % 32);
      match direction
      case Left => r == x * p % 0x1_0000_0000
      case Logical => r * p <= x < r * p + p
      case Arithmetic => Value32(r) * p <= Value32(x) < Value32(r) * p + p
  {
    hide Shifted, Pow2;
    var x, k := s.regs[dst], s.regs[src] % 32;
    r := ToWord(Shifted(direction, x, k));
    DoPuts(text, pc, s, dst, r);
    ShiftLaw(direction, x, k);
  }

  lemma ShiftLaw(direction: Direction, x: nat, k: nat)
    requires x < WORD
    ensures var r, p := ToWord(Shifted(direction, x, k)), Pow2(k);
      match direction
      case Left => r == x * p % 0x1_0000_0000
      case Logical => r * p <= x < r * p + p
      case Arithmetic => Value32(r) * p <= Value32(x) < Value32(r) * p + p
  {
    hide Pow2;
    var p := Pow2(k);
    match direction
    case Left =>
    case Logical =>
      FloorIs(x, p);
      SmallMod(x / p, WORD);
    case Arithmetic =>
      var z := Signed(x) / p;
      FloorIs(Signed(x), p);
      Fits(z);
  }

  lemma FloorIs(x: int, p: nat)
    requires p > 0
    ensures (x / p) * p <= x < (x / p) * p + p
    ensures x >= 0 ==> 0 <= x / p <= x
    ensures x < 0 ==> x <= x / p < 0
  {
    var q, m := x / p, x % p;
    assert x == p * q + m && p * q == q * p && m < p;
    Between(x, p, q, m);
  }

  lemma Between(x: int, p: nat, q: int, m: nat)
    requires p > 0 && x == p * q + m && m < p
    ensures x >= 0 ==> 0 <= q <= x
    ensures x < 0 ==> x <= q < 0
  {
    if x >= 0 {
      if q < 0 { MulMonotone(p, q, 0); }
      if q > x { MulMonotone(p, x, q); }
      if x > 0 { AtLeast(x, p); }
    } else {
      if q > 0 { MulMonotone(p, 0, q); }
      if q < x { MulMonotone(p, q, x); }
      AtLeast(p, x);
    }
  }
}
