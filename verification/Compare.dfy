/** The linker's fixed addresses and tables, and its 32-bit comparison. */
module Compare {
  import opened Bits
  import opened Machine
  import opened Layers
  import opened Programs
  import opened Emission
  import opened Lookups
  import opened Arith

  const CONSTANT_BASE: nat := 24576
  const REG_BASE: nat := 32768
  const ADD_TABLE: nat := 33792
  const SUB_TABLE: nat := 33808
  const AND_TABLE: nat := 33824
  const OR_TABLE: nat := 33828
  const XOR_TABLE: nat := 33832
  const TEMPORARY: nat := 33840
  const CARRY: nat := 33842
  const SHIFT_ZERO: nat := 33896
  const CMP_EQ: nat := 33900
  const CMP_LTU: nat := 33901
  const CMP_LTS: nat := 33902
  const CMP_LEU: nat := 33903
  const CMP_LES: nat := 33904
  const CMP_SIGN: nat := 33905
  const EQ_TABLE: nat := 33920
  const LT_TABLE: nat := 33928

  const WORD: nat := 0x1_0000_0000

  /** Tables and constants, which no generated copy writes. */
  ghost function Fixed(): iset<int> {
    Span(CONSTANT_BASE, 8192) + Span(ADD_TABLE, 44) + Span(SHIFT_ZERO, 1) + Span(EQ_TABLE, 16)
  }

  /** What the linker puts into the tables before it emits code. */
  ghost predicate Tables(c: Config, code: Code, s: Space) {
    && c.Valid() && 6 <= c.ab && code.fixed == BRANCH_TABLE && BRANCH_TABLE <= code.limit <= |s|
    && (code.adds ==> AdderTable(s, ADD_TABLE, false)) && (code.subs ==> AdderTable(s, SUB_TABLE, true))
    && Val(s, AND_TABLE, 4) == 8 && Val(s, OR_TABLE, 4) == 14 && Val(s, XOR_TABLE, 4) == 6
    && Val(s, EQ_TABLE, 8) == 144 && Val(s, LT_TABLE, 8) == 212
    && !s[SHIFT_ZERO]
  }

  lemma TablesRange(c: Config, code: Code, s: Space)
    requires Tables(c, code, s)
    ensures c.Valid() && 6 <= c.ab && c.LayerBits() <= CONSTANT_BASE && code.fixed == BRANCH_TABLE <= |s|
  {
  }

  lemma TablesKept(c: Config, code: Code, s: Space, t: Space, area: iset<int>)
    requires Tables(c, code, s) && Same(s, t, area) && area !! Fixed()
    ensures Tables(c, code, t)
  {
    hide Val, Pow2;
    if code.adds { AdderTableKept(s, t, area, ADD_TABLE, false); }
    if code.subs { AdderTableKept(s, t, area, SUB_TABLE, true); }
    SameFixed(s, t, area, AND_TABLE, 4);
    SameFixed(s, t, area, OR_TABLE, 4);
    SameFixed(s, t, area, XOR_TABLE, 4);
    SameFixed(s, t, area, EQ_TABLE, 8);
    SameFixed(s, t, area, LT_TABLE, 8);
    assert SHIFT_ZERO in Fixed();
  }

  lemma AdderTableKept(s: Space, t: Space, area: iset<int>, table: nat, subtract: bool)
    requires AdderTable(s, table, subtract) && Same(s, t, area) && Span(table, 16) !! area
    ensures AdderTable(t, table, subtract)
  {
    hide Val;
    forall i | 0 <= i < 8 ensures EntryHolds(t, table, subtract, i) {
      assert EntryHolds(s, table, subtract, i);
      SpanInside(table, 16, table + 2 * i, 2);
      SameVal(s, t, area, table + 2 * i, 2);
    }
  }

  lemma SameFixed(s: Space, t: Space, area: iset<int>, at: nat, w: nat)
    requires Same(s, t, area) && area !! Fixed() && at + w <= |s| && Span(at, w) <= Fixed()
    ensures Val(t, at, w) == Val(s, at, w)
  {
    SameVal(s, t, area, at, w);
  }

  lemma ValFour(s: Space, at: nat)
    requires at + 4 <= |s|
    ensures Val(s, at, 4) == Bit(s[at]) + 2 * Bit(s[at + 1]) + 4 * Bit(s[at + 2]) + 8 * Bit(s[at + 3])
  {
    ValTwo(s, at);
    ValTwo(s, at + 2);
    ValSplit(s, at, 2, 2);
    SmallPowers();
  }

  lemma ValEight(s: Space, at: nat)
    requires at + 8 <= |s|
    ensures Val(s, at, 8) == Val(s, at, 4) + 16 * Val(s, at + 4, 4)
  {
    ValSplit(s, at, 4, 4);
    SmallPowers();
  }

  /** Two-input gates, as the entries of a four-bit table. */
  datatype Gate = And | Or | Xor {
    function Table(): nat {
      match this
      case And => AND_TABLE
      case Or => OR_TABLE
      case Xor => XOR_TABLE
    }

    predicate Apply(a: bool, b: bool) {
      match this
      case And => a && b
      case Or => a || b
      case Xor => a != b
    }
  }

  lemma GateBit(c: Config, code: Code, s: Space, g: Gate, a: bool, b: bool)
    requires Tables(c, code, s)
    ensures s[g.Table() + Bit(a) + 2 * Bit(b)] == g.Apply(a, b)
  {
    hide Val, AdderTable;
    ValFour(s, g.Table());
  }

  lemma EqualBit(c: Config, code: Code, s: Space, a: bool, b: bool, d: bool)
    requires Tables(c, code, s)
    ensures s[EQ_TABLE + Bit(a) + 2 * Bit(b) + 4 * Bit(d)] == (a == b && d)
  {
    hide Val, AdderTable;
    ValEight(s, EQ_TABLE);
    ValFour(s, EQ_TABLE);
    ValFour(s, EQ_TABLE + 4);
  }

  lemma LessBit(c: Config, code: Code, s: Space, a: bool, b: bool, d: bool)
    requires Tables(c, code, s)
    ensures s[LT_TABLE + Bit(a) + 2 * Bit(b) + 4 * Bit(d)] == (if a == b then d else b)
  {
    hide Val, AdderTable;
    ValEight(s, LT_TABLE);
    ValFour(s, LT_TABLE);
    ValFour(s, LT_TABLE + 4);
  }

  function GateOp(g: Gate, dst: nat, a: nat, b: nat): Op {
    Lookup(1, dst, g.Table(), 0, [a, b])
  }

  /** A gate lookup at the end of a run of operations. */
  lemma DoGate(c: Config, code: Code, s: Space, ops: seq<Op>, t: Space, g: Gate, dst: nat, a: nat, b: nat)
    returns (u: Space)
    requires Tables(c, code, t) && Exec(c, code, s, ops) == Some(t)
    requires Writable(c, code, t, dst, 1) && Readable(c, t, a, 1) && Readable(c, t, b, 1)
    ensures Exec(c, code, s, ops + [GateOp(g, dst, a, b)]) == Some(u)
    ensures Same(t, u, Span(dst, 1)) && u[dst] == g.Apply(t[a], t[b])
  {
    hide Exec, Tables;
    TablesRange(c, code, t);
    GateBit(c, code, t, g, t[a], t[b]);
    SnocLookup2(c, code, s, ops, t, dst, g.Table(), a, b);
    u := CopyBits(t, 1, dst, g.Table() + Bit(t[a]) + 2 * Bit(t[b]));
  }

  function EqualOp(dst: nat, a: nat, b: nat): Op {
    Lookup(1, dst, EQ_TABLE, 0, [a, b, dst])
  }

  function LessOp(dst: nat, a: nat, b: nat): Op {
    Lookup(1, dst, LT_TABLE, 0, [a, b, dst])
  }

  lemma DoEqual(c: Config, code: Code, s: Space, ops: seq<Op>, t: Space, dst: nat, a: nat, b: nat)
    returns (u: Space)
    requires Tables(c, code, t) && Exec(c, code, s, ops) == Some(t)
    requires Writable(c, code, t, dst, 1) && Readable(c, t, a, 1) && Readable(c, t, b, 1)
    ensures Exec(c, code, s, ops + [EqualOp(dst, a, b)]) == Some(u)
    ensures Same(t, u, Span(dst, 1)) && u[dst] == (t[a] == t[b] && t[dst])
  {
    hide Exec, Tables;
    TablesRange(c, code, t);
    EqualBit(c, code, t, t[a], t[b], t[dst]);
    SnocLookup3(c, code, s, ops, t, dst, EQ_TABLE, a, b, dst);
    u := CopyBits(t, 1, dst, EQ_TABLE + Bit(t[a]) + 2 * Bit(t[b]) + 4 * Bit(t[dst]));
  }

  lemma DoLess(c: Config, code: Code, s: Space, ops: seq<Op>, t: Space, dst: nat, a: nat, b: nat)
    returns (u: Space)
    requires Tables(c, code, t) && Exec(c, code, s, ops) == Some(t)
    requires Writable(c, code, t, dst, 1) && Readable(c, t, a, 1) && Readable(c, t, b, 1)
    ensures Exec(c, code, s, ops + [LessOp(dst, a, b)]) == Some(u)
    ensures Same(t, u, Span(dst, 1)) && u[dst] == if t[a] == t[b] then t[dst] else t[b]
  {
    hide Exec, Tables;
    TablesRange(c, code, t);
    LessBit(c, code, t, t[a], t[b], t[dst]);
    SnocLookup3(c, code, s, ops, t, dst, LT_TABLE, a, b, dst);
    u := CopyBits(t, 1, dst, LT_TABLE + Bit(t[a]) + 2 * Bit(t[b]) + 4 * Bit(t[dst]));
  }

  /** A plain copy at the end of a run of operations. */
  lemma DoCopy(c: Config, code: Code, s: Space, ops: seq<Op>, t: Space, n: nat, dst: nat, src: nat)
    returns (u: Space)
    requires c.Valid() && Exec(c, code, s, ops) == Some(t)
    requires n > 0 && Writable(c, code, t, dst, n) && Readable(c, t, src, n)
    ensures Exec(c, code, s, ops + [Plain(n, dst, src)]) == Some(u)
    ensures Same(t, u, Span(dst, n)) && Val(u, dst, n) == Val(t, src, n) && u[dst] == t[src]
    ensures u == CopyBits(t, n, dst, src)
  {
    hide Exec, Val;
    SnocPlain(c, code, s, ops, t, n, dst, src);
    u := CopyBits(t, n, dst, src);
    CopyInside(t, n, dst, src, dst, n);
  }

  /** A register word or a scratch word: readable and apart from the comparison flags. */
  predicate Operand(c: Config, s: Space, at: nat)
    requires c.Valid()
  {
    Readable(c, s, at, 32) && Apart(at, 32, CMP_EQ, 6)
  }

  function BitsOps(left: nat, right: nat, k: nat): seq<Op> {
    [Plain(1, CMP_EQ, EQ_TABLE + 7), Plain(1, CMP_LTU, EQ_TABLE)]
    + Flat(seq(k, j requires 0 <= j < k => [LessOp(CMP_LTU, left + j, right + j), EqualOp(CMP_EQ, left + j, right + j)]))
  }

  lemma BitsOpsSnoc(left: nat, right: nat, k: nat)
    ensures BitsOps(left, right, k + 1) ==
      BitsOps(left, right, k) + [LessOp(CMP_LTU, left + k, right + k)] + [EqualOp(CMP_EQ, left + k, right + k)]
    ensures BitsOps(left, right, 0) == [] + [Plain(1, CMP_EQ, EQ_TABLE + 7)] + [Plain(1, CMP_LTU, EQ_TABLE)]
  {
    var f := seq(k + 1, j requires 0 <= j < k + 1 =>
      [LessOp(CMP_LTU, left + j, right + j), EqualOp(CMP_EQ, left + j, right + j)]);
    assert f[..k] == seq(k, j requires 0 <= j < k =>
      [LessOp(CMP_LTU, left + j, right + j), EqualOp(CMP_EQ, left + j, right + j)]);
    assert Flat(f) == Flat(f[..k]) + f[k];
  }

  /** The copies of a 32-bit comparison, each lookup a chunk of its own. */
  function CompareOps(left: nat, right: nat): seq<Op> {
    BitsOps(left, right, 32)
    + [GateOp(Xor, CMP_SIGN, left + 31, right + 31)]
    + [GateOp(Xor, CMP_LTS, CMP_SIGN, CMP_LTU)]
    + [GateOp(Or, CMP_LEU, CMP_LTU, CMP_EQ)]
    + [GateOp(Or, CMP_LES, CMP_LTS, CMP_EQ)]
  }

  function Signed(v: nat): int {
    if v >= 0x8000_0000 then v - WORD else v
  }

  ghost function Flags(): iset<int> {
    Span(CMP_EQ, 6)
  }

  lemma ExecNone(c: Config, code: Code, s: Space)
    requires c.Valid()
    ensures Exec(c, code, s, []) == Some(s)
  {
  }

  lemma LessSnoc(x: nat, y: nat, p: nat, a: bool, b: bool)
    requires x < p && y < p
    ensures (x + p * Bit(a) == y + p * Bit(b)) == (a == b && x == y)
    ensures (x + p * Bit(a) < y + p * Bit(b)) == if a == b then x < y else b
  {
  }

  lemma BitsFirst(c: Config, code: Code, s: Space, left: nat, right: nat) returns (t: Space)
    requires Tables(c, code, s)
    ensures Exec(c, code, s, BitsOps(left, right, 0)) == Some(t)
    ensures Same(s, t, Flags()) && t[CMP_EQ] && !t[CMP_LTU]
  {
    hide Exec, Val, AdderTable, BitsOps;
    BitsOpsSnoc(left, right, 0);
    ExecNone(c, code, s);
    EqualBit(c, code, s, true, true, true);
    EqualBit(c, code, s, false, false, false);
    var u := DoCopy(c, code, s, [], s, 1, CMP_EQ, EQ_TABLE + 7);
    t := DoCopy(c, code, s, [] + [Plain(1, CMP_EQ, EQ_TABLE + 7)], u, 1, CMP_LTU, EQ_TABLE);
  }

  lemma BitsNext(c: Config, code: Code, s: Space, u: Space, left: nat, right: nat, j: nat)
    returns (t: Space)
    requires Tables(c, code, u) && j < 32 && Operand(c, u, left) && Operand(c, u, right)
    requires Exec(c, code, s, BitsOps(left, right, j)) == Some(u)
    ensures Exec(c, code, s, BitsOps(left, right, j + 1)) == Some(t)
    ensures Same(u, t, Flags())
    ensures t[CMP_EQ] == (u[left + j] == u[right + j] && u[CMP_EQ])
    ensures t[CMP_LTU] == if u[left + j] == u[right + j] then u[CMP_LTU] else u[right + j]
  {
    hide Exec, Val, AdderTable, BitsOps;
    BitsOpsSnoc(left, right, j);
    var v := DoLess(c, code, s, BitsOps(left, right, j), u, CMP_LTU, left + j, right + j);
    TablesKept(c, code, u, v, Span(CMP_LTU, 1));
    t := DoEqual(c, code, s, BitsOps(left, right, j) + [LessOp(CMP_LTU, left + j, right + j)],
                 v, CMP_EQ, left + j, right + j);
  }

  lemma {:induction false} BitsRun(c: Config, code: Code, s: Space, left: nat, right: nat, k: nat)
    returns (t: Space)
    requires Tables(c, code, s) && k <= 32 && Operand(c, s, left) && Operand(c, s, right)
    ensures Exec(c, code, s, BitsOps(left, right, k)) == Some(t)
    ensures Same(s, t, Flags())
    ensures t[CMP_EQ] == (Val(s, left, k) == Val(s, right, k))
    ensures t[CMP_LTU] == (Val(s, left, k) < Val(s, right, k))
    decreases k
  {
    hide Exec, Val, BitsOps, Tables, Pow2;
    if k == 0 {
      t := BitsFirst(c, code, s, left, right);
      assert Val(s, left, 0) == Val(s, right, 0) == 0 by { ValNone(s, left); ValNone(s, right); }
    } else {
      var j := k - 1;
      var u := BitsRun(c, code, s, left, right, j);
      TablesKept(c, code, s, u, Flags());
      t := BitsNext(c, code, s, u, left, right, j);
      SameThen(s, u, t, Flags(), Flags(), Flags());
      CompareSnoc(s, left, right, j);
    }
  }

  lemma ValNone(s: Space, at: nat)
    requires at <= |s|
    ensures Val(s, at, 0) == 0
  {
  }

  lemma CompareSnoc(s: Space, x: nat, y: nat, j: nat)
    requires x + j < |s| && y + j < |s|
    ensures (Val(s, x, j + 1) == Val(s, y, j + 1)) == (s[x + j] == s[y + j] && Val(s, x, j) == Val(s, y, j))
    ensures (Val(s, x, j + 1) < Val(s, y, j + 1)) ==
      if s[x + j] == s[y + j] then Val(s, x, j) < Val(s, y, j) else s[y + j]
  {
    hide Val, Pow2;
    ValSnoc(s, x, j);
    ValSnoc(s, y, j);
    LessSnoc(Val(s, x, j), Val(s, y, j), Pow2(j), s[x + j], s[y + j]);
  }

  /** Bit 31 is the sign. */
  lemma TopBit(s: Space, at: nat)
    requires at + 32 <= |s|
    ensures s[at + 31] == (Val(s, at, 32) >= 0x8000_0000) && Val(s, at, 32) < WORD
  {
    hide Val, Pow2;
    ValSnoc(s, at, 31);
    Pow2Word();
  }

  lemma Pow2Word()
    ensures Pow2(31) == 0x8000_0000 && Pow2(32) == WORD
  {
    SmallPowers();
    Pow2Add(6, 6);
    Pow2Add(12, 12);
    Pow2Add(24, 6);
    Pow2Add(30, 1);
    Pow2Add(30, 2);
  }

  /** The comparison sets the five flags as the unsigned and signed orders demand. */
  lemma CompareRun(c: Config, code: Code, s: Space, left: nat, right: nat) returns (t: Space)
    requires Tables(c, code, s) && Operand(c, s, left) && Operand(c, s, right)
    ensures Exec(c, code, s, CompareOps(left, right)) == Some(t)
    ensures Same(s, t, Flags()) && Tables(c, code, t)
    ensures var x, y := Val(s, left, 32), Val(s, right, 32);
      && t[CMP_EQ] == (x == y) && t[CMP_LTU] == (x < y) && t[CMP_LEU] == (x <= y)
      && t[CMP_LTS] == (Signed(x) < Signed(y)) && t[CMP_LES] == (Signed(x) <= Signed(y))
  {
    hide Exec, Val, BitsOps, AdderTable;
    TopBit(s, left);
    TopBit(s, right);
    var u := BitsRun(c, code, s, left, right, 32);
    TablesKept(c, code, s, u, Flags());
    var ops := BitsOps(left, right, 32);
    var u1 := DoGate(c, code, s, ops, u, Xor, CMP_SIGN, left + 31, right + 31);
    TablesKept(c, code, s, u1, Flags());
    ops := ops + [GateOp(Xor, CMP_SIGN, left + 31, right + 31)];
    var u2 := DoGate(c, code, s, ops, u1, Xor, CMP_LTS, CMP_SIGN, CMP_LTU);
    TablesKept(c, code, s, u2, Flags());
    ops := ops + [GateOp(Xor, CMP_LTS, CMP_SIGN, CMP_LTU)];
    var u3 := DoGate(c, code, s, ops, u2, Or, CMP_LEU, CMP_LTU, CMP_EQ);
    TablesKept(c, code, s, u3, Flags());
    t := DoGate(c, code, s, ops + [GateOp(Or, CMP_LEU, CMP_LTU, CMP_EQ)], u3, Or, CMP_LES, CMP_LTS, CMP_EQ);
    TablesKept(c, code, s, t, Flags());
  }
}
