/** The code generators of runtime/gcc/copy_link.c over a program image, and the resolution of their branches. */
module Linker {
  import opened Bits
  import opened Bytes
  import opened Machine
  import opened Layers
  import opened Programs
  import opened Emission
  import opened Items
  import opened Lookups
  import opened Rows
  import opened CopyEmit
  import opened Sheets
  import opened Arith
  import opened Compare
  import opened Multiply
  import opened Divide
  import opened Division
  import opened Report
  import opened Shifts
  import T = Texts

  const REGISTERS: nat := 512

  /** The layer that a finished program loads last lies in a stretch that is never written. */
  const ZERO_LAYER: nat := 36352
  const ZERO_BITS: nat := 23552

  /** How many labels, branches, call targets and symbols an image has tables for. */
  datatype Capacity = Capacity(labels: nat, jumps: nat, calls: nat, symbols: nat)

  function CodeBegin(n: Capacity): nat {
    BRANCH_TABLE + 64 * n.jumps + 32 * n.calls + 32 * n.symbols
  }

  /** A jump to be resolved: its layer, its label, and for a branch its table (0 if it has none) and the layer behind it. */
  datatype JumpEntry = JumpEntry(layer: nat, tag: nat, table: nat, fallthrough: nat, inverted: bool)

  function TableAt(j: nat): nat {
    BRANCH_TABLE + 64 * j
  }

  function ConstantAt(i: nat): nat {
    CONSTANT_BASE + 32 * i
  }

  function ZeroRegisters(): Space {
    seq(REGISTERS, k => false)
  }

  ghost predicate RegistersAre(s: Space, regs: Space) {
    && BRANCH_TABLE <= |s| && |regs| == REGISTERS
    && forall k {:trigger regs[k]} | 0 <= k < REGISTERS :: s[REG_BASE + k] == regs[k]
  }

  lemma RegistersKept(s: Space, t: Space, area: iset<int>, regs: Space)
    requires RegistersAre(s, regs) && Same(s, t, area) && Span(REG_BASE, REGISTERS) !! area
    ensures RegistersAre(t, regs)
  {
    forall k {:trigger regs[k]} | 0 <= k < REGISTERS ensures t[REG_BASE + k] == regs[k] {
      assert REG_BASE + k in Span(REG_BASE, REGISTERS);
    }
  }

  /** The registers, the tables and the constants that the emitted copies read. */
  ghost predicate Prepared(s: Space, regs: Space, constants: seq<nat>, adds: bool, subs: bool) {
    && BRANCH_TABLE <= |s| && |constants| <= 256 && RegistersAre(s, regs) && Blank(s, ZERO_LAYER, ZERO_BITS)
    && Blank(s, CMP_EQ, 5)
    && Val(s, AND_TABLE, 4) == 8 && Val(s, OR_TABLE, 4) == 14 && Val(s, XOR_TABLE, 4) == 6
    && Val(s, EQ_TABLE, 8) == 144 && Val(s, LT_TABLE, 8) == 212 && !s[SHIFT_ZERO]
    && (adds ==> AdderTable(s, ADD_TABLE, false)) && (subs ==> AdderTable(s, SUB_TABLE, true))
    && forall i {:trigger constants[i]} | 0 <= i < |constants| :: Word(s, ConstantAt(i)) == constants[i]
  }

  /** Labels name layers by the place they start at. */
  ghost predicate LabelsTied(c: Config, begin: nat, labels: seq<Option<nat>>, b: Builder)
    requires c.Valid()
  {
    && (forall l | l in b.labels :: b.labels[l] <= |b.done| && (l < |labels| || l == RETURN))
    && (forall l {:trigger labels[l]} | 0 <= l < |labels| ::
          labels[l] == if l in b.labels then Some(LayerAt(c, begin, b.labels[l])) else None)
  }

  ghost predicate JumpTied(c: Config, begin: nat, jump: JumpEntry, j: nat, i: nat, b: Builder)
    requires c.Valid()
  {
    && i < |b.done|
    && match b.done[i].exit
       case Branch(flag, table, tag, inverted) =>
         table == TableAt(j) && jump == JumpEntry(LayerAt(c, begin, i), tag, table, LayerAt(c, begin, i + 1), inverted)
       case Jump(tag) => jump == JumpEntry(LayerAt(c, begin, i), tag, 0, 0, false)
       case _ => false
  }

  predicate Turns(exit: Exit) {
    exit.Branch? || exit.Jump?
  }

  /** Every layer that ends with a jump has its entry in the list. */
  ghost predicate JumpsTied(c: Config, begin: nat, jumps: seq<JumpEntry>, branches: seq<nat>, b: Builder)
    requires c.Valid()
  {
    && |branches| == |jumps| == b.jumps
    && (forall j {:trigger jumps[j]} | 0 <= j < |jumps| :: JumpTied(c, begin, jumps[j], j, branches[j], b))
    && (forall i {:trigger b.done[i]} | 0 <= i < |b.done| && Turns(b.done[i].exit) :: i in branches)
  }

  /** Changes behind the tables leave tables, constants and registers alone. */
  lemma PreparedKept(s: Space, t: Space, area: iset<int>, regs: Space, constants: seq<nat>, adds: bool, subs: bool)
    requires Prepared(s, regs, constants, adds, subs) && Same(s, t, area) && area !! Span(CONSTANT_BASE, BRANCH_TABLE - CONSTANT_BASE)
    ensures Prepared(t, regs, constants, adds, subs)
  {
    SpanInside(CONSTANT_BASE, BRANCH_TABLE - CONSTANT_BASE, ZERO_LAYER, ZERO_BITS);
    BlankKept(s, t, area, ZERO_LAYER, ZERO_BITS);
    SpanInside(CONSTANT_BASE, BRANCH_TABLE - CONSTANT_BASE, CMP_EQ, 5);
    BlankKept(s, t, area, CMP_EQ, 5);
    hide Blank;
    hide Val;
    forall at: nat, w: nat | CONSTANT_BASE <= at && at + w <= BRANCH_TABLE ensures Val(t, at, w) == Val(s, at, w) {
      SameVal(s, t, area, at, w);
    }
    assert SHIFT_ZERO in Span(CONSTANT_BASE, BRANCH_TABLE - CONSTANT_BASE);
    SpanInside(CONSTANT_BASE, BRANCH_TABLE - CONSTANT_BASE, REG_BASE, REGISTERS);
    RegistersKept(s, t, area, regs);
    SpanInside(CONSTANT_BASE, BRANCH_TABLE - CONSTANT_BASE, ADD_TABLE, 16);
    SpanInside(CONSTANT_BASE, BRANCH_TABLE - CONSTANT_BASE, SUB_TABLE, 16);
    if adds { AdderTableKept(s, t, area, ADD_TABLE, false); }
    if subs { AdderTableKept(s, t, area, SUB_TABLE, true); }
  }

  ghost predicate Grown(begin: nat, limit: nat, layers: seq<seq<Row>>, s: Space, layers': seq<seq<Row>>, t: Space) {
    begin <= limit && Earlier(layers, layers') && Same(s, t, Span(begin, limit - begin))
  }

  lemma GrownThen(begin: nat, limit: nat, a: seq<seq<Row>>, s: Space, b: seq<seq<Row>>, t: Space, d: seq<seq<Row>>, u: Space)
    requires Grown(begin, limit, a, s, b, t) && Grown(begin, limit, b, t, d, u)
    ensures Grown(begin, limit, a, s, d, u)
  {
    EarlierThen(a, b, d);
    hide Earlier;
    SameThen(s, t, u, Span(begin, limit - begin), Span(begin, limit - begin), Span(begin, limit - begin));
  }

  class Linker {
    const program: Program
    const capacity: Capacity
    var constants: seq<nat>
    var labels: seq<Option<nat>>
    var jumps: seq<JumpEntry>
    ghost var regs: Space
    ghost var built: Builder
    ghost var branches: seq<nat>
    ghost var adds: bool
    ghost var subs: bool

    function C(): Config {
      program.C()
    }

    ghost function Bits(): Space
      reads program.data
    {
      program.Bits()
    }

    /** The image holds what has been built, and the first rows of one more operation. */
    ghost predicate Open(extra: seq<Row>)
      reads this, program, program.data
    {
      && program.Valid() && program.codeBegin == CodeBegin(capacity)
      && |labels| <= capacity.labels <= RETURN && |jumps| <= capacity.jumps
      && Prepared(Bits(), regs, constants, adds, subs)
      && LabelsTied(C(), program.codeBegin, labels, built)
      && JumpsTied(C(), program.codeBegin, jumps, branches, built)
      && Partly(C(), program.codeBegin, program.Now(), built, extra)
    }

    ghost predicate Valid()
      reads this, program, program.data
    {
      Open([])
    }

    /** Room for so many more layers, labels and branches. */
    ghost predicate Enough(room: nat, names: nat, turns: nat)
      reads this, program
    {
      && program.Spare() >= room
      && |labels| + names <= capacity.labels && |jumps| + turns <= capacity.jumps
    }

    lemma ConfigValid()
      requires Valid()
      ensures C().Valid() && program.Valid() && program.codeBegin == CodeBegin(capacity)
      ensures |labels| <= capacity.labels <= RETURN && |jumps| <= capacity.jumps
    {
    }

    lemma Ties()
      requires Valid()
      ensures LabelsTied(C(), program.codeBegin, labels, built) && JumpsTied(C(), program.codeBegin, jumps, branches, built)
      ensures Laid(C(), program.codeBegin, program.Now(), built)
    {
      hide LabelsTied, JumpsTied, Partly, Prepared;
    }

    /** Puts the lookup tables in front of the code of an empty program. */
    constructor (program: Program, capacity: Capacity)
      requires program.Valid() && program.codeBegin == CodeBegin(capacity)
      requires program.Now() == Sheet([EmptyLayer()], FIRST)
      requires Blank(program.Bits(), 0, BRANCH_TABLE) && capacity.labels <= RETURN
      modifies program.data
      ensures this.program == program && this.capacity == capacity
      ensures Valid() && built == Builder([], [], 0, map[])
      ensures constants == [] && labels == [] && jumps == [] && !adds && !subs
      ensures regs == ZeroRegisters()
    {
      this.program := program;
      this.capacity := capacity;
      constants, labels, jumps, branches := [], [], [], [];
      built := Builder([], [], 0, map[]);
      adds, subs := false, false;
      regs := ZeroRegisters();
      new;
      hide Written;
      FirstLayer(C(), program.codeBegin);
      PutTables();
    }

    /** Writes the truth tables. */
    method PutTables()
      requires program.Valid() && program.codeBegin == CodeBegin(capacity)
      requires Blank(Bits(), 0, BRANCH_TABLE)
      modifies program.data
      ensures program.Valid() && Prepared(Bits(), ZeroRegisters(), [], false, false)
    {
      hide Written, Val;
      ghost var s0 := Bits();
      BeginFits(C(), program.codeBegin, |program.layers|);
      var ok := program.Constant(EQ_TABLE, 8, 144);
      ghost var s1 := Bits();
      ok := program.Constant(LT_TABLE, 8, 212);
      ghost var s2 := Bits();
      ok := program.Constant(XOR_TABLE, 4, 6);
      ghost var s3 := Bits();
      ok := program.Constant(AND_TABLE, 4, 8);
      ghost var s4 := Bits();
      ok := program.Constant(OR_TABLE, 4, 14);
      TablesPut(s0, s1, s2, s3, s4, Bits());
    }

    /** One more row of the operation being emitted. */
    method EmitRow(row: Row, ghost extra: seq<Row>) returns (ok: bool)
      requires Open(extra) && program.slot < LINK
      modifies program`codeEnd, program`layer, program`slot, program`layers, program.data
      ensures ok ==> Open(extra + [row])
      ensures ok ==> program.slot == old(program.slot) + 1
      ensures RowValid(C(), row) ==> ok
      ensures ok ==> program.Spare() == old(program.Spare()) && Since(old(program.layers), old(Bits()))
    {
      hide Prepared, LabelsTied, JumpsTied, Partly, Written, Same, Span, Earlier;
      PartlyEmit(C(), program.codeBegin, program.Now(), built, extra, row);
      EmitEarlier(C(), program.codeBegin, program.Now(), row);
      ghost var s := Bits();
      ok := program.Emit(row);
      if ok {
        CodeFree(capacity, program.codeLimit - program.codeBegin);
        PreparedKept(s, Bits(), Span(program.codeBegin, program.codeLimit - program.codeBegin), regs, constants, adds, subs);
      }
    }

    /** The tables in front of the code lie in the image. */
    lemma TablesFit()
      requires Valid()
      ensures BRANCH_TABLE <= CodeBegin(capacity) <= Pow2(C().ab) && C().LayerBits() < Pow2(C().ab - 1)
    {
      hide Written;
      LayerInside(C(), program.codeBegin, 0, |program.layers|);
    }

    /** The rows of an operation: the patches first, aimed at the row behind them. */
    method EmitOp(op: Op) returns (ok: bool)
      requires Valid() && program.slot + |op.patches| + 1 <= LINK
      modifies this`built, program`codeEnd, program`layer, program`slot, program`layers, program.data
      ensures ok ==> Valid()
      ensures ok ==> built == old(built).(cur := old(built).cur + [op])
      ensures ok ==> program.slot == old(program.slot) + |op.patches| + 1
      ensures LowOp(op) ==> ok
      ensures ok ==> program.Spare() == old(program.Spare()) && Since(old(program.layers), old(Bits()))
    {
      hide Open, OpRows, RowValid, LowOp, Pow2, Earlier;
      ConfigValid();
      TablesFit();
      var slot := program.slot + |op.patches|;
      ok := EmitPatches(op, slot);
      if !ok { return; }
      ghost var patched, was := program.layers, Bits();
      OpRowLast(C(), op, slot);
      LowRow(C(), op);
      ok := EmitRow(Row(op.n, op.dst, op.src), OpRows(C(), op, slot - |op.patches|)[..|op.patches|]);
      if ok {
        GrownThen(program.codeBegin, program.codeLimit, old(program.layers), old(Bits()), patched, was, program.layers, Bits());
        CloseOp(op, slot - |op.patches|);
      }
    }

    method EmitPatches(op: Op, slot: nat) returns (ok: bool)
      requires Valid() && slot == program.slot + |op.patches| && slot < LINK
      modifies program`codeEnd, program`layer, program`slot, program`layers, program.data
      ensures ok ==> Open(OpRows(C(), op, slot - |op.patches|)[..|op.patches|])
      ensures ok ==> program.slot == slot
      ensures LowOp(op) ==> ok
      ensures ok ==> program.Spare() == old(program.Spare()) && Since(old(program.layers), old(Bits()))
    {
      hide Open, OpRows, PatchEntry, RowValid, LowOp, Pow2, Earlier;
      ConfigValid();
      TablesFit();
      LayersEarlier();
      ok := true;
      var i := 0;
      while i < |op.patches|
        invariant 0 <= i <= |op.patches| && ok
        invariant Open(OpRows(C(), op, slot - |op.patches|)[..i])
        invariant program.slot == slot - |op.patches| + i && program.Spare() == old(program.Spare())
        invariant Since(old(program.layers), old(Bits()))
      {
        ghost var before, was := program.layers, Bits();
        OpRowAt(C(), op, slot, i);
        LowPatch(C(), op, slot, i);
        ok := EmitRow(PatchEntry(C(), op.patches[i], slot), OpRows(C(), op, slot - |op.patches|)[..i]);
        if !ok {
          return;
        }
        GrownThen(program.codeBegin, program.codeLimit, old(program.layers), old(Bits()), before, was, program.layers, Bits());
        i := i + 1;
      }
    }

    lemma LayersEarlier()
      requires Valid()
      ensures Since(program.layers, Bits())
    {
      hide Written, Prepared, LabelsTied, JumpsTied, Partly;
      LayerInside(C(), program.codeBegin, 0, |program.layers|);
    }

    /** From then on rows have been added, to the last layer and to new ones behind it. */
    ghost predicate Since(layers: seq<seq<Row>>, bits: Space)
      reads program, program.data
    {
      Grown(program.codeBegin, program.codeLimit, layers, bits, program.layers, Bits())
    }

    /** The rows of an operation are all there. */
    ghost method CloseOp(op: Op, slot: nat)
      requires C().Valid() && Open(OpRows(C(), op, slot)) && program.slot == slot + |op.patches| + 1
      modifies this`built
      ensures Valid() && built == old(built).(cur := old(built).cur + [op])
    {
      hide Prepared, LabelsTied, JumpsTied, Partly, Written, OpRows;
      OpDone(C(), program.codeBegin, program.Now(), built, op, slot, OpRows(C(), op, slot));
      built := built.(cur := built.cur + [op]);
      CurGrows(C(), program.codeBegin, labels, jumps, branches, old(built), built);
    }

    /** Room for rows in the open layer, or a new one. */
    method Room(count: nat) returns (ok: bool)
      requires Valid()
      modifies this`built, program`codeEnd, program`layer, program`slot, program`layers, program.data
      ensures ok ==> Valid()
      ensures ok ==> built == Emission.Room(C(), old(built), count) && program.slot + count <= LINK
      ensures count <= 252 && old(program.Spare()) >= 1 ==> ok
      ensures ok ==> program.Spare() >= old(program.Spare()) - 1 && Since(old(program.layers), old(Bits()))
    {
      hide Prepared, LabelsTied, JumpsTied, Partly, Written, Same, Span, Earlier;
      EmitEarlier(C(), program.codeBegin, program.Now(), NOP);
      SlotIs(C(), program.codeBegin, program.Now(), built);
      ghost var s := Bits();
      ok := program.Room(count);
      if ok {
        CodeFree(capacity, program.codeLimit - program.codeBegin);
        PreparedKept(s, Bits(), Span(program.codeBegin, program.codeLimit - program.codeBegin), regs, constants, adds, subs);
        if SlotOfBuilder(C(), built) + count > LINK {
          ClosedNext(C(), program.codeBegin, old(program.Now()), program.Now(), labels, jumps, branches, built);
          built := Close(built, Next);
        }
        SlotIs(C(), program.codeBegin, program.Now(), built);
      }
    }

    /** Operations that must share a layer. */
    method Chunk(ops: seq<Op>) returns (ok: bool)
      requires Valid()
      modifies this`built, program`codeEnd, program`layer, program`slot, program`layers, program.data
      ensures ok ==> Valid()
      ensures ok ==> built == EmitChunk(C(), old(built), ops)
      ensures AllLow(ops) && RowCount(ops) <= 252 && old(program.Spare()) >= 1 ==> ok
      ensures ok ==> program.Spare() >= old(program.Spare()) - 1 && Since(old(program.layers), old(Bits()))
    {
      hide Open, OpsRows, SlotOfBuilder, LowOp, RowCount, Earlier;
      ConfigValid();
      RowCountNone();
      ok := Room(RowCount(ops));
      if !ok {
        return;
      }
      ghost var spare := program.Spare();
      ghost var roomy := built;
      var slot := program.slot;
      var i := 0;
      while i < |ops|
        invariant 0 <= i <= |ops|
        invariant Valid()
        invariant built == roomy.(cur := roomy.cur + ops[..i])
        invariant program.slot == slot + RowCount(ops[..i]) && slot + RowCount(ops) <= LINK && program.Spare() == spare
        invariant Since(old(program.layers), old(Bits()))
      {
        ghost var before, was := program.layers, Bits();
        RowCountPrefix(ops, i);
        ok := EmitOp(ops[i]);
        if !ok {
          return;
        }
        GrownThen(program.codeBegin, program.codeLimit, old(program.layers), old(Bits()), before, was, program.layers, Bits());
        MoreOps(roomy.cur, ops, i);
        i := i + 1;
      }
      assert ops[..i] == ops;
    }

    /** Operations one by one: each may start a new layer. */
    method Run(ops: seq<Op>) returns (ok: bool)
      requires Valid()
      modifies this`built, program`codeEnd, program`layer, program`slot, program`layers, program.data
      ensures ok ==> Valid()
      ensures ok ==> built == EmitChunks(C(), old(built), Singles(ops))
      ensures AllLow(ops) && old(program.Spare()) >= |ops| ==> ok
      ensures ok ==> program.Spare() >= old(program.Spare()) - |ops| && Since(old(program.layers), old(Bits()))
    {
      hide Open, EmitChunk, EmitChunks, Singles, AllLow, LowOp, RowCount, Earlier;
      ConfigValid();
      LayersEarlier();
      ghost var b := built;
      EmitNone(C(), b);
      var i := 0;
      while i < |ops|
        invariant 0 <= i <= |ops|
        invariant Valid() && built == EmitChunks(C(), b, Singles(ops[..i]))
        invariant program.Spare() >= old(program.Spare()) - i && Since(old(program.layers), old(Bits()))
      {
        ghost var before, was := program.layers, Bits();
        OneLow(ops, i);
        EmitSingle(C(), b, ops, i);
        ok := Chunk([ops[i]]);
        if !ok {
          return;
        }
        GrownThen(program.codeBegin, program.codeLimit, old(program.layers), old(Bits()), before, was, program.layers, Bits());
        i := i + 1;
      }
      ok := true;
      assert ops[..i] == ops;
    }

    /** A table lookup: one bit of the table, chosen by two or three bits of the data. */
    method Lookup(dst: nat, table: nat, inputs: seq<nat>, ghost b: Builder, ghost before: seq<Op>) returns (ok: bool)
      requires Valid() && built == EmitChunks(C(), b, Singles(before))
      modifies this`built, program`codeEnd, program`layer, program`slot, program`layers, program.data
      ensures ok ==> Valid()
      ensures ok ==> built == EmitChunks(C(), b, Singles(before + [Lookups.Lookup(1, dst, table, 0, inputs)]))
      ensures LowOp(Lookups.Lookup(1, dst, table, 0, inputs)) && old(program.Spare()) >= 1 ==> ok
      ensures ok ==> program.Spare() >= old(program.Spare()) - 1
    {
      hide Open, EmitChunk, EmitChunks, Singles, LowOp, RowCount;
      ConfigValid();
      var op := Lookups.Lookup(1, dst, table, 0, inputs);
      EmitSingle(C(), b, before + [op], |before|);
      assert (before + [op])[..|before|] == before && (before + [op])[..|before| + 1] == before + [op];
      LowLookup(op);
      ok := Chunk([op]);
    }

    /** The comparison: equality and borrow bit by bit, then the signed and the weak orders. */
    method Compare32(left: nat, right: nat) returns (ok: bool)
      requires Valid()
      modifies this`built, program`codeEnd, program`layer, program`slot, program`layers, program.data
      ensures ok ==> Valid()
      ensures ok ==> built == EmitChunks(C(), old(built), Singles(CompareOps(left, right)))
      ensures LowWord(left) && LowWord(right) && old(program.Spare()) >= 70 ==> ok
      ensures ok ==> program.Spare() >= old(program.Spare()) - 70
    {
      hide Open, EmitChunks, Singles, BitsOps, CompareOps;
      ConfigValid();
      ghost var b := built;
      ok := CompareStart(left, right);
      if !ok {
        return;
      }
      var bit := 0;
      while bit < 32
        invariant 0 <= bit <= 32
        invariant Valid()
        invariant built == EmitChunks(C(), b, Singles(BitsOps(left, right, bit)))
        invariant program.Spare() >= old(program.Spare()) - 2 - 2 * bit
      {
        ok := CompareBit(b, left, right, bit);
        if !ok {
          return;
        }
        bit := bit + 1;
      }
      ok := FourGates(b, left, right);
    }

    method CompareStart(left: nat, right: nat) returns (ok: bool)
      requires Valid()
      modifies this`built, program`codeEnd, program`layer, program`slot, program`layers, program.data
      ensures ok ==> Valid()
      ensures ok ==> built == EmitChunks(C(), old(built), Singles(BitsOps(left, right, 0)))
      ensures old(program.Spare()) >= 2 ==> ok
      ensures ok ==> program.Spare() >= old(program.Spare()) - 2
    {
      hide Open, EmitChunks, Singles, BitsOps;
      ConfigValid();
      BitsOpsSnoc(left, right, 0);
      ok := Run([Plain(1, CMP_EQ, EQ_TABLE + 7), Plain(1, CMP_LTU, EQ_TABLE)]);
      assert BitsOps(left, right, 0) == [Plain(1, CMP_EQ, EQ_TABLE + 7), Plain(1, CMP_LTU, EQ_TABLE)];
    }

    method CompareBit(ghost b: Builder, left: nat, right: nat, bit: nat) returns (ok: bool)
      requires Valid() && bit < 32 && built == EmitChunks(C(), b, Singles(BitsOps(left, right, bit)))
      modifies this`built, program`codeEnd, program`layer, program`slot, program`layers, program.data
      ensures ok ==> Valid()
      ensures ok ==> built == EmitChunks(C(), b, Singles(BitsOps(left, right, bit + 1)))
      ensures LowWord(left) && LowWord(right) && old(program.Spare()) >= 2 ==> ok
      ensures ok ==> program.Spare() >= old(program.Spare()) - 2
    {
      hide Open, EmitChunks, Singles, BitsOps, LowOp;
      ConfigValid();
      BitsOpsSnoc(left, right, bit);
      LowCompare(left, right, bit);
      ghost var ops := BitsOps(left, right, bit);
      ok := Lookup(CMP_LTU, LT_TABLE, [left + bit, right + bit, CMP_LTU], b, ops);
      if !ok {
        return;
      }
      ok := Lookup(CMP_EQ, EQ_TABLE, [left + bit, right + bit, CMP_EQ], b, ops + [LessOp(CMP_LTU, left + bit, right + bit)]);
    }

    /** The lookups behind the bit loop of a comparison. */
    method FourGates(ghost b: Builder, left: nat, right: nat) returns (ok: bool)
      requires Valid() && built == EmitChunks(C(), b, Singles(BitsOps(left, right, 32)))
      modifies this`built, program`codeEnd, program`layer, program`slot, program`layers, program.data
      ensures ok ==> Valid()
      ensures ok ==> built == EmitChunks(C(), b, Singles(CompareOps(left, right)))
      ensures LowWord(left) && LowWord(right) && old(program.Spare()) >= 4 ==> ok
      ensures ok ==> program.Spare() >= old(program.Spare()) - 4
    {
      hide Open, EmitChunks, Singles, BitsOps, CompareOps, LastGates, AllLow;
      ConfigValid();
      LowLast(left, right);
      CompareSplit(left, right);
      EmitTwice(C(), b, BitsOps(left, right, 32), LastGates(left, right));
      ok := Run(LastGates(left, right));
    }

    /** The adder's truth table, and its carry cleared. */
    method PutAdder(subtract: bool)
      requires Valid()
      modifies program.data, this`adds, this`subs
      ensures Valid()
      ensures adds == (old(adds) || !subtract) && subs == (old(subs) || subtract)
    {
      hide Prepared, LabelsTied, JumpsTied, Partly, Written, Same, Span, EntryHolds, AdderEntry, Entries, Pow2, Val;
      var table := if subtract then SUB_TABLE else ADD_TABLE;
      ghost var s0 := Bits();
      BeginFits(C(), program.codeBegin, |program.layers|);
      SameSelf(s0, Span(table, 16));
      NoEntries(s0, table, subtract, program.codeBegin);
      PreparedRange(s0, regs, constants, adds, subs);
      var i := 0;
      while i < 8
        invariant 0 <= i <= 8 && program.Valid() && program.Now() == old(program.Now())
        invariant adds == old(adds) && subs == old(subs)
        invariant Same(s0, Bits(), Span(table, 16))
        invariant Entries(Bits(), table, subtract, i)
      {
        PutEntry(s0, table, subtract, i);
        i := i + 1;
      }
      ghost var s2 := Bits();
      var ok := program.Constant(CARRY, 1, 0);
      AdderPut(s0, s2, Bits(), regs, constants, adds, subs, subtract);
      if subtract {
        subs := true;
      } else {
        adds := true;
      }
    }

    method PutEntry(ghost s0: Space, table: nat, subtract: bool, i: nat)
      requires program.Valid() && table + 16 <= program.codeBegin && i < 8 && Same(s0, Bits(), Span(table, 16))
      requires Entries(Bits(), table, subtract, i)
      modifies program.data
      ensures program.Valid() && Same(s0, Bits(), Span(table, 16)) && Entries(Bits(), table, subtract, i + 1)
    {
      assert C().Valid();
      hide Written, Same, Span, EntryHolds;
      SameSize(s0, Bits(), Span(table, 16));
      BeginFits(C(), program.codeBegin, |program.layers|);
      ghost var s1 := Bits();
      var a, b, k := i % 2, i / 2 % 2, i / 4;
      hide AdderEntry;
      var ok := program.Constant(table + 2 * i, 2, AdderEntry(subtract, a, b, k));
      SameSize(s1, Bits(), Span(table + 2 * i, 2));
      EntryPut(s0, s1, Bits(), table, subtract, i);
    }

    /** An addition or subtraction: 193 rows that must share a layer. */
    method Arithmetic32(subtract: bool, dst: nat, left: nat, right: nat) returns (ok: bool)
      requires Valid()
      modifies this`built, this`adds, this`subs, program`codeEnd, program`layer, program`slot, program`layers, program.data
      ensures ok ==> Valid()
      ensures ok ==> adds == (old(adds) || !subtract) && subs == (old(subs) || subtract)
      ensures ok ==> built == EmitChunk(C(), old(built), AdderOps(WordAdder(subtract, dst, left, right), 32))
      ensures AdderReady(dst, left, right) && old(program.Spare()) >= 1 ==> ok
      ensures ok ==> program.Spare() >= old(program.Spare()) - 1
    {
      hide Open, EmitChunk, AdderOps, AdderReady, AddAccepts, AllLow, RowCount;
      ConfigValid();
      var a := WordAdder(subtract, dst, left, right);
      ReadyAccepted(subtract, dst, left, right);
      LowAdder(a);
      ReadyLow(dst, left, right);
      if !Accepted(a) {
        return false;
      }
      PutAdder(subtract);
      ok := Chunk(AdderOps(a, 32));
    }

    /** add_valid, and the test that no operand lies in the code. */
    predicate Accepted(a: Adder)
      reads program
    {
      && C().Valid()
      && AddAccepts(C(), program.layer, program.codeBegin, program.codeLimit, 8 * program.data.Length, a)
    }

    lemma ReadyAccepted(subtract: bool, dst: nat, left: nat, right: nat)
      requires Valid()
      ensures AdderReady(dst, left, right) ==> Accepted(WordAdder(subtract, dst, left, right))
    {
      hide Prepared, LabelsTied, JumpsTied, Partly, Written, Pow2;
      TablesFit();
      LayerInside(C(), program.codeBegin, |program.layers| - 1, |program.layers|);
      if AdderReady(dst, left, right) {
        AcceptReady(C(), program.layer, program.codeBegin, program.codeLimit, 8 * program.data.Length, subtract, dst, left, right);
      }
    }

    /** The address of a constant word, shared by all its users. */
    method GetConstant(value: nat) returns (ok: bool, at: nat)
      requires Valid() && value < WORD
      modifies this`constants, program.data
      ensures Valid()
      ensures constants == if ok && value !in old(constants) then old(constants) + [value] else old(constants)
      ensures ok ==> HasConstant(constants, at, value)
      ensures |old(constants)| < 256 ==> ok
      ensures |constants| <= |old(constants)| + 1
    {
      hide Open;
      var i := 0;
      while i < |constants| && constants[i] != value
        invariant 0 <= i <= |constants| && value !in constants[..i]
      {
        i := i + 1;
      }
      at := ConstantAt(i);
      if i < |constants| {
        return true, at;
      }
      if i >= 256 {
        return false, at;
      }
      AddConstant(value);
      assert constants[i] == value;
      return true, at;
    }

    /** A constant word behind the others. */
    method AddConstant(value: nat)
      requires Valid() && value < WORD && |constants| < 256
      modifies this`constants, program.data
      ensures Valid() && constants == old(constants) + [value]
    {
      hide LabelsTied, JumpsTied, Partly, Written, Val, Same, Span, Prepared, Pow2;
      ghost var s := Bits();
      BeginFits(C(), program.codeBegin, |program.layers|);
      PreparedRange(s, regs, constants, adds, subs);
      var ok := program.Constant(ConstantAt(|constants|), 32, value);
      ConstantPut(s, Bits(), regs, constants, adds, subs, value);
      constants := constants + [value];
    }

    /** Sets the first value of a register. */
    method SetRegister(at: nat, value: nat) returns (ok: bool)
      requires Valid() && Register(at) && value < WORD
      modifies this`regs, program.data
      ensures ok ==> Valid() && RegisterSet(old(regs), regs, at, value)
      ensures ok
    {
      hide LabelsTied, JumpsTied, Partly, Written, Val, Same, Prepared, RegisterSet, Register, Pow2;
      RegisterLow(at);
      ghost var s := Bits();
      BeginFits(C(), program.codeBegin, |program.layers|);
      PreparedRange(s, regs, constants, adds, subs);
      ok := program.Constant(at, 32, value);
      if ok {
        regs := RegisterPut(s, Bits(), regs, constants, adds, subs, at, value);
      }
    }

    /** A label to be bound later. */
    method InternalLabel() returns (ok: bool, tag: nat)
      requires Valid()
      modifies this`labels
      ensures Valid() && tag == |old(labels)| && ok == (|old(labels)| < capacity.labels)
      ensures labels == if ok then old(labels) + [None] else old(labels)
    {
      hide JumpsTied, Partly, Prepared;
      tag := |labels|;
      if |labels| == capacity.labels {
        return false, tag;
      }
      labels := labels + [None];
      return true, tag;
    }

    /** Starts a new layer. */
    method Cut() returns (ok: bool)
      requires Valid()
      modifies this`built, program`codeEnd, program`layer, program`slot, program`layers, program.data
      ensures ok ==> Valid() && built == Close(old(built), Next) && program.slot == FIRST
      ensures ok ==> program.layer == LayerAt(C(), program.codeBegin, |built.done|) && Since(old(program.layers), old(Bits()))
      ensures ok <==> old(program.Spare()) >= 1
      ensures ok ==> program.Spare() == old(program.Spare()) - 1
    {
      hide Prepared, LabelsTied, JumpsTied, Partly, Written, Same, Span, Earlier;
      SlotIs(C(), program.codeBegin, program.Now(), built);
      EmitEarlier(C(), program.codeBegin, program.Now(), NOP);
      ghost var s := Bits();
      ok := program.Next();
      if ok {
        CodeFree(capacity, program.codeLimit - program.codeBegin);
        PreparedKept(s, Bits(), Span(program.codeBegin, program.codeLimit - program.codeBegin), regs, constants, adds, subs);
        ClosedNext(C(), program.codeBegin, old(program.Now()), program.Now(), labels, jumps, branches, built);
        built := Close(built, Next);
        PartlyLayers(C(), program.codeBegin, program.Now(), built, []);
      }
    }

    /** Binds a label to a new layer. */
    method BindInternal(tag: nat) returns (ok: bool)
      requires Valid() && tag < |labels|
      modifies this`built, this`labels, program`codeEnd, program`layer, program`slot, program`layers, program.data
      ensures ok ==> Valid()
      ensures ok ==> built == EmitItem(C(), old(built), Bind(tag)) && |labels| == |old(labels)|
      ensures old(program.Spare()) >= 1 ==> ok
      ensures ok ==> program.Spare() >= old(program.Spare()) - 1
    {
      hide Prepared, JumpsTied, Partly, Written, LabelsTied;
      ConfigValid();
      ok := Cut();
      if ok {
        LabelBound(C(), program.codeBegin, program.Now(), program.layer, labels, jumps, branches, built, tag);
        labels := labels[tag := Some(program.layer)];
        built := EmitItem(C(), old(built), Bind(tag));
      }
    }

    /** Binds a label of the text to the open layer if it is empty, to a new one otherwise. */
    method MarkLabel(tag: nat) returns (ok: bool)
      requires Valid() && tag < |labels|
      modifies this`built, this`labels, program`codeEnd, program`layer, program`slot, program`layers, program.data
      ensures ok ==> Valid()
      ensures ok ==> built == EmitItem(C(), old(built), Mark(tag)) && |labels| == |old(labels)|
      ensures old(program.Spare()) >= 1 ==> ok
      ensures ok ==> program.Spare() >= old(program.Spare()) - 1
    {
      hide Prepared, JumpsTied, Partly, Written, LabelsTied, OpsRows;
      ConfigValid();
      SlotIs(C(), program.codeBegin, program.Now(), built);
      CurEmpty(C(), built);
      ok := true;
      if program.slot != FIRST {
        ok := Cut();
        if !ok { return; }
      }
      PartlyLayers(C(), program.codeBegin, program.Now(), built, []);
      LabelBound(C(), program.codeBegin, program.Now(), program.layer, labels, jumps, branches, built, tag);
      labels := labels[tag := Some(program.layer)];
      built := EmitItem(C(), old(built), Mark(tag));
    }

    /** A bitwise operation: 96 rows that must share a layer. Its table gets the bits that it has already. */
    method Bitwise32(g: Gate, dst: nat, left: nat, right: nat) returns (ok: bool)
      requires Valid()
      modifies this`built, program`codeEnd, program`layer, program`slot, program`layers, program.data
      ensures ok ==> Valid() && built == EmitChunk(C(), old(built), T.BitwiseOps(g, dst, left, right, 32))
      ensures LowWord(dst) && LowWord(left) && LowWord(right) && old(program.Spare()) >= 1 ==> ok
      ensures ok ==> program.Spare() >= old(program.Spare()) - 1
    {
      hide Open, EmitChunk, T.BitwiseOps, AllLow, RowCount;
      ConfigValid();
      PutTruth(g);
      LowBitwise(g, dst, left, right, 32);
      ok := Chunk(T.BitwiseOps(g, dst, left, right, 32));
    }

    method PutTruth(g: Gate)
      requires Valid()
      modifies program.data
      ensures Valid()
    {
      hide Prepared, LabelsTied, JumpsTied, Partly, Written, Same, Span, Pow2, Val;
      ghost var s := Bits();
      BeginFits(C(), program.codeBegin, |program.layers|);
      PreparedRange(s, regs, constants, adds, subs);
      var ok := program.Constant(g.Table(), 4, Truth(g));
      TruthPut(s, Bits(), regs, constants, adds, subs, g);
    }

    /** Binds the label of the report to a new layer. */
    method BindReport() returns (ok: bool, report: nat)
      requires Valid()
      modifies this`built, program`codeEnd, program`layer, program`slot, program`layers, program.data
      ensures ok ==> Valid() && built == EmitItem(C(), old(built), Bind(RETURN)) && ReportTied(C(), program.codeBegin, report, built)
      ensures ok <==> old(program.Spare()) >= 1
      ensures ok ==> program.Spare() == old(program.Spare()) - 1
    {
      hide Prepared, JumpsTied, Partly, Written, LabelsTied;
      ConfigValid();
      ok := Cut();
      report := program.layer;
      if ok {
        ReportBound(C(), program.codeBegin, program.Now(), labels, jumps, branches, built);
        built := EmitItem(C(), old(built), Bind(RETURN));
      }
    }

    /** An unconditional jump: a new layer, and the entry to be resolved later. */
    method Jump(tag: nat) returns (ok: bool)
      requires Valid()
      modifies this`built, this`jumps, this`branches, program`codeEnd, program`layer, program`slot, program`layers, program.data
      ensures ok ==> Valid() && built == EmitItem(C(), old(built), Leap(tag)) && |jumps| == |old(jumps)| + 1
      ensures ok <==> |old(jumps)| < capacity.jumps && old(program.Spare()) >= 1
      ensures ok ==> program.Spare() == old(program.Spare()) - 1
    {
      hide Prepared, LabelsTied, JumpsTied, Partly, Written, Same, Span;
      if |jumps| == capacity.jumps {
        return false;
      }
      SlotIs(C(), program.codeBegin, program.Now(), built);
      PartlyLayers(C(), program.codeBegin, program.Now(), built, []);
      ghost var s, before := Bits(), program.Now();
      var layer := program.layer;
      ok := program.Next();
      if ok {
        CodeFree(capacity, program.codeLimit - program.codeBegin);
        PreparedKept(s, Bits(), Span(program.codeBegin, program.codeLimit - program.codeBegin), regs, constants, adds, subs);
        jumps := jumps + [JumpEntry(layer, tag, 0, 0, false)];
        branches := branches + [|built.done|];
        JumpClosed(C(), program.codeBegin, before, program.Now(), labels, jumps, branches, built, Exit.Jump(tag), layer, program.layer);
        built := EmitItem(C(), built, Leap(tag));
      }
    }

    /** The rows that select one of two table entries into the link of the layer. */
    method EmitBranch(ghost exit: Exit, flag: nat, table: nat) returns (ok: bool)
      requires Valid() && program.slot + 2 <= LINK && exit.Branch? && exit.flag == flag && exit.table == table
      modifies program`codeEnd, program`layer, program`slot, program`layers, program.data
      ensures ok ==> Open(OpRows(C(), BranchOp(C(), exit), old(program.slot)))
      ensures ok ==> program.slot == old(program.slot) + 2
      ensures flag < BRANCH_TABLE && table + 64 <= program.codeBegin ==> ok
      ensures ok ==> program.Spare() == old(program.Spare())
    {
      hide Open, OpRows, RowValid, Pow2, FlagRow, TableRow;
      ConfigValid();
      TablesFit();
      BranchFits(C(), program.codeBegin, program.slot, flag, table);
      BranchRows(C(), exit, program.slot);
      var first := FlagRow(C(), program.slot, flag);
      ok := EmitRow(first, []);
      if ok {
        ok := EmitRow(TableRow(C(), table), [first]);
      }
    }

    /** A branch: the selection, a new layer behind it, and the entry to be resolved later. */
    method ConditionalJump(tag: nat, flag: nat, inverted: bool) returns (ok: bool)
      requires Valid() && tag < |labels|
      modifies this`built, this`jumps, this`branches, program`codeEnd, program`layer, program`slot, program`layers, program.data
      ensures ok ==> Valid()
      ensures ok ==> built == EmitItem(C(), old(built), Goto(tag, flag, inverted))
      ensures flag < BRANCH_TABLE && |old(jumps)| < capacity.jumps && old(program.Spare()) >= 2 ==> ok
      ensures ok ==> program.Spare() >= old(program.Spare()) - 2 && |jumps| == |old(jumps)| + 1
    {
      hide Open, OpRows, EmitItem;
      ConfigValid();
      TurnIs(C(), built, tag, flag, inverted);
      if |jumps| >= capacity.jumps {
        return false;
      }
      ok := Room(2);
      if !ok {
        return;
      }
      ok := EmitGoto(tag, flag, inverted);
    }

    method EmitGoto(tag: nat, flag: nat, inverted: bool) returns (ok: bool)
      requires Valid() && tag < |labels| && |jumps| < capacity.jumps && program.slot + 2 <= LINK
      modifies this`built, this`jumps, this`branches, program`codeEnd, program`layer, program`slot, program`layers, program.data
      ensures ok ==> Valid()
      ensures ok ==> built == Close(old(built), Branch(flag, BRANCH_TABLE + 64 * old(built).jumps, tag, inverted)).(
        jumps := old(built).jumps + 1)
      ensures flag < BRANCH_TABLE && old(program.Spare()) >= 1 ==> ok
      ensures ok ==> program.Spare() >= old(program.Spare()) - 1 && |jumps| == |old(jumps)| + 1
    {
      assert C().Valid();
      hide Prepared, LabelsTied, JumpsTied, Partly, Written, Same, Span, OpRows, OpsRows;
      TableFits(capacity, |jumps|, capacity.jumps);
      JumpCount(C(), program.codeBegin, jumps, branches, built);
      SlotIs(C(), program.codeBegin, program.Now(), built);
      ghost var exit := Branch(flag, TableAt(|jumps|), tag, inverted);
      ok := EmitBranch(exit, flag, TableAt(|jumps|));
      if ok {
        ok := Record(exit, tag, inverted);
      }
    }

    /** Closes the layer of a branch and remembers the branch. */
    method Record(ghost exit: Exit, tag: nat, inverted: bool) returns (ok: bool)
      requires C().Valid() && exit.Branch? && Open(OpRows(C(), BranchOp(C(), exit), SlotOfBuilder(C(), built)))
      requires |jumps| < capacity.jumps && exit == Branch(exit.flag, TableAt(|jumps|), tag, inverted)
      modifies this`built, this`jumps, this`branches, program`codeEnd, program`layer, program`slot, program`layers, program.data
      ensures ok ==> Valid()
      ensures ok ==> built == Close(old(built), exit).(jumps := old(built).jumps + 1)
      ensures old(program.Spare()) >= 1 ==> ok
      ensures ok ==> program.Spare() >= old(program.Spare()) - 1 && |jumps| == |old(jumps)| + 1
    {
      hide Prepared, LabelsTied, JumpsTied, Partly, Written, Same, Span, OpRows;
      ghost var s, before := Bits(), program.Now();
      var layer, table := program.layer, TableAt(|jumps|);
      PartlyLayers(C(), program.codeBegin, program.Now(), built, OpRows(C(), BranchOp(C(), exit), SlotOfBuilder(C(), built)));
      ok := program.Next();
      if ok {
        CodeFree(capacity, program.codeLimit - program.codeBegin);
        PreparedKept(s, Bits(), Span(program.codeBegin, program.codeLimit - program.codeBegin), regs, constants, adds, subs);
        jumps := jumps + [JumpEntry(layer, tag, table, program.layer, inverted)];
        branches := branches + [|built.done|];
        JumpClosed(C(), program.codeBegin, before, program.Now(), labels, jumps, branches, built, exit, layer, program.layer);
        built := Close(built, exit).(jumps := built.jumps + 1);
      }
    }

    /** The constants zero and one. */
    method ZeroAndOne() returns (ok: bool, zero: nat, one: nat)
      requires Valid()
      modifies this`constants, program.data
      ensures ok ==> Valid() && Extends(old(constants), constants, zero, one)
      ensures |old(constants)| <= 254 ==> ok
      ensures |constants| <= |old(constants)| + 2
    {
      hide Open, HasConstant;
      one := 0;
      ok, zero := GetConstant(0);
      if ok {
        ghost var first := constants;
        ok, one := GetConstant(1);
        if ok {
          ConstantStays(first, constants, zero, 0);
        }
      }
    }

    /** The multiplication: operands, a loop of 32 rounds, the result. */
    method Multiply32(dst: nat, src: nat) returns (ok: bool, zero: nat, one: nat)
      requires Valid()
      modifies this`constants, this`built, this`labels, this`jumps, this`branches, this`adds, this`subs
      modifies program`codeEnd, program`layer, program`slot, program`layers, program.data
      ensures ok ==> Valid() && Extends(old(constants), constants, zero, one) && adds && subs == old(subs)
      ensures ok ==> |labels| == |old(labels)| + 1 && |constants| <= |old(constants)| + 2
      ensures ok ==> built == Emit(C(), old(built), MulItems(dst, src, zero, one, |old(labels)|))
      ensures old(Enough(48, 1, 1)) && Register(dst) && Register(src) && |old(constants)| <= 254 ==> ok
      ensures ok ==> program.Spare() >= old(program.Spare()) - 48 && |jumps| == |old(jumps)| + 1
    {
      hide Open, Emit, MulItems, Extends;
      ConfigValid();
      ok, zero, one := ZeroAndOne();
      if ok {
        ExtendsRange(old(constants), constants, zero, one);
        ok := MultiplyWith(dst, src, zero, one);
      }
    }

    method MultiplyWith(dst: nat, src: nat, zero: nat, one: nat) returns (ok: bool)
      requires Valid()
      modifies this`built, this`labels, this`jumps, this`branches, this`adds, this`subs
      modifies program`codeEnd, program`layer, program`slot, program`layers, program.data
      ensures ok ==> Valid() && adds && subs == old(subs) && |labels| == |old(labels)| + 1
      ensures ok ==> built == Emit(C(), old(built), MulItems(dst, src, zero, one, |old(labels)|))
      ensures old(Enough(48, 1, 1)) && Register(dst) && Register(src) && LowWord(zero) && LowWord(one) ==> ok
      ensures ok ==> program.Spare() >= old(program.Spare()) - 48 && |jumps| == |old(jumps)| + 1
    {
      hide Open, MulStart, MulBody, Singles, EmitChunks, EmitItem, Emit, MulItems, AllLow;
      ConfigValid();
      LowMultiply(dst, src, zero, one);
      ghost var b := built;
      var tag := |labels|;
      ok := EmitThenBind(MulStart(dst, src, zero, one));
      if !ok { return; }
      ghost var b1 := built;
      ok := MultiplyRound(zero);
      if !ok { return; }
      ghost var b2 := built;
      ok := ConditionalJump(tag, MUL_STOP, true);
      if !ok { return; }
      ghost var b3 := built;
      ok := Run([Plain(32, dst, MUL_ACC)]);
      MultiplyIs(C(), b, b1, b2, b3, dst, src, zero, one, tag);
    }

    /** Straight-line code and a new label behind it. */
    method EmitThenBind(ops: seq<Op>) returns (ok: bool)
      requires Valid()
      modifies this`built, this`labels, program`codeEnd, program`layer, program`slot, program`layers, program.data
      ensures ok ==> Valid() && |labels| == |old(labels)| + 1
      ensures ok ==> built == EmitItem(C(), EmitItem(C(), old(built), Straight(Singles(ops))), Bind(|old(labels)|))
      ensures AllLow(ops) && old(Enough(|ops| + 1, 1, 0)) ==> ok
      ensures ok ==> program.Spare() >= old(program.Spare()) - |ops| - 1
    {
      hide Open, Singles, EmitChunks;
      ConfigValid();
      ok := Run(ops);
      if !ok { return; }
      var tag;
      ok, tag := InternalLabel();
      if !ok { return; }
      ok := BindInternal(tag);
    }

    /** One round: the addend, the sum, the shifts. */
    method MultiplyRound(zero: nat) returns (ok: bool)
      requires Valid()
      modifies this`built, this`adds, this`subs, program`codeEnd, program`layer, program`slot, program`layers, program.data
      ensures ok ==> Valid() && adds && subs == old(subs)
      ensures ok ==> built == EmitItem(C(), old(built), Straight(MulBody(zero)))
      ensures LowWord(zero) && old(program.Spare()) >= 40 ==> ok
      ensures ok ==> program.Spare() >= old(program.Spare()) - 40
    {
      hide Open, MulShiftOps, AndOps, Singles, EmitChunk, EmitChunks, AdderOps, AllLow;
      ConfigValid();
      LowRound(zero);
      ok := Run(AndOps(32));
      if !ok { return; }
      ok := Arithmetic32(false, MUL_ACC, MUL_ACC, MUL_ADDEND);
      if !ok { return; }
      ok := Run(MulShiftOps(zero));
      var sum := AdderOps(WordAdder(false, MUL_ACC, MUL_ACC, MUL_ADDEND), 32);
      ChunkLast(C(), old(built), Singles(AndOps(32)), sum);
      ChunksTwice(C(), old(built), Singles(AndOps(32)) + [sum], Singles(MulShiftOps(zero)));
    }

    /** Negates a word unless its sign bit is clear. */
    method Absolute32(value: nat, sign: nat, zero: nat) returns (ok: bool)
      requires Valid()
      modifies this`built, this`labels, this`jumps, this`branches, this`adds, this`subs
      modifies program`codeEnd, program`layer, program`slot, program`layers, program.data
      ensures ok ==> Valid() && subs && adds == old(adds) && |labels| == |old(labels)| + 1
      ensures ok ==> built == Emit(C(), old(built), AbsItems(value, sign, zero, |old(labels)|))
      ensures old(Enough(4, 1, 1)) && AdderReady(value, zero, value) && sign < BRANCH_TABLE ==> ok
      ensures ok ==> program.Spare() >= old(program.Spare()) - 4 && |jumps| == |old(jumps)| + 1
    {
      hide Open, EmitChunk, AdderOps, EmitItem, Emit, AbsItems, AdderReady;
      ConfigValid();
      ghost var b := built;
      var skip;
      ok, skip := InternalLabel();
      if !ok { return; }
      ok := ConditionalJump(skip, sign, true);
      if !ok { return; }
      ghost var b1 := built;
      ok := Arithmetic32(true, value, zero, value);
      if !ok { return; }
      ghost var b2 := built;
      ok := BindInternal(skip);
      AbsoluteIs(C(), b, b1, b2, value, sign, zero, skip);
    }

    /** Signed operations take the magnitude first. */
    method Size32(signed: bool, value: nat, sign: nat, zero: nat) returns (ok: bool)
      requires Valid()
      modifies this`built, this`labels, this`jumps, this`branches, this`adds, this`subs
      modifies program`codeEnd, program`layer, program`slot, program`layers, program.data
      ensures ok ==> Valid() && (subs <==> old(subs) || signed) && adds == old(adds)
      ensures ok ==> |labels| == |old(labels)| + (if signed then 1 else 0)
      ensures ok ==> built == Emit(C(), old(built), SizeItems(signed, value, sign, zero, |old(labels)|))
      ensures old(Enough(4, 1, 1)) && AdderReady(value, zero, value) && sign < BRANCH_TABLE ==> ok
      ensures ok ==> program.Spare() >= old(program.Spare()) - 4 && |jumps| <= |old(jumps)| + 1
    {
      hide Open;
      ConfigValid();
      if signed {
        ok := Absolute32(value, sign, zero);
      } else {
        ok := true;
      }
    }

    /** Signed and unsigned division: quotient or remainder. */
    method Divide32(dst: nat, src: nat, signed: bool, remainder: bool) returns (ok: bool, zero: nat, one: nat)
      requires Valid()
      modifies this`constants, this`built, this`labels, this`jumps, this`branches, this`adds, this`subs
      modifies program`codeEnd, program`layer, program`slot, program`layers, program.data
      ensures ok ==> Valid() && Extends(old(constants), constants, zero, one) && subs && adds == old(adds)
      ensures ok ==> |labels| == LoopTag(signed, |old(labels)|) + (if signed then 3 else 2) && |constants| <= |old(constants)| + 2
      ensures ok ==> built == Emit(C(), old(built), DivItems(dst, src, signed, remainder, zero, one, |old(labels)|))
      ensures old(Enough(185, 5, 5)) && Register(dst) && Register(src) && |old(constants)| <= 254 ==> ok
      ensures ok ==> program.Spare() >= old(program.Spare()) - 185 && |jumps| <= |old(jumps)| + 5
    {
      hide Open, Emit, Extends, DivItems, LoopTag, Register;
      ConfigValid();
      ok, zero, one := ZeroAndOne();
      if ok {
        ExtendsRange(old(constants), constants, zero, one);
        ok := DivideWith(dst, src, signed, remainder, zero, one);
      }
    }

    method DivideWith(dst: nat, src: nat, signed: bool, remainder: bool, zero: nat, one: nat) returns (ok: bool)
      requires Valid()
      modifies this`built, this`labels, this`jumps, this`branches, this`adds, this`subs
      modifies program`codeEnd, program`layer, program`slot, program`layers, program.data
      ensures ok ==> Valid() && subs && adds == old(adds)
      ensures ok ==> |labels| == LoopTag(signed, |old(labels)|) + (if signed then 3 else 2)
      ensures ok ==> built == Emit(C(), old(built), DivItems(dst, src, signed, remainder, zero, one, |old(labels)|))
      ensures old(Enough(185, 5, 5)) && Register(dst) && Register(src) && IsConstant(zero) && IsConstant(one) ==> ok
      ensures ok ==> program.Spare() >= old(program.Spare()) - 185 && |jumps| <= |old(jumps)| + 5
    {
      hide Open, Emit, EnterItems, DivLoopItems, LeaveItems, DivItems, LoopTag, Register, IsConstant;
      ConfigValid();
      ghost var b, tag := built, |labels|;
      LoopTagMost(signed, tag);
      ok := DivideEnter(dst, src, signed, zero, one);
      if !ok { return; }
      ghost var b1 := built;
      ok := DivideLoop(zero, one);
      if !ok { return; }
      ghost var b2 := built;
      ok := DivideLeave(dst, signed, remainder, zero, one);
      DivideIs(C(), b, b1, b2, dst, src, signed, remainder, zero, one, tag);
    }

    /** Operands, their magnitudes and the start of the loop's words. */
    method DivideEnter(dst: nat, src: nat, signed: bool, zero: nat, one: nat) returns (ok: bool)
      requires Valid()
      modifies this`built, this`labels, this`jumps, this`branches, this`adds, this`subs
      modifies program`codeEnd, program`layer, program`slot, program`layers, program.data
      ensures ok ==> Valid() && adds == old(adds) && (subs <==> old(subs) || signed)
      ensures ok ==> |labels| == LoopTag(signed, |old(labels)|)
      ensures ok ==> built == Emit(C(), old(built), EnterItems(dst, src, signed, zero, one, |old(labels)|))
      ensures old(Enough(16, 2, 2)) && Register(dst) && Register(src) && IsConstant(zero) && IsConstant(one) ==> ok
      ensures ok ==> program.Spare() >= old(program.Spare()) - 16 && |jumps| <= |old(jumps)| + 2
    {
      hide Open, Emit, DivStart, DivInit, Singles, EmitChunks, EnterItems, Sizes, LoopTag, AllLow, Register, IsConstant;
      ConfigValid();
      LowEnter(dst, src, zero, one);
      ghost var b, tag := built, |labels|;
      ok := DivideOperands(dst, src, signed, zero);
      if !ok { return; }
      EnterIs(C(), b, dst, src, signed, zero, one, tag);
      ok := Run(DivInit(zero, one));
    }

    method DivideOperands(dst: nat, src: nat, signed: bool, zero: nat) returns (ok: bool)
      requires Valid()
      modifies this`built, this`labels, this`jumps, this`branches, this`adds, this`subs
      modifies program`codeEnd, program`layer, program`slot, program`layers, program.data
      ensures ok ==> Valid() && adds == old(adds) && (subs <==> old(subs) || signed)
      ensures ok ==> |labels| == LoopTag(signed, |old(labels)|)
      ensures ok ==> built == Emit(C(), EmitChunks(C(), old(built), Singles(DivStart(dst, src))), Sizes(signed, zero, |old(labels)|))
      ensures old(Enough(13, 2, 2)) && Register(dst) && Register(src) && IsConstant(zero) ==> ok
      ensures ok ==> program.Spare() >= old(program.Spare()) - 13 && |jumps| <= |old(jumps)| + 2
    {
      hide Open, Emit, DivStart, Singles, EmitChunks, Sizes, LoopTag, AllLow, Register, IsConstant;
      ConfigValid();
      LowEnter(dst, src, zero, zero);
      ok := Run(DivStart(dst, src));
      if !ok { return; }
      ok := DivideSizes(signed, zero);
    }

    method DivideSizes(signed: bool, zero: nat) returns (ok: bool)
      requires Valid()
      modifies this`built, this`labels, this`jumps, this`branches, this`adds, this`subs
      modifies program`codeEnd, program`layer, program`slot, program`layers, program.data
      ensures ok ==> Valid() && adds == old(adds) && (subs <==> old(subs) || signed)
      ensures ok ==> |labels| == LoopTag(signed, |old(labels)|)
      ensures ok ==> built == Emit(C(), old(built), Sizes(signed, zero, |old(labels)|))
      ensures old(Enough(8, 2, 2)) && IsConstant(zero) ==> ok
      ensures ok ==> program.Spare() >= old(program.Spare()) - 8 && |jumps| <= |old(jumps)| + 2
    {
      hide Open, Emit, SizeItems, AdderReady;
      ConfigValid();
      LowSizes(zero);
      ghost var b, tag := built, |labels|;
      ok := Size32(signed, DIV_NUM, DIV_NUM_SIGN, zero);
      if !ok { return; }
      ok := Size32(signed, DIV_DEN, DIV_DEN_SIGN, zero);
      ItemsTwice(C(), b, SizeItems(signed, DIV_NUM, DIV_NUM_SIGN, zero, tag),
        SizeItems(signed, DIV_DEN, DIV_DEN_SIGN, zero, if signed then tag + 1 else tag));
    }

    /** The loop: shift, compare, reduce, mark. */
    method DivideLoop(zero: nat, one: nat) returns (ok: bool)
      requires Valid()
      modifies this`built, this`labels, this`jumps, this`branches, this`adds, this`subs
      modifies program`codeEnd, program`layer, program`slot, program`layers, program.data
      ensures ok ==> Valid() && adds == old(adds) && subs && |labels| == |old(labels)| + 2
      ensures ok ==> built == Emit(C(), old(built), DivLoopItems(zero, one, |old(labels)|, |old(labels)| + 1))
      ensures old(Enough(90, 2, 2)) && IsConstant(zero) && IsConstant(one) ==> ok
      ensures ok ==> program.Spare() >= old(program.Spare()) - 90 && |jumps| == |old(jumps)| + 2
    {
      hide Open, Emit, EmitItem, EmitChunks, EmitChunk, DivHeadOps, DivMarkOps, DivReduce, Singles;
      ConfigValid();
      ghost var b := built;
      var loop, skip;
      ok, loop := InternalLabel();
      if !ok { return; }
      ok, skip := InternalLabel();
      if !ok { return; }
      ok := DivideTest(zero, one, loop, skip);
      if !ok { return; }
      ghost var b1 := built;
      ok := DivideReduce(one, skip);
      if !ok { return; }
      ghost var b2 := built;
      ok := DivideMark(zero, loop);
      LoopIs(C(), b, b1, b2, zero, one, loop, skip);
    }

    method DivideTest(zero: nat, one: nat, loop: nat, skip: nat) returns (ok: bool)
      requires Valid() && loop < |labels| && skip < |labels|
      modifies this`built, this`labels, this`jumps, this`branches, this`adds, this`subs
      modifies program`codeEnd, program`layer, program`slot, program`layers, program.data
      ensures ok ==> Valid() && adds == old(adds) && subs == old(subs) && |labels| == |old(labels)|
      ensures ok ==> built == EmitItem(C(), EmitItem(C(), EmitItem(C(), old(built), Bind(loop)),
                                Straight(Singles(DivHeadOps(zero, one)))), Goto(skip, DIV_REDUCE, true))
      ensures old(Enough(82, 0, 1)) && IsConstant(zero) && IsConstant(one) ==> ok
      ensures ok ==> program.Spare() >= old(program.Spare()) - 82 && |jumps| == |old(jumps)| + 1
    {
      hide Open, EmitItem, DivHeadOps, IsConstant;
      ConfigValid();
      ok := BindInternal(loop);
      if !ok { return; }
      ok := DivideHead(zero, one);
      if !ok { return; }
      ok := ConditionalJump(skip, DIV_REDUCE, true);
    }

    /** The shift and the comparison at the head of a round. */
    method DivideHead(zero: nat, one: nat) returns (ok: bool)
      requires Valid()
      modifies this`built, program`codeEnd, program`layer, program`slot, program`layers, program.data
      ensures ok ==> Valid()
      ensures ok ==> built == EmitItem(C(), old(built), Straight(Singles(DivHeadOps(zero, one))))
      ensures old(program.Spare()) >= 79 && IsConstant(zero) && IsConstant(one) ==> ok
      ensures ok ==> program.Spare() >= old(program.Spare()) - 79
    {
      hide Open, EmitChunks, EmitChunk, DivShiftOps, CompareOps, Singles, AllLow, IsConstant, TestGates;
      ConfigValid();
      LowTest(zero, one);
      ghost var b := built;
      ok := Run(DivShiftOps(zero));
      if !ok { return; }
      ok := Compare32(DIV_REM, DIV_DEN);
      if !ok { return; }
      EmitTwice(C(), b, DivShiftOps(zero), CompareOps(DIV_REM, DIV_DEN));
      EmitTwice(C(), b, DivShiftOps(zero) + CompareOps(DIV_REM, DIV_DEN), TestGates(one));
      HeadSplit(zero, one);
      ok := Run(TestGates(one));
    }

    method DivideReduce(one: nat, skip: nat) returns (ok: bool)
      requires Valid() && skip < |labels|
      modifies this`built, this`labels, this`jumps, this`branches, this`adds, this`subs
      modifies program`codeEnd, program`layer, program`slot, program`layers, program.data
      ensures ok ==> Valid() && adds == old(adds) && subs && |labels| == |old(labels)|
      ensures ok ==> built == EmitItem(C(), EmitItem(C(), old(built), Straight(DivReduce(one))), Bind(skip))
      ensures old(program.Spare()) >= 3 && IsConstant(one) ==> ok
      ensures ok ==> program.Spare() >= old(program.Spare()) - 3 && jumps == old(jumps)
    {
      hide Open, EmitChunk, AdderOps, AdderReady, AllLow, RowCount;
      ConfigValid();
      LowReduce(one);
      ghost var b := built;
      var ops := AdderOps(WordAdder(true, DIV_REM, DIV_REM, DIV_DEN), 32);
      ok := Arithmetic32(true, DIV_REM, DIV_REM, DIV_DEN);
      if !ok { return; }
      ok := Chunk([Plain(1, DIV_QUO, one)]);
      if !ok { return; }
      ChunkLast(C(), b, [], ops);
      ChunkLast(C(), b, [ops], [Plain(1, DIV_QUO, one)]);
      assert [] + [ops] == [ops] && [ops] + [[Plain(1, DIV_QUO, one)]] == DivReduce(one);
      ok := BindInternal(skip);
    }

    method DivideMark(zero: nat, loop: nat) returns (ok: bool)
      requires Valid() && loop < |labels|
      modifies this`built, this`labels, this`jumps, this`branches, this`adds, this`subs
      modifies program`codeEnd, program`layer, program`slot, program`layers, program.data
      ensures ok ==> Valid() && adds == old(adds) && subs == old(subs) && |labels| == |old(labels)|
      ensures ok ==> built == EmitItem(C(), EmitItem(C(), old(built), Straight(Singles(DivMarkOps(zero)))), Goto(loop, DIV_STOP, true))
      ensures old(Enough(5, 0, 1)) && IsConstant(zero) ==> ok
      ensures ok ==> program.Spare() >= old(program.Spare()) - 5 && |jumps| == |old(jumps)| + 1
    {
      hide Open, DivMarkOps, Singles, EmitChunks, AllLow;
      ConfigValid();
      LowMark(zero);
      ok := Run(DivMarkOps(zero));
      if !ok { return; }
      ok := ConditionalJump(loop, DIV_STOP, true);
    }

    /** The sign of the result, the result, the flags. */
    method DivideLeave(dst: nat, signed: bool, remainder: bool, zero: nat, one: nat) returns (ok: bool)
      requires Valid()
      modifies this`built, this`labels, this`jumps, this`branches, this`adds, this`subs
      modifies program`codeEnd, program`layer, program`slot, program`layers, program.data
      ensures ok ==> Valid() && adds == old(adds) && (subs <==> old(subs) || signed)
      ensures ok ==> |labels| == |old(labels)| + (if signed then 1 else 0)
      ensures ok ==> built == Emit(C(), old(built), LeaveItems(dst, signed, remainder, zero, one, |old(labels)|))
      ensures old(Enough(79, 1, 1)) && Register(dst) && IsConstant(zero) && IsConstant(one) ==> ok
      ensures ok ==> program.Spare() >= old(program.Spare()) - 79 && |jumps| <= |old(jumps)| + 1
    {
      hide Open, Emit, SignItems, SizeItems, EndOps, Singles, EmitChunks, AllLow, AdderReady, Register;
      ConfigValid();
      LowEnd(dst, remainder, zero);
      ghost var b, tag := built, |labels|;
      ok := SignOf(signed, remainder, zero, one);
      if !ok { return; }
      ok := Size32(signed, ResultAt(remainder), DIV_SIGN, zero);
      if !ok { return; }
      ok := Run(EndOps(dst, ResultAt(remainder)));
      LeaveIs(C(), b, SignItems(signed, remainder, zero, one), SizeItems(signed, ResultAt(remainder), DIV_SIGN, zero, tag),
        Singles(EndOps(dst, ResultAt(remainder))));
    }

    /** A quotient's sign differs from the operands' only if the divisor is not zero. */
    method SignOf(signed: bool, remainder: bool, zero: nat, one: nat) returns (ok: bool)
      requires Valid()
      modifies this`built, program`codeEnd, program`layer, program`slot, program`layers, program.data
      ensures ok ==> Valid()
      ensures ok ==> built == Emit(C(), old(built), SignItems(signed, remainder, zero, one))
      ensures old(program.Spare()) >= 73 && IsConstant(zero) && IsConstant(one) ==> ok
      ensures ok ==> program.Spare() >= old(program.Spare()) - 73
    {
      hide Open, EmitChunks, Singles, CompareOps, EmitChunk, AllLow;
      ConfigValid();
      LowSign(zero, one);
      ghost var b := built;
      if !signed {
        return true;
      }
      SignIs(C(), b, remainder, zero, one);
      if remainder {
        ok := Run([Plain(1, DIV_SIGN, DIV_NUM_SIGN)]);
        return;
      }
      var first := [GateOp(Xor, DIV_SIGN, DIV_NUM_SIGN, DIV_DEN_SIGN)];
      ok := Run(first);
      if !ok { return; }
      ok := Compare32(DIV_DEN, zero);
      if !ok { return; }
      EmitTwice(C(), b, first, CompareOps(DIV_DEN, zero));
      var gates := [GateOp(Xor, DIV_DEN_SIGN, CMP_EQ, one), GateOp(And, DIV_SIGN, DIV_SIGN, DIV_DEN_SIGN)];
      ok := Run(gates);
      EmitTwice(C(), b, first + CompareOps(DIV_DEN, zero), gates);
      SignSplit(zero, one);
    }

    /** The barrel shifter: the count, then stage after stage the word aside and its bits one by one. */
    method Shift32(d: Direction, dst: nat, count: nat) returns (ok: bool)
      requires Valid()
      modifies this`built, program`codeEnd, program`layer, program`slot, program`layers, program.data
      ensures ok ==> Valid() && built == EmitItem(C(), old(built), Straight(ShiftChunks(d, dst, count, 5)))
      ensures old(program.Spare()) >= 166 && Register(dst) && Register(count) ==> ok
      ensures ok ==> program.Spare() >= old(program.Spare()) - 166
    {
      hide Open, EmitChunk, EmitChunks, ShiftChunks, LowOp, RowCount;
      ConfigValid();
      ghost var b := built;
      ShiftStart(C(), b, d, dst, count);
      ok := Chunk([Plain(5, SHIFT_COUNT, count)]);
      if !ok { return; }
      var stage := 0;
      while stage < 5
        invariant 0 <= stage <= 5
        invariant Valid() && built == EmitChunks(C(), b, ShiftChunks(d, dst, count, stage))
        invariant program.Spare() >= old(program.Spare()) - 1 - 33 * stage
      {
        ok := ShiftStage(b, d, dst, count, stage);
        if !ok { return; }
        stage := stage + 1;
      }
      return true;
    }

    method ShiftStage(ghost b: Builder, d: Direction, dst: nat, ghost count: nat, stage: nat) returns (ok: bool)
      requires Valid() && stage < 5 && built == EmitChunks(C(), b, ShiftChunks(d, dst, count, stage))
      modifies this`built, program`codeEnd, program`layer, program`slot, program`layers, program.data
      ensures ok ==> Valid() && built == EmitChunks(C(), b, ShiftChunks(d, dst, count, stage + 1))
      ensures old(program.Spare()) >= 33 && Register(dst) ==> ok
      ensures ok ==> program.Spare() >= old(program.Spare()) - 33
    {
      hide Open, EmitChunk, EmitChunks, ShiftChunks, PickOps, PickChunks, LowOp, RowCount, AllLow, Pow2;
      ConfigValid();
      ghost var before := ShiftChunks(d, dst, count, stage);
      ghost var first := before + [[Plain(32, SHIFT_WORD, dst)]];
      LowWordAside(dst);
      ChunkLast(C(), b, before, [Plain(32, SHIFT_WORD, dst)]);
      ok := Chunk([Plain(32, SHIFT_WORD, dst)]);
      if !ok { return; }
      NoPicks(d, dst, stage, first);
      var bit := 0;
      while bit < 32
        invariant 0 <= bit <= 32
        invariant Valid() && built == EmitChunks(C(), b, first + PickChunks(d, dst, stage, bit))
        invariant program.Spare() >= old(program.Spare()) - 1 - bit
      {
        LowPick(d, dst, stage, bit);
        MorePicks(C(), b, d, dst, stage, bit, first);
        ok := Chunk(PickOps(d, dst, stage, bit));
        if !ok { return; }
        bit := bit + 1;
      }
      StageIs(d, dst, count, stage);
      return true;
    }

    /** Fills the tables of all branches and leads all jumps, once every label they name is bound. */
    method Resolve(report: nat) returns (ok: bool)
      requires Valid() && ReportTied(C(), program.codeBegin, report, built)
      modifies program.data, program`layers
      ensures ok ==> Valid() && Resolved(Bits(), C(), jumps, labels, report, |jumps|)
      ensures ok ==> JumpsLed(C(), program.codeBegin, program.layers, built)
      ensures BranchesBound(built) ==> ok
    {
      hide Prepared, LabelsTied, JumpsTied, Partly, Written, Same, Span, Entry, Resolved, BranchesBound, ReportTied, LedUpTo, JumpsLed;
      ConfigValid();
      ResolvedNone(Bits(), C(), jumps, labels, report);
      NoneLed(C(), program.codeBegin, program.layers, built, branches);
      var j := 0;
      while j < |jumps|
        invariant 0 <= j <= |jumps|
        invariant Valid() && Resolved(Bits(), C(), jumps, labels, report, j)
        invariant LedUpTo(C(), program.codeBegin, program.layers, built, branches, j)
      {
        BoundLabel(C(), program.codeBegin, labels, report, jumps, branches, built, j);
        var known := Known(labels, report, jumps[j].tag);
        if known == None {
          return false;
        }
        if jumps[j].table != 0 {
          ok := PutTable(j, report);
        } else {
          ok := Lead(j, report);
        }
        if !ok {
          return;
        }
        j := j + 1;
      }
      AllLed(C(), program.codeBegin, program.Now(), built, jumps, branches);
      return true;
    }

    /** One branch table: the entry for a clear flag, and the entry for a set one. */
    method PutTable(j: nat, report: nat) returns (ok: bool)
      requires Valid() && j < |jumps| && jumps[j].table != 0 && Resolved(Bits(), C(), jumps, labels, report, j)
      requires Known(labels, report, jumps[j].tag).Some? && LedUpTo(C(), program.codeBegin, program.layers, built, branches, j)
      modifies program.data
      ensures ok && Valid() && Resolved(Bits(), C(), jumps, labels, report, j + 1)
      ensures LedUpTo(C(), program.codeBegin, program.layers, built, branches, j + 1)
    {
      hide Open, Same, Span, Entry, Resolved, LedUpTo, JumpsTied, LabelsTied, Partly, Val, Pow2;
      ConfigValid();
      Ties();
      ghost var s0 := Bits();
      JumpTable(C(), program.codeBegin, jumps, branches, built, j);
      PartlyLayers(C(), program.codeBegin, program.Now(), built, []);
      BranchLed(C(), program.codeBegin, program.layers, jumps, branches, built, j);
      TableFits(capacity, j, |jumps|);
      var jump := jumps[j];
      var target := Known(labels, report, jump.tag).value;
      TableWord(jump.table, if jump.inverted then target else jump.fallthrough);
      ghost var s1 := Bits();
      TableWord(jump.table + 32, if jump.inverted then jump.fallthrough else target);
      TablePut(s0, s1, Bits(), C(), jumps, labels, report, j);
      return true;
    }

    /** One jump: the link of its layer. */
    method Lead(j: nat, report: nat) returns (ok: bool)
      requires Valid() && j < |jumps| && jumps[j].table == 0 && Resolved(Bits(), C(), jumps, labels, report, j)
      requires Known(labels, report, jumps[j].tag).Some? && LedUpTo(C(), program.codeBegin, program.layers, built, branches, j)
      requires ReportTied(C(), program.codeBegin, report, built)
      modifies program.data, program`layers
      ensures ok && Valid() && Resolved(Bits(), C(), jumps, labels, report, j + 1)
      ensures LedUpTo(C(), program.codeBegin, program.layers, built, branches, j + 1)
    {
      hide Prepared, LabelsTied, JumpsTied, Partly, Written, Same, Span, Entry, Resolved, LedUpTo, ReportTied, Repointed;
      ConfigValid();
      ghost var s, before := Bits(), program.Now();
      var target := Known(labels, report, jumps[j].tag).value;
      ghost var i := JumpPlaces(C(), program.codeBegin, before, labels, report, jumps, branches, built, j, program.codeEnd, target);
      ok := program.PatchJump(jumps[j].layer, target);
      RepointedLaid(C(), program.codeBegin, before, program.Now(), built, branches, jumps[j].layer, target, j);
      CodeFree(capacity, program.codeLimit - program.codeBegin);
      PreparedKept(s, Bits(), Span(program.codeBegin, program.codeLimit - program.codeBegin), regs, constants, adds, subs);
      TablesStay(s, Bits(), C(), capacity, jumps, labels, report, program.codeLimit, j);
    }

    /** The copies of the report, and a layer of its own behind them for the channel's row. */
    method ReportResult() returns (ok: bool)
      requires Valid() && JumpsLed(C(), program.codeBegin, program.layers, built)
      modifies this`built, program`codeEnd, program`layer, program`slot, program`layers, program.data
      ensures ok ==> Valid() && built == Close(EmitItem(C(), old(built), Straight(Singles(ReportOps(32)))), Next)
      ensures ok ==> JumpsLed(C(), program.codeBegin, program.layers, built) && Since(old(program.layers), old(Bits()))
      ensures ok ==> program.layer == LayerAt(C(), program.codeBegin, |built.done|)
      ensures old(program.Spare()) >= 33 ==> ok
    {
      hide Open, Singles, ReportOps, EmitChunks, JumpsLed, AllLow, Earlier;
      ConfigValid();
      ghost var b, layers, s := built, program.layers, Bits();
      LayerCount();
      LowReport();
      ok := Run(ReportOps(32));
      if !ok { return; }
      ghost var b1, layers1, s1 := built, program.layers, Bits();
      ok := Cut();
      if !ok { return; }
      GrownThen(program.codeBegin, program.codeLimit, layers, s, layers1, s1, program.layers, Bits());
      LayerCount();
      ChunksNext(C(), b, Singles(ReportOps(32)));
      LedGrows(C(), program.codeBegin, layers, program.layers, b, built);
    }

    lemma LayerCount()
      requires Valid()
      ensures |program.layers| == |built.done| + 1
    {
      hide Prepared, LabelsTied, JumpsTied, Written, Finished;
    }

    /** A word between the tables and the code. */
    method TableWord(at: nat, value: nat)
      requires Valid() && BRANCH_TABLE <= at && at + 32 <= program.codeBegin
      modifies program.data
      ensures Valid() && Same(old(Bits()), Bits(), Span(at, 32)) && at + 32 <= |Bits()|
      ensures Val(Bits(), at, 32) == value % Pow2(32)
    {
      hide Prepared, LabelsTied, JumpsTied, Partly, Written, Same, Span, Val, Pow2;
      BeginFits(C(), program.codeBegin, |program.layers|);
      ghost var s0 := Bits();
      var ok := program.Constant(at, 32, value);
      SpansApart(at, 32, CONSTANT_BASE, BRANCH_TABLE - CONSTANT_BASE);
      PreparedKept(s0, Bits(), Span(at, 32), regs, constants, adds, subs);
    }
  }

  lemma ShiftStart(c: Config, b: Builder, d: Direction, dst: nat, count: nat)
    requires c.Valid()
    ensures ShiftChunks(d, dst, count, 0) == [[Plain(5, SHIFT_COUNT, count)]]
    ensures EmitChunks(c, b, ShiftChunks(d, dst, count, 0)) == EmitChunk(c, b, [Plain(5, SHIFT_COUNT, count)])
    ensures RowCount([Plain(5, SHIFT_COUNT, count)]) == 1 && (Register(count) ==> AllLow([Plain(5, SHIFT_COUNT, count)]))
  {
    hide EmitChunk;
    RowCountOne(Plain(5, SHIFT_COUNT, count));
    EmitNone(c, b);
    ChunkLast(c, b, [], [Plain(5, SHIFT_COUNT, count)]);
    assert [] + [[Plain(5, SHIFT_COUNT, count)]] == [[Plain(5, SHIFT_COUNT, count)]];
  }

  lemma LowWordAside(dst: nat)
    ensures RowCount([Plain(32, SHIFT_WORD, dst)]) == 1 && (Register(dst) ==> AllLow([Plain(32, SHIFT_WORD, dst)]))
  {
    RowCountOne(Plain(32, SHIFT_WORD, dst));
  }

  lemma LowPick(d: Direction, dst: nat, stage: nat, bit: nat)
    requires stage < 5 && bit < 32
    ensures RowCount(PickOps(d, dst, stage, bit)) == 4 && (Register(dst) ==> AllLow(PickOps(d, dst, stage, bit)))
  {
    hide Pow2;
    var ops := PickOps(d, dst, stage, bit);
    PickPatch(dst + bit, SHIFT_PAIR, SHIFT_COUNT + stage);
    RowCountOne(ops[0]);
    RowCountSnoc([ops[0]], ops[1]);
    RowCountSnoc([ops[0]] + [ops[1]], ops[2]);
    assert [ops[0]] + [ops[1]] + [ops[2]] == ops;
  }

  lemma PickPatch(dst: nat, table: nat, a: nat)
    ensures Lookups.Lookup(1, dst, table, 0, [a]) == Op(1, dst, table, [Patch(SrcField, 0, 1, a)])
  {
  }

  lemma NoPicks(d: Direction, dst: nat, stage: nat, first: seq<seq<Op>>)
    ensures first + PickChunks(d, dst, stage, 0) == first
  {
  }

  lemma MorePicks(c: Config, b: Builder, d: Direction, dst: nat, stage: nat, bit: nat, first: seq<seq<Op>>)
    requires c.Valid() && bit < 32
    ensures EmitChunks(c, b, first + PickChunks(d, dst, stage, bit + 1)) ==
      EmitChunk(c, EmitChunks(c, b, first + PickChunks(d, dst, stage, bit)), PickOps(d, dst, stage, bit))
  {
    hide EmitChunk, PickOps;
    var before := PickChunks(d, dst, stage, bit);
    assert PickChunks(d, dst, stage, bit + 1) == before + [PickOps(d, dst, stage, bit)];
    assert first + (before + [PickOps(d, dst, stage, bit)]) == (first + before) + [PickOps(d, dst, stage, bit)];
    ChunkLast(c, b, first + before, PickOps(d, dst, stage, bit));
  }

  lemma StageIs(d: Direction, dst: nat, count: nat, stage: nat)
    ensures ShiftChunks(d, dst, count, stage) + [[Plain(32, SHIFT_WORD, dst)]] + PickChunks(d, dst, stage, 32) == ShiftChunks(d, dst, count, stage + 1)
  {
    hide PickChunks;
    assert ShiftChunks(d, dst, count, stage) + ([[Plain(32, SHIFT_WORD, dst)]] + PickChunks(d, dst, stage, 32))
        == ShiftChunks(d, dst, count, stage) + [[Plain(32, SHIFT_WORD, dst)]] + PickChunks(d, dst, stage, 32);
  }

  lemma TurnIs(c: Config, b: Builder, tag: nat, flag: nat, inverted: bool)
    requires c.Valid()
    ensures var r := Emission.Room(c, b, 2);
      EmitItem(c, b, Goto(tag, flag, inverted)) == Close(r, Branch(flag, BRANCH_TABLE + 64 * r.jumps, tag, inverted)).(jumps := r.jumps + 1)
  {
    hide SlotOfBuilder;
  }

  lemma RegisterLow(at: nat)
    requires Register(at)
    ensures at + 32 <= BRANCH_TABLE
  {
  }

  lemma NoEntries(s: Space, table: nat, subtract: bool, begin: nat)
    requires table + 16 <= begin <= |s|
    ensures Entries(s, table, subtract, 0)
  {
  }

  lemma LowReport()
    ensures AllLow(ReportOps(32))
  {
  }

  /** Straight-line code ends layers only for lack of room. */
  ghost predicate Lengthened(b: Builder, b': Builder) {
    b.done <= b'.done && b'.labels == b.labels && forall i {:trigger b'.done[i]} | |b.done| <= i < |b'.done| :: b'.done[i].exit.Next?
  }

  lemma {:induction false} ChunksNext(c: Config, b: Builder, chunks: seq<seq<Op>>)
    requires c.Valid()
    ensures Lengthened(b, EmitChunks(c, b, chunks))
    decreases |chunks|
  {
    hide SlotOfBuilder;
    if chunks != [] {
      ChunksNext(c, b, chunks[..|chunks| - 1]);
    }
  }

  lemma LedGrows(c: Config, begin: nat, layers: seq<seq<Row>>, layers': seq<seq<Row>>, b: Builder, b': Builder)
    requires c.Valid() && JumpsLed(c, begin, layers, b) && Earlier(layers, layers')
    requires |layers| == |b.done| + 1 && |layers'| == |b'.done| + 1
    requires exists e :: Lengthened(b, e) && b' == Close(e, Next)
    ensures JumpsLed(c, begin, layers', b')
  {
    hide Led;
    forall i {:trigger b'.done[i]} | 0 <= i < |b'.done| ensures Led(c, begin, layers'[i], b'.done[i], b'.labels) {
      if i < |b.done| {
        assert layers'[i] == layers[i] && b'.done[i] == b.done[i];
        assert Led(c, begin, layers[i], b.done[i], b.labels);
      } else {
        NoJump(c, begin, layers'[i], b'.done[i], b'.labels);
      }
    }
  }

  /** The two entries of a branch table. */
  ghost predicate Entry(s: Space, j: nat, first: nat, second: nat) {
    && TableAt(j) + 64 <= |s|
    && Val(s, TableAt(j), 32) == first % Pow2(32) && Val(s, TableAt(j) + 32, 32) == second % Pow2(32)
  }

  /** Where a label leads, if it is known. */
  function Known(labels: seq<Option<nat>>, report: nat, tag: nat): Option<nat> {
    if tag == RETURN then Some(report) else if tag < |labels| then labels[tag] else None
  }

  ghost predicate ReportTied(c: Config, begin: nat, report: nat, b: Builder)
    requires c.Valid()
  {
    RETURN in b.labels && b.labels[RETURN] <= |b.done| && report == LayerAt(c, begin, b.labels[RETURN])
  }

  /** The table of a branch holds its targets. */
  ghost predicate TableReady(s: Space, jump: JumpEntry, j: nat, labels: seq<Option<nat>>, report: nat) {
    var known := Known(labels, report, jump.tag);
    && known.Some?
    && (jump.table != 0 ==>
          Entry(s, j, if jump.inverted then known.value else jump.fallthrough, if jump.inverted then jump.fallthrough else known.value))
  }

  /** The first k jumps name known labels, and their tables are ready. */
  ghost predicate Resolved(s: Space, c: Config, jumps: seq<JumpEntry>, labels: seq<Option<nat>>, report: nat, k: nat) {
    k <= |jumps| && forall j {:trigger jumps[j]} | 0 <= j < k :: TableReady(s, jumps[j], j, labels, report)
  }

  lemma ResolvedNone(s: Space, c: Config, jumps: seq<JumpEntry>, labels: seq<Option<nat>>, report: nat)
    ensures Resolved(s, c, jumps, labels, report, 0)
  {
  }

  /** The links of the first k jumps lead to their labels. */
  ghost predicate LedUpTo(c: Config, begin: nat, layers: seq<seq<Row>>, b: Builder, branches: seq<nat>, k: nat)
    requires c.Valid()
  {
    && k <= |branches|
    && forall j {:trigger branches[j]} | 0 <= j < k ::
         branches[j] < |b.done| && branches[j] < |layers| && Led(c, begin, layers[branches[j]], b.done[branches[j]], b.labels)
  }

  lemma NoneLed(c: Config, begin: nat, layers: seq<seq<Row>>, b: Builder, branches: seq<nat>)
    requires c.Valid()
    ensures LedUpTo(c, begin, layers, b, branches, 0)
  {
  }

  lemma AllLed(c: Config, begin: nat, sheet: Sheet, b: Builder, jumps: seq<JumpEntry>, branches: seq<nat>)
    requires c.Valid() && JumpsTied(c, begin, jumps, branches, b) && LedUpTo(c, begin, sheet.layers, b, branches, |jumps|)
    requires Laid(c, begin, sheet, b)
    ensures JumpsLed(c, begin, sheet.layers, b)
  {
    hide Finished, JumpTied, OpsRows, Led;
    forall i {:trigger b.done[i]} | 0 <= i < |b.done| ensures Led(c, begin, sheet.layers[i], b.done[i], b.labels) {
      if Turns(b.done[i].exit) {
        assert i in branches;
        var j: nat :| j < |branches| && branches[j] == i;
      } else {
        NoJump(c, begin, sheet.layers[i], b.done[i], b.labels);
      }
    }
  }

  lemma NoJump(c: Config, begin: nat, rows: seq<Row>, layer: Layer, labels: map<nat, nat>)
    requires c.Valid() && !layer.exit.Jump?
    ensures Led(c, begin, rows, layer, labels)
  {
  }

  lemma BranchLed(c: Config, begin: nat, layers: seq<seq<Row>>, jumps: seq<JumpEntry>, branches: seq<nat>, b: Builder, j: nat)
    requires c.Valid() && JumpsTied(c, begin, jumps, branches, b) && j < |jumps| && jumps[j].table != 0
    requires LedUpTo(c, begin, layers, b, branches, j) && |b.done| <= |layers|
    ensures LedUpTo(c, begin, layers, b, branches, j + 1)
  {
    assert JumpTied(c, begin, jumps[j], j, branches[j], b);
    hide JumpTied;
  }

  /** Both ends of a jump are layers of the program. */
  lemma JumpPlaces(c: Config, begin: nat, sheet: Sheet, labels: seq<Option<nat>>, report: nat, jumps: seq<JumpEntry>, branches: seq<nat>,
                   b: Builder, j: nat, end: nat, target: nat) returns (i: nat)
    requires c.Valid() && LabelsTied(c, begin, labels, b) && JumpsTied(c, begin, jumps, branches, b) && Laid(c, begin, sheet, b)
    requires ReportTied(c, begin, report, b) && j < |jumps| && jumps[j].table == 0 && end == LayerAt(c, begin, |sheet.layers|)
    requires Known(labels, report, jumps[j].tag) == Some(target)
    ensures j < |branches| && i == branches[j] && i < |b.done| && b.done[i].exit == Exit.Jump(jumps[j].tag) && jumps[j].layer == LayerAt(c, begin, i)
    ensures jumps[j].tag in b.labels && target == LayerAt(c, begin, b.labels[jumps[j].tag])
    ensures IsLayer(c, begin, end, jumps[j].layer) && IsLayer(c, begin, end, target)
  {
    assert JumpTied(c, begin, jumps[j], j, branches[j], b);
    i := branches[j];
    hide Finished, JumpTied, OpsRows;
    LayerAtIs(c, begin, |sheet.layers|, i);
    LayerAtIs(c, begin, |sheet.layers|, b.labels[jumps[j].tag]);
  }

  lemma LayerAtIs(c: Config, begin: nat, n: nat, i: nat)
    requires c.Valid() && i < n
    ensures IsLayer(c, begin, LayerAt(c, begin, n), LayerAt(c, begin, i)) && LayerNo(c, begin, LayerAt(c, begin, i)) == i
  {
    LayerInside(c, begin, i, n);
    DivModUnique(c.LayerBits(), i, 0);
    assert LayerAt(c, begin, i) - begin == 0 + c.LayerBits() * i;
  }

  /** The sheet after a link has been changed, and the links led so far. */
  lemma RepointedLaid(c: Config, begin: nat, before: Sheet, after: Sheet, b: Builder, branches: seq<nat>, from: nat, target: nat, j: nat)
    requires c.Valid() && Laid(c, begin, before, b) && Repointed(c, begin, before.layers, after.layers, from, target) && after.slot == before.slot
    requires LedUpTo(c, begin, before.layers, b, branches, j) && j < |branches| && branches[j] < |b.done|
    requires b.done[branches[j]].exit.Jump? && from == LayerAt(c, begin, branches[j])
    requires b.done[branches[j]].exit.tag in b.labels && target == LayerAt(c, begin, b.labels[b.done[branches[j]].exit.tag])
    ensures Laid(c, begin, after, b) && LedUpTo(c, begin, after.layers, b, branches, j + 1)
  {
    hide Finished, OpsRows, LayerAt, Partly, Led, BodyRows, LayerNo;
    var i := branches[j];
    LayerAtIs(c, begin, i + 1, i);
    var link := Row(c.LayerBits(), 0, target);
    PartlyLed(c, begin, before, b, i, link);
    assert after == before.(layers := SetRow(before.layers, i, LINK, link));
    LedNow(c, begin, after.layers[i], b.done[i], b.labels);
    forall k {:trigger branches[k]} | 0 <= k < j + 1
      ensures branches[k] < |b.done| && branches[k] < |after.layers| && Led(c, begin, after.layers[branches[k]], b.done[branches[k]], b.labels)
    {
      if branches[k] != i {
        assert Led(c, begin, before.layers[branches[k]], b.done[branches[k]], b.labels);
      }
    }
  }

  lemma LedNow(c: Config, begin: nat, rows: seq<Row>, layer: Layer, labels: map<nat, nat>)
    requires c.Valid() && layer.exit.Jump? && layer.exit.tag in labels && |rows| == SLOTS && rows[LINK] == LinkTo(c, begin, labels[layer.exit.tag])
    ensures Led(c, begin, rows, layer, labels)
  {
  }

  /** The branch tables lie in front of the code. */
  lemma TablesStay(s: Space, t: Space, c: Config, cap: Capacity, jumps: seq<JumpEntry>, labels: seq<Option<nat>>, report: nat, limit: nat, j: nat)
    requires Resolved(s, c, jumps, labels, report, j) && j < |jumps| <= cap.jumps && jumps[j].table == 0
    requires Known(labels, report, jumps[j].tag).Some? && CodeBegin(cap) <= limit
    requires Same(s, t, Span(CodeBegin(cap), limit - CodeBegin(cap)))
    ensures Resolved(t, c, jumps, labels, report, j + 1)
  {
    hide Val, Pow2, Span, Same, Entry;
    SameSize(s, t, Span(CodeBegin(cap), limit - CodeBegin(cap)));
    SpansApart(CodeBegin(cap), limit - CodeBegin(cap), BRANCH_TABLE, CodeBegin(cap) - BRANCH_TABLE);
    forall i {:trigger jumps[i]} | 0 <= i < j + 1 ensures TableReady(t, jumps[i], i, labels, report) {
      if i < j && jumps[i].table != 0 {
        assert TableReady(s, jumps[i], i, labels, report);
        EntryKept(s, t, cap, Span(CodeBegin(cap), limit - CodeBegin(cap)), i);
      }
    }
  }

  lemma EntryKept(s: Space, t: Space, cap: Capacity, area: iset<int>, i: nat)
    requires Same(s, t, area) && i < cap.jumps && area !! Span(BRANCH_TABLE, CodeBegin(cap) - BRANCH_TABLE)
    ensures forall first: nat, second: nat {:trigger Entry(s, i, first, second)} :: Entry(s, i, first, second) ==> Entry(t, i, first, second)
  {
    hide Val, Pow2, Span, Same;
    SameSize(s, t, area);
    SpanInside(BRANCH_TABLE, CodeBegin(cap) - BRANCH_TABLE, TableAt(i), 32);
    SpanInside(BRANCH_TABLE, CodeBegin(cap) - BRANCH_TABLE, TableAt(i) + 32, 32);
    if TableAt(i) + 64 <= |s| {
      SameVal(s, t, area, TableAt(i), 32);
      SameVal(s, t, area, TableAt(i) + 32, 32);
    }
  }

  /** Every jump names a bound label. */
  ghost predicate BranchesBound(b: Builder) {
    forall i {:trigger b.done[i]} | 0 <= i < |b.done| && Turns(b.done[i].exit) ::
      b.done[i].exit.tag in b.labels && b.labels[b.done[i].exit.tag] <= |b.done|
  }

  lemma BoundLabel(c: Config, begin: nat, labels: seq<Option<nat>>, report: nat, jumps: seq<JumpEntry>, branches: seq<nat>, b: Builder, j: nat)
    requires c.Valid() && LabelsTied(c, begin, labels, b) && JumpsTied(c, begin, jumps, branches, b) && j < |jumps|
    ensures BranchesBound(b) ==> Known(labels, report, jumps[j].tag).Some?
  {
    assert JumpTied(c, begin, jumps[j], j, branches[j], b);
  }

  lemma JumpTable(c: Config, begin: nat, jumps: seq<JumpEntry>, branches: seq<nat>, b: Builder, j: nat)
    requires c.Valid() && JumpsTied(c, begin, jumps, branches, b) && j < |jumps| && jumps[j].table != 0
    ensures jumps[j].table == TableAt(j)
  {
    assert JumpTied(c, begin, jumps[j], j, branches[j], b);
  }

  lemma TableFits(n: Capacity, j: nat, k: nat)
    requires j < k <= n.jumps
    ensures TableAt(j) + 64 <= CodeBegin(n)
    ensures Span(TableAt(j), 32) !! Span(CONSTANT_BASE, BRANCH_TABLE - CONSTANT_BASE) && Span(TableAt(j) + 32, 32) !! Span(CONSTANT_BASE, BRANCH_TABLE - CONSTANT_BASE)
  {
  }

  lemma TablePut(s0: Space, s1: Space, s2: Space, c: Config, jumps: seq<JumpEntry>, labels: seq<Option<nat>>, report: nat, j: nat)
    requires Resolved(s0, c, jumps, labels, report, j) && j < |jumps| && Known(labels, report, jumps[j].tag).Some?
    requires Same(s0, s1, Span(TableAt(j), 32)) && Same(s1, s2, Span(TableAt(j) + 32, 32))
    requires TableAt(j) + 64 <= |s1| && TableAt(j) + 64 <= |s2|
    requires var jump, target := jumps[j], Known(labels, report, jumps[j].tag).value;
      && Val(s1, TableAt(j), 32) == (if jump.inverted then target else jump.fallthrough) % Pow2(32)
      && Val(s2, TableAt(j) + 32, 32) == (if jump.inverted then jump.fallthrough else target) % Pow2(32)
    ensures Resolved(s2, c, jumps, labels, report, j + 1)
  {
    hide Val, Pow2, Known;
    SameVal(s1, s2, Span(TableAt(j) + 32, 32), TableAt(j), 32);
    forall i {:trigger jumps[i]} | 0 <= i < j ensures TableReady(s2, jumps[i], i, labels, report) {
      if jumps[i].table != 0 {
        assert TableReady(s0, jumps[i], i, labels, report);
        SameVal(s0, s1, Span(TableAt(j), 32), TableAt(i), 32);
        SameVal(s0, s1, Span(TableAt(j), 32), TableAt(i) + 32, 32);
        SameVal(s1, s2, Span(TableAt(j) + 32, 32), TableAt(i), 32);
        SameVal(s1, s2, Span(TableAt(j) + 32, 32), TableAt(i) + 32, 32);
      }
    }
  }

  lemma SignSplit(zero: nat, one: nat)
    ensures SignOps(false, zero, one) == [GateOp(Xor, DIV_SIGN, DIV_NUM_SIGN, DIV_DEN_SIGN)] + CompareOps(DIV_DEN, zero)
      + [GateOp(Xor, DIV_DEN_SIGN, CMP_EQ, one), GateOp(And, DIV_SIGN, DIV_SIGN, DIV_DEN_SIGN)]
  {
    hide CompareOps, GateOp;
  }

  lemma SignIs(c: Config, b: Builder, remainder: bool, zero: nat, one: nat)
    requires c.Valid()
    ensures Emit(c, b, SignItems(true, remainder, zero, one)) == EmitChunks(c, b, Singles(SignOps(remainder, zero, one)))
    ensures Emit(c, b, SignItems(false, remainder, zero, one)) == b
  {
    hide SignOps, Singles, EmitChunks;
    var item := Straight(Singles(SignOps(remainder, zero, one)));
    ItemLast(c, b, [], item);
    assert [] + [item] == [item];
  }

  function TestGates(one: nat): seq<Op> {
    [GateOp(Xor, DIV_REDUCE, CMP_LTU, one), GateOp(Or, DIV_REDUCE, DIV_REDUCE, DIV_OVERFLOW)]
  }

  lemma HeadSplit(zero: nat, one: nat)
    ensures DivHeadOps(zero, one) == DivShiftOps(zero) + CompareOps(DIV_REM, DIV_DEN) + TestGates(one)
  {
    hide CompareOps, GateOp, DivShiftOps;
  }

  /** Both magnitudes; an unsigned division has none to take and uses no label. */
  function Sizes(signed: bool, zero: nat, tag: nat): seq<Item> {
    SizeItems(signed, DIV_NUM, DIV_NUM_SIGN, zero, tag)
    + SizeItems(signed, DIV_DEN, DIV_DEN_SIGN, zero, if signed then tag + 1 else tag)
  }

  lemma EnterIs(c: Config, b: Builder, dst: nat, src: nat, signed: bool, zero: nat, one: nat, tag: nat)
    requires c.Valid()
    ensures EmitChunks(c, Emit(c, EmitChunks(c, b, Singles(DivStart(dst, src))), Sizes(signed, zero, tag)), Singles(DivInit(zero, one))) ==
      Emit(c, b, EnterItems(dst, src, signed, zero, one, tag))
  {
    hide EmitChunks, DivStart, DivInit, Singles, AbsItems;
    var a, d, x := Straight(Singles(DivStart(dst, src))), Straight(Singles(DivInit(zero, one))), Sizes(signed, zero, tag);
    ItemLast(c, b, [], a);
    assert [] + [a] == [a];
    ItemsTwice(c, b, [a], x);
    ItemLast(c, b, [a] + x, d);
    assert EnterItems(dst, src, signed, zero, one, tag) == [a] + x + [d];
  }

  lemma DivideIs(c: Config, b: Builder, b1: Builder, b2: Builder, dst: nat, src: nat, signed: bool, remainder: bool, zero: nat, one: nat, tag: nat)
    requires c.Valid() && b1 == Emit(c, b, EnterItems(dst, src, signed, zero, one, tag))
    requires b2 == Emit(c, b1, DivLoopItems(zero, one, LoopTag(signed, tag), LoopTag(signed, tag) + 1))
    ensures Emit(c, b2, LeaveItems(dst, signed, remainder, zero, one, LoopTag(signed, tag) + 2)) ==
      Emit(c, b, DivItems(dst, src, signed, remainder, zero, one, tag))
  {
    hide Emit, EnterItems, DivLoopItems, LeaveItems, LoopTag;
    var lt := LoopTag(signed, tag);
    var first, loop := EnterItems(dst, src, signed, zero, one, tag), DivLoopItems(zero, one, lt, lt + 1);
    ItemsTwice(c, b, first, loop);
    ItemsTwice(c, b, first + loop, LeaveItems(dst, signed, remainder, zero, one, lt + 2));
  }

  lemma LeaveIs(c: Config, b: Builder, x: seq<Item>, y: seq<Item>, last: seq<seq<Op>>)
    requires c.Valid()
    ensures EmitChunks(c, Emit(c, Emit(c, b, x), y), last) == Emit(c, b, x + y + [Straight(last)])
  {
    hide EmitChunks;
    ItemsTwice(c, b, x, y);
    ItemLast(c, b, x + y, Straight(last));
  }

  lemma LoopIs(c: Config, b: Builder, b1: Builder, b2: Builder, zero: nat, one: nat, loop: nat, skip: nat)
    requires c.Valid()
    requires b1 == EmitItem(c, EmitItem(c, EmitItem(c, b, Bind(loop)), Straight(Singles(DivHeadOps(zero, one)))), Goto(skip, DIV_REDUCE, true))
    requires b2 == EmitItem(c, EmitItem(c, b1, Straight(DivReduce(one))), Bind(skip))
    ensures Emit(c, b, DivLoopItems(zero, one, loop, skip)) ==
      EmitItem(c, EmitItem(c, b2, Straight(Singles(DivMarkOps(zero)))), Goto(loop, DIV_STOP, true))
  {
    hide EmitItem, DivHeadOps, DivReduce, DivMarkOps, Singles;
    var i := DivLoopItems(zero, one, loop, skip);
    ItemLast(c, b, [], i[0]);
    ItemLast(c, b, [i[0]], i[1]);
    ItemLast(c, b, [i[0], i[1]], i[2]);
    ItemLast(c, b, [i[0], i[1], i[2]], i[3]);
    ItemLast(c, b, [i[0], i[1], i[2], i[3]], i[4]);
    FiveItems(i[0], i[1], i[2], i[3], i[4]);
    var five := [i[0], i[1], i[2], i[3], i[4]];
    ItemLast(c, b, five, i[5]);
    ItemLast(c, b, five + [i[5]], i[6]);
    assert five + [i[5]] + [i[6]] == i;
  }

  /** The constants have grown, and hold zero and one. */
  ghost predicate Extends(before: seq<nat>, now: seq<nat>, zero: nat, one: nat) {
    before <= now && HasConstant(now, zero, 0) && HasConstant(now, one, 1)
  }

  lemma LoopTagMost(signed: bool, tag: nat)
    ensures LoopTag(signed, tag) <= tag + 2
  {
  }

  lemma ExtendsRange(before: seq<nat>, now: seq<nat>, zero: nat, one: nat)
    requires Extends(before, now, zero, one)
    ensures |now| <= 256 ==> IsConstant(zero) && IsConstant(one)
  {
  }

  lemma ConstantStays(before: seq<nat>, now: seq<nat>, at: nat, value: nat)
    requires before <= now && HasConstant(before, at, value)
    ensures HasConstant(now, at, value)
  {
    var i :| 0 <= i < |before| && at == ConstantAt(i) && before[i] == value;
    assert now[i] == value;
  }

  lemma ChunkLast(c: Config, b: Builder, chunks: seq<seq<Op>>, ops: seq<Op>)
    requires c.Valid()
    ensures EmitChunks(c, b, chunks + [ops]) == EmitChunk(c, EmitChunks(c, b, chunks), ops)
  {
    hide EmitChunk;
    assert (chunks + [ops])[..|chunks|] == chunks;
  }

  lemma ItemLast(c: Config, b: Builder, items: seq<Item>, item: Item)
    requires c.Valid()
    ensures Emit(c, b, items + [item]) == EmitItem(c, Emit(c, b, items), item)
    ensures Emit(c, b, []) == b
  {
    hide EmitItem;
    assert (items + [item])[..|items|] == items;
  }

  lemma {:induction false} ItemsTwice(c: Config, b: Builder, xs: seq<Item>, ys: seq<Item>)
    requires c.Valid()
    ensures Emit(c, Emit(c, b, xs), ys) == Emit(c, b, xs + ys)
    decreases |ys|
  {
    hide EmitItem;
    if ys == [] {
      assert xs + ys == xs;
    } else {
      ItemsTwice(c, b, xs, ys[..|ys| - 1]);
      assert (xs + ys)[..|xs + ys| - 1] == xs + ys[..|ys| - 1];
    }
  }

  lemma OneChunk(c: Config, b: Builder, ops: seq<Op>)
    requires c.Valid()
    ensures EmitItem(c, b, Straight([ops])) == EmitChunk(c, b, ops)
  {
    hide EmitChunk;
    ChunkLast(c, b, [], ops);
    assert [] + [ops] == [ops];
  }

  lemma MultiplyIs(c: Config, b: Builder, b1: Builder, b2: Builder, b3: Builder, dst: nat, src: nat, zero: nat, one: nat, tag: nat)
    requires c.Valid()
    requires b1 == EmitItem(c, EmitItem(c, b, Straight(Singles(MulStart(dst, src, zero, one)))), Bind(tag))
    requires b2 == EmitItem(c, b1, Straight(MulBody(zero))) && b3 == EmitItem(c, b2, Goto(tag, MUL_STOP, true))
    ensures Emit(c, b, MulItems(dst, src, zero, one, tag)) == EmitChunks(c, b3, Singles([Plain(32, dst, MUL_ACC)]))
  {
    hide EmitChunks, MulBody, MulStart, Close;
    var a, d := Straight(Singles(MulStart(dst, src, zero, one))), Straight([[Plain(32, dst, MUL_ACC)]]);
    assert Singles([Plain(32, dst, MUL_ACC)]) == [[Plain(32, dst, MUL_ACC)]];
    ItemLast(c, b, [], a);
    ItemLast(c, b, [a], Bind(tag));
    ItemLast(c, b, [a, Bind(tag)], Straight(MulBody(zero)));
    ItemLast(c, b, [a, Bind(tag), Straight(MulBody(zero))], Goto(tag, MUL_STOP, true));
    ItemLast(c, b, [a, Bind(tag), Straight(MulBody(zero)), Goto(tag, MUL_STOP, true)], d);
    FiveItems(a, Bind(tag), Straight(MulBody(zero)), Goto(tag, MUL_STOP, true), d);
  }

  lemma FiveItems(a: Item, b: Item, c: Item, d: Item, e: Item)
    ensures [] + [a] == [a] && [a] + [b] == [a, b] && [a, b] + [c] == [a, b, c]
    ensures [a, b, c] + [d] == [a, b, c, d] && [a, b, c, d] + [e] == [a, b, c, d, e]
  {
  }

  lemma AbsoluteIs(c: Config, b: Builder, b1: Builder, b2: Builder, value: nat, sign: nat, zero: nat, tag: nat)
    requires c.Valid() && b1 == EmitItem(c, b, Goto(tag, sign, true))
    requires b2 == EmitChunk(c, b1, AdderOps(WordAdder(true, value, zero, value), 32))
    ensures Emit(c, b, AbsItems(value, sign, zero, tag)) == EmitItem(c, b2, Bind(tag))
  {
    hide EmitChunk, AdderOps, EmitItem;
    var ops := AdderOps(WordAdder(true, value, zero, value), 32);
    ItemLast(c, b, [], Goto(tag, sign, true));
    ItemLast(c, b, [Goto(tag, sign, true)], Straight([ops]));
    ItemLast(c, b, [Goto(tag, sign, true), Straight([ops])], Bind(tag));
    OneChunk(c, EmitItem(c, b, Goto(tag, sign, true)), ops);
    FiveItems(Goto(tag, sign, true), Straight([ops]), Bind(tag), Bind(tag), Bind(tag));
  }

  /** Operations on the words in front of the branch tables, which every image has room to encode. */
  predicate LowOp(op: Op) {
    && 0 < op.n <= 32 && op.dst + op.n <= BRANCH_TABLE && op.src + op.n <= BRANCH_TABLE && |op.patches| <= 3
    && forall p {:trigger p in op.patches} | p in op.patches :: p.width == 1 && p.off <= 3 && p.from < BRANCH_TABLE
  }

  predicate AllLow(ops: seq<Op>) {
    forall i {:trigger ops[i]} | 0 <= i < |ops| :: LowOp(ops[i])
  }

  predicate LowWord(at: nat) {
    at + 32 <= BRANCH_TABLE
  }

  predicate IsConstant(at: nat) {
    CONSTANT_BASE <= at && at + 32 <= REG_BASE
  }

  /** Words that an adder accepts in every image. */
  predicate AdderReady(dst: nat, left: nat, right: nat) {
    && LowWord(dst) && LowWord(left) && LowWord(right)
    && CONSTANT_BASE <= dst && CONSTANT_BASE <= left && CONSTANT_BASE <= right
    && Apart(dst, 32, ADD_TABLE, 51) && Apart(left, 32, ADD_TABLE, 51) && Apart(right, 32, ADD_TABLE, 51)
    && (dst == left || Apart(dst, 32, left, 32)) && (dst == right || Apart(dst, 32, right, 32))
  }

  ghost predicate HasConstant(constants: seq<nat>, at: nat, value: nat) {
    exists i | 0 <= i < |constants| :: at == ConstantAt(i) && constants[i] == value
  }

  lemma PreparedRange(s: Space, regs: Space, constants: seq<nat>, adds: bool, subs: bool)
    requires Prepared(s, regs, constants, adds, subs)
    ensures BRANCH_TABLE <= |s| && |constants| <= 256 && |regs| == REGISTERS
  {
  }

  lemma RegisterPut(s: Space, t: Space, regs: Space, constants: seq<nat>, adds: bool, subs: bool, at: nat, value: nat)
    returns (regs': Space)
    requires Prepared(s, regs, constants, adds, subs) && Register(at) && value < WORD
    requires Same(s, t, Span(at, 32)) && at + 32 <= |t| && Val(t, at, 32) == value % Pow2(32)
    ensures Prepared(t, regs', constants, adds, subs) && RegisterSet(regs, regs', at, value)
  {
    hide Val, Pow2, Prepared, Same, Span, RegisterOf;
    PreparedRange(s, regs, constants, adds, subs);
    SameSize(s, t, Span(at, 32));
    regs' := t[REG_BASE..REG_BASE + REGISTERS];
    RegisterMoved(t, regs', at, value);
    hide Register;
    BesideRegisters(s, t, regs, regs', constants, adds, subs, at);
    forall r: nat {:trigger Register(r)} | Register(r) && r != at ensures RegisterIs(regs', r, RegisterOf(regs, r)) {
      OneRegister(s, t, regs, regs', constants, adds, subs, at, r);
    }
  }

  lemma RegisterMoved(t: Space, regs': Space, at: nat, value: nat)
    requires Register(at) && BRANCH_TABLE <= |t| && value < WORD && Val(t, at, 32) == value % Pow2(32)
    requires regs' == t[REG_BASE..REG_BASE + REGISTERS]
    ensures RegisterIs(regs', at, value)
  {
    Pow2Word();
    hide Val, Pow2;
    ValMove(t, at, regs', at - REG_BASE, 32);
  }

  lemma OneRegister(s: Space, t: Space, regs: Space, regs': Space, constants: seq<nat>, adds: bool, subs: bool, at: nat, r: nat)
    requires Prepared(s, regs, constants, adds, subs) && Register(at) && Register(r) && r != at && Same(s, t, Span(at, 32))
    requires REG_BASE + REGISTERS <= |t| && regs' == t[REG_BASE..REG_BASE + REGISTERS]
    ensures RegisterIs(regs', r, RegisterOf(regs, r))
  {
    hide Val, Prepared;
    assert r + 32 <= at || at + 32 <= r;
    RegisterBits(s, regs, constants, adds, subs, r);
    SameVal(s, t, Span(at, 32), r, 32);
    ValMove(t, r, regs', r - REG_BASE, 32);
  }

  function RegisterOf(regs: Space, r: nat): nat {
    if REG_BASE <= r && r - REG_BASE + 32 <= |regs| then Val(regs, r - REG_BASE, 32) else 0
  }

  ghost predicate RegisterIs(regs: Space, r: nat, value: nat) {
    REG_BASE <= r && r - REG_BASE + 32 <= |regs| && RegisterOf(regs, r) == value
  }

  ghost predicate RegisterSet(regs: Space, regs': Space, at: nat, value: nat) {
    && |regs| == |regs'| == REGISTERS && RegisterIs(regs', at, value)
    && forall r: nat {:trigger Register(r)} | Register(r) && r != at :: RegisterIs(regs', r, RegisterOf(regs, r))
  }

  lemma BesideRegisters(s: Space, t: Space, regs: Space, regs': Space, constants: seq<nat>, adds: bool, subs: bool, at: nat)
    requires Prepared(s, regs, constants, adds, subs) && Register(at) && Same(s, t, Span(at, 32))
    requires regs' == t[REG_BASE..REG_BASE + REGISTERS]
    ensures Prepared(t, regs', constants, adds, subs)
  {
    BlankKept(s, t, Span(at, 32), ZERO_LAYER, ZERO_BITS);
    hide Blank;
    var area := Span(at, 32);
    hide Val, Pow2;
    SameVal(s, t, area, AND_TABLE, 4);
    SameVal(s, t, area, OR_TABLE, 4);
    SameVal(s, t, area, XOR_TABLE, 4);
    SameVal(s, t, area, EQ_TABLE, 8);
    SameVal(s, t, area, LT_TABLE, 8);
    if adds { AdderTableKept(s, t, area, ADD_TABLE, false); }
    if subs { AdderTableKept(s, t, area, SUB_TABLE, true); }
    forall i {:trigger constants[i]} | 0 <= i < |constants| ensures Word(t, ConstantAt(i)) == constants[i] {
      SameVal(s, t, area, ConstantAt(i), 32);
    }
  }

  lemma RegisterBits(s: Space, regs: Space, constants: seq<nat>, adds: bool, subs: bool, r: nat)
    requires Prepared(s, regs, constants, adds, subs) && Register(r)
    ensures |regs| == REGISTERS && r - REG_BASE + 32 <= |regs| && r + 32 <= |s| && Val(regs, r - REG_BASE, 32) == Val(s, r, 32)
  {
    var k := r - REG_BASE;
    forall p {:trigger regs[p]} | k <= p < k + 32 ensures regs[p] == s[p - k + r] {
      assert s[REG_BASE + p] == regs[p];
    }
    ValMove(regs, k, s, r, 32);
  }

  /** A constant written behind the others. */
  lemma ConstantPut(s: Space, t: Space, regs: Space, constants: seq<nat>, adds: bool, subs: bool, value: nat)
    requires Prepared(s, regs, constants, adds, subs) && |constants| < 256 && value < WORD
    requires Same(s, t, Span(ConstantAt(|constants|), 32))
    requires ConstantAt(|constants|) + 32 <= |t| && Val(t, ConstantAt(|constants|), 32) == value % Pow2(32)
    ensures Prepared(t, regs, constants + [value], adds, subs)
  {
    BlankKept(s, t, Span(ConstantAt(|constants|), 32), ZERO_LAYER, ZERO_BITS);
    hide Blank;
    var at := ConstantAt(|constants|);
    var area := Span(at, 32);
    Pow2Word();
    hide Val, Pow2;
    SameVal(s, t, area, AND_TABLE, 4);
    SameVal(s, t, area, OR_TABLE, 4);
    SameVal(s, t, area, XOR_TABLE, 4);
    SameVal(s, t, area, EQ_TABLE, 8);
    SameVal(s, t, area, LT_TABLE, 8);
    if adds { AdderTableKept(s, t, area, ADD_TABLE, false); }
    if subs { AdderTableKept(s, t, area, SUB_TABLE, true); }
    var now := constants + [value];
    forall i {:trigger now[i]} | 0 <= i < |now| ensures Word(t, ConstantAt(i)) == now[i] {
      if i < |constants| {
        assert constants[i] == now[i];
        SameVal(s, t, area, ConstantAt(i), 32);
      }
    }
  }

  /** A label bound to the layer that has just been started. */
  lemma LabelBound(c: Config, begin: nat, sheet: Sheet, layer: nat, labels: seq<Option<nat>>, jumps: seq<JumpEntry>,
                   branches: seq<nat>, b: Builder, tag: nat)
    requires c.Valid() && Laid(c, begin, sheet, b) && layer == LayerAt(c, begin, |b.done|) && tag < |labels|
    requires LabelsTied(c, begin, labels, b) && JumpsTied(c, begin, jumps, branches, b)
    ensures var b' := b.(labels := b.labels[tag := |b.done|]);
      Laid(c, begin, sheet, b') && LabelsTied(c, begin, labels[tag := Some(layer)], b') && JumpsTied(c, begin, jumps, branches, b')
  {
    hide LayerAt, OpsRows, Finished;
    var b' := b.(labels := b.labels[tag := |b.done|]);
    forall j {:trigger jumps[j]} | 0 <= j < |jumps| ensures JumpTied(c, begin, jumps[j], j, branches[j], b') {
      assert JumpTied(c, begin, jumps[j], j, branches[j], b);
    }
  }

  lemma ReportBound(c: Config, begin: nat, sheet: Sheet, labels: seq<Option<nat>>, jumps: seq<JumpEntry>, branches: seq<nat>, b: Builder)
    requires c.Valid() && Laid(c, begin, sheet, b) && |labels| <= RETURN
    requires LabelsTied(c, begin, labels, b) && JumpsTied(c, begin, jumps, branches, b)
    ensures var b' := b.(labels := b.labels[RETURN := |b.done|]);
      && Laid(c, begin, sheet, b') && LabelsTied(c, begin, labels, b') && JumpsTied(c, begin, jumps, branches, b')
      && ReportTied(c, begin, LayerAt(c, begin, |b.done|), b')
  {
    hide LayerAt, OpsRows, Finished;
    var b' := b.(labels := b.labels[RETURN := |b.done|]);
    forall j {:trigger jumps[j]} | 0 <= j < |jumps| ensures JumpTied(c, begin, jumps[j], j, branches[j], b') {
      assert JumpTied(c, begin, jumps[j], j, branches[j], b);
    }
  }

  lemma JumpCount(c: Config, begin: nat, jumps: seq<JumpEntry>, branches: seq<nat>, b: Builder)
    requires c.Valid() && JumpsTied(c, begin, jumps, branches, b)
    ensures |jumps| == b.jumps
  {
  }

  /** The flag goes into bit 5 of the source of the row behind, whose copy goes into the source of the link. */
  function FlagRow(c: Config, slot: nat, flag: nat): Row
    requires c.Valid()
  {
    Row(1, (slot + 1) * c.RowBits() + 2 * c.ab - 1 + 5, flag)
  }

  function TableRow(c: Config, table: nat): Row
    requires c.Valid()
  {
    Row(c.ab, LINK * c.RowBits() + 2 * c.ab - 1, table)
  }

  lemma BranchRows(c: Config, exit: Exit, slot: nat)
    requires c.Valid() && exit.Branch?
    ensures OpRows(c, BranchOp(c, exit), slot) == [FlagRow(c, slot, exit.flag)] + [TableRow(c, exit.table)]
    ensures [] + [FlagRow(c, slot, exit.flag)] == [FlagRow(c, slot, exit.flag)]
  {
    OffsetIsProduct(c, slot + 1);
    OffsetIsProduct(c, LINK);
  }

  lemma PartlyLayers(c: Config, begin: nat, sheet: Sheet, b: Builder, rows: seq<Row>)
    requires c.Valid() && Partly(c, begin, sheet, b, rows)
    ensures |sheet.layers| == |b.done| + 1 && |sheet.layers[|sheet.layers| - 1]| == SLOTS
  {
  }

  /** A layer closed by a branch or a jump, with its entry in the list. */
  lemma JumpClosed(c: Config, begin: nat, was: Sheet, sheet: Sheet, labels: seq<Option<nat>>, jumps: seq<JumpEntry>,
                     branches: seq<nat>, b: Builder, exit: Exit, layer: nat, next: nat)
    requires c.Valid() && Turns(exit) && Partly(c, begin, was, b, ExitRows(c, b, exit))
    requires |was.layers[|was.layers| - 1]| == SLOTS && sheet == NextSheet(c, begin, was)
    requires |jumps| > 0 && |branches| > 0 && branches[|branches| - 1] == |b.done|
    requires LabelsTied(c, begin, labels, b) && JumpsTied(c, begin, jumps[..|jumps| - 1], branches[..|branches| - 1], b)
    requires layer == LayerAt(c, begin, |b.done|) && next == LayerAt(c, begin, |b.done| + 1)
    requires exit.Branch? ==> exit.table == TableAt(|jumps| - 1)
    requires jumps[|jumps| - 1] == if exit.Branch? then JumpEntry(layer, exit.tag, exit.table, next, exit.inverted) else JumpEntry(layer, exit.tag, 0, 0, false)
    ensures var b' := Close(b, exit).(jumps := b.jumps + 1);
      Laid(c, begin, sheet, b') && LabelsTied(c, begin, labels, b') && JumpsTied(c, begin, jumps, branches, b')
  {
    hide Finished, LayerAt, OpsRows, OpRows;
    PartlyClose(c, begin, was, b, exit);
    var b' := Close(b, exit).(jumps := b.jumps + 1);
    forall j {:trigger jumps[j]} | 0 <= j < |jumps| ensures JumpTied(c, begin, jumps[j], j, branches[j], b') {
      if j < |jumps| - 1 {
        assert jumps[..|jumps| - 1][j] == jumps[j];
        assert JumpTied(c, begin, jumps[j], j, branches[j], b);
      }
    }
    forall i {:trigger b'.done[i]} | 0 <= i < |b'.done| && Turns(b'.done[i].exit) ensures i in branches {
      if i < |b.done| {
        assert b'.done[i] == b.done[i];
        assert i in branches[..|branches| - 1];
      }
    }
  }

  predicate Overlaps(a: nat, an: nat, b: nat, bn: nat) {
    a < b + bn && b < a + an
  }

  /** What cs_copy_program_add32 asks of its addresses. */
  predicate AddAccepts(c: Config, layer: nat, begin: nat, limit: nat, bits: nat, a: Adder)
    requires c.Valid()
  {
    var at, width := [a.dst, a.left, a.right, a.table, a.temp, a.carry], [32, 32, 32, 16, 2, 1];
    && c.ab >= 5 && a.table % 16 == 0
    && (forall i | 0 <= i < 6 ::
          && at[i] + width[i] <= Pow2(c.ab)
          && !Overlaps(at[i], width[i], layer, c.LayerBits())
          && !Overlaps(at[i], width[i], 0, c.LayerBits())
          && (begin <= limit ==> !Overlaps(at[i], width[i], begin, limit - begin)))
    && (forall i, j | 0 <= j < i < 6 && 3 <= i :: !Overlaps(at[i], width[i], at[j], width[j]))
    && (a.dst == a.left || !Overlaps(a.dst, 32, a.left, 32))
    && (a.dst == a.right || !Overlaps(a.dst, 32, a.right, 32))
    && a.table + 16 <= bits && a.carry + 1 <= bits
  }

  /** Every placement that passes the tests is one the emitted copies work for, aliasing included. */
  lemma AcceptedPlaced(c: Config, code: Code, s: Space, layer: nat, bits: nat, a: Adder)
    requires c.Valid() && c.LayerBits() <= code.base && code.fixed == code.base < code.limit && |s| == Pow2(c.ab)
    requires AddAccepts(c, layer, code.base, code.limit, bits, a)
    ensures AdderPlaced(c, code, s, a)
  {
    var at, width := [a.dst, a.left, a.right, a.table, a.temp, a.carry], [32, 32, 32, 16, 2, 1];
    OneAccepted(c, layer, code, bits, a, 0);
    OneAccepted(c, layer, code, bits, a, 1);
    OneAccepted(c, layer, code, bits, a, 2);
    OneAccepted(c, layer, code, bits, a, 3);
    OneAccepted(c, layer, code, bits, a, 4);
    OneAccepted(c, layer, code, bits, a, 5);
    assert at[0] == a.dst && at[1] == a.left && at[2] == a.right && at[3] == a.table && at[4] == a.temp && at[5] == a.carry;
    hide Pow2;
    assert !Overlaps(at[3], 16, at[0], 32) && !Overlaps(at[4], 2, at[3], 16) && !Overlaps(at[5], 1, at[3], 16);
    assert !Overlaps(at[4], 2, at[0], 32) && !Overlaps(at[4], 2, at[1], 32) && !Overlaps(at[4], 2, at[2], 32);
    assert !Overlaps(at[5], 1, at[0], 32) && !Overlaps(at[5], 1, at[1], 32) && !Overlaps(at[5], 1, at[2], 32);
    assert !Overlaps(at[5], 1, at[4], 2);
  }

  lemma OneAccepted(c: Config, layer: nat, code: Code, bits: nat, a: Adder, i: nat)
    requires c.Valid() && code.base < code.limit && AddAccepts(c, layer, code.base, code.limit, bits, a) && i < 6
    ensures var at, width := [a.dst, a.left, a.right, a.table, a.temp, a.carry], [32, 32, 32, 16, 2, 1];
      && c.LayerBits() <= at[i] && at[i] + width[i] <= Pow2(c.ab)
      && (at[i] + width[i] <= code.base || code.limit <= at[i])
  {
    hide Pow2;
  }

  /** The first k entries of an adder's table are in place. */
  ghost predicate Entries(s: Space, table: nat, subtract: bool, k: nat) {
    k <= 8 && table + 16 <= |s| && forall j | 0 <= j < k :: EntryHolds(s, table, subtract, j)
  }

  lemma EntryBits()
    ensures Pow2(2) == 4
  {
  }

  /** One table entry written behind the others. */
  lemma EntryPut(s0: Space, s: Space, t: Space, table: nat, subtract: bool, i: nat)
    requires table + 16 <= |s0| && i < 8 && Same(s0, s, Span(table, 16)) && Same(s, t, Span(table + 2 * i, 2))
    requires |s| == |s0| && |t| == |s0|
    requires Entries(s, table, subtract, i)
    requires Val(t, table + 2 * i, 2) == AdderEntry(subtract, i % 2, i / 2 % 2, i / 4) % Pow2(2)
    ensures Same(s0, t, Span(table, 16)) && Entries(t, table, subtract, i + 1)
  {
    hide Val, Pow2, Same, Span, AdderEntry;
    EntryBits();
    EntrySmall(subtract, i);
    SpanInside(table, 16, table + 2 * i, 2);
    SameThen(s0, s, t, Span(table, 16), Span(table + 2 * i, 2), Span(table, 16));
    forall j | 0 <= j < i + 1 ensures EntryHolds(t, table, subtract, j) {
      if j < i {
        assert EntryHolds(s, table, subtract, j);
        SpansApart(table + 2 * j, 2, table + 2 * i, 2);
        SameVal(s, t, Span(table + 2 * i, 2), table + 2 * j, 2);
      }
    }
  }

  lemma EntrySmall(subtract: bool, i: nat)
    requires i < 8
    ensures AdderEntry(subtract, i % 2, i / 2 % 2, i / 4) % 4 == AdderEntry(subtract, i % 2, i / 2 % 2, i / 4)
  {
  }

  lemma AdderPut(s0: Space, s: Space, t: Space, regs: Space, constants: seq<nat>, adds: bool, subs: bool, subtract: bool)
    requires Prepared(s0, regs, constants, adds, subs)
    requires var table := if subtract then SUB_TABLE else ADD_TABLE;
      Same(s0, s, Span(table, 16)) && |s| == |s0| && Entries(s, table, subtract, 8)
    requires Same(s, t, Span(CARRY, 1))
    ensures Prepared(t, regs, constants, adds || !subtract, subs || subtract)
  {
    var table := if subtract then SUB_TABLE else ADD_TABLE;
    assert AdderTable(s, table, subtract);
    AdderTableKept(s, t, Span(CARRY, 1), table, subtract);
    AdderApart();
    var area := Span(table, 16) + Span(CARRY, 1);
    hide Val, Span;
    SameThen(s0, s, t, Span(table, 16), Span(CARRY, 1), area);
    BesideTables(s0, t, area, regs, constants);
    if adds && subtract { AdderTableKept(s0, t, area, ADD_TABLE, false); }
    if subs && !subtract { AdderTableKept(s0, t, area, SUB_TABLE, true); }
  }

  lemma AdderApart()
    ensures Span(ADD_TABLE, 16) !! Span(SUB_TABLE, 16) && Span(ADD_TABLE, 16) !! Span(CARRY, 1)
    ensures Span(SUB_TABLE, 16) !! Span(CARRY, 1)
    ensures Span(ADD_TABLE, 16) <= Span(ADD_TABLE, 32) && Span(SUB_TABLE, 16) <= Span(ADD_TABLE, 32)
  {
  }

  /** The other tables, constants and registers lie apart from the adder's. */
  lemma BesideTables(s: Space, t: Space, area: iset<int>, regs: Space, constants: seq<nat>)
    requires Prepared(s, regs, constants, false, false) && Same(s, t, area)
    requires area <= Span(ADD_TABLE, 32) + Span(CARRY, 1)
    ensures Prepared(t, regs, constants, false, false)
  {
    BlankKept(s, t, area, ZERO_LAYER, ZERO_BITS);
    BlankKept(s, t, area, CMP_EQ, 5);
    hide Blank;
    hide Val;
    SameVal(s, t, area, AND_TABLE, 4);
    SameVal(s, t, area, OR_TABLE, 4);
    SameVal(s, t, area, XOR_TABLE, 4);
    SameVal(s, t, area, EQ_TABLE, 8);
    SameVal(s, t, area, LT_TABLE, 8);
    forall i {:trigger constants[i]} | 0 <= i < |constants| ensures Word(t, ConstantAt(i)) == constants[i] {
      SameVal(s, t, area, ConstantAt(i), 32);
    }
  }

  function LastGates(left: nat, right: nat): seq<Op> {
    [GateOp(Xor, CMP_SIGN, left + 31, right + 31), GateOp(Xor, CMP_LTS, CMP_SIGN, CMP_LTU),
     GateOp(Or, CMP_LEU, CMP_LTU, CMP_EQ), GateOp(Or, CMP_LES, CMP_LTS, CMP_EQ)]
  }

  lemma CompareSplit(left: nat, right: nat)
    ensures CompareOps(left, right) == BitsOps(left, right, 32) + LastGates(left, right)
  {
    hide BitsOps, GateOp;
    var x := BitsOps(left, right, 32);
    var a, b, c := GateOp(Xor, CMP_SIGN, left + 31, right + 31), GateOp(Xor, CMP_LTS, CMP_SIGN, CMP_LTU), GateOp(Or, CMP_LEU, CMP_LTU, CMP_EQ);
    FourMore(x, a, b, c, GateOp(Or, CMP_LES, CMP_LTS, CMP_EQ));
  }

  lemma FourMore(x: seq<Op>, a: Op, b: Op, c: Op, d: Op)
    ensures x + [a] + [b] + [c] + [d] == x + [a, b, c, d]
  {
  }

  lemma {:induction false} ChunksTwice(c: Config, b: Builder, xs: seq<seq<Op>>, ys: seq<seq<Op>>)
    requires c.Valid()
    ensures EmitChunks(c, EmitChunks(c, b, xs), ys) == EmitChunks(c, b, xs + ys)
    decreases |ys|
  {
    hide EmitChunk;
    if ys == [] {
      assert xs + ys == xs;
    } else {
      ChunksTwice(c, b, xs, ys[..|ys| - 1]);
      assert (xs + ys)[..|xs + ys| - 1] == xs + ys[..|ys| - 1];
    }
  }

  lemma EmitTwice(c: Config, b: Builder, xs: seq<Op>, ys: seq<Op>)
    requires c.Valid()
    ensures EmitChunks(c, EmitChunks(c, b, Singles(xs)), Singles(ys)) == EmitChunks(c, b, Singles(xs + ys))
  {
    hide EmitChunks, Singles;
    SinglesAppend(xs, ys);
    ChunksTwice(c, b, Singles(xs), Singles(ys));
  }

  lemma SinglesAppend(xs: seq<Op>, ys: seq<Op>)
    ensures Singles(xs) + Singles(ys) == Singles(xs + ys)
  {
  }

  lemma EmitNone(c: Config, b: Builder)
    requires c.Valid()
    ensures EmitChunks(c, b, Singles([])) == b
  {
  }

  lemma EmitSingle(c: Config, b: Builder, ops: seq<Op>, i: nat)
    requires c.Valid() && i < |ops|
    ensures EmitChunks(c, b, Singles(ops[..i + 1])) == EmitChunk(c, EmitChunks(c, b, Singles(ops[..i])), [ops[i]])
  {
    hide EmitChunk;
    assert Singles(ops[..i + 1])[..i] == Singles(ops[..i]);
  }

  /** The four entries of a gate's table as a number. */
  function Truth(g: Gate): nat {
    match g
    case And => 8
    case Or => 14
    case Xor => 6
  }

  lemma TruthPut(s: Space, t: Space, regs: Space, constants: seq<nat>, adds: bool, subs: bool, g: Gate)
    requires Prepared(s, regs, constants, adds, subs) && Same(s, t, Span(g.Table(), 4)) && g.Table() + 4 <= |t| && Val(t, g.Table(), 4) == Truth(g) % Pow2(4)
    ensures Prepared(t, regs, constants, adds, subs)
  {
    SmallPowers();
    hide Val;
    ValFour(s, g.Table());
    ValFour(t, g.Table());
    hide Prepared, Pow2;
    forall p | 0 <= p < |s| ensures s[p] == t[p] {
    }
    assert s == t;
  }

  lemma CurEmpty(c: Config, b: Builder)
    requires c.Valid()
    ensures SlotOfBuilder(c, b) == FIRST <==> b.cur == []
  {
    NoOpsRows(c);
    if b.cur != [] {
      assert |OpsRows(c, b.cur)| > 0;
    }
  }

  lemma {:induction false} LowBitwise(g: Gate, dst: nat, left: nat, right: nat, k: nat)
    requires k <= 32
    ensures RowCount(T.BitwiseOps(g, dst, left, right, k)) == 3 * k
    ensures LowWord(dst) && LowWord(left) && LowWord(right) ==> AllLow(T.BitwiseOps(g, dst, left, right, k))
  {
    hide T.BitwiseOps, LowOp, RowCount;
    if k == 0 {
      T.BitwiseSnoc(g, dst, left, right, 0);
      RowCountNone();
    } else {
      LowBitwise(g, dst, left, right, k - 1);
      T.BitwiseSnoc(g, dst, left, right, k - 1);
      RowCountSnoc(T.BitwiseOps(g, dst, left, right, k - 1), GateOp(g, dst + k - 1, left + k - 1, right + k - 1));
      if LowWord(dst) {
        LowGate(g, dst + k - 1, left + k - 1, right + k - 1);
      }
    }
  }

  lemma RowCountNone()
    ensures RowCount([]) == 0
  {
  }

  lemma MoreOps(cur: seq<Op>, ops: seq<Op>, i: nat)
    requires i < |ops|
    ensures cur + ops[..i] + [ops[i]] == cur + ops[..i + 1]
  {
  }

  lemma LowLookup(op: Op)
    ensures LowOp(op) ==> AllLow([op]) && RowCount([op]) <= 252
  {
    RowCountOne(op);
  }

  lemma AcceptReady(c: Config, layer: nat, begin: nat, limit: nat, bits: nat, subtract: bool, dst: nat, left: nat, right: nat)
    requires c.Valid() && AdderReady(dst, left, right) && BRANCH_TABLE <= begin <= layer && begin <= bits <= Pow2(c.ab)
    requires c.LayerBits() < Pow2(c.ab - 1)
    ensures AddAccepts(c, layer, begin, limit, bits, WordAdder(subtract, dst, left, right))
  {
    hide Pow2, AdderReady, Overlaps, WordAdder;
    EnoughBits(c);
    WordsApart(subtract, dst, left, right);
    var a := WordAdder(subtract, dst, left, right);
    var at, width := [a.dst, a.left, a.right, a.table, a.temp, a.carry], [32, 32, 32, 16, 2, 1];
    forall i | 0 <= i < 6
      ensures at[i] + width[i] <= Pow2(c.ab) && !Overlaps(at[i], width[i], layer, c.LayerBits()) && !Overlaps(at[i], width[i], 0, c.LayerBits())
      ensures begin <= limit ==> !Overlaps(at[i], width[i], begin, limit - begin)
    {
      assert Amid(at[i], width[i]);
      BehindProcessor(c, at[i], width[i], layer);
      if begin <= limit { InFront(at[i], width[i], begin, limit - begin); }
    }
    forall i, j | 0 <= j < i < 6 && 3 <= i ensures !Overlaps(at[i], width[i], at[j], width[j]) {
      assert i == 3 || i == 4 || i == 5;
    }
    AmidEnds(a.table, 16);
    AmidEnds(a.carry, 1);
  }

  lemma AmidEnds(at: nat, n: nat)
    requires Amid(at, n)
    ensures at + n <= BRANCH_TABLE
  {
  }

  /** Between the processor and the branch tables. */
  predicate Amid(at: nat, n: nat) {
    CONSTANT_BASE <= at && at + n <= BRANCH_TABLE
  }

  lemma InFront(at: nat, n: nat, b: nat, m: nat)
    requires at + n <= b
    ensures !Overlaps(at, n, b, m)
  {
  }

  lemma BehindProcessor(c: Config, at: nat, n: nat, layer: nat)
    requires c.Valid() && CONSTANT_BASE <= at && at + n <= layer
    ensures !Overlaps(at, n, 0, c.LayerBits()) && !Overlaps(at, n, layer, c.LayerBits())
  {
  }

  lemma WordsApart(subtract: bool, dst: nat, left: nat, right: nat)
    requires AdderReady(dst, left, right)
    ensures var a := WordAdder(subtract, dst, left, right);
      && a.dst == dst && a.left == left && a.right == right && a.table % 16 == 0
      && Amid(dst, 32) && Amid(left, 32) && Amid(right, 32) && Amid(a.table, 16) && Amid(a.temp, 2) && Amid(a.carry, 1)
      && !Overlaps(a.table, 16, dst, 32) && !Overlaps(a.table, 16, left, 32) && !Overlaps(a.table, 16, right, 32)
      && !Overlaps(a.temp, 2, dst, 32) && !Overlaps(a.temp, 2, left, 32) && !Overlaps(a.temp, 2, right, 32)
      && !Overlaps(a.carry, 1, dst, 32) && !Overlaps(a.carry, 1, left, 32) && !Overlaps(a.carry, 1, right, 32)
      && !Overlaps(a.temp, 2, a.table, 16) && !Overlaps(a.carry, 1, a.table, 16) && !Overlaps(a.carry, 1, a.temp, 2)
      && (dst == left || !Overlaps(dst, 32, left, 32)) && (dst == right || !Overlaps(dst, 32, right, 32))
  {
  }

  lemma ReadyLow(dst: nat, left: nat, right: nat)
    ensures AdderReady(dst, left, right) ==> LowWord(dst) && LowWord(left) && LowWord(right)
  {
  }

  lemma LowCompare(left: nat, right: nat, bit: nat)
    requires bit < 32
    ensures LowWord(left) && LowWord(right) ==>
      LowOp(LessOp(CMP_LTU, left + bit, right + bit)) && LowOp(EqualOp(CMP_EQ, left + bit, right + bit))
  {
    LowThree(CMP_LTU, LT_TABLE, left + bit, right + bit, CMP_LTU);
    LowThree(CMP_EQ, EQ_TABLE, left + bit, right + bit, CMP_EQ);
  }

  lemma LowThree(dst: nat, table: nat, a: nat, b: nat, d: nat)
    requires dst < BRANCH_TABLE && table < BRANCH_TABLE && d < BRANCH_TABLE
    ensures a < BRANCH_TABLE && b < BRANCH_TABLE ==> LowOp(Lookups.Lookup(1, dst, table, 0, [a, b, d]))
  {
    var inputs := [a, b, d];
    var op := Lookups.Lookup(1, dst, table, 0, inputs);
    if a < BRANCH_TABLE && b < BRANCH_TABLE {
      forall p {:trigger p in op.patches} | p in op.patches ensures p.width == 1 && p.off <= 3 && p.from < BRANCH_TABLE {
        var i :| 0 <= i < |op.patches| && op.patches[i] == p;
        assert inputs[i] == p.from;
      }
    }
  }

  lemma LowGate(g: Gate, dst: nat, a: nat, b: nat)
    requires dst < BRANCH_TABLE
    ensures a < BRANCH_TABLE && b < BRANCH_TABLE ==> LowOp(GateOp(g, dst, a, b))
  {
    var inputs := [a, b];
    var op := GateOp(g, dst, a, b);
    if a < BRANCH_TABLE && b < BRANCH_TABLE {
      forall p {:trigger p in op.patches} | p in op.patches ensures p.width == 1 && p.off <= 3 && p.from < BRANCH_TABLE {
        var i :| 0 <= i < |op.patches| && op.patches[i] == p;
        assert inputs[i] == p.from;
      }
    }
  }

  lemma LowLast(left: nat, right: nat)
    ensures LowWord(left) && LowWord(right) ==> AllLow(LastGates(left, right))
    ensures |LastGates(left, right)| == 4
  {
    LowGate(Xor, CMP_SIGN, left + 31, right + 31);
    LowGate(Xor, CMP_LTS, CMP_SIGN, CMP_LTU);
    LowGate(Or, CMP_LEU, CMP_LTU, CMP_EQ);
    LowGate(Or, CMP_LES, CMP_LTS, CMP_EQ);
    hide GateOp, LowOp;
  }

  /** The rows of an adder fit one layer. */
  lemma LowAdder(a: Adder)
    requires a.table + 16 <= BRANCH_TABLE && a.temp + 2 <= BRANCH_TABLE && a.carry < BRANCH_TABLE
    ensures RowCount(AdderOps(a, 32)) == 193
    ensures LowWord(a.dst) && LowWord(a.left) && LowWord(a.right) ==> AllLow(AdderOps(a, 32))
  {
    AdderRows(a, 32);
  }

  lemma {:induction false} AdderRows(a: Adder, k: nat)
    requires a.table + 16 <= BRANCH_TABLE && a.temp + 2 <= BRANCH_TABLE && a.carry < BRANCH_TABLE && k <= 32
    ensures RowCount(AdderOps(a, k)) == 1 + 6 * k
    ensures LowWord(a.dst) && LowWord(a.left) && LowWord(a.right) ==> AllLow(AdderOps(a, k))
    decreases k
  {
    hide AdderOps, RowCount, AllLow;
    if k == 0 {
      AdderFirst(a);
    } else {
      AdderRows(a, k - 1);
      AdderNextRows(a, k - 1);
    }
  }

  lemma AdderFirst(a: Adder)
    ensures RowCount(AdderOps(a, 0)) == 1
    ensures a.table + 16 <= BRANCH_TABLE && a.carry < BRANCH_TABLE ==> AllLow(AdderOps(a, 0))
  {
    assert Flat([]) == [];
    assert AdderOps(a, 0) == [Plain(1, a.carry, a.table)];
    RowCountOne(Plain(1, a.carry, a.table));
  }

  lemma AdderNextRows(a: Adder, j: nat)
    requires a.table + 16 <= BRANCH_TABLE && a.temp + 2 <= BRANCH_TABLE && a.carry < BRANCH_TABLE && j < 32
    ensures RowCount(AdderOps(a, j + 1)) == RowCount(AdderOps(a, j)) + 6
    ensures AllLow(AdderOps(a, j)) && LowWord(a.dst) && LowWord(a.left) && LowWord(a.right) ==> AllLow(AdderOps(a, j + 1))
  {
    hide AdderOps, RowCount, LowOp, AllLow;
    AdderOpsSnoc(a, j);
    LowCell(a, j);
    var x := AdderOps(a, j);
    var p := Lookups.Lookup(2, a.temp, a.table, 1, [a.left + j, a.right + j, a.carry]);
    var q, r := Plain(1, a.dst + j, a.temp), Plain(1, a.carry, a.temp + 1);
    ThreeMore(x, p, q, r);
  }

  lemma ThreeMore(x: seq<Op>, p: Op, q: Op, r: Op)
    ensures RowCount(x + [p] + [q] + [r]) == RowCount(x) + |p.patches| + |q.patches| + |r.patches| + 3
    ensures AllLow(x) && LowOp(p) && LowOp(q) && LowOp(r) ==> AllLow(x + [p] + [q] + [r])
  {
    hide RowCount, LowOp, AllLow;
    RowCountSnoc(x, p);
    RowCountSnoc(x + [p], q);
    RowCountSnoc(x + [p] + [q], r);
    AllLowSnoc(x, p);
    AllLowSnoc(x + [p], q);
    AllLowSnoc(x + [p] + [q], r);
  }

  lemma AllLowSnoc(ops: seq<Op>, op: Op)
    ensures AllLow(ops) && LowOp(op) ==> AllLow(ops + [op])
  {
    hide LowOp;
  }

  lemma LowCell(a: Adder, j: nat)
    requires a.table + 16 <= BRANCH_TABLE && a.temp + 2 <= BRANCH_TABLE && a.carry < BRANCH_TABLE && j < 32
    ensures LowWord(a.dst) && LowWord(a.left) && LowWord(a.right) ==>
      && LowOp(Lookups.Lookup(2, a.temp, a.table, 1, [a.left + j, a.right + j, a.carry]))
      && LowOp(Plain(1, a.dst + j, a.temp)) && LowOp(Plain(1, a.carry, a.temp + 1))
  {
    var inputs := [a.left + j, a.right + j, a.carry];
    var op := Lookups.Lookup(2, a.temp, a.table, 1, inputs);
    if LowWord(a.dst) && LowWord(a.left) && LowWord(a.right) {
      forall p {:trigger p in op.patches} | p in op.patches ensures p.width == 1 && p.off <= 3 && p.from < BRANCH_TABLE {
        var i :| 0 <= i < |op.patches| && op.patches[i] == p;
        assert inputs[i] == p.from;
      }
    }
  }

  lemma BranchFits(c: Config, begin: nat, slot: nat, flag: nat, table: nat)
    requires c.Valid() && slot + 1 < SLOTS && BRANCH_TABLE <= begin <= Pow2(c.ab) && c.LayerBits() < Pow2(c.ab - 1)
    ensures flag < BRANCH_TABLE ==> RowValid(c, FlagRow(c, slot, flag))
    ensures table + 64 <= begin ==> RowValid(c, TableRow(c, table))
  {
    EnoughBits(c);
    PatchInLayer(c, slot + 1);
    PatchInLayer(c, LINK);
    hide Pow2;
  }

  lemma LowMultiply(dst: nat, src: nat, zero: nat, one: nat)
    ensures Register(dst) && Register(src) && LowWord(zero) && LowWord(one) ==>
      AllLow(MulStart(dst, src, zero, one)) && AllLow([Plain(32, dst, MUL_ACC)])
    ensures |MulStart(dst, src, zero, one)| == 4
  {
  }

  lemma LowRound(zero: nat)
    ensures AllLow(AndOps(32)) && |AndOps(32)| == 32 && |MulShiftOps(zero)| == 7
    ensures LowWord(zero) ==> AllLow(MulShiftOps(zero))
    ensures AdderReady(MUL_ACC, MUL_ACC, MUL_ADDEND)
  {
    forall j | 0 <= j < 32 ensures LowOp(AndOps(32)[j]) {
      LowGate(And, MUL_ADDEND + j, MUL_LEFT + j, MUL_RIGHT);
    }
  }

  lemma LowEnter(dst: nat, src: nat, zero: nat, one: nat)
    ensures |DivStart(dst, src)| == 5 && |DivInit(zero, one)| == 3
    ensures Register(dst) && Register(src) ==> AllLow(DivStart(dst, src))
    ensures IsConstant(zero) && IsConstant(one) ==> AllLow(DivInit(zero, one))
  {
  }

  lemma LowSizes(zero: nat)
    ensures IsConstant(zero) ==> forall value | value in {DIV_NUM, DIV_DEN, DIV_REM, DIV_QUO} :: AdderReady(value, zero, value)
  {
  }

  lemma LowTest(zero: nat, one: nat)
    ensures |DivShiftOps(zero)| == 7 && LowWord(DIV_REM) && LowWord(DIV_DEN)
    ensures IsConstant(zero) ==> AllLow(DivShiftOps(zero))
    ensures |TestGates(one)| == 2 && (IsConstant(one) ==> AllLow(TestGates(one)))
  {
    LowGate(Xor, DIV_REDUCE, CMP_LTU, one);
    LowGate(Or, DIV_REDUCE, DIV_REDUCE, DIV_OVERFLOW);
  }

  lemma LowReduce(one: nat)
    ensures AdderReady(DIV_REM, DIV_REM, DIV_DEN)
    ensures IsConstant(one) ==> AllLow([Plain(1, DIV_QUO, one)]) && RowCount([Plain(1, DIV_QUO, one)]) <= 252
  {
    RowCountOne(Plain(1, DIV_QUO, one));
  }

  lemma LowMark(zero: nat)
    ensures |DivMarkOps(zero)| == 3 && (IsConstant(zero) ==> AllLow(DivMarkOps(zero)))
  {
  }

  lemma LowEnd(dst: nat, remainder: bool, zero: nat)
    ensures |EndOps(dst, ResultAt(remainder))| == 2 && (Register(dst) ==> AllLow(EndOps(dst, ResultAt(remainder))))
    ensures IsConstant(zero) ==> AdderReady(ResultAt(remainder), zero, ResultAt(remainder))
  {
  }

  lemma LowSign(zero: nat, one: nat)
    ensures AllLow([Plain(1, DIV_SIGN, DIV_NUM_SIGN)]) && AllLow([GateOp(Xor, DIV_SIGN, DIV_NUM_SIGN, DIV_DEN_SIGN)])
    ensures IsConstant(zero) ==> LowWord(DIV_DEN) && LowWord(zero)
    ensures IsConstant(one) ==>
      AllLow([GateOp(Xor, DIV_DEN_SIGN, CMP_EQ, one), GateOp(And, DIV_SIGN, DIV_SIGN, DIV_DEN_SIGN)])
  {
    LowGate(Xor, DIV_SIGN, DIV_NUM_SIGN, DIV_DEN_SIGN);
    LowGate(Xor, DIV_DEN_SIGN, CMP_EQ, one);
    LowGate(And, DIV_SIGN, DIV_SIGN, DIV_DEN_SIGN);
  }

  lemma OneLow(ops: seq<Op>, i: nat)
    requires i < |ops|
    ensures AllLow(ops) ==> AllLow([ops[i]]) && RowCount([ops[i]]) <= 252
  {
    if AllLow(ops) {
      assert LowOp(ops[i]);
      RowCountOne(ops[i]);
    }
  }

  lemma LowRow(c: Config, op: Op)
    requires c.Valid() && BRANCH_TABLE <= Pow2(c.ab) && c.LayerBits() < Pow2(c.ab - 1)
    ensures LowOp(op) ==> RowValid(c, Row(op.n, op.dst, op.src))
  {
  }

  lemma LowPatch(c: Config, op: Op, slot: nat, i: nat)
    requires c.Valid() && BRANCH_TABLE <= Pow2(c.ab) && c.LayerBits() < Pow2(c.ab - 1) && i < |op.patches| && slot < SLOTS
    ensures var p := op.patches[i];
      LowOp(op) ==> RowValid(c, PatchEntry(c, p, slot))
  {
    if LowOp(op) {
      assert op.patches[i] in op.patches;
      EnoughBits(c);
      hide Pow2;
      PatchInLayer(c, slot);
    }
  }

  lemma PatchInLayer(c: Config, slot: nat)
    requires c.Valid() && slot < SLOTS
    ensures slot * c.RowBits() + 3 * c.ab - 1 <= c.LayerBits()
  {
    SlotInLayer(c, 0, slot);
    OffsetIsProduct(c, slot);
  }

  /** The row that writes a patch into the operation at a slot of the active layer. */
  function PatchEntry(c: Config, p: Patch, slot: nat): Row
    requires c.Valid()
  {
    Row(p.width, slot * c.RowBits() + FieldBase(c, p.field) + p.off, p.from)
  }

  lemma OpRowAt(c: Config, op: Op, slot: nat, i: nat)
    requires c.Valid() && |op.patches| <= slot && i < |op.patches|
    ensures var p := op.patches[i];
      var rows := OpRows(c, op, slot - |op.patches|);
      rows[..i] + [PatchEntry(c, p, slot)] == rows[..i + 1]
  {
    OffsetIsProduct(c, slot);
    var rows := OpRows(c, op, slot - |op.patches|);
    assert rows[..i + 1] == rows[..i] + [rows[i]];
  }

  lemma OpRowLast(c: Config, op: Op, slot: nat)
    requires c.Valid() && |op.patches| <= slot
    ensures var rows := OpRows(c, op, slot - |op.patches|);
      rows[..|op.patches|] + [Row(op.n, op.dst, op.src)] == rows
  {
  }

  /** A sheet that ends with all rows of an operation holds the operation. */
  lemma OpDone(c: Config, begin: nat, sheet: Sheet, b: Builder, op: Op, slot: nat, rows: seq<Row>)
    requires c.Valid() && Partly(c, begin, sheet, b, rows) && rows == OpRows(c, op, slot)
    requires sheet.slot == slot + |rows|
    ensures Laid(c, begin, sheet, b.(cur := b.cur + [op]))
  {
    hide OpRows, Finished, OpsRows;
    assert slot == FIRST + |OpsRows(c, b.cur)|;
    assert rows == rows + [];
    PartlyOp(c, begin, sheet, b, op, []);
  }

  lemma CurGrows(c: Config, begin: nat, labels: seq<Option<nat>>, jumps: seq<JumpEntry>, branches: seq<nat>, b: Builder, b': Builder)
    requires c.Valid() && LabelsTied(c, begin, labels, b) && JumpsTied(c, begin, jumps, branches, b)
    requires b' == b.(cur := b'.cur)
    ensures LabelsTied(c, begin, labels, b') && JumpsTied(c, begin, jumps, branches, b')
  {
    hide LayerAt;
    forall j {:trigger jumps[j]} | 0 <= j < |jumps| ensures JumpTied(c, begin, jumps[j], j, branches[j], b') {
      assert JumpTied(c, begin, jumps[j], j, branches[j], b);
    }
  }

  lemma SlotIs(c: Config, begin: nat, sheet: Sheet, b: Builder)
    requires c.Valid() && Laid(c, begin, sheet, b)
    ensures sheet.slot == SlotOfBuilder(c, b)
    ensures |sheet.layers[|sheet.layers| - 1]| == SLOTS
  {
  }

  /** A layer closed for lack of room. */
  lemma ClosedNext(c: Config, begin: nat, was: Sheet, sheet: Sheet, labels: seq<Option<nat>>, jumps: seq<JumpEntry>,
                   branches: seq<nat>, b: Builder)
    requires c.Valid() && Laid(c, begin, was, b) && |was.layers[|was.layers| - 1]| == SLOTS && sheet == NextSheet(c, begin, was)
    requires LabelsTied(c, begin, labels, b) && JumpsTied(c, begin, jumps, branches, b)
    ensures var b' := Close(b, Next);
      Laid(c, begin, sheet, b') && LabelsTied(c, begin, labels, b') && JumpsTied(c, begin, jumps, branches, b')
  {
    hide Partly, LayerAt, OpsRows;
    PartlyClose(c, begin, was, b, Next);
    var b' := Close(b, Next);
    forall j {:trigger jumps[j]} | 0 <= j < |jumps| ensures JumpTied(c, begin, jumps[j], j, branches[j], b') {
      assert JumpTied(c, begin, jumps[j], j, branches[j], b);
    }
    forall i {:trigger b'.done[i]} | 0 <= i < |b'.done| && Turns(b'.done[i].exit) ensures i in branches {
      assert b'.done[i] == b.done[i];
    }
  }

  lemma {:induction false} RowCountPrefix(ops: seq<Op>, i: nat)
    requires i < |ops|
    ensures RowCount(ops[..i + 1]) == RowCount(ops[..i]) + |ops[i].patches| + 1 <= RowCount(ops)
    decreases |ops|
  {
    if i + 1 < |ops| {
      RowCountPrefix(ops[..|ops| - 1], i);
      assert ops[..|ops| - 1][..i + 1] == ops[..i + 1] && ops[..|ops| - 1][..i] == ops[..i];
    } else {
      assert ops[..i + 1] == ops;
    }
  }

  lemma BeginFits(c: Config, begin: nat, n: nat)
    requires c.Valid()
    ensures begin <= LayerAt(c, begin, n)
  {
  }

  lemma FirstLayer(c: Config, begin: nat)
    requires c.Valid()
    ensures Laid(c, begin, Sheet([EmptyLayer()], FIRST), Builder([], [], 0, map[]))
  {
    NoOpsRows(c);
    assert EmptyLayer() == Filled([], NOP);
  }

  lemma TablesPut(s0: Space, s1: Space, s2: Space, s3: Space, s4: Space, s5: Space)
    requires Blank(s0, 0, BRANCH_TABLE)
    requires Same(s0, s1, Span(EQ_TABLE, 8)) && Val(s1, EQ_TABLE, 8) == 144 % Pow2(8)
    requires Same(s1, s2, Span(LT_TABLE, 8)) && Val(s2, LT_TABLE, 8) == 212 % Pow2(8)
    requires Same(s2, s3, Span(XOR_TABLE, 4)) && Val(s3, XOR_TABLE, 4) == 6 % Pow2(4)
    requires Same(s3, s4, Span(AND_TABLE, 4)) && Val(s4, AND_TABLE, 4) == 8 % Pow2(4)
    requires Same(s4, s5, Span(OR_TABLE, 4)) && Val(s5, OR_TABLE, 4) == 14 % Pow2(4)
    ensures Prepared(s5, ZeroRegisters(), [], false, false)
  {
    hide Val;
    assert Pow2(4) == 16 && Pow2(8) == 256;
    hide Pow2;
    SameVal(s1, s2, Span(LT_TABLE, 8), EQ_TABLE, 8);
    SameVal(s2, s3, Span(XOR_TABLE, 4), EQ_TABLE, 8);
    SameVal(s2, s3, Span(XOR_TABLE, 4), LT_TABLE, 8);
    SameVal(s3, s4, Span(AND_TABLE, 4), EQ_TABLE, 8);
    SameVal(s3, s4, Span(AND_TABLE, 4), LT_TABLE, 8);
    SameVal(s3, s4, Span(AND_TABLE, 4), XOR_TABLE, 4);
    SameVal(s4, s5, Span(OR_TABLE, 4), EQ_TABLE, 8);
    SameVal(s4, s5, Span(OR_TABLE, 4), LT_TABLE, 8);
    SameVal(s4, s5, Span(OR_TABLE, 4), XOR_TABLE, 4);
    SameVal(s4, s5, Span(OR_TABLE, 4), AND_TABLE, 4);
  }

  lemma CodeFree(n: Capacity, size: nat)
    ensures Span(CodeBegin(n), size) !! Span(CONSTANT_BASE, BRANCH_TABLE - CONSTANT_BASE)
  {
  }
}
