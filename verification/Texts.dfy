/**
 * The text of a leaf function: what its statements mean for sixteen registers and the comparison's flags, the
 * items they become, and that running the items is executing the text, labels and branches included.
 */
module Texts {
  import opened Bits
  import opened Machine
  import opened Layers
  import opened Programs
  import opened Emission
  import opened Items
  import opened Tours
  import opened Lookups
  import opened CopyEmit
  import opened Arith
  import opened Compare
  import opened Multiply
  import opened Divide
  import opened Division
  import opened Shifts
  import opened Report
  import opened Writer
  import opened Prefix

  /** The sixteen registers, by number. */
  type Reg = i: nat | i < 16

  type Value = v: nat | v < WORD

  /** The words of all registers. */
  type Words = r: seq<nat> | |r| == 16 witness seq(16, i => 0)

  datatype Flag = Eq | Lts | Les | Ltu | Leu

  datatype Statement =
    | Label(name: nat)
    | GoTo(name: nat)
    | When(flag: Flag, inverted: bool, name: nat)
    | Return
    | Nothing
    | Test(left: Reg, right: Reg)
    | Load(dst: Reg, value: Value)
    | Copy(dst: Reg, src: Reg)
    | Extend(dst: Reg, src: Reg, wide: bool, signed: bool)
    | Change(dst: Reg, value: Value, down: bool)
    | Negate(dst: Reg, src: Reg)
    | Invert(dst: Reg, src: Reg)
    | Total(dst: Reg, src: Reg, subtract: bool)
    | Bitwise(gate: Gate, dst: Reg, src: Reg)
    | Mul(dst: Reg, src: Reg)
    | Div(dst: Reg, src: Reg, signed: bool, remainder: bool)
    | Shift(dst: Reg, src: Reg, direction: Direction)

  /** What a comparison leaves. */
  datatype Order = Order(eq: bool, lts: bool, les: bool, ltu: bool, leu: bool) {
    predicate Get(f: Flag) {
      match f
      case Eq => eq
      case Lts => lts
      case Les => les
      case Ltu => ltu
      case Leu => leu
    }
  }

  datatype State = State(regs: Words, order: Order) {
    predicate Valid() {
      forall i: Reg {:trigger regs[i]} :: regs[i] < WORD
    }

    function Set(i: Reg, v: nat): State {
      this.(regs := regs[i := v])
    }
  }

  /** Two words bit by bit. */
  function BitByBit(g: Gate, x: nat, y: nat): (r: nat)
    ensures r < Pow2(32)
  {
    Val(seq(32, i requires 0 <= i < 32 => g.Apply(Digit(x, i), Digit(y, i))), 0, 32)
  }

  /** The low byte or half of a word, with zeros above or copies of its highest bit. */
  function Extended(x: nat, wide: bool, signed: bool): (r: nat)
    ensures r < WORD
  {
    var m := if wide then 0x1_0000 else 0x100;
    var low := x % m;
    if signed && low >= m / 2 then low + (WORD - m) else low
  }

  /** What a statement that computes does. */
  function Do(st: Statement, s: State): (t: State)
    requires s.Valid()
    ensures t.Valid()
  {
    Pow2Word();
    hide Quotient, Remainder, Product, Shifted, BitByBit, Extended, Pow2;
    match st
    case Test(left, right) =>
      var x, y := s.regs[left], s.regs[right];
      s.(order := Order(x == y, Signed(x) < Signed(y), Signed(x) <= Signed(y), x < y, x <= y))
    case Load(dst, value) => s.Set(dst, value)
    case Copy(dst, src) => s.Set(dst, s.regs[src])
    case Extend(dst, src, wide, signed) => s.Set(dst, Extended(s.regs[src], wide, signed))
    case Change(dst, value, down) => s.Set(dst, ToWord(if down then WORD + s.regs[dst] - value else s.regs[dst] + value))
    case Negate(dst, src) => s.Set(dst, ToWord(WORD - s.regs[src]))
    case Invert(dst, src) => s.Set(dst, WORD - 1 - s.regs[src])
    case Total(dst, src, subtract) => s.Set(dst, ToWord(if subtract then WORD + s.regs[dst] - s.regs[src] else s.regs[dst] + s.regs[src]))
    case Bitwise(gate, dst, src) => s.Set(dst, BitByBit(gate, s.regs[dst], s.regs[src]))
    case Mul(dst, src) => s.Set(dst, Product(s.regs[dst], s.regs[src]) % WORD)
    case Div(dst, src, signed, remainder) =>
      DivisionBound(signed, s.regs[dst], s.regs[src]);
      s.Set(dst, if remainder then Remainder(signed, s.regs[dst], s.regs[src]) else Quotient(signed, s.regs[dst], s.regs[src]))
    case Shift(dst, src, direction) => s.Set(dst, ToWord(Shifted(direction, s.regs[dst], s.regs[src] % 32)))
    case _ => s
  }

  lemma DivisionBound(signed: bool, x: nat, y: nat)
    requires x < WORD && y < WORD
    ensures Quotient(signed, x, y) < WORD && Remainder(signed, x, y) < WORD
  {
    if y > 0 {
      assert x == y * (x / y) + x % y;
      if x / y > x {
        MulMonotone(y, 0, x / y);
        AtLeastFactor(y, x / y);
      }
    }
  }

  lemma AtLeastFactor(y: nat, q: nat)
    requires y > 0
    ensures y * q >= q
  {
  }

  // ---- What statements become.

  function Address(i: Reg): nat {
    REG_BASE + 32 * i
  }

  function FlagAt(f: Flag): nat {
    match f
    case Eq => CMP_EQ
    case Ltu => CMP_LTU
    case Lts => CMP_LTS
    case Leu => CMP_LEU
    case Les => CMP_LES
  }

  /** Addresses of the constants that a statement uses, and the first of its own labels. */
  datatype Aids = Aids(first: nat, second: nat, tag: nat)

  /** The labels of the image that stand for the names of the text. */
  type Names = map<nat, nat>

  function TagOf(names: Names, name: nat): nat {
    if name in names then names[name] else 0
  }

  function BitwiseOps(g: Gate, dst: nat, left: nat, right: nat, k: nat): (ops: seq<Op>)
    ensures |ops| == k
  {
    seq(k, i requires 0 <= i < k => GateOp(g, dst + i, left + i, right + i))
  }

  /** Copies of one bit to all positions from one on. */
  function FillOps(dst: nat, w: nat, k: nat): (ops: seq<Op>)
    requires w > 0
    ensures |ops| == k
  {
    seq(k, i requires 0 <= i < k => Plain(1, dst + w + i, dst + w - 1))
  }

  function ExtendOps(dst: nat, src: nat, w: nat, signed: bool, zero: nat): seq<Op>
    requires 0 < w < 32
  {
    [Plain(w, dst, src)] + if signed then FillOps(dst, w, 32 - w) else [Plain(32 - w, dst + w, zero)]
  }

  function FieldWidth(wide: bool): nat {
    if wide then 16 else 8
  }

  function One(op: Op): seq<Item> {
    [Straight(Singles([op]))]
  }

  function Sum(subtract: bool, dst: nat, left: nat, right: nat): seq<Item> {
    [Straight([AdderOps(WordAdder(subtract, dst, left, right), 32)])]
  }

  /** The items of a statement. */
  function ItemsOf(names: Names, st: Statement, aid: Aids): seq<Item> {
    match st
    case Label(name) => [Mark(TagOf(names, name))]
    case GoTo(name) => [Leap(TagOf(names, name))]
    case When(flag, inverted, name) => [Goto(TagOf(names, name), FlagAt(flag), inverted)]
    case Return => [Leap(RETURN)]
    case Nothing => []
    case Test(left, right) => [Straight(Singles(CompareOps(Address(left), Address(right))))]
    case Load(dst, _) => One(Plain(32, Address(dst), aid.first))
    case Copy(dst, src) => One(Plain(32, Address(dst), Address(src)))
    case Extend(dst, src, wide, signed) => [Straight(Singles(ExtendOps(Address(dst), Address(src), FieldWidth(wide), signed, aid.first)))]
    case Change(dst, _, down) => Sum(down, Address(dst), Address(dst), aid.first)
    case Negate(dst, src) => Sum(true, Address(dst), aid.first, Address(src))
    case Invert(dst, src) => [Straight([BitwiseOps(Xor, Address(dst), Address(src), aid.first, 32)])]
    case Total(dst, src, subtract) => Sum(subtract, Address(dst), Address(dst), Address(src))
    case Bitwise(gate, dst, src) => [Straight([BitwiseOps(gate, Address(dst), Address(dst), Address(src), 32)])]
    case Mul(dst, src) => MulItems(Address(dst), Address(src), aid.first, aid.second, aid.tag)
    case Div(dst, src, signed, remainder) => DivItems(Address(dst), Address(src), signed, remainder, aid.first, aid.second, aid.tag)
    case Shift(dst, src, direction) => [Straight(ShiftChunks(direction, Address(dst), Address(src), 5))]
  }

  /** The constants of a statement, in the order of its addresses. */
  function Constants(st: Statement): seq<Value> {
    match st
    case Load(_, value) => [value]
    case Extend(_, _, _, signed) => if signed then [] else [0]
    case Change(_, value, _) => [value]
    case Negate(_, _) => [0]
    case Invert(_, _) => [WORD - 1]
    case Mul(_, _) => [0, 1]
    case Div(_, _, _, _) => [0, 1]
    case _ => []
  }

  /** The constants are where the statement looks for them. */
  ghost predicate Aided(s: Space, st: Statement, aid: Aids) {
    var values := Constants(st);
    && (|values| > 0 ==> Constant(s, aid.first, values[0]))
    && (|values| > 1 ==> Constant(s, aid.second, values[1]))
  }

  /** The adder tables that a statement needs. */
  predicate Equipped(st: Statement, adds: bool, subs: bool) {
    match st
    case Change(_, _, down) => if down then subs else adds
    case Negate(_, _) => subs
    case Total(_, _, subtract) => if subtract then subs else adds
    case Mul(_, _) => adds
    case Div(_, _, _, _) => subs
    case _ => true
  }

  /** Statements that go on to the next one. */
  predicate Computes(st: Statement) {
    !st.Label? && !st.GoTo? && !st.When? && !st.Return?
  }

  // ---- Spaces that show a state.

  ghost predicate Flagged(t: Space, o: Order) {
    && BRANCH_TABLE <= |t|
    && t[CMP_EQ] == o.eq && t[CMP_LTS] == o.lts && t[CMP_LES] == o.les && t[CMP_LTU] == o.ltu && t[CMP_LEU] == o.leu
  }

  ghost predicate Holding(t: Space, regs: Words) {
    && BRANCH_TABLE <= |t|
    && forall i: Reg {:trigger regs[i]} :: Word(t, Address(i)) == regs[i]
  }

  ghost predicate Shown(c: Config, code: Code, t: Space, s: State) {
    Tables(c, code, t) && s.Valid() && Holding(t, s.regs) && Flagged(t, s.order)
  }

  /** Registers, flags, scratch words and the output. */
  ghost function WorkSpace(): iset<int> {
    Span(REG_BASE, 3584)
  }

  /** A part of them apart from the flags and from all registers but one. */
  ghost predicate Harmless(area: iset<int>, dst: Reg) {
    area <= WorkSpace() && area !! Span(CMP_EQ, 5) && area !! Fixed() && forall i: Reg {:trigger Address(i)} :: i != dst ==> area !! Span(Address(i), 32)
  }

  lemma AddressRegister(i: Reg)
    ensures Register(Address(i)) && Address(i) + 32 <= BRANCH_TABLE
  {
  }

  /** One register gets a value, and nothing else that counts is changed. */
  lemma OneSet(c: Config, code: Code, t: Space, u: Space, s: State, area: iset<int>, dst: Reg, v: nat)
    requires Shown(c, code, t, s) && Same(t, u, area) && Harmless(area, dst) && Word(u, Address(dst)) == v
    ensures Shown(c, code, u, s.Set(dst, v)) && Same(t, u, WorkSpace())
  {
    hide Tables, Same, Word, Fixed, Span, WorkSpace;
    SpanSame(t, u, area, WorkSpace());
    TablesKept(c, code, t, u, area);
    WordBound(u, Address(dst));
    FlagsStay(t, u, area, s.order);
    forall i: Reg {:trigger s.Set(dst, v).regs[i]} ensures Word(u, Address(i)) == s.Set(dst, v).regs[i] && s.Set(dst, v).regs[i] < WORD {
      AddressRegister(i);
      if i != dst {
        WordKept(t, u, area, Address(i));
        assert Word(t, Address(i)) == s.regs[i];
      }
    }
  }

  lemma FlagsStay(t: Space, u: Space, area: iset<int>, o: Order)
    requires Flagged(t, o) && Same(t, u, area) && area !! Span(CMP_EQ, 5)
    ensures Flagged(u, o)
  {
    forall p | CMP_EQ <= p < CMP_EQ + 5 ensures u[p] == t[p] {
      assert p in Span(CMP_EQ, 5);
    }
  }

  // ---- Statements that compute.

  ghost predicate Effected(c: Config, code: Code, names: Names, st: Statement, aid: Aids, t: Space, u: Space, s: State)
    requires c.Valid()
  {
    s.Valid() && Runs(c, code, ItemsOf(names, st, aid), t, u) && Shown(c, code, u, Do(st, s)) && Same(t, u, WorkSpace())
  }

  lemma SpanHarmless(dst: Reg)
    ensures Harmless(Span(Address(dst), 32), dst) && Harmless(SumArea(Address(dst)), dst)
    ensures Harmless(MulArea() + Span(Address(dst), 32), dst) && Harmless(DivideArea(Address(dst)), dst)
    ensures Harmless(ShiftScratch() + Span(Address(dst), 32), dst)
  {
  }

  lemma ShownRegister(c: Config, code: Code, t: Space, s: State, i: Reg)
    requires Shown(c, code, t, s)
    ensures c.Valid() && BRANCH_TABLE <= |t| && c.LayerBits() <= CONSTANT_BASE && code.fixed == BRANCH_TABLE
    ensures Register(Address(i)) && Address(i) + 32 <= BRANCH_TABLE && Word(t, Address(i)) == s.regs[i]
    ensures Writable(c, code, t, Address(i), 32) && Readable(c, t, Address(i), 32)
  {
    hide Val;
    TablesRange(c, code, t);
    assert Word(t, Address(i)) == s.regs[i];
  }

  lemma OneRuns(c: Config, code: Code, t: Space, op: Op, u: Space)
    requires c.Valid() && Exec(c, code, t, [op]) == Some(u)
    ensures Runs(c, code, One(op), t, u)
  {
    hide Exec, Singles;
    FlatSingles([op]);
    RunsStraight(c, code, Singles([op]), t, u);
  }

  /** A word copied into a register. */
  lemma WordRuns(c: Config, code: Code, t: Space, s: State, dst: Reg, src: nat) returns (u: Space)
    requires Shown(c, code, t, s) && CONSTANT_BASE <= src && src + 32 <= BRANCH_TABLE
    ensures c.Valid() && src + 32 <= |t| && Runs(c, code, One(Plain(32, Address(dst), src)), t, u)
    ensures Shown(c, code, u, s.Set(dst, Word(t, src))) && Same(t, u, WorkSpace())
  {
    ShownRegister(c, code, t, s, dst);
    hide Exec, Val, Shown, Harmless, Runs, Span, Same, WorkSpace;
    ExecNone(c, code, t);
    u := DoCopy(c, code, t, [], t, 32, Address(dst), src);
    assert [] + [Plain(32, Address(dst), src)] == [Plain(32, Address(dst), src)];
    OneRuns(c, code, t, Plain(32, Address(dst), src), u);
    SpanHarmless(dst);
    OneSet(c, code, t, u, s, Span(Address(dst), 32), dst, Word(t, src));
  }

  /** A sum or difference put into a register. */
  lemma SumRuns(c: Config, code: Code, t: Space, s: State, subtract: bool, dst: Reg, left: nat, right: nat) returns (u: Space)
    requires Shown(c, code, t, s) && if subtract then code.subs else code.adds
    requires SumWord(left) && SumWord(right)
    ensures c.Valid() && left + 32 <= |t| && right + 32 <= |t| && Runs(c, code, Sum(subtract, Address(dst), left, right), t, u)
    ensures Shown(c, code, u, s.Set(dst, ToWord(if subtract then WORD + Word(t, left) - Word(t, right) else Word(t, left) + Word(t, right))))
    ensures Same(t, u, WorkSpace())
  {
    hide Word, Shown, Harmless, Runs, Span, Same, WorkSpace, AdderOps, ToWord, SumWord, Address, Exec;
    u := SumExec(c, code, t, s, subtract, dst, left, right);
    var ops := AdderOps(WordAdder(subtract, Address(dst), left, right), 32);
    FlatOne(ops);
    RunsStraight(c, code, [ops], t, u);
    SpanHarmless(dst);
    OneSet(c, code, t, u, s, SumArea(Address(dst)), dst, Word(u, Address(dst)));
  }

  lemma SumExec(c: Config, code: Code, t: Space, s: State, subtract: bool, dst: Reg, left: nat, right: nat) returns (u: Space)
    requires Shown(c, code, t, s) && if subtract then code.subs else code.adds
    requires SumWord(left) && SumWord(right)
    ensures c.Valid() && left + 32 <= |t| && right + 32 <= |t| && Address(dst) + 32 <= |u|
    ensures Exec(c, code, t, AdderOps(WordAdder(subtract, Address(dst), left, right), 32)) == Some(u)
    ensures Same(t, u, SumArea(Address(dst)))
    ensures Word(u, Address(dst)) == ToWord(if subtract then WORD + Word(t, left) - Word(t, right) else Word(t, left) + Word(t, right))
  {
    hide Word, Shown, Span, Same, AdderOps, ToWord, SumWord, AdderWords, Tables, Address, Exec, SumArea;
    SumPlaced(c, code, t, s, dst, left, right);
    ExecNone(c, code, t);
    var ops := AdderOps(WordAdder(subtract, Address(dst), left, right), 32);
    u := DoAdder(c, code, t, [], t, subtract, Address(dst), left, right);
    assert [] + ops == ops;
    SameSize(t, u, SumArea(Address(dst)));
    WordBound(t, left);
    WordBound(t, right);
    WordBound(u, Address(dst));
    SumWraps(Word(t, left), Word(t, right), Word(u, Address(dst)), Bit(u[CARRY]), subtract);
  }

  lemma SumPlaced(c: Config, code: Code, t: Space, s: State, dst: Reg, left: nat, right: nat)
    requires Shown(c, code, t, s) && SumWord(left) && SumWord(right)
    ensures c.Valid() && Tables(c, code, t) && left + 32 <= |t| && right + 32 <= |t| && Address(dst) + 32 <= |t| && CARRY < |t|
    ensures AdderWords(c, code, t, Address(dst), left, right)
  {
    ShownRegister(c, code, t, s, dst);
    hide Tables;
  }

  /** A word that may be added to a register: a register, or a constant. */
  predicate SumWord(at: nat) {
    Register(at) || (CONSTANT_BASE <= at && at + 32 <= REG_BASE)
  }

  lemma SumWraps(x: nat, y: nat, z: nat, carry: nat, subtract: bool)
    requires x < WORD && y < WORD && z < WORD && carry <= 1
    requires if subtract then z + y == x + WORD * carry else z + WORD * carry == x + y
    ensures z == ToWord(if subtract then WORD + x - y else x + y)
  {
  }

  lemma BitwiseSnoc(g: Gate, dst: nat, left: nat, right: nat, k: nat)
    ensures BitwiseOps(g, dst, left, right, k + 1) == BitwiseOps(g, dst, left, right, k) + [GateOp(g, dst + k, left + k, right + k)]
    ensures BitwiseOps(g, dst, left, right, 0) == []
  {
  }

  ghost predicate Gated(t: Space, u: Space, g: Gate, dst: nat, left: nat, right: nat, i: nat) {
    dst + i < |u| && left + i < |t| && right + i < |t| && u[dst + i] == g.Apply(t[left + i], t[right + i])
  }

  /** The gates of a word, one position after another; the result may take the place of an operand. */
  lemma {:induction false} BitwiseExec(c: Config, code: Code, t: Space, g: Gate, dst: nat, left: nat, right: nat, k: nat) returns (u: Space)
    requires Tables(c, code, t) && Register(dst) && SumWord(left) && SumWord(right) && k <= 32
    ensures Exec(c, code, t, BitwiseOps(g, dst, left, right, k)) == Some(u) && Tables(c, code, u)
    ensures BRANCH_TABLE <= |t| && Same(t, u, Span(dst, k)) && forall i: nat | i < k :: Gated(t, u, g, dst, left, right, i)
  {
    hide Exec, Tables, Same, Span, BitwiseOps, Register, SumWord, Fixed;
    TablesRange(c, code, t);
    if k == 0 {
      ExecNone(c, code, t);
      BitwiseSnoc(g, dst, left, right, 0);
      u := t;
      SameSelf(t, Span(dst, 0));
    } else {
      var i := k - 1;
      var v := BitwiseExec(c, code, t, g, dst, left, right, i);
      BitwiseSnoc(g, dst, left, right, i);
      BitPlaced(c, code, t, v, dst, left, right, i);
      u := DoGate(c, code, t, BitwiseOps(g, dst, left, right, i), v, g, dst + i, left + i, right + i);
      BitMore(c, code, t, v, u, g, dst, left, right, i);
    }
  }

  lemma BitPlaced(c: Config, code: Code, t: Space, v: Space, dst: nat, left: nat, right: nat, i: nat)
    requires c.Valid() && c.LayerBits() <= CONSTANT_BASE && code.fixed == BRANCH_TABLE <= |t| && Same(t, v, Span(dst, i)) && i < 32
    requires Register(dst) && SumWord(left) && SumWord(right)
    ensures |v| == |t| && Writable(c, code, v, dst + i, 1) && Readable(c, v, left + i, 1) && Readable(c, v, right + i, 1)
    ensures v[left + i] == t[left + i] && v[right + i] == t[right + i]
  {
    assert left + i !in Span(dst, i) && right + i !in Span(dst, i);
  }

  lemma BitMore(c: Config, code: Code, t: Space, v: Space, u: Space, g: Gate, dst: nat, left: nat, right: nat, i: nat)
    requires Tables(c, code, v) && Register(dst) && i < 32 && Same(t, v, Span(dst, i)) && Same(v, u, Span(dst + i, 1)) && dst + i < |v|
    requires forall j: nat | j < i :: Gated(t, v, g, dst, left, right, j)
    ensures Tables(c, code, u) && Same(t, u, Span(dst, i + 1)) && forall j: nat | j < i :: Gated(t, u, g, dst, left, right, j)
  {
    hide Tables;
    TablesKept(c, code, v, u, Span(dst + i, 1));
    hide Same;
    SameThen(t, v, u, Span(dst, i), Span(dst + i, 1), Span(dst, i + 1));
    forall j: nat | j < i ensures Gated(t, u, g, dst, left, right, j) {
      assert Gated(t, v, g, dst, left, right, j);
      BesideOne(v, u, dst + i, dst + j);
    }
  }

  lemma BesideOne(v: Space, u: Space, at: nat, p: nat)
    requires Same(v, u, Span(at, 1)) && p < |v| && p != at
    ensures |u| == |v| && u[p] == v[p]
  {
  }

  lemma BitwiseRuns(c: Config, code: Code, t: Space, s: State, g: Gate, dst: Reg, left: nat, right: nat) returns (u: Space)
    requires Shown(c, code, t, s) && SumWord(left) && SumWord(right)
    ensures c.Valid() && left + 32 <= |t| && right + 32 <= |t|
    ensures Runs(c, code, [Straight([BitwiseOps(g, Address(dst), left, right, 32)])], t, u)
    ensures Shown(c, code, u, s.Set(dst, BitByBit(g, Word(t, left), Word(t, right)))) && Same(t, u, WorkSpace())
  {
    SumPlaced(c, code, t, s, dst, left, right);
    ShownRegister(c, code, t, s, dst);
    hide Exec, Shown, Harmless, Runs, Span, Same, WorkSpace, Tables, SumWord, BitwiseOps, BitByBit, Word, Address, Gated;
    u := BitwiseExec(c, code, t, g, Address(dst), left, right, 32);
    FlatOne(BitwiseOps(g, Address(dst), left, right, 32));
    RunsStraight(c, code, [BitwiseOps(g, Address(dst), left, right, 32)], t, u);
    SpanHarmless(dst);
    SameSize(t, u, Span(Address(dst), 32));
    BitByBitIs(t, u, g, Address(dst), left, right);
    OneSet(c, code, t, u, s, Span(Address(dst), 32), dst, Word(u, Address(dst)));
  }

  lemma BitByBitIs(t: Space, u: Space, g: Gate, dst: nat, left: nat, right: nat)
    requires left + 32 <= |t| && right + 32 <= |t| && dst + 32 <= |u|
    requires forall i: nat | i < 32 :: Gated(t, u, g, dst, left, right, i)
    ensures Word(u, dst) == BitByBit(g, Word(t, left), Word(t, right))
  {
    hide Val, Digit;
    var x, y := Word(t, left), Word(t, right);
    var bits := seq(32, i requires 0 <= i < 32 => g.Apply(Digit(x, i), Digit(y, i)));
    forall p {:trigger bits[p]} | 0 <= p < 32 ensures bits[p] == u[p - 0 + dst] {
      BitDigit(t, left, 32, p);
      BitDigit(t, right, 32, p);
      assert Gated(t, u, g, dst, left, right, p);
    }
    ValMove(bits, 0, u, dst, 32);
  }

  /** Turning all bits around is taking from all ones. */
  lemma InvertIs(x: nat)
    requires x < WORD
    ensures BitByBit(Xor, x, WORD - 1) == WORD - 1 - x
  {
    hide Val, Digit;
    Pow2Word();
    var y := seq(32, i requires 0 <= i < 32 => Digit(x, i));
    var z := seq(32, i requires 0 <= i < 32 => Xor.Apply(Digit(x, i), Digit(WORD - 1, i)));
    forall i | 0 <= i < 32 ensures z[i] == !y[i] {
      OnesDigit(32, i);
    }
    DigitsVal(y, 0, 32, x);
    SmallMod(x, WORD);
    Complement(y, z, 32);
  }

  lemma {:induction false} OnesDigit(n: nat, i: nat)
    requires i < n
    ensures Digit(Pow2(n) - 1, i)
    decreases i
  {
    if i > 0 {
      OnesDigit(n - 1, i - 1);
      assert (Pow2(n) - 1) / 2 == Pow2(n - 1) - 1;
    }
  }

  lemma FillSnoc(dst: nat, w: nat, k: nat)
    requires w > 0
    ensures FillOps(dst, w, k + 1) == FillOps(dst, w, k) + [Plain(1, dst + w + k, dst + w - 1)]
    ensures FillOps(dst, w, 0) == []
  {
  }

  /** A stretch of equal bits. */
  ghost predicate Uniform(u: Space, at: nat, n: nat, b: bool) {
    at + n <= |u| && forall p {:trigger u[p]} | at <= p < at + n :: u[p] == b
  }

  /** All positions from w on get the bit below them. */
  lemma {:induction false} FillExec(c: Config, code: Code, t: Space, ops: seq<Op>, v: Space, dst: nat, w: nat, k: nat) returns (u: Space)
    requires Tables(c, code, v) && Exec(c, code, t, ops) == Some(v) && Register(dst) && 0 < w && w + k <= 32 && BRANCH_TABLE <= |v|
    ensures Exec(c, code, t, ops + FillOps(dst, w, k)) == Some(u) && Same(v, u, Span(dst + w, k)) && Uniform(u, dst + w, k, v[dst + w - 1])
  {
    hide Exec, Tables, FillOps;
    TablesRange(c, code, v);
    if k == 0 {
      FillSnoc(dst, w, 0);
      assert ops + [] == ops;
      u := v;
    } else {
      var x := FillExec(c, code, t, ops, v, dst, w, k - 1);
      FillSnoc(dst, w, k - 1);
      assert dst + w - 1 !in Span(dst + w, k - 1);
      u := DoCopy(c, code, t, ops + FillOps(dst, w, k - 1), x, 1, dst + w + k - 1, dst + w - 1);
      assert ops + FillOps(dst, w, k - 1) + [Plain(1, dst + w + k - 1, dst + w - 1)] == ops + FillOps(dst, w, k);
    }
  }

  lemma {:induction false} UniformNumber(u: Space, at: nat, n: nat, b: bool)
    requires Uniform(u, at, n, b)
    ensures Val(u, at, n) == if b then Pow2(n) - 1 else 0
    decreases n
  {
    if n > 0 {
      UniformNumber(u, at + 1, n - 1, b);
    }
  }

  /** A copied field with a filled rest is the extended number. */
  lemma ExtendedIs(t: Space, u: Space, dst: nat, src: nat, wide: bool, signed: bool)
    requires src + 32 <= |t| && dst + 32 <= |u| && Val(u, dst, FieldWidth(wide)) == Val(t, src, FieldWidth(wide))
    requires Uniform(u, dst + FieldWidth(wide), 32 - FieldWidth(wide), signed && t[src + FieldWidth(wide) - 1])
    ensures Word(u, dst) == Extended(Word(t, src), wide, signed)
  {
    hide Val, Uniform, Pow2;
    var w := FieldWidth(wide);
    var low := Val(t, src, w);
    ValSplit(t, src, w, 32 - w);
    ValSplit(u, dst, w, 32 - w);
    DivModUnique(Pow2(w), Val(t, src + w, 32 - w), low);
    ValSnoc(t, src, w - 1);
    UniformNumber(u, dst + w, 32 - w, signed && t[src + w - 1]);
    Widths();
  }

  lemma Widths()
    ensures Pow2(7) == 0x80 && Pow2(8) == 0x100 && Pow2(15) == 0x8000 && Pow2(16) == 0x1_0000 && Pow2(24) == 0x100_0000
  {
    SmallPowers();
    Pow2Add(1, 6);
    Pow2Add(2, 6);
    Pow2Add(7, 8);
    Pow2Add(8, 8);
    Pow2Add(8, 16);
  }

  lemma ExtendExec(c: Config, code: Code, t: Space, s: State, dst: Reg, src: Reg, wide: bool, signed: bool, zero: nat) returns (u: Space)
    requires Shown(c, code, t, s) && (!signed ==> Constant(t, zero, 0))
    ensures c.Valid() && Exec(c, code, t, ExtendOps(Address(dst), Address(src), FieldWidth(wide), signed, zero)) == Some(u)
    ensures Same(t, u, Span(Address(dst), 32)) && Address(dst) + 32 <= |u| && Word(u, Address(dst)) == Extended(s.regs[src], wide, signed)
  {
    hide Exec, Val, Shown, FillOps, ExtendOps, Extended, Fixed, Address, Tables, Pow2, Register, Word, CopyBits, Constant, Uniform, Span, Same, Writable, Readable;
    ShownRegister(c, code, t, s, dst);
    ShownRegister(c, code, t, s, src);
    var at, from, w := Address(dst), Address(src), FieldWidth(wide);
    ExecNone(c, code, t);
    FieldPlaced(c, code, t, at, from, w);
    var v := DoCopy(c, code, t, [], t, w, at, from);
    assert [] + [Plain(w, at, from)] == [Plain(w, at, from)];
    SameSize(t, v, Span(at, w));
    FirstCopied(c, code, t, v, s, dst, from, w);
    u := RestExec(c, code, t, v, at, from, w, signed, zero);
    FieldStays(v, u, at, w);
    SpanInside(at, 32, at, w);
    SpanInside(at, 32, at + w, 32 - w);
    SameThen(t, v, u, Span(at, w), Span(at + w, 32 - w), Span(at, 32));
    SameSize(t, u, Span(at, 32));
    ExtendedIs(t, u, at, from, wide, signed);
  }

  lemma FieldPlaced(c: Config, code: Code, t: Space, at: nat, from: nat, w: nat)
    requires c.Valid() && Writable(c, code, t, at, 32) && Readable(c, t, from, 32) && w <= 32
    ensures Writable(c, code, t, at, w) && Readable(c, t, from, w) && at + 32 <= |t| && from + 32 <= |t|
  {
  }

  /** What is above the field: its highest bit everywhere, or zeros. */
  lemma RestExec(c: Config, code: Code, t: Space, v: Space, at: nat, from: nat, w: nat, signed: bool, zero: nat) returns (u: Space)
    requires Tables(c, code, v) && BRANCH_TABLE <= |v| && Exec(c, code, t, [Plain(w, at, from)]) == Some(v) && Register(at) && 0 < w < 32
    requires from + 32 <= |t| && v[at + w - 1] == t[from + w - 1] && Same(t, v, Span(at, w)) && (!signed ==> Constant(t, zero, 0))
    ensures Exec(c, code, t, ExtendOps(at, from, w, signed, zero)) == Some(u)
    ensures Same(v, u, Span(at + w, 32 - w)) && Uniform(u, at + w, 32 - w, signed && t[from + w - 1])
  {
    hide Exec, Val, FillOps, Tables, CopyBits, Constant, Uniform, Span, Same, Register, Writable, Readable;
    if signed {
      u := FillExec(c, code, t, [Plain(w, at, from)], v, at, w, 32 - w);
    } else {
      RestPlaced(c, code, t, v, at, w, zero);
      u := DoCopy(c, code, t, [Plain(w, at, from)], v, 32 - w, at + w, zero);
      ZerosCopied(v, u, at + w, 32 - w, zero);
    }
  }

  lemma FirstCopied(c: Config, code: Code, t: Space, v: Space, s: State, dst: Reg, from: nat, w: nat)
    requires Shown(c, code, t, s) && Same(t, v, Span(Address(dst), w)) && 0 < w < 32 && from + 32 <= |t|
    requires v == CopyBits(t, w, Address(dst), from)
    ensures Tables(c, code, v) && BRANCH_TABLE <= |v| && v[Address(dst) + w - 1] == t[from + w - 1] && Register(Address(dst))
  {
    hide Tables;
    TablesKept(c, code, t, v, Span(Address(dst), w));
  }

  lemma RestPlaced(c: Config, code: Code, t: Space, v: Space, at: nat, w: nat, zero: nat)
    requires Tables(c, code, v) && BRANCH_TABLE <= |v| && Register(at) && 0 < w < 32 && Constant(t, zero, 0) && Same(t, v, Span(at, w))
    ensures c.Valid() && Writable(c, code, v, at + w, 32 - w) && Readable(c, v, zero, 32 - w) && at + w + (32 - w) <= |v|
    ensures Uniform(v, zero, 32 - w, false)
  {
    TablesRange(c, code, v);
    hide Tables, Constant, Uniform, Same;
    ZerosThere(t, v, zero, w, at);
  }

  lemma ZerosThere(t: Space, v: Space, zero: nat, w: nat, at: nat)
    requires Constant(t, zero, 0) && Same(t, v, Span(at, w)) && REG_BASE <= at && 0 < w < 32
    ensures zero + 32 <= |v| && Uniform(v, zero, 32 - w, false) && CONSTANT_BASE <= zero && zero + 32 <= REG_BASE
  {
    hide Val;
    NoOnes(t, zero, 32);
  }

  lemma {:induction false} NoOnes(t: Space, at: nat, n: nat)
    requires at + n <= |t| && Val(t, at, n) == 0
    ensures Uniform(t, at, n, false)
    decreases n
  {
    if n > 0 {
      NoOnes(t, at + 1, n - 1);
    }
  }

  lemma ZerosCopied(v: Space, u: Space, at: nat, n: nat, zero: nat)
    requires Uniform(v, zero, n, false) && at + n <= |v| && u == CopyBits(v, n, at, zero)
    ensures Uniform(u, at, n, false)
  {
  }

  lemma FieldStays(v: Space, u: Space, at: nat, w: nat)
    requires w < 32 && Same(v, u, Span(at + w, 32 - w)) && at + 32 <= |v|
    ensures Val(u, at, w) == Val(v, at, w)
  {
    hide Val;
    ValFrame(u, v, at, w);
  }

  lemma ExtendRuns(c: Config, code: Code, t: Space, s: State, dst: Reg, src: Reg, wide: bool, signed: bool, zero: nat) returns (u: Space)
    requires Shown(c, code, t, s) && (!signed ==> Constant(t, zero, 0))
    ensures c.Valid() && Runs(c, code, [Straight(Singles(ExtendOps(Address(dst), Address(src), FieldWidth(wide), signed, zero)))], t, u)
    ensures Shown(c, code, u, s.Set(dst, Extended(s.regs[src], wide, signed))) && Same(t, u, WorkSpace())
  {
    u := ExtendExec(c, code, t, s, dst, src, wide, signed, zero);
    hide Exec, Shown, Harmless, Runs, Span, Same, WorkSpace, ExtendOps, Singles, Word, Extended, Address;
    var ops := ExtendOps(Address(dst), Address(src), FieldWidth(wide), signed, zero);
    FlatSingles(ops);
    RunsStraight(c, code, Singles(ops), t, u);
    SpanHarmless(dst);
    OneSet(c, code, t, u, s, Span(Address(dst), 32), dst, Word(u, Address(dst)));
  }

  lemma TestRuns(c: Config, code: Code, t: Space, s: State, left: Reg, right: Reg) returns (u: Space)
    requires Shown(c, code, t, s)
    ensures c.Valid() && Runs(c, code, [Straight(Singles(CompareOps(Address(left), Address(right))))], t, u)
    ensures Shown(c, code, u, Do(Test(left, right), s)) && Same(t, u, WorkSpace())
  {
    ShownRegister(c, code, t, s, left);
    ShownRegister(c, code, t, s, right);
    assert Operand(c, t, Address(left)) && Operand(c, t, Address(right));
    hide Exec, Runs, CompareOps, Singles, Val, Tables, Address;
    u := CompareRun(c, code, t, Address(left), Address(right));
    FlatSingles(CompareOps(Address(left), Address(right)));
    RunsStraight(c, code, Singles(CompareOps(Address(left), Address(right))), t, u);
    OrderSet(c, code, t, u, s, Do(Test(left, right), s).order);
  }

  lemma OrderSet(c: Config, code: Code, t: Space, u: Space, s: State, o: Order)
    requires Shown(c, code, t, s) && Same(t, u, Flags()) && Tables(c, code, u) && Flagged(u, o)
    ensures Shown(c, code, u, s.(order := o)) && Same(t, u, WorkSpace())
  {
    hide Tables, Word;
    forall i: Reg {:trigger s.regs[i]} ensures Word(u, Address(i)) == s.regs[i] {
      WordKept(t, u, Flags(), Address(i));
      assert Word(t, Address(i)) == s.regs[i];
    }
  }

  lemma MulRuns(c: Config, code: Code, t: Space, s: State, dst: Reg, src: Reg, aid: Aids) returns (u: Space)
    requires Shown(c, code, t, s) && code.adds && Aided(t, Mul(dst, src), aid)
    ensures c.Valid() && Runs(c, code, MulItems(Address(dst), Address(src), aid.first, aid.second, aid.tag), t, u)
    ensures Shown(c, code, u, Do(Mul(dst, src), s)) && Same(t, u, WorkSpace())
  {
    ShownRegister(c, code, t, s, dst);
    ShownRegister(c, code, t, s, src);
    hide Shown, Harmless, Runs, Span, Same, WorkSpace, Tables, Word, Product, MulArea, MulItems, Tour, MulRounds, Constant, Address, Fixed;
    ShownTables(c, code, t, s);
    var heads, r := MultiplyRuns(c, code, t, Address(dst), Address(src), aid.first, aid.second, aid.tag);
    u := r;
    SpanHarmless(dst);
    SameSize(t, u, MulArea() + Span(Address(dst), 32));
    OneSet(c, code, t, u, s, MulArea() + Span(Address(dst), 32), dst, Word(u, Address(dst)));
  }

  lemma ShownTables(c: Config, code: Code, t: Space, s: State)
    requires Shown(c, code, t, s)
    ensures Tables(c, code, t) && s.Valid()
  {
  }

  lemma DivRuns(c: Config, code: Code, t: Space, s: State, dst: Reg, src: Reg, signed: bool, remainder: bool, aid: Aids) returns (u: Space)
    requires Shown(c, code, t, s) && code.subs && Aided(t, Div(dst, src, signed, remainder), aid)
    ensures c.Valid() && Runs(c, code, DivItems(Address(dst), Address(src), signed, remainder, aid.first, aid.second, aid.tag), t, u)
    ensures Shown(c, code, u, Do(Div(dst, src, signed, remainder), s)) && Same(t, u, WorkSpace())
  {
    ShownRegister(c, code, t, s, dst);
    ShownRegister(c, code, t, s, src);
    hide Shown, Harmless, Runs, Span, Same, WorkSpace, Tables, Word, Quotient, Remainder, DivideArea, DivItems, EnterItems, Tour, DivRounds, Constant, Address, Fixed;
    ShownTables(c, code, t, s);
    var heads, r := DivideRuns(c, code, t, Address(dst), Address(src), signed, remainder, aid.first, aid.second, aid.tag);
    u := r;
    SpanHarmless(dst);
    SameSize(t, u, DivideArea(Address(dst)));
    OneSet(c, code, t, u, s, DivideArea(Address(dst)), dst, Word(u, Address(dst)));
  }

  lemma DoShift(s: State, dst: Reg, src: Reg, direction: Direction, v: nat)
    requires s.Valid() && v == Shifted(direction, s.regs[dst], s.regs[src] % 32) && v < WORD
    ensures Do(Shift(dst, src, direction), s) == s.Set(dst, v)
  {
    hide Shifted;
  }

  lemma MoveRuns(c: Config, code: Code, t: Space, s: State, dst: Reg, src: Reg, direction: Direction) returns (u: Space)
    requires Shown(c, code, t, s)
    ensures c.Valid() && Runs(c, code, [Straight(ShiftChunks(direction, Address(dst), Address(src), 5))], t, u)
    ensures Shown(c, code, u, Do(Shift(dst, src, direction), s)) && Same(t, u, WorkSpace())
  {
    ShownRegister(c, code, t, s, dst);
    ShownRegister(c, code, t, s, src);
    hide Shown, Harmless, Runs, Span, Same, WorkSpace, Tables, Word, Shifted, ShiftScratch, ShiftChunks, Address, Fixed;
    ShownTables(c, code, t, s);
    u := ShiftRuns(c, code, t, direction, Address(dst), Address(src));
    SpanHarmless(dst);
    WordBound(u, Address(dst));
    hide ToWord, Do;
    DoShift(s, dst, src, direction, Word(u, Address(dst)));
    OneSet(c, code, t, u, s, ShiftScratch() + Span(Address(dst), 32), dst, Word(u, Address(dst)));
  }

  lemma WordStatement(c: Config, code: Code, names: Names, st: Statement, aid: Aids, t: Space, s: State) returns (u: Space)
    requires Shown(c, code, t, s) && (st.Nothing? || st.Load? || st.Copy? || st.Extend?) && Aided(t, st, aid) && Equipped(st, code.adds, code.subs)
    ensures c.Valid() && Effected(c, code, names, st, aid, t, u, s)
  {
    ShownTables(c, code, t, s);
    ShownRegister(c, code, t, s, 0);
    hide Shown, Runs, Same, WorkSpace, Span, CompareOps, ExtendOps, MulItems, DivItems, ShiftChunks, BitwiseOps, AdderOps, Singles, One, Sum, Tables, Word, BitByBit,
      Extended, ToWord, Quotient, Remainder, Product, Shifted, Address, Fixed;
    match st
    case Nothing =>
      u := t;
      NothingRuns(c, code, t, s);
    case Load(dst, value) => u := WordRuns(c, code, t, s, dst, aid.first);
    case Copy(dst, src) =>
      ShownRegister(c, code, t, s, src);
      u := WordRuns(c, code, t, s, dst, Address(src));
    case Extend(dst, src, wide, signed) => u := ExtendRuns(c, code, t, s, dst, src, wide, signed, aid.first);
  }

  lemma DoChange(s: State, dst: Reg, value: Value, down: bool)
    requires s.Valid()
    ensures Do(Change(dst, value, down), s) == s.Set(dst, ToWord(if down then WORD + s.regs[dst] - value else s.regs[dst] + value))
  {
  }

  lemma DoNegate(s: State, dst: Reg, src: Reg)
    requires s.Valid()
    ensures Do(Negate(dst, src), s) == s.Set(dst, ToWord(WORD + 0 - s.regs[src]))
  {
  }

  lemma DoTotal(s: State, dst: Reg, src: Reg, subtract: bool)
    requires s.Valid()
    ensures Do(Total(dst, src, subtract), s) == s.Set(dst, ToWord(if subtract then WORD + s.regs[dst] - s.regs[src] else s.regs[dst] + s.regs[src]))
  {
  }

  lemma DoInvert(s: State, dst: Reg, src: Reg)
    requires s.Valid()
    ensures Do(Invert(dst, src), s) == s.Set(dst, BitByBit(Xor, s.regs[src], WORD - 1))
  {
    InvertIs(s.regs[src]);
  }

  lemma DoBitwise(s: State, gate: Gate, dst: Reg, src: Reg)
    requires s.Valid()
    ensures Do(Bitwise(gate, dst, src), s) == s.Set(dst, BitByBit(gate, s.regs[dst], s.regs[src]))
  {
  }

  lemma ChangeStatement(c: Config, code: Code, names: Names, st: Statement, aid: Aids, t: Space, s: State) returns (u: Space)
    requires Shown(c, code, t, s) && st.Change? && Aided(t, st, aid) && Equipped(st, code.adds, code.subs)
    ensures c.Valid() && Effected(c, code, names, st, aid, t, u, s)
  {
    ShownTables(c, code, t, s);
    ShownRegister(c, code, t, s, 0);
    hide Shown, Runs, Same, WorkSpace, Span, CompareOps, ExtendOps, MulItems, DivItems, ShiftChunks, BitwiseOps, AdderOps, Singles, One, Sum, Tables, Word, BitByBit,
      Extended, ToWord, Quotient, Remainder, Product, Shifted, Address, Fixed, Do;
    var Change(dst, value, down) := st;
    DoChange(s, dst, value, down);
    ShownRegister(c, code, t, s, dst);
    u := SumRuns(c, code, t, s, down, dst, Address(dst), aid.first);
  }

  lemma NegateStatement(c: Config, code: Code, names: Names, st: Statement, aid: Aids, t: Space, s: State) returns (u: Space)
    requires Shown(c, code, t, s) && st.Negate? && Aided(t, st, aid) && Equipped(st, code.adds, code.subs)
    ensures c.Valid() && Effected(c, code, names, st, aid, t, u, s)
  {
    ShownTables(c, code, t, s);
    ShownRegister(c, code, t, s, 0);
    hide Shown, Runs, Same, WorkSpace, Span, CompareOps, ExtendOps, MulItems, DivItems, ShiftChunks, BitwiseOps, AdderOps, Singles, One, Sum, Tables, Word, BitByBit,
      Extended, ToWord, Quotient, Remainder, Product, Shifted, Address, Fixed, Do;
    var Negate(dst, src) := st;
    DoNegate(s, dst, src);
    ShownRegister(c, code, t, s, src);
    u := SumRuns(c, code, t, s, true, dst, aid.first, Address(src));
  }

  lemma TotalStatement(c: Config, code: Code, names: Names, st: Statement, aid: Aids, t: Space, s: State) returns (u: Space)
    requires Shown(c, code, t, s) && st.Total? && Aided(t, st, aid) && Equipped(st, code.adds, code.subs)
    ensures c.Valid() && Effected(c, code, names, st, aid, t, u, s)
  {
    ShownTables(c, code, t, s);
    ShownRegister(c, code, t, s, 0);
    hide Shown, Runs, Same, WorkSpace, Span, CompareOps, ExtendOps, MulItems, DivItems, ShiftChunks, BitwiseOps, AdderOps, Singles, One, Sum, Tables, Word, BitByBit,
      Extended, ToWord, Quotient, Remainder, Product, Shifted, Address, Fixed, Do;
    var Total(dst, src, subtract) := st;
    DoTotal(s, dst, src, subtract);
    ShownRegister(c, code, t, s, dst);
    ShownRegister(c, code, t, s, src);
    u := SumRuns(c, code, t, s, subtract, dst, Address(dst), Address(src));
  }

  lemma GateStatement(c: Config, code: Code, names: Names, st: Statement, aid: Aids, t: Space, s: State) returns (u: Space)
    requires Shown(c, code, t, s) && (st.Invert? || st.Bitwise?) && Aided(t, st, aid) && Equipped(st, code.adds, code.subs)
    ensures c.Valid() && Effected(c, code, names, st, aid, t, u, s)
  {
    ShownTables(c, code, t, s);
    ShownRegister(c, code, t, s, 0);
    hide Shown, Runs, Same, WorkSpace, Span, CompareOps, ExtendOps, MulItems, DivItems, ShiftChunks, BitwiseOps, AdderOps, Singles, One, Sum, Tables, Word, BitByBit,
      Extended, ToWord, Quotient, Remainder, Product, Shifted, Address, Fixed, Do;
    match st
    case Invert(dst, src) =>
      DoInvert(s, dst, src);
      ShownRegister(c, code, t, s, src);
      u := BitwiseRuns(c, code, t, s, Xor, dst, Address(src), aid.first);
    case Bitwise(gate, dst, src) =>
      DoBitwise(s, gate, dst, src);
      ShownRegister(c, code, t, s, dst);
      ShownRegister(c, code, t, s, src);
      u := BitwiseRuns(c, code, t, s, gate, dst, Address(dst), Address(src));
  }

  lemma LongStatement(c: Config, code: Code, names: Names, st: Statement, aid: Aids, t: Space, s: State) returns (u: Space)
    requires Shown(c, code, t, s) && (st.Test? || st.Mul? || st.Div? || st.Shift?) && Aided(t, st, aid) && Equipped(st, code.adds, code.subs)
    ensures c.Valid() && Effected(c, code, names, st, aid, t, u, s)
  {
    ShownTables(c, code, t, s);
    ShownRegister(c, code, t, s, 0);
    hide Shown, Runs, Same, WorkSpace, Span, CompareOps, ExtendOps, MulItems, DivItems, ShiftChunks, BitwiseOps, AdderOps, Singles, One, Sum, Tables, Word, BitByBit,
      Extended, ToWord, Quotient, Remainder, Product, Shifted, Address, Fixed, Do;
    match st
    case Test(left, right) => u := TestRuns(c, code, t, s, left, right);
    case Mul(dst, src) => u := MulRuns(c, code, t, s, dst, src, aid);
    case Div(dst, src, signed, remainder) => u := DivRuns(c, code, t, s, dst, src, signed, remainder, aid);
    case Shift(dst, src, direction) => u := MoveRuns(c, code, t, s, dst, src, direction);
  }

  /** A statement that computes, run. */
  lemma ComputeRuns(c: Config, code: Code, names: Names, st: Statement, aid: Aids, t: Space, s: State) returns (u: Space)
    requires Shown(c, code, t, s) && Computes(st) && Aided(t, st, aid) && Equipped(st, code.adds, code.subs)
    ensures c.Valid() && Effected(c, code, names, st, aid, t, u, s)
  {
    hide Shown, Aided, Equipped, Effected;
    match st
    case Nothing => u := WordStatement(c, code, names, st, aid, t, s);
    case Load(_, _) => u := WordStatement(c, code, names, st, aid, t, s);
    case Copy(_, _) => u := WordStatement(c, code, names, st, aid, t, s);
    case Extend(_, _, _, _) => u := WordStatement(c, code, names, st, aid, t, s);
    case Change(_, _, _) => u := ChangeStatement(c, code, names, st, aid, t, s);
    case Negate(_, _) => u := NegateStatement(c, code, names, st, aid, t, s);
    case Total(_, _, _) => u := TotalStatement(c, code, names, st, aid, t, s);
    case Invert(_, _) => u := GateStatement(c, code, names, st, aid, t, s);
    case Bitwise(_, _, _) => u := GateStatement(c, code, names, st, aid, t, s);
    case _ => u := LongStatement(c, code, names, st, aid, t, s);
  }

  lemma NothingRuns(c: Config, code: Code, t: Space, s: State)
    requires c.Valid() && Shown(c, code, t, s)
    ensures Runs(c, code, [], t, t) && Same(t, t, WorkSpace())
  {
    PathHere(c, code, [], 0, t);
    SameSelf(t, WorkSpace());
  }
}
