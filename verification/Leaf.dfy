/** Whole images: the text of a leaf function is compiled, linked, booted and run to rest. */
module Leaf {
  import opened Bits
  import opened Bytes
  import opened Machine
  import opened Layers
  import opened Programs
  import opened Emission
  import opened Items
  import opened Tours
  import opened Lookups
  import opened Rows
  import opened CopyEmit
  import opened Sheets
  import opened Arith
  import opened Compare
  import opened Multiply
  import opened Divide
  import opened Division
  import opened Shifts
  import opened Report
  import opened Texts
  import opened Execution
  import opened Compiling
  import opened Writer
  import opened Linker
  import opened Images
  import opened Delivery
  import opened Vm

  /** The prepared tables are those that the programs' lemmas ask for. */
  lemma PreparedTables(c: Config, code: Code, s: Space, regs: Space, constants: seq<nat>)
    requires c.Valid() && 6 <= c.ab && Prepared(s, regs, constants, code.adds, code.subs)
    requires code.fixed == BRANCH_TABLE <= code.limit <= |s|
    ensures Tables(c, code, s)
  {
  }

  lemma PreparedConstant(s: Space, regs: Space, constants: seq<nat>, adds: bool, subs: bool, at: nat, value: nat)
    requires Prepared(s, regs, constants, adds, subs) && HasConstant(constants, at, value)
    ensures Constant(s, at, value)
  {
    hide Val;
    var i :| 0 <= i < |constants| && at == ConstantAt(i) && constants[i] == value;
  }

  lemma PreparedRegister(s: Space, regs: Space, constants: seq<nat>, adds: bool, subs: bool, r: nat)
    requires Prepared(s, regs, constants, adds, subs) && Register(r)
    ensures |regs| == REGISTERS && Word(s, r) == RegisterOf(regs, r)
  {
    RegisterBits(s, regs, constants, adds, subs, r);
  }

  /** A linked, bootable image of the items. */
  ghost predicate Bootable(c: Config, s: Space, begin: nat, items: seq<Item>, regs: Space, constants: seq<nat>, adds: bool, subs: bool)
    requires c.Valid()
  {
    && var b := Emit(c, START, items);
    && var code := Linked(c, begin, b, adds, subs);
    && 6 <= c.ab && WellFormed(c, code) && Image(c, code, s) && BRANCH_TABLE <= begin && BRANCH_TABLE <= code.limit
    && Prepared(s, regs, constants, adds, subs)
    && Holds(c, s, 0, EmptyLayer()[LINK := Row(c.LayerBits(), 0, begin)])
    && Holds(c, s, ReportAt(c, begin, b), ReportLayer(c))
    && Blank(s, ZERO_LAYER, c.LayerBits())
  }

  /** The report, the tables and links, the boot layer. */
  method LinkImage(l: Linker, ghost items: seq<Item>) returns (ok: bool)
    requires l.Valid() && l.built == Emit(l.C(), START, items)
    modifies l`built
    modifies l.program`codeEnd, l.program`layer, l.program`slot, l.program`layers, l.program.data
    ensures BranchesBound(Emit(l.C(), START, items + Tail())) && old(l.Enough(34, 0, 0)) ==> ok
    ensures ok ==> Bootable(l.C(), l.Bits(), CodeBegin(l.capacity), items + Tail(), l.regs, l.constants, l.adds, l.subs)
  {
    hide l.Open, Emit, Bootable, BranchesBound, Singles, ReportOps, Resolved, JumpsLed, ReportTied, Lengthened;
    l.ConfigValid();
    var report;
    ok, report := l.BindReport();
    if !ok { return; }
    ghost var b := l.built;
    BoundSoFar(l.C(), items, b);
    ok := l.Resolve(report);
    if !ok { return; }
    ghost var layers, s := l.program.layers, l.Bits();
    ok := l.ReportResult();
    if !ok { return; }
    TailIs(l.C(), items, b);
    ok := FinishImage(l, items + Tail(), report, layers, s, b);
  }

  /** Resolving comes before the copies of the report, which add no jumps. */
  lemma BoundSoFar(c: Config, items: seq<Item>, b: Builder)
    requires c.Valid() && b == EmitItem(c, Emit(c, START, items), Bind(RETURN))
    ensures BranchesBound(Emit(c, START, items + Tail())) ==> BranchesBound(b)
    ensures Lengthened(b, Emit(c, START, items + Tail()))
  {
    hide Emit, Singles, ReportOps, EmitItem;
    TailIs(c, items, b);
    StraightLength(c, b, Singles(ReportOps(32)));
    var r := Emit(c, START, items + Tail());
    if BranchesBound(r) {
      forall i {:trigger b.done[i]} | 0 <= i < |b.done| && Turns(b.done[i].exit)
        ensures b.done[i].exit.tag in b.labels && b.labels[b.done[i].exit.tag] <= |b.done|
      {
        assert r.done[i] == b.done[i];
        SmallLabels(c, items, b, b.done[i].exit.tag);
      }
    }
  }

  lemma StraightLength(c: Config, b: Builder, chunks: seq<seq<Op>>)
    requires c.Valid()
    ensures Lengthened(b, EmitItem(c, b, Straight(chunks)))
  {
    hide EmitChunks;
    ChunksNext(c, b, chunks);
  }

  lemma SmallLabels(c: Config, items: seq<Item>, b: Builder, tag: nat)
    requires c.Valid() && b == EmitItem(c, Emit(c, START, items), Bind(RETURN)) && tag in b.labels
    ensures b.labels[tag] <= |b.done|
  {
    hide Emit;
    assert FromItems(START, []);
    EmitFrom(c, START, items);
  }

  lemma TailIs(c: Config, items: seq<Item>, b: Builder)
    requires c.Valid() && b == EmitItem(c, Emit(c, START, items), Bind(RETURN))
    ensures Emit(c, START, items + Tail()) == EmitItem(c, b, Straight(Singles(ReportOps(32))))
  {
    hide Singles, ReportOps, EmitItem;
    var last := Straight(Singles(ReportOps(32)));
    ItemLast(c, START, items, Bind(RETURN));
    ItemLast(c, START, items + [Bind(RETURN)], last);
    assert items + [Bind(RETURN)] + [last] == items + Tail();
  }

  /** The channel's row, the link to the layer of zeros, the boot layer. */
  method FinishImage(l: Linker, ghost items: seq<Item>, report: nat, ghost layers: seq<seq<Row>>, ghost s: Space, ghost b: Builder) returns (ok: bool)
    requires l.Valid() && l.built == Close(Emit(l.C(), START, items), Next) && Lengthened(b, Emit(l.C(), START, items))
    requires Resolved(s, l.C(), l.jumps, l.labels, report, |l.jumps|) && l.Since(layers, s)
    requires JumpsLed(l.C(), l.program.codeBegin, l.program.layers, l.built) && ReportTied(l.C(), l.program.codeBegin, report, b)
    requires l.program.layer == LayerAt(l.C(), l.program.codeBegin, |l.built.done|)
    modifies l.program.data, l.program`layers
    ensures ok && Bootable(l.C(), l.Bits(), CodeBegin(l.capacity), items, l.regs, l.constants, l.adds, l.subs)
  {
    hide l.Open, Prepared, LabelsTied, JumpsTied, Partly, Written, Same, Span, Resolved, Holds, Blank, Emit, SetRow, LayerAt, EmptyLayer, JumpsLed, Lengthened,
      ReportTied, BranchesBound, ReportLayer, Bootable, CodeBegin, Earlier, Emitted, LinkedLayers, Closing;
    l.ConfigValid();
    l.TablesFit();
    ghost var s1, sheet := l.Bits(), l.program.Now();
    EmittedNow(l, items, report, s, b);
    PutClosing(l);
    ClosingIs(l, items, report, s, s1, sheet);
    return true;
  }

  /** The image has been closed: the last layer is the report's, and the boot layer is there. */
  ghost predicate Closing(p: Program, s1: Space, sheet: Sheet)
    reads p, p.data
  {
    && p.Valid() && LayerAt(p.C(), p.codeBegin, |sheet.layers|) <= p.codeLimit
    && sheet.layers != [] && |sheet.layers[|sheet.layers| - 1]| == SLOTS
    && p.layers == LinkedLayers(p.C(), sheet.layers)
    && Same(s1, p.Bits(), Span(0, p.C().LayerBits()) + Span(p.codeBegin, p.codeLimit - p.codeBegin))
    && Holds(p.C(), p.Bits(), 0, EmptyLayer()[LINK := Row(p.C().LayerBits(), 0, p.codeBegin)])
    && Blank(p.Bits(), ZERO_LAYER, p.C().LayerBits())
  }

  method PutClosing(l: Linker)
    requires l.Valid() && l.program.layer == LayerAt(l.C(), l.program.codeBegin, |l.built.done|)
    modifies l.program.data, l.program`layers
    ensures Closing(l.program, old(l.Bits()), old(l.program.Now()))
  {
    hide l.Open, Closing, LayerAt, Blank;
    l.ConfigValid();
    CloseReady(l);
    CloseProgram(l.program);
  }

  lemma CloseReady(l: Linker)
    requires l.Valid()
    ensures var p := l.program;
      && p.Valid() && RowValid(p.C(), Row(32, OUTPUT, STATUS)) && |p.layers| == |l.built.done| + 1
      && BRANCH_TABLE <= p.codeBegin && p.C().LayerBits() <= ZERO_LAYER && ZERO_LAYER + p.C().LayerBits() <= BRANCH_TABLE
      && Blank(p.Bits(), ZERO_LAYER, p.C().LayerBits())
  {
    hide LabelsTied, JumpsTied, Written, Prepared, Pow2;
    l.LayerCount();
    l.TablesFit();
    ZeroLayerFits(l.C(), l.Bits(), l.regs, l.constants, l.adds, l.subs);
    ReportRowFits(l.C());
  }

  method CloseProgram(p: Program)
    requires p.Valid() && RowValid(p.C(), Row(32, OUTPUT, STATUS)) && p.layer == LayerAt(p.C(), p.codeBegin, |p.layers| - 1)
    requires BRANCH_TABLE <= p.codeBegin && p.C().LayerBits() <= ZERO_LAYER && ZERO_LAYER + p.C().LayerBits() <= BRANCH_TABLE
    requires Blank(p.Bits(), ZERO_LAYER, p.C().LayerBits())
    modifies p.data, p`layers
    ensures Closing(p, old(p.Bits()), old(p.Now()))
  {
    hide Written, Same, Span, Holds, Blank, SetRow, LayerAt, EmptyLayer, RowValid, Pow2;
    ghost var s1 := p.Bits();
    LayerInside(p.C(), p.codeBegin, |p.layers| - 1, |p.layers|);
    p.PutRow(p.layer, |p.layers| - 1, 2, Row(32, OUTPUT, STATUS));
    ghost var s2 := p.Bits();
    BlankStays(s1, s2, p.codeBegin, p.codeEnd - p.codeBegin, p.C());
    SetSize(old(p.layers), |p.layers| - 1, 2, Row(32, OUTPUT, STATUS));
    var ok := p.Finish(ZERO_LAYER);
    CodeThen(p.C(), s1, s2, p.Bits(), p.codeBegin, p.codeEnd, p.codeLimit);
  }

  lemma SetSize(layers: seq<seq<Row>>, i: nat, k: nat, row: Row)
    requires i < |layers| && k < |layers[i]|
    ensures |SetRow(layers, i, k, row)| == |layers| && |SetRow(layers, i, k, row)[i]| == |layers[i]|
  {
  }

  lemma CodeThen(c: Config, s1: Space, s2: Space, t: Space, begin: nat, end: nat, limit: nat)
    requires c.Valid() && begin <= end <= limit && Same(s1, s2, Span(begin, end - begin))
    requires Same(s2, t, Span(0, c.LayerBits()) + Span(begin, limit - begin))
    ensures Same(s1, t, Span(0, c.LayerBits()) + Span(begin, limit - begin))
  {
    hide Same, Span;
    var area := Span(0, c.LayerBits()) + Span(begin, limit - begin);
    SpanInside(begin, limit - begin, begin, end - begin);
    SameThen(s1, s2, t, Span(begin, end - begin), area, area);
  }

  lemma EmittedNow(l: Linker, items: seq<Item>, report: nat, s: Space, b: Builder)
    requires l.Valid() && l.C().Valid() && l.built == Close(Emit(l.C(), START, items), Next) && Lengthened(b, Emit(l.C(), START, items))
    requires Resolved(s, l.C(), l.jumps, l.labels, report, |l.jumps|)
    requires JumpsLed(l.C(), l.program.codeBegin, l.program.layers, l.built) && ReportTied(l.C(), l.program.codeBegin, report, b)
    ensures Emitted(l.C(), l.capacity, s, l.Bits(), l.program.Now(), items, l.labels, report, l.jumps, l.branches, l.regs, l.constants, l.adds, l.subs)
  {
    hide Prepared, LabelsTied, JumpsTied, Partly, Resolved, JumpsLed, ReportTied, Lengthened, Emit, Written;
    PlaceKept(l.C(), l.program.codeBegin, report, b, Emit(l.C(), START, items));
  }

  /** A closed image is bootable. */
  lemma ClosingIs(l: Linker, items: seq<Item>, report: nat, s: Space, s1: Space, sheet: Sheet)
    requires l.C().Valid() && Closing(l.program, s1, sheet) && l.program.codeBegin == CodeBegin(l.capacity)
    requires Emitted(l.C(), l.capacity, s, s1, sheet, items, l.labels, report, l.jumps, l.branches, l.regs, l.constants, l.adds, l.subs)
    requires l.program.codeBegin <= l.program.codeLimit && Same(s, s1, Span(l.program.codeBegin, l.program.codeLimit - l.program.codeBegin))
    ensures Bootable(l.C(), l.Bits(), CodeBegin(l.capacity), items, l.regs, l.constants, l.adds, l.subs)
  {
    hide Emitted, Written, Same, Span, Holds, Blank, SetRow, LayerAt, EmptyLayer, LinkedLayers, Bootable, CodeBegin;
    Spaces(l.C(), s, s1, l.Bits(), l.program.codeBegin, l.program.codeLimit);
    LinkedIs(l.C(), l.capacity, s, s1, l.Bits(), sheet, items, l.labels, report, l.jumps, l.branches, l.program.codeLimit, l.regs, l.constants, l.adds, l.subs);
  }

  lemma ZeroLayerFits(c: Config, s: Space, regs: Space, constants: seq<nat>, adds: bool, subs: bool)
    requires c.Valid() && Prepared(s, regs, constants, adds, subs)
    ensures Blank(s, ZERO_LAYER, c.LayerBits()) && c.LayerBits() <= ZERO_LAYER && ZERO_LAYER + c.LayerBits() <= BRANCH_TABLE
  {
    BlankPart(s, ZERO_LAYER, ZERO_BITS, ZERO_LAYER, c.LayerBits());
  }

  lemma ReportRowFits(c: Config)
    requires c.Valid() && BRANCH_TABLE <= Pow2(c.ab) && c.LayerBits() < Pow2(c.ab - 1)
    ensures RowValid(c, Row(32, OUTPUT, STATUS))
  {
    EnoughBits(c);
    hide Pow2;
  }

  lemma BlankStays(s: Space, t: Space, at: nat, n: nat, c: Config)
    requires c.Valid() && Blank(s, ZERO_LAYER, c.LayerBits()) && ZERO_LAYER + c.LayerBits() <= BRANCH_TABLE <= at && Same(s, t, Span(at, n))
    ensures Blank(t, ZERO_LAYER, c.LayerBits())
  {
    SpansApart(ZERO_LAYER, c.LayerBits(), at, n);
    BlankKept(s, t, Span(at, n), ZERO_LAYER, c.LayerBits());
  }

  /** What is written from the copies of the report on lies in the code or in the processor. */
  lemma Spaces(c: Config, s: Space, s1: Space, t: Space, begin: nat, limit: nat)
    requires c.Valid() && begin <= limit && Same(s, s1, Span(begin, limit - begin))
    requires Same(s1, t, Span(0, c.LayerBits()) + Span(begin, limit - begin))
    ensures Same(s, t, Span(0, c.LayerBits()) + Span(begin, limit - begin))
  {
    hide Same, Span;
    var area := Span(0, c.LayerBits()) + Span(begin, limit - begin);
    SameThen(s, s1, t, Span(begin, limit - begin), area, area);
  }

  lemma PlaceKept(c: Config, begin: nat, report: nat, b: Builder, b': Builder)
    requires c.Valid() && ReportTied(c, begin, report, b) && Lengthened(b, b')
    ensures ReportTied(c, begin, report, b')
  {
  }

  /** What the linker knows when the copies of the report have been emitted. */
  ghost predicate Emitted(c: Config, cap: Capacity, s: Space, s1: Space, sheet: Sheet, items: seq<Item>, labels: seq<Option<nat>>, report: nat,
                          jumps: seq<JumpEntry>, branches: seq<nat>, regs: Space, constants: seq<nat>, adds: bool, subs: bool)
    requires c.Valid()
  {
    var b := Emit(c, START, items);
    var begin := CodeBegin(cap);
    && Laid(c, begin, sheet, Close(b, Next)) && |jumps| <= cap.jumps
    && LabelsTied(c, begin, labels, Close(b, Next)) && ReportTied(c, begin, report, b)
    && JumpsTied(c, begin, jumps, branches, Close(b, Next)) && JumpsLed(c, begin, sheet.layers, Close(b, Next))
    && Resolved(s, c, jumps, labels, report, |jumps|) && Prepared(s1, regs, constants, adds, subs)
  }

  lemma LinkedIs(c: Config, cap: Capacity, s: Space, s1: Space, t: Space, sheet: Sheet, items: seq<Item>, labels: seq<Option<nat>>, report: nat,
                 jumps: seq<JumpEntry>, branches: seq<nat>, limit: nat, regs: Space, constants: seq<nat>, adds: bool, subs: bool)
    requires c.Valid() && c.LayerBits() < Pow2(c.ab - 1)
    requires Emitted(c, cap, s, s1, sheet, items, labels, report, jumps, branches, regs, constants, adds, subs)
    requires LayerAt(c, CodeBegin(cap), |sheet.layers|) <= limit <= |t| <= Pow2(c.ab) && CodeBegin(cap) <= limit
    requires sheet.layers != [] && |sheet.layers[|sheet.layers| - 1]| == SLOTS && Written(c, t, CodeBegin(cap), LinkedLayers(c, sheet.layers))
    requires var area := Span(0, c.LayerBits()) + Span(CodeBegin(cap), limit - CodeBegin(cap)); Same(s, t, area) && Same(s1, t, area)
    requires Holds(c, t, 0, EmptyLayer()[LINK := Row(c.LayerBits(), 0, CodeBegin(cap))])
    requires Blank(t, ZERO_LAYER, c.LayerBits())
    ensures Bootable(c, t, CodeBegin(cap), items, regs, constants, adds, subs)
  {
    hide Prepared, LabelsTied, JumpsTied, JumpsLed, Written, Resolved, ReportTied, Holds, Blank, Emit, SetRow, LayerAt, EmptyLayer, Same, Span, BranchesBound, Finished,
      OpsRows, LinkedLayers, ReportLayer, WellFormed, Image, Pow2;
    var b := Emit(c, START, items);
    EnoughBits(c);
    BeginFits(c, CodeBegin(cap), |b.done| + 2);
    CodeApart(c, cap, limit);
    var area := Span(0, c.LayerBits()) + Span(CodeBegin(cap), limit - CodeBegin(cap));
    PreparedKept(s1, t, area, regs, constants, adds, subs);
    ResolvedKept(s, t, c, cap, area, jumps, labels, report);
    BranchesAreBound(t, c, CodeBegin(cap), items, labels, report, jumps, branches, b);
    LinkedImage(c, cap, t, sheet, b, labels, report, jumps, branches, adds, subs);
  }

  lemma CodeApart(c: Config, cap: Capacity, limit: nat)
    requires c.Valid() && CodeBegin(cap) <= limit
    ensures var area := Span(0, c.LayerBits()) + Span(CodeBegin(cap), limit - CodeBegin(cap));
      area !! Span(CONSTANT_BASE, BRANCH_TABLE - CONSTANT_BASE) && area !! Span(BRANCH_TABLE, CodeBegin(cap) - BRANCH_TABLE)
  {
  }

  /** The branch tables lie in front of the code. */
  lemma ResolvedKept(s: Space, t: Space, c: Config, cap: Capacity, area: iset<int>, jumps: seq<JumpEntry>, labels: seq<Option<nat>>, report: nat)
    requires Resolved(s, c, jumps, labels, report, |jumps|) && |jumps| <= cap.jumps
    requires Same(s, t, area) && area !! Span(BRANCH_TABLE, CodeBegin(cap) - BRANCH_TABLE)
    ensures Resolved(t, c, jumps, labels, report, |jumps|)
  {
    hide Val, Pow2, Span, Same, Entry;
    forall j {:trigger jumps[j]} | 0 <= j < |jumps| ensures TableReady(t, jumps[j], j, labels, report) {
      assert TableReady(s, jumps[j], j, labels, report);
      EntryKept(s, t, cap, area, j);
    }
  }

  /** The tables of a linker have what the branches need. */
  lemma BranchesAreBound(s: Space, c: Config, begin: nat, items: seq<Item>, labels: seq<Option<nat>>, report: nat, jumps: seq<JumpEntry>,
                         branches: seq<nat>, b: Builder)
    requires c.Valid() && b == Emit(c, START, items)
    requires LabelsTied(c, begin, labels, Close(b, Next)) && JumpsTied(c, begin, jumps, branches, Close(b, Next)) && ReportTied(c, begin, report, b)
    requires Resolved(s, c, jumps, labels, report, |jumps|)
    ensures BranchesBound(b)
  {
    assert FromItems(START, []);
    EmitFrom(c, START, items);
    hide Entry, Emit, LayerAt, JumpsTied;
    forall i {:trigger b.done[i]} | 0 <= i < |b.done| && Turns(b.done[i].exit)
      ensures b.done[i].exit.tag in b.labels && b.labels[b.done[i].exit.tag] <= |b.done|
    {
      var j := TurnEntry(c, begin, jumps, branches, b, i);
      assert TableReady(s, jumps[j], j, labels, report);
      assert jumps[j].tag == b.done[i].exit.tag;
    }
  }

  // ---- What a function starts with, and what it leaves.

  const MEMORY_BYTES: nat := 8192

  /** The value of a register when a function starts: frame and stack pointer, then the arguments. */
  function StartValue(arguments: seq<nat>, r: nat): nat {
    if r == REG_BASE || r == REG_BASE + 32 then MEMORY_BYTES
    else if RESULT <= r && r % 32 == 0 && (r - RESULT) / 32 < |arguments| then arguments[(r - RESULT) / 32]
    else 0
  }

  /** The state that a function starts in. */
  function Start(arguments: seq<nat>): State {
    State(seq(16, i requires 0 <= i < 16 => StartValue(arguments, Address(i))), Order(false, false, false, false, false))
  }

  predicate Arguments(arguments: seq<nat>) {
    |arguments| <= 6 && forall k | 0 <= k < |arguments| :: arguments[k] < WORD
  }

  lemma StartValid(arguments: seq<nat>)
    requires Arguments(arguments)
    ensures Start(arguments).Valid()
  {
    forall i: Reg {:trigger Start(arguments).regs[i]} ensures Start(arguments).regs[i] < WORD {
    }
  }

  /** Frame and stack pointer at the end of the memory, the arguments behind them, zeros in all other registers, no flag set. */
  lemma StartIs(arguments: seq<nat>)
    requires Arguments(arguments)
    ensures var s := Start(arguments);
      && s.Valid() && s.order == Order(false, false, false, false, false)
      && s.regs[0] == 8192 && s.regs[1] == 8192
      && (forall k | 0 <= k < |arguments| :: s.regs[k + 2] == arguments[k])
      && (forall i | |arguments| + 2 <= i < 16 :: s.regs[i] == 0)
  {
    StartValid(arguments);
    forall k | 0 <= k < |arguments| ensures Start(arguments).regs[k + 2] == arguments[k] {
      assert Address(k + 2) == RESULT + 32 * k;
    }
  }

  /** The registers hold what a function starts with. */
  ghost predicate Started(regs: Space, arguments: seq<nat>) {
    |regs| == REGISTERS && forall r: nat {:trigger Register(r)} | Register(r) :: RegisterIs(regs, r, StartValue(arguments, r))
  }

  /** The first bytes of a number have gone out, lowest first. */
  ghost predicate Reported(before: Space, after: Space, v: nat, count: nat)
    requires count <= 4
  {
    exists bytes: seq<bv8> :: && |bytes| == 4 && (forall k | 0 <= k < 4 :: bytes[k] as nat == v / Pow2(8 * k) % 0x100)
                              && after == before + Unpack(bytes)[..8 * count]
  }

  /** What a course of the emulator amounts to if the image is done after n steps. */
  ghost predicate Answers(worlds: seq<World>, outs: seq<Peer>, outcomes: seq<Outcome>, n: nat, regs: Words)
    requires |worlds| == |outcomes| + 1 && |outs| == |outcomes|
  {
    var first, last := worlds[0], worlds[|outcomes|];
    && (forall k {:trigger outcomes[k]} | 0 <= k < |outcomes| :: outcomes[k] == if k < n then Done else Idle)
    && last.input == first.input
    && (|outcomes| < n ==> last.output == first.output)
    && (0 < n <= |outcomes| ==>
         && Reported(first.output, last.output, regs[2], Min(4, outs[n - 1].room))
         && Holding(last.space, regs))
  }

  /**
   * After a fixed number of steps, whatever is on the other side of the channels, the emulator has written the four
   * bytes of the result register (or as many as the other side has taken) and nothing else, has read nothing, and is idle.
   */
  ghost predicate Delivers(c: Config, s: Space, regs: Words) {
    exists n: nat :: DeliversIn(c, s, regs, n)
  }

  ghost predicate DeliversIn(c: Config, s: Space, regs: Words, n: nat) {
    && n > 0
    && forall worlds: seq<World>, outs: seq<Peer>, inps: seq<Peer>, outcomes: seq<Outcome> {:trigger Course(c, worlds, outs, inps, outcomes)} ::
         Course(c, worlds, outs, inps, outcomes) && worlds[0].space == s ==> Answers(worlds, outs, outcomes, n, regs)
  }

  /** If the text returns with some registers, the emulator started on the space delivers them. */
  ghost predicate Realizes(c: Config, s: Space, text: seq<Statement>, arguments: seq<nat>)
    requires Arguments(arguments) && Start(arguments).Valid()
  {
    forall n: nat, end: State {:trigger ExecuteSteps(text, Running(0, Start(arguments)), n), Returned(end)} ::
      ExecuteSteps(text, Running(0, Start(arguments)), n) == Some(Returned(end)) ==> Delivers(c, s, end.regs)
  }

  /** The data that the program of an image leaves. */
  ghost predicate Left(s: Space, u: Space, regs: Words) {
    && OUTPUT + 32 <= |u| && Same(s, u, WorkSpace()) && Holding(u, regs)
    && Reported([], u[OUTPUT..OUTPUT + 32], regs[2], 4)
  }

  // ---- From the image to its answer.

  lemma ProvidedBy(s: Space, regs: Space, constants: seq<nat>, adds: bool, subs: bool, lines: seq<Line>)
    requires Prepared(s, regs, constants, adds, subs) && Supplied(constants, adds, subs, lines)
    ensures Provided(s, lines, adds, subs)
  {
    hide Prepared, HasConstant, Multiply.Constant, Constants;
    forall i {:trigger lines[i]} | 0 <= i < |lines| ensures Aided(s, lines[i].st, lines[i].aid) && Equipped(lines[i].st, adds, subs) {
      AidsThere(s, regs, constants, adds, subs, lines[i].st, lines[i].aid);
    }
  }

  lemma AidsThere(s: Space, regs: Space, constants: seq<nat>, adds: bool, subs: bool, st: Statement, aid: Aids)
    requires Prepared(s, regs, constants, adds, subs) && HasAids(constants, st, aid)
    ensures Aided(s, st, aid)
  {
    hide Prepared, HasConstant, Multiply.Constant, Constants;
    if |Constants(st)| > 0 { PreparedConstant(s, regs, constants, adds, subs, aid.first, Constants(st)[0]); }
    if |Constants(st)| > 1 { PreparedConstant(s, regs, constants, adds, subs, aid.second, Constants(st)[1]); }
  }

  lemma StartShown(c: Config, code: Code, s: Space, regs: Space, constants: seq<nat>, adds: bool, subs: bool, arguments: seq<nat>)
    requires Tables(c, code, s) && Prepared(s, regs, constants, adds, subs) && Started(regs, arguments) && Arguments(arguments)
    ensures Shown(c, code, s, Start(arguments))
  {
    StartValid(arguments);
    FlagsBlank(s, regs, constants, adds, subs);
    TablesRange(c, code, s);
    hide Tables, Prepared, Word, StartValue;
    forall i: Reg {:trigger Start(arguments).regs[i]} ensures Word(s, Address(i)) == Start(arguments).regs[i] {
      AddressRegister(i);
      PreparedRegister(s, regs, constants, adds, subs, Address(i));
      assert RegisterIs(regs, Address(i), StartValue(arguments, Address(i)));
    }
  }

  lemma FlagsBlank(s: Space, regs: Space, constants: seq<nat>, adds: bool, subs: bool)
    requires Prepared(s, regs, constants, adds, subs)
    ensures Flagged(s, Order(false, false, false, false, false))
  {
  }

  /** The items of a text, run behind the boot layer, leave the registers that the text returns with. */
  lemma TextLeaves(c: Config, s: Space, begin: nat, names: Names, lines: seq<Line>, limit: nat, regs: Space, constants: seq<nat>, adds: bool, subs: bool,
                   arguments: seq<nat>, n: nat, end: State) returns (u: Space)
    requires c.Valid() && Arguments(arguments) && Start(arguments).Valid() && Started(regs, arguments)
    requires Bootable(c, s, begin, AllItems(names, lines) + Tail(), regs, constants, adds, subs)
    requires Separate(names, lines, limit) && Supplied(constants, adds, subs, lines)
    requires ExecuteSteps(TextOf(lines), Running(0, Start(arguments)), n) == Some(Returned(end))
    ensures LinkedRuns(c, begin, AllItems(names, lines) + Tail(), adds, subs, s, u) && Left(s, u, end.regs)
  {
    var items := AllItems(names, lines);
    var code := Linked(c, begin, Emit(c, START, items + Tail()), adds, subs);
    hide WellFormed, Image, Prepared, Emit, Linked, Tables, Runs, Holds, Blank, Same, AllItems, Tail, ReportLayer, Unpack, Word, Started, Separate, Supplied, Provided,
      Shown, ExecuteSteps, Execute, Path, LayerAt, EmptyLayer, WorkSpace, Span, Holding, Start;
    ImageLimit(c, code, s);
    LinkedFields(c, begin, items + Tail(), adds, subs);
    PreparedTables(c, code, s, regs, constants);
    ProvidedBy(s, regs, constants, adds, subs, lines);
    StartShown(c, code, s, regs, constants, adds, subs, arguments);
    var t := TextRuns(c, code, names, lines, limit, s, Start(arguments), n);
    EndShown(c, code, names, lines, s, end, t);
    var bytes;
    u, bytes := ReportRuns(c, code, items, s, t);
    LeftIs(s, t, u, end.regs, bytes);
  }

  lemma EndShown(c: Config, code: Code, names: Names, lines: seq<Line>, s: Space, end: State, t: Space)
    requires c.Valid() && Follows(c, code, names, lines, s, Returned(end), t)
    ensures Path(c, code, AllItems(names, lines) + Tail(), 0, s, |AllItems(names, lines)| + 1, t)
    ensures Tables(c, code, t) && Holding(t, end.regs) && Same(s, t, WorkSpace())
  {
  }

  lemma LeftIs(s: Space, t: Space, u: Space, regs: Words, bytes: seq<bv8>)
    requires Same(s, t, WorkSpace()) && Same(t, u, Span(OUTPUT, 32)) && Holding(t, regs)
    requires OUTPUT + 32 <= |u| && RESULT + 32 <= |t| && |bytes| == 4 && u[OUTPUT..OUTPUT + 32] == Unpack(bytes)
    requires forall k | 0 <= k < 4 :: bytes[k] as nat == Word(t, RESULT) / Pow2(8 * k) % 0x100
    ensures Left(s, u, regs)
  {
    hide Word, Unpack, Pow2;
    assert Span(OUTPUT, 32) <= WorkSpace();
    hide Same;
    SameThen(s, t, u, WorkSpace(), Span(OUTPUT, 32), WorkSpace());
    SameSize(t, u, Span(OUTPUT, 32));
    forall i: Reg {:trigger regs[i]} ensures Word(u, Address(i)) == regs[i] {
      WordKept(t, u, Span(OUTPUT, 32), Address(i));
      assert Word(t, Address(i)) == regs[i];
    }
    assert Address(2) == RESULT;
    assert Word(t, Address(2)) == regs[2];
    assert [] + Unpack(bytes)[..32] == Unpack(bytes);
  }

  lemma ImageLimit(c: Config, code: Code, s: Space)
    requires WellFormed(c, code) && Image(c, code, s)
    ensures code.limit <= |s|
  {
  }

  lemma LinkedFields(c: Config, begin: nat, items: seq<Item>, adds: bool, subs: bool)
    requires c.Valid()
    ensures var code := Linked(c, begin, Emit(c, START, items), adds, subs);
      code.fixed == BRANCH_TABLE && code.adds == adds && code.subs == subs
  {
  }

  /** The emulator, started on the image, comes to the layer of the report. */
  lemma ImageTicks(c: Config, s: Space, begin: nat, items: seq<Item>, u: Space, regs: Space, constants: seq<nat>, adds: bool, subs: bool)
    returns (w: Space, n: nat)
    requires c.Valid() && Bootable(c, s, begin, items, regs, constants, adds, subs)
    requires LinkedRuns(c, begin, items, adds, subs, s, u) && Same(s, u, WorkSpace())
    ensures c.LayerBits() <= |s| && Ticks(c, s, w, n) && |w| == |s| && Agree(c, u, w)
    ensures Holds(c, w, 0, ReportLayer(c)) && c.LayerBits() <= ZERO_LAYER && Blank(w, ZERO_LAYER, c.LayerBits())
  {
    BootRange(c, s, begin, items, regs, constants, adds, subs);
    var b := Emit(c, START, items);
    hide WellFormed, Image, Prepared, Emit, Linked, LinkedRuns, Holds, Blank, Same, WorkSpace, LayerAt, EmptyLayer, ReportLayer, Ticks, Agree, ReportAt;
    WorkFree(c, ReportAt(c, begin, b));
    HoldsKept(c, s, u, WorkSpace(), ReportAt(c, begin, b), ReportLayer(c));
    BlankKept(s, u, WorkSpace(), ZERO_LAYER, c.LayerBits());
    w, n := Delivered(c, begin, items, adds, subs, s, u);
    BlankAgrees(c, u, w);
  }

  lemma BootRange(c: Config, s: Space, begin: nat, items: seq<Item>, regs: Space, constants: seq<nat>, adds: bool, subs: bool)
    requires c.Valid() && Bootable(c, s, begin, items, regs, constants, adds, subs)
    ensures BRANCH_TABLE <= ReportAt(c, begin, Emit(c, START, items)) && c.LayerBits() <= begin && c.LayerBits() <= |s|
    ensures BRANCH_TABLE <= |s|
  {
    hide Emit, WellFormed, Image, Prepared, Holds, Blank;
    BeginFits(c, begin, |Emit(c, START, items).done| + 1);
    PreparedSize(s, regs, constants, adds, subs);
  }

  lemma PreparedSize(s: Space, regs: Space, constants: seq<nat>, adds: bool, subs: bool)
    requires Prepared(s, regs, constants, adds, subs)
    ensures BRANCH_TABLE <= |s|
  {
  }

  /** Scratch words, registers and the output lie apart from the layers, and from the layer of zeros. */
  lemma WorkFree(c: Config, at: nat)
    requires c.Valid() && BRANCH_TABLE <= at
    ensures c.LayerBits() <= ZERO_LAYER && Span(ZERO_LAYER, c.LayerBits()) !! WorkSpace()
    ensures Span(at, c.LayerBits()) !! WorkSpace()
  {
  }

  /** Every bootable image of a text computes it. */
  lemma ImageDelivers(c: Config, s: Space, begin: nat, names: Names, lines: seq<Line>, limit: nat, regs: Space, constants: seq<nat>, adds: bool, subs: bool,
                      arguments: seq<nat>)
    requires c.Valid() && Arguments(arguments) && Start(arguments).Valid() && Started(regs, arguments)
    requires Bootable(c, s, begin, AllItems(names, lines) + Tail(), regs, constants, adds, subs)
    requires Separate(names, lines, limit) && Supplied(constants, adds, subs, lines)
    ensures Realizes(c, s, TextOf(lines), arguments)
  {
    hide Bootable, Started, Separate, Supplied, Delivers, Emit, Tail, Ticks, Holds, ReportLayer, AllItems, ExecuteSteps, Execute, Left, Start;
    forall n: nat, end: State {:trigger ExecuteSteps(TextOf(lines), Running(0, Start(arguments)), n), Returned(end)} |
      ExecuteSteps(TextOf(lines), Running(0, Start(arguments)), n) == Some(Returned(end)) ensures Delivers(c, s, end.regs)
    {
      var u := TextLeaves(c, s, begin, names, lines, limit, regs, constants, adds, subs, arguments, n, end);
      LeftParts(s, u, end.regs);
      var w, ticks := ImageTicks(c, s, begin, AllItems(names, lines) + Tail(), u, regs, constants, adds, subs);
      DeliversAfter(c, s, u, w, ticks, end.regs);
    }
  }

  lemma LeftParts(s: Space, u: Space, regs: Words)
    requires Left(s, u, regs)
    ensures Same(s, u, WorkSpace())
  {
  }

  /** Quiet steps up to the report, the report, and then nothing more. */
  lemma DeliversAfter(c: Config, s: Space, u: Space, w: Space, n: nat, regs: Words)
    requires c.Valid() && c.LayerBits() <= |s| && Ticks(c, s, w, n) && |w| == |s| && Agree(c, u, w) && Left(s, u, regs)
    requires Holds(c, w, 0, ReportLayer(c)) && c.LayerBits() <= ZERO_LAYER && Blank(w, ZERO_LAYER, c.LayerBits())
    ensures Delivers(c, s, regs)
  {
    hide Ticks, Agree, Left, Holds, ReportLayer, Blank, Stepped, Answers;
    forall worlds: seq<World>, outs: seq<Peer>, inps: seq<Peer>, outcomes: seq<Outcome> {:trigger Course(c, worlds, outs, inps, outcomes)} |
      Course(c, worlds, outs, inps, outcomes) && worlds[0].space == s
      ensures |worlds| == |outcomes| + 1 && |outs| == |outcomes| && Answers(worlds, outs, outcomes, n + 1, regs)
    {
      CourseSizes(c, worlds, outs, inps, outcomes);
      CourseAnswers(c, worlds, outs, inps, outcomes, s, u, w, n, regs);
    }
    assert DeliversIn(c, s, regs, n + 1);
  }

  lemma CourseAnswers(c: Config, worlds: seq<World>, outs: seq<Peer>, inps: seq<Peer>, outcomes: seq<Outcome>,
                      s: Space, u: Space, w: Space, n: nat, regs: Words)
    requires Course(c, worlds, outs, inps, outcomes) && |worlds| == |outcomes| + 1 && |outs| == |inps| == |outcomes| && worlds[0].space == s
    requires c.Valid() && c.LayerBits() <= |s| && Ticks(c, s, w, n) && |w| == |s| && Agree(c, u, w) && Left(s, u, regs)
    requires Holds(c, w, 0, ReportLayer(c)) && c.LayerBits() <= ZERO_LAYER && Blank(w, ZERO_LAYER, c.LayerBits())
    ensures Answers(worlds, outs, outcomes, n + 1, regs)
  {
    hide Ticks, Agree, Left, Holds, ReportLayer, Blank, Course, Stepped, Active, Reported, Holding;
    CourseTicks(c, worlds, outs, inps, outcomes, 0, w, n);
    if n < |outcomes| {
      CourseStep(c, worlds, outs, inps, outcomes, n);
      LeftSize(s, u, regs);
      AgreeSize(c, u, w);
      ReportStep(c, worlds[n], outs[n], inps[n], worlds[n + 1], outcomes[n]);
      AgreeSize(c, w, worlds[n + 1].space);
      CourseIdle(c, worlds, outs, inps, outcomes, n + 1);
      LeftThere(c, s, u, w, worlds[n + 1].space, regs, Min(4, outs[n].room), worlds[n].output);
    }
  }

  /**
   * A run of the emulator on such an image never stops with an error; when it comes to rest, the result has been
   * written as far as the other side has taken it, and nothing else has been written or read.
   */
  lemma RunAnswers(c: Config, worlds: seq<World>, outs: seq<Peer>, inps: seq<Peer>, limit: nat, ticks: nat, reason: Stop,
                   s: Space, regs: Words)
    requires Ran(c, worlds, outs, inps, limit, ticks, reason) && |worlds| > 0 && worlds[0].space == s
    requires Delivers(c, s, regs)
    ensures reason != AtError
    ensures var last := worlds[|worlds| - 1];
      && last.input == worlds[0].input
      && (reason == AtRest ==>
            && ticks > 0
            && exists bytes: seq<bv8> :: && |bytes| == 4 && (forall k | 0 <= k < 4 :: bytes[k] as nat == regs[2] / Pow2(8 * k) % 0x100)
                                         && last.output == worlds[0].output + Unpack(bytes)[..8 * Min(4, outs[ticks - 1].room)])
  {
    hide Course, Active, Dones, DeliversIn, Holding;
    var n: nat :| DeliversIn(c, s, regs, n);
    DonesAre(ticks);
    match reason
    case AtError =>
      var outcomes := Dones(ticks) + [Error];
      assert outcomes[ticks] == Error;
      CourseSizes(c, worlds, outs[..ticks + 1], inps[..ticks + 1], outcomes);
      AnswersHold(c, worlds, outs[..ticks + 1], inps[..ticks + 1], outcomes, s, regs, n);
      assert false;
    case AtRest =>
      CourseSizes(c, worlds, outs[..ticks], inps[..ticks], Dones(ticks));
      RestIsEnd(c, worlds, outs[..ticks], inps[..ticks], ticks, s, regs, n);
      AnswersHold(c, worlds, outs[..ticks], inps[..ticks], Dones(ticks), s, regs, n);
    case AtLimit =>
      CourseSizes(c, worlds, outs[..ticks], inps[..ticks], Dones(ticks));
      AnswersHold(c, worlds, outs[..ticks], inps[..ticks], Dones(ticks), s, regs, n);
  }

  lemma AnswersHold(c: Config, worlds: seq<World>, outs: seq<Peer>, inps: seq<Peer>, outcomes: seq<Outcome>,
                    s: Space, regs: Words, n: nat)
    requires Course(c, worlds, outs, inps, outcomes) && |worlds| == |outcomes| + 1 && |outs| == |outcomes| && worlds[0].space == s
    requires DeliversIn(c, s, regs, n)
    ensures n > 0 && Answers(worlds, outs, outcomes, n, regs)
  {
    hide Answers, Stepped;
  }

  lemma DonesAre(n: nat)
    ensures |Dones(n)| == n && forall k {:trigger Dones(n)[k]} | 0 <= k < n :: Dones(n)[k] == Done
  {
  }

  /** The machine does not rest before the end: one more step would be idle. */
  lemma RestIsEnd(c: Config, worlds: seq<World>, outs: seq<Peer>, inps: seq<Peer>, ticks: nat,
                  s: Space, regs: Words, n: nat)
    requires Course(c, worlds, outs, inps, Dones(ticks)) && |worlds| == ticks + 1 && |outs| == |inps| == ticks && worlds[0].space == s
    requires c.Valid() && c.LayerBits() <= |worlds[ticks].space| && !Active(c, worlds[ticks].space)
    requires DeliversIn(c, s, regs, n)
    ensures ticks == n
  {
    hide Course, Active, Dones, DeliversIn, Holding;
    DonesAre(ticks);
    if ticks > n {
      assert Dones(ticks)[n] == Done;
      AnswersHold(c, worlds, outs, inps, Dones(ticks), s, regs, n);
      assert false;
    }
    if ticks < n {
      var peer := Peer(false, 0);
      var more, less, all, outcomes := outs + [peer], inps + [peer], worlds + [worlds[ticks]], Dones(ticks) + [Idle];
      assert more[..ticks] == outs && less[..ticks] == inps && more[..ticks + 1] == more && less[..ticks + 1] == less;
      IdleIs(c, worlds[ticks], peer);
      CourseMore(c, worlds, more, less, Dones(ticks), ticks, worlds[ticks], Idle);
      assert outcomes[ticks] == Idle;
      AnswersHold(c, all, more, less, outcomes, s, regs, n);
      assert false;
    }
  }

  lemma IdleIs(c: Config, w: World, peer: Peer)
    requires c.Valid() && c.LayerBits() <= |w.space| && !Active(c, w.space)
    ensures Stepped(c, w, peer, peer, w, Idle)
  {
  }

  lemma LeftSize(s: Space, u: Space, regs: Words)
    requires Left(s, u, regs)
    ensures BRANCH_TABLE <= |u|
  {
  }

  lemma AgreeSize(c: Config, s: Space, t: Space)
    requires c.Valid() && Agree(c, s, t)
    ensures |s| == |t| && c.LayerBits() <= |t|
  {
  }

  lemma LeftThere(c: Config, s: Space, u: Space, w: Space, x: Space, regs: Words, bytes: nat, before: Space)
    requires c.Valid() && Agree(c, u, w) && Agree(c, w, x) && Left(s, u, regs) && bytes <= 4
    ensures OUTPUT + 32 <= |w| && Reported(before, before + w[OUTPUT..OUTPUT + 8 * bytes], regs[2], bytes)
    ensures Holding(x, regs)
  {
    hide Unpack, Pow2, Same, Val;
    assert w[OUTPUT..OUTPUT + 8 * bytes] == u[OUTPUT..OUTPUT + 32][..8 * bytes];
    var spelled: seq<bv8> :| |spelled| == 4 && (forall k | 0 <= k < 4 :: spelled[k] as nat == regs[2] / Pow2(8 * k) % 0x100)
                             && u[OUTPUT..OUTPUT + 32] == [] + Unpack(spelled)[..32];
    assert ([] + Unpack(spelled)[..32])[..8 * bytes] == Unpack(spelled)[..8 * bytes];
    forall i: Reg {:trigger regs[i]} ensures Word(x, Address(i)) == regs[i] {
      RegisterRange(c, i);
      assert Word(u, Address(i)) == regs[i];
      ValFrame(w, u, Address(i), 32);
      ValFrame(x, w, Address(i), 32);
    }
  }

  lemma RegisterRange(c: Config, i: Reg)
    requires c.Valid()
    ensures c.LayerBits() <= Address(i) && Address(i) + 32 <= BRANCH_TABLE
  {
  }

  // ---- Linking a leaf.

  /** Room for a text, in an image of so many bytes. */
  predicate Ample(bytes: nat, ab: nat, cap: Capacity, text: seq<Statement>) {
    var n := NeedOf(text);
    && 32768 <= bytes && Accepts(bytes, ab, CodeBegin(cap), 8 * bytes)
    && n.labels <= cap.labels <= RETURN && n.turns <= cap.jumps && n.constants <= 256
    && CodeBegin(cap) + (n.layers + 35) * Config(ab).LayerBits() <= 8 * bytes
  }

  /** The emulator's default space of 16 Mbit and the default table sizes have room for texts of up to 880 layers. */
  lemma DefaultsAreAmple(text: seq<Statement>)
    requires var n := NeedOf(text); n.layers <= 880 && n.labels <= 32 && n.turns <= 64 && n.constants <= 256
    ensures Ample(2097152, 24, Capacity(32, 64, 32, 12), text) && CodeBegin(Capacity(32, 64, 32, 12)) == 65536
  {
    hide NeedOf;
    Pow2Add(8, 8);
    Pow2Add(16, 7);
    Pow2Add(16, 8);
    assert Pow2(7) == 128 && Pow2(8) == 256;
  }

  /** In particular for every text of at most 128 statements with few enough of the long ones and of those that take labels and jumps. */
  lemma SmallTextsFit(text: seq<Statement>)
    requires var divisions := set i: nat | i < |text| && text[i].Div?;
      && |text| <= 128
      && 5 * |divisions| + |set i: nat | i < |text| && (text[i].Label? || text[i].GoTo? || text[i].When? || text[i].Return? || text[i].Mul?)| <= 32
      && 185 * |divisions| + 166 * |set i: nat | i < |text| && text[i].Shift?|
         + 70 * |set i: nat | i < |text| && (text[i].Test? || text[i].Mul? || text[i].Extend?)| + 2 * |text| <= 880
    ensures Ample(2097152, 24, Capacity(32, 64, 32, 12), text)
  {
    hide NeedOf, Ample;
    NeedAtMost(text, set i: nat | i < |text| && text[i].Div?, set i: nat | i < |text| && text[i].Shift?,
               set i: nat | i < |text| && (text[i].Test? || text[i].Mul? || text[i].Extend?),
               set i: nat | i < |text| && (text[i].Label? || text[i].GoTo? || text[i].When? || text[i].Return? || text[i].Mul?));
    DefaultsAreAmple(text);
  }

  lemma AmpleSpare(bytes: nat, ab: nat, cap: Capacity, text: seq<Statement>)
    ensures Ample(bytes, ab, cap, text) ==> Times(8 * bytes - CodeBegin(cap) - Config(ab).LayerBits(), Config(ab).LayerBits()) >= NeedOf(text).layers + 34
  {
    hide NeedOf;
    if Ample(bytes, ab, cap, text) {
      var n, m := NeedOf(text).layers, Config(ab).LayerBits();
      assert (n + 34) * m + m == (n + 35) * m;
      TimesAtLeast(8 * bytes - CodeBegin(cap) - m, m, n + 34);
    }
  }

  lemma TimesAtLeast(a: nat, m: nat, k: nat)
    requires m > 0 && k * m <= a
    ensures Times(a, m) >= k
  {
    var q, r := a / m, a % m;
    assert a == m * q + r;
    if q < k {
      MulMonotone(m, q, k);
    }
  }

  /** The jumps of a statement that computes stay inside it. */
  lemma ComputesClosed(names: Names, st: Statement, aid: Aids)
    requires Computes(st)
    ensures Closed(ItemsOf(names, st, aid))
  {
    hide CompareOps, ExtendOps, ShiftChunks, BitwiseOps, AdderOps, Singles, DivItems, MulItems;
    match st
    case Mul(dst, src) => MultiplyClosed(Address(dst), Address(src), aid.first, aid.second, aid.tag);
    case Div(dst, src, signed, remainder) => DivideClosed(Address(dst), Address(src), signed, remainder, aid.first, aid.second, aid.tag);
    case _ =>
  }

  lemma MultiplyClosed(dst: nat, src: nat, zero: nat, one: nat, tag: nat)
    ensures Closed(MulItems(dst, src, zero, one, tag))
  {
    hide MulStart, MulBody, Singles;
    var items := MulItems(dst, src, zero, one, tag);
    assert Binds(items, tag) by { assert items[1] == Bind(tag); }
  }

  lemma DivideClosed(dst: nat, src: nat, signed: bool, remainder: bool, zero: nat, one: nat, tag: nat)
    ensures Closed(DivItems(dst, src, signed, remainder, zero, one, tag))
  {
    hide Closed, SizeItems, SignItems, DivLoopItems, Singles, DivStart, DivInit, EndOps;
    var first, last := Straight(Singles(DivStart(dst, src))), Straight(Singles(DivInit(zero, one)));
    StraightClosed(Singles(DivStart(dst, src)));
    StraightClosed(Singles(DivInit(zero, one)));
    StraightClosed(Singles(EndOps(dst, ResultAt(remainder))));
    SizeClosed(signed, DIV_NUM, DIV_NUM_SIGN, zero, tag);
    SizeClosed(signed, DIV_DEN, DIV_DEN_SIGN, zero, tag + 1);
    var lt := LoopTag(signed, tag);
    SizeClosed(signed, ResultAt(remainder), DIV_SIGN, zero, lt + 2);
    SignClosed(signed, remainder, zero, one);
    LoopClosed(zero, one, lt);
    var x, y := SizeItems(signed, DIV_NUM, DIV_NUM_SIGN, zero, tag), SizeItems(signed, DIV_DEN, DIV_DEN_SIGN, zero, tag + 1);
    ClosedThen([first], x);
    ClosedThen([first] + x, y);
    ClosedThen([first] + x + y, [last]);
    var z, w := SignItems(signed, remainder, zero, one), SizeItems(signed, ResultAt(remainder), DIV_SIGN, zero, lt + 2);
    ClosedThen(z, w);
    ClosedThen(z + w, [Straight(Singles(EndOps(dst, ResultAt(remainder))))]);
    ClosedThen(EnterItems(dst, src, signed, zero, one, tag), DivLoopItems(zero, one, lt, lt + 1));
    ClosedThen(EnterItems(dst, src, signed, zero, one, tag) + DivLoopItems(zero, one, lt, lt + 1), LeaveItems(dst, signed, remainder, zero, one, lt + 2));
  }

  lemma StraightClosed(chunks: seq<seq<Op>>)
    ensures Closed([Straight(chunks)])
  {
  }

  lemma SizeClosed(signed: bool, value: nat, sign: nat, zero: nat, tag: nat)
    ensures Closed(SizeItems(signed, value, sign, zero, tag))
  {
    hide AdderOps;
    if signed {
      assert Binds(AbsItems(value, sign, zero, tag), tag) by { assert AbsItems(value, sign, zero, tag)[2] == Bind(tag); }
    }
  }

  lemma SignClosed(signed: bool, remainder: bool, zero: nat, one: nat)
    ensures Closed(SignItems(signed, remainder, zero, one))
  {
    hide SignOps, Singles;
  }

  lemma LoopClosed(zero: nat, one: nat, tag: nat)
    ensures Closed(DivLoopItems(zero, one, tag, tag + 1))
  {
    hide DivHeadOps, DivReduce, DivMarkOps, Singles;
    var items := DivLoopItems(zero, one, tag, tag + 1);
    assert Binds(items, tag) && Binds(items, tag + 1) by { assert items[0] == Bind(tag) && items[4] == Bind(tag + 1); }
  }

  lemma {:induction false} ItemFrom(names: Names, lines: seq<Line>, x: Item) returns (i: nat)
    requires x in AllItems(names, lines)
    ensures i < |lines| && x in ItemsOf(names, lines[i].st, lines[i].aid)
    decreases |lines|
  {
    hide ItemsOf;
    var k := |lines| - 1;
    assert k >= 0;
    if x in AllItems(names, lines[..k]) {
      i := ItemFrom(names, lines[..k], x);
    } else {
      i := k;
    }
  }

  /** If the text defines the names it jumps to, every jump leads somewhere. */
  lemma LinesClosed(c: Config, names: Names, lines: seq<Line>, limit: nat)
    requires c.Valid() && Separate(names, lines, limit)
    requires forall i {:trigger lines[i]} | 0 <= i < |lines| && HasName(lines[i].st) :: Label(lines[i].st.name) in TextOf(lines)
    ensures BranchesBound(Emit(c, START, AllItems(names, lines) + Tail()))
  {
    hide Emit, BranchesBound, AllItems, Tail, Separate, ItemsOf;
    var items := AllItems(names, lines) + Tail();
    forall x {:trigger x in items} | x in items && (x.Goto? || x.Leap?) ensures Binds(items, x.tag) {
      LeadsSomewhere(names, lines, limit, x);
    }
    ClosedBound(c, items);
  }

  lemma LeadsSomewhere(names: Names, lines: seq<Line>, limit: nat, x: Item)
    requires Separate(names, lines, limit) && x in AllItems(names, lines) + Tail() && (x.Goto? || x.Leap?)
    requires forall i {:trigger lines[i]} | 0 <= i < |lines| && HasName(lines[i].st) :: Label(lines[i].st.name) in TextOf(lines)
    ensures Binds(AllItems(names, lines) + Tail(), x.tag)
  {
    TailShape();
    hide AllItems, Tail, ItemsOf, Separate;
    assert x in AllItems(names, lines) by { TailStraight(x); }
    var i := ItemFrom(names, lines, x);
    Around(names, lines, i);
    var st := lines[i].st;
    if Computes(st) {
      ComputesClosed(names, st, lines[i].aid);
      assert Binds(ItemsOf(names, st, lines[i].aid), x.tag);
    } else {
      SteersTo(names, st, lines[i].aid, x);
      if !st.Return? {
        var k :| 0 <= k < |lines| && TextOf(lines)[k] == Label(st.name);
        LabelFound(names, lines, limit, k);
        BindAtNone(AllItems(names, lines) + Tail(), x.tag);
      } else {
        assert Binds(Tail(), RETURN);
      }
    }
  }

  lemma TailStraight(x: Item)
    requires x.Goto? || x.Leap?
    ensures x !in Tail()
  {
    hide Singles, ReportOps;
  }

  lemma SteersTo(names: Names, st: Statement, aid: Aids, x: Item)
    requires !Computes(st) && x in ItemsOf(names, st, aid) && (x.Goto? || x.Leap?)
    ensures if st.Return? then x.tag == RETURN else HasName(st) && x.tag == TagOf(names, st.name)
  {
  }

  /** Every branch and jump of a list ends a layer. */
  lemma {:induction false} TurnsEmitted(c: Config, items: seq<Item>, x: Item) returns (i: nat)
    requires c.Valid() && x in items && (x.Goto? || x.Leap?)
    ensures var b := Emit(c, START, items); i < |b.done| && Turns(b.done[i].exit) && b.done[i].exit.tag == x.tag
    decreases |items|
  {
    hide SlotOfBuilder, EmitChunks;
    var k := |items| - 1;
    var b := Emit(c, START, items[..k]);
    assert items == items[..k] + [items[k]];
    DoneGrows(c, b, items[k]);
    if x in items[..k] {
      i := TurnsEmitted(c, items[..k], x);
    } else {
      i := |EmitItem(c, b, items[k]).done| - 1;
    }
  }

  lemma DoneGrows(c: Config, b: Builder, item: Item)
    requires c.Valid()
    ensures b.done <= EmitItem(c, b, item).done
  {
    hide SlotOfBuilder;
    if item.Straight? {
      ChunksNext(c, b, item.chunks);
    }
  }

  /** In an image that boots, all names that the text jumps to are defined. */
  lemma BootableNames(c: Config, s: Space, begin: nat, names: Names, lines: seq<Line>, limit: nat, regs: Space, constants: seq<nat>, adds: bool, subs: bool, i: nat)
    requires c.Valid() && Separate(names, lines, limit) && i < |lines| && HasName(lines[i].st)
    requires Bootable(c, s, begin, AllItems(names, lines) + Tail(), regs, constants, adds, subs)
    ensures Label(lines[i].st.name) in TextOf(lines)
  {
    hide AllItems, Tail, Emit, Prepared, Holds, Blank, Image, Separate;
    var items, st := AllItems(names, lines) + Tail(), lines[i].st;
    if st.Label? {
      assert TextOf(lines)[i] == st;
    } else {
      Steering(names, lines, i);
      var x := items[|AllItems(names, lines[..i])|];
      var b := Emit(c, START, items);
      var k := TurnsEmitted(c, items, x);
      TurnLabelled(c, begin, b, adds, subs, k);
      LabelsBound(c, items);
      NameIn(names, lines, limit, i);
      NameBound(names, lines, limit, st.name);
    }
  }

  lemma NameIn(names: Names, lines: seq<Line>, limit: nat, i: nat)
    requires Separate(names, lines, limit) && i < |lines| && HasName(lines[i].st)
    ensures lines[i].st.name in names
  {
  }

  lemma TurnLabelled(c: Config, begin: nat, b: Builder, adds: bool, subs: bool, k: nat)
    requires c.Valid() && WellFormed(c, Linked(c, begin, b, adds, subs)) && k < |b.done| && Turns(b.done[k].exit)
    ensures b.done[k].exit.tag in b.labels
  {
    assert Linked(c, begin, b, adds, subs).layers[k] == b.done[k];
  }

  lemma NameBound(names: Names, lines: seq<Line>, limit: nat, name: nat)
    requires Separate(names, lines, limit) && name in names && Binds(AllItems(names, lines) + Tail(), names[name])
    ensures Label(name) in TextOf(lines)
  {
    TailShape();
    hide AllItems, Tail;
    var i := LinesBound(names, lines, names[name]);
    assert TextOf(lines)[i] == lines[i].st;
    assert names[lines[i].st.name] == names[name];
  }

  lemma BootableAcceptable(c: Config, s: Space, begin: nat, names: Names, lines: seq<Line>, limit: nat, regs: Space, constants: seq<nat>, adds: bool, subs: bool,
                           entry: nat)
    requires c.Valid() && Separate(names, lines, limit) && WellRead(entry, TextOf(lines))
    requires Bootable(c, s, begin, AllItems(names, lines) + Tail(), regs, constants, adds, subs)
    ensures Acceptable(entry, TextOf(lines))
  {
    hide Bootable, Separate, AllItems, Tail, WellRead;
    var text := TextOf(lines);
    forall i {:trigger text[i]} | 0 <= i < |text| && HasName(text[i]) ensures Label(text[i].name) in text {
      BootableNames(c, s, begin, names, lines, limit, regs, constants, adds, subs, i);
    }
  }

  /**
   * Compiles and links a leaf function. Whenever this succeeds, the emulator started on the image reports the result register
   * that the text returns with, for these arguments. With ample room it succeeds if and only if the text is acceptable: it begins with its
   * own label, holds a return, defines no label twice and every name that it jumps to, has nothing but a label behind a jump or return,
   * and a comparison in front of every branch.
   */
  method LinkLeaf(data: array<bv8>, ab: nat, cap: Capacity, entry: nat, text: seq<Statement>, arguments: seq<nat>) returns (ok: bool)
    requires cap.labels <= RETURN && forall k | 0 <= k < |arguments| :: arguments[k] < WORD
    modifies data
    ensures ok ==> Acceptable(entry, text) && Arguments(arguments) && Start(arguments).Valid()
    ensures ok ==> Realizes(Config(ab), Unpack(data[..]), text, arguments)
    ensures Ample(data.Length, ab, cap, text) && |arguments| <= 6 ==>
      (ok <==>
        && text != [] && text[0] == Label(entry) && Return in text
        && (forall i, j | 0 <= i < j < |text| && text[i].Label? :: text[j] != text[i])
        && (forall i | 0 < i < |text| && !text[i].Label? :: !text[i - 1].GoTo? && !text[i - 1].Return?)
        && (forall i | 0 <= i < |text| && text[i].When? :: exists j :: 0 <= j < i && text[j].Test?)
        && (forall i, name | 0 <= i < |text| && (text[i] == GoTo(name) || (text[i].When? && text[i].name == name)) :: Label(name) in text))
  {
    AcceptableIs(entry, text);
    hide Realizes, Acceptable, Ample;
    ok := LinkWithin(data, ab, cap, entry, text, arguments);
  }

  method LinkWithin(data: array<bv8>, ab: nat, cap: Capacity, entry: nat, text: seq<Statement>, arguments: seq<nat>) returns (ok: bool)
    requires cap.labels <= RETURN && forall k | 0 <= k < |arguments| :: arguments[k] < WORD
    modifies data
    ensures ok ==> Acceptable(entry, text) && Arguments(arguments) && Start(arguments).Valid()
    ensures ok ==> Realizes(Config(ab), Unpack(data[..]), text, arguments)
    ensures Ample(data.Length, ab, cap, text) && |arguments| <= 6 && Acceptable(entry, text) ==> ok
  {
    hide Realizes, NeedOf, Acceptable, Ample;
    AmpleFits(data.Length, ab, cap, text);
    if data.Length < 32768 || |arguments| > 6 {
      return false;
    }
    StartValid(arguments);
    forall i | 0 <= i < data.Length {
      data[i] := 0;
    }
    NoBits(data[..], 0, data.Length);
    AmpleSpare(data.Length, ab, cap, text);
    var p := ProgramInit(data, ab, CodeBegin(cap), 8 * data.Length);
    if p == null {
      return false;
    }
    ok := LinkText(p, cap, entry, text, arguments);
  }

  lemma AmpleFits(bytes: nat, ab: nat, cap: Capacity, text: seq<Statement>)
    ensures var n := NeedOf(text);
      Ample(bytes, ab, cap, text) ==> (
        && 32768 <= bytes && Accepts(bytes, ab, CodeBegin(cap), 8 * bytes)
        && n.labels <= cap.labels <= RETURN && n.turns <= cap.jumps && n.constants <= 256)
  {
    hide NeedOf;
  }

  method LinkText(p: Program, cap: Capacity, entry: nat, text: seq<Statement>, arguments: seq<nat>) returns (ok: bool)
    requires p.Valid() && p.codeBegin == CodeBegin(cap) && p.Now() == Sheet([EmptyLayer()], FIRST) && cap.labels <= RETURN
    requires Blank(p.Bits(), 0, BRANCH_TABLE) && Arguments(arguments) && Start(arguments).Valid()
    modifies p, p.data
    ensures ok ==> Acceptable(entry, text) && Realizes(p.C(), p.Bits(), text, arguments)
    ensures var n := NeedOf(text);
      old(p.Spare()) >= n.layers + 34 && cap.labels >= n.labels && cap.jumps >= n.turns && n.constants <= 256 && Acceptable(entry, text) ==> ok
  {
    hide Emit, Bootable, Realizes, Written, Started, Prepared, LabelsTied, JumpsTied, Partly, AllItems, Separate, Supplied, NeedOf, WellRead, ReadText, BranchesBound;
    var l := new Linker(p, cap);
    hide l.Open;
    l.ConfigValid();
    PutArguments(l, arguments);
    var compiler := new Compiler(l, entry);
    ok := compiler.Text(text);
    if !ok { return; }
    ghost var names, lines := compiler.names, compiler.lines;
    if Acceptable(entry, text) {
      AcceptableLines(entry, text, lines);
      LinesClosed(l.C(), names, lines, |l.labels|);
    }
    ok := LinkImage(l, AllItems(names, lines));
    if ok {
      ImageDelivers(l.C(), l.Bits(), CodeBegin(cap), names, lines, |l.labels|, l.regs, l.constants, l.adds, l.subs, arguments);
      BootableAcceptable(l.C(), l.Bits(), CodeBegin(cap), names, lines, |l.labels|, l.regs, l.constants, l.adds, l.subs, entry);
    }
  }

  lemma AcceptableLines(entry: nat, text: seq<Statement>, lines: seq<Line>)
    requires Acceptable(entry, text) && TextOf(lines) == text
    ensures forall i {:trigger lines[i]} | 0 <= i < |lines| && HasName(lines[i].st) :: Label(lines[i].st.name) in TextOf(lines)
  {
    hide WellRead;
    forall i {:trigger lines[i]} | 0 <= i < |lines| && HasName(lines[i].st) ensures Label(lines[i].st.name) in TextOf(lines) {
      assert text[i] == lines[i].st;
    }
  }

  /** The registers a function starts with: frame and stack pointer, and the arguments. */
  method PutArguments(l: Linker, arguments: seq<nat>)
    requires l.Valid() && l.regs == ZeroRegisters() && Arguments(arguments)
    modifies l`regs, l.program.data
    ensures l.Valid() && Started(l.regs, arguments)
  {
    hide l.Open, RegisterSet, StartedUpTo, StartValue, Started, RegisterIs, Register, RegisterOf, ZeroRegisters;
    PointerRegisters();
    ghost var r0 := l.regs;
    NothingStarted(arguments);
    var ok := l.SetRegister(REG_BASE, MEMORY_BYTES);
    ghost var r1 := l.regs;
    ok := l.SetRegister(REG_BASE + 32, MEMORY_BYTES);
    PointersSet(r0, r1, l.regs, arguments);
    var k := 0;
    while k < |arguments|
      invariant 0 <= k <= |arguments| && l.Valid() && StartedUpTo(l.regs, arguments, k)
    {
      ghost var before := l.regs;
      ArgumentRegister(k);
      ok := l.SetRegister(RESULT + 32 * k, arguments[k]);
      ArgumentSet(before, l.regs, arguments, k);
      k := k + 1;
    }
    AllStarted(l.regs, arguments);
  }

  lemma PointerRegisters()
    ensures Register(REG_BASE) && Register(REG_BASE + 32)
  {
  }

  lemma ArgumentRegister(k: nat)
    requires k < 6
    ensures Register(RESULT + 32 * k)
  {
  }

  /** Pointers and the first k arguments are in their registers; the other registers are zero. */
  ghost predicate StartedUpTo(regs: Space, arguments: seq<nat>, k: nat) {
    && k <= |arguments| && |regs| == REGISTERS
    && forall r: nat {:trigger Register(r)} | Register(r) :: RegisterIs(regs, r, StartValue(arguments[..k], r))
  }

  lemma NothingStarted(arguments: seq<nat>)
    ensures forall r: nat {:trigger Register(r)} | Register(r) :: RegisterIs(ZeroRegisters(), r, 0)
  {
    forall r: nat {:trigger Register(r)} | Register(r) ensures RegisterIs(ZeroRegisters(), r, 0) {
      ZeroNumber(ZeroRegisters(), r - REG_BASE, 32);
    }
  }

  lemma PointersSet(r0: Space, r1: Space, r2: Space, arguments: seq<nat>)
    requires RegisterSet(r0, r1, REG_BASE, MEMORY_BYTES) && RegisterSet(r1, r2, REG_BASE + 32, MEMORY_BYTES)
    requires forall r: nat {:trigger Register(r)} | Register(r) :: RegisterIs(r0, r, 0)
    ensures StartedUpTo(r2, arguments, 0)
  {
    hide RegisterOf;
    forall r: nat {:trigger Register(r)} | Register(r) ensures RegisterIs(r2, r, StartValue(arguments[..0], r)) {
    }
  }

  lemma ArgumentSet(before: Space, after: Space, arguments: seq<nat>, k: nat)
    requires k < |arguments| <= 6 && StartedUpTo(before, arguments, k) && RegisterSet(before, after, RESULT + 32 * k, arguments[k])
    ensures StartedUpTo(after, arguments, k + 1)
  {
    hide RegisterOf;
    forall r: nat {:trigger Register(r)} | Register(r) ensures RegisterIs(after, r, StartValue(arguments[..k + 1], r)) {
      assert RegisterIs(before, r, StartValue(arguments[..k], r));
    }
  }

  lemma AllStarted(regs: Space, arguments: seq<nat>)
    requires StartedUpTo(regs, arguments, |arguments|)
    ensures Started(regs, arguments)
  {
    assert arguments[..|arguments|] == arguments;
  }

}
