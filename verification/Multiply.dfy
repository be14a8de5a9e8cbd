/** Overlapping word shifts, and 32-bit multiplication as a run-time loop over layers. */
module Multiply {
  import opened Bits
  import opened Machine
  import opened Layers
  import opened Programs
  import opened Emission
  import opened Items
  import opened Tours
  import opened Lookups
  import opened Arith
  import opened Compare

  const MUL_LEFT: nat := 34240
  const MUL_RIGHT: nat := 34272
  const MUL_ACC: nat := 34304
  const MUL_ADDEND: nat := 34336
  const MUL_MARKER: nat := 34368
  const MUL_STOP: nat := 34400

  function Word(s: Space, at: nat): (v: nat)
    requires at + 32 <= |s|
    ensures v < Pow2(32)
  {
    Val(s, at, 32)
  }

  lemma WordBound(s: Space, at: nat)
    requires at + 32 <= |s|
    ensures Word(s, at) < WORD
  {
    TopBit(s, at);
  }

  function Product(x: nat, y: nat): nat {
    x * y
  }

  function LowBit(v: nat): bool {
    v % 2 == 1
  }

  /** Bits 0..30 copied one position up over themselves, then bit 0 set: the word doubles. */
  lemma ShiftUp(s: Space, at: nat, from: nat)
    requires at + 32 <= |s| && from < |s| && !(at <= from < at + 32)
    ensures var t := CopyBits(CopyBits(s, 31, at + 1, at), 1, at, from);
      Word(t, at) + WORD * Bit(s[at + 31]) == 2 * Word(s, at) + Bit(s[from])
  {
    hide Val, Pow2;
    var u := CopyBits(s, 31, at + 1, at);
    CopyInside(s, 31, at + 1, at, at + 1, 31);
    CopyOutside(u, 1, at, from, at + 1, 31);
    ValHead(CopyBits(u, 1, at, from), at, 31);
    ValSnoc(s, at, 31);
    Pow2Word();
  }

  /** Bits 1..31 copied one position down over themselves, then bit 31 cleared: the word halves. */
  lemma ShiftDown(s: Space, at: nat, from: nat)
    requires at + 32 <= |s| && from < |s| && !(at <= from < at + 32) && !s[from]
    ensures var t := CopyBits(CopyBits(s, 31, at, at + 1), 1, at + 31, from);
      Word(s, at) == 2 * Word(t, at) + Bit(s[at])
  {
    hide Val, Pow2;
    var u := CopyBits(s, 31, at, at + 1);
    CopyInside(s, 31, at, at + 1, at, 31);
    CopyOutside(u, 1, at + 31, from, at, 31);
    ValHead(s, at, 31);
    ValSnoc(CopyBits(u, 1, at + 31, from), at, 31);
  }

  lemma ValHead(s: Space, at: nat, w: nat)
    requires at + w + 1 <= |s|
    ensures Val(s, at, w + 1) == Bit(s[at]) + 2 * Val(s, at + 1, w)
    ensures LowBit(Val(s, at, w + 1)) == s[at]
  {
  }

  function UpOps(at: nat, from: nat): seq<Op> {
    [Plain(31, at + 1, at), Plain(1, at, from)]
  }

  function DownOps(at: nat, from: nat): seq<Op> {
    [Plain(31, at, at + 1), Plain(1, at + 31, from)]
  }

  lemma WordParts(c: Config, code: Code, t: Space, at: nat, from: nat)
    requires c.Valid() && Writable(c, code, t, at, 32) && Readable(c, t, from, 1)
    ensures Writable(c, code, t, at, 31) && Writable(c, code, t, at + 1, 31) && Readable(c, t, at, 31) && Readable(c, t, at + 1, 31)
    ensures at + 32 <= |t| && from < |t|
  {
  }

  lemma StillThere(c: Config, code: Code, t: Space, v: Space, area: iset<int>, at: nat, from: nat)
    requires c.Valid() && Writable(c, code, t, at, 32) && Readable(c, t, from, 1) && Same(t, v, area)
    ensures Writable(c, code, v, at, 1) && Writable(c, code, v, at + 31, 1) && Readable(c, v, from, 1)
  {
  }

  /** A word shift at the end of a run of operations. */
  lemma DoUp(c: Config, code: Code, s: Space, ops: seq<Op>, t: Space, at: nat, from: nat) returns (u: Space)
    requires c.Valid() && Exec(c, code, s, ops) == Some(t)
    requires Writable(c, code, t, at, 32) && Readable(c, t, from, 1) && Apart(at, 32, from, 1)
    ensures Exec(c, code, s, ops + UpOps(at, from)) == Some(u)
    ensures Same(t, u, Span(at, 32))
    ensures Word(u, at) + WORD * Bit(t[at + 31]) == 2 * Word(t, at) + Bit(t[from])
  {
    hide Exec, Val, Word, Pow2, Same, Span, Writable, Readable;
    WordParts(c, code, t, at, from);
    ShiftUp(t, at, from);
    var v := DoCopy(c, code, s, ops, t, 31, at + 1, at);
    StillThere(c, code, t, v, Span(at + 1, 31), at, from);
    u := DoCopy(c, code, s, ops + [Plain(31, at + 1, at)], v, 1, at, from);
    SpanInside(at, 32, at + 1, 31);
    SpanInside(at, 32, at, 1);
    SameThen(t, v, u, Span(at + 1, 31), Span(at, 1), Span(at, 32));
    assert ops + UpOps(at, from) == ops + [Plain(31, at + 1, at)] + [Plain(1, at, from)];
  }

  lemma DoDown(c: Config, code: Code, s: Space, ops: seq<Op>, t: Space, at: nat, from: nat) returns (u: Space)
    requires c.Valid() && Exec(c, code, s, ops) == Some(t)
    requires Writable(c, code, t, at, 32) && Readable(c, t, from, 1) && Apart(at, 32, from, 1) && !t[from]
    ensures Exec(c, code, s, ops + DownOps(at, from)) == Some(u)
    ensures Same(t, u, Span(at, 32))
    ensures Word(t, at) == 2 * Word(u, at) + Bit(t[at])
  {
    hide Exec, Val, Word, Pow2, Same, Span, Writable, Readable;
    WordParts(c, code, t, at, from);
    ShiftDown(t, at, from);
    var v := DoCopy(c, code, s, ops, t, 31, at, at + 1);
    StillThere(c, code, t, v, Span(at, 31), at, from);
    u := DoCopy(c, code, s, ops + [Plain(31, at, at + 1)], v, 1, at + 31, from);
    SpanInside(at, 32, at, 31);
    SpanInside(at, 32, at + 31, 1);
    SameThen(t, v, u, Span(at, 31), Span(at + 31, 1), Span(at, 32));
    assert ops + DownOps(at, from) == ops + [Plain(31, at, at + 1)] + [Plain(1, at + 31, from)];
  }

  /** The linker's adder on three words. */
  function WordAdder(subtract: bool, dst: nat, left: nat, right: nat): Adder {
    Adder(dst, left, right, if subtract then SUB_TABLE else ADD_TABLE, TEMPORARY, CARRY)
  }

  ghost function SumArea(dst: nat): iset<int> {
    Span(dst, 32) + Span(TEMPORARY, 3)
  }

  /** Words the adder may take: apart from its tables and temporaries, and in place or disjoint. */
  predicate AdderWords(c: Config, code: Code, s: Space, dst: nat, left: nat, right: nat)
    requires c.Valid()
  {
    && Writable(c, code, s, dst, 32) && Readable(c, s, left, 32) && Readable(c, s, right, 32)
    && Apart(dst, 32, ADD_TABLE, 51) && Apart(left, 32, ADD_TABLE, 51) && Apart(right, 32, ADD_TABLE, 51)
    && (dst == left || Apart(dst, 32, left, 32)) && (dst == right || Apart(dst, 32, right, 32))
  }

  /** An addition or subtraction at the end of a run of operations. */
  lemma DoAdder(c: Config, code: Code, s: Space, ops: seq<Op>, t: Space, subtract: bool, dst: nat, left: nat, right: nat)
    returns (u: Space)
    requires if subtract then code.subs else code.adds
    requires Tables(c, code, t) && Exec(c, code, s, ops) == Some(t) && AdderWords(c, code, t, dst, left, right)
    ensures Exec(c, code, s, ops + AdderOps(WordAdder(subtract, dst, left, right), 32)) == Some(u)
    ensures Same(t, u, SumArea(dst))
    ensures if subtract
      then Word(u, dst) + Word(t, right) == Word(t, left) + WORD * Bit(u[CARRY])
      else Word(u, dst) + WORD * Bit(u[CARRY]) == Word(t, left) + Word(t, right)
  {
    var a := WordAdder(subtract, dst, left, right);
    assert AdderPlaced(c, code, t, a) && AdderTable(t, a.table, subtract) by { hide Val, EntryHolds, Exec; }
    hide Exec, Val, EntryHolds, Pow2, AdderTable;
    Pow2Word();
    u := AdderRun(c, code, t, a, subtract, 32);
    ExecAppend(c, code, s, ops, AdderOps(a, 32));
  }

  /** A word constant of the linker. */
  ghost predicate Constant(s: Space, at: nat, v: nat) {
    CONSTANT_BASE <= at && at + 32 <= REG_BASE <= |s| && Word(s, at) == v
  }

  lemma ConstantBit(s: Space, at: nat, v: nat)
    requires Constant(s, at, v)
    ensures s[at] == LowBit(v)
  {
    ValHead(s, at, 31);
  }

  predicate Register(at: nat) {
    REG_BASE <= at && at + 32 <= REG_BASE + 512 && at % 32 == 0
  }

  function AndOps(k: nat): seq<Op> {
    seq(k, j requires 0 <= j < k => GateOp(And, MUL_ADDEND + j, MUL_LEFT + j, MUL_RIGHT))
  }

  lemma AndOpsSnoc(k: nat)
    ensures AndOps(k + 1) == AndOps(k) + [GateOp(And, MUL_ADDEND + k, MUL_LEFT + k, MUL_RIGHT)]
    ensures AndOps(0) == []
  {
  }

  /** The addend is the left factor or zero, by the low bit of the right factor. */
  lemma {:induction false} AndRun(c: Config, code: Code, s: Space, k: nat) returns (t: Space)
    requires Tables(c, code, s) && k <= 32
    ensures Exec(c, code, s, AndOps(k)) == Some(t)
    ensures Same(s, t, Span(MUL_ADDEND, 32))
    ensures Val(t, MUL_ADDEND, k) == if s[MUL_RIGHT] then Val(s, MUL_LEFT, k) else 0
    decreases k
  {
    hide Exec, Tables, Val, Pow2, AndOps;
    TablesRange(c, code, s);
    if k > 0 {
      AndOpsSnoc(k - 1);
    }
    if k == 0 {
      AndOpsSnoc(0);
      t := s;
      ExecNone(c, code, s);
      ValNone(s, MUL_ADDEND);
      ValNone(s, MUL_LEFT);
    } else {
      var j := k - 1;
      var u := AndRun(c, code, s, j);
      TablesKept(c, code, s, u, Span(MUL_ADDEND, 32));
      t := DoGate(c, code, s, AndOps(j), u, And, MUL_ADDEND + j, MUL_LEFT + j, MUL_RIGHT);
      SameVal(u, t, Span(MUL_ADDEND + j, 1), MUL_ADDEND, j);
      ValSnoc(t, MUL_ADDEND, j);
      ValSnoc(s, MUL_LEFT, j);
    }
  }

  function MulShiftOps(zero: nat): seq<Op> {
    [Plain(1, MUL_STOP, MUL_MARKER + 31)] + UpOps(MUL_LEFT, zero) + DownOps(MUL_RIGHT, zero) + UpOps(MUL_MARKER, zero)
  }

  ghost function MulArea(): iset<int> {
    Span(MUL_LEFT, 161) + Span(TEMPORARY, 3)
  }

  /** The shifts of a round: the left factor and the marker double, the right factor halves. */
  lemma MulShift(c: Config, code: Code, s: Space, zero: nat) returns (t: Space)
    requires Tables(c, code, s) && Constant(s, zero, 0)
    ensures Exec(c, code, s, MulShiftOps(zero)) == Some(t)
    ensures Same(s, t, Span(MUL_LEFT, 64) + Span(MUL_MARKER, 33))
    ensures t[MUL_STOP] == s[MUL_MARKER + 31]
    ensures Word(t, MUL_LEFT) + WORD * Bit(s[MUL_LEFT + 31]) == 2 * Word(s, MUL_LEFT)
    ensures Word(s, MUL_RIGHT) == 2 * Word(t, MUL_RIGHT) + Bit(s[MUL_RIGHT])
    ensures Word(t, MUL_MARKER) + WORD * Bit(s[MUL_MARKER + 31]) == 2 * Word(s, MUL_MARKER)
  {
    hide Exec, Tables, Val, Pow2;
    TablesRange(c, code, s);
    ExecNone(c, code, s);
    ConstantBit(s, zero, 0);
    var ops := [Plain(1, MUL_STOP, MUL_MARKER + 31)];
    var s1 := DoCopy(c, code, s, [], s, 1, MUL_STOP, MUL_MARKER + 31);
    assert [] + ops == ops;
    var s2 := DoUp(c, code, s, ops, s1, MUL_LEFT, zero);
    var s3 := DoDown(c, code, s, ops + UpOps(MUL_LEFT, zero), s2, MUL_RIGHT, zero);
    t := DoUp(c, code, s, ops + UpOps(MUL_LEFT, zero) + DownOps(MUL_RIGHT, zero), s3, MUL_MARKER, zero);
    SameVal(s, s1, Span(MUL_STOP, 1), MUL_LEFT, 32);
    SameVal(s2, s3, Span(MUL_RIGHT, 32), MUL_LEFT, 32);
    SameVal(s3, t, Span(MUL_MARKER, 32), MUL_LEFT, 32);
    SameVal(s, s1, Span(MUL_STOP, 1), MUL_RIGHT, 32);
    SameVal(s1, s2, Span(MUL_LEFT, 32), MUL_RIGHT, 32);
    SameVal(s3, t, Span(MUL_MARKER, 32), MUL_RIGHT, 32);
    SameVal(s, s1, Span(MUL_STOP, 1), MUL_MARKER, 32);
    SameVal(s1, s2, Span(MUL_LEFT, 32), MUL_MARKER, 32);
    SameVal(s2, s3, Span(MUL_RIGHT, 32), MUL_MARKER, 32);
  }

  /** One round of the schoolbook loop keeps accumulator + left * right modulo the word size. */
  lemma MulStep(l: nat, r: nat, a: nat, b: nat, x: nat, y: nat, l': nat, r': nat, a': nat)
    requires r == 2 * r' + b && l' + WORD * y == 2 * l && b < 2 && a' + WORD * x == a + (if b == 1 then l else 0)
    ensures (a' + l' * r') % WORD == (a + l * r) % WORD
  {
    var k := x + y * r';
    assert l' * r' == 2 * l * r' - WORD * (y * r') by {
      assert (2 * l - WORD * y) * r' == 2 * l * r' - WORD * (y * r');
    }
    assert l * r == 2 * l * r' + l * b;
    assert l * b == if b == 1 then l else 0;
    assert a + l * r == a' + l' * r' + WORD * k;
    ModShift(a' + l' * r', k);
  }

  lemma ModShift(n: nat, k: nat)
    ensures (n + WORD * k) % WORD == n % WORD
  {
    DivModUnique(WORD, n / WORD + k, n % WORD);
    Distribute(WORD, n / WORD, k);
  }

  function MulBody(zero: nat): seq<seq<Op>> {
    Singles(AndOps(32)) + [AdderOps(WordAdder(false, MUL_ACC, MUL_ACC, MUL_ADDEND), 32)] + Singles(MulShiftOps(zero))
  }

  lemma MulFlat(zero: nat)
    ensures Flat(MulBody(zero)) ==
      AndOps(32) + AdderOps(WordAdder(false, MUL_ACC, MUL_ACC, MUL_ADDEND), 32) + MulShiftOps(zero)
  {
    hide AndOps, AdderOps, MulShiftOps, Flat;
    var adder := AdderOps(WordAdder(false, MUL_ACC, MUL_ACC, MUL_ADDEND), 32);
    FlatAppend(Singles(AndOps(32)) + [adder], Singles(MulShiftOps(zero)));
    FlatAppend(Singles(AndOps(32)), [adder]);
    FlatSingles(AndOps(32));
    FlatSingles(MulShiftOps(zero));
    FlatOne(adder);
  }

  lemma ConstantKept(c: Config, code: Code, s: Space, t: Space, area: iset<int>, at: nat, v: nat)
    requires Constant(s, at, v) && Same(s, t, area) && area !! Fixed()
    ensures Constant(t, at, v)
  {
    hide Val, Pow2;
    SameFixed(s, t, area, at, 32);
  }

  /** One round of the loop body. */
  lemma MulRound(c: Config, code: Code, s: Space, zero: nat) returns (t: Space)
    requires code.adds
    requires Tables(c, code, s) && Constant(s, zero, 0)
    ensures Exec(c, code, s, Flat(MulBody(zero))) == Some(t)
    ensures Same(s, t, MulArea()) && Tables(c, code, t) && Constant(t, zero, 0)
    ensures (Word(t, MUL_ACC) + Word(t, MUL_LEFT) * Word(t, MUL_RIGHT)) % WORD
      == (Word(s, MUL_ACC) + Word(s, MUL_LEFT) * Word(s, MUL_RIGHT)) % WORD
    ensures Word(t, MUL_RIGHT) == Word(s, MUL_RIGHT) / 2
    ensures t[MUL_STOP] == s[MUL_MARKER + 31]
    ensures Word(t, MUL_MARKER) + WORD * Bit(s[MUL_MARKER + 31]) == 2 * Word(s, MUL_MARKER)
  {
    hide Exec, Tables, Val, Pow2, Flat, MulBody, AndOps, AdderOps, MulShiftOps, Constant;
    MulFlat(zero);
    TablesRange(c, code, s);
    var s1 := AndRun(c, code, s, 32);
    TablesKept(c, code, s, s1, Span(MUL_ADDEND, 32));
    var s2 := DoAdder(c, code, s, AndOps(32), s1, false, MUL_ACC, MUL_ACC, MUL_ADDEND);
    TablesKept(c, code, s1, s2, SumArea(MUL_ACC));
    ConstantKept(c, code, s, s1, Span(MUL_ADDEND, 32), zero, 0);
    ConstantKept(c, code, s1, s2, SumArea(MUL_ACC), zero, 0);
    t := MulShift(c, code, s2, zero);
    var last := Span(MUL_LEFT, 64) + Span(MUL_MARKER, 33);
    TablesKept(c, code, s2, t, last);
    ConstantKept(c, code, s2, t, last, zero, 0);
    ExecAppend(c, code, s, AndOps(32) + AdderOps(WordAdder(false, MUL_ACC, MUL_ACC, MUL_ADDEND), 32), MulShiftOps(zero));
    MulFrames(s, s1, s2, t);
    MulStep(Word(s, MUL_LEFT), Word(s, MUL_RIGHT), Word(s, MUL_ACC), Bit(s[MUL_RIGHT]),
      Bit(s2[CARRY]), Bit(s[MUL_LEFT + 31]), Word(t, MUL_LEFT), Word(t, MUL_RIGHT), Word(t, MUL_ACC));
  }

  lemma MulFrames(s: Space, s1: Space, s2: Space, t: Space)
    requires |s| >= REG_BASE + 2048
    requires Same(s, s1, Span(MUL_ADDEND, 32)) && Same(s1, s2, SumArea(MUL_ACC))
    requires Same(s2, t, Span(MUL_LEFT, 64) + Span(MUL_MARKER, 33))
    ensures Same(s, t, MulArea())
    ensures Word(s1, MUL_ACC) == Word(s, MUL_ACC) && Word(t, MUL_ACC) == Word(s2, MUL_ACC)
    ensures Word(s2, MUL_LEFT) == Word(s, MUL_LEFT) && Word(s2, MUL_RIGHT) == Word(s, MUL_RIGHT)
    ensures Word(s2, MUL_MARKER) == Word(s, MUL_MARKER)
    ensures s2[MUL_RIGHT] == s[MUL_RIGHT] && s2[MUL_LEFT + 31] == s[MUL_LEFT + 31]
      && s2[MUL_MARKER + 31] == s[MUL_MARKER + 31]
  {
    hide Val, Pow2;
    var last := Span(MUL_LEFT, 64) + Span(MUL_MARKER, 33);
    SameVal(s, s1, Span(MUL_ADDEND, 32), MUL_ACC, 32);
    SameVal(s2, t, last, MUL_ACC, 32);
    SameThen(s, s1, s2, Span(MUL_ADDEND, 32), SumArea(MUL_ACC), Span(MUL_ADDEND, 32) + SumArea(MUL_ACC));
    SameVal(s, s2, Span(MUL_ADDEND, 32) + SumArea(MUL_ACC), MUL_LEFT, 32);
    SameVal(s, s2, Span(MUL_ADDEND, 32) + SumArea(MUL_ACC), MUL_RIGHT, 32);
    SameVal(s, s2, Span(MUL_ADDEND, 32) + SumArea(MUL_ACC), MUL_MARKER, 32);
    SameThen(s, s2, t, Span(MUL_ADDEND, 32) + SumArea(MUL_ACC), last, MulArea());
  }

  function MulStart(dst: nat, src: nat, zero: nat, one: nat): seq<Op> {
    [] + [Plain(32, MUL_LEFT, dst)] + [Plain(32, MUL_RIGHT, src)] + [Plain(32, MUL_ACC, zero)] + [Plain(32, MUL_MARKER, one)]
  }

  /** What multiply32 emits: operands, a loop head, the round, a branch back, the result. */
  function MulItems(dst: nat, src: nat, zero: nat, one: nat, tag: nat): seq<Item> {
    [Straight(Singles(MulStart(dst, src, zero, one))), Bind(tag), Straight(MulBody(zero)),
     Goto(tag, MUL_STOP, true), Straight([[Plain(32, dst, MUL_ACC)]])]
  }

  /** At the head of round n the marker has one bit set and the product is still owed. */
  ghost predicate MulHead(c: Config, code: Code, s: Space, n: nat, product: nat, zero: nat) {
    && Tables(c, code, s) && code.adds && Constant(s, zero, 0) && n <= 32
    && (n < 32 ==> Word(s, MUL_MARKER) == Pow2(n))
    && Word(s, MUL_RIGHT) < Pow2(32 - n)
    && (Word(s, MUL_ACC) + Word(s, MUL_LEFT) * Word(s, MUL_RIGHT)) % WORD == product % WORD
  }

  lemma MulBegin(c: Config, code: Code, s: Space, dst: nat, src: nat, zero: nat, one: nat) returns (t: Space)
    requires code.adds
    requires Tables(c, code, s) && Register(dst) && Register(src) && Constant(s, zero, 0) && Constant(s, one, 1)
    ensures Exec(c, code, s, Flat(Singles(MulStart(dst, src, zero, one)))) == Some(t)
    ensures Same(s, t, MulArea())
    ensures MulHead(c, code, t, 0, Product(Word(s, dst), Word(s, src)), zero)
  {
    hide Exec, Tables, Val, Flat, Constant, Pow2, Singles, MulArea, Span, Same, Fixed;
    TablesRange(c, code, s);
    ExecNone(c, code, s);
    FlatSingles(MulStart(dst, src, zero, one));
    ConstantRange(s, zero, 0);
    ConstantRange(s, one, 1);
    RegisterRange(dst);
    RegisterRange(src);
    var s1 := DoCopy(c, code, s, [], s, 32, MUL_LEFT, dst);
    var o1 := [] + [Plain(32, MUL_LEFT, dst)];
    var s2 := DoCopy(c, code, s, o1, s1, 32, MUL_RIGHT, src);
    var o2 := o1 + [Plain(32, MUL_RIGHT, src)];
    var s3 := DoCopy(c, code, s, o2, s2, 32, MUL_ACC, zero);
    var o3 := o2 + [Plain(32, MUL_ACC, zero)];
    t := DoCopy(c, code, s, o3, s3, 32, MUL_MARKER, one);
    MulOperands(s, s1, s2, s3, t, dst, src, zero, one);
    MulAreaApart();
    TablesKept(c, code, s, t, MulArea());
    ConstantKept(c, code, s, t, MulArea(), zero, 0);
    MulReady(c, code, t, Word(s, dst), Word(s, src), zero);
  }

  lemma RegisterRange(at: nat)
    requires Register(at)
    ensures REG_BASE <= at && at + 32 <= MUL_LEFT
  {
  }

  lemma MulAreaApart()
    ensures MulArea() !! Fixed()
  {
  }

  /** Four words written one after another, the sources outside of them. */
  lemma MulOperands(s: Space, s1: Space, s2: Space, s3: Space, t: Space, dst: nat, src: nat, zero: nat, one: nat)
    requires Same(s, s1, Span(MUL_LEFT, 32)) && Same(s1, s2, Span(MUL_RIGHT, 32)) && Same(s2, s3, Span(MUL_ACC, 32)) && Same(s3, t, Span(MUL_MARKER, 32))
    requires |s| >= BRANCH_TABLE && dst + 32 <= MUL_LEFT && src + 32 <= MUL_LEFT && zero + 32 <= REG_BASE && one + 32 <= REG_BASE
    requires |s1| == |s2| == |s3| == |t| == |s|
    requires Word(s1, MUL_LEFT) == Word(s, dst) && Word(s2, MUL_RIGHT) == Word(s1, src)
    requires Word(s3, MUL_ACC) == Word(s2, zero) && Word(t, MUL_MARKER) == Word(s3, one)
    ensures Same(s, t, MulArea())
    ensures Word(t, MUL_LEFT) == Word(s, dst) && Word(t, MUL_RIGHT) == Word(s, src)
    ensures Word(t, MUL_ACC) == Word(s, zero) && Word(t, MUL_MARKER) == Word(s, one)
  {
    hide Val, Pow2;
    SameThen(s, s1, s2, Span(MUL_LEFT, 32), Span(MUL_RIGHT, 32), MulArea());
    SameThen(s, s2, s3, MulArea(), Span(MUL_ACC, 32), MulArea());
    SameThen(s, s3, t, MulArea(), Span(MUL_MARKER, 32), MulArea());
    SameVal(s, s1, Span(MUL_LEFT, 32), src, 32);
    SameVal(s, s2, MulArea(), zero, 32);
    SameVal(s, s3, MulArea(), one, 32);
    SameVal(s1, s2, Span(MUL_RIGHT, 32), MUL_LEFT, 32);
    SameVal(s2, s3, Span(MUL_ACC, 32), MUL_LEFT, 32);
    SameVal(s3, t, Span(MUL_MARKER, 32), MUL_LEFT, 32);
    SameVal(s2, s3, Span(MUL_ACC, 32), MUL_RIGHT, 32);
    SameVal(s3, t, Span(MUL_MARKER, 32), MUL_RIGHT, 32);
    SameVal(s3, t, Span(MUL_MARKER, 32), MUL_ACC, 32);
  }

  lemma MulReady(c: Config, code: Code, t: Space, x: nat, y: nat, zero: nat)
    requires Tables(c, code, t) && code.adds && Constant(t, zero, 0)
    requires Word(t, MUL_LEFT) == x && Word(t, MUL_RIGHT) == y && Word(t, MUL_ACC) == 0 && Word(t, MUL_MARKER) == 1
    ensures MulHead(c, code, t, 0, Product(x, y), zero)
  {
    TablesRange(c, code, t);
    hide Tables, Constant, Val;
    SmallPowers();
    WordBound(t, MUL_RIGHT);
    Pow2Word();
  }

  lemma ConstantRange(s: Space, at: nat, v: nat)
    requires Constant(s, at, v)
    ensures CONSTANT_BASE <= at && at + 32 <= REG_BASE <= |s| && Word(s, at) == v
  {
  }

  lemma MarkerTop(s: Space, n: nat)
    requires MUL_MARKER + 32 <= |s| && n < 32 && Word(s, MUL_MARKER) == Pow2(n)
    ensures s[MUL_MARKER + 31] == (n == 31)
    ensures n < 31 ==> Pow2(n + 1) == 2 * Pow2(n)
  {
    hide Val;
    TopBit(s, MUL_MARKER);
    MarkerBelow(n);
  }

  lemma MarkerBelow(n: nat)
    requires n < 32
    ensures Pow2(n) >= 0x8000_0000 <==> n == 31
  {
    Pow2Word();
    if n < 31 {
      PowerOrder(n, 31);
    }
  }

  lemma {:induction false} PowerOrder(i: nat, j: nat)
    requires i < j
    ensures 2 * Pow2(i) <= Pow2(j)
    decreases j
  {
    if i < j - 1 {
      PowerOrder(i, j - 1);
    }
  }

  lemma MulHeadRange(c: Config, code: Code, s: Space, n: nat, product: nat, zero: nat)
    requires MulHead(c, code, s, n, product, zero)
    ensures c.Valid() && c.LayerBits() <= CONSTANT_BASE && BRANCH_TABLE <= |s|
  {
  }

  lemma MulTurn(c: Config, code: Code, s: Space, n: nat, product: nat, zero: nat) returns (t: Space)
    requires MulHead(c, code, s, n, product, zero) && n < 32
    ensures Exec(c, code, s, Flat(MulBody(zero))) == Some(t)
    ensures Same(s, t, MulArea()) && MulHead(c, code, t, n + 1, product, zero)
    ensures t[MUL_STOP] == (n == 31)
  {
    hide Exec, Tables, Val, Flat, Constant, MulBody;
    TablesRange(c, code, s);
    MarkerTop(s, n);
    hide Pow2, Word;
    t := MulRound(c, code, s, zero);
    Halve(Word(s, MUL_RIGHT), 32 - n);
  }

  lemma Halve(v: nat, k: nat)
    requires k > 0 && v < Pow2(k)
    ensures v / 2 < Pow2(k - 1)
  {
  }

  /** The passes over the loop head from round n on, in order. */
  ghost predicate MulRounds(c: Config, code: Code, heads: seq<Space>, n: nat, product: nat, zero: nat) {
    n + |heads| == 32 && forall i | 0 <= i < |heads| :: MulHead(c, code, heads[i], n + i, product, zero)
  }

  /** The loop's items, wherever they stand in the list. */
  predicate MulLoopItems(items: seq<Item>, zero: nat, tag: nat) {
    && |items| == 5 && items[1] == Bind(tag) && items[2] == Straight(MulBody(zero))
    && items[3] == Goto(tag, MUL_STOP, true) && BindAt(items, tag) == Some(1)
  }

  /** One pass: the head is visited once. */
  lemma MulPath(c: Config, code: Code, items: seq<Item>, s: Space, n: nat, product: nat, zero: nat, tag: nat)
    returns (u: Space)
    requires MulHead(c, code, s, n, product, zero) && n < 32 && MulLoopItems(items, zero, tag)
    ensures c.Valid() && Tour(c, code, items, 2, s, if n == 31 then 4 else 2, u, 2, [s])
    ensures Same(s, u, MulArea()) && MulHead(c, code, u, n + 1, product, zero)
  {
    hide MulBody, Tour, Exec, Flat, MulHead, Same;
    MulHeadRange(c, code, s, n, product, zero);
    u := MulTurn(c, code, s, n, product, zero);
    MulHeadRange(c, code, u, n + 1, product, zero);
    TourStraight(c, code, items, 2, s, u, 2);
    TourGoto(c, code, items, 3, u, 1, 2);
    TourThen(c, code, items, 2, s, 3, u, if n == 31 then 4 else 2, u, 2, [s], []);
    assert [s] + [] == [s];
  }

  lemma RoundsCons(c: Config, code: Code, s: Space, later: seq<Space>, n: nat, product: nat, zero: nat)
    requires MulHead(c, code, s, n, product, zero) && n < 31 && MulRounds(c, code, later, n + 1, product, zero)
    ensures MulRounds(c, code, [s] + later, n, product, zero)
  {
    hide MulHead;
    var heads := [s] + later;
    forall i | 0 <= i < |heads| ensures MulHead(c, code, heads[i], n + i, product, zero) {
      if i > 0 {
        assert MulHead(c, code, later[i - 1], n + 1 + (i - 1), product, zero);
      }
    }
  }

  /** From the head of round n the loop turns back to its head until the 32nd round, then leaves. */
  lemma {:induction false} MulLoop(c: Config, code: Code, items: seq<Item>, s: Space, n: nat, product: nat, zero: nat, tag: nat)
    returns (heads: seq<Space>, t: Space)
    requires MulHead(c, code, s, n, product, zero) && n < 32 && MulLoopItems(items, zero, tag)
    ensures c.Valid() && MulRounds(c, code, heads, n, product, zero) && Tour(c, code, items, 2, s, 4, t, 2, heads)
    ensures Same(s, t, MulArea()) && MulHead(c, code, t, 32, product, zero)
    decreases 32 - n
  {
    MulHeadRange(c, code, s, n, product, zero);
    hide Tour, MulHead, Same, MulLoopItems;
    var u := MulPath(c, code, items, s, n, product, zero, tag);
    if n == 31 {
      heads, t := [s], u;
    } else {
      var later;
      later, t := MulLoop(c, code, items, u, n + 1, product, zero, tag);
      hide MulRounds;
      heads := [s] + later;
      RoundsCons(c, code, s, later, n, product, zero);
      TourThen(c, code, items, 2, s, 2, u, 4, t, 2, [s], later);
      SameThen(s, u, t, MulArea(), MulArea(), MulArea());
    }
  }

  /**
   * The code of multiply32 leaves the product modulo 2^32 in the destination and touches only its scratch
   * words and the destination. The run stands at its loop head (behind the label, item 2) exactly 32 times.
   */
  lemma MultiplyRuns(c: Config, code: Code, s: Space, dst: nat, src: nat, zero: nat, one: nat, tag: nat)
    returns (heads: seq<Space>, t: Space)
    requires code.adds
    requires Tables(c, code, s) && Register(dst) && Register(src) && Constant(s, zero, 0) && Constant(s, one, 1)
    ensures Runs(c, code, MulItems(dst, src, zero, one, tag), s, t)
    ensures Same(s, t, MulArea() + Span(dst, 32)) && Tables(c, code, t)
    ensures Word(t, dst) == Product(Word(s, dst), Word(s, src)) % WORD
    ensures Tour(c, code, MulItems(dst, src, zero, one, tag), 0, s, |MulItems(dst, src, zero, one, tag)|, t, 2, heads)
    ensures MulRounds(c, code, heads, 0, Product(Word(s, dst), Word(s, src)), zero)
  {
    hide *;
    TablesRange(c, code, s);
    MulShape(dst, src, zero, one, tag);
    MulAreaFree(dst);
    MulAreaFree(src);
    var items := MulItems(dst, src, zero, one, tag);
    var product := Product(Word(s, dst), Word(s, src));
    var u := MulBegin(c, code, s, dst, src, zero, one);
    TourStraight(c, code, items, 0, s, u, 2);
    TourBind(c, code, items, 1, u, 2);
    TourThen(c, code, items, 0, s, 1, u, 2, u, 2, [], []);
    var v;
    heads, v := MulLoop(c, code, items, u, 0, product, zero, tag);
    TourThen(c, code, items, 0, s, 2, u, 4, v, 2, [] + [], heads);
    SameThen(s, u, v, MulArea(), MulArea(), MulArea());
    t := MulEnd(c, code, items, v, dst, product, zero);
    TourThen(c, code, items, 0, s, 4, v, 5, t, 2, [] + [] + heads, []);
    assert [] + [] + heads + [] == heads;
    SameThen(s, v, t, MulArea(), Span(dst, 32), MulArea() + Span(dst, 32));
    TablesKept(c, code, s, t, MulArea() + Span(dst, 32));
    SameSize(s, t, MulArea() + Span(dst, 32));
    TourPath(c, code, items, 0, s, 5, t, 2, heads);
    RunsIs(c, code, items, s, t);
  }

  lemma RunsIs(c: Config, code: Code, items: seq<Item>, s: Space, t: Space)
    requires c.Valid() && Path(c, code, items, 0, s, |items|, t)
    ensures Runs(c, code, items, s, t)
  {
  }

  lemma MulShape(dst: nat, src: nat, zero: nat, one: nat, tag: nat)
    ensures var items := MulItems(dst, src, zero, one, tag);
      && |items| == 5 && items[0] == Straight(Singles(MulStart(dst, src, zero, one)))
      && items[1] == Bind(tag) && items[4] == Straight([[Plain(32, dst, MUL_ACC)]])
      && MulLoopItems(items, zero, tag)
  {
    hide MulBody, MulStart, Singles;
    BindAtIs(MulItems(dst, src, zero, one, tag), tag, 1);
  }

  lemma MulAreaFree(dst: nat)
    requires Register(dst)
    ensures (MulArea() + Span(dst, 32)) !! Fixed()
    ensures BRANCH_TABLE > dst + 32
  {
  }

  lemma MulEnd(c: Config, code: Code, items: seq<Item>, v: Space, dst: nat, product: nat, zero: nat) returns (t: Space)
    requires MulHead(c, code, v, 32, product, zero) && Register(dst)
    requires |items| == 5 && items[4] == Straight([[Plain(32, dst, MUL_ACC)]])
    ensures c.Valid() && Tour(c, code, items, 4, v, 5, t, 2, [])
    ensures Same(v, t, Span(dst, 32)) && Word(t, dst) == product % WORD
  {
    MulHeadRange(c, code, v, 32, product, zero);
    MulDone(c, code, v, product, zero);
    hide Exec, Val, Flat, MulHead, Tour;
    TablesFence(c, code, v, 32, product, zero);
    ExecNone(c, code, v);
    t := DoCopy(c, code, v, [], v, 32, dst, MUL_ACC);
    assert [] + [Plain(32, dst, MUL_ACC)] == [Plain(32, dst, MUL_ACC)];
    FlatOne([Plain(32, dst, MUL_ACC)]);
    TourStraight(c, code, items, 4, v, t, 2);
  }

  lemma TablesFence(c: Config, code: Code, s: Space, n: nat, product: nat, zero: nat)
    requires MulHead(c, code, s, n, product, zero)
    ensures code.fixed == BRANCH_TABLE
  {
  }

  lemma MulDone(c: Config, code: Code, s: Space, product: nat, zero: nat)
    requires MulHead(c, code, s, 32, product, zero)
    ensures Word(s, MUL_ACC) == product % WORD
  {
    TablesRange(c, code, s);
    hide Val, Word, Tables, Constant;
    assert Pow2(0) == 1;
    TimesNothing(Word(s, MUL_LEFT), Word(s, MUL_RIGHT));
    WordBound(s, MUL_ACC);
  }

  lemma TimesNothing(x: nat, y: nat)
    requires y < 1
    ensures x * y == 0
  {
  }
}
