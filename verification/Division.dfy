/** The whole of divide32: signed and unsigned quotient and remainder. */
module Division {
  import opened Bits
  import opened Machine
  import opened Layers
  import opened Programs
  import opened Emission
  import opened Items
  import opened Tours
  import opened Lookups
  import opened Arith
  import opened Compare
  import opened Multiply
  import opened Divide

  function Magnitude(x: int): nat {
    if x < 0 then -x else x
  }

  /** Division that truncates toward zero, and the remainder that goes with it. */
  function TruncDiv(x: int, y: int): int
    requires y != 0
  {
    if (x < 0) == (y < 0) then Magnitude(x) / Magnitude(y) else -(Magnitude(x) / Magnitude(y))
  }

  function TruncRem(x: int, y: int): int
    requires y != 0
  {
    if x < 0 then -(Magnitude(x) % Magnitude(y)) else Magnitude(x) % Magnitude(y)
  }

  /** Quotient and remainder make up the dividend; the remainder is small and takes the dividend's sign. */
  lemma TruncLaw(x: int, y: int)
    requires y != 0
    ensures TruncDiv(x, y) * y + TruncRem(x, y) == x
    ensures Magnitude(TruncRem(x, y)) < Magnitude(y)
    ensures TruncRem(x, y) != 0 ==> (TruncRem(x, y) < 0) == (x < 0)
  {
    var q, r := Magnitude(x) / Magnitude(y), Magnitude(x) % Magnitude(y);
    DivModIs(Magnitude(x), Magnitude(y));
    SignProducts(q, Magnitude(y));
  }

  lemma DivModIs(a: nat, b: nat)
    requires b > 0
    ensures b * (a / b) + a % b == a && a % b < b
  {
  }

  lemma SignProducts(q: int, b: int)
    ensures q * b == b * q && (-q) * b == -(b * q) && q * (-b) == -(b * q) && (-q) * (-b) == b * q
  {
  }

  function ToWord(x: int): nat {
    x % WORD
  }

  /** What the division instructions promise; a zero divisor gives all ones and the dividend. */
  function Quotient(signed: bool, x: nat, y: nat): nat {
    if y == 0 then WORD - 1
    else if signed then (if Signed(y) == 0 then 0 else ToWord(TruncDiv(Signed(x), Signed(y))))
    else x / y
  }

  function Remainder(signed: bool, x: nat, y: nat): nat {
    if y == 0 then x
    else if signed then (if Signed(y) == 0 then 0 else ToWord(TruncRem(Signed(x), Signed(y))))
    else x % y
  }

  /** The most negative word divided by minus one wraps around to itself. */
  lemma QuotientWraps()
    ensures Quotient(true, 0x8000_0000, WORD - 1) == 0x8000_0000
    ensures Remainder(true, 0x8000_0000, WORD - 1) == 0
  {
    assert Signed(0x8000_0000) == -0x8000_0000 && Signed(WORD - 1) == -1;
  }

  /** Magnitude and sign as the generated code computes them. */
  function Size(signed: bool, x: nat): nat {
    if signed && x >= 0x8000_0000 then Negated(x) else x
  }

  lemma SizeIs(x: nat)
    requires x < WORD
    ensures Size(true, x) == Magnitude(Signed(x)) && (x >= 0x8000_0000) == (Signed(x) < 0)
  {
  }

  lemma QuotientFrom(signed: bool, x: nat, y: nat, q: nat)
    requires x < WORD && y < WORD
    requires var N, D := Size(signed, x), Size(signed, y); if D == 0 then q == WORD - 1 else q == N / D
    ensures Quotient(signed, x, y) ==
      if signed && (x >= 0x8000_0000) != (y >= 0x8000_0000) && y != 0 then Negated(q) else q
  {
    hide ToWord, Negated, Signed, Magnitude, Size;
    SizePlain(signed, x);
    SizePlain(signed, y);
    if signed && y != 0 {
      SizeIs(x);
      SizeIs(y);
      NotZero(y);
      QuotientSmall(Size(true, x), Size(true, y));
      SignedWord((x >= 0x8000_0000) != (y >= 0x8000_0000), q);
    }
  }

  lemma SizePlain(signed: bool, x: nat)
    requires x < WORD
    ensures !signed ==> Size(signed, x) == x
    ensures Size(signed, x) < WORD && (Size(signed, x) == 0 <==> x == 0)
  {
  }

  lemma NotZero(y: nat)
    requires 0 < y < WORD
    ensures Signed(y) != 0
  {
  }

  /** A number below the word size with its sign. */
  lemma SignedWord(negative: bool, q: nat)
    requires q < WORD
    ensures ToWord(if negative then 0 - q else q) == if negative then Negated(q) else q
  {
  }

  lemma QuotientSmall(a: nat, b: nat)
    requires b > 0
    ensures 0 <= a / b <= a
  {
    DivModIs(a, b);
    QuotientRange(a, b, a / b, a % b);
  }

  lemma QuotientRange(a: nat, b: nat, q: int, r: int)
    requires b > 0 && b * q + r == a && 0 <= r < b
    ensures 0 <= q <= a
  {
    if q < 0 {
      MulMonotone(b, q, 0);
    } else if q > 0 {
      MulMonotone(q, 0, b);
    }
  }

  lemma NegatedSize(x: nat)
    requires x < WORD
    ensures x == if x >= 0x8000_0000 then Negated(Size(true, x)) else Size(true, x)
  {
  }

  lemma RemainderFrom(signed: bool, x: nat, y: nat, r: nat)
    requires x < WORD && y < WORD
    requires var N, D := Size(signed, x), Size(signed, y); if D == 0 then r == N else r == N % D
    ensures Remainder(signed, x, y) == if signed && x >= 0x8000_0000 then Negated(r) else r
  {
    hide ToWord, Negated, Signed, Magnitude, Size;
    SizePlain(signed, x);
    SizePlain(signed, y);
    if signed && y != 0 {
      SizeIs(x);
      SizeIs(y);
      NotZero(y);
      DivModIs(Size(true, x), Size(true, y));
      SignedWord(x >= 0x8000_0000, r);
    } else if signed {
      NegatedSize(x);
    }
  }

  function SignOps(remainder: bool, zero: nat, one: nat): seq<Op> {
    if remainder then [Plain(1, DIV_SIGN, DIV_NUM_SIGN)]
    else
      SignTestOps(zero) + [GateOp(Xor, DIV_DEN_SIGN, CMP_EQ, one)] + [GateOp(And, DIV_SIGN, DIV_SIGN, DIV_DEN_SIGN)]
  }

  function ResultAt(remainder: bool): nat {
    if remainder then DIV_REM else DIV_QUO
  }

  ghost function SignArea(): iset<int> {
    Span(DIV_NUM_SIGN, 3) + Flags()
  }

  /** A comparison run after other operations. */
  lemma DoCompare(c: Config, code: Code, s: Space, ops: seq<Op>, t: Space, left: nat, right: nat) returns (u: Space)
    requires Tables(c, code, t) && Operand(c, t, left) && Operand(c, t, right) && Exec(c, code, s, ops) == Some(t)
    ensures Exec(c, code, s, ops + CompareOps(left, right)) == Some(u)
    ensures Same(t, u, Flags()) && Tables(c, code, u)
    ensures u[CMP_EQ] == (Word(t, left) == Word(t, right))
  {
    TablesRange(c, code, t);
    hide Exec, CompareOps, Tables, Val;
    u := CompareRun(c, code, t, left, right);
    ExecAppend(c, code, s, ops, CompareOps(left, right));
  }

  /** A gate whose output is not a table bit. */
  lemma DoScratchGate(c: Config, code: Code, s: Space, ops: seq<Op>, t: Space, g: Gate, dst: nat, a: nat, b: nat)
    returns (u: Space)
    requires Tables(c, code, t) && Exec(c, code, s, ops) == Some(t) && dst !in Fixed()
    requires Writable(c, code, t, dst, 1) && Readable(c, t, a, 1) && Readable(c, t, b, 1)
    ensures Exec(c, code, s, ops + [GateOp(g, dst, a, b)]) == Some(u)
    ensures Same(t, u, Span(dst, 1)) && u[dst] == g.Apply(t[a], t[b]) && Tables(c, code, u)
  {
    hide Exec, Tables, Fixed;
    u := DoGate(c, code, s, ops, t, g, dst, a, b);
    TablesKept(c, code, t, u, Span(dst, 1));
  }

  function SignTestOps(zero: nat): seq<Op> {
    [GateOp(Xor, DIV_SIGN, DIV_NUM_SIGN, DIV_DEN_SIGN)] + CompareOps(DIV_DEN, zero)
  }

  lemma SignTest(c: Config, code: Code, s: Space, zero: nat) returns (t: Space)
    requires Tables(c, code, s) && Constant(s, zero, 0)
    ensures Exec(c, code, s, SignTestOps(zero)) == Some(t)
    ensures Same(s, t, Span(DIV_SIGN, 1) + Flags()) && Tables(c, code, t)
    ensures t[DIV_SIGN] == (s[DIV_NUM_SIGN] != s[DIV_DEN_SIGN])
    ensures t[CMP_EQ] == (Word(s, DIV_DEN) == 0)
  {
    TablesRange(c, code, s);
    ConstantRange(s, zero, 0);
    SignAreas(zero);
    hide Exec, CompareOps, Tables, Val, Pow2, Word, Constant, Same, Span, Flags, Fixed, GateOp;
    ExecNone(c, code, s);
    var o1 := [GateOp(Xor, DIV_SIGN, DIV_NUM_SIGN, DIV_DEN_SIGN)];
    var s1 := DoScratchGate(c, code, s, [], s, Xor, DIV_SIGN, DIV_NUM_SIGN, DIV_DEN_SIGN);
    assert [] + o1 == o1;
    SameSize(s, s1, Span(DIV_SIGN, 1));
    WordKept(s, s1, Span(DIV_SIGN, 1), DIV_DEN);
    WordKept(s, s1, Span(DIV_SIGN, 1), zero);
    t := DoCompare(c, code, s, o1, s1, DIV_DEN, zero);
    SameSize(s1, t, Flags());
    SameThen(s, s1, t, Span(DIV_SIGN, 1), Flags(), Span(DIV_SIGN, 1) + Flags());
    BitKept(s1, t, Flags(), DIV_SIGN);
  }

  lemma SignAreas(zero: nat)
    requires CONSTANT_BASE <= zero && zero + 32 <= REG_BASE
    ensures DIV_SIGN !in Fixed() && DIV_SIGN !in Flags()
    ensures Span(DIV_DEN, 32) !! Span(DIV_SIGN, 1) && Span(zero, 32) !! Span(DIV_SIGN, 1)
  {
  }

  /** The sign of a quotient; a zero divisor keeps the all-ones quotient. */
  lemma QuotientSign(c: Config, code: Code, s: Space, zero: nat, one: nat) returns (t: Space)
    requires Tables(c, code, s) && Constant(s, zero, 0) && Constant(s, one, 1)
    ensures Exec(c, code, s, SignOps(false, zero, one)) == Some(t)
    ensures Same(s, t, SignArea())
    ensures t[DIV_SIGN] == (s[DIV_NUM_SIGN] != s[DIV_DEN_SIGN] && Word(s, DIV_DEN) != 0)
  {
    hide Exec, SignTestOps, Tables, Val, Pow2, Word, Constant, Fixed, Flags;
    TablesRange(c, code, s);
    ConstantRange(s, one, 1);
    ConstantBit(s, one, 1);
    SignBitsFree();
    OneApart(one);
    var u := SignTest(c, code, s, zero);
    assert Same(s, u, SignArea());
    assert u[one] && u[DIV_DEN_SIGN] == s[DIV_DEN_SIGN];
    var v := DoScratchGate(c, code, s, SignTestOps(zero), u, Xor, DIV_DEN_SIGN, CMP_EQ, one);
    var ops := SignTestOps(zero) + [GateOp(Xor, DIV_DEN_SIGN, CMP_EQ, one)];
    t := DoGate(c, code, s, ops, v, And, DIV_SIGN, DIV_SIGN, DIV_DEN_SIGN);
    SameThen(s, u, v, SignArea(), Span(DIV_DEN_SIGN, 1), SignArea());
    SameThen(s, v, t, SignArea(), Span(DIV_SIGN, 1), SignArea());
  }

  lemma OneApart(one: nat)
    requires CONSTANT_BASE <= one && one + 32 <= REG_BASE
    ensures one !in SignArea() && DIV_DEN_SIGN !in Span(DIV_SIGN, 1) + Flags()
  {
  }

  lemma SignBitsFree()
    ensures DIV_SIGN !in Fixed() && DIV_DEN_SIGN !in Fixed()
    ensures DIV_NUM_SIGN !in Flags() + Span(DIV_SIGN, 1) && DIV_DEN_SIGN !in Flags() + Span(DIV_SIGN, 1)
  {
  }

  lemma WordKept(s: Space, t: Space, area: iset<int>, at: nat)
    requires Same(s, t, area) && at + 32 <= |s| && Span(at, 32) !! area
    ensures Word(t, at) == Word(s, at)
  {
    SameVal(s, t, area, at, 32);
  }

  lemma SignRun(c: Config, code: Code, s: Space, remainder: bool, zero: nat, one: nat) returns (t: Space)
    requires Tables(c, code, s) && Constant(s, zero, 0) && Constant(s, one, 1)
    ensures Exec(c, code, s, SignOps(remainder, zero, one)) == Some(t)
    ensures Same(s, t, SignArea())
    ensures t[DIV_SIGN] ==
      if remainder then s[DIV_NUM_SIGN] else s[DIV_NUM_SIGN] != s[DIV_DEN_SIGN] && Word(s, DIV_DEN) != 0
  {
    TablesRange(c, code, s);
    hide Exec, CompareOps, Tables, Val, Pow2, Word, Constant;
    if remainder {
      ExecNone(c, code, s);
      t := DoCopy(c, code, s, [], s, 1, DIV_SIGN, DIV_NUM_SIGN);
      assert [] + [Plain(1, DIV_SIGN, DIV_NUM_SIGN)] == [Plain(1, DIV_SIGN, DIV_NUM_SIGN)];
    } else {
      t := QuotientSign(c, code, s, zero, one);
    }
  }

  function EndOps(dst: nat, result: nat): seq<Op> {
    [] + [Plain(32, dst, result)] + [Plain(5, CMP_EQ, DIV_FLAGS)]
  }

  /** All that division changes: its scratch words, the adder's temporaries, one scratch flag, the destination. */
  ghost function DivideArea(dst: nat): iset<int> {
    Span(DIV_NUM, 171) + Span(TEMPORARY, 3) + Span(CMP_SIGN, 1) + Span(dst, 32)
  }

  lemma EndRun(c: Config, code: Code, s: Space, u: Space, dst: nat, remainder: bool, zero: nat, one: nat)
    returns (t: Space)
    requires Kept(c, code, s, u, zero, one) && Register(dst)
    ensures Exec(c, code, u, Flat(Singles(EndOps(dst, ResultAt(remainder))))) == Some(t)
    ensures Same(s, t, DivideArea(dst)) && Tables(c, code, t)
    ensures Word(t, dst) == Word(u, ResultAt(remainder))
  {
    KeptRange(c, code, s, u, zero, one);
    hide Exec, Tables, Val, Pow2, Constant, Flat, Singles, Kept;
    var result := ResultAt(remainder);
    ExecNone(c, code, u);
    FlatSingles(EndOps(dst, result));
    var v := DoCopy(c, code, u, [], u, 32, dst, result);
    t := DoCopy(c, code, u, [] + [Plain(32, dst, result)], v, 5, CMP_EQ, DIV_FLAGS);
    SameVal(v, t, Span(CMP_EQ, 5), dst, 32);
    EndTables(c, code, u, v, t, dst);
    FlagsRestored(c, code, s, u, v, dst, zero, one);
  }

  lemma EndTables(c: Config, code: Code, u: Space, v: Space, t: Space, dst: nat)
    requires Tables(c, code, u) && Register(dst) && Same(u, v, Span(dst, 32)) && Same(v, t, Span(CMP_EQ, 5))
    ensures Tables(c, code, t)
  {
    hide Tables;
    TablesKept(c, code, u, v, Span(dst, 32));
    TablesKept(c, code, v, t, Span(CMP_EQ, 5));
  }

  /** Copying the saved flags back undoes every comparison made on the way. */
  lemma FlagsRestored(c: Config, code: Code, s: Space, u: Space, v: Space, dst: nat, zero: nat, one: nat)
    requires Kept(c, code, s, u, zero, one) && Register(dst) && Same(u, v, Span(dst, 32)) && |v| >= BRANCH_TABLE
    ensures Same(s, CopyBits(v, 5, CMP_EQ, DIV_FLAGS), DivideArea(dst))
  {
    hide Tables, Constant;
    var t := CopyBits(v, 5, CMP_EQ, DIV_FLAGS);
    forall p | 0 <= p < |s| && p !in DivideArea(dst) ensures t[p] == s[p] {
      if CMP_EQ <= p < CMP_EQ + 5 {
        var q := p - CMP_EQ + DIV_FLAGS;
        assert v[q] == u[q] == s[p];
      } else {
        assert p !in DivScratch();
      }
    }
  }

  /** Labels of a list lie in a range. */
  ghost predicate TagsIn(items: seq<Item>, lo: nat, hi: nat) {
    forall l: nat | Binds(items, l) :: lo <= l < hi
  }

  lemma RunsNext(c: Config, code: Code, xs: seq<Item>, ys: seq<Item>, s: Space, t: Space, u: Space, a: nat, b: nat, d: nat)
    requires c.Valid() && Runs(c, code, xs, s, t) && Runs(c, code, ys, t, u)
    requires a <= b <= d && TagsIn(xs, a, b) && TagsIn(ys, b, d)
    ensures Runs(c, code, xs + ys, s, u) && TagsIn(xs + ys, a, d)
  {
    hide Runs;
    RunsThen(c, code, xs, ys, s, t, u);
    forall l: nat | Binds(xs + ys, l) ensures a <= l < d {
      assert Binds(xs, l) || Binds(ys, l);
    }
  }

  lemma RunsNothing(c: Config, code: Code, s: Space)
    requires c.Valid()
    ensures Runs(c, code, [], s, s)
  {
    PathHere(c, code, [], 0, s);
  }

  /** Negate a word if the division is signed and its sign bit says so. */
  function SizeItems(signed: bool, value: nat, sign: nat, zero: nat, tag: nat): seq<Item> {
    if signed then AbsItems(value, sign, zero, tag) else []
  }

  lemma SizeRuns(c: Config, code: Code, s: Space, t: Space, signed: bool, value: nat, sign: nat, zero: nat, one: nat, tag: nat)
    returns (u: Space)
    requires Kept(c, code, s, t, zero, one)
    requires value in {DIV_NUM, DIV_DEN, DIV_REM, DIV_QUO} && DIV_NUM <= sign < DIV_NUM + 171
    ensures Runs(c, code, SizeItems(signed, value, sign, zero, tag), t, u)
    ensures TagsIn(SizeItems(signed, value, sign, zero, tag), tag, tag + 1)
    ensures Same(t, u, SumArea(value)) && Kept(c, code, s, u, zero, one)
    ensures Word(u, value) == if signed && t[sign] then Negated(Word(t, value)) else Word(t, value)
  {
    KeptRange(c, code, s, t, zero, one);
    SumAreaFree(value);
    AbsTags(value, sign, zero, tag);
    hide Kept, Tables, Constant, Runs, Word, Negated, AdderOps, Same, SumArea, DivScratch, Span, AbsItems;
    if signed {
      u := AbsRuns(c, code, t, value, sign, zero, tag);
      KeptThen(c, code, s, t, u, SumArea(value), zero, one);
    } else {
      u := t;
      SameSelf(t, SumArea(value));
      RunsNothing(c, code, t);
    }
  }

  lemma SumAreaFree(value: nat)
    requires value in {DIV_NUM, DIV_DEN, DIV_REM, DIV_QUO}
    ensures SumArea(value) <= DivScratch() && SumArea(value) !! Span(DIV_FLAGS, 5)
  {
  }

  lemma AbsTags(value: nat, sign: nat, zero: nat, tag: nat)
    ensures TagsIn(AbsItems(value, sign, zero, tag), tag, tag + 1)
  {
    hide AdderOps;
  }

  /** Whether a signed result is to be negated. */
  predicate Negative(s: Space, remainder: bool)
    requires |s| >= DIV_NUM + 171
  {
    if remainder then s[DIV_NUM_SIGN] else s[DIV_NUM_SIGN] != s[DIV_DEN_SIGN] && Word(s, DIV_DEN) != 0
  }

  function SignItems(signed: bool, remainder: bool, zero: nat, one: nat): seq<Item> {
    if signed then [Straight(Singles(SignOps(remainder, zero, one)))] else []
  }

  lemma SignItemsRun(c: Config, code: Code, s: Space, t: Space, signed: bool, remainder: bool, zero: nat, one: nat)
    returns (u: Space)
    requires Kept(c, code, s, t, zero, one)
    ensures Runs(c, code, SignItems(signed, remainder, zero, one), t, u)
    ensures Same(t, u, SignArea()) && Kept(c, code, s, u, zero, one)
    ensures signed ==> (u[DIV_SIGN] <==> Negative(t, remainder))
  {
    KeptRange(c, code, s, t, zero, one);
    SignAreaFree();
    hide Kept, Tables, Constant, Runs, Word, SignOps, Singles, Exec, Flat, Same, SignArea, DivScratch, Span;
    if signed {
      u := SignRun(c, code, t, remainder, zero, one);
      FlatSingles(SignOps(remainder, zero, one));
      RunsStraight(c, code, Singles(SignOps(remainder, zero, one)), t, u);
      KeptThen(c, code, s, t, u, SignArea(), zero, one);
    } else {
      u := t;
      SameSelf(t, SignArea());
      RunsNothing(c, code, t);
    }
  }

  lemma SignAreaFree()
    ensures SignArea() <= DivScratch() && SignArea() !! Span(DIV_FLAGS, 5)
  {
  }

  function EnterItems(dst: nat, src: nat, signed: bool, zero: nat, one: nat, tag: nat): seq<Item> {
    [Straight(Singles(DivStart(dst, src)))]
    + SizeItems(signed, DIV_NUM, DIV_NUM_SIGN, zero, tag)
    + SizeItems(signed, DIV_DEN, DIV_DEN_SIGN, zero, tag + 1)
    + [Straight(Singles(DivInit(zero, one)))]
  }

  function LeaveItems(dst: nat, signed: bool, remainder: bool, zero: nat, one: nat, tag: nat): seq<Item> {
    SignItems(signed, remainder, zero, one)
    + SizeItems(signed, ResultAt(remainder), DIV_SIGN, zero, tag)
    + [Straight(Singles(EndOps(dst, ResultAt(remainder))))]
  }

  /** The label of the loop: a signed division has used two labels before. */
  function LoopTag(signed: bool, tag: nat): nat {
    if signed then tag + 2 else tag
  }

  /** What divide32 emits. Its labels are numbered from tag in the order of their creation. */
  function DivItems(dst: nat, src: nat, signed: bool, remainder: bool, zero: nat, one: nat, tag: nat): seq<Item> {
    EnterItems(dst, src, signed, zero, one, tag)
    + DivLoopItems(zero, one, LoopTag(signed, tag), LoopTag(signed, tag) + 1)
    + LeaveItems(dst, signed, remainder, zero, one, LoopTag(signed, tag) + 2)
  }

  lemma EnterTags(dst: nat, src: nat, signed: bool, zero: nat, one: nat, tag: nat)
    requires TagsIn(EnterItems(dst, src, signed, zero, one, tag), tag, tag + 2)
    ensures TagsIn(EnterItems(dst, src, signed, zero, one, tag), tag, LoopTag(signed, tag))
  {
    hide DivStart, DivInit, Singles;
    if !signed {
      var a, d := Straight(Singles(DivStart(dst, src))), Straight(Singles(DivInit(zero, one)));
      assert EnterItems(dst, src, signed, zero, one, tag) == [a, d];
    }
  }

  lemma LoopTags(zero: nat, one: nat, tag: nat)
    ensures TagsIn(DivLoopItems(zero, one, tag, tag + 1), tag, tag + 2)
  {
    hide DivHeadOps, DivReduce, DivMarkOps, Singles;
  }

  /** Up to the head of the loop: magnitudes of the operands, and the first state of the division. */
  lemma DivEnter(c: Config, code: Code, s: Space, dst: nat, src: nat, signed: bool, zero: nat, one: nat, tag: nat)
    returns (t: Space)
    requires code.subs
    requires Tables(c, code, s) && Constant(s, zero, 0) && Constant(s, one, 1) && Register(dst) && Register(src)
    ensures Runs(c, code, EnterItems(dst, src, signed, zero, one, tag), s, t)
    ensures TagsIn(EnterItems(dst, src, signed, zero, one, tag), tag, tag + 2)
    ensures Kept(c, code, s, t, zero, one)
    ensures DivHead(c, code, t, 0, Size(signed, Word(s, dst)), Size(signed, Word(s, src)), zero, one)
    ensures t[DIV_NUM_SIGN] == (Word(s, dst) >= 0x8000_0000) && t[DIV_DEN_SIGN] == (Word(s, src) >= 0x8000_0000)
  {
    TablesRange(c, code, s);
    hide Kept, Tables, Constant, Runs, Word, Exec, Flat, Singles, DivStart, DivInit, DivHead, SizeItems, Negated,
      TagsIn, EnterItems, Same, Size;
    var s1 := DivBegin(c, code, s, dst, src, zero, one);
    KeptRange(c, code, s, s1, zero, one);
    var s2, s3 := DivSizes(c, code, s, s1, signed, zero, one, tag);
    KeptRange(c, code, s, s3, zero, one);
    t := DivPrepare(c, code, s, s3, zero, one);
    SizesAre(signed, Word(s, dst), t[DIV_NUM_SIGN], Word(s3, DIV_NUM));
    SizesAre(signed, Word(s, src), t[DIV_DEN_SIGN], Word(s3, DIV_DEN));
    EnterChain(c, code, s, s1, s2, s3, t, dst, src, signed, zero, one, tag);
  }

  lemma SizesAre(signed: bool, x: nat, sign: bool, y: nat)
    requires sign == (x >= 0x8000_0000)
    requires y == if signed && sign then Negated(x) else x
    ensures y == Size(signed, x)
  {
  }

  lemma SizeAreas()
    ensures Span(DIV_DEN, 32) !! SumArea(DIV_NUM) && Span(DIV_NUM, 32) !! SumArea(DIV_DEN)
    ensures forall p | DIV_NUM_SIGN <= p < DIV_NUM_SIGN + 3 :: p !in SumArea(DIV_NUM) && p !in SumArea(DIV_DEN)
  {
  }

  /** Both magnitudes: neither computation disturbs the other's word or the sign bits. */
  lemma DivSizes(c: Config, code: Code, s: Space, s1: Space, signed: bool, zero: nat, one: nat, tag: nat)
    returns (s2: Space, s3: Space)
    requires Kept(c, code, s, s1, zero, one)
    ensures Runs(c, code, SizeItems(signed, DIV_NUM, DIV_NUM_SIGN, zero, tag), s1, s2)
    ensures Runs(c, code, SizeItems(signed, DIV_DEN, DIV_DEN_SIGN, zero, tag + 1), s2, s3)
    ensures TagsIn(SizeItems(signed, DIV_NUM, DIV_NUM_SIGN, zero, tag), tag, tag + 1)
    ensures TagsIn(SizeItems(signed, DIV_DEN, DIV_DEN_SIGN, zero, tag + 1), tag + 1, tag + 2)
    ensures Kept(c, code, s, s3, zero, one)
    ensures s3[DIV_NUM_SIGN] == s1[DIV_NUM_SIGN] && s3[DIV_DEN_SIGN] == s1[DIV_DEN_SIGN]
    ensures Word(s3, DIV_NUM) == if signed && s1[DIV_NUM_SIGN] then Negated(Word(s1, DIV_NUM)) else Word(s1, DIV_NUM)
    ensures Word(s3, DIV_DEN) == if signed && s1[DIV_DEN_SIGN] then Negated(Word(s1, DIV_DEN)) else Word(s1, DIV_DEN)
  {
    hide Kept, Same, SumArea, Span, Runs, TagsIn, SizeItems, Word, Negated, Tables, Constant;
    KeptRange(c, code, s, s1, zero, one);
    SizeAreas();
    s2 := SizeRuns(c, code, s, s1, signed, DIV_NUM, DIV_NUM_SIGN, zero, one, tag);
    KeptRange(c, code, s, s2, zero, one);
    WordKept(s1, s2, SumArea(DIV_NUM), DIV_DEN);
    BitKept(s1, s2, SumArea(DIV_NUM), DIV_DEN_SIGN);
    BitKept(s1, s2, SumArea(DIV_NUM), DIV_NUM_SIGN);
    s3 := SizeRuns(c, code, s, s2, signed, DIV_DEN, DIV_DEN_SIGN, zero, one, tag + 1);
    KeptRange(c, code, s, s3, zero, one);
    WordKept(s2, s3, SumArea(DIV_DEN), DIV_NUM);
    BitKept(s2, s3, SumArea(DIV_DEN), DIV_DEN_SIGN);
    BitKept(s2, s3, SumArea(DIV_DEN), DIV_NUM_SIGN);
  }

  lemma BitKept(s: Space, t: Space, area: iset<int>, at: nat)
    requires Same(s, t, area) && at < |s| && at !in area
    ensures at < |t| && t[at] == s[at]
  {
  }

  lemma EnterChain(c: Config, code: Code, s: Space, s1: Space, s2: Space, s3: Space, t: Space,
                   dst: nat, src: nat, signed: bool, zero: nat, one: nat, tag: nat)
    requires c.Valid()
    requires Exec(c, code, s, Flat(Singles(DivStart(dst, src)))) == Some(s1)
    requires Runs(c, code, SizeItems(signed, DIV_NUM, DIV_NUM_SIGN, zero, tag), s1, s2)
    requires Runs(c, code, SizeItems(signed, DIV_DEN, DIV_DEN_SIGN, zero, tag + 1), s2, s3)
    requires Exec(c, code, s3, Flat(Singles(DivInit(zero, one)))) == Some(t)
    requires TagsIn(SizeItems(signed, DIV_NUM, DIV_NUM_SIGN, zero, tag), tag, tag + 1)
    requires TagsIn(SizeItems(signed, DIV_DEN, DIV_DEN_SIGN, zero, tag + 1), tag + 1, tag + 2)
    ensures Runs(c, code, EnterItems(dst, src, signed, zero, one, tag), s, t)
    ensures TagsIn(EnterItems(dst, src, signed, zero, one, tag), tag, tag + 2)
  {
    hide Runs, Exec, Flat, Singles, DivStart, DivInit, SizeItems, TagsIn;
    var a, d := [Straight(Singles(DivStart(dst, src)))], [Straight(Singles(DivInit(zero, one)))];
    var x := SizeItems(signed, DIV_NUM, DIV_NUM_SIGN, zero, tag);
    var y := SizeItems(signed, DIV_DEN, DIV_DEN_SIGN, zero, tag + 1);
    RunsStraight(c, code, Singles(DivStart(dst, src)), s, s1);
    RunsStraight(c, code, Singles(DivInit(zero, one)), s3, t);
    StraightTags(Singles(DivStart(dst, src)), tag);
    StraightTags(Singles(DivInit(zero, one)), tag + 2);
    RunsNext(c, code, a, x, s, s1, s2, tag, tag, tag + 1);
    RunsNext(c, code, a + x, y, s, s2, s3, tag, tag + 1, tag + 2);
    RunsNext(c, code, a + x + y, d, s, s3, t, tag, tag + 2, tag + 2);
  }

  lemma StraightTags(chunks: seq<seq<Op>>, tag: nat)
    ensures TagsIn([Straight(chunks)], tag, tag)
  {
  }

  lemma SignTags(signed: bool, remainder: bool, zero: nat, one: nat, tag: nat)
    ensures TagsIn(SignItems(signed, remainder, zero, one), tag, tag)
  {
    hide SignOps, Singles;
  }

  /** From the end of the loop: the sign of the result, the result, the flags. */
  lemma DivLeave(c: Config, code: Code, s: Space, u: Space, dst: nat, signed: bool, remainder: bool,
                 zero: nat, one: nat, tag: nat)
    returns (t: Space)
    requires Kept(c, code, s, u, zero, one) && Register(dst)
    ensures Runs(c, code, LeaveItems(dst, signed, remainder, zero, one, tag), u, t)
    ensures TagsIn(LeaveItems(dst, signed, remainder, zero, one, tag), tag, tag + 1)
    ensures Same(s, t, DivideArea(dst)) && Tables(c, code, t)
    ensures var v := Word(u, ResultAt(remainder));
      Word(t, dst) == if signed && Negative(u, remainder) then Negated(v) else v
  {
    KeptRange(c, code, s, u, zero, one);
    hide Kept, Tables, Constant, Runs, Word, Exec, Flat, Singles, SignItems, EndOps, SizeItems, Negated, Negative, TagsIn;
    var result := ResultAt(remainder);
    var a := SignItems(signed, remainder, zero, one);
    var s1 := SignItemsRun(c, code, s, u, signed, remainder, zero, one);
    WordKept(u, s1, SignArea(), result);
    var b := SizeItems(signed, result, DIV_SIGN, zero, tag);
    var s2 := SizeRuns(c, code, s, s1, signed, result, DIV_SIGN, zero, one, tag);
    SignTags(signed, remainder, zero, one, tag);
    RunsNext(c, code, a, b, u, s1, s2, tag, tag, tag + 1);
    t := EndRun(c, code, s, s2, dst, remainder, zero, one);
    RunsStraight(c, code, Singles(EndOps(dst, result)), s2, t);
    StraightTags(Singles(EndOps(dst, result)), tag + 1);
    RunsNext(c, code, a + b, [Straight(Singles(EndOps(dst, result)))], u, s2, t, tag, tag + 1, tag + 1);
  }

  /**
   * The code of divide32 leaves quotient or remainder in the destination for every pair of words,
   * signed or unsigned, and restores the comparison flags. The run of the whole list stands at the loop head
   * (the second item of the loop) exactly 32 times.
   */
  lemma DivideRuns(c: Config, code: Code, s: Space, dst: nat, src: nat, signed: bool, remainder: bool,
                   zero: nat, one: nat, tag: nat)
    returns (heads: seq<Space>, t: Space)
    requires code.subs
    requires Tables(c, code, s) && Constant(s, zero, 0) && Constant(s, one, 1) && Register(dst) && Register(src)
    ensures Runs(c, code, DivItems(dst, src, signed, remainder, zero, one, tag), s, t)
    ensures Same(s, t, DivideArea(dst)) && Tables(c, code, t)
    ensures Word(t, dst) == if remainder then Remainder(signed, Word(s, dst), Word(s, src))
                            else Quotient(signed, Word(s, dst), Word(s, src))
    ensures var items := DivItems(dst, src, signed, remainder, zero, one, tag);
      Tour(c, code, items, 0, s, |items|, t, |EnterItems(dst, src, signed, zero, one, tag)| + 1, heads)
    ensures DivRounds(c, code, heads, 0, Size(signed, Word(s, dst)), Size(signed, Word(s, src)), zero, one)
  {
    hide *;
    TablesRange(c, code, s);
    RegisterBounds(dst);
    RegisterBounds(src);
    WordBound(s, dst);
    WordBound(s, src);
    var s1, s2;
    heads, s1, s2 := DivideLoop(c, code, s, dst, src, signed, zero, one, tag);
    KeptRange(c, code, s, s2, zero, one);
    t := DivLeave(c, code, s, s2, dst, signed, remainder, zero, one, LoopTag(signed, tag) + 2);
    DivideChain(c, code, s, s1, s2, t, dst, src, signed, remainder, zero, one, tag, heads);
    TourRuns(c, code, DivItems(dst, src, signed, remainder, zero, one, tag), s, t, |EnterItems(dst, src, signed, zero, one, tag)| + 1, heads);
    ResultIs(s2, signed, remainder, Word(s, dst), Word(s, src));
  }

  /** Up to the end of the loop. */
  lemma DivideLoop(c: Config, code: Code, s: Space, dst: nat, src: nat, signed: bool, zero: nat, one: nat, tag: nat)
    returns (heads: seq<Space>, s1: Space, s2: Space)
    requires code.subs
    requires Tables(c, code, s) && Constant(s, zero, 0) && Constant(s, one, 1) && Register(dst) && Register(src)
    ensures Runs(c, code, EnterItems(dst, src, signed, zero, one, tag), s, s1)
    ensures TagsIn(EnterItems(dst, src, signed, zero, one, tag), tag, tag + 2)
    ensures var lt := LoopTag(signed, tag); var items := DivLoopItems(zero, one, lt, lt + 1);
      c.Valid() && |items| == 7 && Tour(c, code, items, 0, s1, |items|, s2, 1, heads)
    ensures DivRounds(c, code, heads, 0, Size(signed, Word(s, dst)), Size(signed, Word(s, src)), zero, one)
    ensures Kept(c, code, s, s2, zero, one) && |s2| >= DIV_NUM + 171
    ensures s2[DIV_NUM_SIGN] == (Word(s, dst) >= 0x8000_0000) && s2[DIV_DEN_SIGN] == (Word(s, src) >= 0x8000_0000)
    ensures Word(s2, DIV_DEN) == Size(signed, Word(s, src))
    ensures Divided(Size(signed, Word(s, dst)), Size(signed, Word(s, src)), Word(s2, DIV_QUO), Word(s2, DIV_REM))
  {
    TablesRange(c, code, s);
    hide Kept, Tables, Constant, Runs, Tour, Word, DivLoopItems, EnterItems, DivArea, TagsIn,
      DivHead, DivRounds, Size, LoopTag, Same, Divided;
    var N, D := Size(signed, Word(s, dst)), Size(signed, Word(s, src));
    s1 := DivEnter(c, code, s, dst, src, signed, zero, one, tag);
    KeptRange(c, code, s, s1, zero, one);
    heads, s2 := DivLoopRuns(c, code, s, s1, N, D, zero, one, LoopTag(signed, tag), LoopTag(signed, tag) + 1);
    KeptRange(c, code, s, s2, zero, one);
    SignsKept(s1, s2);
  }

  lemma DivideChain(c: Config, code: Code, s: Space, s1: Space, s2: Space, t: Space, dst: nat, src: nat,
                    signed: bool, remainder: bool, zero: nat, one: nat, tag: nat, heads: seq<Space>)
    requires c.Valid()
    requires Runs(c, code, EnterItems(dst, src, signed, zero, one, tag), s, s1)
    requires TagsIn(EnterItems(dst, src, signed, zero, one, tag), tag, tag + 2)
    requires var lt := LoopTag(signed, tag); var items := DivLoopItems(zero, one, lt, lt + 1);
      |items| == 7 && Tour(c, code, items, 0, s1, |items|, s2, 1, heads)
    requires var last := LeaveItems(dst, signed, remainder, zero, one, LoopTag(signed, tag) + 2);
      Runs(c, code, last, s2, t) && TagsIn(last, LoopTag(signed, tag) + 2, LoopTag(signed, tag) + 3)
    ensures var items := DivItems(dst, src, signed, remainder, zero, one, tag);
      Tour(c, code, items, 0, s, |items|, t, |EnterItems(dst, src, signed, zero, one, tag)| + 1, heads)
  {
    hide Runs, Tour, EnterItems, DivLoopItems, LeaveItems, Binds;
    var lt := LoopTag(signed, tag);
    EnterTags(dst, src, signed, zero, one, tag);
    LoopTags(zero, one, lt);
    var first, loop := EnterItems(dst, src, signed, zero, one, tag), DivLoopItems(zero, one, lt, lt + 1);
    var last := LeaveItems(dst, signed, remainder, zero, one, lt + 2);
    forall l: nat | Binds(first + loop, l) ensures !Binds(last, l) {
      EitherBinds(first, loop, l);
    }
    TourBetween(c, code, first, loop, last, s, s1, s2, t, 1, heads);
  }

  lemma EitherBinds(xs: seq<Item>, ys: seq<Item>, l: nat)
    requires Binds(xs + ys, l)
    ensures Binds(xs, l) || Binds(ys, l)
  {
  }

  lemma TourRuns(c: Config, code: Code, items: seq<Item>, s: Space, t: Space, h: nat, visits: seq<Space>)
    requires c.Valid() && Tour(c, code, items, 0, s, |items|, t, h, visits)
    ensures Runs(c, code, items, s, t)
  {
    hide Tour, Path;
    TourPath(c, code, items, 0, s, |items|, t, h, visits);
    RunsIs(c, code, items, s, t);
  }

  /** What the loop leaves, with its sign put right, is what the instruction promises. */
  lemma ResultIs(s: Space, signed: bool, remainder: bool, x: nat, y: nat)
    requires |s| >= DIV_NUM + 171 && x < WORD && y < WORD
    requires s[DIV_NUM_SIGN] == (x >= 0x8000_0000) && s[DIV_DEN_SIGN] == (y >= 0x8000_0000)
    requires Word(s, DIV_DEN) == Size(signed, y)
    requires Divided(Size(signed, x), Size(signed, y), Word(s, DIV_QUO), Word(s, DIV_REM))
    ensures var v := Word(s, ResultAt(remainder));
      (if signed && Negative(s, remainder) then Negated(v) else v) ==
        if remainder then Remainder(signed, x, y) else Quotient(signed, x, y)
  {
    hide Word, Negated, Size, Quotient, Remainder;
    SizeZero(signed, y);
    if remainder {
      RemainderFrom(signed, x, y, Word(s, DIV_REM));
    } else {
      QuotientFrom(signed, x, y, Word(s, DIV_QUO));
    }
  }

  lemma RegisterBounds(at: nat)
    requires Register(at)
    ensures at + 32 <= BRANCH_TABLE
  {
  }

  lemma SignsKept(s: Space, t: Space)
    requires Same(s, t, DivArea()) && |s| >= DIV_NUM + 171
    ensures t[DIV_NUM_SIGN] == s[DIV_NUM_SIGN] && t[DIV_DEN_SIGN] == s[DIV_DEN_SIGN]
  {
  }

  lemma SizeZero(signed: bool, y: nat)
    requires y < WORD
    ensures Size(signed, y) == 0 <==> y == 0
  {
  }
}
