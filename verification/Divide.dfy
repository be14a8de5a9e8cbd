/** 32-bit division as generated copies: restoring division in a run-time loop over layers. */
module Divide {
  import opened Bits
  import opened Machine
  import opened Layers
  import opened Programs
  import opened Emission
  import opened Items
  import opened Tours
  import opened Lookups
  import opened Arith
  import opened Compare
  import opened Multiply

  const DIV_NUM: nat := 34528
  const DIV_DEN: nat := 34560
  const DIV_REM: nat := 34592
  const DIV_QUO: nat := 34624
  const DIV_MARK: nat := 34656
  const DIV_OVERFLOW: nat := 34688
  const DIV_STOP: nat := 34689
  const DIV_FLAGS: nat := 34690
  const DIV_REDUCE: nat := 34695
  const DIV_NUM_SIGN: nat := 34696
  const DIV_DEN_SIGN: nat := 34697
  const DIV_SIGN: nat := 34698

  /** The shifts at the head of a round: (rem, num) and quo move up by one bit. */
  function DivShiftOps(zero: nat): seq<Op> {
    [Plain(1, DIV_OVERFLOW, DIV_REM + 31)] + UpOps(DIV_REM, DIV_NUM + 31) + UpOps(DIV_NUM, zero) + UpOps(DIV_QUO, zero)
  }

  /** The test at the head of a round: reduce unless the remainder is below the divisor and did not overflow. */
  function DivTestOps(one: nat): seq<Op> {
    CompareOps(DIV_REM, DIV_DEN) + [GateOp(Xor, DIV_REDUCE, CMP_LTU, one)]
      + [GateOp(Or, DIV_REDUCE, DIV_REDUCE, DIV_OVERFLOW)]
  }

  function DivReduce(one: nat): seq<seq<Op>> {
    [AdderOps(WordAdder(true, DIV_REM, DIV_REM, DIV_DEN), 32), [Plain(1, DIV_QUO, one)]]
  }

  function DivMarkOps(zero: nat): seq<Op> {
    [Plain(1, DIV_STOP, DIV_MARK + 31)] + UpOps(DIV_MARK, zero)
  }

  lemma DivShift(c: Config, code: Code, s: Space, zero: nat) returns (t: Space)
    requires Tables(c, code, s) && Constant(s, zero, 0)
    ensures Exec(c, code, s, DivShiftOps(zero)) == Some(t)
    ensures Same(s, t, Span(DIV_NUM, 32) + Span(DIV_REM, 64) + Span(DIV_OVERFLOW, 1))
    ensures t[DIV_OVERFLOW] == s[DIV_REM + 31]
    ensures Word(t, DIV_REM) + WORD * Bit(s[DIV_REM + 31]) == 2 * Word(s, DIV_REM) + Bit(s[DIV_NUM + 31])
    ensures Word(t, DIV_NUM) + WORD * Bit(s[DIV_NUM + 31]) == 2 * Word(s, DIV_NUM)
    ensures Word(t, DIV_QUO) + WORD * Bit(s[DIV_QUO + 31]) == 2 * Word(s, DIV_QUO)
    ensures !t[DIV_QUO]
  {
    hide Exec, Tables, Val, Pow2;
    TablesRange(c, code, s);
    ExecNone(c, code, s);
    ConstantBit(s, zero, 0);
    var o1 := [Plain(1, DIV_OVERFLOW, DIV_REM + 31)];
    var s1 := DoCopy(c, code, s, [], s, 1, DIV_OVERFLOW, DIV_REM + 31);
    assert [] + o1 == o1;
    var s2 := DoUp(c, code, s, o1, s1, DIV_REM, DIV_NUM + 31);
    var o2 := o1 + UpOps(DIV_REM, DIV_NUM + 31);
    var s3 := DoUp(c, code, s, o2, s2, DIV_NUM, zero);
    t := DoUp(c, code, s, o2 + UpOps(DIV_NUM, zero), s3, DIV_QUO, zero);
    SameVal(s, s1, Span(DIV_OVERFLOW, 1), DIV_REM, 32);
    SameVal(s2, s3, Span(DIV_NUM, 32), DIV_REM, 32);
    SameVal(s3, t, Span(DIV_QUO, 32), DIV_REM, 32);
    SameVal(s, s1, Span(DIV_OVERFLOW, 1), DIV_NUM, 32);
    SameVal(s1, s2, Span(DIV_REM, 32), DIV_NUM, 32);
    SameVal(s3, t, Span(DIV_QUO, 32), DIV_NUM, 32);
    SameVal(s, s1, Span(DIV_OVERFLOW, 1), DIV_QUO, 32);
    SameVal(s1, s2, Span(DIV_REM, 32), DIV_QUO, 32);
    SameVal(s2, s3, Span(DIV_NUM, 32), DIV_QUO, 32);
    ValHead(t, DIV_QUO, 31);
  }

  /** The outcome of the test. */
  lemma DivTest(c: Config, code: Code, s: Space, one: nat) returns (t: Space)
    requires Tables(c, code, s) && Constant(s, one, 1)
    ensures Exec(c, code, s, DivTestOps(one)) == Some(t)
    ensures Same(s, t, Flags() + Span(DIV_REDUCE, 1)) && Tables(c, code, t)
    ensures t[DIV_REDUCE] == (Word(s, DIV_REM) >= Word(s, DIV_DEN) || s[DIV_OVERFLOW])
  {
    hide Exec, Tables, Val, Pow2, CompareOps;
    TablesRange(c, code, s);
    ConstantBit(s, one, 1);
    var area := Flags() + Span(DIV_REDUCE, 1);
    var s1 := CompareRun(c, code, s, DIV_REM, DIV_DEN);
    var s2 := DoGate(c, code, s, CompareOps(DIV_REM, DIV_DEN), s1, Xor, DIV_REDUCE, CMP_LTU, one);
    TablesKept(c, code, s1, s2, area);
    t := DoGate(c, code, s, CompareOps(DIV_REM, DIV_DEN) + [GateOp(Xor, DIV_REDUCE, CMP_LTU, one)],
      s2, Or, DIV_REDUCE, DIV_REDUCE, DIV_OVERFLOW);
    TablesKept(c, code, s2, t, area);
  }

  /** The reduction: subtract the divisor and set the quotient bit. */
  lemma DivSubtract(c: Config, code: Code, s: Space, one: nat) returns (t: Space)
    requires Tables(c, code, s) && code.subs && Constant(s, one, 1) && !s[DIV_QUO]
    ensures Exec(c, code, s, Flat(DivReduce(one))) == Some(t)
    ensures Same(s, t, SumArea(DIV_REM) + Span(DIV_QUO, 1))
    ensures exists k :: Word(t, DIV_REM) + Word(s, DIV_DEN) == Word(s, DIV_REM) + WORD * Bit(k)
    ensures Word(t, DIV_QUO) == Word(s, DIV_QUO) + 1
  {
    hide Exec, Tables, Pow2, AdderOps, Flat;
    TablesRange(c, code, s);
    ConstantBit(s, one, 1);
    var sub := AdderOps(WordAdder(true, DIV_REM, DIV_REM, DIV_DEN), 32);
    ExecNone(c, code, s);
    FlatTwo(sub, [Plain(1, DIV_QUO, one)]);
    var s1 := DoAdder(c, code, s, [], s, true, DIV_REM, DIV_REM, DIV_DEN);
    assert [] + sub == sub;
    t := DoCopy(c, code, s, sub, s1, 1, DIV_QUO, one);
    ValHead(s, DIV_QUO, 31);
    ValHead(t, DIV_QUO, 31);
    hide Val;
    SameVal(s, s1, SumArea(DIV_REM), DIV_QUO + 1, 31);
    SameVal(s1, t, Span(DIV_QUO, 1), DIV_QUO + 1, 31);
    SameVal(s1, t, Span(DIV_QUO, 1), DIV_REM, 32);
    assert Word(t, DIV_REM) + Word(s, DIV_DEN) == Word(s, DIV_REM) + WORD * Bit(s1[CARRY]);
  }

  lemma FlatTwo(xs: seq<Op>, ys: seq<Op>)
    ensures Flat([xs, ys]) == xs + ys
  {
    assert [xs, ys][..1] == [xs];
    FlatOne(xs);
  }

  lemma DivMark(c: Config, code: Code, s: Space, zero: nat) returns (t: Space)
    requires Tables(c, code, s) && Constant(s, zero, 0)
    ensures Exec(c, code, s, DivMarkOps(zero)) == Some(t)
    ensures Same(s, t, Span(DIV_MARK, 32) + Span(DIV_STOP, 1))
    ensures t[DIV_STOP] == s[DIV_MARK + 31]
    ensures Word(t, DIV_MARK) + WORD * Bit(s[DIV_MARK + 31]) == 2 * Word(s, DIV_MARK)
  {
    hide Exec, Tables, Val, Pow2;
    TablesRange(c, code, s);
    ExecNone(c, code, s);
    ConstantBit(s, zero, 0);
    var o1 := [Plain(1, DIV_STOP, DIV_MARK + 31)];
    var s1 := DoCopy(c, code, s, [], s, 1, DIV_STOP, DIV_MARK + 31);
    assert [] + o1 == o1;
    t := DoUp(c, code, s, o1, s1, DIV_MARK, zero);
    SameVal(s, s1, Span(DIV_STOP, 1), DIV_MARK, 32);
  }

  /**
   * Before round n: the top n bits of the dividend have been divided, quotient and remainder so far
   * make them up, and the rest of the dividend still stands in num.
   */
  ghost predicate Balance(N: nat, D: nat, n: nat, q: nat, r: nat, m: nat) {
    && N < WORD && m < WORD && q < Pow2(n) && r < Pow2(n)
    && Product(N, Pow2(n)) == (Product(q, D) + r) * WORD + m
    && (if D == 0 then q == Pow2(n) - 1 else r < D)
  }

  /** What is known of one round: the bits shifted out, the shifted words, the reduced words. */
  datatype Turn = Turn(b: nat, o: nat, p: nat, q1: nat, r1: nat)

  ghost predicate Round(D: nat, q: nat, r: nat, m: nat, x: Turn, q': nat, r': nat, m': nat) {
    && x.b < 2 && x.o < 2 && x.p < 2 && m' < WORD && r' < WORD && x.q1 < WORD && x.r1 < WORD
    && x.r1 + WORD * x.o == 2 * r + x.b && m' + WORD * x.b == 2 * m && x.q1 + WORD * x.p == 2 * q
    && if x.r1 >= D || x.o == 1
       then q' == x.q1 + 1 && (r' + D == x.r1 || r' + D == x.r1 + WORD)
       else q' == x.q1 && r' == x.r1
  }

  lemma RoundStep(N: nat, D: nat, n: nat, q: nat, r: nat, m: nat, x: Turn, q': nat, r': nat, m': nat)
    requires Balance(N, D, n, q, r, m) && n < 32 && Round(D, q, r, m, x, q', r', m')
    ensures Balance(N, D, n + 1, q', r', m')
  {
    hide Product;
    PowerBelow(n);
    assert Pow2(n + 1) == 2 * Pow2(n);
    hide Pow2;
    assert x.o == 0 && x.p == 0 && x.q1 == 2 * q && x.r1 == 2 * r + x.b;
    DoubleProduct(N, Pow2(n));
    QuotientStep(D, q, r, q', r', x.b);
  }

  lemma DoubleProduct(x: nat, y: nat)
    ensures Product(x, 2 * y) == 2 * Product(x, y)
  {
    MulAssoc(x, 2, y);
  }

  lemma PowerBelow(n: nat)
    requires n < 32
    ensures Pow2(n) <= 0x8000_0000
  {
    Pow2Word();
    if n < 31 {
      PowerOrder(n, 31);
    }
  }

  lemma QuotientStep(D: nat, q: nat, r: nat, q': nat, r': nat, b: nat)
    requires if 2 * r + b >= D then q' == 2 * q + 1 && r' + D == 2 * r + b else q' == 2 * q && r' == 2 * r + b
    ensures Product(q', D) + r' == 2 * (Product(q, D) + r) + b
  {
    assert (2 * q) * D == 2 * (q * D);
    assert (2 * q + 1) * D == 2 * (q * D) + D;
  }

  /** After round 32 the words are quotient and remainder; a zero divisor gives all ones and the dividend. */
  lemma BalanceEnd(N: nat, D: nat, q: nat, r: nat, m: nat)
    requires Balance(N, D, 32, q, r, m)
    ensures if D == 0 then q == WORD - 1 && r == N else q == N / D && r == N % D
  {
    Pow2Word();
    ProductWord(N);
    assert N == Product(q, D) + r;
    if D > 0 {
      DivModUnique(D, q, r);
    }
  }

  lemma ProductWord(N: nat)
    ensures Product(N, WORD) == N * WORD
  {
  }

  ghost function DivArea(): iset<int> {
    Span(DIV_NUM, 32) + Span(DIV_REM, 98) + Span(DIV_REDUCE, 1) + Span(TEMPORARY, 3) + Flags()
  }

  function DivHeadOps(zero: nat, one: nat): seq<Op> {
    DivShiftOps(zero) + DivTestOps(one)
  }

  /** The state at the head of round n of dividing N by D. */
  ghost predicate DivHead(c: Config, code: Code, s: Space, n: nat, N: nat, D: nat, zero: nat, one: nat) {
    && Tables(c, code, s) && code.subs && Constant(s, zero, 0) && Constant(s, one, 1) && n <= 32
    && (n < 32 ==> Word(s, DIV_MARK) == Pow2(n))
    && Word(s, DIV_DEN) == D
    && Balance(N, D, n, Word(s, DIV_QUO), Word(s, DIV_REM), Word(s, DIV_NUM))
  }

  lemma DivHeadRange(c: Config, code: Code, s: Space, n: nat, N: nat, D: nat, zero: nat, one: nat)
    requires DivHead(c, code, s, n, N, D, zero, one)
    ensures c.Valid() && 6 <= c.ab && c.LayerBits() <= CONSTANT_BASE && code.fixed == BRANCH_TABLE <= |s|
    ensures Tables(c, code, s) && Constant(s, zero, 0) && Constant(s, one, 1)
  {
  }

  /** Shifts and test in one go. */
  lemma DivFirst(c: Config, code: Code, s: Space, zero: nat, one: nat) returns (t: Space)
    requires Tables(c, code, s) && Constant(s, zero, 0) && Constant(s, one, 1)
    ensures Exec(c, code, s, Flat(Singles(DivHeadOps(zero, one)))) == Some(t)
    ensures Same(s, t, DivArea()) && Tables(c, code, t) && Constant(t, zero, 0) && Constant(t, one, 1)
    ensures Word(t, DIV_MARK) == Word(s, DIV_MARK) && Word(t, DIV_DEN) == Word(s, DIV_DEN) && !t[DIV_QUO]
    ensures Word(t, DIV_REM) + WORD * Bit(s[DIV_REM + 31]) == 2 * Word(s, DIV_REM) + Bit(s[DIV_NUM + 31])
    ensures Word(t, DIV_NUM) + WORD * Bit(s[DIV_NUM + 31]) == 2 * Word(s, DIV_NUM)
    ensures Word(t, DIV_QUO) + WORD * Bit(s[DIV_QUO + 31]) == 2 * Word(s, DIV_QUO)
    ensures t[DIV_REDUCE] == (Word(t, DIV_REM) >= Word(t, DIV_DEN) || s[DIV_REM + 31])
  {
    hide Exec, Tables, Val, Pow2, Flat, Singles, DivShiftOps, DivTestOps, Constant;
    TablesRange(c, code, s);
    FlatSingles(DivHeadOps(zero, one));
    var shifted := Span(DIV_NUM, 32) + Span(DIV_REM, 64) + Span(DIV_OVERFLOW, 1);
    var tested := Flags() + Span(DIV_REDUCE, 1);
    var u := DivShift(c, code, s, zero);
    TablesKept(c, code, s, u, shifted);
    ConstantKept(c, code, s, u, shifted, one, 1);
    t := DivTest(c, code, u, one);
    ExecAppend(c, code, s, DivShiftOps(zero), DivTestOps(one));
    SameThen(s, u, t, shifted, tested, DivArea());
    ConstantKept(c, code, s, t, DivArea(), zero, 0);
    ConstantKept(c, code, s, t, DivArea(), one, 1);
    SameVal(s, u, shifted, DIV_MARK, 32);
    SameVal(s, u, shifted, DIV_DEN, 32);
    SameVal(u, t, tested, DIV_MARK, 32);
    SameVal(u, t, tested, DIV_DEN, 32);
    SameVal(u, t, tested, DIV_REM, 32);
    SameVal(u, t, tested, DIV_NUM, 32);
    SameVal(u, t, tested, DIV_QUO, 32);
  }

  /** The reduction when the test asks for it. */
  lemma DivSecond(c: Config, code: Code, s: Space, zero: nat, one: nat) returns (t: Space)
    requires Tables(c, code, s) && code.subs && Constant(s, zero, 0) && Constant(s, one, 1) && !s[DIV_QUO]
    ensures s[DIV_REDUCE] ==> Exec(c, code, s, Flat(DivReduce(one))) == Some(t)
    ensures !s[DIV_REDUCE] ==> t == s
    ensures Same(s, t, DivArea()) && Tables(c, code, t) && Constant(t, zero, 0) && Constant(t, one, 1)
    ensures Word(t, DIV_MARK) == Word(s, DIV_MARK) && Word(t, DIV_DEN) == Word(s, DIV_DEN)
    ensures Word(t, DIV_NUM) == Word(s, DIV_NUM)
    ensures if s[DIV_REDUCE]
      then Word(t, DIV_QUO) == Word(s, DIV_QUO) + 1
        && (Word(t, DIV_REM) + Word(s, DIV_DEN) == Word(s, DIV_REM)
            || Word(t, DIV_REM) + Word(s, DIV_DEN) == Word(s, DIV_REM) + WORD)
      else Word(t, DIV_QUO) == Word(s, DIV_QUO) && Word(t, DIV_REM) == Word(s, DIV_REM)
  {
    hide Exec, Tables, Val, Pow2, Flat, Constant, DivReduce;
    TablesRange(c, code, s);
    t := s;
    if s[DIV_REDUCE] {
      t := DivSubtract(c, code, s, one);
      var area := SumArea(DIV_REM) + Span(DIV_QUO, 1);
      TablesKept(c, code, s, t, area);
      ConstantKept(c, code, s, t, area, zero, 0);
      ConstantKept(c, code, s, t, area, one, 1);
      SameVal(s, t, area, DIV_MARK, 32);
      SameVal(s, t, area, DIV_DEN, 32);
      SameVal(s, t, area, DIV_NUM, 32);
    }
  }

  lemma DivThird(c: Config, code: Code, s: Space, zero: nat, one: nat) returns (t: Space)
    requires Tables(c, code, s) && Constant(s, zero, 0) && Constant(s, one, 1)
    ensures Exec(c, code, s, Flat(Singles(DivMarkOps(zero)))) == Some(t)
    ensures Same(s, t, DivArea()) && Tables(c, code, t) && Constant(t, zero, 0) && Constant(t, one, 1)
    ensures t[DIV_STOP] == s[DIV_MARK + 31]
    ensures Word(t, DIV_MARK) + WORD * Bit(s[DIV_MARK + 31]) == 2 * Word(s, DIV_MARK)
    ensures Word(t, DIV_DEN) == Word(s, DIV_DEN) && Word(t, DIV_NUM) == Word(s, DIV_NUM)
    ensures Word(t, DIV_QUO) == Word(s, DIV_QUO) && Word(t, DIV_REM) == Word(s, DIV_REM)
  {
    hide Exec, Tables, Val, Pow2, Flat, Constant, Singles, DivMarkOps;
    TablesRange(c, code, s);
    FlatSingles(DivMarkOps(zero));
    t := DivMark(c, code, s, zero);
    var area := Span(DIV_MARK, 32) + Span(DIV_STOP, 1);
    TablesKept(c, code, s, t, area);
    ConstantKept(c, code, s, t, area, zero, 0);
    ConstantKept(c, code, s, t, area, one, 1);
    SameVal(s, t, area, DIV_DEN, 32);
    SameVal(s, t, area, DIV_NUM, 32);
    SameVal(s, t, area, DIV_QUO, 32);
    SameVal(s, t, area, DIV_REM, 32);
  }

  /** The loop of divide32: head, reduction that may be skipped, marker. */
  function DivLoopItems(zero: nat, one: nat, loop: nat, skip: nat): seq<Item> {
    [Bind(loop), Straight(Singles(DivHeadOps(zero, one))), Goto(skip, DIV_REDUCE, true), Straight(DivReduce(one)),
     Bind(skip), Straight(Singles(DivMarkOps(zero))), Goto(loop, DIV_STOP, true)]
  }

  lemma DivShape(zero: nat, one: nat, loop: nat, skip: nat)
    requires loop != skip
    ensures var items := DivLoopItems(zero, one, loop, skip);
      && |items| == 7 && items[0] == Bind(loop) && items[1] == Straight(Singles(DivHeadOps(zero, one)))
      && items[2] == Goto(skip, DIV_REDUCE, true) && items[3] == Straight(DivReduce(one))
      && items[4] == Bind(skip) && items[5] == Straight(Singles(DivMarkOps(zero)))
      && items[6] == Goto(loop, DIV_STOP, true)
      && BindAt(items, loop) == Some(0) && BindAt(items, skip) == Some(4)
  {
    hide DivHeadOps, DivReduce, DivMarkOps, Singles;
    BindAtIs(DivLoopItems(zero, one, loop, skip), loop, 0);
    BindAtIs(DivLoopItems(zero, one, loop, skip), skip, 4);
  }

  lemma DivMarkTop(s: Space, n: nat)
    requires DIV_MARK + 32 <= |s| && n < 32 && Word(s, DIV_MARK) == Pow2(n)
    ensures s[DIV_MARK + 31] == (n == 31)
    ensures n < 31 ==> Pow2(n + 1) == 2 * Pow2(n)
  {
    hide Val;
    TopBit(s, DIV_MARK);
    MarkerBelow(n);
  }

  /** One round keeps the state of the division. */
  lemma DivRound(c: Config, code: Code, s: Space, n: nat, N: nat, D: nat, zero: nat, one: nat)
    returns (u: Space, v: Space, t: Space)
    requires DivHead(c, code, s, n, N, D, zero, one) && n < 32
    ensures Exec(c, code, s, Flat(Singles(DivHeadOps(zero, one)))) == Some(u)
    ensures Same(s, u, DivArea()) && Same(u, v, DivArea()) && Same(v, t, DivArea())
    ensures if u[DIV_REDUCE] then Exec(c, code, u, Flat(DivReduce(one))) == Some(v) else v == u
    ensures Exec(c, code, v, Flat(Singles(DivMarkOps(zero)))) == Some(t)
    ensures t[DIV_STOP] == (n == 31)
    ensures DivHead(c, code, t, n + 1, N, D, zero, one)
  {
    hide Exec, Tables, Flat, Constant, Singles, DivMarkOps, DivHeadOps, DivReduce, Balance, Word, Pow2;
    DivHeadRange(c, code, s, n, N, D, zero, one);
    DivMarkTop(s, n);
    u := DivFirst(c, code, s, zero, one);
    v := DivSecond(c, code, u, zero, one);
    t := DivThird(c, code, v, zero, one);
    DivMarkTop(v, n);
    WordBound(t, DIV_NUM);
    WordBound(t, DIV_REM);
    WordBound(u, DIV_QUO);
    WordBound(u, DIV_REM);
    RoundStep(N, D, n, Word(s, DIV_QUO), Word(s, DIV_REM), Word(s, DIV_NUM),
      Turn(Bit(s[DIV_NUM + 31]), Bit(s[DIV_REM + 31]), Bit(s[DIV_QUO + 31]), Word(u, DIV_QUO), Word(u, DIV_REM)),
      Word(t, DIV_QUO), Word(t, DIV_REM), Word(t, DIV_NUM));
  }

  /** One round of the loop's items: the head is visited once. */
  lemma DivPath(c: Config, code: Code, s: Space, n: nat, N: nat, D: nat, zero: nat, one: nat, loop: nat, skip: nat)
    returns (t: Space)
    requires DivHead(c, code, s, n, N, D, zero, one) && n < 32 && loop != skip
    ensures c.Valid() && Tour(c, code, DivLoopItems(zero, one, loop, skip), 1, s, if n == 31 then 7 else 1, t, 1, [s])
    ensures Same(s, t, DivArea()) && DivHead(c, code, t, n + 1, N, D, zero, one)
  {
    hide Exec, Flat, Singles, DivHead, DivLoopItems, Tour, DivArea, DivHeadOps, DivReduce, DivMarkOps;
    DivHeadRange(c, code, s, n, N, D, zero, one);
    DivShape(zero, one, loop, skip);
    var items := DivLoopItems(zero, one, loop, skip);
    var u, v;
    u, v, t := DivRound(c, code, s, n, N, D, zero, one);
    TourStraight(c, code, items, 1, s, u, 1);
    TourGoto(c, code, items, 2, u, 4, 1);
    if u[DIV_REDUCE] {
      TourStraight(c, code, items, 3, u, v, 1);
      TourBind(c, code, items, 4, v, 1);
      QuietThen(c, code, items, 2, u, 3, u, 4, v);
      QuietThen(c, code, items, 2, u, 4, v, 5, v);
    }
    TourStraight(c, code, items, 5, v, t, 1);
    TourGoto(c, code, items, 6, t, 0, 1);
    QuietThen(c, code, items, 2, u, 5, v, 6, t);
    QuietThen(c, code, items, 2, u, 6, t, if n == 31 then 7 else 1, t);
    TourThen(c, code, items, 1, s, 2, u, if n == 31 then 7 else 1, t, 1, [s], []);
    assert [s] + [] == [s];
    SameThen(s, u, v, DivArea(), DivArea(), DivArea());
    SameThen(s, v, t, DivArea(), DivArea(), DivArea());
  }

  /** Stretches that do not come by the head. */
  lemma QuietThen(c: Config, code: Code, items: seq<Item>, i: nat, s: Space, j: nat, t: Space, k: nat, u: Space)
    requires c.Valid() && Tour(c, code, items, i, s, j, t, 1, []) && Tour(c, code, items, j, t, k, u, 1, [])
    ensures Tour(c, code, items, i, s, k, u, 1, [])
  {
    hide Tour;
    var none: seq<Space> := [];
    assert none + none == none;
    TourThen(c, code, items, i, s, j, t, k, u, 1, none, none);
  }

  /** The passes over the loop head from round n on, in order. */
  ghost predicate DivRounds(c: Config, code: Code, heads: seq<Space>, n: nat, N: nat, D: nat, zero: nat, one: nat) {
    n + |heads| == 32 && forall i | 0 <= i < |heads| :: DivHead(c, code, heads[i], n + i, N, D, zero, one)
  }

  lemma DivRoundsCons(c: Config, code: Code, s: Space, later: seq<Space>, n: nat, N: nat, D: nat, zero: nat, one: nat)
    requires DivHead(c, code, s, n, N, D, zero, one) && n < 31 && DivRounds(c, code, later, n + 1, N, D, zero, one)
    ensures DivRounds(c, code, [s] + later, n, N, D, zero, one)
  {
    hide DivHead;
    var heads := [s] + later;
    forall i | 0 <= i < |heads| ensures DivHead(c, code, heads[i], n + i, N, D, zero, one) {
      if i > 0 {
        assert DivHead(c, code, later[i - 1], n + 1 + (i - 1), N, D, zero, one);
      }
    }
  }

  /** From the head of round n the loop turns until the marker leaves its word in round 32. */
  lemma {:induction false} DivLoop(c: Config, code: Code, s: Space, n: nat, N: nat, D: nat,
                                   zero: nat, one: nat, loop: nat, skip: nat)
    returns (heads: seq<Space>, t: Space)
    requires DivHead(c, code, s, n, N, D, zero, one) && n < 32 && loop != skip
    ensures c.Valid() && DivRounds(c, code, heads, n, N, D, zero, one)
    ensures Tour(c, code, DivLoopItems(zero, one, loop, skip), 1, s, 7, t, 1, heads)
    ensures Same(s, t, DivArea()) && DivHead(c, code, t, 32, N, D, zero, one)
    decreases 32 - n
  {
    DivHeadRange(c, code, s, n, N, D, zero, one);
    hide Tour, DivHead, Same, DivLoopItems, DivArea;
    var items := DivLoopItems(zero, one, loop, skip);
    var u := DivPath(c, code, s, n, N, D, zero, one, loop, skip);
    if n == 31 {
      heads, t := [s], u;
    } else {
      var later;
      later, t := DivLoop(c, code, u, n + 1, N, D, zero, one, loop, skip);
      hide DivRounds;
      heads := [s] + later;
      DivRoundsCons(c, code, s, later, n, N, D, zero, one);
      TourThen(c, code, items, 1, s, 1, u, 7, t, 1, [s], later);
      SameThen(s, u, t, DivArea(), DivArea(), DivArea());
    }
  }

  /** Negate a word when its sign says so. */
  function AbsItems(value: nat, sign: nat, zero: nat, tag: nat): seq<Item> {
    [Goto(tag, sign, true), Straight([AdderOps(WordAdder(true, value, zero, value), 32)]), Bind(tag)]
  }

  function Negated(v: nat): nat {
    if v == 0 || v >= WORD then 0 else WORD - v
  }

  lemma AbsNegate(c: Config, code: Code, s: Space, value: nat, zero: nat) returns (t: Space)
    requires code.subs
    requires Tables(c, code, s) && Constant(s, zero, 0)
    requires DIV_NUM <= value && value + 32 <= DIV_NUM + 171
    ensures Exec(c, code, s, Flat([AdderOps(WordAdder(true, value, zero, value), 32)])) == Some(t)
    ensures Same(s, t, SumArea(value)) && Word(t, value) == Negated(Word(s, value))
  {
    TablesRange(c, code, s);
    hide Exec, Tables, Val, Pow2, AdderOps, Flat;
    ExecNone(c, code, s);
    var sub := AdderOps(WordAdder(true, value, zero, value), 32);
    t := DoAdder(c, code, s, [], s, true, value, zero, value);
    assert [] + sub == sub;
    FlatOne(sub);
    WordBound(t, value);
    WordBound(s, value);
  }

  lemma AbsRuns(c: Config, code: Code, s: Space, value: nat, sign: nat, zero: nat, tag: nat) returns (t: Space)
    requires code.subs
    requires Tables(c, code, s) && Constant(s, zero, 0)
    requires DIV_NUM <= value && value + 32 <= DIV_NUM + 171 && DIV_NUM <= sign < DIV_NUM + 171
    ensures Runs(c, code, AbsItems(value, sign, zero, tag), s, t)
    ensures Same(s, t, SumArea(value))
    ensures Word(t, value) == if s[sign] then Negated(Word(s, value)) else Word(s, value)
  {
    TablesRange(c, code, s);
    AbsShape(value, sign, zero, tag);
    hide Exec, Tables, AdderOps, Path, Flat, Constant, Negated, Word, SumArea, AbsItems;
    var items := AbsItems(value, sign, zero, tag);
    PathGoto(c, code, items, 0, s, 2);
    t := s;
    if s[sign] {
      t := AbsNegate(c, code, s, value, zero);
      PathStraight(c, code, items, 1, s, t);
      PathBind(c, code, items, 2, t);
      PathThen(c, code, items, 0, s, 1, s, 2, t);
      PathThen(c, code, items, 0, s, 2, t, 3, t);
    }
  }

  lemma AbsShape(value: nat, sign: nat, zero: nat, tag: nat)
    ensures var items := AbsItems(value, sign, zero, tag);
      && |items| == 3 && items[0] == Goto(tag, sign, true)
      && items[1] == Straight([AdderOps(WordAdder(true, value, zero, value), 32)]) && items[2] == Bind(tag)
      && BindAt(items, tag) == Some(2)
  {
    hide AdderOps;
    BindAtIs(AbsItems(value, sign, zero, tag), tag, 2);
  }

  /** All that division may change, the flags and the destination apart. */
  ghost function DivScratch(): iset<int> {
    Span(DIV_NUM, 171) + Span(TEMPORARY, 3) + Flags()
  }

  /** What every part of the division keeps: tables, constants, everything outside, the saved flags. */
  ghost predicate Kept(c: Config, code: Code, s: Space, t: Space, zero: nat, one: nat) {
    && Tables(c, code, t) && code.subs && Constant(t, zero, 0) && Constant(t, one, 1)
    && Same(s, t, DivScratch())
    && forall p {:trigger t[p]} | DIV_FLAGS <= p < DIV_FLAGS + 5 :: t[p] == s[p - DIV_FLAGS + CMP_EQ]
  }

  lemma KeptRange(c: Config, code: Code, s: Space, t: Space, zero: nat, one: nat)
    requires Kept(c, code, s, t, zero, one)
    ensures Tables(c, code, t) && code.subs && Constant(t, zero, 0) && Constant(t, one, 1) && |s| == |t|
    ensures c.Valid() && 6 <= c.ab && c.LayerBits() <= CONSTANT_BASE && code.fixed == BRANCH_TABLE <= |s|
  {
  }

  lemma KeptThen(c: Config, code: Code, s: Space, t: Space, u: Space, area: iset<int>, zero: nat, one: nat)
    requires Kept(c, code, s, t, zero, one) && Same(t, u, area)
    requires area <= DivScratch() && area !! Span(DIV_FLAGS, 5)
    ensures Kept(c, code, s, u, zero, one)
  {
    hide Tables, Constant;
    KeptRange(c, code, s, t, zero, one);
    ScratchFree();
    TablesKept(c, code, t, u, area);
    ConstantKept(c, code, t, u, area, zero, 0);
    ConstantKept(c, code, t, u, area, one, 1);
    SameThen(s, t, u, DivScratch(), area, DivScratch());
    hide DivScratch;
    forall p {:trigger u[p]} | DIV_FLAGS <= p < DIV_FLAGS + 5 ensures u[p] == s[p - DIV_FLAGS + CMP_EQ] {
      assert p in Span(DIV_FLAGS, 5);
      assert u[p] == t[p];
    }
  }

  lemma ScratchFree()
    ensures DivScratch() !! Fixed()
  {
  }

  function DivStart(dst: nat, src: nat): seq<Op> {
    [] + [Plain(5, DIV_FLAGS, CMP_EQ)] + [Plain(32, DIV_NUM, dst)] + [Plain(32, DIV_DEN, src)]
    + [Plain(1, DIV_NUM_SIGN, DIV_NUM + 31)] + [Plain(1, DIV_DEN_SIGN, DIV_DEN + 31)]
  }

  lemma DivBegin(c: Config, code: Code, s: Space, dst: nat, src: nat, zero: nat, one: nat) returns (t: Space)
    requires code.subs
    requires Tables(c, code, s) && Constant(s, zero, 0) && Constant(s, one, 1) && Register(dst) && Register(src)
    ensures Exec(c, code, s, Flat(Singles(DivStart(dst, src)))) == Some(t)
    ensures Kept(c, code, s, t, zero, one)
    ensures Word(t, DIV_NUM) == Word(s, dst) && Word(t, DIV_DEN) == Word(s, src)
    ensures t[DIV_NUM_SIGN] == (Word(s, dst) >= 0x8000_0000) && t[DIV_DEN_SIGN] == (Word(s, src) >= 0x8000_0000)
  {
    hide Exec, Tables, Val, Flat, Constant, Pow2, Singles;
    TablesRange(c, code, s);
    ExecNone(c, code, s);
    FlatSingles(DivStart(dst, src));
    TopBit(s, dst);
    TopBit(s, src);
    var o1 := [] + [Plain(5, DIV_FLAGS, CMP_EQ)];
    var s1 := DoCopy(c, code, s, [], s, 5, DIV_FLAGS, CMP_EQ);
    var o2 := o1 + [Plain(32, DIV_NUM, dst)];
    var s2 := DoCopy(c, code, s, o1, s1, 32, DIV_NUM, dst);
    var o3 := o2 + [Plain(32, DIV_DEN, src)];
    var s3 := DoCopy(c, code, s, o2, s2, 32, DIV_DEN, src);
    var o4 := o3 + [Plain(1, DIV_NUM_SIGN, DIV_NUM + 31)];
    var s4 := DoCopy(c, code, s, o3, s3, 1, DIV_NUM_SIGN, DIV_NUM + 31);
    t := DoCopy(c, code, s, o4, s4, 1, DIV_DEN_SIGN, DIV_DEN + 31);
    SameVal(s, s1, Span(DIV_FLAGS, 5), dst, 32);
    SameVal(s, s1, Span(DIV_FLAGS, 5), src, 32);
    SameVal(s1, s2, Span(DIV_NUM, 32), src, 32);
    SameVal(s2, s3, Span(DIV_DEN, 32), DIV_NUM, 32);
    SameVal(s3, s4, Span(DIV_NUM_SIGN, 1), DIV_NUM, 32);
    SameVal(s4, t, Span(DIV_DEN_SIGN, 1), DIV_NUM, 32);
    SameVal(s3, s4, Span(DIV_NUM_SIGN, 1), DIV_DEN, 32);
    SameVal(s4, t, Span(DIV_DEN_SIGN, 1), DIV_DEN, 32);
    assert Same(s, t, DivScratch());
    ScratchFree();
    TablesKept(c, code, s, t, DivScratch());
    ConstantKept(c, code, s, t, DivScratch(), zero, 0);
    ConstantKept(c, code, s, t, DivScratch(), one, 1);
  }

  function DivInit(zero: nat, one: nat): seq<Op> {
    [] + [Plain(32, DIV_REM, zero)] + [Plain(32, DIV_QUO, zero)] + [Plain(32, DIV_MARK, one)]
  }

  /** Remainder and quotient start at zero, the marker at one. */
  lemma DivPrepare(c: Config, code: Code, s: Space, t: Space, zero: nat, one: nat) returns (u: Space)
    requires Kept(c, code, s, t, zero, one)
    ensures Exec(c, code, t, Flat(Singles(DivInit(zero, one)))) == Some(u)
    ensures Kept(c, code, s, u, zero, one) && Same(t, u, Span(DIV_REM, 96))
    ensures DivHead(c, code, u, 0, Word(t, DIV_NUM), Word(t, DIV_DEN), zero, one)
  {
    hide Exec, Tables, Val, Flat, Constant, Pow2, Singles, Kept;
    KeptRange(c, code, s, t, zero, one);
    ExecNone(c, code, t);
    FlatSingles(DivInit(zero, one));
    ConstantRange(t, zero, 0);
    ConstantRange(t, one, 1);
    var o1 := [] + [Plain(32, DIV_REM, zero)];
    var s1 := DoCopy(c, code, t, [], t, 32, DIV_REM, zero);
    var o2 := o1 + [Plain(32, DIV_QUO, zero)];
    var s2 := DoCopy(c, code, t, o1, s1, 32, DIV_QUO, zero);
    u := DoCopy(c, code, t, o2, s2, 32, DIV_MARK, one);
    SameVal(t, s1, Span(DIV_REM, 32), zero, 32);
    SameVal(t, s1, Span(DIV_REM, 32), one, 32);
    SameVal(s1, s2, Span(DIV_QUO, 32), one, 32);
    SameVal(s1, s2, Span(DIV_QUO, 32), DIV_REM, 32);
    SameVal(s2, u, Span(DIV_MARK, 32), DIV_REM, 32);
    SameVal(s2, u, Span(DIV_MARK, 32), DIV_QUO, 32);
    assert Same(t, u, Span(DIV_REM, 96));
    SameVal(t, u, Span(DIV_REM, 96), DIV_NUM, 32);
    SameVal(t, u, Span(DIV_REM, 96), DIV_DEN, 32);
    KeptThen(c, code, s, t, u, Span(DIV_REM, 96), zero, one);
    KeptRange(c, code, s, u, zero, one);
    WordBound(t, DIV_NUM);
    WordBound(t, DIV_DEN);
    BalanceStart(Word(t, DIV_NUM), Word(t, DIV_DEN));
    SmallPowers();
  }

  lemma BalanceStart(N: nat, D: nat)
    requires N < WORD
    ensures Balance(N, D, 0, 0, 0, N)
  {
    SmallPowers();
  }

  /** Quotient and remainder of unsigned words; a zero divisor gives all ones and the dividend. */
  predicate Divided(N: nat, D: nat, q: nat, r: nat) {
    if D == 0 then q == WORD - 1 && r == N else q == N / D && r == N % D
  }

  /** The whole loop as a list of its own: quotient and remainder of the two words. */
  lemma DivLoopRuns(c: Config, code: Code, s: Space, t: Space, N: nat, D: nat, zero: nat, one: nat, loop: nat, skip: nat)
    returns (heads: seq<Space>, u: Space)
    requires Kept(c, code, s, t, zero, one) && DivHead(c, code, t, 0, N, D, zero, one) && loop != skip
    ensures c.Valid() && Tour(c, code, DivLoopItems(zero, one, loop, skip), 0, t, 7, u, 1, heads)
    ensures |DivLoopItems(zero, one, loop, skip)| == 7 && DivRounds(c, code, heads, 0, N, D, zero, one)
    ensures Kept(c, code, s, u, zero, one) && Same(t, u, DivArea())
    ensures Word(u, DIV_DEN) == D
    ensures Divided(N, D, Word(u, DIV_QUO), Word(u, DIV_REM))
  {
    hide *;
    KeptRange(c, code, s, t, zero, one);
    DivShape(zero, one, loop, skip);
    var items := DivLoopItems(zero, one, loop, skip);
    TourBind(c, code, items, 0, t, 1);
    heads, u := DivLoop(c, code, t, 0, N, D, zero, one, loop, skip);
    TourThen(c, code, items, 0, t, 1, t, 7, u, 1, [], heads);
    assert [] + heads == heads;
    DivLoopAreas();
    KeptThen(c, code, s, t, u, DivArea(), zero, one);
    KeptRange(c, code, s, u, zero, one);
    DivLoopEnd(c, code, u, N, D, zero, one);
  }

  lemma DivLoopAreas()
    ensures DivArea() <= DivScratch() && DivArea() !! Span(DIV_FLAGS, 5)
  {
  }

  lemma DivLoopEnd(c: Config, code: Code, u: Space, N: nat, D: nat, zero: nat, one: nat)
    requires DivHead(c, code, u, 32, N, D, zero, one)
    ensures |u| >= BRANCH_TABLE && Word(u, DIV_DEN) == D
    ensures Divided(N, D, Word(u, DIV_QUO), Word(u, DIV_REM))
  {
    hide Balance, Val, Tables, Constant;
    DivHeadRange(c, code, u, 32, N, D, zero, one);
    BalanceEnd(N, D, Word(u, DIV_QUO), Word(u, DIV_REM), Word(u, DIV_NUM));
  }
}
