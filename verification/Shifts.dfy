/** shift32: a barrel shifter of five stages, every bit picked from two candidates by one bit of the count. */
module Shifts {
  import opened Bits
  import opened Machine
  import opened Layers
  import opened Programs
  import opened Emission
  import opened Items
  import opened Lookups
  import opened Arith
  import opened Compare
  import opened Multiply

  const SHIFT_WORD: nat := 33856
  const SHIFT_COUNT: nat := 33888
  const SHIFT_PAIR: nat := 33894

  datatype Direction = Left | Logical | Arithmetic

  /** The other candidate for a bit: the one step positions away, the sign, or the constant zero bit. */
  function Candidate(d: Direction, step: nat, bit: nat): (at: nat)
    requires bit < 32
    ensures step > 0 ==> SHIFT_WORD <= at <= SHIFT_WORD + 31 || at == SHIFT_ZERO
    ensures at <= SHIFT_ZERO
  {
    if d.Left? then (if bit >= step then SHIFT_WORD + bit - step else SHIFT_ZERO)
    else if bit + step < 32 then SHIFT_WORD + bit + step
    else if d.Arithmetic? then SHIFT_WORD + 31 else SHIFT_ZERO
  }

  function PickOps(d: Direction, dst: nat, stage: nat, bit: nat): seq<Op>
    requires bit < 32
  {
    [Plain(1, SHIFT_PAIR, SHIFT_WORD + bit), Plain(1, SHIFT_PAIR + 1, Candidate(d, Pow2(stage), bit)),
     Lookup(1, dst + bit, SHIFT_PAIR, 0, [SHIFT_COUNT + stage])]
  }

  function PickChunks(d: Direction, dst: nat, stage: nat, k: nat): seq<seq<Op>>
    requires k <= 32
  {
    seq(k, j requires 0 <= j < k => PickOps(d, dst, stage, j))
  }

  /** One stage: the word aside, then its bits one by one. */
  function StageChunks(d: Direction, dst: nat, stage: nat): seq<seq<Op>> {
    [[Plain(32, SHIFT_WORD, dst)]] + PickChunks(d, dst, stage, 32)
  }

  function ShiftChunks(d: Direction, dst: nat, count: nat, stages: nat): seq<seq<Op>> {
    if stages == 0 then [[Plain(5, SHIFT_COUNT, count)]]
    else ShiftChunks(d, dst, count, stages - 1) + StageChunks(d, dst, stages - 1)
  }

  ghost function ShiftScratch(): iset<int> {
    Span(SHIFT_WORD, 40)
  }

  lemma SnocLookup1(c: Config, code: Code, s: Space, ops: seq<Op>, t: Space, dst: nat, table: nat, a: nat)
    requires c.Valid() && 4 <= c.ab && Exec(c, code, s, ops) == Some(t)
    requires Writable(c, code, t, dst, 1) && table % 2 == 0 && Readable(c, t, table, 2) && Readable(c, t, a, 1)
    ensures Exec(c, code, s, ops + [Lookup(1, dst, table, 0, [a])]) == Some(CopyBits(t, 1, dst, table + Bit(t[a])))
  {
    hide Offset, Pow2, Exec, Allowed, ExecOp, IndexPatches;
    OffsetSnoc(t, 0, [], a);
    assert [] + [a] == [a];
    OffsetNone(t);
    SmallPowers();
    LookupExec(c, code, t, 1, dst, table, 0, [a], table / 2);
    ExecSnoc(c, code, s, ops, t, Lookup(1, dst, table, 0, [a]));
  }

  lemma OffsetNone(s: Space)
    ensures Offset(s, 0, []) == 0
  {
  }

  /** One bit of one stage. */
  lemma PickRun(c: Config, code: Code, s: Space, ops: seq<Op>, t: Space, d: Direction, dst: nat, stage: nat, bit: nat)
    returns (u: Space)
    requires Tables(c, code, t) && Exec(c, code, s, ops) == Some(t) && Register(dst) && stage < 5 && bit < 32
    ensures Exec(c, code, s, ops + PickOps(d, dst, stage, bit)) == Some(u)
    ensures Same(t, u, Span(dst + bit, 1) + Span(SHIFT_PAIR, 2)) && Tables(c, code, u)
    ensures u[dst + bit] == if t[SHIFT_COUNT + stage] then t[Candidate(d, Pow2(stage), bit)] else t[SHIFT_WORD + bit]
  {
    hide Exec, Tables, Val, Pow2, Fixed;
    TablesRange(c, code, t);
    var o1, o2 := Plain(1, SHIFT_PAIR, SHIFT_WORD + bit), Plain(1, SHIFT_PAIR + 1, Candidate(d, Pow2(stage), bit));
    var t1 := DoCopy(c, code, s, ops, t, 1, SHIFT_PAIR, SHIFT_WORD + bit);
    var t2 := DoCopy(c, code, s, ops + [o1], t1, 1, SHIFT_PAIR + 1, Candidate(d, Pow2(stage), bit));
    var last := Lookup(1, dst + bit, SHIFT_PAIR, 0, [SHIFT_COUNT + stage]);
    SnocLookup1(c, code, s, ops + [o1] + [o2], t2, dst + bit, SHIFT_PAIR, SHIFT_COUNT + stage);
    u := CopyBits(t2, 1, dst + bit, SHIFT_PAIR + Bit(t2[SHIFT_COUNT + stage]));
    assert ops + [o1] + [o2] + [last] == ops + [o1, o2, last];
    PickFree(dst, bit);
    TablesKept(c, code, t, u, Span(dst + bit, 1) + Span(SHIFT_PAIR, 2));
  }

  lemma PickFree(dst: nat, bit: nat)
    requires Register(dst) && bit < 32
    ensures (Span(dst + bit, 1) + Span(SHIFT_PAIR, 2)) !! Fixed()
  {
  }

  lemma FlatSnoc(chunks: seq<seq<Op>>, ops: seq<Op>)
    ensures Flat(chunks + [ops]) == Flat(chunks) + ops
  {
    assert (chunks + [ops])[..|chunks|] == chunks;
  }

  /** k bits of a stage done, the others still to be picked from the word put aside. */
  ghost predicate Picked(s: Space, t: Space, d: Direction, dst: nat, stage: nat, k: nat)
    requires |s| >= BRANCH_TABLE && |t| >= BRANCH_TABLE && dst + 32 <= BRANCH_TABLE && stage < 5 && k <= 32
  {
    && Same(s, t, Span(dst, 32) + Span(SHIFT_PAIR, 2))
    && forall i | 0 <= i < k :: PickedAt(s, t, d, dst, stage, i)
  }

  predicate PickedAt(s: Space, t: Space, d: Direction, dst: nat, stage: nat, i: nat)
    requires |s| >= BRANCH_TABLE && |t| >= BRANCH_TABLE && dst + 32 <= BRANCH_TABLE && stage < 5 && i < 32
  {
    t[dst + i] == PickOf(s, d, stage, i)
  }

  predicate PickOf(s: Space, d: Direction, stage: nat, i: nat)
    requires |s| >= BRANCH_TABLE && stage < 5 && i < 32
  {
    if s[SHIFT_COUNT + stage] then s[Candidate(d, Pow2(stage), i)] else s[SHIFT_WORD + i]
  }

  lemma {:induction false} PicksRun(c: Config, code: Code, s0: Space, ops: seq<Op>, s: Space, d: Direction, dst: nat, stage: nat, k: nat)
    returns (t: Space)
    requires Tables(c, code, s) && Exec(c, code, s0, ops) == Some(s) && Register(dst) && stage < 5 && k <= 32 && |s| >= BRANCH_TABLE
    ensures Exec(c, code, s0, ops + Flat(PickChunks(d, dst, stage, k))) == Some(t)
    ensures Tables(c, code, t) && |t| == |s| && Picked(s, t, d, dst, stage, k)
    decreases k
  {
    hide Exec, Tables, Flat, PickOps, Pow2, Candidate, PickOf;
    if k == 0 {
      t := s;
      NoChunks();
      assert ops + [] == ops;
      SameSelf(s, Span(dst, 32) + Span(SHIFT_PAIR, 2));
    } else {
      var v := PicksRun(c, code, s0, ops, s, d, dst, stage, k - 1);
      var before := PickChunks(d, dst, stage, k - 1);
      assert PickChunks(d, dst, stage, k) == before + [PickOps(d, dst, stage, k - 1)];
      FlatSnoc(before, PickOps(d, dst, stage, k - 1));
      t := PickRun(c, code, s0, ops + Flat(before), v, d, dst, stage, k - 1);
      assert ops + Flat(before) + PickOps(d, dst, stage, k - 1) == ops + (Flat(before) + PickOps(d, dst, stage, k - 1));
      PickedMore(s, v, t, d, dst, stage, k - 1);
    }
  }

  lemma NoChunks()
    ensures Flat([]) == []
  {
  }

  lemma PickedMore(s: Space, v: Space, t: Space, d: Direction, dst: nat, stage: nat, k: nat)
    requires Register(dst) && |s| == |v| == |t| && |s| >= BRANCH_TABLE && stage < 5 && k < 32 && Picked(s, v, d, dst, stage, k)
    requires Same(v, t, Span(dst + k, 1) + Span(SHIFT_PAIR, 2))
    requires t[dst + k] == if v[SHIFT_COUNT + stage] then v[Candidate(d, Pow2(stage), k)] else v[SHIFT_WORD + k]
    ensures Picked(s, t, d, dst, stage, k + 1)
  {
    hide Pow2, Candidate;
    var a := Candidate(d, Pow2(stage), k);
    assert v[a] == s[a] && v[SHIFT_WORD + k] == s[SHIFT_WORD + k] && v[SHIFT_COUNT + stage] == s[SHIFT_COUNT + stage];
    var area := Span(dst, 32) + Span(SHIFT_PAIR, 2);
    SameThen(s, v, t, area, Span(dst + k, 1) + Span(SHIFT_PAIR, 2), area);
    forall i | 0 <= i < k + 1 ensures PickedAt(s, t, d, dst, stage, i) {
      if i < k {
        assert PickedAt(s, v, d, dst, stage, i);
        var p := dst + i;
        assert p !in Span(dst + k, 1) + Span(SHIFT_PAIR, 2);
        assert t[p] == v[p];
      }
    }
  }

  /** A stage as a function of the word: every bit comes from step positions away, or stays. */
  function Moved(x: Space, d: Direction, step: nat): (y: Space)
    requires |x| == 32
    ensures |y| == 32
  {
    seq(32, i requires 0 <= i < 32 =>
      if d.Left? then i >= step && x[i - step]
      else if i + step < 32 then x[i + step] else d.Arithmetic? && x[31])
  }

  /** The bits of a word of the space. */
  function WordBits(s: Space, at: nat): (x: Space)
    requires at + 32 <= |s|
    ensures |x| == 32
  {
    s[at..at + 32]
  }

  /** Moving twice is moving by the sum. */
  lemma MovedTwice(x: Space, d: Direction, m: nat, n: nat)
    requires |x| == 32 && m + n < 32
    ensures Moved(Moved(x, d, m), d, n) == Moved(x, d, m + n) && Moved(x, d, 0) == x
  {
    forall i | 0 <= i < 32 ensures Moved(Moved(x, d, m), d, n)[i] == Moved(x, d, m + n)[i] && Moved(x, d, 0)[i] == x[i] {
    }
  }

  /** A whole stage. */
  lemma StageRun(c: Config, code: Code, s0: Space, ops: seq<Op>, s: Space, d: Direction, dst: nat, stage: nat) returns (t: Space)
    requires Tables(c, code, s) && Exec(c, code, s0, ops) == Some(s) && Register(dst) && stage < 5 && |s| >= BRANCH_TABLE
    ensures Exec(c, code, s0, ops + Flat(StageChunks(d, dst, stage))) == Some(t)
    ensures Tables(c, code, t) && Same(s, t, ShiftScratch() + Span(dst, 32)) && |t| == |s|
    ensures forall p {:trigger t[p]} | SHIFT_COUNT <= p < SHIFT_COUNT + 5 :: t[p] == s[p]
    ensures WordBits(t, dst) == if s[SHIFT_COUNT + stage] then Moved(WordBits(s, dst), d, Pow2(stage)) else WordBits(s, dst)
  {
    hide Exec, Tables, Flat, PickChunks, Pow2, Candidate, PickOf, Val;
    TablesRange(c, code, s);
    StageFlat(d, dst, stage);
    var first := Plain(32, SHIFT_WORD, dst);
    var u := DoCopy(c, code, s0, ops, s, 32, SHIFT_WORD, dst);
    WordFree(dst);
    TablesKept(c, code, s, u, Span(SHIFT_WORD, 32));
    t := PicksRun(c, code, s0, ops + [first], u, d, dst, stage, 32);
    assert ops + [first] + Flat(PickChunks(d, dst, stage, 32)) == ops + ([first] + Flat(PickChunks(d, dst, stage, 32)));
    SameThen(s, u, t, Span(SHIFT_WORD, 32), Span(dst, 32) + Span(SHIFT_PAIR, 2), ShiftScratch() + Span(dst, 32));
    StageBits(c, code, s, u, t, d, dst, stage);
  }

  lemma StageFlat(d: Direction, dst: nat, stage: nat)
    ensures Flat(StageChunks(d, dst, stage)) == [Plain(32, SHIFT_WORD, dst)] + Flat(PickChunks(d, dst, stage, 32))
  {
    hide PickChunks;
    FlatAppend([[Plain(32, SHIFT_WORD, dst)]], PickChunks(d, dst, stage, 32));
    FlatOne([Plain(32, SHIFT_WORD, dst)]);
  }

  lemma WordFree(dst: nat)
    requires Register(dst)
    ensures Span(SHIFT_WORD, 32) !! Fixed() && Span(SHIFT_WORD, 32) <= ShiftScratch() + Span(dst, 32)
    ensures Span(dst, 32) + Span(SHIFT_PAIR, 2) <= ShiftScratch() + Span(dst, 32)
  {
  }

  lemma StageBits(c: Config, code: Code, s: Space, u: Space, t: Space, d: Direction, dst: nat, stage: nat)
    requires Tables(c, code, s) && Register(dst) && stage < 5 && |s| == |u| == |t| && |s| >= BRANCH_TABLE
    requires u == CopyBits(s, 32, SHIFT_WORD, dst) && Picked(u, t, d, dst, stage, 32)
    ensures forall p {:trigger t[p]} | SHIFT_COUNT <= p < SHIFT_COUNT + 5 :: t[p] == s[p]
    ensures WordBits(t, dst) == if s[SHIFT_COUNT + stage] then Moved(WordBits(s, dst), d, Pow2(stage)) else WordBits(s, dst)
  {
    hide Val, Pow2, AdderTable;
    var x := WordBits(s, dst);
    var y := if s[SHIFT_COUNT + stage] then Moved(x, d, Pow2(stage)) else x;
    forall i | 0 <= i < 32 ensures WordBits(t, dst)[i] == y[i] {
      assert PickedAt(u, t, d, dst, stage, i);
      assert u[SHIFT_WORD + i] == s[dst + i] == x[i];
      StepBit(u, x, d, Pow2(stage), i);
    }
  }

  lemma StepBit(u: Space, x: Space, d: Direction, step: nat, i: nat)
    requires |u| >= BRANCH_TABLE && |x| == 32 && i < 32 && step > 0 && !u[SHIFT_ZERO]
    requires forall k {:trigger x[k]} | 0 <= k < 32 :: u[SHIFT_WORD + k] == x[k]
    ensures u[Candidate(d, step, i)] == Moved(x, d, step)[i]
  {
    if d.Left? {
      if i >= step { assert u[SHIFT_WORD + (i - step)] == x[i - step]; }
    } else if i + step < 32 {
      assert u[SHIFT_WORD + (i + step)] == x[i + step];
    } else {
      assert u[SHIFT_WORD + 31] == x[31];
    }
  }

  /** What the first k bits of the count say. */
  function CountTo(s: Space, k: nat): nat
    requires k <= 5 && |s| >= BRANCH_TABLE
  {
    Val(s, SHIFT_COUNT, k)
  }

  lemma {:induction false} StagesRun(c: Config, code: Code, s: Space, d: Direction, dst: nat, count: nat, k: nat) returns (t: Space)
    requires Tables(c, code, s) && Register(dst) && Register(count) && k <= 5 && |s| >= BRANCH_TABLE
    ensures Exec(c, code, s, Flat(ShiftChunks(d, dst, count, k))) == Some(t)
    ensures Tables(c, code, t) && Same(s, t, ShiftScratch() + Span(dst, 32)) && |t| == |s|
    ensures Val(t, SHIFT_COUNT, 5) == Val(s, count, 5)
    ensures WordBits(t, dst) == Moved(WordBits(s, dst), d, CountTo(t, k))
    decreases k
  {
    hide Exec, Tables, Flat, StageChunks, Val, Moved, Pow2, Same, ShiftScratch, Span, WordBits, Fixed;
    TablesRange(c, code, s);
    if k == 0 {
      ExecNone(c, code, s);
      FlatOne([Plain(5, SHIFT_COUNT, count)]);
      t := DoCopy(c, code, s, [], s, 5, SHIFT_COUNT, count);
      assert [] + [Plain(5, SHIFT_COUNT, count)] == [Plain(5, SHIFT_COUNT, count)];
      CountFree(dst);
      TablesKept(c, code, s, t, Span(SHIFT_COUNT, 5));
      SpanWider(s, t, Span(SHIFT_COUNT, 5), ShiftScratch() + Span(dst, 32));
      MovedTwice(WordBits(s, dst), d, 0, 0);
      NoCount(t);
      SameBits(s, t, Span(SHIFT_COUNT, 5), dst);
    } else {
      var v := StagesRun(c, code, s, d, dst, count, k - 1);
      FlatAppend(ShiftChunks(d, dst, count, k - 1), StageChunks(d, dst, k - 1));
      t := StageRun(c, code, s, Flat(ShiftChunks(d, dst, count, k - 1)), v, d, dst, k - 1);
      SameThen(s, v, t, ShiftScratch() + Span(dst, 32), ShiftScratch() + Span(dst, 32), ShiftScratch() + Span(dst, 32));
      CountSame(v, t);
      ValSnoc(v, SHIFT_COUNT, k - 1);
      CountBound(v, k);
      MovedTwice(WordBits(s, dst), d, CountTo(v, k - 1), if v[SHIFT_COUNT + k - 1] then Pow2(k - 1) else 0);
    }
  }

  lemma CountFree(dst: nat)
    requires Register(dst)
    ensures Span(SHIFT_COUNT, 5) !! Fixed() && Span(SHIFT_COUNT, 5) <= ShiftScratch() + Span(dst, 32)
    ensures Span(dst, 32) !! Span(SHIFT_COUNT, 5)
  {
  }

  lemma SpanWider(s: Space, t: Space, area: iset<int>, wider: iset<int>)
    requires Same(s, t, area) && area <= wider
    ensures Same(s, t, wider)
  {
  }

  lemma SameBits(s: Space, t: Space, area: iset<int>, at: nat)
    requires Same(s, t, area) && at + 32 <= |s| && Span(at, 32) !! area
    ensures |t| == |s| && WordBits(t, at) == WordBits(s, at)
  {
    forall p | at <= p < at + 32 ensures t[p] == s[p] {
      assert p in Span(at, 32);
    }
  }

  lemma NoCount(t: Space)
    requires |t| >= BRANCH_TABLE
    ensures CountTo(t, 0) == 0
  {
  }

  lemma CountSame(v: Space, t: Space)
    requires |v| >= BRANCH_TABLE && |t| >= BRANCH_TABLE && forall p {:trigger t[p]} | SHIFT_COUNT <= p < SHIFT_COUNT + 5 :: t[p] == v[p]
    ensures forall k | 0 <= k <= 5 :: Val(t, SHIFT_COUNT, k) == Val(v, SHIFT_COUNT, k)
  {
    hide Val;
    forall k | 0 <= k <= 5 ensures Val(t, SHIFT_COUNT, k) == Val(v, SHIFT_COUNT, k) {
      ValFrame(t, v, SHIFT_COUNT, k);
    }
  }

  lemma CountBound(v: Space, k: nat)
    requires |v| >= BRANCH_TABLE && 0 < k <= 5
    ensures CountTo(v, k - 1) + Pow2(k - 1) < 32
  {
    hide Val;
    SmallPowers();
  }

  /** What the shift instructions promise: the count is taken modulo 32. */
  function Shifted(d: Direction, x: nat, n: nat): int {
    match d
    case Left => Product(x, Pow2(n)) % WORD
    case Logical => x / Pow2(n)
    case Arithmetic => (Signed(x) / Pow2(n)) % WORD
  }

  /** One position at a time. */
  lemma MovedOnce(x: Space, d: Direction)
    requires |x| == 32
    ensures var v, w := Val(x, 0, 32), Val(Moved(x, d, 1), 0, 32);
      match d
      case Left => w + WORD * Bit(x[31]) == 2 * v
      case Logical => v == Bit(x[0]) + 2 * w
      case Arithmetic => v + WORD * Bit(x[31]) == Bit(x[0]) + 2 * w
  {
    hide Val, Moved, Pow2;
    var y := Moved(x, d, 1);
    Pow2Word();
    ValSnoc(x, 0, 31);
    ValSnoc(y, 0, 31);
    ValHead(x, 0, 31);
    ValHead(y, 0, 31);
    if d.Left? {
      MovedBits(x, d);
      ValMove(y, 1, x, 0, 31);
    } else {
      MovedBits(x, d);
      ValMove(y, 0, x, 1, 31);
    }
  }

  lemma MovedBits(x: Space, d: Direction)
    requires |x| == 32
    ensures var y := Moved(x, d, 1);
      if d.Left? then !y[0] && forall p {:trigger y[p]} | 1 <= p < 32 :: y[p] == x[p - 1]
      else y[31] == (d.Arithmetic? && x[31]) && forall p {:trigger y[p]} | 0 <= p < 31 :: y[p] == x[p + 1]
  {
  }

  /** So the bits moved are the number shifted. */
  lemma {:induction false} MovedNumber(x: Space, d: Direction, n: nat)
    requires |x| == 32 && n < 32
    ensures Val(Moved(x, d, n), 0, 32) == Shifted(d, Val(x, 0, 32), n)
    decreases n
  {
    hide Val, Moved;
    WordSize(x);
    if n == 0 {
      MovedTwice(x, d, 0, 0);
      ShiftedNone(d, Val(x, 0, 32));
    } else {
      MovedNumber(x, d, n - 1);
      MovedTwice(x, d, n - 1, 1);
      var y := Moved(x, d, n - 1);
      MovedOnce(y, d);
      WordSize(y);
      WordSize(Moved(y, d, 1));
      TopIs(y);
      ShiftedMore(d, Val(x, 0, 32), n - 1, Val(y, 0, 32), Val(Moved(y, d, 1), 0, 32), Bit(y[31]), Bit(y[0]));
    }
  }

  lemma WordSize(x: Space)
    requires |x| == 32
    ensures Val(x, 0, 32) < WORD
  {
    Pow2Word();
  }

  lemma TopIs(x: Space)
    requires |x| == 32
    ensures x[31] <==> Val(x, 0, 32) >= 0x8000_0000
  {
    hide Val;
    Pow2Word();
    ValSnoc(x, 0, 31);
  }

  lemma ShiftedNone(d: Direction, x: nat)
    requires x < WORD
    ensures Shifted(d, x, 0) == x
  {
    assert Pow2(0) == 1;
  }

  lemma ShiftedMore(d: Direction, x: nat, n: nat, v: nat, w: nat, top: nat, low: nat)
    requires x < WORD && v < WORD && w < WORD && top < 2 && low < 2 && v == Shifted(d, x, n) && top == (if v >= 0x8000_0000 then 1 else 0)
    requires match d
      case Left => w + WORD * top == 2 * v
      case Logical => v == low + 2 * w
      case Arithmetic => v + WORD * top == low + 2 * w
    ensures w == Shifted(d, x, n + 1)
  {
    match d
    case Left =>
      LeftMore(x, Pow2(n), v, w, top);
    case Logical =>
      QuotientMore(x, Pow2(n), v);
    case Arithmetic =>
      QuotientMore(Signed(x), Pow2(n), Signed(x) / Pow2(n));
      SignedFits(x, Pow2(n));
      SignedHalf(Signed(x) / Pow2(n), v, w, top, low);
  }

  lemma LeftMore(x: nat, p: nat, v: nat, w: nat, top: nat)
    requires v == x * p % WORD && w < WORD && w + WORD * top == 2 * v
    ensures w == x * (2 * p) % WORD
  {
    var q := x * p / WORD;
    assert x * p == WORD * q + v;
    assert x * (2 * p) == 2 * (x * p);
    DivModUnique(WORD, 2 * q + top, w);
  }

  /** Dividing by p and then by two. */
  lemma QuotientMore(x: int, p: nat, q: int)
    requires p > 0 && q == x / p
    ensures x / (2 * p) == q / 2
  {
    var r, h, b := x % p, q / 2, q % 2;
    assert x == q * p + r && q == 2 * h + b;
    Expand(x, p, h, b, r);
    QuotientIs(x, 2 * p, h, b * p + r);
  }

  lemma Expand(x: int, p: nat, h: int, b: int, r: int)
    requires x == (2 * h + b) * p + r && 0 <= b < 2 && 0 <= r < p
    ensures x == (2 * p) * h + (b * p + r) && 0 <= b * p + r < 2 * p
  {
    if b == 1 { assert (2 * h + 1) * p == 2 * p * h + p; } else { assert (2 * h) * p == 2 * p * h; }
  }

  lemma QuotientIs(x: int, m: nat, q: int, r: int)
    requires m > 0 && x == m * q + r && 0 <= r < m
    ensures x / m == q
  {
    var k := x / m;
    assert x == m * k + x % m;
    if k < q {
      MulMonotone(m, k, q);
    } else if q < k {
      MulMonotone(m, q, k);
    }
  }

  lemma SignedFits(x: nat, p: nat)
    requires x < WORD && p > 0
    ensures -0x8000_0000 <= Signed(x) / p < 0x8000_0000
  {
    QuotientNear(Signed(x), p);
  }

  /** Dividing brings a number nearer to zero, or to minus one. */
  lemma QuotientNear(x: int, p: nat)
    requires p > 0
    ensures x >= 0 ==> 0 <= x / p <= x
    ensures x < 0 ==> x <= x / p < 0
  {
    var q := x / p;
    assert x == p * q + x % p;
    if x >= 0 {
      if q < 0 { MulMonotone(p, q, 0); } else if q > 0 { MulMonotone(q, 0, p); }
    } else {
      if q >= 0 {
        if q > 0 { MulMonotone(p, 0, q); }
      } else if q < x {
        Distribute(p, q, 1);
        Lower(p, -(q + 1));
      }
    }
  }

  lemma Lower(p: nat, k: nat)
    requires p > 0
    ensures p * k >= k
    ensures p * (-(k as int)) == -(p * k)
  {
    if k > 0 { MulMonotone(k, 0, p); }
  }

  lemma SignedHalf(q: int, v: nat, w: nat, top: nat, low: nat)
    requires -0x8000_0000 <= q < 0x8000_0000 && v == q % WORD && w < WORD && low < 2
    requires top == (if v >= 0x8000_0000 then 1 else 0) && v + WORD * top == low + 2 * w
    ensures w == (q / 2) % WORD
  {
  }

  /** shift32 shifts every word by the low five bits of every count, in place, and uses only its scratch words. */
  lemma ShiftRuns(c: Config, code: Code, s: Space, d: Direction, dst: nat, count: nat) returns (t: Space)
    requires Tables(c, code, s) && Register(dst) && Register(count) && |s| >= BRANCH_TABLE
    ensures Runs(c, code, [Straight(ShiftChunks(d, dst, count, 5))], s, t)
    ensures Tables(c, code, t) && Same(s, t, ShiftScratch() + Span(dst, 32)) && |t| == |s|
    ensures Word(t, dst) == Shifted(d, Word(s, dst), Word(s, count) % 32)
  {
    hide Exec, Tables, Flat, ShiftChunks, Val, Moved, Runs, Shifted, Same;
    TablesValid(c, code, s);
    t := StagesRun(c, code, s, d, dst, count, 5);
    RunsStraight(c, code, ShiftChunks(d, dst, count, 5), s, t);
    LowFive(s, count);
    CountLast(s, t, count);
    MovedNumber(WordBits(s, dst), d, Word(s, count) % 32);
    WordNumber(s, dst);
    WordNumber(t, dst);
  }

  lemma TablesValid(c: Config, code: Code, s: Space)
    requires Tables(c, code, s)
    ensures c.Valid()
  {
  }

  lemma CountLast(s: Space, t: Space, count: nat)
    requires |t| >= BRANCH_TABLE && count + 32 <= |s| && Val(t, SHIFT_COUNT, 5) == Val(s, count, 5) && Val(s, count, 5) == Word(s, count) % 32
    ensures CountTo(t, 5) == Word(s, count) % 32
  {
  }

  lemma WordNumber(s: Space, at: nat)
    requires at + 32 <= |s|
    ensures Val(WordBits(s, at), 0, 32) == Word(s, at)
  {
    ValMove(WordBits(s, at), 0, s, at, 32);
  }

  lemma LowFive(s: Space, at: nat)
    requires at + 32 <= |s|
    ensures Val(s, at, 5) == Word(s, at) % 32
  {
    hide Val;
    ValSplit(s, at, 5, 27);
    SmallPowers();
    DivModUnique(32, Val(s, at + 5, 27), Val(s, at, 5));
  }
}
