/** How a leaf image hands over its result: a jump to the report, and 32 copies that turn the bytes' bits around. */
module Report {
  import opened Bits
  import opened Bytes
  import opened Machine
  import opened Layers
  import opened Programs
  import opened Emission
  import opened Items
  import opened Lookups
  import opened Compare
  import opened Multiply
  import opened Writer

  /** The label of the report, which is in no list of labels: -2 as an unsigned number. */
  const RETURN: nat := 0xFFFF_FFFE

  const OUTPUT: nat := 34000
  const STATUS: nat := 34100

  /** The register that holds a function's result. */
  const RESULT: nat := REG_BASE + 64

  /** Bytes keep their place and their bits are turned around: bit 0 of a space is the top bit of its first byte. */
  function Turned(i: nat): nat {
    i / 8 * 8 + 7 - i % 8
  }

  function OutputBit(i: nat): nat {
    OUTPUT + Turned(i)
  }

  /** The four bytes of a number, lowest first, as the bits of a space. */
  function Answer(v: nat): (s: Space)
    ensures |s| == 32
  {
    seq(32, p requires 0 <= p < 32 => Digit(v, Turned(p)))
  }

  /** The answer is what four bytes hold, the number's lowest byte first. */
  lemma AnswerSpells(v: nat) returns (bytes: seq<bv8>)
    ensures |bytes| == 4 && Unpack(bytes) == Answer(v)
    ensures forall k | 0 <= k < 4 :: bytes[k] as nat == v / Pow2(8 * k) % 0x100
  {
    hide Digit, Pow2, BitOf, BitLies;
    var b0 := AnswerByte(v, 0);
    var b1 := AnswerByte(v, 1);
    var b2 := AnswerByte(v, 2);
    var b3 := AnswerByte(v, 3);
    bytes := [b0, b1, b2, b3];
    forall p | 0 <= p < 32 ensures Unpack(bytes)[p] == Answer(v)[p] {
      assert BitLies(v, p / 8, bytes[p / 8], 7 - p % 8);
      AnswerBit(v, p, bytes);
    }
  }

  lemma AnswerBit(v: nat, p: nat, bytes: seq<bv8>)
    requires |bytes| == 4 && p < 32 && BitLies(v, p / 8, bytes[p / 8], 7 - p % 8)
    ensures Unpack(bytes)[p] == Answer(v)[p]
  {
    hide Digit, BitOf;
  }

  predicate BitLies(v: nat, k: nat, b: bv8, j: nat)
    requires j < 8
  {
    BitOf(b, 7 - j) == Digit(v, 8 * k + j)
  }

  /** Byte k of a number; bit 0 of the number is the last bit of its byte. */
  lemma AnswerByte(v: nat, k: nat) returns (b: bv8)
    ensures b as nat == v / Pow2(8 * k) % 0x100
    ensures forall j {:trigger BitLies(v, k, b, j)} | 0 <= j < 8 :: BitLies(v, k, b, j)
  {
    hide Digit, Pow2, BitOf, Val, EightBits, ByteOf;
    var w := Dropped(v, 8 * k);
    b := ByteOf(seq(8, i requires 0 <= i < 8 => Digit(w, 7 - i)));
    forall i | 0 <= i < 8 ensures BitOf(b, 7 - i) == Digit(w, i) && BitLies(v, k, b, i) {
      ByteOfBit(seq(8, i requires 0 <= i < 8 => Digit(w, 7 - i)), 7 - i);
      DigitDropped(v, 8 * k, i);
    }
    ByteSum(b);
    DigitsSum(w);
    DroppedIs(v, 8 * k);
  }

  lemma DigitsSum(v: nat)
    ensures EightBits(Digit(v, 0), Digit(v, 1), Digit(v, 2), Digit(v, 3), Digit(v, 4), Digit(v, 5), Digit(v, 6), Digit(v, 7)) == v % 0x100
  {
    hide Digit, Pow2, Val;
    var s := seq(8, i requires 0 <= i < 8 => Digit(v, i));
    DigitsVal(s, 0, 8, v);
    BytePower();
    SumOfBits(s);
  }

  lemma BytePower()
    ensures Pow2(8) == 0x100
  {
    SmallPowers();
    assert Pow2(8) == 4 * Pow2(6);
  }

  lemma SumOfBits(s: Space)
    requires |s| == 8
    ensures Val(s, 0, 8) == EightBits(s[0], s[1], s[2], s[3], s[4], s[5], s[6], s[7])
  {
    hide Val, Pow2, Bit;
    FourNext(s, 0, 4);
    FourNext(s, 4, 0);
    ValNone(s, 8);
  }

  lemma FourNext(s: Space, at: nat, w: nat)
    requires at + w + 4 <= |s|
    ensures Val(s, at, w + 4) == Bit(s[at]) + 2 * Bit(s[at + 1]) + 4 * Bit(s[at + 2]) + 8 * Bit(s[at + 3]) + 0x10 * Val(s, at + 4, w)
  {
    hide Val, Pow2, Bit;
    ValNext(s, at, w + 3);
    ValNext(s, at + 1, w + 2);
    ValNext(s, at + 2, w + 1);
    ValNext(s, at + 3, w);
  }

  lemma ValNext(s: Space, at: nat, w: nat)
    requires at + w + 1 <= |s|
    ensures Val(s, at, w + 1) == Bit(s[at]) + 2 * Val(s, at + 1, w)
  {
  }

  lemma ValNone(s: Space, at: nat)
    requires at <= |s|
    ensures Val(s, at, 0) == 0
  {
  }

  function ReportOps(k: nat): (ops: seq<Op>)
    ensures |ops| == k
  {
    seq(k, i requires 0 <= i < k => Plain(1, OutputBit(i), RESULT + i))
  }

  lemma ReportOpsSnoc(k: nat)
    ensures ReportOps(k + 1) == ReportOps(k) + [Plain(1, OutputBit(k), RESULT + k)]
    ensures ReportOps(0) == []
  {
  }

  lemma OutputBits(i: nat, j: nat)
    requires i < 32 && j < 32
    ensures OUTPUT <= OutputBit(i) < OUTPUT + 32 && (OutputBit(i) == OutputBit(j) ==> i == j)
  {
  }

  lemma TurnedTwice(p: nat)
    requires p < 32
    ensures Turned(p) < 32 && Turned(Turned(p)) == p
  {
  }

  lemma {:induction false} ReportCopies(c: Config, code: Code, s: Space, k: nat) returns (t: Space)
    requires Tables(c, code, s) && k <= 32
    ensures Exec(c, code, s, ReportOps(k)) == Some(t)
    ensures Same(s, t, Span(OUTPUT, 32)) && |t| >= BRANCH_TABLE && |s| >= BRANCH_TABLE
    ensures forall i {:trigger OutputBit(i)} | 0 <= i < k :: t[OutputBit(i)] == s[RESULT + i]
  {
    hide Exec, Tables, Same, Span, ReportOps;
    TablesRange(c, code, s);
    ReportOpsSnoc(if k == 0 then 0 else k - 1);
    if k == 0 {
      ExecNone(c, code, s);
      t := s;
      SameSelf(s, Span(OUTPUT, 32));
    } else {
      var u := ReportCopies(c, code, s, k - 1);
      OutputBits(k - 1, k - 1);
      SameSize(s, u, Span(OUTPUT, 32));
      OutputFree(s, u, k - 1);
      t := DoCopy(c, code, s, ReportOps(k - 1), u, 1, OutputBit(k - 1), RESULT + k - 1);
      SpanInside(OUTPUT, 32, OutputBit(k - 1), 1);
      SameThen(s, u, t, Span(OUTPUT, 32), Span(OutputBit(k - 1), 1), Span(OUTPUT, 32));
      forall i {:trigger OutputBit(i)} | 0 <= i < k ensures t[OutputBit(i)] == s[RESULT + i] {
        OutputBits(i, k - 1);
      }
    }
  }

  lemma OutputFree(s: Space, t: Space, i: nat)
    requires Same(s, t, Span(OUTPUT, 32)) && i < 32 && |s| >= BRANCH_TABLE
    ensures t[RESULT + i] == s[RESULT + i]
  {
  }

  /** What is emitted behind a leaf's code. */
  function Tail(): seq<Item> {
    [Bind(RETURN), Straight(Singles(ReportOps(32)))]
  }

  lemma AnswerIs(s: Space, t: Space)
    requires |t| >= BRANCH_TABLE && |s| >= BRANCH_TABLE
    requires forall i {:trigger OutputBit(i)} | 0 <= i < 32 :: t[OutputBit(i)] == s[RESULT + i]
    ensures t[OUTPUT..OUTPUT + 32] == Answer(Word(s, RESULT))
  {
    hide Val, Digit;
    forall p | 0 <= p < 32 ensures t[OUTPUT..OUTPUT + 32][p] == Answer(Word(s, RESULT))[p] {
      TurnedTwice(p);
      BitDigit(s, RESULT, 32, Turned(p));
      assert t[OutputBit(Turned(p))] == s[RESULT + Turned(p)];
    }
  }

  lemma TailShape()
    ensures |Tail()| == 2 && Tail()[0] == Bind(RETURN) && Tail()[1] == Straight(Singles(ReportOps(32)))
    ensures BindAt(Tail(), RETURN) == Some(0)
    ensures forall l: nat :: Binds(Tail(), l) <==> l == RETURN
  {
    hide ReportOps, Singles;
    BindAtIs(Tail(), RETURN, 0);
    assert Tail()[0] == Bind(RETURN);
  }

  /** A list that has been run to the label behind it goes on to report the result. */
  lemma ReportRuns(c: Config, code: Code, items: seq<Item>, s: Space, t: Space) returns (u: Space, bytes: seq<bv8>)
    requires Tables(c, code, t) && c.Valid() && Path(c, code, items + Tail(), 0, s, |items| + 1, t)
    ensures Runs(c, code, items + Tail(), s, u)
    ensures |t| >= BRANCH_TABLE && Same(t, u, Span(OUTPUT, 32)) && |bytes| == 4 && u[OUTPUT..OUTPUT + 32] == Unpack(bytes)
    ensures forall k | 0 <= k < 4 :: bytes[k] as nat == Word(t, RESULT) / Pow2(8 * k) % 0x100
  {
    hide Unpack, Pow2, Exec, Tables, Same, Span, ReportOps, Path, Singles, OutputBit, Answer, Word, Tail, Runs, Flat;
    TablesRange(c, code, t);
    FlatSingles(ReportOps(32));
    u := ReportCopies(c, code, t, 32);
    TailShape();
    assert (items + Tail())[|items| + 1] == Tail()[1];
    PathStraight(c, code, items + Tail(), |items| + 1, t, u);
    PathThen(c, code, items + Tail(), 0, s, |items| + 1, t, |items| + 2, u);
    AnswerIs(t, u);
    bytes := AnswerSpells(Word(t, RESULT));
    RunsIs(c, code, items + Tail(), s, u);
  }
}
