/** When the level scheduler's order is the order of the nodes: an exact condition for blocks of plain copies. */
module Overtaking {
  import opened Bits
  import opened Schedule
  import opened Bulk
  import opened Levels

  /** Copies between positions of the space; nothing is patched. */
  ghost predicate Static(ops: seq<Node>) {
    forall j {:trigger ops[j]} | 0 <= j < |ops| :: ops[j].src.At? && ops[j].dst.At?
  }

  /** One node after another: the number of the node, counted from 1, that has last written p in front of node k; 0 if none has. */
  function SeqWriter(ops: seq<Node>, k: nat, p: nat): (r: nat)
    requires k <= |ops|
    ensures r <= k
  {
    if k == 0 then 0 else if WritesAt(ops[k - 1], p) then k else SeqWriter(ops, k - 1, p)
  }

  /** In bulk: tick after tick, and the writes of a tick committed in the order of the nodes. */
  function BulkWriter(ops: seq<Node>, levels: seq<nat>, ticks: nat, p: nat): (r: nat)
    requires |levels| == |ops|
    ensures r <= |ops|
    decreases ticks, |ops| + 1
  {
    if ticks == 0 then 0 else TickWriter(ops, levels, ticks, p, |ops|)
  }

  function TickWriter(ops: seq<Node>, levels: seq<nat>, ticks: nat, p: nat, k: nat): (r: nat)
    requires |levels| == |ops| && k <= |ops| && ticks > 0
    ensures r <= |ops|
    decreases ticks, k
  {
    if k == 0 then BulkWriter(ops, levels, ticks - 1, p)
    else if levels[k - 1] == ticks && WritesAt(ops[k - 1], p) then k
    else TickWriter(ops, levels, ticks, p, k - 1)
  }

  /** Where node r - 1 has found the bit that it has put at p. */
  function Fetched(ops: seq<Node>, r: nat, p: nat): nat
    requires 0 < r <= |ops| && ops[r - 1].src.At? && WritesAt(ops[r - 1], p)
  {
    ops[r - 1].src.pos + (p - ops[r - 1].dst.pos)
  }

  /** So many bits to d, fetched from a. */
  ghost predicate BitsAre(e: Memory, data: Memory, d: nat, a: nat, k: nat) {
    && (forall at | at in e :: at.Data?)
    && forall p: nat {:trigger Data(p) in e} ::
         && (Data(p) in e <==> d <= p < d + k)
         && (Data(p) in e ==> e[Data(p)] == Read(data, Data(a + (p - d))))
  }

  lemma NoBitYet(data: Memory, d: nat, a: nat)
    ensures BitsAre(map[], data, d, a, 0)
  {
  }

  lemma OneBitMore(e: Memory, data: Memory, d: nat, a: nat, k: nat)
    requires BitsAre(e, data, d, a, k)
    ensures BitsAre(e[Data(d + k) := Read(data, Data(a + k))], data, d, a, k + 1)
  {
    hide Read;
  }

  lemma PlacesAre(x: Block, rows: Memory, j: nat, k: nat)
    requires j < |x.ops| && x.ops[j].src.At? && x.ops[j].dst.At?
    requires Source(x, rows, j) == x.ops[j].src.pos && Number(rows, j, DstField, x.ab) == x.ops[j].dst.pos
    ensures Dest(x, rows, j, k) == Data(x.ops[j].dst.pos + k) && Origin(x, rows, j, k) == Data(x.ops[j].src.pos + k)
  {
  }

  /** The bits of a static copy, given its row. */
  lemma {:induction false} StaticBits(x: Block, rows: Memory, data: Memory, j: nat, k: nat)
    requires j < |x.ops| && x.ops[j].src.At? && x.ops[j].dst.At?
    requires Source(x, rows, j) == x.ops[j].src.pos && Number(rows, j, DstField, x.ab) == x.ops[j].dst.pos
    ensures BitsAre(FirstBits(x, rows, data, j, k), data, x.ops[j].dst.pos, x.ops[j].src.pos, k)
  {
    hide BitsAre, Source, Number, Read, Dest, Origin;
    NoBitYet(data, x.ops[j].dst.pos, x.ops[j].src.pos);
    if k > 0 {
      StaticBits(x, rows, data, j, k - 1);
      PlacesAre(x, rows, j, k - 1);
      OneBitMore(FirstBits(x, rows, data, j, k - 1), data, x.ops[j].dst.pos, x.ops[j].src.pos, k - 1);
    }
  }

  /** The rows of a static block stay in their homes as they were written. */
  ghost predicate RowsKept(x: Block, m: Memory, s: Memory) {
    forall j, f, k: nat {:trigger Home(j, f, k)} :: Read(s, Home(j, f, k)) == Read(m, Home(j, f, k))
  }

  lemma KeptInitial(x: Block, m: Memory, s: Memory)
    requires Initial(x, m) && RowsKept(x, m, s)
    ensures Initial(x, s)
  {
    forall j {:trigger x.ops[j]} | 0 <= j < |x.ops|
      ensures Count(x, s, j) == x.ops[j].n && (x.ops[j].src.At? ==> Source(x, s, j) == x.ops[j].src.pos)
      ensures x.ops[j].dst.At? ==> Number(s, j, DstField, x.ab) == x.ops[j].dst.pos
    {
      if x.ab > 0 { NumberSame(s, m, j, CountField, x.ab - 1); }
      NumberSame(s, m, j, SrcField, x.ab);
      NumberSame(s, m, j, DstField, x.ab);
    }
  }

  lemma EffectStatic(x: Block, m: Memory, rows: Memory, data: Memory, j: nat)
    requires j < |x.ops| && Static(x.ops) && Initial(x, m) && RowsKept(x, m, rows)
    ensures x.ops[j].src.At? && x.ops[j].dst.At?
    ensures BitsAre(Effect(x, rows, data, j), data, x.ops[j].dst.pos, x.ops[j].src.pos, x.ops[j].n)
  {
    hide BitsAre, Read, Source, Number, Initial, FirstBits, RowsKept;
    KeptInitial(x, m, rows);
    RowsWrittenAs(x, rows, j);
    StaticBits(x, rows, data, j, Count(x, rows, j));
  }

  lemma RowsWrittenAs(x: Block, rows: Memory, j: nat)
    requires j < |x.ops| && Static(x.ops) && Initial(x, rows)
    ensures Count(x, rows, j) == x.ops[j].n && x.ops[j].src.At? && x.ops[j].dst.At?
    ensures Source(x, rows, j) == x.ops[j].src.pos && Number(rows, j, DstField, x.ab) == x.ops[j].dst.pos
  {
    hide Source, Number, Count;
    assert x.ops[j] == x.ops[j];
  }

  /** One static copy, committed. */
  lemma StaticStep(x: Block, m: Memory, rows: Memory, data: Memory, s: Memory, j: nat, p: nat)
    requires j < |x.ops| && Static(x.ops) && Initial(x, m) && RowsKept(x, m, rows) && RowsKept(x, m, s)
    ensures var t := s + Effect(x, rows, data, j);
      && RowsKept(x, m, t)
      && Read(t, Data(p)) == if WritesAt(x.ops[j], p) then Read(data, Data(Fetched(x.ops, j + 1, p))) else Read(s, Data(p))
  {
    hide Effect, Initial, Static;
    EffectStatic(x, m, rows, data, j);
    var e := Effect(x, rows, data, j);
    assert Data(p) in e <==> WritesAt(x.ops[j], p);
    forall i, f, k: nat {:trigger Home(i, f, k)} ensures Read(s + e, Home(i, f, k)) == Read(m, Home(i, f, k)) {
      assert Read(s, Home(i, f, k)) == Read(m, Home(i, f, k));
    }
  }

  /** The run one after another holds at p what SeqWriter says. */
  lemma {:induction false} SeqHolds(x: Block, m: Memory, k: nat, p: nat)
    requires k <= |x.ops| && Static(x.ops) && Initial(x, m)
    ensures RowsKept(x, m, State(x, m, k))
    ensures var r := SeqWriter(x.ops, k, p);
      && (r > 0 ==> WritesAt(x.ops[r - 1], p))
      && Read(State(x, m, k), Data(p)) == if r == 0 then Read(m, Data(p)) else Read(State(x, m, r - 1), Data(Fetched(x.ops, r, p)))
  {
    hide Effect, Initial, RowsKept, Read, WritesAt;
    KeptAtStart(x, m);
    if k > 0 {
      SeqHolds(x, m, k - 1, p);
      StaticStep(x, m, State(x, m, k - 1), State(x, m, k - 1), State(x, m, k - 1), k - 1, p);
    }
  }

  /** The bulk machine holds at p what BulkWriter says. */
  lemma {:induction false} BulkHolds(x: Block, m: Memory, levels: seq<nat>, ticks: nat, p: nat)
    requires |levels| == |x.ops| && Static(x.ops) && Initial(x, m) && forall j | 0 <= j < |levels| :: levels[j] >= 1
    ensures RowsKept(x, m, After(x, m, levels, ticks))
    ensures ticks > 0 ==> RowsKept(x, m, After(x, m, levels, ticks - 1))
    ensures var r := BulkWriter(x.ops, levels, ticks, p);
      && (r > 0 ==> WritesAt(x.ops[r - 1], p))
      && Read(After(x, m, levels, ticks), Data(p)) ==
         if r == 0 then Read(m, Data(p)) else Read(After(x, m, levels, levels[r - 1] - 1), Data(Fetched(x.ops, r, p)))
    decreases ticks, |x.ops| + 1
  {
    hide Initial, Static, Commit;
    if ticks > 0 {
      BulkHolds(x, m, levels, ticks - 1, p);
      TickHolds(x, m, levels, ticks, p, |x.ops|);
    }
  }

  lemma {:induction false} TickHolds(x: Block, m: Memory, levels: seq<nat>, ticks: nat, p: nat, k: nat)
    requires |levels| == |x.ops| && Static(x.ops) && Initial(x, m) && k <= |x.ops| && ticks > 0
    requires forall j | 0 <= j < |levels| :: levels[j] >= 1
    ensures var rows, data := After(x, m, levels, if ticks < 2 then 0 else ticks - 2), After(x, m, levels, ticks - 1);
      var now := Commit(x, levels, ticks, rows, data, k);
      var r := TickWriter(x.ops, levels, ticks, p, k);
      && RowsKept(x, m, now)
      && (r > 0 ==> WritesAt(x.ops[r - 1], p))
      && Read(now, Data(p)) ==
         if r == 0 then Read(m, Data(p)) else Read(After(x, m, levels, levels[r - 1] - 1), Data(Fetched(x.ops, r, p)))
    decreases ticks, k
  {
    hide Initial, Effect, After, RowsKept, Read, WritesAt;
    var rows, data := After(x, m, levels, if ticks < 2 then 0 else ticks - 2), After(x, m, levels, ticks - 1);
    BulkHolds(x, m, levels, ticks - 1, p);
    StartKept(x, m, levels);
    if k > 0 {
      TickHolds(x, m, levels, ticks, p, k - 1);
      StaticStep(x, m, rows, data, Commit(x, levels, ticks, rows, data, k - 1), k - 1, p);
    }
  }

  lemma KeptAtStart(x: Block, m: Memory)
    ensures RowsKept(x, m, m)
  {
  }

  lemma StartKept(x: Block, m: Memory, levels: seq<nat>)
    requires |levels| == |x.ops|
    ensures RowsKept(x, m, After(x, m, levels, 0))
  {
  }

  /** Every read finds in bulk the writer that it finds one after another. */
  ghost predicate SameWriters(ops: seq<Node>, levels: seq<nat>)
    requires |levels| == |ops|
  {
    forall j, p: nat {:trigger ReadsAt(ops[j], p)} | 0 <= j < |ops| && ReadsAt(ops[j], p) ::
      BulkWriter(ops, levels, if levels[j] == 0 then 0 else levels[j] - 1, p) == SeqWriter(ops, j, p)
  }

  /** A write that is levelled below an earlier read of its position. */
  ghost predicate Overtakes(ops: seq<Node>, levels: seq<nat>, i: nat, j: nat, p: nat)
    requires |levels| == |ops| && i < j < |ops|
  {
    ReadsAt(ops[i], p) && WritesAt(ops[j], p) && levels[j] < levels[i]
  }

  ghost predicate NoneOvertakes(ops: seq<Node>, levels: seq<nat>)
    requires |levels| == |ops|
  {
    forall i, j, p: nat {:trigger Overtakes(ops, levels, i, j, p)} | 0 <= i < j < |ops| :: !Overtakes(ops, levels, i, j, p)
  }

  lemma {:induction false} SeqWriterIs(ops: seq<Node>, k: nat, p: nat)
    requires k <= |ops|
    ensures var r := SeqWriter(ops, k, p);
      && (r > 0 ==> WritesAt(ops[r - 1], p))
      && forall i | r <= i < k :: !WritesAt(ops[i], p)
  {
    if k > 0 {
      SeqWriterIs(ops, k - 1, p);
    }
  }

  /** Levels put the writers of a position in the order of the nodes, so the bulk writer is the last one that is done. */
  lemma {:induction false} BulkWriterIs(ops: seq<Node>, levels: seq<nat>, ticks: nat, p: nat)
    requires |levels| == |ops| && Ordered(ops, levels, |ops|)
    ensures var r := BulkWriter(ops, levels, ticks, p);
      && (r > 0 ==> WritesAt(ops[r - 1], p) && levels[r - 1] <= ticks)
      && forall i | r <= i < |ops| && WritesAt(ops[i], p) :: levels[i] > ticks
    decreases ticks, |ops| + 1
  {
    hide Ordered, WritesAt;
    if ticks > 0 {
      TickWriterIs(ops, levels, ticks, p, |ops|);
    } else {
      AtLeastOne(ops, levels);
    }
  }

  lemma AtLeastOne(ops: seq<Node>, levels: seq<nat>)
    requires |levels| == |ops| && Ordered(ops, levels, |ops|)
    ensures forall j | 0 <= j < |ops| :: levels[j] >= 1
  {
  }

  lemma {:induction false} TickWriterIs(ops: seq<Node>, levels: seq<nat>, ticks: nat, p: nat, k: nat)
    requires |levels| == |ops| && Ordered(ops, levels, |ops|) && k <= |ops| && ticks > 0
    ensures var r := TickWriter(ops, levels, ticks, p, k);
      && (r > 0 ==> WritesAt(ops[r - 1], p) && levels[r - 1] <= ticks)
      && (forall i | r <= i < |ops| && WritesAt(ops[i], p) :: levels[i] >= ticks)
      && (forall i | r <= i < k && WritesAt(ops[i], p) :: levels[i] > ticks)
    decreases ticks, k
  {
    hide Ordered, WritesAt;
    if k == 0 {
      BulkWriterIs(ops, levels, ticks - 1, p);
    } else if levels[k - 1] == ticks && WritesAt(ops[k - 1], p) {
      forall i | k <= i < |ops| && WritesAt(ops[i], p) ensures levels[i] >= ticks {
        LaterLevel(ops, levels, k - 1, i, p);
      }
    } else {
      TickWriterIs(ops, levels, ticks, p, k - 1);
    }
  }

  lemma LaterLevel(ops: seq<Node>, levels: seq<nat>, i: nat, j: nat, p: nat)
    requires |levels| == |ops| && Ordered(ops, levels, |ops|) && i < j < |ops|
    requires WritesAt(ops[i], p) && (WritesAt(ops[j], p) || ReadsAt(ops[j], p))
    ensures levels[i] < levels[j]
  {
    SameWriter(ops, i, j, p);
  }

  /** The exact condition: nothing else can go wrong. */
  lemma SameExactly(ops: seq<Node>, levels: seq<nat>)
    requires |levels| == |ops| && Ordered(ops, levels, |ops|)
    ensures SameWriters(ops, levels) <==> NoneOvertakes(ops, levels)
  {
    AtLeastOne(ops, levels);
    hide Ordered;
    if NoneOvertakes(ops, levels) {
      forall j, p: nat {:trigger ReadsAt(ops[j], p)} | 0 <= j < |ops| && ReadsAt(ops[j], p)
        ensures BulkWriter(ops, levels, levels[j] - 1, p) == SeqWriter(ops, j, p)
      {
        FindsSame(ops, levels, j, p);
      }
    }
    if SameWriters(ops, levels) {
      forall i, j, p: nat {:trigger Overtakes(ops, levels, i, j, p)} | 0 <= i < j < |ops| ensures !Overtakes(ops, levels, i, j, p) {
        if Overtakes(ops, levels, i, j, p) {
          FindsOther(ops, levels, i, j, p);
          assert false;
        }
      }
    }
  }

  lemma FindsSame(ops: seq<Node>, levels: seq<nat>, j: nat, p: nat)
    requires |levels| == |ops| && Ordered(ops, levels, |ops|) && NoneOvertakes(ops, levels) && j < |ops| && ReadsAt(ops[j], p)
    ensures levels[j] >= 1 && BulkWriter(ops, levels, levels[j] - 1, p) == SeqWriter(ops, j, p)
  {
    AtLeastOne(ops, levels);
    var b, s := BulkWriter(ops, levels, levels[j] - 1, p), SeqWriter(ops, j, p);
    assert b > j + 1 ==> !Overtakes(ops, levels, j, b - 1, p);
    BulkWriterIs(ops, levels, levels[j] - 1, p);
    SeqWriterIs(ops, j, p);
    hide Ordered, WritesAt, ReadsAt;
    if s > 0 {
      LaterLevel(ops, levels, s - 1, j, p);
    }
  }

  lemma FindsOther(ops: seq<Node>, levels: seq<nat>, i: nat, j: nat, p: nat)
    requires |levels| == |ops| && Ordered(ops, levels, |ops|) && i < j < |ops| && Overtakes(ops, levels, i, j, p)
    ensures levels[i] >= 1 && BulkWriter(ops, levels, levels[i] - 1, p) > i >= SeqWriter(ops, i, p)
  {
    AtLeastOne(ops, levels);
    BulkWriterIs(ops, levels, levels[i] - 1, p);
  }

  lemma StaticPlain(ops: seq<Node>)
    requires Static(ops)
    ensures (forall j :: !IsPatched(ops, j)) && PlainPatches(ops) && Foreseen(ops)
  {
  }

  /**
   * So a block of plain copies may be executed in bulk if no write overtakes a read. The condition is not necessary
   * for equal memories: what an overtaken read takes may be overwritten before the end.
   */
  lemma StaticBlock(x: Block, m: Memory, levels: seq<nat>, last: nat, at: Loc)
    requires |levels| == |x.ops| && Ordered(x.ops, levels, |x.ops|) && Tight(x.ops, levels, |x.ops|)
    requires Reached(levels, |x.ops|, last) || TermLevel(x.ops, levels, last)
    requires Static(x.ops) && Initial(x, m) && SameWriters(x.ops, levels)
    ensures Read(After(x, m, levels, last), at) == Read(State(x, m, |x.ops|), at)
  {
    StaticPlain(x.ops);
    SameExactly(x.ops, levels);
    StaticReadsFirst(x.ops, levels);
    hide Ordered, Tight, Reached, TermLevel, Initial, After, State;
    ScheduledBlock(x, m, levels, last, at);
  }

  lemma StaticReadsFirst(ops: seq<Node>, levels: seq<nat>)
    requires |levels| == |ops| && Static(ops) && NoneOvertakes(ops, levels)
    ensures ReadsFirst(ops, levels)
  {
    StaticPlain(ops);
    hide MayRead, MayWrite;
    forall i, j, p: nat {:trigger MayRead(ops, i, p), MayWrite(ops, j, p)} |
      0 <= i < j < |ops| && MayRead(ops, i, p) && MayWrite(ops, j, p) ensures levels[i] <= levels[j]
    {
      TouchesAsWritten(ops, i, p);
      TouchesAsWritten(ops, j, p);
      assert !Overtakes(ops, levels, i, j, p);
    }
  }

  /** Three copies: position 10 to 0, positions 0 and 1 to 20, position 10 to 1. */
  const OVERTAKEN := [Node(1, At(0), At(10)), Node(2, At(20), At(0)), Node(1, At(1), At(10))]

  lemma OvertakenLevels()
    ensures Static(OVERTAKEN) && Ordered(OVERTAKEN, [1, 2, 1], 3) && Tight(OVERTAKEN, [1, 2, 1], 3)
    ensures Overtakes(OVERTAKEN, [1, 2, 1], 1, 2, 1)
  {
    assert WritesAt(OVERTAKEN[0], 0) && ReadsAt(OVERTAKEN[1], 0);
    assert Delay(OVERTAKEN, 0, 1) == 1 && Delay(OVERTAKEN, 0, 2) == 0 && Delay(OVERTAKEN, 1, 2) == 0;
  }

  /**
   * The levels of the scheduler alone are not enough: here the third copy overtakes the second, which
   * then reads a bit that the order of the nodes would not have let it see. The runs differ as soon as
   * positions 1 and 10 do.
   */
  lemma WriteOvertakesRead(x: Block, m: Memory, levels: seq<nat>)
    requires x.ops == OVERTAKEN && |levels| == 3 && Ordered(x.ops, levels, 3) && Tight(x.ops, levels, 3) && Initial(x, m)
    ensures levels == [1, 2, 1] && !SameWriters(x.ops, levels)
    ensures Read(After(x, m, levels, 2), Data(21)) == Read(m, Data(10))
    ensures Read(State(x, m, 3), Data(21)) == Read(m, Data(1))
  {
    hide Ordered, Tight, Initial, Static, SameWriters, After, State, Read;
    OvertakenUnique(levels);
    OvertakenLevels();
    OvertakenRuns(x, m, levels);
    OvertakenDiffers();
  }

  lemma OvertakenUnique(levels: seq<nat>)
    requires |levels| == 3 && Ordered(OVERTAKEN, levels, 3) && Tight(OVERTAKEN, levels, 3)
    ensures levels == [1, 2, 1]
  {
    OvertakenLevels();
    hide Ordered, Tight;
    var plan: seq<nat> := [1, 2, 1];
    forall j | 0 <= j < 3 ensures levels[j] == plan[j] {
      LevelsUnique(OVERTAKEN, levels, plan, j);
    }
  }

  lemma OvertakenDiffers()
    ensures !SameWriters(OVERTAKEN, [1, 2, 1])
  {
    OvertakenLevels();
    hide Ordered, Tight;
    SameExactly(OVERTAKEN, [1, 2, 1]);
    assert Overtakes(OVERTAKEN, [1, 2, 1], 1, 2, 1);
  }

  lemma OvertakenRuns(x: Block, m: Memory, plan: seq<nat>)
    requires x.ops == OVERTAKEN && Static(x.ops) && Initial(x, m) && plan == [1, 2, 1]
    ensures Read(After(x, m, plan, 2), Data(21)) == Read(m, Data(10))
    ensures Read(State(x, m, 3), Data(21)) == Read(m, Data(1))
  {
    hide After, State, Initial, RowsKept, Read;
    BulkHolds(x, m, plan, 2, 21);
    BulkHolds(x, m, plan, 1, 1);
    SeqHolds(x, m, 3, 21);
    SeqHolds(x, m, 1, 1);
    AtStart(x, m, plan);
    OvertakenWriters();
  }

  lemma OvertakenWriters()
    ensures BulkWriter(OVERTAKEN, [1, 2, 1], 2, 21) == 2 && BulkWriter(OVERTAKEN, [1, 2, 1], 1, 1) == 3
    ensures SeqWriter(OVERTAKEN, 3, 21) == 2 && SeqWriter(OVERTAKEN, 1, 1) == 0
  {
  }

  /** There are such memories, and in some the two positions differ. */
  lemma OvertakenDiffer() returns (x: Block, m: Memory)
    ensures x.ops == OVERTAKEN && Initial(x, m)
    ensures Read(After(x, m, [1, 2, 1], 2), Data(21)) != Read(State(x, m, 3), Data(21))
  {
    hide Initial, PutRows, After, State, Fits, Static, Ordered, Tight, OVERTAKEN;
    x := Block(OVERTAKEN, 5);
    var data: Memory := map[Data(10) := true];
    OvertakenFits(x);
    assert Read(data, Data(10)) && !Read(data, Data(1));
    m := PutRows(x, data, |x.ops|);
    InitialExists(x, data);
    hide Read;
    OvertakenLevels();
    WriteOvertakesRead(x, m, [1, 2, 1]);
  }

  lemma OvertakenFits(x: Block)
    requires x == Block(OVERTAKEN, 5)
    ensures Fits(x)
  {
    SmallPowers();
  }

  lemma AtStart(x: Block, m: Memory, levels: seq<nat>)
    requires |levels| == |x.ops|
    ensures After(x, m, levels, 0) == m && State(x, m, 0) == m
  {
  }
}
