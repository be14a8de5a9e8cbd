/** What the level scheduler gives the bulk machine: hypotheses on the nodes and their levels alone. */
module Levels {
  import opened Bits
  import opened Schedule
  import opened Bulk

  /** The homes hold the rows as the block was written. */
  ghost predicate Initial(x: Block, m: Memory) {
    forall j {:trigger x.ops[j]} | 0 <= j < |x.ops| ::
      && Count(x, m, j) == x.ops[j].n
      && (x.ops[j].src.At? ==> Source(x, m, j) == x.ops[j].src.pos)
      && (x.ops[j].dst.At? ==> Number(m, j, DstField, x.ab) == x.ops[j].dst.pos)
  }

  /** A memory with a number in a field. */
  function PutNumber(m: Memory, j: nat, f: FieldName, width: nat, v: nat): Memory {
    if width == 0 then m
    else PutNumber(m, j, f, width - 1, v)[Home(j, f, width - 1) := (v / Pow2(width - 1)) % 2 == 1]
  }

  lemma {:induction false} PutNumberIs(m: Memory, j: nat, f: FieldName, width: nat, v: nat)
    ensures Number(PutNumber(m, j, f, width, v), j, f, width) == v % Pow2(width)
    ensures forall at: Loc {:trigger Read(m, at)} :: !(at.Home? && at.node == j && at.field == f && at.k < width) ==>
      Read(PutNumber(m, j, f, width, v), at) == Read(m, at)
  {
    if width > 0 {
      PutNumberIs(m, j, f, width - 1, v);
      NumberSame(PutNumber(m, j, f, width, v), PutNumber(m, j, f, width - 1, v), j, f, width - 1);
      LastBit(v, width - 1);
    }
  }

  lemma LastBit(v: nat, k: nat)
    ensures v % Pow2(k + 1) == v % Pow2(k) + Pow2(k) * ((v / Pow2(k)) % 2)
  {
    var p, q := Pow2(k), v / Pow2(k);
    var r := v % p + p * (q % 2);
    Distribute(p, 2 * (q / 2), q % 2);
    MulAssoc(p, 2, q / 2);
    assert p * q == (2 * p) * (q / 2) + p * (q % 2);
    assert v == r + (2 * p) * (q / 2);
    assert p * (q % 2) == if q % 2 == 0 then 0 else p;
    DivModUnique(2 * p, q / 2, r);
  }

  function Position(t: Target): nat {
    if t.At? then t.pos else 0
  }

  /** The rows of the first k nodes, put into their homes. */
  function PutRows(x: Block, m: Memory, k: nat): Memory
    requires k <= |x.ops|
  {
    if k == 0 then m
    else
      var before := PutRows(x, m, k - 1);
      var count := PutNumber(before, k - 1, CountField, if x.ab == 0 then 0 else x.ab - 1, x.ops[k - 1].n);
      var src := PutNumber(count, k - 1, SrcField, x.ab, Position(x.ops[k - 1].src));
      PutNumber(src, k - 1, DstField, x.ab, Position(x.ops[k - 1].dst))
  }

  /** The numbers of the rows fit their fields. */
  ghost predicate Fits(x: Block) {
    && x.ab > 0
    && forall j {:trigger x.ops[j]} | 0 <= j < |x.ops| ::
         x.ops[j].n < Pow2(x.ab - 1) && Position(x.ops[j].src) < Pow2(x.ab) && Position(x.ops[j].dst) < Pow2(x.ab)
  }

  /** Every block whose numbers fit can be written down, over any data. */
  lemma InitialExists(x: Block, m: Memory)
    requires Fits(x)
    ensures Initial(x, PutRows(x, m, |x.ops|))
    ensures forall p: nat {:trigger Data(p)} :: Read(PutRows(x, m, |x.ops|), Data(p)) == Read(m, Data(p))
  {
    forall j {:trigger x.ops[j]} | 0 <= j < |x.ops| ensures RowIs(x, PutRows(x, m, |x.ops|), j) {
      RowsWritten(x, m, |x.ops|, j);
    }
    RowsWritten(x, m, |x.ops|, |x.ops|);
  }

  ghost predicate RowIs(x: Block, m: Memory, j: nat)
    requires j < |x.ops|
  {
    && Count(x, m, j) == x.ops[j].n && Source(x, m, j) == Position(x.ops[j].src)
    && Number(m, j, DstField, x.ab) == Position(x.ops[j].dst)
  }

  lemma {:induction false} RowsWritten(x: Block, m: Memory, k: nat, j: nat)
    requires Fits(x) && k <= |x.ops|
    ensures j < k ==> RowIs(x, PutRows(x, m, k), j)
    ensures forall p: nat {:trigger Data(p)} :: Read(PutRows(x, m, k), Data(p)) == Read(m, Data(p))
  {
    hide Pow2, Read, PutNumber;
    if k > 0 {
      RowsWritten(x, m, k - 1, j);
      var i, ab := k - 1, x.ab;
      var y := x.ops[i];
      var a := PutRows(x, m, i);
      var b := PutNumber(a, i, CountField, ab - 1, y.n);
      var c := PutNumber(b, i, SrcField, ab, Position(y.src));
      var d := PutNumber(c, i, DstField, ab, Position(y.dst));
      PutNumberIs(a, i, CountField, ab - 1, y.n);
      PutNumberIs(b, i, SrcField, ab, Position(y.src));
      PutNumberIs(c, i, DstField, ab, Position(y.dst));
      if j == i {
        NumberSame(d, b, j, CountField, ab - 1);
        NumberSame(d, c, j, SrcField, ab);
        SmallMod(y.n, Pow2(ab - 1));
        SmallMod(Position(y.src), Pow2(ab));
        SmallMod(Position(y.dst), Pow2(ab));
      } else if j < i {
        NumberSame(d, a, j, CountField, ab - 1);
        NumberSame(d, a, j, SrcField, ab);
        NumberSame(d, a, j, DstField, ab);
      }
    }
  }

  /** Some node patches node j. */
  ghost predicate IsPatched(ops: seq<Node>, j: nat) {
    exists i :: 0 <= i < |ops| && Patches(ops[i], j)
  }

  /** Two copies never patch the same bit of a field. */
  predicate Clear(a: Target, n: nat, b: Target, n': nat) {
    a.Into? && b.Into? && a.node == b.node && a.field == b.field ==> a.off + n <= b.off || b.off + n' <= a.off
  }

  /**
   * How generated blocks patch: forward, with copies that are not patched themselves, no bit of a field
   * twice, and no field that a copy reads as data.
   */
  ghost predicate PlainPatches(ops: seq<Node>) {
    && (forall i {:trigger ops[i]} | 0 <= i < |ops| && ops[i].dst.Into? :: i < ops[i].dst.node && !IsPatched(ops, i))
    && (forall i, j | 0 <= i < j < |ops| :: Clear(ops[i].dst, ops[i].n, ops[j].dst, ops[j].n))
    && (forall i, j | 0 <= i < |ops| && 0 <= j < |ops| && ops[i].dst.Into? && ops[j].src.Into? ::
          ops[i].dst.node != ops[j].src.node || ops[i].dst.field != ops[j].src.field)
  }

  /** How many low bits of a field of node j the first k nodes may patch. */
  function Slack(ops: seq<Node>, j: nat, f: FieldName, k: nat): nat
    requires k <= |ops|
  {
    if k == 0 then 0
    else
      var most := Slack(ops, j, f, k - 1);
      var x := ops[k - 1];
      if x.dst.Into? && x.dst.node == j && x.dst.field == f then Max(most, x.dst.off + x.n) else most
  }

  lemma {:induction false} SlackCovers(ops: seq<Node>, j: nat, f: FieldName, k: nat, i: nat)
    requires i < k <= |ops| && ops[i].dst.Into? && ops[i].dst.node == j && ops[i].dst.field == f
    ensures ops[i].dst.off + ops[i].n <= Slack(ops, j, f, k)
  {
    if i < k - 1 {
      SlackCovers(ops, j, f, k - 1, i);
    }
  }

  lemma {:induction false} NoSlack(ops: seq<Node>, j: nat, f: FieldName, k: nat)
    requires k <= |ops| && !IsPatched(ops, j)
    ensures Slack(ops, j, f, k) == 0
  {
    if k > 0 {
      NoSlack(ops, j, f, k - 1);
      assert !Patches(ops[k - 1], j);
    }
  }

  /** Numbers that differ in their w lowest bits only. */
  predicate Near(v: nat, w: nat, u: nat) {
    v / Pow2(w) == u / Pow2(w)
  }

  lemma NearZero(v: nat, u: nat)
    ensures Near(v, 0, u) <==> v == u
  {
    assert Pow2(0) == 1;
  }

  /** A position that node j can read, or write, whatever is patched into its row: a table lookup reads its table. */
  ghost predicate MayTouch(ops: seq<Node>, j: nat, place: Target, f: FieldName, p: nat)
    requires j < |ops|
  {
    place.At? && exists at: nat, n: nat :: Within(ops, j, place.pos, f, at, n) && at <= p < at + n
  }

  ghost predicate Within(ops: seq<Node>, j: nat, pos: nat, f: FieldName, at: nat, n: nat)
    requires j < |ops|
  {
    Near(pos, Slack(ops, j, f, |ops|), at) && Near(ops[j].n, Slack(ops, j, CountField, |ops|), n)
  }

  ghost predicate MayRead(ops: seq<Node>, j: nat, p: nat)
    requires j < |ops|
  {
    MayTouch(ops, j, ops[j].src, SrcField, p)
  }

  ghost predicate MayWrite(ops: seq<Node>, j: nat, p: nat)
    requires j < |ops|
  {
    MayTouch(ops, j, ops[j].dst, DstField, p)
  }

  /** Nodes that nothing patches touch what is written in their rows. */
  lemma TouchesAsWritten(ops: seq<Node>, j: nat, p: nat)
    requires j < |ops| && !IsPatched(ops, j)
    ensures MayRead(ops, j, p) <==> ReadsAt(ops[j], p)
    ensures MayWrite(ops, j, p) <==> WritesAt(ops[j], p)
  {
    hide IsPatched, Slack, Near;
    NoSlack(ops, j, SrcField, |ops|);
    NoSlack(ops, j, DstField, |ops|);
    NoSlack(ops, j, CountField, |ops|);
    forall v: nat, u: nat {:trigger Near(v, 0, u)} ensures Near(v, 0, u) <==> v == u {
      NearZero(v, u);
    }
    if ReadsAt(ops[j], p) {
      assert Within(ops, j, ops[j].src.pos, SrcField, ops[j].src.pos, ops[j].n);
    }
    if WritesAt(ops[j], p) {
      assert Within(ops, j, ops[j].dst.pos, DstField, ops[j].dst.pos, ops[j].n);
    }
  }

  /** Patched copies collide with other nodes only where their rows, as written, say so. */
  ghost predicate Foreseen(ops: seq<Node>) {
    forall i, j, p: nat {:trigger MayWrite(ops, i, p), MayRead(ops, j, p)} {:trigger MayWrite(ops, i, p), MayWrite(ops, j, p)} |
      0 <= i < j < |ops| && (IsPatched(ops, i) || IsPatched(ops, j)) && MayWrite(ops, i, p) ::
        && (MayRead(ops, j, p) ==> WritesAt(ops[i], p) && ReadsAt(ops[j], p))
        && (MayWrite(ops, j, p) ==> WritesAt(ops[i], p) && WritesAt(ops[j], p))
  }

  /** The scheduler does not look at this: a write is not levelled below an earlier read. For lone reads it holds anyway. */
  ghost predicate ReadsFirst(ops: seq<Node>, levels: seq<nat>)
    requires |levels| == |ops|
  {
    forall i, j, p: nat {:trigger MayRead(ops, i, p), MayWrite(ops, j, p)} |
      0 <= i < j < |ops| && MayRead(ops, i, p) && MayWrite(ops, j, p) && !(LoneRead(ops, i) && WritesAt(ops[j], p)) ::
        levels[i] <= levels[j]
  }

  lemma {:induction false} FirstBitsInto(x: Block, rows: Memory, data: Memory, j: nat, k: nat, at: Loc)
    requires j < |x.ops| && at in FirstBits(x, rows, data, j, k)
    ensures at.Home? ==> Patches(x.ops[j], at.node) && x.ops[j].dst.field == at.field && x.ops[j].dst.off <= at.k < x.ops[j].dst.off + k
    ensures at.Data? ==> x.ops[j].dst.At?
  {
    if k > 0 && at != Dest(x, rows, j, k - 1) {
      FirstBitsInto(x, rows, data, j, k - 1, at);
    }
  }

  lemma WritesHome(x: Block, m: Memory, i: nat, at: Loc)
    requires i < |x.ops| && Writes(x, m, i, at) && at.Home?
    ensures Patches(x.ops[i], at.node) && x.ops[i].dst.field == at.field
    ensures x.ops[i].dst.off <= at.k < x.ops[i].dst.off + Count(x, State(x, m, i), i)
  {
    var s := State(x, m, i);
    FirstBitsInto(x, s, s, i, Count(x, s, i), at);
  }

  /** Fields that agree above their w lowest bits. */
  lemma {:induction false} NumbersNear(a: Memory, b: Memory, j: nat, f: FieldName, w: nat, width: nat) returns (d: nat)
    requires forall k: nat {:trigger Home(j, f, k)} | w <= k < width :: Read(a, Home(j, f, k)) == Read(b, Home(j, f, k))
    ensures w <= width ==> Number(a, j, f, width) == Number(a, j, f, w) + Pow2(w) * d
    ensures w <= width ==> Number(b, j, f, width) == Number(b, j, f, w) + Pow2(w) * d
    decreases width
  {
    d := 0;
    if w < width {
      d := NumbersNear(a, b, j, f, w, width - 1);
      assert Read(a, Home(j, f, width - 1)) == Read(b, Home(j, f, width - 1));
      if Read(a, Home(j, f, width - 1)) {
        Pow2Add(w, width - 1 - w);
        Distribute(Pow2(w), d, Pow2(width - 1 - w));
        d := d + Pow2(width - 1 - w);
      }
    }
  }

  lemma {:induction false} NumberSmall(a: Memory, j: nat, f: FieldName, width: nat)
    ensures Number(a, j, f, width) < Pow2(width)
  {
    if width > 0 {
      NumberSmall(a, j, f, width - 1);
    }
  }

  lemma {:induction false} Pow2Grows(a: nat, b: nat)
    requires a <= b
    ensures Pow2(a) <= Pow2(b)
  {
    if a < b {
      Pow2Grows(a, b - 1);
    }
  }

  lemma NumbersAreNear(a: Memory, b: Memory, j: nat, f: FieldName, w: nat, width: nat)
    requires forall k: nat {:trigger Home(j, f, k)} | w <= k < width :: Read(a, Home(j, f, k)) == Read(b, Home(j, f, k))
    ensures Near(Number(a, j, f, width), w, Number(b, j, f, width))
  {
    if w <= width {
      var d := NumbersNear(a, b, j, f, w, width);
      NumberSmall(a, j, f, w);
      NumberSmall(b, j, f, w);
      DivModUnique(Pow2(w), d, Number(a, j, f, w));
      DivModUnique(Pow2(w), d, Number(b, j, f, w));
    } else {
      NumberSmall(a, j, f, width);
      NumberSmall(b, j, f, width);
      Pow2Grows(width, w);
      DivModUnique(Pow2(w), 0, Number(a, j, f, width));
      DivModUnique(Pow2(w), 0, Number(b, j, f, width));
    }
  }

  /** What a node is executed with differs from its row as written in the patched bits only. */
  lemma RowNear(x: Block, m: Memory, j: nat, f: FieldName, width: nat)
    requires j < |x.ops| && Initial(x, m) && PlainPatches(x.ops)
    ensures Near(Number(m, j, f, width), Slack(x.ops, j, f, |x.ops|), Number(State(x, m, j), j, f, width))
    decreases j, 1
  {
    var w := Slack(x.ops, j, f, |x.ops|);
    var s := State(x, m, j);
    forall k: nat {:trigger Home(j, f, k)} | w <= k < width ensures Read(m, Home(j, f, k)) == Read(s, Home(j, f, k)) {
      forall i | 0 <= i < j ensures !Writes(x, m, i, Home(j, f, k)) {
        if Writes(x, m, i, Home(j, f, k)) {
          HomeUntouched(x, m, i, j, f, k);
        }
      }
      StateKeeps(x, m, Home(j, f, k), 0, j);
    }
    hide State;
    NumbersAreNear(m, s, j, f, w, width);
  }

  lemma HomeUntouched(x: Block, m: Memory, i: nat, j: nat, f: FieldName, k: nat)
    requires i < j < |x.ops| && Initial(x, m) && PlainPatches(x.ops) && Writes(x, m, i, Home(j, f, k))
    ensures k < Slack(x.ops, j, f, |x.ops|)
    decreases i, 3
  {
    hide Writes, State, Initial, Slack;
    WritesHome(x, m, i, Home(j, f, k));
    CountStays(x, m, i);
    SlackCovers(x.ops, j, f, |x.ops|, i);
  }

  /** A node that nothing patches is executed as it was written. */
  lemma CountStays(x: Block, m: Memory, j: nat)
    requires j < |x.ops| && Initial(x, m) && PlainPatches(x.ops) && !IsPatched(x.ops, j)
    ensures Count(x, State(x, m, j), j) == x.ops[j].n
    decreases j, 2
  {
    hide State, PlainPatches, IsPatched;
    if x.ab > 0 {
      RowNear(x, m, j, CountField, x.ab - 1);
      NoSlack(x.ops, j, CountField, |x.ops|);
      NearZero(Number(m, j, CountField, x.ab - 1), Number(State(x, m, j), j, CountField, x.ab - 1));
    }
  }

  /** What a node does in the run one after another is among what it may do. */
  lemma ReadsMay(x: Block, m: Memory, j: nat, at: Loc)
    requires j < |x.ops| && Initial(x, m) && PlainPatches(x.ops) && Reads(x, m, j, at) && at.Data?
    ensures MayRead(x.ops, j, at.at)
  {
    RowMay(x, m, j);
    hide State, Initial, PlainPatches, Within, Source, Count;
    var s := State(x, m, j);
    assert Within(x.ops, j, x.ops[j].src.pos, SrcField, Source(x, s, j), Count(x, s, j));
  }

  lemma RowMay(x: Block, m: Memory, j: nat)
    requires j < |x.ops| && Initial(x, m) && PlainPatches(x.ops)
    ensures var s := State(x, m, j);
      && (x.ops[j].src.At? ==> Within(x.ops, j, x.ops[j].src.pos, SrcField, Source(x, s, j), Count(x, s, j)))
      && (x.ops[j].dst.At? ==> Within(x.ops, j, x.ops[j].dst.pos, DstField, Number(s, j, DstField, x.ab), Count(x, s, j)))
  {
    assert Count(x, m, j) == x.ops[j].n;
    hide State, Near, Slack, PlainPatches;
    if x.ab > 0 {
      RowNear(x, m, j, CountField, x.ab - 1);
    } else {
      RowNear(x, m, j, CountField, 0);
    }
    RowNear(x, m, j, SrcField, x.ab);
    RowNear(x, m, j, DstField, x.ab);
  }

  lemma WritesMay(x: Block, m: Memory, j: nat, at: Loc)
    requires j < |x.ops| && Initial(x, m) && PlainPatches(x.ops) && Writes(x, m, j, at) && at.Data?
    ensures MayWrite(x.ops, j, at.at)
  {
    RowMay(x, m, j);
    hide State, Initial, PlainPatches, Within, Source, Count;
    var s := State(x, m, j);
    FirstBitsInto(x, s, s, j, Count(x, s, j), at);
    var k := EffectAt(x, s, s, j, at);
    assert Within(x.ops, j, x.ops[j].dst.pos, DstField, Number(s, j, DstField, x.ab), Count(x, s, j));
  }

  /** Fields that are read as data are not patched. */
  lemma FieldUnpatched(x: Block, m: Memory, i: nat, j: nat, at: Loc)
    requires i < |x.ops| && j < |x.ops| && PlainPatches(x.ops) && at.Home? && Writes(x, m, i, at)
    ensures !Reads(x, m, j, at)
  {
    WritesHome(x, m, i, at);
    hide State;
  }

  lemma PatchOfHome(x: Block, m: Memory, j: nat, at: Loc)
    requires j < |x.ops| && Initial(x, m) && PlainPatches(x.ops) && at.Home? && Writes(x, m, j, at)
    ensures x.ops[j].dst.Into? && x.ops[j].dst.node == at.node && x.ops[j].dst.field == at.field
    ensures x.ops[j].dst.off <= at.k < x.ops[j].dst.off + x.ops[j].n
  {
    hide Writes, State, Initial, IsPatched;
    WritesHome(x, m, j, at);
    CountStays(x, m, j);
  }

  /** No bit of a field is patched twice. */
  lemma PatchedOnce(x: Block, m: Memory, i: nat, j: nat, at: Loc)
    requires i < j < |x.ops| && Initial(x, m) && PlainPatches(x.ops) && at.Home? && Writes(x, m, i, at)
    ensures !Writes(x, m, j, at)
  {
    hide Writes, State, Initial, IsPatched;
    assert Clear(x.ops[i].dst, x.ops[i].n, x.ops[j].dst, x.ops[j].n);
    WritesHome(x, m, i, at);
    CountStays(x, m, i);
    if Writes(x, m, j, at) {
      PatchOfHome(x, m, j, at);
      assert false;
    }
  }

  /** The levels of the scheduler make the bulk machine run the block. */
  lemma LevelsRespect(x: Block, m: Memory, levels: seq<nat>)
    requires |levels| == |x.ops| && Ordered(x.ops, levels, |x.ops|) && Tight(x.ops, levels, |x.ops|)
    requires Initial(x, m) && PlainPatches(x.ops) && Foreseen(x.ops) && ReadsFirst(x.ops, levels)
    ensures Respects(x, m, levels)
  {
    forall j | 0 <= j < |x.ops| ensures levels[j] >= 1 {
    }
    hide Writes, Reads, Initial, PlainPatches, Ordered, Tight, Foreseen, ReadsFirst;
    forall i, j, at {:trigger Writes(x, m, i, at), Reads(x, m, j, at)} |
      0 <= i < j < |x.ops| && Writes(x, m, i, at) && Reads(x, m, j, at) ensures levels[i] < levels[j]
    {
      ReadBehind(x, m, levels, i, j, at);
    }
    forall i, j, at {:trigger Writes(x, m, i, at), Writes(x, m, j, at)} |
      0 <= i < j < |x.ops| && Writes(x, m, i, at) && Writes(x, m, j, at) ensures levels[i] < levels[j]
    {
      WriteBehind(x, m, levels, i, j, at);
    }
    forall i, j, at {:trigger Reads(x, m, i, at), Writes(x, m, j, at)} |
      0 <= i < j < |x.ops| && Reads(x, m, i, at) && Writes(x, m, j, at) ensures levels[i] <= levels[j]
    {
      ReadBefore(x, m, levels, i, j, at);
    }
    forall i, at {:trigger Writes(x, m, i, at)} | 0 <= i < |x.ops| && Writes(x, m, i, at) && at.Home? && at.node < |x.ops|
      ensures if i < at.node then levels[i] + 2 <= levels[at.node] else levels[at.node] <= levels[i] + 1
    {
      PatchTwoAhead(x, m, levels, i, at);
    }
  }

  lemma ReadBehind(x: Block, m: Memory, levels: seq<nat>, i: nat, j: nat, at: Loc)
    requires |levels| == |x.ops| && Ordered(x.ops, levels, |x.ops|) && Initial(x, m) && PlainPatches(x.ops) && Foreseen(x.ops)
    requires i < j < |x.ops| && Writes(x, m, i, at) && Reads(x, m, j, at)
    ensures levels[i] < levels[j]
  {
    hide Writes, Reads, Initial, IsPatched, PlainPatches, MayRead, MayWrite;
    if at.Home? {
      FieldUnpatched(x, m, i, j, at);
      assert false;
    }
    WritesMay(x, m, i, at);
    ReadsMay(x, m, j, at);
    if !IsPatched(x.ops, i) && !IsPatched(x.ops, j) {
      TouchesAsWritten(x.ops, i, at.at);
      TouchesAsWritten(x.ops, j, at.at);
    }
    SameWriter(x.ops, i, j, at.at);
  }

  lemma WriteBehind(x: Block, m: Memory, levels: seq<nat>, i: nat, j: nat, at: Loc)
    requires |levels| == |x.ops| && Ordered(x.ops, levels, |x.ops|) && Initial(x, m) && PlainPatches(x.ops) && Foreseen(x.ops)
    requires i < j < |x.ops| && Writes(x, m, i, at) && Writes(x, m, j, at)
    ensures levels[i] < levels[j]
  {
    hide Writes, Reads, Initial, IsPatched, PlainPatches, MayRead, MayWrite;
    if at.Home? {
      PatchedOnce(x, m, i, j, at);
      assert false;
    }
    WritesMay(x, m, i, at);
    WritesMay(x, m, j, at);
    if !IsPatched(x.ops, i) && !IsPatched(x.ops, j) {
      TouchesAsWritten(x.ops, i, at.at);
      TouchesAsWritten(x.ops, j, at.at);
    }
    SameWriter(x.ops, i, j, at.at);
  }

  lemma ReadBefore(x: Block, m: Memory, levels: seq<nat>, i: nat, j: nat, at: Loc)
    requires |levels| == |x.ops| && Ordered(x.ops, levels, |x.ops|) && Tight(x.ops, levels, |x.ops|)
    requires Initial(x, m) && PlainPatches(x.ops) && ReadsFirst(x.ops, levels)
    requires i < j < |x.ops| && Reads(x, m, i, at) && Writes(x, m, j, at)
    ensures levels[i] <= levels[j]
  {
    hide Writes, Reads, Initial, MayRead, MayWrite, Ordered, Tight;
    if at.Home? {
      FieldUnpatched(x, m, j, i, at);
      assert false;
    }
    ReadsMay(x, m, i, at);
    WritesMay(x, m, j, at);
    if LoneRead(x.ops, i) && WritesAt(x.ops[j], at.at) {
      LoneUnpatched(x.ops, i);
      TouchesAsWritten(x.ops, i, at.at);
      LoneReadFirst(x.ops, levels, i, j);
    }
  }

  lemma LoneUnpatched(ops: seq<Node>, i: nat)
    requires i < |ops| && LoneRead(ops, i) && PlainPatches(ops)
    ensures !IsPatched(ops, i)
  {
  }

  lemma PatchTwoAhead(x: Block, m: Memory, levels: seq<nat>, i: nat, at: Loc)
    requires |levels| == |x.ops| && Ordered(x.ops, levels, |x.ops|) && PlainPatches(x.ops)
    requires i < |x.ops| && Writes(x, m, i, at) && at.Home? && at.node < |x.ops|
    ensures i < at.node && levels[i] + 2 <= levels[at.node]
  {
    hide Writes;
    WritesHome(x, m, i, at);
    assert Delay(x.ops, i, at.node) == 2;
  }

  /** A scheduled block, executed in bulk, leaves what its nodes leave one after another. */
  lemma ScheduledBlock(x: Block, m: Memory, levels: seq<nat>, last: nat, at: Loc)
    requires |levels| == |x.ops| && Ordered(x.ops, levels, |x.ops|) && Tight(x.ops, levels, |x.ops|)
    requires Reached(levels, |x.ops|, last) || TermLevel(x.ops, levels, last)
    requires Initial(x, m) && PlainPatches(x.ops) && Foreseen(x.ops) && ReadsFirst(x.ops, levels)
    ensures Read(After(x, m, levels, last), at) == Read(State(x, m, |x.ops|), at)
  {
    hide After, State;
    LevelsRespect(x, m, levels);
    BulkIsSequential(x, m, levels, last, at);
  }
}
