/**
 * The bulk machine at bit addresses: the nodes of a level lie in a layer, each layer's last row loads the next one over the
 * processor, and a patch goes to the place its target is loaded from. Ticks of this machine are the ticks of Bulk.
 */
module Homes {
  import opened Bits
  import opened Machine
  import opened Lookups
  import opened Rows
  import opened CopyEmit
  import opened Layering
  import opened Agreement
  import P = Layers
  import S = Schedule
  import B = Bulk
  import V = Levels

  /** Nodes with their levels from 1 on, the terminator in the last one, and where the layers begin. */
  datatype Plan = Plan(nodes: seq<S.Node>, levels: seq<nat>, last: nat, term: Row, base: nat)

  /** How many of the first k nodes are on a level. */
  function InLevel(levels: seq<nat>, level: nat, k: nat): (r: nat)
    requires k <= |levels|
    ensures r <= k
  {
    if k == 0 then 0 else InLevel(levels, level, k - 1) + if levels[k - 1] == level then 1 else 0
  }

  /** Every level has room in front of the link. */
  ghost predicate Planned(c: Config, x: Plan)
    requires c.Valid()
  {
    && |x.levels| == |x.nodes| && x.last > 0 && c.LayerBits() <= x.base
    && (forall j {:trigger x.levels[j]} | 0 <= j < |x.nodes| :: 1 <= x.levels[j] <= x.last)
    && forall level: nat {:trigger InLevel(x.levels, level, |x.nodes|)} :: InLevel(x.levels, level, |x.nodes|) <= P.LINK
  }

  function LevelFor(x: Plan, j: nat): nat
    requires |x.levels| == |x.nodes| && j <= |x.nodes|
  {
    if j < |x.nodes| then x.levels[j] else x.last
  }

  /** Nodes of a level take its slots in their order. */
  function SlotIn(x: Plan, j: nat): nat
    requires |x.levels| == |x.nodes| && j <= |x.nodes|
  {
    if j < |x.nodes| then InLevel(x.levels, x.levels[j], j) else P.LINK
  }

  /** The layer of a level. */
  function LayerFor(c: Config, x: Plan, level: nat): nat
    requires c.Valid()
  {
    LayerAt(c, x.base, if level > 0 then level - 1 else 0)
  }

  function HomeAt(c: Config, x: Plan, j: nat): nat
    requires c.Valid() && |x.levels| == |x.nodes| && j <= |x.nodes|
  {
    c.SlotAt(LayerFor(c, x, LevelFor(x, j)), SlotIn(x, j))
  }

  /** The row of a node from the bulk machine's memory; a patch is aimed at its target's home. */
  function RowIn(c: Config, x: Plan, m: B.Memory, j: nat): Row
    requires c.Valid() && |x.levels| == |x.nodes| && j <= |x.nodes|
  {
    var dst := if j < |x.nodes| && x.nodes[j].dst.Into? && x.nodes[j].dst.node <= |x.nodes|
      then HomeAt(c, x, x.nodes[j].dst.node) + FieldOffset(c, x.nodes[j].dst.field) + x.nodes[j].dst.off
      else B.Number(m, j, S.DstField, c.ab);
    Row(B.Number(m, j, S.CountField, c.ab - 1), dst, B.Number(m, j, S.SrcField, c.ab))
  }

  function RowsOf(c: Config, x: Plan, m: B.Memory): (rows: seq<Row>)
    requires c.Valid() && |x.levels| == |x.nodes|
    ensures |rows| == |x.nodes| + 1 && forall j {:trigger rows[j]} | 0 <= j <= |x.nodes| :: rows[j] == RowIn(c, x, m, j)
  {
    seq(|x.nodes| + 1, j requires 0 <= j <= |x.nodes| => RowIn(c, x, m, j))
  }

  /** The node in a slot of a level, among the first k. */
  function NodeFor(levels: seq<nat>, level: nat, slot: nat, k: nat): (r: Option<nat>)
    requires k <= |levels|
    ensures r.Some? ==> r.value < k && levels[r.value] == level && InLevel(levels, level, r.value) == slot
  {
    if k == 0 then None
    else if levels[k - 1] == level && InLevel(levels, level, k - 1) == slot then Some(k - 1)
    else NodeFor(levels, level, slot, k - 1)
  }

  lemma {:induction false} InLevelGrows(levels: seq<nat>, level: nat, i: nat, k: nat)
    requires i <= k <= |levels|
    ensures InLevel(levels, level, i) <= InLevel(levels, level, k)
    ensures i < k && levels[i] == level ==> InLevel(levels, level, i) < InLevel(levels, level, k)
    decreases k
  {
    if i < k {
      InLevelGrows(levels, level, i, k - 1);
    }
  }

  lemma {:induction false} NodeForIs(levels: seq<nat>, level: nat, k: nat, j: nat)
    requires j < k <= |levels| && levels[j] == level
    ensures NodeFor(levels, level, InLevel(levels, level, j), k) == Some(j)
    decreases k
  {
    if j < k - 1 {
      InLevelGrows(levels, level, j, k - 1);
      NodeForIs(levels, level, k - 1, j);
    }
  }

  lemma {:induction false} NodeForNone(levels: seq<nat>, level: nat, slot: nat, k: nat)
    requires k <= |levels| && InLevel(levels, level, k) <= slot
    ensures NodeFor(levels, level, slot, k) == None
    decreases k
  {
    if k > 0 {
      NodeForNone(levels, level, slot, k - 1);
    }
  }

  /** What lies in a slot of a level when the nodes have these rows. */
  function PlanRow(c: Config, x: Plan, rows: seq<Row>, level: nat, slot: nat): Row
    requires c.Valid() && |x.levels| == |x.nodes| && |rows| == |x.nodes| + 1
  {
    if slot == P.LINK then (if level == x.last then rows[|x.nodes|] else Row(c.LayerBits(), 0, LayerFor(c, x, level + 1)))
    else match NodeFor(x.levels, level, slot, |x.nodes|)
      case None => NOP
      case Some(j) => rows[j]
  }

  function PlanRows(c: Config, x: Plan, rows: seq<Row>, level: nat): (r: seq<Row>)
    requires c.Valid() && |x.levels| == |x.nodes| && |rows| == |x.nodes| + 1
    ensures |r| == SLOTS && forall slot {:trigger r[slot]} | 0 <= slot < SLOTS :: r[slot] == PlanRow(c, x, rows, level, slot)
  {
    seq(SLOTS, slot requires 0 <= slot < SLOTS => PlanRow(c, x, rows, level, slot))
  }

  /** Behind the processor and outside the layers. */
  predicate InPlan(c: Config, x: Plan, at: nat, n: nat)
    requires c.Valid()
  {
    c.LayerBits() <= at && (at + n <= x.base || LayerAt(c, x.base, x.last) <= at)
  }

  ghost predicate DataShown(c: Config, x: Plan, u: Space, m: B.Memory)
    requires c.Valid()
  {
    forall p: nat {:trigger u[p]} {:trigger B.Data(p)} | p < |u| && InPlan(c, x, p, 1) :: u[p] == B.Read(m, B.Data(p))
  }

  /** The layers lie in their places. */
  ghost predicate HomesShown(c: Config, x: Plan, u: Space, rows: seq<Row>)
    requires c.Valid() && |x.levels| == |x.nodes| && |rows| == |x.nodes| + 1
  {
    && LayerAt(c, x.base, x.last) <= |u|
    && forall level: nat {:trigger PlanRows(c, x, rows, level)} | 1 <= level <= x.last :: Holds(c, u, LayerFor(c, x, level), PlanRows(c, x, rows, level))
  }

  // ---- One row of a tick.

  /** Some bits written over a space. */
  function Overlay(t: Space, dst: nat, bits: Space): (r: Space)
    requires dst + |bits| <= |t|
    ensures |r| == |t| && forall p {:trigger r[p]} | 0 <= p < |r| :: r[p] == if dst <= p < dst + |bits| then bits[p - dst] else t[p]
  {
    t[..dst] + bits + t[dst + |bits|..]
  }

  /** A row reads from one space and writes to another. */
  function CommitRow(t: Space, s: Space, row: Row): (r: Option<Space>)
    requires |t| == |s|
    ensures r.Some? ==> |r.value| == |s|
  {
    if row.n == 0 then Some(t)
    else if !InRange(s, row) then None
    else Some(Overlay(t, row.dst, s[row.src..row.src + row.n]))
  }

  /** The first k rows of the processor, all fetched and all read before any of them writes. */
  function Commits(c: Config, s: Space, k: nat): (r: Option<Space>)
    requires c.Valid() && c.LayerBits() <= |s| && k <= SLOTS
    ensures r.Some? ==> |r.value| == |s|
  {
    if k == 0 then Some(s)
    else match Commits(c, s, k - 1)
      case None => None
      case Some(t) => CommitRow(t, s, RowAt(c, s, 0, k - 1))
  }

  /** Row j of the processor writes to position p. */
  predicate Covers(c: Config, s: Space, j: nat, p: nat)
    requires c.Valid() && c.LayerBits() <= |s| && j < SLOTS
  {
    var row := RowAt(c, s, 0, j);
    row.n != 0 && row.dst <= p < row.dst + row.n
  }

  ghost predicate Covered(c: Config, s: Space, from: nat, to: nat, p: nat)
    requires c.Valid() && c.LayerBits() <= |s| && to <= SLOTS
  {
    exists j | from <= j < to :: Covers(c, s, j, p)
  }

  /** Where row j finds what it writes to p. */
  function Fetched(c: Config, s: Space, j: nat, p: nat): int
    requires c.Valid() && c.LayerBits() <= |s| && j < SLOTS
  {
    RowAt(c, s, 0, j).src + (p - RowAt(c, s, 0, j).dst)
  }

  /** A tick reads before it writes: a bit is what the last row that writes to it found in front of the tick, and otherwise stays. */
  lemma {:induction false} TickReadsFirst(c: Config, s: Space, k: nat, p: nat)
    requires c.Valid() && c.LayerBits() <= |s| && k <= SLOTS && p < |s| && Commits(c, s, k).Some?
    ensures var t := Commits(c, s, k).value;
      && (forall j: nat {:trigger Covers(c, s, j, p)} | j < k && Covers(c, s, j, p) && !Covered(c, s, j + 1, k, p) ::
            0 <= Fetched(c, s, j, p) < |s| && t[p] == s[Fetched(c, s, j, p)])
      && (!Covered(c, s, 0, k, p) ==> t[p] == s[p])
  {
    hide Commits, RowAt, Fetched, Covers, Covered;
    if k == 0 {
      CommitsNone(c, s, p);
    } else {
      CommitBit(c, s, k, p);
      CoveredLast(c, s, k, p);
      TickReadsFirst(c, s, k - 1, p);
    }
  }

  lemma CommitsNone(c: Config, s: Space, p: nat)
    requires c.Valid() && c.LayerBits() <= |s|
    ensures Commits(c, s, 0) == Some(s) && !Covered(c, s, 0, 0, p)
  {
  }

  lemma CoveredLast(c: Config, s: Space, k: nat, p: nat)
    requires c.Valid() && c.LayerBits() <= |s| && 0 < k <= SLOTS
    ensures Covers(c, s, k - 1, p) ==> forall j: nat {:trigger Covered(c, s, j, k, p)} | j < k :: Covered(c, s, j, k, p)
    ensures !Covers(c, s, k - 1, p) ==> forall j: nat {:trigger Covered(c, s, j, k, p)} | j <= k :: Covered(c, s, j, k, p) == Covered(c, s, j, k - 1, p)
    ensures !Covered(c, s, k, k, p)
  {
    hide RowAt, Covers;
  }

  /** And it fails exactly if a row that copies something reaches out of the memory. */
  lemma {:induction false} TickRefused(c: Config, s: Space, k: nat)
    requires c.Valid() && c.LayerBits() <= |s| && k <= SLOTS
    ensures Commits(c, s, k).None? <==>
      exists j | 0 <= j < k :: var row := RowAt(c, s, 0, j); row.n != 0 && (row.src + row.n > |s| || row.dst + row.n > |s|)
  {
    hide RowAt;
    if k > 0 {
      TickRefused(c, s, k - 1);
    }
  }

  lemma CommitBit(c: Config, s: Space, k: nat, p: nat)
    requires c.Valid() && c.LayerBits() <= |s| && 0 < k <= SLOTS && p < |s| && Commits(c, s, k).Some?
    ensures Commits(c, s, k - 1).Some?
    ensures var t, before := Commits(c, s, k).value, Commits(c, s, k - 1).value;
      if Covers(c, s, k - 1, p) then 0 <= Fetched(c, s, k - 1, p) < |s| && t[p] == s[Fetched(c, s, k - 1, p)] else t[p] == before[p]
  {
    hide RowAt;
  }

  /** A node copies data to data, or data into a field. */
  predicate Proper(c: Config, x: Plan, size: nat, row: Row, j: nat)
    requires c.Valid() && j < |x.nodes|
  {
    && InPlan(c, x, row.src, row.n) && row.src + row.n <= size
    && match x.nodes[j].dst
       case At(_) => InPlan(c, x, row.dst, row.n) && row.dst + row.n <= size
       case Into(t, f, off) => off + row.n <= FieldBits(c, f) && t <= |x.nodes|
  }

  /** Patches go to rows whose own destination is not an address of the plan. */
  ghost predicate WellPlanned(x: Plan) {
    forall j {:trigger x.nodes[j]} | 0 <= j < |x.nodes| ::
      && x.nodes[j].src.At?
      && (x.nodes[j].dst.Into? ==>
            && x.nodes[j].dst.node <= |x.nodes|
            && (x.nodes[j].dst.field == S.DstField && x.nodes[j].dst.node < |x.nodes| ==> x.nodes[x.nodes[j].dst.node].dst.At?))
  }

  function Blocked(c: Config, x: Plan): B.Block {
    B.Block(x.nodes, c.ab)
  }

  /** A copy of data in bulk: from the data in front of the tick. */
  lemma CopyCommits(c: Config, x: Plan, u: Space, data: B.Memory, rows: B.Memory, t: Space, m: B.Memory, j: nat) returns (v: Space)
    requires c.Valid() && Planned(c, x) && WellPlanned(x) && j < |x.nodes| && x.nodes[j].dst.At? && |t| == |u|
    requires DataShown(c, x, u, data) && DataShown(c, x, t, m) && HomesShown(c, x, t, RowsOf(c, x, m))
    requires var row := RowIn(c, x, rows, j); row.n > 0 && Proper(c, x, |u|, row, j)
    ensures CommitRow(t, u, RowIn(c, x, rows, j)) == Some(v)
    ensures var now := m + B.Effect(Blocked(c, x), rows, data, j); DataShown(c, x, v, now) && HomesShown(c, x, v, RowsOf(c, x, now))
  {
    hide B.Effect, B.Number, B.Read, Overlay, Copied;
    var row := RowIn(c, x, rows, j);
    var now := m + B.Effect(Blocked(c, x), rows, data, j);
    v := Overlay(t, row.dst, u[row.src..row.src + row.n]);
    CopiedBits(c, x, rows, data, m, j);
    OverlayShows(c, x, u, data, t, m, v, now, row);
    CopyKeepsRows(c, x, rows, data, m, j);
    HomesStay(c, x, t, v, row.dst, row.n, RowsOf(c, x, m));
  }

  /** The bits of a row's destination are those of its source. */
  ghost predicate Copied(data: B.Memory, m: B.Memory, now: B.Memory, row: Row) {
    forall p: nat {:trigger CopiedBit(data, m, now, row, p)} :: CopiedBit(data, m, now, row, p)
  }

  predicate CopiedBit(data: B.Memory, m: B.Memory, now: B.Memory, row: Row, p: nat) {
    B.Read(now, B.Data(p)) == if row.dst <= p < row.dst + row.n then B.Read(data, B.Data(row.src + (p - row.dst))) else B.Read(m, B.Data(p))
  }

  /** The data behind a copy in bulk. */
  lemma CopiedBits(c: Config, x: Plan, rows: B.Memory, data: B.Memory, m: B.Memory, j: nat)
    requires c.Valid() && |x.levels| == |x.nodes| && WellPlanned(x) && j < |x.nodes| && x.nodes[j].dst.At?
    ensures Copied(data, m, m + B.Effect(Blocked(c, x), rows, data, j), RowIn(c, x, rows, j))
  {
    hide B.Effect, B.Number, B.Read;
    var y, row := Blocked(c, x), RowIn(c, x, rows, j);
    var now := m + B.Effect(y, rows, data, j);
    assert x.nodes[j].src.At?;
    EffectBits(y, m, rows, data, j);
    forall p: nat {:trigger CopiedBit(data, m, now, row, p)} ensures CopiedBit(data, m, now, row, p) {
      if row.dst <= p < row.dst + row.n {
        var k := p - row.dst;
        assert B.Dest(y, rows, j, k) == B.Data(p) && B.Origin(y, rows, j, k) == B.Data(row.src + k);
      }
    }
  }

  lemma OverlayShows(c: Config, x: Plan, u: Space, data: B.Memory, t: Space, m: B.Memory, v: Space, now: B.Memory, row: Row)
    requires c.Valid() && |t| == |u| && DataShown(c, x, u, data) && DataShown(c, x, t, m) && InPlan(c, x, row.src, row.n) && row.src + row.n <= |u|
    requires row.dst + row.n <= |t| && v == Overlay(t, row.dst, u[row.src..row.src + row.n]) && Copied(data, m, now, row)
    ensures DataShown(c, x, v, now)
  {
    hide B.Read, LayerAt, InPlan, Overlay;
    forall p: nat {:trigger v[p]} {:trigger B.Data(p)} | p < |v| && InPlan(c, x, p, 1) ensures v[p] == B.Read(now, B.Data(p)) {
      OverlayBit(t, row.dst, u[row.src..row.src + row.n], p);
      assert CopiedBit(data, m, now, row, p);
      if row.dst <= p < row.dst + row.n {
        PlanPart(c, x, row.src, row.n, row.src + (p - row.dst));
      }
    }
  }

  lemma OverlayBit(t: Space, dst: nat, bits: Space, p: nat)
    requires dst + |bits| <= |t| && p < |t|
    ensures Overlay(t, dst, bits)[p] == if dst <= p < dst + |bits| then bits[p - dst] else t[p]
  {
  }

  lemma PlanPart(c: Config, x: Plan, at: nat, n: nat, p: nat)
    requires c.Valid() && InPlan(c, x, at, n) && at <= p < at + n
    ensures InPlan(c, x, p, 1)
  {
    hide LayerAt;
  }

  lemma CopyKeepsRows(c: Config, x: Plan, rows: B.Memory, data: B.Memory, m: B.Memory, j: nat)
    requires c.Valid() && |x.levels| == |x.nodes| && j < |x.nodes| && x.nodes[j].dst.At?
    ensures RowsOf(c, x, m + B.Effect(Blocked(c, x), rows, data, j)) == RowsOf(c, x, m)
  {
    hide B.Effect, B.Number, B.Read, HomeAt;
    var y := Blocked(c, x);
    var now := m + B.Effect(y, rows, data, j);
    EffectBits(y, m, rows, data, j);
    forall i | 0 <= i <= |x.nodes| ensures RowIn(c, x, now, i) == RowIn(c, x, m, i) {
      B.NumberSame(now, m, i, S.CountField, c.ab - 1);
      B.NumberSame(now, m, i, S.DstField, c.ab);
      B.NumberSame(now, m, i, S.SrcField, c.ab);
    }
  }

  /** Writing data leaves the layers. */
  lemma HomesStay(c: Config, x: Plan, t: Space, v: Space, at: nat, n: nat, rows: seq<Row>)
    requires c.Valid() && |x.levels| == |x.nodes| && |rows| == |x.nodes| + 1 && HomesShown(c, x, t, rows)
    requires |v| == |t| && InPlan(c, x, at, n) && at + n <= |t| && forall p {:trigger v[p]} | 0 <= p < |v| && !(at <= p < at + n) :: v[p] == t[p]
    ensures HomesShown(c, x, v, rows)
  {
    assert Same(t, v, Span(at, n));
    hide Same, Span, Holds, LayerAt;
    forall level: nat {:trigger PlanRows(c, x, rows, level)} | 1 <= level <= x.last ensures Holds(c, v, LayerFor(c, x, level), PlanRows(c, x, rows, level)) {
      LayerInside(c, x.base, level - 1, x.last);
      SpansApart(LayerFor(c, x, level), c.LayerBits(), at, n);
      HoldsKept(c, t, v, Span(at, n), LayerFor(c, x, level), PlanRows(c, x, rows, level));
    }
  }

  /** One row changed is one slot of its level changed. */
  lemma PlanUpdated(c: Config, x: Plan, rows: seq<Row>, t: nat, r: Row, level: nat)
    requires c.Valid() && Planned(c, x) && |rows| == |x.nodes| + 1 && t <= |x.nodes|
    ensures SlotIn(x, t) < SLOTS && 1 <= LevelFor(x, t) <= x.last
    ensures PlanRows(c, x, rows[t := r], level) ==
      if level == LevelFor(x, t) then PlanRows(c, x, rows, level)[SlotIn(x, t) := r] else PlanRows(c, x, rows, level)
  {
    var n := |x.nodes|;
    if t < n {
      NodeForIs(x.levels, x.levels[t], n, t);
      SlotLow(c, x, t);
    }
  }

  /** Nodes lie in front of the link. */
  lemma SlotLow(c: Config, x: Plan, j: nat)
    requires c.Valid() && Planned(c, x) && j < |x.nodes|
    ensures SlotIn(x, j) < P.LINK && 1 <= x.levels[j] <= x.last
  {
    InLevelGrows(x.levels, x.levels[j], j, |x.nodes|);
    assert InLevel(x.levels, x.levels[j], |x.nodes|) <= P.LINK;
  }

  /** The home of a node lies in its layer. */
  lemma HomeIn(c: Config, x: Plan, j: nat)
    requires c.Valid() && Planned(c, x) && j <= |x.nodes|
    ensures SlotIn(x, j) < SLOTS && 1 <= LevelFor(x, j) <= x.last
    ensures var layer := LayerFor(c, x, LevelFor(x, j));
      && x.base <= layer <= HomeAt(c, x, j) && HomeAt(c, x, j) + c.RowBits() <= layer + c.LayerBits() <= LayerAt(c, x.base, x.last)
  {
    if j < |x.nodes| {
      SlotLow(c, x, j);
    }
    SlotInLayer(c, LayerFor(c, x, LevelFor(x, j)), SlotIn(x, j));
    LayerInside(c, x.base, LevelFor(x, j) - 1, x.last);
  }

  /** A change in the home of one node. */
  lemma HomeChanged(c: Config, x: Plan, t: Space, v: Space, rows: seq<Row>, j: nat, r: Row)
    requires c.Valid() && Planned(c, x) && |rows| == |x.nodes| + 1 && j <= |x.nodes| && HomesShown(c, x, t, rows)
    requires Same(t, v, Span(HomeAt(c, x, j), c.RowBits())) && HomeAt(c, x, j) + c.RowBits() <= |v| && RowBitsAt(c, v, HomeAt(c, x, j)) == r
    ensures HomesShown(c, x, v, rows[j := r])
  {
    hide LayerAt, Span, Holds, RowAt, RowBitsAt, Same, c.Offset, InLevel, NodeFor, SlotIn, LevelFor;
    HomeIn(c, x, j);
    var at, own := HomeAt(c, x, j), LevelFor(x, j);
    SameSize(t, v, Span(at, c.RowBits()));
    SpanInside(LayerFor(c, x, own), c.LayerBits(), at, c.RowBits());
    SpanSame(t, v, Span(at, c.RowBits()), Span(LayerFor(c, x, own), c.LayerBits()));
    forall level: nat {:trigger PlanRows(c, x, rows[j := r], level)} | 1 <= level <= x.last
      ensures Holds(c, v, LayerFor(c, x, level), PlanRows(c, x, rows[j := r], level))
    {
      PlanUpdated(c, x, rows, j, r, level);
      assert Holds(c, t, LayerFor(c, x, level), PlanRows(c, x, rows, level));
      if level == own {
        HoldsRow(c, t, v, LayerFor(c, x, level), PlanRows(c, x, rows, level), SlotIn(x, j), r);
      } else {
        LayersApart(c, x.base, own - 1, level - 1);
        SpansApart(LayerFor(c, x, level), c.LayerBits(), LayerFor(c, x, own), c.LayerBits());
        HoldsKept(c, t, v, Span(LayerFor(c, x, own), c.LayerBits()), LayerFor(c, x, level), PlanRows(c, x, rows, level));
      }
    }
  }

  /** The bits of a target have been replaced, and no others. */
  ghost predicate TargetReplaced(u: Space, m: B.Memory, now: B.Memory, d: S.Target, n: nat, src: nat)
    requires d.Into? && src + n <= |u|
  {
    && (forall p: nat {:trigger B.Data(p)} :: B.Read(now, B.Data(p)) == B.Read(m, B.Data(p)))
    && forall i: nat, f, k: nat {:trigger B.Home(i, f, k)} ::
         B.Read(now, B.Home(i, f, k)) == if OnTarget(d, n, i, f, k) then u[src + (k - d.off)] else B.Read(m, B.Home(i, f, k))
  }

  predicate OnTarget(d: S.Target, n: nat, i: nat, f: S.FieldName, k: nat) {
    d.Into? && i == d.node && f == d.field && d.off <= k < d.off + n
  }

  lemma PatchBitsAre(c: Config, x: Plan, u: Space, data: B.Memory, rows: B.Memory, m: B.Memory, j: nat)
    requires c.Valid() && |x.levels| == |x.nodes| && WellPlanned(x) && j < |x.nodes| && x.nodes[j].dst.Into? && DataShown(c, x, u, data)
    requires Proper(c, x, |u|, RowIn(c, x, rows, j), j)
    ensures var row := RowIn(c, x, rows, j);
      TargetReplaced(u, m, m + B.Effect(Blocked(c, x), rows, data, j), x.nodes[j].dst, row.n, row.src)
  {
    hide B.Effect, B.Number, B.Read, HomeAt, LayerAt;
    var y, row, d := Blocked(c, x), RowIn(c, x, rows, j), x.nodes[j].dst;
    var now := m + B.Effect(y, rows, data, j);
    EffectBits(y, m, rows, data, j);
    assert x.nodes[j].src.At?;
    forall i: nat, f, k: nat {:trigger B.Home(i, f, k)}
      ensures B.Read(now, B.Home(i, f, k)) == if OnTarget(d, row.n, i, f, k) then u[row.src + (k - d.off)] else B.Read(m, B.Home(i, f, k))
    {
      if OnTarget(d, row.n, i, f, k) {
        var h := k - d.off;
        assert B.Dest(y, rows, j, h) == B.Home(i, f, k) && B.Origin(y, rows, j, h) == B.Data(row.src + h);
        assert InPlan(c, x, row.src + h, 1);
      }
    }
  }

  /** What a patch does to the rows in their homes. */
  lemma PatchChangesRows(c: Config, x: Plan, u: Space, m: B.Memory, now: B.Memory, d: S.Target, n: nat, src: nat)
    requires c.Valid() && |x.levels| == |x.nodes| && d.Into? && d.node <= |x.nodes| && src + n <= |u| && d.off + n <= FieldBits(c, d.field)
    requires d.field == S.DstField && d.node < |x.nodes| ==> x.nodes[d.node].dst.At?
    requires TargetReplaced(u, m, now, d, n, src)
    ensures var before := RowsOf(c, x, m);
      RowsOf(c, x, now) == before[d.node := SetField(before[d.node], d.field, d.off, n, Val(u, src, n))]
  {
    hide B.Number, B.Read, HomeAt, Val, Replace, TargetReplaced;
    forall i | 0 <= i <= |x.nodes|
      ensures RowIn(c, x, now, i) == RowsOf(c, x, m)[d.node := SetField(RowIn(c, x, m, d.node), d.field, d.off, n, Val(u, src, n))][i]
    {
      FieldBecomes(c, u, m, now, d, n, src, i, S.CountField);
      FieldBecomes(c, u, m, now, d, n, src, i, S.DstField);
      FieldBecomes(c, u, m, now, d, n, src, i, S.SrcField);
    }
  }

  lemma FieldBecomes(c: Config, u: Space, m: B.Memory, now: B.Memory, d: S.Target, n: nat, src: nat, i: nat, f: S.FieldName)
    requires c.Valid() && d.Into? && src + n <= |u| && d.off + n <= FieldBits(c, d.field) && TargetReplaced(u, m, now, d, n, src)
    ensures B.Number(now, i, f, FieldBits(c, f)) ==
      if i == d.node && f == d.field then Replace(B.Number(m, i, f, FieldBits(c, f)), d.off, n, Val(u, src, n)) else B.Number(m, i, f, FieldBits(c, f))
  {
    hide B.Read, Val, Replace, B.Number;
    if i == d.node && f == d.field {
      HomePut(m, now, i, f, FieldBits(c, f), d.off, n, u, src);
    } else {
      B.NumberSame(now, m, i, f, FieldBits(c, f));
    }
  }

  /** A patch in bulk: it goes to the home of its target. */
  lemma PatchCommits(c: Config, x: Plan, u: Space, data: B.Memory, rows: B.Memory, t: Space, m: B.Memory, j: nat) returns (v: Space)
    requires c.Valid() && Planned(c, x) && WellPlanned(x) && j < |x.nodes| && x.nodes[j].dst.Into? && |t| == |u|
    requires DataShown(c, x, u, data) && DataShown(c, x, t, m) && HomesShown(c, x, t, RowsOf(c, x, m))
    requires var row := RowIn(c, x, rows, j); row.n > 0 && Proper(c, x, |u|, row, j)
    ensures CommitRow(t, u, RowIn(c, x, rows, j)) == Some(v)
    ensures var now := m + B.Effect(Blocked(c, x), rows, data, j); DataShown(c, x, v, now) && HomesShown(c, x, v, RowsOf(c, x, now))
  {
    hide B.Effect, B.Number, B.Read, Overlay, LayerAt, Val, Replace, RowBitsAt, TargetReplaced, Span, Same, HomesShown, SetField, RowsOf;
    var row, d := RowIn(c, x, rows, j), x.nodes[j].dst;
    var now := m + B.Effect(Blocked(c, x), rows, data, j);
    var home := HomeAt(c, x, d.node);
    HomeIn(c, x, d.node);
    PlanSize(c, x, t, RowsOf(c, x, m));
    FieldInRow(c, d.field);
    v := Overlay(t, row.dst, u[row.src..row.src + row.n]);
    PatchBitsAre(c, x, u, data, rows, m, j);
    PatchChangesRows(c, x, u, m, now, d, row.n, row.src);
    OverlayField(c, u, t, v, home, d.field, d.off, row.n, row.src);
    var r := SetField(RowBitsAt(c, t, home), d.field, d.off, row.n, Val(u, row.src, row.n));
    HomeRow(c, x, t, RowsOf(c, x, m), d.node);
    HomeChanged(c, x, t, v, RowsOf(c, x, m), d.node, r);
    LayersShow(c, x, u, t, v, m, now, d, row.n, row.src, home);
  }

  lemma PlanSize(c: Config, x: Plan, t: Space, rows: seq<Row>)
    requires c.Valid() && |x.levels| == |x.nodes| && |rows| == |x.nodes| + 1 && HomesShown(c, x, t, rows)
    ensures LayerAt(c, x.base, x.last) <= |t|
  {
  }

  lemma FieldInRow(c: Config, f: S.FieldName)
    requires c.Valid()
    ensures FieldOffset(c, f) + FieldBits(c, f) <= c.RowBits()
  {
  }

  /** The row in its home. */
  lemma HomeRow(c: Config, x: Plan, t: Space, rows: seq<Row>, j: nat)
    requires c.Valid() && Planned(c, x) && |rows| == |x.nodes| + 1 && HomesShown(c, x, t, rows) && j <= |x.nodes|
    ensures HomeAt(c, x, j) + c.RowBits() <= |t| && RowBitsAt(c, t, HomeAt(c, x, j)) == rows[j]
  {
    hide LayerAt, RowBitsAt, RowAt, c.Offset;
    HomeIn(c, x, j);
    PlanUpdated(c, x, rows, j, rows[j], LevelFor(x, j));
    var level := LevelFor(x, j);
    assert rows[j := rows[j]] == rows;
    assert Holds(c, t, LayerFor(c, x, level), PlanRows(c, x, rows, level));
    HeldRow(c, t, LayerFor(c, x, level), SlotIn(x, j));
    assert PlanRows(c, x, rows, level)[SlotIn(x, j)] == rows[j];
  }

  lemma OverlayField(c: Config, u: Space, t: Space, v: Space, home: nat, f: S.FieldName, off: nat, n: nat, src: nat)
    requires c.Valid() && home + c.RowBits() <= |t| && off + n <= FieldBits(c, f) && src + n <= |u|
    requires FieldOffset(c, f) + FieldBits(c, f) <= c.RowBits()
    requires v == Overlay(t, home + FieldOffset(c, f) + off, u[src..src + n])
    ensures Same(t, v, Span(home, c.RowBits())) && RowBitsAt(c, v, home) == SetField(RowBitsAt(c, t, home), f, off, n, Val(u, src, n))
  {
    hide Val, Replace, RowBitsAt, SetField;
    var at := home + FieldOffset(c, f) + off;
    assert Same(t, v, Span(at, n));
    ValMove(u, src, v, at, n);
    SpanInside(home, c.RowBits(), at, n);
    SpanSame(t, v, Span(at, n), Span(home, c.RowBits()));
    RowWritten(c, t, v, home, f, off, n, Val(u, src, n));
  }

  /** A change in the layers is no change of the data. */
  lemma LayersShow(c: Config, x: Plan, u: Space, t: Space, v: Space, m: B.Memory, now: B.Memory, d: S.Target, n: nat, src: nat, home: nat)
    requires c.Valid() && DataShown(c, x, t, m) && d.Into? && src + n <= |u| && TargetReplaced(u, m, now, d, n, src)
    requires x.base <= home && home + c.RowBits() <= LayerAt(c, x.base, x.last) && Same(t, v, Span(home, c.RowBits()))
    ensures DataShown(c, x, v, now)
  {
    hide LayerAt, B.Read;
    forall p: nat {:trigger v[p]} {:trigger B.Data(p)} | p < |v| && InPlan(c, x, p, 1) ensures v[p] == B.Read(now, B.Data(p)) {
      assert p !in Span(home, c.RowBits());
      assert t[p] == B.Read(m, B.Data(p));
    }
  }

  // ---- A tick.

  /** Data and layers as in a memory of the bulk machine. */
  ghost predicate InPlace(c: Config, x: Plan, u: Space, m: B.Memory)
    requires c.Valid() && |x.levels| == |x.nodes|
  {
    DataShown(c, x, u, m) && HomesShown(c, x, u, RowsOf(c, x, m))
  }

  /** The processor holds a level, with rows as in a memory of the bulk machine. */
  ghost predicate LevelLoaded(c: Config, x: Plan, u: Space, m: B.Memory, level: nat)
    requires c.Valid() && |x.levels| == |x.nodes|
  {
    Holds(c, u, 0, PlanRows(c, x, RowsOf(c, x, m), level))
  }

  ghost predicate LevelProper(c: Config, x: Plan, size: nat, m: B.Memory, level: nat)
    requires c.Valid() && |x.levels| == |x.nodes|
  {
    forall j {:trigger x.levels[j]} | 0 <= j < |x.nodes| && x.levels[j] == level :: RowIn(c, x, m, j).n == 0 || Proper(c, x, size, RowIn(c, x, m, j), j)
  }

  /** One node of the level. */
  lemma NodeCommits(c: Config, x: Plan, u: Space, data: B.Memory, rows: B.Memory, t: Space, m: B.Memory, j: nat) returns (v: Space)
    requires c.Valid() && Planned(c, x) && WellPlanned(x) && j < |x.nodes| && |t| == |u| && DataShown(c, x, u, data) && InPlace(c, x, t, m)
    requires RowIn(c, x, rows, j).n == 0 || Proper(c, x, |u|, RowIn(c, x, rows, j), j)
    ensures CommitRow(t, u, RowIn(c, x, rows, j)) == Some(v) && InPlace(c, x, v, m + B.Effect(Blocked(c, x), rows, data, j))
  {
    hide DataShown, HomesShown, RowsOf, RowIn, Proper, CommitRow, B.Effect, Planned;
    PlanCounts(c, x);
    if RowIn(c, x, rows, j).n == 0 {
      v := t;
      NothingCommits(c, x, u, data, rows, t, m, j);
    } else if x.nodes[j].dst.At? {
      v := CopyCommits(c, x, u, data, rows, t, m, j);
    } else {
      v := PatchCommits(c, x, u, data, rows, t, m, j);
    }
  }

  lemma PlanCounts(c: Config, x: Plan)
    requires c.Valid() && Planned(c, x)
    ensures |x.levels| == |x.nodes| && x.last > 0 && c.LayerBits() <= x.base
  {
  }

  lemma NothingCommits(c: Config, x: Plan, u: Space, data: B.Memory, rows: B.Memory, t: Space, m: B.Memory, j: nat)
    requires c.Valid() && |x.levels| == |x.nodes| && j < |x.nodes| && |t| == |u| && RowIn(c, x, rows, j).n == 0
    ensures CommitRow(t, u, RowIn(c, x, rows, j)) == Some(t) && m + B.Effect(Blocked(c, x), rows, data, j) == m
  {
    assert B.Effect(Blocked(c, x), rows, data, j) == map[];
  }

  /** The nodes of a level among the first k, in the slots they take. */
  lemma {:induction false} LevelCommits(c: Config, x: Plan, u: Space, data: B.Memory, rows: B.Memory, level: nat, k: nat) returns (t: Space)
    requires c.Valid() && Planned(c, x) && WellPlanned(x) && k <= |x.nodes| && c.LayerBits() <= |u|
    requires InPlace(c, x, u, data) && LevelLoaded(c, x, u, rows, level) && LevelProper(c, x, |u|, rows, level)
    ensures InLevel(x.levels, level, k) <= P.LINK
    ensures Commits(c, u, InLevel(x.levels, level, k)) == Some(t) && InPlace(c, x, t, B.Commit(Blocked(c, x), x.levels, level, rows, data, k))
  {
    hide DataShown, HomesShown, RowsOf, RowIn, Proper, CommitRow, B.Effect, Planned, Holds, LayerAt, WellPlanned, NodeFor, RowAt;
    PlanCounts(c, x);
    LevelFits(c, x, level, k);
    if k == 0 {
      t := u;
    } else {
      t := LevelCommits(c, x, u, data, rows, level, k - 1);
      if x.levels[k - 1] == level {
        RowLoaded(c, x, u, rows, level, k - 1);
        ShownData(c, x, u, data);
        t := NodeCommits(c, x, u, data, rows, t, B.Commit(Blocked(c, x), x.levels, level, rows, data, k - 1), k - 1);
      }
    }
  }

  lemma ShownData(c: Config, x: Plan, u: Space, m: B.Memory)
    requires c.Valid() && |x.levels| == |x.nodes| && InPlace(c, x, u, m)
    ensures DataShown(c, x, u, m) && HomesShown(c, x, u, RowsOf(c, x, m)) && LayerAt(c, x.base, x.last) <= |u|
  {
  }

  lemma LevelFits(c: Config, x: Plan, level: nat, k: nat)
    requires c.Valid() && Planned(c, x) && k <= |x.nodes|
    ensures InLevel(x.levels, level, k) <= P.LINK
  {
    InLevelGrows(x.levels, level, k, |x.nodes|);
    assert InLevel(x.levels, level, |x.nodes|) <= P.LINK;
  }

  /** The row of a node in the processor. */
  lemma RowLoaded(c: Config, x: Plan, u: Space, m: B.Memory, level: nat, j: nat)
    requires c.Valid() && Planned(c, x) && LevelLoaded(c, x, u, m, level) && j < |x.nodes| && x.levels[j] == level
    ensures c.LayerBits() <= |u| && InLevel(x.levels, level, j) < P.LINK && RowAt(c, u, 0, InLevel(x.levels, level, j)) == RowIn(c, x, m, j)
  {
    hide RowAt, RowIn, LayerAt;
    SlotLow(c, x, j);
    NodeForIs(x.levels, level, |x.nodes|, j);
    var rows := PlanRows(c, x, RowsOf(c, x, m), level);
    assert rows[InLevel(x.levels, level, j)] == RowIn(c, x, m, j);
  }

  /** The slots behind them are empty. */
  lemma {:induction false} EmptySlots(c: Config, x: Plan, u: Space, m: B.Memory, level: nat, slot: nat, t: Space)
    requires c.Valid() && Planned(c, x) && LevelLoaded(c, x, u, m, level) && c.LayerBits() <= |u|
    requires InLevel(x.levels, level, |x.nodes|) <= slot <= P.LINK && Commits(c, u, InLevel(x.levels, level, |x.nodes|)) == Some(t)
    ensures Commits(c, u, slot) == Some(t)
    decreases slot
  {
    hide RowAt, RowIn, LayerAt, RowsOf;
    if slot > InLevel(x.levels, level, |x.nodes|) {
      EmptySlots(c, x, u, m, level, slot - 1, t);
      NodeForNone(x.levels, level, slot - 1, |x.nodes|);
      var rows := PlanRows(c, x, RowsOf(c, x, m), level);
      assert rows[slot - 1] == NOP;
    }
  }

  /** All slots in front of the link. */
  lemma LevelRuns(c: Config, x: Plan, u: Space, data: B.Memory, rows: B.Memory, level: nat) returns (t: Space)
    requires c.Valid() && Planned(c, x) && WellPlanned(x) && c.LayerBits() <= |u|
    requires InPlace(c, x, u, data) && LevelLoaded(c, x, u, rows, level) && LevelProper(c, x, |u|, rows, level)
    ensures Commits(c, u, P.LINK) == Some(t) && InPlace(c, x, t, B.Commit(Blocked(c, x), x.levels, level, rows, data, |x.nodes|))
  {
    hide InPlace, LevelLoaded, LevelProper, Commits, Planned, WellPlanned, B.Commit, InLevel;
    PlanCounts(c, x);
    t := LevelCommits(c, x, u, data, rows, level, |x.nodes|);
    EmptySlots(c, x, u, rows, level, P.LINK, t);
  }

  /** The link: the next level as it lay in its place when the tick began. */
  lemma LinkCommits(c: Config, x: Plan, u: Space, data: B.Memory, rows: B.Memory, level: nat, t: Space, m: B.Memory) returns (v: Space)
    requires c.Valid() && Planned(c, x) && 1 <= level < x.last && |t| == |u| && c.LayerBits() <= |u|
    requires InPlace(c, x, u, data) && LevelLoaded(c, x, u, rows, level) && Commits(c, u, P.LINK) == Some(t) && InPlace(c, x, t, m)
    ensures Commits(c, u, SLOTS) == Some(v) && InPlace(c, x, v, m) && LevelLoaded(c, x, v, data, level + 1)
  {
    hide RowAt, RowIn, LayerAt, RowsOf, Overlay, B.Read;
    ShownData(c, x, u, data);
    LayerInside(c, x.base, level, x.last);
    var home := LayerFor(c, x, level + 1);
    assert PlanRows(c, x, RowsOf(c, x, rows), level)[P.LINK] == Row(c.LayerBits(), 0, home);
    v := Overlay(t, 0, u[home..home + c.LayerBits()]);
    LinkCommitted(c, u, t, home, v);
    LoadedThere(c, x, u, t, home, data, level + 1, v);
    ProcessorApart(c, x, t, v, m, u[home..home + c.LayerBits()]);
  }

  lemma LinkCommitted(c: Config, u: Space, t: Space, home: nat, v: Space)
    requires c.Valid() && |t| == |u| && c.LayerBits() <= home && home + c.LayerBits() <= |u| && Commits(c, u, P.LINK) == Some(t)
    requires RowAt(c, u, 0, P.LINK) == Row(c.LayerBits(), 0, home) && v == Overlay(t, 0, u[home..home + c.LayerBits()])
    ensures Commits(c, u, SLOTS) == Some(v)
  {
    hide RowAt;
    OffsetIsProduct(c, SLOTS);
  }

  lemma LoadedThere(c: Config, x: Plan, u: Space, t: Space, home: nat, m: B.Memory, level: nat, v: Space)
    requires c.Valid() && |x.levels| == |x.nodes| && 1 <= level <= x.last && home == LayerFor(c, x, level) && home + c.LayerBits() <= |u| == |t|
    requires HomesShown(c, x, u, RowsOf(c, x, m)) && c.LayerBits() <= |t| && v == Overlay(t, 0, u[home..home + c.LayerBits()])
    ensures LevelLoaded(c, x, v, m, level)
  {
    hide RowAt, RowIn, LayerAt, RowsOf, Overlay;
    var rows := PlanRows(c, x, RowsOf(c, x, m), level);
    assert Holds(c, u, home, rows);
    forall slot {:trigger rows[slot]} | 0 <= slot < SLOTS ensures RowAt(c, v, 0, slot) == rows[slot] {
      RowCopied(c, u, t, home, v, slot);
    }
  }

  lemma RowCopied(c: Config, u: Space, t: Space, home: nat, v: Space, slot: nat)
    requires c.Valid() && slot < SLOTS && home + c.LayerBits() <= |u| == |t| && c.LayerBits() <= |t| && v == Overlay(t, 0, u[home..home + c.LayerBits()])
    ensures RowAt(c, v, 0, slot) == RowAt(c, u, home, slot)
  {
    SlotInLayer(c, 0, slot);
    SlotInLayer(c, home, slot);
    SlotShift(c, home, slot);
    RowFrame(c, v, 0, u, home, slot);
  }

  /** What is written over the processor is neither data nor a layer. */
  lemma ProcessorApart(c: Config, x: Plan, t: Space, v: Space, m: B.Memory, bits: Space)
    requires c.Valid() && |x.levels| == |x.nodes| && c.LayerBits() <= x.base && InPlace(c, x, t, m)
    requires |bits| == c.LayerBits() <= |t| && v == Overlay(t, 0, bits)
    ensures InPlace(c, x, v, m)
  {
    var rows := RowsOf(c, x, m);
    assert Same(t, v, Span(0, c.LayerBits()));
    hide Same, Span, Holds, LayerAt, B.Read, RowsOf, Overlay;
    forall level: nat {:trigger PlanRows(c, x, rows, level)} | 1 <= level <= x.last ensures Holds(c, v, LayerFor(c, x, level), PlanRows(c, x, rows, level)) {
      BaseInside(c, x.base, level - 1);
      SpansApart(LayerFor(c, x, level), c.LayerBits(), 0, c.LayerBits());
      HoldsKept(c, t, v, Span(0, c.LayerBits()), LayerFor(c, x, level), PlanRows(c, x, rows, level));
    }
    forall p: nat {:trigger v[p]} {:trigger B.Data(p)} | p < |v| && InPlan(c, x, p, 1) ensures v[p] == B.Read(m, B.Data(p)) {
      assert t[p] == B.Read(m, B.Data(p));
    }
  }

  // ---- All ticks.

  /** So many ticks of the machine. */
  function BulkTicks(c: Config, u: Space, k: nat): (v: Option<Space>)
    requires c.Valid() && c.LayerBits() <= |u|
    ensures v.Some? ==> |v.value| == |u|
  {
    if k == 0 then Some(u)
    else match BulkTicks(c, u, k - 1)
      case None => None
      case Some(w) => Commits(c, w, SLOTS)
  }

  /** The rows of the tick behind so many are those that lay in memory one tick before. */
  function Ahead(t: nat): nat {
    if t == 0 then 0 else t - 1
  }

  /** The machine before a tick: data and layers as after t ticks of Bulk, the processor loaded one tick ahead. */
  ghost predicate AtTick(c: Config, x: Plan, u: Space, m: B.Memory, t: nat)
    requires c.Valid() && |x.levels| == |x.nodes|
  {
    && c.LayerBits() <= |u| && InPlace(c, x, u, B.After(Blocked(c, x), m, x.levels, t))
    && LevelLoaded(c, x, u, B.After(Blocked(c, x), m, x.levels, Ahead(t)), t + 1)
  }

  /** Every node is sound with the row it has when the nodes are executed one after another. */
  ghost predicate AllProper(c: Config, x: Plan, size: nat, m: B.Memory)
    requires c.Valid() && |x.levels| == |x.nodes|
  {
    forall j {:trigger x.nodes[j]} | 0 <= j < |x.nodes| ::
      var row := RowIn(c, x, B.State(Blocked(c, x), m, j), j);
      row.n == 0 || Proper(c, x, size, row, j)
  }

  /** In bulk a node has the same row. */
  lemma RowsFound(c: Config, x: Plan, m: B.Memory, j: nat)
    requires c.Valid() && |x.levels| == |x.nodes| && j < |x.nodes| && B.Respects(Blocked(c, x), m, x.levels) && x.levels[j] >= 1
    ensures RowIn(c, x, B.After(Blocked(c, x), m, x.levels, Ahead(x.levels[j] - 1)), j) == RowIn(c, x, B.State(Blocked(c, x), m, j), j)
  {
    hide B.Respects, B.UpToDate, B.After, B.State, B.Number, B.Read, HomeAt;
    var y, ticks := Blocked(c, x), Ahead(x.levels[j] - 1);
    B.AlwaysUpToDate(y, m, x.levels, ticks);
    forall f, k: nat {:trigger B.Home(j, f, k)}
      ensures B.Read(B.After(y, m, x.levels, ticks), B.Home(j, f, k)) == B.Read(B.State(y, m, j), B.Home(j, f, k))
    {
      B.RowFound(y, m, x.levels, j, B.Home(j, f, k));
    }
    B.NumberSame(B.After(y, m, x.levels, ticks), B.State(y, m, j), j, S.CountField, c.ab - 1);
    B.NumberSame(B.After(y, m, x.levels, ticks), B.State(y, m, j), j, S.DstField, c.ab);
    B.NumberSame(B.After(y, m, x.levels, ticks), B.State(y, m, j), j, S.SrcField, c.ab);
  }

  lemma LevelIsProper(c: Config, x: Plan, size: nat, m: B.Memory, t: nat)
    requires c.Valid() && Planned(c, x) && B.Respects(Blocked(c, x), m, x.levels) && AllProper(c, x, size, m)
    ensures LevelProper(c, x, size, B.After(Blocked(c, x), m, x.levels, Ahead(t)), t + 1)
  {
    hide B.Respects, B.After, B.State, Proper, RowIn, InLevel;
    forall j {:trigger x.levels[j]} | 0 <= j < |x.nodes| && x.levels[j] == t + 1
      ensures var row := RowIn(c, x, B.After(Blocked(c, x), m, x.levels, Ahead(t)), j); row.n == 0 || Proper(c, x, size, row, j)
    {
      RowsFound(c, x, m, j);
      assert x.nodes[j] == x.nodes[j];
    }
  }

  /** A tick of the machine in front of its link is a tick of Bulk. */
  lemma TickRuns(c: Config, x: Plan, u: Space, m: B.Memory, t: nat) returns (w: Space)
    requires c.Valid() && Planned(c, x) && WellPlanned(x) && B.Respects(Blocked(c, x), m, x.levels) && AllProper(c, x, |u|, m)
    requires AtTick(c, x, u, m, t) && t < x.last
    ensures c.LayerBits() <= |u| && Commits(c, u, P.LINK) == Some(w)
    ensures InPlace(c, x, w, B.After(Blocked(c, x), m, x.levels, t + 1))
  {
    hide Planned, WellPlanned, B.Respects, AllProper, B.State, InPlace, LevelLoaded, LevelProper, Commits, B.Commit;
    PlanCounts(c, x);
    LevelIsProper(c, x, |u|, m, t);
    var y := Blocked(c, x);
    w := LevelRuns(c, x, u, B.After(y, m, x.levels, t), B.After(y, m, x.levels, Ahead(t)), t + 1);
  }

  lemma {:induction false} TicksRun(c: Config, x: Plan, u: Space, m: B.Memory, t: nat) returns (v: Space)
    requires c.Valid() && Planned(c, x) && WellPlanned(x) && B.Respects(Blocked(c, x), m, x.levels) && AllProper(c, x, |u|, m)
    requires AtTick(c, x, u, m, 0) && t < x.last
    ensures c.LayerBits() <= |u| && BulkTicks(c, u, t) == Some(v) && AtTick(c, x, v, m, t)
  {
    hide Planned, WellPlanned, B.Respects, AllProper, B.After, InPlace, LevelLoaded, Commits;
    PlanCounts(c, x);
    if t == 0 {
      v := u;
    } else {
      var w := TicksRun(c, x, u, m, t - 1);
      var d := TickRuns(c, x, w, m, t - 1);
      v := LinkCommits(c, x, w, B.After(Blocked(c, x), m, x.levels, t - 1), B.After(Blocked(c, x), m, x.levels, Ahead(t - 1)), t, d,
                       B.After(Blocked(c, x), m, x.levels, t));
    }
  }

  /**
   * A scheduled block at bit addresses: after last - 1 ticks and the slots of another one in front of its link, the data are those
   * that the nodes leave one after another, and the last slot holds the terminator as they have patched it.
   */
  lemma BulkAtAddresses(c: Config, x: Plan, u: Space, m: B.Memory) returns (v: Space, w: Space)
    requires c.Valid() && Planned(c, x) && WellPlanned(x) && AtTick(c, x, u, m, 0)
    requires Schedulable(x.nodes, x.levels, x.last) && V.Initial(Blocked(c, x), m) && AllProper(c, x, |u|, m)
    ensures c.LayerBits() <= |u| && BulkTicks(c, u, x.last - 1) == Some(v) && Commits(c, v, P.LINK) == Some(w)
    ensures DataShown(c, x, w, B.State(Blocked(c, x), m, |x.nodes|)) && DataShown(c, x, w, B.After(Blocked(c, x), m, x.levels, x.last))
    ensures S.TermLevel(x.nodes, x.levels, x.last) ==> RowAt(c, v, 0, P.LINK) == RowIn(c, x, B.State(Blocked(c, x), m, |x.nodes|), |x.nodes|)
  {
    hide Planned, WellPlanned, B.Respects, AllProper, B.After, B.State, V.Initial, V.PlainPatches, V.Foreseen, V.ReadsFirst, S.Ordered, S.Tight, S.Reached, S.TermLevel,
      Commits, AtTick, B.Read, RowIn, RowAt;
    PlanCounts(c, x);
    var y := Blocked(c, x);
    V.LevelsRespect(y, m, x.levels);
    v := TicksRun(c, x, u, m, x.last - 1);
    w := TickRuns(c, x, v, m, x.last - 1);
    ShownData(c, x, w, B.After(y, m, x.levels, x.last));
    forall p: nat ensures B.Read(B.After(y, m, x.levels, x.last), B.Data(p)) == B.Read(B.State(y, m, |x.nodes|), B.Data(p)) {
      V.ScheduledBlock(y, m, x.levels, x.last, B.Data(p));
    }
    SameShown(c, x, w, B.After(y, m, x.levels, x.last), B.State(y, m, |x.nodes|));
    TermLoaded(c, x, v, m);
    if S.TermLevel(x.nodes, x.levels, x.last) {
      TermFinal(c, x, m);
    }
  }

  lemma SameShown(c: Config, x: Plan, w: Space, m: B.Memory, n: B.Memory)
    requires c.Valid() && DataShown(c, x, w, m) && forall p: nat :: B.Read(m, B.Data(p)) == B.Read(n, B.Data(p))
    ensures DataShown(c, x, w, n)
  {
    hide B.Read;
  }

  lemma TermLoaded(c: Config, x: Plan, v: Space, m: B.Memory)
    requires c.Valid() && |x.levels| == |x.nodes| && x.last > 0 && AtTick(c, x, v, m, x.last - 1)
    ensures c.LayerBits() <= |v| && RowAt(c, v, 0, P.LINK) == RowIn(c, x, B.After(Blocked(c, x), m, x.levels, Ahead(x.last - 1)), |x.nodes|)
  {
    hide B.After, RowIn, RowAt;
    var rows := PlanRows(c, x, RowsOf(c, x, B.After(Blocked(c, x), m, x.levels, Ahead(x.last - 1))), x.last);
    assert rows[P.LINK] == RowIn(c, x, B.After(Blocked(c, x), m, x.levels, Ahead(x.last - 1)), |x.nodes|);
  }

  /** A tick leaves the homes of a node that none of its nodes patches. */
  lemma {:induction false} CommitSpares(y: B.Block, levels: seq<nat>, level: nat, rows: B.Memory, data: B.Memory, k: nat, at: B.Loc)
    requires |levels| == |y.ops| && k <= |y.ops| && at.Home?
    requires forall j {:trigger y.ops[j]} | 0 <= j < |y.ops| && levels[j] == level :: !S.Patches(y.ops[j], at.node)
    ensures B.Read(B.Commit(y, levels, level, rows, data, k), at) == B.Read(data, at)
  {
    if k > 0 {
      CommitSpares(y, levels, level, rows, data, k - 1, at);
      if levels[k - 1] == level && at in B.Effect(y, rows, data, k - 1) {
        V.FirstBitsInto(y, rows, data, k - 1, B.Count(y, rows, k - 1), at);
        assert false;
      }
    }
  }

  /** The terminator is not patched in the last two ticks. */
  lemma TermFinal(c: Config, x: Plan, m: B.Memory)
    requires c.Valid() && |x.levels| == |x.nodes| && x.last > 0 && S.TermLevel(x.nodes, x.levels, x.last)
    requires Schedulable(x.nodes, x.levels, x.last) && V.Initial(Blocked(c, x), m)
    ensures RowIn(c, x, B.After(Blocked(c, x), m, x.levels, Ahead(x.last - 1)), |x.nodes|) == RowIn(c, x, B.State(Blocked(c, x), m, |x.nodes|), |x.nodes|)
  {
    hide B.State, B.Number, B.Read, V.Initial, V.PlainPatches, V.Foreseen, V.ReadsFirst, S.Ordered, S.Tight, S.Reached, HomeAt;
    var y, n := Blocked(c, x), |x.nodes|;
    var early, end := B.After(y, m, x.levels, Ahead(x.last - 1)), B.State(y, m, n);
    forall f, k: nat {:trigger B.Home(n, f, k)} ensures B.Read(early, B.Home(n, f, k)) == B.Read(end, B.Home(n, f, k)) {
      LastTicks(c, x, m, f, k);
      V.ScheduledBlock(y, m, x.levels, x.last, B.Home(n, f, k));
    }
    B.NumberSame(early, end, n, S.CountField, c.ab - 1);
    B.NumberSame(early, end, n, S.DstField, c.ab);
    B.NumberSame(early, end, n, S.SrcField, c.ab);
  }

  lemma LastTicks(c: Config, x: Plan, m: B.Memory, f: S.FieldName, k: nat)
    requires c.Valid() && |x.levels| == |x.nodes| && x.last > 0 && S.TermLevel(x.nodes, x.levels, x.last)
    ensures var y, at := Blocked(c, x), B.Home(|x.nodes|, f, k);
      B.Read(B.After(y, m, x.levels, x.last), at) == B.Read(B.After(y, m, x.levels, Ahead(x.last - 1)), at)
  {
    hide B.Read, B.Commit;
    var y, at, n := Blocked(c, x), B.Home(|x.nodes|, f, k), |x.nodes|;
    CommitSpares(y, x.levels, x.last, B.After(y, m, x.levels, Ahead(x.last - 1)), B.After(y, m, x.levels, x.last - 1), n, at);
    if x.last > 1 {
      CommitSpares(y, x.levels, x.last - 1, B.After(y, m, x.levels, Ahead(x.last - 2)), B.After(y, m, x.levels, x.last - 2), n, at);
    }
  }
}
