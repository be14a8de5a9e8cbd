/**
 * The layer-by-layer emitter. Generators produce chunks (operations that must share a layer), labels
 * and branches; the emitter fills layers, starting a new one whenever the next chunk does not fit.
 * Control that the generators see as a list of items is the control of the emitted program, wherever
 * the layer boundaries happen to fall.
 */
module Emission {
  import opened Bits
  import opened Machine
  import opened Layers
  import opened Programs

  const BRANCH_TABLE: nat := 60032

  datatype Item =
    | Straight(chunks: seq<seq<Op>>)
    | Bind(tag: nat)
    | Mark(tag: nat)
    | Goto(tag: nat, flag: nat, inverted: bool)
    | Leap(tag: nat)

  /** The item that a jump to the label leads behind. Bind starts a layer in any case, Mark only if the open one is in use. */
  predicate Landmark(item: Item, tag: nat) {
    item == Bind(tag) || item == Mark(tag)
  }

  /** The emitter: finished layers, the operations of the open one, branches so far, bound labels. */
  datatype Builder = Builder(done: seq<Layer>, cur: seq<Op>, jumps: nat, labels: map<nat, nat>)

  function SlotOfBuilder(c: Config, b: Builder): nat
    requires c.Valid()
  {
    FIRST + |OpsRows(c, b.cur)|
  }

  function Pos(b: Builder): Point {
    Point(|b.done|, |b.cur|)
  }

  function Close(b: Builder, exit: Exit): Builder {
    b.(done := b.done + [Layer(b.cur, exit)], cur := [])
  }

  function RowCount(ops: seq<Op>): nat {
    if ops == [] then 0 else RowCount(ops[..|ops| - 1]) + |ops[|ops| - 1].patches| + 1
  }

  /** Start a new layer unless count more rows fit in front of the link. */
  function Room(c: Config, b: Builder, count: nat): Builder
    requires c.Valid()
  {
    if SlotOfBuilder(c, b) + count <= LINK then b else Close(b, Next)
  }

  function EmitChunk(c: Config, b: Builder, ops: seq<Op>): Builder
    requires c.Valid()
  {
    var r := Room(c, b, RowCount(ops));
    r.(cur := r.cur + ops)
  }

  function EmitChunks(c: Config, b: Builder, chunks: seq<seq<Op>>): Builder
    requires c.Valid()
  {
    if chunks == [] then b
    else EmitChunk(c, EmitChunks(c, b, chunks[..|chunks| - 1]), chunks[|chunks| - 1])
  }

  function Flat(chunks: seq<seq<Op>>): seq<Op> {
    if chunks == [] then [] else Flat(chunks[..|chunks| - 1]) + chunks[|chunks| - 1]
  }

  function EmitItem(c: Config, b: Builder, item: Item): Builder
    requires c.Valid()
  {
    match item
    case Straight(chunks) => EmitChunks(c, b, chunks)
    case Bind(tag) =>
      var r := Close(b, Next);
      r.(labels := r.labels[tag := |r.done|])
    case Mark(tag) =>
      var r := if b.cur == [] then b else Close(b, Next);
      r.(labels := r.labels[tag := |r.done|])
    case Goto(tag, flag, inverted) =>
      var r := Room(c, b, 2);
      Close(r, Branch(flag, BRANCH_TABLE + 64 * r.jumps, tag, inverted)).(jumps := r.jumps + 1)
    case Leap(tag) => Close(b, Jump(tag)).(jumps := b.jumps + 1)
  }

  function Emit(c: Config, b: Builder, items: seq<Item>): Builder
    requires c.Valid()
  {
    if items == [] then b
    else EmitItem(c, Emit(c, b, items[..|items| - 1]), items[|items| - 1])
  }

  /** The finished program contains everything the builder has emitted. */
  ghost predicate Contains(code: Code, b: Builder) {
    && |b.done| < |code.layers|
    && b.done <= code.layers
    && b.cur <= code.layers[|b.done|].ops
  }

  lemma ChunkGrows(c: Config, code: Code, b: Builder, ops: seq<Op>)
    requires c.Valid() && Contains(code, EmitChunk(c, b, ops))
    ensures Contains(code, b)
  {
    var r := EmitChunk(c, b, ops);
    if |r.done| > |b.done| {
      assert r.done[|b.done|] == code.layers[|b.done|];
    }
  }

  lemma {:induction false} ChunksGrow(c: Config, code: Code, b: Builder, chunks: seq<seq<Op>>)
    requires c.Valid() && Contains(code, EmitChunks(c, b, chunks))
    ensures Contains(code, b)
    decreases |chunks|
  {
    hide EmitChunk, Contains;
    if chunks != [] {
      var most := chunks[..|chunks| - 1];
      ChunkGrows(c, code, EmitChunks(c, b, most), chunks[|chunks| - 1]);
      ChunksGrow(c, code, b, most);
    }
  }

  lemma ItemGrows(c: Config, code: Code, b: Builder, item: Item)
    requires c.Valid() && Contains(code, EmitItem(c, b, item))
    ensures Contains(code, b)
  {
    var r := EmitItem(c, b, item);
    if item.Straight? {
      ChunksGrow(c, code, b, item.chunks);
    } else if |r.done| > |b.done| {
      assert r.done[|b.done|] == code.layers[|b.done|];
    }
  }

  lemma {:induction false} EmitGrows(c: Config, code: Code, b: Builder, items: seq<Item>, k: nat)
    requires c.Valid() && Contains(code, Emit(c, b, items)) && k <= |items|
    ensures Contains(code, Emit(c, b, items[..k]))
    decreases |items|
  {
    if k == |items| {
      assert items[..k] == items;
    } else {
      var most := items[..|items| - 1];
      ItemGrows(c, code, Emit(c, b, most), items[|items| - 1]);
      EmitGrows(c, code, b, most, k);
      assert most[..k] == items[..k];
    }
  }

  /** Executes operations in order; None if one of them is not allowed. */
  function Exec(c: Config, code: Code, s: Space, ops: seq<Op>): (r: Option<Space>)
    requires c.Valid()
    ensures r.Some? ==> |r.value| == |s|
  {
    if ops == [] then Some(s)
    else match Exec(c, code, s, ops[..|ops| - 1])
      case None => None
      case Some(t) =>
        var op := ops[|ops| - 1];
        if Allowed(c, code, t, op) then Some(ExecOp(c, t, op)) else None
  }

  lemma {:induction false} ExecSome(c: Config, code: Code, s: Space, ops: seq<Op>, k: nat)
    requires c.Valid() && k <= |ops| && Exec(c, code, s, ops).Some?
    ensures Exec(c, code, s, ops[..k]).Some?
    decreases |ops|
  {
    if k == |ops| {
      assert ops[..k] == ops;
    } else {
      ExecSome(c, code, s, ops[..|ops| - 1], k);
      assert ops[..|ops| - 1][..k] == ops[..k];
    }
  }

  /** Operations executed one list after another. */
  lemma {:induction false} ExecAppend(c: Config, code: Code, s: Space, xs: seq<Op>, ys: seq<Op>)
    requires c.Valid() && Exec(c, code, s, xs).Some?
    ensures Exec(c, code, s, xs + ys) == Exec(c, code, Exec(c, code, s, xs).value, ys)
    decreases |ys|
  {
    hide Allowed, ExecOp;
    if ys == [] {
      assert xs + ys == xs;
    } else {
      ExecAppend(c, code, s, xs, ys[..|ys| - 1]);
      assert (xs + ys)[..|xs + ys| - 1] == xs + ys[..|ys| - 1];
    }
  }

  /** The program goes from one point to another. */
  ghost predicate Goes(c: Config, code: Code, p: Point, s: Space, q: Point, t: Space)
    requires c.Valid()
  {
    exists k, d :: Steps(c, code, At(p, 0, s), k) == Some(At(q, d, t))
  }

  /** Tick counts only accumulate. */
  lemma {:induction false} TicksShift(c: Config, code: Code, x: Conf, n: nat, k: nat)
    requires c.Valid() && Steps(c, code, x, k).Some?
    ensures var y := Steps(c, code, x, k).value;
      Steps(c, code, x.(ticks := x.ticks + n), k) == Some(y.(ticks := y.ticks + n))
    decreases k
  {
    hide Step;
    if k > 0 {
      StepShift(c, code, x, n);
      TicksShift(c, code, Step(c, code, x).value, n, k - 1);
    }
  }

  lemma StepShift(c: Config, code: Code, x: Conf, n: nat)
    requires c.Valid() && Step(c, code, x).Some?
    ensures var y := Step(c, code, x).value;
      Step(c, code, x.(ticks := x.ticks + n)) == Some(y.(ticks := y.ticks + n))
  {
    hide Allowed, ExecOp;
  }

  lemma GoesTo(c: Config, code: Code, p: Point, s: Space, q: Point, t: Space, r: Point, u: Space)
    requires c.Valid() && Goes(c, code, p, s, q, t) && Goes(c, code, q, t, r, u)
    ensures Goes(c, code, p, s, r, u)
  {
    hide Step;
    var j: nat, d: nat :| Steps(c, code, At(p, 0, s), j) == Some(At(q, d, t));
    var k: nat, e: nat :| Steps(c, code, At(q, 0, t), k) == Some(At(r, e, u));
    TicksShift(c, code, At(q, 0, t), d, k);
    StepsCompose(c, code, At(p, 0, s), j, k);
    assert Steps(c, code, At(p, 0, s), j + k) == Some(At(r, e + d, u));
  }

  lemma GoesHere(c: Config, code: Code, p: Point, s: Space)
    requires c.Valid()
    ensures Goes(c, code, p, s, p, s)
  {
    assert Steps(c, code, At(p, 0, s), 0) == Some(At(p, 0, s));
  }

  lemma GoesStep(c: Config, code: Code, p: Point, s: Space, q: Point, d: nat, t: Space)
    requires c.Valid() && Step(c, code, At(p, 0, s)) == Some(At(q, d, t))
    ensures Goes(c, code, p, s, q, t)
  {
    assert Steps(c, code, At(q, d, t), 0) == Some(At(q, d, t));
    assert Steps(c, code, At(p, 0, s), 1) == Some(At(q, d, t));
  }

  /** A chunk that lies inside one layer is executed operation by operation. */
  lemma {:induction false} ChunkGoes(c: Config, code: Code, i: nat, j: nat, ops: seq<Op>, s: Space)
    requires c.Valid() && i < |code.layers| && j + |ops| <= |code.layers[i].ops|
    requires code.layers[i].ops[j..j + |ops|] == ops && Exec(c, code, s, ops).Some?
    ensures Goes(c, code, Point(i, j), s, Point(i, j + |ops|), Exec(c, code, s, ops).value)
    decreases |ops|
  {
    hide Allowed, ExecOp;
    if ops == [] {
      GoesHere(c, code, Point(i, j), s);
    } else {
      var k := |ops| - 1;
      var t := Exec(c, code, s, ops[..k]).value;
      var u := Exec(c, code, s, ops).value;
      assert code.layers[i].ops[j..j + k] == ops[..k];
      assert code.layers[i].ops[j + k] == ops[k];
      ChunkGoes(c, code, i, j, ops[..k], s);
      GoesStep(c, code, Point(i, j + k), t, Point(i, j + k + 1), 0, u);
      GoesTo(c, code, Point(i, j), s, Point(i, j + k), t, Point(i, j + k + 1), u);
    }
  }

  /** Closing a layer for lack of room only costs a tick. */
  lemma RoomGoes(c: Config, code: Code, b: Builder, count: nat, s: Space)
    requires c.Valid() && Contains(code, Room(c, b, count))
    ensures Goes(c, code, Pos(b), s, Pos(Room(c, b, count)), s)
  {
    var r := Room(c, b, count);
    if r == b {
      GoesHere(c, code, Pos(b), s);
    } else {
      assert r.done[|b.done|] == code.layers[|b.done|];
      GoesStep(c, code, Pos(b), s, Pos(r), 1, s);
    }
  }

  /** Meaning of items: chunks execute, a branch goes behind the item that binds its label. */
  function BindAt(items: seq<Item>, tag: nat): Option<nat> {
    if items == [] then None
    else if Landmark(items[|items| - 1], tag) then Some(|items| - 1)
    else BindAt(items[..|items| - 1], tag)
  }

  /** The last binding of a label counts. */
  lemma {:induction false} BindAtIs(items: seq<Item>, tag: nat, k: nat)
    requires k < |items| && Landmark(items[k], tag)
    requires forall j | k < j < |items| :: !Landmark(items[j], tag)
    ensures BindAt(items, tag) == Some(k)
    decreases |items|
  {
    if k < |items| - 1 {
      BindAtIs(items[..|items| - 1], tag, k);
    }
  }

  /** In front of an item, or gone to a label bound outside the list. */
  datatype ItemState = Inside(pc: nat, space: Space) | Outside(tag: nat, space: Space)

  function ItemStep(c: Config, code: Code, items: seq<Item>, x: ItemState): Option<ItemState>
    requires c.Valid()
  {
    if x.Outside? || x.pc >= |items| then None
    else match items[x.pc]
      case Straight(chunks) =>
        (match Exec(c, code, x.space, Flat(chunks))
         case None => None
         case Some(t) => Some(Inside(x.pc + 1, t)))
      case Bind(_) => Some(Inside(x.pc + 1, x.space))
      case Mark(_) => Some(Inside(x.pc + 1, x.space))
      case Goto(tag, flag, inverted) =>
        if !(c.LayerBits() <= flag < |x.space|) then None
        else if x.space[flag] == inverted then Some(Inside(x.pc + 1, x.space))
        else Some(Landing(items, tag, x.space))
      case Leap(tag) => Some(Landing(items, tag, x.space))
  }

  /** Behind the item that binds the label, or outside the list. */
  function Landing(items: seq<Item>, tag: nat, s: Space): ItemState {
    match BindAt(items, tag)
    case None => Outside(tag, s)
    case Some(k) => Inside(k + 1, s)
  }

  function ItemSteps(c: Config, code: Code, items: seq<Item>, x: ItemState, k: nat): Option<ItemState>
    requires c.Valid()
    decreases k
  {
    if k == 0 then Some(x)
    else match ItemStep(c, code, items, x)
      case None => None
      case Some(y) => ItemSteps(c, code, items, y, k - 1)
  }

  /** Labels of the finished program are those of the builder; the builder starts without the items' labels. */
  ghost predicate LabelsKept(code: Code, b: Builder) {
    forall l | l in b.labels :: l in code.labels && code.labels[l] == b.labels[l]
  }

  lemma {:induction false} ChunksLabels(c: Config, b: Builder, chunks: seq<seq<Op>>)
    requires c.Valid()
    ensures var r := EmitChunks(c, b, chunks); r.labels == b.labels && r.jumps == b.jumps
    decreases |chunks|
  {
    if chunks != [] {
      ChunksLabels(c, b, chunks[..|chunks| - 1]);
    }
  }

  /** A bound label names the layer that the item behind its binding starts. */
  lemma {:induction false} LabelPlace(c: Config, b: Builder, items: seq<Item>, tag: nat)
    requires c.Valid() && BindAt(items, tag).Some?
    ensures BindAt(items, tag).value < |items|
    decreases |items|
    ensures var at := Emit(c, b, items[..BindAt(items, tag).value + 1]);
      && at.cur == []
      && tag in Emit(c, b, items).labels
      && Emit(c, b, items).labels[tag] == |at.done|
  {
    hide OpsRows, SlotOfBuilder;
    if Landmark(items[|items| - 1], tag) {
      assert items[..|items|] == items;
    } else {
      var most := items[..|items| - 1];
      LabelPlace(c, b, most, tag);
      if items[|items| - 1].Straight? {
        ChunksLabels(c, Emit(c, b, most), items[|items| - 1].chunks);
      }
      var k := BindAt(items, tag).value;
      assert most[..k + 1] == items[..k + 1];
    }
  }

  /** Where an item state is in the emitted program. */
  function PointOf(c: Config, code: Code, b: Builder, items: seq<Item>, x: ItemState): Point
    requires c.Valid()
    requires x.Inside? ==> x.pc <= |items|
    requires x.Outside? ==> x.tag in code.labels
  {
    match x
    case Inside(pc, _) => Pos(Emit(c, b, items[..pc]))
    case Outside(tag, _) => Point(code.labels[tag], 0)
  }

  ghost predicate Placed(code: Code, items: seq<Item>, x: ItemState) {
    && (x.Inside? ==> x.pc <= |items|)
    && (x.Outside? ==> x.tag in code.labels)
  }

  /** The step of an item state is some steps of the emitted program. */
  ghost predicate StepGoes(c: Config, code: Code, b: Builder, items: seq<Item>, x: ItemState)
    requires c.Valid() && ItemStep(c, code, items, x).Some?
  {
    var y := ItemStep(c, code, items, x).value;
    && x.Inside? && x.pc < |items| && Placed(code, items, y)
    && Goes(c, code, PointOf(c, code, b, items, x), x.space, PointOf(c, code, b, items, y), y.space)
  }

  lemma WellValid(c: Config, code: Code)
    requires WellFormed(c, code)
    ensures c.Valid()
  {
  }

  lemma ItemGoes(c: Config, code: Code, b: Builder, items: seq<Item>, x: ItemState)
    requires WellFormed(c, code) && ItemStep(c, code, items, x).Some?
    requires Contains(code, Emit(c, b, items)) && LabelsKept(code, Emit(c, b, items))
    ensures StepGoes(c, code, b, items, x)
  {
    hide StepGoes, WellFormed, Contains, LabelsKept, Emit, Exec, Landing;
    WellValid(c, code);
    match items[x.pc]
    case Straight(_) => StraightStep(c, code, b, items, x);
    case Bind(_) => BindStep(c, code, b, items, x);
    case Mark(_) => MarkStep(c, code, b, items, x);
    case Goto(_, _, _) => GotoStep(c, code, b, items, x);
    case Leap(_) => LeapStep(c, code, b, items, x);
  }

  lemma StraightStep(c: Config, code: Code, b: Builder, items: seq<Item>, x: ItemState)
    requires WellFormed(c, code) && ItemStep(c, code, items, x).Some? && Contains(code, Emit(c, b, items))
    requires items[x.pc].Straight?
    ensures StepGoes(c, code, b, items, x)
  {
    hide Exec, Goes, WellFormed, EmitItem, Contains, PointOf, Placed, Emit;
    WellValid(c, code);
    HerePoint(c, code, b, items, x.pc, x.space);
    EmitGrows(c, code, b, items, x.pc + 1);
    StraightGoes(c, code, Emit(c, b, items[..x.pc]), items[x.pc].chunks, x.space);
  }

  lemma BindStep(c: Config, code: Code, b: Builder, items: seq<Item>, x: ItemState)
    requires WellFormed(c, code) && ItemStep(c, code, items, x).Some? && Contains(code, Emit(c, b, items))
    requires items[x.pc].Bind?
    ensures StepGoes(c, code, b, items, x)
  {
    hide Exec, Goes, WellFormed, EmitItem, Contains, PointOf, Placed, Emit;
    WellValid(c, code);
    HerePoint(c, code, b, items, x.pc, x.space);
    EmitGrows(c, code, b, items, x.pc + 1);
    BindGoes(c, code, Emit(c, b, items[..x.pc]), items[x.pc].tag, x.space);
  }

  lemma MarkStep(c: Config, code: Code, b: Builder, items: seq<Item>, x: ItemState)
    requires WellFormed(c, code) && ItemStep(c, code, items, x).Some? && Contains(code, Emit(c, b, items))
    requires items[x.pc].Mark?
    ensures StepGoes(c, code, b, items, x)
  {
    hide Exec, Goes, WellFormed, EmitItem, Contains, PointOf, Placed, Emit;
    WellValid(c, code);
    HerePoint(c, code, b, items, x.pc, x.space);
    EmitGrows(c, code, b, items, x.pc + 1);
    MarkGoes(c, code, Emit(c, b, items[..x.pc]), items[x.pc].tag, x.space);
  }

  lemma GotoStep(c: Config, code: Code, b: Builder, items: seq<Item>, x: ItemState)
    requires WellFormed(c, code) && ItemStep(c, code, items, x).Some?
    requires Contains(code, Emit(c, b, items)) && LabelsKept(code, Emit(c, b, items))
    requires items[x.pc].Goto?
    ensures StepGoes(c, code, b, items, x)
  {
    hide Exec, Goes, WellFormed, EmitItem, Contains, PointOf, Placed, Emit, LabelsKept, Landing;
    WellValid(c, code);
    var item := items[x.pc];
    HerePoint(c, code, b, items, x.pc, x.space);
    EmitGrows(c, code, b, items, x.pc + 1);
    GotoItemGoes(c, code, Emit(c, b, items[..x.pc]), item.tag, item.flag, item.inverted, x.space);
    LandingPoint(c, code, b, items, item.tag, x.space);
  }

  lemma LeapStep(c: Config, code: Code, b: Builder, items: seq<Item>, x: ItemState)
    requires WellFormed(c, code) && ItemStep(c, code, items, x).Some?
    requires Contains(code, Emit(c, b, items)) && LabelsKept(code, Emit(c, b, items))
    requires items[x.pc].Leap?
    ensures StepGoes(c, code, b, items, x)
  {
    hide Exec, Goes, WellFormed, EmitItem, Contains, PointOf, Placed, Emit, LabelsKept, Landing;
    WellValid(c, code);
    HerePoint(c, code, b, items, x.pc, x.space);
    EmitGrows(c, code, b, items, x.pc + 1);
    LeapGoes(c, code, Emit(c, b, items[..x.pc]), items[x.pc].tag, x.space);
    LandingPoint(c, code, b, items, items[x.pc].tag, x.space);
  }

  /** In front of an item, and behind it. */
  lemma HerePoint(c: Config, code: Code, b: Builder, items: seq<Item>, pc: nat, s: Space)
    requires c.Valid() && pc < |items|
    ensures forall t {:trigger Inside(pc + 1, t)} ::
      && Placed(code, items, Inside(pc + 1, t))
      && PointOf(c, code, b, items, Inside(pc + 1, t)) == Pos(EmitItem(c, Emit(c, b, items[..pc]), items[pc]))
    ensures PointOf(c, code, b, items, Inside(pc, s)) == Pos(Emit(c, b, items[..pc]))
    ensures Emit(c, b, items[..pc + 1]) == EmitItem(c, Emit(c, b, items[..pc]), items[pc])
  {
    assert items[..pc + 1][..pc] == items[..pc];
    hide EmitItem;
  }

  lemma LandingPoint(c: Config, code: Code, b: Builder, items: seq<Item>, tag: nat, s: Space)
    requires c.Valid() && LabelsKept(code, Emit(c, b, items)) && tag in code.labels
    ensures var y := Landing(items, tag, s);
      Placed(code, items, y) && y.space == s && PointOf(c, code, b, items, y) == Point(code.labels[tag], 0)
  {
    hide Emit;
    if BindAt(items, tag).Some? {
      LabelPlaced(c, code, b, items, tag);
    }
  }

  lemma LeapGoes(c: Config, code: Code, b: Builder, tag: nat, s: Space)
    requires WellFormed(c, code) && Contains(code, EmitItem(c, b, Leap(tag)))
    ensures tag in code.labels && Goes(c, code, Pos(b), s, Point(code.labels[tag], 0), s)
  {
    assert EmitItem(c, b, Leap(tag)).done[|b.done|] == code.layers[|b.done|];
    GoesStep(c, code, Pos(b), s, Point(code.labels[tag], 0), 1, s);
  }

  lemma StraightGoes(c: Config, code: Code, b: Builder, chunks: seq<seq<Op>>, s: Space)
    requires c.Valid() && Contains(code, EmitItem(c, b, Straight(chunks))) && Exec(c, code, s, Flat(chunks)).Some?
    ensures Goes(c, code, Pos(b), s, Pos(EmitItem(c, b, Straight(chunks))), Exec(c, code, s, Flat(chunks)).value)
  {
    hide Goes, Exec, Contains, EmitChunks;
    ChunksGo(c, code, b, chunks, s);
  }

  lemma BindGoes(c: Config, code: Code, b: Builder, tag: nat, s: Space)
    requires c.Valid() && Contains(code, EmitItem(c, b, Bind(tag)))
    ensures Goes(c, code, Pos(b), s, Pos(EmitItem(c, b, Bind(tag))), s)
  {
    hide Goes;
    assert EmitItem(c, b, Bind(tag)).done[|b.done|] == code.layers[|b.done|];
    NextGoes(c, code, Pos(b), s);
  }

  lemma MarkGoes(c: Config, code: Code, b: Builder, tag: nat, s: Space)
    requires c.Valid() && Contains(code, EmitItem(c, b, Mark(tag)))
    ensures Goes(c, code, Pos(b), s, Pos(EmitItem(c, b, Mark(tag))), s)
  {
    hide Goes;
    if b.cur == [] {
      GoesHere(c, code, Pos(b), s);
    } else {
      assert EmitItem(c, b, Mark(tag)).done[|b.done|] == code.layers[|b.done|];
      NextGoes(c, code, Pos(b), s);
    }
  }

  lemma LabelPlaced(c: Config, code: Code, b: Builder, items: seq<Item>, tag: nat)
    requires c.Valid() && BindAt(items, tag).Some? && LabelsKept(code, Emit(c, b, items))
    ensures BindAt(items, tag).value < |items| && tag in code.labels
    ensures Pos(Emit(c, b, items[..BindAt(items, tag).value + 1])) == Point(code.labels[tag], 0)
  {
    hide Emit;
    LabelPlace(c, b, items, tag);
  }

  lemma GotoItemGoes(c: Config, code: Code, b: Builder, tag: nat, flag: nat, inverted: bool, s: Space)
    requires WellFormed(c, code) && Contains(code, EmitItem(c, b, Goto(tag, flag, inverted)))
    requires c.LayerBits() <= flag < |s|
    ensures tag in code.labels
    ensures Goes(c, code, Pos(b), s,
      if s[flag] == inverted then Pos(EmitItem(c, b, Goto(tag, flag, inverted))) else Point(code.labels[tag], 0), s)
  {
    hide Goes, Room;
    var room, after := Room(c, b, 2), EmitItem(c, b, Goto(tag, flag, inverted));
    assert after.done[|room.done|] == code.layers[|room.done|];
    RoomGoes(c, code, b, 2, s);
    BranchGoes(c, code, Pos(room), s);
    GoesTo(c, code, Pos(b), s, Pos(room), s,
      if s[flag] == inverted then Pos(after) else Point(code.labels[tag], 0), s);
  }

  lemma EmitChunkGoes(c: Config, code: Code, b: Builder, ops: seq<Op>, s: Space)
    requires c.Valid() && Contains(code, EmitChunk(c, b, ops)) && Exec(c, code, s, ops).Some?
    ensures Goes(c, code, Pos(b), s, Pos(EmitChunk(c, b, ops)), Exec(c, code, s, ops).value)
  {
    hide Exec, OpsRows, Goes, Room;
    var room, after := Room(c, b, RowCount(ops)), EmitChunk(c, b, ops);
    RoomGoes(c, code, b, RowCount(ops), s);
    assert after.cur[|room.cur|..|room.cur| + |ops|] == ops;
    ChunkGoes(c, code, |room.done|, |room.cur|, ops, s);
    GoesTo(c, code, Pos(b), s, Pos(room), s, Pos(after), Exec(c, code, s, ops).value);
  }

  /** Straight-line code runs through whatever layers its chunks fell into. */
  lemma {:induction false} ChunksGo(c: Config, code: Code, b: Builder, chunks: seq<seq<Op>>, s: Space)
    requires c.Valid() && Contains(code, EmitChunks(c, b, chunks)) && Exec(c, code, s, Flat(chunks)).Some?
    ensures Goes(c, code, Pos(b), s, Pos(EmitChunks(c, b, chunks)), Exec(c, code, s, Flat(chunks)).value)
    decreases |chunks|
  {
    hide Goes, EmitChunk, Contains, Pos;
    if chunks == [] {
      assert Exec(c, code, s, []) == Some(s);
      GoesHere(c, code, Pos(b), s);
    } else {
      hide Exec;
      var most, last := chunks[..|chunks| - 1], chunks[|chunks| - 1];
      var mid := EmitChunks(c, b, most);
      ChunkGrows(c, code, mid, last);
      assert Flat(chunks)[..|Flat(most)|] == Flat(most);
      ExecSome(c, code, s, Flat(chunks), |Flat(most)|);
      ExecAppend(c, code, s, Flat(most), last);
      var t := Exec(c, code, s, Flat(most)).value;
      ChunksGo(c, code, b, most, s);
      EmitChunkGoes(c, code, mid, last, t);
      GoesTo(c, code, Pos(b), s, Pos(mid), t, Pos(EmitChunk(c, mid, last)), Exec(c, code, t, last).value);
    }
  }

  lemma NextGoes(c: Config, code: Code, p: Point, s: Space)
    requires c.Valid() && p.layer < |code.layers|
    requires code.layers[p.layer].exit == Next && p.op == |code.layers[p.layer].ops|
    ensures Goes(c, code, p, s, Point(p.layer + 1, 0), s)
  {
    GoesStep(c, code, p, s, Point(p.layer + 1, 0), 1, s);
  }

  lemma BranchGoes(c: Config, code: Code, p: Point, s: Space)
    requires WellFormed(c, code) && p.layer < |code.layers|
    requires code.layers[p.layer].exit.Branch? && p.op == |code.layers[p.layer].ops|
    requires c.LayerBits() <= code.layers[p.layer].exit.flag < |s|
    ensures var exit := code.layers[p.layer].exit;
      && exit.tag in code.labels
      && Goes(c, code, p, s,
           Point(if s[exit.flag] == exit.inverted then p.layer + 1 else code.labels[exit.tag], 0), s)
  {
    var exit := code.layers[p.layer].exit;
    GoesStep(c, code, p, s, Point(BranchTarget(code, p.layer, s[exit.flag]), 0), 1, s);
  }

  /** What the generator's list means is what the emitted program does. */
  lemma {:induction false} ItemsGo(c: Config, code: Code, b: Builder, items: seq<Item>, x: ItemState, k: nat)
    requires WellFormed(c, code) && Placed(code, items, x) && ItemSteps(c, code, items, x, k).Some?
    requires Contains(code, Emit(c, b, items)) && LabelsKept(code, Emit(c, b, items))
    ensures var y := ItemSteps(c, code, items, x, k).value;
      && Placed(code, items, y)
      && Goes(c, code, PointOf(c, code, b, items, x), x.space, PointOf(c, code, b, items, y), y.space)
    decreases k
  {
    assert c.Valid();
    hide WellFormed, Contains, LabelsKept, Goes, ItemStep, Emit;
    if k == 0 {
      GoesHere(c, code, PointOf(c, code, b, items, x), x.space);
    } else {
      var y, z := ItemStep(c, code, items, x).value, ItemSteps(c, code, items, x, k).value;
      ItemGoes(c, code, b, items, x);
      ItemsGo(c, code, b, items, y, k - 1);
      GoesTo(c, code, PointOf(c, code, b, items, x), x.space, PointOf(c, code, b, items, y), y.space,
        PointOf(c, code, b, items, z), z.space);
    }
  }
}