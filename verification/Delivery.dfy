/** From the bytes of a linked image to the end of its run: boot, program, idle. */
module Delivery {
  import opened Bits
  import opened Machine
  import opened Layers
  import opened Programs
  import opened Emission
  import opened Items
  import opened Lookups
  import opened Rows
  import opened CopyEmit
  import opened Report
  import opened Linker
  import opened Images
  import opened Vm

  /** n steps of the machine, none of which touches a channel or goes out of range. */
  ghost predicate Ticks(c: Config, u: Space, v: Space, n: nat)
    requires c.Valid() && c.LayerBits() <= |u|
    decreases n
  {
    if n == 0 then u == v
    else
      && Quiet(c, u)
      && RunSlots(c, u, 0, SLOTS).Some?
      && Ticks(c, RunSlots(c, u, 0, SLOTS).value, v, n - 1)
  }

  /** Such a step is the step of the emulator, whatever is on the other side of its channels. */
  lemma QuietStep(c: Config, w: World, out: Peer, inp: Peer, x: World, outcome: Outcome)
    requires c.Valid() && c.LayerBits() <= |w.space| && Quiet(c, w.space) && RunSlots(c, w.space, 0, SLOTS).Some?
    requires Stepped(c, w, out, inp, x, outcome)
    ensures outcome == Done && x == w.(space := RunSlots(c, w.space, 0, SLOTS).value)
  {
    hide RunSlots;
  }

  /** An idle machine stays as it is. */
  lemma IdleStep(c: Config, w: World, out: Peer, inp: Peer, x: World, outcome: Outcome)
    requires c.Valid() && c.LayerBits() <= |w.space| && !Active(c, w.space)
    requires Stepped(c, w, out, inp, x, outcome)
    ensures outcome == Idle && x == w
  {
  }

  lemma CourseStep(c: Config, worlds: seq<World>, outs: seq<Peer>, inps: seq<Peer>, outcomes: seq<Outcome>, k: nat)
    requires Course(c, worlds, outs, inps, outcomes) && k < |outcomes|
    ensures c.LayerBits() <= |worlds[k].space| && Stepped(c, worlds[k], outs[k], inps[k], worlds[k + 1], outcomes[k])
  {
    hide Stepped;
    assert outcomes[k] == outcomes[k];
    assert worlds[k] == worlds[k];
  }

  /** Quiet ticks are steps that are done and leave both streams alone; of a shorter course, as many as it has. */
  lemma {:induction false} CourseTicks(c: Config, worlds: seq<World>, outs: seq<Peer>, inps: seq<Peer>, outcomes: seq<Outcome>,
                                       at: nat, w: Space, n: nat)
    requires Course(c, worlds, outs, inps, outcomes) && at < |worlds| && Ticks(c, worlds[at].space, w, n)
    ensures forall k {:trigger outcomes[k]} | at <= k < at + n && k < |outcomes| :: outcomes[k] == Done
    ensures forall k {:trigger worlds[k]} | at <= k <= at + n && k < |worlds| :: worlds[k].input == worlds[at].input && worlds[k].output == worlds[at].output
    ensures at + n < |worlds| ==> worlds[at + n].space == w
    decreases n
  {
    hide Course, Stepped, RunSlots, Quiet;
    CourseSizes(c, worlds, outs, inps, outcomes);
    if n > 0 && at < |outcomes| {
      CourseStep(c, worlds, outs, inps, outcomes, at);
      QuietStep(c, worlds[at], outs[at], inps[at], worlds[at + 1], outcomes[at]);
      CourseTicks(c, worlds, outs, inps, outcomes, at + 1, w, n - 1);
    }
  }

  lemma CourseSizes(c: Config, worlds: seq<World>, outs: seq<Peer>, inps: seq<Peer>, outcomes: seq<Outcome>)
    requires Course(c, worlds, outs, inps, outcomes)
    ensures c.Valid() && |worlds| == |outcomes| + 1 && |outs| == |inps| == |outcomes|
    ensures forall k {:trigger worlds[k]} | 0 <= k < |worlds| :: c.LayerBits() <= |worlds[k].space|
  {
  }

  /** An idle machine stays idle. */
  lemma {:induction false} CourseIdle(c: Config, worlds: seq<World>, outs: seq<Peer>, inps: seq<Peer>, outcomes: seq<Outcome>, at: nat)
    requires Course(c, worlds, outs, inps, outcomes) && at < |worlds| && c.LayerBits() <= |worlds[at].space| && !Active(c, worlds[at].space)
    ensures forall k {:trigger outcomes[k]} | at <= k < |outcomes| :: outcomes[k] == Idle
    ensures worlds[|worlds| - 1] == worlds[at]
    decreases |worlds| - at
  {
    hide Course, Stepped, Active;
    CourseSizes(c, worlds, outs, inps, outcomes);
    if at < |outcomes| {
      CourseStep(c, worlds, outs, inps, outcomes, at);
      IdleStep(c, worlds[at], outs[at], inps[at], worlds[at + 1], outcomes[at]);
      CourseIdle(c, worlds, outs, inps, outcomes, at + 1);
    }
  }

  lemma {:induction false} ReachesLength(c: Config, u: Space, slot: nat, v: Space, goal: nat, n: nat)
    requires c.Valid() && c.LayerBits() <= |u| && slot <= SLOTS && Reaches(c, u, slot, v, goal, n)
    ensures |v| == |u|
    decreases n
  {
    hide RunSlots, Quiet;
    if n > 0 {
      ReachesLength(c, RunSlots(c, u, slot, SLOTS).value, 0, v, goal, n - 1);
    }
  }

  /** The rest of a tick completes a run that stopped inside it. */
  lemma {:induction false} ReachesTicks(c: Config, u: Space, v: Space, goal: nat, n: nat, w: Space)
    requires c.Valid() && c.LayerBits() <= |u| && Quiet(c, u) && Reaches(c, u, 0, v, goal, n)
    requires c.LayerBits() <= |v| && goal <= SLOTS && RunSlots(c, v, goal, SLOTS) == Some(w)
    ensures Ticks(c, u, w, n + 1) && |w| == |u|
    decreases n
  {
    hide RunSlots, Quiet;
    ReachesLength(c, u, 0, v, goal, n);
    if n == 0 {
      RunSplit(c, u, 0, goal, SLOTS);
      assert Ticks(c, w, w, 0);
    } else {
      var x := RunSlots(c, u, 0, SLOTS).value;
      ReachesTicks(c, x, v, goal, n - 1, w);
    }
  }

  /** The first tick loads the first layer. */
  lemma Boot(c: Config, code: Code, u: Space) returns (v: Space)
    requires WellFormed(c, code) && Image(c, code, u) && |code.layers| > 0
    requires Holds(c, u, 0, EmptyLayer()[LINK := Row(c.LayerBits(), 0, code.base)])
    ensures Quiet(c, u) && RunSlots(c, u, 0, SLOTS) == Some(v)
    ensures Sim(c, code, At(Point(0, 0), 0, u), v, FIRST) && Quiet(c, v) && RunSlots(c, v, 0, FIRST) == Some(v)
  {
    hide RowAt, RunSlots, LayerImage, Sim, LayerRow, BodyRows;
    var rows := EmptyLayer()[LINK := Row(c.LayerBits(), 0, code.base)];
    forall k | 0 <= k < LINK ensures RowAt(c, u, 0, k).n == 0 {
      assert rows[k] == NOP;
    }
    assert RowAt(c, u, 0, LINK) == rows[LINK];
    assert RowAt(c, u, 0, LINK).n != 0;
    NopsRun(c, u, 0, LINK);
    v := LinkRun(c, code, u, u, 0);
    RunSplit(c, u, 0, LINK, SLOTS);
  }

  /** At the end of the last layer the machine loads the layer that it leads to. */
  lemma Depart(c: Config, code: Code, x: Conf, u: Space, slot: nat, address: nat) returns (w: Space)
    requires WellFormed(c, code) && Sim(c, code, x, u, slot) && x.pt.op == |code.layers[x.pt.layer].ops|
    requires code.layers[x.pt.layer].exit == Leave(address)
    requires c.LayerBits() <= address && address + c.LayerBits() <= |x.space|
    ensures slot <= SLOTS && RunSlots(c, u, slot, SLOTS) == Some(w)
    ensures Agree(c, x.space, w) && forall k | 0 <= k < SLOTS :: RowAt(c, w, 0, k) == RowAt(c, x.space, address, k)
  {
    hide RowAt, OpsRows, LayerImage, Image;
    var i := x.pt.layer;
    var layer := code.layers[i];
    SlotBounds(c, code, x, u, slot);
    assert layer.ops[..|layer.ops|] == layer.ops;
    forall k | slot <= k < LINK ensures RowAt(c, u, 0, k).n == 0 {
      assert LayerRow(c, code, i, k) == NOP;
    }
    assert RowAt(c, u, 0, LINK) == LayerRow(c, code, i, LINK);
    NopsRun(c, u, slot, LINK);
    RunOne(c, u, LINK);
    w := CopyBits(u, c.LayerBits(), 0, address);
    RunSplit(c, u, slot, LINK, SLOTS);
    forall k | 0 <= k < SLOTS ensures RowAt(c, w, 0, k) == RowAt(c, x.space, address, k) {
      SlotInLayer(c, 0, k);
      RowFrame(c, w, 0, x.space, address, k);
    }
  }

  /** The step of the report: OUT takes as much of the four bytes as the other side goes along with, then there is nothing left to do. */
  lemma ReportStep(c: Config, w: World, out: Peer, inp: Peer, x: World, outcome: Outcome)
    requires c.Valid() && Holds(c, w.space, 0, ReportLayer(c)) && Stepped(c, w, out, inp, x, outcome)
    requires OUTPUT + 32 <= |w.space| && c.LayerBits() <= ZERO_LAYER && Blank(w.space, ZERO_LAYER, c.LayerBits())
    ensures outcome == Done && x.input == w.input && x.output == w.output + w.space[OUTPUT..OUTPUT + 8 * Min(4, out.room)]
    ensures Agree(c, w.space, x.space) && !Active(c, x.space)
  {
    var rows := ReportLayer(c);
    assert RowAt(c, w.space, 0, 2) == rows[2] && RowAt(c, w.space, 0, 1) == rows[1] == NOP;
    assert Active(c, w.space) by {
      assert RowAt(c, w.space, 0, 2).n != 0;
    }
    var u := Channels(c, w, out, inp);
    hide RowAt, RunSlots;
    ReportServed(c, w, out, inp);
    forall k | 0 <= k < SLOTS && k != 2 ensures RowAt(c, u.space, 0, k) == rows[k] {
      assert RowAt(c, w.space, 0, k) == rows[k];
    }
    ReportLoads(c, u.space);
    BlankAgrees(c, w.space, u.space);
    var v := CopyBits(u.space, c.LayerBits(), 0, ZERO_LAYER);
    LoadedBlank(c, u.space, u.space, v, ZERO_LAYER);
  }

  lemma BlankAgrees(c: Config, s: Space, t: Space)
    requires c.Valid() && Agree(c, s, t) && c.LayerBits() <= ZERO_LAYER && Blank(s, ZERO_LAYER, c.LayerBits())
    ensures Blank(t, ZERO_LAYER, c.LayerBits()) && Agree(c, t, t)
  {
  }

  /** The channel changes nothing but its own row. */
  lemma ReportServed(c: Config, w: World, out: Peer, inp: Peer)
    requires c.Valid() && Holds(c, w.space, 0, ReportLayer(c)) && OUTPUT + 32 <= |w.space| && c.LayerBits() <= ZERO_LAYER <= |w.space|
    ensures var u := Channels(c, w, out, inp);
      && u.input == w.input && u.output == w.output + w.space[OUTPUT..OUTPUT + 8 * Min(4, out.room)]
      && Agree(c, w.space, u.space) && SameRows(c, w.space, u.space, 0, 2)
  {
    var rows := ReportLayer(c);
    assert RowAt(c, w.space, 0, 2) == rows[2] && RowAt(c, w.space, 0, 1) == rows[1] == NOP;
    hide RowAt, Spell;
    var u := Channels(c, w, out, inp);
    SlotInLayer(c, 0, 2);
    assert Transfers(w.space, rows[2]);
    WriteInRow(c, w.space, u.space, 2);
  }

  lemma ReportLoads(c: Config, u: Space)
    requires c.Valid() && ZERO_LAYER + c.LayerBits() <= |u|
    requires forall k | 0 <= k < SLOTS && k != 2 :: RowAt(c, u, 0, k) == ReportLayer(c)[k]
    ensures RunSlots(c, u, 0, SLOTS) == Some(CopyBits(u, c.LayerBits(), 0, ZERO_LAYER))
  {
    hide RowAt;
    var rows := ReportLayer(c);
    forall k | 0 <= k < LINK && k != 2 ensures RowAt(c, u, 0, k).n == 0 {
      assert rows[k] == NOP;
    }
    NopsRun(c, u, FIRST, LINK);
    assert RunSlots(c, u, 0, FIRST) == Some(u) by {
      assert RowAt(c, u, 0, 0).n == 0;
      assert RunSlots(c, u, 1, FIRST) == RunSlots(c, u, 2, FIRST) == RunSlots(c, u, 3, FIRST) == Some(u);
    }
    RunSplit(c, u, 0, FIRST, LINK);
    assert RowAt(c, u, 0, LINK) == rows[LINK];
    RunOne(c, u, LINK);
    RunSplit(c, u, 0, LINK, SLOTS);
  }

  lemma LoadedBlank(c: Config, s: Space, u: Space, w: Space, zeroLayer: nat)
    requires c.Valid() && Agree(c, s, u) && c.LayerBits() <= zeroLayer && Blank(s, zeroLayer, c.LayerBits())
    requires w == CopyBits(u, c.LayerBits(), 0, zeroLayer)
    ensures !Active(c, w) && Agree(c, s, w)
  {
    hide RowAt;
    forall p | 0 <= p < c.LayerBits() ensures !w[p] {
      assert w[p] == u[p + zeroLayer] == s[p + zeroLayer];
    }
    ZeroHolds(c, w, 0);
    forall k | 0 <= k < SLOTS ensures RowAt(c, w, 0, k).n == 0 {
      assert EmptyLayer()[k] == NOP;
    }
  }

  const START := Builder([], [], 0, map[])

  /** The image of the items' program, on which the items run from u to t. */
  ghost predicate LinkedRuns(c: Config, begin: nat, items: seq<Item>, adds: bool, subs: bool, u: Space, t: Space)
    requires c.Valid()
  {
    var code := Linked(c, begin, Emit(c, START, items), adds, subs);
    WellFormed(c, code) && Image(c, code, u) && Runs(c, code, items, u, t)
  }

  /**
   * The emulator started on a linked image comes to the layer of the report with the data that the program's
   * list of items leaves behind.
   */
  lemma Delivered(c: Config, begin: nat, items: seq<Item>, adds: bool, subs: bool, u: Space, t: Space)
    returns (w: Space, n: nat)
    requires c.Valid() && c.LayerBits() <= begin && c.LayerBits() <= |u|
    requires LinkedRuns(c, begin, items, adds, subs, u, t)
    requires Holds(c, u, 0, EmptyLayer()[LINK := Row(c.LayerBits(), 0, begin)])
    requires Holds(c, t, ReportAt(c, begin, Emit(c, START, items)), ReportLayer(c))
    ensures Ticks(c, u, w, n) && |w| == |u| && Agree(c, t, w) && Holds(c, w, 0, ReportLayer(c))
  {
    hide *;
    w, n := DeliveredCode(c, begin, Linked(c, begin, Emit(c, START, items), adds, subs), items, adds, subs, u, t);
  }

  lemma DeliveredCode(c: Config, begin: nat, code: Code, items: seq<Item>, adds: bool, subs: bool, u: Space, t: Space)
    returns (w: Space, n: nat)
    requires c.Valid() && c.LayerBits() <= begin && c.LayerBits() <= |u|
    requires code == Linked(c, begin, Emit(c, START, items), adds, subs)
    requires LinkedRuns(c, begin, items, adds, subs, u, t)
    requires Holds(c, u, 0, EmptyLayer()[LINK := Row(c.LayerBits(), 0, begin)])
    requires Holds(c, t, ReportAt(c, begin, Emit(c, START, items)), ReportLayer(c))
    ensures Ticks(c, u, w, n) && |w| == |u| && Agree(c, t, w) && Holds(c, w, 0, ReportLayer(c))
  {
    hide Emit, Linked, WellFormed, Image, Runs, Holds, EmptyLayer, Ticks, Agree, RunSlots, Quiet, Sim, Reaches, Contains, LabelsKept, ReportLayer, ReportAt;
    var b := Emit(c, START, items);
    LinkedHolds(c, begin, b, adds, subs);
    LastLayer(c, begin, b, adds, subs);
    var v0 := Boot(c, code, u);
    var v1, goal, d := Travel(c, code, items, u, t, v0);
    w := Finish(c, code, u, v0, At(Pos(b), d, t), v1, goal, d, ReportAt(c, begin, b), ReportLayer(c));
    n := d + 2;
  }

  lemma Finish(c: Config, code: Code, u: Space, v0: Space, x: Conf, v1: Space, goal: nat, d: nat, address: nat, rows: seq<Row>) returns (w: Space)
    requires WellFormed(c, code) && Sim(c, code, x, v1, goal) && x.pt.op == |code.layers[x.pt.layer].ops|
    requires code.layers[x.pt.layer].exit == Leave(address)
    requires c.LayerBits() <= address && Holds(c, x.space, address, rows)
    requires c.LayerBits() <= |u| && Quiet(c, u) && RunSlots(c, u, 0, SLOTS) == Some(v0)
    requires Quiet(c, v0) && Reaches(c, v0, 0, v1, goal, d)
    ensures Ticks(c, u, w, d + 2) && |w| == |u| && Agree(c, x.space, w) && Holds(c, w, 0, rows)
  {
    hide RunSlots, Quiet, Sim, Reaches, Ticks, WellFormed, Agree, RowAt;
    SimLength(c, code, x, v1, goal);
    w := Depart(c, code, x, v1, goal, address);
    ReachesTicks(c, v0, v1, goal, d, w);
    TicksFirst(c, u, v0, w, d + 1);
    forall k {:trigger rows[k]} | 0 <= k < SLOTS ensures RowAt(c, w, 0, k) == rows[k] {
    }
  }

  lemma TicksFirst(c: Config, u: Space, v: Space, w: Space, n: nat)
    requires c.Valid() && c.LayerBits() <= |u| && Quiet(c, u) && RunSlots(c, u, 0, SLOTS) == Some(v)
    requires Ticks(c, v, w, n)
    ensures Ticks(c, u, w, n + 1)
  {
    hide RunSlots, Quiet;
  }

  /** From the first row of the program to the end of its last operation. */
  lemma Travel(c: Config, code: Code, items: seq<Item>, u: Space, t: Space, v: Space) returns (w: Space, goal: nat, d: nat)
    requires WellFormed(c, code) && Contains(code, Emit(c, START, items)) && LabelsKept(code, Emit(c, START, items))
    requires Runs(c, code, items, u, t)
    requires Sim(c, code, At(Point(0, 0), 0, u), v, FIRST) && c.LayerBits() <= |v| && RunSlots(c, v, 0, FIRST) == Some(v)
    ensures Sim(c, code, At(Pos(Emit(c, START, items)), d, t), w, goal)
    ensures goal <= SLOTS && Reaches(c, v, 0, w, goal, d)
  {
    assert c.Valid();
    hide Emit, WellFormed, Contains, LabelsKept, RunSlots, Reaches, Sim, ItemSteps, Goes, Steps;
    var k: nat :| ItemSteps(c, code, items, Inside(0, u), k) == Some(Inside(|items|, t));
    ItemsGo(c, code, START, items, Inside(0, u), k);
    Points(c, code, items, u, t);
    var m, d' := Walk(c, code, Point(0, 0), u, Pos(Emit(c, START, items)), t);
    d := d';
    w, goal := Simulation(c, code, At(Point(0, 0), 0, u), m, v, FIRST);
    SlotBounds(c, code, At(Pos(Emit(c, START, items)), d, t), w, goal);
    ReachesLater(c, v, 0, v, FIRST, w, goal, d);
  }

  lemma LastLayer(c: Config, begin: nat, b: Builder, adds: bool, subs: bool)
    requires c.Valid()
    ensures var code := Linked(c, begin, b, adds, subs);
      && Pos(b) == Point(|b.done|, |b.cur|) && begin <= ReportAt(c, begin, b)
      && code.base == begin && |code.layers| == |b.done| + 1 && code.layers[|b.done|] == Layer(b.cur, Leave(ReportAt(c, begin, b)))
  {
  }

  lemma Points(c: Config, code: Code, items: seq<Item>, u: Space, t: Space)
    requires c.Valid()
    ensures PointOf(c, code, START, items, Inside(0, u)) == Point(0, 0)
    ensures PointOf(c, code, START, items, Inside(|items|, t)) == Pos(Emit(c, START, items))
  {
    assert items[..|items|] == items && items[..0] == [];
  }

  lemma Walk(c: Config, code: Code, p: Point, s: Space, q: Point, t: Space) returns (k: nat, d: nat)
    requires c.Valid() && Goes(c, code, p, s, q, t)
    ensures Steps(c, code, At(p, 0, s), k) == Some(At(q, d, t))
  {
    hide Step;
    k, d :| Steps(c, code, At(p, 0, s), k) == Some(At(q, d, t));
  }

  lemma SimLength(c: Config, code: Code, x: Conf, u: Space, slot: nat)
    requires WellFormed(c, code) && Sim(c, code, x, u, slot)
    ensures |u| == |x.space| && c.Valid() && c.LayerBits() <= |u|
  {
  }
}
