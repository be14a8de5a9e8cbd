/**
 * Programs of layers: what a program means on the space behind the processor, what its image in the
 * space is, and the theorem that the copy machine running the image does what the program means.
 */
module Programs {
  import opened Bits
  import opened Machine
  import opened Layers

  /** How a layer ends. A branch is taken when its flag differs from its inverted mark; Leave ends the program. */
  datatype Exit =
    | Next
    | Jump(tag: nat)
    | Branch(flag: nat, table: nat, tag: nat, inverted: bool)
    | Leave(address: nat)

  datatype Layer = Layer(ops: seq<Op>, exit: Exit)

  /**
   * A finished program. Layer i lies at base + i * LayerBits(); labels name layers. Everything the
   * program must not overwrite (branch tables and layers) lies between fixed and limit. adds and subs say
   * which adder tables the program has been given.
   */
  datatype Code = Code(base: nat, fixed: nat, limit: nat, layers: seq<Layer>, labels: map<nat, nat>, adds: bool, subs: bool)

  function LayerAddress(c: Config, code: Code, i: nat): nat
    requires c.Valid()
  {
    code.base + i * c.LayerBits()
  }

  /** The source field of slot 255 of the active layer: where control goes next. */
  function LinkField(c: Config): nat
    requires c.Valid()
  {
    c.SlotAt(0, LINK) + 2 * c.ab - 1
  }

  /** The last operation of a branching layer: it picks one of two table entries into the link. */
  function BranchOp(c: Config, exit: Exit): Op
    requires c.Valid() && exit.Branch?
  {
    Op(c.ab, LinkField(c), exit.table, [Patch(SrcField, 5, 1, exit.flag)])
  }

  /** Rows of a list of operations laid out one after another from slot 3. */
  function OpsRows(c: Config, ops: seq<Op>): seq<Row>
    requires c.Valid()
  {
    if ops == [] then []
    else
      var before := OpsRows(c, ops[..|ops| - 1]);
      before + OpRows(c, ops[|ops| - 1], FIRST + |before|)
  }

  /** The rows of a layer in front of its link. */
  function BodyRows(c: Config, layer: Layer): seq<Row>
    requires c.Valid()
  {
    var before := OpsRows(c, layer.ops);
    if layer.exit.Branch? then before + OpRows(c, BranchOp(c, layer.exit), FIRST + |before|) else before
  }

  /** Where the static link of layer i points; a branch overwrites it when the layer runs. */
  function StaticLink(c: Config, code: Code, i: nat): Option<nat>
    requires c.Valid() && i < |code.layers|
  {
    match code.layers[i].exit
    case Next => Some(LayerAddress(c, code, i + 1))
    case Jump(l) => if l in code.labels then Some(LayerAddress(c, code, code.labels[l])) else None
    case Branch(_, _, _, _) => Some(LayerAddress(c, code, i + 1))
    case Leave(address) => Some(address)
  }

  function LayerRow(c: Config, code: Code, i: nat, slot: nat): Row
    requires c.Valid() && i < |code.layers| && StaticLink(c, code, i).Some?
  {
    var rows := BodyRows(c, code.layers[i]);
    if slot < FIRST then NOP
    else if slot - FIRST < |rows| then rows[slot - FIRST]
    else if slot == LINK then Row(c.LayerBits(), 0, StaticLink(c, code, i).value)
    else NOP
  }

  predicate LabelOk(code: Code, l: nat) {
    l in code.labels && code.labels[l] < |code.layers|
  }

  /** Layers have room for their rows, control stays inside the program, and all of it is protected. */
  ghost predicate WellFormed(c: Config, code: Code) {
    && c.Valid()
    && c.LayerBits() <= code.fixed <= code.base
    && LayerAddress(c, code, |code.layers|) <= code.limit
    && forall i {:trigger code.layers[i]} | 0 <= i < |code.layers| ::
        var layer := code.layers[i];
        && FIRST + |BodyRows(c, layer)| <= LINK
        && (layer.exit.Next? ==> i + 1 < |code.layers|)
        && (layer.exit.Jump? ==> LabelOk(code, layer.exit.tag))
        && (layer.exit.Branch? ==>
             && c.ab >= 6 && LabelOk(code, layer.exit.tag) && i + 1 < |code.layers|
             && code.fixed <= layer.exit.table && layer.exit.table + 64 <= code.base
             && layer.exit.table % 64 == 0)
  }

  /** Every layer's rows and every branch table lie in the space. */
  ghost predicate Image(c: Config, code: Code, s: Space)
    requires WellFormed(c, code)
  {
    && code.limit <= |s|
    && forall i | 0 <= i < |code.layers| :: LayerImage(c, code, s, i)
  }

  ghost predicate LayerImage(c: Config, code: Code, s: Space, i: nat)
    requires c.Valid() && i < |code.layers| && StaticLink(c, code, i).Some?
  {
    && var at := LayerAddress(c, code, i);
    && at + c.LayerBits() <= |s|
    && (forall slot {:trigger LayerRow(c, code, i, slot)} | 0 <= slot < SLOTS ::
         RowAt(c, s, at, slot) == LayerRow(c, code, i, slot))
    && var exit := code.layers[i].exit;
    && (exit.Branch? && exit.tag in code.labels ==>
         && exit.table + 32 + c.ab <= |s|
         && Val(s, exit.table, c.ab) == LayerAddress(c, code, BranchTarget(code, i, false))
         && Val(s, exit.table + 32, c.ab) == LayerAddress(c, code, BranchTarget(code, i, true)))
  }

  function BranchTarget(code: Code, i: nat, flag: bool): nat
    requires i < |code.layers| && code.layers[i].exit.Branch? && code.layers[i].exit.tag in code.labels
  {
    var exit := code.layers[i].exit;
    if flag != exit.inverted then code.labels[exit.tag] else i + 1
  }

  /** An operation that also leaves the program alone. */
  predicate Allowed(c: Config, code: Code, s: Space, op: Op)
    requires c.Valid()
  {
    && Safe(c, s, op)
    && var row := Effect(s, op);
    && (row.dst + row.n <= code.fixed || code.limit <= row.dst)
  }

  /** A point of a run: about to execute operation op of a layer; ticks counts the layers left behind. */
  datatype Point = Point(layer: nat, op: nat)
  datatype Conf = At(pt: Point, ticks: nat, space: Space)

  /** What the program means: one operation, or one transfer of control. */
  function Step(c: Config, code: Code, x: Conf): Option<Conf>
    requires c.Valid()
  {
    if x.pt.layer >= |code.layers| then None
    else
      var layer := code.layers[x.pt.layer];
      if x.pt.op < |layer.ops| then
        var op := layer.ops[x.pt.op];
        if Allowed(c, code, x.space, op)
        then Some(At(Point(x.pt.layer, x.pt.op + 1), x.ticks, ExecOp(c, x.space, op)))
        else None
      else
        match layer.exit
        case Next => Some(At(Point(x.pt.layer + 1, 0), x.ticks + 1, x.space))
        case Jump(l) => if l in code.labels then Some(At(Point(code.labels[l], 0), x.ticks + 1, x.space)) else None
        case Branch(flag, table, l, inverted) =>
          if l in code.labels && c.LayerBits() <= flag < |x.space|
          then Some(At(Point(BranchTarget(code, x.pt.layer, x.space[flag]), 0), x.ticks + 1, x.space))
          else None
        case Leave(_) => None
  }

  function Steps(c: Config, code: Code, x: Conf, k: nat): Option<Conf>
    requires c.Valid()
    decreases k
  {
    if k == 0 then Some(x)
    else match Step(c, code, x)
      case None => None
      case Some(y) => Steps(c, code, y, k - 1)
  }

  lemma {:induction false} StepsCompose(c: Config, code: Code, x: Conf, j: nat, k: nat)
    requires c.Valid() && Steps(c, code, x, j).Some?
    ensures Steps(c, code, x, j + k) == Steps(c, code, Steps(c, code, x, j).value, k)
    decreases j
  {
    if j > 0 {
      StepsCompose(c, code, Step(c, code, x).value, j - 1, k);
    }
  }

  /** The operation's target lies outside the program, so the program survives it. */
  lemma ImageKept(c: Config, code: Code, s: Space, t: Space)
    requires WellFormed(c, code) && Image(c, code, s) && |s| == |t|
    requires forall p {:trigger t[p]} | code.fixed <= p < code.limit :: t[p] == s[p]
    ensures Image(c, code, t)
  {
    hide LayerImage;
    forall i | 0 <= i < |code.layers| ensures LayerImage(c, code, t, i) {
      assert LayerImage(c, code, s, i);
      LayerKept(c, code, s, t, i);
    }
  }

  lemma LayerWithin(c: Config, code: Code, i: nat)
    requires WellFormed(c, code) && i < |code.layers|
    ensures code.base <= LayerAddress(c, code, i)
    ensures LayerAddress(c, code, i) + c.LayerBits() <= code.limit
  {
    MulMonotone(c.LayerBits(), i, |code.layers|);
  }

  lemma LayerKept(c: Config, code: Code, s: Space, t: Space, i: nat)
    requires WellFormed(c, code) && i < |code.layers| && code.limit <= |s| == |t|
    requires LayerImage(c, code, s, i)
    requires forall p {:trigger t[p]} | code.fixed <= p < code.limit :: t[p] == s[p]
    ensures LayerImage(c, code, t, i)
  {
    hide LayerRow, BodyRows, RowAt, Val, c.Offset;
    LayerWithin(c, code, i);
    var at := LayerAddress(c, code, i);
    forall slot {:trigger LayerRow(c, code, i, slot)} | 0 <= slot < SLOTS
      ensures RowAt(c, t, at, slot) == LayerRow(c, code, i, slot)
    {
      SlotInLayer(c, at, slot);
      RowFrame(c, t, at, s, at, slot);
    }
    var exit := code.layers[i].exit;
    if exit.Branch? {
      ValFrame(t, s, exit.table, c.ab);
      ValFrame(t, s, exit.table + 32, c.ab);
    }
  }

  lemma {:induction false} OpsRowsPrefix(c: Config, ops: seq<Op>, j: nat)
    requires c.Valid() && j <= |ops|
    ensures OpsRows(c, ops[..j]) <= OpsRows(c, ops)
    decreases |ops|
  {
    if j < |ops| {
      OpsRowsPrefix(c, ops[..|ops| - 1], j);
      assert ops[..|ops| - 1][..j] == ops[..j];
    } else {
      assert ops[..j] == ops;
    }
  }

  /** Where operation j of a layer starts. */
  function SlotOf(c: Config, ops: seq<Op>, j: nat): nat
    requires c.Valid() && j <= |ops|
  {
    FIRST + |OpsRows(c, ops[..j])|
  }

  /** The rows in front of the link hold operation j's rows from its slot on. */
  lemma BodyHolds(c: Config, layer: Layer, j: nat)
    requires c.Valid() && j < |layer.ops|
    ensures var k := SlotOf(c, layer.ops, j);
      var rows := OpRows(c, layer.ops[j], k);
      && SlotOf(c, layer.ops, j + 1) == k + |rows|
      && k + |rows| <= FIRST + |BodyRows(c, layer)|
      && forall m {:trigger rows[m]} | 0 <= m < |rows| :: BodyRows(c, layer)[k - FIRST + m] == rows[m]
  {
    hide OpRows;
    var before := layer.ops[..j + 1];
    assert before[..j] == layer.ops[..j];
    OpsRowsPrefix(c, layer.ops, j + 1);
    var k := SlotOf(c, layer.ops, j);
    assert OpsRows(c, before) == OpsRows(c, before[..j]) + OpRows(c, layer.ops[j], k);
  }

  /**
   * The machine is at a point of the program: the data agree, the program is in the space, and the
   * rows still to be executed are those of the layer.
   */
  ghost predicate Sim(c: Config, code: Code, x: Conf, u: Space, slot: nat)
    requires WellFormed(c, code)
  {
    && x.pt.layer < |code.layers|
    && var layer := code.layers[x.pt.layer];
    && x.pt.op <= |layer.ops|
    && Agree(c, x.space, u)
    && Image(c, code, x.space)
    && slot == SlotOf(c, layer.ops, x.pt.op)
    && Pending(c, code, x.pt.layer, u, slot)
  }

  ghost predicate Pending(c: Config, code: Code, i: nat, u: Space, slot: nat)
    requires WellFormed(c, code) && i < |code.layers| && c.LayerBits() <= |u|
  {
    forall k {:trigger LayerRow(c, code, i, k)} | slot <= k < SLOTS :: RowAt(c, u, 0, k) == LayerRow(c, code, i, k)
  }

  lemma SimOp(c: Config, code: Code, x: Conf, u: Space, slot: nat) returns (v: Space, next: nat)
    requires WellFormed(c, code) && Sim(c, code, x, u, slot)
    requires x.pt.op < |code.layers[x.pt.layer].ops| && Step(c, code, x).Some?
    ensures Sim(c, code, Step(c, code, x).value, v, next)
    ensures slot <= next <= SLOTS && RunSlots(c, u, slot, next) == Some(v)
  {
    hide RowAt, BodyRows, OpsRows, Effect, LayerImage;
    var i := x.pt.layer;
    var layer := code.layers[i];
    var op := layer.ops[x.pt.op];
    BodyHolds(c, layer, x.pt.op);
    var rows := OpRows(c, op, slot);
    forall j {:trigger rows[j]} | 0 <= j < |rows| ensures RowAt(c, u, 0, slot + j) == rows[j] {
      assert LayerRow(c, code, i, slot + j) == rows[j];
    }
    OpRun(c, x.space, u, op, slot);
    next := slot + |rows|;
    v := RunSlots(c, u, slot, next).value;
    ImageKept(c, code, x.space, ExecOp(c, x.space, op));
    forall k {:trigger LayerRow(c, code, i, k)} | next <= k < SLOTS
      ensures RowAt(c, v, 0, k) == LayerRow(c, code, i, k)
    {
      assert RowAt(c, u, 0, k) == LayerRow(c, code, i, k);
    }
  }

  /** Empty rows do nothing. */
  lemma {:induction false} NopsRun(c: Config, u: Space, from: nat, to: nat)
    requires c.Valid() && c.LayerBits() <= |u| && from <= to <= SLOTS
    requires forall k | from <= k < to :: RowAt(c, u, 0, k).n == 0
    ensures RunSlots(c, u, from, to) == Some(u)
    decreases (to as int) - from
  {
    if from < to {
      NopsRun(c, u, from + 1, to);
    }
  }

  /** The space at the start of a tick has nothing for the channels to do, and something to run. */
  ghost predicate Quiet(c: Config, u: Space)
    requires c.Valid() && c.LayerBits() <= |u|
  {
    && RowAt(c, u, 0, 1).n == 0 && RowAt(c, u, 0, 2).n == 0
    && exists k | 0 <= k < SLOTS :: RowAt(c, u, 0, k).n != 0
  }

  /** The machine goes from a slot of one tick to a slot of the tick that starts n ticks later. */
  ghost predicate Reaches(c: Config, u: Space, slot: nat, v: Space, goal: nat, n: nat)
    requires c.Valid() && c.LayerBits() <= |u| && slot <= SLOTS
    decreases n
  {
    if n == 0 then
      slot <= goal <= SLOTS && RunSlots(c, u, slot, goal) == Some(v)
    else
      && RunSlots(c, u, slot, SLOTS).Some?
      && var w := RunSlots(c, u, slot, SLOTS).value;
      && Quiet(c, w) && Reaches(c, w, 0, v, goal, n - 1)
  }

  lemma ReachesLater(c: Config, u: Space, slot: nat, w: Space, mid: nat, v: Space, goal: nat, n: nat)
    requires c.Valid() && c.LayerBits() <= |u| && slot <= mid <= SLOTS
    requires RunSlots(c, u, slot, mid) == Some(w) && Reaches(c, w, mid, v, goal, n)
    ensures Reaches(c, u, slot, v, goal, n)
  {
    if n == 0 {
      RunSplit(c, u, slot, mid, goal);
    } else {
      RunSplit(c, u, slot, mid, SLOTS);
    }
  }

  /** The link row loads a layer: the next tick starts with that layer's rows. */
  lemma LinkRun(c: Config, code: Code, s: Space, u: Space, goal: nat) returns (v: Space)
    requires WellFormed(c, code) && Image(c, code, s) && Agree(c, s, u) && goal < |code.layers|
    requires RowAt(c, u, 0, LINK) == Row(c.LayerBits(), 0, LayerAddress(c, code, goal))
    ensures RunSlots(c, u, LINK, SLOTS) == Some(v)
    ensures Sim(c, code, At(Point(goal, 0), 0, s), v, FIRST)
    ensures Quiet(c, v) && RunSlots(c, v, 0, FIRST) == Some(v)
  {
    hide RowAt, BodyRows, OpsRows;
    LayerWithin(c, code, goal);
    assert LayerImage(c, code, s, goal);
    var at := LayerAddress(c, code, goal);
    v := CopyBits(u, c.LayerBits(), 0, at);
    RunOne(c, u, LINK);
    forall k {:trigger LayerRow(c, code, goal, k)} | 0 <= k < SLOTS
      ensures RowAt(c, v, 0, k) == LayerRow(c, code, goal, k)
    {
      SlotInLayer(c, 0, k);
      RowFrame(c, v, 0, s, at, k);
    }
    assert LayerRow(c, code, goal, LINK).n == c.LayerBits();
    assert RowAt(c, v, 0, LINK).n != 0;
    forall k | 0 <= k < FIRST ensures RowAt(c, v, 0, k).n == 0 {
      assert LayerRow(c, code, goal, k) == NOP;
    }
    NopsRun(c, v, 0, FIRST);
    NoOps(c, code.layers[goal].ops);
  }

  lemma NoOps(c: Config, ops: seq<Op>)
    requires c.Valid()
    ensures SlotOf(c, ops, 0) == FIRST
  {
  }

  lemma SelectValue(table: nat, flag: nat)
    requires table % 64 == 0 && flag < 2
    ensures Replace(table, 5, 1, flag) == table + 32 * flag
  {
    hide Replace;
    assert Pow2(1) == 2 && Pow2(5) == 32 && Pow2(6) == 64;
    ReplaceZeros(0, table / 64, 5, 1, flag);
  }

  /** A branch loads the link with the table entry its flag selects. */
  lemma BranchRun(c: Config, code: Code, s: Space, u: Space, i: nat) returns (v: Space)
    requires WellFormed(c, code) && Image(c, code, s) && Agree(c, s, u) && i < |code.layers|
    requires code.layers[i].exit.Branch?
    requires var flag := code.layers[i].exit.flag; c.LayerBits() <= flag < |s|
    requires Pending(c, code, i, u, SlotOf(c, code.layers[i].ops, |code.layers[i].ops|))
    ensures var layer := code.layers[i];
      var slot := SlotOf(c, layer.ops, |layer.ops|);
      && slot + 2 <= LINK
      && RunSlots(c, u, slot, slot + 2) == Some(v)
      && Agree(c, s, v)
      && (forall k | slot + 2 <= k < LINK :: RowAt(c, v, 0, k).n == 0)
      && RowAt(c, v, 0, LINK) == Row(c.LayerBits(), 0, LayerAddress(c, code, BranchTarget(code, i, s[layer.exit.flag])))
  {
    hide RowAt, OpsRows, Replace, Val;
    var layer := code.layers[i];
    assert layer.ops[..|layer.ops|] == layer.ops;
    var slot := SlotOf(c, layer.ops, |layer.ops|);
    var op := BranchOp(c, layer.exit);
    var rows := OpRows(c, op, slot);
    assert BodyRows(c, layer) == OpsRows(c, layer.ops) + rows;
    forall j {:trigger rows[j]} | 0 <= j < |rows| ensures RowAt(c, u, 0, slot + j) == rows[j] {
      assert LayerRow(c, code, i, slot + j) == rows[j];
    }
    PatchesRun(c, s, u, op, slot, 1);
    assert op.patches[..1] == op.patches;
    var w := RunSlots(c, u, slot, slot + 1).value;
    assert RowAt(c, u, 0, LINK) == LayerRow(c, code, i, LINK);
    v := LinkPatched(c, code, s, w, i, slot + 1);
    RunSplit(c, u, slot, slot + 1, slot + 2);
    forall k | slot + 2 <= k < LINK ensures RowAt(c, v, 0, k).n == 0 {
      assert LayerRow(c, code, i, k) == NOP;
      assert RowAt(c, u, 0, k) == NOP;
      assert RowAt(c, w, 0, k) == NOP;
    }
  }

  /** The patched read of a branch replaces the source of the link row. */
  lemma LinkPatched(c: Config, code: Code, s: Space, w: Space, i: nat, slot: nat) returns (v: Space)
    requires WellFormed(c, code) && Image(c, code, s) && Agree(c, s, w) && i < |code.layers|
    requires code.layers[i].exit.Branch? && code.layers[i].exit.flag < |s| && FIRST <= slot < LINK
    requires RowAt(c, w, 0, slot) == Effect(s, BranchOp(c, code.layers[i].exit))
    ensures RunSlots(c, w, slot, slot + 1) == Some(v)
    ensures Agree(c, s, v) && SameRows(c, w, v, 0, LINK)
    ensures RowAt(c, v, 0, LINK) == RowAt(c, w, 0, LINK).(
      src := LayerAddress(c, code, BranchTarget(code, i, s[code.layers[i].exit.flag])))
  {
    hide RowAt, BodyRows, Replace, Val, Effect, LayerRow;
    BranchEffect(c, code, s, i);
    var row := Effect(s, BranchOp(c, code.layers[i].exit));
    SlotInLayer(c, 0, LINK);
    RunOne(c, w, slot);
    v := CopyBits(w, row.n, row.dst, row.src);
    CopyInside(w, row.n, row.dst, row.src, row.dst, row.n);
    ValFrame(w, s, row.src, c.ab);
    WriteInRow(c, w, v, LINK);
    WriteInField(c, w, v, LINK, SrcField, 0, c.ab);
    LinkBound(c, w);
    ReplaceAll(RowAt(c, w, 0, LINK).src, c.ab, Val(v, row.dst, c.ab));
  }

  lemma LinkBound(c: Config, u: Space)
    requires c.Valid() && c.LayerBits() <= |u|
    ensures RowAt(c, u, 0, LINK).src < Pow2(c.ab)
  {
  }

  lemma BranchEffect(c: Config, code: Code, s: Space, i: nat)
    requires WellFormed(c, code) && Image(c, code, s) && i < |code.layers|
    requires code.layers[i].exit.Branch? && code.layers[i].exit.flag < |s|
    ensures var exit := code.layers[i].exit;
      var op := BranchOp(c, exit);
      var row := Effect(s, op);
      && row.n == c.ab && row.dst == op.dst && code.fixed <= row.src && row.src + c.ab <= |s|
      && Val(s, row.src, c.ab) == LayerAddress(c, code, BranchTarget(code, i, s[exit.flag]))
  {
    hide RowAt, LayerRow, BodyRows, Val, Replace, Patched, LayerAddress;
    var exit := code.layers[i].exit;
    assert LayerImage(c, code, s, i);
    BranchField(c, s, exit);
  }

  lemma BranchField(c: Config, s: Space, exit: Exit)
    requires c.Valid() && exit.Branch? && exit.table % 64 == 0 && exit.flag < |s|
    ensures var op := BranchOp(c, exit);
      Effect(s, op) == Row(c.ab, op.dst, if s[exit.flag] then exit.table + 32 else exit.table)
  {
    var p := Patch(SrcField, 5, 1, exit.flag);
    PatchedOne(s, LinkField(c), DstField, p);
    PatchedOne(s, exit.table, SrcField, p);
    assert Val(s, exit.flag, 1) == Bit(s[exit.flag]) + 2 * Val(s, exit.flag + 1, 0);
    SelectValue(exit.table, Bit(s[exit.flag]));
  }

  /** A transfer of control takes the rest of the tick. */
  lemma SimExit(c: Config, code: Code, x: Conf, u: Space, slot: nat) returns (v: Space)
    requires WellFormed(c, code) && Sim(c, code, x, u, slot)
    requires x.pt.op == |code.layers[x.pt.layer].ops| && Step(c, code, x).Some?
    ensures Sim(c, code, Step(c, code, x).value, v, FIRST)
    ensures slot <= SLOTS && RunSlots(c, u, slot, SLOTS) == Some(v)
    ensures Quiet(c, v) && RunSlots(c, v, 0, FIRST) == Some(v)
  {
    hide RowAt, OpsRows, Val, LayerImage;
    var i := x.pt.layer;
    var layer := code.layers[i];
    assert layer.ops[..|layer.ops|] == layer.ops;
    var w, from := u, slot;
    if layer.exit.Branch? {
      w := BranchRun(c, code, x.space, u, i);
      from := slot + 2;
      RunSplit(c, u, slot, from, SLOTS);
    } else {
      forall k | slot <= k < LINK ensures RowAt(c, u, 0, k).n == 0 {
        assert LayerRow(c, code, i, k) == NOP;
      }
      assert RowAt(c, u, 0, LINK) == LayerRow(c, code, i, LINK);
    }
    NopsRun(c, w, from, LINK);
    v := LinkRun(c, code, x.space, w, Step(c, code, x).value.pt.layer);
    RunSplit(c, w, from, LINK, SLOTS);
  }

  /**
   * The copy machine running the image does what the program means, whatever the program: the
   * machine started at a point of the program arrives, one tick per transfer of control, at the
   * point the program arrives at, with the same data behind the processor.
   */
  lemma {:induction false} Simulation(c: Config, code: Code, x: Conf, k: nat, u: Space, slot: nat)
    returns (v: Space, goal: nat)
    requires WellFormed(c, code) && Sim(c, code, x, u, slot)
    requires Steps(c, code, x, k).Some?
    ensures var y := Steps(c, code, x, k).value;
      && x.ticks <= y.ticks
      && slot <= SLOTS
      && Sim(c, code, y, v, goal)
      && Reaches(c, u, slot, v, goal, y.ticks - x.ticks)
    decreases k
  {
    hide *;
    SlotBounds(c, code, x, u, slot);
    StepsUnfold(c, code, x, k);
    if k == 0 {
      v, goal := u, slot;
      ReachesHere(c, u, slot);
    } else {
      var y, z := Step(c, code, x).value, Steps(c, code, x, k).value;
      if x.pt.op < |code.layers[x.pt.layer].ops| {
        var w, next := SimOp(c, code, x, u, slot);
        v, goal := Simulation(c, code, y, k - 1, w, next);
        ReachesLater(c, u, slot, w, next, v, goal, z.ticks - x.ticks);
      } else {
        var w := SimExit(c, code, x, u, slot);
        v, goal := Simulation(c, code, y, k - 1, w, FIRST);
        ReachesLater(c, w, 0, w, FIRST, v, goal, z.ticks - y.ticks);
        ReachesTick(c, u, slot, w, v, goal, z.ticks - y.ticks);
      }
    }
  }

  lemma StepsUnfold(c: Config, code: Code, x: Conf, k: nat)
    requires c.Valid() && Steps(c, code, x, k).Some?
    ensures k == 0 ==> Steps(c, code, x, k).value == x
    ensures k > 0 ==>
      && Step(c, code, x).Some?
      && Steps(c, code, Step(c, code, x).value, k - 1) == Steps(c, code, x, k)
      && x.pt.layer < |code.layers|
      && Step(c, code, x).value.ticks ==
           if x.pt.op < |code.layers[x.pt.layer].ops| then x.ticks else x.ticks + 1
  {
    if k > 0 {
      StepTicks(c, code, x);
    }
  }

  lemma ReachesHere(c: Config, u: Space, slot: nat)
    requires c.Valid() && c.LayerBits() <= |u| && slot <= SLOTS
    ensures Reaches(c, u, slot, u, slot, 0)
  {
  }

  lemma ReachesTick(c: Config, u: Space, slot: nat, w: Space, v: Space, goal: nat, n: nat)
    requires c.Valid() && c.LayerBits() <= |u| && slot <= SLOTS
    requires RunSlots(c, u, slot, SLOTS) == Some(w) && Quiet(c, w) && Reaches(c, w, 0, v, goal, n)
    ensures Reaches(c, u, slot, v, goal, n + 1)
  {
  }

  lemma StepTicks(c: Config, code: Code, x: Conf)
    requires c.Valid() && Step(c, code, x).Some?
    ensures x.pt.layer < |code.layers|
    ensures Step(c, code, x).value.ticks ==
      if x.pt.op < |code.layers[x.pt.layer].ops| then x.ticks else x.ticks + 1
  {
  }

  lemma SlotBounds(c: Config, code: Code, x: Conf, u: Space, slot: nat)
    requires WellFormed(c, code) && Sim(c, code, x, u, slot)
    ensures x.pt.layer < |code.layers| && x.pt.op <= |code.layers[x.pt.layer].ops|
    ensures c.Valid() && c.LayerBits() <= |u| && slot <= LINK <= SLOTS
  {
    var layer := code.layers[x.pt.layer];
    OpsRowsPrefix(c, layer.ops, x.pt.op);
  }
}