/** A linked image is the image of a well-formed program, and the emulator runs it. */
module Images {
  import opened Bits
  import opened Machine
  import opened Layers
  import opened Programs
  import opened Emission
  import opened Items
  import opened Lookups
  import opened CopyEmit
  import opened Sheets
  import opened Compare
  import opened Multiply
  import opened Report
  import opened Linker

  /** The program that a linked image holds; its last layer leads to the layer of the report. */
  function Linked(c: Config, begin: nat, b: Builder, adds: bool, subs: bool): Code
    requires c.Valid()
  {
    Code(begin, BRANCH_TABLE, LayerAt(c, begin, |b.done| + 2), b.done + [Layer(b.cur, Leave(ReportAt(c, begin, b)))], b.labels, adds, subs)
  }

  function ReportAt(c: Config, begin: nat, b: Builder): nat
    requires c.Valid()
  {
    LayerAt(c, begin, |b.done| + 1)
  }

  /** The layer of the report: the row of OUT, and a link to the layer of zeros. */
  function ReportLayer(c: Config): (rows: seq<Row>)
    requires c.Valid()
    ensures |rows| == SLOTS
  {
    EmptyLayer()[2 := Row(32, OUTPUT, STATUS)][LINK := Row(c.LayerBits(), 0, ZERO_LAYER)]
  }

  lemma LinkedHolds(c: Config, begin: nat, b: Builder, adds: bool, subs: bool)
    requires c.Valid()
    ensures var code := Linked(c, begin, b, adds, subs);
      Contains(code, b) && LabelsKept(code, b)
  {
  }

  lemma TurnEntry(c: Config, begin: nat, jumps: seq<JumpEntry>, branches: seq<nat>, b: Builder, i: nat) returns (j: nat)
    requires c.Valid() && JumpsTied(c, begin, jumps, branches, Close(b, Next)) && i < |b.done| && Turns(b.done[i].exit)
    ensures j < |jumps| && JumpTied(c, begin, jumps[j], j, i, b)
  {
    var e := Close(b, Next);
    assert e.done[i] == b.done[i];
    assert i in branches;
    j :| 0 <= j < |branches| && branches[j] == i;
    assert JumpTied(c, begin, jumps[j], j, branches[j], e);
  }

  lemma LinkedWellFormed(c: Config, cap: Capacity, sheet: Sheet, b: Builder, jumps: seq<JumpEntry>, branches: seq<nat>, adds: bool, subs: bool)
    requires c.Valid() && c.LayerBits() < Pow2(c.ab - 1) && Laid(c, CodeBegin(cap), sheet, Close(b, Next)) && BranchesBound(b)
    requires JumpsTied(c, CodeBegin(cap), jumps, branches, Close(b, Next)) && |jumps| <= cap.jumps
    ensures WellFormed(c, Linked(c, CodeBegin(cap), b, adds, subs))
  {
    var begin := CodeBegin(cap);
    var code := Linked(c, begin, b, adds, subs);
    EnoughBits(c);
    hide BodyRows, Pow2;
    LayerInside(c, begin, |b.done| + 1, |b.done| + 2);
    forall i {:trigger code.layers[i]} | 0 <= i < |code.layers| ensures LayerOk(c, code, i) {
      OneLayerOk(c, cap, sheet, b, jumps, branches, adds, subs, i);
    }
  }

  lemma OneLayerOk(c: Config, cap: Capacity, sheet: Sheet, b: Builder, jumps: seq<JumpEntry>, branches: seq<nat>,
                   adds: bool, subs: bool, i: nat)
    requires c.Valid() && 6 <= c.ab && Laid(c, CodeBegin(cap), sheet, Close(b, Next)) && BranchesBound(b) && i <= |b.done|
    requires JumpsTied(c, CodeBegin(cap), jumps, branches, Close(b, Next)) && |jumps| <= cap.jumps
    ensures LayerOk(c, Linked(c, CodeBegin(cap), b, adds, subs), i)
  {
    hide Laid, JumpsTied, BodyRows, LayerAt, TableAt;
    BodyFits(c, CodeBegin(cap), sheet, b, adds, subs, i);
    if i < |b.done| && b.done[i].exit.Branch? {
      var j := TurnEntry(c, CodeBegin(cap), jumps, branches, b, i);
      TableFits(cap, j, |jumps|);
      TableAligned(j);
    }
  }

  lemma BodyFits(c: Config, begin: nat, sheet: Sheet, b: Builder, adds: bool, subs: bool, i: nat)
    requires c.Valid() && Laid(c, begin, sheet, Close(b, Next)) && i <= |b.done|
    ensures var layer := Linked(c, begin, b, adds, subs).layers[i];
      FIRST + |BodyRows(c, layer)| <= LINK && (i < |b.done| ==> layer == b.done[i]) && (i == |b.done| ==> layer.exit.Leave?)
  {
    hide OpsRows, OpRows, LayerAt;
    var e := Close(b, Next);
    assert Finished(c, begin, sheet.layers[i], e.done[i], i);
    if i < |b.done| {
      assert e.done[i] == b.done[i];
    } else {
      assert e.done[i] == Layer(b.cur, Next);
    }
  }

  lemma TableAligned(j: nat)
    ensures TableAt(j) % 64 == 0 && BRANCH_TABLE <= TableAt(j)
  {
  }

  /** What WellFormed asks of one layer. */
  ghost predicate LayerOk(c: Config, code: Code, i: nat)
    requires c.Valid() && i < |code.layers|
  {
    var layer := code.layers[i];
    && FIRST + |BodyRows(c, layer)| <= LINK
    && (layer.exit.Next? ==> i + 1 < |code.layers|)
    && (layer.exit.Jump? ==> LabelOk(code, layer.exit.tag))
    && (layer.exit.Branch? ==>
         && c.ab >= 6 && LabelOk(code, layer.exit.tag) && i + 1 < |code.layers|
         && code.fixed <= layer.exit.table && layer.exit.table + 64 <= code.base
         && layer.exit.table % 64 == 0)
  }

  /** The layers of a linked image, the report's layer included. */
  function LinkedLayers(c: Config, layers: seq<seq<Row>>): (r: seq<seq<Row>>)
    requires c.Valid() && layers != [] && |layers[|layers| - 1]| == SLOTS
    ensures |r| == |layers|
  {
    var n := |layers| - 1;
    SetRow(SetRow(layers, n, 2, Row(32, OUTPUT, STATUS)), n, LINK, Row(c.LayerBits(), 0, ZERO_LAYER))
  }

  /** The image: every layer's rows, every branch's table, and the layer of the report. */
  lemma LinkedImage(c: Config, cap: Capacity, s: Space, sheet: Sheet, b: Builder, labels: seq<Option<nat>>, report: nat,
                    jumps: seq<JumpEntry>, branches: seq<nat>, adds: bool, subs: bool)
    requires c.Valid() && c.LayerBits() < Pow2(c.ab - 1) && Laid(c, CodeBegin(cap), sheet, Close(b, Next)) && BranchesBound(b)
    requires JumpsTied(c, CodeBegin(cap), jumps, branches, Close(b, Next)) && |jumps| <= cap.jumps
    requires LabelsTied(c, CodeBegin(cap), labels, Close(b, Next)) && ReportTied(c, CodeBegin(cap), report, b)
    requires Resolved(s, c, jumps, labels, report, |jumps|) && JumpsLed(c, CodeBegin(cap), sheet.layers, Close(b, Next))
    requires LayerAt(c, CodeBegin(cap), |b.done| + 2) <= |s| <= Pow2(c.ab)
    requires |sheet.layers[|sheet.layers| - 1]| == SLOTS && Written(c, s, CodeBegin(cap), LinkedLayers(c, sheet.layers))
    ensures var code := Linked(c, CodeBegin(cap), b, adds, subs); WellFormed(c, code) && Image(c, code, s)
    ensures Holds(c, s, ReportAt(c, CodeBegin(cap), b), ReportLayer(c))
  {
    var begin := CodeBegin(cap);
    var code := Linked(c, begin, b, adds, subs);
    ReportHeld(c, begin, s, sheet, b);
    LinkedWellFormed(c, cap, sheet, b, jumps, branches, adds, subs);
    hide Laid, JumpsTied, LabelsTied, Resolved, Written, BranchesBound, LayerImage, LayerAt, WellFormed, SetRow, JumpsLed, Holds;
    forall i | 0 <= i < |code.layers| ensures LayerImage(c, code, s, i) {
      LayerRowsHold(c, begin, s, sheet, b, adds, subs, i);
      if i < |b.done| && b.done[i].exit.Branch? {
        TablesHold(c, cap, s, b, labels, report, jumps, branches, adds, subs, i);
      }
      LayerImageIs(c, code, s, i);
    }
  }

  lemma ReportHeld(c: Config, begin: nat, s: Space, sheet: Sheet, b: Builder)
    requires c.Valid() && Laid(c, begin, sheet, Close(b, Next)) && |sheet.layers[|sheet.layers| - 1]| == SLOTS
    requires Written(c, s, begin, LinkedLayers(c, sheet.layers))
    ensures Holds(c, s, ReportAt(c, begin, b), ReportLayer(c))
  {
    hide Finished, Holds, LayerAt;
    NoOpsRows(c);
    var n := |b.done| + 1;
    var layers := LinkedLayers(c, sheet.layers);
    assert sheet.layers[n] == Filled([], NOP) == EmptyLayer();
    assert layers[n] == ReportLayer(c);
    assert Holds(c, s, LayerAt(c, begin, n), layers[n]);
  }

  lemma LayerRowsHold(c: Config, begin: nat, s: Space, sheet: Sheet, b: Builder, adds: bool, subs: bool, i: nat)
    requires c.Valid() && Laid(c, begin, sheet, Close(b, Next)) && i <= |b.done| && |sheet.layers[|sheet.layers| - 1]| == SLOTS
    requires Written(c, s, begin, LinkedLayers(c, sheet.layers)) && JumpsLed(c, begin, sheet.layers, Close(b, Next))
    requires BranchesBound(b)
    ensures RowsHold(c, Linked(c, begin, b, adds, subs), s, i)
  {
    hide OpsRows, OpRows, RowAt;
    var code := Linked(c, begin, b, adds, subs);
    var e := Close(b, Next);
    var layers := LinkedLayers(c, sheet.layers);
    assert layers[i] == sheet.layers[i];
    assert Holds(c, s, LayerAt(c, begin, i), layers[i]);
    assert Finished(c, begin, sheet.layers[i], e.done[i], i);
    assert Led(c, begin, sheet.layers[i], e.done[i], e.labels);
    if i < |b.done| {
      assert e.done[i] == b.done[i] == code.layers[i];
    }
    var link := if e.done[i].exit.Jump? then layers[i][LINK] else LinkTo(c, begin, i + 1);
    assert layers[i] == Filled(BodyRows(c, e.done[i]), link);
    forall k {:trigger LayerRow(c, code, i, k)} | 0 <= k < SLOTS ensures RowAt(c, s, LayerAddress(c, code, i), k) == LayerRow(c, code, i, k) {
      assert layers[i][k] == LayerRow(c, code, i, k);
    }
  }

  ghost predicate RowsHold(c: Config, code: Code, s: Space, i: nat)
    requires c.Valid() && i < |code.layers|
  {
    && StaticLink(c, code, i).Some?
    && LayerAddress(c, code, i) + c.LayerBits() <= |s|
    && forall k {:trigger LayerRow(c, code, i, k)} | 0 <= k < SLOTS :: RowAt(c, s, LayerAddress(c, code, i), k) == LayerRow(c, code, i, k)
  }

  lemma TablesHold(c: Config, cap: Capacity, s: Space, b: Builder, labels: seq<Option<nat>>, report: nat, jumps: seq<JumpEntry>,
                   branches: seq<nat>, adds: bool, subs: bool, i: nat)
    requires c.Valid() && i < |b.done| && b.done[i].exit.Branch?
    requires JumpsTied(c, CodeBegin(cap), jumps, branches, Close(b, Next)) && |jumps| <= cap.jumps
    requires LabelsTied(c, CodeBegin(cap), labels, Close(b, Next)) && ReportTied(c, CodeBegin(cap), report, b)
    requires Resolved(s, c, jumps, labels, report, |jumps|)
    requires LayerAt(c, CodeBegin(cap), |b.done| + 2) <= |s| <= Pow2(c.ab) && BranchesBound(b)
    ensures TableHolds(c, Linked(c, CodeBegin(cap), b, adds, subs), s, i)
  {
    hide LabelsTied, Pow2, Val;
    var begin := CodeBegin(cap);
    var code := Linked(c, begin, b, adds, subs);
    var exit := b.done[i].exit;
    var j := TurnEntry(c, begin, jumps, branches, b, i);
    var jump := jumps[j];
    assert TableReady(s, jump, j, labels, report);
    LabelIs(c, begin, labels, report, b, exit.tag);
    var target := Known(labels, report, exit.tag).value;
    LayerInside(c, begin, i + 1, |b.done| + 2);
    LayerInside(c, begin, b.labels[exit.tag], |b.done| + 2);
    ShortVal(s, TableAt(j), c.ab, 32, if jump.inverted then target else jump.fallthrough);
    ShortVal(s, TableAt(j) + 32, c.ab, 32, if jump.inverted then jump.fallthrough else target);
  }

  lemma LabelIs(c: Config, begin: nat, labels: seq<Option<nat>>, report: nat, b: Builder, tag: nat)
    requires c.Valid() && LabelsTied(c, begin, labels, Close(b, Next)) && ReportTied(c, begin, report, b) && tag in b.labels
    ensures Known(labels, report, tag) == Some(LayerAt(c, begin, b.labels[tag]))
  {
    hide LayerAt;
  }

  ghost predicate TableHolds(c: Config, code: Code, s: Space, i: nat)
    requires c.Valid() && i < |code.layers|
  {
    var exit := code.layers[i].exit;
    exit.Branch? && exit.tag in code.labels ==>
      && exit.table + 32 + c.ab <= |s|
      && Val(s, exit.table, c.ab) == LayerAddress(c, code, BranchTarget(code, i, false))
      && Val(s, exit.table + 32, c.ab) == LayerAddress(c, code, BranchTarget(code, i, true))
  }

  lemma LayerImageIs(c: Config, code: Code, s: Space, i: nat)
    requires c.Valid() && i < |code.layers| && RowsHold(c, code, s, i) && TableHolds(c, code, s, i)
    ensures LayerImage(c, code, s, i)
  {
  }

  /** A small number written in many bits is found in the first w of them. */
  lemma ShortVal(s: Space, at: nat, w: nat, n: nat, v: nat)
    requires w <= n && at + n <= |s| && Val(s, at, n) == v % Pow2(n) && v < Pow2(w)
    ensures Val(s, at, w) == v
  {
    hide Val;
    ValSplit(s, at, w, n - w);
    PowAtLeast(w, n - w);
    hide Pow2;
    SmallMod(v, Pow2(n));
    NoHigh(Val(s, at, w), Val(s, at + w, n - w), Pow2(w), v);
  }

  lemma NoHigh(low: nat, high: nat, p: nat, v: nat)
    requires v == low + p * high && v < p
    ensures low == v
  {
    if high > 0 {
      MulMonotone(p, 0, high);
    }
  }

  lemma PowAtLeast(a: nat, b: nat)
    ensures Pow2(a) <= Pow2(a + b)
  {
    Pow2Add(a, b);
    MulAtLeast(Pow2(a), 1, Pow2(b));
  }

  /** Where an item goes, if not on to the next one. */
  ghost predicate LeadsTo(x: Item, tag: nat) {
    (x.Goto? || x.Leap?) && x.tag == tag
  }

  /** Every branch and jump of the list names a label of the list. */
  ghost predicate Closed(items: seq<Item>) {
    forall x {:trigger x in items} | x in items && (x.Goto? || x.Leap?) :: Binds(items, x.tag)
  }

  /** The jumps and labels of a builder come from its items. */
  ghost predicate FromItems(b: Builder, items: seq<Item>) {
    && (forall l | l in b.labels :: b.labels[l] <= |b.done|)
    && (forall l: nat {:trigger Binds(items, l)} | Binds(items, l) :: l in b.labels)
    && forall i {:trigger b.done[i]} | 0 <= i < |b.done| && Turns(b.done[i].exit) ::
         exists x :: x in items && LeadsTo(x, b.done[i].exit.tag)
  }

  lemma {:induction false} EmitFrom(c: Config, b: Builder, items: seq<Item>)
    requires c.Valid() && FromItems(b, [])
    ensures FromItems(Emit(c, b, items), items)
    decreases |items|
  {
    if items != [] {
      var most, item := items[..|items| - 1], items[|items| - 1];
      EmitFrom(c, b, most);
      assert items == most + [item];
      assert forall x | x in most :: x in items;
      OneFrom(c, Emit(c, b, most), most, item);
    }
  }

  lemma OneFrom(c: Config, b: Builder, items: seq<Item>, item: Item)
    requires c.Valid() && FromItems(b, items)
    ensures FromItems(EmitItem(c, b, item), items + [item])
  {
    hide SlotOfBuilder;
    match item
    case Straight(chunks) =>
      ChunksFrom(c, b, items, chunks);
      MoreFrom(EmitChunks(c, b, chunks), items, item);
    case Bind(tag) => BindFrom(c, b, items, item);
    case Mark(tag) => BindFrom(c, b, items, item);
    case Goto(tag, flag, inverted) => TurnFrom(Room(c, b, 2), EmitItem(c, b, item), items, item);
    case Leap(tag) => TurnFrom(b, EmitItem(c, b, item), items, item);
  }

  lemma MoreFrom(b: Builder, items: seq<Item>, item: Item)
    requires FromItems(b, items) && !item.Bind? && !item.Mark?
    ensures FromItems(b, items + [item])
  {
    forall l: nat {:trigger Binds(items + [item], l)} | Binds(items + [item], l) ensures l in b.labels {
      assert Binds(items, l);
    }
    forall i {:trigger b.done[i]} | 0 <= i < |b.done| && Turns(b.done[i].exit)
      ensures exists x :: x in items + [item] && LeadsTo(x, b.done[i].exit.tag)
    {
      var x :| x in items && LeadsTo(x, b.done[i].exit.tag);
      assert x in items + [item];
    }
  }

  lemma BindFrom(c: Config, b: Builder, items: seq<Item>, item: Item)
    requires c.Valid() && FromItems(b, items) && (item.Bind? || item.Mark?)
    ensures FromItems(EmitItem(c, b, item), items + [item])
  {
    var r := EmitItem(c, b, item);
    forall l: nat {:trigger Binds(items + [item], l)} | Binds(items + [item], l) ensures l in r.labels {
      assert l == item.tag || Binds(items, l);
    }
    forall i {:trigger r.done[i]} | 0 <= i < |r.done| && Turns(r.done[i].exit)
      ensures exists x :: x in items + [item] && LeadsTo(x, r.done[i].exit.tag)
    {
      assert r.done[i] == b.done[i];
      var x :| x in items && LeadsTo(x, b.done[i].exit.tag);
      assert x in items + [item];
    }
  }

  /** A layer closed by the branch or jump of an item. */
  lemma TurnFrom(b: Builder, r: Builder, items: seq<Item>, item: Item)
    requires FromItems(b, items) && (item.Goto? || item.Leap?) && r.labels == b.labels
    requires |r.done| == |b.done| + 1 && r.done[..|b.done|] == b.done
    requires Turns(r.done[|b.done|].exit) && r.done[|b.done|].exit.tag == item.tag
    ensures FromItems(r, items + [item])
  {
    forall l: nat {:trigger Binds(items + [item], l)} | Binds(items + [item], l) ensures l in b.labels {
      assert Binds(items, l);
    }
    forall i {:trigger r.done[i]} | 0 <= i < |r.done| && Turns(r.done[i].exit)
      ensures exists x :: x in items + [item] && LeadsTo(x, r.done[i].exit.tag)
    {
      if i < |b.done| {
        assert r.done[i] == b.done[i];
        var x :| x in items && LeadsTo(x, b.done[i].exit.tag);
        assert x in items + [item];
      } else {
        assert item in items + [item] && LeadsTo(item, item.tag);
      }
    }
  }

  lemma {:induction false} ChunksFrom(c: Config, b: Builder, items: seq<Item>, chunks: seq<seq<Op>>)
    requires c.Valid() && FromItems(b, items)
    ensures FromItems(EmitChunks(c, b, chunks), items)
    decreases |chunks|
  {
    hide SlotOfBuilder;
    if chunks != [] {
      ChunksFrom(c, b, items, chunks[..|chunks| - 1]);
    }
  }

  lemma ClosedBound(c: Config, items: seq<Item>)
    requires c.Valid() && Closed(items)
    ensures BranchesBound(Emit(c, Builder([], [], 0, map[]), items))
  {
    var b := Builder([], [], 0, map[]);
    EmitFrom(c, b, items);
    hide Emit;
    var r := Emit(c, b, items);
    forall i {:trigger r.done[i]} | 0 <= i < |r.done| && Turns(r.done[i].exit)
      ensures r.done[i].exit.tag in r.labels && r.labels[r.done[i].exit.tag] <= |r.done|
    {
      var x :| x in items && LeadsTo(x, r.done[i].exit.tag);
      assert Binds(items, x.tag);
    }
  }

  lemma ClosedThen(xs: seq<Item>, ys: seq<Item>)
    requires Closed(xs) && Closed(ys)
    ensures Closed(xs + ys)
  {
    forall x {:trigger x in xs + ys} | x in xs + ys && (x.Goto? || x.Leap?) ensures Binds(xs + ys, x.tag) {
      if x in xs { assert Binds(xs, x.tag); } else { assert x in ys && Binds(ys, x.tag); }
    }
  }
}
