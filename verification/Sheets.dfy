/** How the layers of rows in the image hold what the builder has emitted. */
module Sheets {
  import opened Bits
  import opened Machine
  import opened Layers
  import opened Programs
  import opened Emission
  import opened CopyEmit

  /** A layer with its rows from slot 3 on and a link. */
  function Filled(rows: seq<Row>, link: Row): (f: seq<Row>)
    ensures |f| == SLOTS
  {
    seq(SLOTS, k requires 0 <= k < SLOTS =>
      if k < FIRST then NOP else if k - FIRST < |rows| then rows[k - FIRST] else if k == LINK then link else NOP)
  }

  function LinkTo(c: Config, begin: nat, i: nat): Row
    requires c.Valid()
  {
    Row(c.LayerBits(), 0, LayerAt(c, begin, i))
  }

  /** A finished layer: its body, and a link to the layer behind it; the link of a jump is put right later. */
  ghost predicate Finished(c: Config, begin: nat, rows: seq<Row>, layer: Layer, i: nat)
    requires c.Valid()
  {
    && (layer.exit.Next? || layer.exit.Branch? || layer.exit.Jump?)
    && FIRST + |BodyRows(c, layer)| <= LINK && |rows| == SLOTS
    && rows == Filled(BodyRows(c, layer), if layer.exit.Jump? then rows[LINK] else LinkTo(c, begin, i + 1))
  }

  /** The link of a jump leads to its label. */
  ghost predicate Led(c: Config, begin: nat, rows: seq<Row>, layer: Layer, labels: map<nat, nat>)
    requires c.Valid()
  {
    layer.exit.Jump? ==> layer.exit.tag in labels && |rows| == SLOTS && rows[LINK] == LinkTo(c, begin, labels[layer.exit.tag])
  }

  ghost predicate JumpsLed(c: Config, begin: nat, layers: seq<seq<Row>>, b: Builder)
    requires c.Valid()
  {
    |b.done| <= |layers| && forall i {:trigger b.done[i]} | 0 <= i < |b.done| :: Led(c, begin, layers[i], b.done[i], b.labels)
  }

  /** All layers but the last have stayed as they were. */
  ghost predicate Earlier(before: seq<seq<Row>>, after: seq<seq<Row>>) {
    0 < |before| <= |after| && forall i {:trigger after[i]} | 0 <= i < |before| - 1 :: after[i] == before[i]
  }

  lemma EarlierThen(a: seq<seq<Row>>, b: seq<seq<Row>>, d: seq<seq<Row>>)
    requires Earlier(a, b) && Earlier(b, d)
    ensures Earlier(a, d)
  {
    forall i {:trigger d[i]} | 0 <= i < |a| - 1 ensures d[i] == a[i] {
      assert b[i] == a[i];
    }
  }

  lemma EmitEarlier(c: Config, begin: nat, sheet: Sheet, row: Row)
    requires c.Valid() && sheet.layers != [] && |sheet.layers[|sheet.layers| - 1]| == SLOTS
    ensures sheet.slot < LINK ==> Earlier(sheet.layers, EmitSheet(sheet, row).layers)
    ensures Earlier(sheet.layers, NextSheet(c, begin, sheet).layers) && Earlier(sheet.layers, sheet.layers)
  {
  }

  /** The link of one finished jump, written again. */
  lemma PartlyLed(c: Config, begin: nat, sheet: Sheet, b: Builder, i: nat, link: Row)
    requires c.Valid() && Laid(c, begin, sheet, b) && i < |b.done| && b.done[i].exit.Jump?
    ensures |sheet.layers[i]| == SLOTS
    ensures Laid(c, begin, sheet.(layers := SetRow(sheet.layers, i, LINK, link)), b)
    ensures i < |sheet.layers| - 1
  {
    hide OpsRows, OpRows;
    assert Finished(c, begin, sheet.layers[i], b.done[i], i);
    var now := SetRow(sheet.layers, i, LINK, link);
    assert now[i] == Filled(BodyRows(c, b.done[i]), link);
    forall j {:trigger b.done[j]} | 0 <= j < |b.done| ensures Finished(c, begin, now[j], b.done[j], j) {
      assert Finished(c, begin, sheet.layers[j], b.done[j], j);
    }
  }

  /** The sheet holds the builder's layers, and behind the open one's operations some further rows. */
  ghost predicate Partly(c: Config, begin: nat, sheet: Sheet, b: Builder, extra: seq<Row>)
    requires c.Valid()
  {
    && |sheet.layers| == |b.done| + 1
    && (forall i {:trigger b.done[i]} | 0 <= i < |b.done| :: Finished(c, begin, sheet.layers[i], b.done[i], i))
    && sheet.slot == FIRST + |OpsRows(c, b.cur)| + |extra| <= LINK
    && sheet.layers[|b.done|] == Filled(OpsRows(c, b.cur) + extra, NOP)
  }

  ghost predicate Laid(c: Config, begin: nat, sheet: Sheet, b: Builder)
    requires c.Valid()
  {
    Partly(c, begin, sheet, b, [])
  }

  lemma PartlyEmit(c: Config, begin: nat, sheet: Sheet, b: Builder, extra: seq<Row>, row: Row)
    requires c.Valid() && Partly(c, begin, sheet, b, extra) && sheet.slot < LINK
    ensures |sheet.layers[|sheet.layers| - 1]| == SLOTS
    ensures Partly(c, begin, EmitSheet(sheet, row), b, extra + [row])
  {
    hide OpsRows, Finished;
    assert Filled(OpsRows(c, b.cur) + extra, NOP)[sheet.slot := row] == Filled(OpsRows(c, b.cur) + (extra + [row]), NOP);
  }

  /** The rows of an operation complete it. */
  lemma PartlyOp(c: Config, begin: nat, sheet: Sheet, b: Builder, op: Op, rest: seq<Row>)
    requires c.Valid()
    requires Partly(c, begin, sheet, b, OpRows(c, op, FIRST + |OpsRows(c, b.cur)|) + rest)
    ensures Partly(c, begin, sheet, b.(cur := b.cur + [op]), rest)
  {
    hide OpRows, Finished;
    var rows := OpRows(c, op, FIRST + |OpsRows(c, b.cur)|);
    assert (b.cur + [op])[..|b.cur|] == b.cur;
    assert OpsRows(c, b.cur) + (rows + rest) == (OpsRows(c, b.cur) + rows) + rest;
  }

  /** The rows at the end of a closing layer. */
  function ExitRows(c: Config, b: Builder, exit: Exit): seq<Row>
    requires c.Valid()
  {
    if exit.Branch? then OpRows(c, BranchOp(c, exit), FIRST + |OpsRows(c, b.cur)|) else []
  }

  lemma PartlyClose(c: Config, begin: nat, sheet: Sheet, b: Builder, exit: Exit)
    requires c.Valid() && (exit.Next? || exit.Branch? || exit.Jump?) && Partly(c, begin, sheet, b, ExitRows(c, b, exit))
    ensures |sheet.layers[|sheet.layers| - 1]| == SLOTS
    ensures Laid(c, begin, NextSheet(c, begin, sheet), Close(b, exit))
  {
    hide OpsRows, OpRows;
    var r := NextSheet(c, begin, sheet);
    var n := |b.done|;
    var rows := OpsRows(c, b.cur) + ExitRows(c, b, exit);
    assert BodyRows(c, Layer(b.cur, exit)) == rows;
    assert r.layers[n] == sheet.layers[n][LINK := LinkTo(c, begin, n + 1)];
    assert r.layers[n] == Filled(rows, LinkTo(c, begin, n + 1));
    forall i {:trigger Close(b, exit).done[i]} | 0 <= i < n + 1
      ensures Finished(c, begin, r.layers[i], Close(b, exit).done[i], i)
    {
      if i < n {
        assert Finished(c, begin, sheet.layers[i], b.done[i], i);
        assert r.layers[i] == sheet.layers[i];
      }
    }
    NoOpsRows(c);
    assert r.layers[n + 1] == Filled([], NOP);
  }

  lemma NoOpsRows(c: Config)
    requires c.Valid()
    ensures OpsRows(c, []) == []
  {
  }

  lemma RowCountSnoc(ops: seq<Op>, op: Op)
    ensures RowCount(ops + [op]) == RowCount(ops) + |op.patches| + 1
  {
    assert (ops + [op])[..|ops|] == ops;
  }

  lemma RowCountOne(op: Op)
    ensures RowCount([op]) == |op.patches| + 1
  {
    RowCountSnoc([], op);
    assert [] + [op] == [op];
  }
}
