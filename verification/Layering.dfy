/**
 * Cutting a block into layers (modules/rv32i.py): 252 nodes to a layer, a link in its last slot. A patch of
 * a node in the same layer goes to the processor, a patch of a node further on to the place that its
 * layer is loaded from.
 */
module Layering {
  import opened Bits
  import opened Machine
  import opened Layers
  import opened Lookups
  import opened Rows
  import opened Bytes
  import opened CopyEmit
  import opened Writer
  import S = Schedule

  /** How many nodes fit between the channel slots and the link. */
  const CHUNK: nat := 252

  /** Nodes in order, the terminator's row, and where the layers begin. The terminator counts as node |nodes|. */
  datatype Block = Block(nodes: seq<S.Node>, term: Row, base: nat)

  function LayerCount(n: nat): (l: nat)
    ensures l > 0
  {
    if n == 0 then 1 else (n + CHUNK - 1) / CHUNK
  }

  /** The layer of node j of n; the terminator ends the last layer. */
  function LayerOf(n: nat, j: nat): nat {
    if j < n then j / CHUNK else LayerCount(n) - 1
  }

  function SlotOf(n: nat, j: nat): (slot: nat)
    ensures slot < SLOTS
  {
    if j < n then FIRST + j % CHUNK else LINK
  }

  /** The node in a slot of a layer, if there is one. */
  function NodeIn(n: nat, layer: nat, slot: nat): nat {
    if slot == LINK then n else layer * CHUNK + slot - (if slot < FIRST then slot else FIRST)
  }

  predicate IsNode(n: nat, layer: nat, slot: nat) {
    if slot == LINK then layer == LayerCount(n) - 1 else FIRST <= slot < LINK && layer * CHUNK + (slot - FIRST) < n
  }

  /** Slots and nodes determine each other. */
  lemma NodePlace(n: nat, j: nat)
    requires j <= n
    ensures LayerOf(n, j) < LayerCount(n) && IsNode(n, LayerOf(n, j), SlotOf(n, j)) && NodeIn(n, LayerOf(n, j), SlotOf(n, j)) == j
  {
  }

  lemma PlaceNode(n: nat, layer: nat, slot: nat)
    requires layer < LayerCount(n) && slot < SLOTS && IsNode(n, layer, slot)
    ensures var j := NodeIn(n, layer, slot); j <= n && LayerOf(n, j) == layer && SlotOf(n, j) == slot
  {
  }

  function FieldOffset(c: Config, f: S.FieldName): nat
    requires c.Valid()
  {
    match f
    case CountField => 0
    case DstField => c.ab - 1
    case SrcField => 2 * c.ab - 1
  }

  function FieldBits(c: Config, f: S.FieldName): nat
    requires c.Valid()
  {
    if f == S.CountField then c.ab - 1 else c.ab
  }

  /** The address of a field: in the processor if node and target share a layer, else in the target's layer. */
  function Resolve(c: Config, x: Block, j: nat, t: nat, f: S.FieldName, off: nat): nat
    requires c.Valid()
  {
    var n := |x.nodes|;
    c.SlotAt(if LayerOf(n, t) == LayerOf(n, j) then 0 else LayerAt(c, x.base, LayerOf(n, t)), SlotOf(n, t)) + FieldOffset(c, f) + off
  }

  function NodeRow(c: Config, x: Block, j: nat): Row
    requires c.Valid() && j <= |x.nodes|
  {
    if j == |x.nodes| then x.term
    else
      var y := x.nodes[j];
      Row(y.n, match y.dst case At(p) => p case Into(t, f, off) => Resolve(c, x, j, t, f, off), if y.src.At? then y.src.pos else 0)
  }

  /** The rows as they are written down. */
  function FirstRows(c: Config, x: Block): (rows: seq<Row>)
    requires c.Valid()
    ensures |rows| == |x.nodes| + 1
  {
    seq(|x.nodes| + 1, j requires 0 <= j <= |x.nodes| => NodeRow(c, x, j))
  }

  /** What lies in a slot of a layer when the nodes have these rows. */
  function SlotRow(c: Config, x: Block, rows: seq<Row>, layer: nat, slot: nat): Row
    requires c.Valid() && |rows| == |x.nodes| + 1 && layer < LayerCount(|x.nodes|) && slot < SLOTS
  {
    if IsNode(|x.nodes|, layer, slot) then rows[NodeIn(|x.nodes|, layer, slot)]
    else if slot == LINK then Row(c.LayerBits(), 0, LayerAt(c, x.base, layer + 1))
    else NOP
  }

  function LayerRows(c: Config, x: Block, rows: seq<Row>, layer: nat): (r: seq<Row>)
    requires c.Valid() && |rows| == |x.nodes| + 1 && layer < LayerCount(|x.nodes|)
    ensures |r| == SLOTS && forall slot {:trigger r[slot]} | 0 <= slot < SLOTS :: r[slot] == SlotRow(c, x, rows, layer, slot)
  {
    seq(SLOTS, slot requires 0 <= slot < SLOTS => SlotRow(c, x, rows, layer, slot))
  }

  /** The layers from the given one on lie in their places. */
  ghost predicate Encoded(c: Config, x: Block, s: Space, rows: seq<Row>, from: nat)
    requires c.Valid() && |rows| == |x.nodes| + 1
  {
    forall layer: nat {:trigger LayerRows(c, x, rows, layer)} | from <= layer < LayerCount(|x.nodes|) ::
      Holds(c, s, LayerAt(c, x.base, layer), LayerRows(c, x, rows, layer))
  }

  /** Patches go forward, and nobody patches the destination of a patch. */
  ghost predicate Well(c: Config, x: Block)
    requires c.Valid()
  {
    && c.LayerBits() <= x.base
    && forall j {:trigger x.nodes[j]} | 0 <= j < |x.nodes| ::
         && x.nodes[j].src.At?
         && (x.nodes[j].dst.Into? ==>
               && j < x.nodes[j].dst.node <= |x.nodes|
               && (x.nodes[j].dst.field == S.DstField && x.nodes[j].dst.node < |x.nodes| ==> x.nodes[x.nodes[j].dst.node].dst.At?))
  }

  /** One node after another: the data, and the rows of the nodes and the terminator. */
  datatype Run = Run(data: Space, rows: seq<Row>)

  /** Behind the processor and outside the layers of the block. */
  predicate InData(c: Config, x: Block, at: nat, n: nat)
    requires c.Valid()
  {
    c.LayerBits() <= at && (at + n <= x.base || LayerAt(c, x.base, LayerCount(|x.nodes|)) <= at)
  }

  /** A node copies data to data, or data into a field. */
  predicate Safe(c: Config, x: Block, s: Run, j: nat)
    requires c.Valid() && j < |x.nodes| && |s.rows| == |x.nodes| + 1
  {
    var row := s.rows[j];
    && InData(c, x, row.src, row.n) && row.src + row.n <= |s.data|
    && match x.nodes[j].dst
       case At(_) => InData(c, x, row.dst, row.n) && row.dst + row.n <= |s.data|
       case Into(t, f, off) => off + row.n <= FieldBits(c, f) && t <= |x.nodes|
  }

  /** A row with n bits of a field replaced. */
  function SetField(row: Row, f: S.FieldName, off: nat, n: nat, v: nat): Row {
    match f
    case CountField => row.(n := Replace(row.n, off, n, v))
    case DstField => row.(dst := Replace(row.dst, off, n, v))
    case SrcField => row.(src := Replace(row.src, off, n, v))
  }

  /** What a node means: a copy of data, or a change of some bits in the row of a later node. */
  function Step(c: Config, x: Block, s: Run, j: nat): (t: Run)
    requires c.Valid() && j < |x.nodes| && |s.rows| == |x.nodes| + 1
    ensures |t.data| == |s.data| && |t.rows| == |s.rows|
  {
    var row := s.rows[j];
    if row.n == 0 || !Safe(c, x, s, j) then s
    else match x.nodes[j].dst
      case At(_) => s.(data := CopyBits(s.data, row.n, row.dst, row.src))
      case Into(t, f, off) => s.(rows := s.rows[t := SetField(s.rows[t], f, off, row.n, Val(s.data, row.src, row.n))])
  }

  /** The run in front of node k. */
  function Before(c: Config, x: Block, data: Space, k: nat): (s: Run)
    requires c.Valid() && k <= |x.nodes|
    ensures |s.data| == |data| && |s.rows| == |x.nodes| + 1
  {
    if k == 0 then Run(data, FirstRows(c, x)) else Step(c, x, Before(c, x, data, k - 1), k - 1)
  }

  /** A copy from data to data that no earlier node has patched: every bit of its place is the bit it names, and no other bit changes. */
  lemma NodeCopies(c: Config, x: Block, data: Space, k: nat)
    requires c.Valid() && k < |x.nodes| && x.nodes[k].src.At? && x.nodes[k].dst.At?
    requires forall i | 0 <= i < k && x.nodes[i].dst.Into? :: x.nodes[i].dst.node != k
    requires Safe(c, x, Before(c, x, data, k), k)
    ensures var y, s, t := x.nodes[k], Before(c, x, data, k), Before(c, x, data, k + 1);
      && t.rows == s.rows
      && forall p | 0 <= p < |data| ::
           t.data[p] == if y.dst.pos <= p < y.dst.pos + y.n && p - y.dst.pos + y.src.pos < |data| then s.data[p - y.dst.pos + y.src.pos] else s.data[p]
  {
    RowStays(c, x, data, k, k);
  }

  lemma {:induction false} RowStays(c: Config, x: Block, data: Space, k: nat, j: nat)
    requires c.Valid() && k <= |x.nodes| && j <= |x.nodes| && forall i | 0 <= i < k && x.nodes[i].dst.Into? :: x.nodes[i].dst.node != j
    ensures Before(c, x, data, k).rows[j] == NodeRow(c, x, j)
  {
    if k > 0 {
      RowStays(c, x, data, k - 1, j);
    }
  }

  /** A copy into a field of another row: that field's number gets the source's bits in their places, everything else stays. */
  lemma NodePatches(c: Config, x: Block, data: Space, k: nat, i: nat)
    requires c.Valid() && k < |x.nodes| && x.nodes[k].src.At? && x.nodes[k].dst.Into? && x.nodes[k].n > 0
    requires forall i | 0 <= i < k && x.nodes[i].dst.Into? :: x.nodes[i].dst.node != k
    requires Safe(c, x, Before(c, x, data, k), k)
    ensures var y, s, t := x.nodes[k], Before(c, x, data, k), Before(c, x, data, k + 1);
      var j, f, off := y.dst.node, y.dst.field, y.dst.off;
      && t.data == s.data && j <= |x.nodes| && (forall i | 0 <= i <= |x.nodes| && i != j :: t.rows[i] == s.rows[i])
      && var v, w := s.rows[j], t.rows[j];
      && (f != S.CountField ==> w.n == v.n) && (f != S.DstField ==> w.dst == v.dst) && (f != S.SrcField ==> w.src == v.src)
      && Digit(match f case CountField => w.n case DstField => w.dst case SrcField => w.src, i) ==
         if off <= i < off + y.n && y.src.pos + i - off < |data| then s.data[y.src.pos + i - off]
         else Digit(match f case CountField => v.n case DstField => v.dst case SrcField => v.src, i)
  {
    RowStays(c, x, data, k, k);
    var y, s := x.nodes[k], Before(c, x, data, k);
    var v := match y.dst.field case CountField => s.rows[y.dst.node].n case DstField => s.rows[y.dst.node].dst case SrcField => s.rows[y.dst.node].src;
    ReplaceDigit(v, y.dst.off, y.n, Val(s.data, y.src.pos, y.n), i);
    if y.dst.off <= i < y.dst.off + y.n {
      BitDigit(s.data, y.src.pos, y.n, i - y.dst.off);
    }
  }

  lemma {:induction false} ReplaceDigit(v: nat, off: nat, w: nat, x: nat, i: nat)
    ensures Digit(Replace(v, off, w, x), i) == if off <= i < off + w then Digit(x, i - off) else Digit(v, i)
    decreases off + w
  {
    if off > 0 {
      if i > 0 { ReplaceDigit(v / 2, off - 1, w, x, i - 1); }
    } else if w > 0 {
      if i > 0 { ReplaceDigit(v / 2, 0, w - 1, x / 2, i - 1); }
    }
  }

  ghost predicate AlwaysSafe(c: Config, x: Block, data: Space)
    requires c.Valid()
  {
    forall k {:trigger Before(c, x, data, k)} | 0 <= k < |x.nodes| ::
      Before(c, x, data, k).rows[k].n == 0 || Safe(c, x, Before(c, x, data, k), k)
  }

  ghost predicate DataAgree(c: Config, x: Block, s: Space, t: Space)
    requires c.Valid()
  {
    |s| == |t| && forall p: nat {:trigger s[p]} {:trigger t[p]} | p < |s| && InData(c, x, p, 1) :: s[p] == t[p]
  }

  /** The processor's rows from a slot on. */
  ghost predicate Waiting(c: Config, s: Space, rows: seq<Row>, from: nat)
    requires c.Valid() && c.LayerBits() <= |s| && |rows| == SLOTS
  {
    forall slot {:trigger rows[slot]} | from <= slot < SLOTS :: RowAt(c, s, 0, slot) == rows[slot]
  }

  /** The machine is about to execute a slot of a layer, with data and rows as in the run. */
  ghost predicate At(c: Config, x: Block, u: Space, s: Run, layer: nat, slot: nat)
    requires c.Valid() && |s.rows| == |x.nodes| + 1 && layer < LayerCount(|x.nodes|)
  {
    && LayerAt(c, x.base, LayerCount(|x.nodes|)) <= |u| && c.LayerBits() <= x.base
    && c.LayerBits() <= |u|
    && DataAgree(c, x, u, s.data)
    && Waiting(c, u, LayerRows(c, x, s.rows, layer), slot)
    && Encoded(c, x, u, s.rows, layer + 1)
  }

  lemma BaseInside(c: Config, base: nat, layers: nat)
    requires c.Valid()
    ensures base <= LayerAt(c, base, layers)
  {
  }

  /** Bits written inside one field. */
  lemma FieldWritten(c: Config, u: Space, at: nat, f: S.FieldName, off: nat, n: nat, src: nat)
    requires c.Valid() && at + c.RowBits() <= |u| && off + n <= FieldBits(c, f) && src + n <= |u|
    ensures var to := at + FieldOffset(c, f) + off;
      && to + n <= at + c.RowBits()
      && var t := CopyBits(u, n, to, src);
      && Same(u, t, Span(at, c.RowBits()))
      && RowBitsAt(c, t, at) == SetField(RowBitsAt(c, u, at), f, off, n, Val(u, src, n))
  {
    hide Val, Replace, Span, Same, RowBitsAt, SetField;
    var to := at + FieldOffset(c, f) + off;
    var t := CopyBits(u, n, to, src);
    CopySame(u, n, to, src);
    CopyInside(u, n, to, src, to, n);
    SpanInside(at, c.RowBits(), to, n);
    SpanSame(u, t, Span(to, n), Span(at, c.RowBits()));
    RowWritten(c, u, t, at, f, off, n, Val(u, src, n));
  }

  lemma RowWritten(c: Config, u: Space, t: Space, at: nat, f: S.FieldName, off: nat, n: nat, v: nat)
    requires c.Valid() && at + c.RowBits() <= |u| == |t| && off + n <= FieldBits(c, f)
    requires Same(u, t, Span(at + FieldOffset(c, f) + off, n)) && Val(t, at + FieldOffset(c, f) + off, n) == v
    ensures RowBitsAt(c, t, at) == SetField(RowBitsAt(c, u, at), f, off, n, v)
  {
    hide Val, Replace, Span, Same;
    FieldNow(c, u, t, at, f, f, off, n);
    FieldNow(c, u, t, at, S.CountField, f, off, n);
    FieldNow(c, u, t, at, S.DstField, f, off, n);
    FieldNow(c, u, t, at, S.SrcField, f, off, n);
  }

  /** A field of the row afterwards: that in which bits were written, or another one. */
  lemma FieldNow(c: Config, u: Space, t: Space, at: nat, g: S.FieldName, f: S.FieldName, off: nat, n: nat)
    requires c.Valid() && at + c.RowBits() <= |u| == |t| && off + n <= FieldBits(c, f)
    requires Same(u, t, Span(at + FieldOffset(c, f) + off, n))
    ensures FieldOffset(c, g) + FieldBits(c, g) <= c.RowBits() && FieldOffset(c, f) + off + n <= c.RowBits()
    ensures var a, w := at + FieldOffset(c, g), FieldBits(c, g);
      Val(t, a, w) == if g == f then Replace(Val(u, a, w), off, n, Val(t, a + off, n)) else Val(u, a, w)
  {
    hide Val, Replace;
    var a, w := at + FieldOffset(c, g), FieldBits(c, g);
    if g == f {
      ValReplace(u, t, a, w, off, n);
    } else {
      SpansApart(a, w, at + FieldOffset(c, f) + off, n);
      hide Same, Span;
      SameVal(u, t, Span(at + FieldOffset(c, f) + off, n), a, w);
    }
  }

  /** The row of one node changed: one slot of one layer. */
  lemma RowsUpdated(c: Config, x: Block, rows: seq<Row>, t: nat, r: Row, layer: nat)
    requires c.Valid() && |rows| == |x.nodes| + 1 && layer < LayerCount(|x.nodes|) && t <= |x.nodes|
    ensures LayerRows(c, x, rows[t := r], layer) ==
      if layer == LayerOf(|x.nodes|, t) then LayerRows(c, x, rows, layer)[SlotOf(|x.nodes|, t) := r] else LayerRows(c, x, rows, layer)
  {
    var n := |x.nodes|;
    NodePlace(n, t);
    forall slot | 0 <= slot < SLOTS && IsNode(n, layer, slot)
      ensures var j := NodeIn(n, layer, slot); j <= n && LayerOf(n, j) == layer && SlotOf(n, j) == slot
    {
      PlaceNode(n, layer, slot);
    }
    hide LayerOf, SlotOf, NodeIn, IsNode;
  }

  /** A stretch of data lies outside the processor and outside every layer of the block. */
  lemma DataApart(c: Config, x: Block, at: nat, n: nat, layer: nat)
    requires c.Valid() && InData(c, x, at, n) && layer < LayerCount(|x.nodes|)
    ensures Span(0, c.LayerBits()) !! Span(at, n) && Span(LayerAt(c, x.base, layer), c.LayerBits()) !! Span(at, n)
  {
    hide LayerAt, Span;
    LayerInside(c, x.base, layer, LayerCount(|x.nodes|));
    SpansApart(0, c.LayerBits(), at, n);
    SpansApart(LayerAt(c, x.base, layer), c.LayerBits(), at, n);
  }

  /** Data that agree stay so: the copied bits are data, too. */
  lemma DataCopied(c: Config, x: Block, u: Space, s: Space, n: nat, dst: nat, src: nat)
    requires c.Valid() && DataAgree(c, x, u, s) && n > 0
    requires InData(c, x, src, n) && src + n <= |u| && dst + n <= |u|
    ensures DataAgree(c, x, CopyBits(u, n, dst, src), CopyBits(s, n, dst, src))
  {
    hide LayerAt;
    var v, t := CopyBits(u, n, dst, src), CopyBits(s, n, dst, src);
    forall p: nat {:trigger v[p]} {:trigger t[p]} | p < |v| && InData(c, x, p, 1) ensures v[p] == t[p] {
      if dst <= p < dst + n {
        assert u[p - dst + src] == s[p - dst + src];
      } else {
        assert u[p] == s[p];
      }
    }
  }

  /** Bits that are not data do not matter. */
  lemma DataKept(c: Config, x: Block, u: Space, s: Space, v: Space, at: nat)
    requires c.Valid() && DataAgree(c, x, u, s) && Same(u, v, Span(at, c.LayerBits()))
    requires at == 0 || exists layer: nat :: layer < LayerCount(|x.nodes|) && at == LayerAt(c, x.base, layer)
    ensures DataAgree(c, x, v, s)
  {
    hide LayerAt;
    if at != 0 {
      var layer: nat :| layer < LayerCount(|x.nodes|) && at == LayerAt(c, x.base, layer);
      LayerInside(c, x.base, layer, LayerCount(|x.nodes|));
    }
    forall p: nat {:trigger v[p]} {:trigger s[p]} | p < |v| && InData(c, x, p, 1) ensures v[p] == s[p] {
      assert p !in Span(at, c.LayerBits());
      assert u[p] == s[p];
    }
  }

  lemma WaitingKept(c: Config, u: Space, v: Space, area: iset<int>, rows: seq<Row>, from: nat)
    requires c.Valid() && c.LayerBits() <= |u| && |rows| == SLOTS && Waiting(c, u, rows, from)
    requires Same(u, v, area) && Span(0, c.LayerBits()) !! area
    ensures |v| == |u| && Waiting(c, v, rows, from)
  {
    hide RowAt, RowBitsAt, Span, Same, c.Offset;
    SameSize(u, v, area);
    forall k {:trigger rows[k]} | from <= k < SLOTS ensures RowAt(c, v, 0, k) == rows[k] {
      HeldRow(c, u, 0, k);
      HeldRow(c, v, 0, k);
      SpanInside(0, c.LayerBits(), c.SlotAt(0, k), c.RowBits());
      RowBitsFrame(c, u, v, area, c.SlotAt(0, k));
    }
  }

  lemma WaitingRow(c: Config, u: Space, v: Space, rows: seq<Row>, from: nat, k: nat, row: Row)
    requires c.Valid() && c.LayerBits() <= |u| == |v| && |rows| == SLOTS && Waiting(c, u, rows, from) && k < SLOTS
    requires Same(u, v, Span(c.SlotAt(0, k), c.RowBits())) && c.SlotAt(0, k) + c.RowBits() <= |v|
    requires RowBitsAt(c, v, c.SlotAt(0, k)) == row
    ensures Waiting(c, v, rows[k := row], from)
  {
    hide RowAt, RowBitsAt, Span, Same, c.Offset;
    var now := rows[k := row];
    forall j {:trigger now[j]} | from <= j < SLOTS ensures RowAt(c, v, 0, j) == now[j] {
      HeldRow(c, u, 0, j);
      HeldRow(c, v, 0, j);
      if j != k {
        assert rows[j] == now[j];
        if j < k { SlotOrder(c, 0, j, k); } else { SlotOrder(c, 0, k, j); }
        SpansApart(c.SlotAt(0, j), c.RowBits(), c.SlotAt(0, k), c.RowBits());
        RowBitsFrame(c, u, v, Span(c.SlotAt(0, k), c.RowBits()), c.SlotAt(0, j));
      }
    }
  }

  lemma EncodedKept(c: Config, x: Block, u: Space, v: Space, area: iset<int>, rows: seq<Row>, from: nat)
    requires c.Valid() && |rows| == |x.nodes| + 1 && Encoded(c, x, u, rows, from) && Same(u, v, area)
    requires forall layer: nat {:trigger LayerAt(c, x.base, layer)} | from <= layer < LayerCount(|x.nodes|) ::
      Span(LayerAt(c, x.base, layer), c.LayerBits()) !! area
    ensures Encoded(c, x, v, rows, from)
  {
    hide Holds, Span, Same, LayerAt;
    forall layer: nat {:trigger LayerRows(c, x, rows, layer)} | from <= layer < LayerCount(|x.nodes|)
      ensures Holds(c, v, LayerAt(c, x.base, layer), LayerRows(c, x, rows, layer))
    {
      HoldsKept(c, u, v, area, LayerAt(c, x.base, layer), LayerRows(c, x, rows, layer));
    }
  }

  /** A copy of data. */
  lemma CopyStep(c: Config, x: Block, u: Space, s: Run, layer: nat, slot: nat, row: Row)
    requires c.Valid() && |s.rows| == |x.nodes| + 1 && layer < LayerCount(|x.nodes|) && At(c, x, u, s, layer, slot)
    requires row.n > 0 && InData(c, x, row.src, row.n) && InData(c, x, row.dst, row.n)
    requires row.src + row.n <= |u| && row.dst + row.n <= |u|
    ensures |s.data| == |u|
    ensures At(c, x, CopyBits(u, row.n, row.dst, row.src), s.(data := CopyBits(s.data, row.n, row.dst, row.src)), layer, slot + 1)
  {
    hide LayerAt, Span, Holds, RowAt, Encoded, InData;
    var v := CopyBits(u, row.n, row.dst, row.src);
    var area := Span(row.dst, row.n);
    CopySame(u, row.n, row.dst, row.src);
    DataCopied(c, x, u, s.data, row.n, row.dst, row.src);
    DataApart(c, x, row.dst, row.n, layer);
    WaitingKept(c, u, v, area, LayerRows(c, x, s.rows, layer), slot);
    forall l: nat {:trigger LayerAt(c, x.base, l)} | layer + 1 <= l < LayerCount(|x.nodes|)
      ensures Span(LayerAt(c, x.base, l), c.LayerBits()) !! area
    {
      DataApart(c, x, row.dst, row.n, l);
    }
    EncodedKept(c, x, u, v, area, s.rows, layer + 1);
  }

  /** A patch in the layer that is being executed. */
  lemma PatchHere(c: Config, x: Block, u: Space, s: Run, layer: nat, slot: nat, t: nat, r: Row, v: Space)
    requires c.Valid() && |s.rows| == |x.nodes| + 1 && layer < LayerCount(|x.nodes|) && At(c, x, u, s, layer, slot)
    requires t <= |x.nodes| && LayerOf(|x.nodes|, t) == layer
    requires var at := c.SlotAt(0, SlotOf(|x.nodes|, t));
      Same(u, v, Span(at, c.RowBits())) && at + c.RowBits() <= |v| && RowBitsAt(c, v, at) == r
    ensures At(c, x, v, s.(rows := s.rows[t := r]), layer, slot + 1)
  {
    hide LayerAt, Span, Holds, RowAt, RowBitsAt, InData, LayerOf, SlotOf, Same, c.Offset;
    var k := SlotOf(|x.nodes|, t);
    var at := c.SlotAt(0, k);
    SameSize(u, v, Span(at, c.RowBits()));
    SlotInLayer(c, 0, k);
    SpanInside(0, c.LayerBits(), at, c.RowBits());
    SpanSame(u, v, Span(at, c.RowBits()), Span(0, c.LayerBits()));
    DataKept(c, x, u, s.data, v, 0);
    WaitingRow(c, u, v, LayerRows(c, x, s.rows, layer), slot, k, r);
    RowsUpdated(c, x, s.rows, t, r, layer);
    forall l: nat {:trigger LayerAt(c, x.base, l)} | layer + 1 <= l < LayerCount(|x.nodes|)
      ensures Span(LayerAt(c, x.base, l), c.LayerBits()) !! Span(0, c.LayerBits())
    {
      BaseInside(c, x.base, l);
      SpansApart(LayerAt(c, x.base, l), c.LayerBits(), 0, c.LayerBits());
    }
    EncodedKept(c, x, u, v, Span(0, c.LayerBits()), s.rows, layer + 1);
    forall l: nat {:trigger LayerRows(c, x, s.rows[t := r], l)} | layer + 1 <= l < LayerCount(|x.nodes|)
      ensures Holds(c, v, LayerAt(c, x.base, l), LayerRows(c, x, s.rows[t := r], l))
    {
      RowsUpdated(c, x, s.rows, t, r, l);
    }
  }

  /** A patch in a layer further on. */
  lemma PatchLater(c: Config, x: Block, u: Space, s: Run, layer: nat, slot: nat, t: nat, r: Row, v: Space)
    requires c.Valid() && |s.rows| == |x.nodes| + 1 && layer < LayerCount(|x.nodes|) && At(c, x, u, s, layer, slot)
    requires t <= |x.nodes| && LayerOf(|x.nodes|, t) > layer
    requires var at := c.SlotAt(LayerAt(c, x.base, LayerOf(|x.nodes|, t)), SlotOf(|x.nodes|, t));
      Same(u, v, Span(at, c.RowBits())) && at + c.RowBits() <= |v| && RowBitsAt(c, v, at) == r
    ensures At(c, x, v, s.(rows := s.rows[t := r]), layer, slot + 1)
  {
    hide LayerAt, Span, Holds, RowAt, RowBitsAt, InData, LayerOf, SlotOf, Same, c.Offset, DataAgree;
    var k, far := SlotOf(|x.nodes|, t), LayerOf(|x.nodes|, t);
    NodePlace(|x.nodes|, t);
    var home := LayerAt(c, x.base, far);
    var at := c.SlotAt(home, k);
    SameSize(u, v, Span(at, c.RowBits()));
    SlotInLayer(c, home, k);
    SpanInside(home, c.LayerBits(), at, c.RowBits());
    SpanSame(u, v, Span(at, c.RowBits()), Span(home, c.LayerBits()));
    DataKept(c, x, u, s.data, v, home);
    BaseInside(c, x.base, far);
    SpansApart(0, c.LayerBits(), home, c.LayerBits());
    WaitingKept(c, u, v, Span(home, c.LayerBits()), LayerRows(c, x, s.rows, layer), slot);
    RowsUpdated(c, x, s.rows, t, r, layer);
    forall l: nat {:trigger LayerRows(c, x, s.rows[t := r], l)} | layer + 1 <= l < LayerCount(|x.nodes|)
      ensures Holds(c, v, LayerAt(c, x.base, l), LayerRows(c, x, s.rows[t := r], l))
    {
      RowsUpdated(c, x, s.rows, t, r, l);
      assert Holds(c, u, LayerAt(c, x.base, l), LayerRows(c, x, s.rows, l));
      if l == far {
        HoldsRow(c, u, v, home, LayerRows(c, x, s.rows, l), k, r);
      } else {
        LayersApart(c, x.base, far, l);
        SpansApart(LayerAt(c, x.base, l), c.LayerBits(), home, c.LayerBits());
        HoldsKept(c, u, v, Span(home, c.LayerBits()), LayerAt(c, x.base, l), LayerRows(c, x, s.rows, l));
      }
    }
  }

  /** Patches keep their own destinations. */
  lemma {:induction false} PatchStays(c: Config, x: Block, data: Space, k: nat, j: nat)
    requires c.Valid() && Well(c, x) && k <= |x.nodes| && j < |x.nodes| && x.nodes[j].dst.Into?
    ensures Before(c, x, data, k).rows[j].dst == NodeRow(c, x, j).dst
  {
    hide NodeRow, Safe, Resolve;
    if k > 0 {
      PatchStays(c, x, data, k - 1, j);
      assert x.nodes[k - 1].dst.Into? ==> k - 1 < x.nodes[k - 1].dst.node;
    }
  }

  /** One slot with a node in it. */
  lemma NodeSlot(c: Config, x: Block, data: Space, u: Space, layer: nat, slot: nat, j: nat) returns (v: Space)
    requires c.Valid() && Well(c, x) && AlwaysSafe(c, x, data) && layer < LayerCount(|x.nodes|) && slot < LINK
    requires IsNode(|x.nodes|, layer, slot) && j == NodeIn(|x.nodes|, layer, slot) && j < |x.nodes|
    requires At(c, x, u, Before(c, x, data, j), layer, slot)
    ensures RunSlots(c, u, slot, slot + 1) == Some(v) && At(c, x, v, Before(c, x, data, j + 1), layer, slot + 1)
  {
    assert FIRST <= slot;
    hide LayerAt, RowAt, Holds, Encoded, Before, AlwaysSafe, IsNode, NodeIn, LayerOf, SlotOf, c.Offset, DataAgree, InData;
    var s := Before(c, x, data, j);
    var row := s.rows[j];
    assert RowAt(c, u, 0, slot) == row by {
      assert LayerRows(c, x, s.rows, layer)[slot] == SlotRow(c, x, s.rows, layer, slot);
    }
    SafeHere(c, x, data, j);
    AgreeSize(c, x, u, s.data);
    BeforeNext(c, x, data, j);
    if row.n == 0 {
      v := u;
      NextSlot(c, x, u, s, layer, slot);
    } else {
      match x.nodes[j].dst {
        case At(_) =>
          v := CopyBits(u, row.n, row.dst, row.src);
          CopyStep(c, x, u, s, layer, slot, row);
        case Into(t, f, off) =>
          v := PatchSlot(c, x, data, u, layer, slot, j);
      }
    }
    RunRow(c, u, slot, row, v);
  }

  lemma BeforeNext(c: Config, x: Block, data: Space, j: nat)
    requires c.Valid() && j < |x.nodes|
    ensures Before(c, x, data, j + 1) == Step(c, x, Before(c, x, data, j), j)
  {
  }

  lemma RunRow(c: Config, u: Space, slot: nat, row: Row, v: Space)
    requires c.Valid() && c.LayerBits() <= |u| && FIRST <= slot < SLOTS && RowAt(c, u, 0, slot) == row
    requires row.n > 0 ==> row.dst + row.n <= |u| && row.src + row.n <= |u|
    requires v == if row.n == 0 then u else CopyBits(u, row.n, row.dst, row.src)
    ensures RunSlots(c, u, slot, slot + 1) == Some(v)
  {
    assert ExecRow(u, row) == Some(v);
    assert RunSlots(c, v, slot + 1, slot + 1) == Some(v);
  }

  lemma NextSlot(c: Config, x: Block, u: Space, s: Run, layer: nat, slot: nat)
    requires c.Valid() && |s.rows| == |x.nodes| + 1 && layer < LayerCount(|x.nodes|) && At(c, x, u, s, layer, slot)
    ensures At(c, x, u, s, layer, slot + 1)
  {
    hide RowAt, Holds, LayerAt;
  }

  lemma SafeHere(c: Config, x: Block, data: Space, j: nat)
    requires c.Valid() && AlwaysSafe(c, x, data) && j < |x.nodes|
    ensures Before(c, x, data, j).rows[j].n == 0 || Safe(c, x, Before(c, x, data, j), j)
  {
    hide Safe;
  }

  lemma AgreeSize(c: Config, x: Block, u: Space, s: Space)
    requires c.Valid() && DataAgree(c, x, u, s)
    ensures |u| == |s|
  {
  }

  lemma SameNumber(c: Config, x: Block, u: Space, s: Space, at: nat, n: nat)
    requires c.Valid() && DataAgree(c, x, u, s) && InData(c, x, at, n) && at + n <= |u|
    ensures |s| == |u| && Val(u, at, n) == Val(s, at, n)
  {
    hide LayerAt;
    forall p: nat | at <= p < at + n ensures u[p] == s[p] {
      assert InData(c, x, p, 1);
    }
    ValFrame(u, s, at, n);
  }

  /** A node that patches another one. */
  lemma PatchSlot(c: Config, x: Block, data: Space, u: Space, layer: nat, slot: nat, j: nat) returns (v: Space)
    requires c.Valid() && Well(c, x) && layer < LayerCount(|x.nodes|) && slot < LINK
    requires IsNode(|x.nodes|, layer, slot) && j == NodeIn(|x.nodes|, layer, slot) && j < |x.nodes| && x.nodes[j].dst.Into?
    requires At(c, x, u, Before(c, x, data, j), layer, slot)
    requires Before(c, x, data, j).rows[j].n > 0 && Safe(c, x, Before(c, x, data, j), j)
    ensures var row := Before(c, x, data, j).rows[j];
      && row.dst + row.n <= |u| && row.src + row.n <= |u| && v == CopyBits(u, row.n, row.dst, row.src)
    ensures At(c, x, v, Step(c, x, Before(c, x, data, j), j), layer, slot + 1)
  {
    hide LayerAt, RowAt, RowBitsAt, Holds, Encoded, Before, IsNode, NodeIn, LayerOf, SlotOf, c.Offset, InData, SetField, Span, Same, Val, Well, Waiting, FieldOffset, LayerCount;
    var n := |x.nodes|;
    var t, f, off := x.nodes[j].dst.node, x.nodes[j].dst.field, x.nodes[j].dst.off;
    PatchForward(c, x, j);
    PlaceNode(n, layer, slot);
    NodePlace(n, t);
    NodesGrow(n, j, t);
    var s := Before(c, x, data, j);
    var row := s.rows[j];
    PatchStays(c, x, data, j, j);
    AgreeSize(c, x, u, s.data);
    var at := c.SlotAt(if LayerOf(n, t) == layer then 0 else LayerAt(c, x.base, LayerOf(n, t)), SlotOf(n, t));
    assert row.dst == at + FieldOffset(c, f) + off;
    HomeInside(c, x, u, s, layer, slot, t);
    FieldWritten(c, u, at, f, off, row.n, row.src);
    v := CopyBits(u, row.n, row.dst, row.src);
    SameNumber(c, x, u, s.data, row.src, row.n);
    var r := SetField(s.rows[t], f, off, row.n, Val(s.data, row.src, row.n));
    if LayerOf(n, t) == layer {
      PatchHere(c, x, u, s, layer, slot, t, r, v);
    } else {
      PatchLater(c, x, u, s, layer, slot, t, r, v);
    }
  }

  lemma PatchForward(c: Config, x: Block, j: nat)
    requires c.Valid() && Well(c, x) && j < |x.nodes| && x.nodes[j].dst.Into?
    ensures j < x.nodes[j].dst.node <= |x.nodes|
  {
  }

  lemma NodesGrow(n: nat, i: nat, j: nat)
    requires i <= j <= n
    ensures LayerOf(n, i) <= LayerOf(n, j)
    ensures i < j && LayerOf(n, i) == LayerOf(n, j) ==> SlotOf(n, i) < SlotOf(n, j)
  {
  }

  /** The row of a node still to come, where it lies. */
  lemma HomeInside(c: Config, x: Block, u: Space, s: Run, layer: nat, slot: nat, t: nat)
    requires c.Valid() && |s.rows| == |x.nodes| + 1 && layer < LayerCount(|x.nodes|) && At(c, x, u, s, layer, slot)
    requires t <= |x.nodes| && LayerOf(|x.nodes|, t) >= layer
    requires LayerOf(|x.nodes|, t) == layer ==> slot <= SlotOf(|x.nodes|, t)
    ensures var at := c.SlotAt(if LayerOf(|x.nodes|, t) == layer then 0 else LayerAt(c, x.base, LayerOf(|x.nodes|, t)), SlotOf(|x.nodes|, t));
      at + c.RowBits() <= |u| && RowBitsAt(c, u, at) == s.rows[t]
  {
    var n := |x.nodes|;
    var k, l := SlotOf(n, t), LayerOf(n, t);
    NodePlace(n, t);
    hide LayerAt, RowAt, RowBitsAt, IsNode, NodeIn, LayerOf, SlotOf, c.Offset, DataAgree;
    var rows := LayerRows(c, x, s.rows, l);
    assert rows[k] == SlotRow(c, x, s.rows, l, k) == s.rows[t];
    if l == layer {
      HeldRow(c, u, 0, k);
    } else {
      assert Holds(c, u, LayerAt(c, x.base, l), rows);
      HeldRow(c, u, LayerAt(c, x.base, l), k);
    }
  }

  /** A slot without a node is skipped. */
  lemma EmptySlot(c: Config, x: Block, u: Space, s: Run, layer: nat, slot: nat)
    requires c.Valid() && |s.rows| == |x.nodes| + 1 && layer < LayerCount(|x.nodes|) && slot < LINK
    requires !IsNode(|x.nodes|, layer, slot) && At(c, x, u, s, layer, slot)
    ensures RunSlots(c, u, slot, slot + 1) == Some(u) && At(c, x, u, s, layer, slot + 1)
  {
    hide RowAt, Holds, LayerAt, IsNode, Encoded;
    assert LayerRows(c, x, s.rows, layer)[slot] == NOP;
    NextSlot(c, x, u, s, layer, slot);
    assert ExecRow(u, NOP) == Some(u);
    assert RunSlots(c, u, slot + 1, slot + 1) == Some(u);
  }

  /** How many nodes lie in front of a slot. */
  function Done(n: nat, layer: nat, slot: nat): (k: nat)
    ensures k <= n
  {
    var k := layer * CHUNK + (if slot < FIRST then 0 else slot - FIRST);
    if k < n then k else n
  }

  lemma DoneNext(n: nat, layer: nat, slot: nat)
    requires layer < LayerCount(n) && slot < LINK
    ensures if IsNode(n, layer, slot) then Done(n, layer, slot) == NodeIn(n, layer, slot) < n && Done(n, layer, slot + 1) == Done(n, layer, slot) + 1
            else Done(n, layer, slot + 1) == Done(n, layer, slot)
  {
  }

  /** The slots of a layer in front of its link. */
  lemma {:induction false} LayerRun(c: Config, x: Block, data: Space, u: Space, layer: nat, slot: nat) returns (v: Space)
    requires c.Valid() && Well(c, x) && AlwaysSafe(c, x, data) && layer < LayerCount(|x.nodes|) && slot <= LINK
    requires At(c, x, u, Before(c, x, data, Done(|x.nodes|, layer, 0)), layer, 0)
    ensures c.LayerBits() <= |u| && RunSlots(c, u, 0, slot) == Some(v)
    ensures At(c, x, v, Before(c, x, data, Done(|x.nodes|, layer, slot)), layer, slot)
    decreases slot
  {
    hide Well, AlwaysSafe, Before, IsNode, NodeIn, Done, DataAgree, Waiting, Encoded, LayerAt, RowAt;
    if slot == 0 {
      v := u;
    } else {
      var n := |x.nodes|;
      var w := LayerRun(c, x, data, u, layer, slot - 1);
      DoneNext(n, layer, slot - 1);
      if IsNode(n, layer, slot - 1) {
        v := NodeSlot(c, x, data, w, layer, slot - 1, Done(n, layer, slot - 1));
      } else {
        v := w;
        EmptySlot(c, x, w, Before(c, x, data, Done(n, layer, slot - 1)), layer, slot - 1);
      }
      RunSplit(c, u, 0, slot - 1, slot);
    }
  }

  /** A link loads the next layer. */
  lemma LinkLoads(c: Config, x: Block, u: Space, s: Run, layer: nat) returns (v: Space)
    requires c.Valid() && |s.rows| == |x.nodes| + 1 && layer + 1 < LayerCount(|x.nodes|) && At(c, x, u, s, layer, LINK)
    ensures RunSlots(c, u, LINK, SLOTS) == Some(v) && At(c, x, v, s, layer + 1, 0)
  {
    hide RowAt, Holds, IsNode;
    var home := LayerAt(c, x.base, layer + 1);
    LayerInside(c, x.base, layer + 1, LayerCount(|x.nodes|));
    var row := Row(c.LayerBits(), 0, home);
    assert LayerRows(c, x, s.rows, layer)[LINK] == row by {
      LastLink(|x.nodes|, layer);
    }
    v := CopyBits(u, row.n, row.dst, row.src);
    RunRow(c, u, LINK, row, v);
    LoadedRows(c, x, u, s, layer, v);
  }

  lemma LastLink(n: nat, layer: nat)
    requires layer + 1 < LayerCount(n)
    ensures !IsNode(n, layer, LINK)
  {
  }

  lemma LoadedRows(c: Config, x: Block, u: Space, s: Run, layer: nat, v: Space)
    requires c.Valid() && |s.rows| == |x.nodes| + 1 && layer + 1 < LayerCount(|x.nodes|) && At(c, x, u, s, layer, LINK)
    requires var home := LayerAt(c, x.base, layer + 1);
      home + c.LayerBits() <= |u| && v == CopyBits(u, c.LayerBits(), 0, home)
    ensures At(c, x, v, s, layer + 1, 0)
  {
    hide RowAt, LayerAt, IsNode, Span, Same, RowBitsAt, c.Offset;
    var home := LayerAt(c, x.base, layer + 1);
    var rows := LayerRows(c, x, s.rows, layer + 1);
    assert Holds(c, u, home, rows);
    CopySame(u, c.LayerBits(), 0, home);
    DataKept(c, x, u, s.data, v, 0);
    forall slot {:trigger rows[slot]} | 0 <= slot < SLOTS ensures RowAt(c, v, 0, slot) == rows[slot] {
      LoadedRow(c, u, v, home, slot);
    }
    forall l: nat {:trigger LayerAt(c, x.base, l)} | layer + 2 <= l < LayerCount(|x.nodes|)
      ensures Span(LayerAt(c, x.base, l), c.LayerBits()) !! Span(0, c.LayerBits())
    {
      BaseInside(c, x.base, l);
      SpansApart(LayerAt(c, x.base, l), c.LayerBits(), 0, c.LayerBits());
    }
    EncodedKept(c, x, u, v, Span(0, c.LayerBits()), s.rows, layer + 2);
  }

  lemma LoadedRow(c: Config, u: Space, v: Space, home: nat, slot: nat)
    requires c.Valid() && slot < SLOTS && c.LayerBits() <= |u| && home + c.LayerBits() <= |u|
    requires v == CopyBits(u, c.LayerBits(), 0, home)
    ensures RowAt(c, v, 0, slot) == RowAt(c, u, home, slot)
  {
    hide Val, c.Offset;
    SlotInLayer(c, 0, slot);
    SlotShift(c, home, slot);
    var at := c.SlotAt(0, slot);
    CopyInside(u, c.LayerBits(), 0, home, at, c.ab - 1);
    CopyInside(u, c.LayerBits(), 0, home, at + c.ab - 1, c.ab);
    CopyInside(u, c.LayerBits(), 0, home, at + 2 * c.ab - 1, c.ab);
  }

  lemma SlotShift(c: Config, home: nat, slot: nat)
    requires c.Valid()
    ensures c.SlotAt(home, slot) == home + c.SlotAt(0, slot)
  {
  }

  /** So many ticks of the machine. */
  function Ticked(c: Config, u: Space, k: nat): (v: Option<Space>)
    requires c.Valid() && c.LayerBits() <= |u|
    ensures v.Some? ==> |v.value| == |u|
  {
    if k == 0 then Some(u)
    else match Ticked(c, u, k - 1)
      case None => None
      case Some(w) => RunSlots(c, w, 0, SLOTS)
  }

  lemma {:induction false} LayersRun(c: Config, x: Block, u: Space, k: nat) returns (v: Space)
    requires c.Valid() && Well(c, x) && AlwaysSafe(c, x, u) && k < LayerCount(|x.nodes|)
    requires At(c, x, u, Before(c, x, u, 0), 0, 0)
    ensures c.LayerBits() <= |u| && Ticked(c, u, k) == Some(v)
    ensures At(c, x, v, Before(c, x, u, Done(|x.nodes|, k, 0)), k, 0)
  {
    hide Well, AlwaysSafe, Before, DataAgree, Waiting, Encoded, LayerAt, RunSlots;
    if k == 0 {
      v := u;
    } else {
      var n := |x.nodes|;
      var w := LayersRun(c, x, u, k - 1);
      var t := LayerRun(c, x, u, w, k - 1, LINK);
      v := LinkLoads(c, x, t, Before(c, x, u, Done(n, k - 1, LINK)), k - 1);
      RunSplit(c, w, 0, LINK, SLOTS);
      assert Done(n, k - 1, LINK) == Done(n, k, 0);
    }
  }

  /** The block as encode leaves it: its layers in their places, the first one loaded. */
  ghost predicate Ready(c: Config, x: Block, u: Space)
    requires c.Valid()
  {
    && LayerAt(c, x.base, LayerCount(|x.nodes|)) <= |u| && c.LayerBits() <= x.base
    && c.LayerBits() <= |u|
    && Encoded(c, x, u, FirstRows(c, x), 0)
    && Holds(c, u, 0, LayerRows(c, x, FirstRows(c, x), 0))
  }

  /**
   * A block of any length takes one tick a layer: after ceil(n / 252) - 1 ticks and the slots of another one up
   * to the link, the data are those of the nodes executed in order, and slot 255 holds the terminator as they have patched it.
   */
  lemma CutBlock(c: Config, x: Block, u: Space) returns (v: Space, w: Space)
    requires c.Valid() && Well(c, x) && Ready(c, x, u) && AlwaysSafe(c, x, u)
    ensures Ticked(c, u, LayerCount(|x.nodes|) - 1) == Some(v)
    ensures RunSlots(c, v, 0, LINK) == Some(w)
    ensures var end := Before(c, x, u, |x.nodes|);
      DataAgree(c, x, w, end.data) && RowAt(c, w, 0, LINK) == end.rows[|x.nodes|]
    ensures var n, layers := |x.nodes|, LayerCount(|x.nodes|);
      n <= 252 * layers && if n == 0 then layers == 1 else 252 * (layers - 1) < n
  {
    hide Well, AlwaysSafe, Before, DataAgree, RowAt, RunSlots, Ticked, LayerAt;
    var n := |x.nodes|;
    StartAt(c, x, u);
    v := LayersRun(c, x, u, LayerCount(n) - 1);
    w := LayerRun(c, x, u, v, LayerCount(n) - 1, LINK);
    assert Done(n, LayerCount(n) - 1, LINK) == n;
    var end := Before(c, x, u, n);
    assert LayerRows(c, x, end.rows, LayerCount(n) - 1)[LINK] == end.rows[n];
  }

  lemma StartAt(c: Config, x: Block, u: Space)
    requires c.Valid() && Ready(c, x, u)
    ensures At(c, x, u, Before(c, x, u, 0), 0, 0)
  {
    hide RowAt, LayerAt;
  }

  /** With a terminator that loads a layer, the next tick begins in that layer: ceil(n / 252) ticks in all. */
  lemma BlockGoes(c: Config, x: Block, u: Space) returns (v: Space)
    requires c.Valid() && Well(c, x) && Ready(c, x, u) && AlwaysSafe(c, x, u)
    requires var last := Before(c, x, u, |x.nodes|).rows[|x.nodes|];
      last.n == c.LayerBits() && last.dst == 0 && last.src + c.LayerBits() <= |u|
    ensures Ticked(c, u, LayerCount(|x.nodes|)) == Some(v)
    ensures DataAgree(c, x, v, Before(c, x, u, |x.nodes|).data)
    ensures var next := Before(c, x, u, |x.nodes|).rows[|x.nodes|].src;
      InData(c, x, next, c.LayerBits()) ==>
        forall slot | 0 <= slot < SLOTS :: RowAt(c, v, 0, slot) == RowAt(c, Before(c, x, u, |x.nodes|).data, next, slot)
  {
    var before, w := CutBlock(c, x, u);
    hide Well, AlwaysSafe, Before, RowAt, RunSlots, LayerAt, Ready, Span, Same;
    var end := Before(c, x, u, |x.nodes|);
    var last := end.rows[|x.nodes|];
    v := CopyBits(w, last.n, last.dst, last.src);
    AgreeSize(c, x, w, end.data);
    RunRow(c, w, LINK, last, v);
    RunSplit(c, before, 0, LINK, SLOTS);
    CopySame(w, last.n, 0, last.src);
    DataKept(c, x, w, end.data, v, 0);
    if InData(c, x, last.src, c.LayerBits()) {
      forall slot | 0 <= slot < SLOTS ensures RowAt(c, v, 0, slot) == RowAt(c, end.data, last.src, slot) {
        LoadedRow(c, w, v, last.src, slot);
        DataRow(c, x, w, end.data, last.src, slot);
      }
    }
  }

  lemma DataRow(c: Config, x: Block, w: Space, s: Space, at: nat, slot: nat)
    requires c.Valid() && DataAgree(c, x, w, s) && InData(c, x, at, c.LayerBits()) && at + c.LayerBits() <= |w| && slot < SLOTS
    ensures |s| == |w| && RowAt(c, w, at, slot) == RowAt(c, s, at, slot)
  {
    hide Val, LayerAt, DataAgree, c.Offset;
    AgreeSize(c, x, w, s);
    SlotInLayer(c, at, slot);
    var p := c.SlotAt(at, slot);
    SameNumber(c, x, w, s, p, c.ab - 1);
    SameNumber(c, x, w, s, p + c.ab - 1, c.ab);
    SameNumber(c, x, w, s, p + 2 * c.ab - 1, c.ab);
  }

  /** How long a block is, and where it lies. */
  function CodeBits(c: Config, x: Block): nat
    requires c.Valid()
  {
    LayerCount(|x.nodes|) * c.LayerBits()
  }

  ghost function CodeArea(c: Config, x: Block): iset<int>
    requires c.Valid()
  {
    Span(x.base, CodeBits(c, x))
  }

  /** The layers as far as they are written: all slots of the first layers, the slots in front of one in the next. */
  function Partly(c: Config, x: Block, layer: nat, slot: nat): (r: seq<seq<Row>>)
    requires c.Valid()
    ensures |r| == LayerCount(|x.nodes|)
    ensures forall l {:trigger r[l]} | 0 <= l < |r| :: r[l] == PartlyLayer(c, x, l, if l < layer then SLOTS else if l == layer then slot else 0)
  {
    seq(LayerCount(|x.nodes|), l requires 0 <= l < LayerCount(|x.nodes|) => PartlyLayer(c, x, l, if l < layer then SLOTS else if l == layer then slot else 0))
  }

  function PartlyLayer(c: Config, x: Block, layer: nat, slots: nat): (r: seq<Row>)
    requires c.Valid() && layer < LayerCount(|x.nodes|)
    ensures |r| == SLOTS
    ensures forall k {:trigger r[k]} | 0 <= k < SLOTS :: r[k] == if k < slots then SlotRow(c, x, FirstRows(c, x), layer, k) else NOP
  {
    seq(SLOTS, k requires 0 <= k < SLOTS => if k < slots then SlotRow(c, x, FirstRows(c, x), layer, k) else NOP)
  }

  lemma PartlyMore(c: Config, x: Block, layer: nat, slot: nat)
    requires c.Valid() && layer < LayerCount(|x.nodes|) && slot < SLOTS
    ensures Partly(c, x, layer, slot + 1) == SetRow(Partly(c, x, layer, slot), layer, slot, SlotRow(c, x, FirstRows(c, x), layer, slot))
  {
    hide SlotRow, FirstRows;
    var a, b := Partly(c, x, layer, slot + 1), SetRow(Partly(c, x, layer, slot), layer, slot, SlotRow(c, x, FirstRows(c, x), layer, slot));
    assert a[layer] == PartlyLayer(c, x, layer, slot + 1) == b[layer];
  }

  lemma PartlyFull(c: Config, x: Block, layer: nat)
    requires c.Valid() && layer < LayerCount(|x.nodes|)
    ensures Partly(c, x, layer, SLOTS) == Partly(c, x, layer + 1, 0)
  {
    hide SlotRow, FirstRows;
  }

  lemma PartlyStart(c: Config, x: Block, s: Space)
    requires c.Valid() && Blank(s, x.base, CodeBits(c, x))
    ensures Written(c, s, x.base, Partly(c, x, 0, 0))
  {
    AreaEnds(c, x);
    hide SlotRow, FirstRows, LayerAt, Holds, LayerCount;
    var r := Partly(c, x, 0, 0);
    forall l {:trigger r[l]} | 0 <= l < |r| ensures Holds(c, s, LayerAt(c, x.base, l), r[l]) {
      LayerInside(c, x.base, l, |r|);
      assert r[l] == PartlyLayer(c, x, l, 0) == EmptyLayer();
      ZeroHolds(c, s, LayerAt(c, x.base, l));
    }
  }

  lemma PartlyEnd(c: Config, x: Block, s: Space)
    requires c.Valid() && Written(c, s, x.base, Partly(c, x, LayerCount(|x.nodes|), 0))
    ensures Encoded(c, x, s, FirstRows(c, x), 0)
  {
    hide SlotRow, FirstRows, LayerAt, Holds, LayerCount;
    var n := LayerCount(|x.nodes|);
    var r := Partly(c, x, n, 0);
    forall l: nat {:trigger LayerRows(c, x, FirstRows(c, x), l)} | l < n
      ensures Holds(c, s, LayerAt(c, x.base, l), LayerRows(c, x, FirstRows(c, x), l))
    {
      assert r[l] == PartlyLayer(c, x, l, SLOTS) == LayerRows(c, x, FirstRows(c, x), l);
    }
  }

  /** Every row that is to be written fits its fields. */
  ghost predicate AllFit(c: Config, x: Block)
    requires c.Valid()
  {
    forall layer: nat, slot: nat {:trigger SlotRow(c, x, FirstRows(c, x), layer, slot)} |
      layer < LayerCount(|x.nodes|) && slot < SLOTS :: Fits(c, SlotRow(c, x, FirstRows(c, x), layer, slot))
  }

  lemma AllFitIs(c: Config, x: Block)
    requires c.Valid()
    ensures AllFit(c, x) <==> forall layer: nat, slot: nat {:trigger SlotRow(c, x, FirstRows(c, x), layer, slot)} |
      layer < LayerCount(|x.nodes|) && slot < 256 ::
        var row := SlotRow(c, x, FirstRows(c, x), layer, slot);
        row.n < Pow2(c.ab - 1) && row.dst < Pow2(c.ab) && row.src < Pow2(c.ab)
  {
    hide SlotRow, FirstRows, LayerCount, Pow2;
  }

  /** Writes the rows of a block into an area of zeros, layer after layer; fails if a number does not fit its field. */
  method Encode(c: Config, x: Block, data: array<bv8>) returns (ok: bool)
    requires c.Valid() && LayerAt(c, x.base, LayerCount(|x.nodes|)) <= 8 * data.Length
    requires Blank(Unpack(data[..]), x.base, CodeBits(c, x))
    modifies data
    ensures ok <==> AllFit(c, x)
    ensures ok <==> forall layer: nat, slot: nat {:trigger SlotRow(c, x, FirstRows(c, x), layer, slot)} |
      layer < LayerCount(|x.nodes|) && slot < 256 ::
        var row := SlotRow(c, x, FirstRows(c, x), layer, slot);
        row.n < Pow2(c.ab - 1) && row.dst < Pow2(c.ab) && row.src < Pow2(c.ab)
    ensures ok ==> Encoded(c, x, Unpack(data[..]), FirstRows(c, x), 0)
    ensures Same(old(Unpack(data[..])), Unpack(data[..]), CodeArea(c, x))
  {
    hide Encoded, Written, RowBitsAt, Span, Same, Blank, Unpack, SlotRow, FirstRows, LayerAt, Partly, LayerCount, c.Offset, Fits;
    AllFitIs(c, x);
    var n := LayerCount(|x.nodes|);
    var rows := FirstRows(c, x);
    BaseInside(c, x.base, n);
    ghost var area := CodeArea(c, x);
    ghost var was := Unpack(data[..]);
    var layer := 0;
    PartlyStart(c, x, was);
    SameSelf(was, area);
    while layer < n
      invariant 0 <= layer <= n && Written(c, Unpack(data[..]), x.base, Partly(c, x, layer, 0)) && Same(was, Unpack(data[..]), area)
      invariant forall l: nat, k: nat {:trigger SlotRow(c, x, rows, l, k)} | l < layer && k < SLOTS :: Fits(c, SlotRow(c, x, rows, l, k))
    {
      var slot := 0;
      while slot < SLOTS
        invariant 0 <= slot <= SLOTS && Written(c, Unpack(data[..]), x.base, Partly(c, x, layer, slot)) && Same(was, Unpack(data[..]), area)
        invariant forall k: nat {:trigger SlotRow(c, x, rows, layer, k)} | k < slot :: Fits(c, SlotRow(c, x, rows, layer, k))
      {
        var row := SlotRow(c, x, rows, layer, slot);
        if !Fits(c, row) {
          return false;
        }
        ghost var before := Unpack(data[..]);
        SlotAddress(c, x.base, layer, slot, n);
        WriteRow(c, data, LayerAt(c, x.base, layer) + slot * c.RowBits(), row);
        RowPut(c, x, was, before, Unpack(data[..]), layer, slot, row);
        slot := slot + 1;
      }
      PartlyFull(c, x, layer);
      layer := layer + 1;
    }
    PartlyEnd(c, x, Unpack(data[..]));
    return true;
  }

  lemma AreaEnds(c: Config, x: Block)
    requires c.Valid()
    ensures LayerAt(c, x.base, LayerCount(|x.nodes|)) == x.base + CodeBits(c, x)
  {
  }

  lemma RowPut(c: Config, x: Block, was: Space, before: Space, after: Space, layer: nat, slot: nat, row: Row)
    requires c.Valid() && layer < LayerCount(|x.nodes|) && slot < SLOTS && row == SlotRow(c, x, FirstRows(c, x), layer, slot)
    requires Written(c, before, x.base, Partly(c, x, layer, slot))
    requires Same(was, before, CodeArea(c, x))
    requires var at := LayerAt(c, x.base, layer) + slot * c.RowBits();
      Same(before, after, Span(at, c.RowBits())) && at + c.RowBits() <= |after| && RowBitsAt(c, after, at) == row
    ensures Written(c, after, x.base, Partly(c, x, layer, slot + 1))
    ensures Same(was, after, CodeArea(c, x))
  {
    hide Written, RowBitsAt, Span, Same, SlotRow, FirstRows, LayerAt, LayerCount, c.Offset;
    var n := LayerCount(|x.nodes|);
    var sheet := Partly(c, x, layer, slot);
    assert sheet[layer] == PartlyLayer(c, x, layer, slot);
    SlotAddress(c, x.base, layer, slot, n);
    var at := LayerAt(c, x.base, layer) + slot * c.RowBits();
    var area := CodeArea(c, x);
    WrittenRow(c, before, after, x.base, sheet, layer, slot, row);
    PartlyMore(c, x, layer, slot);
    AreaEnds(c, x);
    SpanInside(x.base, CodeBits(c, x), at, c.RowBits());
    SameThen(was, before, after, area, Span(at, c.RowBits()), area);
  }

  /** Layers of the block counted from 0, and the slots in them. */
  datatype Spot = Spot(layer: nat, slot: nat)

  /** The placement loop: chunks of 252 nodes, one chunk if there are none, the terminator in the last slot of the last. */
  method Place(count: nat) returns (spots: seq<Spot>, link: Spot)
    ensures |spots| == count
    ensures forall j | 0 <= j < count :: spots[j] == Spot(LayerOf(count, j), SlotOf(count, j)) && spots[j].slot < LINK
    ensures link == Spot(LayerOf(count, count), SlotOf(count, count))
    ensures forall j | 0 <= j < count :: spots[j] == Spot(j / 252, 3 + j % 252)
    ensures link == Spot(if count == 0 then 0 else (count - 1) / 252, 255)
  {
    spots := [];
    var layer := 0;
    while layer * CHUNK < count
      invariant |spots| == (if layer * CHUNK < count then layer * CHUNK else count)
      invariant layer > 0 ==> (layer - 1) * CHUNK < count
      invariant forall j | 0 <= j < |spots| :: spots[j] == Spot(j / CHUNK, FIRST + j % CHUNK)
    {
      var slot := FIRST;
      while slot < LINK && layer * CHUNK + slot - FIRST < count
        invariant FIRST <= slot <= LINK && |spots| == layer * CHUNK + slot - FIRST <= count
        invariant forall j | 0 <= j < |spots| :: spots[j] == Spot(j / CHUNK, FIRST + j % CHUNK)
      {
        spots := spots + [Spot(layer, slot)];
        slot := slot + 1;
      }
      layer := layer + 1;
    }
    link := Spot(if layer == 0 then 0 else layer - 1, LINK);
  }
}
