/**
 * Layers of generated copies. An operation is one row whose address fields are patched, just before
 * it is fetched, by rows that the generator places in the slots in front of it. The lemmas show that
 * the self-modifying rows do exactly what the operation means on the space behind the processor.
 */
module Layers {
  import opened Bits
  import opened Machine

  const FIRST: nat := 3
  const LINK: nat := 255

  datatype FieldName = DstField | SrcField

  /** Copies width bits from a position into bits off.. of an address field of the operation's row. */
  datatype Patch = Patch(field: FieldName, off: nat, width: nat, from: nat)

  datatype Op = Op(n: nat, dst: nat, src: nat, patches: seq<Patch>)

  function FieldBase(c: Config, f: FieldName): nat
    requires c.Valid()
  {
    if f == DstField then c.ab - 1 else 2 * c.ab - 1
  }

  function PatchRow(c: Config, p: Patch, slot: nat): Row
    requires c.Valid()
  {
    Row(p.width, c.SlotAt(0, slot) + FieldBase(c, p.field) + p.off, p.from)
  }

  /** The rows emitted for an operation whose first row lands in the given slot. */
  function OpRows(c: Config, op: Op, slot: nat): (rows: seq<Row>)
    requires c.Valid()
    ensures |rows| == |op.patches| + 1
  {
    seq(|op.patches|, j requires 0 <= j < |op.patches| => PatchRow(c, op.patches[j], slot + |op.patches|))
      + [Row(op.n, op.dst, op.src)]
  }

  /** A field's number after the patches: each replaces its bits by what lies at its source. */
  function Patched(s: Space, v: nat, f: FieldName, patches: seq<Patch>): nat
    requires forall p | p in patches :: p.from + p.width <= |s|
  {
    if patches == [] then v
    else
      var k := |patches| - 1;
      var u := Patched(s, v, f, patches[..k]);
      var p := patches[k];
      if p.field == f then Replace(u, p.off, p.width, Val(s, p.from, p.width)) else u
  }

  predicate PatchesSafe(c: Config, s: Space, patches: seq<Patch>)
    requires c.Valid()
  {
    forall p | p in patches ::
      p.width > 0 && p.off + p.width <= c.ab && c.LayerBits() <= p.from && p.from + p.width <= |s|
  }

  /** The copy an operation performs, once its row is patched. */
  function Effect(s: Space, op: Op): Row
    requires forall p | p in op.patches :: p.from + p.width <= |s|
  {
    Row(op.n, Patched(s, op.dst, DstField, op.patches), Patched(s, op.src, SrcField, op.patches))
  }

  /** The operation reads and writes only behind the processor. */
  predicate Safe(c: Config, s: Space, op: Op)
    requires c.Valid()
  {
    && PatchesSafe(c, s, op.patches)
    && var row := Effect(s, op);
    && row.n > 0
    && c.LayerBits() <= row.dst && row.dst + row.n <= |s|
    && c.LayerBits() <= row.src && row.src + row.n <= |s|
  }

  function ExecOp(c: Config, s: Space, op: Op): (t: Space)
    requires c.Valid() && Safe(c, s, op)
    ensures |t| == |s|
  {
    var row := Effect(s, op);
    CopyBits(s, row.n, row.dst, row.src)
  }

  ghost predicate Agree(c: Config, s: Space, t: Space)
    requires c.Valid()
  {
    && c.LayerBits() <= |s| == |t|
    && forall p {:trigger s[p]} {:trigger t[p]} | c.LayerBits() <= p < |s| :: s[p] == t[p]
  }

  ghost predicate RowsAt(c: Config, s: Space, base: nat, slot: nat, rows: seq<Row>)
    requires c.Valid()
  {
    && base + c.LayerBits() <= |s|
    && slot + |rows| <= SLOTS
    && forall j {:trigger rows[j]} | 0 <= j < |rows| :: RowAt(c, s, base, slot + j) == rows[j]
  }

  /** The processors of s and t have the same rows in the slots from..to-1, the given one apart. */
  ghost predicate SameRows(c: Config, s: Space, t: Space, from: nat, except: nat)
    requires c.Valid() && c.LayerBits() <= |s| && c.LayerBits() <= |t|
  {
    forall i | from <= i < SLOTS && i != except :: RowAt(c, s, 0, i) == RowAt(c, t, 0, i)
  }

  /** Bits written inside one row leave every other row alone. */
  lemma WriteInRow(c: Config, s: Space, t: Space, slot: nat)
    requires c.Valid() && slot < SLOTS && c.LayerBits() <= |s| == |t|
    requires forall p {:trigger t[p]} |
      0 <= p < |s| && !(c.SlotAt(0, slot) <= p < c.SlotAt(0, slot) + c.RowBits()) :: t[p] == s[p]
    ensures SameRows(c, s, t, 0, slot)
  {
    forall i | 0 <= i < SLOTS && i != slot ensures RowAt(c, s, 0, i) == RowAt(c, t, 0, i) {
      if i < slot { SlotOrder(c, 0, i, slot); } else { SlotOrder(c, 0, slot, i); }
      SlotInLayer(c, 0, i);
      RowFrame(c, t, 0, s, 0, i);
    }
  }

  /** Bits written behind the processor leave every row alone. */
  lemma WriteBehind(c: Config, s: Space, t: Space)
    requires c.Valid() && c.LayerBits() <= |s| == |t|
    requires forall p {:trigger t[p]} | 0 <= p < c.LayerBits() :: t[p] == s[p]
    ensures SameRows(c, s, t, 0, SLOTS)
  {
    forall i | 0 <= i < SLOTS ensures RowAt(c, s, 0, i) == RowAt(c, t, 0, i) {
      SlotInLayer(c, 0, i);
      RowFrame(c, t, 0, s, 0, i);
    }
  }

  /** Bits written inside one address field replace those bits of its number. */
  lemma WriteInField(c: Config, s: Space, t: Space, slot: nat, f: FieldName, off: nat, w: nat)
    requires c.Valid() && slot < SLOTS && c.LayerBits() <= |s| == |t| && off + w <= c.ab
    requires var at := c.SlotAt(0, slot) + FieldBase(c, f) + off;
      forall p {:trigger t[p]} | 0 <= p < |s| && !(at <= p < at + w) :: t[p] == s[p]
    ensures var at := c.SlotAt(0, slot) + FieldBase(c, f) + off;
      var old', new' := RowAt(c, s, 0, slot), RowAt(c, t, 0, slot);
      && at + w <= c.LayerBits()
      && new' == if f == DstField
                 then old'.(dst := Replace(old'.dst, off, w, Val(t, at, w)))
                 else old'.(src := Replace(old'.src, off, w, Val(t, at, w)))
  {
    hide Val, Replace;
    SlotInLayer(c, 0, slot);
    var at := c.SlotAt(0, slot);
    ValFrame(t, s, at, c.ab - 1);
    if f == DstField {
      ValReplace(s, t, at + c.ab - 1, c.ab, off, w);
      ValFrame(t, s, at + 2 * c.ab - 1, c.ab);
    } else {
      ValReplace(s, t, at + 2 * c.ab - 1, c.ab, off, w);
      ValFrame(t, s, at + c.ab - 1, c.ab);
    }
  }

  /** One copy row, executed alone. */
  lemma RunOne(c: Config, s: Space, slot: nat)
    requires c.Valid() && c.LayerBits() <= |s| && FIRST <= slot < SLOTS
    requires var row := RowAt(c, s, 0, slot); row.n > 0 && row.dst + row.n <= |s| && row.src + row.n <= |s|
    ensures var row := RowAt(c, s, 0, slot);
      RunSlots(c, s, slot, slot + 1) == Some(CopyBits(s, row.n, row.dst, row.src))
  {
    var row := RowAt(c, s, 0, slot);
    var t := CopyBits(s, row.n, row.dst, row.src);
    assert ExecRow(s, row) == Some(t);
    assert RunSlots(c, t, slot + 1, slot + 1) == Some(t);
  }

  /** One patch row rewrites its bits of the target row and nothing else. */
  lemma PatchStep(c: Config, s: Space, u: Space, p: Patch, slot: nat, target: nat)
    requires c.Valid() && Agree(c, s, u) && FIRST <= slot < target < SLOTS
    requires p.width > 0 && p.off + p.width <= c.ab && c.LayerBits() <= p.from && p.from + p.width <= |s|
    requires RowAt(c, u, 0, slot) == PatchRow(c, p, target)
    ensures RunSlots(c, u, slot, slot + 1).Some?
    ensures var t := RunSlots(c, u, slot, slot + 1).value;
      var before := RowAt(c, u, 0, target);
      && Agree(c, s, t)
      && SameRows(c, u, t, 0, target)
      && RowAt(c, t, 0, target) == if p.field == DstField
           then before.(dst := Replace(before.dst, p.off, p.width, Val(s, p.from, p.width)))
           else before.(src := Replace(before.src, p.off, p.width, Val(s, p.from, p.width)))
  {
    hide RowAt, Replace;
    SlotInLayer(c, 0, target);
    var row := PatchRow(c, p, target);
    RunOne(c, u, slot);
    var t := CopyBits(u, row.n, row.dst, row.src);
    CopyInside(u, row.n, row.dst, row.src, row.dst, row.n);
    ValFrame(u, s, p.from, p.width);
    PatchSpace(c, u, t, p, target);
  }

  lemma PatchSpace(c: Config, u: Space, t: Space, p: Patch, target: nat)
    requires c.Valid() && c.LayerBits() <= |u| && target < SLOTS && p.off + p.width <= c.ab
    requires p.from + p.width <= |u|
    requires var row := PatchRow(c, p, target);
      && row.dst + row.n <= |u|
      && t == CopyBits(u, row.n, row.dst, row.src)
    ensures var at := PatchRow(c, p, target).dst;
      var before := RowAt(c, u, 0, target);
      && at + p.width <= c.LayerBits()
      && (forall q {:trigger t[q]} | c.LayerBits() <= q < |u| :: t[q] == u[q])
      && SameRows(c, u, t, 0, target)
      && RowAt(c, t, 0, target) == if p.field == DstField
           then before.(dst := Replace(before.dst, p.off, p.width, Val(t, at, p.width)))
           else before.(src := Replace(before.src, p.off, p.width, Val(t, at, p.width)))
  {
    hide RowAt, Replace, Val, c.Offset;
    SlotInLayer(c, 0, target);
    WriteInRow(c, u, t, target);
    WriteInField(c, u, t, target, p.field, p.off, p.width);
  }

  lemma PatchedOne(s: Space, v: nat, f: FieldName, p: Patch)
    requires p.from + p.width <= |s|
    ensures Patched(s, v, f, [p]) == if p.field == f then Replace(v, p.off, p.width, Val(s, p.from, p.width)) else v
  {
    assert [p][..0] == [];
  }

  lemma PatchedNone(s: Space, op: Op)
    ensures Effect(s, op.(patches := op.patches[..0])) == Row(op.n, op.dst, op.src)
  {
  }

  lemma PatchedSnoc(s: Space, v: nat, f: FieldName, patches: seq<Patch>, m: nat)
    requires forall p | p in patches :: p.from + p.width <= |s|
    requires m < |patches|
    ensures Patched(s, v, f, patches[..m + 1]) == Patched(s, Patched(s, v, f, patches[..m]), f, [patches[m]])
  {
    assert patches[..m + 1][..m] == patches[..m];
    PatchedOne(s, Patched(s, v, f, patches[..m]), f, patches[m]);
  }

  /** The first m patch rows leave the target row with its fields patched m times. */
  lemma {:induction false} PatchesRun(c: Config, s: Space, u: Space, op: Op, slot: nat, m: nat)
    requires c.Valid() && Agree(c, s, u) && PatchesSafe(c, s, op.patches) && m <= |op.patches|
    requires FIRST <= slot && RowsAt(c, u, 0, slot, OpRows(c, op, slot))
    ensures RunSlots(c, u, slot, slot + m).Some?
    ensures var t := RunSlots(c, u, slot, slot + m).value;
      var target := slot + |op.patches|;
      && Agree(c, s, t)
      && SameRows(c, u, t, 0, target)
      && RowAt(c, t, 0, target) == Effect(s, op.(patches := op.patches[..m]))
    decreases m
  {
    hide RowAt, Patched, Replace, Val;
    var rows := OpRows(c, op, slot);
    var target := slot + |op.patches|;
    if m == 0 {
      assert rows[|op.patches|] == Row(op.n, op.dst, op.src);
      PatchedNone(s, op);
    } else {
      PatchesRun(c, s, u, op, slot, m - 1);
      var v := RunSlots(c, u, slot, slot + m - 1).value;
      var p := op.patches[m - 1];
      assert rows[m - 1] == PatchRow(c, p, target);
      PatchStep(c, s, v, p, slot + m - 1, target);
      RunSplit(c, u, slot, slot + m - 1, slot + m);
      PatchedSnoc(s, op.dst, DstField, op.patches, m - 1);
      PatchedSnoc(s, op.src, SrcField, op.patches, m - 1);
      PatchedOne(s, Patched(s, op.dst, DstField, op.patches[..m - 1]), DstField, p);
      PatchedOne(s, Patched(s, op.src, SrcField, op.patches[..m - 1]), SrcField, p);
    }
  }

  /** Running an operation's rows performs the operation; the other rows of the layer stay. */
  lemma OpRun(c: Config, s: Space, u: Space, op: Op, slot: nat)
    requires c.Valid() && Agree(c, s, u) && Safe(c, s, op)
    requires FIRST <= slot && RowsAt(c, u, 0, slot, OpRows(c, op, slot))
    ensures var next := slot + |op.patches| + 1;
      && RunSlots(c, u, slot, next).Some?
      && var t := RunSlots(c, u, slot, next).value;
      && Agree(c, ExecOp(c, s, op), t)
      && SameRows(c, u, t, next, SLOTS)
  {
    hide RowAt, Patched, Val, Replace, RunSlots;
    var k := |op.patches|;
    PatchesRun(c, s, u, op, slot, k);
    assert op.patches[..k] == op.patches;
    var v := RunSlots(c, u, slot, slot + k).value;
    RunOne(c, v, slot + k);
    var row := Effect(s, op);
    var t := CopyBits(v, row.n, row.dst, row.src);
    RunSplit(c, u, slot, slot + k, slot + k + 1);
    WriteBehind(c, v, t);
  }
}
