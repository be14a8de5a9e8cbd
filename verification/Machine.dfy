/** The copy machine: a bit space whose first 256 rows are fetched and executed in slot order. */
module Machine {
  import opened Bits

  const SLOTS: nat := 256

  datatype Option<+T> = None | Some(value: T)

  /** A machine is fixed by its address width; counts are one bit narrower. */
  datatype Config = Config(ab: nat) {
    predicate Valid() {
      2 <= ab <= 31
    }

    function RowBits(): nat
      requires ab >= 2
    {
      3 * ab - 1
    }

    function LayerBits(): nat
      requires ab >= 2
    {
      SLOTS * RowBits()
    }

    /** Where a slot starts in its layer: slot * RowBits(), counted up row by row. */
    function Offset(slot: nat): nat
      requires ab >= 2
    {
      if slot == 0 then 0 else Offset(slot - 1) + RowBits()
    }

    /** First bit of a slot of the layer that starts at base. */
    function SlotAt(base: nat, slot: nat): nat
      requires ab >= 2
    {
      base + Offset(slot)
    }
  }

  datatype Row = Row(n: nat, dst: nat, src: nat)

  const NOP := Row(0, 0, 0)

  lemma {:induction false} OffsetIsProduct(c: Config, slot: nat)
    requires c.Valid()
    ensures c.Offset(slot) == slot * c.RowBits()
  {
    if slot > 0 {
      OffsetIsProduct(c, slot - 1);
    }
  }

  lemma {:induction false} SlotOrder(c: Config, base: nat, i: nat, j: nat)
    requires c.Valid() && i < j
    ensures c.SlotAt(base, i) + c.RowBits() <= c.SlotAt(base, j)
    decreases j
  {
    if i < j - 1 {
      SlotOrder(c, base, i, j - 1);
    }
  }

  lemma SlotInLayer(c: Config, base: nat, slot: nat)
    requires c.Valid() && slot < SLOTS
    ensures base <= c.SlotAt(base, slot) && c.SlotAt(base, slot) + c.RowBits() <= base + c.LayerBits()
  {
    SlotOrder(c, base, slot, SLOTS);
    OffsetIsProduct(c, SLOTS);
  }

  /** The row of a slot, in the layer that starts at base (0 for the processor). */
  function RowAt(c: Config, s: Space, base: nat, slot: nat): Row
    requires c.Valid() && slot < SLOTS && base + c.LayerBits() <= |s|
  {
    SlotInLayer(c, base, slot);
    var at := c.SlotAt(base, slot);
    Row(Val(s, at, c.ab - 1), Val(s, at + c.ab - 1, c.ab), Val(s, at + 2 * c.ab - 1, c.ab))
  }

  lemma RowFrame(c: Config, s: Space, a: nat, t: Space, b: nat, slot: nat)
    requires c.Valid() && slot < SLOTS
    requires a + c.LayerBits() <= |s| && b + c.LayerBits() <= |t|
    requires forall p {:trigger s[p]} |
      c.SlotAt(a, slot) <= p < c.SlotAt(a, slot) + c.RowBits() && p < |s| && 0 <= p - a + b < |t| :: s[p] == t[p - a + b]
    ensures RowAt(c, s, a, slot) == RowAt(c, t, b, slot)
  {
    hide Val, Pow2, c.Offset;
    SlotInLayer(c, a, slot);
    SlotInLayer(c, b, slot);
    var x, y := c.SlotAt(a, slot), c.SlotAt(b, slot);
    ValMove(s, x, t, y, c.ab - 1);
    ValMove(s, x + c.ab - 1, t, y + c.ab - 1, c.ab);
    ValMove(s, x + 2 * c.ab - 1, t, y + 2 * c.ab - 1, c.ab);
  }

  predicate InRange(s: Space, row: Row) {
    row.dst < |s| && row.src < |s| && row.dst + row.n <= |s| && row.src + row.n <= |s|
  }

  function ExecRow(s: Space, row: Row): (r: Option<Space>)
    ensures r.Some? ==> |r.value| == |s|
  {
    if row.n == 0 then Some(s)
    else if !InRange(s, row) then None
    else Some(CopyBits(s, row.n, row.dst, row.src))
  }

  /** Slots from..to-1 in order, each fetched when it is reached; slots 1 and 2 belong to the channels. */
  function RunSlots(c: Config, s: Space, from: nat, to: nat): (r: Option<Space>)
    requires c.Valid() && c.LayerBits() <= |s| && from <= to <= SLOTS
    ensures r.Some? ==> |r.value| == |s|
    decreases (to as int) - from
  {
    if from == to then Some(s)
    else if from == 1 || from == 2 then RunSlots(c, s, from + 1, to)
    else match ExecRow(s, RowAt(c, s, 0, from))
      case None => None
      case Some(t) => RunSlots(c, t, from + 1, to)
  }

  lemma {:induction false} RunSplit(c: Config, s: Space, from: nat, mid: nat, to: nat)
    requires c.Valid() && c.LayerBits() <= |s| && from <= mid <= to <= SLOTS
    requires RunSlots(c, s, from, mid).Some?
    ensures RunSlots(c, s, from, to) == RunSlots(c, RunSlots(c, s, from, mid).value, mid, to)
    decreases (mid as int) - from
  {
    if from < mid {
      if from == 1 || from == 2 {
        RunSplit(c, s, from + 1, mid, to);
      } else {
        RunSplit(c, ExecRow(s, RowAt(c, s, 0, from)).value, from + 1, mid, to);
      }
    }
  }
}
