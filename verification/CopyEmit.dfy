/** Layers of rows in a byte image: the program writer of runtime/gcc/copy_emit.c. */
module CopyEmit {
  import opened Bits
  import opened Bytes
  import opened Machine
  import opened Layers
  import opened Programs
  import opened Lookups
  import opened Writer
  import opened Rows

  /** The layers written so far, row by row, and the first free slot of the last one. */
  datatype Sheet = Sheet(layers: seq<seq<Row>>, slot: nat)

  /** A layer of the space holds the rows. */
  ghost predicate Holds(c: Config, s: Space, at: nat, rows: seq<Row>)
    requires c.Valid()
  {
    && at + c.LayerBits() <= |s| && |rows| == SLOTS
    && forall k {:trigger rows[k]} | 0 <= k < SLOTS :: RowAt(c, s, at, k) == rows[k]
  }

  function EmptyLayer(): (rows: seq<Row>)
    ensures |rows| == SLOTS
  {
    seq(SLOTS, k => NOP)
  }

  function LayerAt(c: Config, begin: nat, i: nat): nat
    requires c.Valid()
  {
    begin + i * c.LayerBits()
  }

  /** All layers of the sheet lie one after another in the space. */
  ghost predicate Written(c: Config, s: Space, begin: nat, layers: seq<seq<Row>>)
    requires c.Valid()
  {
    forall i {:trigger layers[i]} | 0 <= i < |layers| :: Holds(c, s, LayerAt(c, begin, i), layers[i])
  }

  /** What a row may hold. */
  predicate RowValid(c: Config, row: Row)
    requires c.Valid()
  {
    && row.n < Pow2(c.ab - 1)
    && row.dst < Pow2(c.ab) && row.src < Pow2(c.ab)
    && row.dst + row.n <= Pow2(c.ab) && row.src + row.n <= Pow2(c.ab)
  }

  /** Addresses that can name every row of a layer have at least six bits. */
  lemma EnoughBits(c: Config)
    requires c.Valid() && c.LayerBits() < Pow2(c.ab - 1)
    ensures 6 <= c.ab && Pow2(c.ab) == 2 * Pow2(c.ab - 1)
  {
    if c.ab < 6 {
      assert c.ab == 2 || c.ab == 3 || c.ab == 4 || c.ab == 5;
      SmallPowers();
    }
  }

  /** A row put into one layer leaves every other row of the sheet. */
  lemma RowValidIs(c: Config, row: Row)
    requires c.Valid()
    ensures RowValid(c, row) <==> row.n < Pow2(c.ab - 1) && row.dst < Pow2(c.ab) && row.src < Pow2(c.ab)
                                  && row.dst + row.n <= Pow2(c.ab) && row.src + row.n <= Pow2(c.ab)
  {
  }

  function SetRow(layers: seq<seq<Row>>, i: nat, k: nat, row: Row): (r: seq<seq<Row>>)
    requires i < |layers| && k < |layers[i]|
    ensures |r| == |layers| && |r[i]| == |layers[i]|
  {
    layers[i := layers[i][k := row]]
  }

  lemma RowBitsFrame(c: Config, s: Space, t: Space, area: iset<int>, at: nat)
    requires c.Valid() && Same(s, t, area) && at + c.RowBits() <= |s| && Span(at, c.RowBits()) !! area
    ensures RowBitsAt(c, t, at) == RowBitsAt(c, s, at)
  {
    hide Val, Same, Span;
    SameSize(s, t, area);
    RowSpans(c, at);
    SameVal(s, t, area, at, c.ab - 1);
    SameVal(s, t, area, at + c.ab - 1, c.ab);
    SameVal(s, t, area, at + 2 * c.ab - 1, c.ab);
  }

  lemma RowSpans(c: Config, at: nat)
    requires c.Valid()
    ensures Span(at, c.ab - 1) <= Span(at, c.RowBits()) && Span(at + c.ab - 1, c.ab) <= Span(at, c.RowBits())
    ensures Span(at + 2 * c.ab - 1, c.ab) <= Span(at, c.RowBits())
  {
  }

  lemma SpansApart(a: nat, n: nat, b: nat, m: nat)
    requires a + n <= b || b + m <= a
    ensures Span(a, n) !! Span(b, m)
  {
  }

  lemma HeldRow(c: Config, s: Space, at: nat, k: nat)
    requires c.Valid() && k < SLOTS && at + c.LayerBits() <= |s|
    ensures at <= c.SlotAt(at, k) && c.SlotAt(at, k) + c.RowBits() <= at + c.LayerBits()
    ensures RowAt(c, s, at, k) == RowBitsAt(c, s, c.SlotAt(at, k))
  {
    hide Val;
    SlotInLayer(c, at, k);
  }

  /** Bits changed outside a layer. */
  lemma HoldsKept(c: Config, s: Space, t: Space, area: iset<int>, at: nat, rows: seq<Row>)
    requires c.Valid() && Holds(c, s, at, rows) && Same(s, t, area) && Span(at, c.LayerBits()) !! area
    ensures Holds(c, t, at, rows)
  {
    hide RowAt, RowBitsAt, Span, Same, c.Offset;
    SameSize(s, t, area);
    forall k {:trigger rows[k]} | 0 <= k < SLOTS ensures RowAt(c, t, at, k) == rows[k] {
      HeldRow(c, s, at, k);
      HeldRow(c, t, at, k);
      SpanInside(at, c.LayerBits(), c.SlotAt(at, k), c.RowBits());
      RowBitsFrame(c, s, t, area, c.SlotAt(at, k));
    }
  }

  /** One row of a layer replaced. */
  lemma HoldsRow(c: Config, s: Space, t: Space, at: nat, rows: seq<Row>, k: nat, row: Row)
    requires c.Valid() && Holds(c, s, at, rows) && k < SLOTS
    requires Same(s, t, Span(c.SlotAt(at, k), c.RowBits())) && |t| == |s|
    requires c.SlotAt(at, k) + c.RowBits() <= |t| && RowBitsAt(c, t, c.SlotAt(at, k)) == row
    ensures Holds(c, t, at, rows[k := row])
  {
    hide RowAt, RowBitsAt, Span, Same, c.Offset;
    var now := rows[k := row];
    forall j {:trigger now[j]} | 0 <= j < SLOTS ensures RowAt(c, t, at, j) == now[j] {
      HeldRow(c, s, at, j);
      HeldRow(c, t, at, j);
      if j != k {
        assert rows[j] == now[j];
        if j < k { SlotOrder(c, at, j, k); } else { SlotOrder(c, at, k, j); }
        SpansApart(c.SlotAt(at, j), c.RowBits(), c.SlotAt(at, k), c.RowBits());
        RowBitsFrame(c, s, t, Span(c.SlotAt(at, k), c.RowBits()), c.SlotAt(at, j));
      }
    }
  }

  /** The same for a whole sheet. */
  lemma WrittenRow(c: Config, s: Space, t: Space, begin: nat, layers: seq<seq<Row>>, i: nat, k: nat, row: Row)
    requires c.Valid() && Written(c, s, begin, layers) && i < |layers| && k < SLOTS && |layers[i]| == SLOTS
    requires var at := c.SlotAt(LayerAt(c, begin, i), k);
      Same(s, t, Span(at, c.RowBits())) && at + c.RowBits() <= |t| && RowBitsAt(c, t, at) == row
    ensures Written(c, t, begin, SetRow(layers, i, k, row))
  {
    hide Holds, RowBitsAt, Span, Same, c.Offset, LayerAt;
    var at := c.SlotAt(LayerAt(c, begin, i), k);
    SameSize(s, t, Span(at, c.RowBits()));
    var now := SetRow(layers, i, k, row);
    forall j {:trigger now[j]} | 0 <= j < |now| ensures Holds(c, t, LayerAt(c, begin, j), now[j]) {
      assert Holds(c, s, LayerAt(c, begin, j), layers[j]);
      if j == i {
        HoldsRow(c, s, t, LayerAt(c, begin, i), layers[i], k, row);
      } else {
        LayersApart(c, begin, i, j);
        SlotInLayer(c, LayerAt(c, begin, i), k);
        SpansApart(LayerAt(c, begin, j), c.LayerBits(), at, c.RowBits());
        HoldsKept(c, s, t, Span(at, c.RowBits()), LayerAt(c, begin, j), layers[j]);
      }
    }
  }

  lemma LayersApart(c: Config, begin: nat, i: nat, j: nat)
    requires c.Valid() && i != j
    ensures LayerAt(c, begin, i) + c.LayerBits() <= LayerAt(c, begin, j)
         || LayerAt(c, begin, j) + c.LayerBits() <= LayerAt(c, begin, i)
  {
    if i < j { MulMonotone(c.LayerBits(), i, j); } else { MulMonotone(c.LayerBits(), j, i); }
  }

  lemma {:induction false} ZeroNumber(s: Space, at: nat, w: nat)
    requires at + w <= |s|
    requires forall p | at <= p < at + w :: !s[p]
    ensures Val(s, at, w) == 0
    decreases w
  {
    if w > 0 {
      ZeroNumber(s, at + 1, w - 1);
    }
  }

  /** A layer of zero bits holds empty rows. */
  lemma ZeroHolds(c: Config, s: Space, at: nat)
    requires c.Valid() && at + c.LayerBits() <= |s|
    requires forall p | at <= p < at + c.LayerBits() :: !s[p]
    ensures Holds(c, s, at, EmptyLayer())
  {
    hide Val, c.Offset;
    var rows := EmptyLayer();
    forall k {:trigger rows[k]} | 0 <= k < SLOTS ensures RowAt(c, s, at, k) == rows[k] {
      HeldRow(c, s, at, k);
      var p := c.SlotAt(at, k);
      ZeroNumber(s, p, c.ab - 1);
      ZeroNumber(s, p + c.ab - 1, c.ab);
      ZeroNumber(s, p + 2 * c.ab - 1, c.ab);
    }
  }

  /** Bits changed outside all layers. */
  lemma WrittenKept(c: Config, s: Space, t: Space, area: iset<int>, begin: nat, layers: seq<seq<Row>>)
    requires c.Valid() && Written(c, s, begin, layers) && Same(s, t, area)
    requires Span(begin, LayerAt(c, begin, |layers|) - begin) !! area
    ensures Written(c, t, begin, layers)
  {
    hide Holds, Span, Same, LayerAt;
    forall i {:trigger layers[i]} | 0 <= i < |layers| ensures Holds(c, t, LayerAt(c, begin, i), layers[i]) {
      LayerInside(c, begin, i, |layers|);
      SpanInside(begin, LayerAt(c, begin, |layers|) - begin, LayerAt(c, begin, i), c.LayerBits());
      HoldsKept(c, s, t, area, LayerAt(c, begin, i), layers[i]);
    }
  }

  lemma LayerInside(c: Config, begin: nat, i: nat, n: nat)
    requires c.Valid() && i < n
    ensures begin <= LayerAt(c, begin, i) && LayerAt(c, begin, i) + c.LayerBits() <= LayerAt(c, begin, n)
  {
    MulMonotone(c.LayerBits(), i, n);
  }

  lemma HeldLayer(c: Config, s: Space, begin: nat, layers: seq<seq<Row>>, i: nat)
    requires c.Valid() && Written(c, s, begin, layers) && i < |layers|
    ensures Holds(c, s, LayerAt(c, begin, i), layers[i]) && |layers[i]| == SLOTS
  {
  }

  lemma SlotAddress(c: Config, begin: nat, i: nat, k: nat, n: nat)
    requires c.Valid() && i < n && k < SLOTS
    ensures c.SlotAt(LayerAt(c, begin, i), k) == LayerAt(c, begin, i) + k * c.RowBits()
    ensures begin <= c.SlotAt(LayerAt(c, begin, i), k)
    ensures c.SlotAt(LayerAt(c, begin, i), k) + c.RowBits() <= LayerAt(c, begin, n)
  {
    LayerInside(c, begin, i, n);
    SlotInLayer(c, LayerAt(c, begin, i), k);
    OffsetIsProduct(c, k);
  }

  lemma SpanSame(s: Space, t: Space, area: iset<int>, wider: iset<int>)
    requires Same(s, t, area) && area <= wider
    ensures Same(s, t, wider) && |s| == |t|
  {
  }

  /** Closes the last layer with a link to a new, empty one. */
  function NextSheet(c: Config, begin: nat, sheet: Sheet): (r: Sheet)
    requires c.Valid() && sheet.layers != [] && |sheet.layers[|sheet.layers| - 1]| == SLOTS
    ensures |r.layers| == |sheet.layers| + 1
  {
    var n := |sheet.layers|;
    Sheet(SetRow(sheet.layers, n - 1, LINK, Row(c.LayerBits(), 0, LayerAt(c, begin, n))) + [EmptyLayer()], FIRST)
  }

  function EmitSheet(sheet: Sheet, row: Row): (r: Sheet)
    requires sheet.layers != [] && |sheet.layers[|sheet.layers| - 1]| == SLOTS && sheet.slot < LINK
    ensures |r.layers| == |sheet.layers|
  {
    Sheet(SetRow(sheet.layers, |sheet.layers| - 1, sheet.slot, row), sheet.slot + 1)
  }

  /** The stretch behind the layers has been cleared, and then the link to it written. */
  lemma NextWritten(c: Config, s0: Space, s1: Space, s2: Space, begin: nat, end: nat, limit: nat, layers: seq<seq<Row>>)
    requires c.Valid() && Written(c, s2, begin, layers) && end == LayerAt(c, begin, |layers|) && begin <= end && end + c.LayerBits() <= limit
    requires Same(s0, s1, Span(end, c.LayerBits())) && end + c.LayerBits() <= |s1|
    requires forall p | end <= p < end + c.LayerBits() :: !s1[p]
    requires Same(s1, s2, Span(begin, end - begin))
    ensures Written(c, s2, begin, layers + [EmptyLayer()]) && Same(s0, s2, Span(begin, limit - begin))
  {
    hide Written, Same, Span, LayerAt, EmptyLayer;
    var code, all := Span(begin, end - begin), Span(begin, limit - begin);
    SpanInside(begin, limit - begin, end, c.LayerBits());
    SpanInside(begin, limit - begin, begin, end - begin);
    SpansApart(begin, end - begin, end, c.LayerBits());
    SameThen(s0, s1, s2, Span(end, c.LayerBits()), code, all);
    StillClear(s1, s2, code, end, c.LayerBits());
    ZeroHolds(c, s2, end);
    WrittenMore(c, s2, begin, layers, EmptyLayer());
  }

  /** What cs_copy_program_init asks of a buffer and a place for the code. */
  predicate Accepts(bytes: nat, ab: nat, codeBegin: nat, codeLimit: nat) {
    && Config(ab).Valid() && 8 * bytes <= 0xFFFF_FFFF
    && var layerBits := Config(ab).LayerBits();
    && layerBits < Pow2(ab - 1) && 8 * bytes <= Pow2(ab)
    && layerBits <= codeBegin && codeBegin % 8 == 0
    && codeBegin + layerBits <= codeLimit <= 8 * bytes
  }

  method ProgramInit(data: array<bv8>, ab: nat, codeBegin: nat, codeLimit: nat) returns (p: Program?)
    modifies data
    ensures p != null <==> Accepts(data.Length, ab, codeBegin, codeLimit)
    ensures p != null <==> 2 <= ab <= 31 && 8 * data.Length <= 0xFFFF_FFFF && 8 * data.Length <= Pow2(ab)
                           && 256 * (3 * ab - 1) < Pow2(ab - 1) && codeBegin % 8 == 0
                           && 256 * (3 * ab - 1) <= codeBegin && codeBegin + 256 * (3 * ab - 1) <= codeLimit <= 8 * data.Length
    ensures p == null ==> data[..] == old(data[..])
    ensures p != null ==>
      && fresh(p) && p.Valid() && p.data == data && p.ab == ab && p.codeBegin == codeBegin && p.codeLimit == codeLimit
      && p.Now() == Sheet([EmptyLayer()], FIRST) && p.CodeOnly(old(Unpack(data[..])))
      && p.codeEnd == codeBegin + Config(ab).LayerBits()
  {
    if Accepts(data.Length, ab, codeBegin, codeLimit) {
      p := new Program(data, ab, codeBegin, codeLimit);
    } else {
      p := null;
    }
  }

  /** A program being written: layers from codeBegin, none beyond codeLimit. */
  class Program {
    const ab: nat
    const data: array<bv8>
    const codeBegin: nat
    var codeLimit: nat
    var codeEnd: nat
    var layer: nat
    var slot: nat
    ghost var layers: seq<seq<Row>>

    function C(): Config {
      Config(ab)
    }

    ghost function Bits(): Space
      reads data
    {
      Unpack(data[..])
    }

    ghost function Now(): Sheet
      reads this
    {
      Sheet(layers, slot)
    }

    ghost predicate Valid()
      reads this, data
    {
      && C().Valid() && C().LayerBits() < Pow2(ab - 1) && 8 * data.Length <= Pow2(ab)
      && C().LayerBits() <= codeBegin && codeBegin % 8 == 0
      && codeEnd <= codeLimit <= 8 * data.Length
      && layers != [] && codeEnd == LayerAt(C(), codeBegin, |layers|)
      && layer == LayerAt(C(), codeBegin, |layers| - 1)
      && FIRST <= slot <= LINK
      && Written(C(), Bits(), codeBegin, layers)
      && |layers[|layers| - 1]| == SLOTS
    }

    /** How many more layers there is room for. */
    ghost function Spare(): nat
      reads this
    {
      if C().Valid() && codeEnd <= codeLimit then Times(codeLimit - codeEnd, C().LayerBits()) else 0
    }

    ghost predicate CodeOnly(before: Space)
      reads this, data
    {
      codeBegin <= codeLimit && Same(before, Bits(), Span(codeBegin, codeLimit - codeBegin))
    }

    /** One empty layer at the beginning of the code. */
    constructor (data: array<bv8>, ab: nat, codeBegin: nat, codeLimit: nat)
      requires Accepts(data.Length, ab, codeBegin, codeLimit)
      modifies data
      ensures Valid() && this.data == data && this.ab == ab && this.codeBegin == codeBegin && this.codeLimit == codeLimit
      ensures codeEnd == codeBegin + Config(ab).LayerBits()
      ensures Now() == Sheet([EmptyLayer()], FIRST) && CodeOnly(old(Unpack(data[..])))
    {
      this.data := data;
      this.ab := ab;
      this.codeBegin := codeBegin;
      this.codeLimit := codeLimit;
      codeEnd := codeBegin + Config(ab).LayerBits();
      layer := codeBegin;
      slot := FIRST;
      layers := [EmptyLayer()];
      new;
      hide Same, Span, EmptyLayer, Written, Holds;
      Clear(codeBegin);
      SpanInside(codeBegin, codeLimit - codeBegin, codeBegin, C().LayerBits());
      SpanSame(old(Unpack(data[..])), Bits(), Span(codeBegin, C().LayerBits()), Span(codeBegin, codeLimit - codeBegin));
      ZeroHolds(C(), Bits(), codeBegin);
      WrittenOne(C(), Bits(), codeBegin, EmptyLayer());
      NextAt(C(), codeBegin, 0);
      FirstAt(C(), codeBegin);
    }

    /** Writes a row into any layer written so far. */
    method PutRow(base: nat, ghost i: nat, k: nat, row: Row)
      requires Valid() && i < |layers| && base == LayerAt(C(), codeBegin, i) && k < SLOTS && RowValid(C(), row)
      modifies data, this`layers
      ensures Valid() && layers == SetRow(old(layers), i, k, row)
      ensures Same(old(Bits()), Bits(), Span(codeBegin, codeEnd - codeBegin))
    {
      hide Written, RowBitsAt, Span, Same, C().Offset, LayerAt;
      HeldLayer(C(), Bits(), codeBegin, layers, i);
      var at := base + k * C().RowBits();
      SlotAddress(C(), codeBegin, i, k, |layers|);
      WriteRow(C(), data, at, row);
      SpanInside(codeBegin, codeEnd - codeBegin, at, C().RowBits());
      SpanSame(old(Bits()), Bits(), Span(at, C().RowBits()), Span(codeBegin, codeEnd - codeBegin));
      WrittenRow(C(), old(Bits()), Bits(), codeBegin, layers, i, k, row);
      layers := SetRow(layers, i, k, row);
    }

    /** Clears a layer behind the last one. */
    method Clear(at: nat)
      requires at % 8 == 0 && C().Valid() && at + C().LayerBits() <= 8 * data.Length
      modifies data
      ensures Same(old(Bits()), Bits(), Span(at, C().LayerBits()))
      ensures forall p | at <= p < at + C().LayerBits() :: !Bits()[p]
    {
      var n := C().LayerBits() / 8;
      assert 8 * n == C().LayerBits();
      forall i | 0 <= i < n {
        data[at / 8 + i] := 0;
      }
      ClearBits(old(data[..]), data[..], at / 8, n);
    }

    /** Starts a new layer and links the last one to it, if there is room in front of the limit. */
    method Next() returns (ok: bool)
      requires Valid()
      modifies data, this`codeEnd, this`layer, this`slot, this`layers
      ensures Valid() && CodeOnly(old(Bits()))
      ensures ok <==> old(Spare()) >= 1
      ensures ok <==> old(codeEnd) + C().LayerBits() <= codeLimit
      ensures Spare() == if ok then old(Spare()) - 1 else old(Spare())
      ensures Now() == if ok then NextSheet(C(), codeBegin, old(Now())) else old(Now())
    {
      hide Written, Span, Same, LayerAt, SetRow, EmptyLayer, RowValid, Pow2;
      LayerInside(C(), codeBegin, |layers| - 1, |layers|);
      SameSelf(Bits(), Span(codeBegin, codeLimit - codeBegin));
      SpareStep(codeLimit - codeEnd, C().LayerBits());
      if codeEnd + C().LayerBits() > codeLimit {
        return false;
      }
      ghost var n := |layers|;
      NextAt(C(), codeBegin, n);
      RowFits(C(), codeEnd, 8 * data.Length);
      Clear(codeEnd);
      ghost var cleared := Bits();
      SpansApart(codeBegin, codeEnd - codeBegin, codeEnd, C().LayerBits());
      WrittenKept(C(), old(Bits()), cleared, Span(codeEnd, C().LayerBits()), codeBegin, layers);
      PutRow(layer, n - 1, LINK, Row(C().LayerBits(), 0, codeEnd));
      NextWritten(C(), old(Bits()), cleared, Bits(), codeBegin, codeEnd, codeLimit, layers);
      layers := layers + [EmptyLayer()];
      assert layers[n] == EmptyLayer();
      layer := codeEnd;
      codeEnd := codeEnd + C().LayerBits();
      slot := FIRST;
      return true;
    }

    /** Room for count rows in the last layer, or in a new one. */
    method Room(count: nat) returns (ok: bool)
      requires Valid()
      modifies data, this`codeEnd, this`layer, this`slot, this`layers
      ensures Valid() && CodeOnly(old(Bits()))
      ensures ok <==> count <= 252 && (old(slot) + count <= LINK || old(Spare()) >= 1)
      ensures Spare() == if ok && old(slot) + count > LINK then old(Spare()) - 1 else old(Spare())
      ensures Now() == if ok && old(slot) + count > LINK then NextSheet(C(), codeBegin, old(Now())) else old(Now())
    {
      hide Written, Span, Same, LayerAt, SetRow, EmptyLayer;
      LayerInside(C(), codeBegin, |layers| - 1, |layers|);
      SameSelf(Bits(), Span(codeBegin, codeLimit - codeBegin));
      if count > 252 {
        return false;
      }
      if slot + count <= LINK {
        return true;
      }
      ok := Next();
    }

    /** Appends a row, in a new layer if the last one is full. */
    method Emit(row: Row) returns (ok: bool)
      requires Valid()
      modifies data, this`codeEnd, this`layer, this`slot, this`layers
      ensures Valid() && CodeOnly(old(Bits()))
      ensures ok <==> RowValid(C(), row) && (old(slot) < LINK || old(Spare()) >= 1)
      ensures ok <==> row.n < Pow2(ab - 1) && row.dst < Pow2(ab) && row.src < Pow2(ab) && row.dst + row.n <= Pow2(ab) && row.src + row.n <= Pow2(ab)
                      && (old(slot) < 255 || old(codeEnd) + C().LayerBits() <= codeLimit)
      ensures Spare() == if ok && old(slot) == LINK then old(Spare()) - 1 else old(Spare())
      ensures Now() ==
        if !ok then old(Now())
        else EmitSheet(if old(slot) < LINK then old(Now()) else NextSheet(C(), codeBegin, old(Now())), row)
    {
      hide Written, Span, Same, LayerAt, SetRow, EmptyLayer, RowValid, Pow2;
      LayerInside(C(), codeBegin, |layers| - 1, |layers|);
      SameSelf(Bits(), Span(codeBegin, codeLimit - codeBegin));
      RowValidIs(C(), row);
      SpareStep(codeLimit - codeEnd, C().LayerBits());
      if !RowValid(C(), row) {
        return false;
      }
      ok := Room(1);
      if !ok {
        return;
      }
      ghost var roomy := Bits();
      PutRow(layer, |layers| - 1, slot, row);
      LayerInside(C(), codeBegin, |layers| - 1, |layers|);
      SpanInside(codeBegin, codeLimit - codeBegin, codeBegin, codeEnd - codeBegin);
      SameThen(old(Bits()), roomy, Bits(), Span(codeBegin, codeLimit - codeBegin),
        Span(codeBegin, codeEnd - codeBegin), Span(codeBegin, codeLimit - codeBegin));
      slot := slot + 1;
    }

    /** Redirects the link of a layer written earlier to another one. */
    method PatchJump(from: nat, target: nat) returns (ok: bool)
      requires Valid()
      modifies data, this`layers
      ensures Valid() && CodeOnly(old(Bits()))
      ensures ok <==> codeBegin <= from < codeEnd && codeBegin <= target < codeEnd
                      && (from - codeBegin) % C().LayerBits() == 0 && (target - codeBegin) % C().LayerBits() == 0
      ensures ok ==> Repointed(C(), codeBegin, old(layers), layers, from, target)
      ensures !ok ==> layers == old(layers)
    {
      hide Written, Span, Same, LayerAt, SetRow;
      LayerInside(C(), codeBegin, |layers| - 1, |layers|);
      SameSelf(Bits(), Span(codeBegin, codeLimit - codeBegin));
      if !IsLayer(C(), codeBegin, codeEnd, from) || !IsLayer(C(), codeBegin, codeEnd, target) {
        return false;
      }
      ghost var i := LayerNo(C(), codeBegin, from);
      LayerIndex(C(), codeBegin, |layers|, from);
      LayerIndex(C(), codeBegin, |layers|, target);
      LayerInside(C(), codeBegin, i, |layers|);
      LayerInside(C(), codeBegin, LayerNo(C(), codeBegin, target), |layers|);
      HeldLayer(C(), Bits(), codeBegin, layers, i);
      RowFits(C(), target, 8 * data.Length);
      PutRow(from, i, LINK, Row(C().LayerBits(), 0, target));
      SpanInside(codeBegin, codeLimit - codeBegin, codeBegin, codeEnd - codeBegin);
      SpanSame(old(Bits()), Bits(), Span(codeBegin, codeEnd - codeBegin), Span(codeBegin, codeLimit - codeBegin));
      return true;
    }

    /** Writes a number outside the code. */
    method Constant(at: nat, width: nat, value: nat) returns (ok: bool)
      requires Valid() && (at + width <= codeBegin || codeLimit <= at)
      modifies data
      ensures Valid()
      ensures ok <==> 0 < width <= 32 && at + width <= 8 * data.Length
      ensures Same(old(Bits()), Bits(), if ok then Span(at, width) else iset{})
      ensures ok ==> Val(Bits(), at, width) == value % Pow2(width)
    {
      hide Written, Span, Same, LayerAt, Unpack, BitAt, Wrote;
      if width == 0 || width > 32 || at + width > 8 * data.Length {
        SameSelf(Bits(), iset{});
        return false;
      }
      LayerInside(C(), codeBegin, |layers| - 1, |layers|);
      WriteField(data, at, width, value);
      WroteSpace(old(data[..]), data[..], at, width, value);
      SpansApart(codeBegin, codeEnd - codeBegin, at, width);
      WrittenKept(C(), old(Bits()), Bits(), Span(at, width), codeBegin, layers);
      return true;
    }

    /** The bytes of a layer-sized stretch are all zero. */
    method AllZero(at: nat) returns (zero: bool)
      requires Valid() && at % 8 == 0 && at + C().LayerBits() <= 8 * data.Length
      ensures zero <==> Blank(Bits(), at, C().LayerBits())
    {
      hide Written, Blank, Unpack;
      LayerBytes(C(), at);
      zero := ZeroBytes(at / 8, C().LayerBits() / 8);
      BlankBytes(data[..], at, C().LayerBits());
    }

    method ZeroBytes(first: nat, n: nat) returns (zero: bool)
      requires first + n <= data.Length
      ensures zero <==> AllClear(data[..], first, n)
    {
      var i := 0;
      while i < n
        invariant 0 <= i <= n && AllClear(data[..], first, i)
      {
        if data[first + i] != 0 {
          return false;
        }
        i := i + 1;
      }
      return true;
    }

    /** Links the last layer to a layer of zeros and puts a boot layer in front that loads the first one. */
    method Finish(zeroLayer: nat) returns (ok: bool)
      requires Valid()
      modifies data, this`layers
      ensures ok ==> Complete(old(layers), old(Bits()), zeroLayer)
      ensures ok <==> old(CanFinish(zeroLayer))
      ensures ok <==> zeroLayer % 8 == 0 && C().LayerBits() <= zeroLayer && zeroLayer + C().LayerBits() <= 8 * data.Length
                      && (zeroLayer + C().LayerBits() <= codeBegin || codeLimit <= zeroLayer)
                      && forall p | zeroLayer <= p < zeroLayer + C().LayerBits() :: !old(Bits())[p]
    {
      hide Written, Span, Same, LayerAt, SetRow, EmptyLayer, Holds, C().Offset, RowBitsAt, Pow2, Blank;
      LayerInside(C(), codeBegin, |layers| - 1, |layers|);
      BlankIs(Bits(), zeroLayer, C().LayerBits());
      if !Finishable(zeroLayer) {
        return false;
      }
      var zero := AllZero(zeroLayer);
      if !zero {
        return false;
      }
      ghost var s0, n := Bits(), |layers|;
      BootFits(C(), codeBegin, zeroLayer, codeLimit, codeEnd, 8 * data.Length);
      Clear(0);
      ghost var s1 := Bits();
      WrittenKept(C(), s0, s1, Span(0, C().LayerBits()), codeBegin, layers);
      ZeroHolds(C(), s1, 0);
      PutRow(layer, n - 1, LINK, Row(C().LayerBits(), 0, zeroLayer));
      ghost var s2 := Bits();
      HoldsKept(C(), s1, s2, Span(codeBegin, codeEnd - codeBegin), 0, EmptyLayer());
      PutBoot();
      FinishAreas(C(), s0, s1, s2, Bits(), codeBegin, zeroLayer, codeEnd, codeLimit);
      return true;
    }

    /** The one row of the boot layer. */
    method PutBoot()
      requires Valid() && Holds(C(), Bits(), 0, EmptyLayer())
      modifies data
      ensures Valid() && Same(old(Bits()), Bits(), Span(0, C().LayerBits()))
      ensures Holds(C(), Bits(), 0, EmptyLayer()[LINK := Row(C().LayerBits(), 0, codeBegin)])
    {
      hide Written, Span, Same, LayerAt, EmptyLayer, Holds, C().Offset, RowBitsAt;
      LayerInside(C(), codeBegin, 0, |layers|);
      NextAt(C(), codeBegin, 0);
      FirstAt(C(), codeBegin);
      RowFits(C(), codeBegin, 8 * data.Length);
      OffsetIsProduct(C(), LINK);
      SlotInLayer(C(), 0, LINK);
      var at := LINK * C().RowBits();
      WriteRow(C(), data, at, Row(C().LayerBits(), 0, codeBegin));
      SpanInside(0, C().LayerBits(), at, C().RowBits());
      SpanSame(old(Bits()), Bits(), Span(at, C().RowBits()), Span(0, C().LayerBits()));
      HoldsRow(C(), old(Bits()), Bits(), 0, EmptyLayer(), LINK, Row(C().LayerBits(), 0, codeBegin));
      SpansApart(codeBegin, codeEnd - codeBegin, 0, C().LayerBits());
      WrittenKept(C(), old(Bits()), Bits(), Span(0, C().LayerBits()), codeBegin, layers);
    }

    /** The last layer leads to a layer of zeros, the boot layer to the first one; nothing else has changed. */
    ghost predicate Complete(before: seq<seq<Row>>, s: Space, zeroLayer: nat)
      reads this, data
    {
      && Valid() && Finishable(zeroLayer) && Blank(Bits(), zeroLayer, C().LayerBits())
      && before != [] && |before[|before| - 1]| == SLOTS
      && layers == SetRow(before, |before| - 1, LINK, Row(C().LayerBits(), 0, zeroLayer))
      && Holds(C(), Bits(), 0, EmptyLayer()[LINK := Row(C().LayerBits(), 0, codeBegin)])
      && codeBegin <= codeLimit
      && Same(s, Bits(), Span(0, C().LayerBits()) + Span(codeBegin, codeLimit - codeBegin))
    }

    ghost predicate CanFinish(zeroLayer: nat)
      reads this, data
    {
      Finishable(zeroLayer) && Blank(Bits(), zeroLayer, C().LayerBits())
    }

    /** Where the layer of zeros may lie. */
    predicate Finishable(zeroLayer: nat)
      reads this
    {
      && C().Valid() && zeroLayer % 8 == 0 && zeroLayer + C().LayerBits() <= 8 * data.Length
      && C().LayerBits() <= zeroLayer
      && (zeroLayer + C().LayerBits() <= codeBegin || codeLimit <= zeroLayer)
    }
  }

  lemma BlankIs(s: Space, at: nat, n: nat)
    ensures Blank(s, at, n) <==> at + n <= |s| && forall p | at <= p < at + n :: !s[p]
  {
  }

  predicate AllClear(bytes: seq<bv8>, first: nat, n: nat) {
    first + n <= |bytes| && forall j | first <= j < first + n :: bytes[j] == 0
  }

  lemma LayerBytes(c: Config, at: nat)
    requires c.Valid() && at % 8 == 0
    ensures 8 * (c.LayerBits() / 8) == c.LayerBits() && 8 * (at / 8) == at
  {
  }

  lemma BlankBytes(bytes: seq<bv8>, at: nat, n: nat)
    requires at % 8 == 0 && n % 8 == 0 && at + n <= 8 * |bytes|
    ensures AllClear(bytes, at / 8, n / 8) <==> Blank(Unpack(bytes), at, n)
  {
    hide Unpack;
    var first, m := at / 8, n / 8;
    assert at == 8 * first && n == 8 * m;
    if AllClear(bytes, first, m) {
      NoBits(bytes, first, m);
    } else {
      var j :| first <= j < first + m && bytes[j] != 0;
      SomeBit(bytes, j);
    }
  }

  lemma SomeBit(bytes: seq<bv8>, i: nat)
    requires i < |bytes| && bytes[i] != 0
    ensures exists p :: 8 * i <= p < 8 * i + 8 && Unpack(bytes)[p]
  {
    var b := bytes[i];
    if forall j | 0 <= j < 8 :: !BitOf(b, j) {
      NoBit(b);
      assert false;
    }
    var j :| 0 <= j < 8 && BitOf(b, j);
    assert Unpack(bytes)[8 * i + j];
  }

  lemma NoBit(b: bv8)
    requires forall j | 0 <= j < 8 :: !BitOf(b, j)
    ensures b == 0
  {
    assert !BitOf(b, 0) && !BitOf(b, 1) && !BitOf(b, 2) && !BitOf(b, 3);
    assert !BitOf(b, 4) && !BitOf(b, 5) && !BitOf(b, 6) && !BitOf(b, 7);
  }

  lemma NoBits(bytes: seq<bv8>, at: nat, n: nat)
    requires at + n <= |bytes| && forall j | at <= j < at + n :: bytes[j] == 0
    ensures forall p | 8 * at <= p < 8 * at + 8 * n :: !Unpack(bytes)[p]
  {
    forall j | 0 <= j < 8 ensures !BitOf(0, j) {
    }
    hide BitOf;
  }

  lemma FirstAt(c: Config, begin: nat)
    requires c.Valid()
    ensures LayerAt(c, begin, 0) == begin
  {
  }

  lemma BootFits(c: Config, begin: nat, zeroLayer: nat, limit: nat, end: nat, bits: nat)
    requires c.Valid() && c.LayerBits() <= begin <= end <= limit <= bits <= Pow2(c.ab) && c.LayerBits() < Pow2(c.ab - 1)
    requires zeroLayer + c.LayerBits() <= bits
    ensures RowValid(c, Row(c.LayerBits(), 0, zeroLayer))
    ensures Span(begin, end - begin) !! Span(0, c.LayerBits())
  {
    RowFits(c, zeroLayer, bits);
  }

  lemma FinishAreas(c: Config, s0: Space, s1: Space, s2: Space, s3: Space, begin: nat, zeroLayer: nat, end: nat, limit: nat)
    requires c.Valid() && c.LayerBits() <= begin <= end <= limit && c.LayerBits() <= zeroLayer
    requires zeroLayer + c.LayerBits() <= begin || limit <= zeroLayer
    requires zeroLayer + c.LayerBits() <= |s0|
    requires Same(s0, s1, Span(0, c.LayerBits())) && Same(s1, s2, Span(begin, end - begin))
    requires Same(s2, s3, Span(0, c.LayerBits()))
    requires Blank(s0, zeroLayer, c.LayerBits())
    ensures Same(s0, s3, Span(0, c.LayerBits()) + Span(begin, limit - begin))
    ensures Blank(s3, zeroLayer, c.LayerBits())
  {
    var area := Span(0, c.LayerBits()) + Span(begin, limit - begin);
    SpanInside(begin, limit - begin, begin, end - begin);
    SameThen(s0, s1, s2, Span(0, c.LayerBits()), Span(begin, end - begin), area);
    SameThen(s0, s2, s3, area, Span(0, c.LayerBits()), area);
  }

  /** Whether a bit position is the start of a layer written so far. */
  predicate IsLayer(c: Config, begin: nat, end: nat, at: nat)
    requires c.Valid()
  {
    begin <= at < end && (at - begin) % c.LayerBits() == 0
  }

  function LayerNo(c: Config, begin: nat, at: nat): nat
    requires c.Valid()
  {
    if at < begin then 0 else Times(at - begin, c.LayerBits())
  }

  /** Only the link of the layer at from has changed, and it leads to the target. */
  ghost predicate Repointed(c: Config, begin: nat, before: seq<seq<Row>>, after: seq<seq<Row>>, from: nat, target: nat)
    requires c.Valid()
  {
    var i := LayerNo(c, begin, from);
    && i < |before| && |before[i]| == SLOTS
    && after == SetRow(before, i, LINK, Row(c.LayerBits(), 0, target))
  }

  /** How many times m goes into a. */
  function Times(a: nat, m: nat): nat
    requires m > 0
  {
    a / m
  }

  lemma SpareStep(a: nat, m: nat)
    requires m > 0
    ensures Times(a, m) >= 1 <==> a >= m
    ensures a >= m ==> Times(a - m, m) == Times(a, m) - 1
  {
    var q, r := a / m, a % m;
    if a >= m {
      assert a == m * q + r;
      if q == 0 { assert false; }
      DivModUnique(m, q - 1, r);
      Distribute(m, q - 1, 1);
      assert a - m == r + m * (q - 1);
    }
  }

  lemma TimesExact(a: nat, m: nat)
    requires m > 0 && a % m == 0
    ensures Times(a, m) * m == a
  {
  }

  lemma LayerIndex(c: Config, begin: nat, n: nat, at: nat)
    requires c.Valid() && IsLayer(c, begin, LayerAt(c, begin, n), at)
    ensures var i := LayerNo(c, begin, at); i < n && at == LayerAt(c, begin, i)
  {
    var m := c.LayerBits();
    var i := LayerNo(c, begin, at);
    TimesExact(at - begin, m);
    if n <= i {
      MulAtLeast(m, n, i);
    }
  }

  lemma MulAtLeast(m: nat, a: nat, b: nat)
    requires a <= b
    ensures a * m <= b * m
  {
    if a < b { MulMonotone(m, a, b); }
  }

  lemma ClearBits(before: seq<bv8>, after: seq<bv8>, at: nat, n: nat)
    requires at + n <= |before| == |after|
    requires forall i | 0 <= i < |before| :: after[i] == if at <= i < at + n then 0 else before[i]
    ensures Same(Unpack(before), Unpack(after), Span(8 * at, 8 * n))
    ensures forall p | 8 * at <= p < 8 * at + 8 * n :: !Unpack(after)[p]
  {
    forall j | 0 <= j < 8 ensures !BitOf(0, j) {
    }
    hide BitOf;
  }

  lemma StillClear(s: Space, t: Space, area: iset<int>, at: nat, n: nat)
    requires Same(s, t, area) && Span(at, n) !! area && at + n <= |s|
    requires forall p | at <= p < at + n :: !s[p]
    ensures at + n <= |t| && forall p | at <= p < at + n :: !t[p]
  {
    forall p | at <= p < at + n ensures p < |t| && !t[p] {
      assert p in Span(at, n);
    }
  }

  lemma WrittenOne(c: Config, s: Space, begin: nat, rows: seq<Row>)
    requires c.Valid() && Holds(c, s, begin, rows)
    ensures Written(c, s, begin, [rows])
  {
  }

  lemma WrittenMore(c: Config, s: Space, begin: nat, layers: seq<seq<Row>>, last: seq<Row>)
    requires c.Valid() && Written(c, s, begin, layers) && Holds(c, s, LayerAt(c, begin, |layers|), last)
    ensures Written(c, s, begin, layers + [last])
  {
  }

  lemma NextAt(c: Config, begin: nat, n: nat)
    requires c.Valid()
    ensures LayerAt(c, begin, n) + c.LayerBits() == LayerAt(c, begin, n + 1)
    ensures begin % 8 == 0 ==> LayerAt(c, begin, n) % 8 == 0
  {
    Distribute(c.LayerBits(), n, 1);
    assert n * c.LayerBits() == 8 * (n * (32 * c.RowBits()));
  }

  lemma RowFits(c: Config, at: nat, limit: nat)
    requires c.Valid() && c.LayerBits() < Pow2(c.ab - 1) && at + c.LayerBits() <= limit <= Pow2(c.ab)
    ensures RowValid(c, Row(c.LayerBits(), 0, at))
  {
  }
}
