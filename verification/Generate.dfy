/**
 * The generator's part that emits gates (modules/rv32i.py, modules/rv32i_bulk.py): tables are laid down when first
 * needed, a gate becomes the copies of its inputs and the read of its table, and both adders are lists of gates.
 */
module Generate {
  import opened Bits
  import opened Machine
  import opened CopyEmit
  import opened Layering
  import opened Gates
  import P = Layers
  import L = Lookups
  import A = Adders
  import S = Schedule

  /** A number to be written when the image is made. */
  datatype Datum = Datum(at: nat, width: nat, value: nat)

  ghost predicate Loaded(s: Space, data: seq<Datum>) {
    forall d {:trigger d in data} | d in data :: d.at + d.width <= |s| && Val(s, d.at, d.width) == d.value
  }

  /** Input number i of a table with n inputs, lowest bit first. */
  function Digits(i: nat, n: nat): (v: seq<bool>)
    ensures |v| == n
  {
    seq(n, j requires 0 <= j < n => (i / Pow2(j)) % 2 == 1)
  }

  function ValueAt(t: Table, i: nat): nat {
    Val(EntryOf(t, Digits(i, Arity(t))), 0, Width(t))
  }

  function TableValues(t: Table): (r: seq<nat>)
    ensures |r| == Pow2(Arity(t))
  {
    seq(Pow2(Arity(t)), i requires 0 <= i < Pow2(Arity(t)) => ValueAt(t, i))
  }

  /** The numbers of a table. */
  ghost predicate Listed(t: Table, base: nat, data: seq<Datum>) {
    forall i: nat {:trigger ValueAt(t, i)} | i < Pow2(Arity(t)) :: Datum(base + Pow2(Stride(t)) * i, Width(t), ValueAt(t, i)) in data
  }

  /** Tables lie between two addresses, aligned to their size, apart from one another, and their numbers are to be written. */
  ghost predicate TablesLaid(book: Book, data: seq<Datum>, first: nat, end: nat) {
    forall t {:trigger t in book} | t in book ::
      first <= book[t] && book[t] % TableBits(t) == 0 && book[t] + TableBits(t) <= end && Listed(t, book[t], data)
  }

  /** Digits and numbers determine each other. */
  lemma DigitsOf(v: seq<bool>)
    ensures Digits(Val(v, 0, |v|), |v|) == v
  {
    hide Val;
    var i := Val(v, 0, |v|);
    forall j | 0 <= j < |v| ensures ((i / Pow2(j)) % 2 == 1) == v[j] {
      ValSplit(v, 0, j, |v| - j);
      DivModUnique(Pow2(j), Val(v, j, |v| - j), Val(v, 0, j));
      LowBit(v, j, |v| - j);
    }
  }

  lemma LowBit(v: seq<bool>, at: nat, n: nat)
    requires n > 0 && at + n <= |v|
    ensures Val(v, at, n) % 2 == Bit(v[at])
  {
  }

  /** Up to two equal bits. */
  lemma FewBits(s: Space, at: nat, e: seq<bool>, n: nat, k: nat)
    requires k < n <= 2 && at + n <= |s| && |e| == n && Val(s, at, n) == Val(e, 0, n)
    ensures s[at + k] == e[k]
  {
    hide Val;
    LowBit(s, at, n);
    LowBit(e, 0, n);
    ValSplit(s, at, 1, n - 1);
    ValSplit(e, 0, 1, n - 1);
    L.LookupBit(s, at);
    L.LookupBit(e, 0);
    if n == 2 {
      L.LookupBit(s, at + 1);
      L.LookupBit(e, 1);
      assert Pow2(1) == 2;
    }
  }

  /** When the numbers have been written the tables are there. */
  lemma TablesLoaded(book: Book, data: seq<Datum>, first: nat, end: nat, s: Space)
    requires TablesLaid(book, data, first, end) && Loaded(s, data) && end <= |s|
    ensures TablesLie(book, s)
  {
    hide Pow2, Val, EntryOf, ValueAt, Digits, Loaded, Listed;
    forall t {:trigger t in book} | t in book ensures Lies(t, book[t], s) {
      forall v: seq<bool>, k: nat {:trigger EntryLies(t, book[t], s, v, k)} | |v| == Arity(t) && k < Width(t) ensures EntryLies(t, book[t], s, v, k) {
        EntryLoaded(t, book[t], data, s, v, k);
      }
    }
  }

  lemma EntryLoaded(t: Table, base: nat, data: seq<Datum>, s: Space, v: seq<bool>, k: nat)
    requires Listed(t, base, data) && Loaded(s, data) && base + TableBits(t) <= |s| && |v| == Arity(t) && k < Width(t)
    ensures EntryLies(t, base, s, v, k)
  {
    hide Val, EntryOf, Digits;
    var i := Val(v, 0, |v|);
    DigitsOf(v);
    assert ValueAt(t, i) == Val(EntryOf(t, v), 0, Width(t));
    var d := Datum(base + Pow2(Stride(t)) * i, Width(t), ValueAt(t, i));
    assert d in data;
    assert Pow2(0) == 1 && Pow2(1) == 2;
    Pow2Add(Stride(t), Arity(t));
    MulMonotone(Pow2(Stride(t)), i, Pow2(Arity(t)));
    FewBits(s, d.at, EntryOf(t, v), Width(t), k);
  }

  /** The next multiple of a size. */
  function RoundUp(n: nat, size: nat): (r: nat)
    requires size > 0
    ensures n <= r < n + size && r % size == 0
  {
    var m := n + size - 1;
    assert m == size * (m / size) + m % size;
    Multiple(size, m / size);
    size * (m / size)
  }

  lemma Multiple(m: nat, q: nat)
    requires m > 0
    ensures (m * q) % m == 0
  {
    DivModUnique(m, q, 0);
  }

  /** Every gate's table is known. */
  ghost predicate Tabled(book: Book, gates: seq<A.Gate>) {
    forall i {:trigger gates[i]} | 0 <= i < |gates| && !gates[i].Move? :: TableOf(gates[i]) in book
  }

  /** More tables make no difference to gates that have theirs. */
  lemma {:induction false} BookGrows(book: Book, t: Table, base: nat, gates: seq<A.Gate>)
    requires Tabled(book, gates) && t !in book
    ensures BlockNodes(book[t := base], gates) == BlockNodes(book, gates) && Tabled(book[t := base], gates)
    decreases |gates|
  {
    hide LookupNodes;
    if gates != [] {
      var k := |gates| - 1;
      forall i {:trigger gates[..k][i]} | 0 <= i < k ensures gates[..k][i] == gates[i] {}
      BookGrows(book, t, base, gates[..k]);
      assert gates[k].Move? || TableOf(gates[k]) in book;
    }
  }

  lemma LaidMore(book: Book, before: seq<Datum>, data: seq<Datum>, t: Table, base: nat, first: nat, end: nat, end': nat)
    requires TablesLaid(book, before, first, end) && before <= data && Listed(t, base, data) && t !in book
    requires first <= end <= base && base % TableBits(t) == 0 && base + TableBits(t) <= end'
    ensures TablesLaid(book[t := base], data, first, end')
  {
    hide ValueAt, Pow2;
    forall o {:trigger o in book[t := base]} | o in book[t := base] && o != t ensures Listed(o, book[o], data) {
      assert Listed(o, book[o], before);
    }
  }

  /** The nodes of one gate more. */
  lemma GateLast(book: Book, gates: seq<A.Gate>, g: A.Gate)
    requires Tabled(book, gates) && (!g.Move? ==> TableOf(g) in book)
    ensures BlockNodes(book, gates + [g]) == BlockNodes(book, gates) + GateNodes(book, g, |BlockNodes(book, gates)|) && Tabled(book, gates + [g])
  {
    hide GateNodes;
    assert (gates + [g])[..|gates|] == gates;
  }

  class Generator {
    var nodes: seq<S.Node>
    var book: Book
    var data: seq<Datum>
    var tableEnd: nat
    const tableBegin: nat
    const codeBase: nat
    ghost var gates: seq<A.Gate>

    ghost predicate Valid()
      reads this
    {
      && nodes == BlockNodes(book, gates) && Tabled(book, gates)
      && tableBegin <= tableEnd <= codeBase && TablesLaid(book, data, tableBegin, tableEnd)
    }

    constructor (begin: nat, limit: nat)
      requires begin <= limit
      ensures Valid() && gates == [] && tableBegin == begin && codeBase == limit
    {
      nodes, book, data, tableEnd := [], map[], [], begin;
      tableBegin, codeBase := begin, limit;
      gates := [];
    }

    /** Room for a table, aligned to its size, and its numbers; fails if the region for tables is full. */
    method LayTable(t: Table) returns (ok: bool)
      requires Valid() && t !in book
      modifies this`book, this`data, this`tableEnd
      ensures Valid() && ok == (RoundUp(old(tableEnd), TableBits(t)) + TableBits(t) <= codeBase)
      ensures !ok ==> tableEnd + 2 * TableBits(t) > codeBase
      ensures book == if ok then old(book)[t := RoundUp(old(tableEnd), TableBits(t))] else old(book)
    {
      hide Pow2, BlockNodes, RoundUp, TablesLaid, Tabled, Listed;
      var size := TableBits(t);
      var base := RoundUp(tableEnd, size);
      if base + size > codeBase {
        return false;
      }
      PutValues(t, base);
      BookGrows(book, t, base, gates);
      LaidMore(book, old(data), data, t, base, tableBegin, tableEnd, base + size);
      book, tableEnd := book[t := base], base + size;
      return true;
    }

    method PutValues(t: Table, base: nat)
      modifies this`data
      ensures old(data) <= data && Listed(t, base, data)
    {
      hide Pow2, ValueAt, Valid;
      var values := TableValues(t);
      var i := 0;
      while i < |values|
        invariant 0 <= i <= |values| && old(data) <= data
        invariant forall j: nat {:trigger ValueAt(t, j)} | j < i :: Datum(base + Pow2(Stride(t)) * j, Width(t), ValueAt(t, j)) in data
      {
        var d := Datum(base + Pow2(Stride(t)) * i, Width(t), values[i]);
        ghost var before := data;
        data := data + [d];
        assert d == data[|before|];
        i := i + 1;
      }
    }

    /** The copies of the input bits, neighbours in one, and the read. */
    method Lookup(dst: nat, base: nat, inputs: seq<nat>, width: nat, stride: nat)
      modifies this`nodes
      ensures nodes == old(nodes) + LookupNodes(|old(nodes)|, dst, base, inputs, width, stride)
    {
      hide Together;
      var read := |nodes| + PatchCount(inputs, 0);
      var at := 0;
      while at < |inputs|
        invariant 0 <= at <= |inputs|
        invariant old(nodes) + IndexNodes(read, inputs, stride, 0) == nodes + IndexNodes(read, inputs, stride, at)
      {
        var count := 1;
        while at + count < |inputs| && inputs[at + count] == inputs[at] + count
          invariant 0 < count <= |inputs| - at
          invariant forall p | at <= p < at + count :: inputs[p] == inputs[at] + (p - at)
        {
          count := count + 1;
        }
        TogetherIs(inputs, at, count);
        nodes := nodes + [S.Node(count, S.Into(read, S.SrcField, stride + at), S.At(inputs[at]))];
        at := at + count;
      }
      assert IndexNodes(read, inputs, stride, at) == [] && nodes == old(nodes) + IndexNodes(read, inputs, stride, 0);
      nodes := nodes + [S.Node(width, S.At(dst), S.At(base))];
    }

    /** A gate, and its table if this is the first of its kind. */
    method Gate(g: A.Gate) returns (ok: bool)
      requires Valid()
      modifies this
      ensures Valid() && gates == (if ok then old(gates) + [g] else old(gates))
      ensures !ok ==> !g.Move? && tableEnd + 2 * TableBits(TableOf(g)) > codeBase
    {
      hide TablesLaid, BlockNodes, LookupNodes, Pow2;
      if g.Move? {
        nodes := nodes + [S.Node(1, S.At(g.dst), S.At(g.src))];
      } else {
        var t := TableOf(g);
        if t !in book {
          ok := LayTable(t);
          if !ok {
            return;
          }
        }
        Lookup(g.dst, book[t], InputsOf(g), OutBits(g), Stride(t));
      }
      GateLast(book, gates, g);
      gates := gates + [g];
      return true;
    }

    /** One gate after another. */
    method Gates(more: seq<A.Gate>) returns (ok: bool)
      requires Valid() && forall i | 0 <= i < |more| :: Arity(TableOf(more[i])) <= 3
      modifies this
      ensures Advanced(old(gates), more, ok)
    {
      hide Valid;
      var i := 0;
      while i < |more|
        invariant 0 <= i <= |more| && Valid() && gates == old(gates) + more[..i]
      {
        ok := Gate(more[i]);
        if !ok {
          SmallTable(TableOf(more[i]));
          return;
        }
        assert more[..i + 1] == more[..i] + [more[i]];
        i := i + 1;
      }
      return true;
    }

    /** More gates have been emitted, or fewer than 32 bits are left for tables. */
    ghost predicate Advanced(before: seq<A.Gate>, more: seq<A.Gate>, ok: bool)
      reads this
    {
      Valid() && if ok then gates == before + more else tableEnd + 32 > codeBase
    }

    /** The ripple adder, one position after another. */
    method Add(dst: nat, a: nat, b: nat, temp: nat, pair: nat, carry: nat, cin: nat, subtract: bool, w: nat) returns (ok: bool)
      requires Valid()
      modifies this
      ensures Advanced(old(gates), A.RippleGates(dst, a, b, temp, pair, carry, cin, subtract, w), ok)
    {
      hide Valid, A.RippleBit;
      SmallTable(Sums);
      if Sums !in book {
        ok := LayTable(Sums);
        if !ok { return; }
      }
      ok := Gate(A.Move(carry, cin));
      var i := 0;
      while i < w
        invariant 0 <= i <= w && Valid() && gates == old(gates) + A.RippleGates(dst, a, b, temp, pair, carry, cin, subtract, i)
      {
        RippleSmall(dst, a, b, temp, pair, carry, subtract, i);
        ok := Gates(A.RippleBit(dst, a, b, temp, pair, carry, subtract, i));
        if !ok { return; }
        i := i + 1;
      }
      return true;
    }

    /** The prefix adder: generate and propagate bits, stages that double the groups, the result. */
    method AddPrefix(s: A.Scratch, dst: nat, a: nat, b: nat, cin: nat, subtract: bool, k: nat) returns (ok: bool)
      requires Valid()
      modifies this
      ensures Advanced(old(gates), A.PrefixGates(s, dst, a, b, cin, subtract, k), ok)
    {
      hide Valid, A.InitGates, A.StagesGates, A.ResultGates, A.CarryGate, Pow2;
      var w := Pow2(k);
      ghost var before := gates;
      ok := Positions(s, a, b, subtract, w);
      if !ok { return; }
      ok := Stages(s, w, k);
      if !ok { return; }
      ok := Results(s, dst, cin, subtract, k, w);
      if !ok { return; }
      ok := Gate(A.CarryGate(s, subtract, k, w));
      ResultSmall(s, dst, cin, subtract, k, 0, w);
      SmallTable(TableOf(A.CarryGate(s, subtract, k, w)));
      assert ok ==> gates == before + A.PrefixGates(s, dst, a, b, cin, subtract, k);
    }

    method Positions(s: A.Scratch, a: nat, b: nat, subtract: bool, w: nat) returns (ok: bool)
      requires Valid()
      modifies this
      ensures Advanced(old(gates), A.InitGates(s, a, b, subtract, w), ok)
    {
      hide Valid, A.InitBit;
      var i := 0;
      while i < w
        invariant 0 <= i <= w && Valid() && gates == old(gates) + A.InitGates(s, a, b, subtract, i)
      {
        InitSmall(s, a, b, subtract, i);
        ok := Gates(A.InitBit(s, a, b, subtract, i));
        if !ok { return; }
        i := i + 1;
      }
      return true;
    }

    /** The buffers change places from stage to stage, and the distance doubles. */
    method Stages(s: A.Scratch, w: nat, k: nat) returns (ok: bool)
      requires Valid()
      modifies this
      ensures Advanced(old(gates), A.StagesGates(s, w, k), ok)
    {
      hide Valid, A.StageGates, Pow2;
      var sourceG, sourceP := s.g0, s.p0;
      var selected, shift, stage := false, 1, 0;
      A.StageStart();
      while stage < k
        invariant 0 <= stage <= k && Valid() && gates == old(gates) + A.StagesGates(s, w, stage)
        invariant sourceG == A.GroupsAt(s, stage) && sourceP == A.PassesAt(s, stage)
        invariant selected == (stage % 2 == 1) && shift == Pow2(stage)
      {
        var destG, destP := if selected then s.bg else s.ag, if selected then s.bp else s.ap;
        ok := StageOf(sourceG, sourceP, destG, destP, shift, w);
        if !ok { return; }
        sourceG, sourceP := destG, destP;
        selected := !selected;
        A.StageDoubles(stage);
        shift := 2 * shift;
        stage := stage + 1;
      }
      return true;
    }

    method StageOf(sg: nat, sp: nat, dg: nat, dp: nat, shift: nat, w: nat) returns (ok: bool)
      requires Valid()
      modifies this
      ensures Advanced(old(gates), A.StageGates(sg, sp, dg, dp, shift, w), ok)
    {
      hide Valid, A.StageBit;
      var i := 0;
      while i < w
        invariant 0 <= i <= w && Valid() && gates == old(gates) + A.StageGates(sg, sp, dg, dp, shift, i)
      {
        StageSmall(sg, sp, dg, dp, shift, i);
        ok := Gates(A.StageBit(sg, sp, dg, dp, shift, i));
        if !ok { return; }
        i := i + 1;
      }
      return true;
    }

    method Results(s: A.Scratch, dst: nat, cin: nat, subtract: bool, k: nat, w: nat) returns (ok: bool)
      requires Valid()
      modifies this
      ensures Advanced(old(gates), A.ResultGates(s, dst, cin, subtract, k, w), ok)
    {
      hide Valid, A.ResultBit;
      var i := 0;
      while i < w
        invariant 0 <= i <= w && Valid() && gates == old(gates) + A.ResultGates(s, dst, cin, subtract, k, i)
      {
        ok := Gate(A.ResultBit(s, dst, cin, subtract, k, i));
        if !ok {
          ResultSmall(s, dst, cin, subtract, k, i, w);
          SmallTable(TableOf(A.ResultBit(s, dst, cin, subtract, k, i)));
          return;
        }
        i := i + 1;
      }
      return true;
    }
  }

  lemma InitSmall(s: A.Scratch, a: nat, b: nat, subtract: bool, i: nat)
    ensures var g := A.InitBit(s, a, b, subtract, i);
      forall k | 0 <= k < |g| :: Arity(TableOf(g[k])) <= 3
  {
  }

  lemma StageSmall(sg: nat, sp: nat, dg: nat, dp: nat, shift: nat, i: nat)
    ensures var g := A.StageBit(sg, sp, dg, dp, shift, i);
      forall k | 0 <= k < |g| :: Arity(TableOf(g[k])) <= 3
  {
  }

  lemma ResultSmall(s: A.Scratch, dst: nat, cin: nat, subtract: bool, k: nat, i: nat, w: nat)
    requires w > 0
    ensures Arity(TableOf(A.ResultBit(s, dst, cin, subtract, k, i))) <= 3 && Arity(TableOf(A.CarryGate(s, subtract, k, w))) <= 3
  {
  }

  /** The loop over neighbours counts them. */
  lemma {:induction false} TogetherIs(inputs: seq<nat>, at: nat, count: nat)
    requires 0 < count && at + count <= |inputs|
    requires forall p | at <= p < at + count :: inputs[p] == inputs[at] + (p - at)
    requires at + count < |inputs| ==> inputs[at + count] != inputs[at] + count
    ensures Together(inputs, at) == count
    decreases count
  {
    if count > 1 {
      TogetherIs(inputs, at + 1, count - 1);
    }
  }

  lemma SmallTable(t: Table)
    requires Arity(t) <= 3
    ensures TableBits(t) <= 16
  {
    SmallPowers();
  }

  lemma RippleSmall(dst: nat, a: nat, b: nat, temp: nat, pair: nat, carry: nat, subtract: bool, i: nat)
    ensures var g := A.RippleBit(dst, a, b, temp, pair, carry, subtract, i);
      forall k | 0 <= k < |g| :: Arity(TableOf(g[k])) <= 3
  {
  }

  // ---- The adders on the machine.

  /** A stretch to work in: data, apart from the tables. */
  ghost predicate Work(c: Config, x: Block, size: nat, first: nat, end: nat, at: nat, n: nat)
    requires c.Valid()
  {
    InData(c, x, at, n) && at + n <= size && (at + n <= first || end <= at)
  }

  /** The gate reads data, writes to a place to work in, and has a small table. */
  ghost predicate Uses(c: Config, x: Block, size: nat, first: nat, end: nat, g: A.Gate)
    requires c.Valid()
  {
    && Work(c, x, size, first, end, g.dst, OutBits(g)) && Arity(TableOf(g)) <= 3
    && forall i {:trigger InputsOf(g)[i]} | 0 <= i < |InputsOf(g)| :: DataBit(c, x, size, InputsOf(g)[i])
  }

  ghost predicate AllUse(c: Config, x: Block, size: nat, first: nat, end: nat, gates: seq<A.Gate>)
    requires c.Valid()
  {
    forall i {:trigger gates[i]} | 0 <= i < |gates| :: Uses(c, x, size, first, end, gates[i])
  }

  lemma UseAppend(c: Config, x: Block, size: nat, first: nat, end: nat, xs: seq<A.Gate>, ys: seq<A.Gate>)
    requires c.Valid() && AllUse(c, x, size, first, end, xs) && AllUse(c, x, size, first, end, ys)
    ensures AllUse(c, x, size, first, end, xs + ys)
  {
    hide Uses;
  }

  lemma UseFits(c: Config, x: Block, book: Book, data: seq<Datum>, size: nat, first: nat, end: nat, gates: seq<A.Gate>)
    requires c.Valid() && 4 <= c.ab && first <= end && InData(c, x, first, end - first)
    requires TablesLaid(book, data, first, end) && Tabled(book, gates) && AllUse(c, x, size, first, end, gates)
    ensures GatesFit(c, x, book, size, gates)
  {
    hide Listed, Pow2;
    forall i {:trigger gates[i]} | 0 <= i < |gates| ensures GateFits(c, x, book, size, gates[i]) {
      assert Uses(c, x, size, first, end, gates[i]);
    }
  }

  /** A block made of gates, behind the processor, and its tables loaded. */
  ghost predicate Installed(c: Config, x: Block, book: Book, data: seq<Datum>, first: nat, end: nat, gates: seq<A.Gate>, u: Space)
    requires c.Valid()
  {
    && 4 <= c.ab && x.nodes == BlockNodes(book, gates) && Tabled(book, gates)
    && first <= end <= |u| && TablesLaid(book, data, first, end) && Loaded(u, data) && InData(c, x, first, end - first)
    && c.LayerBits() <= x.base
  }

  lemma InstalledRuns(c: Config, x: Block, book: Book, data: seq<Datum>, first: nat, end: nat, gates: seq<A.Gate>, u: Space) returns (v: Space, w: Space)
    requires c.Valid() && Installed(c, x, book, data, first, end, gates, u) && AllUse(c, x, |u|, first, end, gates) && Ready(c, x, u)
    ensures Ticked(c, u, LayerCount(|x.nodes|) - 1) == Some(v) && RunSlots(c, v, 0, P.LINK) == Some(w)
    ensures |w| == |u| && Shows(c, x, w, A.Run(MemoryOf(u), gates)) && RowAt(c, w, 0, P.LINK) == x.term
  {
    hide AllUse, GatesFit, TablesLie, Ready, BlockNodes, Shows, A.Run, RowAt, RunSlots, Ticked, TablesLaid, Loaded, Tabled, InData;
    InstalledFits(c, x, book, data, first, end, gates, u);
    v, w := GatesOnMachine(c, x, book, gates, u);
  }

  lemma InstalledFits(c: Config, x: Block, book: Book, data: seq<Datum>, first: nat, end: nat, gates: seq<A.Gate>, u: Space)
    requires c.Valid() && Installed(c, x, book, data, first, end, gates, u) && AllUse(c, x, |u|, first, end, gates)
    ensures GatesFit(c, x, book, |u|, gates) && TablesLie(book, u)
  {
    hide TablesLaid, Loaded, Tabled, AllUse, GatesFit, TablesLie, BlockNodes, InData;
    UseFits(c, x, book, data, |u|, first, end, gates);
    TablesLoaded(book, data, first, end, u);
  }

  /** A word of data is the same in the space and in the memory that it shows. */
  lemma WordShown(c: Config, x: Block, s: Space, m: A.Memory, at: nat, n: nat)
    requires c.Valid() && Shows(c, x, s, m) && InData(c, x, at, n) && at + n <= |s|
    ensures Val(A.Word(m, at, n), 0, n) == Val(s, at, n)
    ensures n > 0 ==> s[at] == A.Get(m, at)
  {
    hide A.Get;
    var word := A.Word(m, at, n);
    forall p {:trigger s[p]} | at <= p < at + n ensures s[p] == word[p - at + 0] {
      assert InData(c, x, p, 1);
    }
    ValMove(s, at, word, 0, n);
  }

  lemma MemoryShown(c: Config, x: Block, u: Space)
    requires c.Valid()
    ensures Shows(c, x, u, MemoryOf(u))
  {
    hide InData;
  }

  /** What an adder leaves in a space, as numbers: sum and carry, or difference and absence of a borrow. */
  ghost predicate AddedIn(u: Space, w: Space, dst: nat, carry: nat, a: nat, b: nat, subtract: bool, n: nat) {
    && a + n <= |u| && b + n <= |u| && dst + n <= |w| && carry < |w|
    && var p, q := Val(u, a, n), Val(u, b, n);
      && Val(w, dst, n) == (if subtract then Pow2(n) + p - q else p + q) % Pow2(n)
      && w[carry] == (if subtract then p >= q else p + q >= Pow2(n))
  }

  lemma AddedShown(c: Config, x: Block, u: Space, w: Space, m: A.Memory, dst: nat, carry: nat, a: nat, b: nat, subtract: bool, n: nat)
    requires c.Valid() && |w| == |u| && Shows(c, x, w, m) && A.Added(MemoryOf(u), m, dst, carry, a, b, subtract, n)
    requires InData(c, x, dst, n) && dst + n <= |u| && InData(c, x, carry, 1) && carry < |u|
    requires InData(c, x, a, n) && a + n <= |u| && InData(c, x, b, n) && b + n <= |u|
    ensures AddedIn(u, w, dst, carry, a, b, subtract, n)
  {
    hide Val, Pow2, A.Added, Shows, InData, MemoryOf;
    var mu := MemoryOf(u);
    MemoryShown(c, x, u);
    WordShown(c, x, u, mu, a, n);
    WordShown(c, x, u, mu, b, n);
    WordShown(c, x, w, m, dst, n);
    WordShown(c, x, w, m, carry, 1);
    A.AddedSpells(mu, m, dst, carry, a, b, subtract, n);
    A.SpelledIs(Val(u, a, n), Val(u, b, n), Val(w, dst, n), Bit(A.Get(m, carry)), subtract, Pow2(n));
  }

  lemma RippleBitUses(c: Config, x: Block, size: nat, first: nat, end: nat,
                      dst: nat, a: nat, b: nat, temp: nat, pair: nat, carry: nat, subtract: bool, i: nat, w: nat)
    requires c.Valid() && i < w && Work(c, x, size, first, end, dst, w) && Work(c, x, size, first, end, temp, w)
    requires Work(c, x, size, first, end, pair, 2) && Work(c, x, size, first, end, carry, 1)
    requires InData(c, x, a, w) && a + w <= size && InData(c, x, b, w) && b + w <= size
    ensures AllUse(c, x, size, first, end, A.RippleBit(dst, a, b, temp, pair, carry, subtract, i))
  {
    hide LayerAt, LayerCount;
  }

  lemma {:induction false} RippleUses(c: Config, x: Block, size: nat, first: nat, end: nat,
                                      dst: nat, a: nat, b: nat, temp: nat, pair: nat, carry: nat, cin: nat, subtract: bool, n: nat, w: nat)
    requires c.Valid() && n <= w && Work(c, x, size, first, end, dst, w) && Work(c, x, size, first, end, temp, w)
    requires Work(c, x, size, first, end, pair, 2) && Work(c, x, size, first, end, carry, 1) && DataBit(c, x, size, cin)
    requires InData(c, x, a, w) && a + w <= size && InData(c, x, b, w) && b + w <= size
    ensures AllUse(c, x, size, first, end, A.RippleGates(dst, a, b, temp, pair, carry, cin, subtract, n))
  {
    hide AllUse, Work, InData, A.RippleBit, DataBit;
    if n == 0 {
      MoveUses(c, x, size, first, end, carry, cin);
    } else {
      RippleUses(c, x, size, first, end, dst, a, b, temp, pair, carry, cin, subtract, n - 1, w);
      RippleBitUses(c, x, size, first, end, dst, a, b, temp, pair, carry, subtract, n - 1, w);
      UseAppend(c, x, size, first, end, A.RippleGates(dst, a, b, temp, pair, carry, cin, subtract, n - 1), A.RippleBit(dst, a, b, temp, pair, carry, subtract, n - 1));
    }
  }

  lemma MoveUses(c: Config, x: Block, size: nat, first: nat, end: nat, dst: nat, src: nat)
    requires c.Valid() && Work(c, x, size, first, end, dst, 1) && DataBit(c, x, size, src)
    ensures AllUse(c, x, size, first, end, [A.Move(dst, src)])
  {
    hide InData;
  }

  /** The ripple adder's layers, run by the machine, leave the 32-bit sum or difference and its carry. */
  lemma RippleOnMachine(c: Config, x: Block, book: Book, data: seq<Datum>, first: nat, end: nat, u: Space,
                        dst: nat, a: nat, b: nat, temp: nat, pair: nat, carry: nat, cin: nat, subtract: bool) returns (v: Space, w: Space)
    requires c.Valid() && Installed(c, x, book, data, first, end, A.RippleGates(dst, a, b, temp, pair, carry, cin, subtract, 32), u) && Ready(c, x, u)
    requires A.RipplePlaced(dst, a, b, temp, pair, carry, 32)
    requires Work(c, x, |u|, first, end, dst, 32) && Work(c, x, |u|, first, end, temp, 32)
    requires Work(c, x, |u|, first, end, pair, 2) && Work(c, x, |u|, first, end, carry, 1)
    requires InData(c, x, a, 32) && a + 32 <= |u| && InData(c, x, b, 32) && b + 32 <= |u|
    requires DataBit(c, x, |u|, cin) && u[cin] == subtract
    ensures Ticked(c, u, LayerCount(|x.nodes|) - 1) == Some(v) && RunSlots(c, v, 0, P.LINK) == Some(w)
    ensures AddedIn(u, w, dst, carry, a, b, subtract, 32) && RowAt(c, w, 0, P.LINK) == x.term
  {
    hide Installed, Ready, A.RippleGates, AllUse, Shows, A.Run, RowAt, RunSlots, Ticked, InData, AddedIn, A.Added, A.RipplePlaced;
    var gates := A.RippleGates(dst, a, b, temp, pair, carry, cin, subtract, 32);
    RippleUses(c, x, |u|, first, end, dst, a, b, temp, pair, carry, cin, subtract, 32, 32);
    v, w := InstalledRuns(c, x, book, data, first, end, gates, u);
    A.RippleAdds(MemoryOf(u), dst, a, b, temp, pair, carry, cin, subtract, 32);
    AddedShown(c, x, u, w, A.Run(MemoryOf(u), gates), dst, carry, a, b, subtract, 32);
  }

  /** The prefix adder's places to work in, all data and apart from the tables. */
  ghost predicate ScratchWork(c: Config, x: Block, size: nat, first: nat, end: nat, s: A.Scratch, w: nat)
    requires c.Valid()
  {
    && Work(c, x, size, first, end, s.g0, w) && Work(c, x, size, first, end, s.p0, w) && Work(c, x, size, first, end, s.ag, w)
    && Work(c, x, size, first, end, s.ap, w) && Work(c, x, size, first, end, s.bg, w) && Work(c, x, size, first, end, s.bp, w)
    && Work(c, x, size, first, end, s.carry, 1)
  }

  lemma WorkPart(c: Config, x: Block, size: nat, first: nat, end: nat, at: nat, w: nat, i: nat)
    requires c.Valid() && Work(c, x, size, first, end, at, w) && i < w
    ensures Work(c, x, size, first, end, at + i, 1) && DataBit(c, x, size, at + i)
  {
  }

  lemma InitBitUses(c: Config, x: Block, size: nat, first: nat, end: nat, s: A.Scratch, a: nat, b: nat, subtract: bool, i: nat, w: nat)
    requires c.Valid() && i < w && ScratchWork(c, x, size, first, end, s, w)
    requires InData(c, x, a, w) && a + w <= size && InData(c, x, b, w) && b + w <= size
    ensures AllUse(c, x, size, first, end, A.InitBit(s, a, b, subtract, i))
  {
    WorkPart(c, x, size, first, end, s.g0, w, i);
    WorkPart(c, x, size, first, end, s.p0, w, i);
    DataPart(c, x, a, w, i);
    DataPart(c, x, b, w, i);
    hide InData, Work;
  }

  lemma DataPart(c: Config, x: Block, at: nat, w: nat, i: nat)
    requires c.Valid() && InData(c, x, at, w) && i < w
    ensures InData(c, x, at + i, 1)
  {
    hide LayerAt, LayerCount;
  }

  lemma {:induction false} InitUses(c: Config, x: Block, size: nat, first: nat, end: nat, s: A.Scratch, a: nat, b: nat, subtract: bool, n: nat, w: nat)
    requires c.Valid() && n <= w && ScratchWork(c, x, size, first, end, s, w)
    requires InData(c, x, a, w) && a + w <= size && InData(c, x, b, w) && b + w <= size
    ensures AllUse(c, x, size, first, end, A.InitGates(s, a, b, subtract, n))
  {
    hide InData, Work, A.InitBit;
    if n > 0 {
      InitUses(c, x, size, first, end, s, a, b, subtract, n - 1, w);
      InitBitUses(c, x, size, first, end, s, a, b, subtract, n - 1, w);
      UseAppend(c, x, size, first, end, A.InitGates(s, a, b, subtract, n - 1), A.InitBit(s, a, b, subtract, n - 1));
    }
  }

  lemma StageBitUses(c: Config, x: Block, size: nat, first: nat, end: nat, sg: nat, sp: nat, dg: nat, dp: nat, shift: nat, i: nat, w: nat)
    requires c.Valid() && i < w && Work(c, x, size, first, end, sg, w) && Work(c, x, size, first, end, sp, w)
    requires Work(c, x, size, first, end, dg, w) && Work(c, x, size, first, end, dp, w)
    ensures AllUse(c, x, size, first, end, A.StageBit(sg, sp, dg, dp, shift, i))
  {
    hide InData, Work;
    WorkPart(c, x, size, first, end, sg, w, i);
    WorkPart(c, x, size, first, end, sp, w, i);
    WorkPart(c, x, size, first, end, dg, w, i);
    WorkPart(c, x, size, first, end, dp, w, i);
    if i >= shift {
      WorkPart(c, x, size, first, end, sg, w, i - shift);
      WorkPart(c, x, size, first, end, sp, w, i - shift);
    }
  }

  lemma {:induction false} StageUses(c: Config, x: Block, size: nat, first: nat, end: nat, sg: nat, sp: nat, dg: nat, dp: nat, shift: nat, n: nat, w: nat)
    requires c.Valid() && n <= w && Work(c, x, size, first, end, sg, w) && Work(c, x, size, first, end, sp, w)
    requires Work(c, x, size, first, end, dg, w) && Work(c, x, size, first, end, dp, w)
    ensures AllUse(c, x, size, first, end, A.StageGates(sg, sp, dg, dp, shift, n))
  {
    hide Work, A.StageBit;
    if n > 0 {
      StageUses(c, x, size, first, end, sg, sp, dg, dp, shift, n - 1, w);
      StageBitUses(c, x, size, first, end, sg, sp, dg, dp, shift, n - 1, w);
      UseAppend(c, x, size, first, end, A.StageGates(sg, sp, dg, dp, shift, n - 1), A.StageBit(sg, sp, dg, dp, shift, n - 1));
    }
  }

  lemma {:induction false} StagesUse(c: Config, x: Block, size: nat, first: nat, end: nat, s: A.Scratch, w: nat, k: nat)
    requires c.Valid() && ScratchWork(c, x, size, first, end, s, w)
    ensures AllUse(c, x, size, first, end, A.StagesGates(s, w, k))
  {
    hide Work, A.StageGates;
    if k > 0 {
      StagesUse(c, x, size, first, end, s, w, k - 1);
      var sg, sp, dg, dp := A.GroupsAt(s, k - 1), A.PassesAt(s, k - 1), A.GroupsAt(s, k), A.PassesAt(s, k);
      StageUses(c, x, size, first, end, sg, sp, dg, dp, Pow2(k - 1), w, w);
      UseAppend(c, x, size, first, end, A.StagesGates(s, w, k - 1), A.StageGates(sg, sp, dg, dp, Pow2(k - 1), w));
    }
  }

  lemma ResultUses(c: Config, x: Block, size: nat, first: nat, end: nat, s: A.Scratch, dst: nat, cin: nat, subtract: bool, k: nat, i: nat, w: nat)
    requires c.Valid() && i < w && ScratchWork(c, x, size, first, end, s, w) && Work(c, x, size, first, end, dst, w) && DataBit(c, x, size, cin)
    ensures Uses(c, x, size, first, end, A.ResultBit(s, dst, cin, subtract, k, i)) && Uses(c, x, size, first, end, A.CarryGate(s, subtract, k, w))
  {
    hide InData, Work;
    WorkPart(c, x, size, first, end, dst, w, i);
    WorkPart(c, x, size, first, end, s.p0, w, i);
    WorkPart(c, x, size, first, end, s.carry, 1, 0);
    WorkPart(c, x, size, first, end, A.GroupsAt(s, k), w, w - 1);
    WorkPart(c, x, size, first, end, A.PassesAt(s, k), w, w - 1);
    if i > 0 {
      WorkPart(c, x, size, first, end, A.GroupsAt(s, k), w, i - 1);
      WorkPart(c, x, size, first, end, A.PassesAt(s, k), w, i - 1);
    }
  }

  lemma {:induction false} ResultsUse(c: Config, x: Block, size: nat, first: nat, end: nat, s: A.Scratch, dst: nat, cin: nat, subtract: bool, k: nat, n: nat, w: nat)
    requires c.Valid() && n <= w && ScratchWork(c, x, size, first, end, s, w) && Work(c, x, size, first, end, dst, w) && DataBit(c, x, size, cin)
    ensures AllUse(c, x, size, first, end, A.ResultGates(s, dst, cin, subtract, k, n))
  {
    hide Uses, ScratchWork, Work, DataBit, A.ResultBit;
    if n > 0 {
      ResultsUse(c, x, size, first, end, s, dst, cin, subtract, k, n - 1, w);
      ResultUses(c, x, size, first, end, s, dst, cin, subtract, k, n - 1, w);
    }
  }

  lemma PrefixUses(c: Config, x: Block, size: nat, first: nat, end: nat, s: A.Scratch, dst: nat, a: nat, b: nat, cin: nat, subtract: bool, k: nat)
    requires c.Valid() && ScratchWork(c, x, size, first, end, s, Pow2(k)) && Work(c, x, size, first, end, dst, Pow2(k)) && DataBit(c, x, size, cin)
    requires InData(c, x, a, Pow2(k)) && a + Pow2(k) <= size && InData(c, x, b, Pow2(k)) && b + Pow2(k) <= size
    ensures AllUse(c, x, size, first, end, A.PrefixGates(s, dst, a, b, cin, subtract, k))
  {
    hide Uses, ScratchWork, Work, DataBit, InData, A.InitGates, A.StagesGates, A.ResultGates, A.CarryGate;
    var w := Pow2(k);
    var xs, ys, zs, last := A.InitGates(s, a, b, subtract, w), A.StagesGates(s, w, k), A.ResultGates(s, dst, cin, subtract, k, w), A.CarryGate(s, subtract, k, w);
    InitUses(c, x, size, first, end, s, a, b, subtract, w, w);
    StagesUse(c, x, size, first, end, s, w, k);
    ResultsUse(c, x, size, first, end, s, dst, cin, subtract, k, w, w);
    ResultUses(c, x, size, first, end, s, dst, cin, subtract, k, 0, w);
    UseAppend(c, x, size, first, end, xs, ys);
    UseAppend(c, x, size, first, end, xs + ys, zs);
    UseAppend(c, x, size, first, end, xs + ys + zs, [last]);
  }
}
