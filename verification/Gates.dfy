/**
 * Gates as copies (modules/rv32i.py, modules/rv32i_bulk.py): a gate is a read of a truth table whose address is
 * patched by the input bits. A block made of gates, cut into layers, does on the machine what the gates mean.
 */
module Gates {
  import opened Bits
  import opened Machine
  import opened CopyEmit
  import opened Layering
  import L = Lookups
  import P = Layers
  import A = Adders
  import S = Schedule

  /** The tables: one for each function of so many inputs, and the adder's, with sum and carry side by side. */
  datatype Table = Truth(f: A.Function, arity: nat) | Sums

  /** Where each table lies. */
  type Book = map<Table, nat>

  function Arity(t: Table): nat {
    if t.Truth? then t.arity else 3
  }

  /** An entry has 2^Stride bits. */
  function Stride(t: Table): nat {
    if t.Truth? then 0 else 1
  }

  function Width(t: Table): nat {
    Stride(t) + 1
  }

  function EntryOf(t: Table, v: seq<bool>): (e: seq<bool>)
    requires |v| == Arity(t)
    ensures |e| == Width(t)
  {
    match t
    case Truth(f, _) => [A.Apply(f, v)]
    case Sums => var n := Bit(v[0]) + Bit(v[1]) + Bit(v[2]); [n % 2 == 1, n >= 2]
  }

  function TableBits(t: Table): nat {
    Pow2(Stride(t) + Arity(t))
  }

  /** The table's bits, entry by entry. */
  ghost predicate Lies(t: Table, base: nat, s: Space) {
    && base % TableBits(t) == 0 && base + TableBits(t) <= |s|
    && forall v: seq<bool>, k: nat {:trigger EntryLies(t, base, s, v, k)} | |v| == Arity(t) && k < Width(t) :: EntryLies(t, base, s, v, k)
  }

  ghost predicate EntryLies(t: Table, base: nat, s: Space, v: seq<bool>, k: nat)
    requires |v| == Arity(t) && k < Width(t) && base + TableBits(t) <= |s|
  {
    var at := Pow2(Stride(t)) * Val(v, 0, |v|) + k;
    at < TableBits(t) && s[base + at] == EntryOf(t, v)[k]
  }

  /** How many of the inputs from the given one on are neighbours. */
  function Together(inputs: seq<nat>, at: nat): (n: nat)
    requires at < |inputs|
    ensures 0 < n <= |inputs| - at && forall p | at <= p < at + n :: inputs[p] == inputs[at] + (p - at)
    decreases |inputs| - at
  {
    if at + 1 < |inputs| && inputs[at + 1] == inputs[at] + 1 then 1 + Together(inputs, at + 1) else 1
  }

  /** The copies that put the inputs from the given one on into the source of node t, neighbours in one copy. */
  function IndexNodes(t: nat, inputs: seq<nat>, off: nat, at: nat): seq<S.Node>
    requires at <= |inputs|
    decreases |inputs| - at
  {
    if at == |inputs| then []
    else
      var n := Together(inputs, at);
      [S.Node(n, S.Into(t, S.SrcField, off + at), S.At(inputs[at]))] + IndexNodes(t, inputs, off, at + n)
  }

  function PatchCount(inputs: seq<nat>, at: nat): nat
    requires at <= |inputs|
    decreases |inputs| - at
  {
    if at == |inputs| then 0 else 1 + PatchCount(inputs, at + Together(inputs, at))
  }

  /** The patches, and the read that they aim. */
  function LookupNodes(first: nat, dst: nat, base: nat, inputs: seq<nat>, width: nat, off: nat): seq<S.Node> {
    IndexNodes(first + PatchCount(inputs, 0), inputs, off, 0) + [S.Node(width, S.At(dst), S.At(base))]
  }

  function TableOf(g: A.Gate): Table {
    if g.Look? then Truth(g.f, |g.inputs|) else Sums
  }

  function InputsOf(g: A.Gate): seq<nat> {
    match g
    case Look(_, _, inputs) => inputs
    case Move(_, src) => [src]
    case Sum(_, a, b, d) => [a, b, d]
  }

  function OutBits(g: A.Gate): nat {
    if g.Sum? then 2 else 1
  }

  function BaseOf(book: Book, t: Table): nat {
    if t in book then book[t] else 0
  }

  function GateNodes(book: Book, g: A.Gate, first: nat): seq<S.Node> {
    if g.Move? then [S.Node(1, S.At(g.dst), S.At(g.src))]
    else LookupNodes(first, g.dst, BaseOf(book, TableOf(g)), InputsOf(g), OutBits(g), Stride(TableOf(g)))
  }

  function BlockNodes(book: Book, gates: seq<A.Gate>): seq<S.Node> {
    if gates == [] then []
    else
      var nodes := BlockNodes(book, gates[..|gates| - 1]);
      nodes + GateNodes(book, gates[|gates| - 1], |nodes|)
  }

  /** All tables are there. */
  ghost predicate TablesLie(book: Book, s: Space) {
    forall t {:trigger t in book} | t in book :: Lies(t, book[t], s)
  }

  /** A stretch that is data, and apart from all tables. */
  ghost predicate Free(c: Config, x: Block, book: Book, size: nat, at: nat, n: nat)
    requires c.Valid()
  {
    && InData(c, x, at, n) && at + n <= size
    && forall t {:trigger t in book} | t in book :: A.Apart(at, n, book[t], TableBits(t))
  }

  ghost predicate DataBit(c: Config, x: Block, size: nat, p: nat)
    requires c.Valid()
  {
    InData(c, x, p, 1) && p < size
  }

  /** A gate reads data and writes data outside the tables, and its table is among them. */
  ghost predicate GateFits(c: Config, x: Block, book: Book, size: nat, g: A.Gate)
    requires c.Valid()
  {
    && Free(c, x, book, size, g.dst, OutBits(g))
    && (forall i {:trigger InputsOf(g)[i]} | 0 <= i < |InputsOf(g)| :: DataBit(c, x, size, InputsOf(g)[i]))
    && (!g.Move? ==> TableOf(g) in book && InData(c, x, book[TableOf(g)], TableBits(TableOf(g))) && Stride(TableOf(g)) + Arity(TableOf(g)) <= c.ab)
  }

  /** The data are those of the memory. */
  ghost predicate Shows(c: Config, x: Block, s: Space, m: A.Memory)
    requires c.Valid()
  {
    forall p: nat {:trigger s[p]} {:trigger A.Get(m, p)} | p < |s| && InData(c, x, p, 1) :: s[p] == A.Get(m, p)
  }

  // ---- Patches.

  lemma {:induction false} IndexSize(t: nat, inputs: seq<nat>, off: nat, at: nat)
    requires at <= |inputs|
    ensures |IndexNodes(t, inputs, off, at)| == PatchCount(inputs, at)
    decreases |inputs| - at
  {
    if at < |inputs| {
      IndexSize(t, inputs, off, at + Together(inputs, at));
    }
  }

  /** The offset after neighbours have been added. */
  lemma {:induction false} OffsetTogether(s: Space, off: nat, inputs: seq<nat>, at: nat, n: nat)
    requires L.Within(inputs, |s|) && at + n <= |inputs| && n > 0
    requires forall p | at <= p < at + n :: inputs[p] == inputs[at] + (p - at)
    ensures inputs[at] + n <= |s|
    ensures L.Offset(s, off, inputs[..at + n]) == L.Offset(s, off, inputs[..at]) + Pow2(off + at) * Val(s, inputs[at], n)
  {
    hide Val, Pow2, L.Offset;
    var m := n - 1;
    assert inputs[at + m] == inputs[at] + m;
    assert inputs[..at + n] == inputs[..at + m] + [inputs[at + m]];
    L.OffsetSnoc(s, off, inputs[..at + m], inputs[at + m]);
    ValSnoc(s, inputs[at], m);
    Pow2Add(off + at, m);
    MulAssoc(Pow2(off + at), Pow2(m), Bit(s[inputs[at] + m]));
    Distribute(Pow2(off + at), Val(s, inputs[at], m), Pow2(m) * Bit(s[inputs[at] + m]));
    if m == 0 {
      NoVal(s, inputs[at]);
    } else {
      OffsetTogether(s, off, inputs, at, m);
    }
  }

  lemma NoVal(s: Space, at: nat)
    requires at <= |s|
    ensures Val(s, at, 0) == 0
  {
  }

  /** The source of a read whose first inputs have been put in, and after the next ones. */
  lemma SourceTogether(s: Space, off: nat, inputs: seq<nat>, at: nat, h: nat)
    requires L.Within(inputs, |s|) && at < |inputs|
    ensures var n := Together(inputs, at);
      && inputs[at] + n <= |s|
      && Replace(h * Pow2(off + |inputs|) + L.Offset(s, off, inputs[..at]), off + at, n, Val(s, inputs[at], n))
           == h * Pow2(off + |inputs|) + L.Offset(s, off, inputs[..at + n])
  {
    hide Val, Replace, Pow2, L.Offset;
    var n := Together(inputs, at);
    OffsetTogether(s, off, inputs, at, n);
    L.OffsetBound(s, off, inputs[..at]);
    var rest := |inputs| - at - n;
    Pow2Add(rest, off + at + n);
    MulAssoc(h, Pow2(rest), Pow2(off + at + n));
    ReplaceZeros(L.Offset(s, off, inputs[..at]), h * Pow2(rest), off + at, n, Val(s, inputs[at], n));
  }

  /** The inputs as they lie in the space. */
  function InputBits(s: Space, inputs: seq<nat>): (v: seq<bool>)
    requires L.Within(inputs, |s|)
    ensures |v| == |inputs|
  {
    seq(|inputs|, i requires 0 <= i < |inputs| => s[inputs[i]])
  }

  lemma {:induction false} OffsetIs(s: Space, off: nat, inputs: seq<nat>)
    requires L.Within(inputs, |s|)
    ensures L.Offset(s, off, inputs) == Pow2(off) * Val(InputBits(s, inputs), 0, |inputs|)
    decreases |inputs|
  {
    hide Val, Pow2;
    var v := InputBits(s, inputs);
    if inputs == [] {
      NoVal(v, 0);
    } else {
      var k := |inputs| - 1;
      OffsetIs(s, off, inputs[..k]);
      ValSnoc(v, 0, k);
      ValFrame(v, InputBits(s, inputs[..k]), 0, k);
      Pow2Add(off, k);
      MulAssoc(Pow2(off), Pow2(k), Bit(v[k]));
      Distribute(Pow2(off), Val(v, 0, k), Pow2(k) * Bit(v[k]));
    }
  }

  // ---- Gates as the block's nodes.

  /** Rows of nodes that are still to come are as written, the source of node t apart. */
  ghost predicate Aimed(c: Config, x: Block, s: Run, from: nat, t: nat, src: nat)
    requires c.Valid()
  {
    && |s.rows| == |x.nodes| + 1 && from <= t <= |x.nodes|
    && s.rows[t] == NodeRow(c, x, t).(src := src)
    && forall k {:trigger s.rows[k]} | from <= k <= |x.nodes| && k != t :: s.rows[k] == NodeRow(c, x, k)
  }

  ghost predicate Fresh(c: Config, x: Block, s: Run, from: nat)
    requires c.Valid()
  {
    && |s.rows| == |x.nodes| + 1
    && forall k {:trigger s.rows[k]} | from <= k <= |x.nodes| :: s.rows[k] == NodeRow(c, x, k)
  }

  /** The nodes from j to k are safe where they are executed. */
  ghost predicate SafeFrom(c: Config, x: Block, data: Space, j: nat, k: nat)
    requires c.Valid() && k <= |x.nodes|
  {
    forall i {:trigger Before(c, x, data, i)} | j <= i < k :: Safe(c, x, Before(c, x, data, i), i)
  }

  /** Neighbouring bits of data are one stretch of data. */
  lemma DataTogether(c: Config, x: Block, size: nat, at: nat, n: nat)
    requires c.Valid() && n > 0 && forall p: nat {:trigger DataBit(c, x, size, p)} | at <= p < at + n :: DataBit(c, x, size, p)
    ensures InData(c, x, at, n) && at + n <= size
  {
    hide LayerAt, LayerCount, c.Offset;
    assert DataBit(c, x, size, at) && DataBit(c, x, size, at + n - 1);
    if at <= x.base < at + n {
      assert DataBit(c, x, size, x.base);
      LayersInside(c, x.base, LayerCount(|x.nodes|));
    }
  }

  lemma LayersInside(c: Config, base: nat, layers: nat)
    requires c.Valid() && layers > 0
    ensures base < LayerAt(c, base, layers)
  {
    OffsetIsProduct(c, SLOTS);
    MulMonotone(c.LayerBits(), 0, layers);
  }

  ghost predicate AllData(c: Config, x: Block, size: nat, inputs: seq<nat>)
    requires c.Valid()
  {
    L.Within(inputs, size) && forall i {:trigger inputs[i]} | 0 <= i < |inputs| :: DataBit(c, x, size, inputs[i])
  }

  /** How far the first inputs move the source. */
  function Aim(s: Space, off: nat, inputs: seq<nat>, at: nat): nat {
    if at <= |inputs| && L.Within(inputs, |s|) then L.Offset(s, off, inputs[..at]) else 0
  }

  lemma DataInputs(c: Config, x: Block, size: nat, inputs: seq<nat>, at: nat)
    requires c.Valid() && AllData(c, x, size, inputs) && at < |inputs|
    ensures L.Within(inputs, size) && InData(c, x, inputs[at], Together(inputs, at)) && inputs[at] + Together(inputs, at) <= size
  {
    hide InData;
    var n := Together(inputs, at);
    forall p: nat {:trigger DataBit(c, x, size, p)} | inputs[at] <= p < inputs[at] + n ensures DataBit(c, x, size, p) {
      assert inputs[at + (p - inputs[at])] == p;
    }
    DataTogether(c, x, size, inputs[at], n);
  }

  /** The effect of a patch: nothing but the source of node t. */
  ghost predicate PatchDone(c: Config, x: Block, data: Space, j: nat, t: nat, src: nat)
    requires c.Valid() && j < |x.nodes|
  {
    && Safe(c, x, Before(c, x, data, j), j)
    && Before(c, x, data, j + 1).data == Before(c, x, data, j).data
    && Aimed(c, x, Before(c, x, data, j + 1), j + 1, t, src)
  }

  /** One copy of input bits. */
  lemma PatchRuns(c: Config, x: Block, data: Space, j: nat, t: nat, inputs: seq<nat>, off: nat, at: nat, h: nat)
    requires c.Valid() && at < |inputs| && j < t < |x.nodes| && off + |inputs| <= c.ab
    requires AllData(c, x, |data|, inputs)
    requires x.nodes[j] == S.Node(Together(inputs, at), S.Into(t, S.SrcField, off + at), S.At(inputs[at]))
    requires Aimed(c, x, Before(c, x, data, j), j, t, h * Pow2(off + |inputs|) + Aim(Before(c, x, data, j).data, off, inputs, at))
    ensures var s := Before(c, x, data, j);
      PatchDone(c, x, data, j, t, h * Pow2(off + |inputs|) + Aim(s.data, off, inputs, at + Together(inputs, at)))
  {
    hide Val, Replace, Pow2, L.Offset, InData, Before, Aimed, Step, L.Within, AllData, FieldBits;
    var s, n := Before(c, x, data, j), Together(inputs, at);
    DataInputs(c, x, |data|, inputs, at);
    SourceTogether(s.data, off, inputs, at, h);
    BeforeNext(c, x, data, j);
    AimedNext(c, x, s, j, t, h * Pow2(off + |inputs|) + Aim(s.data, off, inputs, at), n, off + at, inputs[at]);
  }

  lemma AimedNext(c: Config, x: Block, s: Run, j: nat, t: nat, src: nat, n: nat, off: nat, at: nat)
    requires c.Valid() && j < t < |x.nodes| && n > 0 && Aimed(c, x, s, j, t, src)
    requires x.nodes[j] == S.Node(n, S.Into(t, S.SrcField, off), S.At(at))
    requires InData(c, x, at, n) && at + n <= |s.data| && off + n <= c.ab
    ensures Safe(c, x, s, j) && Step(c, x, s, j).data == s.data
    ensures Aimed(c, x, Step(c, x, s, j), j + 1, t, Replace(src, off, n, Val(s.data, at, n)))
  {
    hide Val, Replace, Resolve, InData;
  }

  lemma {:induction false} IndexRuns(c: Config, x: Block, data: Space, j: nat, t: nat, inputs: seq<nat>, off: nat, at: nat, h: nat)
    requires c.Valid() && at <= |inputs| && j + PatchCount(inputs, at) == t < |x.nodes| && off + |inputs| <= c.ab
    requires AllData(c, x, |data|, inputs)
    requires x.nodes[j..t] == IndexNodes(t, inputs, off, at)
    requires Aimed(c, x, Before(c, x, data, j), j, t, h * Pow2(off + |inputs|) + Aim(Before(c, x, data, j).data, off, inputs, at))
    ensures var s := Before(c, x, data, j);
      && SafeFrom(c, x, data, j, t)
      && Before(c, x, data, t).data == s.data
      && Aimed(c, x, Before(c, x, data, t), t, t, h * Pow2(off + |inputs|) + Aim(s.data, off, inputs, |inputs|))
    decreases |inputs| - at
  {
    hide Before, Aimed, Safe, Pow2, Aim, AllData;
    if at < |inputs| {
      var n := Together(inputs, at);
      assert x.nodes[j] == x.nodes[j..t][0];
      PatchRuns(c, x, data, j, t, inputs, off, at, h);
      assert x.nodes[j + 1..t] == x.nodes[j..t][1..];
      IndexRuns(c, x, data, j + 1, t, inputs, off, at + n, h);
    }
  }

  /** A lookup leaves the entry of its inputs in its destination. */
  lemma LookupRuns(c: Config, x: Block, data: Space, j: nat, dst: nat, base: nat, inputs: seq<nat>, width: nat, off: nat, h: nat)
    returns (t: nat)
    requires c.Valid() && off + |inputs| <= c.ab && width > 0
    requires AllData(c, x, |data|, inputs)
    requires j + PatchCount(inputs, 0) < |x.nodes| && base == h * Pow2(off + |inputs|)
    requires x.nodes[j..j + PatchCount(inputs, 0) + 1] == LookupNodes(j, dst, base, inputs, width, off)
    requires Fresh(c, x, Before(c, x, data, j), j)
    requires InData(c, x, dst, width) && dst + width <= |data|
    requires var from := base + Aim(Before(c, x, data, j).data, off, inputs, |inputs|);
      InData(c, x, from, width) && from + width <= |data|
    ensures t == j + PatchCount(inputs, 0) + 1 && SafeFrom(c, x, data, j, t) && Fresh(c, x, Before(c, x, data, t), t)
    ensures var s := Before(c, x, data, j).data;
      Before(c, x, data, t).data == CopyBits(s, width, dst, base + Aim(s, off, inputs, |inputs|))
  {
    hide Pow2, Aim, InData, AllData, Before, Step, Aimed, Fresh, IndexNodes;
    var r := j + PatchCount(inputs, 0);
    t := r + 1;
    IndexSize(r, inputs, off, 0);
    var nodes, patches := x.nodes[j..t], IndexNodes(r, inputs, off, 0);
    assert nodes == patches + [S.Node(width, S.At(dst), S.At(base))];
    assert x.nodes[j..r] == nodes[..r - j] == patches;
    assert x.nodes[r] == nodes[r - j];
    NoAim(Before(c, x, data, j).data, off, inputs);
    FreshAims(c, x, Before(c, x, data, j), j, r, base);
    IndexRuns(c, x, data, j, r, inputs, off, 0, h);
    BeforeNext(c, x, data, r);
    ReadNext(c, x, Before(c, x, data, r), r, dst, base, width, base + Aim(Before(c, x, data, j).data, off, inputs, |inputs|));
  }

  lemma FreshAims(c: Config, x: Block, s: Run, j: nat, r: nat, base: nat)
    requires c.Valid() && Fresh(c, x, s, j) && j <= r < |x.nodes| && x.nodes[r].src == S.At(base)
    ensures Aimed(c, x, s, j, r, base)
  {
    hide Resolve;
  }

  lemma ReadNext(c: Config, x: Block, s: Run, r: nat, dst: nat, base: nat, width: nat, src: nat)
    requires c.Valid() && r < |x.nodes| && Aimed(c, x, s, r, r, src) && x.nodes[r] == S.Node(width, S.At(dst), S.At(base))
    requires width > 0 && InData(c, x, dst, width) && dst + width <= |s.data| && InData(c, x, src, width) && src + width <= |s.data|
    ensures Safe(c, x, s, r) && Fresh(c, x, Step(c, x, s, r), r + 1)
    ensures Step(c, x, s, r).data == CopyBits(s.data, width, dst, src)
  {
    hide Resolve, InData;
  }

  lemma NoAim(s: Space, off: nat, inputs: seq<nat>)
    ensures Aim(s, off, inputs, 0) == 0
  {
  }

  // ---- Gates.

  /** What a gate leaves in its destination. */
  function Out(g: A.Gate, m: A.Memory): (e: seq<bool>)
    ensures |e| == OutBits(g)
  {
    if g.Move? then [A.Get(m, g.src)] else EntryOf(TableOf(g), A.Inputs(m, InputsOf(g)))
  }

  /** A gate writes its output and nothing else. */
  lemma StepIs(m: A.Memory, g: A.Gate, p: nat)
    ensures A.Get(A.Step(m, g), p) == if g.dst <= p < g.dst + OutBits(g) then Out(g, m)[p - g.dst] else A.Get(m, p)
  {
    if g.Sum? {
      assert A.Inputs(m, InputsOf(g)) == [A.Get(m, g.a), A.Get(m, g.b), A.Get(m, g.c)];
    }
  }

  /** The memory of a gate's output, put into the space. */
  lemma OutShown(c: Config, x: Block, s: Space, t: Space, m: A.Memory, g: A.Gate, from: nat)
    requires c.Valid() && Shows(c, x, s, m) && g.dst + OutBits(g) <= |s| && from + OutBits(g) <= |s|
    requires forall k {:trigger Out(g, m)[k]} | 0 <= k < OutBits(g) :: s[from + k] == Out(g, m)[k]
    requires t == CopyBits(s, OutBits(g), g.dst, from)
    ensures Shows(c, x, t, A.Step(m, g))
  {
    hide InData, A.Step, A.Get, Out, CopyBits;
    forall p: nat {:trigger t[p]} {:trigger A.Get(A.Step(m, g), p)} | p < |t| && InData(c, x, p, 1) ensures t[p] == A.Get(A.Step(m, g), p) {
      StepIs(m, g, p);
      if g.dst <= p < g.dst + OutBits(g) {
        assert s[from + (p - g.dst)] == Out(g, m)[p - g.dst];
      }
    }
  }

  lemma InputsShown(c: Config, x: Block, s: Space, m: A.Memory, inputs: seq<nat>)
    requires c.Valid() && Shows(c, x, s, m) && AllData(c, x, |s|, inputs)
    ensures InputBits(s, inputs) == A.Inputs(m, inputs)
  {
    hide InData;
    var v := InputBits(s, inputs);
    forall i | 0 <= i < |inputs| ensures v[i] == A.Get(m, inputs[i]) {
      assert DataBit(c, x, |s|, inputs[i]);
    }
  }

  /** Copies to stretches apart from the tables leave them. */
  lemma BookStays(c: Config, x: Block, book: Book, s: Space, n: nat, dst: nat, src: nat)
    requires c.Valid() && TablesLie(book, s) && Free(c, x, book, |s|, dst, n) && src + n <= |s|
    ensures TablesLie(book, CopyBits(s, n, dst, src))
  {
    hide Lies, TableBits, CopyBits;
    var u := CopyBits(s, n, dst, src);
    forall t {:trigger t in book} | t in book ensures Lies(t, book[t], u) {
      LiesStill(t, book[t], s, n, dst, src);
    }
  }

  lemma LiesStill(t: Table, base: nat, s: Space, n: nat, dst: nat, src: nat)
    requires Lies(t, base, s) && A.Apart(dst, n, base, TableBits(t)) && dst + n <= |s| && src + n <= |s|
    ensures Lies(t, base, CopyBits(s, n, dst, src))
  {
    hide EntryOf, Val, Pow2, TableBits;
    var u := CopyBits(s, n, dst, src);
    forall v: seq<bool>, k: nat {:trigger EntryLies(t, base, u, v, k)} | |v| == Arity(t) && k < Width(t) ensures EntryLies(t, base, u, v, k) {
      assert EntryLies(t, base, s, v, k);
    }
  }

  /** Where a gate reads, and that its output lies there. */
  lemma EntryThere(c: Config, x: Block, book: Book, s: Space, m: A.Memory, g: A.Gate)
    requires c.Valid() && !g.Move? && GateFits(c, x, book, |s|, g) && TablesLie(book, s) && Shows(c, x, s, m) && AllData(c, x, |s|, InputsOf(g))
    ensures var from := BaseOf(book, TableOf(g)) + Aim(s, Stride(TableOf(g)), InputsOf(g), |InputsOf(g)|);
      && InData(c, x, from, OutBits(g)) && from + OutBits(g) <= |s|
      && forall k {:trigger Out(g, m)[k]} | 0 <= k < OutBits(g) :: s[from + k] == Out(g, m)[k]
  {
    hide Val, Pow2, L.Offset, EntryOf, A.Inputs, DataBit, Free, Shows, AllData;
    var t, inputs := TableOf(g), InputsOf(g);
    InputsShown(c, x, s, m, inputs);
    AimIs(c, x, s, Stride(t), inputs);
    assert Lies(t, book[t], s);
    var v := InputBits(s, inputs);
    assert Out(g, m) == EntryOf(t, v);
    assert EntryLies(t, book[t], s, v, 0) && EntryLies(t, book[t], s, v, OutBits(g) - 1);
  }

  lemma AimIs(c: Config, x: Block, s: Space, off: nat, inputs: seq<nat>)
    requires c.Valid() && AllData(c, x, |s|, inputs)
    ensures L.Within(inputs, |s|) && Aim(s, off, inputs, |inputs|) == Pow2(off) * Val(InputBits(s, inputs), 0, |inputs|)
  {
    hide Val, Pow2, L.Offset;
    assert inputs[..|inputs|] == inputs;
    OffsetIs(s, off, inputs);
  }

  /** The state of the block's run in front of a gate. */
  ghost predicate Stands(c: Config, x: Block, book: Book, data: Space, j: nat, m: A.Memory)
    requires c.Valid()
  {
    && j <= |x.nodes| && SafeFrom(c, x, data, 0, j)
    && var s := Before(c, x, data, j);
      Fresh(c, x, s, j) && TablesLie(book, s.data) && Shows(c, x, s.data, m)
  }

  lemma GateRuns(c: Config, x: Block, book: Book, data: Space, j: nat, g: A.Gate, m: A.Memory)
    requires c.Valid() && Stands(c, x, book, data, j, m) && GateFits(c, x, book, |data|, g)
    requires var n := |GateNodes(book, g, j)|; j + n <= |x.nodes| && x.nodes[j..j + n] == GateNodes(book, g, j)
    ensures Stands(c, x, book, data, j + |GateNodes(book, g, j)|, A.Step(m, g))
  {
    hide Before, Fresh, Safe, Shows, TablesLie, A.Step, Aim, Pow2, Out, InData;
    var s, n := Before(c, x, data, j), |GateNodes(book, g, j)|;
    GateData(c, x, book, |data|, g);
    if g.Move? {
      assert x.nodes[j] == x.nodes[j..j + n][0];
      BeforeNext(c, x, data, j);
      MoveNext(c, x, s, j, g);
      BookStays(c, x, book, s.data, 1, g.dst, g.src);
      MoveOut(c, x, s.data, m, g);
      OutShown(c, x, s.data, Step(c, x, s, j).data, m, g, g.src);
    } else {
      var t, inputs := TableOf(g), InputsOf(g);
      var base, off := BaseOf(book, t), Stride(t);
      var from := base + Aim(s.data, off, inputs, |inputs|);
      EntryThere(c, x, book, s.data, m, g);
      var h := TableBase(book, s.data, t);
      LookupSize(j, g.dst, base, inputs, OutBits(g), off);
      var last := LookupRuns(c, x, data, j, g.dst, base, inputs, OutBits(g), off, h);
      BookStays(c, x, book, s.data, OutBits(g), g.dst, from);
      OutShown(c, x, s.data, Before(c, x, data, last).data, m, g, from);
    }
  }

  lemma GateData(c: Config, x: Block, book: Book, size: nat, g: A.Gate)
    requires c.Valid() && GateFits(c, x, book, size, g)
    ensures AllData(c, x, size, InputsOf(g)) && Free(c, x, book, size, g.dst, OutBits(g))
    ensures InData(c, x, g.dst, OutBits(g)) && g.dst + OutBits(g) <= size
    ensures g.Move? ==> DataBit(c, x, size, g.src)
    ensures !g.Move? ==> TableOf(g) in book && Stride(TableOf(g)) + Arity(TableOf(g)) <= c.ab && Arity(TableOf(g)) == |InputsOf(g)|
  {
    hide InData, Pow2;
    var inputs := InputsOf(g);
    forall i {:trigger inputs[i]} | 0 <= i < |inputs| ensures DataBit(c, x, size, inputs[i]) {
    }
    if g.Move? {
      assert inputs[0] == g.src;
    }
  }

  lemma MoveNext(c: Config, x: Block, s: Run, j: nat, g: A.Gate)
    requires c.Valid() && g.Move? && j < |x.nodes| && x.nodes[j] == S.Node(1, S.At(g.dst), S.At(g.src)) && Fresh(c, x, s, j)
    requires InData(c, x, g.dst, 1) && g.dst < |s.data| && DataBit(c, x, |s.data|, g.src)
    ensures Safe(c, x, s, j) && Fresh(c, x, Step(c, x, s, j), j + 1)
    ensures Step(c, x, s, j).data == CopyBits(s.data, 1, g.dst, g.src)
  {
    hide Resolve, InData;
  }

  lemma MoveOut(c: Config, x: Block, s: Space, m: A.Memory, g: A.Gate)
    requires c.Valid() && g.Move? && Shows(c, x, s, m) && DataBit(c, x, |s|, g.src)
    ensures forall k {:trigger Out(g, m)[k]} | 0 <= k < OutBits(g) :: s[g.src + k] == Out(g, m)[k]
  {
    hide InData;
  }

  lemma TableBase(book: Book, s: Space, t: Table) returns (h: nat)
    requires t in book && TablesLie(book, s)
    ensures BaseOf(book, t) == h * Pow2(Stride(t) + Arity(t))
  {
    hide Pow2, EntryOf;
    assert Lies(t, book[t], s);
    var m := TableBits(t);
    h := book[t] / m;
    assert book[t] == m * h + book[t] % m;
  }

  lemma LookupSize(first: nat, dst: nat, base: nat, inputs: seq<nat>, width: nat, off: nat)
    ensures |LookupNodes(first, dst, base, inputs, width, off)| == PatchCount(inputs, 0) + 1
  {
    IndexSize(first + PatchCount(inputs, 0), inputs, off, 0);
  }

  // ---- Blocks of gates.

  ghost predicate GatesFit(c: Config, x: Block, book: Book, size: nat, gates: seq<A.Gate>)
    requires c.Valid()
  {
    forall i {:trigger gates[i]} | 0 <= i < |gates| :: GateFits(c, x, book, size, gates[i])
  }

  lemma {:induction false} BlockRuns(c: Config, x: Block, book: Book, data: Space, gates: seq<A.Gate>, m: A.Memory)
    requires c.Valid() && GatesFit(c, x, book, |data|, gates) && TablesLie(book, data) && Shows(c, x, data, m)
    requires BlockNodes(book, gates) <= x.nodes
    ensures Stands(c, x, book, data, |BlockNodes(book, gates)|, A.Run(m, gates))
  {
    hide Stands, GateFits, TablesLie, Shows, GateNodes, A.Step;
    if gates == [] {
      BlockStarts(c, x, book, data, m);
    } else {
      var k := |gates| - 1;
      BlockRuns(c, x, book, data, gates[..k], m);
      var nodes, more := BlockNodes(book, gates[..k]), GateNodes(book, gates[k], |BlockNodes(book, gates[..k])|);
      assert BlockNodes(book, gates) == nodes + more;
      assert x.nodes[|nodes|..|nodes| + |more|] == more;
      GateRuns(c, x, book, data, |nodes|, gates[k], A.Run(m, gates[..k]));
    }
  }

  lemma BlockStarts(c: Config, x: Block, book: Book, data: Space, m: A.Memory)
    requires c.Valid() && TablesLie(book, data) && Shows(c, x, data, m)
    ensures Stands(c, x, book, data, 0, m)
  {
    hide TablesLie, Shows, NodeRow;
  }

  /** A gate's patches aim at its own read, further on. */
  predicate Forward(node: S.Node, j: nat, end: nat) {
    node.src.At? && (node.dst.Into? ==> node.dst.field == S.SrcField && j < node.dst.node < end)
  }

  lemma {:induction false} IndexForward(t: nat, inputs: seq<nat>, off: nat, at: nat, j: nat)
    requires at <= |inputs| && t == j + PatchCount(inputs, at)
    ensures forall i {:trigger IndexNodes(t, inputs, off, at)[i]} | 0 <= i < |IndexNodes(t, inputs, off, at)| ::
      Forward(IndexNodes(t, inputs, off, at)[i], j + i, t + 1)
    decreases |inputs| - at
  {
    if at < |inputs| {
      IndexSize(t, inputs, off, at);
      IndexForward(t, inputs, off, at + Together(inputs, at), j + 1);
    }
  }

  predicate AllForward(nodes: seq<S.Node>, first: nat) {
    forall i {:trigger nodes[i]} | 0 <= i < |nodes| :: Forward(nodes[i], first + i, first + |nodes|)
  }

  lemma GateForward(book: Book, g: A.Gate, first: nat)
    ensures AllForward(GateNodes(book, g, first), first)
  {
    hide IndexNodes;
    if !g.Move? {
      var inputs, off := InputsOf(g), Stride(TableOf(g));
      IndexSize(first + PatchCount(inputs, 0), inputs, off, 0);
      IndexForward(first + PatchCount(inputs, 0), inputs, off, 0, first);
    }
  }

  lemma ForwardAppend(xs: seq<S.Node>, ys: seq<S.Node>)
    requires AllForward(xs, 0) && AllForward(ys, |xs|)
    ensures AllForward(xs + ys, 0)
  {
  }

  lemma {:induction false} BlockForward(book: Book, gates: seq<A.Gate>)
    ensures AllForward(BlockNodes(book, gates), 0)
    decreases |gates|
  {
    hide GateNodes, AllForward;
    if gates == [] {
      assert AllForward([], 0) by { NoneForward(); }
    } else {
      var k := |gates| - 1;
      BlockForward(book, gates[..k]);
      GateForward(book, gates[k], |BlockNodes(book, gates[..k])|);
      ForwardAppend(BlockNodes(book, gates[..k]), GateNodes(book, gates[k], |BlockNodes(book, gates[..k])|));
    }
  }

  lemma NoneForward()
    ensures AllForward([], 0)
  {
  }

  lemma BlockWell(c: Config, x: Block, book: Book, gates: seq<A.Gate>)
    requires c.Valid() && c.LayerBits() <= x.base && x.nodes == BlockNodes(book, gates)
    ensures Well(c, x)
  {
    hide BlockNodes;
    BlockForward(book, gates);
  }

  lemma StandsSafe(c: Config, x: Block, book: Book, data: Space, m: A.Memory)
    requires c.Valid() && Stands(c, x, book, data, |x.nodes|, m)
    ensures AlwaysSafe(c, x, data)
    ensures var s := Before(c, x, data, |x.nodes|); Shows(c, x, s.data, m) && s.rows[|x.nodes|] == x.term
  {
    hide Before, TablesLie, Shows, Safe;
  }

  /** The memory that a space is. */
  function MemoryOf(s: Space): A.Memory {
    map p: nat | p < |s| :: p := s[p]
  }

  /**
   * The layers of a block of gates, run by the machine: ceil(n / 252) - 1 ticks and the slots of another one in front of the
   * link leave what the gates mean, and the terminator as it was.
   */
  lemma GatesOnMachine(c: Config, x: Block, book: Book, gates: seq<A.Gate>, u: Space) returns (v: Space, w: Space)
    requires c.Valid() && x.nodes == BlockNodes(book, gates) && Ready(c, x, u)
    requires TablesLie(book, u) && GatesFit(c, x, book, |u|, gates)
    ensures Ticked(c, u, LayerCount(|x.nodes|) - 1) == Some(v) && RunSlots(c, v, 0, P.LINK) == Some(w)
    ensures |w| == |u| && Shows(c, x, w, A.Run(MemoryOf(u), gates)) && RowAt(c, w, 0, P.LINK) == x.term
  {
    hide Before, TablesLie, GatesFit, BlockNodes, Stands, RowAt, RunSlots, Ticked, A.Run, AlwaysSafe, Well, Encoded, Holds, LayerAt, InData;
    BlockRuns(c, x, book, u, gates, MemoryOf(u));
    StandsSafe(c, x, book, u, A.Run(MemoryOf(u), gates));
    BlockWell(c, x, book, gates);
    v, w := CutBlock(c, x, u);
  }
}
