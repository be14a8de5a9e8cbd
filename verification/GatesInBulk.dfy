/**
 * Gates on the bulk machine: what the scheduler's levels need to be true of a block holds of blocks made of gates
 * whose inputs are not neighbours, if every copied bit that is overwritten later is copied back first.
 */
module GatesInBulk {
  import opened Bits
  import opened Machine
  import opened CopyEmit
  import opened Layering
  import opened Gates
  import opened Agreement
  import opened Levels
  import A = Adders
  import B = Bulk
  import S = Schedule

  /** No two inputs follow one another in the space, so every input has a copy of its own. */
  predicate Sparse(inputs: seq<nat>) {
    forall i {:trigger inputs[i]} | 0 < i < |inputs| :: inputs[i] != inputs[i - 1] + 1
  }

  function GateLength(g: A.Gate): nat {
    if g.Move? then 1 else |InputsOf(g)| + 1
  }

  /** The first node of gate i. */
  function Where(gates: seq<A.Gate>, i: nat): nat
    requires i <= |gates|
  {
    if i == 0 then 0 else Where(gates, i - 1) + GateLength(gates[i - 1])
  }

  /** Node q of a gate whose nodes begin at first. */
  function NodeOf(book: Book, g: A.Gate, first: nat, q: nat): S.Node
    requires q < GateLength(g)
  {
    if g.Move? then S.Node(1, S.At(g.dst), S.At(g.src))
    else if q < |InputsOf(g)| then S.Node(1, S.Into(first + |InputsOf(g)|, S.SrcField, Stride(TableOf(g)) + q), S.At(InputsOf(g)[q]))
    else S.Node(OutBits(g), S.At(g.dst), S.At(BaseOf(book, TableOf(g))))
  }

  /** The copies of the inputs from the given one on. */
  function OneByOne(t: nat, inputs: seq<nat>, off: nat, at: nat): (r: seq<S.Node>)
    requires at <= |inputs|
  {
    seq(|inputs| - at, q requires 0 <= q < |inputs| - at => S.Node(1, S.Into(t, S.SrcField, off + at + q), S.At(inputs[at + q])))
  }

  lemma {:induction false} SparseIndex(t: nat, inputs: seq<nat>, off: nat, at: nat)
    requires Sparse(inputs) && at <= |inputs|
    ensures PatchCount(inputs, at) == |inputs| - at && IndexNodes(t, inputs, off, at) == OneByOne(t, inputs, off, at)
    decreases |inputs| - at
  {
    hide OneByOne, Sparse;
    if at < |inputs| {
      TogetherOne(inputs, at);
      SparseIndex(t, inputs, off, at + 1);
      SinglesNext(t, inputs, off, at);
    } else {
      SinglesEnd(t, inputs, off);
    }
  }

  lemma TogetherOne(inputs: seq<nat>, at: nat)
    requires Sparse(inputs) && at < |inputs|
    ensures Together(inputs, at) == 1
  {
    if at + 1 < |inputs| {
      assert inputs[at + 1] != inputs[at] + 1;
    }
  }

  lemma SinglesNext(t: nat, inputs: seq<nat>, off: nat, at: nat)
    requires at < |inputs|
    ensures OneByOne(t, inputs, off, at) == [S.Node(1, S.Into(t, S.SrcField, off + at), S.At(inputs[at]))] + OneByOne(t, inputs, off, at + 1)
  {
  }

  lemma SinglesEnd(t: nat, inputs: seq<nat>, off: nat)
    ensures OneByOne(t, inputs, off, |inputs|) == []
  {
  }

  lemma GateNodesAre(book: Book, g: A.Gate, first: nat)
    requires Sparse(InputsOf(g))
    ensures var nodes := GateNodes(book, g, first);
      |nodes| == GateLength(g) && forall q {:trigger nodes[q]} | 0 <= q < |nodes| :: nodes[q] == NodeOf(book, g, first, q)
  {
    hide IndexNodes, Sparse;
    if !g.Move? {
      SparseIndex(first + PatchCount(InputsOf(g), 0), InputsOf(g), Stride(TableOf(g)), 0);
    }
  }

  /** A copy of a bit, or a look-up whose inputs are copied one by one. */
  predicate GateSparse(g: A.Gate) {
    Sparse(InputsOf(g)) && InputsOf(g) != [] && !g.Sum?
  }

  ghost predicate AllSparse(gates: seq<A.Gate>) {
    forall i {:trigger gates[i]} | 0 <= i < |gates| :: GateSparse(gates[i])
  }

  lemma {:induction false} WherePrefix(gates: seq<A.Gate>, n: nat, i: nat)
    requires i <= n <= |gates|
    ensures Where(gates[..n], i) == Where(gates, i)
  {
    if i > 0 {
      WherePrefix(gates, n, i - 1);
    }
  }

  /** A node of a block belongs to a gate. */
  ghost predicate Belongs(book: Book, gates: seq<A.Gate>, j: nat, node: S.Node, i: nat, q: nat) {
    i < |gates| && q < GateLength(gates[i]) && j == Where(gates, i) + q && node == NodeOf(book, gates[i], Where(gates, i), q)
  }

  /** The block without its last gate, and the nodes of that gate. */
  lemma LastGate(book: Book, gates: seq<A.Gate>)
    requires AllSparse(gates) && gates != []
    ensures var k := |gates| - 1;
      && AllSparse(gates[..k]) && Where(gates, |gates|) == Where(gates, k) + GateLength(gates[k]) && Where(gates[..k], k) == Where(gates, k)
      && BlockNodes(book, gates) == BlockNodes(book, gates[..k]) + GateNodes(book, gates[k], |BlockNodes(book, gates[..k])|)
  {
    hide GateNodes, GateLength, Sparse;
    WherePrefix(gates, |gates| - 1, |gates| - 1);
  }

  lemma {:induction false} BlockSize(book: Book, gates: seq<A.Gate>)
    requires AllSparse(gates)
    ensures |BlockNodes(book, gates)| == Where(gates, |gates|)
    decreases |gates|
  {
    hide BlockNodes, GateLength, Sparse;
    NoGates(book, gates);
    if gates != [] {
      var k := |gates| - 1;
      LastGate(book, gates);
      BlockSize(book, gates[..k]);
      GateNodesAre(book, gates[k], Where(gates, k));
    }
  }

  lemma {:induction false} NodeBelongs(book: Book, gates: seq<A.Gate>, j: nat) returns (i: nat, q: nat)
    requires AllSparse(gates) && j < |BlockNodes(book, gates)|
    ensures Belongs(book, gates, j, BlockNodes(book, gates)[j], i, q)
    decreases |gates|
  {
    hide NodeOf, BlockNodes, Where, GateLength, Sparse;
    var k := |gates| - 1;
    assert gates != [] by { NoGates(book, gates); }
    var before := BlockNodes(book, gates[..k]);
    LastGate(book, gates);
    BlockSize(book, gates[..k]);
    GateNodesAre(book, gates[k], |before|);
    if j < |before| {
      i, q := NodeBelongs(book, gates[..k], j);
      WherePrefix(gates, k, i);
    } else {
      i, q := k, j - |before|;
    }
  }

  lemma NoGates(book: Book, gates: seq<A.Gate>)
    ensures gates == [] ==> BlockNodes(book, gates) == []
  {
  }

  /** Every node of a gate is there. */
  lemma {:induction false} GateThere(book: Book, gates: seq<A.Gate>, i: nat, q: nat)
    requires AllSparse(gates) && i < |gates| && q < GateLength(gates[i])
    ensures Where(gates, i) + q < |BlockNodes(book, gates)|
    ensures BlockNodes(book, gates)[Where(gates, i) + q] == NodeOf(book, gates[i], Where(gates, i), q)
    decreases |gates|
  {
    hide NodeOf, BlockNodes, Where, GateLength, Sparse;
    var k := |gates| - 1;
    LastGate(book, gates);
    BlockSize(book, gates[..k]);
    WherePrefix(gates, k, i);
    if i < k {
      GateThere(book, gates[..k], i, q);
    } else {
      GateNodesAre(book, gates[k], Where(gates, k));
    }
  }

  lemma {:induction false} WhereGrows(gates: seq<A.Gate>, i: nat, j: nat)
    requires i < j <= |gates|
    ensures Where(gates, i) + GateLength(gates[i]) <= Where(gates, j)
    decreases j
  {
    if i < j - 1 {
      WhereGrows(gates, i, j - 1);
    }
  }

  /** A gate is where its nodes are. */
  lemma OneGate(gates: seq<A.Gate>, i: nat, q: nat, i': nat, q': nat)
    requires i < |gates| && i' < |gates| && q < GateLength(gates[i]) && q' < GateLength(gates[i'])
    ensures Where(gates, i) + q == Where(gates, i') + q' ==> i == i' && q == q'
    ensures Where(gates, i) + q < Where(gates, i') + q' ==> i <= i'
  {
    if i < i' {
      WhereGrows(gates, i, i');
    } else if i' < i {
      WhereGrows(gates, i', i);
    }
  }

  /** Gates write one bit outside the tables, and their tables are aligned. */
  ghost predicate Aside(book: Book, gates: seq<A.Gate>) {
    forall i {:trigger gates[i]} | 0 <= i < |gates| ::
      && (forall t {:trigger t in book} | t in book :: A.Apart(gates[i].dst, 1, book[t], TableBits(t)))
      && (!gates[i].Move? ==> TableOf(gates[i]) in book && book[TableOf(gates[i])] % TableBits(TableOf(gates[i])) == 0)
  }

  /** A copy that patches belongs to a look-up, and patches one bit of the source of its read. */
  lemma PatchBelongs(book: Book, gates: seq<A.Gate>, j: nat) returns (i: nat, q: nat)
    requires AllSparse(gates) && j < |BlockNodes(book, gates)| && BlockNodes(book, gates)[j].dst.Into?
    ensures Belongs(book, gates, j, BlockNodes(book, gates)[j], i, q) && gates[i].Look? && q < |gates[i].inputs|
  {
    hide BlockNodes, Where, Sparse;
    i, q := NodeBelongs(book, gates, j);
  }

  /** The look-up whose read is node j. */
  ghost predicate ReadOf(gates: seq<A.Gate>, j: nat, i: nat) {
    i < |gates| && gates[i].Look? && j == Where(gates, i) + |gates[i].inputs|
  }

  /** What is patched is the read of a look-up. */
  lemma PatchedReads(book: Book, gates: seq<A.Gate>, j: nat) returns (i: nat)
    requires AllSparse(gates) && j < |BlockNodes(book, gates)| && IsPatched(BlockNodes(book, gates), j)
    ensures ReadOf(gates, j, i)
  {
    hide BlockNodes, Where, Sparse;
    var nodes := BlockNodes(book, gates);
    var k :| 0 <= k < |nodes| && S.Patches(nodes[k], j);
    var q;
    i, q := PatchBelongs(book, gates, k);
  }

  lemma ReadNode(book: Book, gates: seq<A.Gate>, j: nat, i: nat)
    requires AllSparse(gates) && ReadOf(gates, j, i)
    ensures j < |BlockNodes(book, gates)|
    ensures BlockNodes(book, gates)[j] == S.Node(1, S.At(gates[i].dst), S.At(BaseOf(book, TableOf(gates[i]))))
  {
    hide BlockNodes, Where, Sparse;
    GateThere(book, gates, i, |gates[i].inputs|);
  }

  /** No more than the index bits of a read are patched. */
  lemma {:induction false} ReadSlack(book: Book, gates: seq<A.Gate>, j: nat, i: nat, f: S.FieldName, k: nat)
    requires AllSparse(gates) && ReadOf(gates, j, i) && k <= |BlockNodes(book, gates)|
    ensures Slack(BlockNodes(book, gates), j, f, k) <= if f == S.SrcField then |gates[i].inputs| else 0
  {
    hide BlockNodes, Where, Sparse;
    if k > 0 {
      ReadSlack(book, gates, j, i, f, k - 1);
      var x := BlockNodes(book, gates)[k - 1];
      if x.dst.Into? && x.dst.node == j && x.dst.field == f {
        var i', q := PatchBelongs(book, gates, k - 1);
        OneGate(gates, i, |gates[i].inputs|, i', |gates[i'].inputs|);
      }
    }
  }

  /** A node writes what its row says. */
  lemma MayWriteIs(book: Book, gates: seq<A.Gate>, j: nat, p: nat)
    requires AllSparse(gates) && j < |BlockNodes(book, gates)| && MayWrite(BlockNodes(book, gates), j, p)
    ensures BlockNodes(book, gates)[j].dst == S.At(p) && S.WritesAt(BlockNodes(book, gates)[j], p)
  {
    hide BlockNodes, Where, Sparse, IsPatched;
    var nodes := BlockNodes(book, gates);
    if IsPatched(nodes, j) {
      var i := PatchedReads(book, gates, j);
      ReadNode(book, gates, j, i);
      ReadSlack(book, gates, j, i, S.DstField, |nodes|);
      ReadSlack(book, gates, j, i, S.CountField, |nodes|);
      AsWritten(nodes, j, nodes[j].dst, S.DstField, p);
    } else {
      hide MayWrite;
      TouchesAsWritten(nodes, j, p);
      OneBit(book, gates, j);
    }
  }

  lemma OneBit(book: Book, gates: seq<A.Gate>, j: nat)
    requires AllSparse(gates) && j < |BlockNodes(book, gates)|
    ensures BlockNodes(book, gates)[j].n == 1 && BlockNodes(book, gates)[j].src.At?
  {
    hide BlockNodes, Where, Sparse;
    var i, q := NodeBelongs(book, gates, j);
  }

  lemma AsWritten(nodes: seq<S.Node>, j: nat, place: S.Target, f: S.FieldName, p: nat)
    requires j < |nodes| && nodes[j].n == 1 && Slack(nodes, j, f, |nodes|) == 0 && Slack(nodes, j, S.CountField, |nodes|) == 0
    requires MayTouch(nodes, j, place, f, p)
    ensures place == S.At(p)
  {
    hide Slack, Near;
    var at: nat, n: nat :| Within(nodes, j, place.pos, f, at, n) && at <= p < at + n;
    NearZero(place.pos, at);
    NearZero(nodes[j].n, n);
  }

  ghost predicate InSomeTable(book: Book, p: nat) {
    exists t {:trigger t in book} :: t in book && A.Inside(p, book[t], TableBits(t))
  }

  /** A node reads what its row says, or a bit of its table. */
  lemma MayReadIs(book: Book, gates: seq<A.Gate>, j: nat, p: nat)
    requires AllSparse(gates) && Aside(book, gates) && j < |BlockNodes(book, gates)| && MayRead(BlockNodes(book, gates), j, p)
    ensures (S.ReadsAt(BlockNodes(book, gates)[j], p) && !IsPatched(BlockNodes(book, gates), j)) || InSomeTable(book, p)
  {
    hide BlockNodes, Where, Sparse, IsPatched;
    var nodes := BlockNodes(book, gates);
    if IsPatched(nodes, j) {
      var i := PatchedReads(book, gates, j);
      var t := TableOf(gates[i]);
      ReadNode(book, gates, j, i);
      ReadSlack(book, gates, j, i, S.SrcField, |nodes|);
      ReadSlack(book, gates, j, i, S.CountField, |nodes|);
      assert t in book && book[t] % TableBits(t) == 0;
      InTable(nodes, j, book[t], |gates[i].inputs|, p);
    } else {
      hide MayRead;
      TouchesAsWritten(nodes, j, p);
    }
  }

  lemma InTable(nodes: seq<S.Node>, j: nat, base: nat, k: nat, p: nat)
    requires j < |nodes| && nodes[j].n == 1 && nodes[j].src == S.At(base) && base % Pow2(k) == 0
    requires Slack(nodes, j, S.SrcField, |nodes|) <= k && Slack(nodes, j, S.CountField, |nodes|) == 0 && MayRead(nodes, j, p)
    ensures base <= p < base + Pow2(k)
  {
    hide Slack, Near, Pow2;
    var at: nat, n: nat :| Within(nodes, j, base, S.SrcField, at, n) && at <= p < at + n;
    NearZero(nodes[j].n, n);
    NearMultiple(base, Slack(nodes, j, S.SrcField, |nodes|), at, k);
  }

  /** Numbers that differ in low bits of a multiple of 2^k stay between it and the next. */
  lemma NearMultiple(base: nat, w: nat, at: nat, k: nat)
    requires Near(base, w, at) && w <= k && base % Pow2(k) == 0
    ensures base <= at < base + Pow2(k)
  {
    hide Pow2;
    var m, d := Pow2(w), Pow2(k - w);
    Pow2Add(w, k - w);
    var h := base / Pow2(k);
    assert base == Pow2(k) * h;
    MulAssoc(m, d, h);
    DivModUnique(m, d * h, 0);
    InMultiple(m, d, h, at);
  }

  lemma InMultiple(m: nat, d: nat, h: nat, at: nat)
    requires m > 0 && d > 0 && at / m == d * h
    ensures m * (d * h) <= at < m * (d * h) + m * d
  {
    assert at == m * (at / m) + at % m;
    MulMonotone(m, 0, d);
  }

  // ---- What the scheduler needs.

  lemma PlainGates(book: Book, gates: seq<A.Gate>)
    requires AllSparse(gates)
    ensures PlainPatches(BlockNodes(book, gates))
  {
    hide BlockNodes, Where, Sparse, IsPatched, AllSparse;
    var ops := BlockNodes(book, gates);
    forall i {:trigger ops[i]} | 0 <= i < |ops| && ops[i].dst.Into? ensures i < ops[i].dst.node && !IsPatched(ops, i) {
      var g, q := PatchBelongs(book, gates, i);
      if IsPatched(ops, i) {
        var g' := PatchedReads(book, gates, i);
        OneGate(gates, g, q, g', |gates[g'].inputs|);
        assert false;
      }
    }
    forall i, j | 0 <= i < j < |ops| ensures Clear(ops[i].dst, ops[i].n, ops[j].dst, ops[j].n) {
      if ops[i].dst.Into? && ops[j].dst.Into? {
        var g, q := PatchBelongs(book, gates, i);
        var g', q' := PatchBelongs(book, gates, j);
        OneGate(gates, g, |gates[g].inputs|, g', |gates[g'].inputs|);
      }
    }
    forall j | 0 <= j < |ops| ensures ops[j].src.At? {
      OneBit(book, gates, j);
    }
  }

  lemma OutsideTables(book: Book, gates: seq<A.Gate>, j: nat, p: nat)
    requires AllSparse(gates) && Aside(book, gates) && j < |BlockNodes(book, gates)| && BlockNodes(book, gates)[j].dst == S.At(p)
    ensures !InSomeTable(book, p)
  {
    hide BlockNodes, Where, Sparse, AllSparse, TableBits;
    var i, q := NodeBelongs(book, gates, j);
    assert gates[i].dst == p;
  }

  lemma ForeseenGates(book: Book, gates: seq<A.Gate>)
    requires AllSparse(gates) && Aside(book, gates)
    ensures Foreseen(BlockNodes(book, gates))
  {
    hide BlockNodes, Where, Sparse, IsPatched, AllSparse, Aside, MayWrite, MayRead, S.WritesAt, S.ReadsAt, InSomeTable;
    var ops := BlockNodes(book, gates);
    forall i, j, p: nat {:trigger MayWrite(ops, i, p), MayRead(ops, j, p)} {:trigger MayWrite(ops, i, p), MayWrite(ops, j, p)} |
      0 <= i < j < |ops| && (IsPatched(ops, i) || IsPatched(ops, j)) && MayWrite(ops, i, p)
      ensures (MayRead(ops, j, p) ==> S.WritesAt(ops[i], p) && S.ReadsAt(ops[j], p)) && (MayWrite(ops, j, p) ==> S.WritesAt(ops[i], p) && S.WritesAt(ops[j], p))
    {
      MayWriteIs(book, gates, i, p);
      OutsideTables(book, gates, i, p);
      if MayRead(ops, j, p) { MayReadIs(book, gates, j, p); }
      if MayWrite(ops, j, p) { MayWriteIs(book, gates, j, p); }
    }
  }

  /** A bit that gate i copies away is copied back by a gate no later than j. */
  ghost predicate Back(gates: seq<A.Gate>, i: nat, j: nat)
    requires i < |gates| && j < |gates| && gates[i].Move?
  {
    exists k :: i < k <= j && gates[k] == A.Move(gates[i].src, gates[i].dst)
  }

  /** Whatever is copied and overwritten later is first copied back. */
  ghost predicate CopiedBack(gates: seq<A.Gate>) {
    forall i, j {:trigger gates[i].src, gates[j].dst} | 0 <= i < j < |gates| && gates[i].Move? && gates[j].dst == gates[i].src :: Back(gates, i, j)
  }

  lemma MoveThere(book: Book, gates: seq<A.Gate>, k: nat)
    requires AllSparse(gates) && k < |gates| && gates[k].Move?
    ensures Where(gates, k) < |BlockNodes(book, gates)| && BlockNodes(book, gates)[Where(gates, k)] == S.Node(1, S.At(gates[k].dst), S.At(gates[k].src))
  {
    hide BlockNodes, Where, AllSparse;
    GateThere(book, gates, k, 0);
  }

  /** The copy back comes a tick behind the copy, and a later write of the bit behind that. */
  lemma MoveFirst(book: Book, gates: seq<A.Gate>, levels: seq<nat>, i: nat, j: nat, g: nat, h: nat, q: nat)
    requires AllSparse(gates) && CopiedBack(gates) && g < |gates| && h < |gates| && q < GateLength(gates[h])
    requires |levels| == |BlockNodes(book, gates)| && S.Ordered(BlockNodes(book, gates), levels, |levels|)
    requires i < j < |levels| && i == Where(gates, g) && gates[g].Move? && j == Where(gates, h) + q
    requires BlockNodes(book, gates)[j].dst == S.At(gates[g].src) && gates[h].dst == gates[g].src
    ensures levels[i] <= levels[j]
  {
    hide BlockNodes, Where, AllSparse, S.Ordered, CopiedBack;
    OneGate(gates, g, 0, h, q);
    if g == h {
      WhereSame(gates, g, q);
      assert false;
    }
    var k := BackAt(gates, g, h);
    var b := Where(gates, k);
    MoveThere(book, gates, g);
    MoveThere(book, gates, k);
    WhereGrows(gates, g, k);
    Behind(BlockNodes(book, gates), levels, i, b, gates[g].dst);
    OneBit(book, gates, j);
    if k < h {
      WhereGrows(gates, k, h);
      BehindWrite(BlockNodes(book, gates), levels, b, j, gates[g].src);
    } else {
      WhereSame(gates, h, q);
    }
  }

  lemma BackAt(gates: seq<A.Gate>, i: nat, j: nat) returns (k: nat)
    requires CopiedBack(gates) && i < j < |gates| && gates[i].Move? && gates[j].dst == gates[i].src
    ensures i < k <= j && gates[k] == A.Move(gates[i].src, gates[i].dst)
  {
    assert Back(gates, i, j);
    k :| i < k <= j && gates[k] == A.Move(gates[i].src, gates[i].dst);
  }

  lemma WhereSame(gates: seq<A.Gate>, g: nat, q: nat)
    requires g < |gates| && gates[g].Move? && q < GateLength(gates[g])
    ensures q == 0
  {
  }

  lemma Behind(ops: seq<S.Node>, levels: seq<nat>, i: nat, j: nat, p: nat)
    requires |levels| == |ops| && S.Ordered(ops, levels, |ops|) && i < j < |ops| && S.WritesAt(ops[i], p) && S.ReadsAt(ops[j], p)
    ensures levels[i] < levels[j]
  {
    assert S.Delay(ops, i, j) > 0;
  }

  lemma BehindWrite(ops: seq<S.Node>, levels: seq<nat>, i: nat, j: nat, p: nat)
    requires |levels| == |ops| && S.Ordered(ops, levels, |ops|) && i < j < |ops| && S.WritesAt(ops[i], p) && S.WritesAt(ops[j], p)
    ensures levels[i] < levels[j]
  {
    assert S.Delay(ops, i, j) > 0;
  }

  lemma ReadsFirstGates(book: Book, gates: seq<A.Gate>, levels: seq<nat>)
    requires AllSparse(gates) && Aside(book, gates) && CopiedBack(gates)
    requires var ops := BlockNodes(book, gates); |levels| == |ops| && S.Ordered(ops, levels, |ops|)
    ensures ReadsFirst(BlockNodes(book, gates), levels)
  {
    hide BlockNodes, Where, Sparse, IsPatched, AllSparse, Aside, MayWrite, MayRead, InSomeTable, CopiedBack, S.Ordered;
    var ops := BlockNodes(book, gates);
    forall i, j, p: nat {:trigger MayRead(ops, i, p), MayWrite(ops, j, p)} |
      0 <= i < j < |ops| && MayRead(ops, i, p) && MayWrite(ops, j, p) && !(S.LoneRead(ops, i) && S.WritesAt(ops[j], p)) ensures levels[i] <= levels[j]
    {
      MayWriteIs(book, gates, j, p);
      OutsideTables(book, gates, j, p);
      MayReadIs(book, gates, i, p);
      var g, q := NodeBelongs(book, gates, i);
      var h, r := NodeBelongs(book, gates, j);
      MoveOrLone(book, gates, i, g, q);
      MoveFirst(book, gates, levels, i, j, g, h, r);
    }
  }

  /** An unpatched node is a plain copy of a bit, or a lone read that patches. */
  lemma MoveOrLone(book: Book, gates: seq<A.Gate>, i: nat, g: nat, q: nat)
    requires AllSparse(gates) && i < |BlockNodes(book, gates)| && !IsPatched(BlockNodes(book, gates), i)
    requires Belongs(book, gates, i, BlockNodes(book, gates)[i], g, q) && !S.LoneRead(BlockNodes(book, gates), i)
    ensures gates[g].Move? && q == 0 && BlockNodes(book, gates)[i].src == S.At(gates[g].src)
  {
    hide BlockNodes, Where, Sparse;
    if gates[g].Look? && q == |gates[g].inputs| {
      GateThere(book, gates, g, 0);
      assert false;
    }
  }

  // ---- The block in bulk.

  /** The data of the bulk machine as a space. */
  function DataSpace(m: B.Memory, size: nat): (s: Space)
    ensures |s| == size
  {
    seq(size, p requires 0 <= p < size => B.Read(m, B.Data(p)))
  }

  /** Levels as the scheduler gives them. */
  ghost predicate Levelled(ops: seq<S.Node>, levels: seq<nat>, last: nat) {
    && |levels| == |ops| && S.Ordered(ops, levels, |ops|) && S.Tight(ops, levels, |ops|)
    && (S.Reached(levels, |ops|, last) || S.TermLevel(ops, levels, last))
  }

  lemma GatesAside(c: Config, x: Layering.Block, book: Book, u: Space, gates: seq<A.Gate>)
    requires c.Valid() && AllSparse(gates) && TablesLie(book, u) && GatesFit(c, x, book, |u|, gates)
    ensures Aside(book, gates)
  {
    hide InData, Pow2, EntryOf, Sparse, EntryLies;
    forall i {:trigger gates[i]} | 0 <= i < |gates|
      ensures forall t {:trigger t in book} | t in book :: A.Apart(gates[i].dst, 1, book[t], TableBits(t))
      ensures !gates[i].Move? ==> TableOf(gates[i]) in book && book[TableOf(gates[i])] % TableBits(TableOf(gates[i])) == 0
    {
      var g := gates[i];
      GateData(c, x, book, |u|, g);
      if !g.Move? {
        assert Lies(TableOf(g), book[TableOf(g)], u);
      }
    }
  }

  /** The scheduler's levels are all that a block of such gates needs. */
  lemma GatesSchedulable(c: Config, x: Layering.Block, book: Book, gates: seq<A.Gate>, u: Space, levels: seq<nat>, last: nat)
    requires c.Valid() && x.nodes == BlockNodes(book, gates) && Levelled(x.nodes, levels, last)
    requires TablesLie(book, u) && GatesFit(c, x, book, |u|, gates) && AllSparse(gates) && CopiedBack(gates)
    ensures Schedulable(x.nodes, levels, last)
  {
    hide TablesLie, GatesFit, BlockNodes, InData, AllSparse, CopiedBack, Aside, S.Ordered, S.Tight, S.Reached, S.TermLevel, PlainPatches, Foreseen, ReadsFirst;
    GatesAside(c, x, book, u, gates);
    PlainGates(book, gates);
    ForeseenGates(book, gates);
    ReadsFirstGates(book, gates, levels);
  }

  /** A block of gates, scheduled and run by the bulk machine, leaves what the gates mean. */
  lemma RunsInBulk(c: Config, x: Layering.Block, book: Book, gates: seq<A.Gate>, u: Space, m: B.Memory, levels: seq<nat>, last: nat)
    requires c.Valid() && c.LayerBits() <= x.base && x.nodes == BlockNodes(book, gates)
    requires TablesLie(book, u) && GatesFit(c, x, book, |u|, gates) && AllSparse(gates) && CopiedBack(gates)
    requires Homed(c, x, u, m) && Levelled(x.nodes, levels, last)
    ensures Shows(c, x, DataSpace(B.After(BulkBlock(c, x), m, levels, last), |u|), A.Run(MemoryOf(u), gates))
  {
    hide Before, TablesLie, GatesFit, BlockNodes, Stands, A.Run, AlwaysSafe, Well, InData, Homed, AllSparse, CopiedBack, Aside, B.After, B.State, B.Read,
      S.Ordered, S.Tight, S.Reached, S.TermLevel, PlainPatches, Foreseen, ReadsFirst, Initial;
    var n, y := |x.nodes|, BulkBlock(c, x);
    BlockRuns(c, x, book, u, gates, MemoryOf(u));
    StandsSafe(c, x, book, u, A.Run(MemoryOf(u), gates));
    BlockWell(c, x, book, gates);
    HomedAlike(c, x, u, m);
    InitialOf(c, x, u, m);
    SameRun(c, x, u, m, n);
    GatesSchedulable(c, x, book, gates, u, levels, last);
    var end, after := Before(c, x, u, n), B.After(y, m, levels, last);
    forall p: nat {:trigger B.Data(p)} | p < |u| ensures B.Read(after, B.Data(p)) == end.data[p] {
      ScheduledBlock(y, m, levels, last, B.Data(p));
    }
    assert DataSpace(after, |u|) == end.data;
  }
}
