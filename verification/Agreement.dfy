/**
 * One block, two machines: the layers that the ordinary machine runs slot by slot, and the ticks of the bulk machine.
 * Both mean the nodes in their order, so they leave the same data.
 */
module Agreement {
  import opened Bits
  import opened Machine
  import opened CopyEmit
  import opened Layering
  import P = Layers
  import S = Schedule
  import B = Bulk
  import V = Levels

  function FieldOf(row: Row, f: S.FieldName): nat {
    match f
    case CountField => row.n
    case DstField => row.dst
    case SrcField => row.src
  }

  /** The block as the bulk machine takes it. */
  function BulkBlock(c: Config, x: Block): B.Block {
    B.Block(x.nodes, c.ab)
  }

  /** The field of a row lies in its home. Where a patch goes is not a matter of its row. */
  ghost predicate FieldHome(c: Config, x: Block, rows: seq<Row>, m: B.Memory, j: nat, f: S.FieldName)
    requires c.Valid() && j <= |x.nodes| && |rows| == |x.nodes| + 1
  {
    (f == S.DstField && j < |x.nodes| ==> x.nodes[j].dst.At?) ==> B.Number(m, j, f, FieldBits(c, f)) == FieldOf(rows[j], f)
  }

  /** Data and rows of the run one after another, and of the bulk machine's memory. */
  ghost predicate Alike(c: Config, x: Block, s: Run, m: B.Memory)
    requires c.Valid() && |s.rows| == |x.nodes| + 1
  {
    && (forall p: nat {:trigger s.data[p]} {:trigger B.Data(p)} | p < |s.data| :: B.Read(m, B.Data(p)) == s.data[p])
    && forall j: nat, f {:trigger FieldHome(c, x, s.rows, m, j, f)} | j <= |x.nodes| :: FieldHome(c, x, s.rows, m, j, f)
  }

  /** Some bits of a field as they lie in their home. */
  function HomeBits(m: B.Memory, j: nat, f: S.FieldName, w: nat): (s: Space)
    ensures |s| == w
  {
    seq(w, k requires 0 <= k < w => B.Read(m, B.Home(j, f, k)))
  }

  lemma {:induction false} NumberIs(m: B.Memory, j: nat, f: S.FieldName, w: nat)
    ensures B.Number(m, j, f, w) == Val(HomeBits(m, j, f, w), 0, w)
  {
    hide Val, Pow2;
    if w == 0 {
      EmptyVal(HomeBits(m, j, f, 0));
    } else {
      NumberIs(m, j, f, w - 1);
      ValSnoc(HomeBits(m, j, f, w), 0, w - 1);
      ValFrame(HomeBits(m, j, f, w), HomeBits(m, j, f, w - 1), 0, w - 1);
    }
  }

  lemma EmptyVal(s: Space)
    ensures Val(s, 0, 0) == 0
  {
  }

  /** Bits put into a home change the number as they change the field of a row. */
  lemma HomePut(m: B.Memory, t: B.Memory, j: nat, f: S.FieldName, w: nat, off: nat, n: nat, data: Space, src: nat)
    requires off + n <= w && src + n <= |data|
    requires forall k: nat {:trigger B.Home(j, f, k)} | k < w ::
      B.Read(t, B.Home(j, f, k)) == if off <= k < off + n then data[src + (k - off)] else B.Read(m, B.Home(j, f, k))
    ensures B.Number(t, j, f, w) == Replace(B.Number(m, j, f, w), off, n, Val(data, src, n))
  {
    hide Val, Replace;
    NumberIs(m, j, f, w);
    NumberIs(t, j, f, w);
    var a, b := HomeBits(m, j, f, w), HomeBits(t, j, f, w);
    forall p {:trigger b[p]} | 0 <= p < w ensures b[p] == if off <= p < off + n then data[src + (p - off)] else a[p] {
      assert B.Read(t, B.Home(j, f, p)) == b[p];
    }
    ValReplace(a, b, 0, w, off, n);
    ValMove(data, src, b, off, n);
  }

  /** What a node writes in bulk: its n bits, one by one. */
  lemma EffectBits(y: B.Block, m: B.Memory, rows: B.Memory, data: B.Memory, j: nat)
    requires j < |y.ops|
    ensures var t, n := m + B.Effect(y, rows, data, j), B.Count(y, rows, j);
      && (forall k: nat {:trigger B.Dest(y, rows, j, k)} | k < n :: B.Read(t, B.Dest(y, rows, j, k)) == B.Read(data, B.Origin(y, rows, j, k)))
      && forall at {:trigger B.Read(t, at)} | (forall k: nat | k < n :: at != B.Dest(y, rows, j, k)) :: B.Read(t, at) == B.Read(m, at)
  {
    hide B.Dest, B.Origin;
    B.FirstBitsAre(y, rows, data, j, B.Count(y, rows, j));
  }

  /** The row of a node that is about to be executed, from its home. */
  lemma RowAlike(c: Config, x: Block, s: Run, m: B.Memory, j: nat)
    requires c.Valid() && |s.rows| == |x.nodes| + 1 && Alike(c, x, s, m) && j < |x.nodes| && x.nodes[j].src.At?
    ensures var y := BulkBlock(c, x);
      && B.Count(y, m, j) == s.rows[j].n && B.Source(y, m, j) == s.rows[j].src
      && (x.nodes[j].dst.At? ==> B.Number(m, j, S.DstField, c.ab) == s.rows[j].dst)
  {
    assert FieldHome(c, x, s.rows, m, j, S.CountField) && FieldHome(c, x, s.rows, m, j, S.SrcField) && FieldHome(c, x, s.rows, m, j, S.DstField);
  }

  lemma CopyAlike(c: Config, x: Block, s: Run, m: B.Memory, j: nat)
    requires c.Valid() && |s.rows| == |x.nodes| + 1 && Alike(c, x, s, m) && j < |x.nodes| && x.nodes[j].src.At? && x.nodes[j].dst.At?
    requires s.rows[j].dst + s.rows[j].n <= |s.data| && s.rows[j].src + s.rows[j].n <= |s.data|
    ensures Alike(c, x, s.(data := CopyBits(s.data, s.rows[j].n, s.rows[j].dst, s.rows[j].src)), m + B.Effect(BulkBlock(c, x), m, m, j))
  {
    hide B.Effect, B.Number;
    var y, row := BulkBlock(c, x), s.rows[j];
    var t, data := m + B.Effect(y, m, m, j), CopyBits(s.data, row.n, row.dst, row.src);
    RowAlike(c, x, s, m, j);
    EffectBits(y, m, m, m, j);
    hide B.Read, CopyBits, B.Source, B.Count;
    forall p: nat {:trigger data[p]} {:trigger B.Data(p)} | p < |data| ensures B.Read(t, B.Data(p)) == data[p] {
      if row.dst <= p < row.dst + row.n {
        var k := p - row.dst;
        assert B.Dest(y, m, j, k) == B.Data(p) && B.Origin(y, m, j, k) == B.Data(row.src + k);
      }
    }
    forall i: nat, f {:trigger FieldHome(c, x, s.rows, t, i, f)} | i <= |x.nodes| ensures FieldHome(c, x, s.rows, t, i, f) {
      assert FieldHome(c, x, s.rows, m, i, f);
      B.NumberSame(m, t, i, f, FieldBits(c, f));
    }
  }

  lemma PatchAlike(c: Config, x: Block, s: Run, m: B.Memory, j: nat)
    requires c.Valid() && |s.rows| == |x.nodes| + 1 && Alike(c, x, s, m) && j < |x.nodes| && x.nodes[j].src.At? && x.nodes[j].dst.Into?
    requires var d := x.nodes[j].dst; d.node <= |x.nodes| && d.off + s.rows[j].n <= FieldBits(c, d.field)
    requires var d := x.nodes[j].dst; d.field == S.DstField && d.node < |x.nodes| ==> x.nodes[d.node].dst.At?
    requires s.rows[j].src + s.rows[j].n <= |s.data|
    ensures var d, row := x.nodes[j].dst, s.rows[j];
      Alike(c, x, s.(rows := s.rows[d.node := SetField(s.rows[d.node], d.field, d.off, row.n, Val(s.data, row.src, row.n))]),
            m + B.Effect(BulkBlock(c, x), m, m, j))
  {
    hide B.Effect, B.Number, Val, Replace;
    var y, row, d := BulkBlock(c, x), s.rows[j], x.nodes[j].dst;
    var t := m + B.Effect(y, m, m, j);
    var rows := s.rows[d.node := SetField(s.rows[d.node], d.field, d.off, row.n, Val(s.data, row.src, row.n))];
    RowAlike(c, x, s, m, j);
    EffectBits(y, m, m, m, j);
    PatchBits(c, x, s, m, t, j);
    hide B.Read, B.Source, B.Count, B.Dest, B.Origin;
    forall i: nat, f {:trigger FieldHome(c, x, rows, t, i, f)} | i <= |x.nodes| ensures FieldHome(c, x, rows, t, i, f) {
      assert FieldHome(c, x, s.rows, m, i, f);
      if i == d.node && f == d.field {
        HomePut(m, t, i, f, FieldBits(c, f), d.off, row.n, s.data, row.src);
      } else {
        B.NumberSame(m, t, i, f, FieldBits(c, f));
      }
    }
  }

  lemma PatchBits(c: Config, x: Block, s: Run, m: B.Memory, t: B.Memory, j: nat)
    requires c.Valid() && |s.rows| == |x.nodes| + 1 && Alike(c, x, s, m) && j < |x.nodes| && x.nodes[j].src.At? && x.nodes[j].dst.Into?
    requires s.rows[j].src + s.rows[j].n <= |s.data| && t == m + B.Effect(BulkBlock(c, x), m, m, j)
    ensures var d, row := x.nodes[j].dst, s.rows[j];
      && (forall p: nat {:trigger B.Data(p)} :: B.Read(t, B.Data(p)) == B.Read(m, B.Data(p)))
      && forall i: nat, f, k: nat {:trigger B.Home(i, f, k)} :: B.Read(t, B.Home(i, f, k)) ==
           if i == d.node && f == d.field && d.off <= k < d.off + row.n then s.data[row.src + (k - d.off)] else B.Read(m, B.Home(i, f, k))
  {
    hide B.Effect, B.Number;
    var y, row, d := BulkBlock(c, x), s.rows[j], x.nodes[j].dst;
    RowAlike(c, x, s, m, j);
    EffectBits(y, m, m, m, j);
    hide B.Read, B.Source, B.Count;
    forall i: nat, f, k: nat {:trigger B.Home(i, f, k)} ensures B.Read(t, B.Home(i, f, k)) ==
      if i == d.node && f == d.field && d.off <= k < d.off + row.n then s.data[row.src + (k - d.off)] else B.Read(m, B.Home(i, f, k))
    {
      if i == d.node && f == d.field && d.off <= k < d.off + row.n {
        assert B.Dest(y, m, j, k - d.off) == B.Home(i, f, k) && B.Origin(y, m, j, k - d.off) == B.Data(row.src + (k - d.off));
      }
    }
  }

  /** A copy of no bits does nothing on either machine. */
  lemma NothingAlike(c: Config, x: Block, s: Run, m: B.Memory, j: nat)
    requires c.Valid() && |s.rows| == |x.nodes| + 1 && Alike(c, x, s, m) && j < |x.nodes| && x.nodes[j].src.At? && s.rows[j].n == 0
    ensures Alike(c, x, s, m + B.Effect(BulkBlock(c, x), m, m, j))
  {
    hide B.Number;
    RowAlike(c, x, s, m, j);
    assert B.Effect(BulkBlock(c, x), m, m, j) == map[];
    assert m + map[] == m;
  }

  /** The nodes in their order leave the same data and the same rows on both machines. */
  lemma {:induction false} SameRun(c: Config, x: Block, u: Space, m: B.Memory, k: nat)
    requires c.Valid() && Well(c, x) && AlwaysSafe(c, x, u) && k <= |x.nodes|
    requires Alike(c, x, Before(c, x, u, 0), m)
    ensures Alike(c, x, Before(c, x, u, k), B.State(BulkBlock(c, x), m, k))
    decreases k
  {
    hide Before, Alike, AlwaysSafe, Val, SetField, B.Effect, CopyBits;
    if k > 0 {
      var j := k - 1;
      SameRun(c, x, u, m, j);
      SafeHere(c, x, u, j);
      BeforeNext(c, x, u, j);
      var s, n := Before(c, x, u, j), B.State(BulkBlock(c, x), m, j);
      assert x.nodes[j].src.At?;
      if s.rows[j].n == 0 {
        NothingAlike(c, x, s, n, j);
      } else if x.nodes[j].dst.At? {
        CopyAlike(c, x, s, n, j);
      } else {
        PatchAlike(c, x, s, n, j);
      }
    }
  }

  /** The bulk machine's memory holds the data of the space, and the block's rows in their homes. */
  ghost predicate Homed(c: Config, x: Block, u: Space, m: B.Memory)
    requires c.Valid()
  {
    && (forall p: nat {:trigger u[p]} {:trigger B.Data(p)} | p < |u| :: B.Read(m, B.Data(p)) == u[p])
    && V.Initial(BulkBlock(c, x), m)
    && forall f {:trigger FieldBits(c, f)} :: B.Number(m, |x.nodes|, f, FieldBits(c, f)) == FieldOf(x.term, f)
  }

  lemma HomedAlike(c: Config, x: Block, u: Space, m: B.Memory)
    requires c.Valid() && Well(c, x) && Homed(c, x, u, m)
    ensures Alike(c, x, Before(c, x, u, 0), m)
  {
    hide B.Number, B.Read, Resolve;
    var rows := Before(c, x, u, 0).rows;
    forall j: nat, f {:trigger FieldHome(c, x, rows, m, j, f)} | j <= |x.nodes| ensures FieldHome(c, x, rows, m, j, f) {
      if j < |x.nodes| {
        assert x.nodes[j].src.At? && BulkBlock(c, x).ops[j] == x.nodes[j];
      }
      assert FieldBits(c, f) == FieldBits(c, f);
    }
  }

  /** What the scheduler's levels ask of a block, over and above being levelled (Levels.ScheduledBlock). */
  ghost predicate Schedulable(ops: seq<S.Node>, levels: seq<nat>, last: nat) {
    && |levels| == |ops| && S.Ordered(ops, levels, |ops|) && S.Tight(ops, levels, |ops|)
    && (S.Reached(levels, |ops|, last) || S.TermLevel(ops, levels, last))
    && V.PlainPatches(ops) && V.Foreseen(ops) && V.ReadsFirst(ops, levels)
  }

  /**
   * A scheduled block in bulk and the same block cut into layers: whatever the two machines do in between, they leave the
   * same data and the same terminator.
   */
  lemma BulkAndLayers(c: Config, x: Block, u: Space, m: B.Memory, levels: seq<nat>, last: nat) returns (v: Space, w: Space)
    requires c.Valid() && Well(c, x) && Ready(c, x, u) && AlwaysSafe(c, x, u) && Homed(c, x, u, m)
    requires Schedulable(x.nodes, levels, last)
    ensures Ticked(c, u, LayerCount(|x.nodes|) - 1) == Some(v) && RunSlots(c, v, 0, P.LINK) == Some(w) && |w| == |u|
    ensures var after := B.After(BulkBlock(c, x), m, levels, last);
      && (forall p: nat {:trigger B.Data(p)} | p < |u| && InData(c, x, p, 1) :: B.Read(after, B.Data(p)) == w[p])
      && forall f {:trigger FieldOf(RowAt(c, w, 0, P.LINK), f)} ::
           B.Number(after, |x.nodes|, f, FieldBits(c, f)) == FieldOf(RowAt(c, w, 0, P.LINK), f)
  {
    hide Before, AlwaysSafe, Ready, Well, Homed, InData, RowAt, RunSlots, Ticked, LayerCount, B.After, B.State, B.Number, B.Read, V.Initial, V.PlainPatches, V.Foreseen,
      V.ReadsFirst, S.Ordered, S.Tight, S.Reached, S.TermLevel;
    v, w := CutBlock(c, x, u);
    HomedAlike(c, x, u, m);
    var n, y := |x.nodes|, BulkBlock(c, x);
    SameRun(c, x, u, m, n);
    var end, state, after := Before(c, x, u, n), B.State(y, m, n), B.After(y, m, levels, last);
    InitialOf(c, x, u, m);
    ReadySize(c, x, u);
    AgreeSize(c, x, w, end.data);
    forall at ensures B.Read(after, at) == B.Read(state, at) {
      V.ScheduledBlock(y, m, levels, last, at);
    }
    forall p: nat {:trigger B.Data(p)} | p < |u| && InData(c, x, p, 1) ensures B.Read(after, B.Data(p)) == w[p] {
      assert w[p] == end.data[p];
    }
    forall f {:trigger FieldOf(RowAt(c, w, 0, P.LINK), f)}
      ensures B.Number(after, n, f, FieldBits(c, f)) == FieldOf(RowAt(c, w, 0, P.LINK), f)
    {
      assert FieldHome(c, x, end.rows, state, n, f);
      B.NumberSame(after, state, n, f, FieldBits(c, f));
    }
  }

  lemma ReadySize(c: Config, x: Block, u: Space)
    requires c.Valid() && Ready(c, x, u)
    ensures c.LayerBits() <= |u|
  {
  }

  lemma InitialOf(c: Config, x: Block, u: Space, m: B.Memory)
    requires c.Valid() && Homed(c, x, u, m)
    ensures V.Initial(BulkBlock(c, x), m)
  {
  }
}
