/**
 * The bulk-synchronous machine: all copies of a tick read before any writes, and the rows of a tick are
 * loaded one tick ahead. A schedule that respects the dependences of a block runs it as the machine that
 * executes its nodes one after another.
 */
module Bulk {
  import opened Schedule
  import opened Bits

  /** A bit of the data, or a bit of a field of a node in the place the node is loaded from. */
  datatype Loc = Data(at: nat) | Home(node: nat, field: FieldName, k: nat)

  type Memory = map<Loc, bool>

  function Read(m: Memory, x: Loc): bool {
    x in m && m[x]
  }

  /** A field of a node as a number, lowest bit first. */
  function Number(m: Memory, j: nat, f: FieldName, width: nat): nat {
    if width == 0 then 0 else Number(m, j, f, width - 1) + Pow2(width - 1) * (if Read(m, Home(j, f, width - 1)) then 1 else 0)
  }

  /** A block of nodes for a machine with addresses of so many bits. */
  datatype Block = Block(ops: seq<Node>, ab: nat)

  function Count(x: Block, rows: Memory, j: nat): nat {
    if x.ab == 0 then 0 else Number(rows, j, CountField, x.ab - 1)
  }

  function Source(x: Block, rows: Memory, j: nat): nat {
    Number(rows, j, SrcField, x.ab)
  }

  /** The k-th bit that node j writes, when its row is as in rows. */
  function Dest(x: Block, rows: Memory, j: nat, k: nat): Loc
    requires j < |x.ops|
  {
    match x.ops[j].dst
    case At(_) => Data(Number(rows, j, DstField, x.ab) + k)
    case Into(t, f, off) => Home(t, f, off + k)
  }

  /** The k-th bit that node j reads. */
  function Origin(x: Block, rows: Memory, j: nat, k: nat): Loc
    requires j < |x.ops|
  {
    match x.ops[j].src
    case At(_) => Data(Source(x, rows, j) + k)
    case Into(t, f, off) => Home(t, f, off + k)
  }

  /** The bits that node j writes: its row comes from one memory, its operand from another. */
  function Effect(x: Block, rows: Memory, data: Memory, j: nat): Memory
    requires j < |x.ops|
  {
    FirstBits(x, rows, data, j, Count(x, rows, j))
  }

  function FirstBits(x: Block, rows: Memory, data: Memory, j: nat, k: nat): Memory
    requires j < |x.ops|
  {
    if k == 0 then map[]
    else FirstBits(x, rows, data, j, k - 1)[Dest(x, rows, j, k - 1) := Read(data, Origin(x, rows, j, k - 1))]
  }

  lemma {:induction false} FirstBitsAre(x: Block, rows: Memory, data: Memory, j: nat, n: nat)
    requires j < |x.ops|
    ensures var e := FirstBits(x, rows, data, j, n);
      && (forall at | at in e :: exists k: nat :: k < n && at == Dest(x, rows, j, k))
      && forall k: nat {:trigger Dest(x, rows, j, k)} | k < n ::
           var at := Dest(x, rows, j, k); at in e && e[at] == Read(data, Origin(x, rows, j, k))
  {
    hide Source, Read, Origin;
    if n > 0 {
      FirstBitsAre(x, rows, data, j, n - 1);
    }
  }

  /** One node after another: the memory in front of node k. */
  function State(x: Block, m: Memory, k: nat): Memory
    requires k <= |x.ops|
  {
    if k == 0 then m else var s := State(x, m, k - 1); s + Effect(x, s, s, k - 1)
  }

  /** What node j writes and reads in that run. */
  predicate Writes(x: Block, m: Memory, j: nat, at: Loc)
    requires j < |x.ops|
  {
    at in Effect(x, State(x, m, j), State(x, m, j), j)
  }

  ghost predicate Reads(x: Block, m: Memory, j: nat, at: Loc)
    requires j < |x.ops|
  {
    var s := State(x, m, j);
    exists k: nat :: k < Count(x, s, j) && at == Origin(x, s, j, k)
  }

  /** The copies of tick level, rows and operands taken before any of them writes. */
  function Commit(x: Block, levels: seq<nat>, level: nat, rows: Memory, data: Memory, k: nat): Memory
    requires |levels| == |x.ops| && k <= |x.ops|
  {
    if k == 0 then data
    else
      var m := Commit(x, levels, level, rows, data, k - 1);
      if levels[k - 1] == level then m + Effect(x, rows, data, k - 1) else m
  }

  /** The memory after so many ticks: the rows of a tick are those that lay in memory when the tick before it began. */
  function After(x: Block, m: Memory, levels: seq<nat>, ticks: nat): Memory
    requires |levels| == |x.ops|
  {
    if ticks == 0 then m
    else Commit(x, levels, ticks, After(x, m, levels, if ticks < 2 then 0 else ticks - 2), After(x, m, levels, ticks - 1), |x.ops|)
  }

  /** What a schedule has to keep, for the run from m. */
  ghost predicate Respects(x: Block, m: Memory, levels: seq<nat>)
    requires |levels| == |x.ops|
  {
    && (forall j | 0 <= j < |x.ops| :: levels[j] >= 1)
    && (forall i, j, at {:trigger Writes(x, m, i, at), Reads(x, m, j, at)} |
          0 <= i < j < |x.ops| && Writes(x, m, i, at) && Reads(x, m, j, at) :: levels[i] < levels[j])
    && (forall i, j, at {:trigger Writes(x, m, i, at), Writes(x, m, j, at)} |
          0 <= i < j < |x.ops| && Writes(x, m, i, at) && Writes(x, m, j, at) :: levels[i] < levels[j])
    && (forall i, j, at {:trigger Reads(x, m, i, at), Writes(x, m, j, at)} |
          0 <= i < j < |x.ops| && Reads(x, m, i, at) && Writes(x, m, j, at) :: levels[i] <= levels[j])
    && (forall i, at {:trigger Writes(x, m, i, at)} | 0 <= i < |x.ops| && Writes(x, m, i, at) && at.Home? && at.node < |x.ops| ::
          if i < at.node then levels[i] + 2 <= levels[at.node] else levels[at.node] <= levels[i] + 1)
  }

  /** The number of the last of the first k nodes that writes a location and is done after so many ticks; 0 if none. */
  function Last(x: Block, m: Memory, levels: seq<nat>, ticks: nat, at: Loc, k: nat): (r: nat)
    requires |levels| == |x.ops| && k <= |x.ops|
    ensures r <= k
  {
    if k == 0 then 0
    else if levels[k - 1] <= ticks && Writes(x, m, k - 1, at) then k
    else Last(x, m, levels, ticks, at, k - 1)
  }

  lemma {:induction false} LastIs(x: Block, m: Memory, levels: seq<nat>, ticks: nat, at: Loc, k: nat, r: nat)
    requires |levels| == |x.ops| && k <= |x.ops| && r <= k
    requires r > 0 ==> levels[r - 1] <= ticks && Writes(x, m, r - 1, at)
    requires forall i | r <= i < k :: levels[i] > ticks || !Writes(x, m, i, at)
    ensures Last(x, m, levels, ticks, at, k) == r
  {
    if r < k {
      LastIs(x, m, levels, ticks, at, k - 1, r);
    }
  }

  lemma {:induction false} LastMeans(x: Block, m: Memory, levels: seq<nat>, ticks: nat, at: Loc, k: nat)
    requires |levels| == |x.ops| && k <= |x.ops|
    ensures var r := Last(x, m, levels, ticks, at, k);
      && (r > 0 ==> levels[r - 1] <= ticks && Writes(x, m, r - 1, at))
      && forall i | r <= i < k :: levels[i] > ticks || !Writes(x, m, i, at)
  {
    if k > 0 {
      LastMeans(x, m, levels, ticks, at, k - 1);
    }
  }

  /** A location keeps its value past nodes that do not write it. */
  lemma {:induction false} StateKeeps(x: Block, m: Memory, at: Loc, i: nat, j: nat)
    requires i <= j <= |x.ops| && forall k | i <= k < j :: !Writes(x, m, k, at)
    ensures Read(State(x, m, j), at) == Read(State(x, m, i), at)
    decreases j
  {
    hide Effect;
    if i < j {
      StateKeeps(x, m, at, i, j - 1);
      assert !Writes(x, m, j - 1, at);
    }
  }

  /** Every location holds what its last writer among the nodes done so far has put there. */
  ghost predicate UpToDate(x: Block, m: Memory, levels: seq<nat>, ticks: nat)
    requires |levels| == |x.ops|
  {
    forall at {:trigger Read(After(x, m, levels, ticks), at)} ::
      Read(After(x, m, levels, ticks), at) == Read(State(x, m, Last(x, m, levels, ticks, at, |x.ops|)), at)
  }

  /** A node finds its operand as in the run one after another. */
  lemma OperandFound(x: Block, m: Memory, levels: seq<nat>, j: nat, at: Loc)
    requires |levels| == |x.ops| && Respects(x, m, levels) && j < |x.ops| && Reads(x, m, j, at)
    requires UpToDate(x, m, levels, levels[j] - 1)
    ensures Read(After(x, m, levels, levels[j] - 1), at) == Read(State(x, m, j), at)
  {
    hide Reads, Writes, After, State;
    var ticks := levels[j] - 1;
    var r := Last(x, m, levels, ticks, at, |x.ops|);
    LastMeans(x, m, levels, ticks, at, |x.ops|);
    if r > j {
      assert false;
    }
    forall k | r <= k < j ensures !Writes(x, m, k, at) {
      if Writes(x, m, k, at) {
        assert false;
      }
    }
    StateKeeps(x, m, at, r, j);
  }

  /** A node is loaded with the row it has in the run one after another. */
  lemma RowFound(x: Block, m: Memory, levels: seq<nat>, j: nat, at: Loc)
    requires |levels| == |x.ops| && Respects(x, m, levels) && j < |x.ops| && at.Home? && at.node == j
    requires var ticks := if levels[j] < 2 then 0 else levels[j] - 2; UpToDate(x, m, levels, ticks)
    ensures var ticks := if levels[j] < 2 then 0 else levels[j] - 2;
      Read(After(x, m, levels, ticks), at) == Read(State(x, m, j), at)
  {
    hide Writes, After, State;
    var ticks := if levels[j] < 2 then 0 else levels[j] - 2;
    var r := Last(x, m, levels, ticks, at, |x.ops|);
    LastMeans(x, m, levels, ticks, at, |x.ops|);
    if r > j {
      assert false;
    }
    forall k | r <= k < j ensures !Writes(x, m, k, at) {
      if Writes(x, m, k, at) {
        assert false;
      }
    }
    StateKeeps(x, m, at, r, j);
  }

  lemma {:induction false} NumberSame(a: Memory, b: Memory, j: nat, f: FieldName, width: nat)
    requires forall k: nat {:trigger Home(j, f, k)} | k < width :: Read(a, Home(j, f, k)) == Read(b, Home(j, f, k))
    ensures Number(a, j, f, width) == Number(b, j, f, width)
  {
    if width > 0 {
      NumberSame(a, b, j, f, width - 1);
      assert Read(a, Home(j, f, width - 1)) == Read(b, Home(j, f, width - 1));
    }
  }

  /** So it does what it does in the run one after another. */
  lemma EffectSame(x: Block, rows: Memory, data: Memory, s: Memory, j: nat)
    requires j < |x.ops|
    requires forall f, k: nat {:trigger Home(j, f, k)} :: Read(rows, Home(j, f, k)) == Read(s, Home(j, f, k))
    requires forall k: nat {:trigger Origin(x, s, j, k)} | k < Count(x, s, j) ::
      Read(data, Origin(x, s, j, k)) == Read(s, Origin(x, s, j, k))
    ensures Effect(x, rows, data, j) == Effect(x, s, s, j)
  {
    if x.ab > 0 { NumberSame(rows, s, j, CountField, x.ab - 1); }
    NumberSame(rows, s, j, SrcField, x.ab);
    NumberSame(rows, s, j, DstField, x.ab);
    hide Number, Read;
    var e, g := Effect(x, rows, data, j), Effect(x, s, s, j);
    forall at | at in e ensures at in g && g[at] == e[at] {
      var k := EffectAt(x, rows, data, j, at);
      EffectHas(x, s, s, j, k);
      assert Read(data, Origin(x, rows, j, k)) == Read(s, Origin(x, s, j, k));
    }
    forall at | at in g ensures at in e {
      var k := EffectAt(x, s, s, j, at);
      EffectHas(x, rows, data, j, k);
    }
  }

  lemma EffectAt(x: Block, rows: Memory, data: Memory, j: nat, at: Loc) returns (k: nat)
    requires j < |x.ops| && at in Effect(x, rows, data, j)
    ensures k < Count(x, rows, j) && at == Dest(x, rows, j, k)
    ensures Effect(x, rows, data, j)[at] == Read(data, Origin(x, rows, j, k))
  {
    hide Count, Source, Read, Dest, Origin;
    FirstBitsAre(x, rows, data, j, Count(x, rows, j));
    k :| k < Count(x, rows, j) && at == Dest(x, rows, j, k);
  }

  lemma EffectHas(x: Block, rows: Memory, data: Memory, j: nat, k: nat)
    requires j < |x.ops| && k < Count(x, rows, j)
    ensures var e := Effect(x, rows, data, j); var at := Dest(x, rows, j, k);
      at in e && e[at] == Read(data, Origin(x, rows, j, k))
  {
    hide Count, Source, Read, Dest, Origin;
    FirstBitsAre(x, rows, data, j, Count(x, rows, j));
  }

  lemma NodeRuns(x: Block, m: Memory, levels: seq<nat>, j: nat)
    requires |levels| == |x.ops| && Respects(x, m, levels) && j < |x.ops|
    requires UpToDate(x, m, levels, levels[j] - 1) && UpToDate(x, m, levels, if levels[j] < 2 then 0 else levels[j] - 2)
    ensures Effect(x, After(x, m, levels, if levels[j] < 2 then 0 else levels[j] - 2), After(x, m, levels, levels[j] - 1), j) ==
      Effect(x, State(x, m, j), State(x, m, j), j)
  {
    assert levels[j] >= 1;
    hide Respects, UpToDate, After, State, Effect;
    var rows, data, s := After(x, m, levels, if levels[j] < 2 then 0 else levels[j] - 2), After(x, m, levels, levels[j] - 1), State(x, m, j);
    forall f, k: nat {:trigger Home(j, f, k)} ensures Read(rows, Home(j, f, k)) == Read(s, Home(j, f, k)) {
      RowFound(x, m, levels, j, Home(j, f, k));
    }
    forall k: nat {:trigger Origin(x, s, j, k)} | k < Count(x, s, j)
      ensures Read(data, Origin(x, s, j, k)) == Read(s, Origin(x, s, j, k))
    {
      assert Reads(x, m, j, Origin(x, s, j, k));
      OperandFound(x, m, levels, j, Origin(x, s, j, k));
    }
    EffectSame(x, rows, data, s, j);
  }

  /** One tick brings every location up to date. */
  lemma {:induction false} CommitUpToDate(x: Block, m: Memory, levels: seq<nat>, ticks: nat, k: nat, at: Loc)
    requires |levels| == |x.ops| && Respects(x, m, levels) && ticks > 0 && k <= |x.ops|
    requires UpToDate(x, m, levels, ticks - 1) && UpToDate(x, m, levels, if ticks < 2 then 0 else ticks - 2)
    ensures var now := Commit(x, levels, ticks, After(x, m, levels, if ticks < 2 then 0 else ticks - 2), After(x, m, levels, ticks - 1), k);
      if exists j :: 0 <= j < k && levels[j] == ticks && Writes(x, m, j, at)
      then exists j :: 0 <= j < k && levels[j] == ticks && Writes(x, m, j, at) && Read(now, at) == Read(State(x, m, j + 1), at)
      else Read(now, at) == Read(After(x, m, levels, ticks - 1), at)
  {
    hide Effect, After, UpToDate, Respects;
    if k > 0 {
      CommitUpToDate(x, m, levels, ticks, k - 1, at);
      if levels[k - 1] == ticks {
        NodeRuns(x, m, levels, k - 1);
        if Writes(x, m, k - 1, at) {
          assert Read(State(x, m, k), at) == Effect(x, State(x, m, k - 1), State(x, m, k - 1), k - 1)[at];
        }
      }
    }
  }

  lemma TickUpToDate(x: Block, m: Memory, levels: seq<nat>, ticks: nat)
    requires |levels| == |x.ops| && Respects(x, m, levels) && ticks > 0
    requires UpToDate(x, m, levels, ticks - 1) && UpToDate(x, m, levels, if ticks < 2 then 0 else ticks - 2)
    ensures UpToDate(x, m, levels, ticks)
  {
    hide Writes, State, Commit, Reads;
    var n := |x.ops|;
    forall at {:trigger Read(After(x, m, levels, ticks), at)}
      ensures Read(After(x, m, levels, ticks), at) == Read(State(x, m, Last(x, m, levels, ticks, at, n)), at)
    {
      CommitUpToDate(x, m, levels, ticks, n, at);
      var r := Last(x, m, levels, ticks - 1, at, n);
      LastMeans(x, m, levels, ticks - 1, at, n);
      if j :| 0 <= j < n && levels[j] == ticks && Writes(x, m, j, at) && Read(After(x, m, levels, ticks), at) == Read(State(x, m, j + 1), at) {
        LastIs(x, m, levels, ticks, at, n, j + 1);
      } else {
        LastIs(x, m, levels, ticks, at, n, r);
        assert Read(After(x, m, levels, ticks - 1), at) == Read(State(x, m, r), at);
      }
    }
  }

  lemma {:induction false} AlwaysUpToDate(x: Block, m: Memory, levels: seq<nat>, ticks: nat)
    requires |levels| == |x.ops| && Respects(x, m, levels)
    ensures UpToDate(x, m, levels, ticks) && (ticks > 0 ==> UpToDate(x, m, levels, ticks - 1))
  {
    if ticks == 0 {
      hide Writes, State;
      forall at {:trigger Read(After(x, m, levels, 0), at)}
        ensures Read(After(x, m, levels, 0), at) == Read(State(x, m, Last(x, m, levels, 0, at, |x.ops|)), at)
      {
        LastIs(x, m, levels, 0, at, |x.ops|, 0);
        StartState(x, m);
      }
    } else {
      AlwaysUpToDate(x, m, levels, ticks - 1);
      hide Respects, UpToDate;
      TickUpToDate(x, m, levels, ticks);
    }
  }

  lemma StartState(x: Block, m: Memory)
    ensures State(x, m, 0) == m
  {
  }

  /** All ticks executed, the bulk machine has done what the nodes do one after another. */
  lemma BulkIsSequential(x: Block, m: Memory, levels: seq<nat>, ticks: nat, at: Loc)
    requires |levels| == |x.ops| && Respects(x, m, levels) && forall j | 0 <= j < |x.ops| :: levels[j] <= ticks
    ensures Read(After(x, m, levels, ticks), at) == Read(State(x, m, |x.ops|), at)
  {
    hide After, State, Writes;
    AlwaysUpToDate(x, m, levels, ticks);
    var r := Last(x, m, levels, ticks, at, |x.ops|);
    LastMeans(x, m, levels, ticks, at, |x.ops|);
    StateKeeps(x, m, at, r, |x.ops|);
  }
}
