/**
 * The level scheduler of modules/rv32i_bulk.py: every node of a block gets the tick in which it is
 * executed, from what the nodes in front of it write and patch.
 */
module Schedule {

  datatype FieldName = CountField | DstField | SrcField

  /** Where a copy puts or finds its bits: at a position of the space, or in a field of another node of the block. */
  datatype Target = At(pos: nat) | Into(node: nat, field: FieldName, off: nat)

  datatype Node = Node(n: nat, dst: Target, src: Target)

  predicate ReadsAt(x: Node, p: nat) {
    x.src.At? && x.src.pos <= p < x.src.pos + x.n
  }

  predicate WritesAt(x: Node, p: nat) {
    x.dst.At? && x.dst.pos <= p < x.dst.pos + x.n
  }

  predicate Patches(x: Node, j: nat) {
    x.dst.Into? && x.dst.node == j
  }

  /** Node j has to come at least so many ticks behind node i; 0 if i does not hold it up. */
  ghost function Delay(ops: seq<Node>, i: nat, j: nat): nat
    requires i < j < |ops|
  {
    if Patches(ops[i], j) then 2
    else if (exists p: nat :: WritesAt(ops[i], p) && ReadsAt(ops[j], p)) then 1
    else if (exists p: nat :: WritesAt(ops[i], p) && WritesAt(ops[j], p)) then 1
    else 0
  }

  /** Every node comes behind all that it depends on. */
  ghost predicate Ordered(ops: seq<Node>, levels: seq<nat>, k: nat)
    requires k <= |ops| && k <= |levels|
  {
    && (forall j | 0 <= j < k :: levels[j] >= 1)
    && forall i, j {:trigger Delay(ops, i, j)} | 0 <= i < j < k && Delay(ops, i, j) > 0 ::
         levels[j] >= levels[i] + Delay(ops, i, j)
  }

  /** ... and no later than it has to: some node in front of it accounts for its level. */
  ghost predicate Tight(ops: seq<Node>, levels: seq<nat>, k: nat)
    requires k <= |ops| && k <= |levels|
  {
    forall j {:trigger levels[j]} | 0 <= j < k ::
      levels[j] == 1 || exists i :: 0 <= i < j && Delay(ops, i, j) > 0 && levels[j] == levels[i] + Delay(ops, i, j)
  }

  /** Both together leave no choice: the levels are the lengths of the longest chains of dependences. */
  /**
   * What order and tightness come to: a node is levelled behind every earlier one that writes what it reads or writes, and two behind
   * every one that patches it; and if it is not levelled first, some such node is exactly so far ahead of it.
   */
  lemma LevelsMean(ops: seq<Node>, levels: seq<nat>)
    requires |levels| == |ops| && Ordered(ops, levels, |ops|) && Tight(ops, levels, |ops|)
    ensures forall j | 0 <= j < |ops| :: levels[j] >= 1
    ensures forall i, j | 0 <= i < j < |ops| && ops[i].dst.Into? && ops[i].dst.node == j :: levels[j] >= levels[i] + 2
    ensures forall i: nat, j: nat, p: nat {:trigger Touches(ops[i].dst, ops[i].n, p), Touches(ops[j].src, ops[j].n, p)} |
      i < j < |ops| && Touches(ops[i].dst, ops[i].n, p) && Touches(ops[j].src, ops[j].n, p) :: levels[j] >= levels[i] + 1
    ensures forall i: nat, j: nat, p: nat {:trigger Touches(ops[i].dst, ops[i].n, p), Touches(ops[j].dst, ops[j].n, p)} |
      i < j < |ops| && Touches(ops[i].dst, ops[i].n, p) && Touches(ops[j].dst, ops[j].n, p) :: levels[j] >= levels[i] + 1
    ensures forall j {:trigger levels[j]} | 0 <= j < |ops| && levels[j] > 1 :: exists i | 0 <= i < j ::
      if ops[i].dst.Into? then ops[i].dst.node == j && levels[j] == levels[i] + 2
      else levels[j] == levels[i] + 1
           && exists p: nat :: ops[i].dst.pos <= p < ops[i].dst.pos + ops[i].n
                               && (Touches(ops[j].src, ops[j].n, p) || Touches(ops[j].dst, ops[j].n, p))
  {
    forall i, j | 0 <= i < j < |ops| && ops[i].dst.Into? && ops[i].dst.node == j ensures levels[j] >= levels[i] + 2 {
      assert Delay(ops, i, j) == 2;
    }
    forall i: nat, j: nat, p: nat {:trigger Touches(ops[i].dst, ops[i].n, p), Touches(ops[j].src, ops[j].n, p)} |
      i < j < |ops| && Touches(ops[i].dst, ops[i].n, p) && Touches(ops[j].src, ops[j].n, p) ensures levels[j] >= levels[i] + 1
    {
      assert WritesAt(ops[i], p) && ReadsAt(ops[j], p) && Delay(ops, i, j) == 1;
    }
    forall i: nat, j: nat, p: nat {:trigger Touches(ops[i].dst, ops[i].n, p), Touches(ops[j].dst, ops[j].n, p)} |
      i < j < |ops| && Touches(ops[i].dst, ops[i].n, p) && Touches(ops[j].dst, ops[j].n, p) ensures levels[j] >= levels[i] + 1
    {
      assert WritesAt(ops[i], p) && WritesAt(ops[j], p) && Delay(ops, i, j) == 1;
    }
    forall j {:trigger levels[j]} | 0 <= j < |ops| && levels[j] > 1 ensures exists i | 0 <= i < j ::
      if ops[i].dst.Into? then ops[i].dst.node == j && levels[j] == levels[i] + 2
      else levels[j] == levels[i] + 1
           && exists p: nat :: ops[i].dst.pos <= p < ops[i].dst.pos + ops[i].n
                               && (Touches(ops[j].src, ops[j].n, p) || Touches(ops[j].dst, ops[j].n, p))
    {
      var i :| 0 <= i < j && Delay(ops, i, j) > 0 && levels[j] == levels[i] + Delay(ops, i, j);
      DelayFrom(ops, i, j);
    }
  }

  /** A copy of n bits touches a fixed position. */
  predicate Touches(t: Target, n: nat, p: nat) {
    t.At? && t.pos <= p < t.pos + n
  }

  lemma DelayFrom(ops: seq<Node>, i: nat, j: nat)
    requires i < j < |ops| && Delay(ops, i, j) > 0
    ensures if ops[i].dst.Into? then ops[i].dst.node == j && Delay(ops, i, j) == 2
            else Delay(ops, i, j) == 1
                 && exists p: nat :: ops[i].dst.pos <= p < ops[i].dst.pos + ops[i].n
                                     && (Touches(ops[j].src, ops[j].n, p) || Touches(ops[j].dst, ops[j].n, p))
  {
    if !ops[i].dst.Into? {
      if p: nat :| WritesAt(ops[i], p) && ReadsAt(ops[j], p) {
        assert Touches(ops[j].src, ops[j].n, p);
      } else {
        var p: nat :| WritesAt(ops[i], p) && WritesAt(ops[j], p);
        assert Touches(ops[j].dst, ops[j].n, p);
      }
    }
  }

  lemma {:induction false} LevelsUnique(ops: seq<Node>, a: seq<nat>, b: seq<nat>, j: nat)
    requires |a| == |b| == |ops| && j < |ops|
    requires Ordered(ops, a, |ops|) && Tight(ops, a, |ops|) && Ordered(ops, b, |ops|) && Tight(ops, b, |ops|)
    ensures a[j] == b[j]
    decreases j
  {
    if a[j] > b[j] {
      NoLater(ops, a, b, j);
    } else if b[j] > a[j] {
      NoLater(ops, b, a, j);
    }
  }

  lemma {:induction false} NoLater(ops: seq<Node>, a: seq<nat>, b: seq<nat>, j: nat)
    requires |a| == |b| == |ops| && j < |ops| && Tight(ops, a, |ops|) && Ordered(ops, b, |ops|)
    ensures a[j] <= b[j]
    decreases j
  {
    hide Delay;
    if a[j] != 1 {
      var i :| 0 <= i < j && Delay(ops, i, j) > 0 && a[j] == a[i] + Delay(ops, i, j);
      NoLater(ops, a, b, i);
    } else {
      assert b[j] >= 1;
    }
  }

  /** A node whose level depends on nothing but the last writer of the one bit it reads. */
  predicate LoneRead(ops: seq<Node>, i: nat)
    requires i < |ops|
  {
    && ops[i].n == 1 && ops[i].src.At? && ops[i].dst.Into?
    && forall k | 0 <= k < i :: !Patches(ops[k], i)
  }

  /** A lone read is never overtaken by a later write of its bit: it comes one tick behind the last writer. */
  lemma LoneReadFirst(ops: seq<Node>, levels: seq<nat>, i: nat, j: nat)
    requires |levels| == |ops| && Ordered(ops, levels, |ops|) && Tight(ops, levels, |ops|)
    requires i < j < |ops| && LoneRead(ops, i) && WritesAt(ops[j], ops[i].src.pos)
    ensures levels[i] <= levels[j]
  {
    if levels[i] != 1 {
      var h :| 0 <= h < i && Delay(ops, h, i) > 0 && levels[i] == levels[h] + Delay(ops, h, i);
      assert ReadsAt(ops[i], ops[i].src.pos) && WritesAt(ops[h], ops[i].src.pos);
      assert Delay(ops, h, i) == 1;
      assert WritesAt(ops[h], ops[i].src.pos) && WritesAt(ops[j], ops[i].src.pos);
      assert Delay(ops, h, j) > 0;
    } else {
      assert levels[j] >= 1;
    }
  }

  function Max(a: nat, b: nat): nat {
    if a < b then b else a
  }

  function Get(m: map<nat, nat>, k: nat): nat {
    if k in m then m[k] else 0
  }

  /** Some node among the first k writes the position (or patches the node), at this level. */
  ghost predicate WrittenAt(ops: seq<Node>, levels: seq<nat>, k: nat, p: nat, level: nat)
    requires k <= |ops| && k <= |levels|
  {
    exists i :: 0 <= i < k && WritesAt(ops[i], p) && levels[i] == level
  }

  ghost predicate PatchedAt(ops: seq<Node>, levels: seq<nat>, k: nat, t: nat, level: nat)
    requires k <= |ops| && k <= |levels|
  {
    exists i :: 0 <= i < k && Patches(ops[i], t) && levels[i] == level
  }

  /** What the dictionary of positions knows after k nodes: the level of every position's last writer. */
  ghost predicate Writers(ops: seq<Node>, levels: seq<nat>, k: nat, avail: map<nat, nat>)
    requires k <= |ops| && k <= |levels|
  {
    && (forall i, p: nat {:trigger WritesAt(ops[i], p)} | 0 <= i < k && WritesAt(ops[i], p) :: p in avail && levels[i] <= avail[p])
    && (forall p {:trigger p in avail} | p in avail :: WrittenAt(ops, levels, k, p, avail[p]))
  }

  /** What the dictionary of patches knows: the level of every node's last patch. */
  ghost predicate Patchers(ops: seq<Node>, levels: seq<nat>, k: nat, patch: map<nat, nat>)
    requires k <= |ops| && k <= |levels|
  {
    && (forall i, t: nat {:trigger Patches(ops[i], t)} | 0 <= i < k && Patches(ops[i], t) :: t in patch && levels[i] <= patch[t])
    && (forall t {:trigger t in patch} | t in patch :: PatchedAt(ops, levels, k, t, patch[t]))
  }

  /** The level of a terminator: behind everything, and two behind its last patch. */
  ghost predicate TermLevel(ops: seq<Node>, levels: seq<nat>, last: nat)
    requires |levels| == |ops|
  {
    && last >= 1 && (forall j | 0 <= j < |ops| :: levels[j] < last)
    && (forall j {:trigger ops[j]} | 0 <= j < |ops| && Patches(ops[j], |ops|) :: levels[j] + 2 <= last)
    && (last == 1 || (exists j :: 0 <= j < |ops| && (last == levels[j] + 1 || (Patches(ops[j], |ops|) && last == levels[j] + 2))))
  }

  ghost predicate Reached(levels: seq<nat>, k: nat, top: nat)
    requires k <= |levels|
  {
    && (forall j | 0 <= j < k :: levels[j] <= top)
    && (top == 0 || exists j :: 0 <= j < k && levels[j] == top)
  }

  /** The level is late enough for node k, given the levels of those in front of it. */
  ghost predicate LateEnough(ops: seq<Node>, levels: seq<nat>, k: nat, level: nat)
    requires k < |ops| && k <= |levels|
  {
    level >= 1 && forall i {:trigger Delay(ops, i, k)} | 0 <= i < k && Delay(ops, i, k) > 0 :: level >= levels[i] + Delay(ops, i, k)
  }

  ghost predicate AccountedFor(ops: seq<Node>, levels: seq<nat>, k: nat, level: nat)
    requires k < |ops| && k <= |levels|
  {
    level == 1 || exists i :: 0 <= i < k && Delay(ops, i, k) > 0 && level == levels[i] + Delay(ops, i, k)
  }

  lemma OrderedMore(ops: seq<Node>, levels: seq<nat>, k: nat, level: nat)
    requires k < |ops| && |levels| == k && Ordered(ops, levels, k) && Tight(ops, levels, k)
    requires LateEnough(ops, levels, k, level) && AccountedFor(ops, levels, k, level)
    ensures Ordered(ops, levels + [level], k + 1) && Tight(ops, levels + [level], k + 1)
  {
    hide Delay, Tight, Ordered, LateEnough, AccountedFor;
    LaterOrdered(ops, levels, k, level);
    LaterTight(ops, levels, k, level);
  }

  lemma LaterOrdered(ops: seq<Node>, levels: seq<nat>, k: nat, level: nat)
    requires k < |ops| && |levels| == k && Ordered(ops, levels, k) && LateEnough(ops, levels, k, level)
    ensures Ordered(ops, levels + [level], k + 1)
  {
    hide Delay;
    var now := levels + [level];
    forall i, j {:trigger Delay(ops, i, j)} | 0 <= i < j < k + 1 && Delay(ops, i, j) > 0
      ensures now[j] >= now[i] + Delay(ops, i, j)
    {
      assert now[i] == levels[i];
    }
  }

  lemma LaterTight(ops: seq<Node>, levels: seq<nat>, k: nat, level: nat)
    requires k < |ops| && |levels| == k && Tight(ops, levels, k) && AccountedFor(ops, levels, k, level)
    ensures Tight(ops, levels + [level], k + 1)
  {
    hide Delay;
    var now := levels + [level];
    forall j {:trigger now[j]} | 0 <= j < k + 1
      ensures now[j] == 1 || exists i :: 0 <= i < j && Delay(ops, i, j) > 0 && now[j] == now[i] + Delay(ops, i, j)
    {
      if j < k && now[j] != 1 {
        assert now[j] == levels[j];
        var i :| 0 <= i < j && Delay(ops, i, j) > 0 && levels[j] == levels[i] + Delay(ops, i, j);
        assert now[i] == levels[i];
      } else if j == k && now[j] != 1 {
        var i :| 0 <= i < k && Delay(ops, i, k) > 0 && level == levels[i] + Delay(ops, i, k);
        assert now[i] == levels[i];
      }
    }
  }

  /** The dictionary of positions after a node has been entered. */
  ghost predicate Recorded(node: Node, level: nat, avail: map<nat, nat>, avail': map<nat, nat>) {
    forall p: nat {:trigger p in avail'} {:trigger WritesAt(node, p)} ::
      && (p in avail' <==> p in avail || WritesAt(node, p))
      && (p in avail' ==> avail'[p] == if WritesAt(node, p) then level else avail[p])
  }

  lemma WritersMore(ops: seq<Node>, levels: seq<nat>, k: nat, level: nat, avail: map<nat, nat>, avail': map<nat, nat>)
    requires k < |ops| && |levels| == k && Writers(ops, levels, k, avail) && LateEnough(ops, levels, k, level)
    requires Recorded(ops[k], level, avail, avail')
    ensures Writers(ops, levels + [level], k + 1, avail')
  {
    hide WritesAt;
    var now := levels + [level];
    forall i, p: nat {:trigger WritesAt(ops[i], p)} | 0 <= i < k + 1 && WritesAt(ops[i], p) ensures p in avail' && now[i] <= avail'[p] {
      if i < k && WritesAt(ops[k], p) {
        SameWriter(ops, i, k, p);
      }
    }
    forall p {:trigger p in avail'} | p in avail' ensures WrittenAt(ops, now, k + 1, p, avail'[p]) {
      if WritesAt(ops[k], p) {
        assert now[k] == level;
      } else {
        assert WrittenAt(ops, levels, k, p, avail[p]);
        var i :| 0 <= i < k && WritesAt(ops[i], p) && levels[i] == avail[p];
        assert now[i] == levels[i];
      }
    }
  }

  lemma SameWriter(ops: seq<Node>, i: nat, k: nat, p: nat)
    requires i < k < |ops| && WritesAt(ops[i], p) && (WritesAt(ops[k], p) || ReadsAt(ops[k], p))
    ensures Delay(ops, i, k) == 1
  {
  }

  ghost predicate PatchRecorded(node: Node, level: nat, patch: map<nat, nat>, patch': map<nat, nat>) {
    forall t: nat {:trigger t in patch'} {:trigger Patches(node, t)} ::
      && (t in patch' <==> t in patch || Patches(node, t))
      && (t in patch' ==> patch'[t] == if Patches(node, t) then Max(Get(patch, t), level) else patch[t])
  }

  lemma PatchersMore(ops: seq<Node>, levels: seq<nat>, k: nat, level: nat, patch: map<nat, nat>, patch': map<nat, nat>)
    requires k < |ops| && |levels| == k && Patchers(ops, levels, k, patch) && PatchRecorded(ops[k], level, patch, patch')
    ensures Patchers(ops, levels + [level], k + 1, patch')
  {
    hide Patches;
    var now := levels + [level];
    forall t {:trigger t in patch'} | t in patch' ensures PatchedAt(ops, now, k + 1, t, patch'[t]) {
      if Patches(ops[k], t) && patch'[t] == level {
        assert now[k] == level;
      } else {
        assert t in patch && patch'[t] == patch[t];
        assert PatchedAt(ops, levels, k, t, patch[t]);
        var i :| 0 <= i < k && Patches(ops[i], t) && levels[i] == patch[t];
        assert now[i] == levels[i];
      }
    }
  }

  /** The scheduler: one pass over the nodes with three dictionaries. The terminator counts as node |ops|. */
  method Level(ops: seq<Node>, terminated: bool) returns (levels: seq<nat>, last: nat)
    ensures |levels| == |ops| && Ordered(ops, levels, |ops|) && Tight(ops, levels, |ops|)
    ensures if terminated then TermLevel(ops, levels, last) else Reached(levels, |ops|, last)
  {
    hide Delay, Ordered, Tight, Writers, Patchers, LateEnough, AccountedFor, Recorded, PatchRecorded;
    var availRead: map<nat, nat>, availWrite: map<nat, nat>, patch: map<nat, nat> := map[], map[], map[];
    levels := [];
    var top := 0;
    var k := 0;
    NothingKnown(ops);
    while k < |ops|
      invariant 0 <= k <= |ops| && |levels| == k
      invariant availRead == availWrite && Writers(ops, levels, k, availRead) && Patchers(ops, levels, k, patch)
      invariant Ordered(ops, levels, k) && Tight(ops, levels, k) && Reached(levels, k, top)
    {
      var node := ops[k];
      var level := LevelOf(ops, levels, k, availRead, availWrite, patch);
      OrderedMore(ops, levels, k, level);
      ghost var was, before := availRead, patch;
      if node.dst.At? {
        availRead, availWrite := Record(node, level, availRead, availWrite);
        NoPatch(node, level, patch);
      } else {
        patch := patch[node.dst.node := Max(Get(patch, node.dst.node), level)];
        PatchIs(node, level, before, patch);
        NoRecord(node, level, availRead);
      }
      WritersMore(ops, levels, k, level, was, availRead);
      PatchersMore(ops, levels, k, level, before, patch);
      ReachedMore(levels, level, top);
      levels := levels + [level];
      top := Max(top, level);
      k := k + 1;
    }
    last := top;
    if terminated {
      last := top + 1;
      if |ops| in patch {
        last := Max(last, patch[|ops|] + 2);
      }
      TermIs(ops, levels, patch, top, last);
    }
  }

  lemma NothingKnown(ops: seq<Node>)
    ensures Writers(ops, [], 0, map[]) && Patchers(ops, [], 0, map[]) && Ordered(ops, [], 0) && Tight(ops, [], 0)
  {
  }

  lemma NoPatch(node: Node, level: nat, patch: map<nat, nat>)
    requires node.dst.At?
    ensures PatchRecorded(node, level, patch, patch)
  {
  }

  lemma PatchIs(node: Node, level: nat, patch: map<nat, nat>, patch': map<nat, nat>)
    requires node.dst.Into? && patch' == patch[node.dst.node := Max(Get(patch, node.dst.node), level)]
    ensures PatchRecorded(node, level, patch, patch')
  {
  }

  lemma NoRecord(node: Node, level: nat, avail: map<nat, nat>)
    requires node.dst.Into?
    ensures Recorded(node, level, avail, avail)
  {
  }

  lemma ReachedMore(levels: seq<nat>, level: nat, top: nat)
    requires Reached(levels, |levels|, top)
    ensures Reached(levels + [level], |levels| + 1, Max(top, level))
  {
    var now := levels + [level];
    if Max(top, level) == level {
      assert now[|levels|] == level;
    } else {
      var j :| 0 <= j < |levels| && levels[j] == top;
      assert now[j] == top;
    }
  }

  lemma TermIs(ops: seq<Node>, levels: seq<nat>, patch: map<nat, nat>, top: nat, last: nat)
    requires |levels| == |ops| && Patchers(ops, levels, |ops|, patch) && Reached(levels, |ops|, top)
    requires last == if |ops| in patch then Max(top + 1, patch[|ops|] + 2) else top + 1
    ensures TermLevel(ops, levels, last)
  {
    forall j {:trigger ops[j]} | 0 <= j < |ops| && Patches(ops[j], |ops|) ensures levels[j] + 2 <= last {
    }
    if |ops| in patch {
      assert PatchedAt(ops, levels, |ops|, |ops|, patch[|ops|]);
    }
  }

  /** Enters a node's level for every position it writes. */
  method Record(node: Node, level: nat, availRead: map<nat, nat>, availWrite: map<nat, nat>) returns (r: map<nat, nat>, w: map<nat, nat>)
    requires node.dst.At? && availRead == availWrite
    ensures r == w && Recorded(node, level, availRead, r)
  {
    r, w := availRead, availWrite;
    var p := node.dst.pos;
    while p < node.dst.pos + node.n
      invariant node.dst.pos <= p <= node.dst.pos + node.n && r == w
      invariant forall q: nat {:trigger q in r} ::
        && (q in r <==> q in availRead || node.dst.pos <= q < p)
        && (q in r ==> r[q] == if node.dst.pos <= q < p then level else availRead[q])
    {
      r := r[p := level];
      w := w[p := level];
      p := p + 1;
    }
  }

  /** The least level behind the last writers of what a node reads and writes, and two behind its last patch. */
  method LevelOf(ops: seq<Node>, ghost levels: seq<nat>, k: nat, availRead: map<nat, nat>, availWrite: map<nat, nat>, patch: map<nat, nat>)
    returns (level: nat)
    requires k < |ops| && |levels| == k && availRead == availWrite
    requires Writers(ops, levels, k, availRead) && Patchers(ops, levels, k, patch)
    ensures LateEnough(ops, levels, k, level) && AccountedFor(ops, levels, k, level)
  {
    hide Delay, Writers, Patchers, AccountedFor, LateEnough;
    var node := ops[k];
    level := 0;
    FirstLevel(ops, levels, k);
    if node.src.At? {
      var p := node.src.pos;
      while p < node.src.pos + node.n
        invariant node.src.pos <= p <= node.src.pos + node.n
        invariant forall q {:trigger Get(availRead, q)} | node.src.pos <= q < p :: level >= Get(availRead, q)
        invariant AccountedFor(ops, levels, k, level + 1)
      {
        ReadAccounts(ops, levels, k, availRead, p);
        level := Max(level, Get(availRead, p));
        p := p + 1;
      }
    }
    level := level + 1;
    ghost var read := level;
    if node.dst.At? {
      var p := node.dst.pos;
      while p < node.dst.pos + node.n
        invariant node.dst.pos <= p <= node.dst.pos + node.n && level >= read
        invariant forall q {:trigger Get(availWrite, q)} | node.dst.pos <= q < p :: level > Get(availWrite, q)
        invariant AccountedFor(ops, levels, k, level)
      {
        ReadAccounts(ops, levels, k, availWrite, p);
        level := Max(level, Get(availWrite, p) + 1);
        p := p + 1;
      }
    }
    if k in patch {
      PatchAccounts(ops, levels, k, patch);
      level := Max(level, patch[k] + 2);
    }
    IsLate(ops, levels, k, availRead, patch, level);
  }

  lemma FirstLevel(ops: seq<Node>, levels: seq<nat>, k: nat)
    requires k < |ops| && k <= |levels|
    ensures AccountedFor(ops, levels, k, 1)
  {
  }

  lemma ReadAccounts(ops: seq<Node>, levels: seq<nat>, k: nat, avail: map<nat, nat>, p: nat)
    requires k < |ops| && |levels| == k && Writers(ops, levels, k, avail) && (ReadsAt(ops[k], p) || WritesAt(ops[k], p))
    ensures AccountedFor(ops, levels, k, Get(avail, p) + 1)
  {
    if p in avail {
      assert WrittenAt(ops, levels, k, p, avail[p]);
      var i :| 0 <= i < k && WritesAt(ops[i], p) && levels[i] == avail[p];
      SameWriter(ops, i, k, p);
    }
  }

  lemma PatchAccounts(ops: seq<Node>, levels: seq<nat>, k: nat, patch: map<nat, nat>)
    requires k < |ops| && |levels| == k && Patchers(ops, levels, k, patch) && k in patch
    ensures AccountedFor(ops, levels, k, patch[k] + 2)
  {
    assert PatchedAt(ops, levels, k, k, patch[k]);
    var i :| 0 <= i < k && Patches(ops[i], k) && levels[i] == patch[k];
    assert Delay(ops, i, k) == 2;
  }

  lemma IsLate(ops: seq<Node>, levels: seq<nat>, k: nat, avail: map<nat, nat>, patch: map<nat, nat>, level: nat)
    requires k < |ops| && |levels| == k && Writers(ops, levels, k, avail) && Patchers(ops, levels, k, patch) && level >= 1
    requires ops[k].src.At? ==> forall q {:trigger Get(avail, q)} | ops[k].src.pos <= q < ops[k].src.pos + ops[k].n :: level > Get(avail, q)
    requires ops[k].dst.At? ==> forall q {:trigger Get(avail, q)} | ops[k].dst.pos <= q < ops[k].dst.pos + ops[k].n :: level > Get(avail, q)
    requires k in patch ==> level >= patch[k] + 2
    ensures LateEnough(ops, levels, k, level)
  {
    forall i {:trigger Delay(ops, i, k)} | 0 <= i < k && Delay(ops, i, k) > 0 ensures level >= levels[i] + Delay(ops, i, k) {
      if Patches(ops[i], k) {
        assert k in patch && levels[i] <= patch[k];
      } else {
        var p: nat :| WritesAt(ops[i], p) && (ReadsAt(ops[k], p) || WritesAt(ops[k], p));
        SameWriter(ops, i, k, p);
        assert levels[i] <= Get(avail, p) < level;
      }
    }
  }
}
