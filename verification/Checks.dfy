/** The checks that encode makes of a schedule (modules/rv32i_bulk.py), and what they amount to for the scheduler's own levels. */
module Checks {
  import opened Schedule

  /** A stretch of positions that a node writes: from lo up to, but not including, hi. */
  datatype Range = Range(lo: nat, hi: nat)

  /** The order in which pairs are sorted. */
  predicate Before(a: Range, b: Range) {
    a.lo < b.lo || (a.lo == b.lo && a.hi <= b.hi)
  }

  ghost predicate Sorted(r: seq<Range>) {
    forall i, j | 0 <= i < j < |r| :: Before(r[i], r[j])
  }

  /** One lies wholly in front of the other. */
  predicate Apart(a: Range, b: Range) {
    a.hi <= b.lo || b.hi <= a.lo
  }

  ghost predicate AllApart(r: seq<Range>) {
    forall i, j | 0 <= i < j < |r| :: Apart(r[i], r[j])
  }

  /** Puts a range in its place. */
  method Insert(r: seq<Range>, x: Range) returns (t: seq<Range>, k: nat)
    requires Sorted(r)
    ensures k <= |r| && t == r[..k] + [x] + r[k..] && Sorted(t)
  {
    k := 0;
    while k < |r| && Before(r[k], x)
      invariant 0 <= k <= |r| && forall i | 0 <= i < k :: Before(r[i], x)
    {
      k := k + 1;
    }
    t := r[..k] + [x] + r[k..];
  }

  ghost predicate NeighboursOk(r: seq<Range>) {
    forall i {:trigger r[i]} | 0 <= i < |r| - 1 :: r[i].hi <= r[i + 1].lo
  }

  /** The comparison of neighbours. */
  method CompareNeighbours(r: seq<Range>) returns (ok: bool)
    ensures ok <==> NeighboursOk(r)
  {
    var i := 0;
    while i + 1 < |r|
      invariant 0 <= i <= |r| && (|r| > 0 ==> i < |r|)
      invariant forall k {:trigger r[k]} | 0 <= k < i :: r[k].hi <= r[k + 1].lo
    {
      if r[i + 1].lo < r[i].hi {
        return false;
      }
      i := i + 1;
    }
    return true;
  }

  /** Sorted ranges are all apart if and only if neighbours are. */
  lemma {:induction false} NeighboursDecide(r: seq<Range>)
    requires Sorted(r) && forall i | 0 <= i < |r| :: r[i].lo <= r[i].hi
    ensures NeighboursOk(r) <==> AllApart(r)
  {
    if NeighboursOk(r) {
      forall i, j | 0 <= i < j < |r| ensures Apart(r[i], r[j]) {
        Ascending(r, i, j);
      }
    }
    if AllApart(r) {
      forall i {:trigger r[i]} | 0 <= i < |r| - 1 ensures r[i].hi <= r[i + 1].lo {
        assert Apart(r[i], r[i + 1]) && Before(r[i], r[i + 1]);
      }
    }
  }

  lemma {:induction false} Ascending(r: seq<Range>, i: nat, j: nat)
    requires i < j < |r| && NeighboursOk(r) && forall k | 0 <= k < |r| :: r[k].lo <= r[k].hi
    ensures r[i].hi <= r[j].lo
    decreases j
  {
    if i < j - 1 {
      Ascending(r, i, j - 1);
      assert r[j - 1].hi <= r[j].lo;
    }
  }

  /** A node whose destination is patched: it is known only when the block runs. */
  predicate Dynamic(ops: seq<Node>, j: nat) {
    exists i | 0 <= i < |ops| :: ops[i].dst.Into? && ops[i].dst.field == DstField && ops[i].dst.node == j
  }

  /** A node of a tick whose range is looked at. */
  predicate Checked(ops: seq<Node>, levels: seq<nat>, level: nat, j: nat)
    requires |levels| == |ops| && j < |ops|
  {
    levels[j] == level && ops[j].dst.At? && !Dynamic(ops, j)
  }

  function RangeOf(x: Node): Range
    requires x.dst.At?
  {
    Range(x.dst.pos, x.dst.pos + x.n)
  }

  /** The tick of a node, counted from the first of the block: the terminator is node |ops|, later blocks' nodes follow. */
  function Tick(levels: seq<nat>, last: nat, later: seq<nat>, t: nat): nat
    requires t <= |levels| + |later|
  {
    if t < |levels| then levels[t] else if t == |levels| then last else last + later[t - |levels| - 1]
  }

  ghost predicate Named(ops: seq<Node>, later: seq<nat>) {
    forall j {:trigger ops[j]} | 0 <= j < |ops| && ops[j].dst.Into? :: ops[j].dst.node <= |ops| + |later|
  }

  /** Two nodes of one tick write apart from each other. */
  ghost predicate TickApart(ops: seq<Node>, levels: seq<nat>, level: nat)
    requires |levels| == |ops|
  {
    forall i, j {:trigger Checked(ops, levels, level, i), Checked(ops, levels, level, j)} |
      0 <= i < j < |ops| && Checked(ops, levels, level, i) && Checked(ops, levels, level, j) ::
        Apart(RangeOf(ops[i]), RangeOf(ops[j]))
  }

  /** A node writes behind the processor, or into a row that is loaded two ticks later at the earliest. */
  predicate NodeGood(ops: seq<Node>, levels: seq<nat>, last: nat, later: seq<nat>, layerBits: nat, j: nat)
    requires |levels| == |ops| && j < |ops|
    requires ops[j].dst.Into? ==> ops[j].dst.node <= |ops| + |later|
  {
    || Dynamic(ops, j)
    || if ops[j].dst.At? then layerBits <= ops[j].dst.pos else Tick(levels, last, later, ops[j].dst.node) >= levels[j] + 2
  }

  /** The ranges of the nodes looked at so far: who tells whose they are. */
  ghost predicate Tied(ops: seq<Node>, levels: seq<nat>, level: nat, k: nat, r: seq<Range>, who: seq<nat>)
    requires |levels| == |ops| && k <= |ops|
  {
    && |who| == |r|
    && (forall a {:trigger who[a]} | 0 <= a < |r| ::
          who[a] < k && Checked(ops, levels, level, who[a]) && r[a] == RangeOf(ops[who[a]]))
    && (forall a, b | 0 <= a < b < |r| :: who[a] != who[b])
    && (forall j: nat {:trigger Checked(ops, levels, level, j)} | j < k && Checked(ops, levels, level, j) :: j in who)
  }

  lemma TiedSkip(ops: seq<Node>, levels: seq<nat>, level: nat, k: nat, r: seq<Range>, who: seq<nat>)
    requires |levels| == |ops| && k < |ops| && Tied(ops, levels, level, k, r, who) && !Checked(ops, levels, level, k)
    ensures Tied(ops, levels, level, k + 1, r, who)
  {
    hide Checked;
  }

  ghost function Inserted(who: seq<nat>, at: nat, k: nat): (now: seq<nat>)
    requires at <= |who|
    ensures |now| == |who| + 1 && now[at] == k
    ensures forall j: nat :: j in now <==> j == k || j in who
    ensures forall a {:trigger now[a]} | 0 <= a < |now| && a != at :: now[a] == who[if a < at then a else a - 1]
  {
    assert who == who[..at] + who[at..];
    who[..at] + [k] + who[at..]
  }

  lemma TiedMore(ops: seq<Node>, levels: seq<nat>, level: nat, k: nat, r: seq<Range>, who: seq<nat>, at: nat, t: seq<Range>)
    requires |levels| == |ops| && k < |ops| && Tied(ops, levels, level, k, r, who) && at <= |r|
    requires Checked(ops, levels, level, k) && t == r[..at] + [RangeOf(ops[k])] + r[at..]
    ensures Tied(ops, levels, level, k + 1, t, Inserted(who, at, k))
  {
    hide Inserted, Dynamic;
    var now := Inserted(who, at, k);
    forall a {:trigger now[a]} | 0 <= a < |t|
      ensures now[a] < k + 1 && Checked(ops, levels, level, now[a]) && t[a] == RangeOf(ops[now[a]])
    {
    }
    hide Checked;
    forall a, b | 0 <= a < b < |t| ensures now[a] != now[b] {
    }
  }

  lemma TiedApart(ops: seq<Node>, levels: seq<nat>, level: nat, r: seq<Range>, who: seq<nat>)
    requires |levels| == |ops| && Tied(ops, levels, level, |ops|, r, who)
    ensures AllApart(r) <==> TickApart(ops, levels, level)
  {
    hide Dynamic;
    if AllApart(r) {
      forall i, j {:trigger Checked(ops, levels, level, i), Checked(ops, levels, level, j)} |
        0 <= i < j < |ops| && Checked(ops, levels, level, i) && Checked(ops, levels, level, j)
        ensures Apart(RangeOf(ops[i]), RangeOf(ops[j]))
      {
        assert i in who && j in who;
        var a :| 0 <= a < |who| && who[a] == i;
        var b :| 0 <= b < |who| && who[b] == j;
        assert Apart(r[a], r[b]) || Apart(r[b], r[a]);
      }
    }
    if TickApart(ops, levels, level) {
      forall a, b | 0 <= a < b < |r| ensures Apart(r[a], r[b]) {
        assert who[a] < |ops| && who[b] < |ops| && who[a] != who[b];
        if who[a] < who[b] {
          assert Apart(RangeOf(ops[who[a]]), RangeOf(ops[who[b]]));
        } else {
          assert Apart(RangeOf(ops[who[b]]), RangeOf(ops[who[a]]));
        }
      }
    }
  }

  ghost predicate TickGood(ops: seq<Node>, levels: seq<nat>, last: nat, later: seq<nat>, layerBits: nat, level: nat)
    requires |levels| == |ops| && Named(ops, later)
  {
    TickApart(ops, levels, level) && NodesGood(ops, levels, last, later, layerBits, level, |ops|)
  }

  ghost predicate NodesGood(ops: seq<Node>, levels: seq<nat>, last: nat, later: seq<nat>, layerBits: nat, level: nat, k: nat)
    requires |levels| == |ops| && Named(ops, later) && k <= |ops|
  {
    forall j {:trigger ops[j]} {:trigger levels[j]} | 0 <= j < k && levels[j] == level :: NodeGood(ops, levels, last, later, layerBits, j)
  }

  lemma TiedLength(ops: seq<Node>, levels: seq<nat>, level: nat, k: nat, r: seq<Range>, who: seq<nat>)
    requires |levels| == |ops| && k <= |ops| && Tied(ops, levels, level, k, r, who)
    ensures |who| == |r|
  {
  }

  /** The checks of one tick: ranges sorted and neighbours compared, then the nodes one by one. */
  method CheckTick(ops: seq<Node>, levels: seq<nat>, last: nat, later: seq<nat>, layerBits: nat, level: nat) returns (ok: bool)
    requires |levels| == |ops| && Named(ops, later)
    ensures ok <==> TickGood(ops, levels, last, later, layerBits, level)
  {
    hide Dynamic, Tied, Before, Sorted, AllApart, TickApart, Inserted, NodeGood;
    var r: seq<Range> := [];
    ghost var who: seq<nat> := [];
    var k, good := 0, true;
    NothingTied(ops, levels, level);
    while k < |ops|
      invariant 0 <= k <= |ops| && Sorted(r) && Tied(ops, levels, level, k, r, who)
      invariant good <==> NodesGood(ops, levels, last, later, layerBits, level, k)
    {
      ghost var was := r;
      if Checked(ops, levels, level, k) {
        var at;
        TiedLength(ops, levels, level, k, r, who);
        r, at := Insert(r, RangeOf(ops[k]));
        TiedMore(ops, levels, level, k, was, who, at, r);
        who := Inserted(who, at, k);
      } else {
        TiedSkip(ops, levels, level, k, r, who);
      }
      if levels[k] == level && !NodeGood(ops, levels, last, later, layerBits, k) {
        good := false;
      }
      k := k + 1;
    }
    var apart := CompareNeighbours(r);
    TiedWide(ops, levels, level, r, who);
    NeighboursDecide(r);
    TiedApart(ops, levels, level, r, who);
    return apart && good;
  }

  lemma NothingTied(ops: seq<Node>, levels: seq<nat>, level: nat)
    requires |levels| == |ops|
    ensures Sorted([]) && Tied(ops, levels, level, 0, [], [])
  {
  }

  lemma TiedWide(ops: seq<Node>, levels: seq<nat>, level: nat, r: seq<Range>, who: seq<nat>)
    requires |levels| == |ops| && Tied(ops, levels, level, |ops|, r, who)
    ensures forall a | 0 <= a < |r| :: r[a].lo <= r[a].hi
  {
    forall a | 0 <= a < |r| ensures r[a].lo <= r[a].hi {
      assert who[a] < |ops|;
    }
  }

  /** What all ticks of a block pass. */
  ghost predicate Accepted(ops: seq<Node>, levels: seq<nat>, last: nat, later: seq<nat>, layerBits: nat)
    requires |levels| == |ops| && Named(ops, later)
  {
    forall level: nat :: TickGood(ops, levels, last, later, layerBits, level)
  }

  /** The nodes whose destination is patched. */
  function Moved(ops: seq<Node>): set<nat> {
    set i | 0 <= i < |ops| && ops[i].dst.Into? && ops[i].dst.field == DstField :: ops[i].dst.node
  }

  /**
   * What the checks accept, in positions: copies of one tick to fixed places do not meet, fixed places lie behind the processor, and what is
   * patched, a later block's node or the terminator included, runs two ticks later at least.
   */
  lemma AcceptedMeans(ops: seq<Node>, levels: seq<nat>, last: nat, later: seq<nat>, layerBits: nat)
    requires |levels| == |ops| && Named(ops, later)
    ensures Accepted(ops, levels, last, later, layerBits) <==>
      && (forall i: nat, j: nat {:trigger ops[i], ops[j]} | i < j < |ops| && levels[i] == levels[j]
            && ops[i].dst.At? && ops[j].dst.At? && i !in Moved(ops) && j !in Moved(ops) ::
            ops[i].dst.pos + ops[i].n <= ops[j].dst.pos || ops[j].dst.pos + ops[j].n <= ops[i].dst.pos)
      && (forall j: nat {:trigger ops[j]} | j < |ops| && j !in Moved(ops) && ops[j].dst.At? :: layerBits <= ops[j].dst.pos)
      && (forall j: nat {:trigger ops[j]} | j < |ops| && j !in Moved(ops) && ops[j].dst.Into? ::
            var t := ops[j].dst.node;
            (if t < |ops| then levels[t] else if t == |ops| then last else last + later[t - |ops| - 1]) >= levels[j] + 2)
  {
    hide Accepted, Moved;
    if Accepted(ops, levels, last, later, layerBits) {
      forall i: nat, j: nat {:trigger ops[i], ops[j]} | i < j < |ops| && levels[i] == levels[j]
        && ops[i].dst.At? && ops[j].dst.At? && i !in Moved(ops) && j !in Moved(ops)
        ensures ops[i].dst.pos + ops[i].n <= ops[j].dst.pos || ops[j].dst.pos + ops[j].n <= ops[i].dst.pos
      {
        AcceptedPair(ops, levels, last, later, layerBits, i, j);
      }
      forall j: nat {:trigger ops[j]} | j < |ops| && j !in Moved(ops) ensures NodeFine(ops, levels, last, later, layerBits, j) {
        AcceptedNode(ops, levels, last, later, layerBits, j);
      }
    } else if (forall i: nat, j: nat {:trigger ops[i], ops[j]} | i < j < |ops| && levels[i] == levels[j]
                 && ops[i].dst.At? && ops[j].dst.At? && i !in Moved(ops) && j !in Moved(ops) ::
                 ops[i].dst.pos + ops[i].n <= ops[j].dst.pos || ops[j].dst.pos + ops[j].n <= ops[i].dst.pos) {
      var j := Unaccepted(ops, levels, last, later, layerBits);
      assert ops[j] == ops[j];
    }
  }

  /** One node's part of it. */
  predicate NodeFine(ops: seq<Node>, levels: seq<nat>, last: nat, later: seq<nat>, layerBits: nat, j: nat)
    requires |levels| == |ops| && j < |ops|
    requires ops[j].dst.Into? ==> ops[j].dst.node <= |ops| + |later|
  {
    if ops[j].dst.At? then layerBits <= ops[j].dst.pos
    else
      var t := ops[j].dst.node;
      (if t < |ops| then levels[t] else if t == |ops| then last else last + later[t - |ops| - 1]) >= levels[j] + 2
  }

  lemma DynamicMoved(ops: seq<Node>, j: nat)
    ensures Dynamic(ops, j) <==> j in Moved(ops)
  {
  }

  lemma AcceptedPair(ops: seq<Node>, levels: seq<nat>, last: nat, later: seq<nat>, layerBits: nat, i: nat, j: nat)
    requires |levels| == |ops| && Named(ops, later) && Accepted(ops, levels, last, later, layerBits) && i < j < |ops| && levels[i] == levels[j]
    requires ops[i].dst.At? && ops[j].dst.At? && i !in Moved(ops) && j !in Moved(ops)
    ensures ops[i].dst.pos + ops[i].n <= ops[j].dst.pos || ops[j].dst.pos + ops[j].n <= ops[i].dst.pos
  {
    DynamicMoved(ops, i);
    DynamicMoved(ops, j);
    hide Dynamic, Moved, NodesGood;
    assert TickGood(ops, levels, last, later, layerBits, levels[i]);
    assert Checked(ops, levels, levels[i], i) && Checked(ops, levels, levels[i], j);
  }

  lemma AcceptedNode(ops: seq<Node>, levels: seq<nat>, last: nat, later: seq<nat>, layerBits: nat, j: nat)
    requires |levels| == |ops| && Named(ops, later) && Accepted(ops, levels, last, later, layerBits) && j < |ops| && j !in Moved(ops)
    ensures ops[j].dst.Into? ==> ops[j].dst.node <= |ops| + |later|
    ensures NodeFine(ops, levels, last, later, layerBits, j)
  {
    DynamicMoved(ops, j);
    hide Dynamic, Moved, TickApart;
    assert TickGood(ops, levels, last, later, layerBits, levels[j]);
    assert ops[j] == ops[j] && NodeGood(ops, levels, last, later, layerBits, j);
  }

  /** If fixed places do not meet, a node is to blame. */
  lemma Unaccepted(ops: seq<Node>, levels: seq<nat>, last: nat, later: seq<nat>, layerBits: nat) returns (j: nat)
    requires |levels| == |ops| && Named(ops, later) && !Accepted(ops, levels, last, later, layerBits)
    requires forall i: nat, j: nat {:trigger ops[i], ops[j]} | i < j < |ops| && levels[i] == levels[j]
               && ops[i].dst.At? && ops[j].dst.At? && i !in Moved(ops) && j !in Moved(ops) ::
               ops[i].dst.pos + ops[i].n <= ops[j].dst.pos || ops[j].dst.pos + ops[j].n <= ops[i].dst.pos
    ensures j < |ops| && j !in Moved(ops) && (ops[j].dst.Into? ==> ops[j].dst.node <= |ops| + |later|)
    ensures !NodeFine(ops, levels, last, later, layerBits, j)
  {
    hide Dynamic, Moved;
    var level: nat :| !TickGood(ops, levels, last, later, layerBits, level);
    if !TickApart(ops, levels, level) {
      var a, b :| 0 <= a < b < |ops| && Checked(ops, levels, level, a) && Checked(ops, levels, level, b) && !Apart(RangeOf(ops[a]), RangeOf(ops[b]));
      DynamicMoved(ops, a);
      DynamicMoved(ops, b);
      assert false;
    }
    j :| 0 <= j < |ops| && levels[j] == level && !NodeGood(ops, levels, last, later, layerBits, j);
    DynamicMoved(ops, j);
    assert ops[j] == ops[j];
  }

  /** The checks of a block, tick after tick. */
  method Check(ops: seq<Node>, levels: seq<nat>, last: nat, later: seq<nat>, layerBits: nat) returns (ok: bool)
    requires |levels| == |ops| && Named(ops, later) && forall j | 0 <= j < |levels| :: levels[j] <= last
    ensures ok <==> Accepted(ops, levels, last, later, layerBits)
  {
    hide TickGood;
    ok := true;
    var level := 0;
    while level <= last
      invariant 0 <= level <= last + 1
      invariant ok <==> forall l: nat :: l < level ==> TickGood(ops, levels, last, later, layerBits, l)
    {
      var good := CheckTick(ops, levels, last, later, layerBits, level);
      ok := ok && good;
      level := level + 1;
    }
    forall l: nat | l > last ensures TickGood(ops, levels, last, later, layerBits, l) {
      EmptyTick(ops, levels, last, later, layerBits, l);
    }
  }

  lemma EmptyTick(ops: seq<Node>, levels: seq<nat>, last: nat, later: seq<nat>, layerBits: nat, level: nat)
    requires |levels| == |ops| && Named(ops, later) && forall j | 0 <= j < |levels| :: levels[j] != level
    ensures TickGood(ops, levels, last, later, layerBits, level)
  {
  }

  /** A copy of no bits whose destination lies inside what a copy of the same tick writes. */
  predicate EmptyInside(ops: seq<Node>, levels: seq<nat>, i: nat, j: nat)
    requires |levels| == |ops| && i < |ops| && j < |ops|
  {
    && Checked(ops, levels, levels[i], i) && Checked(ops, levels, levels[i], j)
    && ops[i].n == 0 && ops[j].dst.pos < ops[i].dst.pos < ops[j].dst.pos + ops[j].n
  }

  /** All that the generator has to answer for itself. */
  ghost predicate Sound(ops: seq<Node>, levels: seq<nat>, layerBits: nat)
    requires |levels| == |ops|
  {
    && (forall j {:trigger ops[j]} | 0 <= j < |ops| && ops[j].dst.At? && !Dynamic(ops, j) :: layerBits <= ops[j].dst.pos)
    && forall i: nat, j: nat {:trigger EmptyInside(ops, levels, i, j)} | i < |ops| && j < |ops| :: !EmptyInside(ops, levels, i, j)
  }

  /**
   * With the scheduler's levels the checks reject a block if and only if a copy with a fixed destination
   * writes over the processor, or a copy of no bits lies inside another of its tick: writes of one tick
   * never overlap, and patches are always two ticks ahead.
   */
  lemma SchedulePasses(ops: seq<Node>, levels: seq<nat>, last: nat, later: seq<nat>, layerBits: nat)
    requires |levels| == |ops| && Ordered(ops, levels, |ops|) && TermLevel(ops, levels, last) && Named(ops, later)
    requires forall j {:trigger ops[j]} | 0 <= j < |ops| && ops[j].dst.Into? :: j < ops[j].dst.node
    requires forall t | 0 <= t < |later| :: later[t] >= 1
    ensures Accepted(ops, levels, last, later, layerBits) <==> Sound(ops, levels, layerBits)
  {
    hide Ordered, Dynamic;
    if Sound(ops, levels, layerBits) {
      forall level: nat ensures TickGood(ops, levels, last, later, layerBits, level) {
        SoundApart(ops, levels, layerBits, level);
        forall j {:trigger ops[j]} | 0 <= j < |ops| && levels[j] == level ensures NodeGood(ops, levels, last, later, layerBits, j) {
          if ops[j].dst.Into? {
            PatchAhead(ops, levels, last, later, j);
          }
        }
      }
    }
    if Accepted(ops, levels, last, later, layerBits) {
      forall j {:trigger ops[j]} | 0 <= j < |ops| && ops[j].dst.At? && !Dynamic(ops, j) ensures layerBits <= ops[j].dst.pos {
        assert TickGood(ops, levels, last, later, layerBits, levels[j]);
        assert NodeGood(ops, levels, last, later, layerBits, j);
      }
      forall i: nat, j: nat {:trigger EmptyInside(ops, levels, i, j)} | i < |ops| && j < |ops| ensures !EmptyInside(ops, levels, i, j) {
        assert TickGood(ops, levels, last, later, layerBits, levels[i]);
        ApartNotInside(ops, levels, i, j);
      }
    }
  }

  lemma ApartNotInside(ops: seq<Node>, levels: seq<nat>, i: nat, j: nat)
    requires |levels| == |ops| && i < |ops| && j < |ops| && TickApart(ops, levels, levels[i])
    ensures !EmptyInside(ops, levels, i, j)
  {
    hide Dynamic;
    if EmptyInside(ops, levels, i, j) {
      assert false;
    }
  }

  lemma PatchAhead(ops: seq<Node>, levels: seq<nat>, last: nat, later: seq<nat>, j: nat)
    requires |levels| == |ops| && Ordered(ops, levels, |ops|) && TermLevel(ops, levels, last) && j < |ops| && ops[j].dst.Into?
    requires j < ops[j].dst.node <= |ops| + |later| && forall t | 0 <= t < |later| :: later[t] >= 1
    ensures Tick(levels, last, later, ops[j].dst.node) >= levels[j] + 2
  {
    var t := ops[j].dst.node;
    if t < |ops| {
      assert Delay(ops, j, t) == 2;
    } else if t == |ops| {
      assert Patches(ops[j], |ops|);
    }
  }

  lemma SoundApart(ops: seq<Node>, levels: seq<nat>, layerBits: nat, level: nat)
    requires |levels| == |ops| && Ordered(ops, levels, |ops|) && Sound(ops, levels, layerBits)
    ensures TickApart(ops, levels, level)
  {
    hide Ordered, Dynamic;
    forall i, j {:trigger Checked(ops, levels, level, i), Checked(ops, levels, level, j)} |
      0 <= i < j < |ops| && Checked(ops, levels, level, i) && Checked(ops, levels, level, j)
      ensures Apart(RangeOf(ops[i]), RangeOf(ops[j]))
    {
      assert !EmptyInside(ops, levels, i, j) && !EmptyInside(ops, levels, j, i);
      if !Apart(RangeOf(ops[i]), RangeOf(ops[j])) && ops[i].n > 0 && ops[j].n > 0 {
        SameTick(ops, levels, i, j);
        assert false;
      }
    }
  }

  /** Copies that share a bit are never levelled alike. */
  lemma SameTick(ops: seq<Node>, levels: seq<nat>, i: nat, j: nat)
    requires |levels| == |ops| && Ordered(ops, levels, |ops|) && i < j < |ops|
    requires ops[i].dst.At? && ops[j].dst.At? && ops[i].n > 0 && ops[j].n > 0
    requires !Apart(RangeOf(ops[i]), RangeOf(ops[j]))
    ensures levels[i] < levels[j]
  {
    var a, b := RangeOf(ops[i]), RangeOf(ops[j]);
    var p := if a.lo < b.lo then b.lo else a.lo;
    assert WritesAt(ops[i], p) && WritesAt(ops[j], p);
    SameWriter(ops, i, j, p);
  }

  /** Two bits to position 8 and none to position 9: nothing collides, and yet the checks reject it. */
  lemma EmptyRejected()
    ensures var ops := [Node(2, At(8), At(0)), Node(0, At(9), At(0))];
      && Ordered(ops, [1, 1], 2) && Tight(ops, [1, 1], 2) && TermLevel(ops, [1, 1], 2) && !Accepted(ops, [1, 1], 2, [], 0)
  {
    var ops := [Node(2, At(8), At(0)), Node(0, At(9), At(0))];
    assert Delay(ops, 0, 1) == 0;
    assert EmptyInside(ops, [1, 1], 1, 0);
    SchedulePasses(ops, [1, 1], 2, [], 0);
  }
}
