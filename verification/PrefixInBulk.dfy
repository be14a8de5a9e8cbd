/**
 * The prefix adder as the bulk generator makes it: gates, copies, levels, ticks. Its stages copy bits between two pairs
 * of buffers, and what keeps a later stage from overtaking an earlier one is that every copied bit is copied back.
 */
module PrefixInBulk {
  import opened Bits
  import opened Machine
  import opened CopyEmit
  import opened Layering
  import opened Gates
  import opened GatesInBulk
  import opened Agreement
  import opened Generate
  import opened Adders
  import H = Homes
  import P = Layers
  import S = Schedule
  import B = Bulk
  import V = Levels

  // ---- Where the gates of the stages are.

  function StageFirst(w: nat, t: nat): nat {
    if t <= 1 then 0 else StageFirst(w, t - 1) + 2 * w
  }

  /** Gate e (0 or 1) of position i in stage t. */
  function StageGate(s: Scratch, t: nat, i: nat, e: nat): Gate
    requires t > 0 && e < 2
  {
    StageBit(GroupsAt(s, t - 1), PassesAt(s, t - 1), GroupsAt(s, t), PassesAt(s, t), Pow2(t - 1), i)[e]
  }

  lemma {:induction false} StageAt(sg: nat, sp: nat, dg: nat, dp: nat, shift: nat, n: nat, i: nat, e: nat)
    requires i < n && e < 2
    ensures |StageGates(sg, sp, dg, dp, shift, n)| == 2 * n
    ensures StageGates(sg, sp, dg, dp, shift, n)[2 * i + e] == StageBit(sg, sp, dg, dp, shift, i)[e]
  {
    hide StageBit;
    StageSize(sg, sp, dg, dp, shift, n);
    StageSize(sg, sp, dg, dp, shift, n - 1);
    BitSize(sg, sp, dg, dp, shift, n - 1);
    if i < n - 1 {
      StageAt(sg, sp, dg, dp, shift, n - 1, i, e);
    }
  }

  lemma BitSize(sg: nat, sp: nat, dg: nat, dp: nat, shift: nat, i: nat)
    ensures |StageBit(sg, sp, dg, dp, shift, i)| == 2
  {
  }

  lemma {:induction false} StageSize(sg: nat, sp: nat, dg: nat, dp: nat, shift: nat, n: nat)
    ensures |StageGates(sg, sp, dg, dp, shift, n)| == 2 * n
  {
    if n > 0 {
      StageSize(sg, sp, dg, dp, shift, n - 1);
    }
  }

  lemma {:induction false} StagesSize(s: Scratch, w: nat, k: nat)
    ensures |StagesGates(s, w, k)| == StageFirst(w, k + 1)
  {
    hide StageGates, Pow2;
    if k > 0 {
      StagesSize(s, w, k - 1);
      StageSize(GroupsAt(s, k - 1), PassesAt(s, k - 1), GroupsAt(s, k), PassesAt(s, k), Pow2(k - 1), w);
    }
  }

  lemma {:induction false} StagesAt(s: Scratch, w: nat, k: nat, t: nat, i: nat, e: nat)
    requires 0 < t <= k && i < w && e < 2
    ensures StageFirst(w, t) + 2 * i + e < |StagesGates(s, w, k)|
    ensures StagesGates(s, w, k)[StageFirst(w, t) + 2 * i + e] == StageGate(s, t, i, e)
  {
    hide StageGates, Pow2, StageBit;
    StagesSize(s, w, k - 1);
    StagesSize(s, w, k);
    if t < k {
      StagesAt(s, w, k - 1, t, i, e);
    } else {
      StageAt(GroupsAt(s, k - 1), PassesAt(s, k - 1), GroupsAt(s, k), PassesAt(s, k), Pow2(k - 1), w, i, e);
    }
  }

  /** The stage and the position of a gate. */
  lemma {:induction false} StagesIndex(s: Scratch, w: nat, k: nat, j: nat) returns (t: nat, i: nat, e: nat)
    requires j < |StagesGates(s, w, k)|
    ensures 0 < t <= k && i < w && e < 2 && j == StageFirst(w, t) + 2 * i + e
  {
    hide StageGates, Pow2;
    StagesSize(s, w, k);
    assert k > 0;
    StagesSize(s, w, k - 1);
    if j < StageFirst(w, k) {
      t, i, e := StagesIndex(s, w, k - 1, j);
    } else {
      t, i, e := k, (j - StageFirst(w, k)) / 2, (j - StageFirst(w, k)) % 2;
    }
  }

  /** Stages follow one another. */
  lemma StageOrder(w: nat, t: nat, i: nat, e: nat, t': nat, i': nat, e': nat)
    requires 0 < t && 0 < t' && i < w && i' < w && e < 2 && e' < 2
    ensures StageFirst(w, t) + 2 * i + e < StageFirst(w, t') + 2 * i' + e' <==> t < t' || (t == t' && 2 * i + e < 2 * i' + e')
  {
    if t < t' {
      StageFirstGrows(w, t, t');
    } else if t' < t {
      StageFirstGrows(w, t', t);
    }
  }

  lemma {:induction false} StageFirstGrows(w: nat, t: nat, t': nat)
    requires 0 < t < t'
    ensures StageFirst(w, t) + 2 * w <= StageFirst(w, t')
    decreases t'
  {
    if t < t' - 1 {
      StageFirstGrows(w, t, t' - 1);
    }
  }

  // ---- Bits that are copied are copied back.

  /** The buffer that a stage's gates write: generate bits or propagate bits. */
  function BufferAt(s: Scratch, t: nat, e: nat): nat {
    if e == 0 then GroupsAt(s, t) else PassesAt(s, t)
  }

  lemma StageGateIs(s: Scratch, t: nat, i: nat, e: nat)
    requires t > 0 && e < 2
    ensures var g := StageGate(s, t, i, e);
      && g.dst == BufferAt(s, t, e) + i && (g.Move? <==> i < Pow2(t - 1)) && (g.Move? ==> g.src == BufferAt(s, t - 1, e) + i)
  {
  }

  lemma BuffersDiffer(s: Scratch, w: nat, t: nat, e: nat, i: nat, t': nat, e': nat, i': nat)
    requires Placed(s, w) && e < 2 && e' < 2 && i < w && i' < w && t' > 0 && BufferAt(s, t, e) + i == BufferAt(s, t', e') + i'
    ensures e == e' && i == i' && t > 0 && t % 2 == t' % 2
  {
  }

  lemma BufferReturns(s: Scratch, t: nat, e: nat)
    requires t > 0
    ensures BufferAt(s, t + 2, e) == BufferAt(s, t, e)
  {
  }

  lemma StagesCopyBack(s: Scratch, w: nat, k: nat)
    requires Placed(s, w)
    ensures CopiedBack(StagesGates(s, w, k))
  {
    hide StagesGates, Placed, StageGate, BufferAt, StageFirst;
    var gates := StagesGates(s, w, k);
    forall x, y {:trigger gates[x].src, gates[y].dst} | 0 <= x < y < |gates| && gates[x].Move? && gates[y].dst == gates[x].src ensures Back(gates, x, y) {
      var t, i, e := StagesIndex(s, w, k, x);
      var t', i', e' := StagesIndex(s, w, k, y);
      StagesAt(s, w, k, t, i, e);
      StagesAt(s, w, k, t', i', e');
      StageGateIs(s, t, i, e);
      StageGateIs(s, t', i', e');
      StageOrder(w, t, i, e, t', i', e');
      BuffersDiffer(s, w, t - 1, e, i, t', e', i');
      BackInNext(s, w, k, t, i, e, t', x, y);
    }
  }

  /** The next stage copies the bit back, and its own gate for that bit is the first to write it. */
  lemma BackInNext(s: Scratch, w: nat, k: nat, t: nat, i: nat, e: nat, t': nat, x: nat, y: nat)
    requires 1 < t < t' <= k && i < w && e < 2 && x == StageFirst(w, t) + 2 * i + e && y == StageFirst(w, t') + 2 * i + e
    requires x < |StagesGates(s, w, k)| && y < |StagesGates(s, w, k)| && i < Pow2(t - 1)
    requires StagesGates(s, w, k)[x] == StageGate(s, t, i, e) && StageGate(s, t, i, e).Move?
    ensures Back(StagesGates(s, w, k), x, y)
  {
    hide StagesGates, StageGate, BufferAt, StageFirst, Pow2;
    StagesAt(s, w, k, t + 1, i, e);
    StageGateIs(s, t, i, e);
    StageGateIs(s, t + 1, i, e);
    BufferReturns(s, t - 1, e);
    StageOrder(w, t, i, e, t + 1, i, e);
    StageOrder(w, t', i, e, t + 1, i, e);
    Doubled(0, t);
    var z := StageFirst(w, t + 1) + 2 * i + e;
    MovesAre(StagesGates(s, w, k)[z], StagesGates(s, w, k)[x]);
    assert x < z <= y;
  }

  lemma MovesAre(g: Gate, h: Gate)
    requires g.Move? && h.Move? && g.dst == h.src && g.src == h.dst
    ensures g == Move(h.src, h.dst)
  {
  }

  // ---- The whole adder.

  ghost predicate NoMoves(gates: seq<Gate>) {
    forall i {:trigger gates[i]} | 0 <= i < |gates| :: !gates[i].Move?
  }

  lemma AppendSparse(xs: seq<Gate>, ys: seq<Gate>)
    requires AllSparse(xs) && AllSparse(ys)
    ensures AllSparse(xs + ys)
  {
    hide GateSparse;
  }

  lemma {:induction false} InitIsLooks(s: Scratch, a: nat, b: nat, subtract: bool, n: nat)
    requires b != a + 1
    ensures NoMoves(InitGates(s, a, b, subtract, n)) && AllSparse(InitGates(s, a, b, subtract, n))
  {
    if n > 0 {
      InitIsLooks(s, a, b, subtract, n - 1);
      AppendSparse(InitGates(s, a, b, subtract, n - 1), InitBit(s, a, b, subtract, n - 1));
    }
  }

  /** In buffers of at least four bits no input of a stage follows another one. */
  lemma StageSparse(s: Scratch, w: nat, t: nat, shift: nat, i: nat, e: nat)
    requires Placed(s, w) && w >= 4 && i < w && 2 * shift <= w && shift > 0 && t > 0 && e < 2
    ensures GateSparse(StageBit(GroupsAt(s, t - 1), PassesAt(s, t - 1), GroupsAt(s, t), PassesAt(s, t), shift, i)[e])
  {
  }

  lemma {:induction false} StagesSparse(s: Scratch, w: nat, k: nat, n: nat)
    requires Placed(s, w) && w == Pow2(k) && k >= 2 && n <= k
    ensures AllSparse(StagesGates(s, w, n))
  {
    hide Placed, GateSparse, StagesGates, StageFirst, StageBit, Pow2;
    var gates := StagesGates(s, w, n);
    forall j {:trigger gates[j]} | 0 <= j < |gates| ensures GateSparse(gates[j]) {
      var t, i, e := StagesIndex(s, w, n, j);
      StagesAt(s, w, n, t, i, e);
      HalfWidth(k, t);
      StageSparse(s, w, t, Pow2(t - 1), i, e);
    }
  }

  lemma {:induction false} HalfWidth(k: nat, t: nat)
    requires 0 < t <= k && k >= 2
    ensures 2 * Pow2(t - 1) <= Pow2(k) && Pow2(k) >= 4
    decreases k
  {
    if t < k && k > 2 {
      HalfWidth(k - 1, t);
    } else {
      FourAtLeast(k);
      assert Pow2(0) == 1 && Pow2(1) == 2;
    }
  }

  lemma {:induction false} FourAtLeast(k: nat)
    requires k >= 2
    ensures Pow2(k) >= 4
  {
    if k > 2 {
      FourAtLeast(k - 1);
    }
  }

  lemma ResultSparse(s: Scratch, dst: nat, cin: nat, subtract: bool, k: nat, i: nat, w: nat)
    requires Placed(s, w) && w >= 4 && Apart(cin, 1, s.p0, w) && i < w && k > 0
    ensures GateSparse(ResultBit(s, dst, cin, subtract, k, i)) && !ResultBit(s, dst, cin, subtract, k, i).Move?
    ensures GateSparse(CarryGate(s, subtract, k, w))
    ensures ResultBit(s, dst, cin, subtract, k, i).dst == dst + i && CarryGate(s, subtract, k, w).dst == s.carry
  {
  }

  lemma {:induction false} ResultsSparse(s: Scratch, dst: nat, cin: nat, subtract: bool, k: nat, n: nat, w: nat)
    requires Placed(s, w) && w >= 4 && Apart(cin, 1, s.p0, w) && n <= w && k > 0
    ensures var gates := ResultGates(s, dst, cin, subtract, k, n);
      && AllSparse(gates) && NoMoves(gates)
      && forall i {:trigger gates[i]} | 0 <= i < |gates| :: Inside(gates[i].dst, dst, w)
  {
    hide Placed, GateSparse, ResultBit;
    if n > 0 {
      ResultsSparse(s, dst, cin, subtract, k, n - 1, w);
      ResultSparse(s, dst, cin, subtract, k, n - 1, w);
    }
  }

  /** What the stages copy lies in the buffers. */
  lemma StagesSources(s: Scratch, w: nat, k: nat, dst: nat)
    requires Apart(dst, w, s.g0, w) && Apart(dst, w, s.p0, w) && Apart(dst, w, s.ag, w) && Apart(dst, w, s.ap, w) && Apart(dst, w, s.bg, w) && Apart(dst, w, s.bp, w)
    requires Apart(s.carry, 1, s.g0, w) && Apart(s.carry, 1, s.p0, w) && Apart(s.carry, 1, s.ag, w) && Apart(s.carry, 1, s.ap, w)
    requires Apart(s.carry, 1, s.bg, w) && Apart(s.carry, 1, s.bp, w)
    ensures var gates := StagesGates(s, w, k);
      forall i {:trigger gates[i]} | 0 <= i < |gates| && gates[i].Move? :: !Inside(gates[i].src, dst, w) && gates[i].src != s.carry
  {
    hide StagesGates, StageFirst, StageGate, Pow2;
    var gates := StagesGates(s, w, k);
    forall j {:trigger gates[j]} | 0 <= j < |gates| && gates[j].Move? ensures !Inside(gates[j].src, dst, w) && gates[j].src != s.carry {
      var t, i, e := StagesIndex(s, w, k, j);
      StagesAt(s, w, k, t, i, e);
      StageGateIs(s, t, i, e);
    }
  }

  lemma BackBehindLooks(xs: seq<Gate>, ys: seq<Gate>)
    requires NoMoves(xs) && CopiedBack(ys)
    ensures CopiedBack(xs + ys)
  {
    hide Back, NoMoves;
    var all := xs + ys;
    forall i, j {:trigger all[i].src, all[j].dst} | 0 <= i < j < |all| && all[i].Move? && all[j].dst == all[i].src ensures Back(all, i, j) {
      LookFirst(xs, ys, i);
      BackShifted(xs, ys, i - |xs|, j - |xs|);
    }
  }

  lemma BackShifted(xs: seq<Gate>, ys: seq<Gate>, i: nat, j: nat)
    requires i < j < |ys| && ys[i].Move? && ys[j].dst == ys[i].src && CopiedBack(ys)
    ensures (xs + ys)[|xs| + i] == ys[i] && Back(xs + ys, |xs| + i, |xs| + j)
  {
    var k := BackAt(ys, i, j);
    assert (xs + ys)[|xs| + k] == ys[k];
  }

  lemma LookFirst(xs: seq<Gate>, ys: seq<Gate>, i: nat)
    requires NoMoves(xs) && i < |xs| + |ys|
    ensures i < |xs| ==> !(xs + ys)[i].Move?
    ensures i >= |xs| ==> (xs + ys)[i] == ys[i - |xs|]
  {
  }

  /** None of the gates writes what is copied. */
  ghost predicate Spares(ys: seq<Gate>, zs: seq<Gate>) {
    forall i, j {:trigger ys[i].src, zs[j].dst} | 0 <= i < |ys| && 0 <= j < |zs| && ys[i].Move? :: zs[j].dst != ys[i].src
  }

  lemma BackBeforeLooks(ys: seq<Gate>, zs: seq<Gate>, last: Gate)
    requires CopiedBack(ys) && NoMoves(zs) && Spares(ys, zs + [last])
    ensures CopiedBack(ys + (zs + [last]))
  {
    hide Spares;
    var all := ys + (zs + [last]);
    forall i, j {:trigger all[i].src, all[j].dst} | 0 <= i < j < |all| && all[i].Move? && all[j].dst == all[i].src ensures Back(all, i, j) {
      EarlyBoth(ys, zs, last, i, j);
      var k := BackAt(ys, i, j);
      assert all[k] == ys[k];
    }
  }

  lemma EarlyBoth(ys: seq<Gate>, zs: seq<Gate>, last: Gate, i: nat, j: nat)
    requires NoMoves(zs) && Spares(ys, zs + [last]) && i < j < |ys| + |zs| + 1
    ensures var all := ys + (zs + [last]); j < |ys| || !all[i].Move? || all[j].dst != all[i].src
  {
    var all, more := ys + (zs + [last]), zs + [last];
    if j >= |ys| {
      assert all[j] == more[j - |ys|];
      if i >= |ys| {
        assert all[i] == zs[i - |ys|];
      } else {
        assert all[i] == ys[i];
      }
    }
  }

  /** The places of the adder, for the scheduler: the carry beside the buffers, the operands not one bit apart. */
  ghost predicate BulkPlaces(s: Scratch, dst: nat, a: nat, b: nat, cin: nat, w: nat) {
    && WordsPlaced(s, dst, a, b, cin, w) && b != a + 1
    && Apart(s.carry, 1, s.p0, w) && Apart(s.carry, 1, s.ag, w) && Apart(s.carry, 1, s.ap, w) && Apart(s.carry, 1, s.bg, w) && Apart(s.carry, 1, s.bp, w)
  }

  lemma PrefixSchedules(s: Scratch, dst: nat, a: nat, b: nat, cin: nat, subtract: bool, k: nat)
    requires BulkPlaces(s, dst, a, b, cin, Pow2(k)) && k >= 2
    ensures var gates := PrefixGates(s, dst, a, b, cin, subtract, k);
      AllSparse(gates) && CopiedBack(gates)
  {
    hide Placed, AllSparse, CopiedBack, InitGates, StagesGates, ResultGates, CarryGate, Pow2;
    var w := Pow2(k);
    var xs, ys, zs, last := InitGates(s, a, b, subtract, w), StagesGates(s, w, k), ResultGates(s, dst, cin, subtract, k, w), CarryGate(s, subtract, k, w);
    FourAtLeast(k);
    InitIsLooks(s, a, b, subtract, w);
    StagesSparse(s, w, k, k);
    ResultsSparse(s, dst, cin, subtract, k, w, w);
    ResultSparse(s, dst, cin, subtract, k, 0, w);
    OneSparse(last);
    AppendSparse(xs, ys);
    AppendSparse(xs + ys, zs);
    AppendSparse(xs + ys + zs, [last]);
    StagesCopyBack(s, w, k);
    StagesSources(s, w, k, dst);
    BackBeforeLooks(ys, zs, last);
    BackBehindLooks(xs, ys + (zs + [last]));
    assert xs + (ys + (zs + [last])) == xs + ys + zs + [last];
  }

  lemma OneSparse(g: Gate)
    requires GateSparse(g)
    ensures AllSparse([g])
  {
    hide GateSparse;
  }

  /** For every width 2^k of at least four bits: the scheduled prefix adder, run by the bulk machine, leaves sum and carry. */
  lemma PrefixInBulk(c: Config, x: Block, book: Book, data: seq<Datum>, first: nat, end: nat, u: Space, m: B.Memory, levels: seq<nat>, last: nat,
                     s: Scratch, dst: nat, a: nat, b: nat, cin: nat, subtract: bool, k: nat)
    requires c.Valid() && Installed(c, x, book, data, first, end, PrefixGates(s, dst, a, b, cin, subtract, k), u)
    requires BulkPlaces(s, dst, a, b, cin, Pow2(k)) && k >= 2
    requires ScratchWork(c, x, |u|, first, end, s, Pow2(k)) && Work(c, x, |u|, first, end, dst, Pow2(k))
    requires InData(c, x, a, Pow2(k)) && a + Pow2(k) <= |u| && InData(c, x, b, Pow2(k)) && b + Pow2(k) <= |u|
    requires DataBit(c, x, |u|, cin) && u[cin] == subtract
    requires Homed(c, x, u, m) && Levelled(x.nodes, levels, last)
    ensures AddedIn(u, DataSpace(B.After(BulkBlock(c, x), m, levels, last), |u|), dst, s.carry, a, b, subtract, Pow2(k))
  {
    hide PrefixGates, AllUse, Shows, Adders.Run, InData, AddedIn, Added, WordsPlaced, Homed, S.Ordered, S.Tight, S.Reached, S.TermLevel, GatesFit, TablesLie, Tabled, TablesLaid, Loaded, BlockNodes, AllSparse,
      CopiedBack, B.After, Pow2, MemoryOf;
    var gates, w := PrefixGates(s, dst, a, b, cin, subtract, k), DataSpace(B.After(BulkBlock(c, x), m, levels, last), |u|);
    PrefixUses(c, x, |u|, first, end, s, dst, a, b, cin, subtract, k);
    InstalledFits(c, x, book, data, first, end, gates, u);
    PrefixSchedules(s, dst, a, b, cin, subtract, k);
    RunsInBulk(c, x, book, gates, u, m, levels, last);
    CinIs(u, cin);
    PrefixAdds(MemoryOf(u), s, dst, a, b, cin, subtract, k);
    AddedShown(c, x, u, w, Adders.Run(MemoryOf(u), gates), dst, s.carry, a, b, subtract, Pow2(k));
  }

  lemma CinIs(u: Space, cin: nat)
    requires cin < |u|
    ensures Get(MemoryOf(u), cin) == u[cin]
  {
  }

  lemma PrefixSchedulable(c: Config, x: Block, book: Book, data: seq<Datum>, first: nat, end: nat, u: Space, levels: seq<nat>, last: nat,
                          s: Scratch, dst: nat, a: nat, b: nat, cin: nat, subtract: bool, k: nat)
    requires c.Valid() && Installed(c, x, book, data, first, end, PrefixGates(s, dst, a, b, cin, subtract, k), u)
    requires BulkPlaces(s, dst, a, b, cin, Pow2(k)) && k >= 2
    requires ScratchWork(c, x, |u|, first, end, s, Pow2(k)) && Work(c, x, |u|, first, end, dst, Pow2(k))
    requires InData(c, x, a, Pow2(k)) && a + Pow2(k) <= |u| && InData(c, x, b, Pow2(k)) && b + Pow2(k) <= |u|
    requires DataBit(c, x, |u|, cin) && Levelled(x.nodes, levels, last)
    ensures Schedulable(x.nodes, levels, last)
  {
    hide PrefixGates, AllUse, InData, WordsPlaced, Levelled, GatesFit, TablesLie, Tabled, TablesLaid, Loaded, BlockNodes, AllSparse, CopiedBack, Pow2, Schedulable;
    var gates := PrefixGates(s, dst, a, b, cin, subtract, k);
    PrefixUses(c, x, |u|, first, end, s, dst, a, b, cin, subtract, k);
    InstalledFits(c, x, book, data, first, end, gates, u);
    PrefixSchedules(s, dst, a, b, cin, subtract, k);
    GatesSchedulable(c, x, book, gates, u, levels, last);
  }

  /** And so at bit addresses, where the ticks load and patch their own rows. */
  lemma PrefixAtAddresses(c: Config, x: Block, book: Book, data: seq<Datum>, first: nat, end: nat, u: Space, m: B.Memory, plan: H.Plan,
                          s: Scratch, dst: nat, a: nat, b: nat, cin: nat, subtract: bool, k: nat) returns (v: Space, w: Space)
    requires c.Valid() && Installed(c, x, book, data, first, end, PrefixGates(s, dst, a, b, cin, subtract, k), u)
    requires BulkPlaces(s, dst, a, b, cin, Pow2(k)) && k >= 2
    requires ScratchWork(c, x, |u|, first, end, s, Pow2(k)) && Work(c, x, |u|, first, end, dst, Pow2(k))
    requires InData(c, x, a, Pow2(k)) && a + Pow2(k) <= |u| && InData(c, x, b, Pow2(k)) && b + Pow2(k) <= |u|
    requires DataBit(c, x, |u|, cin) && u[cin] == subtract
    requires plan.nodes == x.nodes && Homed(c, x, u, m) && Levelled(x.nodes, plan.levels, plan.last)
    requires H.Planned(c, plan) && H.AtTick(c, plan, u, m, 0) && H.AllProper(c, plan, |u|, m)
    requires H.InPlan(c, plan, dst, Pow2(k)) && H.InPlan(c, plan, s.carry, 1)
    ensures c.LayerBits() <= |u| && H.BulkTicks(c, u, plan.last - 1) == Some(v) && H.Commits(c, v, P.LINK) == Some(w)
    ensures AddedIn(u, w, dst, s.carry, a, b, subtract, Pow2(k))
  {
    hide PrefixGates, BlockNodes, TablesLaid, Loaded, Tabled, InData, AddedIn, WordsPlaced, Homed, S.Ordered, S.Tight, S.Reached, S.TermLevel, B.After, B.State, Pow2, Schedulable, H.Planned, H.WellPlanned,
      H.AtTick, H.AllProper, H.InPlan, H.BulkTicks, H.Commits, H.DataShown, ScratchWork, Work, H.RowIn, RowAt, DataBit, BulkPlaces;
    PrefixSchedulable(c, x, book, data, first, end, u, plan.levels, plan.last, s, dst, a, b, cin, subtract, k);
    InitialOf(c, x, u, m);
    PlanWell(c, x, book, PrefixGates(s, dst, a, b, cin, subtract, k), plan);
    v, w := H.BulkAtAddresses(c, plan, u, m);
    PrefixInBulk(c, x, book, data, first, end, u, m, plan.levels, plan.last, s, dst, a, b, cin, subtract, k);
    CarriedOver(c, plan, u, B.After(BulkBlock(c, x), m, plan.levels, plan.last), w, dst, s.carry, a, b, subtract, Pow2(k));
  }

  lemma PlanWell(c: Config, x: Block, book: Book, gates: seq<Gate>, plan: H.Plan)
    requires c.Valid() && c.LayerBits() <= x.base && x.nodes == BlockNodes(book, gates) && plan.nodes == x.nodes
    ensures H.WellPlanned(plan)
  {
    hide BlockNodes;
    BlockWell(c, x, book, gates);
    forall j {:trigger plan.nodes[j]} | 0 <= j < |plan.nodes| ensures plan.nodes[j].src.At? && (plan.nodes[j].dst.Into? ==> plan.nodes[j].dst.node <= |plan.nodes|) {
      assert x.nodes[j] == plan.nodes[j];
    }
  }

  lemma CarriedOver(c: Config, plan: H.Plan, u: Space, m: B.Memory, w: Space, dst: nat, carry: nat, a: nat, b: nat, subtract: bool, n: nat)
    requires c.Valid() && H.DataShown(c, plan, w, m) && |w| == |u| && H.InPlan(c, plan, dst, n) && H.InPlan(c, plan, carry, 1)
    requires AddedIn(u, DataSpace(m, |u|), dst, carry, a, b, subtract, n)
    ensures AddedIn(u, w, dst, carry, a, b, subtract, n)
  {
    hide Val, B.Read, Pow2, H.InPlan;
    var d := DataSpace(m, |u|);
    forall p {:trigger w[p]} {:trigger d[p]} | dst <= p < dst + n ensures w[p] == d[p] {
      H.PlanPart(c, plan, dst, n, p);
    }
    ValFrame(w, d, dst, n);
    H.PlanPart(c, plan, carry, 1, carry);
  }

  /** The generator's own 32-bit adder, in the words it sets aside. */
  lemma BulkAdderInBulk(c: Config, x: Block, book: Book, data: seq<Datum>, first: nat, end: nat, u: Space, m: B.Memory, levels: seq<nat>, last: nat,
                        base: nat, carry: nat, dst: nat, a: nat, b: nat, cin: nat, subtract: bool)
    requires c.Valid() && Installed(c, x, book, data, first, end, PrefixGates(BulkScratch(base, carry), dst, a, b, cin, subtract, 5), u)
    requires Apart(dst, 32, base + 2048, 192) && Apart(a, 32, base + 2048, 192) && Apart(b, 32, base + 2048, 192) && b != a + 1
    requires Apart(cin, 1, base + 2048, 192) && Apart(dst, 32, cin, 1) && Apart(carry, 1, base + 2048, 192) && Apart(carry, 1, dst, 32)
    requires Work(c, x, |u|, first, end, base + 2048, 192) && Work(c, x, |u|, first, end, carry, 1) && Work(c, x, |u|, first, end, dst, 32)
    requires InData(c, x, a, 32) && a + 32 <= |u| && InData(c, x, b, 32) && b + 32 <= |u|
    requires DataBit(c, x, |u|, cin) && u[cin] == subtract
    requires Homed(c, x, u, m) && Levelled(x.nodes, levels, last)
    ensures AddedIn(u, DataSpace(B.After(BulkBlock(c, x), m, levels, last), |u|), dst, carry, a, b, subtract, 32)
  {
    hide PrefixGates, Installed, Homed, Levelled, AddedIn, WordsPlaced, B.After, Pow2, DataBit, Work, InData;
    var s := BulkScratch(base, carry);
    BulkPlaced(base, carry, dst, a, b, cin);
    BulkWork(c, x, |u|, first, end, base, carry);
    PrefixInBulk(c, x, book, data, first, end, u, m, levels, last, s, dst, a, b, cin, subtract, 5);
  }

  lemma BulkWork(c: Config, x: Block, size: nat, first: nat, end: nat, base: nat, carry: nat)
    requires c.Valid() && Work(c, x, size, first, end, base + 2048, 192) && Work(c, x, size, first, end, carry, 1)
    ensures ScratchWork(c, x, size, first, end, BulkScratch(base, carry), 32)
  {
    hide LayerAt, LayerCount;
  }
}
