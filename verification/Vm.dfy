/** The emulator of src/space.c: one step of the machine with its two channels. */
module Vm {
  import opened Bits
  import opened Bytes
  import opened BitCopy
  import opened Machine
  import opened Layers
  import opened Programs
  import opened Writer
  import opened Rows

  datatype Outcome = Done | Idle | Error

  /** Everything one step may change, in bits: the space, what is left of IN, what has gone to OUT. */
  datatype World = World(space: Space, input: Space, output: Space)

  /** How far the outside goes along: how many bytes it takes or hands over, and whether handing over less than asked is an error. */
  datatype Peer = Peer(broken: bool, room: nat)

  function Min(a: nat, b: nat): nat {
    if a < b then a else b
  }

  /** The low bits of a value as a bit list. */
  function Spell(value: nat, width: nat): (s: Space)
    ensures |s| == width
  {
    seq(width, i requires 0 <= i < width => Digit(value, i))
  }

  function Put(s: Space, at: nat, bits: Space): (t: Space)
    requires at + |bits| <= |s|
    ensures |t| == |s|
  {
    s[..at] + bits + s[at + |bits|..]
  }

  /** A channel transfers whole bytes inside the space. */
  predicate Transfers(s: Space, row: Row) {
    row.n % 8 == 0 && row.dst % 8 == 0 && row.n < |s| / 2 && row.dst < |s| && row.n <= |s| - row.dst
  }

  /** Twice the number of bits copied, plus one after an error. */
  function Status(copied: nat, failed: bool): nat {
    16 * copied + (if failed then 1 else 0)
  }

  function Report(c: Config, s: Space, slot: nat, status: nat): (t: Space)
    requires c.Valid() && c.LayerBits() <= |s| && slot < SLOTS
    ensures |t| == |s|
  {
    SlotInLayer(c, 0, slot);
    Put(s, c.SlotAt(0, slot) + 2 * c.ab - 1, Spell(status, c.ab))
  }

  /** What a channel did: the world after the transfer, the bytes copied, and whether that is an error. */
  datatype Served = Served(world: World, copied: nat, failed: bool)

  function Serve(w: World, row: Row, isOutput: bool, peer: Peer): (x: Served)
    ensures |x.world.space| == |w.space|
  {
    if !Transfers(w.space, row) then Served(w, 0, true)
    else if isOutput then
      var copied := Min(row.n / 8, peer.room);
      Served(w.(output := w.output + w.space[row.dst..row.dst + 8 * copied]), copied, copied < row.n / 8)
    else
      var copied := Min(Min(row.n / 8, |w.input| / 8), peer.room);
      Served(w.(space := Put(w.space, row.dst, w.input[..8 * copied]), input := w.input[8 * copied..]),
             copied, copied < row.n / 8 && peer.broken)
  }

  /** A channel serves its row and reports in the row's source field. */
  function ServeSlot(c: Config, w: World, slot: nat, row: Row, isOutput: bool, peer: Peer): (v: World)
    requires c.Valid() && c.LayerBits() <= |w.space| && slot < SLOTS
    ensures |v.space| == |w.space|
  {
    if row.n == 0 then w
    else
      var x := Serve(w, row, isOutput, peer);
      x.world.(space := Report(c, x.world.space, slot, Status(x.copied, x.failed)))
  }

  /** What is reported is what is read back. */
  lemma ReportThere(c: Config, s: Space, slot: nat, status: nat, at: nat)
    requires c.Valid() && c.LayerBits() <= |s| && slot < SLOTS && at == c.SlotAt(0, slot) + 2 * c.ab - 1
    ensures at + c.ab <= |s| && Val(Report(c, s, slot, status), at, c.ab) == status % Pow2(c.ab)
    ensures forall p | 0 <= p < |s| && !(at <= p < at + c.ab) :: Report(c, s, slot, status)[p] == s[p]
  {
    SlotInLayer(c, 0, slot);
    hide Digit, Val, Pow2, c.SlotAt;
    var t := Report(c, s, slot, status);
    forall i | 0 <= i < c.ab ensures t[at + i] == Digit(status, i) {
    }
    DigitsVal(t, at, c.ab, status);
  }

  /** The transfer in bits. */
  lemma ServeBits(w: World, row: Row, isOutput: bool, peer: Peer)
    ensures var x := Serve(w, row, isOutput, peer);
      var taken := row.n % 8 == 0 && row.dst % 8 == 0 && row.n < |w.space| / 2 && row.dst + row.n <= |w.space|;
      var moved := 8 * x.copied;
      row.n != 0 ==> (
        && moved == (if !taken then 0 else if isOutput then Min(row.n, 8 * peer.room) else Min(Min(row.n, |w.input| / 8 * 8), 8 * peer.room))
        && x.failed == (!taken || (moved < row.n && (isOutput || peer.broken)))
        && (!taken ==> x.world == w)
        && (taken && isOutput ==> x.world == World(w.space, w.input, w.output + w.space[row.dst..row.dst + moved]))
        && (taken && !isOutput ==> moved <= |w.input| && x.world == World(Put(w.space, row.dst, w.input[..moved]), w.input[moved..], w.output)))
  {
  }

  /**
   * What serving OUT comes to: whole bytes of the space, as many as are asked for and taken, none at all if the row is unaligned or
   * too large; and twice the number of bits in the row's source field, plus one if the row is refused or falls short.
   */
  lemma ServedOut(c: Config, w: World, slot: nat, row: Row, peer: Peer, at: nat)
    requires c.Valid() && c.LayerBits() <= |w.space| && slot < SLOTS && at == c.SlotAt(0, slot) + 2 * c.ab - 1 && row.n != 0
    ensures var v := ServeSlot(c, w, slot, row, true, peer);
      var taken := row.n % 8 == 0 && row.dst % 8 == 0 && row.n < |w.space| / 2 && row.dst + row.n <= |w.space|;
      var moved := |v.output| - |w.output|;
      && moved == (if taken then Min(row.n, 8 * peer.room) else 0)
      && v.input == w.input && v.output == w.output + (if taken then w.space[row.dst..row.dst + moved] else [])
      && |v.space| == |w.space| && at + c.ab <= |w.space|
      && Val(v.space, at, c.ab) == (2 * moved + if taken && moved == row.n then 0 else 1) % Pow2(c.ab)
      && forall p | 0 <= p < |w.space| && !(at <= p < at + c.ab) :: v.space[p] == w.space[p]
  {
    var x := Serve(w, row, true, peer);
    ServeBits(w, row, true, peer);
    hide Serve, Report, Val, Pow2, Put;
    ReportThere(c, x.world.space, slot, Status(x.copied, x.failed), at);
  }

  /** The same of IN: the stream's next bytes, as many as are asked for, there and handed over; falling short is an error only on a broken stream. */
  lemma ServedIn(c: Config, w: World, slot: nat, row: Row, peer: Peer, at: nat)
    requires c.Valid() && c.LayerBits() <= |w.space| && slot < SLOTS && at == c.SlotAt(0, slot) + 2 * c.ab - 1 && row.n != 0 && |w.input| % 8 == 0
    ensures var v := ServeSlot(c, w, slot, row, false, peer);
      var taken := row.n % 8 == 0 && row.dst % 8 == 0 && row.n < |w.space| / 2 && row.dst + row.n <= |w.space|;
      var moved := |w.input| - |v.input|;
      && moved == (if taken then Min(Min(row.n, |w.input|), 8 * peer.room) else 0)
      && v.output == w.output && 0 <= moved <= |w.input| && v.input == w.input[moved..]
      && |v.space| == |w.space| && at + c.ab <= |w.space|
      && Val(v.space, at, c.ab) == (2 * moved + if taken && (moved == row.n || !peer.broken) then 0 else 1) % Pow2(c.ab)
      && forall p | 0 <= p < |w.space| && !(at <= p < at + c.ab) ::
           v.space[p] == if row.dst <= p < row.dst + moved then w.input[p - row.dst] else w.space[p]
  {
    var x := Serve(w, row, false, peer);
    ServeBits(w, row, false, peer);
    hide Serve, Report, Val, Pow2;
    ReportThere(c, x.world.space, slot, Status(x.copied, x.failed), at);
  }

  /** Some row of the processor has something to copy. */
  ghost predicate Active(c: Config, s: Space)
    requires c.Valid() && c.LayerBits() <= |s|
  {
    exists i | 0 <= i < SLOTS :: RowAt(c, s, 0, i).n != 0
  }

  lemma ActiveIs(c: Config, s: Space)
    requires c.Valid() && c.LayerBits() <= |s|
    ensures !Active(c, s) <==> forall i | 0 <= i < SLOTS :: RowAt(c, s, 0, i).n == 0
  {
  }

  /** Both channel rows are read before either channel runs; OUT runs first. */
  function Channels(c: Config, w: World, out: Peer, inp: Peer): (v: World)
    requires c.Valid() && c.LayerBits() <= |w.space|
    ensures |v.space| == |w.space|
  {
    var u := ServeSlot(c, w, 2, RowAt(c, w.space, 0, 2), true, out);
    ServeSlot(c, u, 1, RowAt(c, w.space, 0, 1), false, inp)
  }

  /** One step: idle, or the channels and then the copies in slot order. */
  ghost predicate Stepped(c: Config, w: World, out: Peer, inp: Peer, v: World, outcome: Outcome)
    requires c.Valid() && c.LayerBits() <= |w.space|
  {
    if !Active(c, w.space) then outcome == Idle && v == w
    else
      var u := Channels(c, w, out, inp);
      && v.input == u.input && v.output == u.output && |v.space| == |u.space|
      && match RunSlots(c, u.space, 0, SLOTS)
         case Some(t) => outcome == Done && v.space == t
         case None => outcome == Error && Stopped(c, u.space, 0, v.space)
  }

  /** The machine stopped at a row out of range; the copies in front of it have been made. */
  ghost predicate Stopped(c: Config, s: Space, from: nat, t: Space)
    requires c.Valid() && c.LayerBits() <= |s| && from <= SLOTS
  {
    exists k | from <= k < SLOTS && k != 1 && k != 2 ::
      && RunSlots(c, s, from, k) == Some(t)
      && ExecRow(t, RowAt(c, t, 0, k)) == None
  }

  /** Why a run has ended: nothing left to do, as many steps as were allowed, a row out of range. */
  datatype Stop = AtRest | AtLimit | AtError

  /** Consecutive steps of the emulator, with whatever is on the other side of its channels in each of them. */
  ghost predicate Course(c: Config, worlds: seq<World>, outs: seq<Peer>, inps: seq<Peer>, outcomes: seq<Outcome>) {
    && c.Valid() && |worlds| == |outcomes| + 1 && |outs| == |inps| == |outcomes|
    && (forall k {:trigger worlds[k]} | 0 <= k < |worlds| :: c.LayerBits() <= |worlds[k].space|)
    && forall k {:trigger outcomes[k]} | 0 <= k < |outcomes| :: Stepped(c, worlds[k], outs[k], inps[k], worlds[k + 1], outcomes[k])
  }

  function Dones(n: nat): (r: seq<Outcome>)
    ensures |r| == n && forall k {:trigger r[k]} | 0 <= k < n :: r[k] == Done
  {
    seq(n, k => Done)
  }

  /** What a run amounts to: steps that are done, and at the end an idle machine, the limit, or one step with an error. */
  ghost predicate Ran(c: Config, worlds: seq<World>, outs: seq<Peer>, inps: seq<Peer>, limit: nat, ticks: nat, reason: Stop) {
    && c.Valid() && ticks <= limit && limit == |outs| == |inps|
    && match reason
       case AtError => ticks < limit && Course(c, worlds, outs[..ticks + 1], inps[..ticks + 1], Dones(ticks) + [Error])
       case AtRest => Course(c, worlds, outs[..ticks], inps[..ticks], Dones(ticks)) && !Active(c, worlds[ticks].space)
       case AtLimit => Course(c, worlds, outs[..ticks], inps[..ticks], Dones(ticks)) && Active(c, worlds[ticks].space) && ticks == limit
  }

  lemma CourseMore(c: Config, worlds: seq<World>, outs: seq<Peer>, inps: seq<Peer>, outcomes: seq<Outcome>, k: nat, x: World, outcome: Outcome)
    requires k < |outs| && k < |inps| && Course(c, worlds, outs[..k], inps[..k], outcomes)
    requires Stepped(c, worlds[k], outs[k], inps[k], x, outcome) && |x.space| == |worlds[k].space|
    ensures Course(c, worlds + [x], outs[..k + 1], inps[..k + 1], outcomes + [outcome])
  {
    hide Stepped;
    var w, o := worlds + [x], outcomes + [outcome];
    forall i {:trigger o[i]} | 0 <= i < |o| ensures Stepped(c, w[i], outs[..k + 1][i], inps[..k + 1][i], w[i + 1], o[i]) {
      if i < k {
        assert outcomes[i] == o[i] && w[i] == worlds[i] && outs[..k][i] == outs[..k + 1][i] && inps[..k][i] == inps[..k + 1][i];
      }
    }
    forall i {:trigger w[i]} | 0 <= i < |w| ensures c.LayerBits() <= |w[i].space| {
      if i <= k { assert w[i] == worlds[i]; } else { assert worlds[k] == worlds[k]; }
    }
  }

  lemma CourseNone(c: Config, w: World, outs: seq<Peer>, inps: seq<Peer>)
    requires c.Valid() && c.LayerBits() <= |w.space|
    ensures Course(c, [w], outs[..0], inps[..0], Dones(0))
  {
  }

  /** A step has one outcome. */
  lemma StopsOnce(c: Config, s: Space, t: Space, u: Space)
    requires c.Valid() && c.LayerBits() <= |s| && Stopped(c, s, 0, t) && Stopped(c, s, 0, u)
    ensures t == u
  {
    hide RowAt, ExecRow;
    var j :| 0 <= j < SLOTS && j != 1 && j != 2 && RunSlots(c, s, 0, j) == Some(t) && ExecRow(t, RowAt(c, t, 0, j)) == None;
    var k :| 0 <= k < SLOTS && k != 1 && k != 2 && RunSlots(c, s, 0, k) == Some(u) && ExecRow(u, RowAt(c, u, 0, k)) == None;
    if j < k {
      RunSplit(c, s, 0, j, k);
    } else if k < j {
      RunSplit(c, s, 0, k, j);
    }
  }

  lemma StepOnce(c: Config, w: World, out: Peer, inp: Peer, v: World, o: Outcome, v': World, o': Outcome)
    requires c.Valid() && c.LayerBits() <= |w.space| && Stepped(c, w, out, inp, v, o) && Stepped(c, w, out, inp, v', o')
    ensures v == v' && o == o'
  {
    hide RunSlots, Stopped, Active;
    var u := Channels(c, w, out, inp);
    if Active(c, w.space) && RunSlots(c, u.space, 0, SLOTS).None? {
      StopsOnce(c, u.space, v.space, v'.space);
    }
  }

  /** Two courses from one world, with the same behaviour outside, go the same way. */
  lemma {:induction false} CoursesAgree(c: Config, a: seq<World>, outs: seq<Peer>, inps: seq<Peer>, x: seq<Outcome>,
                                        b: seq<World>, outs': seq<Peer>, inps': seq<Peer>, y: seq<Outcome>, k: nat)
    requires Course(c, a, outs, inps, x) && Course(c, b, outs', inps', y) && |a| == |x| + 1 && |b| == |y| + 1 && a[0] == b[0]
    requires k <= |x| && k <= |y| && k <= |outs| && k <= |inps| && k <= |outs'| && k <= |inps'| && outs[..k] == outs'[..k] && inps[..k] == inps'[..k]
    ensures a[k] == b[k] && x[..k] == y[..k]
  {
    hide Stepped;
    if k > 0 {
      var j := k - 1;
      assert outs[..j] == outs[..k][..j] && inps[..j] == inps[..k][..j] && outs'[..j] == outs'[..k][..j] && inps'[..j] == inps'[..k][..j];
      CoursesAgree(c, a, outs, inps, x, b, outs', inps', y, j);
      assert outs[j] == outs[..k][j] == outs'[j] && inps[j] == inps[..k][j] == inps'[j];
      assert a[j] == b[j] && x[j] == x[j] && y[j] == y[j];
      StepOnce(c, a[j], outs[j], inps[j], a[j + 1], x[j], b[j + 1], y[j]);
      assert x[..k] == x[..j] + [x[j]] && y[..k] == y[..j] + [y[j]];
    }
  }

  lemma OutcomeAgrees(c: Config, a: seq<World>, outs: seq<Peer>, inps: seq<Peer>, x: seq<Outcome>,
                      b: seq<World>, outs': seq<Peer>, inps': seq<Peer>, y: seq<Outcome>, k: nat)
    requires Course(c, a, outs, inps, x) && Course(c, b, outs', inps', y) && |a| == |x| + 1 && |b| == |y| + 1
    requires k < |x| && k < |y| && k < |outs| && k < |inps| && k < |outs'| && k < |inps'| && outs[k] == outs'[k] && inps[k] == inps'[k] && a[k] == b[k]
    ensures x[k] == y[k]
  {
    hide Stepped;
    assert Stepped(c, a[k], outs[k], inps[k], a[k + 1], x[k]) && Stepped(c, b[k], outs'[k], inps'[k], b[k + 1], y[k]);
    StepOnce(c, a[k], outs[k], inps[k], a[k + 1], x[k], b[k + 1], y[k]);
  }

  /**
   * How a run ends does not depend on its limit: with a higher limit, and the same behaviour outside so far, it ends at the same tick
   * for the same reason. So a run without a limit ends as these do, or never.
   */
  lemma RunsAgree(c: Config, a: seq<World>, outs: seq<Peer>, inps: seq<Peer>, limit: nat, ticks: nat, reason: Stop,
                  b: seq<World>, outs': seq<Peer>, inps': seq<Peer>, limit': nat, ticks': nat, reason': Stop)
    requires Ran(c, a, outs, inps, limit, ticks, reason) && Ran(c, b, outs', inps', limit', ticks', reason') && reason != AtLimit
    requires |a| > 0 && |b| > 0 && a[0] == b[0] && limit <= limit' && outs <= outs' && inps <= inps'
    ensures ticks' == ticks && reason' == reason && b == a
  {
    hide Active, Course, Dones;
    var x, y := OutcomesOf(ticks, reason), OutcomesOf(ticks', reason');
    RanCourse(c, a, outs, inps, limit, ticks, reason);
    RanCourse(c, b, outs', inps', limit', ticks', reason');
    OutcomesAre(ticks, reason);
    OutcomesAre(ticks', reason');
    var p, p', q, q' := outs[..|x|], inps[..|x|], outs'[..|y|], inps'[..|y|];
    forall k: nat | k <= |x| && k <= |y| ensures a[k] == b[k] && (k < |x| && k < |y| ==> x[k] == y[k]) {
      assert p[..k] == outs[..k] == outs'[..k] == q[..k] && p'[..k] == inps[..k] == inps'[..k] == q'[..k];
      CoursesAgree(c, a, p, p', x, b, q, q', y, k);
      if k < |x| && k < |y| {
        OutcomeAgrees(c, a, p, p', x, b, q, q', y, k);
      }
    }
    assert ticks < |x| && ticks < |y| ==> x[ticks] == y[ticks] && a[ticks] == b[ticks];
    assert ticks' < |x| && ticks' < |y| ==> x[ticks'] == y[ticks'] && a[ticks'] == b[ticks'];
    assert ticks <= |y| ==> a[ticks] == b[ticks];
    assert ticks' <= |x| ==> a[ticks'] == b[ticks'];
    if ticks < ticks' {
      TakenActive(c, b, q, q', y, ticks);
      assert false;
    } else if ticks' < ticks {
      TakenActive(c, a, p, p', x, ticks');
      assert false;
    } else if |x| > ticks {
      TakenActive(c, a, p, p', x, ticks);
    } else if |y| > ticks {
      TakenActive(c, b, q, q', y, ticks);
    }
  }

  /** The outcomes of a run's steps. */
  function OutcomesOf(ticks: nat, reason: Stop): seq<Outcome> {
    Dones(ticks) + if reason == AtError then [Error] else []
  }

  lemma OutcomesAre(ticks: nat, reason: Stop)
    ensures |OutcomesOf(ticks, reason)| == ticks + (if reason == AtError then 1 else 0)
    ensures forall k {:trigger OutcomesOf(ticks, reason)[k]} | 0 <= k < |OutcomesOf(ticks, reason)| :: OutcomesOf(ticks, reason)[k] == if k < ticks then Done else Error
  {
  }

  lemma RanCourse(c: Config, a: seq<World>, outs: seq<Peer>, inps: seq<Peer>, limit: nat, ticks: nat, reason: Stop)
    requires Ran(c, a, outs, inps, limit, ticks, reason)
    ensures var x := OutcomesOf(ticks, reason);
      |x| <= limit && Course(c, a, outs[..|x|], inps[..|x|], x) && |a| == |x| + 1
    ensures c.Valid() && forall k {:trigger a[k]} | 0 <= k < |a| :: c.LayerBits() <= |a[k].space|
  {
    hide Stepped;
    assert Dones(ticks) + [] == Dones(ticks);
  }

  /** A step that is done, or in error, is taken by an active machine. */
  lemma TakenActive(c: Config, worlds: seq<World>, outs: seq<Peer>, inps: seq<Peer>, outcomes: seq<Outcome>, k: nat)
    requires Course(c, worlds, outs, inps, outcomes) && k < |outcomes| && |worlds| == |outcomes| + 1 && outcomes[k] != Idle
    ensures c.Valid() && c.LayerBits() <= |worlds[k].space| && Active(c, worlds[k].space)
  {
    assert Stepped(c, worlds[k], outs[k], inps[k], worlds[k + 1], outcomes[k]);
  }

  /** The emulator. The rows of the processor are a cache: every use of a row fetches it first. */
  class Emulator {
    const ab: nat
    const space: array<bv8>
    const processor: array<Row>
    var input: seq<bv8>
    var output: seq<bv8>

    ghost predicate Valid()
      reads this
    {
      && C().Valid()
      && processor.Length == SLOTS
      && C().LayerBits() <= 8 * space.Length <= Pow2(ab)
    }

    function C(): Config {
      Config(ab)
    }

    ghost function Now(): (w: World)
      reads this, space
      requires Valid()
      ensures |w.space| == 8 * space.Length
    {
      World(Unpack(space[..]), Unpack(input), Unpack(output))
    }

    constructor (ab: nat, bytes: seq<bv8>, input: seq<bv8>)
      requires Config(ab).Valid() && Config(ab).LayerBits() <= 8 * |bytes| <= Pow2(ab)
      ensures Valid() && fresh(space) && fresh(processor)
      ensures Now() == World(Unpack(bytes), Unpack(input), [])
    {
      this.ab := ab;
      space := new bv8[|bytes|](i requires 0 <= i < |bytes| => bytes[i]);
      processor := new Row[SLOTS](i => NOP);
      this.input := input;
      output := [];
      new;
      assert space[..] == bytes;
    }

    method Fetch(i: nat)
      requires Valid() && i < SLOTS
      modifies processor
      ensures Valid()
      ensures processor[i] == RowAt(C(), Unpack(space[..]), 0, i)
      ensures forall j | 0 <= j < SLOTS && j != i :: processor[j] == old(processor[j])
    {
      hide RowAt, RowBitsAt;
      RowInSpace(C(), Unpack(space[..]), i);
      processor[i] := FetchInstruction(C(), space, i * C().RowBits());
    }

    method IsActive() returns (active: bool)
      requires Valid()
      modifies processor
      ensures Valid() && active == Active(C(), Unpack(space[..]))
    {
      hide RowAt, Unpack;
      ReadProcessor();
      var i := 0;
      while i < SLOTS
        invariant 0 <= i <= SLOTS
        invariant forall j | 0 <= j < i :: RowAt(C(), Unpack(space[..]), 0, j).n == 0
      {
        if processor[i].n != 0 {
          return true;
        }
        i := i + 1;
      }
      return false;
    }

    method ReadProcessor()
      requires Valid()
      modifies processor
      ensures Valid()
      ensures forall j | 0 <= j < SLOTS :: processor[j] == RowAt(C(), Unpack(space[..]), 0, j)
    {
      hide RowAt;
      var i := 0;
      while i < SLOTS
        invariant Valid() && 0 <= i <= SLOTS
        invariant forall j | 0 <= j < i :: processor[j] == RowAt(C(), Unpack(space[..]), 0, j)
      {
        Fetch(i);
        i := i + 1;
      }
    }

    /** Writes a status bit by bit. */
    method WriteFieldBits(at: nat, value: nat, width: nat)
      requires Valid() && at + width <= 8 * space.Length
      modifies space
      ensures Unpack(space[..]) == Put(Unpack(old(space[..])), at, Spell(value, width))
    {
      hide BitAt, Digit;
      var i := 0;
      while i < width
        invariant 0 <= i <= width
        invariant Unpack(space[..]) == Put(Unpack(old(space[..])), at, Spell(value, i))
      {
        ghost var before := Unpack(space[..]);
        BitCopy.SetBit(space, at + i, Digit(value, i));
        OneMore(Unpack(old(space[..])), before, Unpack(space[..]), at, value, i);
        i := i + 1;
      }
    }

    /** fread: as many bytes as there are before the end or an error, into the space. */
    method ReadBytes(at: nat, n: nat, room: nat) returns (copied: nat)
      requires Valid() && at + n <= space.Length
      modifies this`input, space
      ensures Valid() && copied == Min(Min(n, |old(input)|), room) && input == old(input)[copied..]
      ensures Unpack(space[..]) == Put(Unpack(old(space[..])), 8 * at, Unpack(old(input)[..copied]))
    {
      copied := Min(Min(n, |input|), room);
      forall i | 0 <= i < copied {
        space[at + i] := input[i];
      }
      BytesPut(old(space[..]), space[..], at, input[..copied]);
      input := input[copied..];
    }

    /** fwrite: as many bytes as the other side takes, out of the space. */
    method WriteBytes(at: nat, n: nat, room: nat) returns (copied: nat)
      requires Valid() && at + n <= space.Length
      modifies this`output
      ensures Valid() && copied == Min(n, room)
      ensures Unpack(output) == Unpack(old(output)) + Unpack(space[..])[8 * at..8 * at + 8 * copied]
    {
      hide Unpack;
      copied := Min(n, room);
      BytesTaken(space[..], at, copied);
      UnpackAppend(output, space[at..at + copied]);
      assert space[..][at..at + copied] == space[at..at + copied];
      output := output + space[at..at + copied];
    }

    /** The transfer of a channel. */
    method Transfer(row: Row, isOutput: bool, peer: Peer) returns (copied: nat, failed: bool)
      requires Valid()
      modifies this`input, this`output, space
      ensures Valid() && Served(Now(), copied, failed) == Serve(old(Now()), row, isOutput, peer)
    {
      hide Unpack, Put;
      UnpackLength(input);
      if row.n % 8 != 0 || row.dst % 8 != 0 || row.n >= 8 * space.Length / 2
         || row.dst >= 8 * space.Length || row.n > 8 * space.Length - row.dst
      {
        return 0, true;
      } else if isOutput {
        copied := WriteBytes(row.dst / 8, row.n / 8, peer.room);
        return copied, copied != row.n / 8;
      } else {
        UnpackSplit(input, Min(Min(row.n / 8, |input|), peer.room));
        copied := ReadBytes(row.dst / 8, row.n / 8, peer.room);
        return copied, copied != row.n / 8 && peer.broken;
      }
    }

    /** Serves a channel with the row fetched for it, and reports what it copied: ServedOut and ServedIn say what that comes to. */
    method Channel(slot: nat, isOutput: bool, peer: Peer)
      requires Valid() && slot < SLOTS
      modifies this`input, this`output, space
      ensures Valid()
      ensures Now() == ServeSlot(C(), old(Now()), slot, processor[slot], isOutput, peer)
    {
      hide Serve, Put, Digit, Spell, Report, Status;
      var row := processor[slot];
      if row.n == 0 {
        return;
      }
      var copied, failed := Transfer(row, isOutput, peer);
      ReportIs(C(), Unpack(space[..]), slot, Status(copied, failed));
      WriteFieldBits(slot * C().RowBits() + 2 * ab - 1, Status(copied, failed), ab);
    }

    /** One step of the machine. */
    method Step(outPeer: Peer, inPeer: Peer) returns (outcome: Outcome)
      requires Valid()
      modifies this`input, this`output, processor, space
      ensures Valid()
      ensures Stepped(C(), old(Now()), outPeer, inPeer, Now(), outcome)
    {
      hide RowAt, ServeSlot;
      var active := IsActive();
      if !active {
        return Idle;
      }
      Fetch(2);
      Fetch(1);
      Channel(2, true, outPeer);
      Channel(1, false, inPeer);
      var ok := Computation();
      outcome := if ok then Done else Error;
    }

    /** Steps until nothing is left to do, with at most so many of them; outs and inps are what the other side does in each. */
    method Run(limit: nat, outs: seq<Peer>, inps: seq<Peer>) returns (ticks: nat, reason: Stop, ghost worlds: seq<World>)
      requires Valid() && |outs| == |inps| == limit
      modifies this`input, this`output, processor, space
      ensures Valid() && Ran(C(), worlds, outs, inps, limit, ticks, reason)
      ensures |worlds| > 0 && worlds[0] == old(Now()) && worlds[|worlds| - 1] == Now()
      ensures |worlds| == ticks + if reason == AtError then 2 else 1
      ensures reason == AtLimit ==> ticks == limit && exists i | 0 <= i < SLOTS :: RowAt(C(), Unpack(space[..]), 0, i).n != 0
      ensures reason == AtRest ==> forall i | 0 <= i < SLOTS :: RowAt(C(), Unpack(space[..]), 0, i).n == 0
    {
      hide Stepped, Active, Course, Unpack;
      worlds := [Now()];
      ticks := 0;
      CourseNone(C(), Now(), outs, inps);
      while ticks < limit
        invariant 0 <= ticks <= limit && Valid() && |worlds| == ticks + 1
        invariant worlds[0] == old(Now()) && worlds[ticks] == Now()
        invariant Course(C(), worlds, outs[..ticks], inps[..ticks], Dones(ticks))
      {
        ghost var before := Now();
        var outcome := Step(outs[ticks], inps[ticks]);
        RestStep(C(), before, outs[ticks], inps[ticks], Now(), outcome);
        if outcome == Idle {
          ActiveIs(C(), Now().space);
          return ticks, AtRest, worlds;
        }
        CourseMore(C(), worlds, outs, inps, Dones(ticks), ticks, Now(), outcome);
        worlds := worlds + [Now()];
        if outcome == Error {
          return ticks, AtError, worlds;
        }
        assert Dones(ticks) + [Done] == Dones(ticks + 1);
        ticks := ticks + 1;
      }
      var active := IsActive();
      reason := if active then AtLimit else AtRest;
      ActiveIs(C(), Now().space);
    }

    /** Runs the copies in slot order, each fetched when it is reached. */
    method Computation() returns (ok: bool)
      requires Valid()
      modifies processor, space
      ensures Valid()
      ensures var s, t := Unpack(old(space[..])), Unpack(space[..]);
        match RunSlots(C(), s, 0, SLOTS)
        case Some(u) => ok && t == u
        case None => !ok && Stopped(C(), s, 0, t)
    {
      hide RowAt;
      var i := 0;
      while i < SLOTS
        invariant Valid() && 0 <= i <= SLOTS
        invariant RunSlots(C(), Unpack(old(space[..])), 0, i) == Some(Unpack(space[..]))
      {
        ghost var s0, s := Unpack(old(space[..])), Unpack(space[..]);
        RunSplit(C(), s0, 0, i, SLOTS);
        RunSplit(C(), s0, 0, i, i + 1);
        if i != 1 && i != 2 {
          Fetch(i);
          var row := processor[i];
          if row.n != 0 {
            if row.dst >= 8 * space.Length || row.src >= 8 * space.Length ||
               row.n > 8 * space.Length - row.dst || row.n > 8 * space.Length - row.src
            {
              return false;
            }
            ghost var before := space[..];
            Bitcpy(row.n, space, row.src, space, row.dst);
            MovedIsCopy(before, space[..], row.n, row.src, row.dst);
          }
        }
        i := i + 1;
      }
      return true;
    }
  }

  lemma RestStep(c: Config, w: World, out: Peer, inp: Peer, x: World, outcome: Outcome)
    requires c.Valid() && c.LayerBits() <= |w.space| && Stepped(c, w, out, inp, x, outcome)
    ensures outcome == Idle ==> x == w && !Active(c, w.space)
    ensures |x.space| == |w.space|
  {
    hide RunSlots, RowAt;
  }

  lemma ReportIs(c: Config, s: Space, slot: nat, status: nat)
    requires c.Valid() && c.LayerBits() <= |s| && slot < SLOTS
    ensures slot * c.RowBits() + 2 * c.ab - 1 + c.ab <= |s|
    ensures Report(c, s, slot, status) == Put(s, slot * c.RowBits() + 2 * c.ab - 1, Spell(status, c.ab))
  {
    hide Put, Spell;
    RowInSpace(c, s, slot);
  }

  lemma RowInSpace(c: Config, s: Space, i: nat)
    requires c.Valid() && c.LayerBits() <= |s| && i < SLOTS
    ensures c.SlotAt(0, i) == i * c.RowBits() && i * c.RowBits() + c.RowBits() <= c.LayerBits()
    ensures RowAt(c, s, 0, i) == RowBitsAt(c, s, i * c.RowBits())
  {
    hide Val;
    SlotInLayer(c, 0, i);
    OffsetIsProduct(c, i);
  }

  lemma OneMore(s: Space, before: Space, after: Space, at: nat, value: nat, i: nat)
    requires at + i + 1 <= |s| && before == Put(s, at, Spell(value, i))
    requires |after| == |s| && forall q | 0 <= q < |s| :: after[q] == if q == at + i then Digit(value, i) else before[q]
    ensures after == Put(s, at, Spell(value, i + 1))
  {
    hide Digit;
  }

  lemma BytesPut(before: seq<bv8>, after: seq<bv8>, at: nat, bytes: seq<bv8>)
    requires at + |bytes| <= |before| && after == before[..at] + bytes + before[at + |bytes|..]
    ensures Unpack(after) == Put(Unpack(before), 8 * at, Unpack(bytes))
  {
    hide BitOf;
  }

  lemma BytesTaken(bytes: seq<bv8>, at: nat, n: nat)
    requires at + n <= |bytes|
    ensures Unpack(bytes[at..at + n]) == Unpack(bytes)[8 * at..8 * at + 8 * n]
  {
    hide BitOf;
    var part := bytes[at..at + n];
    forall p | 0 <= p < 8 * n ensures Unpack(part)[p] == Unpack(bytes)[8 * at + p] {
      assert (8 * at + p) / 8 == at + p / 8 && (8 * at + p) % 8 == p % 8;
    }
  }

  lemma UnpackLength(a: seq<bv8>)
    ensures |Unpack(a)| == 8 * |a|
  {
  }

  lemma UnpackAppend(a: seq<bv8>, b: seq<bv8>)
    ensures Unpack(a + b) == Unpack(a) + Unpack(b)
  {
    hide BitOf;
  }

  lemma UnpackSplit(a: seq<bv8>, k: nat)
    requires k <= |a|
    ensures Unpack(a[..k]) == Unpack(a)[..8 * k] && Unpack(a[k..]) == Unpack(a)[8 * k..]
  {
    hide BitOf;
  }

  lemma MovedIsCopy(before: seq<bv8>, after: seq<bv8>, n: nat, from: nat, to: nat)
    requires from + n <= 8 * |before| && to + n <= 8 * |before| && Moved(before, before, n, from, to, after)
    ensures Unpack(after) == CopyBits(Unpack(before), n, to, from)
  {
    hide BitAt;
  }
}
