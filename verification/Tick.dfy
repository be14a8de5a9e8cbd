/** One step of the emulator, position by position: what goes out, what comes in, what is reported, and which bit each copy puts where. */
module Tick {
  import opened Bits
  import opened Machine
  import opened Layers
  import opened Programs
  import opened Writer
  import opened Rows
  import opened Vm

  /** Rows lie side by side, each a count of ab - 1 bits and two addresses of ab bits. */
  function RowBegin(ab: nat, i: nat): nat
    requires ab > 0
  {
    if i == 0 then 0 else RowBegin(ab, i - 1) + 3 * ab - 1
  }

  lemma {:induction false} BeginsAt(c: Config, i: nat)
    requires c.Valid()
    ensures RowBegin(c.ab, i) == c.SlotAt(0, i)
  {
    if i > 0 {
      BeginsAt(c, i - 1);
    }
  }

  predicate HasRow(ab: nat, s: Space, i: nat) {
    ab >= 2 && RowBegin(ab, i) + 3 * ab - 1 <= |s|
  }

  /** How many bits the row of a slot copies, and to and from which positions. */
  function Count(ab: nat, s: Space, i: nat): nat
    requires HasRow(ab, s, i)
  {
    Val(s, RowBegin(ab, i), ab - 1)
  }

  function Target(ab: nat, s: Space, i: nat): nat
    requires HasRow(ab, s, i)
  {
    Val(s, RowBegin(ab, i) + ab - 1, ab)
  }

  function Origin(ab: nat, s: Space, i: nat): nat
    requires HasRow(ab, s, i)
  {
    Val(s, RowBegin(ab, i) + 2 * ab - 1, ab)
  }

  /** What slot i does to a space: nothing in slots 1 and 2 or without bits to copy, otherwise its row's copy, all bits read first. */
  ghost predicate Copies(ab: nat, s: Space, i: nat, t: Space)
    requires HasRow(ab, s, i)
  {
    var n, dst, src := Count(ab, s, i), Target(ab, s, i), Origin(ab, s, i);
    && |t| == |s|
    && if i == 1 || i == 2 || n == 0 then t == s
       else dst + n <= |s| && src + n <= |s| && forall p {:trigger t[p]} | 0 <= p < |s| :: t[p] == if dst <= p < dst + n then s[p - dst + src] else s[p]
  }

  /** A row that leaves the space, in a slot that is executed. */
  ghost predicate Refused(ab: nat, s: Space, i: nat)
    requires HasRow(ab, s, i)
  {
    var n, dst, src := Count(ab, s, i), Target(ab, s, i), Origin(ab, s, i);
    i != 1 && i != 2 && n != 0 && (dst + n > |s| || src + n > |s|)
  }

  lemma SlotThere(c: Config, s: Space, i: nat)
    requires c.Valid() && c.LayerBits() <= |s| && i < SLOTS
    ensures HasRow(c.ab, s, i) && RowAt(c, s, 0, i) == Row(Count(c.ab, s, i), Target(c.ab, s, i), Origin(c.ab, s, i))
  {
    hide Val, RowBegin;
    BeginsAt(c, i);
    RowInSpace(c, s, i);
  }

  lemma SlotCopies(c: Config, s: Space, i: nat)
    requires c.Valid() && c.LayerBits() <= |s| && i < SLOTS
    ensures HasRow(c.ab, s, i)
    ensures if i == 1 || i == 2 then Copies(c.ab, s, i, s) && !Refused(c.ab, s, i)
            else
              var next := ExecRow(s, RowAt(c, s, 0, i));
              if next.Some? then Copies(c.ab, s, i, next.value) && !Refused(c.ab, s, i) else Refused(c.ab, s, i)
  {
    SlotThere(c, s, i);
    hide RowAt, HasRow, Count, Target, Origin;
  }

  lemma {:induction false} SlotPath(c: Config, s: Space, from: nat, to: nat) returns (path: seq<Space>)
    requires c.Valid() && c.LayerBits() <= |s| && from <= to <= SLOTS
    ensures 0 < |path| <= to - from + 1 && path[0] == s && forall i | 0 <= i < |path| :: |path[i]| == |s|
    ensures forall i: nat, x: Space {:trigger HasRow(c.ab, x, i)} | i < SLOTS && |x| == |s| :: HasRow(c.ab, x, i)
    ensures forall i {:trigger path[i]} | 0 <= i < |path| - 1 :: Copies(c.ab, path[i], from + i, path[i + 1])
    ensures var last := path[|path| - 1];
      if RunSlots(c, s, from, to).Some? then |path| == to - from + 1 && last == RunSlots(c, s, from, to).value
      else |path| <= to - from && Refused(c.ab, last, from + |path| - 1) && Stopped(c, s, from, last)
    decreases (to as int) - from
  {
    hide ExecRow, RowAt, Copies, Refused, HasRow;
    forall i: nat, x: Space {:trigger HasRow(c.ab, x, i)} | i < SLOTS && |x| == |s| ensures HasRow(c.ab, x, i) {
      SlotCopies(c, x, i);
    }
    hide Stopped;
    if from == to {
      path := [s];
    } else {
      SlotCopies(c, s, from);
      if from == 1 || from == 2 {
        path := SlotPath(c, s, from + 1, to);
        if RunSlots(c, s, from, to).None? {
          StoppedLater(c, s, from, s, path[|path| - 1]);
        }
        path := [s] + path;
      } else {
        var next := ExecRow(s, RowAt(c, s, 0, from));
        if next == None {
          path := [s];
          StoppedHere(c, s, from);
        } else {
          path := SlotPath(c, next.value, from + 1, to);
          if RunSlots(c, s, from, to).None? {
            StoppedLater(c, s, from, next.value, path[|path| - 1]);
          }
          path := [s] + path;
        }
      }
    }
  }

  lemma StoppedHere(c: Config, s: Space, from: nat)
    requires c.Valid() && c.LayerBits() <= |s| && from < SLOTS && from != 1 && from != 2 && ExecRow(s, RowAt(c, s, 0, from)) == None
    ensures Stopped(c, s, from, s)
  {
    hide ExecRow, RowAt;
    assert RunSlots(c, s, from, from) == Some(s);
  }

  lemma StoppedLater(c: Config, s: Space, from: nat, next: Space, t: Space)
    requires c.Valid() && c.LayerBits() <= |s| == |next| && from < SLOTS && Stopped(c, next, from + 1, t)
    requires if from == 1 || from == 2 then next == s else ExecRow(s, RowAt(c, s, 0, from)) == Some(next)
    ensures Stopped(c, s, from, t)
  {
    hide ExecRow, RowAt;
    var k :| from + 1 <= k < SLOTS && k != 1 && k != 2 && RunSlots(c, next, from + 1, k) == Some(t) && ExecRow(t, RowAt(c, t, 0, k)) == None;
    assert RunSlots(c, s, from, k) == Some(t);
  }

  /** Slots 0 and 3 to 255 in order, each fetched from the space as its predecessors have left it, up to the end or a row out of range. */
  lemma SlotsInOrder(c: Config, s: Space) returns (path: seq<Space>)
    requires c.Valid() && c.LayerBits() <= |s|
    ensures 0 < |path| <= 257 && path[0] == s && forall i | 0 <= i < |path| :: |path[i]| == |s|
    ensures forall i: nat, x: Space {:trigger HasRow(c.ab, x, i)} | i < 256 && |x| == |s| :: HasRow(c.ab, x, i)
    ensures forall i {:trigger path[i]} | 0 <= i < |path| - 1 :: Copies(c.ab, path[i], i, path[i + 1])
    ensures RunSlots(c, s, 0, SLOTS) == (if |path| == 257 then Some(path[256]) else None)
    ensures |path| < 257 ==> Refused(c.ab, path[|path| - 1], |path| - 1) && Stopped(c, s, 0, path[|path| - 1])
  {
    hide RunSlots, Copies, Refused, HasRow, Stopped;
    path := SlotPath(c, s, 0, SLOTS);
    forall i {:trigger path[i]} | 0 <= i < |path| - 1 ensures Copies(c.ab, path[i], i, path[i + 1]) {
      assert Copies(c.ab, path[i], 0 + i, path[i + 1]);
    }
  }

  lemma {:induction false} RowPlace(ab: nat, i: nat)
    requires ab > 0
    ensures RowBegin(ab, i) == i * (3 * ab - 1)
  {
    if i > 0 {
      RowPlace(ab, i - 1);
    }
  }

  /** The row of slot i lies at i * (3 * ab - 1). */
  lemma RowFields(ab: nat, s: Space, i: nat, at: nat)
    requires ab >= 2 && at == i * (3 * ab - 1) && at + 3 * ab - 1 <= |s|
    ensures HasRow(ab, s, i)
    ensures Count(ab, s, i) == Val(s, at, ab - 1) && Target(ab, s, i) == Val(s, at + ab - 1, ab) && Origin(ab, s, i) == Val(s, at + 2 * ab - 1, ab)
  {
    RowPlace(ab, i);
    hide Val, RowBegin;
  }

  /** Bit by bit: what a slot copies, and which rows are refused. */
  lemma SlotMeans(ab: nat, s: Space, i: nat, t: Space, n: nat, dst: nat, src: nat)
    requires HasRow(ab, s, i) && n == Count(ab, s, i) && dst == Target(ab, s, i) && src == Origin(ab, s, i)
    ensures Refused(ab, s, i) <==> i != 1 && i != 2 && n != 0 && (dst + n > |s| || src + n > |s|)
    ensures Copies(ab, s, i, t) && i != 1 && i != 2 && n != 0 ==> |t| == |s| && dst + n <= |s| && src + n <= |s|
    ensures Copies(ab, s, i, t) && i != 1 && i != 2 ==>
      |t| == |s| && forall p | 0 <= p < |s| :: t[p] == if dst <= p < dst + n && p - dst + src < |s| then s[p - dst + src] else s[p]
    ensures Copies(ab, s, i, t) && (i == 1 || i == 2) ==> t == s
  {
    hide Count, Target, Origin, HasRow;
  }

  // ---- Channels.

  /** A row that a channel serves: whole bytes inside the space. */
  predicate Whole(s: Space, n: nat, dst: nat) {
    n % 8 == 0 && dst % 8 == 0 && n < |s| / 2 && dst + n <= |s|
  }

  /** The source field of a row reports twice the bits moved, plus one if something went wrong; other bits are those of a given space. */
  ghost predicate Reports(ab: nat, s: Space, i: nat, code: nat, t: Space) {
    && |t| == |s| && HasRow(ab, s, i)
    && var at := RowBegin(ab, i) + 2 * ab - 1;
    Val(t, at, ab) == code % Pow2(ab) && forall p | 0 <= p < |s| && !(at <= p < at + ab) :: t[p] == s[p]
  }

  /** OUT by a row of slot 2: bits of the space go out, and are reported. */
  ghost predicate Sends(ab: nat, w: World, n: nat, dst: nat, peer: Peer, v: World) {
    if n == 0 then v == w
    else
      var whole := Whole(w.space, n, dst);
      var sent := if whole then Min(n, 8 * peer.room) else 0;
      && v.input == w.input && v.output == w.output + (if whole then w.space[dst..dst + sent] else [])
      && Reports(ab, w.space, 2, 2 * sent + if whole && sent == n then 0 else 1, v.space)
  }

  /** IN by a row of slot 1: bits of the stream come into their places, and are reported. */
  ghost predicate Receives(ab: nat, w: World, n: nat, dst: nat, peer: Peer, v: World) {
    if n == 0 then v == w
    else
      var whole := Whole(w.space, n, dst);
      var got := if whole then Min(Min(n, |w.input| / 8 * 8), 8 * peer.room) else 0;
      && v.output == w.output && v.input == w.input[got..]
      && Reports(ab, if whole then Put(w.space, dst, w.input[..got]) else w.space, 1, 2 * got + if whole && (got == n || !peer.broken) then 0 else 1, v.space)
  }

  lemma ReportsIs(c: Config, s: Space, slot: nat, status: nat)
    requires c.Valid() && c.LayerBits() <= |s| && slot < SLOTS
    ensures Reports(c.ab, s, slot, status, Report(c, s, slot, status))
  {
    SlotThere(c, s, slot);
    BeginsAt(c, slot);
    hide RowBegin, Val, Pow2, Report, HasRow, c.SlotAt;
    ReportThere(c, s, slot, status, RowBegin(c.ab, slot) + 2 * c.ab - 1);
  }

  lemma OutMeans(c: Config, w: World, row: Row, peer: Peer)
    requires c.Valid() && c.LayerBits() <= |w.space|
    ensures Sends(c.ab, w, row.n, row.dst, peer, ServeSlot(c, w, 2, row, true, peer))
  {
    hide Reports, Report;
    if row.n != 0 {
      var x := Serve(w, row, true, peer);
      ServeBits(w, row, true, peer);
      ReportsIs(c, x.world.space, 2, Status(x.copied, x.failed));
    }
  }

  lemma InMeans(c: Config, w: World, row: Row, peer: Peer)
    requires c.Valid() && c.LayerBits() <= |w.space|
    ensures Receives(c.ab, w, row.n, row.dst, peer, ServeSlot(c, w, 1, row, false, peer))
  {
    hide Reports, Report, Put;
    if row.n != 0 {
      var x := Serve(w, row, false, peer);
      ServeBits(w, row, false, peer);
      ReportsIs(c, x.world.space, 1, Status(x.copied, x.failed));
      hide Serve;
      if Whole(w.space, row.n, row.dst) {
        assert x.world.space == Put(w.space, row.dst, w.input[..8 * x.copied]);
      } else {
        assert x.world.space == w.space;
      }
    }
  }

  /**
   * One step. Without a row that has bits to copy it is idle and changes nothing. Otherwise OUT is served before IN, both by the rows
   * that the slots held before either, and then the copies go through the slots in order, up to the end or a row out of range.
   */
  lemma StepMeans(c: Config, w: World, out: Peer, inp: Peer, v: World, outcome: Outcome) returns (x: World, y: World, path: seq<Space>)
    requires c.Valid() && c.LayerBits() <= |w.space| && Stepped(c, w, out, inp, v, outcome)
    ensures forall i: nat, s: Space {:trigger HasRow(c.ab, s, i)} | i < 256 && |s| == |w.space| :: HasRow(c.ab, s, i)
    ensures outcome == Idle <==> forall i: nat | i < 256 :: Count(c.ab, w.space, i) == 0
    ensures outcome == Idle ==> v == w
    ensures outcome != Idle ==> (
      && Sends(c.ab, w, Count(c.ab, w.space, 2), Target(c.ab, w.space, 2), out, x)
      && Receives(c.ab, x, Count(c.ab, w.space, 1), Target(c.ab, w.space, 1), inp, y)
      && v.input == y.input && v.output == y.output
      && 0 < |path| <= 257 && path[0] == y.space && v.space == path[|path| - 1]
      && (forall i | 0 <= i < |path| :: |path[i]| == |w.space|)
      && (forall i {:trigger path[i]} | 0 <= i < |path| - 1 :: Copies(c.ab, path[i], i, path[i + 1]))
      && (outcome == Done <==> |path| == 257)
      && (|path| < 257 ==> Refused(c.ab, v.space, |path| - 1)))
  {
    hide ServeSlot, RunSlots, Copies, Refused, HasRow, RowAt, Sends, Receives, Stopped;
    forall i: nat, s: Space {:trigger HasRow(c.ab, s, i)} | i < 256 && |s| == |w.space| ensures HasRow(c.ab, s, i) {
      SlotThere(c, s, i);
    }
    forall i: nat | i < 256 ensures Count(c.ab, w.space, i) == RowAt(c, w.space, 0, i).n {
      SlotThere(c, w.space, i);
    }
    if outcome == Idle {
      x, y, path := w, w, [];
    } else {
      SlotThere(c, w.space, 1);
      SlotThere(c, w.space, 2);
      x := ServeSlot(c, w, 2, RowAt(c, w.space, 0, 2), true, out);
      OutMeans(c, w, RowAt(c, w.space, 0, 2), out);
      y := ServeSlot(c, x, 1, RowAt(c, w.space, 0, 1), false, inp);
      InMeans(c, x, RowAt(c, w.space, 0, 1), inp);
      path := SlotsInOrder(c, y.space);
      if outcome == Error {
        StopsOnce(c, y.space, v.space, path[|path| - 1]);
      }
    }
  }
}
