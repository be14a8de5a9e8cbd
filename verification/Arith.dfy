/** 32-bit addition, subtraction and bitwise operations as chunks of copies through lookup tables. */
module Arith {
  import opened Bits
  import opened Machine
  import opened Layers
  import opened Programs
  import opened Emission
  import opened Lookups

  /** Result bit and carry (borrow) of one position, as the two-bit entry of the adder table. */
  function AdderEntry(subtract: bool, a: nat, b: nat, k: nat): nat
    requires a < 2 && b < 2 && k < 2
  {
    if subtract then (a + b + k) % 2 + 2 * (if a < b + k then 1 else 0) else a + b + k
  }

  predicate EntryHolds(s: Space, table: nat, subtract: bool, i: nat)
    requires i < 8 && table + 16 <= |s|
  {
    Val(s, table + 2 * i, 2) == AdderEntry(subtract, i % 2, i / 2 % 2, i / 4)
  }

  ghost predicate AdderTable(s: Space, table: nat, subtract: bool) {
    && table % 16 == 0 && table + 16 <= |s|
    && forall i | 0 <= i < 8 :: EntryHolds(s, table, subtract, i)
  }

  datatype Adder = Adder(dst: nat, left: nat, right: nat, table: nat, temp: nat, carry: nat)

  ghost function AdderArea(a: Adder, k: nat): iset<int> {
    Span(a.dst, k) + Span(a.temp, 2) + Span(a.carry, 1)
  }

  /** Where the operands may lie: the destination may be an operand, all else is apart. */
  ghost predicate AdderPlaced(c: Config, code: Code, s: Space, a: Adder)
    requires c.Valid()
  {
    && Writable(c, code, s, a.dst, 32) && Writable(c, code, s, a.temp, 2) && Writable(c, code, s, a.carry, 1)
    && Readable(c, s, a.left, 32) && Readable(c, s, a.right, 32) && Readable(c, s, a.table, 16)
    && Apart(a.table, 16, a.dst, 32) && Apart(a.table, 16, a.temp, 2) && Apart(a.table, 16, a.carry, 1)
    && Apart(a.temp, 2, a.dst, 32) && Apart(a.temp, 2, a.left, 32) && Apart(a.temp, 2, a.right, 32)
    && Apart(a.carry, 1, a.dst, 32) && Apart(a.carry, 1, a.left, 32) && Apart(a.carry, 1, a.right, 32)
    && Apart(a.carry, 1, a.temp, 2)
    && (a.dst == a.left || Apart(a.dst, 32, a.left, 32))
    && (a.dst == a.right || Apart(a.dst, 32, a.right, 32))
  }

  function AdderBit(a: Adder, j: nat): seq<Op> {
    [Lookup(2, a.temp, a.table, 1, [a.left + j, a.right + j, a.carry]),
     Plain(1, a.dst + j, a.temp), Plain(1, a.carry, a.temp + 1)]
  }

  /** The copies emitted for the first k bits. */
  function AdderOps(a: Adder, k: nat): seq<Op> {
    [Plain(1, a.carry, a.table)] + Flat(seq(k, j requires 0 <= j < k => AdderBit(a, j)))
  }

  lemma AdderOpsSnoc(a: Adder, k: nat)
    ensures AdderOps(a, k + 1) == AdderOps(a, k)
      + [Lookup(2, a.temp, a.table, 1, [a.left + k, a.right + k, a.carry])]
      + [Plain(1, a.dst + k, a.temp)] + [Plain(1, a.carry, a.temp + 1)]
  {
    var f := seq(k + 1, j requires 0 <= j < k + 1 => AdderBit(a, j));
    assert f[..k] == seq(k, j requires 0 <= j < k => AdderBit(a, j));
    assert Flat(f) == Flat(f[..k]) + AdderBit(a, k);
  }

  function AdderCell(s: Space, a: Adder, j: nat): nat
    requires a.left + j < |s| && a.right + j < |s| && a.carry < |s|
  {
    a.table + 2 * Bit(s[a.left + j]) + 4 * Bit(s[a.right + j]) + 8 * Bit(s[a.carry])
  }

  /** The three copies of position j: table entry to temporary, result bit, carry. */
  function AdderNext(s: Space, a: Adder, j: nat): (t: Space)
    requires a.left + j < |s| && a.right + j < |s| && a.carry < |s| && a.table + 16 <= |s|
    requires a.dst + j < |s| && a.temp + 2 <= |s|
    ensures |t| == |s|
  {
    CopyBits(CopyBits(CopyBits(s, 2, a.temp, AdderCell(s, a, j)), 1, a.dst + j, a.temp), 1, a.carry, a.temp + 1)
  }

  /** The entry that the operand bits and the carry select. */
  lemma AdderRead(s: Space, a: Adder, subtract: bool, j: nat)
    requires AdderTable(s, a.table, subtract)
    requires a.left + j < |s| && a.right + j < |s| && a.carry < |s|
    ensures var at := AdderCell(s, a, j);
      && at + 2 <= a.table + 16
      && Bit(s[at]) + 2 * Bit(s[at + 1])
         == AdderEntry(subtract, Bit(s[a.left + j]), Bit(s[a.right + j]), Bit(s[a.carry]))
  {
    var x, y, k := Bit(s[a.left + j]), Bit(s[a.right + j]), Bit(s[a.carry]);
    var i := x + 2 * y + 4 * k;
    hide Val, Pow2;
    assert EntryHolds(s, a.table, subtract, i);
    ValTwo(s, a.table + 2 * i);
    assert i % 2 == x && i / 2 % 2 == y && i / 4 == k;
  }

  /** One position: the result bit and the carry are those of the table. */
  lemma AdderStep(s: Space, a: Adder, subtract: bool, j: nat)
    requires AdderTable(s, a.table, subtract)
    requires a.left + j < |s| && a.right + j < |s| && a.carry < |s| && a.dst + j < |s| && a.temp + 2 <= |s|
    requires Apart(a.temp, 2, a.dst + j, 1) && Apart(a.carry, 1, a.dst + j, 1) && Apart(a.carry, 1, a.temp, 2)
    ensures var t := AdderNext(s, a, j);
      && Bit(t[a.dst + j]) + 2 * Bit(t[a.carry])
         == AdderEntry(subtract, Bit(s[a.left + j]), Bit(s[a.right + j]), Bit(s[a.carry]))
      && Same(s, t, Span(a.temp, 2) + Span(a.dst + j, 1) + Span(a.carry, 1))
  {
    AdderRead(s, a, subtract, j);
    hide AdderTable, AdderEntry, AdderCell;
    var at := AdderCell(s, a, j);
    var t1 := CopyBits(s, 2, a.temp, at);
    var t2 := CopyBits(t1, 1, a.dst + j, a.temp);
    assert t1[a.temp] == s[at] && t1[a.temp + 1] == s[at + 1];
    assert t2[a.dst + j] == s[at] && t2[a.temp + 1] == s[at + 1];
  }

  lemma ValTwo(s: Space, at: nat)
    requires at + 2 <= |s|
    ensures Val(s, at, 2) == Bit(s[at]) + 2 * Bit(s[at + 1])
  {
    ValSnoc(s, at, 1);
    LookupBit(s, at);
    assert Pow2(1) == 2;
  }

  /** The words behind the first k bits satisfy the schoolbook equation. */
  ghost predicate AdderSum(s: Space, t: Space, a: Adder, subtract: bool, k: nat)
    requires |s| == |t| && a.dst + k <= |s| && a.left + k <= |s| && a.right + k <= |s| && a.carry < |s|
  {
    var d, l, r, out := Val(t, a.dst, k), Val(s, a.left, k), Val(s, a.right, k), Pow2(k) * Bit(t[a.carry]);
    if subtract then d + r == l + out else d + out == l + r
  }

  lemma AdderGrow(s: Space, t: Space, u: Space, a: Adder, subtract: bool, k: nat)
    requires |s| == |t| == |u| && a.dst + k + 1 <= |s| && a.left + k + 1 <= |s| && a.right + k + 1 <= |s| && a.carry < |s|
    requires AdderSum(s, t, a, subtract, k) && Val(u, a.dst, k) == Val(t, a.dst, k)
    requires Bit(u[a.dst + k]) + 2 * Bit(u[a.carry]) ==
      AdderEntry(subtract, Bit(s[a.left + k]), Bit(s[a.right + k]), Bit(t[a.carry]))
    ensures AdderSum(s, u, a, subtract, k + 1)
  {
    hide Val;
    ValSnoc(u, a.dst, k);
    ValSnoc(s, a.left, k);
    ValSnoc(s, a.right, k);
    assert Pow2(k + 1) == 2 * Pow2(k);
  }

  lemma AdderExec(c: Config, code: Code, s: Space, u: Space, a: Adder, j: nat)
    requires c.Valid() && 4 <= c.ab && AdderPlaced(c, code, u, a) && j < 32 && a.table % 16 == 0
    requires Exec(c, code, s, AdderOps(a, j)) == Some(u)
    ensures Exec(c, code, s, AdderOps(a, j + 1)) == Some(AdderNext(u, a, j))
  {
    AdderOpsSnoc(a, j);
    hide Exec, AdderOps;
    SnocPair3(c, code, s, AdderOps(a, j), u, a.temp, a.table, a.left + j, a.right + j, a.carry);
    var ops := AdderOps(a, j) + [Lookup(2, a.temp, a.table, 1, [a.left + j, a.right + j, a.carry])];
    var u1 := CopyBits(u, 2, a.temp, AdderCell(u, a, j));
    SnocPlain(c, code, s, ops, u1, 1, a.dst + j, a.temp);
    var u2 := CopyBits(u1, 1, a.dst + j, a.temp);
    SnocPlain(c, code, s, ops + [Plain(1, a.dst + j, a.temp)], u2, 1, a.carry, a.temp + 1);
  }

  lemma AdderStart(c: Config, code: Code, s: Space, a: Adder, subtract: bool)
    requires c.Valid() && AdderPlaced(c, code, s, a) && AdderTable(s, a.table, subtract)
    ensures var t := CopyBits(s, 1, a.carry, a.table);
      Exec(c, code, s, AdderOps(a, 0)) == Some(t) && Same(s, t, AdderArea(a, 0)) && AdderSum(s, t, a, subtract, 0)
  {
    assert AdderOps(a, 0) == [] + [Plain(1, a.carry, a.table)];
    SnocPlain(c, code, s, [], s, 1, a.carry, a.table);
    AdderZero(s, a.table, subtract);
  }

  lemma AdderAdvance(c: Config, code: Code, s: Space, u: Space, a: Adder, subtract: bool, j: nat)
    requires c.Valid() && AdderPlaced(c, code, s, a) && AdderTable(s, a.table, subtract) && j < 32
    requires Same(s, u, AdderArea(a, j)) && AdderSum(s, u, a, subtract, j)
    ensures var t := AdderNext(u, a, j); Same(s, t, AdderArea(a, j + 1)) && AdderSum(s, t, a, subtract, j + 1)
  {
    hide Val, EntryHolds, AdderSum, AdderEntry, AdderNext;
    AdderKept(c, code, s, u, a, subtract, j);
    var t := AdderNext(u, a, j);
    AdderStep(u, a, subtract, j);
    var step := Span(a.temp, 2) + Span(a.dst + j, 1) + Span(a.carry, 1);
    SameVal(u, t, step, a.dst, j);
    SameThen(s, u, t, AdderArea(a, j), step, AdderArea(a, j + 1));
    AdderGrow(s, u, t, a, subtract, j);
  }

  lemma PlacedKept(c: Config, code: Code, s: Space, u: Space, a: Adder)
    requires c.Valid() && AdderPlaced(c, code, s, a) && |s| == |u|
    ensures AdderPlaced(c, code, u, a)
  {
  }

  lemma {:induction false} AdderSteps(c: Config, code: Code, s: Space, a: Adder, subtract: bool, k: nat)
    returns (t: Space)
    requires c.Valid() && 4 <= c.ab && AdderPlaced(c, code, s, a) && AdderTable(s, a.table, subtract) && k <= 32
    ensures |t| == |s| && a.dst + k <= |s| && a.left + k <= |s| && a.right + k <= |s| && a.carry < |s|
    ensures Exec(c, code, s, AdderOps(a, k)) == Some(t)
    ensures Same(s, t, AdderArea(a, k))
    ensures AdderSum(s, t, a, subtract, k)
    decreases k
  {
    hide Exec, AdderOps, AdderArea, AdderSum, AdderNext, EntryHolds;
    if k == 0 {
      AdderStart(c, code, s, a, subtract);
      t := CopyBits(s, 1, a.carry, a.table);
    } else {
      var u := AdderSteps(c, code, s, a, subtract, k - 1);
      PlacedKept(c, code, s, u, a);
      AdderExec(c, code, s, u, a, k - 1);
      AdderAdvance(c, code, s, u, a, subtract, k - 1);
      t := AdderNext(u, a, k - 1);
    }
  }

  /** Executing the copies adds or subtracts the low k bits, and touches nothing else. */
  lemma AdderRun(c: Config, code: Code, s: Space, a: Adder, subtract: bool, k: nat)
    returns (t: Space)
    requires c.Valid() && 4 <= c.ab && AdderPlaced(c, code, s, a) && AdderTable(s, a.table, subtract) && k <= 32
    ensures |t| == |s| && a.dst + k <= |s| && a.left + k <= |s| && a.right + k <= |s| && a.carry < |s|
    ensures Exec(c, code, s, AdderOps(a, k)) == Some(t)
    ensures Same(s, t, AdderArea(a, k))
    ensures AdderSum(s, t, a, subtract, k)
    ensures var d, l, r, out := Val(t, a.dst, k), Val(s, a.left, k), Val(s, a.right, k), Bit(t[a.carry]);
      if subtract then d + r == l + Pow2(k) * out else d + Pow2(k) * out == l + r
  {
    hide Exec, AdderOps, AdderArea;
    t := AdderSteps(c, code, s, a, subtract, k);
  }

  lemma AdderZero(s: Space, table: nat, subtract: bool)
    requires AdderTable(s, table, subtract)
    ensures !s[table]
  {
    assert EntryHolds(s, table, subtract, 0);
    ValTwo(s, table);
  }

  /** The bits still to be added and the table are as they were. */
  lemma AdderKept(c: Config, code: Code, s: Space, u: Space, a: Adder, subtract: bool, j: nat)
    requires c.Valid() && AdderPlaced(c, code, s, a) && AdderTable(s, a.table, subtract) && j < 32
    requires Same(s, u, AdderArea(a, j))
    ensures AdderTable(u, a.table, subtract)
    ensures u[a.left + j] == s[a.left + j] && u[a.right + j] == s[a.right + j]
  {
    hide Val;
    forall i | 0 <= i < 8 ensures EntryHolds(u, a.table, subtract, i) {
      assert EntryHolds(s, a.table, subtract, i);
      SameVal(s, u, AdderArea(a, j), a.table + 2 * i, 2);
    }
  }
}
