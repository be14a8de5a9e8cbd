/** The table of hide sets of runtime/copy_c/preprocess_macros.h: every set of macros has one number. */
module HideTable {
  import opened Bits
  import opened Writer
  import opened Counting

  const MACROS: nat := 512
  const WORDS: nat := 16
  const SETS: nat := 4096
  const SLOTS: nat := 8192

  /** A set of macros as the bits of its words, lowest first. */
  type Row = r: seq<bool> | |r| == 512 witness seq(512, i => false)

  function Word(r: Row, i: nat): (w: seq<bool>)
    requires i < WORDS
    ensures |w| == 32
  {
    r[32 * i..32 * i + 32]
  }

  /** One round of the hash: exclusive or with a word, then a multiplication modulo 2^32. */
  function Mix(hash: nat, word: seq<bool>): nat
    requires |word| == 32
  {
    Val(seq(32, i requires 0 <= i < 32 => Digit(hash, i) != word[i]), 0, 32) * 16777619 % 0x1_0000_0000
  }

  function Hash(r: Row, i: nat): nat
    requires i <= WORDS
  {
    if i == 0 then 2166136261 else Mix(Hash(r, i - 1), Word(r, i - 1))
  }

  /** The slot where the search for a set begins. */
  function Start(r: Row): (s: nat)
    ensures s < SLOTS
  {
    Hash(r, WORDS) % SLOTS
  }

  function Probe(r: Row, n: nat): (s: nat)
    ensures s < SLOTS
  {
    (Start(r) + n) % SLOTS
  }

  function Members(r: Row): set<nat> {
    set m: nat | m < MACROS && r[m]
  }

  /** Rows with the same members are the same row. */
  lemma MembersDecide(a: Row, b: Row)
    ensures Members(a) == Members(b) <==> a == b
  {
    if Members(a) == Members(b) {
      forall i | 0 <= i < 512 ensures a[i] == b[i] {
        assert i in Members(a) <==> i in Members(b);
      }
    }
  }

  lemma NotThere(rows: seq<Row>, bits: Row)
    ensures bits !in rows ==> forall r | r in rows :: Members(r) != Members(bits)
  {
    forall r | r in rows && Members(r) == Members(bits) ensures bits in rows {
      MembersDecide(r, bits);
    }
  }

  /** Every slot is probed once before the search comes around. */
  lemma ProbesCover(r: Row, slot: nat) returns (n: nat)
    requires slot < SLOTS
    ensures n < SLOTS && Probe(r, n) == slot
  {
    n := if slot >= Start(r) then slot - Start(r) else slot + SLOTS - Start(r);
  }

  lemma ProbeNext(r: Row, n: nat)
    ensures Probe(r, n + 1) == (Probe(r, n) + 1) % SLOTS
  {
  }

  class HideSets {
    const sets: array<Row>
    const slots: array<nat>
    var count: nat

    /** The search for a numbered set meets no empty slot before its own. */
    ghost predicate Found(i: nat, n: nat)
      reads this, sets, slots
      requires i < sets.Length && slots.Length == SLOTS
    {
      && n < SLOTS && slots[Probe(sets[i], n)] == i + 1
      && forall k | 0 <= k < n :: slots[Probe(sets[i], k)] != 0
    }

    ghost predicate Reachable(i: nat)
      reads this, sets, slots
      requires i < sets.Length && slots.Length == SLOTS
    {
      exists n :: Found(i, n)
    }

    ghost predicate Valid()
      reads this, sets, slots
    {
      && sets.Length == SETS && slots.Length == SLOTS && count <= SETS
      && (forall s | 0 <= s < SLOTS :: slots[s] <= count)
      && (forall s, t | 0 <= s < t < SLOTS && slots[s] != 0 :: slots[s] != slots[t])
      && (forall i | 0 <= i < count :: Reachable(i))
      && (forall i, j | 0 <= i < j < count :: sets[i] != sets[j])
    }

    /** What the numbers stand for. */
    ghost function Rows(): (r: seq<Row>)
      reads this, sets
      requires count <= sets.Length
    {
      sets[..count]
    }

    constructor ()
      ensures Valid() && fresh(sets) && fresh(slots)
      ensures Rows() == [seq(512, i => false)]
    {
      sets := new Row[SETS](i => seq(512, i => false));
      slots := new nat[SLOTS](i => 0);
      count := 0;
      new;
      var index := Intern(seq(512, i => false));
    }

    /** The number of a set: the one it has, or a new one; -1 if there are no more numbers. */
    method Intern(bits: Row) returns (index: int)
      requires Valid()
      modifies this, sets, slots
      ensures Valid() && old(Rows()) <= Rows() && |Rows()| <= |old(Rows())| + 1
      ensures index < 0 <==> bits !in old(Rows()) && |old(Rows())| == SETS
      ensures index >= 0 ==> index < count && Rows()[index] == bits
      ensures bits in old(Rows()) || index < 0 ==> Rows() == old(Rows())
    {
      hide Probe, Passed;
      var slot;
      ghost var n;
      slot, index, n := Search(bits);
      if index >= 0 {
        return;
      }
      NotYet(bits, n);
      if count == SETS {
        return -1;
      }
      index := count;
      Enter(bits, slot, n);
    }

    /** Slot after slot, until one holds the number of the set or is empty. */
    method Search(bits: Row) returns (slot: nat, index: int, ghost n: nat)
      requires Valid()
      ensures n < SLOTS && slot == Probe(bits, n) && slot < slots.Length && forall k | 0 <= k < n :: Passed(bits, k)
      ensures index < 0 ==> slots[slot] == 0
      ensures index >= 0 ==> index < count && Rows()[index] == bits
    {
      slot, index, n := Start(bits), -1, 0;
      while slots[slot] != 0
        invariant 0 <= n < SLOTS && slot == Probe(bits, n)
        invariant forall k | 0 <= k < n :: Passed(bits, k)
        decreases SLOTS - n
      {
        if sets[slots[slot] - 1] == bits {
          index := slots[slot] - 1;
          return;
        }
        assert Passed(bits, n);
        SomeSlotEmpty(bits, n);
        ProbeNext(bits, n);
        slot := (slot + 1) % SLOTS;
        n := n + 1;
      }
    }

    /** A slot on the way holds the number of another set. */
    ghost predicate Passed(bits: Row, k: nat)
      reads this, sets, slots
    {
      && slots.Length == SLOTS && slots[Probe(bits, k)] != 0
      && slots[Probe(bits, k)] <= sets.Length && sets[slots[Probe(bits, k)] - 1] != bits
    }

    /** Half of the slots are never used, so every search comes to an end. */
    lemma SomeSlotEmpty(bits: Row, n: nat)
      requires Valid() && n < SLOTS && forall k | 0 <= k <= n :: Passed(bits, k)
      ensures n + 1 < SLOTS
    {
      if n + 1 == SLOTS {
        var holes := seq(SLOTS, i requires 0 <= i < SLOTS reads slots => if slots[i] > 0 then slots[i] - 1 else 0);
        forall s | 0 <= s < SLOTS ensures slots[s] != 0 && holes[s] < count {
          var k := ProbesCover(bits, s);
          assert Passed(bits, k);
        }
        Pigeons(holes, count);
        assert false;
      }
    }

    /** An empty slot on the way: the set has no number. */
    lemma NotYet(bits: Row, n: nat)
      requires Valid() && n < SLOTS && slots[Probe(bits, n)] == 0 && forall k | 0 <= k < n :: Passed(bits, k)
      ensures bits !in Rows()
    {
      PassedMeans(bits, n);
      if bits in Rows() {
        var i :| 0 <= i < count && sets[i] == bits;
        assert Reachable(i);
        var m: nat :| Found(i, m);
        assert false;
      }
    }

    lemma PassedMeans(bits: Row, n: nat)
      requires Valid() && forall k | 0 <= k < n :: Passed(bits, k)
      ensures forall k: nat {:trigger Probe(bits, k)} | k < n ::
        slots[Probe(bits, k)] != 0 && sets[slots[Probe(bits, k)] - 1] != bits
    {
      forall k: nat {:trigger Probe(bits, k)} | k < n
        ensures slots[Probe(bits, k)] != 0 && sets[slots[Probe(bits, k)] - 1] != bits
      {
        assert Passed(bits, k);
      }
    }

    /** Puts a set behind the others and its number into the empty slot. */
    method Enter(bits: Row, slot: nat, ghost n: nat)
      requires Valid() && count < SETS && n < SLOTS && slot == Probe(bits, n) && slots[slot] == 0
      requires bits !in Rows() && forall k | 0 <= k < n :: Passed(bits, k)
      modifies this, sets, slots
      ensures Valid() && Rows() == old(Rows()) + [bits]
    {
      sets[count] := bits;
      slots[slot] := count + 1;
      count := count + 1;
      forall i | 0 <= i < count ensures Reachable(i) {
        if i < count - 1 {
          assert old(sets[i]) == sets[i];
          assert old(Reachable(i));
          var m: nat :| old(Found(i, m));
          assert Found(i, m);
        } else {
          forall k | 0 <= k < n ensures slots[Probe(bits, k)] != 0 {
            assert old(Passed(bits, k));
          }
          assert Found(i, n);
        }
      }
    }

    /** Numbers are canonical: equal numbers if and only if equal sets. */
    lemma Canonical(i: nat, j: nat)
      requires Valid() && i < count && j < count
      ensures i == j <==> Members(Rows()[i]) == Members(Rows()[j])
    {
      MembersDecide(sets[i], sets[j]);
    }

    method Contains(i: nat, m: nat) returns (yes: bool)
      requires Valid()
      ensures yes <==> i < count && m < MACROS && m in Members(Rows()[i])
    {
      if i >= count || m >= MACROS {
        return false;
      }
      return sets[i][m];
    }

    /** The number of a set with one more macro. */
    method Add(i: nat, m: nat) returns (index: int)
      requires Valid()
      modifies this, sets, slots
      ensures Valid() && old(Rows()) <= Rows()
      ensures i >= |old(Rows())| || m >= MACROS ==> index < 0
      ensures i < |old(Rows())| && m < MACROS ==>
        if index >= 0 then index < count && Members(Rows()[index]) == Members(old(Rows())[i]) + {m}
        else |old(Rows())| == SETS && forall r | r in old(Rows()) :: Members(r) != Members(old(Rows())[i]) + {m}
    {
      if i >= count || m >= MACROS {
        return -1;
      }
      var bits := sets[i][m := true];
      ghost var was := sets[i];
      index := Intern(bits);
      assert Members(bits) == Members(was) + {m};
      NotThere(old(Rows()), bits);
    }

    /** The number of a union or an intersection. */
    method Merge(i: nat, j: nat, intersection: bool) returns (index: int)
      requires Valid()
      modifies this, sets, slots
      ensures Valid() && old(Rows()) <= Rows()
      ensures i >= |old(Rows())| || j >= |old(Rows())| ==> index < 0
      ensures i < |old(Rows())| && j < |old(Rows())| ==>
        var a, b := Members(old(Rows())[i]), Members(old(Rows())[j]);
        if index >= 0 then index < count && Members(Rows()[index]) == if intersection then a * b else a + b
        else |old(Rows())| == SETS && forall r | r in old(Rows()) :: Members(r) != if intersection then a * b else a + b
    {
      if i >= count || j >= count {
        return -1;
      }
      var a, b := sets[i], sets[j];
      var bits: Row := seq(512, k requires 0 <= k < 512 => if intersection then a[k] && b[k] else a[k] || b[k]);
      index := Intern(bits);
      assert Members(bits) == if intersection then Members(a) * Members(b) else Members(a) + Members(b);
      NotThere(old(Rows()), bits);
    }
  }
}
