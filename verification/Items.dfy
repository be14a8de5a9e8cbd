/** Composing lists of items: straight-line pieces, and lists run one after another. */
module Items {
  import opened Bits
  import opened Machine
  import opened Layers
  import opened Programs
  import opened Emission

  /** The list is run from item i to item j. */
  ghost predicate Path(c: Config, code: Code, items: seq<Item>, i: nat, s: Space, j: nat, t: Space)
    requires c.Valid()
  {
    exists k :: ItemSteps(c, code, items, Inside(i, s), k) == Some(Inside(j, t))
  }

  /** The list is run from its start to its end. */
  ghost predicate Runs(c: Config, code: Code, items: seq<Item>, s: Space, t: Space)
    requires c.Valid()
  {
    Path(c, code, items, 0, s, |items|, t)
  }

  lemma {:induction false} ItemStepsCompose(c: Config, code: Code, items: seq<Item>, x: ItemState, j: nat, k: nat)
    requires c.Valid() && ItemSteps(c, code, items, x, j).Some?
    ensures ItemSteps(c, code, items, x, j + k) ==
      ItemSteps(c, code, items, ItemSteps(c, code, items, x, j).value, k)
    decreases j
  {
    hide ItemStep;
    if j > 0 {
      ItemStepsCompose(c, code, items, ItemStep(c, code, items, x).value, j - 1, k);
    }
  }

  lemma PathThen(c: Config, code: Code, items: seq<Item>, i: nat, s: Space, j: nat, t: Space, k: nat, u: Space)
    requires c.Valid() && Path(c, code, items, i, s, j, t) && Path(c, code, items, j, t, k, u)
    ensures Path(c, code, items, i, s, k, u)
  {
    hide ItemStep;
    var m: nat :| ItemSteps(c, code, items, Inside(i, s), m) == Some(Inside(j, t));
    var n: nat :| ItemSteps(c, code, items, Inside(j, t), n) == Some(Inside(k, u));
    ItemStepsCompose(c, code, items, Inside(i, s), m, n);
    assert ItemSteps(c, code, items, Inside(i, s), m + n) == Some(Inside(k, u));
  }

  lemma PathHere(c: Config, code: Code, items: seq<Item>, i: nat, s: Space)
    requires c.Valid()
    ensures Path(c, code, items, i, s, i, s)
  {
    assert ItemSteps(c, code, items, Inside(i, s), 0) == Some(Inside(i, s));
  }

  lemma PathStep(c: Config, code: Code, items: seq<Item>, i: nat, s: Space, j: nat, t: Space)
    requires c.Valid() && ItemStep(c, code, items, Inside(i, s)) == Some(Inside(j, t))
    ensures Path(c, code, items, i, s, j, t)
  {
    hide ItemStep;
    assert ItemSteps(c, code, items, Inside(j, t), 0) == Some(Inside(j, t));
    assert ItemSteps(c, code, items, Inside(i, s), 1) == Some(Inside(j, t));
  }

  lemma PathStraight(c: Config, code: Code, items: seq<Item>, i: nat, s: Space, t: Space)
    requires c.Valid() && i < |items| && items[i].Straight?
    requires Exec(c, code, s, Flat(items[i].chunks)) == Some(t)
    ensures Path(c, code, items, i, s, i + 1, t)
  {
    PathStep(c, code, items, i, s, i + 1, t);
  }

  lemma PathBind(c: Config, code: Code, items: seq<Item>, i: nat, s: Space)
    requires c.Valid() && i < |items| && items[i].Bind?
    ensures Path(c, code, items, i, s, i + 1, s)
  {
    PathStep(c, code, items, i, s, i + 1, s);
  }

  lemma PathMark(c: Config, code: Code, items: seq<Item>, i: nat, s: Space)
    requires c.Valid() && i < |items| && items[i].Mark?
    ensures Path(c, code, items, i, s, i + 1, s)
  {
    PathStep(c, code, items, i, s, i + 1, s);
  }

  /** A branch: on to the next item, or behind the item at k that binds its label. */
  lemma PathGoto(c: Config, code: Code, items: seq<Item>, i: nat, s: Space, k: nat)
    requires c.Valid() && i < |items| && items[i].Goto?
    requires c.LayerBits() <= items[i].flag < |s|
    requires BindAt(items, items[i].tag) == Some(k)
    ensures Path(c, code, items, i, s, if s[items[i].flag] == items[i].inverted then i + 1 else k + 1, s)
  {
    PathStep(c, code, items, i, s, if s[items[i].flag] == items[i].inverted then i + 1 else k + 1, s);
  }

  lemma PathLeap(c: Config, code: Code, items: seq<Item>, i: nat, s: Space, k: nat)
    requires c.Valid() && i < |items| && items[i].Leap? && BindAt(items, items[i].tag) == Some(k)
    ensures Path(c, code, items, i, s, k + 1, s)
  {
    PathStep(c, code, items, i, s, k + 1, s);
  }

  ghost predicate Binds(items: seq<Item>, tag: nat) {
    Bind(tag) in items || Mark(tag) in items
  }

  lemma {:induction false} BindAtNone(items: seq<Item>, tag: nat)
    ensures BindAt(items, tag).None? <==> !Binds(items, tag)
    ensures BindAt(items, tag).Some? ==> BindAt(items, tag).value < |items|
  {
    if items != [] {
      BindAtNone(items[..|items| - 1], tag);
      assert items == items[..|items| - 1] + [items[|items| - 1]];
    }
  }

  lemma {:induction false} BindAtAppend(xs: seq<Item>, ys: seq<Item>, tag: nat)
    ensures BindAt(xs + ys, tag) ==
      match BindAt(ys, tag)
      case Some(k) => Some(|xs| + k)
      case None => BindAt(xs, tag)
    decreases |ys|
  {
    if ys == [] {
      assert xs + ys == xs;
    } else {
      BindAtAppend(xs, ys[..|ys| - 1], tag);
      assert (xs + ys)[..|xs + ys| - 1] == xs + ys[..|ys| - 1];
    }
  }

  /** A run of the first list is a run inside the longer one, if the second rebinds none of its labels. */
  lemma {:induction false} PrefixSteps(c: Config, code: Code, xs: seq<Item>, ys: seq<Item>, x: ItemState, k: nat)
    requires c.Valid() && ItemSteps(c, code, xs, x, k).Some? && ItemSteps(c, code, xs, x, k).value.Inside?
    requires forall l | Binds(xs, l) :: !Binds(ys, l)
    ensures ItemSteps(c, code, xs + ys, x, k) == ItemSteps(c, code, xs, x, k)
    decreases k
  {
    if k > 0 {
      hide Exec;
      var y := ItemStep(c, code, xs, x).value;
      if xs[x.pc].Goto? || xs[x.pc].Leap? {
        BindAtAppend(xs, ys, xs[x.pc].tag);
        BindAtNone(xs, xs[x.pc].tag);
        BindAtNone(ys, xs[x.pc].tag);
      }
      PrefixSteps(c, code, xs, ys, y, k - 1);
    }
  }

  function Moved(x: ItemState, n: nat): ItemState {
    if x.Inside? then Inside(x.pc + n, x.space) else x
  }

  /** There is no way back into a list. */
  lemma StillInside(c: Config, code: Code, items: seq<Item>, x: ItemState, k: nat)
    requires c.Valid() && ItemSteps(c, code, items, x, k).Some? && ItemSteps(c, code, items, x, k).value.Inside?
    ensures x.Inside?
  {
    hide Exec;
  }

  lemma StepMoved(c: Config, code: Code, xs: seq<Item>, ys: seq<Item>, x: ItemState)
    requires c.Valid() && ItemStep(c, code, ys, x).Some? && ItemStep(c, code, ys, x).value.Inside?
    ensures ItemStep(c, code, xs + ys, Moved(x, |xs|)) == Some(Moved(ItemStep(c, code, ys, x).value, |xs|))
  {
    hide Exec;
    assert (xs + ys)[x.pc + |xs|] == ys[x.pc];
    if ys[x.pc].Goto? || ys[x.pc].Leap? {
      BindAtAppend(xs, ys, ys[x.pc].tag);
    }
  }

  /** A run of the second list is a run of the longer one, further on. */
  lemma {:induction false} SuffixSteps(c: Config, code: Code, xs: seq<Item>, ys: seq<Item>, x: ItemState, k: nat)
    requires c.Valid() && ItemSteps(c, code, ys, x, k).Some? && ItemSteps(c, code, ys, x, k).value.Inside?
    ensures ItemSteps(c, code, xs + ys, Moved(x, |xs|), k) == Some(Moved(ItemSteps(c, code, ys, x, k).value, |xs|))
    decreases k
  {
    if k > 0 {
      var y := ItemStep(c, code, ys, x).value;
      StillInside(c, code, ys, y, k - 1);
      StepMoved(c, code, xs, ys, x);
      hide ItemStep;
      SuffixSteps(c, code, xs, ys, y, k - 1);
    }
  }

  /** Running one list and then another is running their concatenation. */
  lemma RunsThen(c: Config, code: Code, xs: seq<Item>, ys: seq<Item>, s: Space, t: Space, u: Space)
    requires c.Valid() && Runs(c, code, xs, s, t) && Runs(c, code, ys, t, u)
    requires forall l | Binds(xs, l) :: !Binds(ys, l)
    ensures Runs(c, code, xs + ys, s, u)
  {
    hide ItemStep;
    var m: nat :| ItemSteps(c, code, xs, Inside(0, s), m) == Some(Inside(|xs|, t));
    var n: nat :| ItemSteps(c, code, ys, Inside(0, t), n) == Some(Inside(|ys|, u));
    PrefixSteps(c, code, xs, ys, Inside(0, s), m);
    SuffixSteps(c, code, xs, ys, Inside(0, t), n);
    ItemStepsCompose(c, code, xs + ys, Inside(0, s), m, n);
    assert ItemSteps(c, code, xs + ys, Inside(0, s), m + n) == Some(Inside(|xs + ys|, u));
  }

  /** Straight-line code alone. */
  lemma RunsStraight(c: Config, code: Code, chunks: seq<seq<Op>>, s: Space, t: Space)
    requires c.Valid() && Exec(c, code, s, Flat(chunks)) == Some(t)
    ensures Runs(c, code, [Straight(chunks)], s, t)
  {
    PathStraight(c, code, [Straight(chunks)], 0, s, t);
  }

  /** Each operation a chunk of its own. */
  function Singles(ops: seq<Op>): (r: seq<seq<Op>>)
    ensures |r| == |ops|
  {
    seq(|ops|, i requires 0 <= i < |ops| => [ops[i]])
  }

  lemma {:induction false} FlatSingles(ops: seq<Op>)
    ensures Flat(Singles(ops)) == ops
  {
    if ops != [] {
      var most := ops[..|ops| - 1];
      FlatSingles(most);
      assert Singles(ops)[..|ops| - 1] == Singles(most);
      assert most + [ops[|ops| - 1]] == ops;
    }
  }

  lemma {:induction false} FlatAppend(xs: seq<seq<Op>>, ys: seq<seq<Op>>)
    ensures Flat(xs + ys) == Flat(xs) + Flat(ys)
    decreases |ys|
  {
    if ys == [] {
      assert xs + ys == xs;
    } else {
      FlatAppend(xs, ys[..|ys| - 1]);
      assert (xs + ys)[..|xs + ys| - 1] == xs + ys[..|ys| - 1];
    }
  }

  lemma FlatOne(ops: seq<Op>)
    ensures Flat([ops]) == ops
  {
    assert [ops][..0] == [];
  }
}
