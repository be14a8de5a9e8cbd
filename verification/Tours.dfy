/** Runs of item lists with an account of every visit to one item. */
module Tours {
  import opened Bits
  import opened Machine
  import opened Layers
  import opened Programs
  import opened Emission
  import opened Items

  /** The spaces with which the first k steps from x stand at item h, in order. */
  ghost function Visited(c: Config, code: Code, items: seq<Item>, x: ItemState, k: nat, h: nat): seq<Space>
    requires c.Valid() && ItemSteps(c, code, items, x, k).Some?
    decreases k
  {
    if k == 0 then []
    else
      var here := if x.Inside? && x.pc == h then [x.space] else [];
      here + Visited(c, code, items, ItemStep(c, code, items, x).value, k - 1, h)
  }

  /** From item i to item j, standing at item h on the way with exactly these spaces: once for each, and never else. */
  ghost predicate Tour(c: Config, code: Code, items: seq<Item>, i: nat, s: Space, j: nat, t: Space, h: nat, visits: seq<Space>)
    requires c.Valid()
  {
    exists k :: ItemSteps(c, code, items, Inside(i, s), k) == Some(Inside(j, t)) && Visited(c, code, items, Inside(i, s), k, h) == visits
  }

  lemma {:induction false} VisitedThen(c: Config, code: Code, items: seq<Item>, x: ItemState, m: nat, n: nat, h: nat)
    requires c.Valid() && ItemSteps(c, code, items, x, m).Some?
    requires ItemSteps(c, code, items, ItemSteps(c, code, items, x, m).value, n).Some?
    ensures ItemSteps(c, code, items, x, m + n) == ItemSteps(c, code, items, ItemSteps(c, code, items, x, m).value, n)
    ensures Visited(c, code, items, x, m + n, h) ==
      Visited(c, code, items, x, m, h) + Visited(c, code, items, ItemSteps(c, code, items, x, m).value, n, h)
    decreases m
  {
    hide ItemStep;
    ItemStepsCompose(c, code, items, x, m, n);
    if m > 0 {
      var y := ItemStep(c, code, items, x).value;
      VisitedThen(c, code, items, y, m - 1, n, h);
      ItemStepsCompose(c, code, items, y, m - 1, n);
    }
  }

  lemma TourThen(c: Config, code: Code, items: seq<Item>, i: nat, s: Space, j: nat, t: Space, k: nat, u: Space, h: nat,
                 a: seq<Space>, b: seq<Space>)
    requires c.Valid() && Tour(c, code, items, i, s, j, t, h, a) && Tour(c, code, items, j, t, k, u, h, b)
    ensures Tour(c, code, items, i, s, k, u, h, a + b)
  {
    hide ItemStep, ItemSteps, Visited;
    var m: nat :| ItemSteps(c, code, items, Inside(i, s), m) == Some(Inside(j, t)) && Visited(c, code, items, Inside(i, s), m, h) == a;
    var n: nat :| ItemSteps(c, code, items, Inside(j, t), n) == Some(Inside(k, u)) && Visited(c, code, items, Inside(j, t), n, h) == b;
    VisitedThen(c, code, items, Inside(i, s), m, n, h);
  }

  lemma TourStep(c: Config, code: Code, items: seq<Item>, i: nat, s: Space, j: nat, t: Space, h: nat)
    requires c.Valid() && ItemStep(c, code, items, Inside(i, s)) == Some(Inside(j, t))
    ensures Tour(c, code, items, i, s, j, t, h, if i == h then [s] else [])
  {
    hide ItemStep;
    assert ItemSteps(c, code, items, Inside(j, t), 0) == Some(Inside(j, t));
    assert ItemSteps(c, code, items, Inside(i, s), 1) == Some(Inside(j, t));
    assert Visited(c, code, items, Inside(j, t), 0, h) == [];
    assert Visited(c, code, items, Inside(i, s), 1, h) == if i == h then [s] else [];
  }

  lemma TourStraight(c: Config, code: Code, items: seq<Item>, i: nat, s: Space, t: Space, h: nat)
    requires c.Valid() && i < |items| && items[i].Straight?
    requires Exec(c, code, s, Flat(items[i].chunks)) == Some(t)
    ensures Tour(c, code, items, i, s, i + 1, t, h, if i == h then [s] else [])
  {
    TourStep(c, code, items, i, s, i + 1, t, h);
  }

  lemma TourBind(c: Config, code: Code, items: seq<Item>, i: nat, s: Space, h: nat)
    requires c.Valid() && i < |items| && items[i].Bind?
    ensures Tour(c, code, items, i, s, i + 1, s, h, if i == h then [s] else [])
  {
    TourStep(c, code, items, i, s, i + 1, s, h);
  }

  lemma TourGoto(c: Config, code: Code, items: seq<Item>, i: nat, s: Space, k: nat, h: nat)
    requires c.Valid() && i < |items| && items[i].Goto?
    requires c.LayerBits() <= items[i].flag < |s|
    requires BindAt(items, items[i].tag) == Some(k)
    ensures Tour(c, code, items, i, s, if s[items[i].flag] == items[i].inverted then i + 1 else k + 1, s, h, if i == h then [s] else [])
  {
    TourStep(c, code, items, i, s, if s[items[i].flag] == items[i].inverted then i + 1 else k + 1, s, h);
  }

  lemma TourPath(c: Config, code: Code, items: seq<Item>, i: nat, s: Space, j: nat, t: Space, h: nat, visits: seq<Space>)
    requires c.Valid() && Tour(c, code, items, i, s, j, t, h, visits)
    ensures Path(c, code, items, i, s, j, t)
  {
    hide ItemSteps, Visited;
  }

  /** A run of the first list stays below its length, whatever follows. */
  lemma {:induction false} PrefixVisits(c: Config, code: Code, xs: seq<Item>, ys: seq<Item>, x: ItemState, k: nat, h: nat)
    requires c.Valid() && ItemSteps(c, code, xs, x, k).Some? && ItemSteps(c, code, xs, x, k).value.Inside?
    requires forall l | Binds(xs, l) :: !Binds(ys, l)
    ensures ItemSteps(c, code, xs + ys, x, k) == ItemSteps(c, code, xs, x, k)
    ensures Visited(c, code, xs + ys, x, k, h) == if h < |xs| then Visited(c, code, xs, x, k, h) else []
    decreases k
  {
    hide Exec;
    PrefixSteps(c, code, xs, ys, x, k);
    if k > 0 {
      var y := ItemStep(c, code, xs, x).value;
      PrefixSteps(c, code, xs, ys, x, 1) by {
        assert ItemSteps(c, code, xs, x, 1) == Some(y) && y.Inside? by { StillInside(c, code, xs, y, k - 1); }
      }
      hide ItemStep;
      assert ItemSteps(c, code, xs + ys, x, 1) == Some(y);
      PrefixVisits(c, code, xs, ys, y, k - 1, h);
    }
  }

  lemma {:induction false} SuffixVisits(c: Config, code: Code, xs: seq<Item>, ys: seq<Item>, x: ItemState, k: nat, h: nat)
    requires c.Valid() && ItemSteps(c, code, ys, x, k).Some? && ItemSteps(c, code, ys, x, k).value.Inside?
    ensures ItemSteps(c, code, xs + ys, Moved(x, |xs|), k) == Some(Moved(ItemSteps(c, code, ys, x, k).value, |xs|))
    ensures Visited(c, code, xs + ys, Moved(x, |xs|), k, h) == if |xs| <= h then Visited(c, code, ys, x, k, h - |xs|) else []
    decreases k
  {
    hide Exec;
    SuffixSteps(c, code, xs, ys, x, k);
    if k > 0 {
      var y := ItemStep(c, code, ys, x).value;
      SuffixSteps(c, code, xs, ys, x, 1) by {
        assert ItemSteps(c, code, ys, x, 1) == Some(y) && y.Inside? by { StillInside(c, code, ys, y, k - 1); }
      }
      hide ItemStep;
      assert ItemSteps(c, code, xs + ys, Moved(x, |xs|), 1) == Some(Moved(y, |xs|));
      StillInside(c, code, ys, x, k);
      SuffixVisits(c, code, xs, ys, y, k - 1, h);
    }
  }

  /** A list with others in front of it and behind it: its visits are all there are. */
  lemma TourBetween(c: Config, code: Code, xs: seq<Item>, ys: seq<Item>, zs: seq<Item>,
                    s: Space, s1: Space, s2: Space, t: Space, h: nat, visits: seq<Space>)
    requires c.Valid() && h < |ys|
    requires Runs(c, code, xs, s, s1) && Tour(c, code, ys, 0, s1, |ys|, s2, h, visits) && Runs(c, code, zs, s2, t)
    requires forall l | Binds(xs, l) :: !Binds(ys, l)
    requires forall l | Binds(xs + ys, l) :: !Binds(zs, l)
    ensures Tour(c, code, xs + ys + zs, 0, s, |xs + ys + zs|, t, |xs| + h, visits)
  {
    hide ItemStep, ItemSteps, Visited;
    var a: nat :| ItemSteps(c, code, xs, Inside(0, s), a) == Some(Inside(|xs|, s1));
    var b: nat :| ItemSteps(c, code, ys, Inside(0, s1), b) == Some(Inside(|ys|, s2)) && Visited(c, code, ys, Inside(0, s1), b, h) == visits;
    var d: nat :| ItemSteps(c, code, zs, Inside(0, s2), d) == Some(Inside(|zs|, t));
    var both, all := xs + ys, xs + ys + zs;
    PrefixVisits(c, code, xs, ys, Inside(0, s), a, |xs| + h);
    SuffixVisits(c, code, xs, ys, Inside(0, s1), b, |xs| + h);
    VisitedThen(c, code, both, Inside(0, s), a, b, |xs| + h);
    PrefixVisits(c, code, both, zs, Inside(0, s), a + b, |xs| + h);
    SuffixVisits(c, code, both, zs, Inside(0, s2), d, |xs| + h);
    VisitedThen(c, code, all, Inside(0, s), a + b, d, |xs| + h);
    assert ItemSteps(c, code, all, Inside(0, s), a + b + d) == Some(Inside(|all|, t));
    assert Visited(c, code, all, Inside(0, s), a + b + d, |xs| + h) == visits;
  }
}
