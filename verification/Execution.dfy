/** Executing a text statement by statement, and running its items: whatever way control takes, both come to the same state. */
module Execution {
  import opened Bits
  import opened Machine
  import opened Layers
  import opened Programs
  import opened Emission
  import opened Items
  import opened Lookups
  import opened CopyEmit
  import opened Arith
  import opened Compare
  import opened Multiply
  import opened Divide
  import opened Division
  import opened Shifts
  import opened Report
  import opened Texts

  /** In front of a statement, or returned. */
  datatype Standing = Running(pc: nat, state: State) | Returned(state: State)

  /** Where a name is defined. */
  function Defined(text: seq<Statement>, name: nat): (r: Option<nat>)
    ensures r.Some? ==> r.value < |text| && text[r.value] == Label(name)
    ensures r.None? ==> forall i | 0 <= i < |text| :: text[i] != Label(name)
  {
    if text == [] then None
    else if text[|text| - 1] == Label(name) then Some(|text| - 1)
    else Defined(text[..|text| - 1], name)
  }

  function Jumped(text: seq<Statement>, name: nat, s: State): Option<Standing> {
    match Defined(text, name)
    case None => None
    case Some(k) => Some(Running(k + 1, s))
  }

  /** One statement; behind the last one a function returns as well. */
  function Execute(text: seq<Statement>, x: Standing): (y: Option<Standing>)
    requires x.state.Valid()
    ensures y.Some? ==> y.value.state.Valid()
  {
    match x
    case Returned(_) => None
    case Running(pc, s) =>
      if pc >= |text| then Some(Returned(s))
      else match text[pc]
        case Label(_) => Some(Running(pc + 1, s))
        case GoTo(name) => Jumped(text, name, s)
        case When(flag, inverted, name) => if s.order.Get(flag) != inverted then Jumped(text, name, s) else Some(Running(pc + 1, s))
        case Return => Some(Returned(s))
        case st => Some(Running(pc + 1, Do(st, s)))
  }

  function ExecuteSteps(text: seq<Statement>, x: Standing, n: nat): (y: Option<Standing>)
    requires x.state.Valid()
    ensures y.Some? ==> y.value.state.Valid()
  {
    if n == 0 then Some(x)
    else match ExecuteSteps(text, x, n - 1)
      case None => None
      case Some(z) => Execute(text, z)
  }

  /** A statement with what the linker has found for it. */
  datatype Line = Line(st: Statement, aid: Aids)

  function TextOf(lines: seq<Line>): (text: seq<Statement>)
    ensures |text| == |lines|
  {
    seq(|lines|, i requires 0 <= i < |lines| => lines[i].st)
  }

  function AllItems(names: Names, lines: seq<Line>): seq<Item> {
    if lines == [] then []
    else AllItems(names, lines[..|lines| - 1]) + ItemsOf(names, lines[|lines| - 1].st, lines[|lines| - 1].aid)
  }

  lemma {:induction false} ItemsAppend(names: Names, xs: seq<Line>, ys: seq<Line>)
    ensures AllItems(names, xs + ys) == AllItems(names, xs) + AllItems(names, ys)
    decreases |ys|
  {
    hide ItemsOf;
    if ys == [] {
      assert xs + ys == xs;
    } else {
      ItemsAppend(names, xs, ys[..|ys| - 1]);
      assert (xs + ys)[..|xs + ys| - 1] == xs + ys[..|ys| - 1];
    }
  }

  /** How many labels of its own a statement has. */
  function TagCount(st: Statement): nat {
    match st
    case Mul(_, _) => 1
    case Div(_, _, signed, _) => if signed then 5 else 2
    case _ => 0
  }

  predicate Own(line: Line, tag: nat) {
    line.aid.tag <= tag < line.aid.tag + TagCount(line.st)
  }

  /** Labels: own ones of different statements differ, names have theirs, and no name is defined twice. */
  ghost predicate Separate(names: Names, lines: seq<Line>, limit: nat) {
    && limit <= RETURN
    && (forall i {:trigger lines[i]} | 0 <= i < |lines| :: lines[i].aid.tag + TagCount(lines[i].st) <= limit)
    && (forall i, j {:trigger lines[i], lines[j]} | 0 <= i < j < |lines| :: lines[i].aid.tag + TagCount(lines[i].st) <= lines[j].aid.tag)
    && (forall i, j {:trigger lines[i], lines[j]} | 0 <= i < j < |lines| && lines[i].st.Label? :: lines[j].st != lines[i].st)
    && (forall n {:trigger names[n]} | n in names :: names[n] < limit && forall i {:trigger lines[i]} | 0 <= i < |lines| :: !Own(lines[i], names[n]))
    && (forall n, m {:trigger names[n], names[m]} | n in names && m in names && n != m :: names[n] != names[m])
    && (forall i {:trigger lines[i]} | 0 <= i < |lines| && HasName(lines[i].st) :: lines[i].st.name in names)
  }

  /** The statement speaks of a name. */
  predicate HasName(st: Statement) {
    st.Label? || st.GoTo? || st.When?
  }

  /** Which labels a statement's items bind. */
  lemma BoundBy(names: Names, line: Line, tag: nat)
    requires Binds(ItemsOf(names, line.st, line.aid), tag)
    ensures Own(line, tag) || (line.st.Label? && tag == TagOf(names, line.st.name))
  {
    hide CompareOps, ExtendOps, ShiftChunks, BitwiseOps, AdderOps, Singles, DivItems, MulStart, MulBody;
    if line.st.Div? {
      DivisionBinds(Address(line.st.dst), Address(line.st.src), line.st.signed, line.st.remainder, line.aid.first, line.aid.second, line.aid.tag, tag);
    }
  }

  lemma DivisionBinds(dst: nat, src: nat, signed: bool, remainder: bool, zero: nat, one: nat, tag: nat, l: nat)
    requires Binds(DivItems(dst, src, signed, remainder, zero, one, tag), l)
    ensures tag <= l < tag + if signed then 5 else 2
  {
    hide Singles, DivStart, DivInit, DivHeadOps, DivReduce, DivMarkOps, SignOps, EndOps, AdderOps;
  }

  lemma {:induction false} LinesBound(names: Names, lines: seq<Line>, tag: nat) returns (i: nat)
    requires Binds(AllItems(names, lines), tag)
    ensures i < |lines| && (Own(lines[i], tag) || (lines[i].st.Label? && tag == TagOf(names, lines[i].st.name)))
    decreases |lines|
  {
    hide ItemsOf, Own;
    var k := |lines| - 1;
    assert k >= 0;
    if Binds(AllItems(names, lines[..k]), tag) {
      i := LinesBound(names, lines[..k], tag);
    } else {
      BoundBy(names, lines[k], tag);
      i := k;
    }
  }

  lemma ItemsLast(names: Names, lines: seq<Line>, line: Line)
    ensures AllItems(names, lines + [line]) == AllItems(names, lines) + ItemsOf(names, line.st, line.aid)
  {
    hide ItemsOf;
    assert (lines + [line])[..|lines|] == lines;
  }

  /** The three parts of the list around a line. */
  lemma Around(names: Names, lines: seq<Line>, k: nat)
    requires k < |lines|
    ensures AllItems(names, lines) == AllItems(names, lines[..k]) + (ItemsOf(names, lines[k].st, lines[k].aid) + AllItems(names, lines[k + 1..]))
    ensures AllItems(names, lines[..k + 1]) == AllItems(names, lines[..k]) + ItemsOf(names, lines[k].st, lines[k].aid)
  {
    hide ItemsOf, AllItems;
    ItemsLast(names, lines[..k], lines[k]);
    assert lines[..k + 1] == lines[..k] + [lines[k]];
    assert lines == lines[..k + 1] + lines[k + 1..];
    ItemsAppend(names, lines[..k + 1], lines[k + 1..]);
  }

  /** What follows a line binds none of the line's own labels. */
  lemma RestApart(names: Names, lines: seq<Line>, limit: nat, k: nat, tag: nat)
    requires Separate(names, lines, limit) && k < |lines| && Computes(lines[k].st) && Binds(ItemsOf(names, lines[k].st, lines[k].aid), tag)
    ensures !Binds(AllItems(names, lines[k + 1..]) + Tail(), tag)
  {
    hide AllItems, ItemsOf;
    BoundBy(names, lines[k], tag);
    TailShape();
    hide Tail;
    if Binds(AllItems(names, lines[k + 1..]), tag) {
      var i := LinesBound(names, lines[k + 1..], tag);
      assert false;
    }
  }

  /** A jump to a name leads behind its label. */
  lemma LabelFound(names: Names, lines: seq<Line>, limit: nat, k: nat)
    requires Separate(names, lines, limit) && k < |lines| && lines[k].st.Label?
    ensures var at := |AllItems(names, lines[..k])|;
      BindAt(AllItems(names, lines) + Tail(), TagOf(names, lines[k].st.name)) == Some(at)
      && |AllItems(names, lines[..k + 1])| == at + 1
  {
    hide AllItems, Separate, Tail, BindAt, Binds;
    Around(names, lines, k);
    MarkOnce(names, lines, limit, k);
    var tag := TagOf(names, lines[k].st.name);
    var xs, rest := AllItems(names, lines[..k]), AllItems(names, lines[k + 1..]) + Tail();
    OnlyMark(xs, tag, rest);
    assert AllItems(names, lines) + Tail() == xs + ([Mark(tag)] + rest);
  }

  lemma OnlyMark(xs: seq<Item>, tag: nat, rest: seq<Item>)
    requires !Binds(rest, tag)
    ensures BindAt(xs + ([Mark(tag)] + rest), tag) == Some(|xs|)
  {
    hide BindAt, Binds;
    BindAtNone(rest, tag);
    BindAtIs([Mark(tag)], tag, 0);
    BindAtAppend([Mark(tag)], rest, tag);
    BindAtAppend(xs, [Mark(tag)] + rest, tag);
  }

  /** Nothing behind a label binds it again. */
  lemma MarkOnce(names: Names, lines: seq<Line>, limit: nat, k: nat)
    requires Separate(names, lines, limit) && k < |lines| && lines[k].st.Label?
    ensures !Binds(AllItems(names, lines[k + 1..]) + Tail(), TagOf(names, lines[k].st.name))
  {
    hide AllItems;
    TailShape();
    hide Tail;
    var tag := TagOf(names, lines[k].st.name);
    if Binds(AllItems(names, lines[k + 1..]), tag) {
      var i := LinesBound(names, lines[k + 1..], tag);
      assert false;
    }
  }

  /** The return leads behind the label of the report. */
  lemma ReturnFound(names: Names, lines: seq<Line>, limit: nat)
    requires Separate(names, lines, limit)
    ensures BindAt(AllItems(names, lines) + Tail(), RETURN) == Some(|AllItems(names, lines)|)
  {
    hide AllItems;
    TailShape();
    hide Tail;
    BindAtAppend(AllItems(names, lines), Tail(), RETURN);
  }

  /** A run of a line's items inside the whole list. */
  lemma LineRuns(c: Config, code: Code, names: Names, lines: seq<Line>, limit: nat, k: nat, t: Space, u: Space)
    requires c.Valid() && Separate(names, lines, limit) && k < |lines| && Computes(lines[k].st)
    requires Runs(c, code, ItemsOf(names, lines[k].st, lines[k].aid), t, u)
    ensures Path(c, code, AllItems(names, lines) + Tail(), |AllItems(names, lines[..k])|, t, |AllItems(names, lines[..k + 1])|, u)
  {
    hide AllItems, ItemsOf, Tail, Separate, Binds, Runs, Path;
    var xs, seg, rest := AllItems(names, lines[..k]), ItemsOf(names, lines[k].st, lines[k].aid), AllItems(names, lines[k + 1..]) + Tail();
    Around(names, lines, k);
    assert AllItems(names, lines) + Tail() == xs + (seg + rest);
    forall l | Binds(seg, l) ensures !Binds(rest, l) {
      RestApart(names, lines, limit, k, l);
    }
    RunsBetween(c, code, xs, seg, rest, t, u);
  }

  lemma RunsBetween(c: Config, code: Code, xs: seq<Item>, seg: seq<Item>, rest: seq<Item>, t: Space, u: Space)
    requires c.Valid() && Runs(c, code, seg, t, u) && forall l | Binds(seg, l) :: !Binds(rest, l)
    ensures Path(c, code, xs + (seg + rest), |xs|, t, |xs| + |seg|, u)
  {
    hide ItemStep, Binds;
    var n: nat :| ItemSteps(c, code, seg, Inside(0, t), n) == Some(Inside(|seg|, u));
    PrefixSteps(c, code, seg, rest, Inside(0, t), n);
    SuffixSteps(c, code, xs, seg + rest, Inside(0, t), n);
  }

  // ---- The text and its items.

  /** Where the list stands when the text stands at a place. */
  function ItemAt(names: Names, lines: seq<Line>, x: Standing): nat {
    match x
    case Running(pc, _) => |AllItems(names, lines[..if pc <= |lines| then pc else |lines|])|
    case Returned(_) => |AllItems(names, lines)| + 1
  }

  /** Constants and tables of all lines are there. */
  ghost predicate Provided(s: Space, lines: seq<Line>, adds: bool, subs: bool) {
    forall i {:trigger lines[i]} | 0 <= i < |lines| :: Aided(s, lines[i].st, lines[i].aid) && Equipped(lines[i].st, adds, subs)
  }

  /** The list has come from s to where the text stands, and the space shows the state. */
  ghost predicate Follows(c: Config, code: Code, names: Names, lines: seq<Line>, s: Space, x: Standing, t: Space)
    requires c.Valid()
  {
    && (x.Running? ==> x.pc <= |lines|)
    && Path(c, code, AllItems(names, lines) + Tail(), 0, s, ItemAt(names, lines, x), t)
    && Shown(c, code, t, x.state) && Same(s, t, WorkSpace())
  }

  lemma AidedStill(s: Space, t: Space, st: Statement, aid: Aids)
    requires Aided(s, st, aid) && Same(s, t, WorkSpace())
    ensures Aided(t, st, aid)
  {
    hide Val;
    forall at: nat | CONSTANT_BASE <= at && at + 32 <= REG_BASE <= |s| ensures Word(t, at) == Word(s, at) {
      SameVal(s, t, WorkSpace(), at, 32);
    }
  }

  /** On by a path that changes nothing. */
  lemma FollowsOn(c: Config, code: Code, names: Names, lines: seq<Line>, s: Space, x: Standing, t: Space, y: Standing, u: Space)
    requires c.Valid() && Follows(c, code, names, lines, s, x, t) && (y.Running? ==> y.pc <= |lines|)
    requires Path(c, code, AllItems(names, lines) + Tail(), ItemAt(names, lines, x), t, ItemAt(names, lines, y), u)
    requires Shown(c, code, u, y.state) && Same(t, u, WorkSpace())
    ensures Follows(c, code, names, lines, s, y, u)
  {
    hide AllItems, Tail, Shown, Path, ItemAt;
    PathThen(c, code, AllItems(names, lines) + Tail(), 0, s, ItemAt(names, lines, x), t, ItemAt(names, lines, y), u);
    SameThen(s, t, u, WorkSpace(), WorkSpace(), WorkSpace());
  }

  /** Label, jump, branch, return, the end of the text: the list goes the same way. */
  lemma ControlFollows(c: Config, code: Code, names: Names, lines: seq<Line>, limit: nat, x: Standing, t: Space, y: Standing)
    requires c.Valid() && Separate(names, lines, limit) && x.state.Valid() && x.Running? && x.pc <= |lines| && Shown(c, code, t, x.state)
    requires Execute(TextOf(lines), x) == Some(y) && (x.pc < |lines| ==> !Computes(lines[x.pc].st))
    ensures y.state == x.state && (y.Running? ==> y.pc <= |lines|)
    ensures Path(c, code, AllItems(names, lines) + Tail(), ItemAt(names, lines, x), t, ItemAt(names, lines, y), t)
  {
    hide Shown, Separate, AllItems, Tail, ItemsOf, Path, Binds, Defined;
    if x.pc == |lines| {
      EndFollows(c, code, names, lines, t);
    } else {
      Steering(names, lines, x.pc);
      match lines[x.pc].st
      case Label(name) => LabelFollows(c, code, names, lines, limit, x.pc, t);
      case GoTo(name) =>
        JumpTarget(names, lines, limit, x.pc, y.pc - 1);
        PathLeap(c, code, AllItems(names, lines) + Tail(), ItemAt(names, lines, x), t, |AllItems(names, lines[..y.pc - 1])|);
      case When(flag, inverted, name) => WhenFollows(c, code, names, lines, limit, x, t, y);
      case Return =>
        ReturnFound(names, lines, limit);
        PathLeap(c, code, AllItems(names, lines) + Tail(), ItemAt(names, lines, x), t, |AllItems(names, lines)|);
    }
  }

  /** The first item of a line in the whole list. */
  lemma LineFirst(names: Names, lines: seq<Line>, k: nat)
    requires k < |lines|
    ensures var items, seg, at := AllItems(names, lines) + Tail(), ItemsOf(names, lines[k].st, lines[k].aid), |AllItems(names, lines[..k])|;
      && |AllItems(names, lines[..k + 1])| == at + |seg|
      && (|seg| > 0 ==> at < |items| && items[at] == seg[0])
  {
    Around(names, lines, k);
    hide AllItems, ItemsOf, Tail;
  }

  /** The item of a line that steers. */
  lemma Steering(names: Names, lines: seq<Line>, k: nat)
    requires k < |lines| && !Computes(lines[k].st)
    ensures var items, st, at := AllItems(names, lines) + Tail(), lines[k].st, |AllItems(names, lines[..k])|;
      && |AllItems(names, lines[..k + 1])| == at + 1 && at < |items|
      && (st.Label? ==> items[at] == Mark(TagOf(names, st.name)))
      && (st.GoTo? ==> items[at] == Leap(TagOf(names, st.name)))
      && (st.When? ==> items[at] == Goto(TagOf(names, st.name), FlagAt(st.flag), st.inverted))
      && (st.Return? ==> items[at] == Leap(RETURN))
  {
    LineFirst(names, lines, k);
    hide AllItems, Tail;
  }

  lemma EndFollows(c: Config, code: Code, names: Names, lines: seq<Line>, t: Space)
    requires c.Valid()
    ensures Path(c, code, AllItems(names, lines) + Tail(), |AllItems(names, lines[..|lines|])|, t, |AllItems(names, lines)| + 1, t)
  {
    assert lines[..|lines|] == lines;
    TailShape();
    hide AllItems, Tail, Path;
    assert (AllItems(names, lines) + Tail())[|AllItems(names, lines)|] == Tail()[0];
    PathBind(c, code, AllItems(names, lines) + Tail(), |AllItems(names, lines)|, t);
  }

  lemma LabelFollows(c: Config, code: Code, names: Names, lines: seq<Line>, limit: nat, k: nat, t: Space)
    requires c.Valid() && k < |lines| && lines[k].st.Label?
    ensures Path(c, code, AllItems(names, lines) + Tail(), |AllItems(names, lines[..k])|, t, |AllItems(names, lines[..k + 1])|, t)
  {
    hide AllItems, Tail, Path;
    Steering(names, lines, k);
    PathMark(c, code, AllItems(names, lines) + Tail(), |AllItems(names, lines[..k])|, t);
  }

  /** Where a name that is jumped to is defined, in the text and in the list. */
  lemma JumpTarget(names: Names, lines: seq<Line>, limit: nat, k: nat, d: nat)
    requires Separate(names, lines, limit) && k < |lines| && HasName(lines[k].st) && Defined(TextOf(lines), lines[k].st.name) == Some(d)
    ensures d < |lines| && BindAt(AllItems(names, lines) + Tail(), TagOf(names, lines[k].st.name)) == Some(|AllItems(names, lines[..d])|)
    ensures |AllItems(names, lines[..d + 1])| == |AllItems(names, lines[..d])| + 1
  {
    hide AllItems, Tail, Separate;
    assert TextOf(lines)[d] == Label(lines[k].st.name);
    LabelFound(names, lines, limit, d);
  }

  lemma WhenFollows(c: Config, code: Code, names: Names, lines: seq<Line>, limit: nat, x: Standing, t: Space, y: Standing)
    requires c.Valid() && Separate(names, lines, limit) && x.state.Valid() && x.Running? && x.pc < |lines| && Shown(c, code, t, x.state)
    requires lines[x.pc].st.When? && Execute(TextOf(lines), x) == Some(y)
    ensures y.state == x.state && y.Running? && y.pc <= |lines|
    ensures Path(c, code, AllItems(names, lines) + Tail(), ItemAt(names, lines, x), t, ItemAt(names, lines, y), t)
  {
    hide Shown, Separate, AllItems, Tail, Path, FlagAt, Order.Get, ItemsOf, Defined, State.Valid, Do;
    var items, st, at := AllItems(names, lines) + Tail(), lines[x.pc].st, |AllItems(names, lines[..x.pc])|;
    Steering(names, lines, x.pc);
    FlagShown(c, code, t, x.state, st.flag);
    if x.state.order.Get(st.flag) != st.inverted {
      JumpTarget(names, lines, limit, x.pc, y.pc - 1);
      PathGoto(c, code, items, at, t, |AllItems(names, lines[..y.pc - 1])|);
    } else {
      WhenPasses(c, code, items, at, t);
    }
  }

  lemma WhenPasses(c: Config, code: Code, items: seq<Item>, i: nat, s: Space)
    requires c.Valid() && i < |items| && items[i].Goto? && c.LayerBits() <= items[i].flag < |s| && s[items[i].flag] == items[i].inverted
    ensures Path(c, code, items, i, s, i + 1, s)
  {
    PathStep(c, code, items, i, s, i + 1, s);
  }

  lemma FlagShown(c: Config, code: Code, t: Space, s: State, f: Flag)
    requires Shown(c, code, t, s)
    ensures c.Valid() && c.LayerBits() <= FlagAt(f) < |t| && t[FlagAt(f)] == s.order.Get(f)
  {
    TablesRange(c, code, t);
  }

  /** One statement of the text is a path of the list. */
  lemma OneFollows(c: Config, code: Code, names: Names, lines: seq<Line>, limit: nat, s: Space, x: Standing, t: Space, y: Standing) returns (u: Space)
    requires c.Valid() && Separate(names, lines, limit) && Provided(s, lines, code.adds, code.subs)
    requires x.state.Valid() && Follows(c, code, names, lines, s, x, t) && Execute(TextOf(lines), x) == Some(y)
    ensures Follows(c, code, names, lines, s, y, u)
  {
    hide Shown, Separate, AllItems, Tail, ItemsOf, Path, Do, Effected;
    if x.pc < |lines| && Computes(lines[x.pc].st) {
      var st, aid := lines[x.pc].st, lines[x.pc].aid;
      AidedStill(s, t, st, aid);
      u := ComputeRuns(c, code, names, st, aid, t, x.state);
      EffectedIs(c, code, names, st, aid, t, u, x.state);
      LineRuns(c, code, names, lines, limit, x.pc, t, u);
      FollowsOn(c, code, names, lines, s, x, t, y, u);
    } else {
      u := t;
      ControlFollows(c, code, names, lines, limit, x, t, y);
      SameSelf(t, WorkSpace());
      FollowsOn(c, code, names, lines, s, x, t, y, u);
    }
  }

  lemma EffectedIs(c: Config, code: Code, names: Names, st: Statement, aid: Aids, t: Space, u: Space, s: State)
    requires c.Valid() && Effected(c, code, names, st, aid, t, u, s)
    ensures s.Valid() && Runs(c, code, ItemsOf(names, st, aid), t, u) && Shown(c, code, u, Do(st, s)) && Same(t, u, WorkSpace())
  {
  }

  /** The whole execution of a text is a run of its items: same place, same state. */
  lemma {:induction false} TextRuns(c: Config, code: Code, names: Names, lines: seq<Line>, limit: nat, s: Space, start: State, n: nat) returns (t: Space)
    requires c.Valid() && Separate(names, lines, limit) && Provided(s, lines, code.adds, code.subs)
    requires Shown(c, code, s, start) && start.Valid() && ExecuteSteps(TextOf(lines), Running(0, start), n).Some?
    ensures Follows(c, code, names, lines, s, ExecuteSteps(TextOf(lines), Running(0, start), n).value, t)
    decreases n
  {
    hide Shown, Separate, Provided, Follows, Execute;
    if n == 0 {
      t := s;
      StartFollows(c, code, names, lines, s, start);
    } else {
      t := TextRuns(c, code, names, lines, limit, s, start, n - 1);
      var x := ExecuteSteps(TextOf(lines), Running(0, start), n - 1).value;
      t := OneFollows(c, code, names, lines, limit, s, x, t, Execute(TextOf(lines), x).value);
    }
  }

  lemma StartFollows(c: Config, code: Code, names: Names, lines: seq<Line>, s: Space, start: State)
    requires c.Valid() && Shown(c, code, s, start)
    ensures Follows(c, code, names, lines, s, Running(0, start), s)
  {
    hide Shown, Tail, Path;
    assert AllItems(names, lines[..0]) == [];
    PathHere(c, code, AllItems(names, lines) + Tail(), 0, s);
    SameSelf(s, WorkSpace());
  }
}
