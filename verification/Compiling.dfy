/** Reading the text of a leaf function: every statement becomes its items, labels are numbered as they come up. */
module Compiling {
  import opened Bits
  import opened Bytes
  import opened Machine
  import opened Layers
  import opened Programs
  import opened Emission
  import opened Items
  import opened Lookups
  import opened CopyEmit
  import opened Arith
  import opened Compare
  import opened Multiply
  import opened Divide
  import opened Division
  import opened Shifts
  import opened Report
  import opened Texts
  import opened Execution
  import opened Sheets
  import opened Linker
  import opened Images
  import opened Delivery

  /** How far the reader has come: inside the function, behind a jump or return, behind a comparison, behind some return. */
  datatype Reading = Reading(entered: bool, terminated: bool, compared: bool, returned: bool)

  const UNREAD := Reading(false, false, false, false)

  /** One statement read on: None if it may not stand there. */
  function ReadOn(r: Reading, entry: nat, st: Statement): Option<Reading> {
    match st
    case Label(name) => if !r.entered && name != entry then None else Some(r.(entered := true, terminated := false))
    case _ =>
      if !r.entered || r.terminated then None
      else match st
        case GoTo(_) => Some(r.(terminated := true))
        case Return => Some(r.(terminated := true, returned := true))
        case When(_, _, _) => if r.compared then Some(r) else None
        case Test(_, _) => Some(r.(compared := true))
        case _ => Some(r)
  }

  /** The text up to some statement: no name is defined twice, and every statement may stand where it stands. */
  function ReadText(entry: nat, text: seq<Statement>): Option<Reading> {
    if text == [] then Some(UNREAD)
    else
      var st := text[|text| - 1];
      match ReadText(entry, text[..|text| - 1])
      case None => None
      case Some(r) => if st.Label? && st in text[..|text| - 1] then None else ReadOn(r, entry, st)
  }

  /** The text is entered and returns somewhere, and every statement may stand where it stands. */
  predicate WellRead(entry: nat, text: seq<Statement>) {
    ReadText(entry, text).Some? && ReadText(entry, text).value.entered && ReadText(entry, text).value.returned
  }

  /** What the linker takes: a function that is entered, returns somewhere, and jumps to names that it defines. */
  predicate Acceptable(entry: nat, text: seq<Statement>) {
    && WellRead(entry, text)
    && forall i {:trigger text[i]} | 0 <= i < |text| && HasName(text[i]) :: Label(text[i].name) in text
  }

  /** Places of the text: it is entered at its own label, no label is there twice, and nothing but a label stands behind a jump or return. */
  ghost predicate Placed(entry: nat, text: seq<Statement>) {
    && (text == [] || text[0] == Label(entry))
    && (forall i, j | 0 <= i < j < |text| && text[i].Label? :: text[j] != text[i])
    && (forall i | 0 < i < |text| && !text[i].Label? :: !text[i - 1].GoTo? && !text[i - 1].Return?)
    && (forall i | 0 <= i < |text| && text[i].When? :: exists j :: 0 <= j < i && text[j].Test?)
  }

  ghost predicate Compared(text: seq<Statement>) {
    exists j :: 0 <= j < |text| && text[j].Test?
  }

  lemma PlacedMore(entry: nat, text: seq<Statement>, st: Statement)
    ensures Placed(entry, text + [st]) <==>
      && Placed(entry, text)
      && (if text == [] then st == Label(entry) else st.Label? || (!text[|text| - 1].GoTo? && !text[|text| - 1].Return?))
      && (st.Label? ==> st !in text)
      && (st.When? ==> Compared(text))
  {
    var all := text + [st];
    assert forall i | 0 <= i < |text| :: all[i] == text[i];
    assert all[|text|] == st;
    if Placed(entry, all) {
      PlacedLess(entry, text, st);
    }
  }

  lemma PlacedLess(entry: nat, text: seq<Statement>, st: Statement)
    requires Placed(entry, text + [st])
    ensures Placed(entry, text) && (st.Label? ==> st !in text) && (st.When? ==> Compared(text))
    ensures if text == [] then st == Label(entry) else st.Label? || (!text[|text| - 1].GoTo? && !text[|text| - 1].Return?)
  {
    var all := text + [st];
    assert forall i | 0 <= i < |text| :: text[i] == all[i];
    assert all[|text|] == st;
    forall i | 0 <= i < |text| && text[i].When? ensures exists j :: 0 <= j < i && text[j].Test? {
      var j :| 0 <= j < i && all[j].Test?;
      assert text[j].Test?;
    }
    if st.When? {
      var j :| 0 <= j < |text| && all[j].Test?;
      assert text[j].Test?;
    }
  }

  lemma ComparedMore(text: seq<Statement>, st: Statement)
    ensures Compared(text + [st]) <==> Compared(text) || st.Test?
    ensures Return in text + [st] <==> Return in text || st.Return?
  {
    var all := text + [st];
    assert all[|text|] == st;
    if Compared(text) {
      var j :| 0 <= j < |text| && text[j].Test?;
      assert all[j].Test?;
    }
  }

  /** What the reader knows. */
  lemma {:induction false} ReadTextIs(entry: nat, text: seq<Statement>)
    ensures ReadText(entry, text).Some? <==> Placed(entry, text)
    ensures ReadText(entry, text).Some? ==>
      var r := ReadText(entry, text).value;
      && r.entered == (text != [])
      && r.terminated == (text != [] && (text[|text| - 1].GoTo? || text[|text| - 1].Return?))
      && (r.compared <==> Compared(text))
      && (r.returned <==> Return in text)
    decreases |text|
  {
    hide Placed, Compared;
    if text == [] {
      NothingPlaced(entry);
    } else {
      var before, st := text[..|text| - 1], text[|text| - 1];
      ReadTextIs(entry, before);
      assert text == before + [st];
      PlacedMore(entry, before, st);
      ComparedMore(before, st);
    }
  }

  lemma NothingPlaced(entry: nat)
    ensures Placed(entry, []) && !Compared([])
  {
  }

  /** Whether one statement more may stand behind a text. */
  lemma MayStand(entry: nat, text: seq<Statement>, st: Statement)
    requires ReadText(entry, text).Some?
    ensures ReadText(entry, text + [st]).Some? <==>
      if text == [] then st == Label(entry)
      else if st.Label? then st !in text
      else !text[|text| - 1].GoTo? && !text[|text| - 1].Return? && (st.When? ==> exists j :: 0 <= j < |text| && text[j].Test?)
  {
    ReadTextIs(entry, text);
    ReadTextIs(entry, text + [st]);
    PlacedMore(entry, text, st);
    hide ReadText, Placed;
  }

  lemma WellReadIs(entry: nat, text: seq<Statement>)
    ensures WellRead(entry, text) <==> ReadText(entry, text).Some? && text != [] && Return in text
  {
    ReadTextIs(entry, text);
    hide ReadText, Placed;
  }

  /**
   * Every statement may stand where it stands if and only if the text is empty or begins with its own label, no label is there twice,
   * nothing but a label stands behind a jump or a return, and every branch has some comparison in front of it.
   */
  lemma PlacesDecide(entry: nat, text: seq<Statement>)
    ensures ReadText(entry, text).Some? <==>
      && (text == [] || text[0] == Label(entry))
      && (forall i, j | 0 <= i < j < |text| && text[i].Label? :: text[j] != text[i])
      && (forall i | 0 < i < |text| && !text[i].Label? :: !text[i - 1].GoTo? && !text[i - 1].Return?)
      && (forall i | 0 <= i < |text| && text[i].When? :: exists j :: 0 <= j < i && text[j].Test?)
  {
    ReadTextIs(entry, text);
    hide ReadText;
  }

  /** The same of a text that is acceptable: it returns somewhere besides, and every name that it jumps to has its label. */
  lemma AcceptableIs(entry: nat, text: seq<Statement>)
    ensures Acceptable(entry, text) <==>
      && text != [] && text[0] == Label(entry) && Return in text
      && (forall i, j | 0 <= i < j < |text| && text[i].Label? :: text[j] != text[i])
      && (forall i | 0 < i < |text| && !text[i].Label? :: !text[i - 1].GoTo? && !text[i - 1].Return?)
      && (forall i | 0 <= i < |text| && text[i].When? :: exists j :: 0 <= j < i && text[j].Test?)
      && (forall i, name | 0 <= i < |text| && (text[i] == GoTo(name) || (text[i].When? && text[i].name == name)) :: Label(name) in text)
  {
    PlacesDecide(entry, text);
    WellReadIs(entry, text);
    hide ReadText, WellRead;
    assert (forall i {:trigger text[i]} | 0 <= i < |text| && HasName(text[i]) :: Label(text[i].name) in text) <==>
           (forall i, name | 0 <= i < |text| && (text[i] == GoTo(name) || (text[i].When? && text[i].name == name)) :: Label(name) in text) by {
      if forall i, name | 0 <= i < |text| && (text[i] == GoTo(name) || (text[i].When? && text[i].name == name)) :: Label(name) in text {
        forall i {:trigger text[i]} | 0 <= i < |text| && HasName(text[i]) ensures Label(text[i].name) in text {
          if text[i].Label? { assert text[i] == Label(text[i].name); }
        }
      }
    }
  }

  // ---- What statements take.

  function LayerNeed(st: Statement): nat {
    match st
    case Nothing => 0
    case When(_, _, _) => 2
    case Test(_, _) => 70
    case Extend(_, _, _, _) => 25
    case Mul(_, _) => 48
    case Div(_, _, _, _) => 185
    case Shift(_, _, _) => 166
    case _ => 1
  }

  function LabelNeed(st: Statement): nat {
    if HasName(st) || st.Mul? then 1 else if st.Div? then 5 else 0
  }

  function TurnNeed(st: Statement): nat {
    if st.GoTo? || st.When? || st.Return? || st.Mul? then 1 else if st.Div? then 5 else 0
  }

  /** Layers, labels, jumps and constants of a whole text, at most. */
  datatype Need = Need(layers: nat, labels: nat, turns: nat, constants: nat)

  function NeedOf(text: seq<Statement>): Need {
    if text == [] then Need(0, 0, 0, 0)
    else
      var n, st := NeedOf(text[..|text| - 1]), text[|text| - 1];
      Need(n.layers + LayerNeed(st), n.labels + LabelNeed(st), n.turns + TurnNeed(st), n.constants + |Constants(st)|)
  }

  /** The needs of a text by the kinds of its statements: where divisions, shifts, statements of middle length and those with names are. */
  lemma {:induction false} NeedAtMost(text: seq<Statement>, divisions: set<nat>, shifts: set<nat>, middles: set<nat>, named: set<nat>)
    requires divisions == set i: nat | i < |text| && text[i].Div?
    requires shifts == set i: nat | i < |text| && text[i].Shift?
    requires middles == set i: nat | i < |text| && (text[i].Test? || text[i].Mul? || text[i].Extend?)
    requires named == set i: nat | i < |text| && (text[i].Label? || text[i].GoTo? || text[i].When? || text[i].Return? || text[i].Mul?)
    ensures var n := NeedOf(text);
      && n.layers <= 185 * |divisions| + 166 * |shifts| + 70 * |middles| + 2 * |text| && n.constants <= 2 * |text|
      && n.labels <= 5 * |divisions| + |named| && n.turns <= 5 * |divisions| + |named|
  {
    hide LayerNeed, LabelNeed, TurnNeed, Constants;
    if text != [] {
      var k, st := |text| - 1, text[|text| - 1];
      NeedAtMost(text[..k], divisions - {k}, shifts - {k}, middles - {k}, named - {k});
      WithoutLast(divisions, k, st.Div?);
      WithoutLast(shifts, k, st.Shift?);
      WithoutLast(middles, k, st.Test? || st.Mul? || st.Extend?);
      WithoutLast(named, k, st.Label? || st.GoTo? || st.When? || st.Return? || st.Mul?);
      NeedOne(st);
    }
  }

  lemma NeedOne(st: Statement)
    ensures LayerNeed(st) <= (if st.Div? then 185 else if st.Shift? then 166 else if st.Test? || st.Mul? || st.Extend? then 70 else 2)
    ensures LabelNeed(st) <= (if st.Div? then 5 else if st.Label? || st.GoTo? || st.When? || st.Return? || st.Mul? then 1 else 0)
    ensures TurnNeed(st) <= (if st.Div? then 5 else if st.Label? || st.GoTo? || st.When? || st.Return? || st.Mul? then 1 else 0)
    ensures |Constants(st)| <= 2
  {
  }

  lemma WithoutLast(places: set<nat>, k: nat, there: bool)
    requires there <==> k in places
    ensures |places| == |places - {k}| + if there then 1 else 0
  {
    if there {
      assert places == (places - {k}) + {k};
    } else {
      assert places - {k} == places;
    }
  }

  // ---- What a statement has got.

  ghost predicate HasAids(constants: seq<nat>, st: Statement, aid: Aids) {
    var values := Constants(st);
    && (|values| > 0 ==> HasConstant(constants, aid.first, values[0]))
    && (|values| > 1 ==> HasConstant(constants, aid.second, values[1]))
  }

  ghost predicate Supplied(constants: seq<nat>, adds: bool, subs: bool, lines: seq<Line>) {
    forall i {:trigger lines[i]} | 0 <= i < |lines| ::
      HasAids(constants, lines[i].st, lines[i].aid) && Equipped(lines[i].st, adds, subs)
  }

  lemma {:induction false} EmitAppend(c: Config, b: Builder, xs: seq<Item>, ys: seq<Item>)
    requires c.Valid()
    ensures Emit(c, b, xs + ys) == Emit(c, Emit(c, b, xs), ys)
    decreases |ys|
  {
    hide EmitItem;
    if ys == [] {
      assert xs + ys == xs;
    } else {
      EmitAppend(c, b, xs, ys[..|ys| - 1]);
      assert (xs + ys)[..|xs + ys| - 1] == xs + ys[..|ys| - 1];
    }
  }

  lemma OneEmitted(c: Config, b: Builder, item: Item)
    requires c.Valid()
    ensures Emit(c, b, [item]) == EmitItem(c, b, item) && Emit(c, b, []) == b
  {
    hide EmitItem;
    ItemLast(c, b, [], item);
    assert [] + [item] == [item];
  }

  /** A statement that has been emitted: its items, and what they need. */
  ghost predicate Translated(c: Config, before: Builder, now: Builder, names: Names, st: Statement, aid: Aids, constants: seq<nat>, adds: bool, subs: bool)
    requires c.Valid()
  {
    now == Emit(c, before, ItemsOf(names, st, aid)) && HasAids(constants, st, aid) && Equipped(st, adds, subs)
  }

  /** What was there stays there, and no more has been taken than the statement needs. */
  twostate predicate Spent(l: Linker, st: Statement)
    reads l, l.program
  {
    && old(l.constants) <= l.constants && (old(l.adds) ==> l.adds) && (old(l.subs) ==> l.subs) && l.regs == old(l.regs)
    && l.program.Spare() + LayerNeed(st) >= old(l.program.Spare()) && |l.labels| <= |old(l.labels)| + LabelNeed(st)
    && |l.jumps| <= |old(l.jumps)| + TurnNeed(st) && |l.constants| <= |old(l.constants)| + |Constants(st)|
    && |old(l.labels)| <= |l.labels|
  }

  ghost predicate Roomy(l: Linker, st: Statement)
    reads l, l.program
  {
    l.Enough(LayerNeed(st), LabelNeed(st), TurnNeed(st)) && |l.constants| + |Constants(st)| <= 256
  }

  /** Copies of words: into a register from another one or from a constant. */
  method EmitWord(l: Linker, st: Statement) returns (ok: bool, aid: Aids)
    requires l.Valid() && (st.Nothing? || st.Load? || st.Copy?)
    modifies l`constants, l`built, l.program`codeEnd, l.program`layer, l.program`slot, l.program`layers, l.program.data
    ensures ok ==> l.Valid() && l.C().Valid() && Translated(l.C(), old(l.built), l.built, map[], st, aid, l.constants, l.adds, l.subs) && Spent(l, st)
    ensures ok ==> aid.tag == |old(l.labels)|
    ensures old(Roomy(l, st)) ==> ok
  {
    hide l.Open, EmitChunks, Singles, HasConstant, Address, AllLow;
    l.ConfigValid();
    ghost var b := l.built;
    ok, aid := FirstAid(l, st);
    if !ok { return; }
    if st.Nothing? {
      OneEmitted(l.C(), b, Straight([]));
    } else {
      var src := if st.Load? then aid.first else Address(st.src);
      AddressWord(st.dst);
      AddressWord(if st.Load? then st.dst else st.src);
      LowPlain(32, Address(st.dst), src);
      OneEmitted(l.C(), b, Straight(Singles([Plain(32, Address(st.dst), src)])));
      ok := l.Run([Plain(32, Address(st.dst), src)]);
    }
  }

  /** The low part of a word, with zeros or its sign above. */
  method EmitExtend(l: Linker, st: Statement) returns (ok: bool, aid: Aids)
    requires l.Valid() && st.Extend?
    modifies l`constants, l`built, l.program`codeEnd, l.program`layer, l.program`slot, l.program`layers, l.program.data
    ensures ok ==> l.Valid() && l.C().Valid() && Translated(l.C(), old(l.built), l.built, map[], st, aid, l.constants, l.adds, l.subs) && Spent(l, st)
    ensures ok ==> aid.tag == |old(l.labels)|
    ensures old(Roomy(l, st)) ==> ok
  {
    hide l.Open, EmitChunks, Singles, HasConstant, Address, AllLow, ExtendOps;
    l.ConfigValid();
    ghost var b := l.built;
    ok, aid := FirstAid(l, st);
    if !ok { return; }
    var ops := ExtendOps(Address(st.dst), Address(st.src), FieldWidth(st.wide), st.signed, aid.first);
    LowExtend(st.dst, st.src, st.wide, st.signed, aid.first);
    OneEmitted(l.C(), b, Straight(Singles(ops)));
    ok := l.Run(ops);
  }

  /** The first constant of a statement. */
  method FirstAid(l: Linker, st: Statement) returns (ok: bool, aid: Aids)
    requires l.Valid() && |Constants(st)| <= 1
    modifies l`constants, l.program.data
    ensures l.Valid() && old(l.constants) <= l.constants && |l.constants| <= |old(l.constants)| + |Constants(st)|
    ensures ok ==> HasAids(l.constants, st, aid) && aid.first + 32 <= BRANCH_TABLE && (|Constants(st)| > 0 ==> SumWord(aid.first))
    ensures aid.tag == |l.labels| && (|old(l.constants)| + |Constants(st)| <= 256 ==> ok)
  {
    hide l.Open, HasConstant, Constants;
    aid := Aids(0, 0, |l.labels|);
    if |Constants(st)| == 0 {
      return true, aid;
    }
    var first;
    ok, first := l.GetConstant(Constants(st)[0]);
    if ok {
      ConstantsFew(l);
      ConstantPlace(l.constants, first, Constants(st)[0]);
    }
    aid := Aids(first, 0, |l.labels|);
  }

  lemma ConstantsFew(l: Linker)
    requires l.Valid()
    ensures |l.constants| <= 256
  {
  }

  lemma ConstantPlace(constants: seq<nat>, at: nat, value: nat)
    requires HasConstant(constants, at, value) && |constants| <= 256
    ensures IsConstant(at) && SumWord(at) && at + 32 <= BRANCH_TABLE
  {
  }

  lemma ChunkEmitted(c: Config, b: Builder, ops: seq<Op>)
    requires c.Valid()
    ensures Emit(c, b, [Straight([ops])]) == EmitChunk(c, b, ops)
  {
    hide EmitChunk;
    OneEmitted(c, b, Straight([ops]));
    EmitNone(c, b);
    ChunkLast(c, b, [], ops);
    assert [] + [ops] == [ops];
  }

  lemma ReadyWords(dst: Reg, left: nat, right: nat)
    requires SumWord(left) && SumWord(right)
    ensures AdderReady(Address(dst), left, right) && LowWord(Address(dst)) && LowWord(left) && LowWord(right)
  {
  }

  /** Sums and differences. */
  method EmitSum(l: Linker, st: Statement) returns (ok: bool, aid: Aids)
    requires l.Valid() && (st.Change? || st.Negate? || st.Total?)
    modifies l`constants, l`built, l`adds, l`subs, l.program`codeEnd, l.program`layer, l.program`slot, l.program`layers, l.program.data
    ensures ok ==> l.Valid() && l.C().Valid() && Translated(l.C(), old(l.built), l.built, map[], st, aid, l.constants, l.adds, l.subs) && Spent(l, st)
    ensures ok ==> aid.tag == |old(l.labels)|
    ensures old(Roomy(l, st)) ==> ok
  {
    hide l.Open, EmitChunk, AdderOps, HasConstant, AdderReady, SumWord, Address, LowWord;
    l.ConfigValid();
    ghost var b := l.built;
    ok, aid := FirstAid(l, st);
    if !ok { return; }
    ghost var constants := l.constants;
    var subtract, left, right := Downward(st), LeftOf(st, aid), RightOf(st, aid);
    PartsWords(st, aid);
    ReadyWords(st.dst, left, right);
    ChunkEmitted(l.C(), b, AdderOps(WordAdder(subtract, Address(st.dst), left, right), 32));
    ok := l.Arithmetic32(subtract, Address(st.dst), left, right);
  }

  function Downward(st: Statement): bool
    requires st.Change? || st.Negate? || st.Total?
  {
    match st
    case Change(_, _, down) => down
    case Negate(_, _) => true
    case Total(_, _, subtract) => subtract
  }

  function LeftOf(st: Statement, aid: Aids): nat
    requires st.Change? || st.Negate? || st.Total?
  {
    if st.Negate? then aid.first else Address(st.dst)
  }

  function RightOf(st: Statement, aid: Aids): nat
    requires st.Change? || st.Negate? || st.Total?
  {
    if st.Change? then aid.first else Address(st.src)
  }

  lemma PartsWords(st: Statement, aid: Aids)
    requires (st.Change? || st.Negate? || st.Total?) && (|Constants(st)| > 0 ==> SumWord(aid.first))
    ensures SumWord(LeftOf(st, aid)) && SumWord(RightOf(st, aid))
  {
  }

  /** Bitwise operations. */
  method EmitGate(l: Linker, st: Statement) returns (ok: bool, aid: Aids)
    requires l.Valid() && (st.Invert? || st.Bitwise?)
    modifies l`constants, l`built, l.program`codeEnd, l.program`layer, l.program`slot, l.program`layers, l.program.data
    ensures ok ==> l.Valid() && l.C().Valid() && Translated(l.C(), old(l.built), l.built, map[], st, aid, l.constants, l.adds, l.subs) && Spent(l, st)
    ensures ok ==> aid.tag == |old(l.labels)|
    ensures old(Roomy(l, st)) ==> ok
  {
    hide l.Open, EmitChunk, BitwiseOps, HasConstant, SumWord, Address, LowWord, AdderReady;
    l.ConfigValid();
    ghost var b := l.built;
    ok, aid := FirstAid(l, st);
    if !ok { return; }
    var gate, left, right := if st.Invert? then Xor else st.gate, Address(if st.Invert? then st.src else st.dst), if st.Invert? then aid.first else Address(st.src);
    AddressWord(st.dst);
    AddressWord(st.src);
    ReadyWords(st.dst, left, right);
    ChunkEmitted(l.C(), b, BitwiseOps(gate, Address(st.dst), left, right, 32));
    ok := l.Bitwise32(gate, Address(st.dst), left, right);
  }

  lemma AddressWord(i: Reg)
    ensures SumWord(Address(i)) && Register(Address(i)) && LowWord(Address(i))
  {
  }

  /** Comparison and shift. */
  method EmitLong(l: Linker, st: Statement) returns (ok: bool, aid: Aids)
    requires l.Valid() && (st.Test? || st.Shift?)
    modifies l`built, l.program`codeEnd, l.program`layer, l.program`slot, l.program`layers, l.program.data
    ensures ok ==> l.Valid() && l.C().Valid() && Translated(l.C(), old(l.built), l.built, map[], st, aid, l.constants, l.adds, l.subs) && Spent(l, st)
    ensures ok ==> aid.tag == |old(l.labels)|
    ensures old(Roomy(l, st)) ==> ok
  {
    hide l.Open, EmitChunks, CompareOps, Singles, ShiftChunks, Address, Register, LowWord;
    l.ConfigValid();
    ghost var b := l.built;
    aid := Aids(0, 0, |l.labels|);
    match st {
    case Test(left, right) =>
      AddressWord(left);
      AddressWord(right);
      OneEmitted(l.C(), b, Straight(Singles(CompareOps(Address(left), Address(right)))));
      ok := l.Compare32(Address(left), Address(right));
    case Shift(dst, src, direction) =>
      AddressWord(dst);
      AddressWord(src);
      OneEmitted(l.C(), b, Straight(ShiftChunks(direction, Address(dst), Address(src), 5)));
      ok := l.Shift32(direction, Address(dst), Address(src));
    }
  }

  /** Multiplication and division, with labels of their own. */
  method EmitLoop(l: Linker, st: Statement) returns (ok: bool, aid: Aids)
    requires l.Valid() && (st.Mul? || st.Div?)
    modifies l`constants, l`built, l`labels, l`jumps, l`branches, l`adds, l`subs
    modifies l.program`codeEnd, l.program`layer, l.program`slot, l.program`layers, l.program.data
    ensures ok ==> l.Valid() && l.C().Valid() && Translated(l.C(), old(l.built), l.built, map[], st, aid, l.constants, l.adds, l.subs) && Spent(l, st)
    ensures ok ==> aid.tag == |old(l.labels)| && aid.tag + TagCount(st) <= |l.labels|
    ensures old(Roomy(l, st)) ==> ok
  {
    hide l.Open, MulItems, DivItems, HasConstant, Address, Register;
    l.ConfigValid();
    var zero, one, tag := 0, 0, |l.labels|;
    AddressWord(st.dst);
    AddressWord(st.src);
    if st.Mul? {
      ok, zero, one := l.Multiply32(Address(st.dst), Address(st.src));
    } else {
      ok, zero, one := l.Divide32(Address(st.dst), Address(st.src), st.signed, st.remainder);
    }
    aid := Aids(zero, one, tag);
  }

  lemma LowPlain(n: nat, dst: nat, src: nat)
    requires 0 < n <= 32
    ensures dst + n <= BRANCH_TABLE && src + n <= BRANCH_TABLE ==> AllLow([Plain(n, dst, src)])
  {
  }

  lemma LowExtend(dst: Reg, src: Reg, wide: bool, signed: bool, zero: nat)
    ensures var ops := ExtendOps(Address(dst), Address(src), FieldWidth(wide), signed, zero);
      |ops| <= 25 && (zero + 32 <= BRANCH_TABLE ==> AllLow(ops))
  {
    var w := FieldWidth(wide);
    LowPlain(w, Address(dst), Address(src));
    LowPlain(32 - w, Address(dst) + w, zero);
    LowFill(Address(dst), w, 32 - w);
    LowAppend([Plain(w, Address(dst), Address(src))], FillOps(Address(dst), w, 32 - w));
    LowAppend([Plain(w, Address(dst), Address(src))], [Plain(32 - w, Address(dst) + w, zero)]);
  }

  lemma LowFill(dst: nat, w: nat, k: nat)
    requires 0 < w && w + k <= 32 && dst + 32 <= BRANCH_TABLE
    ensures AllLow(FillOps(dst, w, k))
  {
    var ops := FillOps(dst, w, k);
    forall i {:trigger ops[i]} | 0 <= i < |ops| ensures LowOp(ops[i]) {
      assert ops[i] == Plain(1, dst + w + i, dst + w - 1);
    }
  }

  lemma LowAppend(xs: seq<Op>, ys: seq<Op>)
    ensures AllLow(xs) && AllLow(ys) ==> AllLow(xs + ys)
  {
    hide LowOp;
  }

  // ---- Statements one after another.

  lemma SameItems(names: Names, st: Statement, aid: Aids)
    requires !HasName(st)
    ensures ItemsOf(names, st, aid) == ItemsOf(map[], st, aid)
  {
  }

  /** A name more makes no difference to lines that have theirs. */
  lemma {:induction false} NamesMore(names: Names, lines: seq<Line>, name: nat, tag: nat)
    requires name !in names && forall i {:trigger lines[i]} | 0 <= i < |lines| && HasName(lines[i].st) :: lines[i].st.name in names
    ensures AllItems(names[name := tag], lines) == AllItems(names, lines)
    decreases |lines|
  {
    hide ItemsOf;
    if lines != [] {
      var k := |lines| - 1;
      NamesMore(names, lines[..k], name, tag);
      if HasName(lines[k].st) { NamedItems(names, lines[k].st, lines[k].aid, name, tag); } else {
        SameItems(names, lines[k].st, lines[k].aid);
        SameItems(names[name := tag], lines[k].st, lines[k].aid);
      }
    }
  }

  lemma NamedItems(names: Names, st: Statement, aid: Aids, name: nat, tag: nat)
    requires HasName(st) && st.name in names && name !in names
    ensures ItemsOf(names[name := tag], st, aid) == ItemsOf(names, st, aid)
  {
  }

  /** One line more, with labels that are new. */
  lemma SeparateMore(names: Names, lines: seq<Line>, limit: nat, line: Line, limit': nat)
    requires Separate(names, lines, limit) && limit <= line.aid.tag && line.aid.tag + TagCount(line.st) <= limit' <= RETURN
    requires (HasName(line.st) ==> line.st.name in names) && (line.st.Label? ==> line.st !in TextOf(lines))
    requires TagCount(line.st) == 0 || limit == line.aid.tag
    ensures Separate(names, lines + [line], limit')
  {
    var all := lines + [line];
    forall i, j {:trigger all[i], all[j]} | 0 <= i < j < |all| && all[i].st.Label? ensures all[j].st != all[i].st {
      if j == |lines| {
        assert TextOf(lines)[i] == lines[i].st;
      }
    }
  }

  lemma SeparateName(names: Names, lines: seq<Line>, limit: nat, name: nat)
    requires Separate(names, lines, limit) && name !in names && limit + 1 <= RETURN
    ensures Separate(names[name := limit], lines, limit + 1)
  {
  }

  lemma SuppliedMore(constants: seq<nat>, adds: bool, subs: bool, lines: seq<Line>, constants': seq<nat>, adds': bool, subs': bool, line: Line)
    requires Supplied(constants, adds, subs, lines) && constants <= constants' && (adds ==> adds') && (subs ==> subs')
    requires HasAids(constants', line.st, line.aid) && Equipped(line.st, adds', subs')
    ensures Supplied(constants', adds', subs', lines + [line])
  {
    hide HasConstant, Constants;
    var all := lines + [line];
    forall i {:trigger all[i]} | 0 <= i < |all| ensures HasAids(constants', all[i].st, all[i].aid) && Equipped(all[i].st, adds', subs') {
      if i < |lines| {
        assert all[i] == lines[i];
        AidsStay(constants, constants', lines[i].st, lines[i].aid);
      }
    }
  }

  lemma AidsStay(constants: seq<nat>, constants': seq<nat>, st: Statement, aid: Aids)
    requires HasAids(constants, st, aid) && constants <= constants'
    ensures HasAids(constants', st, aid)
  {
    hide HasConstant, Constants;
    if |Constants(st)| > 0 { ConstantStays(constants, constants', aid.first, Constants(st)[0]); }
    if |Constants(st)| > 1 { ConstantStays(constants, constants', aid.second, Constants(st)[1]); }
  }

  lemma ItemsMore(c: Config, names: Names, lines: seq<Line>, line: Line, b: Builder, now: Builder)
    requires c.Valid() && b == Emit(c, START, AllItems(names, lines)) && now == Emit(c, b, ItemsOf(names, line.st, line.aid))
    ensures now == Emit(c, START, AllItems(names, lines + [line]))
  {
    hide ItemsOf, Emit;
    EmitAppend(c, START, AllItems(names, lines), ItemsOf(names, line.st, line.aid));
    assert (lines + [line])[..|lines|] == lines;
  }

  /** Labels of a builder are those its items bind. */
  lemma {:induction false} LabelsBound(c: Config, items: seq<Item>)
    requires c.Valid()
    ensures forall l: nat {:trigger Binds(items, l)} :: l in Emit(c, START, items).labels <==> Binds(items, l)
    decreases |items|
  {
    hide SlotOfBuilder, OpsRows;
    if items != [] {
      var k := |items| - 1;
      LabelsBound(c, items[..k]);
      if items[k].Straight? {
        ChunksLabels(c, Emit(c, START, items[..k]), items[k].chunks);
      }
      forall l: nat {:trigger Binds(items, l)} ensures Binds(items, l) <==> Binds(items[..k], l) || Landmark(items[k], l) {
        assert items == items[..k] + [items[k]];
      }
    }
  }

  /** A label of the text is bound if and only if the text has defined it. */
  lemma DefinedBound(c: Config, names: Names, lines: seq<Line>, limit: nat, name: nat)
    requires c.Valid() && Separate(names, lines, limit) && name in names
    ensures names[name] in Emit(c, START, AllItems(names, lines)).labels <==> Label(name) in TextOf(lines)
  {
    hide AllItems, Emit;
    var tag := names[name];
    LabelsBound(c, AllItems(names, lines));
    if Binds(AllItems(names, lines), tag) {
      var i := LinesBound(names, lines, tag);
      assert TextOf(lines)[i] == lines[i].st;
      assert names[lines[i].st.name] == tag;
    }
    if Label(name) in TextOf(lines) {
      var i :| 0 <= i < |lines| && TextOf(lines)[i] == Label(name);
      Around(names, lines, i);
      assert Mark(tag) in ItemsOf(names, lines[i].st, lines[i].aid);
      hide ItemsOf;
      assert Mark(tag) in AllItems(names, lines);
    }
  }

  lemma NothingNeeded()
    ensures NeedOf([]) == Need(0, 0, 0, 0)
  {
  }

  lemma NeedNext(text: seq<Statement>, i: nat)
    requires i < |text|
    ensures var n := NeedOf(text[..i]);
      NeedOf(text[..i + 1]) == Need(n.layers + LayerNeed(text[i]), n.labels + LabelNeed(text[i]), n.turns + TurnNeed(text[i]), n.constants + |Constants(text[i])|)
  {
    hide LayerNeed, LabelNeed, TurnNeed, Constants;
    assert text[..i + 1][..i] == text[..i];
  }

  lemma {:induction false} NeedPrefix(text: seq<Statement>, i: nat)
    requires i <= |text|
    ensures var n, m := NeedOf(text[..i]), NeedOf(text);
      n.layers <= m.layers && n.labels <= m.labels && n.turns <= m.turns && n.constants <= m.constants
    decreases |text|
  {
    hide LayerNeed, LabelNeed, TurnNeed, Constants;
    if i < |text| {
      NeedPrefix(text[..|text| - 1], i);
      assert text[..|text| - 1][..i] == text[..i];
    } else {
      assert text[..i] == text;
    }
  }

  lemma {:induction false} ReadPrefix(entry: nat, text: seq<Statement>, i: nat)
    requires i <= |text|
    ensures ReadText(entry, text).Some? ==> ReadText(entry, text[..i]).Some?
    decreases |text|
  {
    hide ReadOn;
    if i < |text| {
      ReadPrefix(entry, text[..|text| - 1], i);
      assert text[..|text| - 1][..i] == text[..i];
    } else {
      assert text[..i] == text;
    }
  }

  lemma LineText(lines: seq<Line>, line: Line)
    ensures TextOf(lines + [line]) == TextOf(lines) + [line.st]
  {
  }

  lemma ReadMore(entry: nat, lines: seq<Line>, st: Statement)
    ensures var text := TextOf(lines) + [st];
      ReadText(entry, text) == match ReadText(entry, TextOf(lines))
        case None => None
        case Some(r) => if st.Label? && st in TextOf(lines) then None else ReadOn(r, entry, st)
  {
    hide ReadOn;
    assert (TextOf(lines) + [st])[..|lines|] == TextOf(lines);
  }

  lemma ComputeAdded(c: Config, b: Builder, now: Builder, names: Names, lines: seq<Line>, limit: nat, st: Statement, aid: Aids,
                     constants: seq<nat>, adds: bool, subs: bool, limit': nat)
    requires c.Valid() && b == Emit(c, START, AllItems(names, lines)) && Separate(names, lines, limit) && Computes(st)
    requires Translated(c, b, now, map[], st, aid, constants, adds, subs) && aid.tag == limit && aid.tag + TagCount(st) <= limit' <= RETURN
    ensures now == Emit(c, START, AllItems(names, lines + [Line(st, aid)])) && Separate(names, lines + [Line(st, aid)], limit')
    ensures HasAids(constants, st, aid) && Equipped(st, adds, subs)
  {
    hide AllItems, Emit, ItemsOf, Separate, Constants;
    SameItems(names, st, aid);
    ItemsMore(c, names, lines, Line(st, aid), b, now);
    SeparateMore(names, lines, limit, Line(st, aid), limit');
  }

  lemma SteerAdded(c: Config, now: Builder, names: Names, lines: seq<Line>, st: Statement, aid: Aids, constants: seq<nat>, adds: bool, subs: bool)
    requires c.Valid() && Separate(names, lines, aid.tag) && !Computes(st)
    requires now == Emit(c, Emit(c, START, AllItems(names, lines)), ItemsOf(names, st, aid))
    requires (HasName(st) ==> st.name in names) && (st.Label? ==> st !in TextOf(lines))
    ensures now == Emit(c, START, AllItems(names, lines + [Line(st, aid)])) && Separate(names, lines + [Line(st, aid)], aid.tag)
    ensures HasAids(constants, st, aid) && Equipped(st, adds, subs)
  {
    SeparateLimit(names, lines, aid.tag);
    hide AllItems, Emit, ItemsOf, Separate;
    ItemsMore(c, names, lines, Line(st, aid), Emit(c, START, AllItems(names, lines)), now);
    SeparateMore(names, lines, aid.tag, Line(st, aid), aid.tag);
  }

  lemma SeparateLimit(names: Names, lines: seq<Line>, limit: nat)
    requires Separate(names, lines, limit)
    ensures limit <= RETURN
  {
  }

  /** The item of a label, a jump, a branch or a return. */
  method EmitTurn(l: Linker, ghost names: Names, st: Statement, tag: nat) returns (ok: bool)
    requires l.Valid() && !Computes(st) && if HasName(st) then tag == TagOf(names, st.name) && tag < |l.labels| else tag == RETURN
    modifies l`labels, l`built, l`jumps, l`branches, l.program`codeEnd, l.program`layer, l.program`slot, l.program`layers, l.program.data
    ensures ok ==> l.Valid() && l.C().Valid() && l.built == Emit(l.C(), old(l.built), ItemsOf(names, st, Aids(0, 0, 0)))
    ensures ok ==> |l.labels| == |old(l.labels)| && |l.jumps| <= |old(l.jumps)| + TurnNeed(st) && l.program.Spare() + LayerNeed(st) >= old(l.program.Spare())
    ensures old(l.Enough(LayerNeed(st), 0, TurnNeed(st))) ==> ok
  {
    hide l.Open;
    l.ConfigValid();
    ghost var b := l.built;
    match st {
      case Label(_) =>
        OneEmitted(l.C(), b, Mark(tag));
        ok := l.MarkLabel(tag);
      case GoTo(_) =>
        OneEmitted(l.C(), b, Leap(tag));
        ok := l.Jump(tag);
      case When(flag, inverted, _) =>
        OneEmitted(l.C(), b, Goto(tag, FlagAt(flag), inverted));
        ok := l.ConditionalJump(tag, FlagAt(flag), inverted);
      case Return =>
        OneEmitted(l.C(), b, Leap(RETURN));
        ok := l.Jump(RETURN);
    }
  }

  /** The reader: labels by name, and how far the text has been read. */
  class Compiler {
    const l: Linker
    const entry: nat
    var names: Names
    var reading: Reading
    ghost var lines: seq<Line>

    ghost predicate Valid()
      reads this, l, l.program, l.program.data
    {
      && l.Valid() && l.C().Valid()
      && l.built == Emit(l.C(), START, AllItems(names, lines)) && Separate(names, lines, |l.labels|)
      && Supplied(l.constants, l.adds, l.subs, lines)
      && ReadText(entry, TextOf(lines)) == Some(reading)
    }

    constructor (l: Linker, entry: nat)
      requires l.Valid() && l.built == START && l.labels == []
      ensures Valid() && this.l == l && this.entry == entry && lines == []
    {
      this.l := l;
      this.entry := entry;
      names, reading, lines := map[], UNREAD, [];
      new;
      hide l.Open;
      l.ConfigValid();
      OneEmitted(l.C(), START, Straight([]));
    }

    /** The label of a name: its own, or a new one. */
    method NameTag(name: nat) returns (ok: bool, tag: nat)
      requires Valid()
      modifies this`names, l`labels
      ensures Valid() && lines == old(lines)
      ensures ok ==> name in names && tag == names[name] && tag < |l.labels|
      ensures |old(l.labels)| <= |l.labels| <= |old(l.labels)| + 1
      ensures |old(l.labels)| < l.capacity.labels ==> ok
    {
      hide l.Open, AllItems, Emit;
      l.ConfigValid();
      if name in names {
        return true, names[name];
      }
      ok, tag := l.InternalLabel();
      if ok {
        NamesMore(names, lines, name, tag);
        l.ConfigValid();
        SeparateName(names, lines, tag, name);
        names := names[name := tag];
      }
    }

    /** A label, a jump, a branch or a return. */
    method Steer(st: Statement) returns (ok: bool, aid: Aids)
      requires Valid() && !Computes(st)
      modifies this`names, l`labels, l`built, l`jumps, l`branches
      modifies l.program`codeEnd, l.program`layer, l.program`slot, l.program`layers, l.program.data
      ensures ok ==> l.Valid() && l.C().Valid() && lines == old(lines) && Separate(names, lines, aid.tag) && aid.tag == |l.labels|
      ensures ok ==> l.built == Emit(l.C(), Emit(l.C(), START, AllItems(names, lines)), ItemsOf(names, st, aid)) && Spent(l, st)
      ensures ok ==> (HasName(st) ==> st.name in names) && (st.Label? ==> st !in TextOf(lines))
      ensures old(Roomy(l, st)) && (st.Label? ==> st !in old(TextOf(lines))) ==> ok
    {
      hide l.Open, AllItems, Emit, Separate, Supplied, ReadText;
      var tag := RETURN;
      ok := true;
      if HasName(st) {
        ok, tag := NameTag(st.name);
        if !ok { return false, Aids(0, 0, 0); }
      }
      aid := Aids(0, 0, |l.labels|);
      if st.Label? {
        DefinedLabel(st.name);
        if l.labels[tag].Some? { return false, aid; }
      }
      ok := EmitTurn(l, names, st, tag);
    }

    /** A statement that computes. */
    method Compute(st: Statement) returns (ok: bool, aid: Aids)
      requires Valid() && Computes(st)
      modifies l`constants, l`labels, l`built, l`jumps, l`branches, l`adds, l`subs
      modifies l.program`codeEnd, l.program`layer, l.program`slot, l.program`layers, l.program.data
      ensures ok ==> l.Valid() && l.C().Valid() && Translated(l.C(), old(l.built), l.built, map[], st, aid, l.constants, l.adds, l.subs) && Spent(l, st)
      ensures ok ==> aid.tag == |old(l.labels)| && aid.tag + TagCount(st) <= |l.labels| <= RETURN
      ensures old(Roomy(l, st)) ==> ok
    {
      hide l.Open, AllItems, Emit, Separate, Supplied, ReadText, Translated, ItemsOf, Constants;
      l.ConfigValid();
      if st.Nothing? || st.Load? || st.Copy? {
        ok, aid := EmitWord(l, st);
      } else if st.Extend? {
        ok, aid := EmitExtend(l, st);
      } else if st.Change? || st.Negate? || st.Total? {
        ok, aid := EmitSum(l, st);
      } else if st.Invert? || st.Bitwise? {
        ok, aid := EmitGate(l, st);
      } else if st.Test? || st.Shift? {
        ok, aid := EmitLong(l, st);
      } else {
        ok, aid := EmitLoop(l, st);
      }
      if ok {
        l.ConfigValid();
      }
    }

    /**
     * One statement more. It fails if there is no room for it, or if it may not stand there: the first one must be the function's label,
     * another label must be new, what is no label must not stand behind a jump or return, and a branch wants a comparison in front of it.
     */
    method Accept(st: Statement) returns (ok: bool)
      requires Valid()
      modifies this, l`constants, l`labels, l`built, l`jumps, l`branches, l`adds, l`subs
      modifies l.program`codeEnd, l.program`layer, l.program`slot, l.program`layers, l.program.data
      ensures ok ==> Valid() && TextOf(lines) == old(TextOf(lines)) + [st] && Spent(l, st)
      ensures var text := old(TextOf(lines));
        ok || old(Roomy(l, st)) ==>
          (ok <==> if text == [] then st == Label(entry)
                   else if st.Label? then st !in text
                   else !text[|text| - 1].GoTo? && !text[|text| - 1].Return? && (st.When? ==> exists j :: 0 <= j < |text| && text[j].Test?))
    {
      hide l.Open, AllItems, Emit, Separate, Supplied, Translated, ItemsOf, Constants, ReadText, HasAids, Equipped, ReadOn;
      ReadMore(entry, lines, st);
      MayStand(entry, TextOf(lines), st);
      var next := ReadOn(reading, entry, st);
      if next == None {
        return false;
      }
      var aid;
      ghost var limit, b, constants, adds, subs := |l.labels|, l.built, l.constants, l.adds, l.subs;
      if Computes(st) {
        ok, aid := Compute(st);
        if !ok { return; }
        ComputeAdded(l.C(), b, l.built, names, lines, limit, st, aid, l.constants, l.adds, l.subs, |l.labels|);
      } else {
        ok, aid := Steer(st);
        if !ok { return; }
        SteerAdded(l.C(), l.built, names, lines, st, aid, l.constants, l.adds, l.subs);
      }
      SuppliedMore(constants, adds, subs, lines, l.constants, l.adds, l.subs, Line(st, aid));
      ReadMore(entry, lines, st);
      LineText(lines, Line(st, aid));
      reading, lines := next.value, lines + [Line(st, aid)];
    }

    /** There is so much left. */
    ghost predicate Affords(need: Need)
      reads l, l.program
    {
      l.Enough(need.layers, need.labels, need.turns) && |l.constants| + need.constants <= 256
    }

    /** What the statements so far have taken, at most. */
    ghost predicate Consumed(need: Need, layers: nat, labels: nat, turns: nat, constants: nat)
      reads l, l.program
    {
      && l.program.Spare() + need.layers >= layers && |l.labels| <= labels + need.labels
      && |l.jumps| <= turns + need.turns && |l.constants| <= constants + need.constants
    }

    /** The whole text. With room enough it is taken if and only if every statement stands where it may. */
    method Text(text: seq<Statement>) returns (ok: bool)
      requires Valid() && lines == []
      modifies this, l`constants, l`labels, l`built, l`jumps, l`branches, l`adds, l`subs
      modifies l.program`codeEnd, l.program`layer, l.program`slot, l.program`layers, l.program.data
      ensures ok ==> Valid() && TextOf(lines) == text && WellRead(entry, text) && l.regs == old(l.regs)
      ensures ok ==> Consumed(NeedOf(text), old(l.program.Spare()), old(|l.labels|), old(|l.jumps|), old(|l.constants|))
      ensures old(Affords(NeedOf(text))) && WellRead(entry, text) ==> ok
    {
      hide l.Open, AllItems, Emit, Separate, Supplied, ReadOn, Constants, ReadText, NeedOf, LayerNeed, LabelNeed, TurnNeed;
      NothingNeeded();
      var i := 0;
      while i < |text|
        invariant 0 <= i <= |text| && Valid() && TextOf(lines) == text[..i] && l.regs == old(l.regs)
        invariant Consumed(NeedOf(text[..i]), old(l.program.Spare()), old(|l.labels|), old(|l.jumps|), old(|l.constants|))
      {
        ghost var n := NeedOf(text[..i]);
        NeedNext(text, i);
        NeedPrefix(text, i + 1);
        ReadPrefix(entry, text, i + 1);
        assert text[..i + 1] == text[..i] + [text[i]];
        MayStand(entry, text[..i], text[i]);
        ok := Accept(text[i]);
        if !ok { return; }
        i := i + 1;
      }
      assert text[..i] == text;
      ok := reading.entered && reading.returned;
    }

    lemma DefinedLabel(name: nat)
      requires Valid() && name in names
      ensures names[name] < |l.labels| && (l.labels[names[name]].Some? <==> Label(name) in TextOf(lines))
    {
      hide AllItems, Emit, Prepared, JumpsTied, Partly;
      DefinedBound(l.C(), names, lines, |l.labels|, name);
    }
  }
}
