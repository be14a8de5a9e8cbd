/** Object-like macro bodies with the operator that joins its neighbours. */
module Pasting {
  import opened Macros

  datatype Attempt<+T> = Failed | Got(value: T)

  /** The operator: spellings are numbered, and 0 is its own. */
  const HASHES := Symbol(0, false)

  /** How two spellings join, if they make one token. */
  type Paste = (Symbol, Symbol) -> Attempt<Symbol>

  /** A definition as it was read. */
  datatype Definition = Definition(name: nat, present: bool, body: seq<Symbol>)

  /** Past a row of operators. */
  function Skip(raw: seq<Symbol>, i: nat): (r: nat)
    requires i <= |raw|
    ensures i <= r <= |raw| && (r < |raw| ==> raw[r] != HASHES)
    ensures forall j | i <= j < r :: raw[j] == HASHES
    decreases |raw| - i
  {
    if i < |raw| && raw[i] == HASHES then Skip(raw, i + 1) else i
  }

  /** A symbol that ends at i, joined with all that follow it behind operators, and where the next one begins. */
  function PasteFrom(paste: Paste, raw: seq<Symbol>, i: nat, left: Symbol): (r: Attempt<(Symbol, nat)>)
    requires i < |raw|
    ensures r.Got? ==> i < r.value.1 <= |raw|
    decreases |raw| - i
  {
    if i + 1 < |raw| && raw[i + 1] == HASHES then
      var right := Skip(raw, i + 1);
      if right == |raw| then Failed
      else match paste(left, raw[right])
        case Failed => Failed
        case Got(x) => PasteFrom(paste, raw, right, x)
    else Got((left, i + 1))
  }

  /** The body from i on, pasted; it fails if an operator has nothing behind it or a pair does not join. */
  function PasteAll(paste: Paste, raw: seq<Symbol>, i: nat): (r: Attempt<seq<Symbol>>)
    requires i <= |raw|
    ensures r.Got? ==> |r.value| <= |raw| - i
    decreases |raw| - i
  {
    if i == |raw| then Got([])
    else match PasteFrom(paste, raw, i, raw[i])
      case Failed => Failed
      case Got(one) => Before(one.0, PasteAll(paste, raw, one.1))
  }

  function Before(x: Symbol, rest: Attempt<seq<Symbol>>): Attempt<seq<Symbol>> {
    match rest
    case Failed => Failed
    case Got(r) => Got([x] + r)
  }

  /** An operator with something in front of it; at the start of a body it is a symbol like any other. */
  predicate Operator(raw: seq<Symbol>, j: int) {
    0 < j < |raw| && raw[j] == HASHES
  }

  /** A symbol that is not joined to what is in front of it. */
  predicate Starts(raw: seq<Symbol>, j: nat)
    requires j < |raw|
  {
    !Operator(raw, j) && !Operator(raw, j - 1)
  }

  /** Where the next such symbol is, from j on; the length of the body if there is none. */
  function End(raw: seq<Symbol>, j: nat): (e: nat)
    requires j <= |raw|
    ensures j <= e <= |raw| && (e < |raw| ==> Starts(raw, e)) && forall k | j <= k < e :: !Starts(raw, k)
    decreases |raw| - j
  {
    if j == |raw| || Starts(raw, j) then j else End(raw, j + 1)
  }

  /** The symbols of a stretch, operators left out. */
  function Operands(raw: seq<Symbol>, from: nat, till: nat): seq<Symbol>
    requires from <= till <= |raw|
  {
    if from == till then []
    else Operands(raw, from, till - 1) + if Operator(raw, till - 1) then [] else [raw[till - 1]]
  }

  /** Left to right: everything so far joined with the next operand. */
  function Fold(paste: Paste, left: Symbol, operands: seq<Symbol>): Attempt<Symbol> {
    if operands == [] then Got(left)
    else match Fold(paste, left, operands[..|operands| - 1])
      case Failed => Failed
      case Got(x) => paste(x, operands[|operands| - 1])
  }

  /** A symbol with all that is joined to it. */
  function Group(paste: Paste, raw: seq<Symbol>, i: nat): Attempt<Symbol>
    requires i < |raw|
  {
    Fold(paste, raw[i], Operands(raw, i + 1, End(raw, i + 1)))
  }

  lemma {:induction false} FoldFirst(paste: Paste, left: Symbol, x: Symbol, rest: seq<Symbol>)
    ensures Fold(paste, left, [x] + rest) ==
      match paste(left, x)
      case Failed => Failed
      case Got(y) => Fold(paste, y, rest)
    decreases |rest|
  {
    var all := [x] + rest;
    if rest == [] {
      assert all[..0] == [];
    } else {
      FoldFirst(paste, left, x, rest[..|rest| - 1]);
      assert all[..|all| - 1] == [x] + rest[..|rest| - 1];
    }
  }

  lemma {:induction false} OperandsSplit(raw: seq<Symbol>, from: nat, mid: nat, till: nat)
    requires from <= mid <= till <= |raw|
    ensures Operands(raw, from, till) == Operands(raw, from, mid) + Operands(raw, mid, till)
    decreases till
  {
    if mid < till {
      OperandsSplit(raw, from, mid, till - 1);
    }
  }

  lemma {:induction false} NoOperands(raw: seq<Symbol>, from: nat, till: nat)
    requires from <= till <= |raw| && forall j | from <= j < till :: Operator(raw, j)
    ensures Operands(raw, from, till) == []
    decreases till
  {
    if from < till {
      NoOperands(raw, from, till - 1);
    }
  }

  /** A row of operators and the operand behind it, inside a group. */
  lemma OneOperand(raw: seq<Symbol>, i: nat, right: nat)
    requires i + 1 < |raw| && right == Skip(raw, i + 1) && right < |raw| && right > i + 1
    ensures !Operator(raw, right) && End(raw, i + 1) == End(raw, right + 1)
    ensures Operands(raw, i + 1, End(raw, i + 1)) == [raw[right]] + Operands(raw, right + 1, End(raw, right + 1))
  {
    hide Operands, End, Skip;
    SameEnd(raw, i + 1, right + 1);
    OperandFirst(raw, i + 1, right, End(raw, right + 1));
  }

  lemma OperandFirst(raw: seq<Symbol>, from: nat, right: nat, till: nat)
    requires from <= right < till <= |raw| && !Operator(raw, right) && forall j | from <= j < right :: Operator(raw, j)
    ensures Operands(raw, from, till) == [raw[right]] + Operands(raw, right + 1, till)
  {
    hide Operator, Operands;
    NoOperands(raw, from, right);
    OperandsSplit(raw, from, right, till);
    OperandsSplit(raw, right, right + 1, till);
    LoneOperand(raw, right);
  }

  lemma LoneOperand(raw: seq<Symbol>, at: nat)
    requires at < |raw| && !Operator(raw, at)
    ensures Operands(raw, at, at + 1) == [raw[at]]
  {
    hide Operator;
    assert Operands(raw, at, at) == [];
  }

  lemma {:induction false} SameEnd(raw: seq<Symbol>, j: nat, k: nat)
    requires j <= k <= |raw| && forall i | j <= i < k :: !Starts(raw, i)
    ensures End(raw, j) == End(raw, k)
    decreases k - j
  {
    if j < k {
      SameEnd(raw, j + 1, k);
    }
  }

  /** A row of operators ends the body. */
  predicate Dangles(raw: seq<Symbol>) {
    Operator(raw, |raw| - 1)
  }

  /** The loops compute the fold of the operands, and the group must not end the body with an operator. */
  lemma {:induction false} PasteIsFold(paste: Paste, raw: seq<Symbol>, i: nat, left: Symbol)
    requires i < |raw| && !Operator(raw, i)
    ensures var e := End(raw, i + 1);
      PasteFrom(paste, raw, i, left) ==
        match Fold(paste, left, Operands(raw, i + 1, e))
        case Failed => Failed
        case Got(x) => if e == |raw| && Dangles(raw) then Failed else Got((x, e))
    decreases |raw| - i
  {
    if i + 1 < |raw| && raw[i + 1] == HASHES {
      var right := Skip(raw, i + 1);
      if right == |raw| {
        AllOperators(raw, i + 1);
        NoOperands(raw, i + 1, |raw|);
      } else {
        OneOperand(raw, i, right);
        FoldFirst(paste, left, raw[right], Operands(raw, right + 1, End(raw, right + 1)));
        if paste(left, raw[right]).Got? {
          PasteIsFold(paste, raw, right, paste(left, raw[right]).value);
        }
      }
    } else {
      assert i + 1 < |raw| ==> Starts(raw, i + 1);
      assert Operands(raw, i + 1, i + 1) == [];
    }
  }

  lemma {:induction false} AllOperators(raw: seq<Symbol>, j: nat)
    requires 0 < j <= |raw| && forall k | j <= k < |raw| :: raw[k] == HASHES
    ensures End(raw, j) == |raw| && forall k | j <= k < |raw| :: Operator(raw, k)
    decreases |raw| - j
  {
    if j < |raw| {
      AllOperators(raw, j + 1);
    }
  }

  /** The groups from i on, each with its value. */
  function Groups(paste: Paste, raw: seq<Symbol>, i: nat): seq<Attempt<Symbol>>
    requires i <= |raw|
    decreases |raw| - i
  {
    if i == |raw| then [] else (if Starts(raw, i) then [Group(paste, raw, i)] else []) + Groups(paste, raw, i + 1)
  }

  lemma {:induction false} GroupsFrom(paste: Paste, raw: seq<Symbol>, j: nat)
    requires j <= |raw|
    ensures Groups(paste, raw, j) == Groups(paste, raw, End(raw, j))
    decreases |raw| - j
  {
    if j < |raw| && !Starts(raw, j) {
      GroupsFrom(paste, raw, j + 1);
    }
  }

  /** The body pasted from a group on: exactly its groups' values, unless an operator ends it or a group does not join. */
  lemma {:induction false} PasteFromGroups(paste: Paste, raw: seq<Symbol>, i: nat)
    requires i <= |raw| && (i < |raw| ==> Starts(raw, i))
    ensures var r, groups := PasteAll(paste, raw, i), Groups(paste, raw, i);
      && (r.Failed? <==> (i < |raw| && Dangles(raw)) || Failed in groups)
      && (r.Got? ==> groups == Values(r.value))
    decreases |raw| - i
  {
    hide Fold, PasteFrom, Starts, Operator, End, Operands, Group, Dangles, Groups, PasteAll;
    NextGroup(paste, raw, i);
    if i < |raw| {
      PasteFromGroups(paste, raw, End(raw, i + 1));
      var rest := PasteAll(paste, raw, End(raw, i + 1));
      if rest.Got? && Group(paste, raw, i).Got? {
        assert ([Group(paste, raw, i).value] + rest.value)[1..] == rest.value;
      }
    }
  }

  /** One turn of the outer loop is one group. */
  lemma NextGroup(paste: Paste, raw: seq<Symbol>, i: nat)
    requires i <= |raw| && (i < |raw| ==> Starts(raw, i))
    ensures i == |raw| ==> PasteAll(paste, raw, i) == Got([]) && Groups(paste, raw, i) == []
    ensures i < |raw| ==>
      var e := End(raw, i + 1);
      && Groups(paste, raw, i) == [Group(paste, raw, i)] + Groups(paste, raw, e)
      && PasteAll(paste, raw, i) ==
        match Group(paste, raw, i)
        case Failed => Failed
        case Got(x) => if e == |raw| && Dangles(raw) then Failed else Before(x, PasteAll(paste, raw, e))
  {
    hide Fold, PasteFrom, Dangles, Operands, End;
    if i < |raw| {
      PasteIsFold(paste, raw, i, raw[i]);
      GroupsFrom(paste, raw, i + 1);
    }
  }

  function Values(x: seq<Symbol>): seq<Attempt<Symbol>> {
    if x == [] then [] else [Got(x[0])] + Values(x[1..])
  }

  /**
   * Pasting fails if and only if an operator behind some symbol ends the body, or some symbol does not join
   * with its operands; otherwise it leaves the values of the groups, in order.
   */
  lemma PastesExactly(paste: Paste, raw: seq<Symbol>)
    ensures var r := PasteAll(paste, raw, 0);
      && (r.Failed? <==> Dangles(raw) || exists i :: 0 <= i < |raw| && Starts(raw, i) && Group(paste, raw, i).Failed?)
      && (r.Got? ==> Groups(paste, raw, 0) == Values(r.value))
  {
    hide PasteAll, Group;
    PasteFromGroups(paste, raw, 0);
    GroupsFail(paste, raw, 0);
  }

  lemma {:induction false} GroupsFail(paste: Paste, raw: seq<Symbol>, i: nat)
    requires i <= |raw|
    ensures Failed in Groups(paste, raw, i) <==> exists j :: i <= j < |raw| && Starts(raw, j) && Group(paste, raw, j).Failed?
    decreases |raw| - i
  {
    hide Group;
    if i < |raw| {
      GroupsFail(paste, raw, i + 1);
    }
  }

  // ---- What is spelled.

  /** All spellings, one behind the other. */
  function Spelled(spell: Symbol -> seq<nat>, xs: seq<Symbol>): seq<nat> {
    if xs == [] then [] else spell(xs[0]) + Spelled(spell, xs[1..])
  }

  /** What a body spells from i on, operators left out. */
  function Letters(spell: Symbol -> seq<nat>, raw: seq<Symbol>, i: nat): seq<nat>
    requires i <= |raw|
    decreases |raw| - i
  {
    if i == |raw| then []
    else if i > 0 && raw[i] == HASHES then Letters(spell, raw, i + 1)
    else spell(raw[i]) + Letters(spell, raw, i + 1)
  }

  lemma {:induction false} SkipLetters(spell: Symbol -> seq<nat>, raw: seq<Symbol>, i: nat)
    requires 0 < i <= |raw|
    ensures Letters(spell, raw, i) == Letters(spell, raw, Skip(raw, i))
    decreases |raw| - i
  {
    if i < |raw| && raw[i] == HASHES {
      SkipLetters(spell, raw, i + 1);
    }
  }

  lemma {:induction false} FromSpells(paste: Paste, spell: Symbol -> seq<nat>, raw: seq<Symbol>, i: nat, left: Symbol)
    requires i < |raw| && PasteFrom(paste, raw, i, left).Got?
    requires forall x, y {:trigger paste(x, y)} :: paste(x, y).Got? ==> spell(paste(x, y).value) == spell(x) + spell(y)
    ensures var (x, next) := PasteFrom(paste, raw, i, left).value;
      && spell(x) + Letters(spell, raw, next) == spell(left) + Letters(spell, raw, i + 1)
      && (next < |raw| ==> raw[next] != HASHES)
    decreases |raw| - i
  {
    if i + 1 < |raw| && raw[i + 1] == HASHES {
      var right := Skip(raw, i + 1);
      SkipLetters(spell, raw, i + 1);
      var y := paste(left, raw[right]).value;
      FromSpells(paste, spell, raw, right, y);
      assert (spell(left) + spell(raw[right])) + Letters(spell, raw, right + 1) == spell(left) + (spell(raw[right]) + Letters(spell, raw, right + 1));
    }
  }

  /** Pasting moves no characters: if a joined pair is spelled as its two sides are, a pasted body is spelled as its symbols are, in order. */
  lemma {:induction false} PastingSpells(paste: Paste, spell: Symbol -> seq<nat>, raw: seq<Symbol>, i: nat)
    requires i <= |raw| && PasteAll(paste, raw, i).Got? && (0 < i < |raw| ==> raw[i] != HASHES)
    requires forall x, y {:trigger paste(x, y)} :: paste(x, y).Got? ==> spell(paste(x, y).value) == spell(x) + spell(y)
    ensures Spelled(spell, PasteAll(paste, raw, i).value) == Letters(spell, raw, i)
    decreases |raw| - i
  {
    if i < |raw| {
      FromSpells(paste, spell, raw, i, raw[i]);
      var (x, next) := PasteFrom(paste, raw, i, raw[i]).value;
      PastingSpells(paste, spell, raw, next);
      assert ([x] + PasteAll(paste, raw, next).value)[1..] == PasteAll(paste, raw, next).value;
    }
  }

  predicate Fails(paste: Paste, d: Definition) {
    PasteAll(paste, d.body, 0).Failed?
  }

  /** The macros that rescanning replaces by: those of the definitions, pasted. */
  function Compiled(paste: Paste, defs: seq<Definition>): (r: seq<Macro>)
    ensures |r| == |defs|
    ensures forall i | 0 <= i < |r| :: r[i].name == defs[i].name && r[i].present == defs[i].present
    ensures forall i | 0 <= i < |r| && PasteAll(paste, defs[i].body, 0).Got? :: r[i].body == PasteAll(paste, defs[i].body, 0).value
  {
    seq(|defs|, i requires 0 <= i < |defs| => Macro(defs[i].name, defs[i].present, PastedBody(paste, defs[i])))
  }

  function PastedBody(paste: Paste, d: Definition): seq<Symbol> {
    match PasteAll(paste, d.body, 0)
    case Failed => []
    case Got(body) => body
  }

  /** The inner loops: one symbol and all that is pasted to it. */
  method PasteNext(paste: Paste, raw: seq<Symbol>, i: nat) returns (ok: bool, x: Symbol, next: nat)
    requires i < |raw|
    ensures PasteFrom(paste, raw, i, raw[i]) == if ok then Got((x, next)) else Failed
    ensures !Operator(raw, i) ==> (ok <==> Group(paste, raw, i).Got? && !(End(raw, i + 1) == |raw| && Dangles(raw)))
    ensures !Operator(raw, i) && ok ==> Group(paste, raw, i) == Got(x) && next == End(raw, i + 1)
  {
    hide Fold, Operands;
    if !Operator(raw, i) {
      PasteIsFold(paste, raw, i, raw[i]);
    }
    x := raw[i];
    var at := i;
    while at + 1 < |raw| && raw[at + 1] == HASHES
      invariant i <= at < |raw|
      invariant PasteFrom(paste, raw, i, raw[i]) == PasteFrom(paste, raw, at, x)
      decreases |raw| - at
    {
      var right := at + 1;
      while right < |raw| && raw[right] == HASHES
        invariant at + 1 <= right <= |raw|
        invariant Skip(raw, at + 1) == Skip(raw, right)
      {
        right := right + 1;
      }
      if right == |raw| {
        return false, x, at;
      }
      var attempt := paste(x, raw[right]);
      if attempt == Failed {
        return false, x, at;
      }
      x := attempt.value;
      at := right;
    }
    return true, x, at + 1;
  }

  /** What has been pasted so far, and what is to come. */
  lemma MorePasted(paste: Paste, raw: seq<Symbol>, out: seq<Symbol>, i: nat, x: Symbol, next: nat)
    requires i < |raw| && PasteFrom(paste, raw, i, raw[i]) == Got((x, next)) && PastedSoFar(paste, raw, out, i)
    ensures PastedSoFar(paste, raw, out + [x], next)
  {
    var rest := PasteAll(paste, raw, next);
    if rest.Got? {
      assert out + ([x] + rest.value) == (out + [x]) + rest.value;
    }
  }

  ghost predicate PastedSoFar(paste: Paste, raw: seq<Symbol>, out: seq<Symbol>, i: nat) {
    && i <= |raw|
    && PasteAll(paste, raw, 0) == match PasteAll(paste, raw, i)
       case Failed => Failed
       case Got(rest) => Got(out + rest)
  }
}
