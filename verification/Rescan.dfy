/** Rescanning in place: a list of nodes in an arena, spliced through a cursor, and the nodes that are free. */
module Rescan {
  import opened Counting
  import opened Macros
  import opened Pasting
  import opened HideTable

  const NODES: nat := 32768

  /** A token of the text, with the number of its hide set and the node behind it; 0 is no node. */
  datatype Cell = Cell(symbol: Symbol, hidden: nat, next: nat)

  /** From head the links run through the nodes of the chain to end. */
  ghost predicate Seg(c: seq<Cell>, head: nat, chain: seq<nat>, end: nat)
    decreases |chain|
  {
    if chain == [] then head == end
    else head == chain[0] && 1 <= head < |c| && Seg(c, c[head].next, chain[1..], end)
  }

  lemma {:induction false} SegAppend(c: seq<Cell>, head: nat, xs: seq<nat>, ys: seq<nat>, end: nat)
    ensures Seg(c, head, xs + ys, end) <==> Seg(c, head, xs, if ys == [] then end else ys[0]) && Seg(c, if ys == [] then end else ys[0], ys, end)
    decreases |xs|
  {
    if xs == [] {
      assert xs + ys == ys;
    } else {
      assert (xs + ys)[1..] == xs[1..] + ys;
      if 1 <= xs[0] < |c| {
        SegAppend(c, c[xs[0]].next, xs[1..], ys, end);
      }
    }
  }

  lemma {:induction false} SegFrame(c: seq<Cell>, d: seq<Cell>, head: nat, chain: seq<nat>, end: nat)
    requires Seg(c, head, chain, end) && |d| == |c|
    requires forall i | i in chain && 1 <= i < |c| :: d[i] == c[i]
    ensures Seg(d, head, chain, end)
    decreases |chain|
  {
    if chain != [] {
      assert chain[0] in chain;
      SegFrame(c, d, c[head].next, chain[1..], end);
    }
  }

  lemma {:induction false} SegRange(c: seq<Cell>, head: nat, chain: seq<nat>, end: nat)
    requires Seg(c, head, chain, end)
    ensures forall i | i in chain :: 1 <= i < |c|
    decreases |chain|
  {
    if chain != [] {
      SegRange(c, c[head].next, chain[1..], end);
      assert chain == [chain[0]] + chain[1..];
    }
  }

  /** The link of the last node turned elsewhere. */
  lemma {:induction false} SegEnd(c: seq<Cell>, head: nat, chain: seq<nat>, end: nat, last: nat, end': nat)
    requires Seg(c, head, chain, end) && chain != [] && last == chain[|chain| - 1] && Different(chain) && last < |c|
    ensures Seg(c[last := c[last].(next := end')], head, chain, end')
    decreases |chain|
  {
    var d := c[last := c[last].(next := end')];
    if |chain| > 1 {
      assert chain[0] != last;
      var rest := chain[1..];
      forall i, j | 0 <= i < j < |rest| ensures rest[i] != rest[j] {
        assert rest[i] == chain[i + 1] && rest[j] == chain[j + 1];
      }
      SegEnd(c, c[head].next, rest, end, last, end');
    }
  }

  /** Which nodes hold tokens: used once, and not on the free list. */
  predicate InUse(used: nat, spare: seq<nat>, i: nat) {
    1 <= i <= used && i !in spare
  }

  function View(c: seq<Cell>, rows: seq<Row>, i: nat): Token {
    if i < |c| && c[i].hidden < |rows| then Token(c[i].symbol, Members(rows[c[i].hidden])) else Token(Symbol(0, false), {})
  }

  /** The text that a chain holds. */
  function Text(c: seq<Cell>, rows: seq<Row>, chain: seq<nat>): (ts: seq<Token>)
    ensures |ts| == |chain|
  {
    seq(|chain|, k requires 0 <= k < |chain| => View(c, rows, chain[k]))
  }

  /** A chain of nodes that hold tokens, from head to the end. */
  ghost predicate Chain(c: seq<Cell>, used: nat, spare: seq<nat>, sets: nat, head: nat, chain: seq<nat>, end: nat) {
    && Seg(c, head, chain, end) && Different(chain) && used < |c|
    && forall k {:trigger chain[k]} | 0 <= k < |chain| :: InUse(used, spare, chain[k]) && c[chain[k]].hidden < sets
  }

  /** No node is lost or used twice: outside the old and the new list the same nodes are in use as before. */
  ghost predicate Balanced(used: nat, spare: seq<nat>, used': nat, spare': seq<nat>, was: seq<nat>, now: seq<nat>) {
    && (forall j | j in was :: InUse(used, spare, j)) && (forall j | j in now :: InUse(used', spare', j))
    && forall j: nat {:trigger InUse(used', spare', j)} {:trigger InUse(used, spare, j)} ::
         InUse(used', spare', j) && j !in now <==> InUse(used, spare, j) && j !in was
  }

  class Rescanner {
    const table: HideSets
    const cells: array<Cell>
    const paste: Paste
    const defs: seq<Definition>
    ghost var macros: seq<Macro>
    var used: nat
    var free: nat
    ghost var spare: seq<nat>

    constructor (paste: Paste, defs: seq<Definition>)
      requires |defs| <= MACROS
      ensures Valid() && macros == Compiled(paste, defs) && used == 0 && fresh(table) && fresh(cells)
    {
      table := new HideSets();
      cells := new Cell[NODES + 1](i => Cell(Symbol(0, false), 0, 0));
      this.paste := paste;
      this.defs := defs;
      macros := Compiled(paste, defs);
      used, free, spare := 0, 0, [];
    }

    ghost predicate Valid()
      reads this, cells, table, table.sets, table.slots
    {
      && table.Valid() && table.count > 0 && Members(table.Rows()[0]) == {}
      && cells.Length == NODES + 1 && used <= NODES && macros == Compiled(paste, defs) && |defs| <= MACROS
      && Seg(cells[..], free, spare, 0) && Different(spare) && forall i | i in spare :: 1 <= i <= used
    }

    /** The body of some macro does not paste. */
    ghost predicate SomeFails()
      reads this
    {
      exists m :: 0 <= m < |defs| && Fails(paste, defs[m])
    }

    /** A node from the free list, or the next one never used; 0 if there is none. */
    method NewNode(symbol: Symbol, hidden: nat) returns (i: nat)
      requires Valid() && hidden < table.count
      modifies this`used, this`free, this`spare, cells
      ensures Valid() && i < cells.Length
      ensures i == 0 ==> used == old(used) == NODES && spare == old(spare) && cells[..] == old(cells[..])
      ensures i != 0 ==> !InUse(old(used), old(spare), i) && cells[i] == Cell(symbol, hidden, 0)
      ensures i != 0 ==> forall j: nat :: InUse(used, spare, j) <==> InUse(old(used), old(spare), j) || j == i
      ensures forall j: nat | InUse(old(used), old(spare), j) :: j < cells.Length && cells[j] == old(cells[j])
    {
      ghost var c := cells[..];
      if free != 0 {
        i := free;
        free := cells[i].next;
        FirstSpare(c, i, spare);
        spare := spare[1..];
      } else {
        if used == NODES {
          return 0;
        }
        used := used + 1;
        i := used;
      }
      SegRange(c, free, spare, 0);
      cells[i] := Cell(symbol, hidden, 0);
      SegFrame(c, cells[..], free, spare, 0);
    }

    /** Gives a node back. */
    method Release(i: nat)
      requires Valid() && InUse(used, spare, i)
      modifies this`free, this`spare, cells
      ensures Valid()
      ensures forall j: nat :: InUse(used, spare, j) <==> InUse(used, old(spare), j) && j != i
      ensures forall j: nat | j < cells.Length && j != i :: cells[j] == old(cells[j])
      ensures SameTokens(old(cells[..]), cells[..])
    {
      ghost var c := cells[..];
      SegRange(c, free, spare, 0);
      cells[i] := cells[i].(next := free);
      SegFrame(c, cells[..], free, spare, 0);
      MoreDifferent(i, spare);
      assert ([i] + spare)[1..] == spare;
      free := i;
      spare := [i] + spare;
    }

    /** The chain runs from head to end through nodes that hold tokens. */
    ghost predicate Holds(head: nat, chain: seq<nat>, end: nat)
      reads this, cells, table
    {
      Chain(cells[..], used, spare, table.count, head, chain, end)
    }

    /** The nodes that held tokens before still do, and hold the same. */
    twostate predicate Untouched()
      reads this, cells
    {
      forall j: nat {:trigger InUse(used, spare, j)} {:trigger InUse(old(used), old(spare), j)} |
        InUse(old(used), old(spare), j) ::
        InUse(used, spare, j) && j < cells.Length && cells[j] == old(cells[j])
    }

    /** Appends a token to a list under construction. */
    method Append(first: nat, last: nat, ghost body: seq<nat>, symbol: Symbol, hidden: nat) returns (node: nat, first': nat)
      requires Valid() && Holds(first, body, 0) && hidden < table.count
      requires body == [] ==> first == 0 && last == 0
      requires body != [] ==> last == body[|body| - 1]
      modifies this`used, this`free, this`spare, cells
      ensures Valid()
      ensures node == 0 ==> first' == first && used == old(used) == NODES && spare == old(spare) && cells[..] == old(cells[..])
      ensures node != 0 ==> !InUse(old(used), old(spare), node)
      ensures node != 0 ==> forall j: nat :: InUse(used, spare, j) <==> InUse(old(used), old(spare), j) || j == node
      ensures node != 0 ==> Holds(first', body + [node], 0)
      ensures node != 0 ==> (Text(cells[..], table.Rows(), body + [node]) ==
        Text(old(cells[..]), table.Rows(), body) + [Token(symbol, Members(table.Rows()[hidden]))])
      ensures forall j: nat | InUse(old(used), old(spare), j) && j !in body :: j < cells.Length && cells[j] == old(cells[j])
    {
      ghost var c := cells[..];
      first' := first;
      node := NewNode(symbol, hidden);
      if node == 0 {
        return;
      }
      ghost var d := cells[..];
      ghost var free0, spare0 := free, spare;
      if last != 0 {
        cells[last] := cells[last].(next := node);
      } else {
        first' := node;
      }
      Appended(c, d, cells[..], old(used), old(spare), used, spare, table.count, first, body, last, node, first');
      AppendedText(c, cells[..], table.Rows(), body, node, symbol, hidden);
      if last != 0 {
        SpareKept(d, cells[..], free, spare, last);
      }
    }

    /** The list that takes the place of a token: the body, pasted, every token hidden from one set more. */
    method Body(m: nat, hidden: nat) returns (ok: bool, first: nat, last: nat, ghost body: seq<nat>)
      requires Valid() && m < |defs| && hidden < table.count
      modifies this`used, this`free, this`spare, cells, table, table.sets, table.slots
      ensures Valid() && old(table.Rows()) <= table.Rows() && Untouched()
      ensures !ok ==> forall j: nat :: InUse(used, spare, j) <==> InUse(old(used), old(spare), j)
      ensures !ok ==> table.count == SETS || used == NODES || Fails(paste, defs[m])
      ensures ok ==> Holds(first, body, 0) && (body == [] ==> first == 0 && last == 0) && (body != [] ==> last == body[|body| - 1])
      ensures ok ==> forall j: nat :: InUse(used, spare, j) <==> InUse(old(used), old(spare), j) || j in body
      ensures ok ==> forall j | j in body :: !InUse(old(used), old(spare), j)
      ensures ok ==> Text(cells[..], table.Rows(), body) == Hidden(macros[m].body, Members(old(table.Rows())[hidden]))
    {
      ghost var members := Members(table.Rows()[hidden]);
      hide Chain, Members, Different, Seg, PasteFrom, PasteAll, PastedSoFar, Fails, PastedBody, Text, Hidden;
      ok, first, last, body := true, 0, 0, [];
      NothingHeld(cells[..], used, spare, table.count);
      ghost var out: seq<Symbol> := [];
      var raw := defs[m].body;
      NothingPasted(paste, raw);
      NothingHidden(members);
      NoText(cells[..], table.Rows());
      var k := 0;
      while k < |raw|
        invariant 0 <= k <= |raw| && PastedSoFar(paste, raw, out, k)
        invariant Valid() && old(table.Rows()) <= table.Rows() && Untouched()
        invariant Holds(first, body, 0) && (body == [] ==> first == 0 && last == 0) && (body != [] ==> last == body[|body| - 1])
        invariant forall j: nat :: InUse(used, spare, j) <==> InUse(old(used), old(spare), j) || j in body
        invariant forall j | j in body :: !InUse(old(used), old(spare), j)
        invariant Text(cells[..], table.Rows(), body) == Hidden(out, members)
        decreases |raw| - k
      {
        var joined, symbol, next := PasteNext(paste, raw, k);
        if !joined {
          PasteFails(paste, defs[m], out, k);
          ReleaseList(first, body);
          return false, 0, 0, [];
        }
        NextLater(paste, raw, k);
        ghost var before := body;
        var put;
        put, first, last, body := PutSymbol(first, last, body, symbol, hidden);
        if !put {
          ReleaseList(first, body);
          return false, 0, 0, [];
        }
        HiddenMore(out, symbol, members);
        MorePasted(paste, raw, out, k, symbol, next);
        out := out + [symbol];
        k := next;
      }
      AllPasted(paste, defs[m], out);
    }

    /** One more token of the body, hidden from a set. */
    method PutSymbol(first: nat, last: nat, ghost body: seq<nat>, symbol: Symbol, hidden: nat)
      returns (ok: bool, first': nat, last': nat, ghost body': seq<nat>)
      requires Valid() && Holds(first, body, 0) && hidden < table.count
      requires (body == [] ==> first == 0 && last == 0) && (body != [] ==> last == body[|body| - 1])
      modifies this`used, this`free, this`spare, cells, table, table.sets, table.slots
      ensures Valid() && old(table.Rows()) <= table.Rows()
      ensures !ok ==> table.count == SETS || used == NODES
      ensures !ok ==> body' == body && first' == first && Holds(first, body, 0) && used == old(used) && spare == old(spare) && cells[..] == old(cells[..])
      ensures ok ==> Holds(first', body', 0) && body' == body + [last'] && !InUse(old(used), old(spare), last')
      ensures ok ==> forall j: nat :: InUse(used, spare, j) <==> InUse(old(used), old(spare), j) || j == last'
      ensures ok ==> (Text(cells[..], table.Rows(), body') ==
        Text(old(cells[..]), old(table.Rows()), body) + [Token(symbol, Members(old(table.Rows())[hidden]))])
      ensures ok ==> forall j: nat | InUse(old(used), old(spare), j) && j !in body :: j < cells.Length && cells[j] == old(cells[j])
    {
      hide Chain, Members, Different, Seg, Text;
      ok, first', last', body' := false, first, last, body;
      ghost var rows := table.Rows();
      var merged := table.Merge(0, hidden, false);
      RowsGrow(cells[..], used, spare, rows, table.Rows(), first, body);
      if merged < 0 {
        return;
      }
      assert Members(table.Rows()[merged]) == Members(rows[hidden]);
      var node;
      node, first' := Append(first, last, body, symbol, merged);
      if node != 0 {
        ok, last', body' := true, node, body + [node];
      }
    }

    /** Gives all nodes of a list back. */
    method ReleaseList(head: nat, ghost chain: seq<nat>)
      requires Valid() && Holds(head, chain, 0)
      modifies this`free, this`spare, cells
      ensures Valid()
      ensures forall j: nat :: InUse(used, spare, j) <==> InUse(used, old(spare), j) && j !in chain
      ensures forall j: nat | j < cells.Length && j !in chain :: cells[j] == old(cells[j])
    {
      hide Seg;
      var node := head;
      ghost var rest := chain;
      ListStart(cells[..], head, chain);
      while node != 0
        invariant Valid() && Holds(node, rest, 0) && (node == 0 ==> rest == [])
        invariant forall j | j in rest :: j in chain
        invariant forall j: nat :: InUse(used, spare, j) <==> InUse(used, old(spare), j) && (j in chain ==> j in rest)
        invariant forall j: nat | j < cells.Length && j !in chain :: cells[j] == old(cells[j])
        decreases |rest|
      {
        ListHead(cells[..], used, spare, table.count, node, rest);
        ghost var c, spare0 := cells[..], spare;
        var next := cells[node].next;
        Release(node);
        ListTail(c, cells[..], used, spare0, spare, table.count, node, rest);
        node := next;
        rest := rest[1..];
      }
    }

    /** The first macro of a name. */
    method FindMacro(name: nat) returns (i: nat)
      requires Valid()
      ensures i == Find(macros, name)
    {
      i := 0;
      while i < |defs| && defs[i].name != name
        invariant 0 <= i <= |defs| && forall j | 0 <= j < i :: defs[j].name != name
      {
        i := i + 1;
      }
      FindIs(macros, name, i);
    }

    /** Whether the token of a node is to be replaced, and by which macro. */
    method Candidate(node: nat) returns (yes: bool, i: nat)
      requires Valid() && 1 <= node < cells.Length && cells[node].hidden < table.count
      ensures yes <==> Expands(macros, View(cells[..], table.Rows(), node))
      ensures yes ==> i == Find(macros, View(cells[..], table.Rows(), node).symbol.word) && i < |macros|
    {
      i := 0;
      if !cells[node].symbol.ident {
        return false, 0;
      }
      i := FindMacro(cells[node].symbol.word);
      if i >= |defs| || !defs[i].present {
        return false, i;
      }
      var contained := table.Contains(cells[node].hidden, i);
      return !contained, i;
    }

    /** Puts a list between two parts of another one, in place of the node current, which is given back. */
    method Splice(head: nat, prev: nat, current: nat, first: nat, last: nat, ghost done: seq<nat>, ghost body: seq<nat>, ghost tail: seq<nat>)
      returns (head': nat, next: nat)
      requires Valid() && Holds(head, done + [current] + tail, 0) && Holds(first, body, 0)
      requires prev == Last(done) && last == Last(body) && (body == [] ==> first == 0)
      requires forall j | j in body :: j !in done + [current] + tail
      modifies this`free, this`spare, cells
      ensures Valid() && Holds(head', done + body + tail, 0) && next == First(body + tail)
      ensures forall j: nat :: InUse(used, spare, j) <==> InUse(used, old(spare), j) && j != current
      ensures forall j: nat | j < cells.Length && j !in done + [current] + tail && j !in body :: cells[j] == old(cells[j])
      ensures SameTokens(old(cells[..]), cells[..])
    {
      hide Seg, Chain, InUse, SameTokens;
      ghost var c := cells[..];
      CurrentUsed(c, used, spare, table.count, head, done, tail, current);
      head', next := Join(head, prev, current, first, last, done, body, tail);
      ghost var e := cells[..];
      Release(current);
      Freed(e, cells[..], used, old(spare), spare, table.count, head', done + body + tail, current);
      TokensThen(c, e, cells[..]);
    }

    /** The two links: from the body's last node to the rest, from the list in front to the body. */
    method Join(head: nat, prev: nat, current: nat, first: nat, last: nat, ghost done: seq<nat>, ghost body: seq<nat>, ghost tail: seq<nat>)
      returns (head': nat, next: nat)
      requires Valid() && Holds(head, done + [current] + tail, 0) && Holds(first, body, 0)
      requires prev == Last(done) && last == Last(body) && (body == [] ==> first == 0)
      requires forall j | j in body :: j !in done + [current] + tail
      modifies cells
      ensures Valid() && Holds(head', done + body + tail, 0) && next == First(body + tail) && current !in done + body + tail
      ensures forall j: nat | j < cells.Length && j !in done + [current] + tail && j !in body :: cells[j] == old(cells[j])
      ensures SameTokens(old(cells[..]), cells[..])
    {
      hide Seg, Chain, SameTokens;
      ghost var c := cells[..];
      JoinFacts(c, used, spare, table.count, head, first, done, body, tail, current);
      head' := head;
      var rest := cells[current].next;
      next := rest;
      if last != 0 {
        cells[last] := cells[last].(next := rest);
        next := first;
      }
      ghost var d := cells[..];
      if prev != 0 {
        cells[prev] := cells[prev].(next := next);
      } else {
        head' := next;
      }
      ghost var e := cells[..];
      Joined(c, d, e, used, spare, table.count, head, first, done, body, tail, current, rest, next, head');
      JoinSpare(c, d, e, used, free, spare, done, body, tail, current);
    }

    /** Replaces the token of a node by the body of its macro. */
    method Replace(head: nat, prev: nat, current: nat, m: nat, ghost done: seq<nat>, ghost tail: seq<nat>)
      returns (ok: bool, head': nat, next: nat, ghost todo: seq<nat>)
      requires Valid() && Holds(head, done + [current] + tail, 0) && prev == Last(done)
      requires Expands(macros, View(cells[..], table.Rows(), current))
      requires m == Find(macros, View(cells[..], table.Rows(), current).symbol.word)
      modifies this`used, this`free, this`spare, cells, table, table.sets, table.slots
      ensures Valid()
      ensures !ok ==> table.count == SETS || used == NODES || SomeFails()
      ensures ok ==> Holds(head', done + todo, 0) && next == First(todo) && (next == 0 ==> todo == [])
      ensures ok ==> Text(cells[..], table.Rows(), done) == old(Text(cells[..], table.Rows(), done))
      ensures ok ==> (Text(cells[..], table.Rows(), todo) ==
        Replacement(macros, old(View(cells[..], table.Rows(), current))) + old(Text(cells[..], table.Rows(), tail)))
      ensures ok ==> Balanced(old(used), old(spare), used, spare, done + [current] + tail, done + todo)
    {
      hide Seg, Chain, Members, Expands, Text, Balanced, Replacement, Hidden, InUse, Find;
      ghost var c, rows, chain := cells[..], table.Rows(), done + [current] + tail;
      head', next, todo := head, current, [current] + tail;
      CurrentIs(c, used, spare, table.count, head, done, tail, current);
      MacroFound(macros, View(c, rows, current), m);
      ReplacementIs(macros, View(c, rows, current), m);
      var hidden := table.Add(cells[current].hidden, m);
      if hidden < 0 {
        return false, head', next, todo;
      }
      RowsGrow(c, used, spare, rows, table.Rows(), head, chain);
      ghost var body;
      ok, head', next, body := PutBody(head, prev, current, m, hidden, rows, done, tail);
      todo := body + tail;
    }

    /** Builds the body and puts it in place of the node current. */
    method PutBody(head: nat, prev: nat, current: nat, m: nat, hidden: nat, ghost rows: seq<Row>, ghost done: seq<nat>, ghost tail: seq<nat>)
      returns (ok: bool, head': nat, next: nat, ghost body: seq<nat>)
      requires Valid() && Holds(head, done + [current] + tail, 0) && prev == Last(done) && m < |macros| && hidden < table.count
      requires rows <= table.Rows() && Chain(cells[..], used, spare, |rows|, head, done + [current] + tail, 0)
      modifies this`used, this`free, this`spare, cells, table, table.sets, table.slots
      ensures Valid()
      ensures !ok ==> table.count == SETS || used == NODES || SomeFails()
      ensures ok ==> Holds(head', done + (body + tail), 0) && next == First(body + tail) && (next == 0 ==> body + tail == [])
      ensures ok ==> Text(cells[..], table.Rows(), done) == Text(old(cells[..]), rows, done)
      ensures ok ==> (Text(cells[..], table.Rows(), body + tail) ==
        Hidden(macros[m].body, Members(old(table.Rows())[hidden])) + Text(old(cells[..]), rows, tail))
      ensures ok ==> Balanced(old(used), old(spare), used, spare, done + [current] + tail, done + (body + tail))
    {
      hide Seg, Chain, Members, Expands, Text, View, Balanced, Replacement, Hidden, InUse, SameTokens, Different;
      ghost var c, used0, spare0 := cells[..], used, spare;
      head', next := head, current;
      var first, last;
      ok, first, last, body := Body(m, hidden);
      if !ok {
        return;
      }
      ghost var d, used1, spare1 := cells[..], used, spare;
      ChainStays(c, d, used0, spare0, used, spare, |rows|, table.count, head, done + [current] + tail);
      SameParts(c, d, |rows|, done, current, tail);
      head', next := Splice(head, prev, current, first, last, done, body, tail);
      assert done + body + tail == done + (body + tail);
      NextIs(cells[..], used, spare, table.count, head', done, body + tail);
      BalancedSplice(cells[..], used0, spare0, used, spare, table.count, head', done, current, body, tail);
      AroundBody(c, d, cells[..], rows, table.Rows(), done, body, tail);
    }

    /**
     * Rescans a list in place. Unless the nodes or the hide sets run out, or the body of a macro does not paste, the list then holds the
     * expansion of the text it held, and every node is in a list or free.
     */
    method Rescan(head: nat, ghost chain: seq<nat>) returns (ok: bool, head': nat, ghost chain': seq<nat>)
      requires Valid() && Holds(head, chain, 0)
      modifies this`used, this`free, this`spare, cells, table, table.sets, table.slots
      ensures Valid()
      ensures !ok ==> table.count == SETS || used == NODES || SomeFails()
      ensures ok ==> Holds(head', chain', 0)
      ensures ok ==> Text(cells[..], table.Rows(), chain') == Expand(macros, old(Text(cells[..], table.Rows(), chain)))
      ensures ok ==> Balanced(old(used), old(spare), used, spare, chain, chain')
    {
      hide Seg, Chain, Members, Measure, Expands, Expand, Balanced, Replacement, InUse, Text, View;
      ghost var text := Text(cells[..], table.Rows(), chain);
      ghost var done: seq<nat>, todo: seq<nat> := [], chain;
      head', chain' := head, chain;
      var prev, current := 0, head;
      StartList(cells[..], used, spare, table.count, head, chain);
      BalancedStart(cells[..], used, spare, table.count, head, chain);
      NothingExpands(macros, cells[..], table.Rows(), chain);
      while current != 0
        invariant Valid() && Holds(head', done + todo, 0)
        invariant prev == Last(done) && current == First(todo) && (current == 0 ==> todo == [])
        invariant Expand(macros, text) == Text(cells[..], table.Rows(), done) + Expand(macros, Text(cells[..], table.Rows(), todo))
        invariant Balanced(old(used), old(spare), used, spare, chain, done + todo)
        decreases Measure(macros, Text(cells[..], table.Rows(), todo))
      {
        ghost var used0, spare0, all := used, spare, done + todo;
        ok, head', prev, current, done, todo := Turn(head', prev, current, done, todo);
        if !ok {
          return;
        }
        BalancedThen(old(used), old(spare), used0, spare0, used, spare, chain, all, done + todo);
      }
      ok := true;
      chain' := done;
      assert done + todo == done;
      ExpandNothing(macros, cells[..], table.Rows());
    }

    /** One token: left behind, or replaced. */
    method Turn(head: nat, prev: nat, current: nat, ghost done: seq<nat>, ghost todo: seq<nat>)
      returns (ok: bool, head': nat, prev': nat, current': nat, ghost done': seq<nat>, ghost todo': seq<nat>)
      requires Valid() && Holds(head, done + todo, 0) && prev == Last(done) && current == First(todo) != 0
      modifies this`used, this`free, this`spare, cells, table, table.sets, table.slots
      ensures Valid()
      ensures !ok ==> table.count == SETS || used == NODES || SomeFails()
      ensures ok ==> Holds(head', done' + todo', 0) && prev' == Last(done') && current' == First(todo') && (current' == 0 ==> todo' == [])
      ensures ok ==> (Text(cells[..], table.Rows(), done') + Expand(macros, Text(cells[..], table.Rows(), todo')) ==
        old(Text(cells[..], table.Rows(), done) + Expand(macros, Text(cells[..], table.Rows(), todo))))
      ensures ok ==> Measure(macros, Text(cells[..], table.Rows(), todo')) < old(Measure(macros, Text(cells[..], table.Rows(), todo)))
      ensures ok ==> Balanced(old(used), old(spare), used, spare, done + todo, done' + todo')
    {
      hide Seg, Chain, Members, Measure, Expands, Expand, Balanced, Replacement, InUse, Text, View;
      ok, head', prev', current', done', todo' := true, head, prev, current, done, todo;
      ghost var tail := todo[1..];
      ghost var rows, c := table.Rows(), cells[..];
      assert todo == [current] + tail && done + todo == done + [current] + tail;
      CurrentIs(c, used, spare, table.count, head, done, tail, current);
      ExpandStep(macros, c, rows, done, current, tail);
      var yes, m := Candidate(current);
      if yes {
        Lighter(macros, c, rows, current, tail);
        ok, head', current', todo' := Replace(head, prev, current, m, done, tail);
      } else {
        Measured(macros, c, rows, current, tail);
        BalancedStart(c, used, spare, table.count, head, done + todo);
        prev' := current;
        current' := cells[current].next;
        done' := done + [current];
        todo' := tail;
        assert done' + todo' == done + todo;
      }
    }
  }

  lemma {:induction false} FindIs(macros: seq<Macro>, name: nat, i: nat)
    requires i <= |macros| && (i < |macros| ==> macros[i].name == name)
    requires forall j | 0 <= j < i :: macros[j].name != name
    ensures i == Find(macros, name)
  {
  }

  function First(chain: seq<nat>): nat {
    if chain == [] then 0 else chain[0]
  }

  function Last(chain: seq<nat>): nat {
    if chain == [] then 0 else chain[|chain| - 1]
  }

  /** Only links differ. */
  ghost predicate SameTokens(c: seq<Cell>, d: seq<Cell>) {
    |c| == |d| && forall j {:trigger d[j]} {:trigger c[j]} | 0 <= j < |c| :: d[j].symbol == c[j].symbol && d[j].hidden == c[j].hidden
  }

  lemma TokensThen(c: seq<Cell>, d: seq<Cell>, e: seq<Cell>)
    requires SameTokens(c, d) && SameTokens(d, e)
    ensures SameTokens(c, e)
  {
  }

  lemma CurrentUsed(c: seq<Cell>, used: nat, spare: seq<nat>, sets: nat, head: nat, done: seq<nat>, tail: seq<nat>, current: nat)
    requires Chain(c, used, spare, sets, head, done + [current] + tail, 0)
    ensures InUse(used, spare, current)
  {
    hide Seg;
    assert (done + [current] + tail)[|done|] == current;
  }

  lemma JoinFacts(c: seq<Cell>, used: nat, spare: seq<nat>, sets: nat, head: nat, first: nat, done: seq<nat>, body: seq<nat>,
                  tail: seq<nat>, current: nat)
    requires Chain(c, used, spare, sets, head, done + [current] + tail, 0) && Chain(c, used, spare, sets, first, body, 0)
    requires body == [] ==> first == 0
    ensures InUse(used, spare, current) && current < |c| && Last(done) < |c| && Last(body) < |c|
    ensures (body != [] ==> Last(body) > 0 && first == body[0]) && (done != [] ==> Last(done) > 0)
    ensures (body != [] ==> InUse(used, spare, Last(body))) && (done != [] ==> InUse(used, spare, Last(done)))
  {
    hide Seg;
    var all := done + [current] + tail;
    SegRange(c, head, all, 0);
    SegRange(c, first, body, 0);
    assert all[|done|] == current;
    if done != [] { assert all[|done| - 1] == Last(done); }
    if body != [] { FirstIs(c, first, body); }
  }

  lemma FirstIs(c: seq<Cell>, first: nat, body: seq<nat>)
    requires Seg(c, first, body, 0) && body != []
    ensures first == body[0]
  {
  }

  /** Symbols as tokens hidden from a set. */
  function Hidden(body: seq<Symbol>, hidden: set<nat>): (ts: seq<Token>)
    ensures |ts| == |body|
  {
    seq(|body|, k requires 0 <= k < |body| => Token(body[k], hidden))
  }

  lemma HiddenMore(out: seq<Symbol>, x: Symbol, hidden: set<nat>)
    ensures Hidden(out, hidden) + [Token(x, hidden)] == Hidden(out + [x], hidden)
  {
  }

  lemma NoText(c: seq<Cell>, rows: seq<Row>)
    ensures Text(c, rows, []) == []
  {
  }

  lemma NothingHidden(hidden: set<nat>)
    ensures Hidden([], hidden) == []
  {
  }

  lemma NothingPasted(paste: Paste, raw: seq<Symbol>)
    ensures PastedSoFar(paste, raw, [], 0)
  {
    hide PasteFrom;
    var all := PasteAll(paste, raw, 0);
    if all.Got? {
      assert [] + all.value == all.value;
    }
  }

  lemma PasteFails(paste: Paste, d: Definition, out: seq<Symbol>, k: nat)
    requires k < |d.body| && PastedSoFar(paste, d.body, out, k) && PasteFrom(paste, d.body, k, d.body[k]) == Failed
    ensures Fails(paste, d)
  {
    hide PasteFrom;
  }

  lemma NextLater(paste: Paste, raw: seq<Symbol>, k: nat)
    requires k < |raw| && PasteFrom(paste, raw, k, raw[k]).Got?
    ensures k < PasteFrom(paste, raw, k, raw[k]).value.1 <= |raw|
  {
  }

  lemma AllPasted(paste: Paste, d: Definition, out: seq<Symbol>)
    requires PastedSoFar(paste, d.body, out, |d.body|)
    ensures PastedBody(paste, d) == out
  {
    assert out + [] == out;
  }

  lemma NothingHeld(c: seq<Cell>, used: nat, spare: seq<nat>, sets: nat)
    requires used < |c|
    ensures Chain(c, used, spare, sets, 0, [], 0)
  {
  }

  /** New sets do not change what the old numbers mean. */
  lemma RowsGrow(c: seq<Cell>, used: nat, spare: seq<nat>, rows: seq<Row>, rows': seq<Row>, head: nat, chain: seq<nat>)
    requires Chain(c, used, spare, |rows|, head, chain, 0) && rows <= rows'
    ensures Chain(c, used, spare, |rows'|, head, chain, 0) && Text(c, rows', chain) == Text(c, rows, chain)
  {
    hide Members, Seg;
    SegRange(c, head, chain, 0);
    forall k | 0 <= k < |chain| ensures View(c, rows', chain[k]) == View(c, rows, chain[k]) {
      assert InUse(used, spare, chain[k]) && c[chain[k]].hidden < |rows|;
    }
  }

  lemma ListStart(c: seq<Cell>, head: nat, chain: seq<nat>)
    requires Seg(c, head, chain, 0)
    ensures head == 0 ==> chain == []
  {
    SegRange(c, head, chain, 0);
  }

  lemma ListHead(c: seq<Cell>, used: nat, spare: seq<nat>, sets: nat, node: nat, rest: seq<nat>)
    requires Chain(c, used, spare, sets, node, rest, 0) && node != 0
    ensures rest != [] && rest[0] == node && InUse(used, spare, node) && node < |c|
    ensures forall j: nat :: j in rest <==> j == node || j in rest[1..]
    ensures node !in rest[1..]
  {
    assert rest == [rest[0]] + rest[1..];
    assert InUse(used, spare, rest[0]);
    if node in rest[1..] {
      assert false;
    }
  }

  lemma ListTail(c: seq<Cell>, d: seq<Cell>, used: nat, spare: seq<nat>, spare': seq<nat>, sets: nat, node: nat, rest: seq<nat>)
    requires Chain(c, used, spare, sets, node, rest, 0) && node != 0 && |d| == |c|
    requires forall j: nat :: InUse(used, spare', j) <==> InUse(used, spare, j) && j != node
    requires forall j: nat | j < |c| && j != node :: d[j] == c[j]
    ensures node < |c| && rest != [] && Chain(d, used, spare', sets, c[node].next, rest[1..], 0)
    ensures c[node].next == 0 ==> rest[1..] == []
  {
    ListHead(c, used, spare, sets, node, rest);
    var tail := rest[1..];
    SegFrame(c, d, c[node].next, tail, 0);
    SegRange(c, c[node].next, tail, 0);
    forall i, j | 0 <= i < j < |tail| ensures tail[i] != tail[j] {
      assert tail[i] == rest[i + 1] && tail[j] == rest[j + 1];
    }
    forall k {:trigger tail[k]} | 0 <= k < |tail| ensures InUse(used, spare', tail[k]) && d[tail[k]].hidden < sets {
      assert tail[k] == rest[k + 1];
      assert tail[k] in tail;
    }
  }

  lemma SpareKept(c: seq<Cell>, d: seq<Cell>, free: nat, spare: seq<nat>, i: nat)
    requires Seg(c, free, spare, 0) && |d| == |c| && i !in spare && forall j | 0 <= j < |c| && j != i :: d[j] == c[j]
    ensures Seg(d, free, spare, 0)
  {
    SegFrame(c, d, free, spare, 0);
  }

  lemma Appended(c: seq<Cell>, d: seq<Cell>, e: seq<Cell>, used: nat, spare: seq<nat>, used': nat, spare': seq<nat>, sets: nat,
                 first: nat, body: seq<nat>, last: nat, node: nat, first': nat)
    requires Chain(c, used, spare, sets, first, body, 0) && |c| == |d| == |e| && used' < |c| && node < |c|
    requires body == [] ==> first == 0 && last == 0
    requires body != [] ==> last == body[|body| - 1]
    requires !InUse(used, spare, node) && d[node].next == 0 && d[node].hidden < sets
    requires forall j: nat :: InUse(used', spare', j) <==> InUse(used, spare, j) || j == node
    requires forall j: nat | InUse(used, spare, j) :: j < |c| && d[j] == c[j]
    requires if last != 0 then last < |d| && e == d[last := d[last].(next := node)] && first' == first else e == d && first' == node
    ensures Chain(e, used', spare', sets, first', body + [node], 0)
  {
    var all := body + [node];
    SegRange(c, first, body, 0);
    SegFrame(c, d, first, body, 0);
    assert InUse(used', spare', node);
    assert node !in body;
    forall i, j | 0 <= i < j < |all| ensures all[i] != all[j] {
    }
    if body != [] {
      assert InUse(used, spare, body[|body| - 1]);
      SegEnd(d, first, body, 0, last, node);
      assert e[node] == d[node];
    }
    assert Seg(e, node, [node], 0);
    SegAppend(e, first', body, [node], 0);
    forall k {:trigger all[k]} | 0 <= k < |all| ensures InUse(used', spare', all[k]) && e[all[k]].hidden < sets {
      if k < |body| { assert InUse(used, spare, body[k]) && c[body[k]].hidden < sets; }
    }
  }

  lemma AppendedText(c: seq<Cell>, e: seq<Cell>, rows: seq<Row>, body: seq<nat>, node: nat, symbol: Symbol, hidden: nat)
    requires node < |e| && e[node].symbol == symbol && e[node].hidden == hidden < |rows| && |c| == |e|
    requires forall k | 0 <= k < |body| :: body[k] < |c| && e[body[k]].symbol == c[body[k]].symbol && e[body[k]].hidden == c[body[k]].hidden
    ensures Text(e, rows, body + [node]) == Text(c, rows, body) + [Token(symbol, Members(rows[hidden]))]
  {
    hide Members;
  }

  lemma FirstSpare(c: seq<Cell>, i: nat, spare: seq<nat>)
    requires Seg(c, i, spare, 0) && i != 0 && Different(spare)
    ensures spare != [] && spare[0] == i && i < |c| && Seg(c, c[i].next, spare[1..], 0) && Different(spare[1..]) && i !in spare[1..]
    ensures forall j: nat :: j in spare <==> j == i || j in spare[1..]
  {
    var rest := spare[1..];
    forall a, b | 0 <= a < b < |rest| ensures rest[a] != rest[b] {
      assert rest[a] == spare[a + 1] && rest[b] == spare[b + 1];
    }
    forall k | 0 <= k < |rest| ensures rest[k] != i {
      assert rest[k] == spare[k + 1] && spare[0] == i;
    }
    assert spare == [i] + rest;
  }

  lemma MoreDifferent(i: nat, s: seq<nat>)
    requires Different(s) && i !in s
    ensures Different([i] + s)
  {
    var t := [i] + s;
    forall a, b | 0 <= a < b < |t| ensures t[a] != t[b] {
      if a > 0 {
        assert t[a] == s[a - 1] && t[b] == s[b - 1];
      }
    }
  }

  lemma Parts(c: seq<Cell>, used: nat, spare: seq<nat>, sets: nat, head: nat, done: seq<nat>, tail: seq<nat>, current: nat)
    requires Chain(c, used, spare, sets, head, done + [current] + tail, 0)
    ensures current < |c| && Seg(c, head, done, current) && c[current].next == First(tail) && Seg(c, First(tail), tail, 0)
    ensures Different(done) && Different(tail) && current !in done && current !in tail
    ensures forall j | j in done :: j !in tail
  {
    var all := done + [current] + tail;
    assert done + [current] + tail == done + ([current] + tail);
    SegAppend(c, head, done, [current] + tail, 0);
    assert ([current] + tail)[1..] == tail;
    SegRange(c, head, all, 0);
    assert all[|done|] == current;
    if tail != [] { assert Seg(c, c[current].next, tail, 0); }
    Positions(all, done, tail, current);
  }

  lemma Positions(all: seq<nat>, done: seq<nat>, tail: seq<nat>, current: nat)
    requires all == done + [current] + tail && Different(all)
    ensures Different(done) && Different(tail) && current !in done && current !in tail
    ensures forall j | j in done :: j !in tail
  {
    var n := |done|;
    assert all[n] == current;
    forall i | 0 <= i < n ensures done[i] != current {
      assert all[i] == done[i];
    }
    forall i | 0 <= i < |tail| ensures tail[i] != current {
      assert all[n + 1 + i] == tail[i];
    }
    forall i, j | 0 <= i < j < n ensures done[i] != done[j] {
      assert all[i] == done[i] && all[j] == done[j];
    }
    forall i, j | 0 <= i < j < |tail| ensures tail[i] != tail[j] {
      assert all[n + 1 + i] == tail[i] && all[n + 1 + j] == tail[j];
    }
    forall i, j | 0 <= i < n && 0 <= j < |tail| ensures done[i] != tail[j] {
      assert all[i] == done[i] && all[n + 1 + j] == tail[j];
    }
  }

  lemma DifferentJoin(xs: seq<nat>, ys: seq<nat>)
    requires Different(xs) && Different(ys) && forall j | j in xs :: j !in ys
    ensures Different(xs + ys)
  {
    var all := xs + ys;
    forall i, j | 0 <= i < j < |all| ensures all[i] != all[j] {
      if i < |xs| <= j {
        assert xs[i] in xs && ys[j - |xs|] in ys;
      }
    }
  }

  /** The links after the splice. */
  lemma Joined(c: seq<Cell>, d: seq<Cell>, e: seq<Cell>, used: nat, spare: seq<nat>, sets: nat, head: nat, first: nat, done: seq<nat>,
               body: seq<nat>, tail: seq<nat>, current: nat, rest: nat, next: nat, head': nat)
    requires Chain(c, used, spare, sets, head, done + [current] + tail, 0) && Chain(c, used, spare, sets, first, body, 0)
    requires forall j | j in body :: j !in done + [current] + tail
    requires current < |c| && Last(body) < |c| && Last(done) < |c| && rest == c[current].next && (body == [] ==> first == 0)
    requires if Last(body) != 0 then d == c[Last(body) := c[Last(body)].(next := rest)] && next == first else d == c && next == rest
    requires if Last(done) != 0 then e == d[Last(done) := d[Last(done)].(next := next)] && head' == head else e == d && head' == next
    requires (body != [] ==> Last(body) > 0) && (done != [] ==> Last(done) > 0)
    ensures Chain(e, used, spare, sets, head', done + body + tail, 0) && next == First(body + tail) && SameTokens(c, e)
    ensures current !in done + body + tail
  {
    hide Chain, Seg, Different, InUse;
    Parts(c, used, spare, sets, head, done, tail, current);
    ChainParts(c, used, spare, sets, first, body);
    Apart(done, current, tail, body);
    LinksJoined(c, d, e, head, first, done, body, tail, current, rest, next, head');
    DifferentJoin(body, tail);
    DifferentJoin(done, body + tail);
    assert done + body + tail == done + (body + tail);
    UseJoined(c, e, used, spare, sets, head, first, done, body, tail, current);
    ChainIs(e, used, spare, sets, head', done + body + tail);
  }

  lemma ChainIs(c: seq<Cell>, used: nat, spare: seq<nat>, sets: nat, head: nat, chain: seq<nat>)
    requires Seg(c, head, chain, 0) && Different(chain) && used < |c|
    requires forall k {:trigger chain[k]} | 0 <= k < |chain| :: InUse(used, spare, chain[k]) && c[chain[k]].hidden < sets
    ensures Chain(c, used, spare, sets, head, chain, 0)
  {
  }

  lemma Apart(done: seq<nat>, current: nat, tail: seq<nat>, body: seq<nat>)
    requires forall j | j in body :: j !in done + [current] + tail
    ensures forall j | j in body :: j !in done && j != current && j !in tail
  {
    assert forall j | j in done || j == current || j in tail :: j in done + [current] + tail;
  }

  lemma LinksJoined(c: seq<Cell>, d: seq<Cell>, e: seq<Cell>, head: nat, first: nat, done: seq<nat>, body: seq<nat>, tail: seq<nat>,
                    current: nat, rest: nat, next: nat, head': nat)
    requires Seg(c, head, done, current) && Seg(c, rest, tail, 0) && rest == First(tail) && Seg(c, first, body, 0)
    requires Different(done) && Different(body) && (forall j | j in done :: j !in tail) && (body == [] ==> first == 0)
    requires forall j | j in body :: j !in done && j !in tail
    requires Last(body) < |c| && Last(done) < |c| && (body != [] ==> Last(body) > 0) && (done != [] ==> Last(done) > 0)
    requires if Last(body) != 0 then d == c[Last(body) := c[Last(body)].(next := rest)] && next == first else d == c && next == rest
    requires if Last(done) != 0 then e == d[Last(done) := d[Last(done)].(next := next)] && head' == head else e == d && head' == next
    ensures Seg(e, head', done + body + tail, 0) && next == First(body + tail)
  {
    hide Different;
    assert body != [] ==> Last(body) in body;
    assert done != [] ==> Last(done) in done;
    if body != [] {
      FirstIs(c, first, body);
      hide Seg;
      SegEnd(c, first, body, 0, Last(body), rest);
    }
    hide Seg;
    SegFrame(c, d, rest, tail, 0);
    SegFrame(c, d, head, done, current);
    SegFrame(d, e, rest, tail, 0);
    if body != [] {
      SegFrame(d, e, first, body, rest);
    } else {
      SegNone(e, rest);
    }
    SegAppend(e, next, body, tail, 0);
    if done != [] {
      SegEnd(d, head, done, current, Last(done), next);
    } else {
      SegNone(e, next);
    }
    SegAppend(e, head', done, body + tail, 0);
    assert done + body + tail == done + (body + tail);
  }

  lemma SegNone(c: seq<Cell>, at: nat)
    ensures Seg(c, at, [], at)
  {
  }

  lemma ChainParts(c: seq<Cell>, used: nat, spare: seq<nat>, sets: nat, head: nat, chain: seq<nat>)
    requires Chain(c, used, spare, sets, head, chain, 0)
    ensures Seg(c, head, chain, 0) && Different(chain) && used < |c|
  {
  }

  lemma UseJoined(c: seq<Cell>, e: seq<Cell>, used: nat, spare: seq<nat>, sets: nat, head: nat, first: nat, done: seq<nat>,
                  body: seq<nat>, tail: seq<nat>, current: nat)
    requires Chain(c, used, spare, sets, head, done + [current] + tail, 0) && Chain(c, used, spare, sets, first, body, 0)
    requires SameTokens(c, e)
    ensures var all := done + body + tail;
      forall k {:trigger all[k]} | 0 <= k < |all| :: InUse(used, spare, all[k]) && e[all[k]].hidden < sets
  {
    hide Seg;
    var was, all := done + [current] + tail, done + body + tail;
    forall k {:trigger all[k]} | 0 <= k < |all| ensures InUse(used, spare, all[k]) && e[all[k]].hidden < sets {
      if k < |done| {
        assert was[k] == all[k];
      } else if k < |done| + |body| {
        assert body[k - |done|] == all[k];
      } else {
        assert was[k - |body| + 1] == all[k];
      }
    }
  }

  /** The free list does not run through the nodes that were relinked. */
  lemma JoinSpare(c: seq<Cell>, d: seq<Cell>, e: seq<Cell>, used: nat, free: nat, spare: seq<nat>, done: seq<nat>, body: seq<nat>,
                  tail: seq<nat>, current: nat)
    requires Seg(c, free, spare, 0) && |c| == |d| == |e|
    requires Last(body) != 0 ==> InUse(used, spare, Last(body))
    requires Last(done) != 0 ==> InUse(used, spare, Last(done))
    requires forall j | 0 <= j < |c| && j != Last(body) && j != Last(done) :: e[j] == c[j]
    requires Last(body) == 0 && Last(done) == 0 ==> e == c
    requires Last(body) == 0 || Last(done) == 0 ==> |c| > 0 ==> e[0] == c[0]
    ensures Seg(e, free, spare, 0)
  {
    SegRange(c, free, spare, 0);
    SegFrame(c, e, free, spare, 0);
  }

  lemma Freed(c: seq<Cell>, d: seq<Cell>, used: nat, spare: seq<nat>, spare': seq<nat>, sets: nat, head: nat, chain: seq<nat>, i: nat)
    requires Chain(c, used, spare, sets, head, chain, 0) && |d| == |c| && i !in chain
    requires forall j: nat :: InUse(used, spare', j) <==> InUse(used, spare, j) && j != i
    requires forall j: nat | j < |c| && j != i :: d[j] == c[j]
    ensures Chain(d, used, spare', sets, head, chain, 0)
  {
    SegRange(c, head, chain, 0);
    SegFrame(c, d, head, chain, 0);
    forall k {:trigger chain[k]} | 0 <= k < |chain| ensures InUse(used, spare', chain[k]) && d[chain[k]].hidden < sets {
      assert chain[k] in chain;
    }
  }

  lemma StartList(c: seq<Cell>, used: nat, spare: seq<nat>, sets: nat, head: nat, chain: seq<nat>)
    requires Chain(c, used, spare, sets, head, chain, 0)
    ensures head == First(chain) && (head == 0 ==> chain == []) && [] + chain == chain
  {
    SegRange(c, head, chain, 0);
  }

  lemma MacroFound(macros: seq<Macro>, t: Token, m: nat)
    requires Expands(macros, t) && m == Find(macros, t.symbol.word)
    ensures m < |macros|
  {
  }

  lemma NextIs(c: seq<Cell>, used: nat, spare: seq<nat>, sets: nat, head: nat, done: seq<nat>, todo: seq<nat>)
    requires Chain(c, used, spare, sets, head, done + todo, 0)
    ensures First(todo) == 0 ==> todo == []
  {
    if todo != [] {
      assert (done + todo)[|done|] == todo[0];
      assert InUse(used, spare, (done + todo)[|done|]);
    }
  }

  lemma NothingExpands(macros: seq<Macro>, c: seq<Cell>, rows: seq<Row>, chain: seq<nat>)
    ensures Expand(macros, Text(c, rows, chain)) == Text(c, rows, []) + Expand(macros, Text(c, rows, chain))
  {
  }

  lemma ExpandNothing(macros: seq<Macro>, c: seq<Cell>, rows: seq<Row>)
    ensures Expand(macros, Text(c, rows, [])) == []
  {
  }

  lemma CurrentIs(c: seq<Cell>, used: nat, spare: seq<nat>, sets: nat, head: nat, done: seq<nat>, tail: seq<nat>, current: nat)
    requires Chain(c, used, spare, sets, head, done + [current] + tail, 0)
    ensures 1 <= current < |c| && c[current].hidden < sets && c[current].next == First(tail) && (First(tail) == 0 ==> tail == [])
    ensures Last(done + [current]) == current && done + [current] + tail == (done + [current]) + tail
    ensures forall k | 0 <= k < |done| :: 1 <= done[k] < |c| && c[done[k]].hidden < sets
    ensures forall k | 0 <= k < |tail| :: 1 <= tail[k] < |c| && c[tail[k]].hidden < sets
  {
    hide Seg;
    var all := done + [current] + tail;
    SegRange(c, head, all, 0);
    Parts(c, used, spare, sets, head, done, tail, current);
    assert all[|done|] == current;
    assert InUse(used, spare, all[|done|]) && c[all[|done|]].hidden < sets;
    forall k | 0 <= k < |done| ensures 1 <= done[k] < |c| && c[done[k]].hidden < sets {
      assert all[k] == done[k];
      assert InUse(used, spare, all[k]) && c[all[k]].hidden < sets;
    }
    forall k | 0 <= k < |tail| ensures 1 <= tail[k] < |c| && c[tail[k]].hidden < sets {
      assert all[|done| + 1 + k] == tail[k];
      assert InUse(used, spare, all[|done| + 1 + k]) && c[all[|done| + 1 + k]].hidden < sets;
    }
  }

  lemma ExpandStep(macros: seq<Macro>, c: seq<Cell>, rows: seq<Row>, done: seq<nat>, current: nat, tail: seq<nat>)
    ensures var t := View(c, rows, current);
      && Text(c, rows, done + [current]) == Text(c, rows, done) + [t]
      && Text(c, rows, [current] + tail) == [t] + Text(c, rows, tail)
      && Expand(macros, Text(c, rows, [current] + tail)) ==
           if Expands(macros, t) then Expand(macros, Replacement(macros, t) + Text(c, rows, tail))
           else [t] + Expand(macros, Text(c, rows, tail))
  {
    hide View, Expands;
    var t := View(c, rows, current);
    assert Text(c, rows, [current] + tail) == [t] + Text(c, rows, tail);
    assert ([t] + Text(c, rows, tail))[1..] == Text(c, rows, tail);
  }

  lemma Measured(macros: seq<Macro>, c: seq<Cell>, rows: seq<Row>, current: nat, tail: seq<nat>)
    ensures Measure(macros, Text(c, rows, tail)) < Measure(macros, Text(c, rows, [current] + tail))
  {
    hide View, Weight;
    var t := View(c, rows, current);
    assert Text(c, rows, [current] + tail) == [t] + Text(c, rows, tail);
    assert ([t] + Text(c, rows, tail))[1..] == Text(c, rows, tail);
  }

  lemma Lighter(macros: seq<Macro>, c: seq<Cell>, rows: seq<Row>, current: nat, tail: seq<nat>)
    requires Expands(macros, View(c, rows, current))
    ensures Measure(macros, Replacement(macros, View(c, rows, current)) + Text(c, rows, tail)) <
      Measure(macros, Text(c, rows, [current] + tail))
  {
    hide View, Weight, Expands, Replacement;
    var t := View(c, rows, current);
    ReplacementLighter(macros, t);
    MeasureAppend(macros, Replacement(macros, t), Text(c, rows, tail));
    assert Text(c, rows, [current] + tail) == [t] + Text(c, rows, tail);
    assert ([t] + Text(c, rows, tail))[1..] == Text(c, rows, tail);
  }

  /** Nodes of a chain that hold the same tokens in two arenas. */
  ghost predicate SameOn(c: seq<Cell>, d: seq<Cell>, sets: nat, chain: seq<nat>) {
    |c| == |d| && forall k {:trigger chain[k]} | 0 <= k < |chain| ::
      chain[k] < |c| && c[chain[k]].hidden < sets && d[chain[k]].symbol == c[chain[k]].symbol && d[chain[k]].hidden == c[chain[k]].hidden
  }

  lemma TextSame(c: seq<Cell>, d: seq<Cell>, rows: seq<Row>, now: seq<Row>, chain: seq<nat>)
    requires rows <= now && SameOn(c, d, |rows|, chain)
    ensures Text(d, now, chain) == Text(c, rows, chain)
  {
    hide Members;
    forall k | 0 <= k < |chain| ensures View(d, now, chain[k]) == View(c, rows, chain[k]) {
    }
  }

  lemma TextTokens(c: seq<Cell>, d: seq<Cell>, rows: seq<Row>, chain: seq<nat>)
    requires SameTokens(c, d)
    ensures Text(d, rows, chain) == Text(c, rows, chain)
  {
    hide Members;
    forall k | 0 <= k < |chain| ensures View(d, rows, chain[k]) == View(c, rows, chain[k]) {
    }
  }

  lemma TextAppend(c: seq<Cell>, rows: seq<Row>, xs: seq<nat>, ys: seq<nat>)
    ensures Text(c, rows, xs + ys) == Text(c, rows, xs) + Text(c, rows, ys)
  {
    hide View;
  }

  lemma ReplacementIs(macros: seq<Macro>, t: Token, m: nat)
    requires Expands(macros, t) && m == Find(macros, t.symbol.word)
    ensures m < |macros| && Replacement(macros, t) == Hidden(macros[m].body, t.hidden + {m})
  {
    hide Find;
  }

  lemma SameParts(c: seq<Cell>, d: seq<Cell>, sets: nat, done: seq<nat>, current: nat, tail: seq<nat>)
    requires SameOn(c, d, sets, done + [current] + tail)
    ensures SameOn(c, d, sets, done) && SameOn(c, d, sets, tail)
  {
    var all := done + [current] + tail;
    forall k {:trigger done[k]} | 0 <= k < |done|
      ensures done[k] < |c| && c[done[k]].hidden < sets && d[done[k]].symbol == c[done[k]].symbol && d[done[k]].hidden == c[done[k]].hidden
    {
      assert all[k] == done[k];
    }
    forall k {:trigger tail[k]} | 0 <= k < |tail|
      ensures tail[k] < |c| && c[tail[k]].hidden < sets && d[tail[k]].symbol == c[tail[k]].symbol && d[tail[k]].hidden == c[tail[k]].hidden
    {
      assert all[|done| + 1 + k] == tail[k];
    }
  }

  /** The texts around a replaced token, and the one in its place. */
  lemma AroundBody(c: seq<Cell>, d: seq<Cell>, e: seq<Cell>, rows: seq<Row>, now: seq<Row>, done: seq<nat>, body: seq<nat>, tail: seq<nat>)
    requires rows <= now && SameOn(c, d, |rows|, done) && SameOn(c, d, |rows|, tail) && SameTokens(d, e)
    ensures Text(e, now, done) == Text(c, rows, done)
    ensures Text(e, now, body + tail) == Text(d, now, body) + Text(c, rows, tail)
  {
    hide Text;
    TextSame(c, d, rows, now, done);
    TextSame(c, d, rows, now, tail);
    TextTokens(d, e, now, done);
    TextTokens(d, e, now, tail);
    TextTokens(d, e, now, body);
    TextAppend(e, now, body, tail);
  }

  /** A chain whose nodes have not been touched is still there. */
  lemma ChainStays(c: seq<Cell>, d: seq<Cell>, used: nat, spare: seq<nat>, used': nat, spare': seq<nat>, sets: nat, sets': nat,
                   head: nat, chain: seq<nat>)
    requires Chain(c, used, spare, sets, head, chain, 0) && |d| == |c| && used' < |c| && sets <= sets'
    requires forall j: nat {:trigger InUse(used, spare, j)} | InUse(used, spare, j) :: InUse(used', spare', j) && j < |c| && d[j] == c[j]
    ensures Chain(d, used', spare', sets', head, chain, 0) && SameOn(c, d, sets, chain) && forall j | j in chain :: InUse(used, spare, j)
  {
    SegRange(c, head, chain, 0);
    forall j | j in chain ensures InUse(used, spare, j) && 1 <= j < |c| && d[j] == c[j] {
      var k :| 0 <= k < |chain| && chain[k] == j;
      assert InUse(used, spare, chain[k]);
    }
    SegFrame(c, d, head, chain, 0);
    forall k {:trigger chain[k]} | 0 <= k < |chain| ensures InUse(used', spare', chain[k]) && d[chain[k]].hidden < sets' {
      assert InUse(used, spare, chain[k]) && c[chain[k]].hidden < sets;
    }
  }

  lemma BalancedStart(c: seq<Cell>, used: nat, spare: seq<nat>, sets: nat, head: nat, chain: seq<nat>)
    requires Chain(c, used, spare, sets, head, chain, 0)
    ensures Balanced(used, spare, used, spare, chain, chain)
  {
    forall j | j in chain ensures InUse(used, spare, j) {
      var k :| 0 <= k < |chain| && chain[k] == j;
      assert InUse(used, spare, chain[k]);
    }
  }

  lemma BalancedThen(u: nat, s: seq<nat>, v: nat, t: seq<nat>, w: nat, r: seq<nat>, a: seq<nat>, b: seq<nat>, d: seq<nat>)
    requires Balanced(u, s, v, t, a, b) && Balanced(v, t, w, r, b, d)
    ensures Balanced(u, s, w, r, a, d)
  {
    forall j: nat {:trigger InUse(w, r, j)} {:trigger InUse(u, s, j)}
      ensures InUse(w, r, j) && j !in d <==> InUse(u, s, j) && j !in a
    {
      assert InUse(v, t, j) <==> InUse(v, t, j);
    }
  }

  lemma BalancedSplice(c: seq<Cell>, used: nat, spare: seq<nat>, used': nat, spare': seq<nat>, sets: nat, head: nat, done: seq<nat>,
                       current: nat, body: seq<nat>, tail: seq<nat>)
    requires Chain(c, used', spare', sets, head, done + body + tail, 0)
    requires forall j | j in done + [current] + tail :: InUse(used, spare, j)
    requires forall j: nat :: InUse(used', spare', j) <==> (InUse(used, spare, j) || j in body) && j != current
    requires forall j | j in body :: !InUse(used, spare, j)
    ensures Balanced(used, spare, used', spare', done + [current] + tail, done + (body + tail))
  {
    assert done + (body + tail) == done + body + tail;
    BalancedStart(c, used', spare', sets, head, done + body + tail);
  }
}
