/** Rescanning with hide sets, for object-like macros: what it means, that it ends, and what it never does. */
module Macros {
  import opened Counting
  import Bits

  /** A token of a macro's body or of the text: an identifier or anything else, and the macros it is hidden from. */
  datatype Symbol = Symbol(word: nat, ident: bool)
  datatype Token = Token(symbol: Symbol, hidden: set<nat>)
  datatype Macro = Macro(name: nat, present: bool, body: seq<Symbol>)

  /** The first macro of that name; the number of macros if there is none. */
  function Find(macros: seq<Macro>, name: nat): (i: nat)
    ensures i <= |macros| && (i < |macros| ==> macros[i].name == name)
    ensures forall j | 0 <= j < i :: macros[j].name != name
  {
    if macros == [] then 0 else if macros[0].name == name then 0 else 1 + Find(macros[1..], name)
  }

  predicate Expands(macros: seq<Macro>, t: Token) {
    t.symbol.ident
    && var i := Find(macros, t.symbol.word);
    i < |macros| && macros[i].present && i !in t.hidden
  }

  /** What takes the place of a token: the body, hidden from the macro and from all that the token was hidden from. */
  function Replacement(macros: seq<Macro>, t: Token): (r: seq<Token>)
    requires Expands(macros, t)
  {
    var i := Find(macros, t.symbol.word);
    seq(|macros[i].body|, k requires 0 <= k < |macros[i].body| => Token(macros[i].body[k], t.hidden + {i}))
  }

  /** One more than the longest body. */
  function Base(macros: seq<Macro>): (b: nat)
    ensures b >= 1 && forall i | 0 <= i < |macros| :: |macros[i].body| < b
  {
    if macros == [] then 1
    else
      var b := Base(macros[1..]);
      if b <= |macros[0].body| then |macros[0].body| + 1 else b
  }

  function Power(b: nat, k: nat): (p: nat)
    ensures b >= 1 ==> p >= 1
  {
    if k == 0 then 1 else b * Power(b, k - 1)
  }

  /** How many macros a token is not hidden from. */
  function Open(n: nat, hidden: set<nat>): nat {
    if n == 0 then 0 else Open(n - 1, hidden) + if n - 1 in hidden then 0 else 1
  }

  /** Hiding one more of them leaves one less. */
  lemma {:induction false} OpenDrops(n: nat, hidden: set<nat>, i: nat)
    requires i < n && i !in hidden
    ensures Open(n, hidden) == Open(n, hidden + {i}) + 1
  {
    if i < n - 1 {
      OpenDrops(n - 1, hidden, i);
    } else {
      OpenSame(n - 1, hidden, i);
    }
  }

  lemma {:induction false} OpenSame(n: nat, hidden: set<nat>, i: nat)
    requires i >= n
    ensures Open(n, hidden) == Open(n, hidden + {i})
  {
    if n > 0 {
      OpenSame(n - 1, hidden, i);
    }
  }

  function Weight(macros: seq<Macro>, t: Token): (w: nat)
    ensures w >= 1
  {
    Power(Base(macros), Open(|macros|, t.hidden))
  }

  /** The measure of a list: every token weighs a power of the number of macros it is not hidden from. */
  function Measure(macros: seq<Macro>, ts: seq<Token>): nat {
    if ts == [] then 0 else Weight(macros, ts[0]) + Measure(macros, ts[1..])
  }

  lemma {:induction false} MeasureAppend(macros: seq<Macro>, xs: seq<Token>, ys: seq<Token>)
    ensures Measure(macros, xs + ys) == Measure(macros, xs) + Measure(macros, ys)
  {
    hide Weight;
    if xs == [] {
      assert xs + ys == ys;
    } else {
      MeasureAppend(macros, xs[1..], ys);
      assert (xs + ys)[1..] == xs[1..] + ys;
    }
  }

  lemma {:induction false} MeasureEqual(macros: seq<Macro>, ts: seq<Token>, w: nat)
    requires forall t | t in ts :: Weight(macros, t) == w
    ensures Measure(macros, ts) == |ts| * w
  {
    hide Weight;
    if ts != [] {
      assert ts[0] in ts;
      MeasureEqual(macros, ts[1..], w);
      OneMore(|ts| - 1, w);
    }
  }

  lemma OneMore(n: nat, w: nat)
    ensures (n + 1) * w == n * w + w
  {
  }

  /** Replacing a token by a body makes the list lighter. */
  lemma ReplacementLighter(macros: seq<Macro>, t: Token)
    requires Expands(macros, t)
    ensures Measure(macros, Replacement(macros, t)) < Weight(macros, t)
  {
    var i := Find(macros, t.symbol.word);
    OpenDrops(|macros|, t.hidden, i);
    var w := Power(Base(macros), Open(|macros|, t.hidden + {i}));
    MeasureEqual(macros, Replacement(macros, t), w);
    Fewer(|macros[i].body|, Base(macros), w);
  }

  lemma Fewer(n: nat, b: nat, w: nat)
    requires n < b && w >= 1
    ensures n * w < b * w
  {
    Bits.MulMonotone(w, n, b);
  }

  /** Rescanning: it ends for every list and every set of definitions, mutually recursive ones included. */
  function Expand(macros: seq<Macro>, ts: seq<Token>): seq<Token>
    decreases Measure(macros, ts)
  {
    if ts == [] then []
    else if Expands(macros, ts[0]) then
      ReplacementLighter(macros, ts[0]);
      MeasureAppend(macros, Replacement(macros, ts[0]), ts[1..]);
      Expand(macros, Replacement(macros, ts[0]) + ts[1..])
    else [ts[0]] + Expand(macros, ts[1..])
  }

  /** Nothing that could be expanded is left: identifiers of the result have no macro, or the first one of their name is undefined or hidden. */
  lemma FullyExpanded(macros: seq<Macro>, ts: seq<Token>)
    ensures forall t, i | t in Expand(macros, ts) && t.symbol.ident && 0 <= i < |macros| && macros[i].name == t.symbol.word
                          && (forall j | 0 <= j < i :: macros[j].name != t.symbol.word) :: !macros[i].present || i in t.hidden
  {
    NothingLeft(macros, ts);
    hide Expand, Expands;
    forall t, i | t in Expand(macros, ts) && t.symbol.ident && 0 <= i < |macros| && macros[i].name == t.symbol.word
                  && (forall j | 0 <= j < i :: macros[j].name != t.symbol.word) ensures !macros[i].present || i in t.hidden
    {
      FirstExpands(macros, t, i);
    }
  }

  lemma FirstExpands(macros: seq<Macro>, t: Token, i: nat)
    requires t.symbol.ident && i < |macros| && macros[i].name == t.symbol.word && forall j | 0 <= j < i :: macros[j].name != t.symbol.word
    ensures Expands(macros, t) <==> macros[i].present && i !in t.hidden
  {
    FirstFound(macros, t.symbol.word, i);
  }

  lemma {:induction false} NothingLeft(macros: seq<Macro>, ts: seq<Token>)
    ensures forall t | t in Expand(macros, ts) :: !Expands(macros, t)
    decreases Measure(macros, ts)
  {
    hide Expands;
    if ts != [] {
      if Expands(macros, ts[0]) {
        ReplacementLighter(macros, ts[0]);
        MeasureAppend(macros, Replacement(macros, ts[0]), ts[1..]);
        NothingLeft(macros, Replacement(macros, ts[0]) + ts[1..]);
      } else {
        NothingLeft(macros, ts[1..]);
      }
    }
  }

  /** A token that is no identifier, whose first macro is not defined or hidden from it, or that has no macro, stays as it is. */
  lemma TokenStays(macros: seq<Macro>, t: Token)
    requires !t.symbol.ident || forall i | 0 <= i < |macros| && macros[i].name == t.symbol.word
                                          && (forall j | 0 <= j < i :: macros[j].name != t.symbol.word) :: !macros[i].present || i in t.hidden
    ensures Expand(macros, [t]) == [t]
  {
    assert !Expands(macros, t);
    assert [t] + Expand(macros, []) == [t];
  }

  /** Any other token is replaced by the expansion of its first macro's body, hidden from that macro and all it was hidden from itself. */
  lemma TokenReplaced(macros: seq<Macro>, t: Token, i: nat)
    requires t.symbol.ident && i < |macros| && macros[i].name == t.symbol.word && forall j | 0 <= j < i :: macros[j].name != t.symbol.word
    requires macros[i].present && i !in t.hidden
    ensures var body := macros[i].body;
      Expand(macros, [t]) == Expand(macros, seq(|body|, k requires 0 <= k < |body| => Token(body[k], t.hidden + {i})))
  {
    FirstFound(macros, t.symbol.word, i);
    var body := macros[i].body;
    assert Replacement(macros, t) == seq(|body|, k requires 0 <= k < |body| => Token(body[k], t.hidden + {i}));
    assert Replacement(macros, t) + [] == Replacement(macros, t);
  }

  lemma FirstFound(macros: seq<Macro>, name: nat, i: nat)
    requires i < |macros| && macros[i].name == name && forall j | 0 <= j < i :: macros[j].name != name
    ensures Find(macros, name) == i
  {
  }

  /** So a text of tokens of the first kind comes back unchanged. */
  lemma {:induction false} TextStays(macros: seq<Macro>, ts: seq<Token>)
    requires forall t | t in ts && t.symbol.ident ::
      forall i | 0 <= i < |macros| && macros[i].name == t.symbol.word
                 && (forall j | 0 <= j < i :: macros[j].name != t.symbol.word) :: !macros[i].present || i in t.hidden
    ensures Expand(macros, ts) == ts
    decreases |ts|
  {
    hide Expand, Measure;
    if ts == [] {
      NothingStays(macros);
    } else {
      assert ts == [ts[0]] + ts[1..];
      TokenStays(macros, ts[0]);
      TextStays(macros, ts[1..]);
      ExpandAppend(macros, [ts[0]], ts[1..]);
    }
  }

  lemma NothingStays(macros: seq<Macro>)
    ensures Expand(macros, []) == []
  {
  }

  /** Object-like macros do not look beyond their own token. */
  lemma {:induction false} ExpandAppend(macros: seq<Macro>, xs: seq<Token>, ys: seq<Token>)
    ensures Expand(macros, xs + ys) == Expand(macros, xs) + Expand(macros, ys)
    decreases Measure(macros, xs)
  {
    hide Expands;
    if xs == [] {
      assert xs + ys == ys;
    } else {
      assert (xs + ys)[1..] == xs[1..] + ys;
      if Expands(macros, xs[0]) {
        var r := Replacement(macros, xs[0]);
        ReplacementLighter(macros, xs[0]);
        MeasureAppend(macros, r, xs[1..]);
        ExpandAppend(macros, r + xs[1..], ys);
        assert r + (xs[1..] + ys) == (r + xs[1..]) + ys;
      } else {
        ExpandAppend(macros, xs[1..], ys);
      }
    }
  }

  /** A token with the macros it came out of, outermost first. */
  datatype Traced = Traced(token: Token, path: seq<nat>)

  function Tokens(ts: seq<Traced>): (r: seq<Token>)
    ensures |r| == |ts|
  {
    seq(|ts|, i requires 0 <= i < |ts| => ts[i].token)
  }

  function Trace(ts: seq<Token>, path: seq<nat>): (r: seq<Traced>)
    ensures |r| == |ts| && Tokens(r) == ts
  {
    seq(|ts|, i requires 0 <= i < |ts| => Traced(ts[i], path))
  }

  /** The same rescanning, keeping track. */
  function ExpandTraced(macros: seq<Macro>, ts: seq<Traced>): seq<Traced>
    decreases Measure(macros, Tokens(ts))
  {
    if ts == [] then []
    else
      var t := ts[0].token;
      assert Tokens(ts)[0] == t && Tokens(ts)[1..] == Tokens(ts[1..]);
      if Expands(macros, t) then
        var inner := Trace(Replacement(macros, t), ts[0].path + [Find(macros, t.symbol.word)]);
        ReplacementLighter(macros, t);
        MeasureAppend(macros, Replacement(macros, t), Tokens(ts[1..]));
        assert Tokens(inner + ts[1..]) == Replacement(macros, t) + Tokens(ts[1..]);
        ExpandTraced(macros, inner + ts[1..])
      else [ts[0]] + ExpandTraced(macros, ts[1..])
  }

  lemma {:induction false} TracingHarmless(macros: seq<Macro>, ts: seq<Traced>)
    ensures Tokens(ExpandTraced(macros, ts)) == Expand(macros, Tokens(ts))
    decreases Measure(macros, Tokens(ts))
  {
    hide Expands, Measure;
    if ts != [] {
      var t := ts[0].token;
      assert Tokens(ts)[0] == t && Tokens(ts)[1..] == Tokens(ts[1..]);
      MeasureHead(macros, Tokens(ts));
      if Expands(macros, t) {
        var inner := Trace(Replacement(macros, t), ts[0].path + [Find(macros, t.symbol.word)]);
        ReplacementLighter(macros, t);
        MeasureAppend(macros, Replacement(macros, t), Tokens(ts[1..]));
        assert Tokens(inner + ts[1..]) == Replacement(macros, t) + Tokens(ts[1..]);
        TracingHarmless(macros, inner + ts[1..]);
      } else {
        TracingHarmless(macros, ts[1..]);
        assert Tokens([ts[0]] + ExpandTraced(macros, ts[1..])) == [t] + Tokens(ExpandTraced(macros, ts[1..]));
      }
    }
  }

  lemma MeasureHead(macros: seq<Macro>, ts: seq<Token>)
    requires ts != []
    ensures Measure(macros, ts) == Weight(macros, ts[0]) + Measure(macros, ts[1..])
  {
  }

  /** The token is hidden from all macros on its path, and none is on it twice. */
  ghost predicate Honest(macros: seq<Macro>, t: Traced) {
    Different(t.path) && forall i | 0 <= i < |t.path| :: t.path[i] < |macros| && t.path[i] in t.token.hidden
  }

  /** The tokens that are replaced on the way, in order, those of empty macros included. */
  function Swapped(macros: seq<Macro>, ts: seq<Traced>): seq<Traced>
    decreases Measure(macros, Tokens(ts))
  {
    if ts == [] then []
    else
      var t := ts[0].token;
      assert Tokens(ts)[0] == t && Tokens(ts)[1..] == Tokens(ts[1..]);
      if Expands(macros, t) then
        var inner := Trace(Replacement(macros, t), ts[0].path + [Find(macros, t.symbol.word)]);
        ReplacementLighter(macros, t);
        MeasureAppend(macros, Replacement(macros, t), Tokens(ts[1..]));
        assert Tokens(inner + ts[1..]) == Replacement(macros, t) + Tokens(ts[1..]);
        [ts[0]] + Swapped(macros, inner + ts[1..])
      else Swapped(macros, ts[1..])
  }

  /** The token is replaced outside any expansion of its macro. */
  ghost predicate FromOutside(macros: seq<Macro>, t: Traced) {
    Honest(macros, t) && Expands(macros, t.token) && Find(macros, t.token.symbol.word) !in t.path
  }

  /**
   * No macro is ever expanded inside its own expansion: not for any token that is replaced, and on the way
   * to any token of the result every macro has been expanded at most once.
   */
  lemma {:induction false} NeverInsideItself(macros: seq<Macro>, ts: seq<Traced>)
    requires forall t | t in ts :: Honest(macros, t)
    ensures forall t | t in ExpandTraced(macros, ts) :: Honest(macros, t)
    ensures forall t | t in Swapped(macros, ts) :: FromOutside(macros, t)
    decreases Measure(macros, Tokens(ts))
  {
    hide Measure, FromOutside, Honest;
    if ts != [] {
      var t := ts[0].token;
      assert Tokens(ts)[0] == t && Tokens(ts)[1..] == Tokens(ts[1..]);
      MeasureHead(macros, Tokens(ts));
      assert ts[0] in ts;
      if Expands(macros, t) {
        NotOnPath(macros, ts[0]);
        var path := ts[0].path + [Find(macros, t.symbol.word)];
        var inner := Trace(Replacement(macros, t), path);
        ReplacementLighter(macros, t);
        MeasureAppend(macros, Replacement(macros, t), Tokens(ts[1..]));
        assert Tokens(inner + ts[1..]) == Replacement(macros, t) + Tokens(ts[1..]);
        forall x | x in inner + ts[1..] ensures Honest(macros, x) {
          if x in inner {
            InnerHonest(macros, ts[0], x);
          }
        }
        NeverInsideItself(macros, inner + ts[1..]);
      } else {
        NeverInsideItself(macros, ts[1..]);
      }
    }
  }

  lemma NotOnPath(macros: seq<Macro>, t: Traced)
    requires Honest(macros, t) && Expands(macros, t.token)
    ensures FromOutside(macros, t)
  {
  }

  lemma InnerHonest(macros: seq<Macro>, t: Traced, x: Traced)
    requires Honest(macros, t) && Expands(macros, t.token)
    requires x in Trace(Replacement(macros, t.token), t.path + [Find(macros, t.token.symbol.word)])
    ensures Honest(macros, x)
  {
  }

  /** A path leaves nothing out: from a text that is hidden just from what its paths say comes a text that is hidden just from what its paths say. */
  lemma {:induction false} PathsComplete(macros: seq<Macro>, ts: seq<Traced>)
    requires forall t | t in ts :: t.token.hidden == set i | i in t.path
    ensures forall t | t in ExpandTraced(macros, ts) + Swapped(macros, ts) :: t.token.hidden == set i | i in t.path
    decreases Measure(macros, Tokens(ts))
  {
    hide Expands, Measure;
    if ts != [] {
      var t := ts[0].token;
      assert Tokens(ts)[0] == t && Tokens(ts)[1..] == Tokens(ts[1..]);
      MeasureHead(macros, Tokens(ts));
      if Expands(macros, t) {
        var path := ts[0].path + [Find(macros, t.symbol.word)];
        var inner := Trace(Replacement(macros, t), path);
        ReplacementLighter(macros, t);
        MeasureAppend(macros, Replacement(macros, t), Tokens(ts[1..]));
        assert Tokens(inner + ts[1..]) == Replacement(macros, t) + Tokens(ts[1..]);
        forall x | x in inner ensures x.token.hidden == set i | i in x.path {
          assert ts[0] in ts;
        }
        PathsComplete(macros, inner + ts[1..]);
      } else {
        PathsComplete(macros, ts[1..]);
      }
    }
  }

  /** So no token comes out of more expansions than there are macros. */
  lemma PathsShort(macros: seq<Macro>, t: Traced)
    requires Honest(macros, t)
    ensures |t.path| <= |macros|
  {
    Pigeons(t.path, |macros|);
  }
}
