/** Counting: a list of different numbers below a bound is no longer than the bound. */
module Counting {

  ghost predicate Different(s: seq<nat>) {
    forall i, j | 0 <= i < j < |s| :: s[i] != s[j]
  }

  function Numbers(count: nat): (s: set<nat>)
    ensures |s| == count && forall i: nat :: i in s <==> i < count
  {
    if count == 0 then {} else Numbers(count - 1) + {count - 1}
  }

  lemma {:induction false} Subset(a: set<nat>, b: set<nat>)
    requires a <= b
    ensures |a| <= |b|
    decreases b
  {
    if a != {} {
      var x :| x in a;
      Subset(a - {x}, b - {x});
    }
  }

  lemma {:induction false} DifferentSize(s: seq<nat>)
    requires Different(s)
    ensures |set i | 0 <= i < |s| :: s[i]| == |s|
  {
    if s != [] {
      var most := s[..|s| - 1];
      DifferentSize(most);
      assert (set i | 0 <= i < |s| :: s[i]) == (set i | 0 <= i < |most| :: most[i]) + {s[|s| - 1]};
    }
  }

  /** More pigeons than holes: two of them would share one. */
  lemma Pigeons(s: seq<nat>, count: nat)
    requires Different(s) && forall i | 0 <= i < |s| :: s[i] < count
    ensures |s| <= count
  {
    DifferentSize(s);
    Subset(set i | 0 <= i < |s| :: s[i], Numbers(count));
  }
}
