/** Small arithmetic and sequence functions that several modules share. */
module Basics {
  function Min(a: real, b: real): real { if a <= b then a else b }

  function Max(a: real, b: real): real { if a >= b then a else b }

  function Abs(x: real): real { if x < 0.0 then -x else x }

  function MinInt(a: int, b: int): int { if a <= b then a else b }

  function MaxInt(a: int, b: int): int { if a >= b then a else b }

  function AbsInt(x: int): nat { if x < 0 then -x else x }

  // The last n of them, or all there are.
  function Last<T>(s: seq<T>, n: nat): seq<T> { if |s| <= n then s else s[|s| - n..] }

  ghost function Firsts<T>(s: seq<T>, i: nat): set<T>
    requires i <= |s|
  {
    set a | a in s[..i]
  }

  lemma OneMoreFirst<T>(s: seq<T>, i: nat)
    requires i < |s|
    ensures Firsts(s, i + 1) == Firsts(s, i) + {s[i]}
  {
    assert s[..i + 1] == s[..i] + [s[i]];
  }

  lemma Member<T>(s: set<T>) returns (x: T)
    requires s != {}
    ensures x in s
  {
    x :| x in s;
  }

  // Moving every index one up keeps their number.
  lemma {:induction false} ShiftedByOne(a: set<int>, b: set<int>)
    requires forall i :: i in b <==> i - 1 in a
    ensures |b| == |a|
    decreases |a|
  {
    if a != {} {
      var i := Member(a);
      assert i + 1 in b;
      ShiftedByOne(a - {i}, b - {i + 1});
    } else if b != {} {
      var i := Member(b);
      assert false;
    }
  }
}
