/** Small shared vocabulary. */
module Basics {
  datatype Option<+T> = None | Some(value: T)

  /** Without later repeats. */
  function Unique<T(==, !new)>(s: seq<T>): (r: seq<T>)
    ensures forall x :: x in r <==> x in s
    ensures forall i, j :: 0 <= i < j < |r| ==> r[i] != r[j]
  {
    if s == [] then []
    else
      var rest := Unique(s[..|s| - 1]);
      if s[|s| - 1] in rest then rest else rest + [s[|s| - 1]]
  }

  /** The lowest number not in use. */
  method PickUnused(used: set<nat>) returns (n: nat)
    ensures n !in used
  {
    n := 0;
    var above := used;
    while n in above
      invariant above <= used && forall x :: x in used && x !in above ==> x < n
      decreases |above|
    {
      above := above - {n};
      n := n + 1;
    }
  }

  lemma SubsetSize<T>(a: set<T>, b: set<T>)
    requires a <= b
    ensures |a| <= |b|
  {
    assert b == a + (b - a);
  }

  lemma Regroup<T>(a: seq<T>, b: seq<T>, c: seq<T>)
    ensures a + (b + c) == a + b + c
  {
  }
}
