/** Facts about finite sequences and sets that several modules use. */
module Sequences {

  lemma Extend<T>(s: seq<T>, i: nat)
    requires i < |s|
    ensures s[..i + 1] == s[..i] + [s[i]] && s[..i + 1][..i] == s[..i]
  {
  }

  /** The last element of one list, found somewhere in a reordering of it. */
  lemma TakeOut<T>(s: seq<T>, other: seq<T>) returns (a: seq<T>, b: seq<T>)
    requires s != [] && multiset(s) == multiset(other)
    ensures other == a + [s[|s| - 1]] + b && multiset(s[..|s| - 1]) == multiset(a + b)
  {
    var n := |s| - 1;
    assert s == s[..n] + [s[n]];
    assert s[n] in multiset(other);
    var j :| 0 <= j < |other| && other[j] == s[n];
    a, b := other[..j], other[j + 1..];
    assert other == a + [other[j]] + b;
    assert multiset(s[..n]) == multiset(s) - multiset{s[n]};
    assert multiset(a + b) == multiset(other) - multiset{s[n]};
  }

  lemma {:induction false} SubsetSize<T>(a: set<T>, b: set<T>)
    requires a <= b
    ensures |a| <= |b|
    decreases a
  {
    if a != {} {
      var x :| x in a;
      SubsetSize(a - {x}, b - {x});
    }
  }
}
