/** A few constructors shared by the models. */
module Wrappers {
  datatype Option<+T> = None | Some(value: T)
  {
    function GetOr(other: T): T { if Some? then value else other }
  }

  lemma {:induction false} SubsetSize<T>(a: set<T>, b: set<T>)
    requires a <= b
    ensures |a| <= |b|
  {
    if a != {} {
      var x :| x in a;
      SubsetSize(a - {x}, b - {x});
    }
  }

  lemma KeyOf<K(!new), V(!new)>(m: map<K, V>, v: V) returns (k: K)
    requires v in m.Values
    ensures k in m && m[k] == v
  {
    k :| k in m && m[k] == v;
  }

  predicate Increasing(s: seq<int>) { forall i, j :: 0 <= i < j < |s| ==> s[i] < s[j] }

  /** The list holds the elements of the set, in order. */
  ghost predicate Lists(s: seq<int>, elements: set<int>) {
    Increasing(s) && forall x :: x in s <==> x in elements
  }
}
