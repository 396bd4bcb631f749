/** Small shared datatypes and sequence helpers. */
module Prelude {
  datatype Option<+T> = None | Some(value: T)

  function Init<T>(s: seq<T>): (r: seq<T>)
    requires s != []
  {
    s[..|s| - 1]
  }

  function Last<T>(s: seq<T>): (r: T)
    requires s != []
  {
    s[|s| - 1]
  }

  /** The position of the last element with the property; -1 if there is none. */
  function LastWhere<T>(s: seq<T>, p: T -> bool): (i: int)
    ensures -1 <= i < |s|
    ensures i >= 0 ==> p(s[i])
    ensures forall j :: i < j < |s| ==> !p(s[j])
  {
    if s == [] then -1 else if p(Last(s)) then |s| - 1 else LastWhere(Init(s), p)
  }

  lemma InitLast<T>(s: seq<T>)
    requires s != []
    ensures Init(s) + [Last(s)] == s
    ensures forall x :: x in s <==> x in Init(s) || x == Last(s)
  {
    assert Init(s) + [Last(s)] == s;
  }

  predicate Distinct<T(==)>(s: seq<T>) {
    forall i, j :: 0 <= i < j < |s| ==> s[i] != s[j]
  }

  /** The elements of a sequence without repetitions are as many as its positions. */
  lemma {:induction false} DistinctCount<T>(s: seq<T>)
    requires Distinct(s)
    ensures |set x | x in s| == |s|
  {
    if s != [] {
      DistinctCount(Init(s));
      var front := set x | x in Init(s);
      assert forall i :: 0 <= i < |s| - 1 ==> Init(s)[i] == s[i];
      assert (set x | x in s) == front + {Last(s)};
      assert Last(s) !in front;
    }
  }

  lemma {:induction false} SubsetSize<T>(a: set<T>, b: set<T>)
    requires a <= b
    ensures |a| <= |b|
  {
    assert b == a + (b - a);
  }
}
