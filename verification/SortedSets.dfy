/** Finite sets of numbers and their ordered listings (ORDER BY, sorted()). */
module SortedSets {

  predicate Increasing(s: seq<int>) { forall i, j :: 0 <= i < j < |s| ==> s[i] < s[j] }

  lemma InSnoc(s: seq<int>, x: int)
    requires s != []
    ensures x in s <==> x in s[..|s| - 1] || x == s[|s| - 1]
  {
    if x in s {
      var k :| 0 <= k < |s| && s[k] == x;
      if k < |s| - 1 { assert s[..|s| - 1][k] == x; }
    }
  }

  lemma EmptyWithoutMembers(s: set<int>)
    ensures (forall x :: x !in s) ==> s == {}
  {
    if forall x :: x !in s { assert s <= {}; }
  }

  lemma NonEmpty(s: set<int>)
    requires s != {}
    ensures exists x :: x in s
  {
    EmptyWithoutMembers(s);
  }

  /** The members of a set in increasing order. */
  method Listed(all: set<int>) returns (s: seq<int>)
    ensures Increasing(s) && forall x :: x in s <==> x in all
  {
    s := [];
    var left := all;
    while left != {}
      invariant left <= all && Increasing(s)
      invariant forall x :: x in all <==> x in s || x in left
      invariant forall i, y :: 0 <= i < |s| && y in left ==> s[i] < y
      decreases left
    {
      NonEmpty(left);
      var least :| least in left;
      var rest := left - {least};
      while rest != {}
        invariant rest <= left && least in left
        invariant forall y :: y in left && y !in rest ==> least <= y
        decreases rest
      {
        NonEmpty(rest);
        var y :| y in rest;
        if y < least { least := y; }
        rest := rest - {y};
      }
      s := s + [least];
      left := left - {least};
    }
  }
}
