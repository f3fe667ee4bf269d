/** Facts about sequences and finite sets that several modules need. */
module Collections {

  function Elements<T(==)>(s: seq<T>): set<T> {
    set x <- s
  }

  ghost predicate NoRepeats<T>(s: seq<T>) {
    forall i, j | 0 <= i < j < |s| :: s[i] != s[j]
  }

  lemma EmptyOrInhabited<T>(s: seq<T>)
    ensures s == [] || exists x :: x in s
  {
    if s != [] {
      assert s[0] in s;
    }
  }

  lemma {:induction false} SubsetIsSmaller<T>(small: set<T>, large: set<T>)
    requires small <= large
    ensures |small| <= |large|
  {
    if small != {} {
      var x :| x in small;
      SubsetIsSmaller(small - {x}, large - {x});
    }
  }

  lemma {:induction false} SubsetOfSameSize<T>(small: set<T>, large: set<T>)
    requires small <= large && |small| == |large|
    ensures small == large
  {
    if large != {} {
      var x :| x in large;
      if x in small {
        SubsetOfSameSize(small - {x}, large - {x});
      } else {
        SubsetIsSmaller(small, large - {x});
      }
    }
  }
}
