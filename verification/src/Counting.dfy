/** Sequences without repetitions, and how many different elements a sequence has. */
module Counting {

  predicate Distinct<T(==)>(s: seq<T>) {
    forall i, j :: 0 <= i < j < |s| ==> s[i] != s[j]
  }

  function Elements<T(==)>(s: seq<T>): set<T> {
    set x | x in s
  }

  lemma {:induction false} ElementsSnoc<T>(s: seq<T>, x: T)
    ensures Elements(s + [x]) == Elements(s) + {x}
  {
  }

  lemma {:induction false} AtMostLength<T>(s: seq<T>)
    ensures |Elements(s)| <= |s|
    decreases |s|
  {
    if s != [] {
      var front, last := s[..|s| - 1], s[|s| - 1];
      AtMostLength(front);
      ElementsSnoc(front, last);
      assert s == front + [last];
    }
  }

  /** A sequence repeats nothing exactly when it has as many different elements as places. */
  lemma {:induction false} DistinctIff<T>(s: seq<T>)
    ensures Distinct(s) <==> |Elements(s)| == |s|
    decreases |s|
  {
    if s != [] {
      var front, last := s[..|s| - 1], s[|s| - 1];
      DistinctIff(front);
      AtMostLength(front);
      ElementsSnoc(front, last);
      assert s == front + [last];
      assert Distinct(s) <==> Distinct(front) && last !in front;
    }
  }

  lemma SubsetSize<T>(a: set<T>, b: set<T>)
    requires a <= b
    ensures |a| <= |b| && (|a| == |b| ==> a == b)
  {
    assert b == a + (b - a);
    assert |b| == |a| + |b - a|;
  }

  lemma {:induction false} OnceOrNever<T>(s: seq<T>, x: T)
    requires Distinct(s)
    ensures multiset(s)[x] == if x in s then 1 else 0
    decreases |s|
  {
    if s != [] {
      var front, last := s[..|s| - 1], s[|s| - 1];
      assert s == front + [last];
      OnceOrNever(front, x);
    }
  }

  lemma NothingLeft<T>(a: set<T>, b: set<T>)
    ensures a - b == {} <==> a <= b
  {
    forall x | x in a && x !in b ensures x in a - b {
    }
  }
}
