/** Small facts about sequences shared by the shuffle, the round builder and the engine. */
module SeqFacts {

  /** No element occurs twice. */
  predicate Distinct<T(==)>(s: seq<T>) {
    forall i, j :: 0 <= i < j < |s| ==> s[i] != s[j]
  }

  /** `s.map(f)`. */
  function MapSeq<T, U>(f: T -> U, s: seq<T>): (r: seq<U>)
    ensures |r| == |s|
    ensures forall i :: 0 <= i < |s| ==> r[i] == f(s[i])
  {
    seq(|s|, i requires 0 <= i < |s| => f(s[i]))
  }

  function Min(a: int, b: int): int {
    if a <= b then a else b
  }

  /** The set of elements of a sequence has at most as many members as the
      sequence has positions, and exactly as many when no element repeats. */
  lemma {:induction false} ElementsCardinality<T>(s: seq<T>)
    ensures |set x | x in s| <= |s|
    ensures Distinct(s) ==> |set x | x in s| == |s|
  {
    if |s| > 0 {
      var t := s[..|s| - 1];
      var last := s[|s| - 1];
      ElementsCardinality(t);
      assert s == t + [last];
      assert (set x | x in s) == (set x | x in t) + {last};
      if Distinct(s) {
        assert Distinct(t);
        assert last !in t;
      }
    }
  }

  /** A subset has at most as many members as its superset. */
  lemma {:induction false} SubsetCardinality<T>(a: set<T>, b: set<T>)
    requires a <= b
    ensures |a| <= |b|
    decreases b
  {
    if b != {} {
      var x :| x in b;
      SubsetCardinality(a - {x}, b - {x});
    }
  }
}
