/** What several modules need: optional values and results, sets and sequences. */
module Common {

  datatype Option<T> = None | Some(value: T)

  datatype Result<T, E> = Ok(value: T) | Err(error: E)

  lemma SubsetSize<T>(a: set<T>, b: set<T>)
    requires a <= b
    ensures |a| <= |b|
    ensures |a| == |b| ==> a == b
  {
    assert b == a + (b - a);
  }

  ghost predicate Distinct<T>(s: seq<T>) {
    forall i, j :: 0 <= i < j < |s| ==> s[i] != s[j]
  }

  lemma {:induction false} DistinctMultiset<T>(s: seq<T>)
    requires Distinct(s)
    ensures forall x :: x in s ==> multiset(s)[x] == 1
  {
    if s == [] {
    } else {
      var rest := s[..|s| - 1];
      DistinctMultiset(rest);
      assert s == rest + [s[|s| - 1]];
    }
  }

  lemma {:induction false} MultisetDistinct<T>(s: seq<T>)
    requires forall x :: x in s ==> multiset(s)[x] == 1
    ensures Distinct(s)
  {
    if s == [] {
    } else {
      var rest, x := s[..|s| - 1], s[|s| - 1];
      assert s == rest + [x];
      assert multiset(s) == multiset(rest) + multiset{x};
      forall y | y in rest ensures multiset(rest)[y] == 1 {
        assert y in s && multiset(rest)[y] <= multiset(s)[y];
      }
      MultisetDistinct(rest);
      assert multiset(s)[x] == multiset(rest)[x] + 1;
      assert x !in rest;
    }
  }

  /** random.shuffle: some reordering. */
  method Shuffle<T>(s: seq<T>) returns (r: seq<T>)
    ensures multiset(r) == multiset(s)
  {
    r := s;
  }

  /** A reordering has the same elements, each as often. */
  lemma Reordered<T>(s: seq<T>, r: seq<T>)
    requires multiset(r) == multiset(s)
    ensures |r| == |s| && (forall x :: x in r <==> x in s)
    ensures Distinct(s) ==> Distinct(r)
  {
    assert |r| == |multiset(r)| == |multiset(s)| == |s|;
    assert forall x :: x in r <==> x in multiset(r);
    assert forall x :: x in s <==> x in multiset(s);
    if Distinct(s) {
      DistinctMultiset(s);
      MultisetDistinct(r);
    }
  }
}
