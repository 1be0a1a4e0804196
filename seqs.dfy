/** Sequence helpers shared by the components: duplicate-freedom, the
    `filter(x => x !== v)` idiom and the first-occurrence de-duplication that
    `[...new Set(xs)]` performs. */
module Seqs {

  /** No element occurs twice. */
  predicate NoDup<T(==)>(s: seq<T>) {
    forall i, j :: 0 <= i < j < |s| ==> s[i] != s[j]
  }

  /** `s.filter(y => y !== x)`: every copy of `x` dropped, the rest kept in order. */
  function Without<T(==)>(s: seq<T>, x: T): (r: seq<T>)
    ensures |r| <= |s|
  {
    if s == [] then []
    else if s[0] == x then Without(s[1..], x)
    else [s[0]] + Without(s[1..], x)
  }

  /** The survivors of the filter are exactly the elements other than `x`, with their multiplicities. */
  lemma {:induction false} WithoutContents<T>(s: seq<T>, x: T)
    ensures multiset(Without(s, x)) == multiset(s)[x := 0]
    ensures x !in Without(s, x)
    ensures forall y :: y != x ==> (y in Without(s, x) <==> y in s)
  {
    if s != [] {
      WithoutContents(s[1..], x);
      assert s == [s[0]] + s[1..];
      assert multiset(s) == multiset{s[0]} + multiset(s[1..]);
    }
  }

  /** Filtering keeps a duplicate-free list duplicate-free. */
  lemma {:induction false} WithoutNoDup<T>(s: seq<T>, x: T)
    requires NoDup(s)
    ensures NoDup(Without(s, x))
  {
    if s != [] {
      assert NoDup(s[1..]);
      WithoutNoDup(s[1..], x);
      WithoutContents(s[1..], x);
      assert s[0] !in s[1..];
    }
  }

  /** Filtering distributes over concatenation, so the survivors keep their order. */
  lemma {:induction false} WithoutConcat<T>(a: seq<T>, b: seq<T>, x: T)
    ensures Without(a + b, x) == Without(a, x) + Without(b, x)
  {
    if a == [] {
      assert a + b == b;
    } else {
      assert (a + b)[0] == a[0] && (a + b)[1..] == a[1..] + b;
      WithoutConcat(a[1..], b, x);
    }
  }

  /** Filtering out an absent value changes nothing. */
  lemma {:induction false} WithoutAbsent<T>(s: seq<T>, x: T)
    requires x !in s
    ensures Without(s, x) == s
  {
    if s != [] {
      WithoutAbsent(s[1..], x);
    }
  }

  /** Index of the first occurrence of `x` in `s`. */
  function FirstIndex<T(==)>(s: seq<T>, x: T): (k: nat)
    requires x in s
    ensures k < |s| && s[k] == x && x !in s[..k]
  {
    if s[0] == x then 0 else 1 + FirstIndex(s[1..], x)
  }

  /** Appending an element does not move the first occurrence of an older one. */
  lemma {:induction false} FirstIndexSnoc<T>(s: seq<T>, y: T, x: T)
    requires x in s
    ensures FirstIndex(s + [y], x) == FirstIndex(s, x)
  {
    if s[0] != x {
      assert (s + [y])[1..] == s[1..] + [y];
      FirstIndexSnoc(s[1..], y, x);
    }
  }

  /** `[...new Set(s)]`: each element once, in order of first occurrence. */
  function Distinct<T(==)>(s: seq<T>): (r: seq<T>)
    ensures NoDup(r)
    ensures forall i :: 0 <= i < |r| ==> r[i] in s
    ensures forall i :: 0 <= i < |s| ==> s[i] in r
    ensures |r| <= |s|
  {
    if s == [] then []
    else
      var d := Distinct(s[..|s| - 1]);
      assert s == s[..|s| - 1] + [s[|s| - 1]];
      if s[|s| - 1] in d then d else d + [s[|s| - 1]]
  }

  /** One more element: kept at the end if it is new, dropped if it is not. */
  lemma DistinctSnoc<T>(s: seq<T>, x: T)
    ensures Distinct(s + [x]) == if x in s then Distinct(s) else Distinct(s) + [x]
  {
    assert (s + [x])[..|s|] == s;
    assert x in Distinct(s) <==> x in s;
  }

  /** The elements of `Distinct(s)` appear in the order of their first occurrence in `s`. */
  lemma {:induction false} DistinctFirstOccurrenceOrder<T>(s: seq<T>)
    ensures forall i, j :: 0 <= i < j < |Distinct(s)| ==>
      FirstIndex(s, Distinct(s)[i]) < FirstIndex(s, Distinct(s)[j])
  {
    if s != [] {
      var p, y := s[..|s| - 1], s[|s| - 1];
      assert s == p + [y];
      var d := Distinct(p);
      DistinctFirstOccurrenceOrder(p);
      forall x | x in d ensures FirstIndex(s, x) == FirstIndex(p, x) {
        FirstIndexSnoc(p, y, x);
      }
      if y !in d {
        assert y !in p;
        assert FirstIndex(s, y) == |p| by {
          assert s[|p|] == y && y !in s[..|p|];
          FirstIndexUnique(s, y, |p|);
        }
      }
    }
  }

  /** The first occurrence is the only index `k` with `s[k] == x` and no earlier copy. */
  lemma {:induction false} FirstIndexUnique<T>(s: seq<T>, x: T, k: nat)
    requires k < |s| && s[k] == x && x !in s[..k]
    ensures FirstIndex(s, x) == k
  {
    if k > 0 {
      assert s[0] in s[..k];
      assert s[1..][..k - 1] == s[..k][1..];
      FirstIndexUnique(s[1..], x, k - 1);
    }
  }

  /** A list that is already duplicate-free is its own de-duplication. */
  lemma {:induction false} DistinctOfNoDup<T>(s: seq<T>)
    requires NoDup(s)
    ensures Distinct(s) == s
  {
    if s != [] {
      var p := s[..|s| - 1];
      assert NoDup(p);
      DistinctOfNoDup(p);
      assert s[|s| - 1] !in p;
      assert s == p + [s[|s| - 1]];
    }
  }
}
