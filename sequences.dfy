/**
 * Facts about sequences that the caches rely on: keys kept in insertion
 * order without repetitions, removal of one element, and the position of
 * the first smallest weight (what Python's `min` with a key function picks
 * when several keys tie).
 */
module Sequences {

  predicate Distinct<T(==)>(s: seq<T>) {
    forall i, j :: 0 <= i < j < |s| ==> s[i] != s[j]
  }

  /** A sequence without repetitions has as many elements as its set of elements. */
  lemma {:induction false} DistinctCard<T>(s: seq<T>)
    requires Distinct(s)
    ensures |set x | x in s| == |s|
    decreases |s|
  {
    if s != [] {
      var rest := s[1..];
      assert Distinct(rest) by {
        forall i, j | 0 <= i < j < |rest| ensures rest[i] != rest[j] {
          assert rest[i] == s[i + 1] && rest[j] == s[j + 1];
        }
      }
      DistinctCard(rest);
      assert (set x | x in s) == (set x | x in rest) + {s[0]};
      assert s[0] !in rest by {
        forall i | 0 <= i < |rest| ensures rest[i] != s[0] {
          assert rest[i] == s[i + 1];
        }
      }
    }
  }

  /** Appending an element not yet present keeps a sequence free of repetitions. */
  lemma AppendKeepsDistinct<T>(s: seq<T>, x: T)
    requires Distinct(s) && x !in s
    ensures Distinct(s + [x])
  {
    var r := s + [x];
    forall i, j | 0 <= i < j < |r| ensures r[i] != r[j] {
      if j < |s| {
        assert r[i] == s[i] && r[j] == s[j];
      }
    }
  }

  /**
   * The position of the first smallest weight at or after `from`: nothing
   * before it has a weight as small, nothing after it a smaller one.
   */
  function FirstMin(ws: seq<int>, from: nat): (i: nat)
    requires from < |ws|
    ensures from <= i < |ws|
    ensures forall j :: from <= j < i ==> ws[j] > ws[i]
    ensures forall j :: i <= j < |ws| ==> ws[j] >= ws[i]
    decreases |ws| - from
  {
    if from == |ws| - 1 then from
    else
      var best := FirstMin(ws, from + 1);
      if ws[from] <= ws[best] then from else best
  }

  /** `s` with every occurrence of `x` dropped, the rest in order: deleting a key from an ordered dictionary. */
  function Without<T(==)>(s: seq<T>, x: T): seq<T>
    decreases |s|
  {
    if s == [] then []
    else (if s[0] == x then [] else [s[0]]) + Without(s[1..], x)
  }

  /** `Without` keeps every element but `x`, and nothing else; without `x` it changes nothing. */
  lemma {:induction false} WithoutMembers<T>(s: seq<T>, x: T)
    ensures forall y :: y in Without(s, x) ==> y in s && y != x
    ensures forall y :: y in s && y != x ==> y in Without(s, x)
    ensures x !in s ==> Without(s, x) == s
    decreases |s|
  {
    if s != [] {
      WithoutMembers(s[1..], x);
      assert s == [s[0]] + s[1..];
    }
  }

  /** Dropping an element other than the last keeps the last element last. */
  lemma {:induction false} WithoutKeepsLast<T>(s: seq<T>, x: T)
    requires s != [] && s[|s| - 1] != x
    ensures Without(s, x) != [] && Without(s, x)[|Without(s, x)| - 1] == s[|s| - 1]
    decreases |s|
  {
    if |s| > 1 {
      WithoutKeepsLast(s[1..], x);
    }
  }

  /** Dropping an element that occurs once shortens the sequence by one and keeps it free of repetitions. */
  lemma {:induction false} WithoutDistinct<T>(s: seq<T>, x: T)
    requires Distinct(s)
    ensures Distinct(Without(s, x))
    ensures |Without(s, x)| == if x in s then |s| - 1 else |s|
    decreases |s|
  {
    WithoutMembers(s, x);
    if s != [] {
      var rest := s[1..];
      assert Distinct(rest) by {
        forall i, j | 0 <= i < j < |rest| ensures rest[i] != rest[j] {
          assert rest[i] == s[i + 1] && rest[j] == s[j + 1];
        }
      }
      assert s[0] !in rest by {
        forall i | 0 <= i < |rest| ensures rest[i] != s[0] {
          assert rest[i] == s[i + 1];
        }
      }
      WithoutDistinct(rest, x);
      WithoutMembers(rest, x);
      var w := Without(rest, x);
      if s[0] != x {
        assert Without(s, x) == [s[0]] + w;
        forall i, j | 0 <= i < j < |[s[0]] + w| ensures ([s[0]] + w)[i] != ([s[0]] + w)[j] {
          if i == 0 {
            assert ([s[0]] + w)[j] == w[j - 1];
          }
        }
      } else {
        assert Without(s, x) == w;
      }
    }
  }

  /** The elements of `s` that satisfy `p`, in order (built from the back, so a prefix extends by its last element). */
  function Filter<T>(s: seq<T>, p: T -> bool): seq<T>
    decreases |s|
  {
    if s == [] then []
    else Filter(s[..|s| - 1], p) + (if p(s[|s| - 1]) then [s[|s| - 1]] else [])
  }

  /** `Filter` keeps exactly the elements that satisfy `p`. */
  lemma {:induction false} FilterMembers<T>(s: seq<T>, p: T -> bool)
    ensures forall x :: x in Filter(s, p) ==> x in s && p(x)
    ensures forall x :: x in s && p(x) ==> x in Filter(s, p)
    decreases |s|
  {
    if s != [] {
      var init := s[..|s| - 1];
      FilterMembers(init, p);
      assert s == init + [s[|s| - 1]];
    }
  }

  /** Filtering a sequence without repetitions keeps it without repetitions. */
  lemma {:induction false} FilterDistinct<T>(s: seq<T>, p: T -> bool)
    requires Distinct(s)
    ensures Distinct(Filter(s, p))
    decreases |s|
  {
    if s != [] {
      var init := s[..|s| - 1];
      var last := s[|s| - 1];
      assert Distinct(init) by {
        forall i, j | 0 <= i < j < |init| ensures init[i] != init[j] {
          assert init[i] == s[i] && init[j] == s[j];
        }
      }
      assert last !in init by {
        forall i | 0 <= i < |init| ensures init[i] != last {
          assert init[i] == s[i];
        }
      }
      FilterDistinct(init, p);
      FilterMembers(init, p);
      if p(last) {
        AppendKeepsDistinct(Filter(init, p), last);
      }
    }
  }

  /** The first element kept by `Filter` is the first element of `s` that satisfies `p`. */
  lemma {:induction false} FilterFirst<T>(s: seq<T>, p: T -> bool)
    requires Filter(s, p) != []
    ensures exists i :: 0 <= i < |s| && s[i] == Filter(s, p)[0] && p(s[i]) && forall j :: 0 <= j < i ==> !p(s[j])
    decreases |s|
  {
    var init := s[..|s| - 1];
    var last := s[|s| - 1];
    FilterMembers(init, p);
    if Filter(init, p) != [] {
      FilterFirst(init, p);
      var i :| 0 <= i < |init| && init[i] == Filter(init, p)[0] && p(init[i]) && forall j :: 0 <= j < i ==> !p(init[j]);
      assert s[i] == init[i];
      forall j | 0 <= j < i ensures !p(s[j]) {
        assert s[j] == init[j];
      }
    } else {
      forall j | 0 <= j < |s| - 1 ensures !p(s[j]) {
        assert s[j] in init;
      }
      assert Filter(s, p)[0] == last;
    }
  }
}
