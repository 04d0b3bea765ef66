/** `Array.prototype.sort` with a comparator, as a stable insertion sort
    (ECMAScript 2019 and later require `sort` to be stable). The comparator is
    given as `after(a, b)`: "the comparator returns a positive number for
    (a, b)", so `a` must come after `b`. For a comparator that is a strict
    weak order every stable sort gives this result. For one that is not (a
    comparator returning NaN for some pairs), ECMAScript leaves the order to
    the engine, and this insertion sort is the one admissible order the model
    fixes: there an element the comparator never ranks is not moved. */
module Sorting {
  import opened Seqs

  /** Place `x` after every trailing element of `t` it does not have to precede. */
  function Insert<T>(t: seq<T>, x: T, after: (T, T) -> bool): seq<T>
    decreases |t|
  {
    if t != [] && after(Last(t), x) then Insert(Init(t), x, after) + [Last(t)] else t + [x]
  }

  function InsertionSort<T>(s: seq<T>, after: (T, T) -> bool): seq<T>
    decreases |s|
  {
    if s == [] then [] else Insert(InsertionSort(Init(s), after), Last(s), after)
  }

  /** No element comes before one it has to follow. */
  predicate SortedBy<T>(s: seq<T>, after: (T, T) -> bool)
  {
    forall i, j :: 0 <= i < j < |s| ==> !after(s[i], s[j])
  }

  /** `after` is a strict weak order on the elements of `s`: asymmetric, and
      "not after" is transitive. */
  predicate StrictWeakOn<T(==)>(s: seq<T>, after: (T, T) -> bool)
  {
    (forall a, b :: a in s && b in s && after(a, b) ==> !after(b, a))
    && (forall a, b, c :: a in s && b in s && c in s && !after(a, b) && !after(b, c) ==> !after(a, c))
  }

  lemma StrictWeakOnSubset<T>(s: seq<T>, u: seq<T>, after: (T, T) -> bool)
    requires StrictWeakOn(s, after) && forall y :: y in u ==> y in s
    ensures StrictWeakOn(u, after)
  {
  }

  lemma {:induction false} InsertPermutes<T>(t: seq<T>, x: T, after: (T, T) -> bool)
    ensures multiset(Insert(t, x, after)) == multiset(t) + multiset{x}
    ensures |Insert(t, x, after)| == |t| + 1
    decreases |t|
  {
    if t != [] && after(Last(t), x) {
      InsertPermutes(Init(t), x, after);
      assert t == Init(t) + [Last(t)];
    }
  }

  /** Sorting neither loses nor adds an element. */
  lemma {:induction false} SortPermutes<T>(s: seq<T>, after: (T, T) -> bool)
    ensures multiset(InsertionSort(s, after)) == multiset(s)
    ensures |InsertionSort(s, after)| == |s|
    decreases |s|
  {
    if s != [] {
      var init, x := Init(s), Last(s);
      assert s == init + [x];
      SortPermutes(init, after);
      InsertPermutes(InsertionSort(init, after), x, after);
      assert multiset(s) == multiset(init) + multiset{x};
    }
  }

  lemma SortMembership<T>(s: seq<T>, after: (T, T) -> bool)
    ensures forall x :: x in InsertionSort(s, after) ==> x in s
    ensures forall x :: x in s ==> x in InsertionSort(s, after)
  {
    SortPermutes(s, after);
    forall x | x in InsertionSort(s, after) ensures x in s {
      assert x in multiset(InsertionSort(s, after));
    }
    forall x | x in s ensures x in InsertionSort(s, after) {
      assert x in multiset(s);
    }
  }

  /** The filter of `r + [l]` when the filter of `r` already holds `x` (or not). */
  lemma FilterSnocStep<T>(r: seq<T>, t0: seq<T>, l: T, x: T, p: T -> bool)
    requires Filter(r, p) == Filter(t0, p) + (if p(x) then [x] else [])
    requires !(p(x) && p(l))
    ensures Filter(r + [l], p) == Filter(t0 + [l], p) + (if p(x) then [x] else [])
  {
    assert Init(r + [l]) == r && Last(r + [l]) == l;
    assert Init(t0 + [l]) == t0 && Last(t0 + [l]) == l;
  }

  lemma {:induction false} InsertStable<T>(t: seq<T>, x: T, after: (T, T) -> bool, p: T -> bool)
    requires p(x) ==> forall y :: y in t && p(y) ==> !after(y, x)
    ensures Filter(Insert(t, x, after), p) == Filter(t, p) + (if p(x) then [x] else [])
    decreases |t|
  {
    if t != [] && after(Last(t), x) {
      var t0, l := Init(t), Last(t);
      assert t == t0 + [l];
      assert l in t;
      assert forall y :: y in t0 ==> y in t;
      InsertStable(t0, x, after, p);
      FilterSnocStep(Insert(t0, x, after), t0, l, x, p);
    } else {
      assert Init(t + [x]) == t && Last(t + [x]) == x;
    }
  }

  /** Elements the comparator does not order among themselves (those with
      `p`) keep their relative order. */
  lemma {:induction false} SortStable<T>(s: seq<T>, after: (T, T) -> bool, p: T -> bool)
    requires forall a, b :: a in s && b in s && p(a) && p(b) ==> !after(a, b)
    ensures Filter(InsertionSort(s, after), p) == Filter(s, p)
    decreases |s|
  {
    if s != [] {
      var init, x := Init(s), Last(s);
      assert s == init + [x];
      SortStable(init, after, p);
      SortPermutes(init, after);
      forall y | y in InsertionSort(init, after) && p(y) && p(x) ensures !after(y, x) {
        assert y in multiset(InsertionSort(init, after));
        assert y in multiset(init);
        assert y in init;
        assert y in s && x in s;
      }
      InsertStable(InsertionSort(init, after), x, after, p);
    }
  }

  /** A sorted list stays sorted when an element no earlier one must follow is appended. */
  lemma SortedSnoc<T>(u: seq<T>, y: T, after: (T, T) -> bool)
    requires SortedBy(u, after) && forall i :: 0 <= i < |u| ==> !after(u[i], y)
    ensures SortedBy(u + [y], after)
  {
  }

  /** Every element of `Insert(t0, x)` may precede `l`, when `l` closes the sorted `t0 + [l]` and `x` must follow `l`. */
  lemma InsertBelowLast<T>(t0: seq<T>, l: T, x: T, after: (T, T) -> bool)
    requires SortedBy(t0 + [l], after) && StrictWeakOn(t0 + [l] + [x], after) && after(l, x)
    ensures forall i :: 0 <= i < |Insert(t0, x, after)| ==> !after(Insert(t0, x, after)[i], l)
  {
    var t, r0 := t0 + [l], Insert(t0, x, after);
    InsertPermutes(t0, x, after);
    forall i | 0 <= i < |r0| ensures !after(r0[i], l) {
      assert r0[i] in multiset(r0);
      if r0[i] == x {
        assert x in t + [x] && l in t + [x];
      } else {
        assert r0[i] in t0;
        var n :| 0 <= n < |t0| && t0[n] == r0[i];
        assert t[n] == r0[i] && t[|t0|] == l;
      }
    }
  }

  lemma {:induction false} InsertSorted<T>(t: seq<T>, x: T, after: (T, T) -> bool)
    requires SortedBy(t, after) && StrictWeakOn(t + [x], after)
    ensures SortedBy(Insert(t, x, after), after)
    decreases |t|
  {
    if t != [] && after(Last(t), x) {
      var t0, l := Init(t), Last(t);
      assert t == t0 + [l];
      assert forall y :: y in t0 + [x] ==> y in t + [x];
      StrictWeakOnSubset(t + [x], t0 + [x], after);
      assert SortedBy(t0, after) by {
        forall i, j | 0 <= i < j < |t0| ensures !after(t0[i], t0[j]) {
          assert t0[i] == t[i] && t0[j] == t[j];
        }
      }
      InsertSorted(t0, x, after);
      InsertBelowLast(t0, l, x, after);
      SortedSnoc(Insert(t0, x, after), l, after);
    } else if t != [] {
      var l := Last(t);
      forall i | 0 <= i < |t| ensures !after(t[i], x) {
        if i < |t| - 1 {
          assert !after(t[i], t[|t| - 1]);
          assert t[i] in t + [x] && l in t + [x] && x in t + [x];
        }
      }
      SortedSnoc(t, x, after);
    }
  }

  /** With a strict weak order the result is sorted. */
  lemma {:induction false} SortSorted<T>(s: seq<T>, after: (T, T) -> bool)
    requires StrictWeakOn(s, after)
    ensures SortedBy(InsertionSort(s, after), after)
    decreases |s|
  {
    if s != [] {
      assert s == Init(s) + [Last(s)];
      assert forall y :: y in Init(s) ==> y in s;
      StrictWeakOnSubset(s, Init(s), after);
      SortSorted(Init(s), after);
      SortPermutes(Init(s), after);
      var t := InsertionSort(Init(s), after);
      forall y | y in t + [Last(s)] ensures y in s {
        if y in t {
          assert y in multiset(t);
          assert y in multiset(Init(s));
          assert y in Init(s);
        }
      }
      StrictWeakOnSubset(s, t + [Last(s)], after);
      InsertSorted(t, Last(s), after);
    }
  }
}
