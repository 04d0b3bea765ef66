/** Sequence helpers shared by the views: the `Array.prototype.filter` of the
    source, written from the right so that "one more element at the end" (a
    `push` in a loop) is a single unfolding, and the subsequence relation that
    states "same elements, same relative order". */
module Seqs {

  datatype Option<+T> = None | Some(value: T)

  datatype Result<+R, +E> = Success(value: R) | Failure(error: E)

  function Last<T>(s: seq<T>): T
    requires |s| > 0
  {
    s[|s| - 1]
  }

  function Init<T>(s: seq<T>): seq<T>
    requires |s| > 0
  {
    s[..|s| - 1]
  }

  lemma InitLast<T>(s: seq<T>)
    requires s != []
    ensures s == Init(s) + [Last(s)]
    ensures multiset(s) == multiset(Init(s)) + multiset{Last(s)}
  {
    assert s == Init(s) + [Last(s)];
  }

  lemma MultisetCancel<T>(a: multiset<T>, b: multiset<T>, c: multiset<T>)
    requires a + c == b + c
    ensures a == b
  {
    assert forall e :: a[e] == (a + c)[e] - c[e];
  }

  /** The elements of `s` that satisfy `p`, in their original order. */
  function Filter<T>(s: seq<T>, p: T -> bool): seq<T>
    decreases |s|
  {
    if s == [] then [] else Filter(Init(s), p) + (if p(Last(s)) then [Last(s)] else [])
  }

  /** `a` can be obtained from `b` by deleting elements. */
  predicate IsSubsequence<T(==)>(a: seq<T>, b: seq<T>)
    decreases |b|
  {
    if a == [] then true
    else if b == [] then false
    else (Last(a) == Last(b) && IsSubsequence(Init(a), Init(b))) || IsSubsequence(a, Init(b))
  }

  /** Number of elements of `s` satisfying `p`. */
  function Count<T>(s: seq<T>, p: T -> bool): nat
  {
    |Filter(s, p)|
  }

  lemma {:induction false} FilterMembership<T>(s: seq<T>, p: T -> bool)
    ensures forall x :: x in Filter(s, p) ==> x in s && p(x)
    ensures forall x :: x in s && p(x) ==> x in Filter(s, p)
    decreases |s|
  {
    if s != [] {
      FilterMembership(Init(s), p);
      assert s == Init(s) + [Last(s)];
    }
  }

  lemma {:induction false} FilterLength<T>(s: seq<T>, p: T -> bool)
    ensures |Filter(s, p)| <= |s|
    decreases |s|
  {
    if s != [] {
      FilterLength(Init(s), p);
    }
  }

  lemma {:induction false} FilterKeepsAll<T>(s: seq<T>, p: T -> bool)
    requires forall x :: x in s ==> p(x)
    ensures Filter(s, p) == s
    decreases |s|
  {
    if s != [] {
      assert s == Init(s) + [Last(s)];
      assert forall x :: x in Init(s) ==> x in s;
      FilterKeepsAll(Init(s), p);
      assert p(Last(s));
    }
  }

  lemma {:induction false} FilterKeepsNone<T>(s: seq<T>, p: T -> bool)
    requires forall x :: x in s ==> !p(x)
    ensures Filter(s, p) == []
    decreases |s|
  {
    if s != [] {
      assert forall x :: x in Init(s) ==> x in s;
      FilterKeepsNone(Init(s), p);
    }
  }

  lemma {:induction false} FilterAppend<T>(a: seq<T>, b: seq<T>, p: T -> bool)
    ensures Filter(a + b, p) == Filter(a, p) + Filter(b, p)
    decreases |b|
  {
    if b == [] {
      assert a + b == a;
    } else {
      assert Init(a + b) == a + Init(b);
      assert Last(a + b) == Last(b);
      FilterAppend(a, Init(b), p);
    }
  }

  lemma {:induction false} FilterIsSubsequence<T>(s: seq<T>, p: T -> bool)
    ensures IsSubsequence(Filter(s, p), s)
    decreases |s|
  {
    if s != [] {
      FilterIsSubsequence(Init(s), p);
      var f := Filter(Init(s), p);
      if p(Last(s)) {
        assert Filter(s, p) == f + [Last(s)];
        assert Init(f + [Last(s)]) == f;
      } else {
        assert Filter(s, p) == f;
        if f != [] {
          assert IsSubsequence(f, Init(s));
        }
      }
    }
  }

  /** Splitting by a predicate and its complement loses and duplicates nothing. */
  lemma {:induction false} FilterPartition<T>(s: seq<T>, p: T -> bool, q: T -> bool)
    requires forall x :: x in s ==> (p(x) <==> !q(x))
    ensures multiset(Filter(s, p)) + multiset(Filter(s, q)) == multiset(s)
    ensures |Filter(s, p)| + |Filter(s, q)| == |s|
    decreases |s|
  {
    if s != [] {
      var init, x := Init(s), Last(s);
      assert s == init + [x];
      assert forall y :: y in init ==> y in s;
      FilterPartition(init, p, q);
      assert multiset(s) == multiset(init) + multiset{x};
      assert x in s;
      if p(x) {
        assert Filter(s, p) == Filter(init, p) + [x];
        assert Filter(s, q) == Filter(init, q);
        assert multiset(Filter(s, p)) == multiset(Filter(init, p)) + multiset{x};
      } else {
        assert Filter(s, p) == Filter(init, p);
        assert Filter(s, q) == Filter(init, q) + [x];
        assert multiset(Filter(s, q)) == multiset(Filter(init, q)) + multiset{x};
      }
    }
  }

  /** Every element kept occurs in the result exactly as often as in the input;
      every element dropped occurs not at all. */
  lemma {:induction false} FilterCount<T>(s: seq<T>, p: T -> bool)
    ensures forall x :: multiset(Filter(s, p))[x] == if p(x) then multiset(s)[x] else 0
    decreases |s|
  {
    if s != [] {
      var init, l := Init(s), Last(s);
      assert s == init + [l];
      FilterCount(init, p);
      assert multiset(s) == multiset(init) + multiset{l};
      if p(l) {
        assert Filter(s, p) == Filter(init, p) + [l];
        assert multiset(Filter(s, p)) == multiset(Filter(init, p)) + multiset{l};
      } else {
        assert Filter(s, p) == Filter(init, p);
      }
    }
  }

  /** Filtering twice by the same predicate is filtering once. */
  lemma {:induction false} FilterIdempotent<T>(s: seq<T>, p: T -> bool)
    ensures Filter(Filter(s, p), p) == Filter(s, p)
  {
    FilterMembership(s, p);
    FilterKeepsAll(Filter(s, p), p);
  }

  lemma FilterExcludes<T>(s: seq<T>, p: T -> bool, q: T -> bool)
    requires forall x :: x in s ==> !(p(x) && q(x))
    ensures forall x :: x in Filter(s, p) ==> !q(x)
  {
    FilterMembership(s, p);
  }

  /** Filtering by a predicate that excludes everything the first one kept yields nothing. */
  lemma {:induction false} FilterDisjoint<T>(s: seq<T>, p: T -> bool, q: T -> bool)
    requires forall x :: x in s ==> !(p(x) && q(x))
    ensures Filter(Filter(s, p), q) == []
  {
    FilterExcludes(s, p, q);
    FilterKeepsNone(Filter(s, p), q);
  }

  lemma {:induction false} SubsequenceMembership<T>(a: seq<T>, b: seq<T>)
    requires IsSubsequence(a, b)
    ensures forall x :: x in a ==> x in b
    decreases |b|
  {
    if a != [] && b != [] {
      if Last(a) == Last(b) && IsSubsequence(Init(a), Init(b)) {
        SubsequenceMembership(Init(a), Init(b));
        assert a == Init(a) + [Last(a)];
        assert b == Init(b) + [Last(b)];
      } else {
        SubsequenceMembership(a, Init(b));
        assert b == Init(b) + [Last(b)];
      }
    }
  }

  lemma {:induction false} SubsequenceReflexive<T>(s: seq<T>)
    ensures IsSubsequence(s, s)
    decreases |s|
  {
    if s != [] {
      SubsequenceReflexive(Init(s));
    }
  }
}
