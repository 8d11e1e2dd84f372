/** The option type used for the store's nullable fields and for lookups. */
module Options {
  datatype Option<T> = None | Some(value: T)
}

/**
 * Order-preserving filtering of sequences, the counterpart of the
 * `Array.prototype.filter` calls the knowledge base is built from,
 * together with the facts about it that the rest of the model relies on.
 */
module Seqs {

  /** The elements of `s` that satisfy `p`, in their original order. */
  function Filter<T>(s: seq<T>, p: T -> bool): (r: seq<T>)
    ensures |r| <= |s|
  {
    if s == [] then []
    else (if p(s[0]) then [s[0]] else []) + Filter(s[1..], p)
  }

  /** Every kept element is an element of `s` passing `p`, and every passing element is kept. */
  lemma {:induction false} FilterMembers<T>(s: seq<T>, p: T -> bool)
    ensures forall i :: 0 <= i < |Filter(s, p)| ==> Filter(s, p)[i] in s && p(Filter(s, p)[i])
    ensures forall i :: 0 <= i < |s| && p(s[i]) ==> s[i] in Filter(s, p)
  {
    if s != [] {
      FilterMembers(s[1..], p);
      var head := if p(s[0]) then [s[0]] else [];
      var rest := Filter(s[1..], p);
      assert Filter(s, p) == head + rest;
      forall i | 0 <= i < |head + rest|
        ensures (head + rest)[i] in s && p((head + rest)[i])
      {
        if i >= |head| {
          assert (head + rest)[i] == rest[i - |head|];
        }
      }
      forall i | 0 <= i < |s| && p(s[i])
        ensures s[i] in head + rest
      {
        if i > 0 { assert s[i] == s[1..][i - 1]; }
      }
    }
  }

  /** The conjunction of two tests. */
  function Both<T>(p: T -> bool, q: T -> bool): T -> bool
  {
    x => p(x) && q(x)
  }

  /** The disjunction of two tests. */
  function Either<T>(p: T -> bool, q: T -> bool): T -> bool
  {
    x => p(x) || q(x)
  }

  /** Filtering a sequence with a given first element. */
  lemma FilterCons<T>(x: T, s: seq<T>, p: T -> bool)
    ensures Filter([x] + s, p) == (if p(x) then [x] else []) + Filter(s, p)
  {
    assert ([x] + s)[1..] == s;
  }

  /** `x` can be obtained from `s` by deleting elements (greedy matching). */
  predicate IsSubsequence<T(==)>(x: seq<T>, s: seq<T>)
  {
    if x == [] then true
    else if s == [] then false
    else if x[0] == s[0] then IsSubsequence(x[1..], s[1..])
    else IsSubsequence(x, s[1..])
  }

  /** The positions of `s` whose element satisfies `p`. */
  ghost function Positions<T>(s: seq<T>, p: T -> bool): set<int>
  {
    set i | 0 <= i < |s| && p(s[i])
  }

  lemma {:induction false} SubsequenceCons<T>(x: seq<T>, t: seq<T>, a: T)
    requires IsSubsequence(x, t)
    ensures IsSubsequence(x, [a] + t)
    decreases |t| + 1, 0
  {
    var s := [a] + t;
    assert s[1..] == t;
    if x != [] && x[0] == a {
      SubsequenceTail(x, t);
    }
  }

  lemma {:induction false} SubsequenceTail<T>(x: seq<T>, s: seq<T>)
    requires x != [] && IsSubsequence(x, s)
    ensures IsSubsequence(x[1..], s)
    decreases |s|, 1
  {
    assert s != [];
    if x[0] == s[0] {
      SubsequenceCons(x[1..], s[1..], s[0]);
    } else {
      SubsequenceTail(x, s[1..]);
      SubsequenceCons(x[1..], s[1..], s[0]);
    }
    assert [s[0]] + s[1..] == s;
  }

  /** Filtering keeps the relative order of the kept elements. */
  lemma {:induction false} FilterIsSubsequence<T>(s: seq<T>, p: T -> bool)
    ensures IsSubsequence(Filter(s, p), s)
  {
    if s != [] {
      FilterIsSubsequence(s[1..], p);
      var f := Filter(s[1..], p);
      if p(s[0]) {
        assert Filter(s, p) == [s[0]] + f;
        assert ([s[0]] + f)[1..] == f;
      } else {
        assert Filter(s, p) == f;
        SubsequenceCons(f, s[1..], s[0]);
        assert [s[0]] + s[1..] == s;
      }
    }
  }

  /** A filter that every element passes is the identity. */
  lemma {:induction false} FilterAll<T>(s: seq<T>, p: T -> bool)
    requires forall i :: 0 <= i < |s| ==> p(s[i])
    ensures Filter(s, p) == s
  {
    if s != [] {
      FilterAll(s[1..], p);
      assert [s[0]] + s[1..] == s;
    }
  }

  /** Filtering distributes over concatenation. */
  lemma {:induction false} FilterConcat<T>(a: seq<T>, b: seq<T>, p: T -> bool)
    ensures Filter(a + b, p) == Filter(a, p) + Filter(b, p)
  {
    if a == [] {
      assert a + b == b;
    } else {
      var head := if p(a[0]) then [a[0]] else [];
      assert (a + b)[0] == a[0];
      assert (a + b)[1..] == a[1..] + b;
      assert Filter(a + b, p) == head + Filter(a[1..] + b, p);
      FilterConcat(a[1..], b, p);
      assert Filter(a, p) == head + Filter(a[1..], p);
    }
  }

  /** Filters with the same verdict on every element of `s` agree on `s`. */
  lemma {:induction false} FilterExtensional<T>(s: seq<T>, p: T -> bool, q: T -> bool)
    requires forall i :: 0 <= i < |s| ==> p(s[i]) == q(s[i])
    ensures Filter(s, p) == Filter(s, q)
  {
    if s != [] {
      FilterExtensional(s[1..], p, q);
    }
  }

  /** Two filters in a row are one filter on the conjunction. */
  lemma {:induction false} FilterFuse<T>(s: seq<T>, p: T -> bool, q: T -> bool)
    ensures Filter(Filter(s, p), q) == Filter(s, Both(p, q))
  {
    if s != [] {
      FilterFuse(s[1..], p, q);
      var head := if p(s[0]) then [s[0]] else [];
      FilterConcat(head, Filter(s[1..], p), q);
    }
  }

  /** The length of a filter is the number of positions whose element passes it. */
  lemma {:induction false} FilterLengthIsPositionCount<T>(s: seq<T>, p: T -> bool)
    ensures |Filter(s, p)| == |Positions(s, p)|
    decreases |s|
  {
    if s == [] {
      assert Positions(s, p) == {};
    } else {
      var n := |s| - 1;
      var t, x := s[..n], s[n];
      assert s == t + [x];
      FilterConcat(t, [x], p);
      FilterLengthIsPositionCount(t, p);
      var extra: set<int> := if p(x) then {n} else {};
      assert Positions(s, p) == Positions(t, p) + extra by {
        forall i | i in Positions(s, p) ensures i in Positions(t, p) + extra {
          if i < n { assert s[i] == t[i]; }
        }
        forall i | i in Positions(t, p) ensures i in Positions(s, p) {
          assert s[i] == t[i];
        }
      }
      assert n !in Positions(t, p);
      assert |Positions(t, p) + extra| == |Positions(t, p)| + |extra|;
    }
  }

  /** Filters on mutually exclusive conditions split the filter on their disjunction. */
  lemma {:induction false} FilterDisjointLength<T>(s: seq<T>, p: T -> bool, q: T -> bool)
    requires forall i :: 0 <= i < |s| ==> !(p(s[i]) && q(s[i]))
    ensures |Filter(s, p)| + |Filter(s, q)| == |Filter(s, Either(p, q))|
  {
    if s != [] {
      FilterDisjointLength(s[1..], p, q);
    }
  }
}
