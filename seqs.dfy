/** Order-preserving filtering of sequences, used wherever the application
  * keeps the elements of a list that satisfy a test. */
module Seqs {

  function Filter<T>(s: seq<T>, p: T -> bool): (r: seq<T>)
    ensures |r| <= |s|
  {
    if s == [] then [] else (if p(s[0]) then [s[0]] else []) + Filter(s[1..], p)
  }

  /** The positions `i` and after whose element passes `p`, in increasing order. */
  function PositionsFrom<T>(s: seq<T>, p: T -> bool, i: nat): (idx: seq<int>)
    requires i <= |s|
    ensures forall k :: 0 <= k < |idx| ==> i <= idx[k] < |s|
    ensures forall k, l :: 0 <= k < l < |idx| ==> idx[k] < idx[l]
    decreases |s| - i
  {
    if i == |s| then [] else (if p(s[i]) then [i] else []) + PositionsFrom(s, p, i + 1)
  }

  /** The positions of `s` whose element passes `p`: increasing, so the
    * order of the input is kept. */
  function Positions<T>(s: seq<T>, p: T -> bool): (idx: seq<int>)
    ensures forall k :: 0 <= k < |idx| ==> 0 <= idx[k] < |s|
    ensures forall k, l :: 0 <= k < l < |idx| ==> idx[k] < idx[l]
  {
    PositionsFrom(s, p, 0)
  }

  /** Filtering a suffix looks at its first element, then at the rest. */
  lemma FilterSuffixStep<T>(s: seq<T>, p: T -> bool, i: nat)
    requires i < |s|
    ensures Filter(s[i..], p) == (if p(s[i]) then [s[i]] else []) + Filter(s[i + 1..], p)
  {
    assert s[i..][1..] == s[i + 1..];
  }

  lemma {:induction false} FilterAtPositionsFrom<T>(s: seq<T>, p: T -> bool, i: nat, k: int)
    requires i <= |s|
    ensures |PositionsFrom(s, p, i)| == |Filter(s[i..], p)|
    ensures 0 <= k < |PositionsFrom(s, p, i)| ==> Filter(s[i..], p)[k] == s[PositionsFrom(s, p, i)[k]]
    decreases |s| - i
  {
    if i < |s| {
      var rest := PositionsFrom(s, p, i + 1);
      var r1 := Filter(s[i + 1..], p);
      FilterSuffixStep(s, p, i);
      if p(s[i]) {
        FilterAtPositionsFrom(s, p, i + 1, k - 1);
        assert PositionsFrom(s, p, i) == [i] + rest;
        assert Filter(s[i..], p) == [s[i]] + r1;
      } else {
        FilterAtPositionsFrom(s, p, i + 1, k);
        assert PositionsFrom(s, p, i) == rest;
      }
    }
  }

  /** The filtered list reads the input at the listed positions. */
  lemma FilterAtPositions<T>(s: seq<T>, p: T -> bool, k: int)
    ensures |Positions(s, p)| == |Filter(s, p)|
    ensures 0 <= k < |Positions(s, p)| ==> Filter(s, p)[k] == s[Positions(s, p)[k]]
  {
    FilterAtPositionsFrom(s, p, 0, k);
    assert s[0..] == s;
  }

  lemma {:induction false} PositionsCompleteFrom<T>(s: seq<T>, p: T -> bool, i: nat, j: int)
    requires i <= j < |s|
    ensures p(s[j]) <==> j in PositionsFrom(s, p, i)
    decreases |s| - i
  {
    var rest := PositionsFrom(s, p, i + 1);
    assert PositionsFrom(s, p, i) == (if p(s[i]) then [i] else []) + rest;
    if j > i {
      PositionsCompleteFrom(s, p, i + 1, j);
    } else {
      assert i !in rest;
    }
  }

  /** A position is listed iff the element there passes the test. */
  lemma PositionsComplete<T>(s: seq<T>, p: T -> bool, j: int)
    requires 0 <= j < |s|
    ensures p(s[j]) <==> j in Positions(s, p)
  {
    PositionsCompleteFrom(s, p, 0, j);
  }

  /** An element is kept iff it occurs in the input and passes the test. */
  lemma {:induction false} FilterMembership<T>(s: seq<T>, p: T -> bool, x: T)
    ensures x in Filter(s, p) <==> x in s && p(x)
  {
    if s != [] {
      FilterMembership(s[1..], p, x);
      assert x in s <==> x == s[0] || x in s[1..];
    }
  }

  /** Filtering distributes over concatenation. */
  lemma {:induction false} FilterAppend<T>(a: seq<T>, b: seq<T>, p: T -> bool)
    ensures Filter(a + b, p) == Filter(a, p) + Filter(b, p)
  {
    if a == [] {
      assert a + b == b;
    } else {
      var head := if p(a[0]) then [a[0]] else [];
      assert (a + b)[0] == a[0] && (a + b)[1..] == a[1..] + b;
      FilterAppend(a[1..], b, p);
      assert Filter(a + b, p) == head + (Filter(a[1..], p) + Filter(b, p));
      assert Filter(a, p) == head + Filter(a[1..], p);
    }
  }

  /** The kept elements keep their multiplicities. */
  lemma {:induction false} FilterMultiset<T>(s: seq<T>, p: T -> bool, x: T)
    ensures multiset(Filter(s, p))[x] == if p(x) then multiset(s)[x] else 0
  {
    if s != [] {
      FilterMultiset(s[1..], p, x);
      assert s == [s[0]] + s[1..];
    }
  }
}
