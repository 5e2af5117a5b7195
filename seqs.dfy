/** Sequence helpers for the Java stream pipelines (`filter`, `limit`) the assigner uses. */
module Seqs {

  /** `a` is `b` with some elements dropped, the rest in their original order. */
  predicate IsSubsequence<T(==)>(a: seq<T>, b: seq<T>)
    decreases |b|
  {
    |a| == 0 || (|b| > 0 && ((a[0] == b[0] && IsSubsequence(a[1..], b[1..])) || IsSubsequence(a, b[1..])))
  }

  /** `xs.stream().filter(keep)`. */
  function Filter<T>(xs: seq<T>, keep: T -> bool): (r: seq<T>)
    ensures |r| <= |xs|
  {
    if |xs| == 0 then [] else (if keep(xs[0]) then [xs[0]] else []) + Filter(xs[1..], keep)
  }

  /** The filtered sequence holds exactly the elements that are kept. */
  lemma {:induction false} FilterKeepsExactly<T>(xs: seq<T>, keep: T -> bool)
    ensures forall i :: 0 <= i < |Filter(xs, keep)| ==> Filter(xs, keep)[i] in xs && keep(Filter(xs, keep)[i])
    ensures forall i :: 0 <= i < |xs| && keep(xs[i]) ==> xs[i] in Filter(xs, keep)
  {
    if |xs| > 0 {
      FilterKeepsExactly(xs[1..], keep);
      var head := if keep(xs[0]) then [xs[0]] else [];
      assert Filter(xs, keep) == head + Filter(xs[1..], keep);
      forall i | 0 <= i < |xs| && keep(xs[i])
        ensures xs[i] in Filter(xs, keep)
      {
        if i > 0 {
          assert xs[i] == xs[1..][i - 1];
        }
      }
    }
  }

  /** Filtering with a test every element passes changes nothing. */
  lemma {:induction false} FilterKeepsAll<T>(xs: seq<T>, keep: T -> bool)
    requires forall i :: 0 <= i < |xs| ==> keep(xs[i])
    ensures Filter(xs, keep) == xs
  {
    if |xs| > 0 {
      assert forall i :: 0 <= i < |xs[1..]| ==> xs[1..][i] == xs[i + 1];
      FilterKeepsAll(xs[1..], keep);
      assert [xs[0]] + xs[1..] == xs;
    }
  }

  lemma {:induction false} FilterAppend<T>(a: seq<T>, b: seq<T>, keep: T -> bool)
    ensures Filter(a + b, keep) == Filter(a, keep) + Filter(b, keep)
  {
    if |a| > 0 {
      assert (a + b)[1..] == a[1..] + b;
      FilterAppend(a[1..], b, keep);
    } else {
      assert a + b == b;
    }
  }

  lemma {:induction false} FilterIsSubsequence<T>(xs: seq<T>, keep: T -> bool)
    ensures IsSubsequence(Filter(xs, keep), xs)
  {
    if |xs| > 0 {
      FilterIsSubsequence(xs[1..], keep);
      var r := Filter(xs, keep);
      if keep(xs[0]) {
        assert r[0] == xs[0] && r[1..] == Filter(xs[1..], keep);
      } else {
        assert r == Filter(xs[1..], keep);
      }
    }
  }

  lemma {:induction false} SubsequenceTransitive<T>(a: seq<T>, b: seq<T>, c: seq<T>)
    requires IsSubsequence(a, b) && IsSubsequence(b, c)
    ensures IsSubsequence(a, c)
    decreases |c|
  {
    if |a| > 0 {
      assert |c| > 0;
      if b[0] == c[0] && IsSubsequence(b[1..], c[1..]) {
        if a[0] == b[0] && IsSubsequence(a[1..], b[1..]) {
          SubsequenceTransitive(a[1..], b[1..], c[1..]);
        } else {
          SubsequenceTransitive(a, b[1..], c[1..]);
        }
      } else {
        SubsequenceTransitive(a, b, c[1..]);
      }
    }
  }

  lemma {:induction false} PrefixIsSubsequence<T>(xs: seq<T>, n: nat)
    requires n <= |xs|
    ensures IsSubsequence(xs[..n], xs)
  {
    if n > 0 {
      PrefixIsSubsequence(xs[1..], n - 1);
      assert xs[..n][1..] == xs[1..][..n - 1];
    }
  }

  /** `stream.limit(n)`: the first `n` elements, or all of them when there are fewer. */
  function Take<T>(xs: seq<T>, n: int): (r: seq<T>)
    ensures |r| == if n <= 0 then 0 else if n < |xs| then n else |xs|
    ensures r == xs[..|r|]
  {
    if n <= 0 then [] else if n < |xs| then xs[..n] else xs
  }

  /** The index of the first element satisfying `p`, or `|xs|` when there is none. */
  function FirstIndex<T>(xs: seq<T>, p: T -> bool): (k: nat)
    ensures k <= |xs|
  {
    if |xs| == 0 then 0
    else if p(xs[0]) then 0
    else 1 + FirstIndex(xs[1..], p)
  }

  lemma {:induction false} FirstIndexIsFirst<T>(xs: seq<T>, p: T -> bool)
    ensures forall j :: 0 <= j < FirstIndex(xs, p) ==> !p(xs[j])
    ensures FirstIndex(xs, p) < |xs| ==> p(xs[FirstIndex(xs, p)])
  {
    if |xs| > 0 && !p(xs[0]) {
      FirstIndexIsFirst(xs[1..], p);
      assert forall j :: 1 <= j < |xs| ==> xs[j] == xs[1..][j - 1];
    }
  }
}
