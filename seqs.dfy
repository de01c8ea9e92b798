/** Optional values and a few list combinators the extractor is described with. */
module Seqs {

  datatype Option<+T> = None | Some(value: T)

  /** The elements of `xs` that satisfy `p`, in order (Python's list comprehension with a guard). */
  function Filter<T>(p: T -> bool, xs: seq<T>): (r: seq<T>)
    ensures |r| <= |xs|
    decreases |xs|
  {
    if xs == [] then []
    else Filter(p, xs[..|xs| - 1]) + (if p(xs[|xs| - 1]) then [xs[|xs| - 1]] else [])
  }

  /** The elements of `xs` that do not satisfy `p`, in order. */
  function Reject<T>(p: T -> bool, xs: seq<T>): (r: seq<T>)
    ensures |r| <= |xs|
    decreases |xs|
  {
    if xs == [] then []
    else Reject(p, xs[..|xs| - 1]) + (if p(xs[|xs| - 1]) then [] else [xs[|xs| - 1]])
  }

  /** The last element of `xs` that satisfies `p`, or `d` when there is none. */
  function LastOr<T>(p: T -> bool, xs: seq<T>, d: T): (r: T)
    ensures r == d || (r in xs && p(r))
    decreases |xs|
  {
    if xs == [] then d
    else if p(xs[|xs| - 1]) then xs[|xs| - 1]
    else LastOr(p, xs[..|xs| - 1], d)
  }

  /** The concatenation of a list of lists. */
  function Flatten<T>(xss: seq<seq<T>>): seq<T>
    decreases |xss|
  {
    if xss == [] then [] else xss[0] + Flatten(xss[1..])
  }

  /** `xs` is obtained from `ys` by deleting some elements. */
  predicate IsSubsequence<T(==)>(xs: seq<T>, ys: seq<T>)
    decreases |ys|
  {
    if xs == [] then true
    else if ys == [] then false
    else if xs[|xs| - 1] == ys[|ys| - 1] then IsSubsequence(xs[..|xs| - 1], ys[..|ys| - 1])
    else IsSubsequence(xs, ys[..|ys| - 1])
  }

  /** No element occurs twice. */
  predicate NoDuplicates<T(==)>(xs: seq<T>) {
    forall i, j :: 0 <= i < j < |xs| ==> xs[i] != xs[j]
  }

  lemma FilterAppend<T>(p: T -> bool, xs: seq<T>, ys: seq<T>)
    ensures Filter(p, xs + ys) == Filter(p, xs) + Filter(p, ys)
    decreases |ys|
  {
    if ys == [] {
      assert xs + ys == xs;
    } else {
      assert (xs + ys)[..|xs + ys| - 1] == xs + ys[..|ys| - 1];
      FilterAppend(p, xs, ys[..|ys| - 1]);
    }
  }

  lemma RejectAppend<T>(p: T -> bool, xs: seq<T>, ys: seq<T>)
    ensures Reject(p, xs + ys) == Reject(p, xs) + Reject(p, ys)
    decreases |ys|
  {
    if ys == [] {
      assert xs + ys == xs;
    } else {
      assert (xs + ys)[..|xs + ys| - 1] == xs + ys[..|ys| - 1];
      RejectAppend(p, xs, ys[..|ys| - 1]);
    }
  }

  /** Filtering a list keeps a subsequence of it. */
  lemma {:induction false} FilterIsSubsequence<T>(p: T -> bool, xs: seq<T>)
    ensures IsSubsequence(Filter(p, xs), xs)
    decreases |xs|
  {
    if xs != [] {
      var init, last := xs[..|xs| - 1], xs[|xs| - 1];
      FilterIsSubsequence(p, init);
      var f := Filter(p, xs);
      if p(last) {
        assert f == Filter(p, init) + [last];
        assert f[|f| - 1] == xs[|xs| - 1];
        assert f[..|f| - 1] == Filter(p, init);
      } else {
        assert f == Filter(p, init);
        SubsequenceAppend(f, init, last);
        assert init + [last] == xs;
      }
    }
  }

  lemma {:induction false} SubsequenceDropLast<T>(xs: seq<T>, ys: seq<T>)
    requires xs != [] && IsSubsequence(xs, ys)
    ensures IsSubsequence(xs[..|xs| - 1], ys)
    decreases |ys|, 0
  {
    var init := xs[..|xs| - 1];
    if ys != [] {
      if xs[|xs| - 1] == ys[|ys| - 1] {
        SubsequenceAppend(init, ys[..|ys| - 1], ys[|ys| - 1]);
        assert ys[..|ys| - 1] + [ys[|ys| - 1]] == ys;
      } else {
        SubsequenceDropLast(xs, ys[..|ys| - 1]);
        SubsequenceAppend(init, ys[..|ys| - 1], ys[|ys| - 1]);
        assert ys[..|ys| - 1] + [ys[|ys| - 1]] == ys;
      }
    }
  }

  /** Extending the larger list keeps the subsequence relation. */
  lemma {:induction false} SubsequenceAppend<T>(xs: seq<T>, ys: seq<T>, y: T)
    requires IsSubsequence(xs, ys)
    ensures IsSubsequence(xs, ys + [y])
    decreases |ys|, 1
  {
    var zs := ys + [y];
    assert zs[..|zs| - 1] == ys;
    if xs != [] && xs[|xs| - 1] == y {
      SubsequenceDropLast(xs, ys);
    }
  }

  /** A filter of a duplicate-free list is duplicate-free. */
  lemma {:induction false} FilterNoDuplicates<T>(p: T -> bool, xs: seq<T>)
    requires NoDuplicates(xs)
    ensures NoDuplicates(Filter(p, xs))
    decreases |xs|
  {
    if xs != [] {
      var init := xs[..|xs| - 1];
      var last := xs[|xs| - 1];
      assert forall i, j :: 0 <= i < j < |init| ==> init[i] == xs[i] && init[j] == xs[j];
      FilterNoDuplicates(p, init);
      forall k | 0 <= k < |init| ensures init[k] != last {
        assert init[k] == xs[k];
      }
      InFilter(p, init, last);
    }
  }

  /** Membership in a filter. */
  lemma {:induction false} InFilter<T>(p: T -> bool, xs: seq<T>, x: T)
    ensures x in Filter(p, xs) <==> x in xs && p(x)
    decreases |xs|
  {
    if xs != [] {
      var init := xs[..|xs| - 1];
      InFilter(p, init, x);
      assert xs == init + [xs[|xs| - 1]];
    }
  }

  /** Membership in the complement of a filter. */
  lemma {:induction false} InReject<T>(p: T -> bool, xs: seq<T>, x: T)
    ensures x in Reject(p, xs) <==> x in xs && !p(x)
    decreases |xs|
  {
    if xs != [] {
      var init := xs[..|xs| - 1];
      InReject(p, init, x);
      assert xs == init + [xs[|xs| - 1]];
    }
  }

  /** A non-empty list is its first element followed by the rest. */
  lemma SplitFirst<T>(ys: seq<T>)
    requires ys != []
    ensures ys == [ys[0]] + ys[1..]
  {
  }

  /** Moving the first element of `ys` to the end of `xs` keeps the concatenation. */
  lemma MoveFirst<T>(xs: seq<T>, ys: seq<T>)
    requires ys != []
    ensures (xs + [ys[0]]) + ys[1..] == xs + ys
  {
    SplitFirst(ys);
  }

  /** Dropping `n + 1` elements of `[x] + ys` drops `n` of `ys`. */
  lemma DropCons<T>(x: T, ys: seq<T>, n: nat)
    requires n <= |ys|
    ensures ([x] + ys)[n + 1..] == ys[n..]
  {
  }

  /** A list is what comes before index `r`, the element at `r`, and what follows. */
  lemma SplitAround<T>(ys: seq<T>, r: nat)
    requires r < |ys|
    ensures ys == (ys[..r] + [ys[r]]) + ys[r + 1..]
  {
  }

  lemma FilterSingle<T>(p: T -> bool, x: T)
    ensures Filter(p, [x]) == (if p(x) then [x] else [])
    ensures Reject(p, [x]) == (if p(x) then [] else [x])
  {
    assert [x][..0] == [];
  }

  lemma AppendAssoc<T>(xs: seq<T>, ys: seq<T>, zs: seq<T>)
    ensures (xs + ys) + zs == xs + (ys + zs)
  {
  }
}
