/**
  Row selection over sequences: the model of a dataframe's boolean-mask indexing (`df[mask]`),
  of element-wise column computations, and of "parse, then drop what failed".
*/
module Seqs {
  import opened Wrappers

  /** The elements of `xs` that satisfy `p`, in their original order (`df[df[...].apply(p)]`). */
  function Filter<T>(p: T -> bool, xs: seq<T>): (r: seq<T>)
    ensures |r| <= |xs|
    ensures forall i :: 0 <= i < |r| ==> p(r[i])
  {
    if xs == [] then []
    else if p(xs[0]) then [xs[0]] + Filter(p, xs[1..])
    else Filter(p, xs[1..])
  }

  /** Every kept element comes from `xs`, and every element of `xs` satisfying `p` is kept. */
  lemma {:induction false} FilterMembers<T>(p: T -> bool, xs: seq<T>)
    ensures forall i :: 0 <= i < |Filter(p, xs)| ==> Filter(p, xs)[i] in xs
    ensures forall i :: 0 <= i < |xs| && p(xs[i]) ==> xs[i] in Filter(p, xs)
  {
    if xs != [] {
      FilterMembers(p, xs[1..]);
      var r, rest := Filter(p, xs), Filter(p, xs[1..]);
      assert forall i :: 0 <= i < |rest| ==> rest[i] in xs by {
        forall i | 0 <= i < |rest| ensures rest[i] in xs {
          assert rest[i] in xs[1..];
        }
      }
      forall i | 0 <= i < |xs| && p(xs[i]) ensures xs[i] in r {
        if i > 0 {
          assert xs[i] == xs[1..][i - 1];
        }
      }
    }
  }

  /** An element-wise computation over all rows. */
  function Map<A, B>(f: A -> B, xs: seq<A>): seq<B>
  {
    seq(|xs|, i requires 0 <= i < |xs| => f(xs[i]))
  }

  /** The defined results of `f` over `xs`, in order: everything for which `f` fails is dropped. */
  function FilterMap<A, B>(f: A -> Option<B>, xs: seq<A>): seq<B>
  {
    if xs == [] then []
    else (match f(xs[0]) case Some(y) => [y] case None => []) + FilterMap(f, xs[1..])
  }

  /** `ys` can be obtained from `xs` by deleting elements, without reordering. */
  ghost predicate IsSubsequence<T>(ys: seq<T>, xs: seq<T>)
    decreases |xs|
  {
    ys == [] ||
    (xs != [] && ((ys[0] == xs[0] && IsSubsequence(ys[1..], xs[1..])) || IsSubsequence(ys, xs[1..])))
  }

  lemma {:induction false} FilterIsSubsequence<T>(p: T -> bool, xs: seq<T>)
    ensures IsSubsequence(Filter(p, xs), xs)
  {
    if xs != [] {
      FilterIsSubsequence(p, xs[1..]);
      if p(xs[0]) {
        assert Filter(p, xs)[1..] == Filter(p, xs[1..]);
      }
    }
  }

  /** Each element is kept exactly as often as it occurs in `xs` when it satisfies `p`, otherwise never. */
  lemma {:induction false} FilterCount<T>(p: T -> bool, xs: seq<T>, x: T)
    ensures multiset(Filter(p, xs))[x] == if p(x) then multiset(xs)[x] else 0
  {
    if xs != [] {
      FilterCount(p, xs[1..], x);
      assert xs == [xs[0]] + xs[1..];
    }
  }

  lemma {:induction false} FilterAppend<T>(p: T -> bool, a: seq<T>, b: seq<T>)
    ensures Filter(p, a + b) == Filter(p, a) + Filter(p, b)
  {
    if a == [] {
      assert a + b == b;
    } else {
      assert (a + b)[1..] == a[1..] + b;
      FilterAppend(p, a[1..], b);
    }
  }

  lemma {:induction false} FilterAll<T>(p: T -> bool, xs: seq<T>)
    requires forall i :: 0 <= i < |xs| ==> p(xs[i])
    ensures Filter(p, xs) == xs
  {
    if xs != [] {
      FilterAll(p, xs[1..]);
    }
  }

  lemma {:induction false} FilterNone<T>(p: T -> bool, xs: seq<T>)
    requires forall i :: 0 <= i < |xs| ==> !p(xs[i])
    ensures Filter(p, xs) == []
  {
    if xs != [] {
      FilterNone(p, xs[1..]);
    }
  }

  lemma FilterIdempotent<T>(p: T -> bool, xs: seq<T>)
    ensures Filter(p, Filter(p, xs)) == Filter(p, xs)
  {
    FilterAll(p, Filter(p, xs));
  }

  /** Two predicates that agree on the elements of `xs` select the same rows. */
  lemma {:induction false} FilterExt<T>(p: T -> bool, q: T -> bool, xs: seq<T>)
    requires forall i :: 0 <= i < |xs| ==> p(xs[i]) == q(xs[i])
    ensures Filter(p, xs) == Filter(q, xs)
  {
    if xs != [] {
      FilterExt(p, q, xs[1..]);
    }
  }

  /** Filtering by `p` and then by `q` is filtering once by their conjunction `r`. */
  lemma {:induction false} FilterConj<T>(p: T -> bool, q: T -> bool, r: T -> bool, xs: seq<T>)
    requires forall i :: 0 <= i < |xs| ==> r(xs[i]) == (p(xs[i]) && q(xs[i]))
    ensures Filter(q, Filter(p, xs)) == Filter(r, xs)
  {
    if xs != [] {
      FilterConj(p, q, r, xs[1..]);
    }
  }

  /** Complementary masks split `xs` into two parts that together hold every element exactly once. */
  lemma {:induction false} FilterPartition<T>(p: T -> bool, q: T -> bool, xs: seq<T>)
    requires forall i :: 0 <= i < |xs| ==> q(xs[i]) == !p(xs[i])
    ensures multiset(Filter(p, xs)) + multiset(Filter(q, xs)) == multiset(xs)
  {
    if xs != [] {
      FilterPartition(p, q, xs[1..]);
      assert xs == [xs[0]] + xs[1..];
    }
  }

  /** Selecting after an element-wise computation is selecting before it, with the composed mask. */
  lemma {:induction false} FilterMapCommute<A, B>(f: A -> B, p: B -> bool, q: A -> bool, xs: seq<A>)
    requires forall i :: 0 <= i < |xs| ==> q(xs[i]) == p(f(xs[i]))
    ensures Filter(p, Map(f, xs)) == Map(f, Filter(q, xs))
  {
    if xs != [] {
      var ys, kept := Map(f, xs), Filter(q, xs[1..]);
      assert ys[1..] == Map(f, xs[1..]);
      FilterMapCommute(f, p, q, xs[1..]);
      if q(xs[0]) {
        assert Filter(q, xs) == [xs[0]] + kept;
        assert Map(f, [xs[0]] + kept) == [f(xs[0])] + Map(f, kept);
      }
    }
  }

  /** An element-wise computation undone by `g` on every element of `xs` leaves `xs` unchanged. */
  lemma MapUndone<A, B>(f: A -> B, g: B -> A, xs: seq<A>)
    requires forall i :: 0 <= i < |xs| ==> g(f(xs[i])) == xs[i]
    ensures Map(g, Map(f, xs)) == xs
  {
  }

  lemma {:induction false} FilterMapAppend<A, B>(f: A -> Option<B>, a: seq<A>, b: seq<A>)
    ensures FilterMap(f, a + b) == FilterMap(f, a) + FilterMap(f, b)
  {
    if a == [] {
      assert a + b == b;
    } else {
      assert (a + b)[1..] == a[1..] + b;
      FilterMapAppend(f, a[1..], b);
    }
  }

  /**
    The results of FilterMap line up, one by one and in order, with the elements of `xs` on which
    `f` is defined (the subsequence `Filter(p, xs)`), and each is the value `f` gives for it.
  */
  lemma {:induction false} FilterMapIsFilter<A, B>(f: A -> Option<B>, p: A -> bool, xs: seq<A>)
    requires forall i :: 0 <= i < |xs| ==> p(xs[i]) == f(xs[i]).Some?
    ensures |FilterMap(f, xs)| == |Filter(p, xs)|
    ensures forall i :: 0 <= i < |Filter(p, xs)| ==> f(Filter(p, xs)[i]) == Some(FilterMap(f, xs)[i])
  {
    if xs != [] {
      FilterMapIsFilter(f, p, xs[1..]);
      var rest, kept := FilterMap(f, xs[1..]), Filter(p, xs[1..]);
      if p(xs[0]) {
        assert FilterMap(f, xs) == [f(xs[0]).value] + rest;
        assert Filter(p, xs) == [xs[0]] + kept;
        forall i | 0 <= i < |Filter(p, xs)|
          ensures f(Filter(p, xs)[i]) == Some(FilterMap(f, xs)[i])
        {
          if i > 0 {
            assert Filter(p, xs)[i] == kept[i - 1];
            assert FilterMap(f, xs)[i] == rest[i - 1];
          }
        }
      } else {
        assert FilterMap(f, xs) == rest;
      }
    }
  }
}
