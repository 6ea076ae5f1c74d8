/** List comprehensions with a condition, `[x for x in s if keep(x)]`, and what
    they promise: the kept elements, each as often as in s, in their original order. */
module Seqs {

  /** r can be obtained from s by deleting elements: the order of r is the order in s. */
  ghost predicate IsSubsequence<T>(r: seq<T>, s: seq<T>)
    decreases |s|
  {
    r == [] || (s != [] && ((r[0] == s[0] && IsSubsequence(r[1..], s[1..])) || IsSubsequence(r, s[1..])))
  }

  /** `[x for x in s if keep(x)]` */
  function Filter<T>(s: seq<T>, keep: T -> bool): (r: seq<T>)
    ensures |r| <= |s|
  {
    if s == [] then []
    else (if keep(s[0]) then [s[0]] else []) + Filter(s[1..], keep)
  }

  /** The filter keeps exactly the elements that satisfy the condition. */
  lemma {:induction false} FilterMembers<T>(s: seq<T>, keep: T -> bool, x: T)
    ensures x in Filter(s, keep) <==> x in s && keep(x)
    decreases |s|
  {
    if s != [] {
      FilterMembers(s[1..], keep, x);
      assert x in s <==> x == s[0] || x in s[1..];
    }
  }

  /** The filter keeps the relative order of what it keeps. */
  lemma {:induction false} FilterIsSubsequence<T>(s: seq<T>, keep: T -> bool)
    ensures IsSubsequence(Filter(s, keep), s)
    decreases |s|
  {
    if s != [] {
      FilterIsSubsequence(s[1..], keep);
      var rest := Filter(s[1..], keep);
      if keep(s[0]) {
        assert Filter(s, keep) == [s[0]] + rest;
        assert ([s[0]] + rest)[1..] == rest;
      } else {
        assert Filter(s, keep) == rest;
      }
    }
  }

  /** Every kept element is kept as many times as it occurs; every other one is dropped. */
  lemma {:induction false} FilterCount<T>(s: seq<T>, keep: T -> bool, x: T)
    ensures multiset(Filter(s, keep))[x] == if keep(x) then multiset(s)[x] else 0
    decreases |s|
  {
    if s != [] {
      FilterCount(s[1..], keep, x);
      assert s == [s[0]] + s[1..];
      assert multiset(s) == multiset([s[0]]) + multiset(s[1..]);
    }
  }

  /** A filter whose condition holds everywhere keeps everything. */
  lemma {:induction false} FilterKeepsAll<T>(s: seq<T>, keep: T -> bool)
    requires forall k :: 0 <= k < |s| ==> keep(s[k])
    ensures Filter(s, keep) == s
    decreases |s|
  {
    if s != [] {
      FilterKeepsAll(s[1..], keep);
    }
  }

  /** Filtering a concatenation filters each part. */
  lemma {:induction false} FilterAppend<T>(s: seq<T>, t: seq<T>, keep: T -> bool)
    ensures Filter(s + t, keep) == Filter(s, keep) + Filter(t, keep)
    decreases |s|
  {
    if s == [] {
      assert s + t == t;
    } else {
      var head := if keep(s[0]) then [s[0]] else [];
      assert (s + t)[0] == s[0];
      assert (s + t)[1..] == s[1..] + t;
      assert Filter(s + t, keep) == head + Filter(s[1..] + t, keep);
      FilterAppend(s[1..], t, keep);
      assert Filter(s, keep) == head + Filter(s[1..], keep);
    }
  }

  /** The position of the first occurrence of x in s, or |s| when x does not occur. */
  function IndexOf<T(==)>(s: seq<T>, x: T): (i: nat)
    ensures i <= |s|
    ensures i < |s| <==> x in s
    ensures i < |s| ==> s[i] == x
    ensures x !in s[..i]
  {
    if s == [] then 0
    else if s[0] == x then 0
    else
      var i := 1 + IndexOf(s[1..], x);
      assert s[..i] == [s[0]] + s[1..][..i - 1];
      i
  }

  /** A sequence is the part before position k, the element at k, and the part after. */
  lemma SplitAt<T>(s: seq<T>, k: nat)
    requires k < |s|
    ensures s == (s[..k] + [s[k]]) + s[k + 1..]
  {
  }

  /** Everything the filter keeps comes from s and satisfies the condition. */
  lemma FilterKeepsOnly<T>(s: seq<T>, keep: T -> bool)
    ensures forall x :: x in Filter(s, keep) ==> x in s && keep(x)
  {
    forall x | x in Filter(s, keep)
      ensures x in s && keep(x)
    {
      FilterMembers(s, keep, x);
    }
  }

  /** The prefix one longer is the prefix with the next element after it. */
  lemma PrefixSnoc<T>(s: seq<T>, i: nat)
    requires i < |s|
    ensures s[..i + 1] == s[..i] + [s[i]]
  {
  }

  lemma AppendAssoc<T>(a: seq<T>, b: seq<T>, c: seq<T>)
    ensures (a + b) + c == a + (b + c)
  {
  }

  /** `[f(x) for x in s]` */
  function Map<T, U>(s: seq<T>, f: T -> U): (r: seq<U>)
    ensures |r| == |s|
    ensures forall k :: 0 <= k < |s| ==> r[k] == f(s[k])
  {
    seq(|s|, k requires 0 <= k < |s| => f(s[k]))
  }

  lemma MapAppend<T, U>(s: seq<T>, t: seq<T>, f: T -> U)
    ensures Map(s + t, f) == Map(s, f) + Map(t, f)
  {
  }

  /** Taking out the element at position j removes one occurrence of it. */
  lemma RemoveAt<T>(t: seq<T>, j: nat)
    requires j < |t|
    ensures multiset(t) == multiset(t[..j] + t[j + 1..]) + multiset{t[j]}
  {
    assert t == t[..j] + [t[j]] + t[j + 1..];
  }

  lemma Cancel<T>(a: multiset<T>, b: multiset<T>, x: T)
    requires a + multiset{x} == b + multiset{x}
    ensures a == b
  {
    assert a == (a + multiset{x}) - multiset{x};
    assert b == (b + multiset{x}) - multiset{x};
  }

  /** Removing an occurrence of the same element from two rearrangements of
      each other leaves two rearrangements of each other. */
  lemma RemoveMatching<T>(s: seq<T>, t: seq<T>, j: nat)
    requires s != [] && j < |t| && t[j] == s[0]
    requires multiset(s) == multiset(t)
    ensures multiset(s[1..]) == multiset(t[..j] + t[j + 1..])
  {
    RemoveAt(t, j);
    assert s == [s[0]] + s[1..];
    Cancel(multiset(s[1..]), multiset(t[..j] + t[j + 1..]), s[0]);
  }

  /** Mapping commutes with taking out the element at position j. */
  lemma MapRemoveAt<T, U>(t: seq<T>, j: nat, f: T -> U)
    requires j < |t|
    ensures multiset(Map(t, f)) == multiset(Map(t[..j] + t[j + 1..], f)) + multiset{f(t[j])}
  {
    var mt := Map(t, f);
    RemoveAt(mt, j);
    MapAppend(t[..j], t[j + 1..], f);
    assert mt[..j] + mt[j + 1..] == Map(t[..j] + t[j + 1..], f);
  }

  /** The last step of MapPermutation: put back the removed element on both sides. */
  lemma MapPutBack<T, U>(s: seq<T>, t: seq<T>, j: nat, f: T -> U)
    requires s != [] && j < |t| && t[j] == s[0]
    requires multiset(Map(s[1..], f)) == multiset(Map(t[..j] + t[j + 1..], f))
    ensures multiset(Map(s, f)) == multiset(Map(t, f))
  {
    var rest := multiset(Map(s[1..], f));
    assert multiset(Map(s, f)) == rest + multiset{f(s[0])} by {
      assert Map(s, f) == [f(s[0])] + Map(s[1..], f);
    }
    assert multiset(Map(t, f)) == rest + multiset{f(s[0])} by {
      MapRemoveAt(t, j, f);
    }
  }

  /** Mapping a rearrangement of s gives a rearrangement of the mapped s. */
  lemma {:induction false} MapPermutation<T, U>(s: seq<T>, t: seq<T>, f: T -> U)
    requires multiset(s) == multiset(t)
    ensures multiset(Map(s, f)) == multiset(Map(t, f))
    decreases |s|
  {
    if s == [] {
      assert |t| == |multiset(t)| == 0;
    } else {
      assert s[0] in multiset(t) by {
        assert s[0] in multiset(s);
      }
      var j :| 0 <= j < |t| && t[j] == s[0];
      RemoveMatching(s, t, j);
      MapPermutation(s[1..], t[..j] + t[j + 1..], f);
      MapPutBack(s, t, j, f);
    }
  }

  /** The multiset {1, ..., n}. */
  function Range(n: nat): multiset<int>
  {
    if n == 0 then multiset{} else Range(n - 1) + multiset{n}
  }

  /** Range(n) holds each of 1, ..., n once and nothing else. */
  lemma {:induction false} RangeCount(n: nat, x: int)
    ensures Range(n)[x] == if 1 <= x <= n then 1 else 0
  {
    if n > 0 {
      RangeCount(n - 1, x);
    }
  }

  /** An element found at two positions is counted at least twice. */
  lemma TwoOccurrences<T>(s: seq<T>, i: nat, j: nat)
    requires i < j < |s|
    ensures s[i] == s[j] ==> multiset(s)[s[i]] >= 2
  {
    assert s == s[..i] + [s[i]] + s[i + 1..j] + [s[j]] + s[j + 1..];
  }
}
