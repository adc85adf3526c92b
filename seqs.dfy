/** Order-preserving subsequences, used to say that a filter keeps the order of its input. */
module Seqs {

  /** `a` is `b` with some elements left out and the rest in their original order. */
  predicate IsSubsequence<T(==)>(a: seq<T>, b: seq<T>)
    decreases |b|
  {
    |a| == 0 || (|b| > 0 && ((a[0] == b[0] && IsSubsequence(a[1..], b[1..])) || IsSubsequence(a, b[1..])))
  }

  /** A prefix of a prefix is a prefix. */
  lemma PrefixOfPrefix<T>(a: seq<T>, b: seq<T>, c: seq<T>)
    requires |a| <= |b| <= |c| && b[..|a|] == a && c[..|b|] == b
    ensures c[..|a|] == a
  {
    assert c[..|a|] == c[..|b|][..|a|];
  }

  lemma {:induction false} SubsequenceOfTail<T>(a: seq<T>, b: seq<T>, x: T)
    requires IsSubsequence(a, b)
    ensures IsSubsequence(a, [x] + b)
  {
    assert ([x] + b)[1..] == b;
  }

  lemma {:induction false} SubsequenceCons<T>(a: seq<T>, b: seq<T>, x: T)
    requires IsSubsequence(a, b)
    ensures IsSubsequence([x] + a, [x] + b)
  {
    assert ([x] + a)[1..] == a;
    assert ([x] + b)[1..] == b;
  }

  /** The elements of a subsequence are elements of the sequence. */
  lemma {:induction false} SubsequenceMembers<T>(a: seq<T>, b: seq<T>)
    requires IsSubsequence(a, b)
    ensures forall x :: x in a ==> x in b
    decreases |b|
  {
    if |a| > 0 {
      if a[0] == b[0] && IsSubsequence(a[1..], b[1..]) {
        SubsequenceMembers(a[1..], b[1..]);
        assert forall x :: x in a ==> x == a[0] || x in a[1..];
      } else {
        SubsequenceMembers(a, b[1..]);
      }
    }
  }

  /** Appending the same element to both sides, kept or left out of the subsequence. */
  lemma {:induction false} SubsequenceAppend<T>(a: seq<T>, b: seq<T>, x: T, keep: bool)
    requires IsSubsequence(a, b)
    ensures IsSubsequence(if keep then a + [x] else a, b + [x])
    decreases |b|
  {
    if |b| == 0 {
      if keep {
        assert a == [];
        var e: seq<T> := [];
        assert IsSubsequence(e, e);
      }
    } else if |a| > 0 && a[0] == b[0] && IsSubsequence(a[1..], b[1..]) {
      SubsequenceAppend(a[1..], b[1..], x, keep);
      assert (b + [x])[1..] == b[1..] + [x];
      if keep { assert (a + [x])[1..] == a[1..] + [x]; }
    } else if |a| > 0 {
      SubsequenceAppend(a, b[1..], x, keep);
      assert (b + [x])[1..] == b[1..] + [x];
      if keep { assert (a + [x])[0] == a[0]; }
    } else {
      SubsequenceAppend(a, b[1..], x, keep);
      assert (b + [x])[1..] == b[1..] + [x];
      if keep {
        assert IsSubsequence([] + [x], b[1..] + [x]);
        assert [] + [x] == [x];
      }
    }
  }

  /** The first `n` elements of `s` that are `wanted`, in their order. */
  function KeepUpTo<T(==)>(s: seq<T>, n: nat, wanted: set<T>): (r: seq<T>)
    requires n <= |s|
    ensures |r| <= n
  {
    if n == 0 then []
    else KeepUpTo(s, n - 1, wanted) + if s[n - 1] in wanted then [s[n - 1]] else []
  }

  lemma {:induction false} KeepUpToMembers<T>(s: seq<T>, n: nat, wanted: set<T>, x: T)
    requires n <= |s|
    ensures x in KeepUpTo(s, n, wanted) <==> x in s[..n] && x in wanted
  {
    if n > 0 {
      KeepUpToMembers(s, n - 1, wanted, x);
      assert s[..n] == s[..n - 1] + [s[n - 1]];
    }
  }

  /** Filtering keeps the order of what it keeps. */
  lemma {:induction false} KeepUpToKeepsOrder<T>(s: seq<T>, n: nat, wanted: set<T>)
    requires n <= |s|
    ensures IsSubsequence(KeepUpTo(s, n, wanted), s[..n])
  {
    if n == 0 {
      assert IsSubsequence(s[..0], s[..0]);
    } else {
      var keep := s[n - 1] in wanted;
      KeepUpToKeepsOrder(s, n - 1, wanted);
      SubsequenceAppend(KeepUpTo(s, n - 1, wanted), s[..n - 1], s[n - 1], keep);
      assert KeepUpTo(s, n, wanted) == if keep then KeepUpTo(s, n - 1, wanted) + [s[n - 1]] else KeepUpTo(s, n - 1, wanted);
      assert s[..n - 1] + [s[n - 1]] == s[..n];
    }
  }

  /** Filters for two disjoint sets together keep at most every element once. */
  lemma {:induction false} KeepUpToDisjoint<T>(s: seq<T>, n: nat, a: set<T>, b: set<T>)
    requires n <= |s|
    requires a !! b
    ensures |KeepUpTo(s, n, a)| + |KeepUpTo(s, n, b)| <= n
  {
    if n > 0 {
      KeepUpToDisjoint(s, n - 1, a, b);
    }
  }
}
