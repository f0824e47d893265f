/**
  The array operations the core is built from: `Array.prototype.filter`
  (Select), and the `slice(0, n)` / `slice(n)` pair that caps a list.
 */
module Lists {

  /** `s.filter(keep)`: the elements that pass `keep`, in their original order. */
  function Select<T>(s: seq<T>, keep: T -> bool): (r: seq<T>)
    ensures |r| <= |s|
    ensures forall x :: x in r ==> x in s && keep(x)
  {
    if s == [] then []
    else (if keep(s[0]) then [s[0]] else []) + Select(s[1..], keep)
  }

  /** An element is kept exactly when it is in the input and passes the test. */
  lemma {:induction false} SelectMembers<T>(s: seq<T>, keep: T -> bool, x: T)
    ensures x in Select(s, keep) <==> x in s && keep(x)
  {
    if s != [] {
      SelectMembers(s[1..], keep, x);
      assert s == [s[0]] + s[1..];
    }
  }

  /** Each element occurs in the filtered list as often as in the input when it passes, and not at all otherwise. */
  lemma {:induction false} SelectCount<T>(s: seq<T>, keep: T -> bool, x: T)
    ensures multiset(Select(s, keep))[x] == if keep(x) then multiset(s)[x] else 0
  {
    if s != [] {
      SelectCount(s[1..], keep, x);
      assert s == [s[0]] + s[1..];
    }
  }

  /** Filtering a concatenation filters each part: the relative order of the survivors is the input's. */
  lemma {:induction false} SelectAppend<T>(a: seq<T>, b: seq<T>, keep: T -> bool)
    ensures Select(a + b, keep) == Select(a, keep) + Select(b, keep)
  {
    if a == [] {
      assert a + b == b;
    } else {
      assert (a + b)[1..] == a[1..] + b;
      SelectAppend(a[1..], b, keep);
    }
  }

  /** When every element passes, the filter returns the input unchanged. */
  lemma {:induction false} SelectAll<T>(s: seq<T>, keep: T -> bool)
    requires forall i :: 0 <= i < |s| ==> keep(s[i])
    ensures Select(s, keep) == s
  {
    if s != [] {
      SelectAll(s[1..], keep);
    }
  }

  /** When no element passes, the filter returns the empty list. */
  lemma {:induction false} SelectNone<T>(s: seq<T>, keep: T -> bool)
    requires forall i :: 0 <= i < |s| ==> !keep(s[i])
    ensures Select(s, keep) == []
  {
    if s != [] {
      SelectNone(s[1..], keep);
    }
  }

  /** Two tests that agree on every element filter the same way. */
  lemma {:induction false} SelectSameTest<T>(s: seq<T>, p: T -> bool, q: T -> bool)
    requires forall i :: 0 <= i < |s| ==> p(s[i]) == q(s[i])
    ensures Select(s, p) == Select(s, q)
  {
    if s != [] {
      SelectSameTest(s[1..], p, q);
    }
  }

  /** Filtering a filtered list again with the same test changes nothing. */
  lemma SelectIdempotent<T>(s: seq<T>, keep: T -> bool)
    ensures Select(Select(s, keep), keep) == Select(s, keep)
  {
    var r := Select(s, keep);
    assert forall i :: 0 <= i < |r| ==> keep(r[i]) by {
      forall i | 0 <= i < |r| ensures keep(r[i]) {
        assert r[i] in r;
      }
    }
    SelectAll(r, keep);
  }

  /** `a` is `b` with some elements left out, the rest in the same order. */
  ghost predicate IsSubsequence<T>(a: seq<T>, b: seq<T>)
    decreases |b|
  {
    if a == [] then true
    else if b == [] then false
    else if a[0] == b[0] then IsSubsequence(a[1..], b[1..])
    else IsSubsequence(a, b[1..])
  }

  /** The filter keeps an order-preserving subsequence of its input. */
  lemma {:induction false} SelectIsSubsequence<T>(s: seq<T>, keep: T -> bool)
    ensures IsSubsequence(Select(s, keep), s)
  {
    if s != [] {
      var rest := Select(s[1..], keep);
      SelectIsSubsequence(s[1..], keep);
      if keep(s[0]) {
        assert Select(s, keep) == [s[0]] + rest;
        assert ([s[0]] + rest)[1..] == rest;
      } else {
        assert Select(s, keep) == rest;
        SkipHead(rest, s);
      }
    }
  }

  /** A subsequence of the tail is a subsequence of the whole list. */
  lemma {:induction false} SkipHead<T>(a: seq<T>, b: seq<T>)
    requires b != [] && IsSubsequence(a, b[1..])
    ensures IsSubsequence(a, b)
    decreases |a| + |b|
  {
    if a != [] && a[0] == b[0] {
      SubsequenceOfTail(a, b[1..]);
    }
  }

  /** Dropping the head of a non-empty subsequence keeps it a subsequence. */
  lemma {:induction false} SubsequenceOfTail<T>(a: seq<T>, b: seq<T>)
    requires a != [] && IsSubsequence(a, b)
    ensures IsSubsequence(a[1..], b)
    decreases |a| + |b|
  {
    assert b != [];
    if a[0] == b[0] {
      SkipHead(a[1..], b);
    } else {
      SubsequenceOfTail(a, b[1..]);
      SkipHead(a[1..], b);
    }
  }

  /** No two elements of `s` share a key. */
  ghost predicate AllDistinct<T, K>(s: seq<T>, key: T -> K) {
    s == [] || ((forall x :: x in s[1..] ==> key(x) != key(s[0])) && AllDistinct(s[1..], key))
  }

  /** In a list without repeated keys, two different positions hold different keys. */
  lemma {:induction false} DistinctAt<T, K>(s: seq<T>, key: T -> K, i: nat, j: nat)
    requires AllDistinct(s, key) && i < j < |s|
    ensures key(s[i]) != key(s[j])
  {
    if i == 0 {
      assert s[j] == s[1..][j - 1];
    } else {
      DistinctAt(s[1..], key, i - 1, j - 1);
    }
  }

  /** Filtering never introduces a repeated key. */
  lemma {:induction false} SelectKeepsDistinct<T, K>(s: seq<T>, keep: T -> bool, key: T -> K)
    requires AllDistinct(s, key)
    ensures AllDistinct(Select(s, keep), key)
  {
    if s != [] {
      SelectKeepsDistinct(s[1..], keep, key);
      var rest := Select(s[1..], keep);
      if keep(s[0]) {
        assert Select(s, keep) == [s[0]] + rest;
        assert ([s[0]] + rest)[1..] == rest;
        forall x | x in rest ensures key(x) != key(s[0]) {
          assert x in s[1..];
        }
        assert AllDistinct([s[0]] + rest, key);
      } else {
        assert Select(s, keep) == rest;
      }
    }
  }

  /** The first `n` elements, when there are more than `n` (`list.slice(0, n)`). */
  function Truncate<T>(s: seq<T>, n: nat): (r: seq<T>)
    ensures |r| <= n && r <= s
    ensures |s| <= n ==> r == s
    ensures |s| > n ==> |r| == n
  {
    if |s| > n then s[..n] else s
  }

  /** What `Truncate` cuts off (`list.slice(n)`, taken only when the list is longer than `n`). */
  function Overflow<T>(s: seq<T>, n: nat): (r: seq<T>)
    ensures Truncate(s, n) + r == s
    ensures |s| <= n ==> r == []
  {
    if |s| > n then s[n..] else []
  }
}
