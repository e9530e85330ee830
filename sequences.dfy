/** Sequence operations that both chat rooms use on their member lists:
    the `List<T>.Remove` and `Where(e => e != x)` of .NET, stated on Dafny
    sequences, with `IndexOf` as the position that specifies `Remove`. */
module Sequences {

  datatype Option<T> = None | Some(value: T)

  /** `a` can be obtained from `b` by deleting elements, so `a` keeps the order of `b`. */
  ghost predicate IsSubsequence<T>(a: seq<T>, b: seq<T>)
  {
    a == [] ||
    (b != [] &&
     ((a[0] == b[0] && IsSubsequence(a[1..], b[1..])) || IsSubsequence(a, b[1..])))
  }

  /** A subsequence of a subsequence is a subsequence. */
  lemma {:induction false} SubsequenceTransitive<T>(a: seq<T>, b: seq<T>, c: seq<T>)
    requires IsSubsequence(a, b) && IsSubsequence(b, c)
    ensures IsSubsequence(a, c)
    decreases |c|
  {
    if a != [] {
      if b[0] == c[0] && IsSubsequence(b[1..], c[1..]) {
        if a[0] == b[0] && IsSubsequence(a[1..], b[1..]) {
          SubsequenceTransitive(a[1..], b[1..], c[1..]);
        } else {
          SubsequenceTransitive(a, b[1..], c[1..]);
        }
      } else {
        SubsequenceTransitive(a, b, c[1..]);
      }
    }
  }

  /** The first position of `x` in `s`. */
  function IndexOf<T(==)>(s: seq<T>, x: T): (i: nat)
    requires x in s
    ensures i < |s| && s[i] == x
    ensures x !in s[..i]
  {
    if s[0] == x then 0
    else
      var j := IndexOf(s[1..], x);
      assert s[..j + 1] == [s[0]] + s[1..][..j];
      j + 1
  }

  /** `List<T>.Remove`: `s` with its first occurrence of `x` taken out,
      and `s` itself when `x` does not occur. */
  function RemoveFirst<T(==)>(s: seq<T>, x: T): (r: seq<T>)
    ensures x !in s ==> r == s
  {
    if s == [] then []
    else if s[0] == x then s[1..]
    else [s[0]] + RemoveFirst(s[1..], x)
  }

  /** When `x` occurs, `RemoveFirst` cuts `s` at its first position. */
  lemma {:induction false} RemoveFirstCutsAtIndex<T>(s: seq<T>, x: T)
    ensures x in s ==> RemoveFirst(s, x) == s[..IndexOf(s, x)] + s[IndexOf(s, x) + 1..]
  {
    if s != [] && s[0] != x {
      assert s == [s[0]] + s[1..];
      RemoveFirstCutsAtIndex(s[1..], x);
      if x in s {
        var j := IndexOf(s[1..], x);
        assert IndexOf(s, x) == j + 1;
        assert s[..j + 1] == [s[0]] + s[1..][..j];
        assert s[j + 2..] == s[1..][j + 1..];
      }
    }
  }

  /** `RemoveFirst` takes out exactly one copy of `x` when there is one, and nothing else. */
  lemma {:induction false} RemoveFirstCounts<T>(s: seq<T>, x: T)
    ensures multiset(RemoveFirst(s, x)) == multiset(s)[x := if x in s then multiset(s)[x] - 1 else 0]
  {
    if s != [] {
      assert s == [s[0]] + s[1..];
      if s[0] != x {
        RemoveFirstCounts(s[1..], x);
        var m := multiset(s[1..]);
        assert multiset(RemoveFirst(s, x)) == multiset{s[0]} + m[x := if x in s[1..] then m[x] - 1 else 0];
      }
    }
  }

  /** `s.Where(e => e != x)`: every element of `s` other than `x`, in the order of `s`. */
  function Without<T(==)>(s: seq<T>, x: T): (r: seq<T>)
    ensures x !in r
  {
    if s == [] then []
    else if s[0] == x then Without(s[1..], x)
    else [s[0]] + Without(s[1..], x)
  }

  /** `Without` keeps every copy of every other element, in order. */
  lemma {:induction false} WithoutKeepsOthers<T>(s: seq<T>, x: T)
    ensures multiset(Without(s, x)) == multiset(s)[x := 0]
    ensures IsSubsequence(Without(s, x), s)
  {
    if s != [] {
      assert s == [s[0]] + s[1..];
      WithoutKeepsOthers(s[1..], x);
      var rest := Without(s[1..], x);
      if s[0] != x {
        assert ([s[0]] + rest)[1..] == rest;
      }
    }
  }

  /** Filtering a concatenation filters each part: what lets a loop build `Without` one element at a time. */
  lemma {:induction false} WithoutAppend<T>(a: seq<T>, b: seq<T>, x: T)
    ensures Without(a + b, x) == Without(a, x) + Without(b, x)
  {
    if a != [] {
      assert (a + b)[0] == a[0] && (a + b)[1..] == a[1..] + b;
      WithoutAppend(a[1..], b, x);
      if a[0] != x {
        calc {
          Without(a + b, x);
          [a[0]] + Without(a[1..] + b, x);
          [a[0]] + (Without(a[1..], x) + Without(b, x));
          ([a[0]] + Without(a[1..], x)) + Without(b, x);
        }
      } else {
        assert Without(a + b, x) == Without(a[1..] + b, x);
      }
    } else {
      assert a + b == b;
    }
  }

  /** Filtering one more element at the end: the step of a loop that builds `Without`. */
  lemma WithoutSnoc<T>(s: seq<T>, y: T, x: T)
    ensures Without(s + [y], x) == Without(s, x) + (if y == x then [] else [y])
  {
    WithoutAppend(s, [y], x);
    assert Without([y], x) == if y == x then [] else [y];
  }

  /** `s` after `k` successive `RemoveFirst(_, x)`. */
  function RemoveTimes<T(==)>(s: seq<T>, x: T, k: nat): seq<T>
  {
    if k == 0 then s else RemoveFirst(RemoveTimes(s, x, k - 1), x)
  }

  /** `RemoveTimes` takes out up to `k` copies of `x` and nothing else. */
  lemma {:induction false} RemoveTimesCounts<T>(s: seq<T>, x: T, k: nat)
    ensures multiset(RemoveTimes(s, x, k))[x] == if multiset(s)[x] <= k then 0 else multiset(s)[x] - k
    ensures forall y | y != x :: multiset(RemoveTimes(s, x, k))[y] == multiset(s)[y]
  {
    if k > 0 {
      var before := RemoveTimes(s, x, k - 1);
      RemoveTimesCounts(s, x, k - 1);
      RemoveFirstCounts(before, x);
      assert x in before <==> multiset(before)[x] > 0;
    }
  }

  /** Once `k` covers every occurrence, `x` is gone. */
  lemma RemoveTimesAll<T>(s: seq<T>, x: T, k: nat)
    requires multiset(s)[x] <= k
    ensures x !in RemoveTimes(s, x, k)
  {
    RemoveTimesCounts(s, x, k);
    assert multiset(RemoveTimes(s, x, k))[x] == 0;
  }
}
