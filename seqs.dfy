/** Sequence helpers shared by the reducers and registries that filter arrays
    with `array.filter(item => item !== x)`. */
module Seqs {

  /** `s.filter(y => y !== x)`: every occurrence of `x` removed. */
  function Without<T(==)>(s: seq<T>, x: T): (r: seq<T>)
    ensures x !in r
    ensures forall y | y in r :: y in s
    ensures forall i | 0 <= i < |s| :: s[i] != x ==> s[i] in r
    ensures |r| <= |s|
  {
    if s == [] then []
    else if s[0] == x then Without(s[1..], x)
    else [s[0]] + Without(s[1..], x)
  }

  /** Number of occurrences of `x` in `s`. */
  function Count<T(==)>(s: seq<T>, x: T): nat {
    if s == [] then 0 else (if s[0] == x then 1 else 0) + Count(s[1..], x)
  }

  /** `r` is obtained from `s` by deleting some elements: relative order is kept. */
  predicate Subsequence<T(==)>(r: seq<T>, s: seq<T>)
    decreases |s|
  {
    if r == [] then true
    else if s == [] then false
    else (r[0] == s[0] && Subsequence(r[1..], s[1..])) || Subsequence(r, s[1..])
  }

  /** Strictly increasing integer sequence. */
  predicate StrictlyIncreasing(s: seq<int>) {
    forall i, j :: 0 <= i < j < |s| ==> s[i] < s[j]
  }

  lemma AppendAssoc<T>(a: seq<T>, b: seq<T>, c: seq<T>)
    ensures a + b + c == a + (b + c)
  {
  }

  lemma {:induction false} WithoutIsSubsequence<T>(s: seq<T>, x: T)
    ensures Subsequence(Without(s, x), s)
  {
    if s != [] {
      WithoutIsSubsequence(s[1..], x);
      if s[0] != x {
        assert Without(s, x)[1..] == Without(s[1..], x);
      } else {
        SubsequenceOfTail(Without(s[1..], x), s);
      }
    }
  }

  lemma {:induction false} SubsequenceOfTail<T>(r: seq<T>, s: seq<T>)
    requires s != [] && Subsequence(r, s[1..])
    ensures Subsequence(r, s)
  {
  }

  /** Deleting occurrences keeps every other element's count. */
  lemma {:induction false} WithoutCount<T>(s: seq<T>, x: T, y: T)
    ensures Count(Without(s, x), y) == if y == x then 0 else Count(s, y)
  {
    if s != [] {
      WithoutCount(s[1..], x, y);
      if s[0] != x {
        assert Without(s, x)[1..] == Without(s[1..], x);
      }
    }
  }

  lemma {:induction false} WithoutAbsent<T>(s: seq<T>, x: T)
    requires x !in s
    ensures Without(s, x) == s
  {
    if s != [] {
      WithoutAbsent(s[1..], x);
    }
  }

  lemma {:induction false} WithoutAppend<T>(s: seq<T>, t: seq<T>, x: T)
    ensures Without(s + t, x) == Without(s, x) + Without(t, x)
  {
    if s != [] {
      assert (s + t)[1..] == s[1..] + t;
      WithoutAppend(s[1..], t, x);
    } else {
      assert s + t == t;
    }
  }

  /** Removing an element twice is the same as removing it once. */
  lemma WithoutIdempotent<T>(s: seq<T>, x: T)
    ensures Without(Without(s, x), x) == Without(s, x)
  {
    WithoutAbsent(Without(s, x), x);
  }

  /** A subsequence of a strictly increasing sequence is strictly increasing. */
  lemma {:induction false} SubsequenceIncreasing(r: seq<int>, s: seq<int>)
    requires Subsequence(r, s) && StrictlyIncreasing(s)
    ensures StrictlyIncreasing(r)
  {
    if r != [] && s != [] {
      if r[0] == s[0] && Subsequence(r[1..], s[1..]) {
        SubsequenceIncreasing(r[1..], s[1..]);
        SubsequenceElements(r[1..], s[1..]);
        forall i, j | 0 <= i < j < |r| ensures r[i] < r[j] {
          if i > 0 {
            assert r[i] == r[1..][i - 1] && r[j] == r[1..][j - 1];
          } else {
            assert r[j] == r[1..][j - 1];
            assert r[j] in s[1..];
          }
        }
      } else {
        SubsequenceIncreasing(r, s[1..]);
      }
    }
  }

  lemma {:induction false} SubsequenceElements<T>(r: seq<T>, s: seq<T>)
    requires Subsequence(r, s)
    ensures forall y | y in r :: y in s
    decreases |s|
  {
    if r != [] && s != [] {
      if r[0] == s[0] && Subsequence(r[1..], s[1..]) {
        SubsequenceElements(r[1..], s[1..]);
        forall y | y in r ensures y in s {
          if y != r[0] { assert y in r[1..]; }
        }
      } else {
        SubsequenceElements(r, s[1..]);
      }
    }
  }
}
