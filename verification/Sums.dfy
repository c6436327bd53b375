/** Sums over lists, and what they do not depend on. */
module Sums {
  function Total<T>(s: seq<T>, weight: T -> int): int {
    if s == [] then 0 else Total(s[..|s| - 1], weight) + weight(s[|s| - 1])
  }

  lemma TotalAppend<T>(s: seq<T>, x: T, weight: T -> int)
    ensures Total(s + [x], weight) == Total(s, weight) + weight(x)
  {
    assert (s + [x])[..|s|] == s;
  }

  lemma {:induction false} TotalRemove<T>(s: seq<T>, i: nat, weight: T -> int)
    requires i < |s|
    ensures Total(s, weight) == Total(s[..i] + s[i + 1..], weight) + weight(s[i])
  {
    var n := |s| - 1;
    if i == n {
      assert s[..i] + s[i + 1..] == s[..n];
    } else {
      var rest := s[..n][..i] + s[..n][i + 1..];
      TotalRemove(s[..n], i, weight);
      assert s[..i] + s[i + 1..] == rest + [s[n]];
      TotalAppend(rest, s[n], weight);
    }
  }

  lemma TakeOne<T>(s: seq<T>, x: T) returns (i: nat)
    requires x in s
    ensures i < |s| && s[i] == x && multiset(s[..i] + s[i + 1..]) == multiset(s) - multiset{x}
  {
    i :| 0 <= i < |s| && s[i] == x;
    assert s == s[..i] + [s[i]] + s[i + 1..];
  }

  /** The last element of a list occurs in every rearrangement, and the rest rearranges the rest. */
  lemma TakeOut<T>(a: seq<T>, b: seq<T>) returns (i: nat)
    requires a != [] && multiset(a) == multiset(b)
    ensures i < |b| && b[i] == a[|a| - 1]
    ensures multiset(b[..i] + b[i + 1..]) == multiset(a[..|a| - 1])
  {
    var n := |a| - 1;
    assert a == a[..n] + [a[n]];
    assert a[n] in multiset(b);
    i := TakeOne(b, a[n]);
  }

  /** A sum does not depend on the order of its terms. */
  lemma {:induction false} TotalUnordered<T>(a: seq<T>, b: seq<T>, weight: T -> int)
    requires multiset(a) == multiset(b)
    ensures Total(a, weight) == Total(b, weight)
    decreases |a|
  {
    assert |a| == |multiset(a)| == |b|;
    if a != [] {
      var i := TakeOut(a, b);
      TotalUnordered(a[..|a| - 1], b[..i] + b[i + 1..], weight);
      TotalRemove(b, i, weight);
    }
  }

  // ------------------------------------------------------------ distinct keys

  ghost predicate DistinctBy<T, K>(s: seq<T>, key: T -> K) {
    forall i, j | 0 <= i < j < |s| :: key(s[i]) != key(s[j])
  }

  lemma {:induction false} CountOne<T, K>(t: seq<T>, key: T -> K, x: T)
    requires DistinctBy(t, key)
    ensures multiset(t)[x] == if x in t then 1 else 0
  {
    if t != [] {
      var n := |t| - 1;
      assert t == t[..n] + [t[n]];
      CountOne(t[..n], key, x);
      assert t[n] == x ==> x !in t[..n];
    }
  }

  /** Distinct keys stay distinct in every rearrangement. */
  lemma DistinctRearranged<T, K>(s: seq<T>, t: seq<T>, key: T -> K)
    requires multiset(s) == multiset(t) && DistinctBy(t, key)
    ensures DistinctBy(s, key)
  {
    forall i, j | 0 <= i < j < |s| ensures key(s[i]) != key(s[j]) {
      if key(s[i]) == key(s[j]) {
        assert s[i] in multiset(t) && s[j] in multiset(t);
        assert s[i] == s[j];
        assert s == s[..i] + [s[i]] + s[i + 1..j] + [s[j]] + s[j + 1..];
        assert multiset(s)[s[i]] >= 2;
        CountOne(t, key, s[i]);
      }
    }
  }
}
