/** sort.Slice: what it guarantees, an implementation, and when its result is the only one possible. */
module Sorting {
  /** `before` is a strict order in which elements may tie. */
  ghost predicate StrictWeak<T(!new)>(before: (T, T) -> bool) {
    && (forall x, y :: !(before(x, y) && before(y, x)))
    && (forall x, y, z :: !before(y, x) && !before(z, y) ==> !before(z, x))
  }

  ghost predicate Sorted<T>(s: seq<T>, before: (T, T) -> bool) {
    forall i, j | 0 <= i < j < |s| :: !before(s[j], s[i])
  }

  ghost predicate NoTies<T>(s: seq<T>, before: (T, T) -> bool) {
    forall i, j | 0 <= i < j < |s| :: before(s[i], s[j]) || before(s[j], s[i])
  }

  /** What sort.Slice guarantees: the order of ties is left open. */
  ghost predicate SortedFrom<T>(sorted: seq<T>, s: seq<T>, before: (T, T) -> bool) {
    Sorted(sorted, before) && multiset(sorted) == multiset(s)
  }

  function Insert<T>(x: T, s: seq<T>, before: (T, T) -> bool): seq<T> {
    if s == [] then [x]
    else if before(s[0], x) then [s[0]] + Insert(x, s[1..], before)
    else [x] + s
  }

  lemma {:induction false} InsertKeeps<T>(x: T, s: seq<T>, before: (T, T) -> bool)
    ensures multiset(Insert(x, s, before)) == multiset(s) + multiset{x}
  {
    if s != [] && before(s[0], x) {
      InsertKeeps(x, s[1..], before);
      assert s == [s[0]] + s[1..];
    }
  }

  lemma {:induction false} InsertSorted<T(!new)>(x: T, s: seq<T>, before: (T, T) -> bool)
    requires StrictWeak(before) && Sorted(s, before)
    ensures Sorted(Insert(x, s, before), before)
  {
    if s != [] && before(s[0], x) {
      var rest := Insert(x, s[1..], before);
      InsertSorted(x, s[1..], before);
      InsertKeeps(x, s[1..], before);
      forall j | 0 <= j < |rest| ensures !before(rest[j], s[0]) {
        assert rest[j] in multiset(rest);
        assert rest[j] == x || rest[j] in s[1..];
      }
    } else {
      forall j | 0 <= j < |s| ensures !before(s[j], x) {
        assert !before(s[0], s[0]);
      }
    }
  }

  function Arranged<T>(s: seq<T>, before: (T, T) -> bool): seq<T> {
    if s == [] then [] else Insert(s[|s| - 1], Arranged(s[..|s| - 1], before), before)
  }

  lemma {:induction false} ArrangedSorted<T(!new)>(s: seq<T>, before: (T, T) -> bool)
    requires StrictWeak(before)
    ensures SortedFrom(Arranged(s, before), s, before)
  {
    if s != [] {
      var n := |s| - 1;
      ArrangedSorted(s[..n], before);
      InsertSorted(s[n], Arranged(s[..n], before), before);
      InsertKeeps(s[n], Arranged(s[..n], before), before);
      assert s == s[..n] + [s[n]];
    }
  }

  /** Insertion, element by element. */
  method Sort<T(!new)>(s: seq<T>, before: (T, T) -> bool) returns (sorted: seq<T>)
    requires StrictWeak(before)
    ensures SortedFrom(sorted, s, before)
  {
    sorted := [];
    for i := 0 to |s|
      invariant SortedFrom(sorted, s[..i], before)
    {
      InsertSorted(s[i], sorted, before);
      InsertKeeps(s[i], sorted, before);
      assert s[..i + 1] == s[..i] + [s[i]];
      sorted := Insert(s[i], sorted, before);
    }
    assert s[..|s|] == s;
  }

  lemma HeadsEqual<T(!new)>(s: seq<T>, t: seq<T>, before: (T, T) -> bool)
    requires StrictWeak(before) && Sorted(s, before) && Sorted(t, before) && NoTies(t, before)
    requires s != [] && t != [] && s[0] in t && t[0] in s
    ensures s[0] == t[0]
  {
    var i :| 0 <= i < |t| && t[i] == s[0];
    var j :| 0 <= j < |s| && s[j] == t[0];
    assert !before(s[0], s[0]);
    assert !before(t[i], t[0]) && !before(s[j], s[0]);
  }

  lemma TailsAgree<T>(s: seq<T>, t: seq<T>)
    requires s != [] && t != [] && s[0] == t[0] && multiset(s) == multiset(t)
    ensures multiset(s[1..]) == multiset(t[1..])
  {
    assert s == [s[0]] + s[1..] && t == [t[0]] + t[1..];
    assert multiset(s[1..]) == multiset(s) - multiset{s[0]} == multiset(t[1..]);
  }

  lemma TailKeeps<T>(s: seq<T>, before: (T, T) -> bool)
    requires s != []
    ensures Sorted(s, before) ==> Sorted(s[1..], before)
    ensures NoTies(s, before) ==> NoTies(s[1..], before)
  {
  }

  /** Without ties there is only one sorted arrangement, whatever the sort does. */
  lemma {:induction false} SortedUnique<T(!new)>(s: seq<T>, t: seq<T>, before: (T, T) -> bool)
    requires StrictWeak(before) && Sorted(s, before) && Sorted(t, before) && NoTies(t, before)
    requires multiset(s) == multiset(t)
    ensures s == t
    decreases |t|
  {
    assert |s| == |multiset(s)| == |t|;
    if t != [] {
      assert s[0] in multiset(t) && t[0] in multiset(s);
      HeadsEqual(s, t, before);
      TailsAgree(s, t);
      TailKeeps(s, before);
      TailKeeps(t, before);
      SortedUnique(s[1..], t[1..], before);
      assert s == [s[0]] + s[1..] && t == [t[0]] + t[1..];
    }
  }
}
