/**
  The canonical text of the items of a checkout, of which Order stores the SHA-256.  The digest is taken
  to be injective, so the text stands for it.
*/
module CheckoutHash {
  import opened Sorting
  import opened Sums
  import opened Text
  import opened Width

  datatype Item = Item(id: string, quantity: nat)

  const NUL: char := '\0'

  // ---------------------------------------------------------------- ordering

  predicate ById(a: Item, b: Item) {
    Less(a.id, b.id)
  }

  lemma ByIdStrict()
    ensures StrictWeak(ById)
  {
    forall x: Item, y: Item ensures !(ById(x, y) && ById(y, x)) {
      LessTotal(x.id, y.id);
    }
    forall x: Item, y: Item, z: Item | !ById(y, x) && !ById(z, y) ensures !ById(z, x) {
      LessTransitive(x.id, y.id, z.id);
    }
  }

  ghost predicate DistinctIds(items: seq<Item>) {
    forall i, j | 0 <= i < j < |items| :: items[i].id != items[j].id
  }

  lemma DistinctNoTies(items: seq<Item>)
    requires DistinctIds(items)
    ensures NoTies(items, ById)
  {
    forall i, j | 0 <= i < j < |items| ensures ById(items[i], items[j]) || ById(items[j], items[i]) {
      LessTotal(items[i].id, items[j].id);
    }
  }

  // ---------------------------------------------------------------- printing

  predicate Digits(s: string) {
    forall i | 0 <= i < |s| :: '0' <= s[i] <= '9'
  }

  /** %d of an unsigned number. */
  function Decimal(n: nat): (s: string)
    ensures s != "" && Digits(s)
  {
    (if n < 10 then "" else Decimal(n / 10)) + ['0' + (n % 10) as char]
  }

  lemma {:induction false} DecimalInjective(m: nat, n: nat)
    requires Decimal(m) == Decimal(n)
    ensures m == n
  {
    var a, b := Decimal(m), Decimal(n);
    assert a[|a| - 1] == '0' + (m % 10) as char && b[|b| - 1] == '0' + (n % 10) as char;
    if m >= 10 && n >= 10 {
      assert a[..|a| - 1] == Decimal(m / 10) && b[..|b| - 1] == Decimal(n / 10);
      DecimalInjective(m / 10, n / 10);
    }
  }

  function Line(item: Item): string {
    item.id + [NUL] + Decimal(item.quantity) + "\n"
  }

  function Encoded(items: seq<Item>): (text: string)
    ensures text == "" <==> items == []
  {
    if items == [] then "" else Line(items[0]) + Encoded(items[1..])
  }

  lemma {:induction false} EncodedAppend(items: seq<Item>, x: Item)
    ensures Encoded(items + [x]) == Encoded(items) + Line(x)
  {
    if items == [] {
      assert [] + [x] == [x];
    } else {
      assert (items + [x])[1..] == items[1..] + [x];
      EncodedAppend(items[1..], x);
    }
  }

  /** The first delimiter splits a text in only one way. */
  lemma Delimited(x: string, c: char, y: string, x': string, y': string)
    requires c !in x && c !in x' && x + [c] + y == x' + [c] + y'
    ensures x == x' && y == y'
  {
    var s, s' := x + [c] + y, x' + [c] + y';
    assert s[|x|] == c && s'[|x'|] == c;
    assert forall k | 0 <= k < |x| :: s[k] == x[k];
    assert forall k | 0 <= k < |x'| :: s'[k] == x'[k];
    assert |x| == |x'|;
    assert x == s[..|x|] && x' == s'[..|x|];
    assert y == s[|x| + 1..] && y' == s'[|x| + 1..];
  }

  lemma LineDecodes(a: Item, rest: string, b: Item, rest': string)
    requires NUL !in a.id && NUL !in b.id
    requires Line(a) + rest == Line(b) + rest'
    ensures a == b && rest == rest'
  {
    var p, q := Decimal(a.quantity), Decimal(b.quantity);
    assert Line(a) + rest == a.id + [NUL] + (p + "\n" + rest);
    assert Line(b) + rest' == b.id + [NUL] + (q + "\n" + rest');
    Delimited(a.id, NUL, p + "\n" + rest, b.id, q + "\n" + rest');
    assert p + "\n" + rest == p + ['\n'] + rest && q + "\n" + rest' == q + ['\n'] + rest';
    Delimited(p, '\n', rest, q, rest');
    DecimalInjective(a.quantity, b.quantity);
  }

  /** No two different lists of NUL-free ids print alike. */
  lemma {:induction false} EncodedInjective(s: seq<Item>, t: seq<Item>)
    requires forall x | x in s :: NUL !in x.id
    requires forall x | x in t :: NUL !in x.id
    requires Encoded(s) == Encoded(t)
    ensures s == t
  {
    if s != [] {
      LineDecodes(s[0], Encoded(s[1..]), t[0], Encoded(t[1..]));
      EncodedInjective(s[1..], t[1..]);
      assert s == [s[0]] + s[1..] && t == [t[0]] + t[1..];
    }
  }

  // -------------------------------------------------------------------- hash

  /** The products that are not nil. */
  function Present(products: seq<Option<Item>>): seq<Item> {
    if products == [] then []
    else
      var n := |products| - 1;
      Present(products[..n]) + (match products[n] case None => [] case Some(item) => [item])
  }

  /** A text the hash may digest. */
  ghost predicate HashedAs(text: string, items: seq<Item>) {
    exists sorted: seq<Item> :: SortedFrom(sorted, items, ById) && text == Encoded(sorted)
  }

  method CheckoutItemsHash(products: seq<Option<Item>>) returns (text: string)
    ensures HashedAs(text, Present(products))
  {
    var items: seq<Item> := [];
    for i := 0 to |products|
      invariant items == Present(products[..i])
    {
      assert products[..i + 1][..i] == products[..i];
      if products[i].Some? {
        items := items + [products[i].value];
      }
    }
    assert products[..|products|] == products;
    ByIdStrict();
    var sorted := Sort(items, ById);
    text := "";
    for i := 0 to |sorted|
      invariant text == Encoded(sorted[..i])
    {
      assert sorted[..i + 1] == sorted[..i] + [sorted[i]];
      EncodedAppend(sorted[..i], sorted[i]);
      text := text + Line(sorted[i]);
    }
    assert sorted[..|sorted|] == sorted;
  }

  /** The text of a list of products, with one choice of order among equal ids. */
  function HashText(items: seq<Item>): string {
    Encoded(Arranged(items, ById))
  }

  ghost predicate Clean(items: seq<Item>) {
    DistinctIds(items) && forall x | x in items :: NUL !in x.id
  }

  lemma CleanRearranged(s: seq<Item>, items: seq<Item>)
    requires Clean(items) && multiset(s) == multiset(items)
    ensures Clean(s)
  {
    assert DistinctBy(items, (x: Item) => x.id);
    DistinctRearranged(s, items, (x: Item) => x.id);
    forall x | x in s ensures NUL !in x.id {
      assert x in multiset(items);
    }
  }

  /** The hash is canonical and injective: for lists of distinct NUL-free ids the texts are equal exactly
      when the lists hold the same (id, quantity) pairs in whatever order. */
  lemma HashCanonical(text: string, items: seq<Item>, text': string, items': seq<Item>)
    requires Clean(items) && Clean(items')
    requires HashedAs(text, items) && HashedAs(text', items')
    ensures text == text' <==> multiset(items) == multiset(items')
  {
    var s: seq<Item> :| SortedFrom(s, items, ById) && text == Encoded(s);
    var t: seq<Item> :| SortedFrom(t, items', ById) && text' == Encoded(t);
    CleanRearranged(s, items);
    CleanRearranged(t, items');
    if text == text' {
      EncodedInjective(s, t);
    } else if multiset(s) == multiset(t) {
      ByIdStrict();
      DistinctNoTies(t);
      SortedUnique(s, t, ById);
    }
  }

  lemma HashTextCanonical(items: seq<Item>, items': seq<Item>)
    requires Clean(items) && Clean(items')
    ensures HashText(items) == HashText(items') <==> multiset(items) == multiset(items')
  {
    ByIdStrict();
    ArrangedSorted(items, ById);
    ArrangedSorted(items', ById);
    assert HashedAs(HashText(items), items) && HashedAs(HashText(items'), items');
    HashCanonical(HashText(items), items, HashText(items'), items');
  }

  // ------------------------------------------------------- ids that hold NUL

  /** An id that holds all lines but the last: its one line prints as the whole list. */
  function Swallowed(sorted: seq<Item>): Item
    requires sorted != []
  {
    var n := |sorted| - 1;
    Item(Encoded(sorted[..n]) + sorted[n].id, sorted[n].quantity)
  }

  lemma SwallowedPrints(sorted: seq<Item>)
    requires sorted != []
    ensures Encoded([Swallowed(sorted)]) == Encoded(sorted)
  {
    var n := |sorted| - 1;
    assert sorted == sorted[..n] + [sorted[n]];
    EncodedAppend(sorted[..n], sorted[n]);
    EncodedAppend([], Swallowed(sorted));
    assert [] + [Swallowed(sorted)] == [Swallowed(sorted)];
    assert Line(Swallowed(sorted)) == Encoded(sorted[..n]) + Line(sorted[n]);
  }

  function Nuls(s: string): nat {
    multiset(s)[NUL]
  }

  lemma NulsOfLine(x: Item)
    ensures Nuls(Line(x)) == Nuls(x.id) + 1
  {
    assert NUL !in Decimal(x.quantity);
    assert multiset(Line(x)) == multiset(x.id) + multiset([NUL]) + multiset(Decimal(x.quantity)) + multiset("\n");
  }

  lemma NulsOfFirst(items: seq<Item>)
    requires items != []
    ensures Nuls(Encoded(items)) == Nuls(items[0].id) + 1 + Nuls(Encoded(items[1..]))
  {
    NulsOfLine(items[0]);
    assert multiset(Encoded(items)) == multiset(Line(items[0])) + multiset(Encoded(items[1..]));
  }

  /** Every line prints at least one NUL. */
  lemma {:induction false} NulsCountLines(items: seq<Item>)
    ensures Nuls(Encoded(items)) >= |items|
  {
    if items != [] {
      NulsOfFirst(items);
      NulsCountLines(items[1..]);
    }
  }

  lemma OneNul(x: Item, other: seq<Item>)
    requires NUL !in x.id && Encoded(other) == Encoded([x])
    ensures |other| == 1 && NUL !in other[0].id
  {
    NulsOfFirst([x]);
    assert other != [];
    NulsOfFirst(other);
    NulsCountLines(other[1..]);
  }

  /** A text with one NUL is that of one line only. */
  lemma OneLineDecodes(x: Item, other: seq<Item>)
    requires NUL !in x.id && Encoded(other) == Encoded([x])
    ensures other == [x]
  {
    OneNul(x, other);
    EncodedInjective(other, [x]);
  }

  /** Without the condition on NUL another list shares the hash if and only if there are two lines or more:
      one id can then swallow all lines but the last. */
  lemma NulCollides(items: seq<Item>)
    requires Clean(items)
    ensures (exists text, other :: HashedAs(text, items) && HashedAs(text, other) && multiset(other) != multiset(items))
      <==> |items| >= 2
  {
    if |items| >= 2 {
      Collision(items);
    }
    forall text, other | HashedAs(text, items) && HashedAs(text, other) && multiset(other) != multiset(items)
      ensures |items| >= 2
    {
      var s: seq<Item> :| SortedFrom(s, items, ById) && text == Encoded(s);
      var t: seq<Item> :| SortedFrom(t, other, ById) && text == Encoded(t);
      assert |s| == |multiset(s)| == |items|;
      CleanRearranged(s, items);
      if |s| == 1 {
        assert s == [s[0]];
        OneLineDecodes(s[0], t);
      }
    }
  }

  lemma Collision(items: seq<Item>)
    requires |items| >= 2
    ensures exists text, other :: HashedAs(text, items) && HashedAs(text, other) && multiset(other) != multiset(items)
  {
    ByIdStrict();
    ArrangedSorted(items, ById);
    var s := Arranged(items, ById);
    assert |s| == |multiset(s)| == |items|;
    var other := [Swallowed(s)];
    SwallowedPrints(s);
    assert SortedFrom(other, other, ById);
    assert HashedAs(Encoded(s), items) && HashedAs(Encoded(s), other);
    assert |multiset(other)| == 1;
  }
}
