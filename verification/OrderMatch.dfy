/** Payment's comparison of a request with the stored lines of its order. */
module OrderMatch {
  import opened Width
  import opened Coupons
  import opened CheckoutHash
  import Orders
  import OrderServer

  function Requested(quantities: map<string, uint64>, id: string): uint64 {
    if id in quantities then quantities[id] else 0
  }

  predicate Matches(items: seq<Item>, quantities: map<string, uint64>) {
    |items| == |quantities| && forall i | 0 <= i < |items| :: Requested(quantities, items[i].id) == items[i].quantity
  }

  /** The stored lines of an order are compared with the requested quantities one by one. */
  method SameOrderItems(items: seq<Item>, quantities: map<string, uint64>) returns (same: bool)
    ensures same <==> Matches(items, quantities)
  {
    if |items| != |quantities| {
      return false;
    }
    for i := 0 to |items|
      invariant forall k | 0 <= k < i :: Requested(quantities, items[k].id) == items[k].quantity
    {
      if Requested(quantities, items[i].id) != items[i].quantity {
        return false;
      }
    }
    same := true;
  }

  function Ids(items: seq<Item>): set<string> {
    set i | 0 <= i < |items| :: items[i].id
  }

  lemma {:induction false} IdsCount(items: seq<Item>)
    requires DistinctIds(items)
    ensures |Ids(items)| == |items|
  {
    if items != [] {
      var n := |items| - 1;
      IdsCount(items[..n]);
      assert Ids(items) == Ids(items[..n]) + {items[n].id};
    } else {
      assert Ids(items) == {};
    }
  }

  lemma SubsetOfSameSize(a: set<string>, b: set<string>)
    requires a <= b && |a| == |b|
    ensures a == b
  {
    assert |b - a| == 0;
  }

  /** Every requested product is a line of the order with the same quantity, and the other way round. */
  ghost predicate SameCart(items: seq<Item>, quantities: map<string, uint64>) {
    && quantities.Keys == Ids(items)
    && forall i | 0 <= i < |items| :: items[i].id in quantities && quantities[items[i].id] == items[i].quantity
  }

  ghost predicate Positive(items: seq<Item>) {
    forall i | 0 <= i < |items| :: items[i].quantity > 0
  }

  /** For an order of distinct positive lines the comparison is exact equality (pigeonhole). */
  lemma MatchesExactly(items: seq<Item>, quantities: map<string, uint64>)
    requires DistinctIds(items) && Positive(items)
    ensures Matches(items, quantities) <==> SameCart(items, quantities)
  {
    IdsCount(items);
    assert |quantities| == |quantities.Keys|;
    if Matches(items, quantities) {
      assert forall i | 0 <= i < |items| :: items[i].id in quantities;
      SubsetOfSameSize(Ids(items), quantities.Keys);
    }
  }

  /** Every order that Order ever stored has such lines: whatever was called before, the comparison is exact. */
  lemma StoredMatchesExactly(now: int, coupons: map<string, Coupon>, calls: seq<OrderServer.Call>, k: nat, quantities: map<string, uint64>)
    requires k < |OrderServer.ServeAll(Orders.Db(now, coupons, map[], [], [], {}), calls).orders|
    ensures var lines := OrderServer.ServeAll(Orders.Db(now, coupons, map[], [], [], {}), calls).orders[k].lines;
      Matches(lines, quantities) <==> SameCart(lines, quantities)
  {
    OrderServer.ServedKeeps(Orders.Db(now, coupons, map[], [], [], {}), calls);
    MatchesExactly(OrderServer.ServeAll(Orders.Db(now, coupons, map[], [], [], {}), calls).orders[k].lines, quantities);
  }

  // ------------------------------------------------ lines Order never stores

  /** Lines of one product agree on its quantity. */
  ghost predicate Consistent(items: seq<Item>) {
    forall i, j | 0 <= i < j < |items| && items[i].id == items[j].id :: items[i].quantity == items[j].quantity
  }

  predicate Fits(items: seq<Item>) {
    forall i | 0 <= i < |items| :: items[i].quantity <= MAX_UINT64
  }

  /** The quantities of the positive lines. */
  function PositiveQuantities(items: seq<Item>): (m: map<string, uint64>)
    requires Fits(items)
  {
    if items == [] then map[]
    else
      var n := |items| - 1;
      var rest := PositiveQuantities(items[..n]);
      if items[n].quantity > 0 then rest[items[n].id := items[n].quantity] else rest
  }

  lemma {:induction false} PositiveIsKey(items: seq<Item>, i: nat)
    requires Fits(items) && i < |items| && items[i].quantity > 0
    ensures items[i].id in PositiveQuantities(items)
  {
    var n := |items| - 1;
    if i < n { PositiveIsKey(items[..n], i); }
  }

  lemma {:induction false} KeyIsLine(items: seq<Item>, k: string)
    requires Fits(items) && k in PositiveQuantities(items)
    ensures Item(k, PositiveQuantities(items)[k]) in items && PositiveQuantities(items)[k] > 0
  {
    var n := |items| - 1;
    assert items == items[..n] + [items[n]];
    if !(items[n].quantity > 0 && items[n].id == k) { KeyIsLine(items[..n], k); }
  }

  lemma SizeOfUpdate(m: map<string, uint64>, k: string, v: uint64)
    ensures |m[k := v]| == if k in m then |m| else |m| + 1
  {
    assert m[k := v].Keys == m.Keys + {k};
    assert |m[k := v]| == |m[k := v].Keys| && |m| == |m.Keys|;
  }

  /** There are as many keys as lines only if no line is repeated or has quantity 0. */
  lemma {:induction false} FewerKeys(items: seq<Item>)
    requires Fits(items)
    ensures |PositiveQuantities(items)| <= |items|
    ensures |PositiveQuantities(items)| == |items| ==> DistinctIds(items) && Positive(items)
  {
    if items != [] {
      var n := |items| - 1;
      var rest := PositiveQuantities(items[..n]);
      FewerKeys(items[..n]);
      if items[n].quantity > 0 { SizeOfUpdate(rest, items[n].id, items[n].quantity); }
      if |PositiveQuantities(items)| == |items| {
        forall i | 0 <= i < n ensures items[i].id != items[n].id && items[i].quantity > 0 {
          assert items[..n][i].quantity > 0;
          PositiveIsKey(items[..n], i);
        }
      }
    }
  }

  /** Any map can be padded with new keys up to any larger size. */
  lemma {:induction false} Pad(m: map<string, uint64>, size: nat, avoid: set<string>) returns (q: map<string, uint64>)
    requires |m| <= size && m.Keys <= avoid
    ensures |q| == size && forall k | k in m :: k in q && q[k] == m[k]
    ensures forall k | k in q :: k in m || k !in avoid
    decreases size - |m|
  {
    if |m| == size {
      q := m;
    } else {
      var key := NewKey(avoid);
      SizeOfUpdate(m, key, 1);
      q := Pad(m[key := 1], size, avoid + {key});
    }
  }

  lemma NewKey(avoid: set<string>) returns (key: string)
    ensures key !in avoid
  {
    var n := LongerThanAll(avoid);
    key := seq(n, i => 'x');
  }

  lemma {:induction false} LongerThanAll(s: set<string>) returns (n: nat)
    ensures forall x | x in s :: |x| < n
  {
    if s == {} {
      n := 0;
    } else {
      var x :| x in s;
      n := LongerThanAll(s - {x});
      if n <= |x| { n := |x| + 1; }
    }
  }

  /** A map that has the positive lines' quantities and no other of the lines' products is accepted. */
  lemma PaddedMatches(items: seq<Item>, q: map<string, uint64>)
    requires Fits(items) && Consistent(items) && |q| == |items|
    requires forall k | k in PositiveQuantities(items) :: k in q && q[k] == PositiveQuantities(items)[k]
    requires forall k | k in q :: k in PositiveQuantities(items) || k !in Ids(items)
    ensures Matches(items, q)
  {
    var m := PositiveQuantities(items);
    forall i | 0 <= i < |items| ensures Requested(q, items[i].id) == items[i].quantity {
      assert items[i].id in Ids(items);
      if items[i].quantity > 0 { PositiveIsKey(items, i); }
      if items[i].id in m {
        KeyIsLine(items, items[i].id);
        var j :| 0 <= j < |items| && items[j] == Item(items[i].id, m[items[i].id]);
        assert items[j].quantity == items[i].quantity;
      }
    }
  }

  /** The other cart: the positive lines, padded with products the order does not have. */
  lemma OtherCart(items: seq<Item>) returns (q: map<string, uint64>)
    requires Fits(items) && Consistent(items) && !(DistinctIds(items) && Positive(items))
    ensures Matches(items, q) && !SameCart(items, q)
  {
    var m := PositiveQuantities(items);
    FewerKeys(items);
    forall k | k in m ensures k in Ids(items) {
      KeyIsLine(items, k);
    }
    q := Pad(m, |items|, Ids(items));
    PaddedMatches(items, q);
    assert |q| == |q.Keys| && |m| == |m.Keys|;
    assert q.Keys == Ids(items) ==> q.Keys == m.Keys;
  }

  lemma MatchedAgree(items: seq<Item>, quantities: map<string, uint64>)
    requires Matches(items, quantities)
    ensures Consistent(items)
  {
    forall i, j | 0 <= i < j < |items| && items[i].id == items[j].id ensures items[i].quantity == items[j].quantity {
      assert Requested(quantities, items[i].id) == items[i].quantity;
    }
  }

  /** Of lists of lines in general: the comparison accepts some other cart if and only if lines of one product
      agree and some line is repeated or has quantity 0. */
  lemma MatchesOther(items: seq<Item>)
    requires Fits(items)
    ensures (exists quantities :: Matches(items, quantities) && !SameCart(items, quantities)) <==>
      Consistent(items) && !(DistinctIds(items) && Positive(items))
  {
    forall quantities | Matches(items, quantities) && !SameCart(items, quantities)
      ensures Consistent(items) && !(DistinctIds(items) && Positive(items))
    {
      MatchedAgree(items, quantities);
      if DistinctIds(items) && Positive(items) {
        MatchesExactly(items, quantities);
      }
    }
    if Consistent(items) && !(DistinctIds(items) && Positive(items)) {
      var q := OtherCart(items);
    }
  }
}
