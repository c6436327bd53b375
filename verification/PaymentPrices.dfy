/** What a checkout session charges, from the prices of the products and the stored order alone. */
module PaymentPrices {
  import opened Width
  import opened Coupons
  import CheckoutHash
  import opened OrderMatch
  import Orders
  import opened PaymentService

  /** `prices` holds the price in force of every requested product: the catalog's if it knows the product, else that
      of the local mirror, if it is in VND. */
  ghost predicate InForce(mirror: map<string, Product>, catalog: map<string, int64>, prices: map<string, int64>, items: seq<CartItem>) {
    forall i | 0 <= i < |items| ::
      var id := items[i].productId;
      && id in prices
      && (if id in catalog then prices[id] == catalog[id]
          else id in mirror && mirror[id].currency == "VND" && mirror[id].price == prices[id])
  }

  ghost predicate Listed(prices: map<string, int64>, items: seq<CartItem>) {
    forall i | 0 <= i < |items| :: items[i].productId in prices
  }

  /** The sum of price times quantity. */
  ghost function Bill(prices: map<string, int64>, items: seq<CartItem>): int
    requires Listed(prices, items)
  {
    if items == [] then 0
    else
      var last := items[|items| - 1];
      Bill(prices, items[..|items| - 1]) + prices[last.productId] * last.quantity
  }

  ghost predicate PositivePrices(prices: map<string, int64>, items: seq<CartItem>)
    requires Listed(prices, items)
  {
    forall i | 0 <= i < |items| :: prices[items[i].productId] > 0
  }

  lemma LineAt(mirror: map<string, Product>, catalog: map<string, int64>, prices: map<string, int64>, items: seq<CartItem>, i: nat)
    requires InForce(mirror, catalog, prices, items) && AllKnown(mirror, catalog, items) && i < |items|
    ensures PricedItems(mirror, catalog, items)[i] == Priced(prices[items[i].productId], items[i].quantity)
  {
  }

  lemma {:induction false} BillIsTotal(mirror: map<string, Product>, catalog: map<string, int64>, prices: map<string, int64>, items: seq<CartItem>)
    requires InForce(mirror, catalog, prices, items) && AllKnown(mirror, catalog, items)
    ensures Total(PricedItems(mirror, catalog, items)) == Bill(prices, items)
  {
    if items != [] {
      var n := |items| - 1;
      var lines := PricedItems(mirror, catalog, items);
      assert lines[..n] == PricedItems(mirror, catalog, items[..n]);
      LineAt(mirror, catalog, prices, items, n);
      BillIsTotal(mirror, catalog, prices, items[..n]);
    }
  }

  lemma KnownWhenPositive(mirror: map<string, Product>, catalog: map<string, int64>, prices: map<string, int64>, items: seq<CartItem>)
    requires InForce(mirror, catalog, prices, items)
    ensures PositivePrices(prices, items) <==> AllKnown(mirror, catalog, items) && AllPriced(PricedItems(mirror, catalog, items))
  {
    if AllKnown(mirror, catalog, items) {
      forall i | 0 <= i < |items| ensures PricedItems(mirror, catalog, items)[i].price == prices[items[i].productId] {
        LineAt(mirror, catalog, prices, items, i);
      }
    }
  }

  // ------------------------------------------------------------- the request

  /** The request is for exactly these lines, in any order. */
  ghost predicate SameLines(items: seq<CartItem>, lines: seq<CheckoutHash.Item>) {
    && |items| == |lines|
    && forall j | 0 <= j < |lines| :: exists i :: 0 <= i < |items| && items[i].productId == lines[j].id && items[i].quantity == lines[j].quantity
  }

  lemma {:induction false} NamedCount(items: seq<CartItem>)
    requires ValidItems(items)
    ensures |Quantities(items)| == |items|
  {
    QuantitiesKeys(items);
    if items != [] {
      var n := |items| - 1;
      NamedCount(items[..n]);
      QuantitiesKeys(items[..n]);
      SizeOfUpdate(Quantities(items[..n]), items[n].productId, items[n].quantity);
    }
  }

  lemma SameLinesMatch(items: seq<CartItem>, lines: seq<CheckoutHash.Item>)
    requires ValidItems(items) && SameLines(items, lines)
    ensures Matches(lines, Quantities(items))
  {
    NamedCount(items);
    forall j | 0 <= j < |lines| ensures Requested(Quantities(items), lines[j].id) == lines[j].quantity {
      var i :| 0 <= i < |items| && items[i].productId == lines[j].id && items[i].quantity == lines[j].quantity;
      QuantityOfItem(items, i);
    }
  }

  lemma MatchIsSameLines(items: seq<CartItem>, lines: seq<CheckoutHash.Item>)
    requires ValidItems(items) && Positive(lines) && Matches(lines, Quantities(items))
    ensures SameLines(items, lines)
  {
    NamedCount(items);
    QuantitiesKeys(items);
    forall j | 0 <= j < |lines|
      ensures exists i :: 0 <= i < |items| && items[i].productId == lines[j].id && items[i].quantity == lines[j].quantity
    {
      assert Requested(Quantities(items), lines[j].id) == lines[j].quantity > 0;
      assert lines[j].id in Named(items);
      var i :| 0 <= i < |items| && items[i].productId == lines[j].id;
      QuantityOfItem(items, i);
    }
  }

  // -------------------------------------------------------------- the charge

  lemma PayableAt(db: Orders.Db, k: nat, user: nat, pending: bool, quantities: map<string, uint64>, subtotal: int64)
    requires Orders.Inv(db) && k < |db.orders| && subtotal >= 0
    ensures var order := db.orders[k];
      AmountDue(order, user, pending, quantities, subtotal)
      == if order.account == user && pending && Matches(order.lines, quantities) && (order.total > 0 ==> subtotal == order.subtotal)
         then Some(if order.total > 0 then order.total else subtotal) else None
  {
    assert Orders.PricedBy(db.coupons, db.orders[k].subtotal, db.orders[k].discount, db.orders[k].total, db.orders[k].coupon);
  }

  lemma {:induction false} BillNonNegative(prices: map<string, int64>, items: seq<CartItem>)
    requires Listed(prices, items) && PositivePrices(prices, items)
    ensures Bill(prices, items) >= 0
  {
    if items != [] { BillNonNegative(prices, items[..|items| - 1]); }
  }

  lemma DueAtBill(mirror: map<string, Product>, catalog: map<string, int64>, prices: map<string, int64>, user: nat, items: seq<CartItem>,
                  order: Orders.Order, pending: bool)
    requires InForce(mirror, catalog, prices, items) && items != [] && ValidItems(items)
    ensures Due(mirror, catalog, user, items, Some(order), pending)
         == if PositivePrices(prices, items) && Bill(prices, items) <= MAX_INT64
            then AmountWithin(order, user, pending, Quantities(items), Bill(prices, items)) else None
  {
    KnownWhenPositive(mirror, catalog, prices, items);
    if PositivePrices(prices, items) { BillIsTotal(mirror, catalog, prices, items); }
  }

  /** A stored order of positive lines is charged its own total or, if that is 0, the sum of the prices, exactly if
      it is the user's and pending, the request is for its lines, every price is positive, the sum fits an int64 and,
      unless the order is free, is the order's subtotal. */
  lemma ChargedExactly(db: Orders.Db, k: nat, user: nat, pending: bool, mirror: map<string, Product>, catalog: map<string, int64>,
                       prices: map<string, int64>, items: seq<CartItem>)
    requires Orders.Inv(db) && k < |db.orders| && Positive(db.orders[k].lines)
    requires InForce(mirror, catalog, prices, items) && items != [] && ValidItems(items)
    ensures var order, bill := db.orders[k], Bill(prices, items);
      Due(mirror, catalog, user, items, Some(order), pending)
      == if order.account == user && pending && SameLines(items, order.lines)
            && PositivePrices(prices, items) && bill <= MAX_INT64 && (order.total > 0 ==> bill == order.subtotal)
         then Some(if order.total > 0 then order.total else bill) else None
  {
    var order, bill := db.orders[k], Bill(prices, items);
    DueAtBill(mirror, catalog, prices, user, items, order, pending);
    if PositivePrices(prices, items) && bill <= MAX_INT64 {
      BillNonNegative(prices, items);
      PayableAt(db, k, user, pending, Quantities(items), bill);
      if SameLines(items, order.lines) {
        SameLinesMatch(items, order.lines);
      } else if Matches(order.lines, Quantities(items)) {
        MatchIsSameLines(items, order.lines);
      }
    }
  }

  /** A product that has no price in VND anywhere is never charged: it is unknown, or only mirrored in another
      currency. */
  lemma NoPriceNoCharge(mirror: map<string, Product>, catalog: map<string, int64>, user: nat, items: seq<CartItem>,
                        stored: Option<Orders.Order>, pending: bool, i: nat)
    requires i < |items| && items[i].productId !in catalog
    requires items[i].productId in mirror ==> mirror[items[i].productId].currency != "VND"
    ensures Due(mirror, catalog, user, items, stored, pending) == None
  {
    if AllKnown(mirror, catalog, items) {
      assert PricedItems(mirror, catalog, items)[i].price == 0;
    }
  }
}
