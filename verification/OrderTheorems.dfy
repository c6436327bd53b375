/** What Order promises about quotes, orders and coupons, over every run of its transactions. */
module OrderTheorems {
  import opened Width
  import opened Coupons
  import opened CheckoutHash
  import opened Orders

  /** From an empty shop with any coupons: redemptions stay within both limits of every coupon, there is
      one for each order with a coupon, and no two orders share a quote. */
  lemma LimitsHold(now: int, coupons: map<string, Coupon>, ops: seq<Op>, code: string, account: nat)
    requires code in coupons
    ensures var db := Run(Db(now, coupons, map[], [], [], {}), ops);
      && (coupons[code].maximumRedemptions > 0 ==> Uses(db.redemptions, code) <= coupons[code].maximumRedemptions)
      && (coupons[code].perAccountLimit > 0 ==> UsesBy(db.redemptions, code, account) <= coupons[code].perAccountLimit)
      && db.redemptions == RedemptionsOf(db.orders)
      && OneOrderPerQuote(db.orders)
  {
    var start := Db(now, coupons, map[], [], [], {});
    RunKeeps(start, ops);
    CouponsStay(start, ops);
  }

  lemma StepGrows(db: Db, op: Op)
    ensures Step(db, op).0.coupons == db.coupons && db.orders <= Step(db, op).0.orders
  {
    match op
    case OrderQuote(account, subtotal, items, quoteId, cartVersion) =>
      var outcome := Step(db, op).1;
      if outcome.Placed? && outcome.created {
        assert Step(db, op).0.orders == db.orders + [outcome.order];
      }
    case _ =>
  }

  lemma {:induction false} CouponsStay(db: Db, ops: seq<Op>)
    ensures Run(db, ops).coupons == db.coupons
    decreases |ops|
  {
    if ops != [] {
      StepGrows(db, ops[0]);
      CouponsStay(Step(db, ops[0]).0, ops[1..]);
    }
  }

  /** Orders are only ever added. */
  lemma {:induction false} OrdersGrow(db: Db, ops: seq<Op>)
    ensures db.orders <= Run(db, ops).orders
    decreases |ops|
  {
    if ops != [] {
      StepGrows(db, ops[0]);
      OrdersGrow(Step(db, ops[0]).0, ops[1..]);
    }
  }

  /** How the row of an issued quote may change: it is deleted, or marked as used, once. */
  ghost predicate QuoteForward(before: Db, after: Db, id: string) {
    id in after.quotes ==>
      && id in before.quotes
      && after.quotes[id] == before.quotes[id].(orderId := after.quotes[id].orderId)
      && (before.quotes[id].orderId != 0 ==> after.quotes[id] == before.quotes[id])
  }

  lemma QuoteStep(db: Db, op: Op, id: string)
    requires id in db.issued
    ensures QuoteForward(db, Step(db, op).0, id) && id in Step(db, op).0.issued
  {
    match op
    case Preview(account, subtotal, items, couponCode, cartVersion, newId) =>
      var (db', outcome) := Step(db, op);
      if outcome.Quoted? {
        assert outcome.quote.id == newId != id;
      }
    case OrderQuote(account, subtotal, items, quoteId, cartVersion) =>
      var (db', outcome) := Step(db, op);
      if outcome.Placed? && outcome.created && quoteId == id {
        assert db.quotes[id].orderId == 0;
      }
    case _ =>
  }

  lemma {:induction false} QuoteRun(db: Db, ops: seq<Op>, id: string)
    requires id in db.issued
    ensures QuoteForward(db, Run(db, ops), id) && id in Run(db, ops).issued
    decreases |ops|
  {
    if ops != [] {
      QuoteStep(db, ops[0], id);
      QuoteRun(Step(db, ops[0]).0, ops[1..], id);
    }
  }

  /** What was quoted is what the order says: an order made from a quote has the quote's subtotal,
      discount and total, whatever happened to use counts and clock since. */
  lemma QuotedIsOrdered(db: Db, account: nat, subtotal: int64, items: seq<Item>, quoteId: string, cartVersion: uint64)
    requires Inv(db)
    requires var outcome := PlaceWithQuote(db, account, subtotal, items, quoteId, cartVersion).1; outcome.Placed? && outcome.created
    ensures var quote := db.quotes[quoteId];
      var order := PlaceWithQuote(db, account, subtotal, items, quoteId, cartVersion).1.order;
      && order.account == quote.account && order.coupon == quote.coupon && order.quoteId == Some(quoteId)
      && order.subtotal == quote.subtotal && order.discount == quote.discount && order.total == quote.total
      && order.discount + order.total == order.subtotal
      && HashText(items) == quote.text && order.lines == items && cartVersion == quote.cartVersion
  {
    Granted(db, account, subtotal, db.quotes[quoteId].coupon);
  }

  /** From the preview to the order: however many other transactions run in between, an order made from
      the previewed quote has the previewed items and exactly the previewed amounts. */
  lemma PreviewedIsOrdered(db: Db, account: nat, subtotal: int64, items: seq<Item>, couponCode: string, cartVersion: uint64,
                           id: string, ops: seq<Op>, subtotal': int64, items': seq<Item>, cartVersion': uint64)
    requires Inv(db) && Clean(items) && Clean(items')
    requires PreviewCheckout(db, account, subtotal, items, couponCode, cartVersion, id).1.Quoted?
    requires var after := Run(PreviewCheckout(db, account, subtotal, items, couponCode, cartVersion, id).0, ops);
      var outcome := PlaceWithQuote(after, account, subtotal', items', id, cartVersion').1;
      outcome.Placed? && outcome.created
    ensures var quote := PreviewCheckout(db, account, subtotal, items, couponCode, cartVersion, id).1.quote;
      var after := Run(PreviewCheckout(db, account, subtotal, items, couponCode, cartVersion, id).0, ops);
      var order := PlaceWithQuote(after, account, subtotal', items', id, cartVersion').1.order;
      && order.subtotal == quote.subtotal && order.discount == quote.discount && order.total == quote.total
      && multiset(order.lines) == multiset(items) && cartVersion' == cartVersion
  {
    var quoted := PreviewCheckout(db, account, subtotal, items, couponCode, cartVersion, id).0;
    var quote := PreviewCheckout(db, account, subtotal, items, couponCode, cartVersion, id).1.quote;
    assert quoted.quotes[id] == quote && id in quoted.issued;
    PreviewKeeps(db, account, subtotal, items, couponCode, cartVersion, id);
    RunKeeps(quoted, ops);
    QuoteRun(quoted, ops, id);
    OrderedAsFiled(Run(quoted, ops), quote, account, subtotal', items', cartVersion', items);
  }

  lemma OrderedAsFiled(db: Db, quote: Quote, account: nat, subtotal: int64, items: seq<Item>, cartVersion: uint64, previewed: seq<Item>)
    requires Inv(db) && Clean(items) && Clean(previewed) && quote.text == HashText(previewed)
    requires quote.id in db.quotes ==> db.quotes[quote.id] == quote.(orderId := db.quotes[quote.id].orderId)
    requires var outcome := PlaceWithQuote(db, account, subtotal, items, quote.id, cartVersion).1; outcome.Placed? && outcome.created
    ensures var order := PlaceWithQuote(db, account, subtotal, items, quote.id, cartVersion).1.order;
      && order.subtotal == quote.subtotal && order.discount == quote.discount && order.total == quote.total
      && multiset(order.lines) == multiset(previewed) && cartVersion == quote.cartVersion
  {
    QuotedIsOrdered(db, account, subtotal, items, quote.id, cartVersion);
    var order := PlaceWithQuote(db, account, subtotal, items, quote.id, cartVersion).1.order;
    assert order.lines == items && HashText(items) == HashText(previewed);
    HashTextCanonical(items, previewed);
  }

  lemma ReplayNow(db: Db, quote: Quote, order: Order, subtotal: int64, items: seq<Item>, cartVersion: uint64)
    requires quote.id in db.quotes && db.quotes[quote.id] == quote && quote.id != ""
    requires 0 < quote.orderId <= |db.orders| && db.orders[quote.orderId - 1] == order
    requires ValidCheckout(quote.account, cartVersion, items) && subtotal >= 0
    ensures PlaceWithQuote(db, quote.account, subtotal, items, quote.id, cartVersion)
         == (db, Placed(order.(lines := items + order.lines), false))
  {
  }

  /** A used quote can be presented again at any later time by its account, with any items: nothing is
      created and the same order comes back with the same amounts, its lines after the request's own. */
  lemma ReplayReturnsTheOrder(db: Db, ops: seq<Op>, quoteId: string, subtotal: int64, items: seq<Item>, cartVersion: uint64)
    requires Inv(db) && quoteId in db.quotes && db.quotes[quoteId].orderId != 0 && quoteId != ""
    requires quoteId in Run(db, ops).quotes
    requires ValidCheckout(db.quotes[quoteId].account, cartVersion, items) && subtotal >= 0
    ensures var order := db.orders[db.quotes[quoteId].orderId - 1];
      && order.quoteId == Some(quoteId)
      && PlaceWithQuote(Run(db, ops), db.quotes[quoteId].account, subtotal, items, quoteId, cartVersion)
         == (Run(db, ops), Placed(order.(lines := items + order.lines), false))
  {
    QuoteRun(db, ops, quoteId);
    OrdersGrow(db, ops);
    var quote := db.quotes[quoteId];
    ReplayNow(Run(db, ops), quote, db.orders[quote.orderId - 1], subtotal, items, cartVersion);
  }

  lemma DiscountGiven(db: Db, account: nat, subtotal: int64, code: string)
    requires code != "" ==> code in db.coupons && WellFormed(db.coupons[code])
    ensures Discount(db, account, subtotal, code).Some? <==>
      (code != "" ==> Available(db.coupons[code], subtotal, Uses(db.redemptions, code), UsesBy(db.redemptions, code, account), db.now))
  {
    if code != "" {
      DiscountExact(db.coupons[code], subtotal, Uses(db.redemptions, code), UsesBy(db.redemptions, code, account), db.now);
    }
  }

  lemma QuoteAccepted(db: Db, quoteId: string, account: nat, subtotal: int64, items: seq<Item>, cartVersion: uint64)
    requires Inv(db) && quoteId in db.quotes && quoteId != "" && ValidCheckout(account, cartVersion, items)
    ensures var quote := db.quotes[quoteId];
      var outcome := PlaceWithQuote(db, account, subtotal, items, quoteId, cartVersion).1;
      outcome.Placed? && outcome.created <==>
        && account == quote.account && quote.orderId == 0 && db.now < quote.expiresAt
        && cartVersion == quote.cartVersion && subtotal == quote.subtotal && quote.text == HashText(items)
        && Discount(db, account, subtotal, quote.coupon).Some?
  {
    assert db.quotes[quoteId].orderId == OrderOf(db.orders, quoteId);
    assert db.quotes[quoteId].subtotal >= 0;
  }

  /** A quote is honoured exactly when it is presented in time by its account, unused, for the previewed
      cart version, items and subtotal, and its coupon, if any, still has room.  Neither the unique index
      nor the discount's overflow guard ever stands in the way. */
  lemma QuoteHonoured(db: Db, quoteId: string, account: nat, subtotal: int64, items: seq<Item>, cartVersion: uint64, previewed: seq<Item>)
    requires Inv(db) && quoteId in db.quotes && quoteId != "" && ValidCheckout(account, cartVersion, items)
    requires db.quotes[quoteId].text == HashText(previewed) && Clean(items) && Clean(previewed)
    ensures var quote := db.quotes[quoteId];
      var outcome := PlaceWithQuote(db, account, subtotal, items, quoteId, cartVersion).1;
      outcome.Placed? && outcome.created <==>
        && account == quote.account && quote.orderId == 0 && db.now < quote.expiresAt
        && cartVersion == quote.cartVersion && subtotal == quote.subtotal
        && multiset(items) == multiset(previewed)
        && (quote.coupon != "" ==>
              Available(db.coupons[quote.coupon], subtotal, Uses(db.redemptions, quote.coupon),
                        UsesBy(db.redemptions, quote.coupon, account), db.now))
  {
    QuoteAccepted(db, quoteId, account, subtotal, items, cartVersion);
    HashTextCanonical(items, previewed);
    DiscountGiven(db, account, subtotal, db.quotes[quoteId].coupon);
  }
}
