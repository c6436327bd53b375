/**
  The Order database and its transactions: quotes, coupons with their redemptions, and orders.  A call
  that locks the quote or the coupon row `FOR UPDATE` is one atomic step; coupons are never edited.
*/
module Orders {
  import opened Width
  import opened Text
  import opened Coupons
  import opened CheckoutHash

  const QUOTE_TTL: int := 600_000_000_000
  const QUOTE_RETENTION: int := 7 * 24 * 3600 * 1_000_000_000

  datatype Quote = Quote(
    id: string, account: nat, text: string, subtotal: int64, discount: int64, total: int64,
    coupon: string, expiresAt: int, cartVersion: uint64, orderId: nat)

  datatype Order = Order(
    id: nat, account: nat, subtotal: int64, discount: int64, total: int64,
    coupon: string, quoteId: Option<string>, lines: seq<Item>)

  datatype Redemption = Redemption(coupon: string, orderId: nat, account: nat)

  /** `issued` holds every quote id ever drawn: the next one drawn is new. */
  datatype Db = Db(now: int, coupons: map<string, Coupon>, quotes: map<string, Quote>, orders: seq<Order>,
                   redemptions: seq<Redemption>, issued: set<string>)

  datatype Error = InvalidOrderTotal | InvalidCheckoutQuote | InvalidCoupon | DuplicateQuote | OrderNotFound

  datatype Outcome = Quoted(quote: Quote) | Placed(order: Order, created: bool) | Refused(error: Error) | Done

  // ------------------------------------------------------------------ tables

  function Uses(rs: seq<Redemption>, code: string): nat {
    if rs == [] then 0 else Uses(rs[..|rs| - 1], code) + (if rs[|rs| - 1].coupon == code then 1 else 0)
  }

  function UsesBy(rs: seq<Redemption>, code: string, account: nat): nat {
    if rs == [] then 0
    else UsesBy(rs[..|rs| - 1], code, account) + (if rs[|rs| - 1].coupon == code && rs[|rs| - 1].account == account then 1 else 0)
  }

  /** The coupon row is read, its redemptions counted, and the discount computed. */
  function Discount(db: Db, account: nat, subtotal: int64, code: string): Option<int64> {
    if code == "" then Some(0)
    else if code !in db.coupons then None
    else CouponDiscount(db.coupons[code], subtotal, Uses(db.redemptions, code), UsesBy(db.redemptions, code, account), db.now)
  }

  /** The rows a successful transaction inserts. */
  function Enter(db: Db, order: Order): Db {
    db.(orders := db.orders + [order],
        redemptions := db.redemptions + (if order.coupon == "" then [] else [Redemption(order.coupon, order.id, order.account)]))
  }

  /** The same, with the quote marked as used by the order. */
  function Consume(db: Db, quoteId: string, order: Order): Db
    requires quoteId in db.quotes
  {
    Enter(db, order).(quotes := db.quotes[quoteId := db.quotes[quoteId].(orderId := order.id)])
  }

  /** A new quote, and the old ones that CreateCheckoutQuote keeps. */
  function File(db: Db, quote: Quote): Db {
    db.(quotes := Retained(db.quotes, db.now)[quote.id := quote], issued := db.issued + {quote.id})
  }

  // ------------------------------------------------------------ transactions

  predicate ValidCheckout(account: nat, cartVersion: uint64, items: seq<Item>) {
    account != 0 && cartVersion != 0 && 0 < |items| <= 100
  }

  /** CreateCheckoutQuote first deletes the quotes that ran out more than a week ago. */
  function Retained(quotes: map<string, Quote>, now: int): map<string, Quote> {
    map id | id in quotes && quotes[id].expiresAt >= now - QUOTE_RETENTION :: quotes[id]
  }

  /** A preview at a given discount. */
  function QuoteAt(db: Db, account: nat, subtotal: int64, items: seq<Item>, code: string, cartVersion: uint64, id: string,
                   discount: Option<int64>): (Db, Outcome)
  {
    match discount
    case None => (db, Refused(InvalidCoupon))
    case Some(d) =>
      var quote := Quote(id, account, HashText(items), subtotal, d, Wrap64(subtotal - d), code, db.now + QUOTE_TTL, cartVersion, 0);
      (File(db, quote), Quoted(quote))
  }

  function PreviewCheckout(db: Db, account: nat, subtotal: int64, items: seq<Item>, couponCode: string,
                           cartVersion: uint64, id: string): (Db, Outcome)
  {
    if !ValidCheckout(account, cartVersion, items) || subtotal < 0 || id in db.issued then (db, Refused(InvalidOrderTotal))
    else
      var code := Normalize(couponCode);
      QuoteAt(db, account, subtotal, items, code, cartVersion, id, Discount(db, account, subtotal, Normalize(code)))
  }

  /** The id of the order that carries the quote, 0 without one.  The unique index on the column makes it
      the only one. */
  function OrderOf(orders: seq<Order>, quoteId: string): (id: nat)
    ensures id <= |orders|
    ensures id != 0 ==> orders[id - 1].quoteId == Some(quoteId)
    ensures id == 0 ==> forall i | 0 <= i < |orders| :: orders[i].quoteId != Some(quoteId)
  {
    if orders == [] then 0
    else
      var n := |orders| - 1;
      var id := OrderOf(orders[..n], quoteId);
      if id != 0 then id else if orders[n].quoteId == Some(quoteId) then n + 1 else 0
  }

  /** The order a valid request makes, at a given discount. */
  function OrderAt(db: Db, account: nat, subtotal: int64, items: seq<Item>, code: string, quoteId: Option<string>, d: int64): Order {
    Order(|db.orders| + 1, account, subtotal, d, Wrap64(subtotal - d), code, quoteId, items)
  }

  function ConsumeAt(db: Db, account: nat, subtotal: int64, items: seq<Item>, quoteId: string, discount: Option<int64>): (Db, Outcome)
    requires quoteId in db.quotes
  {
    match discount
    case None => (db, Refused(InvalidCoupon))
    case Some(d) =>
      if OrderOf(db.orders, quoteId) != 0 then (db, Refused(DuplicateQuote))
      else
        var order := OrderAt(db, account, subtotal, items, db.quotes[quoteId].coupon, Some(quoteId), d);
        (Consume(db, quoteId, order), Placed(order, true))
  }

  function PlaceWithQuote(db: Db, account: nat, subtotal: int64, items: seq<Item>, quoteId: string, cartVersion: uint64): (Db, Outcome) {
    if !ValidCheckout(account, cartVersion, items) || quoteId == "" then (db, Refused(InvalidCheckoutQuote))
    else if subtotal < 0 then (db, Refused(InvalidOrderTotal))
    else if quoteId !in db.quotes || db.quotes[quoteId].account != account then (db, Refused(InvalidCheckoutQuote))
    else
      var quote := db.quotes[quoteId];
      if quote.orderId != 0 then
        if quote.orderId > |db.orders| then (db, Refused(OrderNotFound))
        else
          var saved := db.orders[quote.orderId - 1];
          (db, Placed(saved.(lines := items + saved.lines), false))
      else if db.now >= quote.expiresAt || quote.cartVersion != cartVersion || quote.text != HashText(items) || quote.subtotal != subtotal then
        (db, Refused(InvalidCheckoutQuote))
      else ConsumeAt(db, account, subtotal, items, quoteId, Discount(db, account, subtotal, quote.coupon))
  }

  function PlaceAt(db: Db, account: nat, subtotal: int64, items: seq<Item>, code: string, discount: Option<int64>): (Db, Outcome) {
    match discount
    case None => (db, Refused(InvalidCoupon))
    case Some(d) =>
      var order := OrderAt(db, account, subtotal, items, code, None, d);
      (Enter(db, order), Placed(order, true))
  }

  /** PostOrder without a quote, with or without a coupon. */
  function Place(db: Db, account: nat, subtotal: int64, items: seq<Item>, couponCode: string): (Db, Outcome) {
    if subtotal < 0 then (db, Refused(InvalidOrderTotal))
    else
      var code := Normalize(couponCode);
      PlaceAt(db, account, subtotal, items, code, Discount(db, account, subtotal, code))
  }

  datatype Op =
    | Preview(account: nat, subtotal: int64, items: seq<Item>, couponCode: string, cartVersion: uint64, id: string)
    | OrderQuote(account: nat, subtotal: int64, items: seq<Item>, quoteId: string, cartVersion: uint64)
    | OrderDirect(account: nat, subtotal: int64, items: seq<Item>, couponCode: string)
    | Wait(time: nat)

  function Step(db: Db, op: Op): (Db, Outcome) {
    match op
    case Preview(account, subtotal, items, couponCode, cartVersion, id) =>
      PreviewCheckout(db, account, subtotal, items, couponCode, cartVersion, id)
    case OrderQuote(account, subtotal, items, quoteId, cartVersion) =>
      PlaceWithQuote(db, account, subtotal, items, quoteId, cartVersion)
    case OrderDirect(account, subtotal, items, couponCode) => Place(db, account, subtotal, items, couponCode)
    case Wait(time) => (db.(now := db.now + time), Done)
  }

  function Run(db: Db, ops: seq<Op>): Db
    decreases |ops|
  {
    if ops == [] then db else Run(Step(db, ops[0]).0, ops[1..])
  }

  // --------------------------------------------------------------- invariant

  /** The amounts of a quote or an order: a well-formed coupon's promise, or no discount without one. */
  ghost predicate PricedBy(coupons: map<string, Coupon>, subtotal: int, discount: int, total: int, code: string) {
    && 0 <= discount <= subtotal && discount + total == subtotal
    && (code == "" ==> discount == 0)
    && (code != "" ==> code in coupons && WellFormed(coupons[code]) && discount == Promised(coupons[code], subtotal))
  }

  ghost predicate OrdersPriced(coupons: map<string, Coupon>, orders: seq<Order>) {
    forall i | 0 <= i < |orders| ::
      var o := orders[i];
      o.id == i + 1 && PricedBy(coupons, o.subtotal, o.discount, o.total, o.coupon)
  }

  ghost predicate QuotesPriced(coupons: map<string, Coupon>, quotes: map<string, Quote>, issued: set<string>) {
    forall id | id in quotes ::
      var q := quotes[id];
      q.id == id && id in issued && PricedBy(coupons, q.subtotal, q.discount, q.total, q.coupon)
  }

  /** A stored quote knows the order that was made from it. */
  ghost predicate QuotesUsed(quotes: map<string, Quote>, orders: seq<Order>) {
    forall id | id in quotes :: quotes[id].orderId == OrderOf(orders, id)
  }

  /** Orders are made from quotes that were issued. */
  ghost predicate OrdersQuoted(orders: seq<Order>, issued: set<string>) {
    forall i | 0 <= i < |orders| && orders[i].quoteId.Some? :: orders[i].quoteId.value in issued
  }

  ghost predicate OneOrderPerQuote(orders: seq<Order>) {
    forall i, j | 0 <= i < j < |orders| && orders[i].quoteId.Some? :: orders[i].quoteId != orders[j].quoteId
  }

  function RedemptionsOf(orders: seq<Order>): seq<Redemption> {
    if orders == [] then []
    else
      var o := orders[|orders| - 1];
      RedemptionsOf(orders[..|orders| - 1]) + (if o.coupon == "" then [] else [Redemption(o.coupon, o.id, o.account)])
  }

  ghost predicate WithinLimits(coupons: map<string, Coupon>, rs: seq<Redemption>) {
    forall code | code in coupons ::
      && (coupons[code].maximumRedemptions > 0 ==> Uses(rs, code) <= coupons[code].maximumRedemptions)
      && (coupons[code].perAccountLimit > 0 ==> forall account :: UsesBy(rs, code, account) <= coupons[code].perAccountLimit)
  }

  ghost predicate Inv(db: Db) {
    && OrdersPriced(db.coupons, db.orders) && QuotesPriced(db.coupons, db.quotes, db.issued)
    && QuotesUsed(db.quotes, db.orders) && OrdersQuoted(db.orders, db.issued) && OneOrderPerQuote(db.orders)
    && db.redemptions == RedemptionsOf(db.orders) && WithinLimits(db.coupons, db.redemptions)
  }

  // ------------------------------------------------------------- single steps

  /** A discount that was granted is the promised one, and one more redemption keeps the limits. */
  lemma Granted(db: Db, account: nat, subtotal: int64, code: string)
    requires subtotal >= 0 && Discount(db, account, subtotal, code).Some?
    ensures var d := Discount(db, account, subtotal, code).value;
      PricedBy(db.coupons, subtotal, d, Wrap64(subtotal - d), code)
  {
    if code != "" {
      DiscountExact(db.coupons[code], subtotal, Uses(db.redemptions, code), UsesBy(db.redemptions, code, account), db.now);
      DiscountBounded(db.coupons[code], subtotal);
    }
  }

  lemma UsesAppend(rs: seq<Redemption>, r: Redemption, code: string, account: nat)
    ensures Uses(rs + [r], code) == Uses(rs, code) + (if r.coupon == code then 1 else 0)
    ensures UsesBy(rs + [r], code, account) == UsesBy(rs, code, account) + (if r.coupon == code && r.account == account then 1 else 0)
  {
    assert (rs + [r])[..|rs|] == rs;
  }

  lemma RedemptionWithinLimits(db: Db, order: Order)
    requires WithinLimits(db.coupons, db.redemptions)
    requires Discount(db, order.account, order.subtotal, order.coupon).Some?
    ensures WithinLimits(db.coupons, Enter(db, order).redemptions)
  {
    var rs, coupons := db.redemptions, db.coupons;
    if order.coupon == "" {
      assert rs + [] == rs;
    } else {
      var r := Redemption(order.coupon, order.id, order.account);
      forall code | code in coupons
        ensures coupons[code].maximumRedemptions > 0 ==> Uses(rs + [r], code) <= coupons[code].maximumRedemptions
        ensures coupons[code].perAccountLimit > 0 ==> forall account :: UsesBy(rs + [r], code, account) <= coupons[code].perAccountLimit
      {
        UsesAppend(rs, r, code, order.account);
        forall account | coupons[code].perAccountLimit > 0 ensures UsesBy(rs + [r], code, account) <= coupons[code].perAccountLimit {
          UsesAppend(rs, r, code, account);
        }
      }
    }
  }

  lemma EnterKeeps(db: Db, order: Order)
    requires Inv(db) && order.id == |db.orders| + 1
    requires PricedBy(db.coupons, order.subtotal, order.discount, order.total, order.coupon)
    requires Discount(db, order.account, order.subtotal, order.coupon).Some?
    ensures var db' := Enter(db, order);
      && OrdersPriced(db.coupons, db'.orders) && WithinLimits(db.coupons, db'.redemptions)
      && db'.redemptions == RedemptionsOf(db'.orders)
  {
    RedemptionWithinLimits(db, order);
    assert (db.orders + [order])[..|db.orders|] == db.orders;
  }

  lemma FileKeeps(db: Db, quote: Quote)
    requires Inv(db) && quote.id !in db.issued && quote.orderId == 0
    requires PricedBy(db.coupons, quote.subtotal, quote.discount, quote.total, quote.coupon)
    ensures Inv(File(db, quote))
  {
    var db' := File(db, quote);
    assert forall id | id in db'.quotes && id != quote.id :: id in db.quotes && db'.quotes[id] == db.quotes[id];
    assert QuotesPriced(db'.coupons, db'.quotes, db'.issued);
    assert QuotesUsed(db'.quotes, db.orders);
  }

  lemma OrderOfAppend(orders: seq<Order>, order: Order, quoteId: string)
    ensures OrderOf(orders + [order], quoteId)
         == if OrderOf(orders, quoteId) != 0 then OrderOf(orders, quoteId)
            else if order.quoteId == Some(quoteId) then |orders| + 1 else 0
  {
    assert (orders + [order])[..|orders|] == orders;
  }

  lemma AppendQuoted(quotes: map<string, Quote>, orders: seq<Order>, quoteId: string, order: Order)
    requires QuotesUsed(quotes, orders) && OneOrderPerQuote(orders) && quoteId in quotes && quotes[quoteId].orderId == 0
    requires order.id == |orders| + 1 && order.quoteId == Some(quoteId)
    ensures QuotesUsed(quotes[quoteId := quotes[quoteId].(orderId := order.id)], orders + [order])
    ensures OneOrderPerQuote(orders + [order])
  {
    forall id ensures OrderOf(orders + [order], id) == if id == quoteId then order.id else OrderOf(orders, id) {
      OrderOfAppend(orders, order, id);
    }
  }

  /** Making an order from an unused quote. */
  lemma ConsumeKeeps(db: Db, quoteId: string, order: Order)
    requires Inv(db) && quoteId in db.quotes && db.quotes[quoteId].orderId == 0
    requires order.id == |db.orders| + 1 && order.quoteId == Some(quoteId)
    requires PricedBy(db.coupons, order.subtotal, order.discount, order.total, order.coupon)
    requires Discount(db, order.account, order.subtotal, order.coupon).Some?
    ensures Inv(Consume(db, quoteId, order))
  {
    var db' := Consume(db, quoteId, order);
    EnterKeeps(db, order);
    AppendQuoted(db.quotes, db.orders, quoteId, order);
    QuoteRowKeeps(db.coupons, db.quotes, db.issued, quoteId, order.id);
    IssuedAppend(db.orders, order, db.issued);
  }

  /** Marking a quote as used leaves its amounts. */
  lemma QuoteRowKeeps(coupons: map<string, Coupon>, quotes: map<string, Quote>, issued: set<string>, quoteId: string, orderId: nat)
    requires QuotesPriced(coupons, quotes, issued) && quoteId in quotes
    ensures QuotesPriced(coupons, quotes[quoteId := quotes[quoteId].(orderId := orderId)], issued)
  {
  }

  lemma IssuedAppend(orders: seq<Order>, order: Order, issued: set<string>)
    requires OrdersQuoted(orders, issued) && (order.quoteId.Some? ==> order.quoteId.value in issued)
    ensures OrdersQuoted(orders + [order], issued)
  {
  }

  /** A direct order is none of the quotes' business. */
  lemma DirectKeeps(db: Db, order: Order)
    requires Inv(db) && order.quoteId.None?
    ensures var db' := Enter(db, order);
      QuotesUsed(db'.quotes, db'.orders) && OrdersQuoted(db'.orders, db'.issued) && OneOrderPerQuote(db'.orders)
  {
    forall id ensures OrderOf(db.orders + [order], id) == OrderOf(db.orders, id) {
      OrderOfAppend(db.orders, order, id);
    }
  }

  lemma PreviewKeeps(db: Db, account: nat, subtotal: int64, items: seq<Item>, couponCode: string, cartVersion: uint64, id: string)
    requires Inv(db)
    ensures Inv(PreviewCheckout(db, account, subtotal, items, couponCode, cartVersion, id).0)
  {
    NormalizeTwice(couponCode);
    var (db', outcome) := PreviewCheckout(db, account, subtotal, items, couponCode, cartVersion, id);
    if outcome.Quoted? {
      Granted(db, account, subtotal, Normalize(couponCode));
      FileKeeps(db, outcome.quote);
    }
  }

  lemma PlaceWithQuoteKeeps(db: Db, account: nat, subtotal: int64, items: seq<Item>, quoteId: string, cartVersion: uint64)
    requires Inv(db)
    ensures Inv(PlaceWithQuote(db, account, subtotal, items, quoteId, cartVersion).0)
  {
    var (db', outcome) := PlaceWithQuote(db, account, subtotal, items, quoteId, cartVersion);
    if outcome.Placed? && outcome.created {
      Granted(db, account, subtotal, db.quotes[quoteId].coupon);
      ConsumeKeeps(db, quoteId, outcome.order);
    }
  }

  lemma PlaceKeeps(db: Db, account: nat, subtotal: int64, items: seq<Item>, couponCode: string)
    requires Inv(db)
    ensures Inv(Place(db, account, subtotal, items, couponCode).0)
  {
    var (db', outcome) := Place(db, account, subtotal, items, couponCode);
    if outcome.Placed? {
      Granted(db, account, subtotal, Normalize(couponCode));
      EnterKeeps(db, outcome.order);
      DirectKeeps(db, outcome.order);
    }
  }

  lemma StepKeeps(db: Db, op: Op)
    requires Inv(db)
    ensures Inv(Step(db, op).0)
  {
    match op
    case Preview(account, subtotal, items, couponCode, cartVersion, id) =>
      PreviewKeeps(db, account, subtotal, items, couponCode, cartVersion, id);
    case OrderQuote(account, subtotal, items, quoteId, cartVersion) =>
      PlaceWithQuoteKeeps(db, account, subtotal, items, quoteId, cartVersion);
    case OrderDirect(account, subtotal, items, couponCode) => PlaceKeeps(db, account, subtotal, items, couponCode);
    case Wait(_) =>
  }

  /** Over every interleaving of these transactions: at most one order per quote, redemptions within both
      limits and one for each order with a coupon, and exact amounts on every order and quote. */
  lemma {:induction false} RunKeeps(db: Db, ops: seq<Op>)
    requires Inv(db)
    ensures Inv(Run(db, ops))
    decreases |ops|
  {
    if ops != [] {
      StepKeeps(db, ops[0]);
      RunKeeps(Step(db, ops[0]).0, ops[1..]);
    }
  }
}
