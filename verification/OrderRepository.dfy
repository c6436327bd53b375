/** The Order service and its repository, transaction by transaction. */
module OrderRepository {
  import opened Width
  import opened Text
  import opened Coupons
  import opened CheckoutHash
  import opened Orders

  /** The coupon row is locked, its redemptions are counted and the discount is computed. */
  method PriceCoupon(tx: Db, accountID: nat, subtotalVND: int64, code: string) returns (discount: Option<int64>)
    ensures discount == Discount(tx, accountID, subtotalVND, code)
  {
    if code == "" {
      return Some(0);
    }
    if code !in tx.coupons {
      return None;
    }
    var totalUses := Uses(tx.redemptions, code);
    var accountUses := UsesBy(tx.redemptions, code, accountID);
    discount := CouponDiscount(tx.coupons[code], subtotalVND, totalUses, accountUses, tx.now);
  }

  /** Sets the amounts of an order, field by field. */
  method ApplyDiscount(order: Order, code: string, discount: int64) returns (r: Order)
    ensures r == order.(coupon := code, discount := discount, total := Wrap64(order.subtotal - discount))
  {
    r := order.(coupon := code);
    r := r.(discount := discount);
    r := r.(total := Wrap64(r.subtotal - discount));
  }

  /** CreateCheckoutQuote: expired quotes are deleted a week later. */
  method CreateCheckoutQuote(tx: Db, quote: Quote) returns (after: Db)
    ensures after == File(tx, quote)
  {
    var kept := Retained(tx.quotes, tx.now);
    after := tx.(quotes := kept[quote.id := quote], issued := tx.issued + {quote.id});
  }

  method WriteQuote(tx: Db, accountID: nat, subtotalVND: int64, products: seq<Item>, code: string, cartVersion: uint64, id: string,
                    discount: Option<int64>)
    returns (after: Db, outcome: Outcome)
    ensures (after, outcome) == QuoteAt(tx, accountID, subtotalVND, products, code, cartVersion, id, discount)
  {
    if discount.None? {
      return tx, Refused(InvalidCoupon);
    }
    var quote := Quote(id, accountID, HashText(products), subtotalVND, discount.value, Wrap64(subtotalVND - discount.value),
                       code, tx.now + QUOTE_TTL, cartVersion, 0);
    after := CreateCheckoutQuote(tx, quote);
    outcome := Quoted(quote);
  }

  method TransactPreview(tx: Db, accountID: nat, subtotalVND: int64, products: seq<Item>, couponCode: string, cartVersion: uint64, id: string)
    returns (after: Db, outcome: Outcome)
    requires id !in tx.issued
    ensures (after, outcome) == Orders.PreviewCheckout(tx, accountID, subtotalVND, products, couponCode, cartVersion, id)
  {
    if accountID == 0 || subtotalVND < 0 || cartVersion == 0 || |products| == 0 || |products| > 100 {
      return tx, Refused(InvalidOrderTotal);
    }
    var code := Normalize(couponCode);
    var discount := PriceCoupon(tx, accountID, subtotalVND, Normalize(code));
    after, outcome := WriteQuote(tx, accountID, subtotalVND, products, code, cartVersion, id, discount);
  }

  /** The writes of the transaction that consumes a quote. */
  method WriteQuoteOrder(tx: Db, accountID: nat, subtotalVND: int64, products: seq<Item>, quoteID: string, discount: Option<int64>)
    returns (after: Db, outcome: Outcome)
    requires quoteID in tx.quotes && OrderOf(tx.orders, quoteID) == 0
    ensures (after, outcome) == ConsumeAt(tx, accountID, subtotalVND, products, quoteID, discount)
  {
    if discount.None? {
      return tx, Refused(InvalidCoupon);
    }
    var quote := tx.quotes[quoteID];
    var order := Order(|tx.orders| + 1, accountID, subtotalVND, 0, subtotalVND, "", None, products);
    order := ApplyDiscount(order, quote.coupon, discount.value);
    order := order.(quoteId := Some(quoteID));
    after := Enter(tx, order);
    after := after.(quotes := after.quotes[quoteID := quote.(orderId := order.id)]);
    outcome := Placed(order, true);
  }

  /** The transaction that consumes a quote, on the tables it locks. */
  method TransactQuote(tx: Db, accountID: nat, subtotalVND: int64, products: seq<Item>, quoteID: string, cartVersion: uint64)
    returns (after: Db, outcome: Outcome)
    requires QuotesUsed(tx.quotes, tx.orders)
    ensures (after, outcome) == PlaceWithQuote(tx, accountID, subtotalVND, products, quoteID, cartVersion)
  {
    if accountID == 0 || quoteID == "" || cartVersion == 0 || |products| == 0 || |products| > 100 {
      return tx, Refused(InvalidCheckoutQuote);
    }
    if subtotalVND < 0 {
      return tx, Refused(InvalidOrderTotal);
    }
    if quoteID !in tx.quotes || tx.quotes[quoteID].account != accountID {
      return tx, Refused(InvalidCheckoutQuote);
    }
    var quote := tx.quotes[quoteID];
    if quote.orderId != 0 {
      var saved := tx.orders[quote.orderId - 1];
      return tx, Placed(saved.(lines := products + saved.lines), false);
    }
    if tx.now >= quote.expiresAt || quote.cartVersion != cartVersion || quote.text != HashText(products) || quote.subtotal != subtotalVND {
      return tx, Refused(InvalidCheckoutQuote);
    }
    var discount := PriceCoupon(tx, accountID, subtotalVND, quote.coupon);
    after, outcome := WriteQuoteOrder(tx, accountID, subtotalVND, products, quoteID, discount);
  }

  method WriteOrder(tx: Db, accountID: nat, subtotalVND: int64, products: seq<Item>, code: string, discount: Option<int64>)
    returns (after: Db, outcome: Outcome)
    ensures (after, outcome) == PlaceAt(tx, accountID, subtotalVND, products, code, discount)
  {
    if discount.None? {
      return tx, Refused(InvalidCoupon);
    }
    var order := Order(|tx.orders| + 1, accountID, subtotalVND, 0, subtotalVND, "", None, products);
    order := ApplyDiscount(order, code, discount.value);
    after := Enter(tx, order);
    outcome := Placed(order, true);
  }

  /** PutOrderWithCoupon, and PutOrder for a blank code. */
  method TransactOrder(tx: Db, accountID: nat, subtotalVND: int64, products: seq<Item>, couponCode: string)
    returns (after: Db, outcome: Outcome)
    ensures (after, outcome) == Place(tx, accountID, subtotalVND, products, couponCode)
  {
    if subtotalVND < 0 {
      return tx, Refused(InvalidOrderTotal);
    }
    var code := Normalize(couponCode);
    var discount := PriceCoupon(tx, accountID, subtotalVND, code);
    after, outcome := WriteOrder(tx, accountID, subtotalVND, products, code, discount);
  }

  class PostgresRepository {
    var tables: Db

    constructor (now: int, coupons: map<string, Coupon>)
      ensures tables == Db(now, coupons, map[], [], [], {}) && Inv(tables)
    {
      tables := Db(now, coupons, map[], [], [], {});
    }

    /** The discount a coupon gives an account now; it takes no lock and uses nothing up. */
    method PreviewCoupon(accountID: nat, subtotalVND: int64, couponCode: string) returns (discount: Option<int64>)
      requires subtotalVND >= 0
      ensures discount == Discount(tables, accountID, subtotalVND, Normalize(couponCode))
      ensures discount.Some? ==> 0 <= discount.value <= subtotalVND
    {
      discount := PriceCoupon(tables, accountID, subtotalVND, Normalize(couponCode));
      if discount.Some? {
        Granted(tables, accountID, subtotalVND, Normalize(couponCode));
      }
    }

    method PreviewCheckout(accountID: nat, subtotalVND: int64, products: seq<Item>, couponCode: string, cartVersion: uint64, id: string)
      returns (outcome: Outcome)
      requires Inv(tables) && id !in tables.issued
      modifies this
      ensures Inv(tables)
      ensures (tables, outcome) == Orders.PreviewCheckout(old(tables), accountID, subtotalVND, products, couponCode, cartVersion, id)
    {
      var before := tables;
      var after;
      after, outcome := TransactPreview(before, accountID, subtotalVND, products, couponCode, cartVersion, id);
      PreviewKeeps(before, accountID, subtotalVND, products, couponCode, cartVersion, id);
      tables := after;
    }

    /** Consumes the preview and creates the order in one transaction; a replay or a rejection leaves
        every table as it was. */
    method PutOrderWithQuote(accountID: nat, subtotalVND: int64, products: seq<Item>, quoteID: string, cartVersion: uint64)
      returns (outcome: Outcome)
      requires Inv(tables)
      modifies this
      ensures Inv(tables)
      ensures (tables, outcome) == PlaceWithQuote(old(tables), accountID, subtotalVND, products, quoteID, cartVersion)
    {
      var before := tables;
      var after;
      after, outcome := TransactQuote(before, accountID, subtotalVND, products, quoteID, cartVersion);
      PlaceWithQuoteKeeps(before, accountID, subtotalVND, products, quoteID, cartVersion);
      tables := after;
    }

    method PutOrderWithCoupon(accountID: nat, subtotalVND: int64, products: seq<Item>, couponCode: string) returns (outcome: Outcome)
      requires Inv(tables)
      modifies this
      ensures Inv(tables)
      ensures (tables, outcome) == Place(old(tables), accountID, subtotalVND, products, couponCode)
    {
      var before := tables;
      var after;
      after, outcome := TransactOrder(before, accountID, subtotalVND, products, couponCode);
      PlaceKeeps(before, accountID, subtotalVND, products, couponCode);
      tables := after;
    }
  }
}
