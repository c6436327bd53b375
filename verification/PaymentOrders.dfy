/** What is charged for an order, across Order and Payment. */
module PaymentOrders {
  import opened Width
  import opened Text
  import opened Coupons
  import opened OrderMatch
  import CheckoutHash
  import Orders
  import OrderTheorems
  import opened Payments
  import opened PaymentTheorems
  import opened PaymentService

  // ------------------------------------------- every row of an order, in every run

  /** The order as Order stores it. */
  function Stored(db: Orders.Db, id: nat): Option<Orders.Order> {
    if 0 < id <= |db.orders| then Some(db.orders[id - 1]) else None
  }

  /** The amount is due on the order as it was stored at some later time, for some request, catalog and mirror. */
  ghost predicate DueLater(db: Orders.Db, id: nat, total: int64) {
    exists ops, mirror, catalog, user, items, pending ::
      Due(mirror, catalog, user, items, Stored(Orders.Run(db, ops), id), pending) == Some(total)
  }

  /** Sessions of the order begin with an amount that Payment found due on it. */
  ghost predicate BeginsAtDue(a: Action, db: Orders.Db, id: nat) {
    a.Begin? && a.order == id ==> DueLater(db, id, a.total)
  }

  /** Every session and every row of the order is for the amount. */
  ghost predicate Carries(s: System, id: nat, total: int64) {
    && (forall pid | pid in s.sessions && s.sessions[pid].order == id :: s.sessions[pid].total == total)
    && (forall i | 0 <= i < |s.rows| && s.rows[i].orderId == id :: s.rows[i].totalPrice == total)
  }

  lemma CarriesStep(s: System, a: Action, id: nat, total: int64)
    requires Inv(s) && Carries(s, id, total) && (a.Begin? && a.order == id ==> a.total == total)
    ensures Carries(Step(s, a), id, total)
  {
    if a.SaveRow? && a.cid in s.callbacks && s.callbacks[a.cid].phase.Ready? {
      var c := s.callbacks[a.cid];
      assert SameTerms(c.phase.read, s.rows[c.phase.row]);
    }
  }

  /** If all sessions of an order begin with one amount, every row of the order carries it, however sessions
      and callbacks interleave. */
  lemma {:induction false} RunCarries(s: System, actions: seq<Action>, id: nat, total: int64)
    requires Inv(s) && Carries(s, id, total)
    requires forall k | 0 <= k < |actions| :: actions[k].Begin? && actions[k].order == id ==> actions[k].total == total
    ensures Carries(Run(s, actions), id, total)
    decreases |actions|
  {
    if actions != [] {
      StepKeeps(s, actions[0]);
      CarriesStep(s, actions[0], id, total);
      RunCarries(Step(s, actions[0]), actions[1..], id, total);
    }
  }

  lemma DueIsTotal(db: Orders.Db, id: nat, total: int64)
    requires Orders.Inv(db) && 0 < id <= |db.orders| && db.orders[id - 1].total > 0 && DueLater(db, id, total)
    ensures total == db.orders[id - 1].total
  {
    var ops, mirror, catalog, user, items, pending :|
      Due(mirror, catalog, user, items, Stored(Orders.Run(db, ops), id), pending) == Some(total);
    OrderTheorems.OrdersGrow(db, ops);
    assert Stored(Orders.Run(db, ops), id) == Some(db.orders[id - 1]);
  }

  /** Every transaction of a stored order that costs something is for its total. */
  lemma RowsCarryTotal(db: Orders.Db, id: nat, actions: seq<Action>, i: nat)
    requires Orders.Inv(db) && 0 < id <= |db.orders| && db.orders[id - 1].total > 0
    requires forall k | 0 <= k < |actions| :: BeginsAtDue(actions[k], db, id)
    requires i < |Run(EMPTY, actions).rows| && Run(EMPTY, actions).rows[i].orderId == id
    ensures Run(EMPTY, actions).rows[i].totalPrice == db.orders[id - 1].total
  {
    forall k | 0 <= k < |actions| && actions[k].Begin? && actions[k].order == id ensures actions[k].total == db.orders[id - 1].total {
      assert BeginsAtDue(actions[k], db, id);
      DueIsTotal(db, id, actions[k].total);
    }
    RunCarries(EMPTY, actions, id, db.orders[id - 1].total);
  }

  /** From the quote to the table: whatever sessions and callbacks race, at whatever times and catalog prices,
      every transaction of an order that was made from a quote is for the quoted total. */
  lemma QuotedRowsCarry(db: Orders.Db, account: nat, subtotal: int64, lines: seq<CheckoutHash.Item>, quoteId: string, cartVersion: uint64,
                        placed: Orders.Db, order: Orders.Order, actions: seq<Action>, i: nat)
    requires Orders.Inv(db) && order.total > 0
    requires Orders.PlaceWithQuote(db, account, subtotal, lines, quoteId, cartVersion) == (placed, Orders.Placed(order, true))
    requires forall k | 0 <= k < |actions| :: BeginsAtDue(actions[k], placed, order.id)
    requires i < |Run(EMPTY, actions).rows| && Run(EMPTY, actions).rows[i].orderId == order.id
    ensures quoteId in db.quotes && Run(EMPTY, actions).rows[i].totalPrice == db.quotes[quoteId].total
  {
    Orders.PlaceWithQuoteKeeps(db, account, subtotal, lines, quoteId, cartVersion);
    OrderTheorems.QuotedIsOrdered(db, account, subtotal, lines, quoteId, cartVersion);
    assert placed.orders[order.id - 1] == order;
    RowsCarryTotal(placed, order.id, actions, i);
  }

  // ------------------------------------------------------- orders that cost nothing

  /** The coupon covers the whole subtotal. */
  predicate PaysForAll(c: Coupon, subtotal: int) {
    && (c.percentBasisPoint == 10000 || c.fixedAmountVND >= subtotal)
    && (c.maximumDiscountVND > 0 ==> c.maximumDiscountVND >= subtotal)
  }

  lemma PartOfAll(subtotal: int, bp: int)
    requires subtotal > 0 && 0 <= bp <= 10000
    ensures subtotal * bp / 10000 == subtotal <==> bp == 10000
  {
    if bp < 10000 {
      assert subtotal * bp < subtotal * 10000;
    }
  }

  /** An order is free exactly if its coupon pays for all of it. */
  lemma FreeExactly(c: Coupon, subtotal: int)
    requires WellFormed(c) && subtotal > 0
    ensures Promised(c, subtotal) == subtotal <==> PaysForAll(c, subtotal)
  {
    PartOfAll(subtotal, c.percentBasisPoint);
    SplitPercentage(subtotal, c.percentBasisPoint);
  }

  /** A preview with a coupon that pays for all gives a quote of 0, and the order made from it costs 0. */
  lemma FreeOrder(db: Orders.Db, account: nat, subtotal: int64, lines: seq<CheckoutHash.Item>, code: string, cartVersion: uint64, id: string)
    requires Orders.Inv(db) && Orders.ValidCheckout(account, cartVersion, lines) && subtotal > 0
    requires id != "" && id !in db.issued && code != "" && Normalize(code) == code && code in db.coupons
    requires var c := db.coupons[code];
      && WellFormed(c) && PaysForAll(c, subtotal)
      && Available(c, subtotal, Orders.Uses(db.redemptions, code), Orders.UsesBy(db.redemptions, code, account), db.now)
    ensures var (quoted, preview) := Orders.PreviewCheckout(db, account, subtotal, lines, code, cartVersion, id);
      var (placed, outcome) := Orders.PlaceWithQuote(quoted, account, subtotal, lines, id, cartVersion);
      && preview.Quoted? && preview.quote.total == 0 && Orders.Inv(placed)
      && outcome.Placed? && outcome.created && outcome.order.id == |db.orders| + 1
      && outcome.order.account == account && outcome.order.lines == lines && outcome.order.total == 0
  {
    var c := db.coupons[code];
    DiscountExact(c, subtotal, Orders.Uses(db.redemptions, code), Orders.UsesBy(db.redemptions, code, account), db.now);
    FreeExactly(c, subtotal);
    var quoted := Orders.PreviewCheckout(db, account, subtotal, lines, code, cartVersion, id).0;
    Orders.PreviewKeeps(db, account, subtotal, lines, code, cartVersion, id);
    Orders.PlaceWithQuoteKeeps(quoted, account, subtotal, lines, id, cartVersion);
    assert quoted.quotes[id].orderId == Orders.OrderOf(quoted.orders, id);
  }

  /** And Payment then charges the catalog's price for it: the order of 0 is payable, at its undiscounted
      subtotal, and its session opens a transaction for that. */
  lemma FreeOrderCharged(db: Orders.Db, account: nat, subtotal: int64, lines: seq<CheckoutHash.Item>, code: string, cartVersion: uint64, id: string,
                         mirror: map<string, Product>, catalog: map<string, int64>, items: seq<CartItem>,
                         rows: seq<Transaction>, reservations: string, ref: string)
    requires Orders.Inv(db) && Orders.ValidCheckout(account, cartVersion, lines) && subtotal > 0
    requires id != "" && id !in db.issued && code != "" && Normalize(code) == code && code in db.coupons
    requires var c := db.coupons[code];
      && WellFormed(c) && PaysForAll(c, subtotal)
      && Available(c, subtotal, Orders.Uses(db.redemptions, code), Orders.UsesBy(db.redemptions, code, account), db.now)
    requires items != [] && ValidItems(items) && AllKnown(mirror, catalog, items) && Matches(lines, Quantities(items))
    requires AllPriced(PricedItems(mirror, catalog, items)) && Total(PricedItems(mirror, catalog, items)) == subtotal
    requires FindPending(rows, |db.orders| + 1) == |rows| && FindRef(rows, ref) == |rows|
    ensures var quoted := Orders.PreviewCheckout(db, account, subtotal, lines, code, cartVersion, id).0;
      var outcome := Orders.PlaceWithQuote(quoted, account, subtotal, lines, id, cartVersion).1;
      && outcome.Placed? && outcome.order.total == 0
      && Due(mirror, catalog, account, items, Some(outcome.order), true) == Some(subtotal)
      && var (found, after) := Opened(rows, outcome.order.id, account, subtotal, reservations, ref);
         found == Some(|rows|) && |after| == |rows| + 1 && after[|rows|].totalPrice == subtotal > 0
  {
    FreeOrder(db, account, subtotal, lines, code, cartVersion, id);
  }
}
