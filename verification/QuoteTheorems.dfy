/** A quote from its preview on: how long it is stored, and when an order is made from it. */
module QuoteTheorems {
  import opened Width
  import opened CheckoutHash
  import opened CouponTheorems
  import opened Orders
  import opened OrderTheorems

  // Seven days and ten minutes in nanoseconds.
  const WEEK: int := 604_800_000_000_000
  const TEN_MINUTES: int := 600_000_000_000

  lemma FileRetains(db: Db, quote: Quote, other: string)
    ensures var quotes := File(db, quote).quotes;
      if other == quote.id then other in quotes && quotes[other] == quote
      else
        && (other in quotes <==> other in db.quotes && db.now <= db.quotes[other].expiresAt + WEEK)
        && (other in quotes ==> quotes[other] == db.quotes[other])
  {
  }

  lemma PreviewFiles(db: Db, account: nat, subtotal: int64, items: seq<Item>, couponCode: string, cartVersion: uint64, id: string,
                     after: Db, outcome: Outcome)
    requires (after, outcome) == PreviewCheckout(db, account, subtotal, items, couponCode, cartVersion, id) && outcome.Quoted?
    ensures after == File(db, outcome.quote) && outcome.quote.id == id && id !in db.issued
  {
  }

  /** A preview stores its quote, keeps the others that ran out no more than seven days ago, unchanged, and deletes
      exactly the rest. */
  lemma PreviewRetains(db: Db, account: nat, subtotal: int64, items: seq<Item>, couponCode: string, cartVersion: uint64, id: string,
                       after: Db, outcome: Outcome, other: string)
    requires (after, outcome) == PreviewCheckout(db, account, subtotal, items, couponCode, cartVersion, id) && outcome.Quoted?
    ensures if other == id then other in after.quotes && after.quotes[other] == outcome.quote
      else
        && (other in after.quotes <==> other in db.quotes && db.now <= db.quotes[other].expiresAt + WEEK)
        && (other in after.quotes ==> after.quotes[other] == db.quotes[other])
  {
    PreviewFiles(db, account, subtotal, items, couponCode, cartVersion, id, after, outcome);
    FileRetains(db, outcome.quote, other);
  }

  /** What a preview promises: its quote runs out ten minutes later and no order has it. */
  lemma PreviewIssues(db: Db, account: nat, subtotal: int64, items: seq<Item>, couponCode: string, cartVersion: uint64, id: string,
                      after: Db, quote: Quote)
    requires (after, Quoted(quote)) == PreviewCheckout(db, account, subtotal, items, couponCode, cartVersion, id)
    ensures id !in db.issued && id in after.issued && id in after.quotes && after.quotes[id] == quote && after.now == db.now
    ensures quote.id == id && quote.account == account && quote.cartVersion == cartVersion && quote.subtotal == subtotal
    ensures quote.text == HashText(items) && quote.orderId == 0 && quote.expiresAt == db.now + TEN_MINUTES
    ensures 0 < account && 0 < cartVersion && 1 <= |items| <= 100
  {
    PreviewFiles(db, account, subtotal, items, couponCode, cartVersion, id, after, Quoted(quote));
    FileRetains(db, quote, id);
  }

  lemma StepRetains(db: Db, op: Op, id: string)
    requires id in db.issued && id in db.quotes
    ensures var after := Step(db, op).0;
      db.now <= after.now && (after.now <= db.quotes[id].expiresAt + WEEK ==> id in after.quotes)
  {
    match op
    case Preview(account, subtotal, items, couponCode, cartVersion, newId) =>
      var (after, outcome) := Step(db, op);
      if outcome.Quoted? {
        PreviewFiles(db, account, subtotal, items, couponCode, cartVersion, newId, after, outcome);
        FileRetains(db, outcome.quote, id);
      }
    case _ =>
  }

  lemma ClockStep(db: Db, op: Op)
    ensures db.now <= Step(db, op).0.now
  {
  }

  lemma {:induction false} ClockRuns(db: Db, ops: seq<Op>)
    ensures db.now <= Run(db, ops).now
    decreases |ops|
  {
    if ops != [] {
      ClockStep(db, ops[0]);
      ClockRuns(Step(db, ops[0]).0, ops[1..]);
    }
  }

  /** Over every run a stored quote is still stored, with the same terms, until a week after it ran out. */
  lemma {:induction false} QuoteRetained(db: Db, ops: seq<Op>, id: string)
    requires id in db.issued && id in db.quotes && Run(db, ops).now <= db.quotes[id].expiresAt + WEEK
    ensures id in Run(db, ops).quotes
    ensures Run(db, ops).quotes[id] == db.quotes[id].(orderId := Run(db, ops).quotes[id].orderId)
    decreases |ops|
  {
    if ops != [] {
      var next := Step(db, ops[0]).0;
      ClockRuns(next, ops[1..]);
      StepRetains(db, ops[0], id);
      QuoteStep(db, ops[0], id);
      QuoteRetained(next, ops[1..], id);
    }
  }

  /** No order was made from the quote. */
  ghost predicate Unused(orders: seq<Order>, id: string) {
    forall i | 0 <= i < |orders| :: orders[i].quoteId != Some(id)
  }

  /** The coupon of a quote, if any, can still be used. */
  predicate StillUsable(db: Db, quote: Quote) {
    quote.coupon != "" ==> Usable(db, quote.coupon, quote.account, quote.subtotal)
  }

  lemma HonouredWhenStored(db: Db, quote: Quote, previewed: seq<Item>, account: nat, subtotal: int64, items: seq<Item>, cartVersion: uint64)
    requires Inv(db) && Clean(previewed) && Clean(items) && quote.text == HashText(previewed) && quote.id != ""
    requires ValidCheckout(account, cartVersion, items)
    requires quote.id in db.quotes && db.quotes[quote.id] == quote.(orderId := db.quotes[quote.id].orderId)
    ensures var outcome := PlaceWithQuote(db, account, subtotal, items, quote.id, cartVersion).1;
      outcome.Placed? && outcome.created <==>
        && account == quote.account && db.now < quote.expiresAt && Unused(db.orders, quote.id)
        && cartVersion == quote.cartVersion && subtotal == quote.subtotal
        && multiset(items) == multiset(previewed) && StillUsable(db, quote)
  {
    assert db.quotes[quote.id].orderId == OrderOf(db.orders, quote.id);
    QuoteAccepted(db, quote.id, account, subtotal, items, cartVersion);
    HashTextCanonical(items, previewed);
    if quote.coupon != "" { DiscountOf(db, quote.account, quote.subtotal, quote.coupon); }
  }

  lemma RefusedWhenInvalid(db: Db, id: string, account: nat, subtotal: int64, items: seq<Item>, cartVersion: uint64)
    requires id == "" || account == 0 || cartVersion == 0 || |items| == 0 || |items| > 100
    ensures PlaceWithQuote(db, account, subtotal, items, id, cartVersion) == (db, Refused(InvalidCheckoutQuote))
  {
  }

  lemma RefusedWhenGone(db: Db, id: string, account: nat, subtotal: int64, items: seq<Item>, cartVersion: uint64)
    requires id !in db.quotes
    ensures PlaceWithQuote(db, account, subtotal, items, id, cartVersion).1.Refused?
  {
  }

  /** The quote is the account's, still runs, and is for this version, subtotal and items. */
  predicate Presented(db: Db, id: string, account: nat, subtotal: int64, items: seq<Item>, cartVersion: uint64) {
    && id in db.quotes && var quote := db.quotes[id];
    && quote.account == account && db.now < quote.expiresAt && quote.cartVersion == cartVersion
    && quote.subtotal == subtotal && quote.text == HashText(items)
  }

  /** Why a valid request with a quote is refused: its total is negative, the coupon of an unused quote that is
      presented as it should be is no longer usable, or else the quote is no good.  Neither the unique index on the
      quote nor a missing order ever is the reason. */
  lemma QuoteRefusals(db: Db, id: string, account: nat, subtotal: int64, items: seq<Item>, cartVersion: uint64, outcome: Outcome)
    requires Inv(db) && id != "" && ValidCheckout(account, cartVersion, items)
    requires outcome == PlaceWithQuote(db, account, subtotal, items, id, cartVersion).1 && outcome.Refused?
    ensures outcome.error
         == if subtotal < 0 then InvalidOrderTotal
            else if Presented(db, id, account, subtotal, items, cartVersion) && Unused(db.orders, id) && !StillUsable(db, db.quotes[id])
            then InvalidCoupon else InvalidCheckoutQuote
  {
    if id in db.quotes {
      var quote := db.quotes[id];
      assert quote.orderId == OrderOf(db.orders, id);
      if quote.coupon != "" && subtotal >= 0 { DiscountOf(db, account, subtotal, quote.coupon); }
    }
  }

  /** From the preview on, whatever else runs: an order is made from the quote exactly when its account presents it,
      within ten minutes of the preview, unused, for the previewed cart version, subtotal and items, while its
      coupon, if any, is still usable. */
  lemma PreviewHonoured(db: Db, owner: nat, amount: int64, previewed: seq<Item>, couponCode: string, version: uint64, id: string,
                        quoted: Db, quote: Quote, ops: seq<Op>, later: Db,
                        account: nat, subtotal: int64, items: seq<Item>, cartVersion: uint64)
    requires Inv(db) && Clean(previewed) && Clean(items)
    requires (quoted, Quoted(quote)) == PreviewCheckout(db, owner, amount, previewed, couponCode, version, id)
    requires later == Run(quoted, ops)
    ensures var outcome := PlaceWithQuote(later, account, subtotal, items, id, cartVersion).1;
      outcome.Placed? && outcome.created <==>
        && id != "" && account == owner && later.now < db.now + TEN_MINUTES && Unused(later.orders, id)
        && cartVersion == version && subtotal == amount && multiset(items) == multiset(previewed)
        && StillUsable(later, quote)
  {
    PreviewIssues(db, owner, amount, previewed, couponCode, version, id, quoted, quote);
    PreviewKeeps(db, owner, amount, previewed, couponCode, version, id);
    RunKeeps(quoted, ops);
    QuoteRun(quoted, ops, id);
    if later.now < quote.expiresAt {
      QuoteRetained(quoted, ops, id);
    }
    assert |multiset(items)| == |items| && |multiset(previewed)| == |previewed|;
    if id == "" || !ValidCheckout(account, cartVersion, items) {
      RefusedWhenInvalid(later, id, account, subtotal, items, cartVersion);
    } else if id in later.quotes {
      HonouredWhenStored(later, quote, previewed, account, subtotal, items, cartVersion);
    } else {
      RefusedWhenGone(later, id, account, subtotal, items, cartVersion);
    }
  }

  /** A replay within a week needs no luck either: for that long a used quote gives its order again. */
  lemma ReplayWithinAWeek(db: Db, ops: seq<Op>, quoteId: string, subtotal: int64, items: seq<Item>, cartVersion: uint64)
    requires Inv(db) && quoteId in db.quotes && db.quotes[quoteId].orderId != 0 && quoteId != ""
    requires Run(db, ops).now <= db.quotes[quoteId].expiresAt + WEEK
    requires ValidCheckout(db.quotes[quoteId].account, cartVersion, items) && subtotal >= 0
    ensures var order := db.orders[db.quotes[quoteId].orderId - 1];
      && order.quoteId == Some(quoteId)
      && PlaceWithQuote(Run(db, ops), db.quotes[quoteId].account, subtotal, items, quoteId, cartVersion)
         == (Run(db, ops), Placed(order.(lines := items + order.lines), false))
  {
    QuoteRetained(db, ops, quoteId);
    ReplayReturnsTheOrder(db, ops, quoteId, subtotal, items, cartVersion);
  }
}
