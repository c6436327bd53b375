/** What the Order server answers to whole requests: the checks of the request, the catalog's part, and the transaction. */
module ServedOrders {
  import opened Width
  import opened Text
  import opened Coupons
  import opened CheckoutHash
  import opened Orders
  import opened OrderTheorems
  import opened CouponTheorems
  import opened QuoteTheorems
  import opened OrderServer

  /** The line has no name or no quantity, or repeats the product of one before it. */
  predicate BadLine(request: seq<Item>, i: nat)
    requires i < |request|
  {
    request[i].id == "" || request[i].quantity == 0 || exists j | 0 <= j < i :: request[j].id == request[i].id
  }

  /** A request that is empty, too long, or has such a line changes nothing; every other is in order. */
  lemma BadRequestRefused(db: Db, account: nat, subtotal: int64, request: seq<Item>, known: set<string>, quoteId: string,
                          cartVersion: uint64, couponCode: string)
    ensures Postable(request) <==> 1 <= |request| <= 100 && forall i: nat | i < |request| :: !BadLine(request, i)
    ensures !Postable(request) ==>
      Post(db, account, subtotal, request, known, quoteId, cartVersion, couponCode) == (db, Refused(InvalidOrderTotal))
  {
    if forall i: nat | i < |request| :: !BadLine(request, i) {
      forall i, j | 0 <= i < j < |request| ensures request[i].id != request[j].id {
        assert !BadLine(request, j);
      }
      forall i | 0 <= i < |request| ensures request[i].id != "" && request[i].quantity > 0 {
        assert !BadLine(request, i);
      }
    }
  }

  /** Without a quote the order is of the known products, with the coupon that the text spells. */
  lemma PostedWithCoupon(db: Db, account: nat, subtotal: int64, request: seq<Item>, known: set<string>, cartVersion: uint64,
                         text: string, code: string, after: Db, outcome: Outcome)
    requires Postable(request) && Stands(code) && Spells(text, code)
    requires (after, outcome) == Post(db, account, subtotal, request, known, "", cartVersion, text)
    ensures Ordered(db, account, subtotal, Matched(request, known), code,
                    if Usable(db, code, account, subtotal) then Some(Promised(db.coupons[code], subtotal)) else None, after, outcome)
  {
    DirectOrder(db, account, subtotal, Matched(request, known), text, code, after, outcome);
  }

  lemma PostedWithout(db: Db, account: nat, subtotal: int64, request: seq<Item>, known: set<string>, cartVersion: uint64,
                      text: string, after: Db, outcome: Outcome)
    requires Postable(request) && Blank(text)
    requires (after, outcome) == Post(db, account, subtotal, request, known, "", cartVersion, text)
    ensures Ordered(db, account, subtotal, Matched(request, known), "", Some(0), after, outcome)
  {
    DirectOrderWithout(db, account, subtotal, Matched(request, known), text, after, outcome);
  }

  /** The lines of a request in order can be hashed. */
  lemma MatchedClean(request: seq<Item>, known: set<string>)
    requires GoodLines(request) && forall x | x in request :: NUL !in x.id
    ensures Clean(Matched(request, known))
  {
    MatchedGood(request, known);
    MatchedFrom(request, known);
  }

  /** From the preview to the answer of the server, whatever runs in between, and whatever the coupon text of the request:
      the quote makes an order exactly if the request is in order and the known products among it are the previewed ones,
      at the previewed version and subtotal, for the same account, in time, unused, and with a coupon that is still
      usable. */
  lemma PostedQuote(db: Db, owner: nat, amount: int64, previewed: seq<Item>, previewCode: string, version: uint64, id: string,
                    quoted: Db, quote: Quote, ops: seq<Op>, later: Db,
                    account: nat, subtotal: int64, request: seq<Item>, known: set<string>, cartVersion: uint64, couponCode: string)
    requires Inv(db) && Clean(previewed) && id != "" && forall x | x in request :: NUL !in x.id
    requires (quoted, Quoted(quote)) == PreviewCheckout(db, owner, amount, previewed, previewCode, version, id)
    requires later == Run(quoted, ops)
    ensures var outcome := Post(later, account, subtotal, request, known, id, cartVersion, couponCode).1;
      outcome.Placed? && outcome.created <==>
        && Postable(request)
        && account == owner && later.now < db.now + TEN_MINUTES && Unused(later.orders, id)
        && cartVersion == version && subtotal == amount && multiset(Matched(request, known)) == multiset(previewed)
        && StillUsable(later, quote)
  {
    if Postable(request) {
      MatchedClean(request, known);
      PreviewHonoured(db, owner, amount, previewed, previewCode, version, id, quoted, quote, ops, later,
                      account, subtotal, Matched(request, known), cartVersion);
    }
  }
}
