/** When a coupon is accepted and what it is worth, for direct orders and previews. */
module CouponTheorems {
  import opened Width
  import opened Text
  import opened Coupons
  import opened CheckoutHash
  import opened Orders

  // ------------------------------------------------------------- one coupon

  /** What is asked of a coupon row: it is active, named, has started and not ended, has room for one more use of
      anyone and of this account, and gives either 1 to 10000 basis points or an amount. */
  predicate Accepts(c: Coupon, subtotal: int, uses: nat, mine: nat, now: int) {
    && c.active && !Blank(c.code) && c.minimumSubtotalVND <= subtotal
    && (c.startsAt.None? || c.startsAt.value <= now) && (c.expiresAt.None? || now < c.expiresAt.value)
    && (c.maximumRedemptions <= 0 || uses < c.maximumRedemptions)
    && (c.perAccountLimit <= 0 || mine < c.perAccountLimit)
    && ((1 <= c.percentBasisPoint <= 10000 && c.fixedAmountVND == 0) || (c.percentBasisPoint == 0 && 0 < c.fixedAmountVND))
  }

  /** `d` is within the subtotal, the cap and what the coupon gives. */
  predicate Allows(c: Coupon, subtotal: int, d: int) {
    && d <= subtotal && (0 < c.maximumDiscountVND ==> d <= c.maximumDiscountVND)
    && (if 0 < c.percentBasisPoint then d * 10000 <= subtotal * c.percentBasisPoint else d <= c.fixedAmountVND)
  }

  lemma FloorBounds(n: int)
    ensures n / 10000 * 10000 <= n < (n / 10000 + 1) * 10000
  {
  }

  /** The discount is the largest amount that these bounds allow. */
  lemma PromisedLargest(c: Coupon, subtotal: int)
    ensures Allows(c, subtotal, Promised(c, subtotal)) && !Allows(c, subtotal, Promised(c, subtotal) + 1)
  {
    FloorBounds(subtotal * c.percentBasisPoint);
  }

  /** A discount is granted exactly if the row asks for no more. */
  lemma GrantedExactly(c: Coupon, subtotal: int64, uses: nat, mine: nat, now: int)
    ensures CouponDiscount(c, subtotal, uses, mine, now)
         == if 0 <= subtotal && Accepts(c, subtotal, uses, mine, now) then Some(Promised(c, subtotal)) else None
  {
    TrimSpaceBlank(c.code);
    DiscountExact(c, subtotal, uses, mine, now);
  }

  /** The rows that redeem the code, and those of one account among them. */
  ghost function Redeemed(rs: seq<Redemption>, code: string): set<int> {
    set i | 0 <= i < |rs| && rs[i].coupon == code
  }

  ghost function RedeemedBy(rs: seq<Redemption>, code: string, account: nat): set<int> {
    set i | 0 <= i < |rs| && rs[i].coupon == code && rs[i].account == account
  }

  lemma {:induction false} UsesCount(rs: seq<Redemption>, code: string)
    ensures Uses(rs, code) == |Redeemed(rs, code)|
  {
    if rs != [] {
      var n := |rs| - 1;
      var before := Redeemed(rs[..n], code);
      UsesCount(rs[..n], code);
      assert n !in before;
      assert Redeemed(rs, code) == if rs[n].coupon == code then before + {n} else before;
    }
  }

  lemma {:induction false} UsesByCount(rs: seq<Redemption>, code: string, account: nat)
    ensures UsesBy(rs, code, account) == |RedeemedBy(rs, code, account)|
  {
    if rs != [] {
      var n := |rs| - 1;
      var before := RedeemedBy(rs[..n], code, account);
      UsesByCount(rs[..n], code, account);
      assert n !in before;
      assert RedeemedBy(rs, code, account) == if rs[n].coupon == code && rs[n].account == account then before + {n} else before;
    }
  }

  /** The two counts are the numbers of these rows. */
  lemma UsesExactly(rs: seq<Redemption>, code: string, account: nat)
    ensures Uses(rs, code) == |Redeemed(rs, code)| && UsesBy(rs, code, account) == |RedeemedBy(rs, code, account)|
  {
    UsesCount(rs, code);
    UsesByCount(rs, code, account);
  }

  // -------------------------------------------------------- orders and quotes

  /** The row stored under a code grants this account a discount on the subtotal now. */
  predicate Usable(db: Db, code: string, account: nat, subtotal: int) {
    code in db.coupons && Accepts(db.coupons[code], subtotal, Uses(db.redemptions, code), UsesBy(db.redemptions, code, account), db.now)
  }

  lemma DiscountOf(db: Db, account: nat, subtotal: int64, code: string)
    requires code != "" && 0 <= subtotal
    ensures Discount(db, account, subtotal, code)
         == if Usable(db, code, account, subtotal) then Some(Promised(db.coupons[code], subtotal)) else None
  {
    if code in db.coupons {
      GrantedExactly(db.coupons[code], subtotal, Uses(db.redemptions, code), UsesBy(db.redemptions, code, account), db.now);
    }
  }

  /** The outcome of a direct order at the discount `d`, None if its coupon is not usable. */
  ghost predicate Ordered(db: Db, account: nat, subtotal: int, items: seq<Item>, code: string, d: Option<int>, after: Db, outcome: Outcome) {
    if subtotal < 0 then after == db && outcome == Refused(InvalidOrderTotal)
    else if d.None? then after == db && outcome == Refused(InvalidCoupon)
    else
      && outcome.Placed? && outcome.created && var o := outcome.order;
      && o.id == |db.orders| + 1 && o.account == account && o.lines == items && o.quoteId.None? && o.coupon == code
      && o.subtotal == subtotal && o.discount == d.value && o.total == subtotal - d.value && 0 <= o.total <= subtotal
      && after.orders == db.orders + [o]
      && after.redemptions == (if code == "" then db.redemptions else db.redemptions + [Redemption(code, o.id, account)])
      && after.quotes == db.quotes && after.coupons == db.coupons && after.issued == db.issued && after.now == db.now
  }

  lemma OrderedAt(db: Db, account: nat, subtotal: int64, items: seq<Item>, code: string, d: Option<int64>, after: Db, outcome: Outcome)
    requires 0 <= subtotal && (d.Some? ==> 0 <= d.value <= subtotal)
    requires (after, outcome) == PlaceAt(db, account, subtotal, items, code, d)
    ensures Ordered(db, account, subtotal, items, code, d, after, outcome)
  {
    assert db.redemptions + [] == db.redemptions;
  }

  /** A direct order whose text spells a stored code is placed exactly if the subtotal is not negative and that
      coupon is usable.  It carries the code, its discount and the rest as the total, and is one redemption more. */
  lemma DirectOrder(db: Db, account: nat, subtotal: int64, items: seq<Item>, text: string, code: string, after: Db, outcome: Outcome)
    requires Stands(code) && Spells(text, code)
    requires (after, outcome) == Place(db, account, subtotal, items, text)
    ensures Ordered(db, account, subtotal, items, code,
                    if Usable(db, code, account, subtotal) then Some(Promised(db.coupons[code], subtotal)) else None, after, outcome)
  {
    NormalizesExactly(text, code);
    if 0 <= subtotal {
      DiscountOf(db, account, subtotal, code);
      if Usable(db, code, account, subtotal) { DiscountBounded(db.coupons[code], subtotal); }
      OrderedAt(db, account, subtotal, items, code, Discount(db, account, subtotal, code), after, outcome);
    }
  }

  /** A direct order without a code is placed at its subtotal, without a discount and without a redemption. */
  lemma DirectOrderWithout(db: Db, account: nat, subtotal: int64, items: seq<Item>, text: string, after: Db, outcome: Outcome)
    requires Blank(text)
    requires (after, outcome) == Place(db, account, subtotal, items, text)
    ensures Ordered(db, account, subtotal, items, "", Some(0), after, outcome)
  {
    BlankIsNoCode(text);
    if 0 <= subtotal { OrderedAt(db, account, subtotal, items, "", Some(0), after, outcome); }
  }

  /** What every preview asks for besides its coupon. */
  predicate Previewable(db: Db, account: nat, subtotal: int, items: seq<Item>, cartVersion: int, id: string) {
    account > 0 && cartVersion > 0 && 1 <= |items| <= 100 && subtotal >= 0 && id !in db.issued
  }

  /** The outcome of a preview at the discount `d`, None if its coupon is not usable. */
  ghost predicate Previewed(db: Db, account: nat, subtotal: int, items: seq<Item>, code: string, cartVersion: int, id: string,
                            d: Option<int>, after: Db, outcome: Outcome)
  {
    if !Previewable(db, account, subtotal, items, cartVersion, id) then after == db && outcome == Refused(InvalidOrderTotal)
    else if d.None? then after == db && outcome == Refused(InvalidCoupon)
    else
      && after.orders == db.orders && after.redemptions == db.redemptions && after.coupons == db.coupons && after.now == db.now
      && outcome.Quoted? && var q := outcome.quote;
      && q.id == id && q.account == account && q.text == HashText(items) && q.cartVersion == cartVersion && q.coupon == code
      && q.subtotal == subtotal && q.discount == d.value && q.total == subtotal - d.value && 0 <= q.total <= subtotal
      && q.expiresAt == db.now + 600_000_000_000 && q.orderId == 0
  }

  lemma PreviewedAt(db: Db, account: nat, subtotal: int64, items: seq<Item>, code: string, cartVersion: uint64, id: string,
                    d: Option<int64>, after: Db, outcome: Outcome)
    requires Previewable(db, account, subtotal, items, cartVersion, id) && (d.Some? ==> 0 <= d.value <= subtotal)
    requires (after, outcome) == QuoteAt(db, account, subtotal, items, code, cartVersion, id, d)
    ensures Previewed(db, account, subtotal, items, code, cartVersion, id, d, after, outcome)
  {
  }

  lemma PreviewIsAt(db: Db, account: nat, subtotal: int64, items: seq<Item>, text: string, cartVersion: uint64, id: string,
                    code: string, again: string, after: Db, outcome: Outcome)
    requires (after, outcome) == PreviewCheckout(db, account, subtotal, items, text, cartVersion, id)
    requires Previewable(db, account, subtotal, items, cartVersion, id) && code == Normalize(text) && again == Normalize(code)
    ensures (after, outcome) == QuoteAt(db, account, subtotal, items, code, cartVersion, id, Discount(db, account, subtotal, again))
  {
  }

  lemma NotPreviewable(db: Db, account: nat, subtotal: int64, items: seq<Item>, text: string, cartVersion: uint64, id: string)
    requires !Previewable(db, account, subtotal, items, cartVersion, id)
    ensures PreviewCheckout(db, account, subtotal, items, text, cartVersion, id) == (db, Refused(InvalidOrderTotal))
  {
  }

  /** A preview accepts and grants what an order with the same text would. */
  lemma PreviewWithCode(db: Db, account: nat, subtotal: int64, items: seq<Item>, text: string, code: string, cartVersion: uint64, id: string,
                        after: Db, outcome: Outcome)
    requires Stands(code) && Spells(text, code)
    requires (after, outcome) == PreviewCheckout(db, account, subtotal, items, text, cartVersion, id)
    ensures Previewed(db, account, subtotal, items, code, cartVersion, id,
                      if Usable(db, code, account, subtotal) then Some(Promised(db.coupons[code], subtotal)) else None, after, outcome)
  {
    NormalizesExactly(text, code);
    if Previewable(db, account, subtotal, items, cartVersion, id) {
      NormalizeTwice(text);
      PreviewIsAt(db, account, subtotal, items, text, cartVersion, id, code, code, after, outcome);
      DiscountOf(db, account, subtotal, code);
      if Usable(db, code, account, subtotal) { DiscountBounded(db.coupons[code], subtotal); }
      PreviewedAt(db, account, subtotal, items, code, cartVersion, id, Discount(db, account, subtotal, code), after, outcome);
    } else {
      NotPreviewable(db, account, subtotal, items, text, cartVersion, id);
    }
  }

  /** And without a code the quote is for the subtotal. */
  lemma PreviewWithout(db: Db, account: nat, subtotal: int64, items: seq<Item>, text: string, cartVersion: uint64, id: string,
                       after: Db, outcome: Outcome)
    requires Blank(text)
    requires (after, outcome) == PreviewCheckout(db, account, subtotal, items, text, cartVersion, id)
    ensures Previewed(db, account, subtotal, items, "", cartVersion, id, Some(0), after, outcome)
  {
    BlankIsNoCode(text);
    if Previewable(db, account, subtotal, items, cartVersion, id) {
      NormalizeTwice(text);
      PreviewIsAt(db, account, subtotal, items, text, cartVersion, id, "", "", after, outcome);
      PreviewedAt(db, account, subtotal, items, "", cartVersion, id, Some(0), after, outcome);
    } else {
      NotPreviewable(db, account, subtotal, items, text, cartVersion, id);
    }
  }
}
