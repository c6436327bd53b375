/** The payment service: what a checkout costs, the session for it, and the callback that settles it. */
module PaymentService {
  import opened Width
  import opened Text
  import opened Coupons
  import CheckoutHash
  import opened OrderMatch
  import Orders
  import OrderTheorems
  import opened Payments
  import opened PaymentTheorems
  import opened Vnpay

  datatype CartItem = CartItem(productId: string, quantity: uint64)

  datatype Product = Product(id: string, price: int64, currency: string)

  // ------------------------------------------------------------- the request

  predicate ValidItem(item: CartItem) {
    !Blank(item.productId) && item.quantity != 0
  }

  ghost predicate ValidItems(items: seq<CartItem>) {
    && (forall i | 0 <= i < |items| :: ValidItem(items[i]))
    && (forall i, j | 0 <= i < j < |items| :: items[i].productId != items[j].productId)
  }

  function ProductIds(items: seq<CartItem>): seq<string> {
    if items == [] then [] else ProductIds(items[..|items| - 1]) + [items[|items| - 1].productId]
  }

  function Quantities(items: seq<CartItem>): map<string, uint64> {
    if items == [] then map[] else Quantities(items[..|items| - 1])[items[|items| - 1].productId := items[|items| - 1].quantity]
  }

  function Named(items: seq<CartItem>): set<string> {
    set i | 0 <= i < |items| :: items[i].productId
  }

  lemma {:induction false} QuantitiesKeys(items: seq<CartItem>)
    ensures Quantities(items).Keys == Named(items)
  {
    if items != [] {
      var n := |items| - 1;
      QuantitiesKeys(items[..n]);
      assert Named(items) == Named(items[..n]) + {items[n].productId};
    }
  }

  /** In a valid request every product has its own quantity. */
  lemma {:induction false} QuantityOfItem(items: seq<CartItem>, i: nat)
    requires ValidItems(items) && i < |items|
    ensures items[i].productId in Quantities(items) && Quantities(items)[items[i].productId] == items[i].quantity
  {
    var n := |items| - 1;
    if i < n {
      QuantityOfItem(items[..n], i);
      assert items[i].productId != items[n].productId;
    }
  }

  lemma ValidExtend(items: seq<CartItem>, item: CartItem)
    requires ValidItems(items)
    ensures ValidItems(items + [item]) <==> ValidItem(item) && item.productId !in Named(items)
  {
    var s := items + [item];
    assert s[|items|] == item && forall i | 0 <= i < |items| :: s[i] == items[i];
  }

  lemma ValidPrefix(items: seq<CartItem>, n: nat)
    requires n <= |items| && ValidItems(items)
    ensures ValidItems(items[..n])
  {
  }

  /** One more item of the loop. */
  lemma CollectOne(items: seq<CartItem>, i: nat)
    requires i < |items| && ValidItems(items[..i])
    ensures ValidItems(items[..i + 1]) <==> ValidItem(items[i]) && items[i].productId !in Quantities(items[..i])
    ensures ProductIds(items[..i + 1]) == ProductIds(items[..i]) + [items[i].productId]
    ensures Quantities(items[..i + 1]) == Quantities(items[..i])[items[i].productId := items[i].quantity]
  {
    assert items[..i + 1] == items[..i] + [items[i]];
    ValidExtend(items[..i], items[i]);
    QuantitiesKeys(items[..i]);
  }

  /** The code's test of one item. */
  predicate Unusable(item: CartItem)
    ensures Unusable(item) <==> !ValidItem(item)
  {
    TrimSpaceBlank(item.productId);
    TrimSpace(item.productId) == "" || item.quantity == 0
  }

  /** The ids in order and the quantity of each; exactly the non-empty lists of distinct products with
      positive quantities are accepted. */
  method CollectQuantities(items: seq<CartItem>) returns (r: Option<(seq<string>, map<string, uint64>)>)
    ensures r == if items != [] && ValidItems(items) then Some((ProductIds(items), Quantities(items))) else None
  {
    if items == [] {
      return None;
    }
    var ids: seq<string>, quantities: map<string, uint64> := [], map[];
    for i := 0 to |items|
      invariant ValidItems(items[..i]) && ids == ProductIds(items[..i]) && quantities == Quantities(items[..i])
    {
      var item := items[i];
      CollectOne(items, i);
      if Unusable(item) || item.productId in quantities {
        if ValidItems(items) { ValidPrefix(items, i + 1); }
        return None;
      }
      ids, quantities := ids + [item.productId], quantities[item.productId := item.quantity];
    }
    assert items[..|items|] == items;
    r := Some((ids, quantities));
  }

  // ------------------------------------------------------------- the prices

  /** Rows of the mirror are filed under their own ids. */
  predicate MirrorOk(mirror: map<string, Product>) {
    forall id | id in mirror :: mirror[id].id == id
  }

  /** The product a checkout uses: the catalog's price if the catalog knows the id, else the local mirror. */
  function Effective(mirror: map<string, Product>, catalog: map<string, int64>, id: string): Option<Product> {
    if id in catalog then Some(Product(id, catalog[id], "VND")) else if id in mirror then Some(mirror[id]) else None
  }

  /** The mirror after the ids were looked up in the catalog. */
  ghost predicate Refreshed(mirror: map<string, Product>, catalog: map<string, int64>, ids: seq<string>, refreshed: map<string, Product>) {
    && (forall id | id !in ids || id !in catalog :: (id in refreshed <==> id in mirror) && (id in mirror ==> refreshed[id] == mirror[id]))
    && (forall id | id in ids && id in catalog :: id in refreshed && refreshed[id] == Product(id, catalog[id], "VND"))
  }

  /** Refreshes the mirror from the catalog, id by id, up to the first invalid price. */
  method RefreshMirror(mirror: map<string, Product>, catalog: map<string, int64>, ids: seq<string>)
    returns (ok: bool, refreshed: map<string, Product>)
    ensures ok <==> forall i | 0 <= i < |ids| :: ids[i] in catalog ==> catalog[ids[i]] > 0
    ensures exists n :: 0 <= n <= |ids| && Refreshed(mirror, catalog, ids[..n], refreshed) && (ok ==> n == |ids|)
  {
    refreshed := mirror;
    for i := 0 to |ids|
      invariant forall k | 0 <= k < i :: ids[k] in catalog ==> catalog[ids[k]] > 0
      invariant Refreshed(mirror, catalog, ids[..i], refreshed)
    {
      assert ids[..i + 1] == ids[..i] + [ids[i]];
      if ids[i] in catalog {
        if catalog[ids[i]] <= 0 {
          return false, refreshed;
        }
        refreshed := refreshed[ids[i] := Product(ids[i], catalog[ids[i]], "VND")];
      }
    }
    ok := true;
  }

  /** The known products in request order; it fails exactly if the catalog has an invalid price for one of
      the ids. */
  method ProductsForCheckout(mirror: map<string, Product>, catalog: map<string, int64>, ids: seq<string>)
    returns (products: Option<seq<Product>>, refreshed: map<string, Product>)
    ensures products.Some? <==> forall i | 0 <= i < |ids| :: ids[i] in catalog ==> catalog[ids[i]] > 0
    ensures products.Some? ==>
      && (|products.value| == |ids| <==> forall i | 0 <= i < |ids| :: Effective(mirror, catalog, ids[i]).Some?)
      && (|products.value| == |ids| ==> forall i | 0 <= i < |ids| :: Some(products.value[i]) == Effective(mirror, catalog, ids[i]))
      && Refreshed(mirror, catalog, ids, refreshed)
    ensures MirrorOk(mirror) ==> MirrorOk(refreshed)
  {
    var ok, byID := RefreshMirror(mirror, catalog, ids);
    refreshed := byID;
    if !ok {
      return None, byID;
    }
    assert ids[..|ids|] == ids;
    var ordered: seq<Product> := [];
    for i := 0 to |ids|
      invariant |ordered| <= i
      invariant |ordered| == i <==> forall k | 0 <= k < i :: Effective(mirror, catalog, ids[k]).Some?
      invariant |ordered| == i ==> forall k | 0 <= k < i :: Some(ordered[k]) == Effective(mirror, catalog, ids[k])
    {
      if ids[i] in byID {
        ordered := ordered + [byID[ids[i]]];
      }
    }
    products := Some(ordered);
  }

  /** What one unit costs; an amount in another currency is no price. */
  function UnitPrice(product: Product): int64 {
    if product.currency == "VND" then product.price else 0
  }

  /** The priced lines of a checkout. */
  function LinesOf(products: seq<Product>, quantities: map<string, uint64>): (lines: seq<Priced>)
    ensures |lines| == |products|
  {
    seq(|products|, i requires 0 <= i < |products| => Priced(UnitPrice(products[i]), Requested(quantities, products[i].id)))
  }

  /** Every requested product is known, and the catalog has no invalid price for one of them. */
  ghost predicate AllKnown(mirror: map<string, Product>, catalog: map<string, int64>, items: seq<CartItem>) {
    forall i | 0 <= i < |items| ::
      && Effective(mirror, catalog, items[i].productId).Some?
      && (items[i].productId in catalog ==> catalog[items[i].productId] > 0)
  }

  /** The request's lines at the prices in force. */
  ghost function PricedItems(mirror: map<string, Product>, catalog: map<string, int64>, items: seq<CartItem>): (lines: seq<Priced>)
    requires AllKnown(mirror, catalog, items)
    ensures |lines| == |items|
  {
    seq(|items|, i requires 0 <= i < |items| =>
      Priced(UnitPrice(Effective(mirror, catalog, items[i].productId).value), items[i].quantity))
  }

  lemma {:induction false} ProductIdsAt(items: seq<CartItem>)
    ensures |ProductIds(items)| == |items|
    ensures forall i | 0 <= i < |items| :: ProductIds(items)[i] == items[i].productId
  {
    if items != [] { ProductIdsAt(items[..|items| - 1]); }
  }

  /** The lines the code builds from ids, products and quantities are the request's own. */
  lemma LinesAgree(mirror: map<string, Product>, catalog: map<string, int64>, items: seq<CartItem>, products: seq<Product>)
    requires MirrorOk(mirror) && ValidItems(items) && AllKnown(mirror, catalog, items)
    requires |products| == |items|
    requires forall i | 0 <= i < |items| :: Some(products[i]) == Effective(mirror, catalog, items[i].productId)
    ensures LinesOf(products, Quantities(items)) == PricedItems(mirror, catalog, items)
  {
    forall i | 0 <= i < |items|
      ensures LinesOf(products, Quantities(items))[i] == PricedItems(mirror, catalog, items)[i]
    {
      QuantityOfItem(items, i);
      assert products[i] == Effective(mirror, catalog, items[i].productId).value;
    }
  }

  // -------------------------------------------------------------- the order

  /** The amount a session is found for: the order's own total, unless that is 0. */
  function AmountDue(order: Orders.Order, user: nat, pending: bool, quantities: map<string, uint64>, catalogSubtotal: int64): Option<int64> {
    if order.account != user || !pending || !Matches(order.lines, quantities) then None
    else if order.total > 0 then
      if order.subtotal != catalogSubtotal || order.discount < 0 || order.discount > catalogSubtotal
         || order.total != Wrap64(catalogSubtotal - order.discount) then None
      else Some(order.total)
    else Some(catalogSubtotal)
  }

  /** What the order says is what is charged, exactly when the order's total is positive: a fully
      discounted order is charged its undiscounted catalog price. */
  lemma ChargedAsOrdered(order: Orders.Order, user: nat, pending: bool, quantities: map<string, uint64>, catalogSubtotal: int64)
    requires 0 <= order.total && 0 < catalogSubtotal
    requires AmountDue(order, user, pending, quantities, catalogSubtotal).Some?
    ensures AmountDue(order, user, pending, quantities, catalogSubtotal).value == order.total <==> order.total > 0
    ensures order.total == 0 ==> AmountDue(order, user, pending, quantities, catalogSubtotal).value == catalogSubtotal
  {
  }

  /** An order as Order makes them is payable exactly when it is pending and the user's own, the request
      is for its lines, and, unless it is free, the catalog still prices it at its subtotal. */
  lemma Payable(db: Orders.Db, k: nat, user: nat, pending: bool, quantities: map<string, uint64>, catalogSubtotal: int64)
    requires Orders.Inv(db) && k < |db.orders|
    ensures var order := db.orders[k];
      AmountDue(order, user, pending, quantities, catalogSubtotal).Some? <==>
        && order.account == user && pending && Matches(order.lines, quantities)
        && (order.total > 0 ==> catalogSubtotal == order.subtotal)
  {
    var order := db.orders[k];
    assert Orders.PricedBy(db.coupons, order.subtotal, order.discount, order.total, order.coupon);
  }

  // -------------------------------------------------------------- the service

  /** What a request asks to pay: the amount due on its order at the sum of its lines' prices. */
  ghost function Due(mirror: map<string, Product>, catalog: map<string, int64>, user: nat, items: seq<CartItem>,
                     stored: Option<Orders.Order>, pending: bool): Option<int64>
  {
    if items == [] || !ValidItems(items) || !AllKnown(mirror, catalog, items) || stored.None? then None
    else
      var lines := PricedItems(mirror, catalog, items);
      if AllPriced(lines) && Total(lines) <= MAX_INT64
      then AmountWithin(stored.value, user, pending, Quantities(items), Total(lines)) else None
  }

  /** The amount due at a catalog subtotal that fits an int64. */
  function AmountWithin(order: Orders.Order, user: nat, pending: bool, quantities: map<string, uint64>, subtotal: int): Option<int64> {
    if 0 <= subtotal <= MAX_INT64 then AmountDue(order, user, pending, quantities, subtotal) else None
  }

  /** The order the client returned, if it is the one that was asked for. */
  function Fetched(stored: Option<Orders.Order>, order: nat): Option<Orders.Order> {
    if stored.Some? && stored.value.id == order then stored else None
  }

  /** Collects the quantities and the products, adds up the prices and looks at the order. */
  method PriceSession(mirror: map<string, Product>, catalog: map<string, int64>, user: nat, items: seq<CartItem>,
                      stored: Option<Orders.Order>, pending: bool)
    returns (total: Option<int64>, refreshed: map<string, Product>)
    requires MirrorOk(mirror)
    ensures total == Due(mirror, catalog, user, items, stored, pending) && MirrorOk(refreshed)
  {
    refreshed := mirror;
    var collected := CollectQuantities(items);
    if collected.None? {
      return None, refreshed;
    }
    var (ids, quantities) := collected.value;
    var subtotal;
    subtotal, refreshed := CatalogTotal(mirror, catalog, items, ids, quantities);
    if subtotal.None? || stored.None? {
      return None, refreshed;
    }
    var same := SameOrderItems(stored.value.lines, quantities);
    if !same {
      return None, refreshed;
    }
    total := AmountDue(stored.value, user, pending, quantities, subtotal.value);
  }

  /** The catalog subtotal of a valid request. */
  method CatalogTotal(mirror: map<string, Product>, catalog: map<string, int64>, ghost items: seq<CartItem>,
                      ids: seq<string>, quantities: map<string, uint64>)
    returns (subtotal: Option<int64>, refreshed: map<string, Product>)
    requires MirrorOk(mirror) && ValidItems(items) && ids == ProductIds(items) && quantities == Quantities(items)
    ensures MirrorOk(refreshed)
    ensures subtotal.Some? <==>
      && AllKnown(mirror, catalog, items)
      && var lines := PricedItems(mirror, catalog, items); AllPriced(lines) && Total(lines) <= MAX_INT64
    ensures subtotal.Some? ==> subtotal.value == Total(PricedItems(mirror, catalog, items)) >= 0
  {
    var products;
    products, refreshed := ProductsForCheckout(mirror, catalog, ids);
    ProductIdsAt(items);
    if products.None? || |products.value| != |ids| {
      return None, refreshed;
    }
    LinesAgree(mirror, catalog, items, products.value);
    subtotal := CatalogSubtotal(LinesOf(products.value, quantities));
    if subtotal.Some? {
      TotalGrows(LinesOf(products.value, quantities), 0);
    }
  }

  // -------------------------------------------------------------- the session

  /** The session's row: the order's pending one if it is for this user and amount, else a new one. */
  function Opened(rows: seq<Transaction>, order: nat, user: nat, total: int64, reservations: string, ref: string)
    : (Option<nat>, seq<Transaction>)
  {
    var i := FindPending(rows, order);
    if i < |rows| then (if Reusable(rows[i], order, user, total) then Some(i) else None, rows)
    else if FindRef(rows, ref) < |rows| then (None, rows)
    else (Some(|rows|), rows + [Transaction(order, user, Some(order), ref, total, 0, Pending, reservations)])
  }

  predicate Reusable(row: Transaction, order: nat, user: nat, total: int64) {
    row.userId == user && row.totalPrice == total && row.orderId == order
  }

  /** Lookup and insert. */
  method OpenRow(rows: seq<Transaction>, order: nat, user: nat, total: int64, reservations: string, ref: string)
    returns (found: Option<nat>, after: seq<Transaction>)
    requires RowsOk(rows) && order != 0
    ensures (found, after) == Opened(rows, order, user, total, reservations, ref)
  {
    after := rows;
    var i := FindPending(rows, order);
    if i < |rows| {
      if rows[i].userId != user || rows[i].totalPrice != total || rows[i].orderId != order {
        return None, rows;
      }
      return Some(i), rows;
    }
    NoKeyWithoutPending(rows, order);
    if !Insertable(rows, order, ref) {
      // Undisturbed, the second lookup finds no more than the first.
      return None, rows;
    }
    found, after := Some(|rows|), rows + [Transaction(order, user, Some(order), ref, total, 0, Pending, reservations)];
  }

  lemma NoKeyWithoutPending(rows: seq<Transaction>, order: nat)
    requires RowsOk(rows) && FindPending(rows, order) == |rows|
    ensures forall j | 0 <= j < |rows| :: rows[j].checkoutKey != Some(order)
  {
    forall j | 0 <= j < |rows| ensures rows[j].checkoutKey != Some(order) {
      assert RowOk(rows[j]);
    }
  }

  /** A session never disturbs the table, and its row is for exactly the user, order and amount. */
  lemma OpenedKeeps(rows: seq<Transaction>, order: nat, user: nat, total: int64, reservations: string, ref: string)
    requires RowsOk(rows) && order != 0
    ensures var (found, after) := Opened(rows, order, user, total, reservations, ref);
      && RowsOk(after) && Extends(rows, after) && TerminalKept(rows, after)
      && (found.Some? ==> found.value < |after| && after[found.value].status == Pending && Reusable(after[found.value], order, user, total))
  {
    if FindPending(rows, order) == |rows| && FindRef(rows, ref) == |rows| {
      NoKeyWithoutPending(rows, order);
      AppendOk(rows, Transaction(order, user, Some(order), ref, total, 0, Pending, reservations));
    }
  }

  /** A new session's row, column by column. */
  lemma OpenedStores(rows: seq<Transaction>, order: nat, user: nat, total: int64, reservations: string, ref: string)
    requires FindPending(rows, order) == |rows| && FindRef(rows, ref) == |rows|
    ensures var (found, after) := Opened(rows, order, user, total, reservations, ref);
      && found == Some(|rows|) && |after| == |rows| + 1 && after[..|rows|] == rows
      && var row := after[|rows|];
      && row.orderId == order && row.userId == user && row.totalPrice == total && row.paymentId == ref
      && row.reservationIDs == reservations && row.checkoutKey == Some(order) && row.settledPrice == 0 && row.status == Pending
  {
  }

  /** A retry for the same order, user and amount finds the session that is already pending. */
  lemma OpenedAgain(rows: seq<Transaction>, order: nat, user: nat, total: int64, reservations: string, ref: string,
                    reservations': string, ref': string)
    requires RowsOk(rows) && order != 0 && Opened(rows, order, user, total, reservations, ref).0.Some?
    ensures var (found, after) := Opened(rows, order, user, total, reservations, ref);
      Opened(after, order, user, total, reservations', ref') == (found, after)
  {
    var (found, after) := Opened(rows, order, user, total, reservations, ref);
    OpenedKeeps(rows, order, user, total, reservations, ref);
    var i := FindPending(after, order);
    assert RowOk(after[found.value]);
    assert i == found.value;
  }

  /** Undisturbed, the four database steps of a session in the machine of racing sessions do just this. */
  lemma OpenedIsARun(s: System, pid: nat, order: nat, user: nat, total: int64, reservations: string, ref: string)
    requires Inv(s) && order != 0 && pid !in s.sessions
    ensures var s' := Step(Step(Step(Step(s, Begin(pid, order, user, total, reservations)), LookUp(pid)), Insert(pid, ref)), Recover(pid));
      var (found, after) := Opened(s.rows, order, user, total, reservations, ref);
      && s'.rows == after && pid in s'.sessions
      && s'.sessions[pid].phase == if found.Some? then Open(after[found.value].paymentId) else Rejected
  {
    if FindPending(s.rows, order) == |s.rows| {
      NoKeyWithoutPending(s.rows, order);
    }
  }

  lemma DueOnOrder(mirror: map<string, Product>, catalog: map<string, int64>, user: nat, items: seq<CartItem>, order: Orders.Order)
    requires order.total > 0 && Due(mirror, catalog, user, items, Some(order), true).Some?
    ensures Due(mirror, catalog, user, items, Some(order), true).value == order.total
  {
  }

  /** From the quote to the charge: the session of an order that was made from a quote, at a positive total,
      carries exactly the quoted total. */
  lemma QuotedIsCharged(db: Orders.Db, account: nat, subtotal: int64, lines: seq<CheckoutHash.Item>, quoteId: string, cartVersion: uint64,
                        order: Orders.Order, mirror: map<string, Product>, catalog: map<string, int64>, items: seq<CartItem>,
                        rows: seq<Transaction>, reservations: string, ref: string)
    requires Orders.Inv(db) && RowsOk(rows) && order.total > 0 && order.id != 0
    requires Orders.PlaceWithQuote(db, account, subtotal, lines, quoteId, cartVersion).1 == Orders.Placed(order, true)
    requires Due(mirror, catalog, account, items, Some(order), true).Some?
    requires Opened(rows, order.id, account, Due(mirror, catalog, account, items, Some(order), true).value, reservations, ref).0.Some?
    ensures quoteId in db.quotes
    ensures var (found, after) := Opened(rows, order.id, account, db.quotes[quoteId].total, reservations, ref);
      && found.Some? && found.value < |after|
      && after[found.value].totalPrice == db.quotes[quoteId].total && after[found.value].orderId == order.id
      && after[found.value].status == Pending && after[found.value].userId == account
  {
    OrderTheorems.QuotedIsOrdered(db, account, subtotal, lines, quoteId, cartVersion);
    DueOnOrder(mirror, catalog, account, items, order);
    OpenedKeeps(rows, order.id, account, order.total, reservations, ref);
  }

  /** The answer to a verified callback: unknown reference, already settled, wrong amount, or accepted. */
  function TableVerdict(rows: seq<Transaction>, ref: string, amount: int64): Verdict {
    var i := FindRef(rows, ref);
    if i == |rows| then UnknownReference
    else if rows[i].status != Pending then AlreadySettled
    else if rows[i].totalPrice != amount then WrongAmount
    else Confirmed
  }

  /** The RspCode of an answer. */
  function CodeOf(v: Verdict): string {
    match v
    case Confirmed => "00"
    case UnknownReference => "01"
    case AlreadySettled => "02"
    case WrongAmount => "04"
  }

  /** The same, after the check of the signature and the contents. */
  function IpnCode(rows: seq<Transaction>, verified: bool, refText: string, amountText: string): string {
    var ref := TrimSpace(refText);
    if !verified || ref == "" || CallbackAmount(amountText).None? then "97"
    else CodeOf(TableVerdict(rows, ref, CallbackAmount(amountText).value))
  }

  /** What each code says of a callback whose reference has a row. */
  lemma CodeOfKnown(rows: seq<Transaction>, i: nat, verified: bool, refText: string, amountText: string)
    requires RowsOk(rows) && i < |rows| && rows[i].paymentId == TrimSpace(refText)
    ensures IpnCode(rows, verified, refText, amountText)
         == if !verified || Blank(refText) || CallbackAmount(amountText).None? then "97"
            else if rows[i].status != Pending then "02"
            else if CallbackAmount(amountText) != Some(rows[i].totalPrice) then "04" else "00"
  {
    TrimSpaceBlank(refText);
    FindRefIs(rows, i);
  }

  /** And of every other callback: either it is not verified, or names no reference or no amount, or there is no row
      for its reference. */
  lemma CodeOfOthers(rows: seq<Transaction>, verified: bool, refText: string, amountText: string)
    requires forall i | 0 <= i < |rows| :: rows[i].paymentId != TrimSpace(refText)
    ensures IpnCode(rows, verified, refText, amountText)
         == if verified && !Blank(refText) && CallbackAmount(amountText).Some? then "01" else "97"
  {
    TrimSpaceBlank(refText);
  }

  /** A callback handled without interruption is answered as by the machine of racing callbacks. */
  lemma AnsweredAsInTheMachine(s: System, cid: nat, ref: string, amount: int64, success: bool)
    requires Inv(s) && cid !in s.callbacks
    ensures Answer(s, Ipn(cid, ref, amount, success)) == Some(TableVerdict(s.rows, ref, amount))
  {
    var s1 := Step(s, ReadRow(cid, ref, amount, success));
    assert s1.rows == s.rows;
  }

  /** A pending transaction is settled by exactly the callbacks that name its amount. */
  lemma AmountDecides(rows: seq<Transaction>, i: nat, amountText: string)
    requires RowsOk(rows) && i < |rows| && rows[i].status == Pending
    requires rows[i].paymentId != "" && Trimmed(rows[i].paymentId)
    ensures IpnCode(rows, true, rows[i].paymentId, amountText) == "00" <==> CallbackAmount(amountText) == Some(rows[i].totalPrice)
  {
    FindRefIs(rows, i);
  }

  /** A callback that echoes the reference and the amount of the URL of a pending session is accepted. */
  lemma EchoAccepted(rows: seq<Transaction>, i: nat)
    requires RowsOk(rows) && i < |rows| && rows[i].status == Pending && UrlAmount(rows[i].totalPrice).Some?
    requires rows[i].paymentId != "" && Trimmed(rows[i].paymentId)
    ensures IpnCode(rows, true, rows[i].paymentId, UrlAmount(rows[i].totalPrice).value) == "00"
  {
    AmountRoundTrip(rows[i].totalPrice);
    AmountDecides(rows, i, UrlAmount(rows[i].totalPrice).value);
  }

  class Service {
    var rows: seq<Transaction>
    var mirror: map<string, Product>

    constructor ()
      ensures rows == [] && RowsOk(rows) && MirrorOk(mirror)
    {
      rows, mirror := [], map[];
    }

    /** Opens or reuses the pending session of an order and returns its reference and the amount in its URL:
        exactly if an amount is due, the order's pending row, if any, is for it, and the URL can carry it. */
    method CreateCheckoutSession(user: nat, items: seq<CartItem>, order: nat, reservations: seq<string>,
                                 catalog: map<string, int64>, stored: Option<Orders.Order>, pending: bool, ref: string)
      returns (url: Option<(string, string)>)
      requires RowsOk(rows) && MirrorOk(mirror)
      modifies this
      ensures RowsOk(rows) && MirrorOk(mirror) && Extends(old(rows), rows) && TerminalKept(old(rows), rows)
      ensures var due := Due(old(mirror), catalog, user, items, stored, pending);
        if order == 0 || stored.None? || stored.value.id != order || due.None? then url == None && rows == old(rows)
        else
          var (found, after) := Opened(old(rows), order, user, due.value, Join(reservations), ref);
          && rows == after
          && (url.Some? <==> found.Some? && UrlAmount(due.value).Some?)
          && (url.Some? ==> url.value == (after[found.value].paymentId, UrlAmount(due.value).value))
    {
      if order == 0 {
        return None;
      }
      var total, refreshed := PriceSession(mirror, catalog, user, items, Fetched(stored, order), pending);
      mirror := refreshed;
      if total.None? {
        return None;
      }
      OpenedKeeps(rows, order, user, total.value, Join(reservations), ref);
      var i, after := OpenRow(rows, order, user, total.value, Join(reservations), ref);
      rows := after;
      if i.None? {
        return None;
      }
      var amount := UrlAmount(total.value);
      if amount.None? {
        return None;
      }
      url := Some((after[i.value].paymentId, amount.value));
    }

    /** Settles the transaction of a verified callback; `first` starts the payment's effects. */
    method HandleVNPAYIPN(verified: bool, refText: string, amountText: string, success: bool) returns (first: bool, code: string)
      requires RowsOk(rows)
      modifies this`rows
      ensures RowsOk(rows) && TerminalKept(old(rows), rows)
      ensures code == IpnCode(old(rows), verified, refText, amountText) && (first <==> code == "00")
      ensures rows == if !first then old(rows)
                      else var i := FindRef(old(rows), TrimSpace(refText));
                           old(rows)[i := old(rows)[i].(status := if success then Success else Failed,
                                                        settledPrice := old(rows)[i].totalPrice, checkoutKey := None)]
    {
      var ref := TrimSpace(refText);
      var amount := CallbackAmount(amountText);
      if !verified || ref == "" || amount.None? {
        return false, "97";
      }
      var i := FindRef(rows, ref);
      if i == |rows| {
        return false, "01";
      }
      var tx := rows[i];
      if tx.status != Pending {
        return false, "02";
      }
      if tx.totalPrice != amount.value {
        return false, "04";
      }
      assert RowOk(tx);
      tx := tx.(status := if success then Success else Failed);
      tx := tx.(settledPrice := amount.value);
      tx := tx.(checkoutKey := None);
      RowSettles(rows, i, tx);
      rows := rows[i := tx];
      first, code := true, "00";
    }
  }

  lemma RowSettles(rows: seq<Transaction>, i: nat, tx: Transaction)
    requires RowsOk(rows) && i < |rows| && rows[i].status == Pending && RowOk(tx) && tx.status != Pending && SameTerms(tx, rows[i])
    ensures RowsOk(rows[i := tx]) && TerminalKept(rows, rows[i := tx])
  {
  }
}
