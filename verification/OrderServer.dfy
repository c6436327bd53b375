/** The Order server: what it checks of a request, which lines it stores, and what every stored order looks like. */
module OrderServer {
  import opened Width
  import opened Sums
  import opened CheckoutHash
  import opened Orders
  import OrderRepository

  // -------------------------------------------------------------- the request

  /** Distinct, named products with positive quantities. */
  ghost predicate GoodLines(items: seq<Item>) {
    DistinctIds(items) && forall i | 0 <= i < |items| :: items[i].id != "" && items[i].quantity > 0
  }

  ghost predicate Postable(request: seq<Item>) {
    0 < |request| <= 100 && GoodLines(request)
  }

  /** The lines of the order: those whose product the catalog returns. */
  function Matched(request: seq<Item>, known: set<string>): seq<Item> {
    if request == [] then []
    else
      var x := request[|request| - 1];
      Matched(request[..|request| - 1], known) + (if x.id in known then [x] else [])
  }

  lemma {:induction false} MatchedFrom(request: seq<Item>, known: set<string>)
    ensures forall x :: x in Matched(request, known) <==> x in request && x.id in known
  {
    if request != [] {
      var n := |request| - 1;
      MatchedFrom(request[..n], known);
      assert request == request[..n] + [request[n]];
    }
  }

  lemma {:induction false} MatchedGood(request: seq<Item>, known: set<string>)
    requires GoodLines(request)
    ensures GoodLines(Matched(request, known))
  {
    if request != [] {
      var n := |request| - 1;
      var rest := Matched(request[..n], known);
      MatchedGood(request[..n], known);
      MatchedFrom(request[..n], known);
      forall i | 0 <= i < |rest| ensures rest[i].id != request[n].id {
        assert rest[i] in rest;
      }
    }
  }

  /** PostOrder's loop over the requested products. */
  method CheckRequest(request: seq<Item>) returns (ok: bool)
    ensures ok <==> Postable(request)
  {
    if |request| == 0 || |request| > 100 {
      return false;
    }
    var seenProducts: set<string> := {};
    for i := 0 to |request|
      invariant seenProducts == set k | 0 <= k < i :: request[k].id
      invariant GoodLines(request[..i])
    {
      var p := request[i];
      if p.id == "" || p.quantity == 0 || p.id in seenProducts {
        return false;
      }
      seenProducts := seenProducts + {p.id};
    }
    assert request[..|request|] == request;
    ok := true;
  }

  /** The products the catalog returned, matched with the requested quantities. */
  method MatchProducts(request: seq<Item>, known: set<string>) returns (products: seq<Item>)
    ensures products == Matched(request, known)
  {
    products := [];
    for i := 0 to |request|
      invariant products == Matched(request[..i], known)
    {
      assert request[..i + 1][..i] == request[..i];
      if request[i].id in known {
        products := products + [request[i]];
      }
    }
    assert request[..|request|] == request;
  }

  // ---------------------------------------------------------------- PostOrder

  ghost function Post(db: Db, account: nat, subtotal: int64, request: seq<Item>, known: set<string>, quoteId: string, cartVersion: uint64,
                      couponCode: string): (r: (Db, Outcome))
    ensures r.1.Placed? || (r.1.Refused? && r.0 == db)
  {
    if !Postable(request) then (db, Refused(InvalidOrderTotal))
    else if quoteId != "" then PlaceWithQuote(db, account, subtotal, Matched(request, known), quoteId, cartVersion)
    else Place(db, account, subtotal, Matched(request, known), couponCode)
  }

  method PostOrder(orders: OrderRepository.PostgresRepository, accountID: nat, subtotalVND: int64, request: seq<Item>, known: set<string>,
                   quoteID: string, cartVersion: uint64, couponCode: string)
    returns (outcome: Outcome)
    requires Inv(orders.tables) && LinesGood(orders.tables.orders)
    modifies orders
    ensures Inv(orders.tables) && LinesGood(orders.tables.orders)
    ensures (orders.tables, outcome) == Post(old(orders.tables), accountID, subtotalVND, request, known, quoteID, cartVersion, couponCode)
  {
    PostKeeps(orders.tables, accountID, subtotalVND, request, known, quoteID, cartVersion, couponCode);
    var ok := CheckRequest(request);
    if !ok {
      return Refused(InvalidOrderTotal);
    }
    var products := MatchProducts(request, known);
    if quoteID != "" {
      outcome := orders.PutOrderWithQuote(accountID, subtotalVND, products, quoteID, cartVersion);
    } else {
      outcome := orders.PutOrderWithCoupon(accountID, subtotalVND, products, couponCode);
    }
  }

  // ----------------------------------------------------------- stored orders

  /** Every stored order has distinct, named lines with positive quantities. */
  ghost predicate LinesGood(orders: seq<Order>) {
    forall i | 0 <= i < |orders| :: GoodLines(orders[i].lines)
  }

  lemma PostKeeps(db: Db, account: nat, subtotal: int64, request: seq<Item>, known: set<string>, quoteId: string, cartVersion: uint64,
                  couponCode: string)
    requires LinesGood(db.orders)
    ensures LinesGood(Post(db, account, subtotal, request, known, quoteId, cartVersion, couponCode).0.orders)
  {
    var (db', outcome) := Post(db, account, subtotal, request, known, quoteId, cartVersion, couponCode);
    if Postable(request) {
      MatchedGood(request, known);
    }
    assert outcome.Placed? && outcome.created ==> db'.orders == db.orders + [outcome.order];
  }

  datatype Call =
    | Preview(account: nat, subtotal: int64, request: seq<Item>, couponCode: string, cartVersion: uint64, id: string)
    | Order(account: nat, subtotal: int64, request: seq<Item>, known: set<string>, quoteId: string, cartVersion: uint64, couponCode: string)
    | Wait(time: nat)

  ghost function Serve(db: Db, c: Call): Db {
    match c
    case Preview(account, subtotal, request, couponCode, cartVersion, id) =>
      if Postable(request) then PreviewCheckout(db, account, subtotal, request, couponCode, cartVersion, id).0 else db
    case Order(account, subtotal, request, known, quoteId, cartVersion, couponCode) =>
      Post(db, account, subtotal, request, known, quoteId, cartVersion, couponCode).0
    case Wait(time) => db.(now := db.now + time)
  }

  ghost function ServeAll(db: Db, calls: seq<Call>): Db
    decreases |calls|
  {
    if calls == [] then db else ServeAll(Serve(db, calls[0]), calls[1..])
  }

  lemma ServeKeeps(db: Db, c: Call)
    requires Inv(db) && LinesGood(db.orders)
    ensures Inv(Serve(db, c)) && LinesGood(Serve(db, c).orders)
  {
    match c
    case Preview(account, subtotal, request, couponCode, cartVersion, id) =>
      PreviewKeeps(db, account, subtotal, request, couponCode, cartVersion, id);
    case Order(account, subtotal, request, known, quoteId, cartVersion, couponCode) =>
      PostKeeps(db, account, subtotal, request, known, quoteId, cartVersion, couponCode);
      if Postable(request) && quoteId != "" {
        PlaceWithQuoteKeeps(db, account, subtotal, Matched(request, known), quoteId, cartVersion);
      } else if Postable(request) {
        PlaceKeeps(db, account, subtotal, Matched(request, known), couponCode);
      }
    case Wait(_) =>
  }

  /** Over every run of calls from an empty shop every stored order has distinct, named lines with positive
      quantities, and the invariant of the tables holds. */
  lemma {:induction false} ServedKeeps(db: Db, calls: seq<Call>)
    requires Inv(db) && LinesGood(db.orders)
    ensures Inv(ServeAll(db, calls)) && LinesGood(ServeAll(db, calls).orders)
    decreases |calls|
  {
    if calls != [] {
      ServeKeeps(db, calls[0]);
      ServedKeeps(Serve(db, calls[0]), calls[1..]);
    }
  }

  // ------------------------------------------------------- the returned order

  /** The quote was used before: its order is returned, whatever was requested. */
  predicate Used(db: Db, quoteId: string) {
    quoteId != "" && quoteId in db.quotes && db.quotes[quoteId].orderId != 0
  }

  /** The lines stored under the id that a successful call returns. */
  function StoredLines(db: Db, quoteId: string, request: seq<Item>, known: set<string>): seq<Item> {
    if Used(db, quoteId) && db.quotes[quoteId].orderId <= |db.orders| then db.orders[db.quotes[quoteId].orderId - 1].lines
    else Matched(request, known)
  }

  lemma QuoteStores(db: Db, account: nat, subtotal: int64, items: seq<Item>, quoteId: string, cartVersion: uint64, after: Db, outcome: Outcome)
    requires (after, outcome) == PlaceWithQuote(db, account, subtotal, items, quoteId, cartVersion) && Inv(db) && outcome.Placed?
    ensures 0 < outcome.order.id <= |after.orders| && (outcome.created <==> !Used(db, quoteId)) && (!outcome.created ==> after == db)
    ensures after.orders[outcome.order.id - 1].lines == if Used(db, quoteId) then db.orders[db.quotes[quoteId].orderId - 1].lines else items
    ensures Used(db, quoteId) ==> db.quotes[quoteId].orderId <= |db.orders|
  {
    assert db.quotes[quoteId].orderId == OrderOf(db.orders, quoteId);
    assert db.quotes[quoteId].orderId != 0 ==> db.orders[db.quotes[quoteId].orderId - 1].id == db.quotes[quoteId].orderId;
  }

  /** The returned id is that of a stored order, a new one exactly if the quote was not used before. */
  lemma PostStores(db: Db, account: nat, subtotal: int64, request: seq<Item>, known: set<string>, quoteId: string, cartVersion: uint64,
                   couponCode: string, after: Db, outcome: Outcome)
    requires Inv(db) && (after, outcome) == Post(db, account, subtotal, request, known, quoteId, cartVersion, couponCode) && outcome.Placed?
    ensures 0 < outcome.order.id <= |after.orders|
    ensures after.orders[outcome.order.id - 1].lines == StoredLines(db, quoteId, request, known)
    ensures (outcome.created <==> !Used(db, quoteId)) && (!outcome.created ==> after == db)
  {
    if quoteId != "" {
      QuoteStores(db, account, subtotal, Matched(request, known), quoteId, cartVersion, after, outcome);
    } else {
      DirectStores(db, account, subtotal, Matched(request, known), couponCode, after, outcome);
    }
  }

  lemma DirectStores(db: Db, account: nat, subtotal: int64, items: seq<Item>, couponCode: string, after: Db, outcome: Outcome)
    requires (after, outcome) == Place(db, account, subtotal, items, couponCode) && outcome.Placed?
    ensures outcome.created && outcome.order.id == |after.orders| > 0 && after.orders[outcome.order.id - 1].lines == items
  {
  }

  lemma {:induction false} AllMatched(request: seq<Item>, known: set<string>)
    requires forall i | 0 <= i < |request| :: request[i].id in known
    ensures Matched(request, known) == request
  {
    if request != [] {
      AllMatched(request[..|request| - 1], known);
      assert request == request[..|request| - 1] + [request[|request| - 1]];
    }
  }

  /** A used quote of the account is answered with its order, whatever known products are requested, and at
      whatever cart version: nothing is created. */
  lemma UsedReturns(db: Db, account: nat, subtotal: int64, request: seq<Item>, known: set<string>, quoteId: string, cartVersion: uint64)
    requires Inv(db) && Used(db, quoteId) && db.quotes[quoteId].account == account
    requires account != 0 && cartVersion != 0 && subtotal >= 0 && Postable(request)
    requires forall i | 0 <= i < |request| :: request[i].id in known
    ensures var (db', outcome) := Post(db, account, subtotal, request, known, quoteId, cartVersion, "");
      db' == db && outcome.Placed? && !outcome.created && outcome.order.id == db.quotes[quoteId].orderId <= |db.orders|
  {
    AllMatched(request, known);
    assert db.quotes[quoteId].orderId == OrderOf(db.orders, quoteId);
  }

  // -------------------------------------------------------------------- units

  function UnitsAt(p: string): Item -> int {
    (x: Item) => if x.id == p then x.quantity else 0
  }

  /** Units of a product in an order. */
  function Units(items: seq<Item>, p: string): int {
    Total(items, UnitsAt(p))
  }

  lemma {:induction false} UnitsAbsent(items: seq<Item>, p: string)
    requires forall x | x in items :: x.id != p
    ensures Units(items, p) == 0
  {
    if items != [] {
      var n := |items| - 1;
      assert items[n] in items && forall x | x in items[..n] :: x in items;
      UnitsAbsent(items[..n], p);
    }
  }

  /** With distinct ids the units of a product are those of its line. */
  lemma {:induction false} UnitsOfLine(items: seq<Item>, i: nat)
    requires DistinctIds(items) && i < |items|
    ensures Units(items, items[i].id) == items[i].quantity
  {
    var n := |items| - 1;
    if i == n {
      UnitsAbsent(items[..n], items[n].id);
    } else {
      UnitsOfLine(items[..n], i);
    }
  }

  lemma UnitsInclude(a: seq<Item>, b: seq<Item>, x: Item)
    requires GoodLines(a) && GoodLines(b) && x in a && Units(b, x.id) == Units(a, x.id)
    ensures x in b
  {
    var i :| 0 <= i < |a| && a[i] == x;
    UnitsOfLine(a, i);
    if y :| y in b && y.id == x.id {
      var j :| 0 <= j < |b| && b[j] == y;
      UnitsOfLine(b, j);
    } else {
      UnitsAbsent(b, x.id);
    }
  }

  /** Good lines are determined by their units, up to order. */
  lemma UnitsDetermine(a: seq<Item>, b: seq<Item>)
    requires GoodLines(a) && GoodLines(b)
    ensures (forall p :: Units(a, p) == Units(b, p)) <==> multiset(a) == multiset(b)
  {
    if multiset(a) == multiset(b) {
      forall p ensures Units(a, p) == Units(b, p) {
        TotalUnordered(a, b, UnitsAt(p));
      }
    }
    if forall p :: Units(a, p) == Units(b, p) {
      SameLines(a, b);
    }
  }

  lemma SameLines(a: seq<Item>, b: seq<Item>)
    requires GoodLines(a) && GoodLines(b) && forall p :: Units(a, p) == Units(b, p)
    ensures multiset(a) == multiset(b)
  {
    forall x ensures x in a <==> x in b {
      if x in a { UnitsInclude(a, b, x); }
      if x in b { UnitsInclude(b, a, x); }
    }
    assert DistinctBy(a, (x: Item) => x.id) && DistinctBy(b, (x: Item) => x.id);
    forall x ensures multiset(a)[x] == multiset(b)[x] {
      CountOne(a, (x: Item) => x.id, x);
      CountOne(b, (x: Item) => x.id, x);
    }
  }
}
