/**
  Cash-on-delivery checkout, across the cart, order and Inventory services: the cart is snapshot, the order
  is placed, every reservation of the snapshot is committed, and the cart is emptied.  No lock spans these
  calls: anybody, the same account included, runs before each of them.
*/
module Checkout {
  import opened Width
  import opened Ledger
  import opened LedgerTheorems
  import opened CartModel
  import opened CommitLog
  import opened Covering
  import CartSaga
  import CartService
  import CheckoutHash
  import Orders
  import OrderRepository
  import OrderTheorems
  import opened OrderServer

  // ------------------------------------------------------------- the commits

  /** The reservations that may be committed: known, named and distinct. */
  ghost predicate Committable(lines: seq<CartItem>, db: Db) {
    DistinctReservations(lines) && forall x | x in lines :: x.reservationID != Blank && Lookup(db.rows, x.reservationID).Some?
  }

  /** The first lines have been committed. */
  ghost predicate Done(lines: seq<CartItem>, until: nat, log: seq<Entry>, db: Db) {
    forall k | 0 <= k < until && k < |lines| :: Arrives(log, lines[k].reservationID) && Over(db, lines[k].reservationID)
  }

  lemma OneMoreDone(lines: seq<CartItem>, i: nat, done: seq<Entry>, before: Db, log: seq<Entry>, after: Db)
    requires i < |lines| && Done(lines, i, done, before) && KeptOn(before, after)
    requires forall id | Arrives(done, id) :: Arrives(log, id)
    requires Arrives(log, lines[i].reservationID) && Over(after, lines[i].reservationID)
    ensures Done(lines, i + 1, log, after)
  {
  }

  /** The first calls are all answered. */
  ghost predicate Answered(faults: Faults, calls: nat) {
    forall k: nat | k < calls :: faults(k) == NoFault
  }

  lemma ReachedSound(start: Db, log: seq<Entry>, after: Db)
    requires Sound(start) && NoOversell(start) && Fair(start, log) && after == Play(start, log)
    ensures Sound(after) && NoOversell(after)
  {
    PlayIsRun(start, log);
    RunSound(start, Ops(log));
    RunNoOversell(start, Ops(log));
  }

  ghost predicate AllSettleable(lines: seq<CartItem>, db: Db) {
    forall k | 0 <= k < |lines| :: Settleable(db, lines[k].reservationID)
  }

  lemma AnsweredOne(faults: Faults, i: nat)
    ensures Answered(faults, i + 1) <==> Answered(faults, i) && faults(i) == NoFault
  {
  }

  /** The commits under way. */
  ghost predicate Committing(start: Db, log: seq<Entry>, db: Db, lines: seq<CartItem>) {
    Reached(start, log, db, ReservationsOf(lines), lines, true) && AllSettleable(lines, db)
  }

  /** One commit. */
  method CommitLine(ghost start: Db, ghost done: seq<Entry>, db: Db, lines: seq<CartItem>, i: nat, fault: Fault, rivals: Rivals)
    returns (ok: bool, after: Db, ghost log: seq<Entry>)
    requires i < |lines| && Committing(start, done, db, lines) && Permitted(rivals, lines)
    ensures Committing(start, log, after, lines)
    ensures ok <==> fault == NoFault
    ensures ok && Done(lines, i, done, db) ==> Done(lines, i + 1, log, after)
  {
    var id := lines[i].reservationID;
    assert id in ReservationsOf(lines) by { assert lines[i] in lines; }
    ok, after, log := Attempt(start, done, db, id, true, fault, rivals, i, ReservationsOf(lines), lines);
    if ok && Done(lines, i, done, db) { OneMoreDone(lines, i, done, db, log, after); }
  }

  /** Commit the lines one by one, up to the first call that is not answered: with no oversell none is refused,
      whatever the others do to the reservations meanwhile. */
  method CommitLines(start: Db, lines: seq<CartItem>, faults: Faults, rivals: Rivals)
    returns (ok: bool, after: Db, ghost log: seq<Entry>)
    requires Sound(start) && NoOversell(start) && Committable(lines, start) && Permitted(rivals, lines)
    ensures Reached(start, log, after, ReservationsOf(lines), lines, true)
    ensures Sound(after) && NoOversell(after)
    ensures ok <==> Answered(faults, |lines|)
    ensures ok ==> Done(lines, |lines|, log, after)
  {
    ok, after, log := true, start, [];
    assert AllSettleable(lines, start) by { assert forall k | 0 <= k < |lines| :: lines[k] in lines; }
    var i := 0;
    while i < |lines| && ok
      invariant i <= |lines| && Committing(start, log, after, lines)
      invariant ok ==> Done(lines, i, log, after)
      invariant ok <==> Answered(faults, i)
      decreases |lines| - i, ok
    {
      ok, after, log := CommitLine(start, log, after, lines, i, faults(i), rivals);
      AnsweredOne(faults, i);
      i := i + 1;
    }
    ReachedSound(start, log, after);
  }

  // ------------------------------------------------------- ordered and taken

  lemma LineIsTaken(db: Db, log: seq<Entry>, lines: seq<CartItem>, account: nat, x: CartItem)
    requires Ongoing(db, log, lines, true) && Quiet(db, log, lines, account) && x in lines
    ensures Taken(db, log, x.productID) == x.quantity > 0
  {
    QuietHonoured(db, log, lines, x, account);
    TakenIsMet(db, log, lines, x);
  }

  /** What is ordered is what is sold.  If the account leaves its cart alone and every reservation outlasts the
      request, the order stored under the returned id covers exactly the units taken out of stock if and only if
      the quote was not used before and the catalog knows every product, or the quote was used for an order of
      the same items. */
  lemma StoredCoversTaken(tables: Orders.Db, subtotal: int64, quoteID: string, version: uint64, known: set<string>,
                          db: Db, log: seq<Entry>, lines: seq<CartItem>, account: nat)
    requires Orders.Inv(tables) && LinesGood(tables.orders)
    requires Ongoing(db, log, lines, true) && Quiet(db, log, lines, account)
    requires Post(tables, account, subtotal, Items(lines), known, quoteID, version, "").1.Placed?
    ensures var (tables', outcome) := Post(tables, account, subtotal, Items(lines), known, quoteID, version, "");
      && 0 < outcome.order.id <= |tables'.orders|
      && (Covers(db, log, tables'.orders[outcome.order.id - 1].lines) <==>
          if Used(tables, quoteID) then multiset(StoredLines(tables, quoteID, Items(lines), known)) == multiset(Items(lines))
          else forall x | x in lines :: x.productID in known)
  {
    var (after, outcome) := Post(tables, account, subtotal, Items(lines), known, quoteID, version, "");
    PostStores(tables, account, subtotal, Items(lines), known, quoteID, version, "", after, outcome);
    QuietTakesItems(db, log, lines, account);
    ItemsGood(lines, db);
    if Used(tables, quoteID) {
      assert tables.quotes[quoteID].orderId == Orders.OrderOf(tables.orders, quoteID);
      UnitsDetermine(StoredLines(tables, quoteID, Items(lines), known), Items(lines));
    } else {
      forall x | x in lines ensures Honoured(db, log, x) {
        QuietHonoured(db, log, lines, x, account);
      }
      NewOrderCovers(db, log, lines, known);
    }
  }

  lemma ItemsKnown(lines: seq<CartItem>, known: set<string>)
    requires forall y | y in lines :: y.productID in known
    ensures forall i | 0 <= i < |Items(lines)| :: Items(lines)[i].id in known
  {
    forall i | 0 <= i < |lines| ensures Items(lines)[i].id in known {
      assert lines[i] in lines;
    }
  }

  lemma OldOrderReturned(tables: Orders.Db, account: nat, subtotal: int64, request: seq<CheckoutHash.Item>, known: set<string>,
                         quoteID: string, version: uint64, after: Orders.Db, outcome: Orders.Outcome)
    requires (after, outcome) == Post(tables, account, subtotal, request, known, quoteID, version, "")
    requires Orders.Inv(tables) && Used(tables, quoteID) && tables.quotes[quoteID].account == account
    requires account != 0 && version != 0 && subtotal >= 0 && 0 < |request| <= 100 && GoodLines(request)
    requires forall i | 0 <= i < |request| :: request[i].id in known
    ensures after == tables && outcome.Placed? && !outcome.created && 0 < outcome.order.id <= |tables.orders|
    ensures tables.orders[outcome.order.id - 1].lines == StoredLines(tables, quoteID, request, known)
  {
    UsedReturns(tables, account, subtotal, request, known, quoteID, version);
  }

  /** A used quote presented with a new cart: the old order comes back, nothing is created, and the new cart's
      units leave the stock although the order does not have them. */
  lemma UsedQuoteTakesMore(tables: Orders.Db, subtotal: int64, quoteID: string, version: uint64, known: set<string>,
                           db: Db, log: seq<Entry>, lines: seq<CartItem>, account: nat, x: CartItem,
                           after: Orders.Db, outcome: Orders.Outcome)
    requires (after, outcome) == Post(tables, account, subtotal, Items(lines), known, quoteID, version, "")
    requires Orders.Inv(tables) && Used(tables, quoteID) && tables.quotes[quoteID].account == account
    requires account != 0 && version != 0 && subtotal >= 0 && |lines| <= 100
    requires forall y | y in lines :: y.productID in known
    requires Ongoing(db, log, lines, true) && Quiet(db, log, lines, account)
    requires x in lines && Units(StoredLines(tables, quoteID, Items(lines), known), x.productID) < x.quantity
    ensures after == tables && outcome.Placed? && !outcome.created && 0 < outcome.order.id <= |tables.orders|
    ensures Taken(db, log, x.productID) > Units(tables.orders[outcome.order.id - 1].lines, x.productID)
  {
    ItemsGood(lines, db);
    ItemsKnown(lines, known);
    OldOrderReturned(tables, account, subtotal, Items(lines), known, quoteID, version, after, outcome);
    LineIsTaken(db, log, lines, account, x);
  }

  /** A product the catalog no longer returns: it is not part of the order, and its units are taken all the same. */
  lemma UnknownProductTaken(db: Db, log: seq<Entry>, lines: seq<CartItem>, account: nat, known: set<string>, x: CartItem)
    requires Ongoing(db, log, lines, true) && Quiet(db, log, lines, account)
    requires x in lines && x.productID !in known
    ensures Units(Matched(Items(lines), known), x.productID) == 0 < Taken(db, log, x.productID)
  {
    LineIsTaken(db, log, lines, account, x);
    UnitsMatched(lines, db, known, x);
  }

  // ---------------------------------------------------------------- a retry

  /** A checkout whose calls were lost on the way is retried with the same quote and cart: Order returns the same
      order, and once all commits of the retry have arrived exactly its lines have left the stock, once, whatever
      of the first attempt had arrived. */
  lemma RetryTakesOrderOnce(tables: Orders.Db, subtotal: int64, quoteID: string, version: uint64, known: set<string>,
                            db: Db, first: seq<Entry>, second: seq<Entry>, lines: seq<CartItem>, account: nat,
                            placed: Orders.Db, outcome: Orders.Outcome)
    requires Orders.Inv(tables) && quoteID != "" && forall x | x in lines :: x.productID in known
    requires (placed, outcome) == Post(tables, account, subtotal, Items(lines), known, quoteID, version, "")
    requires outcome.Placed? && outcome.created
    requires Ongoing(db, first + second, lines, true)
    requires forall x | x in lines ::
      && Backed(x, db, account) && x.reservedUntil > Play(db, first + second).now
      && Undisturbed(first + second, x.reservationID) && Arrives(second, x.reservationID)
    ensures var (after, again) := Post(placed, account, subtotal, Items(lines), known, quoteID, version, "");
      && after == placed && again.Placed? && !again.created && again.order.id == outcome.order.id
      && 0 < again.order.id <= |after.orders|
      && Covers(db, first + second, after.orders[again.order.id - 1].lines)
  {
    forall x | x in lines ensures Arrives(first + second, x.reservationID) {
      ArrivesConcat(first, second, x.reservationID);
    }
    QuietTakesItems(db, first + second, lines, account);
    forall i | 0 <= i < |Items(lines)| ensures Items(lines)[i].id in known {
      assert lines[i] in lines;
    }
    AllMatched(Items(lines), known);
    RetryReturns(tables, account, subtotal, Items(lines), known, quoteID, version, placed, outcome);
  }

  /** The same request again returns the order that it made. */
  lemma RetryReturns(tables: Orders.Db, account: nat, subtotal: int64, request: seq<CheckoutHash.Item>, known: set<string>,
                     quoteID: string, version: uint64, placed: Orders.Db, outcome: Orders.Outcome)
    requires Orders.Inv(tables) && quoteID != "" && Matched(request, known) == request
    requires (placed, outcome) == Post(tables, account, subtotal, request, known, quoteID, version, "")
    requires outcome.Placed? && outcome.created
    ensures var (after, again) := Post(placed, account, subtotal, request, known, quoteID, version, "");
      && after == placed && again.Placed? && !again.created && again.order.id == outcome.order.id == |placed.orders|
      && again.order.id > 0 && placed.orders[again.order.id - 1].lines == request
  {
    PlacedAgain(tables, account, subtotal, request, quoteID, version, placed, outcome);
  }

  lemma PlacedAgain(tables: Orders.Db, account: nat, subtotal: int64, items: seq<CheckoutHash.Item>, quoteID: string, version: uint64,
                    placed: Orders.Db, outcome: Orders.Outcome)
    requires Orders.Inv(tables) && outcome.Placed? && outcome.created
    requires (placed, outcome) == Orders.PlaceWithQuote(tables, account, subtotal, items, quoteID, version)
    ensures outcome.order.id == |placed.orders| > 0 && placed.orders[outcome.order.id - 1] == outcome.order && outcome.order.lines == items
    ensures Orders.PlaceWithQuote(placed, account, subtotal, items, quoteID, version)
         == (placed, Orders.Placed(outcome.order.(lines := items + items), false))
  {
    var quote := placed.quotes[quoteID];
    assert quote.orderId == |placed.orders| && placed.orders[quote.orderId - 1] == outcome.order;
    OrderTheorems.ReplayNow(placed, quote, outcome.order, subtotal, items, version);
  }

  // ---------------------------------------------------------------- resolver

  /** The cart service between two checkouts: its lines may already have been sold. */
  ghost predicate Ready(carts: CartService.Service)
    reads carts
  {
    && Sound(carts.inventory) && NoOversell(carts.inventory) && carts.proposals.Filed()
    && Committable(carts.Lines(), carts.inventory)
  }

  ghost predicate Agreeing(carts: CartService.Service)
    reads carts
  {
    carts.Valid() && forall x | x in carts.Lines() :: x.productID != ""
  }

  /** A cart that agrees with Inventory is what the theorems on checkouts start from. */
  lemma ValidIsKnown(carts: CartService.Service)
    requires Agreeing(carts)
    ensures Ready(carts) && Known(carts.Lines(), carts.inventory)
    ensures forall x | x in carts.Lines() :: Backed(x, carts.inventory, carts.account)
  {
    UnexpiredDistinct(carts.Items(), carts.inventory.now);
    forall x | x in carts.Lines()
      ensures x.reservationID != Blank && ProductOf(carts.inventory, x)
      ensures Backed(x, carts.inventory, carts.account) && x.quantity > 0
    {
      assert Backed(x, carts.inventory, carts.account);
      CartSaga.LineHeld(carts.inventory, x, carts.account);
    }
  }

  /** The commits and the emptying of the cart, which is then whatever the account's other requests made of it. */
  method Sell(carts: CartService.Service, lines: seq<CartItem>, faults: Faults, rivals: Rivals, edited: Option<Cart>,
              locked: bool, saveFails: bool)
    returns (sold: bool, ghost log: seq<Entry>)
    requires Ready(carts) && lines == carts.Lines() && Permitted(rivals, lines)
    modifies carts
    ensures Reached(old(carts.inventory), log, carts.inventory, ReservationsOf(lines), lines, true)
    ensures sold <==> Answered(faults, |lines|) && locked && VersionOf(edited) != MAX_UINT64 && !saveFails
    ensures sold ==>
      && Done(lines, |lines|, log, carts.inventory)
      && carts.Valid() && Emptied(carts.cart, VersionOf(edited) + 1, carts.inventory.now)
  {
    var ok, after;
    ok, after, log := CommitLines(carts.inventory, lines, faults, rivals);
    carts.inventory, carts.cart := after, edited;
    if !ok {
      return false, log;
    }
    var error := carts.CompleteCheckout(locked, saveFails);
    sold := error.None?;
  }

  function VersionOf(cart: Option<Cart>): uint64 {
    if cart.Some? then cart.value.version else 0
  }

  /** CheckoutCartCod.  It succeeds exactly if the snapshot is taken at the expected version, Order stores or
      returns an order and its reply arrives, every commit is answered, and the cart can be emptied.  Once it
      succeeds every reservation of the snapshot is over. */
  method CheckoutCartCod(carts: CartService.Service, orders: OrderRepository.PostgresRepository, quoteID: string, expectedVersion: uint64,
                         subtotalVND: int64, known: set<string>, orderLost: bool, faults: Faults, rivals: Rivals, edited: Option<Cart>,
                         prepareLocked: bool, completeLocked: bool, saveFails: bool)
    returns (orderID: Option<nat>, ghost log: seq<Entry>)
    requires Ready(carts) && Orders.Inv(orders.tables) && LinesGood(orders.tables.orders)
    requires Permitted(rivals, carts.Lines())
    modifies carts, orders
    ensures Orders.Inv(orders.tables) && LinesGood(orders.tables.orders)
    ensures var lines, version := old(carts.Lines()), old(carts.Version());
      var snapshot := prepareLocked && (expectedVersion == 0 || version == expectedVersion);
      var (tables, outcome) := Post(old(orders.tables), carts.account, subtotalVND, Items(lines), known, quoteID, version, "");
      if !snapshot || outcome.Refused? then
        orderID.None? && log == [] && orders.tables == old(orders.tables) && carts.State() == old(carts.State())
      else if orderLost then
        orderID.None? && log == [] && orders.tables == tables && carts.State() == old(carts.State())
      else
        && orders.tables == tables
        && Reached(old(carts.inventory), log, carts.inventory, ReservationsOf(lines), lines, true)
        && (orderID.Some? <==>
              Answered(faults, |lines|) && completeLocked && VersionOf(edited) != MAX_UINT64 && !saveFails)
        && (orderID.Some? ==>
              && orderID.value == outcome.order.id && Done(lines, |lines|, log, carts.inventory)
              && carts.Valid() && Emptied(carts.cart, VersionOf(edited) + 1, carts.inventory.now))
    // A cart that agrees with Inventory is one the theorems speak of.
    ensures old(Agreeing(carts)) ==> Known(old(carts.Lines()), old(carts.inventory))
  {
    log := [];
    if Agreeing(carts) { ValidIsKnown(carts); }
    ghost var lines, version := carts.Lines(), carts.Version();
    var snapshot := carts.PrepareCheckoutAtVersion(expectedVersion, prepareLocked);
    if snapshot.Err? || |snapshot.value.items| == 0 {
      return None, [];
    }
    var outcome := PostOrder(orders, carts.account, subtotalVND, Items(snapshot.value.items), known, quoteID, snapshot.value.version, "");
    if !outcome.Placed? || orderLost {
      return None, [];
    }
    assert carts.Lines() == lines && carts.Version() == version;
    var sold;
    sold, log := Sell(carts, snapshot.value.items, faults, rivals, edited, completeLocked, saveFails);
    orderID := if sold then Some(outcome.order.id) else None;
  }
}
