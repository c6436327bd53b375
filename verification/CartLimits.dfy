/** Where a cart operation cannot be undone or repeated, stated for every state in which it happens. */
module CartLimits {
  import opened Width
  import opened Ledger
  import opened LedgerTheorems
  import opened CartModel
  import opened CartSaga
  import CartService

  function Free(db: Db, p: string): int {
    if p in db.stocks then db.stocks[p].quantity - Reserved(db.rows, p, Blank, db.now) else 0
  }

  /** Another account that reserves `units` of a product before the second call of an operation. */
  function Rival(id: ReservationId, account: nat, p: string, units: int32): Others {
    (k: nat, db: Db) => if k == 1 then Request(db, id, account, p, units).0 else db
  }

  lemma AnswerInterferes(db: Db, after: Db, outcome: Outcome, id: ReservationId, account: nat, p: string, q: int32,
                         mine: iset<ReservationId>, deadline: int)
    requires Answered(db, after, outcome, id, account, p, q) && after.stocks == db.stocks && db.now <= deadline && id !in mine
    ensures Interferes(db, after, mine, deadline)
  {
  }

  lemma StocksKept(db: Db, id: ReservationId, account: nat, p: string, q: int32)
    ensures Request(db, id, account, p, q).0.stocks == db.stocks
  {
  }

  lemma RequestInterferes(db: Db, id: ReservationId, account: nat, p: string, q: int32, mine: iset<ReservationId>, deadline: int)
    requires Sound(db) && NoOversell(db) && db.now <= deadline && id !in mine
    ensures Interferes(db, Request(db, id, account, p, q).0, mine, deadline)
  {
    var (after, outcome) := Request(db, id, account, p, q);
    RequestAnswered(db, after, outcome, id, account, p, q);
    StocksKept(db, id, account, p, q);
    AnswerInterferes(db, after, outcome, id, account, p, q, mine, deadline);
  }

  /** A rival who makes one request between two calls is one of the accounts every cart operation has to live with. */
  lemma RivalPolite(id: ReservationId, account: nat, p: string, units: int32, mine: iset<ReservationId>, deadline: int)
    requires id !in mine
    ensures Polite(Rival(id, account, p, units), mine, deadline)
  {
    forall k: nat, db: Db | Sound(db) && NoOversell(db) && db.now <= deadline
      ensures Interferes(db, Rival(id, account, p, units)(k, db), mine, deadline)
    {
      if k == 1 {
        RequestInterferes(db, id, account, p, units, mine, deadline);
      }
    }
  }

  /** The units that are free after a live reservation was lowered. */
  lemma LoweredSum(db: Db, id: ReservationId, account: nat, p: string, q: int32, expiresAt: int)
    requires Sound(db) && NoOversell(db) && Lowers(db, id, p, q) && q < Lookup(db.rows, id).value.quantity && expiresAt > db.now
    ensures p in db.stocks
    ensures var db' := ReserveStock(db, id, account, p, q, expiresAt, CART).0;
      0 < db.stocks[p].quantity - Reserved(db'.rows, p, Blank, db.now) <= MAX_INT32
  {
    LoweringAccepted(db, id, account, p, q, expiresAt, CART);
    ReserveEffect(db, id, account, p, q, expiresAt, CART, p);
    ReservedSplit(db.rows, Find(db.rows, id), p, db.now);
    ReservedOthers(db.rows, p, id, db.now);
  }

  /** The database after a live reservation was lowered: units are free, and another id is still unknown. */
  ghost predicate LoweredTo(lowered: Db, now: int, id: ReservationId, account: nat, p: string, q: int32, expiresAt: int, other: ReservationId) {
    && Sound(lowered) && NoOversell(lowered) && lowered.now == now && p in lowered.stocks
    && Lookup(lowered.rows, id) == Some(Reservation(id, account, p, q, Active, CART, expiresAt))
    && Lookup(lowered.rows, other).None? && 0 < Free(lowered, p) <= MAX_INT32
  }

  lemma LoweringFrees(db: Db, lowered: Db, granted: Outcome, id: ReservationId, account: nat, p: string, q: int32,
                      expiresAt: int, other: ReservationId)
    requires Sound(db) && NoOversell(db) && Lowers(db, id, p, q) && expiresAt > db.now
    requires q < Lookup(db.rows, id).value.quantity && other != id && Lookup(db.rows, other).None?
    requires (lowered, granted) == ReserveStock(db, id, account, p, q, expiresAt, CART)
    ensures granted.Reply? && LoweredTo(lowered, db.now, id, account, p, q, expiresAt, other)
  {
    LoweringAccepted(db, id, account, p, q, expiresAt, CART);
    ReserveCall(db, id, account, p, q, expiresAt, CART);
    LoweredSum(db, id, account, p, q, expiresAt);
  }

  /** Everything that is free is granted to a new reservation, and the sum reaches the stock. */
  lemma FreeGranted(db: Db, id: ReservationId, account: nat, p: string, units: int32)
    requires Sound(db) && id != Blank && p in db.stocks && Lookup(db.rows, id).None? && 0 < units == Free(db, p)
    ensures Reserved(Request(db, id, account, p, units).0.rows, p, Blank, db.now) == db.stocks[p].quantity
  {
    ReservedAbsent(db.rows, p, id, db.now);
    ReserveAccepts(db, id, account, p, units, db.now + RESERVATION_TTL, CART);
    ReserveEffect(db, id, account, p, units, db.now + RESERVATION_TTL, CART, p);
  }

  /** A request of another account leaves a live reservation as it is. */
  lemma RequestKeeps(db: Db, met: Db, other: ReservationId, account: nat, p: string, q: int32, expiresAt: int, id: ReservationId)
    requires met == ReserveStock(db, other, account, p, q, expiresAt, CART).0
    requires Sound(db) && NoOversell(db) && other != id
    requires Lookup(db.rows, id).Some? && Live(Lookup(db.rows, id).value, db.now)
    ensures Sound(met) && met.now == db.now && met.stocks == db.stocks
    ensures Lookup(met.rows, id) == Lookup(db.rows, id)
  {
    ReserveCall(db, other, account, p, q, expiresAt, CART);
  }

  /** With every unit on hold, a live reservation cannot grow. */
  lemma CannotGrow(db: Db, id: ReservationId, account: nat, p: string, more: int32)
    requires Sound(db) && p in db.stocks && Reserved(db.rows, p, Blank, db.now) == db.stocks[p].quantity
    requires id != Blank && Lookup(db.rows, id).Some? && Lookup(db.rows, id).value.product == p
    requires Live(Lookup(db.rows, id).value, db.now) && Lookup(db.rows, id).value.quantity < more
    ensures Request(db, id, account, p, more).1 == Refused(InsufficientStock)
  {
    var i := Find(db.rows, id);
    assert db.rows[i].quantity > 0;
    ReservedSplit(db.rows, i, p, db.now);
    ReservedOthers(db.rows, p, id, db.now);
    ReservedSweep(db.rows, db.now, p, p, id);
  }

  lemma TakenThenRefused(db: Db, met: Db, id: ReservationId, account: nat, p: string, q: int32, expiresAt: int, more: int32,
                         other: ReservationId, stranger: nat, units: int32)
    requires other != Blank && other != id && id != Blank && q < more && db.now < expiresAt
    requires LoweredTo(db, db.now, id, account, p, q, expiresAt, other)
    requires units == Free(db, p) && met == Request(db, other, stranger, p, units).0
    ensures Request(met, id, account, p, more).1 == Refused(InsufficientStock)
  {
    FreeGranted(db, other, stranger, p, units);
    RequestKeeps(db, met, other, stranger, p, units, db.now + RESERVATION_TTL, id);
    CannotGrow(met, id, account, p, more);
  }

  lemma RivalTakes(db: Db, lowered: Db, granted: Outcome, met: Db, id: ReservationId, account: nat, p: string, q: int32,
                   other: ReservationId, stranger: nat, units: int32, expiresAt: int, more: int32)
    requires Sound(db) && NoOversell(db) && Lowers(db, id, p, q) && q < more == Lookup(db.rows, id).value.quantity
    requires other != Blank && other != id && Lookup(db.rows, other).None? && expiresAt > db.now
    requires (lowered, granted) == ReserveStock(db, id, account, p, q, expiresAt, CART)
    requires units == Free(lowered, p) && met == Request(lowered, other, stranger, p, units).0
    ensures granted.Reply? && Request(met, id, account, p, more).1 == Refused(InsufficientStock)
  {
    LoweringFrees(db, lowered, granted, id, account, p, q, expiresAt, other);
    TakenThenRefused(lowered, met, id, account, p, q, expiresAt, more, other, stranger, units);
  }

  /** A failed request that lowered a reservation cannot always be undone: for every live reservation
      lowered to `q`, a rival who takes what is then free makes Inventory refuse the compensating call. */
  lemma LoweredCanBeLost(db: Db, id: ReservationId, account: nat, p: string, q: int32, other: ReservationId, stranger: nat, units: int32,
                         lowered: Db, granted: Outcome, met: Db)
    requires Sound(db) && NoOversell(db) && Lowers(db, id, p, q) && q < Lookup(db.rows, id).value.quantity
    requires other != Blank && other != id && Lookup(db.rows, other).None?
    requires (lowered, granted) == Request(db, id, account, p, q)
    requires units == Free(lowered, p) && met == Request(lowered, other, stranger, p, units).0
    ensures granted.Reply? && Request(met, id, account, p, Lookup(db.rows, id).value.quantity).1 == Refused(InsufficientStock)
  {
    RivalTakes(db, lowered, granted, met, id, account, p, q, other, stranger, units, db.now + RESERVATION_TTL,
               Lookup(db.rows, id).value.quantity);
  }

  /** A request that Inventory carried out although its reply was lost: the cart, which was not saved, agrees
      with Inventory afterwards if and only if the request asked for what the line already had. */
  lemma UnansweredAgrees(items: seq<CartItem>, i: nat, db: Db, after: Db, outcome: Outcome, account: nat, q: int32)
    requires Sound(db) && NoOversell(db) && Agree(items, db, account) && i < |items| && items[i].reservedUntil > db.now
    requires (after, outcome) == Request(db, items[i].reservationID, account, items[i].productID, q) && outcome.Reply?
    ensures Agree(items, after, account) <==> q == items[i].quantity
  {
    RequestAnswered(db, after, outcome, items[i].reservationID, account, items[i].productID, q);
    AgreesAfter(items, i, db, after, outcome, account, q);
  }

  /** The same for a reservation that no line is on: the cart still agrees, and the units are held for nobody until
      their term ends. */
  lemma UnansweredStrands(items: seq<CartItem>, db: Db, after: Db, outcome: Outcome, id: ReservationId, account: nat, p: string, q: int32)
    requires Sound(db) && NoOversell(db) && Agree(items, db, account) && forall x | x in items :: x.reservationID != id
    requires (after, outcome) == Request(db, id, account, p, q) && outcome.Reply?
    ensures Agree(items, after, account) && Held(after, id) == q > 0
  {
    RequestAnswered(db, after, outcome, id, account, p, q);
    Stranded(items, db, after, outcome, id, account, p, q);
  }

  lemma Stranded(items: seq<CartItem>, db: Db, after: Db, outcome: Outcome, id: ReservationId, account: nat, p: string, q: int32)
    requires Agree(items, db, account) && forall x | x in items :: x.reservationID != id
    requires Answered(db, after, outcome, id, account, p, q) && outcome.Reply?
    ensures Agree(items, after, account) && Held(after, id) == q > 0
  {
    AgreeSurvives(items, db, after, account);
  }

  /** A save that took effect although it reported an error: the changes are undone under the saved cart, which then
      disagrees with Inventory on every unexpired line that they had raised. */
  lemma SavedThenUndone(items: seq<CartItem>, start: Db, db: Db, c: Change, account: nat, x: CartItem)
    requires Undone(start, db, c, account) && x in items && x.reservationID == c.id
    requires x.quantity > c.previousQuantity && x.reservedUntil > db.now
    ensures !Agree(items, db, account)
  {
    assert !Backed(x, db, account);
  }

  lemma AgreesAfter(items: seq<CartItem>, i: nat, db: Db, after: Db, outcome: Outcome, account: nat, q: int32)
    requires Agree(items, db, account) && i < |items| && items[i].reservedUntil > db.now
    requires Answered(db, after, outcome, items[i].reservationID, account, items[i].productID, q) && outcome.Reply?
    ensures Agree(items, after, account) <==> q == items[i].quantity
  {
    assert items[i] in items;
    forall x | x in items && x != items[i] ensures x.reservationID != items[i].reservationID {
      SameLine(items, items[i]);
    }
    if q == items[i].quantity {
      forall x | x in items && x.reservedUntil > after.now ensures Backed(x, after, account) {
        assert Backed(x, db, account);
      }
    } else {
      assert !Backed(items[i], after, account);
    }
  }

  // ------------------------------------------------------------------ retries

  /** A reservation that was ever released, committed or expired can never be reserved again, in any
      continuation. */
  lemma NeverReservedAgain(db: Db, ops: seq<Op>, id: ReservationId, account: nat, p: string, q: int32, expiresAt: int)
    requires Sound(db) && Over(db, id)
    ensures Over(Run(db, ops), id)
    ensures ReserveStock(Run(db, ops), id, account, p, q, expiresAt, CART).1.Refused?
  {
    RunForward(db, ops, id);
    RunSound(db, ops);
    ReserveAccepts(Run(db, ops), id, account, p, q, expiresAt, CART);
  }

  /** With every own id of the proposal unknown and every line outlasting the confirmation, no item is ever
      refused because its id is used up. */
  lemma FreshNotBlocked(halt: Halt, start: Db, lines: seq<CartItem>, proposal: Proposal, account: nat, deadline: int)
    requires Sound(start) && Agree(lines, start, account) && WellFormedProposal(proposal.items)
    requires forall k | 0 <= k < |proposal.items| :: Lookup(start.rows, OwnId(proposal, k)).None?
    requires forall x | x in lines :: x.reservedUntil > deadline
    requires start.now <= deadline
    ensures !Obstacle(halt, start, lines, proposal, account, deadline, FromInventory(DuplicateReservation))
  {
    var db, items, n := halt.db, halt.items, halt.done;
    if Progress(start, db, lines, items, halt.changes, proposal.items, n, proposal.id, account, deadline) && n < |proposal.items| {
      NextIdUsable(start, db, lines, items, halt.changes, proposal, n, account, deadline);
      UsableNotDuplicate(db, items, proposal, n, account);
    }
  }

  /** An id that is unknown or live is never refused as a duplicate. */
  lemma UsableNotDuplicate(db: Db, items: seq<CartItem>, proposal: Proposal, n: nat, account: nat)
    requires n < |proposal.items|
    requires var id := IdFor(items, proposal, proposal.items[n].productID);
      id != Blank && (Lookup(db.rows, id).Some? ==> Live(Lookup(db.rows, id).value, db.now))
    ensures !Blocked(db, items, proposal, n, account, FromInventory(DuplicateReservation))
  {
    LookupSweep(db.rows, db.now, proposal.items[n].productID, IdFor(items, proposal, proposal.items[n].productID));
  }

  /** The id of the next item is unknown, or it is that of a line and still live. */
  lemma NextIdUsable(start: Db, db: Db, lines: seq<CartItem>, items: seq<CartItem>, changes: seq<Change>, proposal: Proposal, n: nat,
                     account: nat, deadline: int)
    requires Sound(start) && Agree(lines, start, account) && WellFormedProposal(proposal.items)
    requires forall k | 0 <= k < |proposal.items| :: Lookup(start.rows, OwnId(proposal, k)).None?
    requires forall x | x in lines :: x.reservedUntil > deadline >= start.now
    requires Progress(start, db, lines, items, changes, proposal.items, n, proposal.id, account, deadline) && n < |proposal.items|
    ensures var id := IdFor(items, proposal, proposal.items[n].productID);
      id != Blank && (Lookup(db.rows, id).Some? ==> Live(Lookup(db.rows, id).value, db.now))
  {
    var p := proposal.items[n].productID;
    if i :| 0 <= i < |items| && items[i].productID == p {
      IdForLine(items, proposal, i);
      assert items[i] in items && !Dealt(proposal.items, n, p);
      assert Backed(items[i], db, account);
    } else {
      IdForNew(items, proposal, p);
      OwnIdUnchanged(start, db, lines, changes, proposal, n, account, deadline, n);
    }
  }

  /** After a failed confirmation, at any later time at which the cart has a line for the same products: the
      proposal's own id stands in the way of an item exactly if the failed one had dealt with that item and the
      cart had no line for it. */
  lemma SpentExactly(before: CartState, failed: CartState, again: CartState, account: nat, proposal: Proposal, error: CartError,
                     compensations: seq<Outcome>, halt: Halt, saveFails: bool, k: nat)
    requires k < |proposal.items| && Lookup(before.inventory.rows, OwnId(proposal, k)).None?
    requires CartService.ConfirmOutcome(before, failed, account, proposal, Err(error), compensations, halt, saveFails)
    requires Aged(Lookup(failed.inventory.rows, OwnId(proposal, k)), Lookup(again.inventory.rows, OwnId(proposal, k)), again.inventory.now)
    requires NoLine(again.Lines(), proposal.items[k].productID) <==> NoLine(before.Lines(), proposal.items[k].productID)
    ensures Spent(again.inventory, again.Lines(), proposal, k) <==>
      k < halt.done && NoLine(before.Lines(), proposal.items[k].productID)
  {
    assert CartService.Abandoned(before, failed, proposal, compensations, halt);
  }

  /** A confirmation that failed after it had dealt with a product new to the cart cannot be retried: after any
      run of transactions, as long as the cart has no line for that product, it fails again, for this product
      or for one before it. */
  lemma RetryFails(before: CartState, failed: CartState, again: CartState, last: CartState, ops: seq<Op>, account: nat, proposal: Proposal,
                   error: CartError, compensations: seq<Outcome>, halt: Halt, saveFails: bool,
                   retry: Result<Cart>, more: seq<Outcome>, stop: Halt, resaveFails: bool, k: nat)
    requires CartService.ConfirmOutcome(before, failed, account, proposal, Err(error), compensations, halt, saveFails)
    requires k < halt.done && k < |proposal.items| && NoLine(before.Lines(), proposal.items[k].productID)
    requires Lookup(before.inventory.rows, OwnId(proposal, k)).None? && Sound(failed.inventory)
    requires again.inventory == Run(failed.inventory, ops) && NoLine(again.Lines(), proposal.items[k].productID)
    requires CartService.ConfirmOutcome(again, last, account, proposal, retry, more, stop, resaveFails)
    ensures retry.Err? && stop.done <= k
  {
    assert CartService.Abandoned(before, failed, proposal, compensations, halt);
    RunForward(failed.inventory, ops, OwnId(proposal, k));
    assert Spent(again.inventory, again.Lines(), proposal, k);
  }
}
