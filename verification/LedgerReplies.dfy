/** What Inventory answers: the availability it reports, and the reason of every refusal. */
module LedgerReplies {
  import opened Width
  import opened Ledger
  import opened LedgerTheorems

  /** What is said of a stock level and the exact sum of its live holds. */
  predicate Reads(a: Availability, stock: Stock, reserved: int) {
    && a.total == stock.quantity && a.reserved == reserved
    && a.available == (if stock.quantity < reserved then 0 else stock.quantity - reserved)
    && (a.lowStock <==> a.available <= stock.reorderLevel)
  }

  // ---------------------------------------------------------------- ReserveStock

  /** An accepted reservation is answered with the availability after it: the other holds and the new one are taken
      off the stock, and there is no cut at 0. */
  lemma ReserveReads(db: Db, id: ReservationId, account: nat, p: string, quantity: int32, expiresAt: int, source: string)
    requires Sound(db) && ReserveStock(db, id, account, p, quantity, expiresAt, source).1.Reply?
    ensures var a := ReserveStock(db, id, account, p, quantity, expiresAt, source).1.availability;
      && p in db.stocks && Reads(a, db.stocks[p], Reserved(db.rows, p, id, db.now) + quantity)
      && a.available == db.stocks[p].quantity - Reserved(db.rows, p, id, db.now) - quantity >= 0
  {
    ReserveAccepts(db, id, account, p, quantity, expiresAt, source);
    ReservedOthers(db.rows, p, id, db.now);
    ReservedSweep(db.rows, db.now, p, p, id);
  }

  /** It is answered with its row as it is stored. */
  lemma ReserveStores(db: Db, id: ReservationId, account: nat, p: string, quantity: int32, expiresAt: int, source: string)
    requires Sound(db) && ReserveStock(db, id, account, p, quantity, expiresAt, source).1.Reply?
    ensures var (after, outcome) := ReserveStock(db, id, account, p, quantity, expiresAt, source);
      && after.stocks == db.stocks && after.now == db.now
      && outcome.reservation == Reservation(id, account, p, quantity, Active, source, expiresAt)
      && Lookup(after.rows, id) == Some(outcome.reservation)
  {
    ReserveRows(db, id, account, p, quantity, expiresAt, source);
  }

  /** For a hold that has not run out already, that is the availability of the tables afterwards. */
  lemma ReserveAnswers(db: Db, id: ReservationId, account: nat, p: string, quantity: int32, expiresAt: int, source: string,
                       after: Db, outcome: Outcome)
    requires Sound(db) && expiresAt > db.now && outcome.Reply?
    requires (after, outcome) == ReserveStock(db, id, account, p, quantity, expiresAt, source)
    ensures p in after.stocks && Reads(outcome.availability, after.stocks[p], Reserved(after.rows, p, Blank, after.now))
  {
    ReserveReads(db, id, account, p, quantity, expiresAt, source);
    ReserveStores(db, id, account, p, quantity, expiresAt, source);
    ReserveEffect(db, id, account, p, quantity, expiresAt, source, p);
  }

  /** Every refusal names its reason, the first that applies; it changes nothing. */
  lemma ReserveRefuses(db: Db, id: ReservationId, account: nat, p: string, quantity: int32, expiresAt: int, source: string)
    requires Sound(db)
    ensures var (after, outcome) := ReserveStock(db, id, account, p, quantity, expiresAt, source);
      && (outcome.Refused? ==> after == db)
      && (outcome == Refused(InvalidQuantity) <==> quantity <= 0)
      && (outcome == Refused(StockNotFound) <==> quantity > 0 && p !in db.stocks)
      && (outcome == Refused(InsufficientStock) <==>
            quantity > 0 && p in db.stocks && Reserved(db.rows, p, id, db.now) + quantity > db.stocks[p].quantity)
      && (outcome == Refused(DuplicateReservation) <==>
            quantity > 0 && p in db.stocks && Reserved(db.rows, p, id, db.now) + quantity <= db.stocks[p].quantity
            && Lookup(db.rows, id).Some? && (id == Blank || Swept(Lookup(db.rows, id).value, db.now, p).status != Active))
      && (outcome.Refused? || outcome.Reply?) && outcome != Refused(ReservationNotFound)
  {
    ReserveAccepts(db, id, account, p, quantity, expiresAt, source);
    SweepKeeps(db, p);
    LookupSweep(db.rows, db.now, p, id);
    ReservedOthers(db.rows, p, id, db.now);
  }

  // ------------------------------------------------------ release and commit

  /** Every answer of a release or a commit, effective or not, gives the availability of its product afterwards. */
  lemma TransitionReads(db: Db, id: ReservationId, next: Status, after: Db, outcome: Outcome)
    requires Sound(db) && Sound(after) && outcome.Reply? && (after, outcome) == Transition(db, id, next)
    ensures var p := outcome.reservation.product;
      p in after.stocks && Reads(outcome.availability, after.stocks[p], Reserved(after.rows, p, Blank, after.now))
  {
    ReservedNonNegative(after.rows, outcome.reservation.product, Blank, after.now);
  }

  /** And the row as it is stored afterwards. */
  lemma TransitionAnswers(db: Db, id: ReservationId, next: Status, after: Db, outcome: Outcome)
    requires Sound(db) && next != Active && outcome.Reply? && (after, outcome) == Transition(db, id, next)
    ensures var p := outcome.reservation.product;
      && Lookup(after.rows, id) == Some(outcome.reservation)
      && p in after.stocks && Reads(outcome.availability, after.stocks[p], Reserved(after.rows, p, Blank, after.now))
  {
    TransitionSound(db, id, next);
    TransitionReads(db, id, next, after, outcome);
    TransitionRows(db, id, next, id);
  }

  /** They are refused only for an id without a row, or a commit of more than there is. */
  lemma TransitionRefuses(db: Db, id: ReservationId, next: Status)
    requires Sound(db) && next != Active
    ensures var (after, outcome) := Transition(db, id, next);
      && (outcome.Refused? ==> after == db)
      && (outcome == Refused(ReservationNotFound) <==> Lookup(db.rows, id).None?)
      && (outcome == Refused(InsufficientStock) <==>
            && next == Committed && Lookup(db.rows, id).Some? && Live(Lookup(db.rows, id).value, db.now)
            && StockOf(db, Lookup(db.rows, id).value.product) < Lookup(db.rows, id).value.quantity)
      && (outcome.Reply? || outcome == Refused(ReservationNotFound) || outcome == Refused(InsufficientStock))
  {
    LookupSweep(db.rows, db.now, "", id);
  }

  // ---------------------------------------------------------------- by hand

  /** What a change by hand leaves: that product's row as stated, everything else as it was. */
  predicate Sets(before: Db, after: Db, p: string, level: int, reorderLevel: int) {
    && after.now == before.now && after.rows == before.rows && after.stocks.Keys == before.stocks.Keys + {p}
    && after.stocks[p].quantity == level && after.stocks[p].reorderLevel == reorderLevel
    && forall q | q in before.stocks && q != p :: after.stocks[q] == before.stocks[q]
  }

  /** An adjustment sets the exact sum and, unless it is negative, the reorder level. */
  lemma AdjustSets(db: Db, p: string, delta: int32, reorderLevel: int32)
    requires Sound(db)
    ensures var (after, outcome) := AdjustStock(db, p, delta, reorderLevel);
      if p !in db.stocks then after == db && outcome == Refused(StockNotFound)
      else if 0 <= db.stocks[p].quantity + delta <= MAX_INT32 then
        outcome == Done && Sets(db, after, p, db.stocks[p].quantity + delta, if reorderLevel < 0 then db.stocks[p].reorderLevel else reorderLevel)
      else after == db && outcome == Refused(InsufficientStock)
  {
    if p in db.stocks { AdjustExact(db, p, delta, reorderLevel); }
  }

  /** An upsert sets both unless one is negative; an initialisation only where there is no row, for a named product. */
  lemma UpsertSets(db: Db, p: string, level: int32, reorderLevel: int32)
    ensures var (after, outcome) := UpsertStock(db, p, level, reorderLevel);
      if level >= 0 && reorderLevel >= 0 then outcome == Done && Sets(db, after, p, level, reorderLevel)
      else after == db && outcome == Refused(InvalidQuantity)
    ensures var (after, outcome) := InitializeStock(db, p, level, reorderLevel);
      if p == "" || level < 0 || reorderLevel < 0 then after == db && outcome == Refused(InvalidQuantity)
      else outcome == Done && (if p in db.stocks then after == db else Sets(db, after, p, level, reorderLevel))
  {
  }
}
