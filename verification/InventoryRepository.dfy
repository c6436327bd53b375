/** The Inventory repository: transactions over tables held in fields. */
module InventoryRepository {
  import opened Width
  import opened Ledger
  import opened LedgerReplies
  import opened LedgerTheorems

  class PostgresRepository {
    var now: int
    var stocks: map<string, Stock>
    var reservations: seq<Reservation>

    ghost function View(): Db
      reads this
    {
      Db(now, stocks, reservations)
    }

    constructor (now: int)
      ensures View() == Db(now, map[], []) && Sound(View()) && NoOversell(View())
    {
      this.now, stocks, reservations := now, map[], [];
    }

    /** Passing time. */
    method Wait(time: nat)
      modifies this`now
      ensures View() == Step(old(View()), Op.Wait(time)).0
    {
      now := now + time;
    }

    method CleanupExpiredReservations() returns (count: nat)
      modifies this`reservations
      ensures View() == Step(old(View()), Cleanup).0
      ensures count == CountChanged(old(reservations), reservations)
      ensures count == 0 <==> reservations == old(reservations)
      ensures forall i | 0 <= i < |reservations| :: reservations[i].status == Active ==> Live(reservations[i], now)
    {
      var swept := Sweep(reservations, now, "");
      count := CountChanged(reservations, swept);
      reservations := swept;
    }

    /** Rows affected by an UPDATE. */
    static function CountChanged(before: seq<Reservation>, after: seq<Reservation>): (n: nat)
      requires |before| == |after|
      ensures n <= |before|
      ensures n == 0 <==> before == after
    {
      if before == [] then 0
      else
        assert before == [before[0]] + before[1..] && after == [after[0]] + after[1..];
        (if before[0] != after[0] then 1 else 0) + CountChanged(before[1..], after[1..])
    }

    /** Transactions of other requests. */
    method LetOthersRun(ops: seq<Op>)
      modifies this
      ensures View() == Run(old(View()), ops)
    {
      var after := Run(Db(now, stocks, reservations), ops);
      now, stocks, reservations := after.now, after.stocks, after.rows;
    }

    /** The sweep, the stock and the sum are read in three transactions: `first` runs after the sweep and
        `second` between the two reads.  The answer mixes the stock before `second` with the sum after it. */
    method GetAvailability(productID: string, first: seq<Op>, second: seq<Op>) returns (r: Option<Availability>)
      requires Sound(View())
      modifies this
      ensures var at := Run(Step(old(View()), Cleanup).0, first);
        && (r.Some? <==> productID in at.stocks)
        && View() == (if r.Some? then Run(at, second) else at)
        && (r.Some? ==> Reads(r.value, at.stocks[productID], Reserved(reservations, productID, Blank, now)))
      ensures Sound(View())
    {
      StepSound(View(), Cleanup);
      var count := CleanupExpiredReservations();
      RunSound(View(), first);
      LetOthersRun(first);
      if productID !in stocks { return None; }
      var stock := stocks[productID];
      RunSound(View(), second);
      LetOthersRun(second);
      ReservedNonNegative(reservations, productID, Blank, now);
      r := Some(ToAvailability(stock, Wrap32(Reserved(reservations, productID, Blank, now))));
    }

    method ReserveStock(reservationID: ReservationId, accountID: nat, productID: string, quantity: int32,
                        expiresAt: int, source: string) returns (outcome: Outcome)
      requires Sound(View())
      modifies this`reservations
      ensures Sound(View())
      ensures (View(), outcome) == Ledger.ReserveStock(old(View()), reservationID, accountID, productID, quantity, expiresAt, source)
      ensures outcome.Refused? ==> View() == old(View())
      ensures outcome.Reply? ==> Reserved(reservations, productID, Blank, now) <= stocks[productID].quantity
    {
      ReserveSound(View(), reservationID, accountID, productID, quantity, expiresAt, source);
      if quantity <= 0 {
        return Refused(InvalidQuantity);
      }
      var tx := Sweep(reservations, now, productID);
      if productID !in stocks {
        return Refused(StockNotFound);
      }
      var stock := stocks[productID];
      var found := Find(tx, reservationID);
      var existingActive := false;
      if reservationID != Blank && found < |tx| {
        existingActive := tx[found].status == Active;
      }
      var reservedOther := Wrap32(Reserved(tx, productID, reservationID, now));
      var availableBefore := Wrap32(stock.quantity - reservedOther);
      if quantity > availableBefore {
        return Refused(InsufficientStock);
      }
      var reservation := Reservation(reservationID, accountID, productID, quantity, Active, source, expiresAt);
      if existingActive {
        tx := tx[found := reservation];
      } else if found < |tx| {
        return Refused(DuplicateReservation);
      } else {
        tx := tx + [reservation];
      }
      outcome := Reply(reservation, ToAvailability(stock, Wrap32(reservedOther + quantity)));
      ReserveRestoresBound(View(), reservationID, accountID, productID, quantity, expiresAt, source);
      reservations := tx;
    }

    method ReleaseReservation(reservationID: ReservationId) returns (outcome: Outcome)
      requires Sound(View())
      modifies this`reservations, this`stocks
      ensures Sound(View()) && stocks == old(stocks)
      ensures (View(), outcome) == Transition(old(View()), reservationID, Released)
    {
      outcome := TransitionReservation(reservationID, Released);
    }

    method CommitReservation(reservationID: ReservationId) returns (outcome: Outcome)
      requires Sound(View())
      modifies this`reservations, this`stocks
      ensures Sound(View())
      ensures (View(), outcome) == Transition(old(View()), reservationID, Committed)
    {
      outcome := TransitionReservation(reservationID, Committed);
    }

    method TransitionReservation(reservationID: ReservationId, next: Status) returns (outcome: Outcome)
      requires Sound(View()) && next != Active
      modifies this`reservations, this`stocks
      ensures Sound(View())
      ensures (View(), outcome) == Transition(old(View()), reservationID, next)
      ensures outcome.Refused? ==> View() == old(View())
    {
      TransitionSound(View(), reservationID, next);
      var tx := Sweep(reservations, now, "");
      var found := Find(tx, reservationID);
      if found == |tx| {
        return Refused(ReservationNotFound);
      }
      var reservation := tx[found];
      if reservation.product !in stocks {
        return Refused(StockNotFound);
      }
      var stock := stocks[reservation.product];
      if reservation.status == next || reservation.status == Expired {
        var reserved := Wrap32(Reserved(tx, reservation.product, Blank, now));
        reservations := tx;
        return Reply(reservation, ToAvailability(stock, reserved));
      }
      if next == Committed && reservation.status == Active {
        stock := stock.(quantity := Wrap32(stock.quantity - reservation.quantity));
        if stock.quantity < 0 {
          return Refused(InsufficientStock);
        }
      }
      reservation := reservation.(status := next);
      tx := tx[found := reservation];
      var reserved := Wrap32(Reserved(tx, reservation.product, Blank, now));
      outcome := Reply(reservation, ToAvailability(stock, reserved));
      assert stock == stocks[reservation.product] ==> stocks[reservation.product := stock] == stocks;
      reservations, stocks := tx, stocks[reservation.product := stock];
    }

    method AdjustStock(productID: string, delta: int32, reorderLevel: int32) returns (outcome: Outcome)
      requires Sound(View())
      modifies this`stocks
      ensures Sound(View())
      ensures (View(), outcome) == Ledger.AdjustStock(old(View()), productID, delta, reorderLevel)
      ensures productID in old(stocks) ==>
        (outcome == Done <==> 0 <= old(stocks)[productID].quantity + delta <= MAX_INT32)
    {
      StepSound(View(), Adjust(productID, delta, reorderLevel));
      if productID !in stocks {
        return Refused(StockNotFound);
      }
      var stock := stocks[productID];
      if Wrap32(stock.quantity + delta) < 0 {
        return Refused(InsufficientStock);
      }
      stock := stock.(quantity := Wrap32(stock.quantity + delta));
      if reorderLevel >= 0 {
        stock := stock.(reorderLevel := reorderLevel);
      }
      stocks := stocks[productID := stock];
      outcome := Done;
    }

    method UpsertStock(productID: string, quantity: int32, reorderLevel: int32) returns (outcome: Outcome)
      requires Sound(View())
      modifies this`stocks
      ensures Sound(View())
      ensures (View(), outcome) == Ledger.UpsertStock(old(View()), productID, quantity, reorderLevel)
    {
      StepSound(View(), Upsert(productID, quantity, reorderLevel));
      if quantity < 0 || reorderLevel < 0 {
        return Refused(InvalidQuantity);
      }
      stocks := stocks[productID := Stock(quantity, reorderLevel)];
      outcome := Done;
    }

    /** Insert unless the row exists; also tells whether it was created. */
    method InitializeStock(productID: string, quantity: int32, reorderLevel: int32)
      returns (outcome: Outcome, stock: Stock, created: bool)
      requires Sound(View())
      modifies this`stocks
      ensures Sound(View())
      ensures (View(), outcome) == Ledger.InitializeStock(old(View()), productID, quantity, reorderLevel)
      ensures outcome == Done ==>
        && created == (productID !in old(stocks))
        && productID in stocks && stock == stocks[productID]
      ensures productID in old(stocks) ==> stocks == old(stocks)
    {
      StepSound(View(), Initialize(productID, quantity, reorderLevel));
      stock, created := Stock(quantity, reorderLevel), false;
      if productID == "" || quantity < 0 || reorderLevel < 0 {
        return Refused(InvalidQuantity), stock, false;
      }
      created := productID !in stocks;
      if created {
        stocks := stocks[productID := stock];
      } else {
        stock := stocks[productID];
      }
      outcome := Done;
    }
  }
}
