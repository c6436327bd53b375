/**
  The Inventory database and what one transaction does to it: stock rows, reservation rows and the
  database clock.  Every function below is one transaction, which the `FOR UPDATE` locks serialise;
  a failed transaction is rolled back and leaves the database as it was.
*/
module Ledger {
  import opened Width

  /** Blank is the empty string; Uuid stands for a random UUID and ForProposal for the SHA-256 name
      of a (proposal, product) pair, both taken to be injective. */
  datatype ReservationId = Blank | Uuid(serial: nat) | ForProposal(proposalId: string, productId: string)

  datatype Status = Active | Released | Committed | Expired

  datatype Reservation = Reservation(
    id: ReservationId, account: nat, product: string, quantity: int32,
    status: Status, source: string, expiresAt: int)

  datatype Stock = Stock(quantity: int32, reorderLevel: int32)

  datatype Availability = Availability(total: int32, reserved: int32, available: int32, lowStock: bool)

  /** Reservation rows are in order of their auto-increment key. */
  datatype Db = Db(now: int, stocks: map<string, Stock>, rows: seq<Reservation>)

  datatype Failure =
    | InvalidQuantity | InsufficientStock | StockNotFound | ReservationNotFound | DuplicateReservation

  datatype Outcome = Reply(reservation: Reservation, availability: Availability) | Done | Refused(failure: Failure)

  // ---------------------------------------------------------------- queries

  predicate Live(r: Reservation, now: int) {
    r.status == Active && r.expiresAt > now
  }

  /** The id has a row, and it is not active any more. */
  predicate Over(db: Db, id: ReservationId) {
    Lookup(db.rows, id).Some? && Lookup(db.rows, id).value.status != Active
  }

  /** What a call to Inventory meets: it is answered, it never arrives, or its answer is lost. */
  datatype Fault = NoFault | Lost | ReplyLost

  function Weight(r: Reservation, product: string, exclude: ReservationId, now: int): int {
    if r.product == product && Live(r, now) && (exclude == Blank || r.id != exclude) then r.quantity else 0
  }

  /** The SUM(quantity) query, before its conversion to int32. */
  function Reserved(rows: seq<Reservation>, product: string, exclude: ReservationId, now: int): int {
    if rows == [] then 0
    else Reserved(rows[..|rows| - 1], product, exclude, now) + Weight(rows[|rows| - 1], product, exclude, now)
  }

  /** Index of the row named `id`, or the number of rows when there is none. */
  function Find(rows: seq<Reservation>, id: ReservationId): (i: nat)
    ensures i <= |rows|
    ensures i < |rows| ==> rows[i].id == id
    ensures forall j | 0 <= j < i :: rows[j].id != id
  {
    if rows == [] then 0
    else
      var n := |rows| - 1;
      var i := Find(rows[..n], id);
      if i < n then i else if rows[n].id == id then n else n + 1
  }

  function Lookup(rows: seq<Reservation>, id: ReservationId): Option<Reservation> {
    var i := Find(rows, id);
    if i < |rows| then Some(rows[i]) else None
  }

  function ToAvailability(stock: Stock, reserved: int32): Availability {
    var free := Wrap32(stock.quantity - reserved);
    var available := if free < 0 then 0 else free;
    Availability(stock.quantity, reserved, available, available <= stock.reorderLevel)
  }

  // ----------------------------------------------------------- transactions

  /** The expiry sweep; an empty scope means every product. */
  function Swept(r: Reservation, now: int, scope: string): Reservation {
    if r.status == Active && r.expiresAt <= now && (scope == "" || r.product == scope)
    then r.(status := Expired) else r
  }

  function Sweep(rows: seq<Reservation>, now: int, scope: string): seq<Reservation> {
    seq(|rows|, i requires 0 <= i < |rows| => Swept(rows[i], now, scope))
  }

  function ReserveStock(db: Db, id: ReservationId, account: nat, product: string, quantity: int32,
                        expiresAt: int, source: string): (Db, Outcome)
  {
    if quantity <= 0 then (db, Refused(InvalidQuantity))
    else if product !in db.stocks then (db, Refused(StockNotFound))
    else
      var rows := Sweep(db.rows, db.now, product);
      var stock := db.stocks[product];
      var found := Find(rows, id);
      var existingActive := id != Blank && found < |rows| && rows[found].status == Active;
      var reservedOther := Wrap32(Reserved(rows, product, id, db.now));
      if quantity > Wrap32(stock.quantity - reservedOther) then (db, Refused(InsufficientStock))
      else
        var row := Reservation(id, account, product, quantity, Active, source, expiresAt);
        var reply := Reply(row, ToAvailability(stock, Wrap32(reservedOther + quantity)));
        if existingActive then (db.(rows := rows[found := row]), reply)
        else if found < |rows| then (db, Refused(DuplicateReservation))
        else (db.(rows := rows + [row]), reply)
  }

  function Transition(db: Db, id: ReservationId, next: Status): (Db, Outcome) {
    var rows := Sweep(db.rows, db.now, "");
    var found := Find(rows, id);
    if found == |rows| then (db, Refused(ReservationNotFound))
    else if rows[found].product !in db.stocks then (db, Refused(StockNotFound))
    else
      var row := rows[found];
      var stock := db.stocks[row.product];
      if row.status == next || row.status == Expired then
        (db.(rows := rows), Reply(row, ToAvailability(stock, Wrap32(Reserved(rows, row.product, Blank, db.now)))))
      else
        var moved := row.(status := next);
        var rows' := rows[found := moved];
        var reserved := Wrap32(Reserved(rows', row.product, Blank, db.now));
        if next == Committed && row.status == Active then
          var left := Wrap32(stock.quantity - row.quantity);
          if left < 0 then (db, Refused(InsufficientStock))
          else
            var stock' := stock.(quantity := left);
            (db.(rows := rows', stocks := db.stocks[row.product := stock']),
             Reply(moved, ToAvailability(stock', reserved)))
        else (db.(rows := rows'), Reply(moved, ToAvailability(stock, reserved)))
  }

  function AdjustStock(db: Db, product: string, delta: int32, reorderLevel: int32): (Db, Outcome) {
    if product !in db.stocks then (db, Refused(StockNotFound))
    else
      var stock := db.stocks[product];
      if Wrap32(stock.quantity + delta) < 0 then (db, Refused(InsufficientStock))
      else
        var stock' := Stock(Wrap32(stock.quantity + delta),
                            if reorderLevel >= 0 then reorderLevel else stock.reorderLevel);
        (db.(stocks := db.stocks[product := stock']), Done)
  }

  function UpsertStock(db: Db, product: string, quantity: int32, reorderLevel: int32): (Db, Outcome) {
    if quantity < 0 || reorderLevel < 0 then (db, Refused(InvalidQuantity))
    else (db.(stocks := db.stocks[product := Stock(quantity, reorderLevel)]), Done)
  }

  function InitializeStock(db: Db, product: string, quantity: int32, reorderLevel: int32): (Db, Outcome) {
    if product == "" || quantity < 0 || reorderLevel < 0 then (db, Refused(InvalidQuantity))
    else if product in db.stocks then (db, Done)
    else (db.(stocks := db.stocks[product := Stock(quantity, reorderLevel)]), Done)
  }

  // ------------------------------------------------------------------- runs

  datatype Op =
    | Reserve(id: ReservationId, account: nat, product: string, quantity: int32, expiresAt: int, source: string)
    | Release(id: ReservationId)
    | Commit(id: ReservationId)
    | Cleanup
    | Adjust(product: string, delta: int32, reorderLevel: int32)
    | Upsert(product: string, level: int32, reorderLevel: int32)
    | Initialize(product: string, level: int32, reorderLevel: int32)
    | Wait(time: nat)

  function Step(db: Db, op: Op): (Db, Outcome) {
    match op
    case Reserve(id, account, product, quantity, expiresAt, source) =>
      ReserveStock(db, id, account, product, quantity, expiresAt, source)
    case Release(id) => Transition(db, id, Released)
    case Commit(id) => Transition(db, id, Committed)
    case Cleanup => (db.(rows := Sweep(db.rows, db.now, "")), Done)
    case Adjust(product, delta, reorderLevel) => AdjustStock(db, product, delta, reorderLevel)
    case Upsert(product, level, reorderLevel) => UpsertStock(db, product, level, reorderLevel)
    case Initialize(product, level, reorderLevel) => InitializeStock(db, product, level, reorderLevel)
    case Wait(time) => (db.(now := db.now + time), Done)
  }

  /** The database after a run of transactions. */
  function Run(db: Db, ops: seq<Op>): Db
    decreases |ops|
  {
    if ops == [] then db else Run(Step(db, ops[0]).0, ops[1..])
  }

  // ------------------------------------------------------------- invariants

  ghost predicate UniqueIds(rows: seq<Reservation>) {
    forall i, j | 0 <= i < j < |rows| :: rows[i].id != rows[j].id
  }

  /** What every transaction keeps, admin operations included.  The last line says that the int64
      sum always fits the int32 it is converted to. */
  ghost predicate Sound(db: Db) {
    && UniqueIds(db.rows)
    && (forall p | p in db.stocks :: 0 <= db.stocks[p].quantity)
    && (forall i | 0 <= i < |db.rows| :: db.rows[i].quantity > 0 && db.rows[i].product in db.stocks)
    && (forall p :: Reserved(db.rows, p, Blank, db.now) <= MAX_INT32)
  }

  /** No product has more units on live hold than it has in stock. */
  ghost predicate NoOversell(db: Db) {
    forall p | p in db.stocks :: Reserved(db.rows, p, Blank, db.now) <= db.stocks[p].quantity
  }

  // ------------------------------------------------------- lemmas about SUM

  lemma {:induction false} ReservedNonNegative(rows: seq<Reservation>, p: string, ex: ReservationId, now: int)
    requires forall i | 0 <= i < |rows| :: rows[i].quantity > 0
    ensures Reserved(rows, p, ex, now) >= 0
  {
    if rows != [] { ReservedNonNegative(rows[..|rows| - 1], p, ex, now); }
  }

  /** Replacing one row moves the sum by exactly the difference of the two rows. */
  lemma {:induction false} ReservedUpdate(rows: seq<Reservation>, i: nat, r: Reservation, p: string, ex: ReservationId, now: int)
    requires i < |rows|
    ensures Reserved(rows[i := r], p, ex, now)
         == Reserved(rows, p, ex, now) - Weight(rows[i], p, ex, now) + Weight(r, p, ex, now)
  {
    var n := |rows| - 1;
    if i == n {
      assert rows[i := r][..n] == rows[..n];
    } else {
      assert rows[i := r][..n] == rows[..n][i := r];
      ReservedUpdate(rows[..n], i, r, p, ex, now);
    }
  }

  lemma ReservedAppend(rows: seq<Reservation>, r: Reservation, p: string, ex: ReservationId, now: int)
    ensures Reserved(rows + [r], p, ex, now) == Reserved(rows, p, ex, now) + Weight(r, p, ex, now)
  {
    assert (rows + [r])[..|rows|] == rows;
  }

  /** The sweep changes no sum: it only touches rows that no longer count. */
  lemma {:induction false} ReservedSweep(rows: seq<Reservation>, now: int, scope: string, p: string, ex: ReservationId)
    ensures Reserved(Sweep(rows, now, scope), p, ex, now) == Reserved(rows, p, ex, now)
  {
    if rows != [] {
      var n := |rows| - 1;
      assert Sweep(rows, now, scope)[..n] == Sweep(rows[..n], now, scope);
      ReservedSweep(rows[..n], now, scope, p, ex);
    }
  }

  lemma {:induction false} ReservedLater(rows: seq<Reservation>, p: string, ex: ReservationId, now: int, later: int)
    requires now <= later
    requires forall i | 0 <= i < |rows| :: rows[i].quantity > 0
    ensures Reserved(rows, p, ex, later) <= Reserved(rows, p, ex, now)
  {
    if rows != [] { ReservedLater(rows[..|rows| - 1], p, ex, now, later); }
  }

  lemma {:induction false} ReservedAbsent(rows: seq<Reservation>, p: string, id: ReservationId, now: int)
    requires forall i | 0 <= i < |rows| :: rows[i].id != id
    ensures Reserved(rows, p, id, now) == Reserved(rows, p, Blank, now)
  {
    if rows != [] { ReservedAbsent(rows[..|rows| - 1], p, id, now); }
  }

  /** The sum splits into one reservation and all the others. */
  lemma {:induction false} ReservedSplit(rows: seq<Reservation>, i: nat, p: string, now: int)
    requires UniqueIds(rows) && i < |rows| && rows[i].id != Blank
    ensures Reserved(rows, p, Blank, now)
         == Reserved(rows, p, rows[i].id, now) + Weight(rows[i], p, Blank, now)
  {
    var n := |rows| - 1;
    if i == n {
      ReservedAbsent(rows[..n], p, rows[i].id, now);
    } else {
      ReservedSplit(rows[..n], i, p, now);
    }
  }

  /** Leaving one reservation out of the sum leaves at most the sum. */
  lemma ReservedOthers(rows: seq<Reservation>, p: string, id: ReservationId, now: int)
    requires UniqueIds(rows) && forall i | 0 <= i < |rows| :: rows[i].quantity > 0
    ensures 0 <= Reserved(rows, p, id, now) <= Reserved(rows, p, Blank, now)
  {
    ReservedNonNegative(rows, p, id, now);
    var i := Find(rows, id);
    if i < |rows| && id != Blank {
      ReservedSplit(rows, i, p, now);
    } else if i == |rows| {
      ReservedAbsent(rows, p, id, now);
    }
  }

  // ---------------------------------------------------- lemmas about lookup

  /** Find returns the first row that bears the name. */
  lemma FindFirst(rows: seq<Reservation>, id: ReservationId, k: nat)
    requires k <= |rows| && (k < |rows| ==> rows[k].id == id)
    requires forall j | 0 <= j < k :: rows[j].id != id
    ensures Find(rows, id) == k
  {
    var f := Find(rows, id);
    assert !(f < k) && !(k < f);
  }

  lemma LookupSweep(rows: seq<Reservation>, now: int, scope: string, id: ReservationId)
    ensures Find(Sweep(rows, now, scope), id) == Find(rows, id)
    ensures Lookup(Sweep(rows, now, scope), id)
         == match Lookup(rows, id) case None => None case Some(r) => Some(Swept(r, now, scope))
  {
    FindFirst(Sweep(rows, now, scope), id, Find(rows, id));
  }

  lemma LookupUpdate(rows: seq<Reservation>, i: nat, r: Reservation, id: ReservationId)
    requires UniqueIds(rows) && i < |rows| && r.id == rows[i].id
    ensures UniqueIds(rows[i := r])
    ensures Lookup(rows[i := r], id) == if id == r.id then Some(r) else Lookup(rows, id)
  {
    FindFirst(rows[i := r], id, Find(rows, id));
    FindFirst(rows, r.id, i);
  }

  lemma LookupAppend(rows: seq<Reservation>, r: Reservation, id: ReservationId)
    requires UniqueIds(rows) && Find(rows, r.id) == |rows|
    ensures UniqueIds(rows + [r])
    ensures Lookup(rows + [r], id) == if id == r.id then Some(r) else Lookup(rows, id)
  {
    FindAppend(rows, r, id);
    FindAppend(rows, r, r.id);
    UniqueAppend(rows, r);
  }

  lemma FindAppend(rows: seq<Reservation>, r: Reservation, id: ReservationId)
    ensures Find(rows + [r], id)
         == if Find(rows, id) < |rows| then Find(rows, id) else if r.id == id then |rows| else |rows| + 1
  {
    assert (rows + [r])[..|rows|] == rows;
  }

  lemma UniqueAppend(rows: seq<Reservation>, r: Reservation)
    requires UniqueIds(rows) && forall i | 0 <= i < |rows| :: rows[i].id != r.id
    ensures UniqueIds(rows + [r])
  {
  }
}
