/** What the Inventory transactions guarantee, one by one and over every run. */
module LedgerTheorems {
  import opened Width
  import opened Ledger

  // ------------------------------------------------------------ ReserveStock

  /** Facts about the swept rows a reservation transaction works on. */
  lemma SweepKeeps(db: Db, scope: string)
    requires Sound(db)
    ensures Sound(db.(rows := Sweep(db.rows, db.now, scope)))
    ensures forall p, ex :: Reserved(Sweep(db.rows, db.now, scope), p, ex, db.now) == Reserved(db.rows, p, ex, db.now)
  {
    forall p, ex ensures Reserved(Sweep(db.rows, db.now, scope), p, ex, db.now) == Reserved(db.rows, p, ex, db.now) {
      ReservedSweep(db.rows, db.now, scope, p, ex);
    }
  }

  /** ReserveStock accepts exactly the requests the exact (unbounded) stock arithmetic allows, for an
      id that is new or still active: no int32 conversion or subtraction ever changes the answer. */
  lemma ReserveAccepts(db: Db, id: ReservationId, account: nat, p: string, quantity: int32, expiresAt: int, source: string)
    requires Sound(db)
    ensures ReserveStock(db, id, account, p, quantity, expiresAt, source).1.Reply? <==>
            && quantity > 0
            && p in db.stocks
            && Reserved(db.rows, p, id, db.now) + quantity <= db.stocks[p].quantity
            && (match Lookup(db.rows, id)
                case None => true
                case Some(r) => id != Blank && Swept(r, db.now, p).status == Active)
  {
    SweepKeeps(db, p);
    LookupSweep(db.rows, db.now, p, id);
    ReservedOthers(db.rows, p, id, db.now);
  }

  /** The sums after an accepted reservation: its own product carries exactly the other holds plus the
      new one, and no other product's sum grows. */
  lemma ReserveEffect(db: Db, id: ReservationId, account: nat, p: string, quantity: int32, expiresAt: int, source: string, x: string)
    requires Sound(db)
    requires ReserveStock(db, id, account, p, quantity, expiresAt, source).1.Reply?
    ensures var db' := ReserveStock(db, id, account, p, quantity, expiresAt, source).0;
      && Reserved(db'.rows, x, Blank, db.now) <= Reserved(db.rows, x, Blank, db.now) + (if x == p then quantity else 0)
      && (x == p ==>
          Reserved(db'.rows, p, Blank, db.now)
          == Reserved(db.rows, p, id, db.now) + (if expiresAt > db.now then quantity else 0))
  {
    var rows := Sweep(db.rows, db.now, p);
    var row := Reservation(id, account, p, quantity, Active, source, expiresAt);
    var found := Find(rows, id);
    assert UniqueIds(rows) && forall i | 0 <= i < |rows| :: rows[i].quantity > 0;
    ReservedSweep(db.rows, db.now, p, x, Blank);
    ReservedSweep(db.rows, db.now, p, p, id);
    if found < |rows| {
      ReservedUpdate(rows, found, row, x, Blank, db.now);
      ReservedSplit(rows, found, p, db.now);
    } else {
      ReservedAppend(rows, row, x, Blank, db.now);
      ReservedAbsent(rows, p, id, db.now);
    }
  }

  lemma ReserveOthersKept(db: Db, id: ReservationId, account: nat, p: string, quantity: int32, expiresAt: int, source: string, x: string)
    requires Sound(db) && x != p
    ensures Reserved(ReserveStock(db, id, account, p, quantity, expiresAt, source).0.rows, x, Blank, db.now)
         <= Reserved(db.rows, x, Blank, db.now)
  {
    if ReserveStock(db, id, account, p, quantity, expiresAt, source).1.Reply? {
      ReserveEffect(db, id, account, p, quantity, expiresAt, source, x);
    }
  }

  /** Any accepted reservation re-establishes the no-oversell bound of its product, even after an
      administrator has lowered the stock below what is on hold. */
  lemma ReserveRestoresBound(db: Db, id: ReservationId, account: nat, p: string, quantity: int32, expiresAt: int, source: string)
    requires Sound(db)
    requires ReserveStock(db, id, account, p, quantity, expiresAt, source).1.Reply?
    ensures var db' := ReserveStock(db, id, account, p, quantity, expiresAt, source).0;
      p in db'.stocks && Reserved(db'.rows, p, Blank, db'.now) <= db'.stocks[p].quantity
  {
    ReserveAccepts(db, id, account, p, quantity, expiresAt, source);
    ReserveEffect(db, id, account, p, quantity, expiresAt, source, p);
  }

  /** The row table after an accepted reservation: one row is written, the rest only aged. */
  lemma ReserveRows(db: Db, id: ReservationId, account: nat, p: string, quantity: int32, expiresAt: int, source: string)
    requires Sound(db)
    requires ReserveStock(db, id, account, p, quantity, expiresAt, source).1.Reply?
    ensures var rows' := ReserveStock(db, id, account, p, quantity, expiresAt, source).0.rows;
      var row := Reservation(id, account, p, quantity, Active, source, expiresAt);
      && UniqueIds(rows')
      && (forall i | 0 <= i < |rows'| :: rows'[i].quantity > 0 && rows'[i].product in db.stocks)
      && (forall other: ReservationId ::
            Lookup(rows', other) == if other == id then Some(row) else Lookup(Sweep(db.rows, db.now, p), other))
  {
    var rows := Sweep(db.rows, db.now, p);
    SweepKeeps(db, p);
    var row := Reservation(id, account, p, quantity, Active, source, expiresAt);
    var found := Find(rows, id);
    var rows' := ReserveStock(db, id, account, p, quantity, expiresAt, source).0.rows;
    assert rows' == if found < |rows| then rows[found := row] else rows + [row];
    forall other: ReservationId
      ensures UniqueIds(rows')
      ensures Lookup(rows', other) == if other == id then Some(row) else Lookup(rows, other)
    {
      if found < |rows| { LookupUpdate(rows, found, row, other); } else { LookupAppend(rows, row, other); }
    }
    assert Lookup(rows', id) == Some(row);
  }

  lemma ReserveSound(db: Db, id: ReservationId, account: nat, p: string, quantity: int32, expiresAt: int, source: string)
    requires Sound(db)
    ensures Sound(ReserveStock(db, id, account, p, quantity, expiresAt, source).0)
  {
    var (db', outcome) := ReserveStock(db, id, account, p, quantity, expiresAt, source);
    if outcome.Reply? {
      ReserveAccepts(db, id, account, p, quantity, expiresAt, source);
      ReserveRows(db, id, account, p, quantity, expiresAt, source);
      assert db'.stocks == db.stocks && db'.now == db.now;
      ReservedOthers(db.rows, p, id, db.now);
      forall x ensures Reserved(db'.rows, x, Blank, db.now) <= MAX_INT32 {
        if x == p {
          ReserveEffect(db, id, account, p, quantity, expiresAt, source, x);
        } else {
          ReserveOthersKept(db, id, account, p, quantity, expiresAt, source, x);
        }
      }
    }
  }

  // ------------------------------------------------------ release and commit

  /** A transition never adds to any sum, and an accepted one takes the reservation's live quantity
      out of its product's sum. */
  lemma TransitionEffect(db: Db, id: ReservationId, next: Status, x: string)
    requires Sound(db) && next != Active
    ensures var (db', outcome) := Transition(db, id, next);
      && Reserved(db'.rows, x, Blank, db.now) <= Reserved(db.rows, x, Blank, db.now)
      && (outcome.Reply? ==>
          && Lookup(db.rows, id).Some?
          && Reserved(db'.rows, x, Blank, db.now)
             == Reserved(db.rows, x, Blank, db.now) - Weight(Lookup(db.rows, id).value, x, Blank, db.now))
  {
    if Transition(db, id, next).1.Reply? {
      var rows := Sweep(db.rows, db.now, "");
      ReservedSweep(db.rows, db.now, "", x, Blank);
      LookupSweep(db.rows, db.now, "", id);
      var found := Find(rows, id);
      var row := rows[found];
      assert row == Swept(db.rows[found], db.now, "") && db.rows[found].quantity > 0;
      assert Weight(row, x, Blank, db.now) == Weight(db.rows[found], x, Blank, db.now);
      var moved := row.(status := next);
      ReservedUpdate(rows, found, moved, x, Blank, db.now);
      assert Weight(moved, x, Blank, db.now) == 0;
    }
  }

  lemma TransitionSound(db: Db, id: ReservationId, next: Status)
    requires Sound(db) && next != Active
    ensures Sound(Transition(db, id, next).0)
  {
    SweepKeeps(db, "");
    var db' := Transition(db, id, next).0;
    forall x ensures Reserved(db'.rows, x, Blank, db.now) <= MAX_INT32 {
      TransitionEffect(db, id, next, x);
    }
  }

  /** With no oversell a live reservation's quantity is in stock, so its commit goes through. */
  lemma CommitAccepted(db: Db, id: ReservationId)
    requires Sound(db) && NoOversell(db)
    requires Lookup(db.rows, id).Some? && Live(Lookup(db.rows, id).value, db.now)
    ensures var r := Lookup(db.rows, id).value;
      var (db', outcome) := Transition(db, id, Committed);
      && r.product in db.stocks && r.quantity <= db.stocks[r.product].quantity
      && outcome.Reply? && outcome.reservation == r.(status := Committed)
      && db'.now == db.now
      && db'.stocks == db.stocks[r.product := db.stocks[r.product].(quantity := db.stocks[r.product].quantity - r.quantity)]
      && outcome.availability
         == ToAvailability(db'.stocks[r.product], Wrap32(Reserved(db'.rows, r.product, Blank, db.now)))
  {
    var found := Find(db.rows, id);
    var r := db.rows[found];
    LookupSweep(db.rows, db.now, "", id);
    assert Sweep(db.rows, db.now, "")[found] == r && r.quantity > 0 && r.product in db.stocks;
    WeightWithinSum(db.rows, found, r.product, db.now);
  }

  /** With no oversell Inventory refuses no commit and no release of a reservation it knows. */
  lemma KnownAccepted(db: Db, id: ReservationId, next: Status)
    requires Sound(db) && NoOversell(db) && Lookup(db.rows, id).Some? && next != Active
    ensures Transition(db, id, next).1.Reply?
  {
    LookupSweep(db.rows, db.now, "", id);
    if next == Committed && Live(Lookup(db.rows, id).value, db.now) {
      CommitAccepted(db, id);
    }
  }

  lemma {:induction false} WeightWithinSum(rows: seq<Reservation>, i: nat, p: string, now: int)
    requires i < |rows| && forall j | 0 <= j < |rows| :: rows[j].quantity > 0
    ensures Weight(rows[i], p, Blank, now) <= Reserved(rows, p, Blank, now)
  {
    if i == |rows| - 1 {
      ReservedNonNegative(rows[..i], p, Blank, now);
    } else {
      WeightWithinSum(rows[..|rows| - 1], i, p, now);
    }
  }

  /** Every hold is honourable: with no oversell, committing a live reservation succeeds, takes exactly
      its quantity from its product, touches no other stock and leaves what is available unchanged. */
  lemma CommitHonoured(db: Db, id: ReservationId)
    requires Sound(db) && NoOversell(db)
    requires Lookup(db.rows, id).Some? && Live(Lookup(db.rows, id).value, db.now)
    ensures var r := Lookup(db.rows, id).value;
      var (db', outcome) := Transition(db, id, Committed);
      && outcome.Reply? && outcome.reservation == r.(status := Committed)
      && r.product in db.stocks
      && db'.stocks == db.stocks[r.product := db.stocks[r.product].(quantity := db.stocks[r.product].quantity - r.quantity)]
      && Lookup(db'.rows, id) == Some(r.(status := Committed))
      && db'.stocks[r.product].quantity - Reserved(db'.rows, r.product, Blank, db'.now)
         == outcome.availability.available
         == db.stocks[r.product].quantity - Reserved(db.rows, r.product, Blank, db.now)
  {
    var r := Lookup(db.rows, id).value;
    var db' := Transition(db, id, Committed).0;
    CommitAccepted(db, id);
    TransitionEffect(db, id, Committed, r.product);
    TransitionRows(db, id, Committed, id);
    LookupSweep(db.rows, db.now, "", id);
    TransitionSound(db, id, Committed);
    ReservedNonNegative(db'.rows, r.product, Blank, db.now);
  }

  // -------------------------------------------------------------------- runs

  lemma WaitSound(db: Db, time: nat)
    requires Sound(db)
    ensures Sound(db.(now := db.now + time))
  {
    var later := db.now + time;
    forall p ensures Reserved(db.rows, p, Blank, later) <= MAX_INT32 {
      ReservedLater(db.rows, p, Blank, db.now, later);
    }
  }

  lemma ByHandSound(db: Db, op: Op)
    requires Sound(db) && (op.Adjust? || op.Upsert? || op.Initialize?)
    ensures Sound(Step(db, op).0) && db.stocks.Keys <= Step(db, op).0.stocks.Keys
  {
  }

  lemma StepSound(db: Db, op: Op)
    requires Sound(db)
    ensures Sound(Step(db, op).0)
    ensures db.stocks.Keys <= Step(db, op).0.stocks.Keys && db.now <= Step(db, op).0.now
  {
    match op
    case Reserve(id, account, p, q, expiresAt, source) => ReserveSound(db, id, account, p, q, expiresAt, source);
    case Release(id) => TransitionSound(db, id, Released);
    case Commit(id) => TransitionSound(db, id, Committed);
    case Cleanup => SweepKeeps(db, "");
    case Wait(time) => WaitSound(db, time);
    case _ => ByHandSound(db, op);
  }

  /** In every run, admin operations included, stock stays in [0, 2^31-1], reservation ids stay
      unique and the reserved sum stays within int32. */
  lemma {:induction false} RunSound(db: Db, ops: seq<Op>)
    requires Sound(db)
    ensures Sound(Run(db, ops))
    ensures db.stocks.Keys <= Run(db, ops).stocks.Keys && db.now <= Run(db, ops).now
    decreases |ops|
  {
    if ops != [] {
      StepSound(db, ops[0]);
      RunSound(Step(db, ops[0]).0, ops[1..]);
    }
  }

  /** An operation that does not lower a stock level by hand. */
  predicate NonReducing(db: Db, op: Op) {
    match op
    case Adjust(p, delta, _) => delta >= 0
    case Upsert(p, level, _) => p in db.stocks ==> level >= db.stocks[p].quantity
    case _ => true
  }

  predicate NonReducingRun(db: Db, ops: seq<Op>)
    decreases |ops|
  {
    ops == [] || (NonReducing(db, ops[0]) && NonReducingRun(Step(db, ops[0]).0, ops[1..]))
  }

  /** A product without reservation rows has nothing reserved. */
  lemma {:induction false} ReservedUnknown(rows: seq<Reservation>, p: string, now: int)
    requires forall i | 0 <= i < |rows| :: rows[i].product != p
    ensures Reserved(rows, p, Blank, now) == 0
  {
    if rows != [] { ReservedUnknown(rows[..|rows| - 1], p, now); }
  }

  lemma CommitNoOversell(db: Db, id: ReservationId, x: string)
    requires Sound(db) && NoOversell(db) && x in db.stocks
    ensures var db' := Transition(db, id, Committed).0;
      x in db'.stocks && Reserved(db'.rows, x, Blank, db'.now) <= db'.stocks[x].quantity
  {
    TransitionEffect(db, id, Committed, x);
    LookupSweep(db.rows, db.now, "", id);
  }

  lemma ByHandNoOversell(db: Db, op: Op)
    requires Sound(db) && NoOversell(db) && NonReducing(db, op)
    requires op.Adjust? || op.Upsert? || op.Initialize?
    ensures NoOversell(Step(db, op).0)
  {
    var db' := Step(db, op).0;
    forall x | x in db'.stocks ensures Reserved(db'.rows, x, Blank, db'.now) <= db'.stocks[x].quantity {
      if x !in db.stocks { ReservedUnknown(db.rows, x, db.now); }
    }
  }

  lemma ReserveNoOversell(db: Db, op: Op)
    requires Sound(db) && NoOversell(db) && op.Reserve?
    ensures NoOversell(Step(db, op).0)
  {
    var db' := Step(db, op).0;
    assert db'.stocks == db.stocks && db'.now == db.now;
    forall x | x in db'.stocks ensures Reserved(db'.rows, x, Blank, db'.now) <= db'.stocks[x].quantity {
      if x != op.product {
        ReserveOthersKept(db, op.id, op.account, op.product, op.quantity, op.expiresAt, op.source, x);
      } else if Step(db, op).1.Reply? {
        ReserveRestoresBound(db, op.id, op.account, op.product, op.quantity, op.expiresAt, op.source);
      }
    }
  }

  lemma StepNoOversell(db: Db, op: Op)
    requires Sound(db) && NoOversell(db) && NonReducing(db, op)
    ensures NoOversell(Step(db, op).0)
  {
    var db' := Step(db, op).0;
    match op
    case Reserve(_, _, _, _, _, _) => ReserveNoOversell(db, op);
    case Release(id) =>
      forall x ensures Reserved(db'.rows, x, Blank, db.now) <= Reserved(db.rows, x, Blank, db.now) {
        TransitionEffect(db, id, Released, x);
      }
    case Commit(id) =>
      forall x | x in db.stocks
        ensures x in db'.stocks && Reserved(db'.rows, x, Blank, db'.now) <= db'.stocks[x].quantity
      {
        CommitNoOversell(db, id, x);
      }
    case Cleanup => SweepKeeps(db, "");
    case Wait(time) =>
      forall x ensures Reserved(db.rows, x, Blank, db'.now) <= Reserved(db.rows, x, Blank, db.now) {
        ReservedLater(db.rows, x, Blank, db.now, db'.now);
      }
    case _ => ByHandNoOversell(db, op);
  }

  /** No oversell: in every run of reservations, releases, commits, expiries, waiting and stock
      increases, the live holds of a product never exceed its stock. */
  lemma {:induction false} RunNoOversell(db: Db, ops: seq<Op>)
    requires Sound(db) && NoOversell(db) && NonReducingRun(db, ops)
    ensures NoOversell(Run(db, ops))
    decreases |ops|
  {
    if ops != [] {
      StepSound(db, ops[0]);
      StepNoOversell(db, ops[0]);
      RunNoOversell(Step(db, ops[0]).0, ops[1..]);
    }
  }

  // ------------------------------------------------------------ conservation

  /** AdjustStock stores the exact sum or refuses: a wrapped int32 never reaches the row. */
  lemma AdjustExact(db: Db, p: string, delta: int32, reorderLevel: int32)
    requires Sound(db) && p in db.stocks
    ensures var (db', outcome) := AdjustStock(db, p, delta, reorderLevel);
      && (outcome == Done <==> 0 <= db.stocks[p].quantity + delta <= MAX_INT32)
      && (outcome == Done ==> db'.stocks[p].quantity == db.stocks[p].quantity + delta)
      && (outcome != Done ==> db' == db)
  {
  }

  function StockOf(db: Db, p: string): int {
    if p in db.stocks then db.stocks[p].quantity else 0
  }

  /** What an accepted admin operation adds by hand to the stock of `p`. */
  function ByHand(db: Db, op: Op, p: string): int {
    if Step(db, op).1.Refused? then 0
    else match op
      case Adjust(q, delta, _) => if q == p then delta else 0
      case Upsert(q, level, _) => if q == p then level - StockOf(db, p) else 0
      case Initialize(q, level, _) => if q == p && q !in db.stocks then level else 0
      case _ => 0
  }

  function ByHandRun(db: Db, ops: seq<Op>, p: string): int
    decreases |ops|
  {
    if ops == [] then 0 else ByHand(db, ops[0], p) + ByHandRun(Step(db, ops[0]).0, ops[1..], p)
  }

  /** The reservation an operation moves from active to committed, if any. */
  function Sold(db: Db, op: Op): Option<Reservation> {
    if op.Commit? && Step(db, op).1.Reply? then
      match Lookup(db.rows, op.id)
      case Some(r) => if Live(r, db.now) then Some(r) else None
      case None => None
    else None
  }

  /** The reservations sold over a run, in order. */
  function SoldRun(db: Db, ops: seq<Op>): seq<Reservation>
    decreases |ops|
  {
    if ops == [] then []
    else
      var rest := SoldRun(Step(db, ops[0]).0, ops[1..]);
      match Sold(db, ops[0])
      case Some(r) => [r] + rest
      case None => rest
  }

  function SoldUnits(sold: seq<Reservation>, p: string): int {
    if sold == [] then 0
    else (if sold[0].product == p then sold[0].quantity else 0) + SoldUnits(sold[1..], p)
  }

  lemma CommitConserves(db: Db, id: ReservationId, p: string)
    requires Sound(db)
    ensures StockOf(Step(db, Commit(id)).0, p) == StockOf(db, p)
          - (match Sold(db, Commit(id)) case Some(r) => (if r.product == p then r.quantity else 0) case None => 0)
  {
    LookupSweep(db.rows, db.now, "", id);
  }

  lemma StepConserves(db: Db, op: Op, p: string)
    requires Sound(db)
    ensures StockOf(Step(db, op).0, p) == StockOf(db, p) + ByHand(db, op, p)
          - (match Sold(db, op) case Some(r) => (if r.product == p then r.quantity else 0) case None => 0)
  {
    match op
    case Commit(id) => CommitConserves(db, id, p);
    case Adjust(q, delta, level) => if q in db.stocks { AdjustExact(db, q, delta, level); }
    case Reserve(_, _, _, _, _, _) => assert Step(db, op).0.stocks == db.stocks;
    case Release(_) => assert Step(db, op).0.stocks == db.stocks;
    case _ =>
  }

  /** Stock conservation over every run: stock = initial + what was added by hand - what was sold. */
  lemma {:induction false} StockConserved(db: Db, ops: seq<Op>, p: string)
    requires Sound(db)
    ensures StockOf(Run(db, ops), p)
         == StockOf(db, p) + ByHandRun(db, ops, p) - SoldUnits(SoldRun(db, ops), p)
    decreases |ops|
  {
    if ops != [] {
      StepConserves(db, ops[0], p);
      StepSound(db, ops[0]);
      var db' := Step(db, ops[0]).0;
      StockConserved(db', ops[1..], p);
      var rest := SoldRun(db', ops[1..]);
      match Sold(db, ops[0])
      case Some(r) => assert ([r] + rest)[1..] == rest;
      case None =>
    }
  }

  /** How the row of one id may change: it is never deleted, never leaves the inactive statuses for
      Active, and Expired is absorbing. */
  predicate Forward(before: Option<Reservation>, after: Option<Reservation>) {
    match before
    case None => true
    case Some(r) =>
      && after.Some?
      && (r.status != Active ==> after.value.status != Active)
      && (r.status == Expired ==> after == before)
  }

  lemma StepForward(db: Db, op: Op, id: ReservationId)
    requires Sound(db)
    ensures Forward(Lookup(db.rows, id), Lookup(Step(db, op).0.rows, id))
  {
    match op
    case Reserve(rid, account, p, q, expiresAt, source) =>
      if Step(db, op).1.Reply? {
        ReserveAccepts(db, rid, account, p, q, expiresAt, source);
        ReserveRows(db, rid, account, p, q, expiresAt, source);
        LookupSweep(db.rows, db.now, p, id);
      }
    case Release(rid) => TransitionForward(db, rid, Released, id);
    case Commit(rid) => TransitionForward(db, rid, Committed, id);
    case Cleanup => LookupSweep(db.rows, db.now, "", id);
    case _ =>
  }

  /** The row table after an accepted transition: one row moves on, the rest only age. */
  lemma TransitionRows(db: Db, rid: ReservationId, next: Status, id: ReservationId)
    requires Sound(db) && next != Active
    requires Transition(db, rid, next).1.Reply?
    ensures var rows' := Transition(db, rid, next).0.rows;
      var rows := Sweep(db.rows, db.now, "");
      && Lookup(rows, rid).Some?
      && Lookup(rows', id)
         == if id != rid || Lookup(rows, rid).value.status == Expired then Lookup(rows, id)
            else Some(Lookup(rows, rid).value.(status := next))
  {
    var rows := Sweep(db.rows, db.now, "");
    SweepKeeps(db, "");
    var found := Find(rows, rid);
    LookupUpdate(rows, found, rows[found].(status := next), id);
    LookupUpdate(rows, found, rows[found], id);
  }

  lemma TransitionForward(db: Db, rid: ReservationId, next: Status, id: ReservationId)
    requires Sound(db) && next != Active
    ensures Forward(Lookup(db.rows, id), Lookup(Transition(db, rid, next).0.rows, id))
    ensures Transition(db, rid, next).1.Reply? ==>
            Lookup(Transition(db, rid, next).0.rows, rid).Some? &&
            Lookup(Transition(db, rid, next).0.rows, rid).value.status != Active
  {
    if Transition(db, rid, next).1.Reply? {
      TransitionRows(db, rid, next, id);
      TransitionRows(db, rid, next, rid);
      LookupSweep(db.rows, db.now, "", id);
      LookupSweep(db.rows, db.now, "", rid);
    }
  }

  /** Over every run no reservation returns to active, none disappears and expired is final. */
  lemma {:induction false} RunForward(db: Db, ops: seq<Op>, id: ReservationId)
    requires Sound(db)
    ensures Forward(Lookup(db.rows, id), Lookup(Run(db, ops).rows, id))
    decreases |ops|
  {
    if ops != [] {
      StepForward(db, ops[0], id);
      StepSound(db, ops[0]);
      RunForward(Step(db, ops[0]).0, ops[1..], id);
    }
  }

  /** An id that is no longer active is never sold again. */
  lemma {:induction false} NotSoldAgain(db: Db, ops: seq<Op>, id: ReservationId)
    requires Sound(db)
    requires Lookup(db.rows, id).Some? && Lookup(db.rows, id).value.status != Active
    ensures forall k | 0 <= k < |SoldRun(db, ops)| :: SoldRun(db, ops)[k].id != id
    decreases |ops|
  {
    if ops != [] {
      StepForward(db, ops[0], id);
      StepSound(db, ops[0]);
      NotSoldAgain(Step(db, ops[0]).0, ops[1..], id);
    }
  }

  /** Each reservation id is deducted from stock at most once in any run. */
  lemma {:induction false} SoldOnce(db: Db, ops: seq<Op>)
    requires Sound(db)
    ensures UniqueIds(SoldRun(db, ops))
    decreases |ops|
  {
    if ops != [] {
      StepSound(db, ops[0]);
      var db' := Step(db, ops[0]).0;
      SoldOnce(db', ops[1..]);
      if Sold(db, ops[0]).Some? {
        TransitionForward(db, ops[0].id, Committed, ops[0].id);
        NotSoldAgain(db', ops[1..], ops[0].id);
      }
    }
  }
}
