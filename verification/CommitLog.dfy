/**
  What the calls of one checkout or payment amount to among everybody else's transactions, those of the same
  account included: between its snapshot and its commits the code holds no lock.
*/
module CommitLog {
  import opened Width
  import opened Ledger
  import opened LedgerTheorems
  import opened CartModel

  /** A transaction that arrived at Inventory, and whether it is one of the checkout's own calls. */
  datatype Entry = Entry(op: Op, own: bool)

  function Play(db: Db, log: seq<Entry>): Db
    decreases |log|
  {
    if log == [] then db else Play(Step(db, log[0].op).0, log[1..])
  }

  /** Nobody lowers a stock by hand. */
  predicate Fair(db: Db, log: seq<Entry>)
    decreases |log|
  {
    log == [] || (NonReducing(db, log[0].op) && Fair(Step(db, log[0].op).0, log[1..]))
  }

  function Ops(log: seq<Entry>): seq<Op>
    decreases |log|
  {
    if log == [] then [] else [log[0].op] + Ops(log[1..])
  }

  lemma {:induction false} PlayIsRun(db: Db, log: seq<Entry>)
    ensures Play(db, log) == Run(db, Ops(log)) && (Fair(db, log) <==> NonReducingRun(db, Ops(log)))
    decreases |log|
  {
    if log != [] {
      assert Ops(log)[1..] == Ops(log[1..]);
      PlayIsRun(Step(db, log[0].op).0, log[1..]);
    }
  }

  lemma {:induction false} PlayConcat(db: Db, a: seq<Entry>, b: seq<Entry>)
    ensures Play(db, a + b) == Play(Play(db, a), b)
    ensures Fair(db, a + b) <==> Fair(db, a) && Fair(Play(db, a), b)
    decreases |a|
  {
    if a == [] {
      assert a + b == b;
    } else {
      assert (a + b)[1..] == a[1..] + b;
      PlayConcat(Step(db, a[0].op).0, a[1..], b);
    }
  }

  // ----------------------------------------------------------- what may happen

  function ReservationsOf(lines: seq<CartItem>): set<ReservationId> {
    set x | x in lines :: x.reservationID
  }

  /** A reservation stays with its product: a cart asks again for a reservation only with its line's product. */
  ghost predicate SameProduct(op: Op, lines: seq<CartItem>) {
    op.Reserve? ==> forall x | x in lines && x.reservationID == op.id :: x.productID == op.product
  }

  ghost predicate Stable(log: seq<Entry>, lines: seq<CartItem>) {
    forall k | 0 <= k < |log| :: SameProduct(log[k].op, lines)
  }

  predicate IsEffect(op: Op, ids: set<ReservationId>, success: bool) {
    if success then op.Commit? && op.id in ids else op.Release? && op.id in ids
  }

  /** The own calls commit, or release, the named reservations; all others do what they like. */
  ghost predicate Allowed(log: seq<Entry>, ids: set<ReservationId>, success: bool) {
    forall k | 0 <= k < |log| && log[k].own :: IsEffect(log[k].op, ids, success)
  }

  predicate ProductOf(db: Db, x: CartItem) {
    Lookup(db.rows, x.reservationID).Some? && Lookup(db.rows, x.reservationID).value.product == x.productID
  }

  /** Lines of distinct products on distinct reservations, each of which exists. */
  ghost predicate Known(lines: seq<CartItem>, db: Db) {
    && DistinctProducts(lines) && DistinctReservations(lines)
    && (forall x | x in lines :: x.reservationID != Blank && x.productID != "" && x.quantity > 0 && ProductOf(db, x))
  }

  /** What others, the account itself included, do before the n-th call of a checkout, given the database it finds; this
      includes the time that passes. */
  type Rivals = (nat, Db) -> seq<Op>

  /** They lower no stock by hand, and ask for a reservation of the lines only with the line's product. */
  ghost predicate Permitted(rivals: Rivals, lines: seq<CartItem>) {
    forall n: nat, db: Db :: Admitted(db, rivals(n, db), lines)
  }

  ghost predicate Admitted(db: Db, ops: seq<Op>, lines: seq<CartItem>) {
    Fair(db, Foreign(ops)) && forall k | 0 <= k < |ops| :: SameProduct(ops[k], lines)
  }

  function Foreign(ops: seq<Op>): (log: seq<Entry>)
    ensures |log| == |ops|
  {
    seq(|ops|, i requires 0 <= i < |ops| => Entry(ops[i], false))
  }

  /** The database reached by the own calls and the transactions of others. */
  ghost predicate Reached(start: Db, log: seq<Entry>, db: Db, ids: set<ReservationId>, lines: seq<CartItem>, success: bool) {
    Sound(start) && db == Play(start, log) && Fair(start, log) && Stable(log, lines) && Allowed(log, ids, success)
  }

  lemma ReachedOn(start: Db, done: seq<Entry>, db: Db, ids: set<ReservationId>, lines: seq<CartItem>, success: bool, more: seq<Entry>)
    requires Reached(start, done, db, ids, lines, success)
    requires Fair(db, more) && Stable(more, lines) && Allowed(more, ids, success)
    ensures Reached(start, done + more, Play(db, more), ids, lines, success)
  {
    PlayConcat(start, done, more);
  }

  lemma ReserveKnown(db: Db, op: Op, id: ReservationId)
    requires Sound(db) && op.Reserve? && Lookup(db.rows, id).Some? && (op.id == id ==> op.product == Lookup(db.rows, id).value.product)
    ensures Lookup(Step(db, op).0.rows, id).Some?
    ensures Lookup(Step(db, op).0.rows, id).value.product == Lookup(db.rows, id).value.product
  {
    if Step(db, op).1.Reply? {
      ReserveRows(db, op.id, op.account, op.product, op.quantity, op.expiresAt, op.source);
      LookupSweep(db.rows, db.now, op.product, id);
    }
  }

  lemma TransitionKnown(db: Db, rid: ReservationId, next: Status, id: ReservationId)
    requires Sound(db) && next != Active && Lookup(db.rows, id).Some?
    ensures Lookup(Transition(db, rid, next).0.rows, id).Some?
    ensures Lookup(Transition(db, rid, next).0.rows, id).value.product == Lookup(db.rows, id).value.product
  {
    if Transition(db, rid, next).1.Reply? {
      TransitionRows(db, rid, next, id);
      LookupSweep(db.rows, db.now, "", id);
      LookupSweep(db.rows, db.now, "", rid);
    }
  }

  lemma StepProduct(db: Db, op: Op, x: CartItem)
    requires Sound(db) && ProductOf(db, x) && (op.Reserve? && op.id == x.reservationID ==> op.product == x.productID)
    ensures ProductOf(Step(db, op).0, x)
  {
    match op
    case Reserve(_, _, _, _, _, _) => ReserveKnown(db, op, x.reservationID);
    case Release(rid) => TransitionKnown(db, rid, Released, x.reservationID);
    case Commit(rid) => TransitionKnown(db, rid, Committed, x.reservationID);
    case Cleanup => LookupSweep(db.rows, db.now, "", x.reservationID);
    case _ =>
  }

  /** A checkout under way. */
  ghost predicate Ongoing(db: Db, log: seq<Entry>, lines: seq<CartItem>, success: bool) {
    Sound(db) && NoOversell(db) && Fair(db, log) && Known(lines, db) && Stable(log, lines) && Allowed(log, ReservationsOf(lines), success)
  }

  lemma OngoingStep(db: Db, log: seq<Entry>, lines: seq<CartItem>, success: bool)
    requires Ongoing(db, log, lines, success) && log != []
    ensures Ongoing(Step(db, log[0].op).0, log[1..], lines, success)
  {
    StepSound(db, log[0].op);
    StepNoOversell(db, log[0].op);
    forall x | x in lines ensures ProductOf(Step(db, log[0].op).0, x) {
      StepProduct(db, log[0].op, x);
    }
  }

  lemma {:induction false} OngoingPlay(db: Db, log: seq<Entry>, lines: seq<CartItem>, success: bool)
    requires Ongoing(db, log, lines, success)
    ensures Ongoing(Play(db, log), [], lines, success) && db.now <= Play(db, log).now
    decreases |log|
  {
    if log != [] {
      StepSound(db, log[0].op);
      OngoingStep(db, log, lines, success);
      OngoingPlay(Step(db, log[0].op).0, log[1..], lines, success);
    }
  }

  // ------------------------------------------------------------ what is taken

  /** The units of a product that the own calls take out of stock. */
  function Taken(db: Db, log: seq<Entry>, p: string): int
    decreases |log|
  {
    if log == [] then 0
    else
      var next := Step(db, log[0].op).0;
      (if log[0].own then StockOf(db, p) - StockOf(next, p) else 0) + Taken(next, log[1..], p)
  }

  /** The live reservation that the first own commit of an id meets, if there is one. */
  function Met(db: Db, log: seq<Entry>, id: ReservationId): Option<Reservation>
    decreases |log|
  {
    if log == [] then None
    else if log[0] == Entry(Commit(id), true) then
      match Lookup(db.rows, id)
      case Some(r) => if Live(r, db.now) then Some(r) else None
      case None => None
    else Met(Step(db, log[0].op).0, log[1..], id)
  }

  function Amount(met: Option<Reservation>): int {
    match met
    case Some(r) => r.quantity
    case None => 0
  }

  /** The line's reservation can never be committed with effect again: it is over, or its term is. */
  predicate Dead(db: Db, x: CartItem) {
    ProductOf(db, x) && !Live(Lookup(db.rows, x.reservationID).value, db.now)
  }

  lemma ReserveDead(db: Db, op: Op, x: CartItem)
    requires Sound(db) && Dead(db, x) && op.Reserve? && (op.id == x.reservationID ==> op.product == x.productID)
    ensures Dead(Step(db, op).0, x)
  {
    if Step(db, op).1.Reply? {
      ReserveAccepts(db, op.id, op.account, op.product, op.quantity, op.expiresAt, op.source);
      ReserveRows(db, op.id, op.account, op.product, op.quantity, op.expiresAt, op.source);
      LookupSweep(db.rows, db.now, op.product, x.reservationID);
    }
  }

  lemma TransitionDead(db: Db, rid: ReservationId, next: Status, x: CartItem)
    requires Sound(db) && Dead(db, x) && next != Active
    ensures Dead(Transition(db, rid, next).0, x)
  {
    TransitionKnown(db, rid, next, x.reservationID);
    if Transition(db, rid, next).1.Reply? {
      TransitionRows(db, rid, next, x.reservationID);
      LookupSweep(db.rows, db.now, "", x.reservationID);
    }
  }

  lemma StepDead(db: Db, op: Op, x: CartItem)
    requires Sound(db) && Dead(db, x) && (op.Reserve? && op.id == x.reservationID ==> op.product == x.productID)
    ensures Dead(Step(db, op).0, x)
  {
    match op
    case Reserve(_, _, _, _, _, _) => ReserveDead(db, op, x);
    case Release(rid) => TransitionDead(db, rid, Released, x);
    case Commit(rid) => TransitionDead(db, rid, Committed, x);
    case Cleanup => LookupSweep(db.rows, db.now, "", x.reservationID);
    case _ =>
  }

  /** A commit of a reservation that exists is never refused; it takes its quantity if it is live, and nothing
      otherwise, and the reservation is over afterwards. */
  lemma CommitMeets(db: Db, x: CartItem, p: string)
    requires Sound(db) && NoOversell(db) && ProductOf(db, x)
    ensures Step(db, Commit(x.reservationID)).1.Reply? && Dead(Step(db, Commit(x.reservationID)).0, x)
    ensures var r := Lookup(db.rows, x.reservationID).value;
      StockOf(db, p) - StockOf(Step(db, Commit(x.reservationID)).0, p) == if p == x.productID && Live(r, db.now) then r.quantity else 0
  {
    KnownAccepted(db, x.reservationID, Committed);
    TransitionForward(db, x.reservationID, Committed, x.reservationID);
    StepProduct(db, Commit(x.reservationID), x);
    CommitConserves(db, x.reservationID, p);
  }

  lemma {:induction false} DeadNotMet(db: Db, log: seq<Entry>, lines: seq<CartItem>, x: CartItem)
    requires Ongoing(db, log, lines, true) && x in lines && Dead(db, x)
    ensures Met(db, log, x.reservationID) == None && Dead(Play(db, log), x)
    decreases |log|
  {
    if log != [] {
      OngoingStep(db, log, lines, true);
      StepDead(db, log[0].op, x);
      DeadNotMet(Step(db, log[0].op).0, log[1..], lines, x);
    }
  }

  /** One own commit and the product of one line. */
  lemma CommitOfLine(db: Db, id: ReservationId, lines: seq<CartItem>, x: CartItem)
    requires Sound(db) && NoOversell(db) && Known(lines, db) && id in ReservationsOf(lines) && x in lines
    ensures StockOf(db, x.productID) - StockOf(Step(db, Commit(id)).0, x.productID)
         == if id == x.reservationID && Live(Lookup(db.rows, id).value, db.now) then Lookup(db.rows, id).value.quantity else 0
    ensures id == x.reservationID ==> Dead(Step(db, Commit(id)).0, x)
  {
    var y :| y in lines && y.reservationID == id;
    CommitMeets(db, y, x.productID);
    if id == x.reservationID {
      assert y == x;
    } else {
      assert y.productID != x.productID;
    }
  }

  /** Of the product of a line exactly the quantity is taken that the first own commit meets on a live
      reservation, once. */
  lemma {:induction false} TakenIsMet(db: Db, log: seq<Entry>, lines: seq<CartItem>, x: CartItem)
    requires Ongoing(db, log, lines, true) && x in lines
    ensures Taken(db, log, x.productID) == Amount(Met(db, log, x.reservationID))
    decreases |log|
  {
    if log != [] {
      OngoingStep(db, log, lines, true);
      TakenIsMet(Step(db, log[0].op).0, log[1..], lines, x);
      if log[0].own {
        CommitOfLine(db, log[0].op.id, lines, x);
        if log[0].op.id == x.reservationID {
          DeadNotMet(Step(db, log[0].op).0, log[1..], lines, x);
        }
      }
    }
  }

  /** Nothing is taken of any other product. */
  lemma {:induction false} TakenElsewhere(db: Db, log: seq<Entry>, lines: seq<CartItem>, p: string)
    requires Ongoing(db, log, lines, true) && forall x | x in lines :: x.productID != p
    ensures Taken(db, log, p) == 0
    decreases |log|
  {
    if log != [] {
      OngoingStep(db, log, lines, true);
      TakenElsewhere(Step(db, log[0].op).0, log[1..], lines, p);
      if log[0].own {
        var y :| y in lines && y.reservationID == log[0].op.id;
        CommitMeets(db, y, p);
      }
    }
  }

  // ------------------------------------------------------------- taking nothing

  /** Once the reservations are over, or their terms are, the own calls take nothing, whatever anybody does and
      however often they are repeated. */
  lemma DeadTakesNothing(db: Db, log: seq<Entry>, lines: seq<CartItem>, p: string)
    requires Ongoing(db, log, lines, true) && forall x | x in lines :: Dead(db, x)
    ensures Taken(db, log, p) == 0
  {
    if x :| x in lines && x.productID == p {
      DeadNotMet(db, log, lines, x);
      TakenIsMet(db, log, lines, x);
    } else {
      TakenElsewhere(db, log, lines, p);
    }
  }

  /** The effects of a failed payment take nothing. */
  lemma {:induction false} ReleasesTakeNothing(db: Db, log: seq<Entry>, lines: seq<CartItem>, p: string)
    requires Ongoing(db, log, lines, false)
    ensures Taken(db, log, p) == 0
    decreases |log|
  {
    if log != [] {
      OngoingStep(db, log, lines, false);
      ReleasesTakeNothing(Step(db, log[0].op).0, log[1..], lines, p);
      if log[0].own { StepConserves(db, log[0].op, p); }
    }
  }

  /** Repeated commits and releases of reservations that are over, by whomever, leave all stock as it is. */
  lemma {:induction false} RepetitionInert(db: Db, log: seq<Entry>, lines: seq<CartItem>, p: string)
    requires Sound(db) && forall x | x in lines :: Dead(db, x)
    requires forall k | 0 <= k < |log| :: log[k].op.Release? || IsEffect(log[k].op, ReservationsOf(lines), true)
    ensures StockOf(Play(db, log), p) == StockOf(db, p)
    decreases |log|
  {
    if log != [] {
      var op, next := log[0].op, Step(db, log[0].op).0;
      StepSound(db, op);
      StepConserves(db, op, p);
      forall x | x in lines ensures Dead(next, x) {
        StepDead(db, op, x);
      }
      if op.Commit? {
        var x :| x in lines && x.reservationID == op.id;
        assert Dead(db, x);
      }
      RepetitionInert(next, log[1..], lines, p);
    }
  }

  // ------------------------------------------------------------ taking the line

  /** An own commit of the reservation arrives. */
  predicate Arrives(log: seq<Entry>, id: ReservationId)
    decreases |log|
  {
    log != [] && (log[0] == Entry(Commit(id), true) || Arrives(log[1..], id))
  }

  /** Nobody else names the reservation. */
  predicate Undisturbed(log: seq<Entry>, id: ReservationId)
    decreases |log|
  {
    log == [] || ((log[0].own || id !in Names(log[0].op)) && Undisturbed(log[1..], id))
  }

  /** The first own commit meets the line's reservation alive and with the line's quantity. */
  ghost predicate Honoured(db: Db, log: seq<Entry>, x: CartItem) {
    Met(db, log, x.reservationID).Some? && Met(db, log, x.reservationID).value.quantity == x.quantity
  }

  /** If nobody else names the line's reservation, every commit that arrives within its term is honoured. */
  lemma {:induction false} QuietHonoured(db: Db, log: seq<Entry>, lines: seq<CartItem>, x: CartItem, account: nat)
    requires Ongoing(db, log, lines, true) && x in lines && Backed(x, db, account) && x.reservedUntil > Play(db, log).now
    requires Undisturbed(log, x.reservationID)
    requires Arrives(log, x.reservationID)
    ensures Honoured(db, log, x)
    decreases |log|
  {
    OngoingPlay(db, log, lines, true);
    if log[0] != Entry(Commit(x.reservationID), true) {
      var next := Step(db, log[0].op).0;
      OngoingStep(db, log, lines, true);
      OngoingPlay(next, log[1..], lines, true);
      QuietStep(db, log[0], next, x, account);
      QuietHonoured(next, log[1..], lines, x, account);
    }
  }

  lemma QuietStep(db: Db, e: Entry, next: Db, x: CartItem, account: nat)
    requires Sound(db) && next == Step(db, e.op).0 && Backed(x, db, account) && x.reservedUntil > next.now
    requires e.own ==> e.op.Commit? && e.op.id != x.reservationID
    requires !e.own ==> x.reservationID !in Names(e.op)
    ensures Backed(x, next, account)
  {
    StepSound(db, e.op);
    StepAges(db, e.op, x.reservationID);
  }

  // ------------------------------------------- requests of the same account

  /** The account removes the line before the payment settles: the commits are accepted, and take nothing. */
  lemma RemovedNotTaken(db: Db, rest: seq<Entry>, lines: seq<CartItem>, x: CartItem)
    requires Ongoing(db, [Entry(Release(x.reservationID), false)] + rest, lines, true) && x in lines
    ensures var log := [Entry(Release(x.reservationID), false)] + rest;
      && Taken(db, log, x.productID) == 0 && !Honoured(db, log, x)
      && Step(Play(db, log), Commit(x.reservationID)).1.Reply?
  {
    var log := [Entry(Release(x.reservationID), false)] + rest;
    KnownAccepted(db, x.reservationID, Released);
    TransitionForward(db, x.reservationID, Released, x.reservationID);
    StepProduct(db, Release(x.reservationID), x);
    OngoingStep(db, log, lines, true);
    assert log[1..] == rest;
    DeadNotMet(Step(db, Release(x.reservationID)).0, rest, lines, x);
    TakenIsMet(db, log, lines, x);
    OngoingPlay(db, log, lines, true);
    CommitMeets(Play(db, log), x, x.productID);
  }

  /** The account changes the line's quantity before: the new quantity is taken, whatever was ordered. */
  lemma ChangedIsTaken(db: Db, account: nat, quantity: int32, expiresAt: int, source: string, rest: seq<Entry>, lines: seq<CartItem>, x: CartItem)
    requires x in lines && expiresAt > db.now
    requires var op := Reserve(x.reservationID, account, x.productID, quantity, expiresAt, source);
      && Step(db, op).1.Reply?
      && Ongoing(db, [Entry(op, false), Entry(Commit(x.reservationID), true)] + rest, lines, true)
    ensures var op := Reserve(x.reservationID, account, x.productID, quantity, expiresAt, source);
      Taken(db, [Entry(op, false), Entry(Commit(x.reservationID), true)] + rest, x.productID) == quantity
  {
    var op := Reserve(x.reservationID, account, x.productID, quantity, expiresAt, source);
    var log := [Entry(op, false), Entry(Commit(x.reservationID), true)] + rest;
    assert log[1..] == [Entry(Commit(x.reservationID), true)] + rest;
    ReserveRows(db, x.reservationID, account, x.productID, quantity, expiresAt, source);
    assert Step(db, op).0.now == db.now;
    TakenIsMet(db, log, lines, x);
  }

  lemma {:induction false} ArrivedIsDead(db: Db, log: seq<Entry>, lines: seq<CartItem>, x: CartItem)
    requires Ongoing(db, log, lines, true) && x in lines && Arrives(log, x.reservationID)
    ensures Dead(Play(db, log), x)
    decreases |log|
  {
    OngoingStep(db, log, lines, true);
    if log[0] == Entry(Commit(x.reservationID), true) {
      CommitMeets(db, x, x.productID);
      DeadNotMet(Step(db, log[0].op).0, log[1..], lines, x);
    } else {
      ArrivedIsDead(Step(db, log[0].op).0, log[1..], lines, x);
    }
  }

  /** The same cart is checked out a second time: once the calls of the first checkout arrived, the second takes
      nothing at all, and its commits are accepted. */
  lemma SecondTakesNothing(db: Db, first: seq<Entry>, second: seq<Entry>, lines: seq<CartItem>, p: string)
    requires Ongoing(db, first, lines, true) && (forall x | x in lines :: Arrives(first, x.reservationID))
    requires Fair(Play(db, first), second) && Stable(second, lines) && Allowed(second, ReservationsOf(lines), true)
    ensures Taken(Play(db, first), second, p) == 0
    ensures forall x | x in lines :: Step(Play(Play(db, first), second), Commit(x.reservationID)).1.Reply?
  {
    OngoingPlay(db, first, lines, true);
    forall x | x in lines ensures Dead(Play(db, first), x) {
      ArrivedIsDead(db, first, lines, x);
    }
    DeadTakesNothing(Play(db, first), second, lines, p);
    OngoingPlay(Play(db, first), second, lines, true);
    forall x | x in lines ensures Step(Play(Play(db, first), second), Commit(x.reservationID)).1.Reply? {
      CommitMeets(Play(Play(db, first), second), x, p);
    }
  }

  lemma {:induction false} ArrivesConcat(a: seq<Entry>, b: seq<Entry>, id: ReservationId)
    ensures Arrives(a + b, id) <==> Arrives(a, id) || Arrives(b, id)
    decreases |a|
  {
    if a == [] {
      assert a + b == b;
    } else {
      assert (a + b)[1..] == a[1..] + b;
      ArrivesConcat(a[1..], b, id);
    }
  }

  // ---------------------------------------------------------------- the calls

  type Faults = nat -> Fault

  function Target(success: bool, id: ReservationId): Op {
    if success then Commit(id) else Release(id)
  }

  ghost predicate Settleable(db: Db, id: ReservationId) {
    NoOversell(db) && Lookup(db.rows, id).Some?
  }

  /** What is over stays over, and what can be settled still can. */
  ghost predicate KeptOn(before: Db, after: Db) {
    && (forall id | Over(before, id) :: Over(after, id))
    && (forall id | Settleable(before, id) :: Settleable(after, id))
  }

  lemma PlayKeepsOn(db: Db, log: seq<Entry>)
    requires Sound(db) && Fair(db, log)
    ensures KeptOn(db, Play(db, log)) && Sound(Play(db, log))
  {
    PlayIsRun(db, log);
    RunSound(db, Ops(log));
    if NoOversell(db) { RunNoOversell(db, Ops(log)); }
    forall id ensures Forward(Lookup(db.rows, id), Lookup(Run(db, Ops(log)).rows, id)) {
      RunForward(db, Ops(log), id);
    }
  }

  lemma KeptOnTwice(before: Db, at: Db, after: Db)
    requires KeptOn(before, at) && KeptOn(at, after)
    ensures KeptOn(before, after)
  {
  }

  /** No own call is on the log. */
  predicate Silent(log: seq<Entry>) {
    forall k | 0 <= k < |log| :: !log[k].own
  }

  /** The call itself, when it arrives. */
  lemma Called(db: Db, id: ReservationId, success: bool, ids: set<ReservationId>, lines: seq<CartItem>)
    requires Sound(db) && id in ids
    ensures var op := Target(success, id);
      var call := [Entry(op, true)];
      && Fair(db, call) && Stable(call, lines) && Allowed(call, ids, success) && Play(db, call) == Step(db, op).0
      && KeptOn(db, Step(db, op).0)
      && (Step(db, op).1.Reply? ==> Over(Step(db, op).0, id))
      && (Settleable(db, id) ==> Step(db, op).1.Reply?)
  {
    var op := Target(success, id);
    var call := [Entry(op, true)];
    assert call[1..] == [];
    assert Play(Step(db, op).0, []) == Step(db, op).0;
    PlayKeepsOn(db, call);
    TransitionForward(db, id, if success then Committed else Released, id);
    if Settleable(db, id) { KnownAccepted(db, id, if success then Committed else Released); }
  }

  /** One call for one reservation, after the others have run. */
  method Attempt(ghost start: Db, ghost done: seq<Entry>, db: Db, id: ReservationId, success: bool, fault: Fault, rivals: Rivals, calls: nat,
                 ghost ids: set<ReservationId>, ghost lines: seq<CartItem>)
    returns (ok: bool, after: Db, ghost log: seq<Entry>)
    requires Reached(start, done, db, ids, lines, success) && id in ids && Permitted(rivals, lines)
    ensures Reached(start, log, after, ids, lines, success) && KeptOn(db, after)
    ensures ok ==> Over(after, id) && fault == NoFault
    ensures Settleable(db, id) ==> (ok <==> fault == NoFault)
    ensures fault == Lost && Silent(done) ==> Silent(log)
    ensures success && fault != Lost ==> Arrives(log, id)
    ensures forall other | Arrives(done, other) :: Arrives(log, other)
  {
    PlayKeepsOn(start, done);
    var met := rivals(calls, db);
    assert Admitted(db, met, lines);
    var at := Play(db, Foreign(met));
    PlayKeepsOn(db, Foreign(met));
    ReachedOn(start, done, db, ids, lines, success, Foreign(met));
    ok, after, log := false, at, done + Foreign(met);
    forall other { ArrivesConcat(done, Foreign(met), other); }
    if fault != Lost {
      var op := Target(success, id);
      Called(at, id, success, ids, lines);
      ReachedOn(start, log, at, ids, lines, success, [Entry(op, true)]);
      var answer := Step(at, op);
      KeptOnTwice(db, at, answer.0);
      forall other { ArrivesConcat(log, [Entry(op, true)], other); }
      ok, after, log := fault == NoFault && answer.1.Reply?, answer.0, log + [Entry(op, true)];
    }
  }
}
