/** The calls of one cart operation to Inventory.  Each method takes the Inventory database as the previous
    call left it, and the number of calls made, and returns both; between two calls the other accounts
    run as `others` says. */
module CartCalls {
  import opened Width
  import opened Ledger
  import opened CartModel
  import opened CartSaga

  /** Inventory as the operation sees it: its database and how many calls were made. */
  datatype Remote = Remote(db: Db, calls: nat)

  method LetOthersRun(remote: Remote, others: Others, ghost mine: iset<ReservationId>, ghost deadline: int)
    returns (at: Remote)
    requires Sound(remote.db) && NoOversell(remote.db) && remote.db.now <= deadline
    requires Polite(others, mine, deadline)
    ensures Interferes(remote.db, at.db, mine, deadline)
    ensures at == Remote(others(remote.calls, remote.db), remote.calls + 1)
  {
    at := Remote(others(remote.calls, remote.db), remote.calls + 1);
  }

  /** One call of Inventory's ReserveStock. */
  method Ask(remote: Remote, id: ReservationId, account: nat, productID: string, quantity: int32, others: Others)
    returns (outcome: Outcome, after: Remote)
    ensures (after.db, outcome) == Request(others(remote.calls, remote.db), id, account, productID, quantity)
    ensures after.calls == remote.calls + 1
  {
    var before := others(remote.calls, remote.db);
    var reply := ReserveStock(before, id, account, productID, quantity, before.now + RESERVATION_TTL, CART);
    outcome, after := reply.1, Remote(reply.0, remote.calls + 1);
  }

  /** Inventory's ReserveStock as the cart calls it, after the other accounts have run up to `at`. */
  method CallReserve(remote: Remote, id: ReservationId, account: nat, productID: string, quantity: int32, others: Others,
                     ghost mine: iset<ReservationId>, ghost deadline: int)
    returns (outcome: Outcome, after: Remote, ghost at: Db)
    requires Sound(remote.db) && NoOversell(remote.db) && remote.db.now <= deadline
    requires Polite(others, mine, deadline)
    ensures at == others(remote.calls, remote.db) && (after.db, outcome) == Request(at, id, account, productID, quantity)
    ensures Interferes(remote.db, at, mine, deadline)
    ensures Sound(after.db) && NoOversell(after.db) && after.db.now == at.now
    ensures outcome.Reply? || (outcome.Refused? && after.db == at)
    ensures outcome.Reply? ==>
      && quantity > 0 && Lookup(after.db.rows, id) == Some(outcome.reservation)
      && outcome.reservation == Reservation(id, account, productID, quantity, Active, CART, at.now + RESERVATION_TTL)
    ensures forall other | other != id :: Aged(Lookup(at.rows, other), Lookup(after.db.rows, other), at.now)
    // A live reservation is always lowered, whatever the others have reserved.
    ensures Lowers(at, id, productID, quantity) ==> outcome.Reply?
  {
    var before := LetOthersRun(remote, others, mine, deadline);
    at := before.db;
    var expiresAt := before.db.now + RESERVATION_TTL;
    if Lowers(before.db, id, productID, quantity) {
      LoweringAccepted(before.db, id, account, productID, quantity, expiresAt, CART);
    }
    ReserveCall(before.db, id, account, productID, quantity, expiresAt, CART);
    var reply := ReserveStock(before.db, id, account, productID, quantity, expiresAt, CART);
    outcome, after := reply.1, Remote(reply.0, before.calls);
  }

  /** Inventory's ReleaseReservation as the cart calls it. */
  method CallRelease(remote: Remote, id: ReservationId, others: Others, ghost mine: iset<ReservationId>, ghost deadline: int)
    returns (outcome: Outcome, after: Remote, ghost at: Db)
    requires Sound(remote.db) && NoOversell(remote.db) && remote.db.now <= deadline
    requires Polite(others, mine, deadline)
    ensures at == others(remote.calls, remote.db) && (after.db, outcome) == Transition(at, id, Released)
    ensures Interferes(remote.db, at, mine, deadline)
    ensures Sound(after.db) && NoOversell(after.db) && after.db.now == at.now
    ensures Lookup(at.rows, id).Some? ==>
      && outcome.Reply? && Lookup(after.db.rows, id).Some? && Lookup(after.db.rows, id).value.status != Active
    ensures forall other | other != id :: Aged(Lookup(at.rows, other), Lookup(after.db.rows, other), at.now)
  {
    var before := LetOthersRun(remote, others, mine, deadline);
    at := before.db;
    ReleaseCall(before.db, id);
    var reply := Transition(before.db, id, Released);
    outcome, after := reply.1, Remote(reply.0, before.calls);
  }

  // ------------------------------------------------------------------ rollback

  /** One compensating call: reserve the previous quantity again, or release a reservation that was new.
      Inventory never refuses it. */
  method Compensate(remote: Remote, changes: seq<Change>, i: nat, account: nat, others: Others,
                    ghost start: Db, ghost lines: seq<CartItem>, ghost mine: iset<ReservationId>, ghost deadline: int)
    returns (outcome: Outcome, after: Remote)
    requires i < |changes| && DistinctIds(changes) && (forall c | c in changes :: c.id in mine)
    requires Underway(start, remote.db, changes, mine, deadline)
    requires Polite(others, mine, deadline)
    requires Raised(start, remote.db, changes[i], account) && FromCart(changes[i], lines)
    ensures outcome.Reply?
    ensures Underway(start, after.db, changes, mine, deadline)
    ensures Undone(start, after.db, changes[i], account)
    ensures forall k | 0 <= k < |changes| && k != i ::
      && (Raised(start, remote.db, changes[k], account) ==> Raised(start, after.db, changes[k], account))
      && (Undone(start, remote.db, changes[k], account) ==> Undone(start, after.db, changes[k], account))
  {
    var change := changes[i];
    assert forall k | 0 <= k < |changes| :: changes[k] in changes;
    ghost var at;
    if change.previousQuantity > 0 {
      outcome, after, at := CallReserve(remote, change.id, account, change.productID, change.previousQuantity, others, mine, deadline);
    } else {
      outcome, after, at := CallRelease(remote, change.id, others, mine, deadline);
    }
    InterferenceKeeps(start, remote.db, at, changes, account, mine, deadline);
    OneUndone(start, at, after.db, changes, i, account, mine, deadline);
  }

  /** Undo the changes in reverse order; Inventory accepts every compensating call. */
  method UndoAll(remote: Remote, changes: seq<Change>, account: nat, others: Others, ghost start: Db, ghost lines: seq<CartItem>,
                 ghost mine: iset<ReservationId>, ghost deadline: int)
    returns (replies: seq<Outcome>, after: Remote)
    requires Underway(start, remote.db, changes, mine, deadline) && DistinctIds(changes) && Polite(others, mine, deadline)
    requires forall c | c in changes :: c.id in mine && Raised(start, remote.db, c, account) && FromCart(c, lines)
    ensures |replies| == |changes| && forall k | 0 <= k < |replies| :: replies[k].Reply?
    ensures Underway(start, after.db, changes, mine, deadline)
    ensures forall c | c in changes :: Undone(start, after.db, c, account)
  {
    replies, after := [], remote;
    var i := |changes|;
    while i > 0
      invariant 0 <= i <= |changes| == |replies| + i
      invariant forall k | 0 <= k < |replies| :: replies[k].Reply?
      invariant Underway(start, after.db, changes, mine, deadline)
      invariant forall k | 0 <= k < i :: Raised(start, after.db, changes[k], account)
      invariant forall k | i <= k < |changes| :: Undone(start, after.db, changes[k], account)
    {
      i := i - 1;
      var reply;
      reply, after := Compensate(after, changes, i, account, others, start, lines, mine, deadline);
      replies := replies + [reply];
    }
  }

  /** A failed confirmation is undone: afterwards the cart agrees with Inventory, every reservation holds what
      it held at the start, and exactly the new products dealt with have used up their ids. */
  method Rollback(remote: Remote, changes: seq<Change>, account: nat, others: Others, ghost start: Db, ghost items: seq<CartItem>,
                  ghost proposal: Proposal, ghost n: nat, ghost deadline: int)
    returns (replies: seq<Outcome>, after: Remote)
    requires Sound(start) && Agree(items, start, account) && Agree(Unexpired(items, start.now), start, account)
    requires WellFormedProposal(proposal.items) && n <= |proposal.items|
    requires InForce(start, remote.db, Unexpired(items, start.now), changes, proposal.items, n, proposal.id, account, deadline)
    requires Recorded(Unexpired(items, start.now), changes, proposal.items, n, proposal.id)
    requires Polite(others, Mine(Unexpired(items, start.now), proposal.id), deadline)
    ensures |replies| == |changes|
    ensures Sound(after.db) && NoOversell(after.db) && Agree(items, after.db, account)
    ensures GivenBack(start, after.db, items, Mine(Unexpired(items, start.now), proposal.id), replies)
    ensures Consumed(start, after.db, Unexpired(items, start.now), proposal, n)
    ensures start.now <= after.db.now <= deadline
  {
    ghost var lines := Unexpired(items, start.now);
    ghost var mine := Mine(lines, proposal.id);
    replies, after := UndoAll(remote, changes, account, others, start, lines, mine, deadline);
    RolledBack(start, after.db, changes, account, items, mine, deadline);
    ConsumedBy(start, after.db, lines, changes, proposal, n, account, deadline);
  }

  // ----------------------------------------------------------------- proposals

  method FindItem(items: seq<CartItem>, productID: string) returns (index: int)
    ensures -1 <= index < |items|
    ensures index >= 0 ==> items[index].productID == productID
    ensures forall k | 0 <= k < (if index < 0 then |items| else index) :: items[k].productID != productID
  {
    for i := 0 to |items|
      invariant forall k | 0 <= k < i :: items[k].productID != productID
    {
      if items[i].productID == productID {
        return i;
      }
    }
    index := -1;
  }

  /** What one item of a proposal asks for: the cart's line for the product, if any, the quantity with the
      line's own, the reservation to use and the quantity to go back to. */
  method PlanItem(proposal: Proposal, i: nat, items: seq<CartItem>, ghost start: Db, ghost lines: seq<CartItem>, ghost account: nat)
    returns (index: int, tooMany: bool, quantity: int32, reservationID: ReservationId, previousQuantity: int32)
    requires WellFormedProposal(proposal.items) && i < |proposal.items| && DistinctProducts(items)
    requires Sound(start) && Agree(lines, start, account) && (forall y | y in lines :: y.reservedUntil > start.now)
    requires Grown(lines, items, proposal.items, i, proposal.id)
    ensures -1 <= index < |items|
    ensures var wanted := proposal.items[i].quantity + LineUnits(items, proposal.items[i].productID);
      && (tooMany <==> wanted > MAX_LINE_QUANTITY)
      && (!tooMany ==> quantity == wanted && reservationID == IdFor(items, proposal, proposal.items[i].productID))
    ensures !tooMany && index >= 0 ==>
      && items[index].productID == proposal.items[i].productID && reservationID == items[index].reservationID
      && previousQuantity == items[index].quantity && quantity == proposal.items[i].quantity + previousQuantity
    ensures !tooMany && index < 0 ==>
      && (forall y | y in items :: y.productID != proposal.items[i].productID)
      && reservationID == ForProposal(proposal.id, proposal.items[i].productID)
      && previousQuantity == 0 && quantity == proposal.items[i].quantity
  {
    var item := proposal.items[i];
    index := FindItem(items, item.productID);
    tooMany, quantity, previousQuantity := false, item.quantity, 0;
    reservationID := ForProposal(proposal.id, item.productID);
    if index >= 0 {
      var previous := items[index];
      LineUnitsOfLine(items, index);
      IdForLine(items, proposal, index);
      if previous.quantity > MAX_LINE_QUANTITY - item.quantity {
        tooMany := true;
        return;
      }
      LineIsHeld(items, index, lines, start, proposal.items, i, proposal.id, account);
      quantity := Wrap32(quantity + previous.quantity);
      reservationID := previous.reservationID;
      if previous.reservationID != Blank {
        previousQuantity := previous.quantity;
      }
    } else {
      LineUnitsAbsent(items, item.productID);
      IdForNew(items, proposal, item.productID);
    }
  }

  /** The request for one item: a refusal is what blocks the confirmation. */
  method AskItem(remote: Remote, proposal: Proposal, i: nat, ghost items: seq<CartItem>, account: nat, reservationID: ReservationId,
                 quantity: int32, others: Others, ghost mine: iset<ReservationId>, ghost deadline: int)
    returns (outcome: Outcome, after: Remote)
    requires i < |proposal.items| && quantity == proposal.items[i].quantity + LineUnits(items, proposal.items[i].productID)
    requires quantity <= MAX_LINE_QUANTITY && reservationID == IdFor(items, proposal, proposal.items[i].productID)
    requires Sound(remote.db) && NoOversell(remote.db) && remote.db.now <= deadline && Polite(others, mine, deadline)
    ensures Answered(others(remote.calls, remote.db), after.db, outcome, reservationID, account, proposal.items[i].productID, quantity)
    ensures outcome.Refused? ==> Blocked(after.db, items, proposal, i, account, FromInventory(outcome.failure))
  {
    var productID := proposal.items[i].productID;
    outcome, after := Ask(remote, reservationID, account, productID, quantity, others);
    RequestAnswered(others(remote.calls, remote.db), after.db, outcome, reservationID, account, productID, quantity);
  }

  /** One item of a proposal: raise the cart's line for the product, or add one. */
  method ReserveItem(remote: Remote, proposal: Proposal, i: nat, items: seq<CartItem>, changes: seq<Change>, account: nat,
                     others: Others, ghost start: Db, ghost lines: seq<CartItem>, ghost deadline: int)
    returns (failure: Option<CartError>, items': seq<CartItem>, changes': seq<Change>, after: Remote)
    requires WellFormedProposal(proposal.items) && i < |proposal.items|
    requires Sound(start) && Agree(lines, start, account) && (forall y | y in lines :: y.reservedUntil > start.now)
    requires Progress(start, remote.db, lines, items, changes, proposal.items, i, proposal.id, account, deadline)
    requires Polite(others, Mine(lines, proposal.id), deadline)
    ensures Progress(start, after.db, lines, items', changes', proposal.items,
                     if failure.None? then i + 1 else i, proposal.id, account, deadline)
    ensures failure.Some? ==> items' == items && Blocked(after.db, items, proposal, i, account, failure.value)
    ensures Spent(start, lines, proposal, i) ==> failure.Some?
  {
    var index, tooMany, quantity, reservationID, previousQuantity := PlanItem(proposal, i, items, start, lines, account);
    if tooMany {
      return Some(InvalidCartQuantity), items, changes, remote;
    }
    var productID := proposal.items[i].productID;
    var outcome;
    outcome, after := AskItem(remote, proposal, i, items, account, reservationID, quantity, others, Mine(lines, proposal.id), deadline);
    SpentBlocks(start, remote.db, others(remote.calls, remote.db), after.db, outcome, lines, items, changes, proposal, i, account, deadline,
                reservationID, quantity);
    ItemAsked(start, remote.db, others(remote.calls, remote.db), after.db, outcome, lines, items, changes, proposal, i, account, deadline,
              index, reservationID, quantity, previousQuantity);
    if outcome.Refused? {
      return Some(FromInventory(outcome.failure)), items, changes, after;
    }
    var updated := CartItem(productID, quantity, reservationID, Truncate(outcome.reservation.expiresAt));
    failure, changes' := None, changes + [Change(reservationID, productID, previousQuantity)];
    items' := PutLine(items, index, updated);
  }

  /** The loop over the proposal's items: stops at the first failure, `done` items on. */
  method ReserveItems(remote: Remote, proposal: Proposal, lines: seq<CartItem>, account: nat, others: Others, ghost deadline: int)
    returns (items: seq<CartItem>, changes: seq<Change>, done: nat, failure: Option<CartError>, after: Remote)
    requires deadline == remote.db.now + CART_LOCK_TTL
    requires Sound(remote.db) && NoOversell(remote.db) && WellFormedProposal(proposal.items)
    requires Agree(lines, remote.db, account) && (forall y | y in lines :: y.reservedUntil > remote.db.now)
    requires Polite(others, Mine(lines, proposal.id), deadline)
    ensures Progress(remote.db, after.db, lines, items, changes, proposal.items, done, proposal.id, account, deadline)
    ensures failure.None? ==> done == |proposal.items|
    ensures failure.Some? ==> done < |proposal.items| && Blocked(after.db, items, proposal, done, account, failure.value)
    ensures Passed(remote.db, lines, proposal, done)
  {
    ProgressStarts(remote.db, lines, proposal.items, proposal.id, account);
    items, changes, done, failure, after := lines, [], 0, None, remote;
    while done < |proposal.items| && failure.None?
      invariant Progress(remote.db, after.db, lines, items, changes, proposal.items, done, proposal.id, account, deadline)
      invariant failure.Some? ==> done < |proposal.items| && Blocked(after.db, items, proposal, done, account, failure.value)
      invariant Passed(remote.db, lines, proposal, done)
      decreases |proposal.items| - done, failure.None?
    {
      failure, items, changes, after := ReserveItem(after, proposal, done, items, changes, account, others, remote.db, lines, deadline);
      if failure.None? {
        PassedOne(remote.db, lines, proposal, done);
        done := done + 1;
      }
    }
  }

  /** ConfirmCartProposal between reading the cart and saving the result: either all items are reserved
      and the new lines agree with Inventory, or everything is undone. */
  method ApplyProposal(remote: Remote, proposal: Proposal, items: seq<CartItem>, lines: seq<CartItem>, account: nat,
                       others: Others, saveFails: bool)
    returns (r: Result<seq<CartItem>>, compensations: seq<Outcome>, after: Remote, ghost halt: Halt)
    requires Sound(remote.db) && NoOversell(remote.db) && WellFormedProposal(proposal.items)
    requires Agree(items, remote.db, account) && lines == Unexpired(items, remote.db.now) && Agree(lines, remote.db, account)
    requires Polite(others, Mine(lines, proposal.id), remote.db.now + CART_LOCK_TTL)
    ensures Sound(after.db) && NoOversell(after.db)
    ensures remote.db.now <= after.db.now <= remote.db.now + CART_LOCK_TTL
    ensures r.Ok? ==> !saveFails && Agree(r.value, after.db, account)
    ensures r.Ok? ==> Gained(lines, r.value, proposal.items) && Renewed(lines, r.value, remote.db.now)
    ensures r.Err? ==>
      (r.error == SaveFailed && saveFails) || Obstacle(halt, remote.db, lines, proposal, account, remote.db.now + CART_LOCK_TTL, r.error)
    ensures r.Err? ==>
      Agree(items, after.db, account) && GivenBack(remote.db, after.db, items, Mine(lines, proposal.id), compensations)
    // A used-up id stops the confirmation, and a failed one uses up the ids of the new products it dealt with.
    ensures SpentStops(remote.db, lines, proposal, r.Err?, halt.done)
    ensures r.Err? ==> Consumed(remote.db, after.db, lines, proposal, halt.done)
  {
    ghost var deadline := remote.db.now + CART_LOCK_TTL;
    var result, changes, done, failure, reached := ReserveItems(remote, proposal, lines, account, others, deadline);
    halt := Halt(reached.db, result, changes, done);
    PassedStops(remote.db, lines, proposal, failure.Some? || saveFails, done);
    if failure == None && saveFails {
      failure := Some(SaveFailed);
    }
    if failure.Some? {
      compensations, after := Rollback(reached, changes, account, others, remote.db, items, proposal, done, deadline);
      return Err(failure.value), compensations, after, halt;
    }
    ProgressEnds(remote.db, reached.db, lines, result, changes, proposal.items, proposal.id, account, deadline);
    r, compensations, after := Ok(result), [], reached;
  }

  // -------------------------------------------------------------- single lines

  method PlanLine(db: Db, lines: seq<CartItem>, account: nat, productID: string, requested: int32, increment: bool, uuid: ReservationId)
    returns (index: int, plan: Plan)
    requires Sound(db) && Agree(lines, db, account) && requested > 0 && uuid.Uuid?
    requires forall x | x in lines :: x.reservedUntil > db.now && x.reservationID != uuid
    ensures PlanFor(plan, lines, index, productID, requested, increment, uuid)
    ensures index < 0 ==> forall x | x in lines :: x.productID != productID
  {
    index := FindItem(lines, productID);
    if index >= 0 {
      var previousItem := lines[index];
      assert previousItem in lines;
      LineHeld(db, previousItem, account);
      LineUnitsOfLine(lines, index);
      SameLine(lines, previousItem);
      var quantity := if increment then Wrap32(requested + previousItem.quantity) else requested;
      plan := Plan(quantity, Change(previousItem.reservationID, productID, previousItem.quantity));
    } else {
      LineUnitsAbsent(lines, productID);
      plan := Plan(requested, Change(uuid, productID, 0));
    }
  }

  /** Put the reservation of one line back after the save failed: it holds `held` units now and held the
      change's previous quantity before.  Inventory can refuse only if the failed request had lowered the
      quantity; otherwise cart and reservations are as before. */
  method CompensateLine(remote: Remote, c: Change, held: int32, account: nat, others: Others,
                        ghost start: Db, ghost items: seq<CartItem>, ghost mine: iset<ReservationId>, ghost deadline: int)
    returns (outcome: Outcome, after: Remote)
    requires Sound(start) && Agree(items, start, account)
    requires Underway(start, remote.db, [c], mine, deadline) && c.id in mine
    requires forall x | x in Unexpired(items, start.now) :: x.reservationID in mine
    requires HeldAs(start, remote.db, c, account, held, held) && FromCart(c, Unexpired(items, start.now))
    requires Polite(others, mine, deadline)
    ensures Sound(after.db) && NoOversell(after.db)
    ensures outcome.Reply? ==> Agree(items, after.db, account) && GivenBack(start, after.db, items, mine, [outcome])
    ensures outcome.Reply? || (outcome.Refused? && held < c.previousQuantity)
    ensures outcome.Refused? ==> HeldAs(start, after.db, c, account, held, held) && after.db.now < start.now + RESERVATION_TTL
  {
    ghost var at;
    if c.previousQuantity > 0 {
      outcome, after, at := CallReserve(remote, c.id, account, c.productID, c.previousQuantity, others, mine, deadline);
    } else {
      outcome, after, at := CallRelease(remote, c.id, others, mine, deadline);
    }
    InterferenceKeeps(start, remote.db, at, [c], account, mine, deadline);
    if outcome.Reply? {
      OneUndone(start, at, after.db, [c], 0, account, mine, deadline);
      RolledBack(start, after.db, [c], account, items, mine, deadline);
    }
  }

  /** Compensate a granted request whose save failed. */
  method AbandonLine(remote: Remote, plan: Plan, account: nat, others: Others, ghost start: Db, ghost at: Db,
                     ghost items: seq<CartItem>, ghost index: int, ghost requested: int32, ghost increment: bool, ghost uuid: ReservationId)
    returns (reply: Outcome, after: Remote)
    requires Sound(start) && NoOversell(start) && Agree(items, start, account) && requested > 0 && plan.quantity > 0
    requires PlanFor(plan, Unexpired(items, start.now), index, plan.change.productID, requested, increment, uuid)
    requires Interferes(start, at, LineIds(Unexpired(items, start.now), uuid), start.now + CART_LOCK_TTL)
    requires JustReserved(at, remote.db, account, CartItem(plan.change.productID, plan.quantity, plan.change.id, Truncate(at.now + RESERVATION_TTL)))
    requires Polite(others, LineIds(Unexpired(items, start.now), uuid), start.now + CART_LOCK_TTL)
    ensures LineFailure(start, after.db, items, account, uuid, plan.change.productID, requested, increment, Some(reply))
  {
    ghost var lines, deadline := Unexpired(items, start.now), start.now + CART_LOCK_TTL;
    ghost var mine := LineIds(lines, uuid);
    FirstChange(start, at, remote.db, plan.change, mine, deadline);
    assert plan.change.id in mine by {
      if index >= 0 { assert lines[index] in lines; }
    }
    reply, after := CompensateLine(remote, plan.change, plan.quantity, account, others, start, items, mine, deadline);
    LineFailed(start, after.db, items, account, uuid, plan, index, requested, increment, reply);
  }

  /** The request for one line, and what its answer means. */
  method AskLine(remote: Remote, ghost items: seq<CartItem>, lines: seq<CartItem>, account: nat, productID: string, requested: int32,
                 increment: bool, uuid: ReservationId, others: Others)
    returns (index: int, plan: Plan, outcome: Outcome, after: Remote)
    requires Sound(remote.db) && NoOversell(remote.db) && requested > 0
    requires Agree(items, remote.db, account) && lines == Unexpired(items, remote.db.now) && Agree(lines, remote.db, account)
    requires uuid.Uuid? && forall x | x in items :: x.reservationID != uuid
    requires Polite(others, LineIds(lines, uuid), remote.db.now + CART_LOCK_TTL)
    ensures PlanFor(plan, lines, index, productID, requested, increment, uuid)
    ensures Answered(others(remote.calls, remote.db), after.db, outcome, plan.change.id, account, productID, plan.quantity)
    ensures outcome.Refused? ==>
      && LineBlocked(others(remote.calls, remote.db), lines, account, uuid, productID, requested, increment, outcome.failure)
      && LineFailure(remote.db, after.db, items, account, uuid, productID, requested, increment, None)
    ensures outcome.Reply? ==>
      var item := CartItem(productID, plan.quantity, plan.change.id, Truncate(outcome.reservation.expiresAt));
      && JustReserved(others(remote.calls, remote.db), after.db, account, item)
      && LineSuccess(after.db, lines, PutLine(lines, index, item), account, productID, requested, increment)
  {
    index, plan := PlanLine(remote.db, lines, account, productID, requested, increment, uuid);
    outcome, after := Ask(remote, plan.change.id, account, productID, plan.quantity, others);
    RequestAnswered(others(remote.calls, remote.db), after.db, outcome, plan.change.id, account, productID, plan.quantity);
    ghost var at, deadline := others(remote.calls, remote.db), remote.db.now + CART_LOCK_TTL;
    if outcome.Refused? {
      LineRefused(items, remote.db, at, account, uuid, productID, requested, increment, deadline);
    } else {
      ghost var item := CartItem(productID, plan.quantity, plan.change.id, Truncate(outcome.reservation.expiresAt));
      RequestGranted(at, after.db, outcome, account, item);
      LineGranted(items, remote.db, at, after.db, account, plan, index, item, requested, increment, uuid, deadline);
    }
  }

  /** Everything UpsertCartItem does after reading the cart, up to the write of the cart key: the lines
      to save and their expiry, or the failure and how it was compensated. */
  method ReserveLine(remote: Remote, items: seq<CartItem>, lines: seq<CartItem>, account: nat, productID: string, requested: int32,
                     increment: bool, uuid: ReservationId, others: Others, saveFails: bool)
    returns (failure: Option<CartError>, saved: seq<CartItem>, expiresAt: int, compensation: Option<Outcome>, after: Remote)
    requires Sound(remote.db) && NoOversell(remote.db) && requested > 0
    requires Agree(items, remote.db, account) && lines == Unexpired(items, remote.db.now) && Agree(lines, remote.db, account)
    requires uuid.Uuid? && forall x | x in items :: x.reservationID != uuid
    requires Polite(others, LineIds(lines, uuid), remote.db.now + CART_LOCK_TTL)
    ensures failure.None? ==>
      && !saveFails && LineSuccess(after.db, lines, saved, account, productID, requested, increment)
      && expiresAt == after.db.now + RESERVATION_TTL
    ensures failure.Some? ==>
      || (failure.value == SaveFailed && saveFails)
      || (&& failure.value.FromInventory?
          && LineBlocked(others(remote.calls, remote.db), lines, account, uuid, productID, requested, increment, failure.value.failure))
    ensures failure.Some? ==>
      LineFailure(remote.db, after.db, items, account, uuid, productID, requested, increment, compensation)
  {
    ghost var start := remote.db;
    failure, saved, expiresAt, compensation := None, [], 0, None;
    var index, plan, outcome;
    index, plan, outcome, after := AskLine(remote, items, lines, account, productID, requested, increment, uuid, others);
    ghost var at := others(remote.calls, remote.db);
    if outcome.Refused? {
      failure := Some(FromInventory(outcome.failure));
    } else if saveFails {
      var reply;
      reply, after := AbandonLine(after, plan, account, others, start, at, items, index, requested, increment, uuid);
      failure, compensation := Some(SaveFailed), Some(reply);
    } else {
      expiresAt := outcome.reservation.expiresAt;
      saved := PutLine(lines, index, CartItem(productID, plan.quantity, plan.change.id, Truncate(expiresAt)));
    }
  }

  /** A release whose failure is only logged: it may never arrive. */
  method TryRelease(remote: Remote, id: ReservationId, fault: Fault, others: Others, ghost mine: iset<ReservationId>, ghost deadline: int)
    returns (after: Remote, ghost at: Db)
    requires Sound(remote.db) && NoOversell(remote.db) && remote.db.now <= deadline
    requires Polite(others, mine, deadline)
    ensures Interferes(remote.db, at, mine, deadline)
    ensures Sound(after.db) && NoOversell(after.db) && after.db.now == at.now
    ensures fault == Lost ==> after.db == at
    ensures fault != Lost && Lookup(at.rows, id).Some? ==> Over(after.db, id)
    ensures forall other | other != id :: Aged(Lookup(at.rows, other), Lookup(after.db.rows, other), at.now)
  {
    if fault == Lost {
      after := LetOthersRun(remote, others, mine, deadline);
      at := after.db;
    } else {
      var outcome;
      outcome, after, at := CallRelease(remote, id, others, mine, deadline);
    }
  }

  /** Take one line out of the cart and release its reservation. */
  method DropLine(remote: Remote, lines: seq<CartItem>, index: nat, fault: Fault, account: nat, others: Others)
    returns (rest: seq<CartItem>, after: Remote)
    requires Sound(remote.db) && NoOversell(remote.db) && index < |lines|
    requires Agree(lines, remote.db, account) && (forall x | x in lines :: x.reservedUntil > remote.db.now)
    requires Polite(others, Mine(lines, ""), remote.db.now + CART_LOCK_TTL)
    ensures Sound(after.db) && NoOversell(after.db) && Agree(rest, after.db, account)
    ensures rest == lines[..index] + lines[index + 1..]
    ensures SetTo(lines, rest, lines[index].productID, 0, false)
    ensures Dropped(lines[index], remote.db, after.db, fault)
  {
    ghost var mine, deadline := Mine(lines, ""), remote.db.now + CART_LOCK_TTL;
    ghost var at;
    assert lines[index] in lines && Backed(lines[index], remote.db, account);
    rest := lines[..index] + lines[index + 1..];
    after, at := TryRelease(remote, lines[index].reservationID, fault, others, mine, deadline);
    LineGone(lines, index, remote.db, at, after.db, account, mine, deadline);
    LineRemoved(lines, index);
  }

  /** One more release: the reservations stay known, and what was over stays over. */
  lemma ReleasedOne(lines: seq<CartItem>, i: nat, faults: nat -> Fault, before: Db, at: Db, after: Db, mine: iset<ReservationId>, deadline: int)
    requires i < |lines| && Interferes(before, at, mine, deadline) && after.now == at.now
    requires forall k | 0 <= k < |lines| :: lines[k].reservationID in mine && Lookup(before.rows, lines[k].reservationID).Some?
    requires AllOver(before, lines, i, faults)
    requires if faults(i) == Lost then after == at else Lookup(at.rows, lines[i].reservationID).Some? ==> Over(after, lines[i].reservationID)
    requires forall other | other != lines[i].reservationID :: Aged(Lookup(at.rows, other), Lookup(after.rows, other), at.now)
    ensures AllOver(after, lines, i + 1, faults)
    ensures forall k | 0 <= k < |lines| :: Lookup(after.rows, lines[k].reservationID).Some?
  {
    forall k | 0 <= k < |lines|
      ensures Lookup(after.rows, lines[k].reservationID).Some?
      ensures k <= i && faults(k) != Lost ==> Over(after, lines[k].reservationID)
    {
      assert Aged(Lookup(before.rows, lines[k].reservationID), Lookup(at.rows, lines[k].reservationID), at.now);
    }
  }

  /** Release every reservation of the lines of a cart that was emptied; a line without a reservation would be
      skipped, but none is. */
  method ReleaseLines(remote: Remote, lines: seq<CartItem>, faults: nat -> Fault, account: nat, others: Others) returns (after: Remote)
    requires Sound(remote.db) && NoOversell(remote.db)
    requires Agree(lines, remote.db, account) && (forall x | x in lines :: x.reservedUntil > remote.db.now)
    requires Polite(others, Mine(lines, ""), remote.db.now + CART_LOCK_TTL)
    ensures Sound(after.db) && NoOversell(after.db) && AllOver(after.db, lines, |lines|, faults)
  {
    ghost var mine, deadline := Mine(lines, ""), remote.db.now + CART_LOCK_TTL;
    LinesFound(lines, remote.db, account);
    after := remote;
    for i := 0 to |lines|
      invariant Sound(after.db) && NoOversell(after.db) && after.db.now <= deadline
      invariant forall k | 0 <= k < |lines| :: Lookup(after.db.rows, lines[k].reservationID).Some?
      invariant AllOver(after.db, lines, i, faults)
    {
      ghost var before := after.db;
      ghost var at;
      after, at := TryRelease(after, lines[i].reservationID, faults(i), others, mine, deadline);
      ReleasedOne(lines, i, faults, before, at, after.db, mine, deadline);
    }
  }
}
