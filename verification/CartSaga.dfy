/** The bookkeeping of a proposal confirmation: which reservations it has raised and what undoing means. */
module CartSaga {
  import opened Width
  import opened Ledger
  import opened CartModel

  /** One accepted reservation of the confirmation, with the quantity to go back to. */
  datatype Change = Change(id: ReservationId, productID: string, previousQuantity: int32)

  /** The ids a confirmation may name. */
  ghost function Mine(lines: seq<CartItem>, proposalID: string): iset<ReservationId> {
    iset id: ReservationId | (exists x :: x in lines && x.reservationID == id) || (id.ForProposal? && id.proposalId == proposalID)
  }

  ghost predicate Changed(changes: seq<Change>, id: ReservationId) {
    exists c :: c in changes && c.id == id
  }

  /** The database during the operation: sound, not past the lease, and every id of the operation that
      it has not changed has only aged since the start. */
  ghost predicate Underway(start: Db, db: Db, changes: seq<Change>, mine: iset<ReservationId>, deadline: int) {
    && Sound(db) && NoOversell(db)
    && start.now <= db.now <= deadline && deadline < start.now + RESERVATION_TTL
    && (forall id | id in mine && !Changed(changes, id) :: Aged(Lookup(start.rows, id), Lookup(db.rows, id), db.now))
  }

  ghost predicate HeldAs(start: Db, db: Db, c: Change, account: nat, low: int, high: int) {
    match Lookup(db.rows, c.id)
    case None => false
    case Some(r) =>
      && r.status == Active && r.account == account && r.product == c.productID
      && low <= r.quantity <= high && r.expiresAt >= start.now + RESERVATION_TTL
  }

  ghost predicate Raised(start: Db, db: Db, c: Change, account: nat) {
    HeldAs(start, db, c, account, c.previousQuantity, MAX_INT32)
  }

  ghost predicate Undone(start: Db, db: Db, c: Change, account: nat) {
    if c.previousQuantity > 0 then HeldAs(start, db, c, account, c.previousQuantity, c.previousQuantity)
    else Over(db, c.id)
  }

  ghost predicate NoLine(lines: seq<CartItem>, product: string) {
    forall x | x in lines :: x.productID != product
  }

  /** The previous quantity of a change is that of the cart line it comes from, or 0 without a line. */
  ghost predicate FromCart(c: Change, lines: seq<CartItem>) {
    && c.id != Blank && c.previousQuantity >= 0
    && (if c.previousQuantity > 0 then exists x :: x in lines && x.reservationID == c.id else NoLine(lines, c.productID))
    && (forall x | x in lines && x.reservationID == c.id :: x.productID == c.productID && x.quantity == c.previousQuantity)
  }

  ghost predicate DistinctIds(changes: seq<Change>) {
    forall i, j | 0 <= i < j < |changes| :: changes[i].id != changes[j].id
  }

  /** Interference leaves every reservation of the operation as it was: none can expire before the lease. */
  lemma InterferenceKeeps(start: Db, before: Db, after: Db, changes: seq<Change>, account: nat, mine: iset<ReservationId>, deadline: int)
    requires Underway(start, before, changes, mine, deadline)
    requires Interferes(before, after, mine, deadline)
    ensures Underway(start, after, changes, mine, deadline)
    ensures forall c | c in changes && c.id in mine && Raised(start, before, c, account) :: Raised(start, after, c, account)
    ensures forall c | c in changes && c.id in mine && Undone(start, before, c, account) :: Undone(start, after, c, account)
  {
  }

  /** The first reservation of an operation, made on the database the others left. */
  lemma FirstChange(start: Db, at: Db, after: Db, c: Change, mine: iset<ReservationId>, deadline: int)
    requires Sound(start) && NoOversell(start) && Interferes(start, at, mine, deadline)
    requires deadline < start.now + RESERVATION_TTL
    requires Sound(after) && NoOversell(after) && after.now == at.now
    requires forall other | other != c.id :: Aged(Lookup(at.rows, other), Lookup(after.rows, other), at.now)
    ensures Underway(start, after, [c], mine, deadline)
  {
    assert Changed([c], c.id) by { assert c in [c]; }
  }

  /** A cart's agreement survives if only the clock touched its unexpired lines. */
  lemma CartSurvives(items: seq<CartItem>, before: Db, after: Db, account: nat, mine: iset<ReservationId>, deadline: int)
    requires Agree(items, before, account) && Interferes(before, after, mine, deadline)
    requires forall x | x in Unexpired(items, before.now) :: x.reservationID in mine
    ensures Agree(items, after, account)
  {
    AgreeSurvives(items, before, after, account);
  }

  lemma LinesSurvive(items: seq<CartItem>, before: Db, after: Db, account: nat, mine: iset<ReservationId>, deadline: int)
    requires Agree(items, before, account) && Interferes(before, after, mine, deadline)
    requires forall x | x in Unexpired(items, before.now) :: x.reservationID in mine
    ensures Agree(Unexpired(items, before.now), after, account)
  {
    UnexpiredDistinct(items, before.now);
    AgreeSubset(items, Unexpired(items, before.now), before, account);
    AgreeSurvives(Unexpired(items, before.now), before, after, account);
  }

  lemma LineHeld(db: Db, x: CartItem, account: nat)
    requires Sound(db) && Backed(x, db, account) && x.reservedUntil > db.now
    ensures Held(db, x.reservationID) == x.quantity > 0
  {
    assert Lookup(db.rows, x.reservationID).value == db.rows[Find(db.rows, x.reservationID)];
  }

  /** After a complete rollback the cart still agrees with Inventory and every id of the operation
      holds the quantity it held at the start, unless it was never changed and ran out by itself. */
  lemma RolledBack(start: Db, db: Db, changes: seq<Change>, account: nat, items: seq<CartItem>,
                   mine: iset<ReservationId>, deadline: int)
    requires Sound(start) && Agree(items, start, account)
    requires Underway(start, db, changes, mine, deadline)
    requires var lines := Unexpired(items, start.now);
      && (forall x | x in lines :: x.reservationID in mine)
      && (forall c | c in changes :: Undone(start, db, c, account) && FromCart(c, lines))
    ensures Agree(items, db, account)
    ensures forall id | RestoredId(start, db, items, mine, id) :: Held(db, id) == Held(start, id)
  {
    var lines := Unexpired(items, start.now);
    forall x | x in lines ensures Held(start, x.reservationID) == x.quantity > 0 {
      LineHeld(start, x, account);
    }
    forall x | x in items && x.reservedUntil > db.now ensures Backed(x, db, account) {
      assert x in lines && Backed(x, start, account);
    }
    forall id | RestoredId(start, db, items, mine, id) ensures Held(db, id) == Held(start, id) {
      if Changed(changes, id) {
        var c :| c in changes && c.id == id;
        if c.previousQuantity > 0 {
          var x :| x in lines && x.reservationID == c.id;
          assert Held(start, id) == x.quantity == c.previousQuantity;
        }
      }
    }
  }

  /** The reservation ran out by itself: nobody touched its row before its term ended. */
  predicate RanOut(start: Db, db: Db, id: ReservationId) {
    && Lookup(start.rows, id).Some? && Lookup(start.rows, id).value.expiresAt <= db.now
    && Aged(Lookup(start.rows, id), Lookup(db.rows, id), db.now)
  }

  /** The ids whose live quantity a failed operation must give back: those of the cart's unexpired
      lines and its own that held nothing, unless the reservation ran out by itself. */
  ghost predicate RestoredId(start: Db, db: Db, items: seq<CartItem>, mine: iset<ReservationId>, id: ReservationId) {
    var lines := Unexpired(items, start.now);
    && id in mine
    && ((exists x :: x in lines && x.reservationID == id) || Held(start, id) == 0)
    && (Held(start, id) > 0 ==> !RanOut(start, db, id))
  }

  /** A failed operation was undone: Inventory accepted every compensating call and each id to be
      restored holds what it held at the start. */
  ghost predicate GivenBack(start: Db, db: Db, items: seq<CartItem>, mine: iset<ReservationId>, replies: seq<Outcome>) {
    && (forall k | 0 <= k < |replies| :: replies[k].Reply?)
    && (forall id | RestoredId(start, db, items, mine, id) :: Held(db, id) == Held(start, id))
  }

  // --------------------------------------------------------- the forward loop

  /** A product the first `n` items of the proposal have dealt with. */
  ghost predicate Dealt(proposed: seq<ProposalItem>, n: nat, p: string)
    requires n <= |proposed|
  {
    exists k :: 0 <= k < n && proposed[k].productID == p
  }

  /** The changes made so far are all in force, and come from the cart or from the proposal's own ids. */
  ghost predicate InForce(start: Db, db: Db, lines: seq<CartItem>, changes: seq<Change>,
                          proposed: seq<ProposalItem>, n: nat, proposalID: string, account: nat, deadline: int)
    requires n <= |proposed|
  {
    && Underway(start, db, changes, Mine(lines, proposalID), deadline)
    && DistinctIds(changes)
    && (forall c | c in changes ::
          && c.id in Mine(lines, proposalID) && Raised(start, db, c, account) && FromCart(c, lines)
          && (c.id.ForProposal? ==> c.id.productId == c.productID)
          && Dealt(proposed, n, c.productID))
  }

  /** The result differs from the cart it started from only in the products dealt with. */
  ghost predicate Grown(lines: seq<CartItem>, items: seq<CartItem>, proposed: seq<ProposalItem>, n: nat, proposalID: string)
    requires n <= |proposed|
  {
    && (forall x | x in items :: x.reservationID in Mine(lines, proposalID) && (x in lines || Dealt(proposed, n, x.productID)))
    && (forall x | x in lines :: x in items || Dealt(proposed, n, x.productID))
    && (forall p :: LineUnits(items, p) == LineUnits(lines, p) + ProposedUnits(proposed[..n], p))
  }

  /** How far the confirmation has got: `items` is the result so far, `lines` the cart it started from. */
  ghost predicate Progress(start: Db, db: Db, lines: seq<CartItem>, items: seq<CartItem>, changes: seq<Change>,
                           proposed: seq<ProposalItem>, n: nat, proposalID: string, account: nat, deadline: int)
  {
    && n <= |proposed|
    && InForce(start, db, lines, changes, proposed, n, proposalID, account, deadline)
    && Agree(items, db, account)
    && Grown(lines, items, proposed, n, proposalID)
    && Renewed(lines, items, start.now)
    && Recorded(lines, changes, proposed, n, proposalID)
  }

  /** Every product that the cart did not have is recorded as newly reserved under the proposal's own id. */
  ghost predicate Recorded(lines: seq<CartItem>, changes: seq<Change>, proposed: seq<ProposalItem>, n: nat, proposalID: string)
    requires n <= |proposed|
  {
    forall k | 0 <= k < n && NoLine(lines, proposed[k].productID) ::
      Change(ForProposal(proposalID, proposed[k].productID), proposed[k].productID, 0) in changes
  }

  lemma RecordedGrows(lines: seq<CartItem>, changes: seq<Change>, proposed: seq<ProposalItem>, n: nat, proposalID: string, c: Change)
    requires n < |proposed| && Recorded(lines, changes, proposed, n, proposalID)
    requires NoLine(lines, proposed[n].productID) ==> c == Change(ForProposal(proposalID, proposed[n].productID), proposed[n].productID, 0)
    ensures Recorded(lines, changes + [c], proposed, n + 1, proposalID)
  {
  }

  lemma ProgressStarts(db: Db, lines: seq<CartItem>, proposed: seq<ProposalItem>, proposalID: string, account: nat)
    requires Sound(db) && NoOversell(db) && Agree(lines, db, account)
    ensures Progress(db, db, lines, lines, [], proposed, 0, proposalID, account, db.now + CART_LOCK_TTL)
  {
  }

  /** Every product of the cart has gained exactly the proposed units, and nothing else moved. */
  ghost predicate Gained(before: seq<CartItem>, after: seq<CartItem>, proposed: seq<ProposalItem>) {
    forall p :: LineUnits(after, p) == LineUnits(before, p) + ProposedUnits(proposed, p)
  }

  lemma ProgressEnds(start: Db, db: Db, lines: seq<CartItem>, items: seq<CartItem>, changes: seq<Change>,
                     proposed: seq<ProposalItem>, proposalID: string, account: nat, deadline: int)
    requires Progress(start, db, lines, items, changes, proposed, |proposed|, proposalID, account, deadline)
    ensures Sound(db) && NoOversell(db) && Agree(items, db, account)
    ensures Gained(lines, items, proposed) && Renewed(lines, items, start.now) && start.now <= db.now <= deadline
  {
    assert proposed[..|proposed|] == proposed;
  }

  lemma ProgressSurvives(start: Db, before: Db, after: Db, lines: seq<CartItem>, items: seq<CartItem>, changes: seq<Change>,
                         proposed: seq<ProposalItem>, n: nat, proposalID: string, account: nat, deadline: int)
    requires Progress(start, before, lines, items, changes, proposed, n, proposalID, account, deadline)
    requires Interferes(before, after, Mine(lines, proposalID), deadline)
    ensures Progress(start, after, lines, items, changes, proposed, n, proposalID, account, deadline)
  {
    InterferenceKeeps(start, before, after, changes, account, Mine(lines, proposalID), deadline);
    AgreeSurvives(items, before, after, account);
  }

  /** What an accepted reservation call of the loop leaves behind. */
  ghost predicate JustReserved(before: Db, after: Db, account: nat, x: CartItem) {
    && Sound(after) && NoOversell(after) && after.now == before.now
    && (forall other | other != x.reservationID :: Aged(Lookup(before.rows, other), Lookup(after.rows, other), after.now))
    && Lookup(after.rows, x.reservationID)
       == Some(Reservation(x.reservationID, account, x.productID, x.quantity, Active, CART, before.now + RESERVATION_TTL))
    && before.now + RESERVATION_TTL - SECOND < x.reservedUntil <= before.now + RESERVATION_TTL
  }

  /** The changes stay in force when one more reservation, not yet changed, is raised. */
  lemma ChangeAdded(start: Db, before: Db, after: Db, lines: seq<CartItem>, changes: seq<Change>,
                    proposed: seq<ProposalItem>, n: nat, proposalID: string, account: nat, deadline: int,
                    x: CartItem, previous: int32)
    requires n < |proposed| && x.productID == proposed[n].productID
    requires InForce(start, before, lines, changes, proposed, n, proposalID, account, deadline)
    requires !Changed(changes, x.reservationID) && x.quantity >= previous
    requires FromCart(Change(x.reservationID, x.productID, previous), lines)
    requires x.reservationID in Mine(lines, proposalID)
    requires x.reservationID.ForProposal? ==> x.reservationID.productId == x.productID
    requires JustReserved(before, after, account, x)
    ensures InForce(start, after, lines, changes + [Change(x.reservationID, x.productID, previous)],
                    proposed, n + 1, proposalID, account, deadline)
  {
    var c0 := Change(x.reservationID, x.productID, previous);
    var changes' := changes + [c0];
    DealtGrows(proposed, n);
    forall c | c in changes' ensures Raised(start, after, c, account) {
      if c in changes { assert Changed(changes, c.id); }
    }
    forall id | id in Mine(lines, proposalID) && !Changed(changes', id)
      ensures Aged(Lookup(start.rows, id), Lookup(after.rows, id), after.now)
    {
      assert c0 in changes' && forall c | c in changes :: c in changes';
    }
    forall i | 0 <= i < |changes| ensures changes[i].id != x.reservationID {
      assert changes[i] in changes;
    }
  }

  lemma DealtGrows(proposed: seq<ProposalItem>, n: nat)
    requires n < |proposed|
    ensures forall p | Dealt(proposed, n, p) :: Dealt(proposed, n + 1, p)
    ensures Dealt(proposed, n + 1, proposed[n].productID)
  {
  }

  /** Lines with one reservation are one line. */
  lemma SameLine(lines: seq<CartItem>, x: CartItem)
    requires DistinctReservations(lines) && x in lines
    ensures forall y | y in lines && y.reservationID == x.reservationID :: y == x
  {
  }

  lemma GrownReplace(lines: seq<CartItem>, items: seq<CartItem>, proposed: seq<ProposalItem>, n: nat, proposalID: string,
                     i: nat, x: CartItem)
    requires n < |proposed| && i < |items| && Grown(lines, items, proposed, n, proposalID)
    requires items[i].productID == x.productID == proposed[n].productID && items[i].reservationID == x.reservationID
    requires x.quantity == items[i].quantity + proposed[n].quantity
    ensures Grown(lines, items[i := x], proposed, n + 1, proposalID)
  {
    var s := items[i := x];
    DealtGrows(proposed, n);
    forall p ensures LineUnits(s, p) == LineUnits(lines, p) + ProposedUnits(proposed[..n + 1], p) {
      LineUnitsUpdate(items, i, x, p);
      assert proposed[..n + 1][..n] == proposed[..n];
    }
    assert items[i] in items;
    forall y | y in s ensures y.reservationID in Mine(lines, proposalID) && (y in lines || Dealt(proposed, n + 1, y.productID)) {
      if y != x { assert y in items; }
    }
    forall y | y in lines ensures y in s || Dealt(proposed, n + 1, y.productID) {
      if y in items && y != items[i] {
        var j :| 0 <= j < |items| && items[j] == y;
        assert s[j] == y;
      }
    }
  }

  lemma GrownAppend(lines: seq<CartItem>, items: seq<CartItem>, proposed: seq<ProposalItem>, n: nat, proposalID: string, x: CartItem)
    requires n < |proposed| && Grown(lines, items, proposed, n, proposalID)
    requires x.productID == proposed[n].productID && x.quantity == proposed[n].quantity
    requires x.reservationID in Mine(lines, proposalID)
    ensures Grown(lines, items + [x], proposed, n + 1, proposalID)
  {
    var s := items + [x];
    DealtGrows(proposed, n);
    forall p ensures LineUnits(s, p) == LineUnits(lines, p) + ProposedUnits(proposed[..n + 1], p) {
      assert s[..|items|] == items && proposed[..n + 1][..n] == proposed[..n];
    }
  }

  lemma RenewedLine(lines: seq<CartItem>, items: seq<CartItem>, index: int, x: CartItem, since: int)
    requires Renewed(lines, items, since) && x.reservedUntil > since + RESERVATION_TTL - SECOND && -1 <= index < |items|
    ensures Renewed(lines, PutLine(items, index, x), since) && x in PutLine(items, index, x)
  {
    var s := PutLine(items, index, x);
    assert s[if index >= 0 then index else |items|] == x;
    forall y | y in s ensures y in items || y == x {}
  }

  /** The lines after one of them is put in its place. */
  function PutLine(lines: seq<CartItem>, index: int, item: CartItem): seq<CartItem>
    requires -1 <= index < |lines|
  {
    if index >= 0 then lines[index := item] else lines + [item]
  }

  /** Why the confirmation cannot go on with the n-th item: the cap, or a refusal by Inventory. */
  ghost predicate Blocked(db: Db, items: seq<CartItem>, proposal: Proposal, n: nat, account: nat, error: CartError)
    requires n < |proposal.items|
  {
    var item := proposal.items[n];
    var wanted := item.quantity + LineUnits(items, item.productID);
    match error
    case InvalidCartQuantity => wanted > MAX_LINE_QUANTITY
    case FromInventory(failure) =>
      wanted <= MAX_LINE_QUANTITY && Request(db, IdFor(items, proposal, item.productID), account, item.productID, Wrap32(wanted)).1 == Refused(failure)
    case _ => false
  }

  /** The reservation the confirmation uses for a product: that of the cart's line, or the proposal's own. */
  function IdFor(items: seq<CartItem>, proposal: Proposal, product: string): ReservationId {
    if items == [] then ForProposal(proposal.id, product)
    else
      var x := items[|items| - 1];
      if x.productID == product then x.reservationID else IdFor(items[..|items| - 1], proposal, product)
  }

  lemma {:induction false} IdForLine(items: seq<CartItem>, proposal: Proposal, i: nat)
    requires DistinctProducts(items) && i < |items|
    ensures IdFor(items, proposal, items[i].productID) == items[i].reservationID
  {
    if i < |items| - 1 { IdForLine(items[..|items| - 1], proposal, i); }
  }

  lemma {:induction false} IdForNew(items: seq<CartItem>, proposal: Proposal, product: string)
    requires forall i | 0 <= i < |items| :: items[i].productID != product
    ensures IdFor(items, proposal, product) == ForProposal(proposal.id, product)
  {
    if items != [] { IdForNew(items[..|items| - 1], proposal, product); }
  }

  /** Where a confirmation stopped: the database it met, the lines and changes so far, and the items done. */
  datatype Halt = Halt(db: Db, items: seq<CartItem>, changes: seq<Change>, done: nat)

  /** With the first items reserved, the next one could not be. */
  ghost predicate Obstacle(halt: Halt, start: Db, lines: seq<CartItem>, proposal: Proposal, account: nat, deadline: int, error: CartError) {
    && Progress(start, halt.db, lines, halt.items, halt.changes, proposal.items, halt.done, proposal.id, account, deadline)
    && halt.done < |proposal.items| && Blocked(halt.db, halt.items, proposal, halt.done, account, error)
  }

  /** An item for a product the cart already has: its line and its reservation are raised. */
  lemma LineRaised(start: Db, before: Db, after: Db, lines: seq<CartItem>, items: seq<CartItem>, changes: seq<Change>,
                   proposed: seq<ProposalItem>, n: nat, proposalID: string, account: nat, deadline: int, i: nat, x: CartItem)
    requires Sound(start) && Agree(lines, start, account) && (forall y | y in lines :: y.reservedUntil > start.now)
    requires WellFormedProposal(proposed) && n < |proposed| && i < |items|
    requires Progress(start, before, lines, items, changes, proposed, n, proposalID, account, deadline)
    requires items[i].productID == x.productID == proposed[n].productID && items[i].reservationID == x.reservationID
    requires x.quantity == items[i].quantity + proposed[n].quantity
    requires JustReserved(before, after, account, x)
    ensures Progress(start, after, lines, items[i := x],
                     changes + [Change(x.reservationID, x.productID, items[i].quantity)],
                     proposed, n + 1, proposalID, account, deadline)
  {
    var previous := items[i];
    assert !Dealt(proposed, n, x.productID);
    assert previous in items && previous in lines;
    LineHeld(start, previous, account);
    SameLine(lines, previous);
    forall c | c in changes ensures c.id != x.reservationID {
      assert Dealt(proposed, n, c.productID) && FromCart(c, lines);
    }
    ChangeAdded(start, before, after, lines, changes, proposed, n, proposalID, account, deadline, x, previous.quantity);
    AgreeReplace(items, i, x, before, after, account);
    GrownReplace(lines, items, proposed, n, proposalID, i, x);
    RenewedLine(lines, items, i, x, start.now);
    RecordedGrows(lines, changes, proposed, n, proposalID, Change(x.reservationID, x.productID, previous.quantity));
  }

  /** An item for a product the cart does not have: a line on the proposal's own reservation is added. */
  lemma LineAdded(start: Db, before: Db, after: Db, lines: seq<CartItem>, items: seq<CartItem>, changes: seq<Change>,
                  proposed: seq<ProposalItem>, n: nat, proposalID: string, account: nat, deadline: int, x: CartItem)
    requires Sound(start) && Agree(lines, start, account)
    requires WellFormedProposal(proposed) && n < |proposed|
    requires Progress(start, before, lines, items, changes, proposed, n, proposalID, account, deadline)
    requires forall y | y in items :: y.productID != x.productID
    requires x.productID == proposed[n].productID && x.quantity == proposed[n].quantity
    requires x.reservationID == ForProposal(proposalID, x.productID)
    requires JustReserved(before, after, account, x)
    ensures Progress(start, after, lines, items + [x], changes + [Change(x.reservationID, x.productID, 0)],
                     proposed, n + 1, proposalID, account, deadline)
  {
    assert !Dealt(proposed, n, x.productID);
    forall c | c in changes ensures c.id != x.reservationID {
      assert Dealt(proposed, n, c.productID);
    }
    forall y | y in lines ensures y.productID != x.productID && y.reservationID != x.reservationID {
      assert y in items || Dealt(proposed, n, y.productID);
    }
    ChangeAdded(start, before, after, lines, changes, proposed, n, proposalID, account, deadline, x, 0);
    AgreeAppend(items, x, before, after, account);
    GrownAppend(lines, items, proposed, n, proposalID, x);
    RenewedLine(lines, items, -1, x, start.now);
    RecordedGrows(lines, changes, proposed, n, proposalID, Change(x.reservationID, x.productID, 0));
  }

  /** An item that was granted, either way. */
  lemma ItemReserved(start: Db, before: Db, after: Db, lines: seq<CartItem>, items: seq<CartItem>, changes: seq<Change>,
                     proposal: Proposal, n: nat, account: nat, deadline: int, index: int, x: CartItem, previous: int32)
    requires Sound(start) && Agree(lines, start, account) && (forall y | y in lines :: y.reservedUntil > start.now)
    requires WellFormedProposal(proposal.items) && n < |proposal.items| && -1 <= index < |items|
    requires Progress(start, before, lines, items, changes, proposal.items, n, proposal.id, account, deadline)
    requires x.productID == proposal.items[n].productID && x.quantity == previous + proposal.items[n].quantity
    requires if index >= 0 then items[index].productID == x.productID && items[index].reservationID == x.reservationID && previous == items[index].quantity
             else previous == 0 && x.reservationID == ForProposal(proposal.id, x.productID) && forall y | y in items :: y.productID != x.productID
    requires JustReserved(before, after, account, x)
    ensures Progress(start, after, lines, PutLine(items, index, x), changes + [Change(x.reservationID, x.productID, previous)],
                     proposal.items, n + 1, proposal.id, account, deadline)
  {
    if index >= 0 {
      LineRaised(start, before, after, lines, items, changes, proposal.items, n, proposal.id, account, deadline, index, x);
    } else {
      LineAdded(start, before, after, lines, items, changes, proposal.items, n, proposal.id, account, deadline, x);
    }
  }

  // ------------------------------------------------------------ used-up ids

  /** The proposal's own id for the k-th item. */
  function OwnId(proposal: Proposal, k: nat): ReservationId
    requires k < |proposal.items|
  {
    ForProposal(proposal.id, proposal.items[k].productID)
  }

  /** The k-th item is new to the cart and the proposal's own id for it is used up. */
  ghost predicate Spent(db: Db, lines: seq<CartItem>, proposal: Proposal, k: nat)
    requires k < |proposal.items|
  {
    NoLine(lines, proposal.items[k].productID) && Over(db, OwnId(proposal, k))
  }

  /** None of the first n items met a used-up id. */
  ghost predicate Passed(start: Db, lines: seq<CartItem>, proposal: Proposal, n: nat) {
    n <= |proposal.items| && forall k | 0 <= k < n :: !Spent(start, lines, proposal, k)
  }

  lemma PassedOne(start: Db, lines: seq<CartItem>, proposal: Proposal, n: nat)
    requires Passed(start, lines, proposal, n) && n < |proposal.items| && !Spent(start, lines, proposal, n)
    ensures Passed(start, lines, proposal, n + 1)
  {
  }

  /** Where a used-up id stands in the way the confirmation fails, there or before. */
  ghost predicate SpentStops(start: Db, lines: seq<CartItem>, proposal: Proposal, failed: bool, done: nat) {
    forall k | 0 <= k < |proposal.items| && Spent(start, lines, proposal, k) :: failed && done <= k
  }

  lemma PassedStops(start: Db, lines: seq<CartItem>, proposal: Proposal, failed: bool, done: nat)
    requires Passed(start, lines, proposal, done) && (!failed ==> done == |proposal.items|)
    ensures SpentStops(start, lines, proposal, failed, done)
  {
  }

  /** The reservation of an item not yet dealt with has not been changed. */
  lemma OwnIdUnchanged(start: Db, db: Db, lines: seq<CartItem>, changes: seq<Change>, proposal: Proposal, n: nat, account: nat,
                       deadline: int, k: nat)
    requires WellFormedProposal(proposal.items) && n <= k < |proposal.items|
    requires InForce(start, db, lines, changes, proposal.items, n, proposal.id, account, deadline)
    ensures !Changed(changes, OwnId(proposal, k))
    ensures Aged(Lookup(start.rows, OwnId(proposal, k)), Lookup(db.rows, OwnId(proposal, k)), db.now)
  {
    forall c | c in changes ensures c.id != OwnId(proposal, k) {
      assert Dealt(proposal.items, n, c.productID);
    }
  }

  /** The confirmation cannot pass an item whose id is used up. */
  lemma SpentBlocks(start: Db, before: Db, at: Db, after: Db, outcome: Outcome, lines: seq<CartItem>, items: seq<CartItem>,
                    changes: seq<Change>, proposal: Proposal, n: nat, account: nat, deadline: int, id: ReservationId, q: int32)
    requires WellFormedProposal(proposal.items) && n < |proposal.items|
    requires Progress(start, before, lines, items, changes, proposal.items, n, proposal.id, account, deadline)
    requires Interferes(before, at, Mine(lines, proposal.id), deadline)
    requires id == IdFor(items, proposal, proposal.items[n].productID)
    requires Answered(at, after, outcome, id, account, proposal.items[n].productID, q)
    ensures Spent(start, lines, proposal, n) ==> outcome.Refused?
  {
    var p := proposal.items[n].productID;
    if Spent(start, lines, proposal, n) {
      OwnIdUnchanged(start, before, lines, changes, proposal, n, account, deadline, n);
      forall i | 0 <= i < |items| ensures items[i].productID != p {
        assert items[i] in items;
      }
      IdForNew(items, proposal, p);
    }
  }

  /** After a failure with `n` items done the proposal's own ids that were unknown at the start are used up
      for those of them that were new to the cart, and still unknown for all other items. */
  ghost predicate Consumed(start: Db, db: Db, lines: seq<CartItem>, proposal: Proposal, n: nat) {
    && n <= |proposal.items|
    && forall k | 0 <= k < |proposal.items| && Lookup(start.rows, OwnId(proposal, k)).None? ::
         if k < n && NoLine(lines, proposal.items[k].productID) then Over(db, OwnId(proposal, k))
         else Lookup(db.rows, OwnId(proposal, k)).None?
  }

  /** The changes were undone one by one: what was new is released. */
  lemma ConsumedBy(start: Db, db: Db, lines: seq<CartItem>, changes: seq<Change>, proposal: Proposal, n: nat, account: nat, deadline: int)
    requires n <= |proposal.items| && Underway(start, db, changes, Mine(lines, proposal.id), deadline)
    requires Recorded(lines, changes, proposal.items, n, proposal.id) && Agree(lines, start, account)
    requires (forall x | x in lines :: x.reservedUntil > start.now) && WellFormedProposal(proposal.items)
    requires forall c | c in changes :: Undone(start, db, c, account) && FromCart(c, lines) && Dealt(proposal.items, n, c.productID)
    requires forall c | c in changes && c.id.ForProposal? :: c.id.productId == c.productID
    ensures Consumed(start, db, lines, proposal, n)
  {
    forall k | 0 <= k < |proposal.items| && Lookup(start.rows, OwnId(proposal, k)).None?
      ensures if k < n && NoLine(lines, proposal.items[k].productID) then Over(db, OwnId(proposal, k))
              else Lookup(db.rows, OwnId(proposal, k)).None?
    {
      var p, id := proposal.items[k].productID, OwnId(proposal, k);
      if k < n && NoLine(lines, p) {
        assert Change(id, p, 0) in changes;
      } else {
        forall c | c in changes ensures c.id != id {
          assert Dealt(proposal.items, n, c.productID);
          if Lookup(start.rows, c.id).None? { UnknownIsNew(start, lines, c, account); }
        }
      }
    }
  }

  /** A change to an id that was unknown at the start is none of a cart line. */
  lemma UnknownIsNew(start: Db, lines: seq<CartItem>, c: Change, account: nat)
    requires Agree(lines, start, account) && (forall x | x in lines :: x.reservedUntil > start.now)
    requires FromCart(c, lines) && Lookup(start.rows, c.id).None?
    ensures NoLine(lines, c.productID)
  {
    assert forall x | x in lines :: Backed(x, start, account);
  }

  /** What an accepted request leaves behind. */
  lemma RequestGranted(at: Db, after: Db, outcome: Outcome, account: nat, x: CartItem)
    requires Answered(at, after, outcome, x.reservationID, account, x.productID, x.quantity) && outcome.Reply?
    requires x.reservedUntil == Truncate(outcome.reservation.expiresAt)
    ensures JustReserved(at, after, account, x)
  {
  }

  /** An item was asked for: it is reserved, or nothing has changed but the clock and the others. */
  lemma ItemAsked(start: Db, before: Db, at: Db, after: Db, outcome: Outcome, lines: seq<CartItem>, items: seq<CartItem>,
                  changes: seq<Change>, proposal: Proposal, n: nat, account: nat, deadline: int,
                  index: int, id: ReservationId, quantity: int32, previous: int32)
    requires Sound(start) && Agree(lines, start, account) && (forall y | y in lines :: y.reservedUntil > start.now)
    requires WellFormedProposal(proposal.items) && n < |proposal.items| && -1 <= index < |items|
    requires Progress(start, before, lines, items, changes, proposal.items, n, proposal.id, account, deadline)
    requires Interferes(before, at, Mine(lines, proposal.id), deadline)
    requires quantity == previous + proposal.items[n].quantity
    requires if index >= 0 then items[index].productID == proposal.items[n].productID && items[index].reservationID == id && previous == items[index].quantity
             else previous == 0 && id == ForProposal(proposal.id, proposal.items[n].productID) && forall y | y in items :: y.productID != proposal.items[n].productID
    requires Answered(at, after, outcome, id, account, proposal.items[n].productID, quantity)
    ensures outcome.Refused? ==> Progress(start, after, lines, items, changes, proposal.items, n, proposal.id, account, deadline)
    ensures outcome.Reply? ==>
      Progress(start, after, lines,
               PutLine(items, index, CartItem(proposal.items[n].productID, quantity, id, Truncate(outcome.reservation.expiresAt))),
               changes + [Change(id, proposal.items[n].productID, previous)], proposal.items, n + 1, proposal.id, account, deadline)
  {
    ProgressSurvives(start, before, at, lines, items, changes, proposal.items, n, proposal.id, account, deadline);
    if outcome.Reply? {
      var x := CartItem(proposal.items[n].productID, quantity, id, Truncate(outcome.reservation.expiresAt));
      RequestGranted(at, after, outcome, account, x);
      ItemReserved(start, at, after, lines, items, changes, proposal, n, account, deadline, index, x, previous);
    }
  }

  // ------------------------------------------------------------ a single line

  /** What one request does to the cart: the quantity to reserve, the reservation to use and the
      quantity to go back to. */
  datatype Plan = Plan(quantity: int32, change: Change)

  ghost predicate PlanFor(plan: Plan, lines: seq<CartItem>, index: int, product: string, requested: int32, increment: bool, uuid: ReservationId) {
    && -1 <= index < |lines| && plan.change.productID == product && FromCart(plan.change, lines)
    && plan.quantity == Wrap32(requested + (if increment then LineUnits(lines, product) else 0))
    && (plan.quantity > 0 ==>
          plan.quantity == requested + (if increment then LineUnits(lines, product) else 0))
    && LineUnits(lines, product) == plan.change.previousQuantity
    && (if index < 0 then plan.change.id == uuid
        else plan.change.id == lines[index].reservationID && lines[index].productID == product)
  }

  lemma LinePut(lines: seq<CartItem>, index: int, plan: Plan, item: CartItem, at: Db, after: Db, account: nat,
                product: string, requested: int32, increment: bool, uuid: ReservationId)
    requires PlanFor(plan, lines, index, product, requested, increment, uuid) && plan.quantity > 0
    requires index < 0 ==> uuid.Uuid? && forall x | x in lines :: x.productID != product && x.reservationID != uuid
    requires item.productID == product && item.quantity == plan.quantity && item.reservationID == plan.change.id
    requires Agree(lines, at, account) && JustReserved(at, after, account, item)
    ensures Agree(PutLine(lines, index, item), after, account)
    ensures SetTo(lines, PutLine(lines, index, item), product, requested, increment)
  {
    if index >= 0 {
      AgreeReplace(lines, index, item, at, after, account);
      forall p ensures LineUnits(PutLine(lines, index, item), p) == LineUnits(lines, p) + (if p == product then item.quantity - lines[index].quantity else 0) {
        LineUnitsUpdate(lines, index, item, p);
      }
      LineUnitsOfLine(lines, index);
    } else {
      AgreeAppend(lines, item, at, after, account);
      forall p ensures LineUnits(PutLine(lines, index, item), p) == LineUnits(lines, p) + (if p == product then item.quantity else 0) {
        LineUnitsAppend(lines, item, p);
      }
    }
  }

  /** After a failed request on one line the cart agrees with Inventory and every reservation holds what
      it held, unless Inventory refused to raise again a reservation that the request had lowered: that one
      then holds the units requested, fewer than the line shows. */
  ghost predicate LineFailure(start: Db, db: Db, items: seq<CartItem>, account: nat, uuid: ReservationId,
                              product: string, requested: int32, increment: bool, compensation: Option<Outcome>)
  {
    var lines := Unexpired(items, start.now);
    && Sound(db) && NoOversell(db)
    && match compensation
       case None => Agree(items, db, account) && GivenBack(start, db, items, LineIds(lines, uuid), [])
       case Some(outcome) =>
         if outcome.Reply? then Agree(items, db, account) && GivenBack(start, db, items, LineIds(lines, uuid), [outcome])
         else
           && !increment && requested < LineUnits(lines, product)
           && exists x :: x in lines && x.productID == product && Held(db, x.reservationID) == requested
  }

  /** The ids a request on a single line may name: its lines' and one fresh UUID. */
  ghost function LineIds(lines: seq<CartItem>, uuid: ReservationId): iset<ReservationId> {
    Mine(lines, "") + iset{uuid}
  }

  /** After a granted request the new lines agree with Inventory and only the product's units moved. */
  ghost predicate LineSuccess(db: Db, lines: seq<CartItem>, saved: seq<CartItem>, account: nat,
                              product: string, requested: int32, increment: bool)
  {
    && Sound(db) && NoOversell(db) && Agree(saved, db, account)
    && SetTo(lines, saved, product, requested, increment)
    && Renewed(lines, saved, db.now)
    && exists x :: x in saved && x.productID == product && x.reservedUntil > db.now + RESERVATION_TTL - SECOND
  }

  /** Inventory refused the one call that a request on a single line makes. */
  ghost predicate LineBlocked(at: Db, lines: seq<CartItem>, account: nat, uuid: ReservationId,
                              product: string, requested: int32, increment: bool, failure: Failure)
  {
    exists index: int, plan: Plan ::
      && PlanFor(plan, lines, index, product, requested, increment, uuid)
      && Request(at, plan.change.id, account, product, plan.quantity).1 == Refused(failure)
  }

  lemma LineGranted(items: seq<CartItem>, start: Db, at: Db, after: Db, account: nat, plan: Plan, index: int, item: CartItem,
                    requested: int32, increment: bool, uuid: ReservationId, deadline: int)
    requires var lines := Unexpired(items, start.now);
      && Agree(items, start, account) && Interferes(start, at, LineIds(lines, uuid), deadline)
      && PlanFor(plan, lines, index, plan.change.productID, requested, increment, uuid) && plan.quantity > 0
      && (index < 0 ==> uuid.Uuid? && forall x | x in lines :: x.productID != plan.change.productID && x.reservationID != uuid)
    requires item.productID == plan.change.productID && item.quantity == plan.quantity && item.reservationID == plan.change.id
    requires JustReserved(at, after, account, item)
    ensures var lines := Unexpired(items, start.now);
      LineSuccess(after, lines, PutLine(lines, index, item), account, plan.change.productID, requested, increment)
  {
    var lines := Unexpired(items, start.now);
    LinesSurvive(items, start, at, account, LineIds(lines, uuid), deadline);
    LinePut(lines, index, plan, item, at, after, account, plan.change.productID, requested, increment, uuid);
    RenewedLine(lines, lines, index, item, after.now);
  }

  /** A refused request, or one that was never made, changes nothing but the clock and the others. */
  lemma LineRefused(items: seq<CartItem>, start: Db, at: Db, account: nat, uuid: ReservationId,
                    product: string, requested: int32, increment: bool, deadline: int)
    requires Sound(start) && Agree(items, start, account) && deadline < start.now + RESERVATION_TTL
    requires Interferes(start, at, LineIds(Unexpired(items, start.now), uuid), deadline)
    ensures LineFailure(start, at, items, account, uuid, product, requested, increment, None)
  {
    RolledBack(start, at, [], account, items, LineIds(Unexpired(items, start.now), uuid), deadline);
  }

  lemma LineFailed(start: Db, db: Db, items: seq<CartItem>, account: nat, uuid: ReservationId, plan: Plan, index: int,
                   requested: int32, increment: bool, reply: Outcome)
    requires var lines := Unexpired(items, start.now);
      && PlanFor(plan, lines, index, plan.change.productID, requested, increment, uuid) && requested > 0 && plan.quantity > 0
      && (reply.Reply? ==> Agree(items, db, account) && GivenBack(start, db, items, LineIds(lines, uuid), [reply]))
      && (reply.Refused? ==> HeldAs(start, db, plan.change, account, plan.quantity, plan.quantity) && db.now < start.now + RESERVATION_TTL)
    requires Sound(db) && NoOversell(db)
    requires reply.Reply? || (reply.Refused? && plan.quantity < plan.change.previousQuantity)
    ensures LineFailure(start, db, items, account, uuid, plan.change.productID, requested, increment, Some(reply))
  {
    if reply.Refused? {
      var x :| x in Unexpired(items, start.now) && x.reservationID == plan.change.id;
      assert Held(db, x.reservationID) == requested;
    }
  }

  // ---------------------------------------------------------------- emptying

  /** None of these reservations is active any more, except those whose release never arrived. */
  ghost predicate AllOver(db: Db, lines: seq<CartItem>, n: nat, faults: nat -> Fault) {
    forall k | 0 <= k < n && k < |lines| && faults(k) != Lost :: Over(db, lines[k].reservationID)
  }

  /** The reservations of unexpired lines exist and are the operation's own. */
  lemma LinesFound(lines: seq<CartItem>, db: Db, account: nat)
    requires Agree(lines, db, account) && forall x | x in lines :: x.reservationID != Blank && x.reservedUntil > db.now
    ensures forall k | 0 <= k < |lines| :: lines[k].reservationID in Mine(lines, "") && Lookup(db.rows, lines[k].reservationID).Some?
  {
    forall k | 0 <= k < |lines| ensures lines[k].reservationID in Mine(lines, "") && Lookup(db.rows, lines[k].reservationID).Some? {
      assert lines[k] in lines && Backed(lines[k], db, account);
    }
  }

  /** A dropped line's reservation is over; or, if its release never arrived, it is as the line left it and
      ends with its term. */
  ghost predicate Dropped(x: CartItem, before: Db, after: Db, fault: Fault) {
    if fault != Lost then Over(after, x.reservationID)
    else Aged(Lookup(before.rows, x.reservationID), Lookup(after.rows, x.reservationID), after.now)
  }

  lemma RestOfLines(lines: seq<CartItem>, i: nat)
    requires i < |lines| && DistinctProducts(lines) && DistinctReservations(lines)
    ensures var rest := lines[..i] + lines[i + 1..];
      && DistinctProducts(rest) && DistinctReservations(rest)
      && forall x | x in rest :: x in lines && x.reservationID != lines[i].reservationID
  {
    var rest := lines[..i] + lines[i + 1..];
    forall x | x in rest ensures x in lines && x.reservationID != lines[i].reservationID {
      var k :| 0 <= k < |rest| && rest[k] == x;
      assert x == lines[if k < i then k else k + 1];
    }
  }

  /** The cart without one of its lines, after a call that concerned at most that line's reservation. */
  lemma LineGone(lines: seq<CartItem>, i: nat, before: Db, at: Db, after: Db, account: nat, mine: iset<ReservationId>, deadline: int)
    requires i < |lines| && Agree(lines, before, account) && Interferes(before, at, mine, deadline)
    requires forall x | x in lines :: x.reservationID in mine
    requires after.now == at.now
    requires forall other | other != lines[i].reservationID :: Aged(Lookup(at.rows, other), Lookup(after.rows, other), at.now)
    ensures Agree(lines[..i] + lines[i + 1..], after, account)
  {
    var rest := lines[..i] + lines[i + 1..];
    RestOfLines(lines, i);
    AgreeSubset(lines, rest, before, account);
    AgreeSurvives(rest, before, at, account);
    AgreeSurvives(rest, at, after, account);
  }

  /** What removing a line does to the units of every product. */
  lemma LineRemoved(lines: seq<CartItem>, i: nat)
    requires i < |lines| && DistinctProducts(lines)
    ensures SetTo(lines, lines[..i] + lines[i + 1..], lines[i].productID, 0, false)
  {
    LineUnitsOfLine(lines, i);
    forall p ensures LineUnits(lines[..i] + lines[i + 1..], p)
                  == LineUnits(lines, p) - (if lines[i].productID == p then lines[i].quantity else 0)
    {
      LineUnitsRemove(lines, i, p);
    }
  }

  /** Undoing one change leaves the others as they were. */
  lemma OneUndone(start: Db, before: Db, after: Db, changes: seq<Change>, i: nat, account: nat,
                  mine: iset<ReservationId>, deadline: int)
    requires i < |changes| && DistinctIds(changes)
    requires forall c | c in changes :: c.id in mine
    requires Underway(start, before, changes, mine, deadline)
    requires Sound(after) && NoOversell(after) && after.now == before.now
    requires forall other | other != changes[i].id :: Aged(Lookup(before.rows, other), Lookup(after.rows, other), after.now)
    requires Undone(start, after, changes[i], account)
    ensures Underway(start, after, changes, mine, deadline)
    ensures forall k | 0 <= k < |changes| && k != i && Raised(start, before, changes[k], account) :: Raised(start, after, changes[k], account)
    ensures forall k | 0 <= k < |changes| && k != i && Undone(start, before, changes[k], account) :: Undone(start, after, changes[k], account)
  {
    assert Changed(changes, changes[i].id) by { assert changes[i] in changes; }
  }

  /** A line the loop meets again is one of the cart's own, with a positive quantity and a reservation. */
  lemma LineIsHeld(items: seq<CartItem>, index: nat, lines: seq<CartItem>, start: Db,
                   proposed: seq<ProposalItem>, n: nat, proposalID: string, account: nat)
    requires WellFormedProposal(proposed) && n < |proposed| && index < |items|
    requires items[index].productID == proposed[n].productID
    requires Grown(lines, items, proposed, n, proposalID)
    requires Sound(start) && Agree(lines, start, account) && (forall y | y in lines :: y.reservedUntil > start.now)
    ensures items[index] in lines && items[index].quantity > 0 && items[index].reservationID != Blank
  {
    assert !Dealt(proposed, n, proposed[n].productID);
    LineHeld(start, items[index], account);
  }
}
