/** The cart service of one account: the Redis keys it owns and, as a field, the Inventory database its
    calls reach. */
module CartService {
  import opened Width
  import opened Ledger
  import opened CartModel
  import opened CartSaga
  import opened CartCalls

  /** Why a proposal cannot be confirmed. */
  predicate NotOpen(s: CartState, proposalID: string, lockGranted: bool, error: CartError) {
    match error
    case CartNotFound => proposalID !in s.proposals.byId
    case ProposalExpired => proposalID in s.proposals.byId && s.proposals.byId[proposalID].expiresAt <= s.inventory.now
    case CartLocked => !lockGranted
    case VersionConflict => proposalID in s.proposals.byId && s.Version() != s.proposals.byId[proposalID].baseVersion
    case VersionExhausted => s.Version() == MAX_UINT64
    case _ => false
  }

  /** None of these reasons applies, and the proposal was not confirmed yet. */
  predicate Open(s: CartState, proposalID: string, lockGranted: bool) {
    && proposalID in s.proposals.byId && lockGranted
    && s.proposals.byId[proposalID].result.None? && s.proposals.byId[proposalID].expiresAt > s.inventory.now
    && s.Version() == s.proposals.byId[proposalID].baseVersion < MAX_UINT64
  }

  /** Success: one version on, every product gains exactly the proposed units, on holds of a full term. */
  ghost predicate Confirmed(before: CartState, after: CartState, proposal: Proposal, cart: Cart) {
    && after.cart == Some(cart) && cart.version == before.Version() + 1 && cart.expiresAt == before.inventory.now + RESERVATION_TTL
    && after.proposals.byId == before.proposals.byId[proposal.id := proposal.(result := Some(cart))]
    && after.proposals.byKey == before.proposals.byKey[proposal.key := proposal.(result := Some(cart))]
    && Gained(before.Lines(), cart.items, proposal.items) && Renewed(before.Lines(), cart.items, before.inventory.now)
  }

  /** Failure: cart and proposals are as before, every compensating call was accepted, every reservation holds
      what it held, and exactly the new products dealt with have used up their ids. */
  ghost predicate Abandoned(before: CartState, after: CartState, proposal: Proposal, compensations: seq<Outcome>, halt: Halt) {
    && after.cart == before.cart && after.proposals == before.proposals
    && GivenBack(before.inventory, after.inventory, before.Items(), Mine(before.Lines(), proposal.id), compensations)
    && Consumed(before.inventory, after.inventory, before.Lines(), proposal, halt.done)
  }

  /** An open proposal is applied or undone as a whole.  It fails only for a failing save or for an item that
      could not be reserved, and always at or before an item whose own id is used up. */
  ghost predicate ConfirmOutcome(before: CartState, after: CartState, account: nat, proposal: Proposal, r: Result<Cart>,
                                 compensations: seq<Outcome>, halt: Halt, saveFails: bool)
  {
    && (match r
        case Ok(cart) => !saveFails && Confirmed(before, after, proposal, cart)
        case Err(error) =>
          && Abandoned(before, after, proposal, compensations, halt)
          && ((error == SaveFailed && saveFails)
              || Obstacle(halt, before.inventory, before.Lines(), proposal, account, before.inventory.now + CART_LOCK_TTL, error)))
    && SpentStops(before.inventory, before.Lines(), proposal, r.Err?, halt.done)
    && before.inventory.now <= after.inventory.now <= before.inventory.now + CART_LOCK_TTL
  }

  /** The product's line is gone, if there was one, and so is its hold unless the release never arrived. */
  ghost predicate LineTaken(before: CartState, after: CartState, cart: Cart, product: string, fault: Fault) {
    if NoLine(before.Lines(), product) then
      after == before && cart.items == before.Lines() && cart.version == before.Version()
    else
      && after.cart == Some(cart) && cart.version == before.Version() + 1 && cart.expiresAt == before.inventory.now + RESERVATION_TTL
      && SetTo(before.Lines(), cart.items, product, 0, false)
      && forall x | x in before.Lines() && x.productID == product :: Dropped(x, before.inventory, after.inventory, fault)
  }

  /** What holds whenever the cart lock is free: cart and Inventory agree. */
  ghost predicate Consistent(s: CartState, account: nat) {
    && Sound(s.inventory) && NoOversell(s.inventory)
    && Agree(s.Items(), s.inventory, account)
    && s.proposals.Filed()
  }

  lemma LineTakenBy(before: CartState, after: CartState, cart: Cart, index: nat, fault: Fault)
    requires index < |before.Lines()| && DistinctProducts(before.Lines())
    requires after.cart == Some(cart) && cart.version == before.Version() + 1
    requires cart.expiresAt == before.inventory.now + RESERVATION_TTL
    requires SetTo(before.Lines(), cart.items, before.Lines()[index].productID, 0, false)
    requires Dropped(before.Lines()[index], before.inventory, after.inventory, fault)
    ensures LineTaken(before, after, cart, before.Lines()[index].productID, fault)
  {
    var lines := before.Lines();
    assert lines[index] in lines;
    forall x | x in lines && x.productID == lines[index].productID ensures x == lines[index] {}
  }

  lemma LinesAgree(s: CartState, account: nat)
    requires Consistent(s, account)
    ensures Agree(s.Lines(), s.inventory, account)
  {
    UnexpiredDistinct(s.Items(), s.inventory.now);
    AgreeSubset(s.Items(), s.Lines(), s.inventory, account);
  }

  /** The expired lines are filtered out, one by one. */
  method FilterExpired(cart: Cart, now: int) returns (filtered: Cart)
    ensures filtered == cart.(items := Unexpired(cart.items, now))
  {
    filtered := cart.(items := []);
    for i := 0 to |cart.items|
      invariant filtered == cart.(items := Unexpired(cart.items[..i], now))
    {
      assert cart.items[..i + 1][..i] == cart.items[..i];
      if cart.items[i].reservedUntil > now {
        filtered := filtered.(items := filtered.items + [cart.items[i]]);
      }
    }
    assert cart.items[..|cart.items|] == cart.items;
  }

  /** The cart as readers see it; a missing key is an empty cart at version 0. */
  method ReadCart(s: CartState) returns (c: Cart)
    ensures c.version == s.Version() && c.items == s.Lines()
  {
    match s.cart
    case None => c := Cart(0, [], 0);
    case Some(stored) => c := FilterExpired(stored, s.inventory.now);
  }

  /** RemoveCartItem under the lock. */
  method RemoveLine(s: CartState, productID: string, fault: Fault, account: nat, others: Others, saveFails: bool)
    returns (r: Result<Cart>, after: CartState)
    requires Consistent(s, account)
    requires Polite(others, Mine(s.Lines(), ""), s.inventory.now + CART_LOCK_TTL)
    ensures Consistent(after, account)
    ensures r.Err? <==> !NoLine(s.Lines(), productID) && (s.Version() == MAX_UINT64 || saveFails)
    ensures r.Err? ==> after == s
    ensures r.Ok? ==> LineTaken(s, after, r.value, productID, fault)
    ensures after.proposals == s.proposals
  {
    var current := ReadCart(s);
    var index := FindItem(current.items, productID);
    if index < 0 {
      return Ok(current), s;
    }
    assert current.items[index] in s.Lines();
    if current.version == MAX_UINT64 {
      return Err(VersionExhausted), s;
    }
    if saveFails {
      return Err(SaveFailed), s;
    }
    LinesAgree(s, account);
    var expiresAt := s.inventory.now + RESERVATION_TTL;
    var items, remote := DropLine(Remote(s.inventory, 0), current.items, index, fault, account, others);
    var rest := Cart(current.version + 1, items, expiresAt);
    after := CartState(Some(rest), s.proposals, remote.db);
    LineTakenBy(s, after, rest, index, fault);
    r := Ok(rest);
  }

  /** Saving the reserved lines with the proposal's result. */
  lemma SavedResult(s: CartState, after: CartState, proposal: Proposal, cart: Cart, account: nat)
    requires Consistent(s, account) && WellFormedProposal(proposal.items)
    requires after.cart == Some(cart) && after.proposals == s.proposals.Put(proposal.(result := Some(cart)))
    requires Sound(after.inventory) && NoOversell(after.inventory) && Agree(cart.items, after.inventory, account)
    requires cart.version == s.Version() + 1 && cart.expiresAt == s.inventory.now + RESERVATION_TTL
    requires Gained(s.Lines(), cart.items, proposal.items) && Renewed(s.Lines(), cart.items, s.inventory.now)
    ensures Consistent(after, account) && Confirmed(s, after, proposal, cart)
  {
  }

  /** The items of a proposal that is open: all of them are reserved and saved, or everything is undone. */
  method ApplyOpen(s: CartState, proposal: Proposal, current: Cart, account: nat, others: Others, saveFails: bool)
    returns (r: Result<Cart>, compensations: seq<Outcome>, after: CartState, ghost halt: Halt)
    requires Consistent(s, account) && WellFormedProposal(proposal.items) && current.version == s.Version() < MAX_UINT64
    requires current.items == s.Lines() && Agree(current.items, s.inventory, account)
    requires Polite(others, Mine(current.items, proposal.id), s.inventory.now + CART_LOCK_TTL)
    ensures Consistent(after, account)
    ensures ConfirmOutcome(s, after, account, proposal, r, compensations, halt, saveFails)
  {
    var uncut := if s.cart.Some? then s.cart.value.items else [];
    var result, replies, remote;
    result, replies, remote, halt := ApplyProposal(Remote(s.inventory, 0), proposal, uncut, current.items, account, others, saveFails);
    compensations := replies;
    if result.Err? {
      return Err(result.error), compensations, s.(inventory := remote.db), halt;
    }
    var confirmed := Cart(current.version + 1, result.value, s.inventory.now + RESERVATION_TTL);
    r, after := Ok(confirmed), CartState(Some(confirmed), s.proposals.Put(proposal.(result := Some(confirmed))), remote.db);
    SavedResult(s, after, proposal, confirmed, account);
  }

  class Service {
    const account: nat
    var cart: Option<Cart>
    var proposals: ProposalStore
    var inventory: Db

    ghost function State(): CartState
      reads this
    {
      CartState(cart, proposals, inventory)
    }

    ghost function Items(): seq<CartItem>
      reads this`cart
    {
      if cart.Some? then cart.value.items else []
    }

    /** The lines a reader sees. */
    ghost function Lines(): seq<CartItem>
      reads this`cart, this`inventory
    {
      Unexpired(Items(), inventory.now)
    }

    ghost predicate HasLine(productID: string)
      reads this`cart, this`inventory
    {
      !NoLine(Lines(), productID)
    }

    ghost function Version(): uint64
      reads this`cart
    {
      if cart.Some? then cart.value.version else 0
    }

    /** What holds whenever the cart lock is free: the cart and Inventory agree. */
    ghost predicate Valid()
      reads this
    {
      Consistent(State(), account)
    }

    constructor (account: nat, inventory: Db)
      requires Sound(inventory) && NoOversell(inventory)
      ensures Valid() && cart == None && this.inventory == inventory && this.account == account
    {
      this.account := account;
      cart, proposals, this.inventory := None, ProposalStore(map[], map[]), inventory;
    }

    /** The cart as readers see it. */
    method GetCart() returns (c: Cart)
      ensures c.version == Version() && c.items == Lines()
      ensures Valid() ==> Agree(c.items, inventory, account)
    {
      c := ReadCart(CartState(cart, proposals, inventory));
      if Valid() {
        LinesAgree(State(), account);
      }
    }

    /** Other accounts' transactions and the expiry of the cart key, while the lock is free, keep the
        agreement. */
    method LetTimePass(others: Others, cartExpires: bool, ghost deadline: int)
      requires Valid() && inventory.now <= deadline
      requires Polite(others, Mine(Lines(), ""), deadline)
      modifies this`inventory, this`cart
      ensures Valid()
      ensures inventory == others(0, old(inventory)) && cart == if cartExpires then None else old(cart)
    {
      CartSurvives(Items(), inventory, others(0, inventory), account, Mine(Lines(), ""), deadline);
      inventory := others(0, inventory);
      if cartExpires {
        cart := None;
      }
    }

    /** Set, or add to, the quantity of one product. */
    method UpsertCartItem(productID: string, requested: int32, increment: bool, uuid: ReservationId, others: Others,
                          lockGranted: bool, saveFails: bool)
      returns (r: Result<Cart>, compensation: Option<Outcome>)
      requires Valid()
      requires uuid.Uuid? && forall x | x in Items() :: x.reservationID != uuid
      requires Polite(others, LineIds(Lines(), uuid), inventory.now + CART_LOCK_TTL)
      modifies this`cart, this`inventory
      // Success: one version on; the product has the new quantity, on a hold of a full term, and the
      // others keep theirs.
      ensures r.Ok? ==>
        && lockGranted && requested > 0 && !saveFails
        && Valid() && cart == Some(r.value) && r.value.version == old(Version()) + 1
        && LineSuccess(inventory, old(Lines()), r.value.items, account, productID, requested, increment)
        && r.value.expiresAt == inventory.now + RESERVATION_TTL
      // It fails for no other reason than these.
      ensures r.Err? ==>
        match r.error {
          case CartLocked => !lockGranted
          case InvalidCartQuantity => requested <= 0
          case VersionExhausted => old(Version()) == MAX_UINT64
          case SaveFailed => saveFails
          case FromInventory(failure) =>
            LineBlocked(others(0, old(inventory)), old(Lines()), account, uuid, productID, requested, increment, failure)
          case _ => false
        }
      // Failure: the cart is as before, and so is what it holds unless a lowered reservation was lost.
      ensures r.Err? ==> cart == old(cart)
      ensures r.Err? ==>
        LineFailure(old(inventory), inventory, Items(), account, uuid, productID, requested, increment, compensation)
    {
      compensation := None;
      UntouchedLine(productID, requested, increment, uuid);
      if !lockGranted {
        return Err(CartLocked), None;
      }
      if requested <= 0 {
        return Err(InvalidCartQuantity), None;
      }
      var current := GetCart();
      if current.version == MAX_UINT64 {
        return Err(VersionExhausted), None;
      }
      var uncut := if cart.Some? then cart.value.items else [];
      var failure, saved, expiresAt, reply, after :=
        ReserveLine(Remote(inventory, 0), uncut, current.items, account, productID, requested, increment, uuid, others, saveFails);
      inventory, compensation := after.db, reply;
      if failure.Some? {
        return Err(failure.value), compensation;
      }
      cart := Some(Cart(current.version + 1, saved, expiresAt));
      r := Ok(cart.value);
    }

    /** Nothing has happened yet. */
    lemma UntouchedLine(productID: string, requested: int32, increment: bool, uuid: ReservationId)
      requires Valid()
      ensures LineFailure(inventory, inventory, Items(), account, uuid, productID, requested, increment, None)
    {
    }

    /** Drop the line of a product, then release its reservation; a failed release is only logged. */
    method RemoveCartItem(productID: string, fault: Fault, others: Others, lockGranted: bool, saveFails: bool)
      returns (r: Result<Cart>)
      requires Valid()
      requires Polite(others, Mine(Lines(), ""), inventory.now + CART_LOCK_TTL)
      modifies this`cart, this`inventory
      ensures Valid()
      ensures r.Err? <==> !lockGranted || (old(HasLine(productID)) && (old(Version()) == MAX_UINT64 || saveFails))
      ensures r.Err? ==> State() == old(State())
      ensures r.Ok? ==> LineTaken(old(State()), State(), r.value, productID, fault)
    {
      if !lockGranted {
        return Err(CartLocked);
      }
      var after;
      r, after := RemoveLine(CartState(cart, proposals, inventory), productID, fault, account, others, saveFails);
      cart, inventory := after.cart, after.inventory;
    }

    /** Empty the cart, then release what it held. */
    method ClearCart(faults: nat -> Fault, others: Others, lockGranted: bool, saveFails: bool) returns (error: Option<CartError>)
      requires Valid()
      requires Polite(others, Mine(Lines(), ""), inventory.now + CART_LOCK_TTL)
      modifies this`cart, this`inventory
      ensures Valid()
      ensures error.Some? <==> !lockGranted || old(Version()) == MAX_UINT64 || saveFails
      ensures error.Some? ==> State() == old(State())
      ensures error.None? ==>
        && Emptied(cart, old(Version()) + 1, old(inventory.now))
        && AllOver(inventory, old(Lines()), |old(Lines())|, faults)
    {
      if !lockGranted {
        return Some(CartLocked);
      }
      var current := GetCart();
      if current.version == MAX_UINT64 {
        return Some(VersionExhausted);
      }
      if saveFails {
        return Some(SaveFailed);
      }
      cart := Some(Cart(current.version + 1, [], inventory.now + RESERVATION_TTL));
      var after := ReleaseLines(Remote(inventory, 0), current.items, faults, account, others);
      inventory := after.db;
      error := None;
    }

    /** Empty the cart after an order was placed; its reservations stay with the order.  The cart need not
        agree with Inventory any more, and agrees again afterwards. */
    method CompleteCheckout(lockGranted: bool, saveFails: bool) returns (error: Option<CartError>)
      requires Sound(inventory) && NoOversell(inventory) && proposals.Filed()
      modifies this`cart
      ensures error.None? ==> Valid()
      ensures error.Some? <==> !lockGranted || old(Version()) == MAX_UINT64 || saveFails
      ensures error.Some? ==> cart == old(cart)
      ensures error.None? ==> Emptied(cart, old(Version()) + 1, inventory.now)
    {
      if !lockGranted {
        return Some(CartLocked);
      }
      var current := GetCart();
      if current.version == MAX_UINT64 {
        return Some(VersionExhausted);
      }
      if saveFails {
        return Some(SaveFailed);
      }
      cart := Some(Cart(current.version + 1, [], inventory.now + RESERVATION_TTL));
      error := None;
    }

    /** The snapshot a checkout starts from: every line it shows is on a live hold of exactly its quantity. */
    method PrepareCheckoutAtVersion(expectedVersion: uint64, lockGranted: bool) returns (r: Result<Cart>)
      ensures r.Err? <==> !lockGranted || (expectedVersion != 0 && Version() != expectedVersion)
      ensures r.Ok? ==> r.value.items == Lines() && r.value.version == Version()
      ensures r.Ok? && Valid() ==> forall x | x in r.value.items :: Held(inventory, x.reservationID) == x.quantity > 0
    {
      if !lockGranted {
        return Err(CartLocked);
      }
      var current := GetCart();
      if expectedVersion != 0 && current.version != expectedVersion {
        return Err(VersionConflict);
      }
      forall x | x in current.items && Valid() ensures Held(inventory, x.reservationID) == x.quantity > 0 {
        LineHeld(inventory, x, account);
      }
      r := Ok(current);
    }

    // ------------------------------------------------------------ proposals

    /** The loop over the proposed items with its set of products seen. */
    static method CheckProposalItems(items: seq<ProposalItem>) returns (ok: bool)
      ensures ok <==> WellFormedProposal(items)
    {
      if |items| == 0 || |items| > MAX_PROPOSAL_ITEMS {
        return false;
      }
      var seen: set<string> := {};
      for i := 0 to |items|
        invariant seen == set k | 0 <= k < i :: items[k].productID
        invariant forall k | 0 <= k < i ::
          items[k].productID != "" && |items[k].productID| <= 128 && 0 < items[k].quantity <= MAX_LINE_QUANTITY
        invariant forall j, k | 0 <= j < k < i :: items[j].productID != items[k].productID
      {
        var item := items[i];
        if item.productID == "" || |item.productID| > 128 || item.quantity <= 0 || item.quantity > MAX_LINE_QUANTITY {
          return false;
        }
        if item.productID in seen {
          return false;
        }
        seen := seen + {item.productID};
      }
      ok := true;
    }

    /** Creating a proposal is idempotent in its key and bound to the cart version it was made for. */
    method CreateCartProposal(expectedVersion: uint64, key: string, items: seq<ProposalItem>, freshID: string,
                              lockGranted: bool, saveFails: bool)
      returns (r: Result<Proposal>)
      requires Valid()
      modifies this`proposals
      ensures Valid()
      ensures r.Ok? ==> lockGranted && account != 0 && key != "" && |key| <= 128 && WellFormedProposal(items)
      ensures r.Ok? ==> r.value.items == items && r.value.baseVersion == expectedVersion && r.value.key == key
      ensures r.Err? ==> proposals == old(proposals)
      ensures r.Err? ==>
        r.error == (if account == 0 || key == "" || |key| > 128 || !WellFormedProposal(items) then InvalidCartQuantity
                    else if !lockGranted then CartLocked
                    else if key in old(proposals).byKey then ProposalMismatch
                    else if expectedVersion != Version() then VersionConflict else SaveFailed)
      // A key that was used before gives the stored proposal back, or a mismatch.
      ensures lockGranted && key in old(proposals).byKey && key != "" && |key| <= 128 && account != 0 && WellFormedProposal(items) ==>
        && proposals == old(proposals)
        && (r.Ok? <==> old(proposals).byKey[key].baseVersion == expectedVersion && old(proposals).byKey[key].items == items)
        && (r.Ok? ==> r.value == old(proposals).byKey[key])
      // A new key stores a proposal exactly for the current version of the cart.
      ensures lockGranted && key !in old(proposals).byKey && key != "" && |key| <= 128 && account != 0 && WellFormedProposal(items) ==>
        && (r.Ok? <==> expectedVersion == Version() && !saveFails)
        && (r.Ok? ==>
              && r.value.id == freshID && r.value.result.None? && r.value.expiresAt == inventory.now + 600_000_000_000
              && proposals == old(proposals).Put(r.value))
    {
      if account == 0 || key == "" || |key| > 128 {
        return Err(InvalidCartQuantity);
      }
      var ok := CheckProposalItems(items);
      if !ok {
        return Err(InvalidCartQuantity);
      }
      if !lockGranted {
        return Err(CartLocked);
      }
      if key in proposals.byKey {
        var existing := proposals.byKey[key];
        if existing.baseVersion != expectedVersion || existing.items != items {
          return Err(ProposalMismatch);
        }
        return Ok(existing);
      }
      var current := GetCart();
      if current.version != expectedVersion {
        return Err(VersionConflict);
      }
      var proposal := Proposal(freshID, key, expectedVersion, items, inventory.now + PROPOSAL_TTL, None);
      if saveFails {
        return Err(SaveFailed);
      }
      proposals := proposals.Put(proposal);
      r := Ok(proposal);
    }

    /** The checks before the first reservation: a replay, a refusal, or the current cart. */
    method OpenProposal(proposalID: string, lockGranted: bool)
      returns (replay: Option<Cart>, error: Option<CartError>, current: Cart)
      requires Valid()
      ensures replay.Some? <==> proposalID in proposals.byId && proposals.byId[proposalID].result.Some?
      ensures replay.Some? ==> proposals.byId[proposalID].result == replay && error.None?
      ensures error.Some? ==> NotOpen(State(), proposalID, lockGranted, error.value)
      ensures replay.None? && error.None? ==>
        && Open(State(), proposalID, lockGranted) && current.version == Version()
        && current.items == Lines() && Agree(current.items, inventory, account)
    {
      current := Cart(0, [], 0);
      if proposalID !in proposals.byId {
        return None, Some(CartNotFound), current;
      }
      var proposal := proposals.byId[proposalID];
      if proposal.result.Some? {
        return proposal.result, None, current;
      }
      if proposal.expiresAt <= inventory.now {
        return None, Some(ProposalExpired), current;
      }
      if !lockGranted {
        return None, Some(CartLocked), current;
      }
      current := GetCart();
      if current.version != proposal.baseVersion {
        return None, Some(VersionConflict), current;
      }
      if current.version == MAX_UINT64 {
        return None, Some(VersionExhausted), current;
      }
      replay, error := None, None;
    }

    /** Apply a proposal to the cart, or undo everything it did. */
    method ConfirmCartProposal(proposalID: string, others: Others, lockGranted: bool, saveFails: bool)
      returns (r: Result<Cart>, compensations: seq<Outcome>, ghost halt: Halt)
      requires Valid()
      requires Polite(others, Mine(Lines(), proposalID), inventory.now + CART_LOCK_TTL)
      modifies this
      ensures Valid()
      // A replay gives the stored result and does nothing; otherwise the proposal is refused untouched, for one
      // of the stated reasons, or it is open and applied or undone as a whole.
      ensures
        if proposalID in old(proposals).byId && old(proposals).byId[proposalID].result.Some? then
          r == Ok(old(proposals).byId[proposalID].result.value) && State() == old(State())
        else
          || (r.Err? && NotOpen(old(State()), proposalID, lockGranted, r.error) && State() == old(State()) && halt.done == 0)
          || (&& Open(old(State()), proposalID, lockGranted)
              && ConfirmOutcome(old(State()), State(), account, old(proposals).byId[proposalID], r, compensations, halt, saveFails))
    {
      var replay, error, current := OpenProposal(proposalID, lockGranted);
      if replay.Some? {
        return Ok(replay.value), [], Halt(inventory, [], [], 0);
      }
      if error.Some? {
        return Err(error.value), [], Halt(inventory, [], [], 0);
      }
      var after;
      r, compensations, after, halt :=
        ApplyOpen(CartState(cart, proposals, inventory), proposals.byId[proposalID], current, account, others, saveFails);
      cart, proposals, inventory := after.cart, after.proposals, after.inventory;
    }
  }
}
