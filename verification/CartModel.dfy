/** Carts, proposals, and what it means for a cart and the Inventory database to agree. */
module CartModel {
  import opened Width
  import opened Ledger
  import opened LedgerTheorems

  const SECOND: int := 1_000_000_000
  const RESERVATION_TTL: int := 900 * SECOND
  const CART_LOCK_TTL: int := 120 * SECOND
  const PROPOSAL_TTL: int := 600 * SECOND
  const MAX_PROPOSAL_ITEMS := 20
  const MAX_LINE_QUANTITY := 100
  // The source that the cart gives for its reservations.
  const CART: string := "cart"

  datatype CartItem = CartItem(productID: string, quantity: int32, reservationID: ReservationId, reservedUntil: int)

  datatype Cart = Cart(version: uint64, items: seq<CartItem>, expiresAt: int)

  datatype ProposalItem = ProposalItem(productID: string, quantity: int32)

  datatype Proposal = Proposal(
    id: string, key: string, baseVersion: uint64, items: seq<ProposalItem>, expiresAt: int, result: Option<Cart>)

  datatype CartError =
    | InvalidCartQuantity | VersionConflict | VersionExhausted | ProposalExpired | ProposalMismatch
    | CartNotFound | CartLocked | SaveFailed | FromInventory(failure: Failure)

  datatype Result<+T> = Ok(value: T) | Err(error: CartError)

  /** Inventory's wire format carries the expiry in whole seconds. */
  function Truncate(t: int): (s: int)
    ensures s <= t < s + SECOND
  {
    t / SECOND * SECOND
  }

  // ------------------------------------------------------------------- carts

  predicate DistinctProducts(items: seq<CartItem>) {
    forall i, j | 0 <= i < j < |items| :: items[i].productID != items[j].productID
  }

  predicate DistinctReservations(items: seq<CartItem>) {
    forall i, j | 0 <= i < j < |items| :: items[i].reservationID != items[j].reservationID
  }

  function Unexpired(items: seq<CartItem>, now: int): (r: seq<CartItem>)
    ensures |r| <= |items|
    ensures forall i | 0 <= i < |r| :: r[i] in items && r[i].reservedUntil > now
    ensures forall x | x in items && x.reservedUntil > now :: x in r
  {
    if items == [] then []
    else
      var n := |items| - 1;
      var r := Unexpired(items[..n], now);
      if items[n].reservedUntil > now then r + [items[n]] else r
  }

  lemma UnexpiredAppend(items: seq<CartItem>, x: CartItem, now: int)
    ensures Unexpired(items + [x], now) == Unexpired(items, now) + (if x.reservedUntil > now then [x] else [])
  {
    assert (items + [x])[..|items|] == items;
  }

  lemma Associate<T>(a: seq<T>, b: seq<T>, c: seq<T>)
    ensures a + b + c == a + (b + c)
  {
  }

  lemma LastApart<T>(a: seq<T>, b: seq<T>)
    requires b != []
    ensures b == b[..|b| - 1] + [b[|b| - 1]] && a + b == a + b[..|b| - 1] + [b[|b| - 1]]
  {
  }

  lemma UnexpiredJoin(a: seq<CartItem>, b: seq<CartItem>, x: CartItem, now: int)
    requires Unexpired(a + b, now) == Unexpired(a, now) + Unexpired(b, now)
    ensures Unexpired(a + b + [x], now) == Unexpired(a, now) + Unexpired(b + [x], now)
  {
    UnexpiredAppend(a + b, x, now);
    UnexpiredAppend(b, x, now);
    Associate(Unexpired(a, now), Unexpired(b, now), if x.reservedUntil > now then [x] else []);
  }

  /** What is kept stays in order. */
  lemma {:induction false} UnexpiredInOrder(a: seq<CartItem>, b: seq<CartItem>, now: int)
    ensures Unexpired(a + b, now) == Unexpired(a, now) + Unexpired(b, now)
    decreases |b|
  {
    if b == [] {
      assert a + b == a;
    } else {
      var n := |b| - 1;
      UnexpiredInOrder(a, b[..n], now);
      UnexpiredJoin(a, b[..n], b[n], now);
      LastApart(a, b);
    }
  }

  lemma {:induction false} UnexpiredDistinct(items: seq<CartItem>, now: int)
    requires DistinctProducts(items) && DistinctReservations(items)
    ensures DistinctProducts(Unexpired(items, now)) && DistinctReservations(Unexpired(items, now))
  {
    if items != [] {
      var n := |items| - 1;
      var r := Unexpired(items[..n], now);
      UnexpiredDistinct(items[..n], now);
      forall y | y in r ensures y.productID != items[n].productID && y.reservationID != items[n].reservationID {
        assert y in items[..n];
      }
      DistinctAppend(r, items[n]);
    }
  }

  lemma DistinctAppend(items: seq<CartItem>, x: CartItem)
    requires DistinctProducts(items) && DistinctReservations(items)
    requires forall y | y in items :: y.productID != x.productID && y.reservationID != x.reservationID
    ensures DistinctProducts(items + [x]) && DistinctReservations(items + [x])
  {
  }

  /** Units of a product in a list of lines. */
  function LineUnits(items: seq<CartItem>, p: string): int {
    if items == [] then 0
    else LineUnits(items[..|items| - 1], p) + (if items[|items| - 1].productID == p then items[|items| - 1].quantity else 0)
  }

  function ProposedUnits(items: seq<ProposalItem>, p: string): int {
    if items == [] then 0
    else ProposedUnits(items[..|items| - 1], p) + (if items[|items| - 1].productID == p then items[|items| - 1].quantity else 0)
  }

  lemma {:induction false} LineUnitsUpdate(items: seq<CartItem>, i: nat, x: CartItem, p: string)
    requires i < |items|
    ensures LineUnits(items[i := x], p) == LineUnits(items, p)
          - (if items[i].productID == p then items[i].quantity else 0) + (if x.productID == p then x.quantity else 0)
  {
    var n := |items| - 1;
    if i == n {
      assert items[i := x][..n] == items[..n];
    } else {
      assert items[i := x][..n] == items[..n][i := x];
      LineUnitsUpdate(items[..n], i, x, p);
    }
  }

  lemma LineUnitsAppend(items: seq<CartItem>, x: CartItem, p: string)
    ensures LineUnits(items + [x], p) == LineUnits(items, p) + (if x.productID == p then x.quantity else 0)
  {
    assert (items + [x])[..|items|] == items;
  }

  lemma {:induction false} LineUnitsAbsent(items: seq<CartItem>, p: string)
    requires forall i | 0 <= i < |items| :: items[i].productID != p
    ensures LineUnits(items, p) == 0
  {
    if items != [] { LineUnitsAbsent(items[..|items| - 1], p); }
  }

  /** In a cart of distinct products the units of a product are those of its line. */
  lemma {:induction false} LineUnitsOfLine(items: seq<CartItem>, i: nat)
    requires DistinctProducts(items) && i < |items|
    ensures LineUnits(items, items[i].productID) == items[i].quantity
  {
    var n := |items| - 1;
    if i == n {
      LineUnitsAbsent(items[..n], items[n].productID);
    } else {
      LineUnitsOfLine(items[..n], i);
    }
  }

  lemma {:induction false} LineUnitsRemove(items: seq<CartItem>, i: nat, p: string)
    requires i < |items|
    ensures LineUnits(items[..i] + items[i + 1..], p)
         == LineUnits(items, p) - (if items[i].productID == p then items[i].quantity else 0)
  {
    var n := |items| - 1;
    var s := items[..i] + items[i + 1..];
    if i == n {
      assert s == items[..n];
    } else {
      assert s[..n - 1] == items[..n][..i] + items[..n][i + 1..];
      LineUnitsRemove(items[..n], i, p);
    }
  }

  /** The product has the requested units, on top of its own when incrementing; the others keep theirs. */
  ghost predicate SetTo(before: seq<CartItem>, after: seq<CartItem>, product: string, requested: int, increment: bool) {
    && LineUnits(after, product) == requested + (if increment then LineUnits(before, product) else 0)
    && forall p | p != product :: LineUnits(after, p) == LineUnits(before, p)
  }

  /** Every line is as it was or was reserved again, for fifteen minutes from `since` at least, less the
      part of a second that the wire format drops. */
  ghost predicate Renewed(before: seq<CartItem>, after: seq<CartItem>, since: int) {
    forall x | x in after :: x in before || x.reservedUntil > since + RESERVATION_TTL - SECOND
  }

  /** What CreateCartProposal checks before it stores a proposal. */
  predicate WellFormedProposal(items: seq<ProposalItem>) {
    && 1 <= |items| <= 20
    && (forall i | 0 <= i < |items| ::
          items[i].productID != "" && |items[i].productID| <= 128 && 1 <= items[i].quantity <= 100)
    && (forall i, j | 0 <= i < j < |items| :: items[i].productID != items[j].productID)
  }

  /** The two Redis keys of a proposal: by its id and by its idempotency key. */
  datatype ProposalStore = ProposalStore(byId: map<string, Proposal>, byKey: map<string, Proposal>) {
    function Put(p: Proposal): ProposalStore {
      ProposalStore(byId[p.id := p], byKey[p.key := p])
    }

    /** Stored proposals are well formed and filed under their own id and key. */
    ghost predicate Filed() {
      && (forall id | id in byId :: byId[id].id == id && WellFormedProposal(byId[id].items))
      && (forall key | key in byKey :: byKey[key].key == key && WellFormedProposal(byKey[key].items))
    }
  }

  /** What one account's cart service sees. */
  datatype CartState = CartState(cart: Option<Cart>, proposals: ProposalStore, inventory: Db) {
    function Items(): seq<CartItem> {
      if cart.Some? then cart.value.items else []
    }

    /** The lines a reader sees. */
    function Lines(): seq<CartItem> {
      Unexpired(Items(), inventory.now)
    }

    function Version(): uint64 {
      if cart.Some? then cart.value.version else 0
    }
  }

  // --------------------------------------------------- cart and inventory agree

  /** The line's reservation is active with the line's product, account and quantity, for at least
      as long as the line itself claims. */
  ghost predicate Backed(item: CartItem, db: Db, account: nat) {
    match Lookup(db.rows, item.reservationID)
    case None => false
    case Some(r) =>
      && r.status == Active && r.product == item.productID && r.account == account
      && r.quantity == item.quantity && item.reservedUntil <= r.expiresAt
  }

  ghost predicate Agree(items: seq<CartItem>, db: Db, account: nat) {
    && DistinctProducts(items) && DistinctReservations(items)
    && (forall x | x in items ::
          && x.reservationID != Blank
          && (x.reservationID.ForProposal? ==> x.reservationID.productId == x.productID)
          && x.reservedUntil <= db.now + RESERVATION_TTL)
    && (forall x | x in items && x.reservedUntil > db.now :: Backed(x, db, account))
  }

  /** The live quantity held under an id. */
  function Held(db: Db, id: ReservationId): int {
    match Lookup(db.rows, id)
    case None => 0
    case Some(r) => if Live(r, db.now) then r.quantity else 0
  }

  // ------------------------------------------------------------ interference

  /** How a row changes when nobody but the clock touches it. */
  predicate Aged(before: Option<Reservation>, after: Option<Reservation>, now: int) {
    || after == before
    || (&& before.Some? && before.value.status == Active && before.value.expiresAt <= now
        && after == Some(before.value.(status := Expired)))
  }

  /** What other accounts may do to the Inventory database between two calls of one cart operation:
      anything that keeps its invariants and leaves the operation's own ids to the clock. */
  ghost predicate Interferes(before: Db, after: Db, mine: iset<ReservationId>, deadline: int) {
    && Sound(after) && NoOversell(after)
    && before.now <= after.now <= deadline
    && before.stocks.Keys <= after.stocks.Keys
    && (forall id | id in mine :: Aged(Lookup(before.rows, id), Lookup(after.rows, id), after.now))
  }

  /** The behaviour of the other accounts: the database the n-th call finds, given the one the
      previous call left. */
  type Others = (nat, Db) -> Db

  ghost predicate Polite(others: Others, mine: iset<ReservationId>, deadline: int) {
    forall k: nat, db: Db | Sound(db) && NoOversell(db) && db.now <= deadline ::
      Interferes(db, others(k, db), mine, deadline)
  }

  function Names(op: Op): set<ReservationId> {
    match op
    case Reserve(id, _, _, _, _, _) => {id}
    case Release(id) => {id}
    case Commit(id) => {id}
    case _ => {}
  }

  /** Interference covers every run of other accounts' transactions that reduces no stock by hand. */
  lemma {:induction false} RunsInterfere(db: Db, ops: seq<Op>, mine: iset<ReservationId>)
    requires Sound(db) && NoOversell(db) && NonReducingRun(db, ops)
    requires forall i | 0 <= i < |ops| :: forall id | id in Names(ops[i]) :: id !in mine
    ensures Interferes(db, Run(db, ops), mine, Run(db, ops).now)
    decreases |ops|
  {
    RunSound(db, ops);
    RunNoOversell(db, ops);
    if ops != [] {
      var db' := Step(db, ops[0]).0;
      StepSound(db, ops[0]);
      StepNoOversell(db, ops[0]);
      RunSound(db', ops[1..]);
      RunsInterfere(db', ops[1..], mine);
      forall id | id in mine ensures Aged(Lookup(db.rows, id), Lookup(Run(db, ops).rows, id), Run(db, ops).now) {
        assert id !in Names(ops[0]);
        StepAges(db, ops[0], id);
      }
    }
  }

  lemma TransitionAges(db: Db, rid: ReservationId, next: Status, id: ReservationId)
    requires Sound(db) && id != rid && next != Active
    ensures Aged(Lookup(db.rows, id), Lookup(Transition(db, rid, next).0.rows, id), db.now)
  {
    if Transition(db, rid, next).1.Reply? {
      TransitionRows(db, rid, next, id);
      LookupSweep(db.rows, db.now, "", id);
    }
  }

  /** A transaction that does not name an id at most expires its row. */
  lemma StepAges(db: Db, op: Op, id: ReservationId)
    requires Sound(db) && id !in Names(op)
    ensures Aged(Lookup(db.rows, id), Lookup(Step(db, op).0.rows, id), db.now)
  {
    match op
    case Reserve(rid, account, p, q, expiresAt, source) =>
      if Step(db, op).1.Reply? {
        ReserveRows(db, rid, account, p, q, expiresAt, source);
        LookupSweep(db.rows, db.now, p, id);
      }
    case Release(rid) => TransitionAges(db, rid, Released, id);
    case Commit(rid) => TransitionAges(db, rid, Committed, id);
    case Cleanup => LookupSweep(db.rows, db.now, "", id);
    case _ =>
  }

  /** Agreement survives interference: a line either keeps its backing or has itself expired. */
  lemma AgreeSurvives(items: seq<CartItem>, before: Db, after: Db, account: nat)
    requires Agree(items, before, account) && before.now <= after.now
    requires forall x | x in items && x.reservedUntil > after.now ::
      Aged(Lookup(before.rows, x.reservationID), Lookup(after.rows, x.reservationID), after.now)
    ensures Agree(items, after, account)
  {
    forall x | x in items && x.reservedUntil > after.now ensures Backed(x, after, account) {
      assert Backed(x, before, account);
    }
  }

  /** Agreement only needs the lines it speaks of. */
  lemma AgreeSubset(items: seq<CartItem>, fewer: seq<CartItem>, db: Db, account: nat)
    requires Agree(items, db, account) && DistinctProducts(fewer) && DistinctReservations(fewer)
    requires forall x | x in fewer :: x in items
    ensures Agree(fewer, db, account)
  {
  }

  /** A line may be replaced by one that a fresh call on the same reservation backs. */
  lemma AgreeReplace(items: seq<CartItem>, i: nat, x: CartItem, before: Db, after: Db, account: nat)
    requires Agree(items, before, account) && i < |items| && after.now == before.now
    requires x.productID == items[i].productID && x.reservationID == items[i].reservationID
    requires Backed(x, after, account) && x.reservedUntil <= after.now + RESERVATION_TTL
    requires forall id | id != x.reservationID :: Aged(Lookup(before.rows, id), Lookup(after.rows, id), after.now)
    ensures Agree(items[i := x], after, account)
  {
    var s := items[i := x];
    forall y | y in s
      ensures y.reservationID != Blank && (y.reservationID.ForProposal? ==> y.reservationID.productId == y.productID)
      ensures y.reservedUntil <= after.now + RESERVATION_TTL
      ensures y.reservedUntil > after.now ==> Backed(y, after, account)
    {
      var j :| 0 <= j < |s| && s[j] == y;
      if j != i {
        assert y == items[j] && y in items && y.reservationID != items[i].reservationID;
      } else {
        assert items[i] in items;
      }
    }
  }

  /** A line of a product not yet in the cart may be added on a reservation no other line uses. */
  lemma AgreeAppend(items: seq<CartItem>, x: CartItem, before: Db, after: Db, account: nat)
    requires Agree(items, before, account) && after.now == before.now
    requires forall y | y in items :: y.productID != x.productID && y.reservationID != x.reservationID
    requires x.reservationID != Blank && (x.reservationID.ForProposal? ==> x.reservationID.productId == x.productID)
    requires Backed(x, after, account) && x.reservedUntil <= after.now + RESERVATION_TTL
    requires forall id | id != x.reservationID :: Aged(Lookup(before.rows, id), Lookup(after.rows, id), after.now)
    ensures Agree(items + [x], after, account)
  {
    AgreeSurvives(items, before, after, account);
  }

  // --------------------------------------------------------- the calls it makes

  /** One request for a product, fifteen minutes long, as every cart makes it. */
  function Request(db: Db, id: ReservationId, account: nat, p: string, q: int32): (Db, Outcome) {
    ReserveStock(db, id, account, p, q, db.now + RESERVATION_TTL, CART)
  }

  /** Of all rows but one's own a transaction at most expires some. */
  ghost predicate OthersAge(at: Db, after: Db, id: ReservationId) {
    forall other | other != id :: Aged(Lookup(at.rows, other), Lookup(after.rows, other), at.now)
  }

  lemma StepAgesOthers(db: Db, op: Op, id: ReservationId)
    requires Sound(db) && Names(op) <= {id}
    ensures OthersAge(db, Step(db, op).0, id)
  {
    forall other | other != id ensures Aged(Lookup(db.rows, other), Lookup(Step(db, op).0.rows, other), db.now) {
      StepAges(db, op, other);
    }
  }

  lemma ReserveCall(db: Db, id: ReservationId, account: nat, p: string, q: int32, expiresAt: int, source: string)
    requires Sound(db) && NoOversell(db)
    ensures var (after, outcome) := ReserveStock(db, id, account, p, q, expiresAt, source);
      ReserveAnswered(db, after, outcome, id, account, p, q, expiresAt, source)
  {
    var op := Reserve(id, account, p, q, expiresAt, source);
    StepSound(db, op);
    StepNoOversell(db, op);
    StepAgesOthers(db, op, id);
    if Step(db, op).1.Reply? {
      ReserveRows(db, id, account, p, q, expiresAt, source);
    }
  }

  /** What a request for `q` units can answer, and what it leaves behind. */
  ghost predicate Answered(at: Db, after: Db, outcome: Outcome, id: ReservationId, account: nat, p: string, q: int32) {
    && ReserveAnswered(at, after, outcome, id, account, p, q, at.now + RESERVATION_TTL, CART)
    && (Over(at, id) ==> outcome.Refused?)
  }

  ghost predicate ReserveAnswered(at: Db, after: Db, outcome: Outcome, id: ReservationId, account: nat, p: string, q: int32,
                                  expiresAt: int, source: string)
  {
    && Sound(after) && NoOversell(after) && after.now == at.now && after.stocks == at.stocks
    && (outcome.Reply? || (outcome.Refused? && after == at))
    && (outcome.Reply? ==>
          && q > 0 && Lookup(after.rows, id) == Some(outcome.reservation)
          && outcome.reservation == Reservation(id, account, p, q, Active, source, expiresAt))
    && OthersAge(at, after, id)
  }

  lemma RequestAnswered(at: Db, after: Db, outcome: Outcome, id: ReservationId, account: nat, p: string, q: int32)
    requires Sound(at) && NoOversell(at) && (after, outcome) == Request(at, id, account, p, q)
    ensures Answered(at, after, outcome, id, account, p, q)
  {
    ReserveCall(at, id, account, p, q, at.now + RESERVATION_TTL, CART);
    OverRefused(at, id, account, p, q);
  }

  /** A used-up id is refused whenever it is asked for. */
  lemma OverRefused(db: Db, id: ReservationId, account: nat, p: string, q: int32)
    requires Sound(db)
    ensures Over(db, id) ==> Request(db, id, account, p, q).1.Refused?
  {
    ReserveAccepts(db, id, account, p, q, db.now + RESERVATION_TTL, CART);
  }

  /** An emptied cart, kept for a full term. */
  predicate Emptied(cart: Option<Cart>, version: int, now: int) {
    cart.Some? && cart.value.version == version && cart.value.items == [] && cart.value.expiresAt == now + 900_000_000_000
  }

  /** What a release can answer, and what it leaves behind. */
  ghost predicate ReleaseAnswered(at: Db, after: Db, outcome: Outcome, id: ReservationId) {
    && Sound(after) && NoOversell(after) && after.now == at.now && after.stocks == at.stocks
    && (outcome.Reply? || outcome.Refused?) && OthersAge(at, after, id)
    && (Lookup(at.rows, id).Some? ==> outcome.Reply? && Over(after, id) && Held(after, id) == 0)
  }

  lemma ReleaseMoves(db: Db, id: ReservationId)
    requires Sound(db)
    ensures var (after, outcome) := Transition(db, id, Released);
      && after.now == db.now && after.stocks == db.stocks && (outcome.Reply? || outcome.Refused?)
      && (Lookup(db.rows, id).Some? ==> outcome.Reply? && Over(after, id) && Held(after, id) == 0)
  {
    LookupSweep(db.rows, db.now, "", id);
    TransitionForward(db, id, Released, id);
  }

  lemma ReleaseCall(db: Db, id: ReservationId)
    requires Sound(db) && NoOversell(db)
    ensures var (after, outcome) := Transition(db, id, Released);
      ReleaseAnswered(db, after, outcome, id)
  {
    var op := Release(id);
    StepSound(db, op);
    StepNoOversell(db, op);
    StepAgesOthers(db, op, id);
    ReleaseMoves(db, id);
  }

  /** The call asks a live reservation for no more than it holds. */
  predicate Lowers(db: Db, id: ReservationId, p: string, q: int32) {
    && id != Blank && Lookup(db.rows, id).Some? && Live(Lookup(db.rows, id).value, db.now)
    && Lookup(db.rows, id).value.product == p && 0 < q <= Lookup(db.rows, id).value.quantity
  }

  /** A live reservation can always be lowered to a smaller quantity: with no oversell the
      compensating call is never refused, whatever the other accounts reserved meanwhile. */
  lemma LoweringAccepted(db: Db, id: ReservationId, account: nat, p: string, q: int32, expiresAt: int, source: string)
    requires Sound(db) && NoOversell(db) && Lowers(db, id, p, q)
    ensures ReserveStock(db, id, account, p, q, expiresAt, source).1.Reply?
  {
    ReserveAccepts(db, id, account, p, q, expiresAt, source);
    ReservedSplit(db.rows, Find(db.rows, id), p, db.now);
  }
}
