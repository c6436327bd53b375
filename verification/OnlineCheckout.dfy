/**
  Online checkout: the session is opened for the snapshot's items, and the reservations are settled when the
  payment is.  The cart stays as it is in between, and anybody may change it.
*/
module OnlineCheckout {
  import opened Width
  import opened Ledger
  import opened LedgerTheorems
  import opened CartModel
  import opened CommitLog
  import opened Covering
  import CheckoutHash
  import IdList
  import Text
  import OrderMatch
  import opened OrderServer
  import Orders
  import PaymentEffects
  import PaymentService
  import Payments
  import PaymentTheorems

  /** The snapshot's items as Payment is asked for them. */
  function PayItems(lines: seq<CartItem>): (items: seq<PaymentService.CartItem>)
    ensures |items| == |lines|
  {
    seq(|lines|, i requires 0 <= i < |lines| => PaymentService.CartItem(lines[i].productID, Quantity(lines[i].quantity)))
  }

  /** A session is opened only for an order of exactly the snapshot's items. */
  lemma SessionIsForSnapshot(mirror: map<string, PaymentService.Product>, catalog: map<string, int64>, user: nat, pending: bool,
                             order: Orders.Order, lines: seq<CartItem>, db: Db)
    requires Known(lines, db) && GoodLines(order.lines)
    requires PaymentService.Due(mirror, catalog, user, PayItems(lines), Some(order), pending).Some?
    ensures multiset(order.lines) == multiset(Items(lines))
  {
    var quantities := PaymentService.Quantities(PayItems(lines));
    OrderMatch.MatchesExactly(order.lines, quantities);
    ItemsGood(lines, db);
    PaymentService.QuantitiesKeys(PayItems(lines));
    forall y ensures y in order.lines <==> y in Items(lines) {
      if y in order.lines { OrderedIsItem(order.lines, lines, db, y); }
      if y in Items(lines) { ItemIsOrdered(order.lines, lines, db, y); }
    }
    SameElements(order.lines, Items(lines));
  }

  lemma OrderedIsItem(stored: seq<CheckoutHash.Item>, lines: seq<CartItem>, db: Db, y: CheckoutHash.Item)
    requires Known(lines, db) && PaymentService.ValidItems(PayItems(lines))
    requires OrderMatch.SameCart(stored, PaymentService.Quantities(PayItems(lines))) && y in stored
    ensures y in Items(lines)
  {
    var k :| 0 <= k < |stored| && stored[k] == y;
    assert y.id in OrderMatch.Ids(stored);
    PaymentService.QuantitiesKeys(PayItems(lines));
    var i :| 0 <= i < |lines| && PayItems(lines)[i].productId == y.id;
    PaymentService.QuantityOfItem(PayItems(lines), i);
    assert Items(lines)[i] == y;
  }

  lemma ItemIsOrdered(stored: seq<CheckoutHash.Item>, lines: seq<CartItem>, db: Db, y: CheckoutHash.Item)
    requires Known(lines, db) && PaymentService.ValidItems(PayItems(lines))
    requires OrderMatch.SameCart(stored, PaymentService.Quantities(PayItems(lines))) && y in Items(lines)
    ensures y in stored
  {
    var i :| 0 <= i < |lines| && Items(lines)[i] == y;
    PaymentService.QuantityOfItem(PayItems(lines), i);
    assert y.id in OrderMatch.Ids(stored);
    var k :| 0 <= k < |stored| && stored[k].id == y.id;
    assert stored[k] == y;
  }

  // ----------------------------------------------------------- paid and taken

  /** From the session to the effects: over any run of anybody's transactions between the snapshot and the
      payment, and between the calls of its effects, the effects take exactly the units of the paid order if and
      only if the first commit of every line that arrives meets its reservation active, within its term and with
      the ordered quantity.  Each reservation is deducted at most once, whatever answers are lost and repeated. */
  lemma PaidExactly(snapshot: Db, between: seq<Op>, log: seq<Entry>, lines: seq<CartItem>, ids: set<ReservationId>,
                    mirror: map<string, PaymentService.Product>, catalog: map<string, int64>, user: nat, pending: bool, order: Orders.Order)
    requires Sound(snapshot) && NoOversell(snapshot) && Known(lines, snapshot) && GoodLines(order.lines)
    requires PaymentService.Due(mirror, catalog, user, PayItems(lines), Some(order), pending).Some?
    requires Admitted(snapshot, between, lines) && ids <= ReservationsOf(lines)
    requires Reached(Play(snapshot, Foreign(between)), log, Play(Play(snapshot, Foreign(between)), log), ids, lines, true)
    ensures var start := Play(snapshot, Foreign(between));
      Covers(start, log, order.lines) <==> forall x | x in lines :: Honoured(start, log, x)
  {
    SessionIsForSnapshot(mirror, catalog, user, pending, order, lines, snapshot);
    OngoingPlay(snapshot, Foreign(between), lines, true);
    OrderCovered(Play(snapshot, Foreign(between)), log, lines, order.lines);
  }

  /** The list that the transaction stores names exactly the snapshot's reservations. */
  lemma StoredIdsAreLines(lines: seq<CartItem>, texts: seq<string>, names: string -> ReservationId)
    requires |texts| == |lines| && forall i | 0 <= i < |lines| :: IdList.PlainId(texts[i]) && names(texts[i]) == lines[i].reservationID
    ensures PaymentEffects.Named(IdList.IdsOf(Text.Join(texts)), names) == ReservationsOf(lines)
  {
    IdList.PlainRoundTrip(texts);
    forall x | x in lines ensures x.reservationID in PaymentEffects.Named(texts, names) {
      var i :| 0 <= i < |lines| && lines[i] == x;
      assert names(texts[i]) == x.reservationID;
    }
    forall i | 0 <= i < |texts| ensures names(texts[i]) in ReservationsOf(lines) {
      assert lines[i] in lines;
    }
  }

  // --------------------------------------------------------- never repeated

  /** Effects whose calls did not arrive are lost: once the payment is confirmed every later callback of it is
      answered otherwise, so that no effects are started again, and then nothing that anybody does covers the
      paid order. */
  lemma NeverRepeated(s: Payments.System, first: PaymentTheorems.Block, blocks: seq<PaymentTheorems.Block>, again: PaymentTheorems.Block,
                      start: Db, log: seq<Entry>, more: seq<Op>, lines: seq<CartItem>, stored: seq<CheckoutHash.Item>, x: CartItem)
    requires Payments.Inv(s) && PaymentTheorems.Quiet(s) && first.Ipn? && PaymentTheorems.Serial(s, first)
    requires PaymentTheorems.Answer(s, first) == Some(Payments.Confirmed)
    requires PaymentTheorems.SerialRun(Payments.Run(s, PaymentTheorems.Actions(first)), blocks)
    requires again.Ipn? && again.ref == first.ref
    requires PaymentTheorems.Serial(PaymentTheorems.RunBlocks(Payments.Run(s, PaymentTheorems.Actions(first)), blocks), again)
    requires Ongoing(start, log + Foreign(more), lines, true) && x in lines && !Arrives(log, x.reservationID)
    requires GoodLines(stored) && multiset(stored) == multiset(Items(lines))
    ensures PaymentTheorems.Answer(PaymentTheorems.RunBlocks(Payments.Run(s, PaymentTheorems.Actions(first)), blocks), again)
         != Some(Payments.Confirmed)
    ensures Taken(start, log + Foreign(more), x.productID) == 0 && !Covers(start, log + Foreign(more), stored)
  {
    PaymentTheorems.ConfirmedOnce(s, first, blocks, again);
    ArrivesConcat(log, Foreign(more), x.reservationID);
    SilentNotArrives(Foreign(more), x.reservationID);
    NotArrivedNotMet(start, log + Foreign(more), x.reservationID);
    TakenIsMet(start, log + Foreign(more), lines, x);
    OrderCovered(start, log + Foreign(more), lines, stored);
  }

  lemma {:induction false} SilentNotArrives(log: seq<Entry>, id: ReservationId)
    requires Silent(log)
    ensures !Arrives(log, id)
    decreases |log|
  {
    if log != [] { SilentNotArrives(log[1..], id); }
  }

  lemma {:induction false} NotArrivedNotMet(db: Db, log: seq<Entry>, id: ReservationId)
    requires !Arrives(log, id)
    ensures Met(db, log, id) == None
    decreases |log|
  {
    if log != [] { NotArrivedNotMet(Step(db, log[0].op).0, log[1..], id); }
  }
}
