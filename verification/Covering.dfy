/** When an order's lines are exactly what its checkout takes out of stock. */
module Covering {
  import opened Width
  import opened Ledger
  import opened CartModel
  import opened CommitLog
  import opened CheckoutHash
  import opened OrderServer
  import Sums

  /** The conversion of an int32 to uint32. */
  function Quantity(q: int32): nat {
    if q >= 0 then q else q + 0x1_0000_0000
  }

  /** The lines of a cart as Order is asked for them. */
  function Items(lines: seq<CartItem>): (items: seq<Item>)
    ensures |items| == |lines|
  {
    seq(|lines|, i requires 0 <= i < |lines| => Item(lines[i].productID, Quantity(lines[i].quantity)))
  }

  /** The order's lines are exactly the units that the own calls take out of stock. */
  ghost predicate Covers(db: Db, log: seq<Entry>, stored: seq<Item>) {
    forall p :: Taken(db, log, p) == Units(stored, p)
  }

  ghost predicate Within(stored: seq<Item>, lines: seq<CartItem>) {
    forall y | y in stored :: exists x :: x in lines && x.productID == y.id
  }

  lemma UnitsOfItem(stored: seq<Item>, y: Item)
    requires GoodLines(stored) && y in stored
    ensures Units(stored, y.id) == y.quantity > 0
  {
    var i :| 0 <= i < |stored| && stored[i] == y;
    UnitsOfLine(stored, i);
  }

  /** An order covers a checkout if and only if it has only products of the snapshot and, of each of its lines,
      as many units as the first own commit meets on the line's live reservation. */
  lemma CoversExactly(db: Db, log: seq<Entry>, lines: seq<CartItem>, stored: seq<Item>)
    requires Ongoing(db, log, lines, true) && GoodLines(stored)
    ensures Covers(db, log, stored) <==>
      Within(stored, lines) && forall x | x in lines :: Amount(Met(db, log, x.reservationID)) == Units(stored, x.productID)
  {
    forall x | x in lines ensures Taken(db, log, x.productID) == Amount(Met(db, log, x.reservationID)) {
      TakenIsMet(db, log, lines, x);
    }
    forall p | forall x | x in lines :: x.productID != p ensures Taken(db, log, p) == 0 {
      TakenElsewhere(db, log, lines, p);
    }
    if Covers(db, log, stored) {
      forall y | y in stored ensures exists x :: x in lines && x.productID == y.id {
        UnitsOfItem(stored, y);
      }
    } else {
      var p :| Taken(db, log, p) != Units(stored, p);
      if forall x | x in lines :: x.productID != p {
        if Within(stored, lines) { UnitsAbsent(stored, p); }
      }
    }
  }

  lemma ItemsGood(lines: seq<CartItem>, db: Db)
    requires Known(lines, db)
    ensures GoodLines(Items(lines))
  {
    forall i | 0 <= i < |lines| ensures Items(lines)[i].quantity > 0 && Items(lines)[i].id != "" {
      assert lines[i] in lines;
    }
  }

  lemma SameElements(a: seq<Item>, b: seq<Item>)
    requires GoodLines(a) && GoodLines(b) && forall x :: x in a <==> x in b
    ensures multiset(a) == multiset(b)
  {
    var key := (x: Item) => x.id;
    assert Sums.DistinctBy(a, key) && Sums.DistinctBy(b, key);
    forall x ensures multiset(a)[x] == multiset(b)[x] {
      Sums.CountOne(a, key, x);
      Sums.CountOne(b, key, x);
    }
  }

  lemma ItemOfLine(lines: seq<CartItem>, x: CartItem)
    requires x in lines && x.quantity > 0
    ensures Item(x.productID, x.quantity) in Items(lines)
  {
    var i :| 0 <= i < |lines| && lines[i] == x;
    assert Items(lines)[i] == Item(x.productID, x.quantity);
  }

  lemma ItemsWithin(lines: seq<CartItem>, stored: seq<Item>)
    requires forall y | y in stored :: y in Items(lines)
    ensures Within(stored, lines)
  {
    forall y | y in stored ensures exists x :: x in lines && x.productID == y.id {
      var i :| 0 <= i < |lines| && Items(lines)[i] == y;
      assert lines[i] in lines;
    }
  }

  lemma UnitsOfCartLine(lines: seq<CartItem>, db: Db, x: CartItem)
    requires Known(lines, db) && x in lines
    ensures Units(Items(lines), x.productID) == x.quantity
  {
    ItemsGood(lines, db);
    ItemOfLine(lines, x);
    UnitsOfItem(Items(lines), Item(x.productID, x.quantity));
  }

  lemma {:induction false} MetPositive(db: Db, log: seq<Entry>, lines: seq<CartItem>, x: CartItem)
    requires Ongoing(db, log, lines, true) && x in lines && Met(db, log, x.reservationID).Some?
    ensures Met(db, log, x.reservationID).value.quantity > 0
    decreases |log|
  {
    if log[0] != Entry(Commit(x.reservationID), true) {
      OngoingStep(db, log, lines, true);
      MetPositive(Step(db, log[0].op).0, log[1..], lines, x);
    } else {
      assert Lookup(db.rows, x.reservationID).value == db.rows[Find(db.rows, x.reservationID)];
    }
  }

  lemma AmountExactly(db: Db, log: seq<Entry>, lines: seq<CartItem>, x: CartItem)
    requires Ongoing(db, log, lines, true) && x in lines
    ensures Amount(Met(db, log, x.reservationID)) == 0 <==> Met(db, log, x.reservationID).None?
    ensures Amount(Met(db, log, x.reservationID)) == x.quantity <==> Honoured(db, log, x)
  {
    if Met(db, log, x.reservationID).Some? { MetPositive(db, log, lines, x); }
  }

  /** An order of the snapshot's items covers the checkout, over any run of anybody's transactions since the
      snapshot, if and only if the first own commit of every line meets its reservation active, within its term
      and with the ordered quantity. */
  lemma OrderCovered(db: Db, log: seq<Entry>, lines: seq<CartItem>, stored: seq<Item>)
    requires Ongoing(db, log, lines, true) && GoodLines(stored) && multiset(stored) == multiset(Items(lines))
    ensures Covers(db, log, stored) <==> forall x | x in lines :: Honoured(db, log, x)
  {
    ItemsGood(lines, db);
    UnitsDetermine(stored, Items(lines));
    forall y | y in stored ensures y in Items(lines) {
      assert y in multiset(stored);
    }
    ItemsWithin(lines, stored);
    forall x | x in lines
      ensures Units(stored, x.productID) == x.quantity
      ensures Amount(Met(db, log, x.reservationID)) == x.quantity <==> Honoured(db, log, x)
    {
      UnitsOfCartLine(lines, db, x);
      AmountExactly(db, log, lines, x);
    }
    CoversExactly(db, log, lines, stored);
  }

  lemma UnitsMatched(lines: seq<CartItem>, db: Db, known: set<string>, x: CartItem)
    requires Known(lines, db) && x in lines
    ensures Units(Matched(Items(lines), known), x.productID) == if x.productID in known then x.quantity else 0
  {
    ItemsGood(lines, db);
    MatchedGood(Items(lines), known);
    MatchedFrom(Items(lines), known);
    if x.productID in known {
      ItemOfLine(lines, x);
      UnitsOfItem(Matched(Items(lines), known), Item(x.productID, x.quantity));
    } else {
      UnitsAbsent(Matched(Items(lines), known), x.productID);
    }
  }

  /** A new order of the products that the catalog returns covers the checkout if and only if every known line is
      met as it was ordered and no live reservation is met for any other. */
  lemma NewOrderCovers(db: Db, log: seq<Entry>, lines: seq<CartItem>, known: set<string>)
    requires Ongoing(db, log, lines, true)
    ensures Covers(db, log, Matched(Items(lines), known)) <==>
      forall x | x in lines :: if x.productID in known then Honoured(db, log, x) else Met(db, log, x.reservationID).None?
  {
    ItemsGood(lines, db);
    MatchedGood(Items(lines), known);
    MatchedFrom(Items(lines), known);
    ItemsWithin(lines, Matched(Items(lines), known));
    forall x | x in lines
      ensures Amount(Met(db, log, x.reservationID)) == Units(Matched(Items(lines), known), x.productID) <==>
        if x.productID in known then Honoured(db, log, x) else Met(db, log, x.reservationID).None?
    {
      UnitsMatched(lines, db, known, x);
      AmountExactly(db, log, lines, x);
    }
    CoversExactly(db, log, lines, Matched(Items(lines), known));
  }

  // ------------------------------------------- requests of the same account

  /** The failing run: after the snapshot the account removes a line.  Every later commit is accepted, and whatever
      follows the order is not covered. */
  lemma RemovedNotCovered(db: Db, rest: seq<Entry>, lines: seq<CartItem>, x: CartItem, stored: seq<Item>)
    requires Ongoing(db, [Entry(Release(x.reservationID), false)] + rest, lines, true) && x in lines
    requires GoodLines(stored) && multiset(stored) == multiset(Items(lines))
    ensures var log := [Entry(Release(x.reservationID), false)] + rest;
      && Taken(db, log, x.productID) == 0 && !Covers(db, log, stored)
      && Step(Play(db, log), Commit(x.reservationID)).1.Reply?
  {
    RemovedNotTaken(db, rest, lines, x);
    OrderCovered(db, [Entry(Release(x.reservationID), false)] + rest, lines, stored);
  }

  /** The other one: it changes the line's quantity.  The new quantity is taken for the old order. */
  lemma ChangedNotCovered(db: Db, account: nat, quantity: int32, expiresAt: int, source: string, rest: seq<Entry>, lines: seq<CartItem>,
                          x: CartItem, stored: seq<Item>)
    requires x in lines && expiresAt > db.now && quantity != x.quantity
    requires var op := Reserve(x.reservationID, account, x.productID, quantity, expiresAt, source);
      && Step(db, op).1.Reply?
      && Ongoing(db, [Entry(op, false), Entry(Commit(x.reservationID), true)] + rest, lines, true)
    requires GoodLines(stored) && multiset(stored) == multiset(Items(lines))
    ensures var op := Reserve(x.reservationID, account, x.productID, quantity, expiresAt, source);
      var log := [Entry(op, false), Entry(Commit(x.reservationID), true)] + rest;
      && Taken(db, log, x.productID) == quantity != Units(stored, x.productID) && !Covers(db, log, stored)
  {
    ChangedIsTaken(db, account, quantity, expiresAt, source, rest, lines, x);
    ItemsGood(lines, db);
    UnitsDetermine(stored, Items(lines));
    UnitsOfCartLine(lines, db, x);
  }

  /** The third: the same cart was checked out before, and the calls of that checkout have arrived.  The second
      order takes nothing, and its commits are accepted. */
  lemma SecondNotCovered(db: Db, first: seq<Entry>, second: seq<Entry>, lines: seq<CartItem>, x: CartItem, stored: seq<Item>)
    requires Ongoing(db, first, lines, true) && forall y | y in lines :: Arrives(first, y.reservationID)
    requires Fair(Play(db, first), second) && Stable(second, lines) && Allowed(second, ReservationsOf(lines), true)
    requires x in lines && GoodLines(stored) && multiset(stored) == multiset(Items(lines))
    ensures forall p :: Taken(Play(db, first), second, p) == 0
    ensures !Covers(Play(db, first), second, stored)
    ensures forall y | y in lines :: Step(Play(Play(db, first), second), Commit(y.reservationID)).1.Reply?
  {
    forall p ensures Taken(Play(db, first), second, p) == 0 {
      SecondTakesNothing(db, first, second, lines, p);
    }
    SecondTakesNothing(db, first, second, lines, x.productID);
    ItemsGood(lines, db);
    UnitsDetermine(stored, Items(lines));
    UnitsOfCartLine(lines, db, x);
  }

  // ------------------------------------------------- undisturbed and complete

  /** Every line is on a hold of its quantity until after the last call, nobody else names it, and a commit of it
      arrives: what an account can expect that leaves its cart alone, however often calls are repeated. */
  ghost predicate Quiet(db: Db, log: seq<Entry>, lines: seq<CartItem>, account: nat) {
    forall x | x in lines ::
      && Backed(x, db, account) && x.reservedUntil > Play(db, log).now
      && Undisturbed(log, x.reservationID) && Arrives(log, x.reservationID)
  }

  lemma QuietTakesItems(db: Db, log: seq<Entry>, lines: seq<CartItem>, account: nat)
    requires Ongoing(db, log, lines, true) && Quiet(db, log, lines, account)
    ensures Covers(db, log, Items(lines))
  {
    ItemsGood(lines, db);
    forall x | x in lines ensures Honoured(db, log, x) {
      QuietHonoured(db, log, lines, x, account);
    }
    OrderCovered(db, log, lines, Items(lines));
  }
}
