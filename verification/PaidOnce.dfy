/** How often an order can be paid: its key is free again once its transaction is terminal. */
module PaidOnce {
  import opened Width
  import opened Payments
  import opened PaymentTheorems

  ghost predicate Paid(rows: seq<Transaction>, order: nat) {
    exists i :: 0 <= i < |rows| && rows[i].orderId == order && rows[i].status == Success
  }

  /** Beside a successful transaction of the order every other one has failed. */
  ghost predicate AtMostOne(rows: seq<Transaction>, order: nat) {
    forall i, j | 0 <= i < |rows| && 0 <= j < |rows| && i != j && rows[i].orderId == order && rows[j].orderId == order
      && rows[i].status == Success :: rows[j].status == Failed
  }

  /** The next step opens a transaction for the order although it is paid. */
  ghost predicate OpensPaid(s: System, b: Block, order: nat) {
    && b.One? && b.action.Insert? && At(s, b.action.pid, Absent) && s.sessions[b.action.pid].order == order
    && Insertable(s.rows, order, b.action.ref) && Paid(s.rows, order)
  }

  lemma InsertPays(s: System, a: Action, order: nat)
    requires Inv(s) && a.Insert? && AtMostOne(s.rows, order)
    ensures AtMostOne(Step(s, a).rows, order) <==> !OpensPaid(s, One(a), order)
  {
    var after := Step(s, a).rows;
    if after != s.rows {
      assert after[..|s.rows|] == s.rows && after[|s.rows|].status == Pending;
      if OpensPaid(s, One(a), order) {
        var i :| 0 <= i < |s.rows| && s.rows[i].orderId == order && s.rows[i].status == Success;
        assert after[i] == s.rows[i];
      }
    }
  }

  lemma IpnPays(rows: seq<Transaction>, i: nat, row: Transaction, order: nat)
    requires RowsOk(rows) && i < |rows| && rows[i].status == Pending && SameTerms(row, rows[i]) && AtMostOne(rows, order)
    ensures row.status != Pending ==> AtMostOne(rows[i := row], order)
  {
    assert RowOk(rows[i]);
    forall j | 0 <= j < |rows| && j != i && rows[j].orderId == rows[i].orderId ensures rows[j].status != Pending {
      assert RowOk(rows[j]);
    }
  }

  /** Exactly one kind of step lets an order be paid again. */
  lemma StepPaysOnce(s: System, b: Block, order: nat)
    requires Inv(s) && Quiet(s) && Serial(s, b) && AtMostOne(s.rows, order)
    ensures AtMostOne(Run(s, Actions(b)).rows, order) <==> !OpensPaid(s, b, order)
  {
    match b
    case One(a) =>
      assert Run(s, [a]) == Run(Step(s, a), []);
      if a.Insert? { InsertPays(s, a, order); }
    case Ipn(_, ref, _, _) =>
      HandleIpn(s, b);
      if Answer(s, b) == Some(Confirmed) {
        var i := FindRef(s.rows, ref);
        IpnPays(s.rows, i, Run(s, Actions(b)).rows[i], order);
      }
  }

  ghost predicate NeverOpensPaid(s: System, blocks: seq<Block>, order: nat)
    decreases |blocks|
  {
    blocks != [] ==> !OpensPaid(s, blocks[0], order) && NeverOpensPaid(Run(s, Actions(blocks[0])), blocks[1..], order)
  }

  ghost predicate AlwaysAtMostOne(s: System, blocks: seq<Block>, order: nat)
    decreases |blocks|
  {
    AtMostOne(s.rows, order) && (blocks != [] ==> AlwaysAtMostOne(Run(s, Actions(blocks[0])), blocks[1..], order))
  }

  /** In a serialised run an order is paid at most once, with nothing open beside its payment, if and only
      if no session opens a transaction for it when it is already paid. */
  lemma {:induction false} PaidAtMostOnce(s: System, blocks: seq<Block>, order: nat)
    requires Inv(s) && Quiet(s) && SerialRun(s, blocks) && AtMostOne(s.rows, order)
    ensures AlwaysAtMostOne(s, blocks, order) <==> NeverOpensPaid(s, blocks, order)
    decreases |blocks|
  {
    if blocks != [] {
      var next := Run(s, Actions(blocks[0]));
      StepPaysOnce(s, blocks[0], order);
      BlockKeeps(s, blocks[0]);
      if AtMostOne(next.rows, order) {
        PaidAtMostOnce(next, blocks[1..], order);
      } else {
        assert !AlwaysAtMostOne(next, blocks[1..], order);
      }
    }
  }

  /** The steps of an undisturbed session. */
  function Undisturbed(s: System, pid: nat, order: nat, user: nat, total: int64, reservations: string, ref: string): System {
    Step(Step(Step(s, Begin(pid, order, user, total, reservations)), LookUp(pid)), Insert(pid, ref))
  }

  /** An order without a pending transaction gets a new one, whatever became of the earlier ones. */
  lemma OpensAgain(s: System, pid: nat, order: nat, user: nat, total: int64, reservations: string, ref: string)
    requires Inv(s) && order != 0 && pid !in s.sessions && FindRef(s.rows, ref) == |s.rows|
    requires FindPending(s.rows, order) == |s.rows|
    ensures var s' := Undisturbed(s, pid, order, user, total, reservations, ref);
      && s'.rows == s.rows + [Transaction(order, user, Some(order), ref, total, 0, Pending, reservations)]
      && s'.callbacks == s.callbacks && Inv(s')
  {
    forall j | 0 <= j < |s.rows| ensures s.rows[j].checkoutKey != Some(order) {
      assert RowOk(s.rows[j]);
    }
    var s1 := Step(s, Begin(pid, order, user, total, reservations));
    StepKeeps(s, Begin(pid, order, user, total, reservations));
    StepKeeps(s1, LookUp(pid));
    StepKeeps(Step(s1, LookUp(pid)), Insert(pid, ref));
  }

  /** A confirmed success makes the row Success and leaves nothing pending for its order. */
  lemma Pays(s: System, i: nat, cid: nat)
    requires Inv(s) && Quiet(s) && cid !in s.callbacks && i < |s.rows| && s.rows[i].status == Pending
    ensures var b := Ipn(cid, s.rows[i].paymentId, s.rows[i].totalPrice, true);
      var s' := Run(s, Actions(b));
      && Inv(s') && Quiet(s') && Answer(s, b) == Some(Confirmed)
      && s'.rows == s.rows[i := s.rows[i].(status := Success, settledPrice := s.rows[i].totalPrice, checkoutKey := None)]
      && FindPending(s'.rows, s.rows[i].orderId) == |s'.rows|
      && s'.sessions == s.sessions && s'.callbacks.Keys == s.callbacks.Keys + {cid}
  {
    var b := Ipn(cid, s.rows[i].paymentId, s.rows[i].totalPrice, true);
    FindRefIs(s.rows, i);
    HandleIpn(s, b);
    RunTwo(s, ReadRow(cid, s.rows[i].paymentId, s.rows[i].totalPrice, true), SaveRow(cid));
    var rows := Run(s, Actions(b)).rows;
    assert RowOk(s.rows[i]);
    forall j | 0 <= j < |rows| ensures rows[j].checkoutKey != Some(s.rows[i].orderId) {
      assert j != i ==> rows[j] == s.rows[j];
    }
  }

  /** From every state with a pending transaction: it is paid, the order gets a new transaction, and that is
      paid as well, each callback being handled alone and confirmed. */
  lemma PaidTwice(s: System, i: nat, c: nat, pid: nat, user: nat, total: int64, reservations: string, ref: string, d: nat)
    requires Inv(s) && Quiet(s) && i < |s.rows| && s.rows[i].status == Pending
    requires c != d && c !in s.callbacks && d !in s.callbacks && pid !in s.sessions && FindRef(s.rows, ref) == |s.rows|
    ensures var order, n := s.rows[i].orderId, |s.rows|;
      var first := Ipn(c, s.rows[i].paymentId, s.rows[i].totalPrice, true);
      var s1 := Run(s, Actions(first));
      var s2 := Undisturbed(s1, pid, order, user, total, reservations, ref);
      var second := Ipn(d, ref, total, true);
      var rows := Run(s2, Actions(second)).rows;
      && d !in s2.callbacks && Answer(s, first) == Some(Confirmed) && Answer(s2, second) == Some(Confirmed)
      && |rows| == n + 1 && rows[i].orderId == order && rows[n].orderId == order
      && rows[i].status == Success && rows[n].status == Success
  {
    var order := s.rows[i].orderId;
    var first := Ipn(c, s.rows[i].paymentId, s.rows[i].totalPrice, true);
    var s1 := Run(s, Actions(first));
    assert RowOk(s.rows[i]);
    Pays(s, i, c);
    forall j | 0 <= j < |s1.rows| ensures s1.rows[j].paymentId != ref {
      assert j != i ==> s1.rows[j] == s.rows[j];
    }
    OpensAgain(s1, pid, order, user, total, reservations, ref);
    var s2 := Undisturbed(s1, pid, order, user, total, reservations, ref);
    Pays(s2, |s.rows|, d);
  }
}
