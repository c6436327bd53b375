/**
  Payment transactions: checkout sessions and VNPAY callbacks (IPNs) racing on the transaction table.
  Each database statement is one atomic step; nothing is locked between two steps of one request.
*/
module Payments {
  import opened Width

  datatype Status = Pending | Failed | Success

  /** A row; the checkout key "order:<id>" is the order's number, and null once the row is terminal. */
  datatype Transaction = Transaction(
    orderId: nat, userId: nat, checkoutKey: Option<nat>, paymentId: string,
    totalPrice: int64, settledPrice: int64, status: Status, reservationIDs: string)

  /** Index of the pending row with the checkout key, or the number of rows. */
  function FindPending(rows: seq<Transaction>, key: nat): (i: nat)
    ensures i <= |rows|
    ensures i < |rows| ==> rows[i].checkoutKey == Some(key) && rows[i].status == Pending
    ensures i == |rows| ==> forall j | 0 <= j < |rows| :: rows[j].checkoutKey != Some(key) || rows[j].status != Pending
  {
    if rows == [] then 0
    else
      var n := |rows| - 1;
      var i := FindPending(rows[..n], key);
      if i < n then i else if rows[n].checkoutKey == Some(key) && rows[n].status == Pending then n else n + 1
  }

  function FindRef(rows: seq<Transaction>, ref: string): (i: nat)
    ensures i <= |rows|
    ensures i < |rows| ==> rows[i].paymentId == ref
    ensures i == |rows| ==> forall j | 0 <= j < |rows| :: rows[j].paymentId != ref
  {
    if rows == [] then 0
    else
      var n := |rows| - 1;
      var i := FindRef(rows[..n], ref);
      if i < n then i else if rows[n].paymentId == ref then n else n + 1
  }

  /** Both unique indexes. */
  predicate Insertable(rows: seq<Transaction>, key: nat, ref: string) {
    && FindRef(rows, ref) == |rows|
    && forall j | 0 <= j < |rows| :: rows[j].checkoutKey != Some(key)
  }

  // ---------------------------------------------------------------- requests

  /** A checkout session for an order, with the amount already computed. */
  datatype Session = Session(order: nat, user: nat, total: int64, reservations: string, phase: SessionPhase)

  datatype SessionPhase = Started | Absent | Lost | Open(ref: string) | Rejected

  /** A verified callback; Ready holds the row as it was read. */
  datatype Callback = Callback(ref: string, amount: int64, success: bool, phase: CallbackPhase)

  /** The answers to a verified callback: codes 00, 01, 02 and 04. */
  datatype Verdict = Confirmed | UnknownReference | AlreadySettled | WrongAmount

  datatype CallbackPhase = Ready(row: nat, read: Transaction) | Answered(verdict: Verdict)

  datatype System = System(rows: seq<Transaction>, sessions: map<nat, Session>, callbacks: map<nat, Callback>)

  datatype Action =
    | Begin(pid: nat, order: nat, user: nat, total: int64, reservations: string)
    | LookUp(pid: nat)
    | Insert(pid: nat, ref: string)
    | Recover(pid: nat)
    | ReadRow(cid: nat, ref: string, amount: int64, success: bool)
    | SaveRow(cid: nat)

  function Move(s: System, pid: nat, phase: SessionPhase): System
    requires pid in s.sessions
  {
    s.(sessions := s.sessions[pid := s.sessions[pid].(phase := phase)])
  }

  predicate At(s: System, pid: nat, phase: SessionPhase) {
    pid in s.sessions && s.sessions[pid].phase == phase
  }

  /** A pending row is only reused if it is for the same user, amount and order. */
  function Reuse(session: Session, row: Transaction): SessionPhase {
    if row.userId != session.user || row.totalPrice != session.total || row.orderId != session.order then Rejected
    else Open(row.paymentId)
  }

  /** The first lookup: a match is reused, otherwise a row is inserted next. */
  function DoLookUp(s: System, pid: nat): System {
    if !At(s, pid, Started) then s
    else
      var i := FindPending(s.rows, s.sessions[pid].order);
      Move(s, pid, if i == |s.rows| then Absent else Reuse(s.sessions[pid], s.rows[i]))
  }

  function DoInsert(s: System, pid: nat, ref: string): System {
    if !At(s, pid, Absent) then s
    else
      var x := s.sessions[pid];
      if Insertable(s.rows, x.order, ref) then
        Move(s, pid, Open(ref)).(rows := s.rows + [Transaction(x.order, x.user, Some(x.order), ref, x.total, 0, Pending, x.reservations)])
      else Move(s, pid, Lost)
  }

  /** The insert lost a race: look for the winner. */
  function DoRecover(s: System, pid: nat): System {
    if !At(s, pid, Lost) then s
    else
      var i := FindPending(s.rows, s.sessions[pid].order);
      Move(s, pid, if i == |s.rows| then Rejected else Reuse(s.sessions[pid], s.rows[i]))
  }

  function DoReadRow(s: System, cid: nat, ref: string, amount: int64, success: bool): System {
    if cid in s.callbacks then s
    else
      var i := FindRef(s.rows, ref);
      var phase :=
        if i == |s.rows| then Answered(UnknownReference)
        else if s.rows[i].status != Pending then Answered(AlreadySettled)
        else if s.rows[i].totalPrice != amount then Answered(WrongAmount)
        else Ready(i, s.rows[i]);
      s.(callbacks := s.callbacks[cid := Callback(ref, amount, success, phase)])
  }

  /** The row as read, with the outcome of the payment. */
  function Settled(row: Transaction, c: Callback): Transaction {
    row.(status := if c.success then Success else Failed, settledPrice := c.amount, checkoutKey := None)
  }

  /** The save writes every column of the row that was read. */
  function DoSaveRow(s: System, cid: nat): System {
    if cid !in s.callbacks || !s.callbacks[cid].phase.Ready? || s.callbacks[cid].phase.row >= |s.rows| then s
    else
      var c := s.callbacks[cid];
      s.(rows := s.rows[c.phase.row := Settled(c.phase.read, c)], callbacks := s.callbacks[cid := c.(phase := Answered(Confirmed))])
  }

  function Step(s: System, a: Action): System {
    match a
    case Begin(pid, order, user, total, reservations) =>
      if pid in s.sessions || order == 0 then s
      else s.(sessions := s.sessions[pid := Session(order, user, total, reservations, Started)])
    case LookUp(pid) => DoLookUp(s, pid)
    case Insert(pid, ref) => DoInsert(s, pid, ref)
    case Recover(pid) => DoRecover(s, pid)
    case ReadRow(cid, ref, amount, success) => DoReadRow(s, cid, ref, amount, success)
    case SaveRow(cid) => DoSaveRow(s, cid)
  }

  function Run(s: System, actions: seq<Action>): System
    decreases |actions|
  {
    if actions == [] then s else Run(Step(s, actions[0]), actions[1..])
  }

  // --------------------------------------------------------------- invariant

  /** A pending row holds its order's key and has settled nothing; a terminal one has settled its total. */
  ghost predicate RowOk(row: Transaction) {
    && row.orderId != 0
    && (if row.status == Pending then row.checkoutKey == Some(row.orderId) && row.settledPrice == 0
        else row.checkoutKey == None && row.settledPrice == row.totalPrice)
  }

  ghost predicate RowsOk(rows: seq<Transaction>) {
    && (forall i | 0 <= i < |rows| :: RowOk(rows[i]))
    && (forall i, j | 0 <= i < j < |rows| :: rows[i].paymentId != rows[j].paymentId)
    && (forall i, j | 0 <= i < j < |rows| :: rows[i].checkoutKey.Some? ==> rows[i].checkoutKey != rows[j].checkoutKey)
  }

  /** What a row never changes. */
  predicate SameTerms(a: Transaction, b: Transaction) {
    a.orderId == b.orderId && a.userId == b.userId && a.paymentId == b.paymentId && a.totalPrice == b.totalPrice
    && a.reservationIDs == b.reservationIDs
  }

  /** An open session refers to a row for exactly its user, order and amount. */
  ghost predicate SessionsOk(rows: seq<Transaction>, sessions: map<nat, Session>) {
    forall pid | pid in sessions && sessions[pid].phase.Open? ::
      var x := sessions[pid];
      var i := FindRef(rows, x.phase.ref);
      i < |rows| && rows[i].orderId == x.order && rows[i].userId == x.user && rows[i].totalPrice == x.total
  }

  ghost predicate CallbacksOk(rows: seq<Transaction>, callbacks: map<nat, Callback>) {
    forall cid | cid in callbacks && callbacks[cid].phase.Ready? ::
      var c := callbacks[cid];
      && c.phase.row < |rows| && SameTerms(c.phase.read, rows[c.phase.row])
      && c.ref == c.phase.read.paymentId && c.amount == c.phase.read.totalPrice
  }

  ghost predicate Inv(s: System) {
    && RowsOk(s.rows) && SessionsOk(s.rows, s.sessions) && CallbacksOk(s.rows, s.callbacks)
    && forall pid | pid in s.sessions :: s.sessions[pid].order != 0
  }

  lemma FindRefIs(rows: seq<Transaction>, i: nat)
    requires RowsOk(rows) && i < |rows|
    ensures FindRef(rows, rows[i].paymentId) == i
  {
    var k := FindRef(rows, rows[i].paymentId);
    assert !(k < i) && !(i < k);
  }

  /** Rows only gain terms: a longer table finds the same references. */
  ghost predicate Extends(before: seq<Transaction>, after: seq<Transaction>) {
    |before| <= |after| && forall i | 0 <= i < |before| :: SameTerms(before[i], after[i])
  }

  lemma ExtendsKeeps(before: System, rows: seq<Transaction>)
    requires Inv(before) && RowsOk(rows) && Extends(before.rows, rows)
    ensures SessionsOk(rows, before.sessions) && CallbacksOk(rows, before.callbacks)
  {
    forall pid | pid in before.sessions && before.sessions[pid].phase.Open?
      ensures FindRef(rows, before.sessions[pid].phase.ref) == FindRef(before.rows, before.sessions[pid].phase.ref)
    {
      var i := FindRef(before.rows, before.sessions[pid].phase.ref);
      FindRefIs(rows, i);
    }
  }

  lemma AppendOk(rows: seq<Transaction>, row: Transaction)
    requires RowsOk(rows) && RowOk(row) && row.status == Pending && Insertable(rows, row.orderId, row.paymentId)
    ensures RowsOk(rows + [row]) && Extends(rows, rows + [row])
  {
    var longer := rows + [row];
    assert forall i | 0 <= i < |rows| :: longer[i] == rows[i];
    forall i, j | 0 <= i < j < |longer|
      ensures longer[i].paymentId != longer[j].paymentId
      ensures longer[i].checkoutKey.Some? ==> longer[i].checkoutKey != longer[j].checkoutKey
    {
      assert longer[i] == rows[i];
    }
  }

  lemma InsertKeeps(s: System, pid: nat, ref: string)
    requires Inv(s)
    ensures Inv(DoInsert(s, pid, ref)) && Extends(s.rows, DoInsert(s, pid, ref).rows)
  {
    if At(s, pid, Absent) && Insertable(s.rows, s.sessions[pid].order, ref) {
      var x := s.sessions[pid];
      var row := Transaction(x.order, x.user, Some(x.order), ref, x.total, 0, Pending, x.reservations);
      AppendOk(s.rows, row);
      FindRefIs(s.rows + [row], |s.rows|);
      ExtendsKeeps(s, s.rows + [row]);
    }
  }

  lemma SaveRowKeeps(s: System, cid: nat)
    requires Inv(s)
    ensures Inv(DoSaveRow(s, cid)) && Extends(s.rows, DoSaveRow(s, cid).rows)
  {
    var s' := DoSaveRow(s, cid);
    if s' != s {
      var c := s.callbacks[cid];
      assert SameTerms(c.phase.read, s.rows[c.phase.row]);
      assert RowOk(s.rows[c.phase.row]) && RowOk(s'.rows[c.phase.row]);
      assert RowsOk(s'.rows);
      ExtendsKeeps(s, s'.rows);
    }
  }

  lemma ReuseOk(s: System, pid: nat, i: nat)
    requires Inv(s) && pid in s.sessions && i < |s.rows|
    ensures SessionsOk(s.rows, s.sessions[pid := s.sessions[pid].(phase := Reuse(s.sessions[pid], s.rows[i]))])
  {
    FindRefIs(s.rows, i);
  }

  lemma LookUpKeeps(s: System, pid: nat)
    requires Inv(s)
    ensures Inv(DoLookUp(s, pid)) && Inv(DoRecover(s, pid))
    ensures DoLookUp(s, pid).rows == DoRecover(s, pid).rows == s.rows
  {
    if pid in s.sessions && FindPending(s.rows, s.sessions[pid].order) < |s.rows| {
      ReuseOk(s, pid, FindPending(s.rows, s.sessions[pid].order));
    }
  }

  lemma ReadRowKeeps(s: System, cid: nat, ref: string, amount: int64, success: bool)
    requires Inv(s)
    ensures Inv(DoReadRow(s, cid, ref, amount, success)) && DoReadRow(s, cid, ref, amount, success).rows == s.rows
  {
  }

  lemma StepKeeps(s: System, a: Action)
    requires Inv(s)
    ensures Inv(Step(s, a)) && Extends(s.rows, Step(s, a).rows)
  {
    match a
    case LookUp(pid) => LookUpKeeps(s, pid);
    case Recover(pid) => LookUpKeeps(s, pid);
    case Insert(pid, ref) => InsertKeeps(s, pid, ref);
    case ReadRow(cid, ref, amount, success) => ReadRowKeeps(s, cid, ref, amount, success);
    case SaveRow(cid) => SaveRowKeeps(s, cid);
    case Begin(_, _, _, _, _) =>
  }

  lemma {:induction false} RunKeeps(s: System, actions: seq<Action>)
    requires Inv(s)
    ensures Inv(Run(s, actions)) && Extends(s.rows, Run(s, actions).rows)
    decreases |actions|
  {
    if actions != [] {
      StepKeeps(s, actions[0]);
      RunKeeps(Step(s, actions[0]), actions[1..]);
    }
  }
}
