/** What the transaction table guarantees, whatever sessions and callbacks race on it. */
module PaymentTheorems {
  import opened Width
  import opened Payments

  const EMPTY: System := System([], map[], map[])

  /** In every run an order has at most one pending transaction. */
  lemma OnePendingPerOrder(actions: seq<Action>, i: nat, j: nat)
    requires var rows := Run(EMPTY, actions).rows;
      i < j < |rows| && rows[i].status == Pending && rows[j].status == Pending
    ensures Run(EMPTY, actions).rows[i].orderId != Run(EMPTY, actions).rows[j].orderId
  {
    RunKeeps(EMPTY, actions);
    assert RowOk(Run(EMPTY, actions).rows[i]) && RowOk(Run(EMPTY, actions).rows[j]);
  }

  /** In every run a pending transaction has settled nothing and a terminal one exactly its total. */
  lemma SettledExactly(actions: seq<Action>, i: nat)
    requires i < |Run(EMPTY, actions).rows|
    ensures var row := Run(EMPTY, actions).rows[i];
      row.settledPrice == if row.status == Pending then 0 else row.totalPrice
  {
    RunKeeps(EMPTY, actions);
    assert RowOk(Run(EMPTY, actions).rows[i]);
  }

  lemma PendingIs(rows: seq<Transaction>, i: nat, order: nat)
    requires RowsOk(rows) && i < |rows| && rows[i].checkoutKey == Some(order)
    ensures FindPending(rows, order) == i && rows[i].orderId == order
  {
    assert RowOk(rows[i]);
    var k := FindPending(rows, order);
    assert !(k < i) && !(i < k < |rows|);
  }

  /** What a session gets that meets the pending row of its order: that row's reference, if user and amount are its own. */
  function Meets(row: Transaction, user: nat, total: int64): SessionPhase {
    if row.userId == user && row.totalPrice == total then Open(row.paymentId) else Rejected
  }

  /** A session that begins while its order has a pending row looks it up at once and inserts nothing. */
  lemma FoundAtOnce(s: System, pid: nat, order: nat, user: nat, total: int64, reservations: string, i: nat)
    requires RowsOk(s.rows) && pid !in s.sessions && order != 0 && i < |s.rows| && s.rows[i].checkoutKey == Some(order)
    ensures var s' := Step(Step(s, Begin(pid, order, user, total, reservations)), LookUp(pid));
      s'.rows == s.rows && pid in s'.sessions && s'.sessions[pid].phase == Meets(s.rows[i], user, total)
  {
    PendingIs(s.rows, i, order);
  }

  /** A session that looked too early loses the insert to the row that came in between, and recovers with that row. */
  lemma LoserRecovers(s: System, pid: nat, ref: string, i: nat)
    requires RowsOk(s.rows) && At(s, pid, Absent) && i < |s.rows| && s.rows[i].checkoutKey == Some(s.sessions[pid].order)
    ensures var s' := Step(Step(s, Insert(pid, ref)), Recover(pid));
      s'.rows == s.rows && pid in s'.sessions
      && s'.sessions[pid].phase == Meets(s.rows[i], s.sessions[pid].user, s.sessions[pid].total)
  {
    PendingIs(s.rows, i, s.sessions[pid].order);
  }

  /** Sessions of one order that succeed while its transaction is pending share one payment reference
      and one amount, however their lookups, inserts and recoveries interleave. */
  lemma OpenSessionsShare(actions: seq<Action>, p: nat, q: nat)
    requires var s := Run(EMPTY, actions);
      && p in s.sessions && q in s.sessions && s.sessions[p].order == s.sessions[q].order
      && s.sessions[p].phase.Open? && s.sessions[q].phase.Open?
    requires var s := Run(EMPTY, actions);
      forall x | x in {p, q} ::
        var i := FindRef(s.rows, s.sessions[x].phase.ref); i < |s.rows| ==> s.rows[i].status == Pending
    ensures var s := Run(EMPTY, actions);
      s.sessions[p].phase.ref == s.sessions[q].phase.ref && s.sessions[p].total == s.sessions[q].total
  {
    RunKeeps(EMPTY, actions);
    var s := Run(EMPTY, actions);
    var i, j := FindRef(s.rows, s.sessions[p].phase.ref), FindRef(s.rows, s.sessions[q].phase.ref);
    assert s.rows[i].status == Pending && s.rows[j].status == Pending;
    assert RowOk(s.rows[i]) && RowOk(s.rows[j]);
  }

  /** An opened session's transaction carries the session's order, user and amount for ever. */
  lemma SessionTermsKept(s: System, actions: seq<Action>, pid: nat)
    requires Inv(s) && pid in s.sessions && s.sessions[pid].phase.Open?
    ensures var x := s.sessions[pid];
      var rows := Run(s, actions).rows;
      var i := FindRef(rows, x.phase.ref);
      i < |rows| && rows[i].orderId == x.order && rows[i].userId == x.user && rows[i].totalPrice == x.total
  {
    RunKeeps(s, actions);
    var i := FindRef(s.rows, s.sessions[pid].phase.ref);
    FindRefIs(Run(s, actions).rows, i);
  }

  // ------------------------------------------------------ terminal is terminal

  ghost predicate TerminalKept(before: seq<Transaction>, after: seq<Transaction>) {
    && |before| <= |after|
    && forall i | 0 <= i < |before| && before[i].status != Pending :: after[i] == before[i]
  }

  /** A step touches a terminal row exactly when it saves a callback that read the row while it was
      pending and says otherwise than what the row has become. */
  lemma TerminalChangesExactly(s: System, a: Action)
    requires Inv(s)
    ensures !TerminalKept(s.rows, Step(s, a).rows) <==>
      && a.SaveRow? && a.cid in s.callbacks && s.callbacks[a.cid].phase.Ready?
      && var row := s.rows[s.callbacks[a.cid].phase.row];
         row.status != Pending && row.status != (if s.callbacks[a.cid].success then Success else Failed)
  {
    if a.SaveRow? && a.cid in s.callbacks && s.callbacks[a.cid].phase.Ready? {
      var c := s.callbacks[a.cid];
      var row := s.rows[c.phase.row];
      assert RowOk(row) && SameTerms(c.phase.read, row);
      assert Step(s, a).rows[c.phase.row] == Settled(c.phase.read, c);
    }
  }

  /** The provider gives one verdict per reference, in the callbacks under way and in those to come. */
  ghost predicate Agreeing(s: System, verdict: string -> bool) {
    && (forall cid | cid in s.callbacks :: s.callbacks[cid].success == verdict(s.callbacks[cid].ref))
    && (forall i | 0 <= i < |s.rows| && s.rows[i].status != Pending ::
          s.rows[i].status == if verdict(s.rows[i].paymentId) then Success else Failed)
  }

  predicate Agrees(a: Action, verdict: string -> bool) {
    a.ReadRow? ==> a.success == verdict(a.ref)
  }

  lemma AgreeingStep(s: System, a: Action, verdict: string -> bool)
    requires Inv(s) && Agreeing(s, verdict) && Agrees(a, verdict)
    ensures Agreeing(Step(s, a), verdict) && TerminalKept(s.rows, Step(s, a).rows)
  {
    TerminalChangesExactly(s, a);
    if a.SaveRow? && a.cid in s.callbacks && s.callbacks[a.cid].phase.Ready? {
      var c := s.callbacks[a.cid];
      assert SameTerms(c.phase.read, s.rows[c.phase.row]);
    }
  }

  /** If all callbacks of a reference agree, terminal transactions never change, in any interleaving. */
  lemma {:induction false} TerminalWhenAgreeing(s: System, actions: seq<Action>, verdict: string -> bool)
    requires Inv(s) && Agreeing(s, verdict) && forall k | 0 <= k < |actions| :: Agrees(actions[k], verdict)
    ensures TerminalKept(s.rows, Run(s, actions).rows)
    decreases |actions|
  {
    if actions != [] {
      StepKeeps(s, actions[0]);
      AgreeingStep(s, actions[0], verdict);
      TerminalWhenAgreeing(Step(s, actions[0]), actions[1..], verdict);
    }
  }

  /** Callbacks that disagree can undo each other: for every pending transaction there is an interleaving
      of two of them that makes it Success and then Failed. */
  lemma DisagreeingCallbacks(s: System, i: nat, c: nat, d: nat)
    requires Inv(s) && i < |s.rows| && s.rows[i].status == Pending
    requires c != d && c !in s.callbacks && d !in s.callbacks
    ensures var row := s.rows[i];
      var read := Step(Step(s, ReadRow(c, row.paymentId, row.totalPrice, true)), ReadRow(d, row.paymentId, row.totalPrice, false));
      var paid := Step(read, SaveRow(c));
      && paid.rows[i].status == Success && paid.callbacks[c].phase == Answered(Confirmed)
      && Step(paid, SaveRow(d)).rows[i].status == Failed && Step(paid, SaveRow(d)).callbacks[d].phase == Answered(Confirmed)
  {
    FindRefIs(s.rows, i);
  }

  // ---------------------------------------------------------- serialised runs

  /** A run in which every callback is handled without interruption. */
  datatype Block = One(action: Action) | Ipn(cid: nat, ref: string, amount: int64, success: bool)

  function Actions(b: Block): seq<Action> {
    match b
    case One(a) => [a]
    case Ipn(cid, ref, amount, success) => [ReadRow(cid, ref, amount, success), SaveRow(cid)]
  }

  /** Single steps are steps of sessions; each callback has its own id. */
  predicate Serial(s: System, b: Block) {
    match b
    case One(a) => !a.ReadRow? && !a.SaveRow?
    case Ipn(cid, _, _, _) => cid !in s.callbacks
  }

  function RunBlocks(s: System, blocks: seq<Block>): System
    decreases |blocks|
  {
    if blocks == [] then s else RunBlocks(Run(s, Actions(blocks[0])), blocks[1..])
  }

  ghost predicate SerialRun(s: System, blocks: seq<Block>)
    decreases |blocks|
  {
    blocks != [] ==> Serial(s, blocks[0]) && SerialRun(Run(s, Actions(blocks[0])), blocks[1..])
  }

  ghost predicate Quiet(s: System) {
    forall cid | cid in s.callbacks :: s.callbacks[cid].phase.Answered?
  }

  function Answer(s: System, b: Block): Option<Verdict>
    requires b.Ipn? && b.cid !in s.callbacks
  {
    var s1 := Step(s, ReadRow(b.cid, b.ref, b.amount, b.success));
    var s2 := Step(s1, SaveRow(b.cid));
    if s2.callbacks[b.cid].phase.Answered? then Some(s2.callbacks[b.cid].phase.verdict) else None
  }

  lemma RunTwo(s: System, a: Action, b: Action)
    ensures Run(s, [a, b]) == Step(Step(s, a), b)
  {
    assert [a, b][1..] == [b];
    assert Run(Step(s, a), [b]) == Run(Step(Step(s, a), b), []);
  }

  /** Handling one callback: a pending transaction of that amount is settled, nothing else changes. */
  lemma HandleIpn(s: System, b: Block)
    requires Inv(s) && Quiet(s) && b.Ipn? && b.cid !in s.callbacks
    ensures var s' := Run(s, Actions(b));
      var i := FindRef(s.rows, b.ref);
      && Inv(s') && Quiet(s')
      && (Answer(s, b) == Some(Confirmed) <==> i < |s.rows| && s.rows[i].status == Pending && s.rows[i].totalPrice == b.amount)
      && s'.rows == if Answer(s, b) != Some(Confirmed) then s.rows
                    else s.rows[i := s.rows[i].(status := if b.success then Success else Failed, settledPrice := b.amount, checkoutKey := None)]
  {
    var s1 := Step(s, ReadRow(b.cid, b.ref, b.amount, b.success));
    StepKeeps(s, ReadRow(b.cid, b.ref, b.amount, b.success));
    StepKeeps(s1, SaveRow(b.cid));
    RunTwo(s, ReadRow(b.cid, b.ref, b.amount, b.success), SaveRow(b.cid));
  }

  lemma BlockKeeps(s: System, b: Block)
    requires Inv(s) && Quiet(s) && Serial(s, b)
    ensures var s' := Run(s, Actions(b));
      Inv(s') && Quiet(s') && TerminalKept(s.rows, s'.rows) && Extends(s.rows, s'.rows)
  {
    match b
    case One(a) =>
      StepKeeps(s, a);
      TerminalChangesExactly(s, a);
      assert Run(s, [a]) == Run(Step(s, a), []);
    case Ipn(_, _, _, _) => HandleIpn(s, b);
  }

  /** In serialised runs terminal transactions never change. */
  lemma {:induction false} TerminalWhenSerial(s: System, blocks: seq<Block>)
    requires Inv(s) && Quiet(s) && SerialRun(s, blocks)
    ensures TerminalKept(s.rows, RunBlocks(s, blocks).rows)
    ensures Inv(RunBlocks(s, blocks)) && Quiet(RunBlocks(s, blocks)) && Extends(s.rows, RunBlocks(s, blocks).rows)
    decreases |blocks|
  {
    if blocks != [] {
      BlockKeeps(s, blocks[0]);
      TerminalWhenSerial(Run(s, Actions(blocks[0])), blocks[1..]);
    }
  }

  /** In serialised runs a payment is confirmed, and its effects are started, at most once: after one
      confirmation every later callback of the reference, whatever it says, is answered otherwise. */
  lemma ConfirmedOnce(s: System, first: Block, blocks: seq<Block>, again: Block)
    requires Inv(s) && Quiet(s) && first.Ipn? && Serial(s, first) && Answer(s, first) == Some(Confirmed)
    requires SerialRun(Run(s, Actions(first)), blocks)
    requires again.Ipn? && again.ref == first.ref && Serial(RunBlocks(Run(s, Actions(first)), blocks), again)
    ensures Answer(RunBlocks(Run(s, Actions(first)), blocks), again) != Some(Confirmed)
  {
    HandleIpn(s, first);
    var s1 := Run(s, Actions(first));
    var i := FindRef(s.rows, first.ref);
    TerminalWhenSerial(s1, blocks);
    var s2 := RunBlocks(s1, blocks);
    assert s2.rows[i] == s1.rows[i] && s1.rows[i].status != Pending;
    FindRefIs(s2.rows, i);
    HandleIpn(s2, again);
  }
}
