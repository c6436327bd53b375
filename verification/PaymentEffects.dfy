/** What a settled payment does to Inventory: commit or release its reservations, with retries. */
module PaymentEffects {
  import opened Width
  import opened IdList
  import opened Ledger
  import opened LedgerTheorems
  import opened CartModel
  import opened CommitLog

  ghost predicate AllOver(db: Db, parts: seq<string>, n: int, names: string -> ReservationId) {
    forall k | 0 <= k < n && k < |parts| :: Over(db, names(parts[k]))
  }

  lemma OneMoreOver(before: Db, after: Db, parts: seq<string>, n: nat, names: string -> ReservationId)
    requires n < |parts| && AllOver(before, parts, n, names) && KeptOn(before, after) && Over(after, names(parts[n]))
    ensures AllOver(after, parts, n + 1, names)
  {
  }

  /** One of the next `n` calls is answered. */
  ghost predicate AnsweredWithin(faults: Faults, calls: nat, n: nat) {
    exists k: nat :: calls <= k < calls + n && faults(k) == NoFault
  }

  /** None of the calls from one to another arrives. */
  ghost predicate NoneArrives(faults: Faults, from: nat, until: nat) {
    forall k | from <= k < until :: faults(k) == Lost
  }

  /** One reservation: up to three attempts, stopping at the first answer that is no error. */
  method Settle(ghost start: Db, ghost done: seq<Entry>, db: Db, id: ReservationId, success: bool, faults: Faults, rivals: Rivals, calls: nat,
                ghost ids: set<ReservationId>, ghost lines: seq<CartItem>)
    returns (ok: bool, after: Db, calls': nat, ghost log: seq<Entry>)
    requires Reached(start, done, db, ids, lines, success) && id in ids && Permitted(rivals, lines)
    ensures Reached(start, log, after, ids, lines, success) && KeptOn(db, after)
    ensures ok ==> Over(after, id)
    ensures calls < calls' <= calls + 3
    // Two faults in a row are survived, and a third one is not.
    ensures Settleable(db, id) ==> (ok <==> AnsweredWithin(faults, calls, 3))
    ensures NoneArrives(faults, calls, calls + 3) ==> !ok && (Silent(done) ==> Silent(log))
  {
    ok, after, calls', log := false, db, calls, done;
    var attempt := 0;
    while attempt < 3 && !ok
      invariant Reached(start, log, after, ids, lines, success) && KeptOn(db, after)
      invariant ok ==> Over(after, id)
      invariant attempt <= 3 && calls' == calls + attempt && (ok ==> attempt > 0)
      invariant Settleable(db, id) ==> (ok <==> AnsweredWithin(faults, calls, attempt))
      invariant NoneArrives(faults, calls, calls + 3) ==> !ok && (Silent(done) ==> Silent(log))
      decreases 3 - attempt, !ok
    {
      ghost var before := after;
      ok, after, log := Attempt(start, log, after, id, success, faults(calls'), rivals, calls', ids, lines);
      KeptOnTwice(db, before, after);
      calls', attempt := calls' + 1, attempt + 1;
    }
  }

  ghost predicate AllSettleable(db: Db, parts: seq<string>, names: string -> ReservationId) {
    forall k | 0 <= k < |parts| :: Settleable(db, names(parts[k]))
  }

  ghost predicate NeverThreeLost(faults: Faults) {
    forall calls: nat :: AnsweredWithin(faults, calls, 3)
  }

  /** The effects of a settled payment, in order: the reservations; then, only if all of them went
      through, the order's status; then, only if that went through, the cart. */
  method Apply(start: Db, csv: string, names: string -> ReservationId, success: bool, faults: Faults, rivals: Rivals, orderFails: bool,
               ghost lines: seq<CartItem>)
    returns (commitOK: bool, statusUpdated: bool, cartCleared: bool, after: Db, calls: nat, ghost log: seq<Entry>)
    requires Sound(start) && Permitted(rivals, lines)
    ensures Reached(start, log, after, Named(IdsOf(csv), names), lines, success)
    ensures commitOK ==> AllOver(after, IdsOf(csv), |IdsOf(csv)|, names)
    // Every id gets one to three calls, whatever became of those before it.
    ensures |IdsOf(csv)| <= calls <= 3 * |IdsOf(csv)|
    // Known reservations are all settled unless three calls in a row fail, also those that are over or have run
    // out: the order is then marked as paid all the same.
    ensures AllSettleable(start, IdsOf(csv), names) && NeverThreeLost(faults) ==> commitOK
    // If no call arrives nothing is settled, and the status stays.
    ensures NoneArrives(faults, 0, 3 * |IdsOf(csv)|) && IdsOf(csv) != [] ==> !commitOK && Silent(log)
    ensures statusUpdated <==> commitOK && !orderFails
    ensures cartCleared <==> statusUpdated
  {
    var parts := ReservationIds(csv);
    ghost var ids := Named(parts, names);
    commitOK, statusUpdated, cartCleared, after, calls, log := true, false, false, start, 0, [];
    for i := 0 to |parts|
      invariant Reached(start, log, after, ids, lines, success)
      invariant commitOK ==> AllOver(after, parts, i, names)
      invariant i <= calls <= 3 * i
      invariant AllSettleable(start, parts, names) ==> AllSettleable(after, parts, names)
      invariant AllSettleable(start, parts, names) && NeverThreeLost(faults) ==> commitOK
      invariant NoneArrives(faults, 0, 3 * |parts|) ==> Silent(log) && (i > 0 ==> !commitOK)
    {
      var ok;
      ghost var before := after;
      ok, after, calls, log := Settle(start, log, after, names(parts[i]), success, faults, rivals, calls, ids, lines);
      if AllSettleable(before, parts, names) && NeverThreeLost(faults) {
        assert ok by { assert Settleable(before, names(parts[i])); }
      }
      if commitOK && ok {
        OneMoreOver(before, after, parts, i, names);
      }
      commitOK := commitOK && ok;
    }
    if !commitOK {
      return;
    }
    if orderFails {
      return;
    }
    statusUpdated := true;
    cartCleared := true;
  }

  function Named(parts: seq<string>, names: string -> ReservationId): (ids: set<ReservationId>)
    ensures forall k | 0 <= k < |parts| :: names(parts[k]) in ids
  {
    set k | 0 <= k < |parts| :: names(parts[k])
  }
}
