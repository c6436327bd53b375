/** What each kind of published event counts as, from the envelope to the row of its day. */
module EventCounts {
  import opened Width
  import opened Projection

  // A day in nanoseconds.
  const TWENTY_FOUR_HOURS: int := 86_400_000_000_000

  // ------------------------------------------------------------ the type texts

  lemma OrderKind(s: string)
    requires s == "order.created"
    ensures KindOf(s) == OrderCreated
  {
    assert |s| == 13;
  }

  lemma SuccessKind(s: string)
    requires s == "payment.success" || s == "payment.succeeded" || s == "payment.settled"
    ensures KindOf(s) == PaymentSuccess
  {
    assert s[0] == 'p';
  }

  lemma FailedKind(s: string)
    requires s == "payment.failed"
    ensures KindOf(s) == PaymentFailure
  {
    assert |s| == 14;
  }

  lemma FailureKind(s: string)
    requires s == "payment.failure"
    ensures KindOf(s) == PaymentFailure
  {
    assert s[8] == 'f';
  }

  // ------------------------------------------------------------------ the row

  /** The row of a day after an event: so many more orders, attempts and successes, and the amounts moved on with
      the wrap-around of an int64. */
  predicate Moved(before: Metric, after: Metric, gmv: int, revenue: int, orders: nat, attempts: nat, successes: nat) {
    && after.gmv == Wrap64(before.gmv + gmv) && after.revenue == Wrap64(before.revenue + revenue)
    && after.orders == before.orders + orders && after.attempts == before.attempts + attempts
    && after.successes == before.successes + successes
  }

  /** The event comes through for the first time. */
  predicate Fresh(t: Tables, envelope: Envelope) {
    envelope.eventId != "" && envelope.eventId !in t.processed
  }

  /** An event is recorded in any case, and only the row of its own day can change. */
  lemma Recorded(t: Tables, envelope: Envelope, day: int, after: Tables)
    requires Fresh(t, envelope) && after == ApplyEvent(t, Decode(envelope), false).0
    ensures after.processed == t.processed + {envelope.eventId} && after.quarantine == t.quarantine
    ensures ApplyEvent(t, Decode(envelope), false).1
    ensures At(after.metrics, day)
         == if day == envelope.occurredAt / TWENTY_FOUR_HOURS then RowAfter(At(t.metrics, day), Decode(envelope)) else At(t.metrics, day)
  {
    RowOf(t.(processed := t.processed + {envelope.eventId}), Decode(envelope), day);
  }

  /** A delivery succeeds exactly if its event has an id and its transaction does not fail; one of a recorded id, or
      one that fails, changes nothing. */
  lemma DeliverySucceeds(t: Tables, envelope: Envelope, fails: bool)
    ensures ApplyEvent(t, Decode(envelope), fails).1 <==> envelope.eventId != "" && !fails
    ensures envelope.eventId in t.processed || envelope.eventId == "" || fails ==> ApplyEvent(t, Decode(envelope), fails).0 == t
  {
  }

  lemma Gains(m: Metric, e: Event)
    ensures e.kind == OrderCreated ==> Moved(m, RowAfter(m, e), e.total, 0, 1, 0, 0)
    ensures e.kind == PaymentSuccess ==> Moved(m, RowAfter(m, e), 0, e.total, 0, 1, 1)
    ensures e.kind == PaymentFailure ==> Moved(m, RowAfter(m, e), 0, 0, 0, 1, 0)
  {
  }

  // ------------------------------------------------------------ type by type

  /** A new order adds one order and its total to the GMV. */
  lemma OrderCounts(t: Tables, envelope: Envelope, after: Tables)
    requires Fresh(t, envelope) && after == ApplyEvent(t, Decode(envelope), false).0
    requires envelope.eventType == "order.created"
    ensures var day := envelope.occurredAt / TWENTY_FOUR_HOURS;
      Moved(At(t.metrics, day), At(after.metrics, day), envelope.totalPrice, 0, 1, 0, 0)
  {
    OrderKind(envelope.eventType);
    Recorded(t, envelope, envelope.occurredAt / TWENTY_FOUR_HOURS, after);
    Gains(At(t.metrics, envelope.occurredAt / TWENTY_FOUR_HOURS), Decode(envelope));
  }

  /** A successful payment adds one attempt, one success and its total to the revenue. */
  lemma SuccessCounts(t: Tables, envelope: Envelope, after: Tables)
    requires Fresh(t, envelope) && after == ApplyEvent(t, Decode(envelope), false).0
    requires var s := envelope.eventType; s == "payment.success" || s == "payment.succeeded" || s == "payment.settled"
    ensures var day := envelope.occurredAt / TWENTY_FOUR_HOURS;
      Moved(At(t.metrics, day), At(after.metrics, day), 0, envelope.totalPrice, 0, 1, 1)
  {
    SuccessKind(envelope.eventType);
    Recorded(t, envelope, envelope.occurredAt / TWENTY_FOUR_HOURS, after);
    Gains(At(t.metrics, envelope.occurredAt / TWENTY_FOUR_HOURS), Decode(envelope));
  }

  /** A failed payment adds one attempt. */
  lemma FailureCounts(t: Tables, envelope: Envelope, after: Tables)
    requires Fresh(t, envelope) && after == ApplyEvent(t, Decode(envelope), false).0
    requires envelope.eventType == "payment.failed" || envelope.eventType == "payment.failure"
    ensures var day := envelope.occurredAt / TWENTY_FOUR_HOURS;
      Moved(At(t.metrics, day), At(after.metrics, day), 0, 0, 0, 1, 0)
  {
    if envelope.eventType == "payment.failed" { FailedKind(envelope.eventType); } else { FailureKind(envelope.eventType); }
    Recorded(t, envelope, envelope.occurredAt / TWENTY_FOUR_HOURS, after);
    Gains(At(t.metrics, envelope.occurredAt / TWENTY_FOUR_HOURS), Decode(envelope));
  }

  /** One of the six types that count. */
  predicate Counts(s: string) {
    || s == "order.created" || s == "payment.success" || s == "payment.succeeded" || s == "payment.settled"
    || s == "payment.failed" || s == "payment.failure"
  }

  lemma OtherKinds(s: string)
    requires !Counts(s)
    ensures KindOf(s) == Audit || KindOf(s) == Other
    ensures KindOf(s) == Audit <==> s == "account_status_changed" || s == "account_role_changed"
  {
  }

  /** Every other type adds nothing to any day.  The two account types are kept as audits, the first one of an id. */
  lemma OthersCountNothing(t: Tables, envelope: Envelope, day: int, after: Tables)
    requires Fresh(t, envelope) && after == ApplyEvent(t, Decode(envelope), false).0 && !Counts(envelope.eventType)
    ensures At(after.metrics, day) == At(t.metrics, day)
    ensures after.audits.Keys == t.audits.Keys +
      (if envelope.eventType == "account_status_changed" || envelope.eventType == "account_role_changed" then {envelope.eventId} else {})
    ensures forall id | id in t.audits :: after.audits[id] == t.audits[id]
  {
    OtherKinds(envelope.eventType);
    Recorded(t, envelope, day, after);
  }
}
