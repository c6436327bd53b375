/** The reporting repository, transaction by transaction. */
module AdminRepository {
  import opened Width
  import opened Projection

  /** The switch on the event type, counter by counter. */
  method CountEvent(row: Metric, event: Event) returns (metric: Metric)
    requires event.kind != Audit && event.kind != Other
    ensures metric == Increment(row, Facts(event))
  {
    metric := row;
    match event.kind {
      case OrderCreated =>
        metric := metric.(orders := metric.orders + 1);
        metric := metric.(gmv := Wrap64(metric.gmv + event.total));
      case PaymentSuccess =>
        metric := metric.(attempts := metric.attempts + 1);
        metric := metric.(successes := metric.successes + 1);
        metric := metric.(revenue := Wrap64(metric.revenue + event.total));
      case PaymentFailure =>
        metric := metric.(attempts := metric.attempts + 1);
    }
  }

  /** applyFacts: the day's row is created if it is missing, then an audit or the counters are written. */
  method WriteFacts(tx: Tables, event: Event) returns (after: Tables)
    ensures after == ApplyFacts(tx, event)
  {
    var metric := At(tx.metrics, event.day);
    after := tx.(metrics := tx.metrics[event.day := metric]);
    if event.kind == Audit {
      if event.id !in after.audits {
        after := after.(audits := after.audits[event.id := event]);
      }
      return;
    }
    if event.kind == Other {
      return;
    }
    metric := CountEvent(metric, event);
    after := after.(metrics := after.metrics[event.day := metric]);
  }

  /** The message holds an event with an id. */
  predicate Replayable(record: Record) {
    record.event.Some? && record.event.value.id != ""
  }

  class PostgresRepository {
    var tables: Tables

    constructor ()
      ensures tables == EMPTY
    {
      tables := EMPTY;
    }

    /** The id is recorded and the facts are applied in one transaction; a duplicate changes nothing. */
    method ApplyEvent(envelope: Envelope, fails: bool) returns (ok: bool)
      modifies this
      ensures (tables, ok) == Projection.ApplyEvent(old(tables), Decode(envelope), fails)
    {
      ok := Apply(Decode(envelope), fails);
    }

    method Apply(event: Event, fails: bool) returns (ok: bool)
      modifies this
      ensures (tables, ok) == Projection.ApplyEvent(old(tables), event, fails)
    {
      var tx := tables;
      if event.id == "" {
        return false;
      }
      if fails {
        return false;
      }
      if event.id in tx.processed {
        return true;
      }
      tx := tx.(processed := tx.processed + {event.id});
      tx := WriteFacts(tx, event);
      tables := tx;
      ok := true;
    }

    method Quarantine(payload: Option<Event>)
      modifies this
      ensures tables == Step(old(tables), Op.Quarantine(payload))
    {
      tables := tables.(quarantine := tables.quarantine + [Record(payload, false)]);
    }

    /** The event is applied in one transaction and its record marked in another; without an answer the
        event may have been counted, never more than once. */
    method ReplayQuarantined(id: nat, fails: bool, markFails: bool) returns (ok: bool)
      modifies this
      ensures tables == Step(old(tables), Replay(id, fails, markFails))
      ensures |tables.quarantine| == |old(tables).quarantine|
      ensures ok <==> !fails && !markFails && id < |tables.quarantine| && Replayable(tables.quarantine[id])
      ensures ok ==> tables.quarantine[id].replayed && tables.quarantine[id].event.value.id in tables.processed
    {
      if id >= |tables.quarantine| || tables.quarantine[id].event.None? {
        return false;
      }
      var event := tables.quarantine[id].event.value;
      ApplyFactsKeeps(tables.(processed := tables.processed + {event.id}), event);
      ok := Apply(event, fails);
      if !ok || markFails {
        return false;
      }
      tables := tables.(quarantine := tables.quarantine[id := tables.quarantine[id].(replayed := true)]);
    }
  }
}
