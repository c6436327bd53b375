/** The reporting projection: events delivered any number of times, each counted once. */
module Projection {
  import opened Sums
  import opened Width

  const DAY: int := 24 * 3600 * 1_000_000_000

  // ---------------------------------------------------------------- counters

  /** The counters of some events, exactly. */
  datatype Totals = Totals(gmv: int, revenue: int, orders: nat, attempts: nat, successes: nat)

  /** A stored row.  The amounts wrap around like every int64; the uint64 counters are far below their width. */
  datatype Metric = Metric(gmv: int64, revenue: int64, orders: nat, attempts: nat, successes: nat)

  const NOTHING: Totals := Totals(0, 0, 0, 0, 0)
  const ZERO: Metric := Metric(0, 0, 0, 0, 0)

  function Add(a: Totals, b: Totals): Totals {
    Totals(a.gmv + b.gmv, a.revenue + b.revenue, a.orders + b.orders, a.attempts + b.attempts, a.successes + b.successes)
  }

  function Stored(t: Totals): Metric {
    Metric(Wrap64(t.gmv), Wrap64(t.revenue), t.orders, t.attempts, t.successes)
  }

  /** A row after one more event. */
  function Increment(m: Metric, t: Totals): Metric {
    Metric(Wrap64(m.gmv + t.gmv), Wrap64(m.revenue + t.revenue), m.orders + t.orders, m.attempts + t.attempts, m.successes + t.successes)
  }

  function AddRows(m: Metric, n: Metric): Metric {
    Metric(Wrap64(m.gmv + n.gmv), Wrap64(m.revenue + n.revenue), m.orders + n.orders, m.attempts + n.attempts, m.successes + n.successes)
  }

  lemma IncrementStored(a: Totals, b: Totals)
    ensures Increment(Stored(a), b) == Stored(Add(a, b))
  {
    WrapAdd(a.gmv, b.gmv);
    WrapAdd(a.revenue, b.revenue);
  }

  lemma AddStored(a: Totals, b: Totals)
    ensures AddRows(Stored(a), Stored(b)) == Stored(Add(a, b))
  {
    WrapBoth(a.gmv, b.gmv);
    WrapBoth(a.revenue, b.revenue);
  }

  lemma WrapBoth(x: int, y: int)
    ensures Wrap64(Wrap64(x) + Wrap64(y)) == Wrap64(x + y)
  {
    WrapAdd(x, Wrap64(y));
    WrapAdd(y, x);
  }

  // ------------------------------------------------------------------ tables

  /** An event as published. */
  datatype Envelope = Envelope(eventId: string, eventType: string, occurredAt: int, totalPrice: int64)

  datatype Kind = OrderCreated | PaymentSuccess | PaymentFailure | Audit | Other

  /** What the projection keeps of an event: its id, what it counts as, its day and its amount. */
  datatype Event = Event(id: string, kind: Kind, day: int, total: int64)

  function KindOf(eventType: string): Kind {
    if eventType == "account_status_changed" || eventType == "account_role_changed" then Audit
    else if eventType == "order.created" then OrderCreated
    else if eventType == "payment.success" || eventType == "payment.succeeded" || eventType == "payment.settled" then PaymentSuccess
    else if eventType == "payment.failed" || eventType == "payment.failure" then PaymentFailure
    else Other
  }

  /** The day is the time truncated to 24 hours. */
  function Decode(e: Envelope): Event {
    Event(e.eventId, KindOf(e.eventType), e.occurredAt / DAY, e.totalPrice)
  }

  /** What one event adds to its day. */
  function Facts(e: Event): Totals {
    match e.kind
    case OrderCreated => Totals(e.total, 0, 1, 0, 0)
    case PaymentSuccess => Totals(0, e.total, 0, 1, 1)
    case PaymentFailure => Totals(0, 0, 0, 1, 0)
    case _ => NOTHING
  }

  /** A quarantined message; one that cannot be decoded holds no event. */
  datatype Record = Record(event: Option<Event>, replayed: bool)

  datatype Tables = Tables(processed: set<string>, metrics: map<int, Metric>, audits: map<string, Event>, quarantine: seq<Record>)

  const EMPTY: Tables := Tables({}, map[], map[], [])

  function At(metrics: map<int, Metric>, day: int): Metric {
    if day in metrics then metrics[day] else ZERO
  }

  /** applyFacts, in the transaction that recorded the event id. */
  function ApplyFacts(t: Tables, e: Event): Tables {
    var metric := At(t.metrics, e.day);
    var t' := t.(metrics := t.metrics[e.day := metric]);
    if e.kind == Audit then (if e.id in t.audits then t' else t'.(audits := t.audits[e.id := e]))
    else if e.kind == Other then t'
    else t'.(metrics := t'.metrics[e.day := Increment(metric, Facts(e))])
  }

  /** ApplyEvent; a failing transaction leaves everything as it was. */
  function ApplyEvent(t: Tables, e: Event, fails: bool): (Tables, bool) {
    if e.id == "" || fails then (t, false)
    else if e.id in t.processed then (t, true)
    else (ApplyFacts(t.(processed := t.processed + {e.id}), e), true)
  }

  datatype Op =
    | Deliver(event: Event, fails: bool)
    | Quarantine(payload: Option<Event>)
    | Replay(id: nat, fails: bool, markFails: bool)

  /** The event an operation hands to ApplyEvent, if any. */
  function Handed(t: Tables, op: Op): Option<Event> {
    match op
    case Deliver(e, _) => Some(e)
    case Quarantine(_) => None
    case Replay(id, _, _) => if id < |t.quarantine| then t.quarantine[id].event else None
  }

  /** The record is marked in a statement of its own, after the event came through. */
  function Marked(t: Tables, id: nat): Tables {
    if id < |t.quarantine| then t.(quarantine := t.quarantine[id := t.quarantine[id].(replayed := true)]) else t
  }

  function Step(t: Tables, op: Op): Tables {
    match op
    case Quarantine(e) => t.(quarantine := t.quarantine + [Record(e, false)])
    case Deliver(e, fails) => ApplyEvent(t, e, fails).0
    case Replay(id, fails, markFails) =>
      if Handed(t, op).None? then t
      else
        var (t', ok) := ApplyEvent(t, Handed(t, op).value, fails);
        if ok && !markFails then Marked(t', id) else t'
  }

  function Run(t: Tables, ops: seq<Op>): Tables {
    if ops == [] then t else Step(Run(t, ops[..|ops| - 1]), ops[|ops| - 1])
  }

  /** The event an operation applies: one handed over successfully whose id is new. */
  function Applies(t: Tables, op: Op): Option<Event> {
    match Handed(t, op)
    case None => None
    case Some(e) => if e.id == "" || op.fails || e.id in t.processed then None else Some(e)
  }

  /** The events applied over a run, in order. */
  function Applied(t: Tables, ops: seq<Op>): seq<Event> {
    if ops == [] then []
    else
      var n := |ops| - 1;
      match Applies(Run(t, ops[..n]), ops[n])
      case None => Applied(t, ops[..n])
      case Some(e) => Applied(t, ops[..n]) + [e]
  }

  // -------------------------------------------------------------------- sums

  /** The facts of the events from day `from` up to, but without, day `until`. */
  function Sum(events: seq<Event>, from: int, until: int): Totals {
    if events == [] then NOTHING
    else
      var n := |events| - 1;
      var rest := Sum(events[..n], from, until);
      if from <= events[n].day < until then Add(rest, Facts(events[n])) else rest
  }

  ghost predicate Distinct(events: seq<Event>) {
    forall i, j | 0 <= i < j < |events| :: events[i].id != events[j].id
  }

  ghost predicate KnownIds(processed: set<string>, events: seq<Event>) {
    forall id :: id in processed <==> exists i :: 0 <= i < |events| && events[i].id == id
  }

  ghost predicate RowsReflect(metrics: map<int, Metric>, events: seq<Event>) {
    forall day :: At(metrics, day) == Stored(Sum(events, day, day + 1))
  }

  /** What the tables hold is determined by the events applied. */
  ghost predicate Reflects(t: Tables, events: seq<Event>) {
    && Distinct(events)
    && KnownIds(t.processed, events)
    && RowsReflect(t.metrics, events)
  }

  lemma SumAppend(events: seq<Event>, e: Event, from: int, until: int)
    ensures Sum(events + [e], from, until)
         == if from <= e.day < until then Add(Sum(events, from, until), Facts(e)) else Sum(events, from, until)
  {
    assert (events + [e])[..|events|] == events;
  }

  /** A row after one event of some kind. */
  function RowAfter(m: Metric, e: Event): Metric {
    if e.kind == Audit || e.kind == Other then m else Increment(m, Facts(e))
  }

  lemma RowOf(t: Tables, e: Event, day: int)
    ensures At(ApplyFacts(t, e).metrics, day) == if day == e.day then RowAfter(At(t.metrics, day), e) else At(t.metrics, day)
  {
  }

  lemma RowAfterStored(before: Totals, e: Event)
    ensures RowAfter(Stored(before), e) == Stored(Add(before, Facts(e)))
  {
    if e.kind == Audit || e.kind == Other {
      AddNothing(before);
    } else {
      IncrementStored(before, Facts(e));
    }
  }

  /** The row of the event's day gains its facts, every other row stays. */
  lemma FactsApplied(t: Tables, e: Event, before: Totals)
    requires At(t.metrics, e.day) == Stored(before)
    ensures At(ApplyFacts(t, e).metrics, e.day) == Stored(Add(before, Facts(e)))
  {
    RowOf(t, e, e.day);
    RowAfterStored(before, e);
  }

  lemma AddNothing(t: Totals)
    ensures Add(t, NOTHING) == t && Stored(NOTHING) == ZERO
  {
  }

  lemma OtherRowsStay(t: Tables, e: Event, day: int)
    requires day != e.day
    ensures At(ApplyFacts(t, e).metrics, day) == At(t.metrics, day)
  {
  }

  lemma ApplyFactsKeeps(t: Tables, e: Event)
    ensures ApplyFacts(t, e).processed == t.processed && ApplyFacts(t, e).quarantine == t.quarantine
  {
  }

  lemma KnownIdsAppend(processed: set<string>, events: seq<Event>, e: Event)
    requires KnownIds(processed, events) && Distinct(events) && e.id !in processed
    ensures KnownIds(processed + {e.id}, events + [e]) && Distinct(events + [e])
  {
    var longer := events + [e];
    assert longer[|events|] == e && forall i | 0 <= i < |events| :: longer[i] == events[i];
    forall id ensures id in processed + {e.id} <==> exists i :: 0 <= i < |longer| && longer[i].id == id {
      if id == e.id {
        assert longer[|events|].id == id;
      } else if id in processed {
        var i :| 0 <= i < |events| && events[i].id == id;
        assert longer[i].id == id;
      }
    }
  }

  lemma RowApplied(t: Tables, events: seq<Event>, e: Event, day: int, next: int)
    requires next == day + 1 && At(t.metrics, day) == Stored(Sum(events, day, next))
    ensures At(ApplyFacts(t, e).metrics, day) == Stored(Sum(events + [e], day, next))
  {
    SumAppend(events, e, day, next);
    if day == e.day {
      FactsApplied(t, e, Sum(events, day, next));
    } else {
      OtherRowsStay(t, e, day);
    }
  }

  lemma RowsApplied(t: Tables, events: seq<Event>, e: Event)
    requires RowsReflect(t.metrics, events)
    ensures RowsReflect(ApplyFacts(t, e).metrics, events + [e])
  {
    forall day ensures At(ApplyFacts(t, e).metrics, day) == Stored(Sum(events + [e], day, day + 1)) {
      RowApplied(t, events, e, day, day + 1);
    }
  }

  lemma AppliedOne(t: Tables, events: seq<Event>, e: Event)
    requires Reflects(t, events) && e.id !in t.processed
    ensures Reflects(ApplyFacts(t.(processed := t.processed + {e.id}), e), events + [e])
  {
    var recorded := t.(processed := t.processed + {e.id});
    RowsApplied(recorded, events, e);
    ApplyFactsKeeps(recorded, e);
    KnownIdsAppend(t.processed, events, e);
  }

  /** Exactly once: whatever is delivered, repeated, reordered, failed, quarantined and replayed, the
      tables are the fold over the applied events, and no id is applied twice. */
  lemma {:induction false} ExactlyOnce(ops: seq<Op>)
    ensures Reflects(Run(EMPTY, ops), Applied(EMPTY, ops))
  {
    if ops != [] {
      var n := |ops| - 1;
      var t := Run(EMPTY, ops[..n]);
      ExactlyOnce(ops[..n]);
      if Applies(t, ops[n]).Some? {
        AppliedOne(t, Applied(EMPTY, ops[..n]), Applies(t, ops[n]).value);
      }
    }
  }

  /** A record is marked as replayed only when the id of its event is recorded. */
  ghost predicate MarksTrue(t: Tables) {
    forall i | 0 <= i < |t.quarantine| && t.quarantine[i].replayed ::
      t.quarantine[i].event.Some? && t.quarantine[i].event.value.id in t.processed
  }

  lemma StepMarks(t: Tables, op: Op)
    requires MarksTrue(t)
    ensures MarksTrue(Step(t, op))
  {
    if Handed(t, op).Some? {
      var e := Handed(t, op).value;
      ApplyFactsKeeps(t.(processed := t.processed + {e.id}), e);
    }
  }

  /** In every history: what is marked as replayed was counted, with the id of exactly one applied event. */
  lemma {:induction false} ReplayedIsCounted(ops: seq<Op>, i: nat)
    requires i < |Run(EMPTY, ops).quarantine| && Run(EMPTY, ops).quarantine[i].replayed
    ensures var record := Run(EMPTY, ops).quarantine[i];
      record.event.Some? && exists k :: 0 <= k < |Applied(EMPTY, ops)| && Applied(EMPTY, ops)[k].id == record.event.value.id
  {
    RunMarks(ops);
    ExactlyOnce(ops);
  }

  lemma {:induction false} RunMarks(ops: seq<Op>)
    ensures MarksTrue(Run(EMPTY, ops))
  {
    if ops != [] {
      RunMarks(ops[..|ops| - 1]);
      StepMarks(Run(EMPTY, ops[..|ops| - 1]), ops[|ops| - 1]);
    }
  }

  // ----------------------------------------------------- order and repetition

  lemma AddSwaps(t: Totals, a: Totals, b: Totals)
    ensures Add(Add(t, a), b) == Add(Add(t, b), a)
  {
  }

  lemma {:induction false} SumRemove(events: seq<Event>, i: nat, from: int, until: int)
    requires i < |events|
    ensures var rest := Sum(events[..i] + events[i + 1..], from, until);
      Sum(events, from, until) == if from <= events[i].day < until then Add(rest, Facts(events[i])) else rest
  {
    var n := |events| - 1;
    if i == n {
      assert events[..i] + events[i + 1..] == events[..n];
    } else {
      var rest := events[..n][..i] + events[..n][i + 1..];
      SumRemove(events[..n], i, from, until);
      assert events[..i] + events[i + 1..] == rest + [events[n]];
      SumAppend(rest, events[n], from, until);
      AddSwaps(Sum(rest, from, until), Facts(events[i]), Facts(events[n]));
    }
  }

  /** The fold does not depend on the order of the events. */
  lemma {:induction false} SumUnordered(a: seq<Event>, b: seq<Event>, from: int, until: int)
    requires multiset(a) == multiset(b)
    ensures Sum(a, from, until) == Sum(b, from, until)
    decreases |a|
  {
    assert |a| == |multiset(a)| == |b|;
    if a != [] {
      var i := TakeOut(a, b);
      SumUnordered(a[..|a| - 1], b[..i] + b[i + 1..], from, until);
      SumRemove(b, i, from, until);
    }
  }

  lemma SameEvents(a: seq<Event>, b: seq<Event>)
    requires Distinct(a) && Distinct(b) && forall e :: e in a <==> e in b
    ensures multiset(a) == multiset(b)
  {
    assert DistinctBy(a, (e: Event) => e.id) && DistinctBy(b, (e: Event) => e.id);
    forall e ensures multiset(a)[e] == multiset(b)[e] {
      CountOne(a, (e: Event) => e.id, e);
      CountOne(b, (e: Event) => e.id, e);
    }
  }

  /** Two histories that applied the same events have the same metrics on every day, however often and in
      whatever order the events came. */
  lemma OrderDoesNotMatter(ops: seq<Op>, ops': seq<Op>, day: int)
    requires forall e :: e in Applied(EMPTY, ops) <==> e in Applied(EMPTY, ops')
    ensures At(Run(EMPTY, ops).metrics, day) == At(Run(EMPTY, ops').metrics, day)
  {
    ExactlyOnce(ops);
    ExactlyOnce(ops');
    SameEvents(Applied(EMPTY, ops), Applied(EMPTY, ops'));
    SumUnordered(Applied(EMPTY, ops), Applied(EMPTY, ops'), day, day + 1);
  }

  /** The k-th operation hands the event over in a transaction that commits. */
  ghost predicate CameAt(ops: seq<Op>, k: int, e: Event) {
    0 <= k < |ops| && Handed(Run(EMPTY, ops[..k]), ops[k]) == Some(e) && !ops[k].fails
  }

  ghost predicate Came(ops: seq<Op>, e: Event) {
    exists k :: CameAt(ops, k, e)
  }

  lemma CameEarlier(ops: seq<Op>, n: nat, k: int, e: Event)
    requires n <= |ops| && CameAt(ops[..n], k, e)
    ensures CameAt(ops, k, e)
  {
    assert ops[..n][..k] == ops[..k];
  }

  lemma {:induction false} AppliedCame(ops: seq<Op>, e: Event)
    requires e in Applied(EMPTY, ops)
    ensures e.id != "" && Came(ops, e)
  {
    var n := |ops| - 1;
    if e in Applied(EMPTY, ops[..n]) {
      AppliedCame(ops[..n], e);
      var k :| CameAt(ops[..n], k, e);
      CameEarlier(ops, n, k, e);
    } else {
      assert CameAt(ops, n, e);
    }
  }

  lemma {:induction false} ProcessedStays(ops: seq<Op>, k: nat, id: string)
    requires k <= |ops| && id in Run(EMPTY, ops[..k]).processed
    ensures id in Run(EMPTY, ops).processed
  {
    if k == |ops| {
      assert ops[..k] == ops;
    } else {
      var n := |ops| - 1;
      assert ops[..n][..k] == ops[..k];
      ProcessedStays(ops[..n], k, id);
    }
  }

  lemma HandedProcessed(t: Tables, op: Op, e: Event)
    requires Handed(t, op) == Some(e) && !op.fails && e.id != ""
    ensures e.id in Step(t, op).processed
  {
    ApplyFactsKeeps(t.(processed := t.processed + {e.id}), e);
  }

  lemma CameProcessed(ops: seq<Op>, k: nat, e: Event)
    requires CameAt(ops, k, e) && e.id != ""
    ensures e.id in Run(EMPTY, ops).processed
  {
    var n := k + 1;
    assert ops[..n][..k] == ops[..k] && ops[..n][k] == ops[k];
    assert Run(EMPTY, ops[..n]) == Step(Run(EMPTY, ops[..k]), ops[k]);
    HandedProcessed(Run(EMPTY, ops[..k]), ops[k], e);
    ProcessedStays(ops, n, e.id);
  }

  /** If an id always stands for one event, the events applied are exactly the events with an id that came
      through at least once: counts, failures, replays and order leave no trace. */
  lemma AppliedExactly(ops: seq<Op>, e: Event)
    requires forall a, b | Came(ops, a) && Came(ops, b) && a.id == b.id :: a == b
    ensures e in Applied(EMPTY, ops) <==> e.id != "" && Came(ops, e)
  {
    if e in Applied(EMPTY, ops) {
      AppliedCame(ops, e);
    } else if e.id != "" && Came(ops, e) {
      var k :| CameAt(ops, k, e);
      CameProcessed(ops, k, e);
      ExactlyOnce(ops);
      var i :| 0 <= i < |Applied(EMPTY, ops)| && Applied(EMPTY, ops)[i].id == e.id;
      AppliedCame(ops, Applied(EMPTY, ops)[i]);
    }
  }

  // ------------------------------------------------------------------ windows

  lemma {:induction false} SuccessesWithinAttempts(events: seq<Event>, from: int, until: int)
    ensures Sum(events, from, until).successes <= Sum(events, from, until).attempts
  {
    if events != [] { SuccessesWithinAttempts(events[..|events| - 1], from, until); }
  }

  /** In every history and on every day there are at most as many successes as attempts. */
  lemma SuccessesNeverExceedAttempts(ops: seq<Op>, day: int)
    ensures At(Run(EMPTY, ops).metrics, day).successes <= At(Run(EMPTY, ops).metrics, day).attempts
  {
    ExactlyOnce(ops);
    SuccessesWithinAttempts(Applied(EMPTY, ops), day, day + 1);
  }

  lemma AddLast(a: Totals, b: Totals, c: Totals)
    ensures Add(Add(a, b), c) == Add(a, Add(b, c)) == Add(Add(a, c), b)
  {
  }

  lemma {:induction false} SumSplits(events: seq<Event>, from: int, mid: int, until: int)
    requires from <= mid <= until
    ensures Sum(events, from, until) == Add(Sum(events, from, mid), Sum(events, mid, until))
  {
    if events == [] {
      AddNothing(NOTHING);
    } else {
      var n := |events| - 1;
      SumSplits(events[..n], from, mid, until);
      AddLast(Sum(events[..n], from, mid), Sum(events[..n], mid, until), Facts(events[n]));
    }
  }

  lemma {:induction false} SumNone(events: seq<Event>, from: int)
    ensures Sum(events, from, from) == NOTHING
  {
    if events != [] { SumNone(events[..|events| - 1], from); }
  }

  /** The totals of the days from `from` up to, but without, `until`, as Dashboard adds up the rows. */
  function Window(metrics: map<int, Metric>, from: int, until: int): Metric
    decreases until - from
  {
    if from >= until then ZERO
    else
      var sum := Window(metrics, from, until - 1);
      if until - 1 in metrics then AddRows(sum, metrics[until - 1]) else sum
  }

  lemma WindowNext(metrics: map<int, Metric>, from: int, day: int, until: int)
    requires from <= day && until == day + 1
    ensures Window(metrics, from, until)
         == if day in metrics then AddRows(Window(metrics, from, day), metrics[day]) else Window(metrics, from, day)
  {
  }

  /** The loop over the rows of a window. */
  method Dashboard(metrics: map<int, Metric>, from: int, until: int) returns (totals: Metric)
    requires from <= until
    ensures totals == Window(metrics, from, until)
  {
    totals := ZERO;
    for day := from to until
      invariant totals == Window(metrics, from, day)
    {
      WindowNext(metrics, from, day, day + 1);
      if day in metrics {
        totals := AddRows(totals, metrics[day]);
      }
    }
  }

  /** A day without a row adds nothing, even if its exact amounts have wrapped around to 0. */
  lemma RowAbsent(a: Totals, b: Totals)
    requires Stored(b) == ZERO
    ensures Stored(Add(a, b)) == Stored(a)
  {
    AddStored(a, b);
    WrapAdd(a.gmv, 0);
    WrapAdd(a.revenue, 0);
  }

  lemma WindowStep(t: Tables, events: seq<Event>, from: int, day: int, until: int)
    requires Reflects(t, events) && from <= day && until == day + 1
    requires Window(t.metrics, from, day) == Stored(Sum(events, from, day))
    ensures Window(t.metrics, from, until) == Stored(Sum(events, from, until))
  {
    var before, row := Sum(events, from, day), Sum(events, day, until);
    assert At(t.metrics, day) == Stored(row);
    WindowNext(t.metrics, from, day, until);
    SumSplits(events, from, day, until);
    if day in t.metrics {
      AddStored(before, row);
    } else {
      RowAbsent(before, row);
    }
  }

  lemma {:induction false} WindowOf(t: Tables, events: seq<Event>, from: int, until: int)
    requires Reflects(t, events) && from <= until
    ensures Window(t.metrics, from, until) == Stored(Sum(events, from, until))
    decreases until - from
  {
    if from == until {
      SumNone(events, from);
    } else {
      var day := until - 1;
      WindowOf(t, events, from, day);
      WindowStep(t, events, from, day, until);
    }
  }

  /** The dashboard of a window is the fold over the distinct events of the window, and the totals of
      adjacent windows add up to those of the whole. */
  lemma WindowsAddUp(ops: seq<Op>, from: int, mid: int, until: int)
    requires from <= mid <= until
    ensures var metrics := Run(EMPTY, ops).metrics;
      && Window(metrics, from, until) == Stored(Sum(Applied(EMPTY, ops), from, until))
      && Window(metrics, from, until) == AddRows(Window(metrics, from, mid), Window(metrics, mid, until))
  {
    ExactlyOnce(ops);
    var t, events := Run(EMPTY, ops), Applied(EMPTY, ops);
    WindowOf(t, events, from, until);
    WindowOf(t, events, from, mid);
    WindowOf(t, events, mid, until);
    SumSplits(events, from, mid, until);
    AddStored(Sum(events, from, mid), Sum(events, mid, until));
  }
}
