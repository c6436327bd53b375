/**
  Deliveries of several partitions at a time.  Each is one transaction that records the event's id, reads the
  row of its day without locking it, and later writes the whole row and commits.
*/
module ConcurrentDeliveries {
  import opened Width
  import opened Projection

  /** An open transaction: the row as it read it, and whether it is the one that creates it. */
  datatype Delivery = Delivery(event: Event, row: Metric, creates: bool)

  datatype System = System(tables: Tables, running: map<nat, Delivery>)

  datatype Action =
    | Read(pid: nat, event: Event)
    | Save(pid: nat)
    | RollBack(pid: nat)

  /** Only these events write the row of their day. */
  predicate Counts(e: Event) {
    e.kind == OrderCreated || e.kind == PaymentSuccess || e.kind == PaymentFailure
  }

  /** The insert of the id, or of the day's row, has to wait for a transaction that inserts the same. */
  predicate Waits(s: System, e: Event) {
    exists pid | pid in s.running :: s.running[pid].event.id == e.id || (s.running[pid].creates && s.running[pid].event.day == e.day)
  }

  /** A delivery that may start does not wait for one of another id and another day, nor for one of its own day that
      found the row there. */
  lemma StartsAtOnce(s: System, pid: nat, e: Event)
    requires pid !in s.running && e.id != "" && e.id !in s.tables.processed
    requires forall q | q in s.running :: s.running[q].event.id != e.id && (s.running[q].event.day != e.day || !s.running[q].creates)
    ensures pid in DoRead(s, pid, e).running && DoRead(s, pid, e).running[pid].event == e && DoRead(s, pid, e).tables == s.tables
  {
  }

  /** It waits for one that is about to insert the same id or the row of the same day. */
  lemma WaitsForInsert(s: System, pid: nat, e: Event, q: nat)
    requires q in s.running && (s.running[q].event.id == e.id || (s.running[q].event.day == e.day && s.running[q].creates))
    ensures DoRead(s, pid, e) == s
  {
  }

  function DoRead(s: System, pid: nat, e: Event): System {
    if pid in s.running || e.id == "" || e.id in s.tables.processed || Waits(s, e) then s
    else s.(running := s.running[pid := Delivery(e, At(s.tables.metrics, e.day), e.day !in s.tables.metrics)])
  }

  /** The tables after a commit: the row is the one that was read, with the event counted. */
  function Committed(t: Tables, d: Delivery): Tables {
    var e := d.event;
    var t' := t.(processed := t.processed + {e.id}, metrics := t.metrics[e.day := At(t.metrics, e.day)]);
    if e.kind == Audit then (if e.id in t.audits then t' else t'.(audits := t.audits[e.id := e]))
    else if Counts(e) then t'.(metrics := t'.metrics[e.day := Increment(d.row, Facts(e))])
    else t'
  }

  function DoSave(s: System, pid: nat): System {
    if pid !in s.running then s else System(Committed(s.tables, s.running[pid]), s.running - {pid})
  }

  function StepOf(s: System, a: Action): System {
    match a
    case Read(pid, e) => DoRead(s, pid, e)
    case Save(pid) => DoSave(s, pid)
    case RollBack(pid) => s.(running := s.running - {pid})
  }

  function RunOf(s: System, actions: seq<Action>): System
    decreases |actions|
  {
    if actions == [] then s else RunOf(StepOf(s, actions[0]), actions[1..])
  }

  /** The event a step commits, after the others. */
  function CommittedBy(s: System, a: Action, events: seq<Event>): seq<Event> {
    if a.Save? && a.pid in s.running then events + [s.running[a.pid].event] else events
  }

  /** Every open transaction has an id of its own, which is not recorded yet. */
  ghost predicate Inv(s: System) {
    && (forall pid | pid in s.running :: s.running[pid].event.id != "" && s.running[pid].event.id !in s.tables.processed)
    && (forall p, q | p in s.running && q in s.running && p != q :: s.running[p].event.id != s.running[q].event.id)
  }

  lemma StepInv(s: System, a: Action)
    requires Inv(s)
    ensures Inv(StepOf(s, a))
  {
  }

  /** A delivery that rolls back leaves the tables and the other deliveries, and is no longer waited for. */
  lemma RolledBackIsGone(s: System, pid: nat, q: nat)
    ensures var s' := StepOf(s, RollBack(pid));
      s'.tables == s.tables && (q in s'.running <==> q in s.running && q != pid) && (q in s'.running ==> s'.running[q] == s.running[q])
  {
  }

  // -------------------------------------------------------- what is reflected

  /** The row the transaction will write is still the one it read. */
  ghost predicate Current(s: System, a: Action) {
    a.Save? && a.pid in s.running && Counts(s.running[a.pid].event) ==>
      s.running[a.pid].row == At(s.tables.metrics, s.running[a.pid].event.day)
  }

  lemma IncrementInjective(m: Metric, n: Metric, t: Totals)
    requires Increment(m, t) == Increment(n, t)
    ensures m == n
  {
    WrapCancel(m.gmv, n.gmv, t.gmv);
    WrapCancel(m.revenue, n.revenue, t.revenue);
  }

  lemma WrapCancel(x: int64, y: int64, z: int)
    requires Wrap64(x + z) == Wrap64(y + z)
    ensures x == y
  {
    WrapAdd(x + z, -z);
    WrapAdd(y + z, -z);
  }

  lemma OtherDaysKept(t: Tables, d: Delivery, events: seq<Event>, day: int)
    requires day != d.event.day && At(t.metrics, day) == Stored(Sum(events, day, day + 1))
    ensures At(Committed(t, d).metrics, day) == Stored(Sum(events + [d.event], day, day + 1))
  {
    SumAppend(events, d.event, day, day + 1);
  }

  /** A row with the facts added is the right one exactly if it was the right one before. */
  lemma RightExactly(row: Metric, before: Totals, facts: Totals)
    ensures Increment(row, facts) == Stored(Add(before, facts)) <==> row == Stored(before)
  {
    IncrementStored(before, facts);
    if Increment(row, facts) == Increment(Stored(before), facts) {
      IncrementInjective(row, Stored(before), facts);
    }
  }

  lemma RowAfter(t: Tables, d: Delivery)
    ensures At(Committed(t, d).metrics, d.event.day)
         == if Counts(d.event) then Increment(d.row, Facts(d.event)) else At(t.metrics, d.event.day)
  {
  }

  lemma RightAfter(e: Event, row: Metric, now: Metric, before: Totals, after: Metric)
    requires now == Stored(before) && after == if Counts(e) then Increment(row, Facts(e)) else now
    ensures after == Stored(Add(before, Facts(e))) <==> (Counts(e) ==> row == now)
  {
    if Counts(e) {
      RightExactly(row, before, Facts(e));
    } else {
      AddNothing(before);
    }
  }

  lemma OwnDay(t: Tables, d: Delivery, events: seq<Event>, day: int, next: int)
    requires day == d.event.day && next == day + 1 && At(t.metrics, day) == Stored(Sum(events, day, next))
    ensures At(Committed(t, d).metrics, day) == Stored(Sum(events + [d.event], day, next))
      <==> (Counts(d.event) ==> d.row == At(t.metrics, day))
  {
    SumAppend(events, d.event, day, next);
    RowAfter(t, d);
    RightAfter(d.event, d.row, At(t.metrics, day), Sum(events, day, next), At(Committed(t, d).metrics, day));
  }

  lemma RowsSaved(t: Tables, d: Delivery, events: seq<Event>)
    requires RowsReflect(t.metrics, events)
    ensures RowsReflect(Committed(t, d).metrics, events + [d.event]) <==> (Counts(d.event) ==> d.row == At(t.metrics, d.event.day))
  {
    OwnDay(t, d, events, d.event.day, d.event.day + 1);
    forall day | day != d.event.day ensures At(Committed(t, d).metrics, day) == Stored(Sum(events + [d.event], day, day + 1)) {
      OtherDaysKept(t, d, events, day);
    }
  }

  lemma IdRecorded(t: Tables, d: Delivery)
    ensures Committed(t, d).processed == t.processed + {d.event.id}
  {
  }

  /** A commit leaves the tables the fold over the committed events if and only if the row it wrote was
      current. */
  lemma SaveReflects(t: Tables, d: Delivery, events: seq<Event>)
    requires Reflects(t, events) && d.event.id !in t.processed
    ensures Reflects(Committed(t, d), events + [d.event]) <==> (Counts(d.event) ==> d.row == At(t.metrics, d.event.day))
  {
    KnownIdsAppend(t.processed, events, d.event);
    IdRecorded(t, d);
    RowsSaved(t, d, events);
  }

  ghost predicate AlwaysReflects(s: System, actions: seq<Action>, events: seq<Event>)
    decreases |actions|
  {
    && Reflects(s.tables, events)
    && (actions != [] ==> AlwaysReflects(StepOf(s, actions[0]), actions[1..], CommittedBy(s, actions[0], events)))
  }

  ghost predicate AlwaysCurrent(s: System, actions: seq<Action>)
    decreases |actions|
  {
    actions != [] ==> Current(s, actions[0]) && AlwaysCurrent(StepOf(s, actions[0]), actions[1..])
  }

  /** However deliveries interleave and fail, the tables always are the fold over the committed events if and
      only if every commit finds the row of its day as it read it. */
  lemma {:induction false} ExactlyOnceWhenCurrent(s: System, actions: seq<Action>, events: seq<Event>)
    requires Inv(s) && Reflects(s.tables, events)
    ensures AlwaysReflects(s, actions, events) <==> AlwaysCurrent(s, actions)
    decreases |actions|
  {
    if actions != [] {
      var a := actions[0];
      StepInv(s, a);
      if a.Save? && a.pid in s.running { SaveReflects(s.tables, s.running[a.pid], events); }
      var next, log := StepOf(s, a), CommittedBy(s, a, events);
      if Current(s, a) {
        ExactlyOnceWhenCurrent(next, actions[1..], log);
      } else {
        assert !AlwaysReflects(next, actions[1..], log);
      }
    }
  }

  /** A delivery that nothing interrupts does what the serial projection does. */
  lemma Uninterrupted(s: System, pid: nat, e: Event)
    requires pid !in s.running && !Waits(s, e) && e.id != "" && e.id !in s.tables.processed
    ensures DoSave(DoRead(s, pid, e), pid).tables == ApplyEvent(s.tables, e, false).0
  {
    var d := Delivery(e, At(s.tables.metrics, e.day), e.day !in s.tables.metrics);
    assert DoSave(DoRead(s, pid, e), pid).tables == Committed(s.tables, d);
  }

  // ------------------------------------------------------------ lost updates

  /** Two deliveries of one day that overlap: the day keeps only the second one's facts, though both ids are
      recorded, so that neither is ever counted again. */
  lemma UpdateLost(s: System, p: nat, q: nat, e: Event, f: Event)
    requires p != q && p !in s.running && q !in s.running && e.day == f.day && e.day in s.tables.metrics
    requires Counts(e) && Counts(f) && e.id != f.id && e.id != "" && f.id != ""
    requires !Waits(s, e) && !Waits(s, f) && e.id !in s.tables.processed && f.id !in s.tables.processed
    ensures var after := RunOf(s, [Read(p, e), Read(q, f), Save(p), Save(q)]).tables;
      && e.id in after.processed && f.id in after.processed
      && At(after.metrics, e.day) == Increment(At(s.tables.metrics, e.day), Facts(f))
      && At(after.metrics, e.day) != Increment(Increment(At(s.tables.metrics, e.day), Facts(e)), Facts(f))
  {
    var s1 := DoRead(s, p, e);
    var s2 := DoRead(s1, q, f);
    RunFour(s, Read(p, e), Read(q, f), Save(p), Save(q));
  }

  lemma RunFour(s: System, a: Action, b: Action, c: Action, d: Action)
    ensures RunOf(s, [a, b, c, d]) == StepOf(StepOf(StepOf(StepOf(s, a), b), c), d)
  {
    assert [a, b, c, d][1..] == [b, c, d] && [b, c, d][1..] == [c, d] && [c, d][1..] == [d] && [d][1..] == [];
    var s1 := StepOf(s, a);
    var s2 := StepOf(s1, b);
    var s3 := StepOf(s2, c);
    assert RunOf(s3, [d]) == RunOf(StepOf(s3, d), []);
    assert RunOf(s2, [c, d]) == RunOf(s3, [d]);
    assert RunOf(s1, [b, c, d]) == RunOf(s2, [c, d]);
  }
}
