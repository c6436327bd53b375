/**
  The same protocol against the clock: every request ends within its deadline, and a stored cart lives for its
  full term after the last save.
*/
module CartLockTimed {
  import opened Width
  import opened CartLock

  /** `limit` bounds the life of a request, `term` is the life of a saved cart key; `applied` remembers when each
      proposal was applied. */
  datatype Clocked = Clocked(sys: System, now: int, cartUntil: int, since: map<Token, int>, applied: map<string, int>)

  datatype Event = Wait(time: nat) | Act(action: Action)

  /** The token of a request's own step. */
  function Doer(a: Action): Option<Token> {
    match a
    case Lock(t) => Some(t)
    case Load(t) => Some(t)
    case Save(t, _) => Some(t)
    case Unlock(t) => Some(t)
    case _ => None
  }

  /** A request takes no step after its deadline, and the cart key does not expire before its term. */
  predicate Possible(c: Clocked, a: Action, limit: int) {
    && (Doer(a).Some? ==> Doer(a).value in c.since && c.now <= c.since[Doer(a).value] + limit)
    && (a.CartExpires? ==> c.now >= c.cartUntil)
  }

  predicate Saves(s: System, a: Action) {
    && a.Save? && !a.fails && a.token in s.requests
    && s.requests[a.token].phase.Loaded? && s.requests[a.token].phase.version < MAX_UINT64
  }

  function Starter(a: Action): Option<Token> {
    match a
    case StartConfirm(t, _) => Some(t)
    case StartMutation(t) => Some(t)
    case _ => None
  }

  function ClockedStep(c: Clocked, e: Event, term: int, limit: int): Clocked {
    match e
    case Wait(time) => c.(now := c.now + time)
    case Act(a) =>
      if !Possible(c, a, limit) then c
      else
        var sys := Step(c.sys, a);
        c.(sys := sys,
           cartUntil := if Saves(c.sys, a) then c.now + term else c.cartUntil,
           since := if Starter(a).Some? && Starter(a).value !in c.sys.requests then c.since[Starter(a).value := c.now] else c.since,
           applied := if |sys.log| > |c.sys.log| then c.applied[sys.log[|sys.log| - 1].id := c.now] else c.applied)
  }

  function ClockedRun(c: Clocked, events: seq<Event>, term: int, limit: int): Clocked
    decreases |events|
  {
    if events == [] then c else ClockedRun(ClockedStep(c, events[0], term, limit), events[1..], term, limit)
  }

  // --------------------------------------------------------------- invariant

  ghost predicate AppliedOnce(log: seq<Application>) {
    forall i, j | 0 <= i < j < |log| :: log[i].id != log[j].id
  }

  /** An applied proposal's cart is still there, or its term is over. */
  ghost predicate TermsKept(c: Clocked, term: int) {
    forall i | 0 <= i < |c.sys.log| ::
      var id := c.sys.log[i].id;
      && id in c.applied && c.applied[id] <= c.now
      && (if c.sys.log[i].era == c.sys.era then c.applied[id] + term <= c.cartUntil else c.applied[id] + term <= c.now)
  }

  /** The request may still apply its proposal. */
  predicate Eager(r: Request) {
    r.task.Confirm? && !r.phase.Finished? && !r.phase.Leaving?
  }

  /** An applied proposal is marked as such as long as it is stored. */
  ghost predicate Marked(s: System, applied: map<string, int>) {
    forall id | id in applied :: id in s.bases && (id in s.keys.proposals ==> s.keys.proposals[id].applied)
  }

  /** Whoever still wants to apply a proposal that was applied has read it before. */
  ghost predicate ReadBefore(requests: map<Token, Request>, since: map<Token, int>, applied: map<string, int>) {
    forall t | t in requests && Eager(requests[t]) && requests[t].task.id in applied ::
      t in since && since[t] <= applied[requests[t].task.id]
  }

  /** Requests are known to the clock, and only applied proposals are remembered as such. */
  ghost predicate Known(c: Clocked) {
    && (forall t | t in c.sys.requests :: t in c.since)
    && (forall t | t in c.since :: c.since[t] <= c.now)
    && (forall id | id in c.applied :: exists i :: 0 <= i < |c.sys.log| && c.sys.log[i].id == id)
  }

  ghost predicate ClockedInv(c: Clocked, term: int) {
    && Inv(c.sys) && AppliedOnce(c.sys.log) && TermsKept(c, term) && Known(c)
    && Marked(c.sys, c.applied) && ReadBefore(c.sys.requests, c.since, c.applied)
  }

  /** A confirmation that gets to its save was not beaten to it: had the proposal been applied in this lifetime
      of the key the version would have moved on; in an earlier one, the request would be past its deadline. */
  lemma FirstToApply(c: Clocked, a: Action, term: int, limit: int)
    requires ClockedInv(c, term) && limit < term && Possible(c, a, limit)
    requires a.Save? && |Step(c.sys, a).log| > |c.sys.log|
    ensures c.sys.requests[a.token].task.Confirm? && c.sys.requests[a.token].task.id !in c.applied
  {
    assert Critical(c.sys.requests[a.token]);
  }

  /** What a save that applies a proposal changes. */
  ghost predicate JustApplied(c: Clocked, c': Clocked, id: string, term: int) {
    && id !in c.applied && id in c.sys.bases
    && c'.sys.log == c.sys.log + [Application(id, c.sys.era)] && c'.applied == c.applied[id := c.now]
    && c'.now == c.now && c'.cartUntil == c.now + term && c'.sys.era == c.sys.era && c'.since == c.since
    && c'.sys.requests.Keys == c.sys.requests.Keys && c'.sys.bases == c.sys.bases
    && (forall t | t in c'.sys.requests ::
          c'.sys.requests[t].task == c.sys.requests[t].task && (Eager(c'.sys.requests[t]) ==> Eager(c.sys.requests[t])))
    && (forall other | other in c'.sys.keys.proposals ::
          if other == id then c'.sys.keys.proposals[id].applied
          else other in c.sys.keys.proposals && c'.sys.keys.proposals[other] == c.sys.keys.proposals[other])
  }

  lemma Applies(c: Clocked, c': Clocked, a: Action, term: int, limit: int)
    requires ClockedInv(c, term) && limit < term && Possible(c, a, limit) && a.Save? && c' == ClockedStep(c, Act(a), term, limit)
    requires |Step(c.sys, a).log| > |c.sys.log|
    ensures JustApplied(c, c', c.sys.requests[a.token].task.id, term)
  {
    FirstToApply(c, a, term, limit);
    assert BasesKept(c.sys);
  }

  lemma AppliedTerms(c: Clocked, c': Clocked, id: string, term: int)
    requires JustApplied(c, c', id, term) && AppliedOnce(c.sys.log) && TermsKept(c, term) && term >= 0
    ensures AppliedOnce(c'.sys.log) && TermsKept(c', term)
  {
    forall i | 0 <= i < |c.sys.log| ensures c'.sys.log[i] == c.sys.log[i] && c.sys.log[i].id != id {
      assert c.sys.log[i].id in c.applied;
    }
  }

  lemma AppliedKnown(c: Clocked, c': Clocked, id: string, term: int)
    requires JustApplied(c, c', id, term) && Known(c)
    ensures Known(c')
  {
    var n := |c.sys.log|;
    forall other | other in c'.applied ensures exists i :: 0 <= i < |c'.sys.log| && c'.sys.log[i].id == other {
      if other == id {
        assert c'.sys.log[n].id == id;
      } else {
        var i :| 0 <= i < n && c.sys.log[i].id == other;
        assert c'.sys.log[i].id == other;
      }
    }
  }

  lemma AppliedReads(c: Clocked, c': Clocked, id: string, term: int)
    requires JustApplied(c, c', id, term) && Known(c) && Marked(c.sys, c.applied) && ReadBefore(c.sys.requests, c.since, c.applied)
    ensures Marked(c'.sys, c'.applied) && ReadBefore(c'.sys.requests, c'.since, c'.applied)
  {
  }

  /** Every other step leaves the log as it is. */
  lemma LogStays(c: Clocked, c': Clocked, a: Action, term: int, limit: int)
    requires Possible(c, a, limit) && c' == ClockedStep(c, Act(a), term, limit) && |Step(c.sys, a).log| <= |c.sys.log|
    ensures c'.sys.log == c.sys.log && c'.applied == c.applied && c'.now == c.now
    ensures c'.cartUntil == c.cartUntil || c'.cartUntil == c.now + term
    ensures c'.sys.era == c.sys.era || (a.CartExpires? && c'.sys.era == c.sys.era + 1 && c.now >= c.cartUntil)
  {
  }

  lemma TermsStay(c: Clocked, c': Clocked, a: Action, term: int, limit: int)
    requires ClockedInv(c, term) && Possible(c, a, limit) && c' == ClockedStep(c, Act(a), term, limit)
    requires |Step(c.sys, a).log| <= |c.sys.log|
    ensures AppliedOnce(c'.sys.log) && TermsKept(c', term)
  {
    LogStays(c, c', a, term, limit);
    assert LeftBehind(c.sys);
  }

  /** How one step changes one request: it goes on with its task, or it has just read an open proposal. */
  lemma RequestMoves(s: System, a: Action, t: Token)
    requires t in Step(s, a).requests
    ensures var r := Step(s, a).requests[t];
      if t in s.requests then r.task == s.requests[t].task && (Eager(r) ==> Eager(s.requests[t]))
      else Starter(a) == Some(t) && (r.task.Confirm? ==> r.task.id in s.keys.proposals && !s.keys.proposals[r.task.id].applied)
  {
  }

  lemma MarksStay(s: System, a: Action, applied: map<string, int>)
    requires Marked(s, applied) && BasesKept(s)
    ensures Marked(Step(s, a), applied)
  {
  }

  lemma ReadsStay(c: Clocked, c': Clocked, a: Action, term: int, limit: int)
    requires ClockedInv(c, term) && Possible(c, a, limit) && c' == ClockedStep(c, Act(a), term, limit)
    requires |Step(c.sys, a).log| <= |c.sys.log|
    ensures Known(c') && Marked(c'.sys, c'.applied) && ReadBefore(c'.sys.requests, c'.since, c'.applied)
  {
    LogStays(c, c', a, term, limit);
    MarksStay(c.sys, a, c.applied);
    assert c'.sys == Step(c.sys, a);
    forall t | t in c'.sys.requests
      ensures t in c'.since
      ensures Eager(c'.sys.requests[t]) && c'.sys.requests[t].task.id in c.applied ==> c'.since[t] <= c.applied[c'.sys.requests[t].task.id]
    {
      RequestMoves(c.sys, a, t);
    }
  }

  lemma ActKeeps(c: Clocked, a: Action, term: int, limit: int)
    requires ClockedInv(c, term) && 0 <= limit < term
    ensures ClockedInv(ClockedStep(c, Act(a), term, limit), term)
  {
    if Possible(c, a, limit) {
      var c' := ClockedStep(c, Act(a), term, limit);
      StepKeeps(c.sys, a);
      if |Step(c.sys, a).log| > |c.sys.log| {
        Applies(c, c', a, term, limit);
        var id := c.sys.requests[a.token].task.id;
        AppliedTerms(c, c', id, term);
        AppliedKnown(c, c', id, term);
        AppliedReads(c, c', id, term);
      } else {
        TermsStay(c, c', a, term, limit);
        ReadsStay(c, c', a, term, limit);
      }
    }
  }

  lemma {:induction false} ClockedRunKeeps(c: Clocked, events: seq<Event>, term: int, limit: int)
    requires ClockedInv(c, term) && 0 <= limit < term
    ensures ClockedInv(ClockedRun(c, events, term, limit), term)
    decreases |events|
  {
    if events != [] {
      match events[0] {
        case Wait(_) =>
        case Act(a) => ActKeeps(c, a, term, limit);
      }
      ClockedRunKeeps(ClockedStep(c, events[0], term, limit), events[1..], term, limit);
    }
  }

  lemma {:induction false} TimesOnce(log: seq<Application>, id: string)
    requires AppliedOnce(log)
    ensures Times(log, id) <= 1
    ensures Times(log, id) == 1 ==> exists i :: 0 <= i < |log| && log[i].id == id
  {
    if log != [] {
      TimesOnce(log[..|log| - 1], id);
    }
  }

  /** If requests end within a deadline shorter than the life of a saved cart, a proposal is applied at most once
      in every run, whatever expires and however the requests interleave. */
  lemma AppliedAtMostOnce(c: Clocked, events: seq<Event>, term: int, limit: int, id: string)
    requires Initial(c.sys) && c.since == map[] && c.applied == map[] && 0 <= limit < term
    ensures Times(ClockedRun(c, events, term, limit).sys.log, id) <= 1
  {
    ClockedRunKeeps(c, events, term, limit);
    TimesOnce(ClockedRun(c, events, term, limit).sys.log, id);
  }

  // ------------------------------------------------------ the bound is exact

  lemma {:induction false} ClockedConcat(c: Clocked, a: seq<Event>, b: seq<Event>, term: int, limit: int)
    ensures ClockedRun(c, a + b, term, limit) == ClockedRun(ClockedRun(c, a, term, limit), b, term, limit)
    decreases |a|
  {
    if a == [] {
      assert a + b == b;
    } else {
      assert (a + b)[1..] == a[1..] + b;
      ClockedConcat(ClockedStep(c, a[0], term, limit), a[1..], b, term, limit);
    }
  }

  lemma RunTwo(c: Clocked, a: Event, b: Event, term: int, limit: int)
    ensures ClockedRun(c, [a, b], term, limit) == ClockedStep(ClockedStep(c, a, term, limit), b, term, limit)
  {
    assert [a, b][1..] == [b] && [b][1..] == [];
    assert ClockedRun(ClockedStep(c, a, term, limit), [b], term, limit)
      == ClockedRun(ClockedStep(ClockedStep(c, a, term, limit), b, term, limit), [], term, limit);
  }

  /** The steps of one confirmation. */
  function Confirmation(t: Token): seq<Event> {
    [Act(Lock(t)), Act(Load(t))] + [Act(Save(t, false)), Act(Unlock(t))]
  }

  predicate Eligible(c: Clocked, id: string, t: Token, limit: int) {
    && t in c.sys.requests && c.sys.requests[t] == Request(Confirm(id, 0), Waiting)
    && t in c.since && c.now <= c.since[t] + limit
    && c.sys.keys.lock.None? && c.sys.keys.Version() == 0
  }

  /** A request's own step in time. */
  lemma OwnStep(c: Clocked, a: Action, term: int, limit: int)
    requires Doer(a).Some? && Doer(a).value in c.since && c.now <= c.since[Doer(a).value] + limit
    ensures var c' := ClockedStep(c, Act(a), term, limit);
      && c'.sys == Step(c.sys, a) && c'.now == c.now && c'.since == c.since
      && c'.cartUntil == if Saves(c.sys, a) then c.now + term else c.cartUntil
  {
  }

  /** The machine's four steps of an eligible confirmation. */
  lemma StepsApply(s: System, id: string, t: Token)
    requires t in s.requests && s.requests[t] == Request(Confirm(id, 0), Waiting) && s.keys.lock.None? && s.keys.Version() == 0
    ensures var loaded := Step(Step(s, Lock(t)), Load(t));
      var s' := Step(Step(loaded, Save(t, false)), Unlock(t));
      && Saves(loaded, Save(t, false))
      && s'.log == s.log + [Application(id, s.era)] && s'.keys.lock.None?
      && forall u | u in s.requests && u != t :: u in s'.requests && s'.requests[u] == s.requests[u]
  {
    var loaded := Step(Step(s, Lock(t)), Load(t));
    assert loaded == Move(Step(s, Lock(t)), t, Loaded(0));
    assert Step(loaded, Save(t, false)).log == s.log + [Application(id, s.era)];
  }

  lemma ConfirmationApplies(c: Clocked, id: string, t: Token, term: int, limit: int)
    requires Eligible(c, id, t, limit)
    ensures var c' := ClockedRun(c, Confirmation(t), term, limit);
      && Times(c'.sys.log, id) == Times(c.sys.log, id) + 1 && c'.sys.keys.lock.None?
      && c'.now == c.now && c'.cartUntil == c.now + term && c'.since == c.since
      && forall u | u in c.sys.requests && u != t :: u in c'.sys.requests && c'.sys.requests[u] == c.sys.requests[u]
  {
    var c1 := ClockedStep(c, Act(Lock(t)), term, limit);
    var c2 := ClockedStep(c1, Act(Load(t)), term, limit);
    var c3 := ClockedStep(c2, Act(Save(t, false)), term, limit);
    OwnStep(c, Lock(t), term, limit);
    OwnStep(c1, Load(t), term, limit);
    OwnStep(c2, Save(t, false), term, limit);
    OwnStep(c3, Unlock(t), term, limit);
    StepsApply(c.sys, id, t);
    TimesMore(c.sys.log, id, c.sys.era);
    ConfirmationRuns(c, t, term, limit);
  }

  lemma TimesMore(log: seq<Application>, id: string, era: nat)
    ensures Times(log + [Application(id, era)], id) == Times(log, id) + 1
  {
    assert (log + [Application(id, era)])[..|log|] == log;
  }

  lemma ConfirmationRuns(c: Clocked, t: Token, term: int, limit: int)
    ensures ClockedRun(c, Confirmation(t), term, limit)
         == ClockedStep(ClockedStep(ClockedStep(ClockedStep(c, Act(Lock(t)), term, limit), Act(Load(t)), term, limit),
                                    Act(Save(t, false)), term, limit), Act(Unlock(t)), term, limit)
  {
    ClockedConcat(c, [Act(Lock(t)), Act(Load(t))], [Act(Save(t, false)), Act(Unlock(t))], term, limit);
    RunTwo(c, Act(Lock(t)), Act(Load(t)), term, limit);
    RunTwo(ClockedRun(c, [Act(Lock(t)), Act(Load(t))], term, limit), Act(Save(t, false)), Act(Unlock(t)), term, limit);
  }

  /** Two confirmations read the proposal; one applies it, the cart key's term passes, and the other applies it
      to the new cart. */
  function TwoConfirmations(id: string, term: nat): seq<Event> {
    [Act(StartConfirm(0, id)), Act(StartConfirm(1, id))] + Confirmation(0) + [Wait(term), Act(CartExpires)] + Confirmation(1)
  }

  /** Both confirmations have read the proposal. */
  lemma BothStart(c: Clocked, term: int, limit: int, id: string)
    requires Initial(c.sys) && c.since == map[] && limit >= 0
    requires c.sys.keys.cart.None? && id in c.sys.keys.proposals && c.sys.keys.proposals[id] == StoredProposal(0, false)
    ensures var c1 := ClockedRun(c, [Act(StartConfirm(0, id)), Act(StartConfirm(1, id))], term, limit);
      && Eligible(c1, id, 0, limit) && c1.now == c.now && 1 in c1.since && c1.since[1] == c.now && c1.sys.log == []
      && 1 in c1.sys.requests && c1.sys.requests[1] == Request(Confirm(id, 0), Waiting)
  {
    RunTwo(c, Act(StartConfirm(0, id)), Act(StartConfirm(1, id)), term, limit);
  }

  /** The cart key's term passes. */
  lemma KeyExpires(c: Clocked, id: string, term: nat, limit: int)
    requires c.cartUntil == c.now + term && c.sys.keys.lock.None? && term <= limit
    requires 1 in c.since && c.since[1] == c.now && 1 in c.sys.requests && c.sys.requests[1] == Request(Confirm(id, 0), Waiting)
    ensures var c' := ClockedRun(c, [Wait(term), Act(CartExpires)], term, limit);
      Eligible(c', id, 1, limit) && c'.sys.log == c.sys.log
  {
    RunTwo(c, Wait(term), Act(CartExpires), term, limit);
  }

  lemma InFourParts(c: Clocked, p: seq<Event>, q: seq<Event>, r: seq<Event>, u: seq<Event>, term: int, limit: int)
    ensures ClockedRun(c, p + q + r + u, term, limit)
         == ClockedRun(ClockedRun(ClockedRun(ClockedRun(c, p, term, limit), q, term, limit), r, term, limit), u, term, limit)
  {
    ClockedConcat(c, p + q + r, u, term, limit);
    ClockedConcat(c, p + q, r, term, limit);
    ClockedConcat(c, p, q, term, limit);
  }

  /** If a request may live as long as a saved cart, a proposal can be applied twice. */
  lemma AppliedTwice(c: Clocked, term: nat, limit: int, id: string)
    requires Initial(c.sys) && c.since == map[] && term <= limit
    requires c.sys.keys.cart.None? && id in c.sys.keys.proposals && c.sys.keys.proposals[id] == StoredProposal(0, false)
    ensures Times(ClockedRun(c, TwoConfirmations(id, term), term, limit).sys.log, id) == 2
  {
    var starts, pause := [Act(StartConfirm(0, id)), Act(StartConfirm(1, id))], [Wait(term), Act(CartExpires)];
    BothStart(c, term, limit, id);
    var c1 := ClockedRun(c, starts, term, limit);
    ConfirmationApplies(c1, id, 0, term, limit);
    var c2 := ClockedRun(c1, Confirmation(0), term, limit);
    KeyExpires(c2, id, term, limit);
    ConfirmationApplies(ClockedRun(c2, pause, term, limit), id, 1, term, limit);
    InFourParts(c, starts, Confirmation(0), pause, Confirmation(1), term, limit);
  }

  /** So requests that end before a saved cart's term are exactly what is needed. */
  lemma OnceExactly(term: nat, limit: nat)
    ensures (forall c: Clocked, events: seq<Event>, id: string | Initial(c.sys) && c.since == map[] && c.applied == map[] ::
               Times(ClockedRun(c, events, term, limit).sys.log, id) <= 1) <==> limit < term
  {
    if limit < term {
      forall c: Clocked, events: seq<Event>, id: string | Initial(c.sys) && c.since == map[] && c.applied == map[]
        ensures Times(ClockedRun(c, events, term, limit).sys.log, id) <= 1
      {
        AppliedAtMostOnce(c, events, term, limit, id);
      }
    } else {
      var keys := Keys(None, None, map["p" := StoredProposal(0, false)]);
      var c := Clocked(System(keys, map[], map["p" := 0], 0, 0, [], []), 0, 0, map[], map[]);
      AppliedTwice(c, term, limit, "p");
      assert Times(ClockedRun(c, TwoConfirmations("p", term), term, limit).sys.log, "p") == 2;
    }
  }
}
