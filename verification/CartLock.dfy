/**
  The Redis side of one cart: the lock key with its lease, the cart key with its version, the proposal
  keys, and any number of requests racing for them.  Every step is one Redis command or one step of a
  request between two commands; the sizes of the cart's lines do not matter here.
*/
module CartLock {
  import opened Width

  type Token = nat

  datatype StoredProposal = StoredProposal(base: uint64, applied: bool)

  datatype Keys = Keys(lock: Option<Token>, cart: Option<uint64>, proposals: map<string, StoredProposal>) {
    /** A missing cart key reads as version 0. */
    function Version(): uint64 {
      if cart.Some? then cart.value else 0
    }

    /** SET NX. */
    function Acquire(token: Token): Keys {
      if lock.None? then this.(lock := Some(token)) else this
    }

    /** The compare-and-delete script. */
    function Release(token: Token): Keys {
      if lock == Some(token) then this.(lock := None) else this
    }
  }

  /** The repository's commands on those keys, each of them atomic in Redis. */
  class RedisRepository {
    var keys: Keys

    constructor (keys: Keys)
      ensures this.keys == keys
    {
      this.keys := keys;
    }

    method AcquireCartLock(token: Token) returns (acquired: bool)
      modifies this
      ensures keys == old(keys).Acquire(token)
      ensures acquired <==> old(keys.lock).None?
      ensures acquired ==> keys.lock == Some(token)
    {
      acquired := keys.lock.None?;
      if acquired {
        keys := keys.(lock := Some(token));
      }
    }

    /** Only the owner's release opens the lock; a late one leaves the successor's lock in place. */
    method ReleaseCartLock(token: Token)
      modifies this
      ensures keys == old(keys).Release(token)
      ensures old(keys.lock) != Some(token) ==> keys == old(keys)
    {
      if keys.lock == Some(token) {
        keys := keys.(lock := None);
      }
    }

    /** The version of the stored cart; a missing one reads as 0. */
    method LoadVersion() returns (version: uint64)
      ensures version == keys.Version()
    {
      match keys.cart
      case None => version := 0;
      case Some(v) => version := v;
    }

    method SaveCart(version: uint64)
      modifies this
      ensures keys.Version() == version && keys == old(keys).(cart := keys.cart) && keys.cart.Some?
    {
      keys := keys.(cart := Some(version));
    }

    /** Cart and proposal are written in one transaction. */
    method SaveCartAndProposal(version: uint64, id: string, base: uint64)
      modifies this
      ensures keys.Version() == version && keys.cart.Some? && keys.lock == old(keys.lock)
      ensures id in keys.proposals && keys.proposals[id] == StoredProposal(base, true)
      ensures keys.proposals == old(keys.proposals)[id := keys.proposals[id]]
    {
      keys := keys.(cart := Some(version), proposals := keys.proposals[id := StoredProposal(base, true)]);
    }
  }

  // ---------------------------------------------------------------- requests

  /** A confirmation has read the proposal, and with it its base version, before it asks for the lock. */
  datatype Task = Confirm(id: string, base: uint64) | Mutate

  datatype Phase = Waiting | Holding | Loaded(version: uint64) | Leaving | Finished

  datatype Request = Request(task: Task, phase: Phase)

  datatype Application = Application(id: string, era: nat)

  /**
    The keys, the requests by their lock token, and the history the theorems speak of: the base version
    of every proposal ever created, the eras (lifetimes of the cart key) so far, the version this era
    continues from and the versions written in it, and every application of a proposal to the cart.
  */
  datatype System = System(keys: Keys, requests: map<Token, Request>, bases: map<string, uint64>,
                           era: nat, opening: int, written: seq<uint64>, log: seq<Application>)

  datatype Action =
    | Propose(id: string, base: uint64)   // a new proposal, under a fresh id
    | Forget(id: string)                  // the proposal's keys expire
    | StartConfirm(token: Token, id: string)
    | StartMutation(token: Token)
    | Lock(token: Token)
    | Load(token: Token)
    | Save(token: Token, fails: bool)
    | Unlock(token: Token)
    | Crash(token: Token)
    | LeaseExpires
    | CartExpires

  predicate Critical(r: Request) {
    r.phase.Holding? || r.phase.Loaded?
  }

  predicate At(s: System, token: Token, phase: Phase) {
    token in s.requests && s.requests[token].phase == phase
  }

  function Move(s: System, token: Token, phase: Phase): System
    requires token in s.requests
  {
    s.(requests := s.requests[token := s.requests[token].(phase := phase)])
  }

  function DoPropose(s: System, id: string, base: uint64): System {
    if id in s.bases then s
    else s.(keys := s.keys.(proposals := s.keys.proposals[id := StoredProposal(base, false)]), bases := s.bases[id := base])
  }

  /** A confirmed proposal is answered from its stored result, a missing one refused: neither goes on. */
  function DoStartConfirm(s: System, token: Token, id: string): System {
    if token in s.requests || id !in s.keys.proposals || s.keys.proposals[id].applied then s
    else s.(requests := s.requests[token := Request(Confirm(id, s.keys.proposals[id].base), Waiting)])
  }

  function DoLock(s: System, token: Token): System {
    if !At(s, token, Waiting) then s
    else if s.keys.lock.Some? then Move(s, token, Finished)
    else Move(s, token, Holding).(keys := s.keys.Acquire(token))
  }

  function DoLoad(s: System, token: Token): System {
    if !At(s, token, Holding) then s
    else
      var v := s.keys.Version();
      var task := s.requests[token].task;
      if (task.Confirm? && v != task.base) || v == MAX_UINT64 then Move(s, token, Leaving)
      else Move(s, token, Loaded(v))
  }

  /** The save does not look at the lock. */
  function DoSave(s: System, token: Token, fails: bool): System {
    if token !in s.requests || !s.requests[token].phase.Loaded? || s.requests[token].phase.version == MAX_UINT64 then s
    else if fails then Move(s, token, Leaving)
    else
      var v := s.requests[token].phase.version;
      var keys := s.keys.(cart := Some(v + 1));
      var s' := Move(s, token, Leaving).(
        keys := keys,
        opening := if s.keys.cart.Some? then s.opening else v,
        written := (if s.keys.cart.Some? then s.written else []) + [v + 1]);
      match s.requests[token].task
      case Mutate => s'
      case Confirm(id, base) =>
        s'.(keys := keys.(proposals := keys.proposals[id := StoredProposal(base, true)]),
            log := s.log + [Application(id, s.era)])
  }

  function DoUnlock(s: System, token: Token): System {
    if !At(s, token, Leaving) then s else Move(s, token, Finished).(keys := s.keys.Release(token))
  }

  /** The lease outlasts the operation: it runs out only on a request that is past its save, or dead. */
  function DoLeaseExpires(s: System): System {
    if s.keys.lock.Some? && s.keys.lock.value in s.requests && Critical(s.requests[s.keys.lock.value]) then s
    else s.(keys := s.keys.(lock := None))
  }

  function Step(s: System, a: Action): System {
    match a
    case Propose(id, base) => DoPropose(s, id, base)
    case Forget(id) => s.(keys := s.keys.(proposals := s.keys.proposals - {id}))
    case StartConfirm(token, id) => DoStartConfirm(s, token, id)
    case StartMutation(token) =>
      if token in s.requests then s else s.(requests := s.requests[token := Request(Mutate, Waiting)])
    case Lock(token) => DoLock(s, token)
    case Load(token) => DoLoad(s, token)
    case Save(token, fails) => DoSave(s, token, fails)
    case Unlock(token) => DoUnlock(s, token)
    case Crash(token) => if token in s.requests then Move(s, token, Finished) else s
    case LeaseExpires => DoLeaseExpires(s)
    case CartExpires => s.(keys := s.keys.(cart := None), era := s.era + 1)
  }

  function Run(s: System, actions: seq<Action>): System
    decreases |actions|
  {
    if actions == [] then s else Run(Step(s, actions[0]), actions[1..])
  }

  // ------------------------------------------------------ requests at work

  /** The cart service's side of the protocol: what each request does between two of its commands, and the
      commands themselves.  The history is kept beside it. */
  class Server {
    const redis: RedisRepository
    var requests: map<Token, Request>
    ghost var bases: map<string, uint64>
    ghost var era: nat
    ghost var opening: int
    ghost var written: seq<uint64>
    ghost var log: seq<Application>

    ghost function View(): System
      reads this, redis
    {
      System(redis.keys, requests, bases, era, opening, written, log)
    }

    constructor (redis: RedisRepository)
      ensures this.redis == redis && View().requests == map[] && View().keys == redis.keys
    {
      this.redis, requests, bases, era, opening, written, log := redis, map[], map[], 0, 0, [], [];
    }

    /** lockCart: one try. */
    method LockCart(token: Token) returns (locked: bool)
      requires At(View(), token, Waiting)
      modifies this, redis
      ensures View() == Step(old(View()), Lock(token))
      ensures locked <==> requests[token].phase == Holding
    {
      locked := redis.AcquireCartLock(token);
      requests := requests[token := requests[token].(phase := if locked then Holding else Finished)];
    }

    /** The read of the cart, the version check of a confirmation and the check against the last version. */
    method LoadCart(token: Token) returns (ok: bool)
      requires At(View(), token, Holding)
      modifies this
      ensures View() == Step(old(View()), Load(token))
      ensures ok <==> requests[token].phase.Loaded?
    {
      var version := redis.LoadVersion();
      var task := requests[token].task;
      ok := version != MAX_UINT64 && (task.Confirm? ==> version == task.base);
      requests := requests[token := requests[token].(phase := if ok then Loaded(version) else Leaving)];
    }

    /** The save of one version more, with the proposal if there is one. */
    method SaveChanges(token: Token, fails: bool)
      requires token in requests && requests[token].phase.Loaded? && requests[token].phase.version < MAX_UINT64
      modifies this, redis
      ensures View() == Step(old(View()), Save(token, fails))
    {
      var request := requests[token];
      var version := request.phase.version;
      requests := requests[token := request.(phase := Leaving)];
      if fails {
        return;
      }
      if redis.keys.cart.None? {
        opening, written := version, [];
      }
      written := written + [version + 1];
      match request.task
      case Mutate => redis.SaveCart(version + 1);
      case Confirm(id, base) =>
        redis.SaveCartAndProposal(version + 1, id, base);
        log := log + [Application(id, era)];
    }

    method UnlockCart(token: Token)
      requires At(View(), token, Leaving)
      modifies this, redis
      ensures View() == Step(old(View()), Unlock(token))
    {
      redis.ReleaseCartLock(token);
      requests := requests[token := requests[token].(phase := Finished)];
    }
  }

  /** No request under way; any cart, any stored proposals. */
  ghost predicate Initial(s: System) {
    && s.requests == map[] && s.keys.lock.None? && s.era == 0 && s.written == [] && s.log == []
    && s.opening == s.keys.Version()
    && (forall id | id in s.keys.proposals :: id in s.bases && s.keys.proposals[id].base == s.bases[id])
  }

  // --------------------------------------------------------------- invariant

  /** Requests inside the critical section own the lock, so there is at most one, and what it loaded is current. */
  ghost predicate Exclusive(s: System) {
    forall t | t in s.requests && Critical(s.requests[t]) ::
      && s.keys.lock == Some(t)
      && (s.requests[t].phase.Loaded? && s.keys.cart.Some? ==> s.keys.cart.value == s.requests[t].phase.version)
  }

  /** A proposal keeps the base version it was created with, wherever it is remembered. */
  ghost predicate BasesKept(s: System) {
    && (forall id | id in s.keys.proposals :: id in s.bases && s.keys.proposals[id].base == s.bases[id])
    && (forall t | t in s.requests && s.requests[t].task.Confirm? ::
          var r := s.requests[t];
          && r.task.id in s.bases && r.task.base == s.bases[r.task.id]
          && (r.phase.Loaded? ==> r.phase.version == r.task.base))
  }

  /** A proposal applied in this era has been left behind by the version. */
  ghost predicate LeftBehind(s: System) {
    && (forall i | 0 <= i < |s.log| :: s.log[i].era <= s.era)
    && (forall i | 0 <= i < |s.log| && s.log[i].era == s.era ::
          s.log[i].id in s.bases && s.keys.cart.Some? && s.keys.cart.value > s.bases[s.log[i].id])
  }

  ghost predicate OncePerEra(log: seq<Application>) {
    forall i, j | 0 <= i < j < |log| && log[i].id == log[j].id :: log[i].era < log[j].era
  }

  /** The stored version counts the era's saves, one by one. */
  ghost predicate Counted(s: System) {
    && (s.keys.cart.Some? ==> s.keys.cart.value == s.opening + |s.written|)
    && (forall i | 0 <= i < |s.written| :: s.written[i] == s.opening + 1 + i)
  }

  ghost predicate Inv(s: System) {
    Exclusive(s) && BasesKept(s) && LeftBehind(s) && OncePerEra(s.log) && Counted(s)
  }

  lemma LoadKeeps(s: System, token: Token)
    requires Inv(s)
    ensures Inv(DoLoad(s, token))
  {
  }

  lemma SaveKeeps(s: System, token: Token, fails: bool)
    requires Inv(s)
    ensures Inv(DoSave(s, token, fails))
  {
    if DoSave(s, token, fails) != s && !fails {
      var r := s.requests[token];
      assert Critical(r);
      if r.task.Confirm? {
        forall i | 0 <= i < |s.log| && s.log[i].id == r.task.id ensures s.log[i].era < s.era {}
      }
    }
  }

  lemma LockingKeeps(s: System, a: Action)
    requires Inv(s) && (a.Lock? || a.Unlock? || a.LeaseExpires? || a.Crash?)
    ensures Inv(Step(s, a))
  {
  }

  lemma StepKeeps(s: System, a: Action)
    requires Inv(s)
    ensures Inv(Step(s, a))
  {
    match a
    case Load(token) => LoadKeeps(s, token);
    case Save(token, fails) => SaveKeeps(s, token, fails);
    case Lock(_) => LockingKeeps(s, a);
    case Unlock(_) => LockingKeeps(s, a);
    case Crash(_) => LockingKeeps(s, a);
    case LeaseExpires => LockingKeeps(s, a);
    case _ =>
  }

  lemma {:induction false} RunKeeps(s: System, actions: seq<Action>)
    requires Inv(s)
    ensures Inv(Run(s, actions))
    decreases |actions|
  {
    if actions != [] {
      StepKeeps(s, actions[0]);
      RunKeeps(Step(s, actions[0]), actions[1..]);
    }
  }

  // ---------------------------------------------------------------- theorems

  function Expiries(actions: seq<Action>): nat {
    if actions == [] then 0 else (if actions[0].CartExpires? then 1 else 0) + Expiries(actions[1..])
  }

  function Times(log: seq<Application>, id: string): nat {
    if log == [] then 0 else Times(log[..|log| - 1], id) + (if log[|log| - 1].id == id then 1 else 0)
  }

  lemma {:induction false} EraCounts(s: System, actions: seq<Action>)
    ensures Run(s, actions).era == s.era + Expiries(actions)
    decreases |actions|
  {
    if actions != [] { EraCounts(Step(s, actions[0]), actions[1..]); }
  }

  /** Distinct eras below a bound: at most as many applications as eras. */
  lemma {:induction false} TimesWithinEras(log: seq<Application>, id: string, era: int)
    requires OncePerEra(log) && era >= -1
    requires forall i | 0 <= i < |log| && log[i].id == id :: log[i].era <= era
    ensures Times(log, id) <= era + 1
  {
    if log != [] {
      var n := |log| - 1;
      TimesWithinEras(log[..n], id, if log[n].id == id then log[n].era - 1 else era);
    }
  }

  /** In every run, however the requests interleave, a proposal is applied to the cart at most once
      for every lifetime of the cart key: at most once when the key never expires. */
  lemma AppliedAtMostOncePerLifetime(s: System, actions: seq<Action>, id: string)
    requires Initial(s)
    ensures Times(Run(s, actions).log, id) <= 1 + Expiries(actions)
  {
    RunKeeps(s, actions);
    EraCounts(s, actions);
    TimesWithinEras(Run(s, actions).log, id, Expiries(actions));
  }

  /** In every run without an expiry of the cart key the stored version is the initial one plus the
      number of successful saves, and each save wrote the next number: no update is lost. */
  lemma VersionCountsSaves(s: System, actions: seq<Action>)
    requires Initial(s) && Expiries(actions) == 0
    ensures var s' := Run(s, actions);
      && s'.keys.Version() == s.keys.Version() + |s'.written|
      && forall i | 0 <= i < |s'.written| :: s'.written[i] == s.keys.Version() + 1 + i
  {
    RunKeeps(s, actions);
    OpeningStays(s, actions);
  }

  /** A run without expiry so far: the version is where it started plus the saves. */
  ghost predicate Uninterrupted(s: System) {
    && Inv(s) && s.keys.Version() == s.opening + |s.written|
    && (s.keys.cart.None? ==> s.opening == 0 && s.written == [])
    && (forall t | t in s.requests && s.requests[t].phase.Loaded? :: s.requests[t].phase.version == s.keys.Version())
  }

  lemma UninterruptedStep(s: System, a: Action)
    requires Uninterrupted(s) && !a.CartExpires?
    ensures Uninterrupted(Step(s, a)) && Step(s, a).opening == s.opening
  {
    StepKeeps(s, a);
    var s' := Step(s, a);
    forall t | t in s'.requests && s'.requests[t].phase.Loaded? ensures s'.requests[t].phase.version == s'.keys.Version() {
      assert Critical(s'.requests[t]);
    }
  }

  lemma {:induction false} OpeningStays(s: System, actions: seq<Action>)
    requires Uninterrupted(s) && Expiries(actions) == 0
    ensures Uninterrupted(Run(s, actions)) && Run(s, actions).opening == s.opening
    decreases |actions|
  {
    if actions != [] {
      UninterruptedStep(s, actions[0]);
      OpeningStays(Step(s, actions[0]), actions[1..]);
    }
  }

  /** At most one request at a time is between loading and saving, in every run. */
  lemma OneInCriticalSection(s: System, actions: seq<Action>, t: Token, u: Token)
    requires Initial(s)
    requires var s' := Run(s, actions); t in s'.requests && u in s'.requests
    requires var s' := Run(s, actions); Critical(s'.requests[t]) && Critical(s'.requests[u])
    ensures t == u
  {
    RunKeeps(s, actions);
  }

  /** A lock is taken away only by its own request, after the save, or by the end of the lease. */
  lemma LockKept(s: System, a: Action, t: Token)
    requires s.keys.lock == Some(t)
    ensures Step(s, a).keys.lock == Some(t) || a == Unlock(t) || a.LeaseExpires?
  {
  }

  lemma ConfirmedIsApplied(s: System, id: string, base: uint64, t: Token)
    requires t in s.requests && s.requests[t] == Request(Confirm(id, base), Waiting)
    requires s.keys.lock.None? && s.keys.Version() == base < MAX_UINT64
    ensures var s' := Step(Step(Step(Step(s, Lock(t)), Load(t)), Save(t, false)), Unlock(t));
      && s'.keys == Keys(None, Some(base + 1), s.keys.proposals[id := StoredProposal(base, true)])
      && s'.log == s.log + [Application(id, s.era)] && s'.requests == s.requests[t := Request(Confirm(id, base), Finished)]
  {
    var locked := Step(s, Lock(t));
    var loaded := Step(locked, Load(t));
    var saved := Step(loaded, Save(t, false));
    assert loaded == Move(locked, t, Loaded(base)) && loaded.requests[t] == Request(Confirm(id, base), Loaded(base));
    assert saved.keys == Keys(Some(t), Some(base + 1), s.keys.proposals[id := StoredProposal(base, true)]);
    assert saved.requests == s.requests[t := Request(Confirm(id, base), Leaving)] && saved.log == s.log + [Application(id, s.era)];
  }

  /** What is not a request's doing: a lease ends once its owner is past its save or gone, and then the lock is free; a
      forgotten proposal cannot be confirmed. */
  lemma LeaseEnds(s: System, owner: Token)
    requires s.keys.lock == Some(owner) && (owner in s.requests ==> !Critical(s.requests[owner]))
    ensures Step(s, LeaseExpires) == s.(keys := s.keys.(lock := None))
  {
  }

  lemma ForgottenIsGone(s: System, id: string, t: Token)
    ensures var forgotten := Step(s, Forget(id));
      id !in forgotten.keys.proposals && forgotten.keys.cart == s.keys.cart && Step(forgotten, StartConfirm(t, id)) == forgotten
  {
  }

  /** A request that finds the lock taken, and one that crashed, never touches a key again. */
  lemma RefusedIsSilent(s: System, t: Token, a: Action)
    requires a == Lock(t) || a == Load(t) || (a.Save? && a.token == t) || a == Unlock(t)
    ensures At(s, t, Waiting) && s.keys.lock.Some? ==>
      Step(s, Lock(t)).keys == s.keys && Step(Step(s, Lock(t)), a) == Step(s, Lock(t))
    ensures t in s.requests ==> Step(s, Crash(t)).keys == s.keys && Step(Step(s, Crash(t)), a) == Step(s, Crash(t))
  {
  }

  /** A proposal that is made for the current version and confirmed before anything else happens is applied: the
      version is one higher, the application is recorded, and the lock is free again. */
  lemma ProposedIsApplied(s: System, id: string, base: uint64, t: Token, proposed: System, started: System)
    requires id !in s.bases && t !in s.requests && s.keys.lock.None? && s.keys.Version() == base < MAX_UINT64
    requires proposed == Step(s, Propose(id, base)) && started == Step(proposed, StartConfirm(t, id))
    ensures var s' := Step(Step(Step(Step(started, Lock(t)), Load(t)), Save(t, false)), Unlock(t));
      && s'.keys == Keys(None, Some(base + 1), s.keys.proposals[id := StoredProposal(base, true)])
      && s'.log == s.log + [Application(id, s.era)]
  {
    ConfirmedIsApplied(started, id, base, t);
    assert started.keys.proposals == s.keys.proposals[id := StoredProposal(base, false)];
  }

  // ------------------------------------------------- the bound is the best one

  /** A request from its lock to its unlock. */
  function Tries(t: Token, fails: bool): seq<Action> {
    [Lock(t), Load(t), Save(t, fails), Unlock(t)]
  }

  function Attempt(t: Token): seq<Action> {
    Tries(t, false)
  }

  /** Attempts 0 to n in turn, with an expiry of the cart key between any two. */
  function Attempts(n: nat): seq<Action> {
    if n == 0 then Attempt(0) else Attempts(n - 1) + ([CartExpires] + Attempt(n))
  }

  lemma {:induction false} RunConcat(s: System, a: seq<Action>, b: seq<Action>)
    ensures Run(s, a + b) == Run(Run(s, a), b)
    decreases |a|
  {
    if a == [] {
      assert a + b == b;
    } else {
      assert (a + b)[1..] == a[1..] + b;
      RunConcat(Step(s, a[0]), a[1..], b);
    }
  }

  lemma {:induction false} ExpiriesConcat(a: seq<Action>, b: seq<Action>)
    ensures Expiries(a + b) == Expiries(a) + Expiries(b)
  {
    if a == [] {
      assert a + b == b;
    } else {
      assert (a + b)[1..] == a[1..] + b;
      ExpiriesConcat(a[1..], b);
    }
  }

  /** The lock is free, and the requests from `k` on wait with the proposal as they read it: based on
      version 0 and not yet applied. */
  ghost predicate Lined(s: System, id: string, k: nat) {
    && s.keys.lock.None?
    && forall t: Token | t >= k && t in s.requests :: s.requests[t] == Request(Confirm(id, 0), Waiting)
  }

  lemma RunFour(s: System, a: Action, b: Action, c: Action, d: Action)
    ensures Run(s, [a, b, c, d]) == Step(Step(Step(Step(s, a), b), c), d)
  {
    assert [a, b, c, d] == [a] + [b] + [c] + [d];
    RunConcat(s, [a] + [b] + [c], [d]);
    RunConcat(s, [a] + [b], [c]);
    RunConcat(s, [a], [b]);
  }

  lemma AttemptApplies(s: System, id: string, t: Token)
    requires Lined(s, id, t) && t in s.requests && s.keys.Version() == 0
    ensures var s' := Run(s, Attempt(t));
      Lined(s', id, t + 1) && s'.log == s.log + [Application(id, s.era)] && s'.requests.Keys == s.requests.Keys
  {
    ConfirmedIsApplied(s, id, 0, t);
    RunFour(s, Lock(t), Load(t), Save(t, false), Unlock(t));
  }

  lemma {:induction false} AttemptsExpire(n: nat)
    ensures Expiries(Attempts(n)) == n
  {
    NoExpiry(Lock(n), Load(n), Save(n, false), Unlock(n));
    if n > 0 {
      AttemptsExpire(n - 1);
      ExpiriesConcat(Attempts(n - 1), [CartExpires] + Attempt(n));
      ExpiriesConcat([CartExpires], Attempt(n));
    }
  }

  lemma NoExpiry(a: Action, b: Action, c: Action, d: Action)
    requires !a.CartExpires? && !b.CartExpires? && !c.CartExpires? && !d.CartExpires?
    ensures Expiries([a, b, c, d]) == 0
  {
    assert [a, b, c, d] == [a] + [b] + [c] + [d];
    ExpiriesConcat([a] + [b] + [c], [d]);
    ExpiriesConcat([a] + [b], [c]);
    ExpiriesConcat([a], [b]);
  }

  /** The requests 0 to n read the proposal. */
  function Starts(id: string, n: nat): seq<Action> {
    if n == 0 then [StartConfirm(0, id)] else Starts(id, n - 1) + [StartConfirm(n, id)]
  }

  lemma {:induction false} StartsExpire(id: string, n: nat)
    ensures Expiries(Starts(id, n)) == 0
  {
    if n > 0 {
      StartsExpire(id, n - 1);
      ExpiriesConcat(Starts(id, n - 1), [StartConfirm(n, id)]);
      assert [StartConfirm(n, id)][1..] == [];
    } else {
      assert [StartConfirm(0, id)][1..] == [];
    }
  }

  /** From a fresh start any number of confirmations can read the proposal and wait. */
  lemma {:induction false} StartsLine(s: System, id: string, n: nat)
    requires Initial(s) && id in s.keys.proposals && s.keys.proposals[id] == StoredProposal(0, false)
    ensures var s' := Run(s, Starts(id, n));
      Lined(s', id, 0) && s'.keys == s.keys && s'.log == [] && forall t: Token :: t in s'.requests <==> t <= n
  {
    if n == 0 {
      assert Run(s, [StartConfirm(0, id)]) == Run(Step(s, StartConfirm(0, id)), []);
    } else {
      StartsLine(s, id, n - 1);
      var before := Run(s, Starts(id, n - 1));
      RunConcat(s, Starts(id, n - 1), [StartConfirm(n, id)]);
      assert Run(before, [StartConfirm(n, id)]) == Run(Step(before, StartConfirm(n, id)), []);
    }
  }

  lemma {:induction false} LinedApplies(s: System, id: string, n: nat)
    requires Lined(s, id, 0) && s.keys.Version() == 0 && s.log == []
    requires forall t: Token | t <= n :: t in s.requests
    ensures Times(Run(s, Attempts(n)).log, id) == n + 1
    ensures Lined(Run(s, Attempts(n)), id, n + 1) && Run(s, Attempts(n)).requests.Keys == s.requests.Keys
  {
    if n == 0 {
      AttemptApplies(s, id, 0);
    } else {
      LinedApplies(s, id, n - 1);
      var before := Run(s, Attempts(n - 1));
      var expired := Step(before, CartExpires);
      RunConcat(s, Attempts(n - 1), [CartExpires] + Attempt(n));
      RunConcat(before, [CartExpires], Attempt(n));
      assert Run(before, [CartExpires]) == expired;
      AttemptApplies(expired, id, n);
      assert Run(expired, Attempt(n)).log[..|before.log|] == before.log;
    }
  }

  /** If requests may be slow without limit the bound is reached: from every fresh start with a proposal for an
      empty cart, and for every n, there is a run with n expiries of the cart key that applies it n + 1 times. */
  lemma EveryLifetimeCanApply(s: System, id: string, n: nat)
    requires Initial(s) && s.keys.cart.None? && id in s.keys.proposals && s.keys.proposals[id] == StoredProposal(0, false)
    ensures var actions := Starts(id, n) + Attempts(n);
      Expiries(actions) == n && Times(Run(s, actions).log, id) == n + 1
  {
    StartsExpire(id, n);
    AttemptsExpire(n);
    ExpiriesConcat(Starts(id, n), Attempts(n));
    StartsLine(s, id, n);
    RunConcat(s, Starts(id, n), Attempts(n));
    LinedApplies(Run(s, Starts(id, n)), id, n);
  }
}
