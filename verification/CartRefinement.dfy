/** The cart service, one operation at a time, is a run of the lock protocol: what it does to the Redis keys is
    what a request of the protocol does that nobody disturbs. */
module CartRefinement {
  import opened Width
  import Ledger
  import opened CartModel
  import CartSaga
  import CartService
  import opened CartLock

  /** The keys as the protocol sees them. */
  function KeysOf(s: CartState): Keys {
    Keys(None, if s.cart.Some? then Some(s.cart.value.version) else None,
         map id | id in s.proposals.byId :: StoredProposal(s.proposals.byId[id].baseVersion, s.proposals.byId[id].result.Some?))
  }

  lemma RunFive(s: System, first: Action, a: Action, b: Action, c: Action, d: Action)
    ensures Run(s, [first] + [a, b, c, d]) == Step(Step(Step(Step(Step(s, first), a), b), c), d)
  {
    assert ([first] + [a, b, c, d])[1..] == [a, b, c, d];
    RunFour(Step(s, first), a, b, c, d);
  }

  /** What a request leaves in the keys when nobody disturbs it. */
  lemma TriesKeys(s: System, t: Token, fails: bool)
    requires t in s.requests && s.requests[t].phase.Waiting? && s.keys.lock.None?
    ensures var v := s.keys.Version();
      var task := s.requests[t].task;
      var keys := Step(Step(Step(Step(s, Lock(t)), Load(t)), Save(t, fails)), Unlock(t)).keys;
      if fails || v == MAX_UINT64 || (task.Confirm? && v != task.base) then keys == s.keys
      else keys == s.keys.(cart := Some(v + 1), proposals :=
             if task.Confirm? then s.keys.proposals[task.id := StoredProposal(task.base, true)] else s.keys.proposals)
  {
    var s1 := Step(s, Lock(t));
    assert At(s1, t, Holding);
  }

  /** A cart operation that saves, or does not save, a cart of the next version. */
  lemma MutationIsARun(before: CartState, after: CartState, saved: bool, s: System, t: Token)
    requires after.proposals == before.proposals
    requires if saved then before.Version() < MAX_UINT64 && after.cart.Some? && after.cart.value.version == before.Version() + 1
             else after.cart == before.cart
    requires s.keys == KeysOf(before) && t !in s.requests
    ensures Run(s, [StartMutation(t)] + Tries(t, !saved)).keys == KeysOf(after)
  {
    RunFive(s, StartMutation(t), Lock(t), Load(t), Save(t, !saved), Unlock(t));
    TriesKeys(Step(s, StartMutation(t)), t, !saved);
  }

  /** A request that never started changes nothing. */
  lemma NeverStarted(s: System, t: Token, fails: bool)
    requires t !in s.requests
    ensures Step(Step(Step(Step(s, Lock(t)), Load(t)), Save(t, fails)), Unlock(t)) == s
  {
  }

  /** What a confirmation that succeeds, or not, does to the keys. */
  predicate ConfirmedTo(keys: Keys, keys': Keys, id: string, ok: bool) {
    if ok && id in keys.proposals && !keys.proposals[id].applied then
      && keys.Version() == keys.proposals[id].base < MAX_UINT64
      && keys' == keys.(cart := Some(keys.Version() + 1), proposals := keys.proposals[id := StoredProposal(keys.proposals[id].base, true)])
    else keys' == keys && (ok ==> id in keys.proposals)
  }

  lemma ConfirmRun(s: System, keys': Keys, id: string, ok: bool, t: Token)
    requires t !in s.requests && s.keys.lock.None? && ConfirmedTo(s.keys, keys', id, ok)
    ensures Run(s, [StartConfirm(t, id)] + Tries(t, !ok)).keys == keys'
  {
    RunFive(s, StartConfirm(t, id), Lock(t), Load(t), Save(t, !ok), Unlock(t));
    var started := Step(s, StartConfirm(t, id));
    if t !in started.requests {
      NeverStarted(started, t, !ok);
    } else {
      TriesKeys(started, t, !ok);
    }
  }

  lemma OutcomeKeys(before: CartState, after: CartState, account: nat, proposalID: string, r: Result<Cart>,
                    compensations: seq<Ledger.Outcome>, halt: CartSaga.Halt, saveFails: bool)
    requires before.proposals.Filed() && CartService.Open(before, proposalID, true)
    requires CartService.ConfirmOutcome(before, after, account, before.proposals.byId[proposalID], r, compensations, halt, saveFails)
    ensures ConfirmedTo(KeysOf(before), KeysOf(after), proposalID, r.Ok?)
  {
    if r.Ok? {
      ConfirmedKeys(before, after, proposalID, r.value);
    } else {
      assert CartService.Abandoned(before, after, before.proposals.byId[proposalID], compensations, halt);
    }
  }

  /** ConfirmCartProposal, by its contract: a replay, a refusal, or an open proposal applied or undone. */
  lemma ConfirmIsARun(before: CartState, after: CartState, account: nat, proposalID: string, r: Result<Cart>,
                      compensations: seq<Ledger.Outcome>, halt: CartSaga.Halt, saveFails: bool, s: System, t: Token)
    requires before.proposals.Filed() && s.keys == KeysOf(before) && t !in s.requests
    requires
      || (after == before && (r.Err? || (proposalID in before.proposals.byId && before.proposals.byId[proposalID].result.Some?)))
      || (&& CartService.Open(before, proposalID, true)
          && CartService.ConfirmOutcome(before, after, account, before.proposals.byId[proposalID], r, compensations, halt, saveFails))
    ensures Run(s, [StartConfirm(t, proposalID)] + Tries(t, r.Err?)).keys == KeysOf(after)
  {
    if CartService.Open(before, proposalID, true) && after != before {
      OutcomeKeys(before, after, account, proposalID, r, compensations, halt, saveFails);
    }
    ConfirmRun(s, KeysOf(after), proposalID, r.Ok?, t);
  }

  lemma ConfirmedKeys(before: CartState, after: CartState, proposalID: string, cart: Cart)
    requires before.proposals.Filed() && proposalID in before.proposals.byId
    requires CartService.Confirmed(before, after, before.proposals.byId[proposalID], cart)
    ensures KeysOf(after) == KeysOf(before).(cart := Some(cart.version), proposals :=
              KeysOf(before).proposals[proposalID := StoredProposal(before.proposals.byId[proposalID].baseVersion, true)])
  {
  }
}
