/** One call of the interpretation service, statement by statement, while any number of other calls run. */
module InterpretService {
  import opened Wrappers
  import opened CanonicalJson
  import opened LlmCache
  import opened Stampede

  /** The call that a step belongs to; traffic and the clocks belong to none. */
  function Actor(step: Step): Option<nat> {
    match step
    case Advance(_, _) => None
    case Traffic(_) => None
    case Arrive(c, _) => Some(c)
    case Look(c, _) => Some(c)
    case TryLock(c, _) => Some(c)
    case Poll(c, _) => Some(c)
    case Ask(c) => Some(c)
    case Receive(c, _) => Some(c)
    case Save(c, _) => Some(c)
    case Finish(c, _) => Some(c)
  }

  /** What the steps of others leave alone: where a call stands, what it stored, and what was executed before; and clocks do
      not go back. */
  ghost predicate Untouched(s: State, s': State, c: nat) {
    && (c in s'.calls <==> c in s.calls) && (c in s.calls ==> s'.calls[c] == s.calls[c])
    && (forall p :: (c, p) in s'.stores <==> (c, p) in s.stores)
    && s.trace <= s'.trace && s.now <= s'.now && s.monotonic <= s'.monotonic
  }

  /** Any step of another call, of other traffic or of the clocks leaves a call alone. */
  lemma OthersLeaveAlone(cfg: Config, s: State, step: Step, c: nat)
    requires Actor(step) != Some(c)
    ensures Untouched(s, Apply(cfg, s, step), c)
  {
  }

  /** What a call that has returned tells about itself. */
  ghost predicate Settled(cfg: Config, s: State, c: nat, result: Result, asked: nat) {
    && c in s.calls && s.calls[c].Returned? && s.calls[c].result == result
    && (s.lock == Some(c) <==> s.calls[c].leaked)
    && asked <= 1
    && result != Corrupt
    && (result.Hit? || result.Refused? ==> asked == 0)
    && (result.Answered? || result.FellBack? ==> asked == 1)
    && (forall p | (c, p) in s.stores :: result == Answered(p))
  }

  /** A call on its way: what it stored so far is what it is about to answer. */
  ghost predicate OnItsWay(s: State, c: nat) {
    c in s.calls && forall p | (c, p) in s.stores :: s.calls[c].Finishing? && s.calls[c].result == Answered(p)
  }

  /** What a reply of the provider stands for. */
  function Outcome(cfg: Config, reply: Reply): Result {
    match reply
    case Valid(payload) => if cfg.valid(payload) then Answered(payload) else FellBack
    case Invalid => FellBack
    case ProviderError => Result.Failed
  }

  lemma FreshCallsStoredNothing(cfg: Config, s: State, c: nat, verdict: Verdict)
    requires c !in s.calls && forall p :: (c, p) !in s.stores
    ensures var s' := Apply(cfg, s, Arrive(c, verdict));
      && OnItsWay(s', c) && (forall p :: (c, p) !in s'.stores)
      && (verdict.Deny? ==> s'.calls[c] == Returned(Refused, false))
      && (verdict.GovernanceError? ==> s'.calls[c] == Returned(Result.Failed, false))
      && (verdict.Degrade? ==> s'.calls[c] == Ready(Degraded))
      && (verdict.Allow? ==> s'.calls[c] == Admitted)
  {
  }

  lemma SettledWhenReturned(cfg: Config, s: State, c: nat, asked: nat)
    requires cfg.home(cfg.key) == Route.Interpret && Invariant(cfg, s)
    requires c in s.calls && s.calls[c].Returned? && asked <= 1
    requires s.calls[c].result.Hit? || s.calls[c].result.Refused? ==> asked == 0
    requires s.calls[c].result.Answered? || s.calls[c].result.FellBack? ==> asked == 1
    requires forall p | (c, p) in s.stores :: s.calls[c].result == Answered(p)
    ensures Settled(cfg, s, c, s.calls[c].result, asked)
  {
    assert SoundPhase(cfg, s, s.calls[c]);
  }

  /** The service on one cache key. */
  class Service {
    const cfg: Config
    var s: State

    ghost predicate Valid()
      reads this
    {
      cfg.home(cfg.key) == Route.Interpret && Invariant(cfg, s)
    }

    constructor (cfg: Config, now: Time, monotonic: int)
      requires cfg.home(cfg.key) == Route.Interpret
      ensures this.cfg == cfg && s == Initial(now, monotonic) && Valid()
    {
      EveryRun(cfg, now, monotonic, []);
      this.cfg := cfg;
      s := Initial(now, monotonic);
    }

    method Take(step: Step)
      requires Valid()
      modifies this`s
      ensures Valid() && s == Apply(cfg, old(s), step)
    {
      InvariantKept(cfg, s, step);
      s := Apply(cfg, s, step);
    }

    /** Whatever the other calls do in the meantime. */
    method Others(c: nat)
      requires Valid()
      modifies this`s
      ensures Valid() && Untouched(old(s), s, c)
    {
    }

    /** The provider call: one question, and a store of a validated answer, unless the cache is to be skipped. The reply
        decides what is answered; an answer that does not validate gives way to the fallback. */
    method ExecuteProvider(c: nat, reply: Reply, stored: bool)
      requires Valid() && c in s.calls && s.calls[c].Ready? && forall p :: (c, p) !in s.stores
      modifies this`s
      ensures Valid() && old(s).trace <= s.trace && old(s).now <= s.now
      ensures c in s.calls && s.calls[c] == Finishing(old(s).calls[c].mode, Outcome(cfg, reply))
      ensures forall p :: (c, p) in s.stores <==>
        Outcome(cfg, reply) == Answered(p) && stored && !old(s).calls[c].mode.Degraded?
    {
      hide Invariant;
      Take(Ask(c));
      Others(c);
      Take(Receive(c, if reply.Valid? && !cfg.valid(reply.payload) then Invalid else reply));
      if s.calls[c].Fetched? {
        Others(c);
        Take(Save(c, stored));
      }
    }

    /** Poll until the entry is there, a statement fails, or the deadline has passed. */
    method WaitForEntry(c: nat)
      requires Valid() && c in s.calls && s.calls[c].Waiting? && forall p :: (c, p) !in s.stores
      modifies this`s
      ensures Valid() && old(s).trace <= s.trace && old(s).now <= s.now
      ensures c in s.calls && forall p :: (c, p) !in s.stores
      ensures (s.calls[c].Ready? && s.calls[c].mode.TimedOut?)
              || (s.calls[c].Returned? && !s.calls[c].leaked
                  && (s.calls[c].result.Hit? || s.calls[c].result.Failed? || s.calls[c].result.Corrupt?))
    {
      hide Invariant;
      var since := s.calls[c].since;
      while s.calls[c].Waiting?
        invariant Valid() && c in s.calls && forall p :: (c, p) !in s.stores
        invariant old(s).trace <= s.trace && old(s).now <= s.now
        invariant s.calls[c] == Waiting(since)
                  || (s.calls[c].Ready? && s.calls[c].mode.TimedOut?)
                  || (s.calls[c].Returned? && !s.calls[c].leaked
                      && (s.calls[c].result.Hit? || s.calls[c].result.Failed? || s.calls[c].result.Corrupt?))
        decreases s.calls[c].Waiting?, since + WAIT_MS - s.monotonic
      {
        Others(c);
        var ok: bool := *;
        Take(Poll(c, ok));
        if s.calls[c].Waiting? { Take(Advance(s.now, s.monotonic + 50)); }
      }
    }

    /** A call from its arrival to its return. It always returns; it asks the provider at most once, and never when it is
        served from the cache or refused; what it stored is what it answers; it serves no corrupt payload; and it keeps
        the lock only if the release failed.

        Governance and the provider decide the rest: a call that is denied is refused; one that is degraded skips the cache;
        one that is admitted is served what was live when it looked, without a question; and one that asks gives the answer
        that the reply stands for. `atLook` is the state that the lookup found. */
    method Interpret(c: nat, verdict: Verdict, lookOk: bool, lockOk: bool, reply: Reply, stored: bool, released: bool)
      returns (result: Result, asked: nat, ghost atLook: State)
      requires Valid() && c !in s.calls && forall p :: (c, p) !in s.stores
      modifies this`s
      ensures Valid() && Settled(cfg, s, c, result, asked)
      ensures verdict.Deny? <==> result.Refused?
      ensures verdict.GovernanceError? ==> result.Failed? && asked == 0
      ensures verdict.Degrade? ==> asked == 1 && forall p :: (c, p) !in s.stores
      ensures asked == 1 ==> result == Outcome(cfg, reply) && (s.calls[c].leaked ==> !released)
      ensures old(s).trace <= atLook.trace <= s.trace && old(s).now <= atLook.now <= s.now
      ensures verdict.Allow? && !lookOk ==> result.Failed? && asked == 0
      ensures verdict.Allow? && lookOk && LiveStore(cfg, atLook).Some? ==>
        asked == 0 && result.Hit? && result.entry.response == LiveStore(cfg, atLook).value.response
      ensures verdict.Allow? && lookOk && LiveStore(cfg, atLook).None? ==>
        if !lockOk then result.Failed? && asked == 0
        else asked == 1 || result.Hit? || result.Failed?
    {
      hide Invariant;
      asked, atLook := 0, s;
      FreshCallsStoredNothing(cfg, s, c, verdict);
      Take(Arrive(c, verdict));
      if verdict.Allow? {
        atLook := Prepare(c, lookOk, lockOk);
      }
      if s.calls[c].Ready? {
        asked := 1;
        ExecuteProvider(c, reply, stored);
        Others(c);
        Take(Finish(c, released));
      }
      SettledWhenReturned(cfg, s, c, asked);
      result := s.calls[c].result;
    }

    /** Look, then try the lock, then wait: the call ends up served, failed, or ready to ask the provider. It looks first: a
        live store is served at once. */
    method Prepare(c: nat, lookOk: bool, lockOk: bool) returns (ghost atLook: State)
      requires Valid() && c in s.calls && s.calls[c].Admitted? && forall p :: (c, p) !in s.stores
      modifies this`s
      ensures Valid() && c in s.calls && forall p :: (c, p) !in s.stores
      ensures old(s).trace <= atLook.trace <= s.trace && old(s).now <= atLook.now <= s.now
      ensures (s.calls[c].Ready? && !s.calls[c].mode.Degraded?)
              || (s.calls[c].Returned? && !s.calls[c].leaked
                  && (s.calls[c].result.Hit? || s.calls[c].result.Failed? || s.calls[c].result.Corrupt?))
      ensures !lookOk ==> s.calls[c].Returned? && s.calls[c].result.Failed?
      ensures lookOk && LiveStore(cfg, atLook).Some? ==> ServedFrom(s, c, LiveStore(cfg, atLook).value)
      ensures lookOk && LiveStore(cfg, atLook).None? && !lockOk ==> s.calls[c].Returned? && s.calls[c].result.Failed?
    {
      hide Invariant;
      Others(c);
      atLook := s;
      LiveStoreIsServed(cfg, s, c);
      Take(Look(c, lookOk));
      if s.calls[c].Missed? {
        Others(c);
        Take(TryLock(c, lockOk));
        if s.calls[c].Waiting? { WaitForEntry(c); }
      }
    }
  }
}
