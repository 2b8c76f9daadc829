/** The request protocol of the interpretation service around one cache key.

    Calls run concurrently: each looks the key up, tries to take the key's advisory lock, waits for
    somebody else's result when it cannot, asks the provider, stores a validated answer and releases
    the lock.  A step is one database statement, one poll or one provider event of one call; a run is
    any sequence of steps, so it covers every interleaving.  Every statement may fail.
 */
module Stampede {
  import opened Wrappers
  import opened CanonicalJson
  import opened LlmCache

  /** Why a call may ask the provider. */
  datatype Mode =
    | Holder                                    // it holds the lock
    | TimedOut(since: int, at: int)             // it waited from `since` and a poll at `at` ended the wait
    | Degraded                                  // governance told it to skip the cache

  datatype Result =
    | Hit(entry: Entry, at: Time)               // served from the cache
    | Answered(payload: Json)                   // served by the provider, validated
    | FellBack                                  // served by the fallback payload
    | Corrupt                                   // the cached payload could not be read
    | Refused                                   // denied by governance
    | Failed                                    // any other error

  datatype Phase =
    | Admitted
    | Missed
    | Waiting(since: int)
    | Ready(mode: Mode)
    | Calling(mode: Mode)
    | Fetched(mode: Mode, payload: Json)        // a validated answer that is to be stored
    | Finishing(mode: Mode, result: Result)
    | Returned(result: Result, leaked: bool)    // `leaked`: the lock could not be released

  /** The key, the payloads that can be decoded, and the route each key belongs to. */
  datatype Config = Config(key: string, valid: Json -> bool, home: string -> Route)

  const WAIT_MS := 10_000

  datatype State = State(
    now: Time,                                  // database clock
    monotonic: int,                             // process clock
    trace: seq<Timed>,                          // statements executed on the cache table
    lock: Option<nat>,
    stores: set<(nat, Json)>,                   // who stored what under the key
    calls: map<nat, Phase>)

  datatype Verdict = Allow | Degrade | Deny | GovernanceError

  datatype Reply = Valid(payload: Json) | Invalid | ProviderError

  datatype Step =
    | Advance(now: Time, monotonic: int)
    | Traffic(stmt: Statement)                  // other statements on the table: cleanups, other keys
    | Arrive(c: nat, verdict: Verdict)
    | Look(c: nat, ok: bool)
    | TryLock(c: nat, ok: bool)
    | Poll(c: nat, ok: bool)
    | Ask(c: nat)
    | Receive(c: nat, reply: Reply)
    | Save(c: nat, ok: bool)
    | Finish(c: nat, released: bool)

  function Initial(now: Time, monotonic: int): State {
    State(now, monotonic, [], None, {}, map[])
  }

  function Goto(s: State, c: nat, phase: Phase): State {
    s.(calls := s.calls[c := phase])
  }

  function Exec(s: State, stmt: Statement): State {
    s.(trace := s.trace + [At(s.now, stmt)])
  }

  /** What a call returns for the row that a lookup or a poll found. */
  function Serve(cfg: Config, entry: Entry, now: Time): (phase: Phase)
    ensures phase.Returned?
  {
    if cfg.valid(entry.response) then Returned(Hit(entry, now), false) else Returned(Corrupt, false)
  }

  function Apply(cfg: Config, s: State, step: Step): State {
    match step
    case Advance(now, monotonic) => if s.now <= now && s.monotonic <= monotonic then s.(now := now, monotonic := monotonic) else s
    case Traffic(stmt) => if !(stmt.Upsert? && stmt.key == cfg.key) && OwnRoute(At(s.now, stmt), cfg.home) then Exec(s, stmt) else s
    case Arrive(c, verdict) =>
      if c in s.calls then s
      else (
        match verdict
        case Allow => Goto(s, c, Admitted)
        case Degrade => Goto(s, c, Ready(Degraded))
        case Deny => Goto(s, c, Returned(Refused, false))
        case GovernanceError => Goto(s, c, Returned(Failed, false)))
    case Look(c, ok) =>
      if c !in s.calls || !s.calls[c].Admitted? then s
      else if !ok then Goto(s, c, Returned(Failed, false))
      else
        var touch := Touch(cfg.key, Interpret);
        var found := Answer(Run(s.trace), At(s.now, touch));
        Goto(Exec(s, touch), c, if found.Some? then Serve(cfg, found.value, s.now) else Missed)
    case TryLock(c, ok) =>
      if c !in s.calls || !s.calls[c].Missed? then s
      else if !ok then Goto(s, c, Returned(Failed, false))
      else if s.lock.None? then Goto(s.(lock := Some(c)), c, Ready(Holder))
      else Goto(s, c, Waiting(s.monotonic))
    case Poll(c, ok) =>
      if c !in s.calls || !s.calls[c].Waiting? then s
      else if !ok then Goto(s, c, Returned(Failed, false))
      else
        var peek := Peek(cfg.key, Interpret);
        var found := Answer(Run(s.trace), At(s.now, peek));
        var since := s.calls[c].since;
        Goto(Exec(s, peek), c,
             if found.Some? then Serve(cfg, found.value, s.now)
             else if s.monotonic >= since + WAIT_MS then Ready(TimedOut(since, s.monotonic))
             else Waiting(since))
    case Ask(c) => if c in s.calls && s.calls[c].Ready? then Goto(s, c, Calling(s.calls[c].mode)) else s
    case Receive(c, reply) =>
      if c !in s.calls || !s.calls[c].Calling? then s
      else (
        var mode := s.calls[c].mode;
        match reply
        case Valid(payload) =>
          if !cfg.valid(payload) then s
          else if mode.Degraded? then Goto(s, c, Finishing(mode, Answered(payload)))
          else Goto(s, c, Fetched(mode, payload))
        case Invalid => Goto(s, c, Finishing(mode, FellBack))
        case ProviderError => Goto(s, c, Finishing(mode, Failed)))
    case Save(c, ok) =>
      if c !in s.calls || !s.calls[c].Fetched? then s
      else
        var Fetched(mode, payload) := s.calls[c];
        var s' := Goto(s, c, Finishing(mode, Answered(payload)));
        if ok then
          Exec(s', Upsert(cfg.key, Interpret, Obj([]), payload, s.now + DefaultTtl(Interpret))).(
            stores := s.stores + {(c, payload)})
        else s'
    case Finish(c, released) =>
      if c !in s.calls || !s.calls[c].Finishing? then s
      else
        var Finishing(mode, result) := s.calls[c];
        if mode.Holder? then
          Goto(if released then s.(lock := None) else s, c, Returned(result, !released))
        else Goto(s, c, Returned(result, false))
  }

  function Reach(cfg: Config, start: State, steps: seq<Step>): State {
    if |steps| == 0 then start else Apply(cfg, Reach(cfg, start, steps[..|steps| - 1]), steps[|steps| - 1])
  }

  // ---------------------------------------------------------------- the lock

  /** Phases in which a call has taken the lock and not given it back. */
  predicate Owns(phase: Phase) {
    match phase
    case Ready(mode) => mode.Holder?
    case Calling(mode) => mode.Holder?
    case Fetched(mode, _) => mode.Holder?
    case Finishing(mode, _) => mode.Holder?
    case Returned(_, leaked) => leaked
    case _ => false
  }

  ghost predicate LockInvariant(s: State) {
    forall c :: s.lock == Some(c) <==> c in s.calls && Owns(s.calls[c])
  }

  lemma LockKept(cfg: Config, s: State, step: Step)
    requires LockInvariant(s)
    ensures LockInvariant(Apply(cfg, s, step))
  {
  }

  /** A call that gave up waiting had waited its ten seconds out. */
  predicate Patient(mode: Mode) {
    mode.TimedOut? ==> mode.at >= mode.since + WAIT_MS
  }

  predicate Disciplined(phase: Phase) {
    match phase
    case Ready(mode) => Patient(mode)
    case Calling(mode) => Patient(mode)
    case Fetched(mode, _) => Patient(mode) && !mode.Degraded?
    case Finishing(mode, _) => Patient(mode)
    case _ => true
  }

  // ---------------------------------------------------------------- the cache

  ghost predicate StoredBy(s: State, payload: Json) {
    exists c :: (c, payload) in s.stores
  }

  /** Every store under the key put there what some call validated, for the route's time to live. */
  ghost predicate StoresInvariant(cfg: Config, s: State) {
    && (forall p | p in s.stores :: cfg.valid(p.1))
    && (forall t | t in s.trace && t.stmt.Upsert? && t.stmt.key == cfg.key ::
          StoredBy(s, t.stmt.response) && t.stmt.expiresAt == t.now + DefaultTtl(Interpret))
  }

  ghost predicate TraceInvariant(cfg: Config, s: State) {
    InOrder(s.trace) && forall t | t in s.trace :: OwnRoute(t, cfg.home) && t.now <= s.now
  }

  /** A hit serves a stored payload, while it is less than its time to live old. */
  ghost predicate SoundResult(cfg: Config, s: State, result: Result) {
    match result
    case Hit(entry, at) =>
      && StoredBy(s, entry.response)
      && cfg.valid(entry.response)
      && at < entry.createdAt + DefaultTtl(Interpret)
    case Answered(payload) => cfg.valid(payload)
    case Corrupt => false
    case _ => true
  }

  ghost predicate SoundPhase(cfg: Config, s: State, phase: Phase) {
    match phase
    case Fetched(_, payload) => cfg.valid(payload)
    case Finishing(_, result) => SoundResult(cfg, s, result)
    case Returned(result, _) => SoundResult(cfg, s, result)
    case _ => true
  }

  ghost predicate Invariant(cfg: Config, s: State) {
    && LockInvariant(s) && StoresInvariant(cfg, s) && TraceInvariant(cfg, s)
    && (forall c | c in s.calls :: Disciplined(s.calls[c]) && SoundPhase(cfg, s, s.calls[c]))
  }

  /** The record of the latest store under a key goes back to a statement of the trace. */
  lemma {:induction false} LatestWasStored(trace: seq<Timed>, key: string)
    requires Latest(trace, key).Some?
    ensures exists t | t in trace :: t.stmt.Upsert? && t.stmt.key == key
              && t.stmt.response == Latest(trace, key).value.response
              && t.stmt.expiresAt == Latest(trace, key).value.expiresAt
              && t.now == Latest(trace, key).value.createdAt
    decreases |trace|
  {
    var s := trace[|trace| - 1];
    assert s in trace;
    if !(s.stmt.Upsert? && s.stmt.key == key) {
      LatestWasStored(trace[..|trace| - 1], key);
    }
  }

  /** Whatever row a lookup or poll of the key finds can be served. */
  lemma FoundIsSound(cfg: Config, s: State, stmt: Statement)
    requires cfg.home(cfg.key) == Interpret
    requires StoresInvariant(cfg, s) && TraceInvariant(cfg, s)
    requires stmt == Touch(cfg.key, Interpret) || stmt == Peek(cfg.key, Interpret)
    ensures var found := Answer(Run(s.trace), At(s.now, stmt));
            found.Some? ==>
              && Serve(cfg, found.value, s.now) == Returned(Hit(found.value, s.now), false)
              && SoundResult(cfg, s, Hit(found.value, s.now))
  {
    CacheReturnsLatestStore(s.trace, cfg.home, cfg.key, s.now);
    if Latest(s.trace, cfg.key).Some? { LatestWasStored(s.trace, cfg.key); }
  }

  lemma ExecKeepsTrace(cfg: Config, s: State, stmt: Statement)
    requires TraceInvariant(cfg, s) && OwnRoute(At(s.now, stmt), cfg.home)
    ensures TraceInvariant(cfg, Exec(s, stmt))
  {
  }

  lemma TraceKept(cfg: Config, s: State, step: Step)
    requires cfg.home(cfg.key) == Interpret && TraceInvariant(cfg, s)
    ensures TraceInvariant(cfg, Apply(cfg, s, step))
  {
    var s' := Apply(cfg, s, step);
    if |s'.trace| > |s.trace| {
      ExecKeepsTrace(cfg, s, s'.trace[|s.trace|].stmt);
    }
  }

  lemma StoresKept(cfg: Config, s: State, step: Step)
    requires StoresInvariant(cfg, s)
    requires forall c | c in s.calls :: SoundPhase(cfg, s, s.calls[c])
    ensures StoresInvariant(cfg, Apply(cfg, s, step))
  {
    var s' := Apply(cfg, s, step);
    forall t | t in s'.trace && t.stmt.Upsert? && t.stmt.key == cfg.key
      ensures StoredBy(s', t.stmt.response) && t.stmt.expiresAt == t.now + DefaultTtl(Interpret)
    {
      if t in s.trace {
        var c :| (c, t.stmt.response) in s.stores;
        assert (c, t.stmt.response) in s'.stores;
      } else {
        assert step.Save? && (step.c, t.stmt.response) in s'.stores;
      }
    }
  }

  lemma SoundStays(cfg: Config, s: State, s': State, phase: Phase)
    requires SoundPhase(cfg, s, phase) && s.stores <= s'.stores
    ensures SoundPhase(cfg, s', phase)
  {
    forall payload | StoredBy(s, payload) ensures StoredBy(s', payload) {
      var d :| (d, payload) in s.stores;
      assert (d, payload) in s'.stores;
    }
  }

  lemma DisciplineKept(cfg: Config, s: State, step: Step, c: nat)
    requires c in s.calls ==> Disciplined(s.calls[c])
    requires c in Apply(cfg, s, step).calls
    ensures Disciplined(Apply(cfg, s, step).calls[c])
  {
  }

  /** The phase that a step moves its call to is sound in the state before the step. */
  lemma NewPhaseSound(cfg: Config, s: State, step: Step, c: nat)
    requires cfg.home(cfg.key) == Interpret && StoresInvariant(cfg, s) && TraceInvariant(cfg, s)
    requires c in s.calls ==> SoundPhase(cfg, s, s.calls[c])
    requires c in Apply(cfg, s, step).calls
    ensures SoundPhase(cfg, s, Apply(cfg, s, step).calls[c])
  {
    if step.Look? || step.Poll? {
      FoundIsSound(cfg, s, if step.Look? then Touch(cfg.key, Interpret) else Peek(cfg.key, Interpret));
    }
  }

  lemma InvariantKept(cfg: Config, s: State, step: Step)
    requires cfg.home(cfg.key) == Interpret && Invariant(cfg, s)
    ensures Invariant(cfg, Apply(cfg, s, step))
  {
    LockKept(cfg, s, step);
    TraceKept(cfg, s, step);
    StoresKept(cfg, s, step);
    var s' := Apply(cfg, s, step);
    forall c | c in s'.calls ensures Disciplined(s'.calls[c]) && SoundPhase(cfg, s', s'.calls[c]) {
      DisciplineKept(cfg, s, step, c);
      NewPhaseSound(cfg, s, step, c);
      SoundStays(cfg, s, s', s'.calls[c]);
    }
  }

  lemma {:induction false} EveryRun(cfg: Config, now: Time, monotonic: int, steps: seq<Step>)
    requires cfg.home(cfg.key) == Interpret
    ensures Invariant(cfg, Reach(cfg, Initial(now, monotonic), steps))
    decreases |steps|
  {
    if |steps| > 0 {
      var n := |steps| - 1;
      EveryRun(cfg, now, monotonic, steps[..n]);
      InvariantKept(cfg, Reach(cfg, Initial(now, monotonic), steps[..n]), steps[n]);
    }
  }

  // ---------------------------------------------------------------- what every run guarantees

  /** Two calls are in the provider at once only if one of them does not hold the lock, and such a
      call has polled in vain up to its deadline or was told to skip the cache. */
  lemma OneHolderInTheProvider(cfg: Config, now: Time, monotonic: int, steps: seq<Step>, c: nat, d: nat)
    requires cfg.home(cfg.key) == Interpret
    requires var s := Reach(cfg, Initial(now, monotonic), steps);
             c in s.calls && d in s.calls && s.calls[c].Calling? && s.calls[d].Calling? && c != d
    ensures var s := Reach(cfg, Initial(now, monotonic), steps);
            var m, n := s.calls[c].mode, s.calls[d].mode;
            && !(m.Holder? && n.Holder?)
            && (m.Holder? ==> s.lock == Some(c))
            && (m.TimedOut? ==> m.at >= m.since + WAIT_MS)
  {
    EveryRun(cfg, now, monotonic, steps);
  }

  /** A call that has returned holds the lock exactly when its release failed; so when no release
      failed and every call has returned, the lock is free. */
  lemma LocksAreReleased(cfg: Config, now: Time, monotonic: int, steps: seq<Step>)
    requires cfg.home(cfg.key) == Interpret
    ensures var s := Reach(cfg, Initial(now, monotonic), steps);
            && (forall c | c in s.calls && s.calls[c].Returned? :: s.lock == Some(c) <==> s.calls[c].leaked)
            && ((forall c | c in s.calls :: s.calls[c].Returned? && !s.calls[c].leaked) ==> s.lock.None?)
  {
    EveryRun(cfg, now, monotonic, steps);
  }

  /** A cache hit serves a payload that some call validated and stored, never a fallback and never one
      past its hour; and no cached payload is ever found corrupt. */
  lemma HitsWereValidatedAndStored(cfg: Config, now: Time, monotonic: int, steps: seq<Step>, c: nat)
    requires cfg.home(cfg.key) == Interpret
    requires var s := Reach(cfg, Initial(now, monotonic), steps);
             c in s.calls && s.calls[c].Returned?
    ensures var s := Reach(cfg, Initial(now, monotonic), steps);
            var result := s.calls[c].result;
            && result != Corrupt
            && (result.Hit? ==>
                  && (exists d :: (d, result.entry.response) in s.stores)
                  && cfg.valid(result.entry.response)
                  && result.at < result.entry.createdAt + 3_600_000)
  {
    EveryRun(cfg, now, monotonic, steps);
    var s := Reach(cfg, Initial(now, monotonic), steps);
    assert SoundPhase(cfg, s, s.calls[c]);
  }

  // ---------------------------------------------------------------- what is cached is served

  /** The latest store under the key, while its hour lasts. */
  function LiveStore(cfg: Config, s: State): Option<Entry> {
    var latest := Latest(s.trace, cfg.key);
    if latest.Some? && s.now < latest.value.expiresAt then latest else None
  }

  /** The call is served what was stored, and stands nowhere else. */
  predicate ServedFrom(s: State, c: nat, stored: Entry) {
    && c in s.calls && s.calls[c].Returned? && s.calls[c].result.Hit? && !s.calls[c].leaked
    && s.calls[c].result.entry.response == stored.response
    && s.calls[c].result.entry.createdAt == stored.createdAt
    && s.calls[c].result.at == s.now
  }

  /** A statement that works serves a live store to the call that looks, and to the one that polls. Without one the first
      goes on to the lock, and the second waits until its ten seconds are over. */
  lemma LiveStoreIsServed(cfg: Config, s: State, c: nat)
    requires cfg.home(cfg.key) == Interpret && Invariant(cfg, s) && c in s.calls
    ensures s.calls[c].Admitted? ==> var s' := Apply(cfg, s, Look(c, true));
      if LiveStore(cfg, s).Some? then ServedFrom(s', c, LiveStore(cfg, s).value) else s'.calls[c] == Missed
    ensures s.calls[c].Waiting? ==> var s' := Apply(cfg, s, Poll(c, true)); var since := s.calls[c].since;
      if LiveStore(cfg, s).Some? then ServedFrom(s', c, LiveStore(cfg, s).value)
      else if s.monotonic < since + 10_000 then s'.calls[c] == Waiting(since)
      else s'.calls[c] == Ready(TimedOut(since, s.monotonic))
  {
    FoundIsSound(cfg, s, Touch(cfg.key, Interpret));
    FoundIsSound(cfg, s, Peek(cfg.key, Interpret));
    CacheReturnsLatestStore(s.trace, cfg.home, cfg.key, s.now);
    hide Run, Latest, Answer, Invariant;
  }

  /** In every run. */
  lemma LiveStoresAreServed(cfg: Config, now: Time, monotonic: int, steps: seq<Step>, c: nat)
    requires cfg.home(cfg.key) == Interpret
    requires var s := Reach(cfg, Initial(now, monotonic), steps);
      c in s.calls && (s.calls[c].Admitted? || s.calls[c].Waiting?) && LiveStore(cfg, s).Some?
    ensures var s := Reach(cfg, Initial(now, monotonic), steps);
      ServedFrom(Apply(cfg, s, if s.calls[c].Admitted? then Look(c, true) else Poll(c, true)), c, LiveStore(cfg, s).value)
  {
    EveryRun(cfg, now, monotonic, steps);
    LiveStoreIsServed(cfg, Reach(cfg, Initial(now, monotonic), steps), c);
  }

  /** A call that missed gets the lock at once exactly when no call has it, and waits from then on otherwise. */
  lemma FreeLockIsTaken(cfg: Config, s: State, c: nat)
    requires Invariant(cfg, s) && c in s.calls && s.calls[c].Missed?
    ensures var s' := Apply(cfg, s, TryLock(c, true));
      if forall d | d in s.calls :: !Owns(s.calls[d]) then s'.calls[c] == Ready(Holder) && s'.lock == Some(c)
      else s'.calls[c] == Waiting(s.monotonic) && s'.lock == s.lock
  {
    if s.lock.Some? { assert Owns(s.calls[s.lock.value]); }
  }

  /** A call that has returned takes no further step: what it asked by then is all that it ever asks. */
  lemma {:induction false} ReturnedStays(cfg: Config, s: State, later: seq<Step>, c: nat)
    requires c in s.calls && s.calls[c].Returned?
    ensures c in Reach(cfg, s, later).calls && Reach(cfg, s, later).calls[c] == s.calls[c]
    decreases |later|
  {
    if |later| > 0 { ReturnedStays(cfg, s, later[..|later| - 1], c); }
  }

  /** Nobody stores anything under the key. */
  predicate NoSaves(steps: seq<Step>) {
    forall step | step in steps :: !(step.Save? && step.ok)
  }

  predicate SameStore(a: Option<Entry>, b: Option<Entry>) {
    && (a.Some? <==> b.Some?)
    && (a.Some? ==>
          a.value.response == b.value.response && a.value.createdAt == b.value.createdAt && a.value.expiresAt == b.value.expiresAt)
  }

  lemma {:induction false} StoreStays(cfg: Config, s: State, later: seq<Step>)
    requires NoSaves(later)
    ensures SameStore(Latest(s.trace, cfg.key), Latest(Reach(cfg, s, later).trace, cfg.key))
    decreases |later|
  {
    if |later| > 0 {
      var n := |later| - 1;
      assert NoSaves(later[..n]) by {
        forall step | step in later[..n] ensures !(step.Save? && step.ok) { assert step in later; }
      }
      StoreStays(cfg, s, later[..n]);
      assert later[n] in later;
      StepKeepsStore(cfg, Reach(cfg, s, later[..n]), later[n]);
      hide Apply;
    }
  }

  lemma StepKeepsStore(cfg: Config, s: State, step: Step)
    requires !(step.Save? && step.ok)
    ensures SameStore(Latest(s.trace, cfg.key), Latest(Apply(cfg, s, step).trace, cfg.key))
  {
    StepStatement(cfg, s, step);
    hide Apply, Latest;
    var s' := Apply(cfg, s, step);
    if s'.trace != s.trace { OtherStatement(cfg.key, s.trace, s'.trace[|s.trace|]); }
  }

  /** A step executes at most one statement, and no store under the key. */
  lemma StepStatement(cfg: Config, s: State, step: Step)
    requires !(step.Save? && step.ok)
    ensures var s' := Apply(cfg, s, step);
      s'.trace == s.trace
      || (|s'.trace| == |s.trace| + 1 && s'.trace == s.trace + [s'.trace[|s.trace|]]
          && !(s'.trace[|s.trace|].stmt.Upsert? && s'.trace[|s.trace|].stmt.key == cfg.key))
  {
    hide Latest, Run, Answer, Serve;
  }

  lemma OtherStatement(key: string, trace: seq<Timed>, t: Timed)
    requires !(t.stmt.Upsert? && t.stmt.key == key)
    ensures SameStore(Latest(trace, key), Latest(trace + [t], key))
  {
    assert (trace + [t])[..|trace|] == trace;
  }

  /** A payload whose store works is the one that every later look and poll serves, for an hour and as long as nobody stores
      another one. */
  lemma SavedIsServed(cfg: Config, now: Time, monotonic: int, steps: seq<Step>, c: nat, later: seq<Step>, d: nat)
    requires cfg.home(cfg.key) == Interpret && NoSaves(later)
    requires var s := Reach(cfg, Initial(now, monotonic), steps); c in s.calls && s.calls[c].Fetched?
    requires var s := Reach(cfg, Initial(now, monotonic), steps);
      var s' := Reach(cfg, Apply(cfg, s, Save(c, true)), later);
      d in s'.calls && (s'.calls[d].Admitted? || s'.calls[d].Waiting?) && s'.now < s.now + 3_600_000
    ensures var s := Reach(cfg, Initial(now, monotonic), steps);
      var s' := Reach(cfg, Apply(cfg, s, Save(c, true)), later);
      var result := Apply(cfg, s', if s'.calls[d].Admitted? then Look(d, true) else Poll(d, true)).calls[d];
      result.Returned? && result.result.Hit? && result.result.entry.response == s.calls[c].payload
  {
    var s := Reach(cfg, Initial(now, monotonic), steps);
    var saved := Apply(cfg, s, Save(c, true));
    var s' := Reach(cfg, saved, later);
    EveryRun(cfg, now, monotonic, steps);
    InvariantKept(cfg, s, Save(c, true));
    InvariantOn(cfg, saved, later);
    SavedIsLatest(cfg, s, c);
    StoreStays(cfg, saved, later);
    LiveStoreIsServed(cfg, s', d);
    hide Reach, Apply, Latest, Invariant;
  }

  /** After its hour it is not served any more, and the call that looks goes on to the lock. */
  lemma SavedExpires(cfg: Config, s: State, c: nat, d: nat, now: Time, monotonic: int)
    requires cfg.home(cfg.key) == Interpret && Invariant(cfg, s)
    requires c in s.calls && s.calls[c].Fetched? && d in s.calls && s.calls[d].Admitted?
    requires s.now + 3_600_000 <= now && s.monotonic <= monotonic
    ensures var later := Apply(cfg, Apply(cfg, s, Save(c, true)), Advance(now, monotonic));
      && later.now == now && later.monotonic == monotonic
      && Apply(cfg, later, Look(d, true)).calls[d] == Missed
  {
    var saved := Apply(cfg, s, Save(c, true));
    var later := Apply(cfg, saved, Advance(now, monotonic));
    assert d in later.calls && later.calls[d] == Admitted;
    InvariantKept(cfg, s, Save(c, true));
    InvariantKept(cfg, saved, Advance(now, monotonic));
    SavedIsLatest(cfg, s, c);
    LiveStoreIsServed(cfg, later, d);
    assert later.trace == saved.trace && later.now == now && later.monotonic == monotonic;
    hide Apply, Latest, Invariant;
  }

  /** Others may execute any statement on the table at any time, but for a store under the key; and what does not decode is
      never served as a hit. */
  lemma OthersExecute(cfg: Config, s: State, stmt: Statement, entry: Entry)
    requires !(stmt.Upsert? && stmt.key == cfg.key) && OwnRoute(At(s.now, stmt), cfg.home)
    ensures Apply(cfg, s, Traffic(stmt)) == s.(trace := s.trace + [At(s.now, stmt)])
    ensures Serve(cfg, entry, s.now).result.Hit? <==> cfg.valid(entry.response)
    ensures !cfg.valid(entry.response) ==> Serve(cfg, entry, s.now).result == Corrupt
  {
  }

  lemma SavedIsLatest(cfg: Config, s: State, c: nat)
    requires c in s.calls && s.calls[c].Fetched?
    ensures Latest(Apply(cfg, s, Save(c, true)).trace, cfg.key)
         == Some(Entry(Interpret, Obj([]), s.calls[c].payload, s.now, s.now + 3_600_000, 0, None))
  {
  }

  lemma {:induction false} InvariantOn(cfg: Config, s: State, later: seq<Step>)
    requires cfg.home(cfg.key) == Interpret && Invariant(cfg, s)
    ensures Invariant(cfg, Reach(cfg, s, later))
    decreases |later|
  {
    hide Invariant;
    if |later| > 0 {
      InvariantOn(cfg, s, later[..|later| - 1]);
      InvariantKept(cfg, Reach(cfg, s, later[..|later| - 1]), later[|later| - 1]);
    }
  }

  predicate HasStored(s: State, c: nat, payload: Json) {
    && c in s.calls
    && ((s.calls[c].Finishing? && s.calls[c].result == Answered(payload) && !s.calls[c].mode.Degraded?)
        || (s.calls[c].Returned? && s.calls[c].result == Answered(payload)))
  }

  lemma StoreStep(cfg: Config, s: State, step: Step, c: nat, payload: Json)
    requires c in s.calls && s.calls[c].Fetched? ==> Disciplined(s.calls[c])
    requires (c, payload) in Apply(cfg, s, step).stores
    requires (c, payload) in s.stores ==> HasStored(s, c, payload)
    ensures HasStored(Apply(cfg, s, step), c, payload)
  {
  }

  /** Only a call that got a validated answer with its cache in use stores anything. */
  lemma {:induction false} OnlyAnsweredCallsStore(cfg: Config, now: Time, monotonic: int, steps: seq<Step>, c: nat, payload: Json)
    requires cfg.home(cfg.key) == Interpret
    requires (c, payload) in Reach(cfg, Initial(now, monotonic), steps).stores
    ensures HasStored(Reach(cfg, Initial(now, monotonic), steps), c, payload)
    decreases |steps|
  {
    var n := |steps| - 1;
    var s := Reach(cfg, Initial(now, monotonic), steps[..n]);
    EveryRun(cfg, now, monotonic, steps[..n]);
    if (c, payload) in s.stores { OnlyAnsweredCallsStore(cfg, now, monotonic, steps[..n], c, payload); }
    StoreStep(cfg, s, steps[n], c, payload);
  }
}
