/** How far concurrent interpret calls can overshoot a request limit.

    Every call looks up the policies that apply to it, checks the bucket of each at the instant it read
    from its clock when it began, calls the provider, looks the policies up again, and adds one request
    to the bucket of each at an instant read afresh.  Calls with different routes, providers or models
    have different lists, which may share policies.  Between any two of these database statements other calls run and time may
    pass, so a call may check one window and be counted in a later one.  The steps below are the
    single statements; a run is any sequence of them.
 */
module RequestBound {
  import opened Collections
  import opened Wrappers
  import RateLimit

  type Time = RateLimit.Time

  /** All policies: their request limits and the window of an instant, by number, and the largest number
      of calls in progress at once. */
  datatype Config = Config(limits: seq<Option<int>>, window: (nat, Time) -> Time, callers: nat)

  ghost predicate Monotone(cfg: Config) {
    forall j: nat, s: Time, t: Time :: s <= t ==> cfg.window(j, s) <= cfg.window(j, t)
  }

  datatype Phase =
    | Checking(list: seq<nat>, at: Time, k: nat)                // the list is checked before k, at the windows of `at`
    | Recording(list: seq<nat>, k: nat, stamp: Option<Time>)    // it is recorded before k; `stamp` is the instant read for k

  datatype State = State(now: Time, requests: map<(nat, Time), nat>, calls: map<nat, Phase>)

  function Count(s: State, j: nat, w: Time): nat {
    if (j, w) in s.requests then s.requests[(j, w)] else 0
  }

  /** A list of policies as the database answers it: no policy twice. */
  predicate IsList(cfg: Config, list: seq<nat>) {
    && (forall i | 0 <= i < |list| :: list[i] < |cfg.limits|)
    && forall i, j | 0 <= i < j < |list| :: list[i] != list[j]
  }

  /** The policy is on the list, from some place on. */
  predicate HasFrom(list: seq<nat>, from: nat, j: nat) {
    exists i :: from <= i < |list| && list[i] == j
  }

  predicate Within(list: seq<nat>, all: seq<nat>) {
    forall i | 0 <= i < |list| :: HasFrom(all, 0, list[i])
  }

  datatype Step =
    | Tick(to: Time)
    | Begin(c: nat, list: seq<nat>)             // read the clock and the policies
    | Check(c: nat, overBudget: bool)           // read the next bucket; leave when it is exhausted
    | StartRecording(c: nat, list: seq<nat>)    // the provider answered; some policies may no longer be enabled
    | Stamp(c: nat)                             // read the clock for the next record
    | Commit(c: nat, ok: bool)                  // add one request to the next bucket, or fail to
    | Leave(c: nat)                             // cache hit, provider failure, or any other end of the call

  /** One more request would exceed the limit of the policy. */
  predicate Full(cfg: Config, s: State, j: nat, at: Time) {
    && j < |cfg.limits|
    && RateLimit.Exhausted(RateLimit.Policy(j, RateLimit.PerDay, cfg.limits[j], None),
                           RateLimit.NOTHING.(requests := Count(s, j, cfg.window(j, at))), 0)
  }

  predicate CanCommit(s: State, c: nat) {
    c in s.calls && s.calls[c].Recording? && s.calls[c].stamp.Some? && s.calls[c].k < |s.calls[c].list|
  }

  /** The effect of a step; a step that is not possible does nothing. */
  function Apply(cfg: Config, s: State, step: Step): State {
    match step
    case Tick(to) => if s.now <= to then s.(now := to) else s
    case Begin(c, list) =>
      if c !in s.calls && |s.calls| < cfg.callers && IsList(cfg, list) then
        s.(calls := s.calls[c := Checking(list, s.now, 0)])
      else s
    case Check(c, overBudget) =>
      if c in s.calls && s.calls[c].Checking? && s.calls[c].k < |s.calls[c].list| then
        var Checking(list, at, k) := s.calls[c];
        if overBudget || Full(cfg, s, list[k], at) then s.(calls := s.calls - {c})
        else s.(calls := s.calls[c := Checking(list, at, k + 1)])
      else s
    case StartRecording(c, list) =>
      if && c in s.calls && s.calls[c].Checking? && s.calls[c].k >= |s.calls[c].list|
         && IsList(cfg, list) && Within(list, s.calls[c].list)
      then s.(calls := s.calls[c := Recording(list, 0, None)])
      else s
    case Stamp(c) =>
      if c in s.calls && s.calls[c].Recording? && s.calls[c].stamp.None? && s.calls[c].k < |s.calls[c].list| then
        s.(calls := s.calls[c := s.calls[c].(stamp := Some(s.now))])
      else s
    case Commit(c, ok) =>
      if CanCommit(s, c) then
        var Recording(list, k, stamp) := s.calls[c];
        var w := cfg.window(list[k], stamp.value);
        State(s.now,
              if ok then s.requests[(list[k], w) := Count(s, list[k], w) + 1] else s.requests,
              s.calls[c := Recording(list, k + 1, None)])
      else s
    case Leave(c) => s.(calls := s.calls - {c})
  }

  function Run(cfg: Config, start: Time, steps: seq<Step>): State
    decreases |steps|
  {
    if |steps| == 0 then State(start, map[], map[])
    else Apply(cfg, Run(cfg, start, steps[..|steps| - 1]), steps[|steps| - 1])
  }

  // ---------------------------------------------------------------- the invariant

  /** Whether a call may still add to window `w` of policy `j` without checking that window first. */
  predicate MayHit(cfg: Config, phase: Phase, now: Time, j: nat, w: Time) {
    match phase
    case Checking(list, at, k) =>
      HasFrom(list, 0, j) && w >= cfg.window(j, now) && !(HasFrom(list, k, j) && w == cfg.window(j, at))
    case Recording(list, k, stamp) =>
      || (stamp.None? && HasFrom(list, k, j) && w >= cfg.window(j, now))
      || (stamp.Some? && HasFrom(list, k + 1, j) && w >= cfg.window(j, now))
      || (stamp.Some? && k < |list| && list[k] == j && w == cfg.window(j, stamp.value))
  }

  function Hitters(cfg: Config, s: State, j: nat, w: Time): set<nat> {
    set c | c in s.calls && MayHit(cfg, s.calls[c], s.now, j, w)
  }

  predicate NotFromTheFuture(phase: Phase, now: Time) {
    match phase
    case Checking(_, at, _) => at <= now
    case Recording(_, _, stamp) => stamp.Some? ==> stamp.value <= now
  }

  ghost predicate Invariant(cfg: Config, s: State) {
    && |s.calls| <= cfg.callers
    && (forall c | c in s.calls :: NotFromTheFuture(s.calls[c], s.now) && IsList(cfg, s.calls[c].list))
    && (forall j: nat, w: Time :: w > cfg.window(j, s.now) ==> Count(s, j, w) == 0)
  }

  /** What a window's counter and the calls that may still add to it come to, at most. */
  ghost predicate Bounded(cfg: Config, s: State, j: nat, w: Time, max: int) {
    Count(s, j, w) + |Hitters(cfg, s, j, w)| <= max + cfg.callers - 1
  }

  lemma HittersAreCalls(cfg: Config, s: State, j: nat, w: Time)
    ensures |Hitters(cfg, s, j, w)| <= |s.calls|
  {
    SubsetSize(Hitters(cfg, s, j, w), s.calls.Keys);
    assert |s.calls.Keys| == |s.calls|;
  }

  lemma FutureStaysEmpty(cfg: Config, s: State, step: Step, j: nat, w: Time)
    requires Monotone(cfg) && Invariant(cfg, s)
    ensures w > cfg.window(j, Apply(cfg, s, step).now) ==> Count(Apply(cfg, s, step), j, w) == 0
  {
    assert cfg.window(j, s.now) <= cfg.window(j, Apply(cfg, s, step).now);
    assert w > cfg.window(j, s.now) ==> Count(s, j, w) == 0;
    if step.Commit? && CanCommit(s, step.c) {
      assert cfg.window(j, s.calls[step.c].stamp.value) <= cfg.window(j, s.now);
    }
  }

  lemma CallersKept(cfg: Config, s: State, step: Step)
    requires Invariant(cfg, s)
    ensures |Apply(cfg, s, step).calls| <= cfg.callers
  {
    hide IsList, Within, Full, NotFromTheFuture;
    if !step.Tick? {
      var calls := Apply(cfg, s, step).calls;
      UpdateSize(s.calls, step.c, if step.c in calls then calls[step.c] else Checking([], 0, 0));
    }
  }

  lemma InvariantKept(cfg: Config, s: State, step: Step)
    requires Monotone(cfg) && Invariant(cfg, s)
    ensures Invariant(cfg, Apply(cfg, s, step))
  {
    CallersKept(cfg, s, step);
    forall j: nat, w: Time ensures w > cfg.window(j, Apply(cfg, s, step).now) ==> Count(Apply(cfg, s, step), j, w) == 0 {
      FutureStaysEmpty(cfg, s, step, j, w);
    }
  }

  lemma BoundKept(cfg: Config, s: State, step: Step, j: nat, w: Time, max: int)
    requires Monotone(cfg) && Invariant(cfg, s)
    requires j < |cfg.limits| && cfg.limits[j] == Some(max) && max >= 1
    requires Bounded(cfg, s, j, w, max)
    ensures Bounded(cfg, Apply(cfg, s, step), j, w, max)
  {
    var s' := Apply(cfg, s, step);
    var before, after := Hitters(cfg, s, j, w), Hitters(cfg, s', j, w);
    InvariantKept(cfg, s, step);
    HittersAreCalls(cfg, s', j, w);
    if Count(s', j, w) < max {
      // room for every call in progress
    } else if step.Commit? {
      CommitBound(cfg, s, step, j, w);
    } else {
      assert Count(s', j, w) == Count(s, j, w);
      NoNewHitters(cfg, s, step, j, w);
      SubsetSize(after, before);
    }
  }

  /** While a window is full, no step but a record changes its counter, and none makes a call a new threat to it. */
  lemma NoNewHitters(cfg: Config, s: State, step: Step, j: nat, w: Time)
    requires Monotone(cfg) && Invariant(cfg, s) && !step.Commit?
    requires j < |cfg.limits| && cfg.limits[j].Some? && Count(s, j, w) >= cfg.limits[j].value >= 1
    ensures Hitters(cfg, Apply(cfg, s, step), j, w) <= Hitters(cfg, s, j, w)
  {
    var s' := Apply(cfg, s, step);
    assert w <= cfg.window(j, s.now);
    forall c | c in Hitters(cfg, s', j, w) ensures c in Hitters(cfg, s, j, w) {
      if c in s.calls && s'.calls[c] == s.calls[c] {
        HitsEarlier(cfg, s.calls[c], s.now, s'.now, j, w);
      } else {
        ActorNoThreat(cfg, s, step, c, j, w);
      }
    }
  }

  lemma HitsEarlier(cfg: Config, phase: Phase, now: Time, later: Time, j: nat, w: Time)
    requires Monotone(cfg) && now <= later && MayHit(cfg, phase, later, j, w)
    ensures MayHit(cfg, phase, now, j, w)
  {
    assert cfg.window(j, now) <= cfg.window(j, later);
    hide HasFrom;
  }

  /** The call that takes the step was a threat before, if it is one now. */
  lemma ActorNoThreat(cfg: Config, s: State, step: Step, c: nat, j: nat, w: Time)
    requires !step.Commit? && w <= cfg.window(j, s.now)
    requires j < |cfg.limits| && cfg.limits[j].Some? && Count(s, j, w) >= cfg.limits[j].value >= 1
    requires var s' := Apply(cfg, s, step); c in s'.calls && !(c in s.calls && s'.calls[c] == s.calls[c])
    requires MayHit(cfg, Apply(cfg, s, step).calls[c], Apply(cfg, s, step).now, j, w)
    ensures c in s.calls && MayHit(cfg, s.calls[c], s.now, j, w)
  {
    hide IsList;
    if step.Check? {
      var Checking(list, at, k) := s.calls[c];
      assert HasFrom(list, k, j) ==> list[k] == j || HasFrom(list, k + 1, j);
    }
  }

  /** A record adds one to the counter of its window and takes its call off the list of threats. */
  lemma CommitBound(cfg: Config, s: State, step: Step, j: nat, w: Time)
    requires Monotone(cfg) && Invariant(cfg, s) && step.Commit?
    ensures var s' := Apply(cfg, s, step);
            Count(s', j, w) + |Hitters(cfg, s', j, w)| <= Count(s, j, w) + |Hitters(cfg, s, j, w)|
  {
    var s' := Apply(cfg, s, step);
    var before, after := Hitters(cfg, s, j, w), Hitters(cfg, s', j, w);
    assert after <= before;
    SubsetSize(after, before);
    if Count(s', j, w) > Count(s, j, w) {
      var Recording(list, k, _) := s.calls[step.c];
      assert list[k] == j && !HasFrom(list, k + 1, j);
      assert step.c in before && step.c !in after;
      SubsetSize(after, before - {step.c});
    }
  }

  /** The instant is read and the request recorded, for each of the next `n` policies. */
  function Records(c: nat, n: nat): seq<Step> {
    if n == 0 then [] else Records(c, n - 1) + [Stamp(c)] + [Commit(c, true)]
  }

  function Resume(cfg: Config, s: State, steps: seq<Step>): State
    decreases |steps|
  {
    if |steps| == 0 then s else Apply(cfg, Resume(cfg, s, steps[..|steps| - 1]), steps[|steps| - 1])
  }

  /** A call that records undisturbed adds one request to the current window of each policy on its list, and to no other
      counter. */
  lemma {:induction false} RecordsEachPolicyOnce(cfg: Config, s: State, c: nat, n: nat)
    requires c in s.calls && s.calls[c].Recording? && s.calls[c].k == 0 && s.calls[c].stamp.None?
    requires IsList(cfg, s.calls[c].list) && n <= |s.calls[c].list|
    ensures var list := s.calls[c].list; var s' := Resume(cfg, s, Records(c, n));
      && s'.now == s.now && c in s'.calls && s'.calls[c] == Recording(list, n, None)
      && forall j: nat, w: Time :: Count(s', j, w) == Count(s, j, w) + if j in list[..n] && w == cfg.window(j, s.now) then 1 else 0
  {
    if n > 0 {
      RecordsEachPolicyOnce(cfg, s, c, n - 1);
      ResumeTwo(cfg, s, Records(c, n - 1), Stamp(c), Commit(c, true));
      OneRecord(cfg, Resume(cfg, s, Records(c, n - 1)), c);
      OneMoreOf(cfg, s.calls[c].list, n);
      hide Apply, Resume, IsList;
    }
  }

  lemma OneMoreOf(cfg: Config, list: seq<nat>, n: nat)
    requires IsList(cfg, list) && 0 < n <= |list|
    ensures forall j :: j in list[..n] <==> j in list[..n - 1] || j == list[n - 1]
    ensures list[n - 1] !in list[..n - 1]
  {
    assert list[..n] == list[..n - 1] + [list[n - 1]];
  }

  lemma ResumeTwo(cfg: Config, s: State, before: seq<Step>, one: Step, two: Step)
    ensures Resume(cfg, s, before + [one] + [two]) == Apply(cfg, Apply(cfg, Resume(cfg, s, before), one), two)
  {
    hide Apply;
    assert (before + [one])[..|before|] == before;
    assert (before + [one] + [two])[..|before + [one]|] == before + [one];
  }

  lemma OneRecord(cfg: Config, s: State, c: nat)
    requires c in s.calls && s.calls[c].Recording? && s.calls[c].stamp.None? && s.calls[c].k < |s.calls[c].list|
    ensures var Recording(list, k, _) := s.calls[c]; var s' := Apply(cfg, Apply(cfg, s, Stamp(c)), Commit(c, true));
      && s'.now == s.now && c in s'.calls && s'.calls[c] == Recording(list, k + 1, None)
      && forall j: nat, w: Time ::
           Count(s', j, w) == Count(s, j, w) + if j == list[k] && w == cfg.window(j, s.now) then 1 else 0
  {
  }

  // ---------------------------------------------------------------- every run

  lemma {:induction false} RunBounded(cfg: Config, start: Time, steps: seq<Step>, j: nat, w: Time, max: int)
    requires Monotone(cfg)
    requires j < |cfg.limits| && cfg.limits[j] == Some(max) && max >= 1
    ensures Invariant(cfg, Run(cfg, start, steps))
    ensures Bounded(cfg, Run(cfg, start, steps), j, w, max)
    decreases |steps|
  {
    if |steps| > 0 {
      var n := |steps| - 1;
      RunBounded(cfg, start, steps[..n], j, w, max);
      InvariantKept(cfg, Run(cfg, start, steps[..n]), steps[n]);
      BoundKept(cfg, Run(cfg, start, steps[..n]), steps[n], j, w, max);
    } else {
      assert Hitters(cfg, Run(cfg, start, steps), j, w) == {};
    }
  }

  /** The windows of the governance policies. */
  function PolicyConfig(policies: seq<RateLimit.Policy>, callers: nat): Config {
    Config(seq(|policies|, i requires 0 <= i < |policies| => policies[i].maxRequests),
           (j: nat, t: Time) => if j < |policies| then RateLimit.WindowStart(t, policies[j].unit) else t,
           callers)
  }

  lemma PolicyWindowsMonotone(policies: seq<RateLimit.Policy>, callers: nat)
    ensures Monotone(PolicyConfig(policies, callers))
  {
    var cfg := PolicyConfig(policies, callers);
    forall j: nat, s: Time, t: Time | s <= t ensures cfg.window(j, s) <= cfg.window(j, t) {
      if j < |policies| { RateLimit.WindowsTile(s, t, policies[j].unit); }
    }
  }

  /** With at most `callers` calls in progress at once, whichever of the policies apply to each, no window
      of a policy with a request limit of at least one ever counts more than the limit plus
      `callers - 1` requests. */
  lemma NoWindowExceedsItsBound(policies: seq<RateLimit.Policy>, callers: nat, start: Time, steps: seq<Step>, j: nat, w: Time)
    requires j < |policies| && policies[j].maxRequests.Some? && policies[j].maxRequests.value >= 1
    ensures Count(Run(PolicyConfig(policies, callers), start, steps), j, w)
            <= policies[j].maxRequests.value + callers - 1
  {
    var cfg := PolicyConfig(policies, callers);
    PolicyWindowsMonotone(policies, callers);
    RunBounded(cfg, start, steps, j, w, policies[j].maxRequests.value);
  }

  /** The bound is exact: for every limit of at least one and every number of callers there is a run that reaches it. */
  lemma BoundIsReached(cfg: Config, start: Time, max: nat)
    requires cfg.limits == [Some(max)] && max >= 1 && cfg.callers >= 1
    ensures exists steps :: Count(Run(cfg, start, steps), 0, cfg.window(0, start)) == max + cfg.callers - 1
  {
    var steps, s := Fill(cfg, start, max, max - 1);
    steps, s := AdmitAll(cfg, start, max, steps, s, cfg.callers);
    steps, s := RecordAll(cfg, start, steps, s, cfg.callers, cfg.callers);
  }

  /** A call that begins at one instant can be counted in the window of any later one. */
  lemma CountedLater(cfg: Config, start: Time, max: nat, later: Time)
    requires cfg.limits == [Some(max)] && max >= 1 && cfg.callers >= 1 && start <= later
    ensures exists steps :: var s := Run(cfg, start, steps);
      && s.now == later && Count(s, 0, cfg.window(0, later)) == 1
      && (cfg.window(0, start) != cfg.window(0, later) ==> Count(s, 0, cfg.window(0, start)) == 0)
  {
    assert Run(cfg, start, []) == State(start, map[], map[]);
    var steps, s := Admit(cfg, start, max, [], State(start, map[], map[]), 0);
    steps, s := Extend(cfg, start, steps, Tick(later));
    var called := s;
    OneRecord(cfg, called, 0);
    steps, s := Extend(cfg, start, steps, Stamp(0));
    steps, s := Extend(cfg, start, steps, Commit(0, true));
  }

  /** One call after the other, up to just below the limit. */
  lemma {:induction false} Fill(cfg: Config, start: Time, max: nat, n: nat) returns (steps: seq<Step>, s: State)
    requires cfg.limits == [Some(max)] && n < max && cfg.callers >= 1
    ensures Run(cfg, start, steps) == s && s.now == start && s.calls == map[]
    ensures Count(s, 0, cfg.window(0, start)) == n
  {
    if n == 0 {
      steps, s := [], State(start, map[], map[]);
    } else {
      steps, s := Fill(cfg, start, max, n - 1);
      steps, s := Admit(cfg, start, max, steps, s, 0);
      steps, s := Record(cfg, start, steps, s, 0);
      steps, s := Extend(cfg, start, steps, Leave(0));
      assert s.calls.Keys == {};
    }
  }

  /** The first `k` callers, and nobody else, wait to record. */
  ghost predicate Queued(s: State, k: nat) {
    && |s.calls| == k
    && (forall c | 0 <= c < k :: c in s.calls && s.calls[c] == Recording([0], 0, None))
    && (forall c | c in s.calls :: c < k)
  }

  /** All callers get past their check before any of them records. */
  lemma {:induction false} AdmitAll(cfg: Config, start: Time, max: nat, steps: seq<Step>, s: State, k: nat)
    returns (longer: seq<Step>, s': State)
    requires cfg.limits == [Some(max)] && Run(cfg, start, steps) == s && k <= cfg.callers
    requires s.now == start && s.calls == map[] && Count(s, 0, cfg.window(0, start)) < max
    ensures Run(cfg, start, longer) == s' && s' == s.(calls := s'.calls) && Queued(s', k)
  {
    hide Run, Apply;
    if k == 0 {
      longer, s' := steps, s;
    } else {
      longer, s' := AdmitAll(cfg, start, max, steps, s, k - 1);
      longer, s' := Admit(cfg, start, max, longer, s', k - 1);
    }
  }

  lemma {:induction false} RecordAll(cfg: Config, start: Time, steps: seq<Step>, s: State, callers: nat, k: nat)
    returns (longer: seq<Step>, s': State)
    requires |cfg.limits| == 1 && Run(cfg, start, steps) == s && s.now == start && k <= callers
    requires forall c | 0 <= c < callers :: c in s.calls && s.calls[c] == Recording([0], 0, None)
    ensures Run(cfg, start, longer) == s' && s'.now == start
    ensures Count(s', 0, cfg.window(0, start)) == Count(s, 0, cfg.window(0, start)) + k
    ensures forall c | k <= c < callers :: c in s'.calls && s'.calls[c] == Recording([0], 0, None)
  {
    if k == 0 {
      longer, s' := steps, s;
    } else {
      longer, s' := RecordAll(cfg, start, steps, s, callers, k - 1);
      longer, s' := Record(cfg, start, longer, s', k - 1);
    }
  }

  /** A call that begins while there is room gets past its check. */
  lemma Admit(cfg: Config, start: Time, max: nat, steps: seq<Step>, s: State, c: nat) returns (longer: seq<Step>, s': State)
    requires cfg.limits == [Some(max)] && Run(cfg, start, steps) == s
    requires s.now == start && c !in s.calls && |s.calls| < cfg.callers && Count(s, 0, cfg.window(0, start)) < max
    ensures Run(cfg, start, longer) == s' && s' == s.(calls := s'.calls)
    ensures |s'.calls| == |s.calls| + 1 && c in s'.calls && s'.calls[c] == Recording([0], 0, None)
    ensures forall d | d in s.calls :: d in s'.calls && s'.calls[d] == s.calls[d]
    ensures forall d | d in s'.calls :: d == c || d in s.calls
  {
    UpdateSize(s.calls, c, Checking([0], start, 0));
    longer, s' := Extend(cfg, start, steps, Begin(c, [0]));
    longer, s' := Pass(cfg, start, max, longer, s', c);
    assert s'.calls.Keys == s.calls.Keys + {c};
    UpdateSize(s.calls, c, Recording([0], 0, None));
    assert s'.calls == s.calls[c := Recording([0], 0, None)];
  }

  lemma Pass(cfg: Config, start: Time, max: nat, steps: seq<Step>, s: State, c: nat) returns (longer: seq<Step>, s': State)
    requires cfg.limits == [Some(max)] && Run(cfg, start, steps) == s
    requires c in s.calls && s.calls[c] == Checking([0], start, 0) && Count(s, 0, cfg.window(0, start)) < max
    ensures Run(cfg, start, longer) == s' == s.(calls := s.calls[c := Recording([0], 0, None)])
  {
    longer, s' := Extend(cfg, start, steps, Check(c, false));
    longer, s' := Extend(cfg, start, longer, StartRecording(c, [0]));
    assert s.calls[c := Checking([0], start, 1)][c := Recording([0], 0, None)] == s.calls[c := Recording([0], 0, None)];
  }

  lemma Record(cfg: Config, start: Time, steps: seq<Step>, s: State, c: nat) returns (longer: seq<Step>, s': State)
    requires |cfg.limits| == 1 && Run(cfg, start, steps) == s
    requires s.now == start && c in s.calls && s.calls[c] == Recording([0], 0, None)
    ensures Run(cfg, start, longer) == s' && s'.now == start
    ensures Count(s', 0, cfg.window(0, start)) == Count(s, 0, cfg.window(0, start)) + 1
    ensures forall d | d in s.calls && d != c :: d in s'.calls && s'.calls[d] == s.calls[d]
    ensures forall d | d in s'.calls :: d in s.calls
  {
    longer, s' := Extend(cfg, start, steps, Stamp(c));
    longer, s' := Extend(cfg, start, longer, Commit(c, true));
  }

  lemma Extend(cfg: Config, start: Time, steps: seq<Step>, step: Step) returns (longer: seq<Step>, s': State)
    ensures Run(cfg, start, longer) == s' == Apply(cfg, Run(cfg, start, steps), step)
  {
    longer := steps + [step];
    assert longer[..|steps|] == steps;
    s' := Run(cfg, start, longer);
  }
}
