/** Provider routing: retries with exponential backoff, a fallback provider and a circuit breaker. */
module ProviderRouter {
  import opened Collections
  import opened Wrappers

  type Response = string

  datatype ProviderError =
    | Config(message: string)                   // never retried
    | Api(status: int)
    | AllExhausted(attempts: nat)

  datatype Result<+T> = Ok(value: T) | Err(error: ProviderError)

  type Reply = Result<Response>

  /** What a provider would answer to its first, second, ... call.  The environment chooses it. */
  type Script = nat -> Reply

  function Pow2(n: nat): nat {
    if n == 0 then 1 else 2 * Pow2(n - 1)
  }

  /** The backoff after a failed attempt: the base, doubled for every attempt before it. */
  function Delay(base: nat, attempt: nat): nat
    requires attempt >= 1
  {
    base * Pow2(attempt - 1)
  }

  /** The backoff after the first `n` attempts together. */
  function SleptFor(base: nat, n: nat): nat {
    if n == 0 then 0 else SleptFor(base, n - 1) + Delay(base, n)
  }

  /** The doubling delays add up to one power of two less one. */
  lemma {:induction false} SleptInClosedForm(base: nat, n: nat)
    ensures SleptFor(base, n) == base * (Pow2(n) - 1)
  {
    if n > 0 {
      SleptInClosedForm(base, n - 1);
      DoublingAdds(base, n - 1);
    }
  }

  /** An answer after which no further attempt is made. */
  predicate Final(r: Reply) {
    r.Ok? || r.error.Config?
  }

  /** The number of calls one provider gets: up to the first final answer, or all `max`. */
  function CallsMade(script: Script, max: nat): (n: nat)
    ensures n <= max
    ensures forall i: nat | i + 1 < n :: script(i).Err? && !script(i).error.Config?
    ensures n == max || (n > 0 && (script(n - 1).Ok? || script(n - 1).error.Config?))
  {
    CallsFrom(script, max, 0)
  }

  function CallsFrom(script: Script, max: nat, i: nat): (n: nat)
    requires i <= max
    ensures i <= n <= max
    ensures forall k: nat | i <= k && k + 1 < n :: !Final(script(k))
    ensures n == max || (n > i && Final(script(n - 1)))
    decreases max - i
  {
    if i == max then max else if Final(script(i)) then i + 1 else CallsFrom(script, max, i + 1)
  }

  /** Among its first `max` answers the provider gives one before any error that is not retried. */
  ghost predicate Answers(script: Script, max: nat) {
    exists i: nat :: i < max && script(i).Ok? && forall j: nat | j < i :: script(j).Err? && !script(j).error.Config?
  }

  /** A provider that is tried answers exactly when there is such an answer, and with the first one. */
  lemma AnswersIff(script: Script, max: nat)
    ensures ProviderAnswer(script, max).Ok? <==> Answers(script, max)
    ensures forall i: nat | i < max && script(i).Ok? && (forall j: nat | j < i :: script(j).Err? && !script(j).error.Config?) ::
              ProviderAnswer(script, max) == script(i)
  {
    var n := CallsMade(script, max);
    if max > 0 {
      forall i: nat | i < max && script(i).Ok? && (forall j: nat | j < i :: script(j).Err? && !script(j).error.Config?)
        ensures n == i + 1
      {
        assert n > i + 1 ==> script(i).Err?;
      }
      if script(n - 1).Ok? { assert n - 1 < max && forall j: nat | j < n - 1 :: script(j).Err? && !script(j).error.Config?; }
    }
  }

  class Router {
    const maxAttempts: nat
    const baseBackoffMs: nat
    const threshold: nat
    const hasFallback: bool
    var consecutiveFailures: nat
    var calls: nat                              // provider calls made, over the router's life
    var sleptMs: nat                            // time spent in backoff, over the router's life

    constructor (maxAttempts: nat, baseBackoffMs: nat, threshold: nat, hasFallback: bool)
      ensures this.maxAttempts == maxAttempts && this.baseBackoffMs == baseBackoffMs
      ensures this.threshold == threshold && this.hasFallback == hasFallback
      ensures consecutiveFailures == 0 && calls == 0 && sleptMs == 0
    {
      this.maxAttempts := maxAttempts;
      this.baseBackoffMs := baseBackoffMs;
      this.threshold := threshold;
      this.hasFallback := hasFallback;
      consecutiveFailures, calls, sleptMs := 0, 0, 0;
    }

    predicate IsCircuitOpen()
      reads this
    {
      consecutiveFailures >= threshold
    }

    /** Sleep after a failed attempt. */
    method Backoff(attempt: nat)
      requires attempt >= 1
      modifies this`sleptMs
      ensures sleptMs == old(sleptMs) + (Waited(baseBackoffMs, attempt + 1) - Waited(baseBackoffMs, attempt))
    {
      DoublingAdds(baseBackoffMs, attempt - 1);
      sleptMs := sleptMs + Delay(baseBackoffMs, attempt);
    }

    /** Call one provider until a final answer or the last attempt.  The backoff doubles with every
        failure and is not slept after the last attempt, so n calls sleep the first n - 1 delays. */
    method TryProviderWithRetry(script: Script) returns (r: Reply)
      modifies this`calls, this`sleptMs
      ensures calls == old(calls) + CallsMade(script, maxAttempts)
      ensures var n := CallsMade(script, maxAttempts);
              && r == if n == 0 then Err(AllExhausted(0)) else script(n - 1)
      ensures sleptMs == old(sleptMs) + Waited(baseBackoffMs, calls - old(calls))
    {
      NoWait(baseBackoffMs);
      hide Waited, Pow2;
      var lastError: Option<ProviderError> := None;
      var attempt := 1;
      while attempt <= maxAttempts
        invariant 1 <= attempt <= maxAttempts + 1
        invariant CallsMade(script, maxAttempts) == CallsFrom(script, maxAttempts, attempt - 1)
        invariant calls == old(calls) + attempt - 1
        invariant sleptMs == old(sleptMs) + Waited(baseBackoffMs, Min(attempt, maxAttempts))
        invariant attempt == 1 ==> lastError.None?
        invariant attempt > 1 ==> lastError.Some? && script(attempt - 2) == Err(lastError.value)
      {
        calls := calls + 1;
        match script(attempt - 1) {
          case Ok(response) => return Ok(response);
          case Err(e) =>
            if e.Config? { return Err(e); }
            lastError := Some(e);
            if attempt < maxAttempts { Backoff(attempt); }
        }
        attempt := attempt + 1;
      }
      r := Err(if lastError.Some? then lastError.value else AllExhausted(maxAttempts));
    }

    /** One request.  An open circuit refuses it without any provider call.  Otherwise the counter goes
        to zero on an answer from either provider and up by one when both, or the only one, failed. */
    method Complete(primary: Script, fallback: Script) returns (r: Reply)
      modifies this
      ensures old(IsCircuitOpen()) ==>
                && r == Err(AllExhausted(0)) && calls == old(calls) && sleptMs == old(sleptMs)
                && consecutiveFailures == old(consecutiveFailures)
      ensures !old(IsCircuitOpen()) ==>
                && consecutiveFailures == CounterAfter(old(consecutiveFailures), r.Ok?)
                && r == AnswerOf(primary, fallback, maxAttempts, hasFallback)
                && (r.Ok? <==> Answers(primary, maxAttempts) || (hasFallback && Answers(fallback, maxAttempts)))
                && calls == old(calls) + CallsOf(primary, fallback, maxAttempts, hasFallback)
                && sleptMs == old(sleptMs) + SleptOf(primary, fallback, maxAttempts, baseBackoffMs, hasFallback)
      ensures !old(IsCircuitOpen()) && Answers(primary, maxAttempts) ==>
                calls == old(calls) + CallsMade(primary, maxAttempts) && r == ProviderAnswer(primary, maxAttempts)
      ensures !old(IsCircuitOpen()) && !Answers(primary, maxAttempts) ==>
                calls == old(calls) + CallsMade(primary, maxAttempts) + if hasFallback then CallsMade(fallback, maxAttempts) else 0
      ensures calls <= old(calls) + 2 * maxAttempts
    {
      AnswersIff(primary, maxAttempts);
      AnswersIff(fallback, maxAttempts);
      hide CallsMade, Waited, Answers;
      if IsCircuitOpen() { return Err(AllExhausted(0)); }
      var first := TryProviderWithRetry(primary);
      if first.Ok? {
        consecutiveFailures := 0;
        return first;
      }
      consecutiveFailures := consecutiveFailures + 1;
      if hasFallback {
        var second := TryProviderWithRetry(fallback);
        if second.Ok? {
          consecutiveFailures := 0;
          return second;
        }
        return Err(AllExhausted(maxAttempts * 2));
      }
      return Err(AllExhausted(maxAttempts));
    }

    /** Requests one after another.  From a fresh router the counter is the number of failures since the
        last answer, and never passes the threshold.  From an open circuit no provider is ever called
        again and no request is ever answered. */
    method CompleteAll(primary: seq<Script>, fallback: seq<Script>) returns (answered: seq<bool>)
      requires |primary| == |fallback|
      modifies this
      ensures |answered| == |primary|
      ensures old(consecutiveFailures) == 0 ==> consecutiveFailures == Min(threshold, FailuresAtEnd(answered))
      ensures old(IsCircuitOpen()) ==>
                && IsCircuitOpen() && calls == old(calls)
                && forall i | 0 <= i < |answered| :: !answered[i]
      ensures calls <= old(calls) + 2 * maxAttempts * |primary|
    {
      answered := [];
      for i := 0 to |primary|
        invariant |answered| == i
        invariant old(consecutiveFailures) == 0 ==> consecutiveFailures == Min(threshold, FailuresAtEnd(answered))
        invariant old(IsCircuitOpen()) ==>
                    && consecutiveFailures == old(consecutiveFailures) && calls == old(calls)
                    && forall j | 0 <= j < i :: !answered[j]
        invariant calls <= old(calls) + 2 * maxAttempts * i
      {
        var r := Complete(primary[i], fallback[i]);
        assert (answered + [r.Ok?])[..i] == answered;
        assert 2 * maxAttempts * (i + 1) == 2 * maxAttempts * i + 2 * maxAttempts;
        answered := answered + [r.Ok?];
      }
    }
  }

  lemma DoublingAdds(base: nat, n: nat)
    ensures base * (Pow2(n) - 1) + base * Pow2(n) == base * (Pow2(n + 1) - 1)
  {
    var p: int := Pow2(n);
    assert Pow2(n + 1) == 2 * p;
    assert base * (p - 1) == base * p - base;
    assert base * (2 * p - 1) == base * (2 * p) - base;
  }

  function Min(a: nat, b: nat): nat { if a < b then a else b }

  function CounterAfter(counter: nat, answered: bool): nat {
    if answered then 0 else counter + 1
  }

  /** The answer of one provider after its retries. */
  function ProviderAnswer(script: Script, max: nat): Reply {
    if max == 0 then Err(AllExhausted(0)) else script(CallsMade(script, max) - 1)
  }

  function AnswerOf(primary: Script, fallback: Script, max: nat, hasFallback: bool): Reply {
    if ProviderAnswer(primary, max).Ok? then ProviderAnswer(primary, max)
    else if hasFallback && ProviderAnswer(fallback, max).Ok? then ProviderAnswer(fallback, max)
    else Err(AllExhausted(if hasFallback then max * 2 else max))
  }

  function CallsOf(primary: Script, fallback: Script, max: nat, hasFallback: bool): nat {
    CallsMade(primary, max) + if ProviderAnswer(primary, max).Ok? || !hasFallback then 0 else CallsMade(fallback, max)
  }

  /** The backoff between so many calls of one provider: the delays after all but the last of them. */
  function Waited(base: nat, calls: int): int {
    if calls <= 0 then 0 else base * (Pow2(calls - 1) - 1)
  }

  lemma NoWait(base: nat)
    ensures Waited(base, 0) == Waited(base, 1) == 0
  {
  }

  lemma WaitedIsDelays(base: nat, calls: nat)
    requires calls > 0
    ensures Waited(base, calls) == SleptFor(base, calls - 1)
  {
    SleptInClosedForm(base, calls - 1);
  }

  function SleptOf(primary: Script, fallback: Script, max: nat, base: nat, hasFallback: bool): int {
    Waited(base, CallsMade(primary, max))
      + if ProviderAnswer(primary, max).Ok? || !hasFallback then 0 else Waited(base, CallsMade(fallback, max))
  }

  /** How many requests at the end of the list went unanswered in a row. */
  function FailuresAtEnd(answered: seq<bool>): nat {
    if |answered| == 0 || answered[|answered| - 1] then 0 else FailuresAtEnd(answered[..|answered| - 1]) + 1
  }

  // ---------------------------------------------------------------- concurrent requests

  /** Which provider a request in progress is waiting for. */
  datatype Leg = Primary | Fallback

  datatype Breaker = Breaker(failures: nat, calls: map<nat, Leg>)

  datatype Step =
    | Begin(c: nat)                             // read the counter; go on when the circuit is closed
    | Answered(c: nat)                          // either provider answered: reset the counter
    | PrimaryFailed(c: nat, hasFallback: bool)  // add one to the counter, then try the fallback if there is one
    | FallbackFailed(c: nat)

  function Apply(threshold: nat, callers: nat, s: Breaker, step: Step): Breaker {
    match step
    case Begin(c) =>
      if c !in s.calls && |s.calls| < callers && s.failures < threshold then s.(calls := s.calls[c := Primary]) else s
    case Answered(c) => if c in s.calls then Breaker(0, s.calls - {c}) else s
    case PrimaryFailed(c, hasFallback) =>
      if c in s.calls && s.calls[c].Primary? then
        Breaker(s.failures + 1, if hasFallback then s.calls[c := Fallback] else s.calls - {c})
      else s
    case FallbackFailed(c) =>
      if c in s.calls && s.calls[c].Fallback? then s.(calls := s.calls - {c}) else s
  }

  function Run(threshold: nat, callers: nat, steps: seq<Step>): Breaker {
    if |steps| == 0 then Breaker(0, map[])
    else Apply(threshold, callers, Run(threshold, callers, steps[..|steps| - 1]), steps[|steps| - 1])
  }

  /** How a request leaves: with an answer, which resets the counter, or with one failure counted, and only one, whether or
      not there is a fallback to fail as well. */
  lemma RequestsEnd(threshold: nat, callers: nat, s: Breaker, c: nat)
    requires c in s.calls
    ensures Apply(threshold, callers, s, Answered(c)) == Breaker(0, s.calls - {c})
    ensures s.calls[c].Primary? ==>
      && Apply(threshold, callers, s, PrimaryFailed(c, false)) == Breaker(s.failures + 1, s.calls - {c})
      && Apply(threshold, callers, Apply(threshold, callers, s, PrimaryFailed(c, true)), FallbackFailed(c))
         == Breaker(s.failures + 1, s.calls - {c})
      && Apply(threshold, callers, s, FallbackFailed(c)) == s
    ensures s.calls[c].Fallback? ==>
      && Apply(threshold, callers, s, FallbackFailed(c)) == Breaker(s.failures, s.calls - {c})
      && forall hasFallback :: Apply(threshold, callers, s, PrimaryFailed(c, hasFallback)) == s
  {
    assert s.calls[c := Fallback] - {c} == s.calls - {c};
  }

  /** The requests that may still add to the counter. */
  function OnPrimary(s: Breaker): set<nat> {
    set c | c in s.calls && s.calls[c].Primary?
  }

  /** With at most `callers` requests in progress at once, the counter never passes the threshold by
      `callers` or more, in any interleaving. */
  lemma {:induction false} CounterBounded(threshold: nat, callers: nat, steps: seq<Step>)
    requires threshold >= 1
    ensures var s := Run(threshold, callers, steps);
            && |s.calls| <= callers
            && s.failures + |OnPrimary(s)| <= threshold + callers - 1
    decreases |steps|
  {
    if |steps| == 0 {
      assert OnPrimary(Breaker(0, map[])) == {};
    } else {
      var n := |steps| - 1;
      CounterBounded(threshold, callers, steps[..n]);
      CounterStep(threshold, callers, Run(threshold, callers, steps[..n]), steps[n]);
    }
  }

  lemma CounterStep(threshold: nat, callers: nat, s: Breaker, step: Step)
    requires threshold >= 1 && |s.calls| <= callers && s.failures + |OnPrimary(s)| <= threshold + callers - 1
    ensures var s' := Apply(threshold, callers, s, step);
            && |s'.calls| <= callers
            && s'.failures + |OnPrimary(s')| <= threshold + callers - 1
  {
    var s' := Apply(threshold, callers, s, step);
    UpdateSize(s.calls, step.c, if step.Begin? then Primary else Fallback);
    SubsetSize(OnPrimary(s'), s'.calls.Keys);
    assert |s'.calls.Keys| == |s'.calls|;
    if !step.Begin? {
      SubsetSize(OnPrimary(s'), OnPrimary(s));
      if s'.failures > s.failures {
        SubsetSize(OnPrimary(s'), OnPrimary(s) - {step.c});
      }
    }
  }

  /** The bound is exact: for every threshold and number of callers some interleaving reaches it. */
  lemma CounterBoundIsReached(threshold: nat, callers: nat)
    requires threshold >= 1 && callers >= 1
    ensures exists steps :: Run(threshold, callers, steps).failures == threshold + callers - 1
  {
    var steps, s := FailOneByOne(threshold, callers, threshold - 1);
    steps, s := BeginAll(threshold, callers, steps, s, callers);
    steps, s := FailAll(threshold, callers, steps, s, callers, callers);
  }

  lemma {:induction false} FailOneByOne(threshold: nat, callers: nat, n: nat) returns (steps: seq<Step>, s: Breaker)
    requires n < threshold && callers >= 1
    ensures Run(threshold, callers, steps) == s == Breaker(n, map[])
  {
    if n == 0 {
      steps, s := [], Breaker(0, map[]);
    } else {
      steps, s := FailOneByOne(threshold, callers, n - 1);
      steps, s := Extend(threshold, callers, steps, Begin(0));
      steps, s := Extend(threshold, callers, steps, PrimaryFailed(0, false));
      assert map[0 := Primary] - {0} == map[];
    }
  }

  /** The first `k` callers, and nobody else, wait for the primary provider. */
  ghost predicate OnPrimaryFirst(s: Breaker, k: nat) {
    && |s.calls| == k
    && (forall c | 0 <= c < k :: c in s.calls && s.calls[c].Primary?)
    && (forall c | c in s.calls :: c < k)
  }

  lemma BeginNext(threshold: nat, callers: nat, s: Breaker, k: nat)
    requires OnPrimaryFirst(s, k) && k < callers && s.failures < threshold
    ensures var s' := Apply(threshold, callers, s, Begin(k)); OnPrimaryFirst(s', k + 1) && s'.failures == s.failures
  {
    UpdateSize(s.calls, k, Primary);
  }

  /** All callers find the circuit closed before any of them fails. */
  lemma {:induction false} BeginAll(threshold: nat, callers: nat, steps: seq<Step>, s: Breaker, k: nat)
    returns (longer: seq<Step>, s': Breaker)
    requires Run(threshold, callers, steps) == s && s.calls == map[] && s.failures < threshold && k <= callers
    ensures Run(threshold, callers, longer) == s' && s'.failures == s.failures && OnPrimaryFirst(s', k)
  {
    if k == 0 {
      longer, s' := steps, s;
    } else {
      longer, s' := BeginAll(threshold, callers, steps, s, k - 1);
      BeginNext(threshold, callers, s', k - 1);
      longer, s' := Extend(threshold, callers, longer, Begin(k - 1));
    }
  }

  lemma {:induction false} FailAll(threshold: nat, callers: nat, steps: seq<Step>, s: Breaker, all: nat, k: nat)
    returns (longer: seq<Step>, s': Breaker)
    requires Run(threshold, callers, steps) == s && k <= all
    requires forall c | 0 <= c < all :: c in s.calls && s.calls[c].Primary?
    ensures Run(threshold, callers, longer) == s' && s'.failures == s.failures + k
    ensures forall c | k <= c < all :: c in s'.calls && s'.calls[c].Primary?
  {
    if k == 0 {
      longer, s' := steps, s;
    } else {
      longer, s' := FailAll(threshold, callers, steps, s, all, k - 1);
      longer, s' := Extend(threshold, callers, longer, PrimaryFailed(k - 1, false));
    }
  }

  lemma Extend(threshold: nat, callers: nat, steps: seq<Step>, step: Step) returns (longer: seq<Step>, s': Breaker)
    ensures Run(threshold, callers, longer) == s' == Apply(threshold, callers, Run(threshold, callers, steps), step)
  {
    longer := steps + [step];
    assert longer[..|steps|] == steps;
    s' := Run(threshold, callers, longer);
  }

  /** An open circuit opens no more: without a request in progress, nothing is ever called again. */
  lemma {:induction false} OpenAndIdleStays(threshold: nat, callers: nat, steps: seq<Step>, later: seq<Step>)
    requires Run(threshold, callers, steps).calls == map[]
    requires Run(threshold, callers, steps).failures >= threshold
    ensures Run(threshold, callers, steps + later) == Run(threshold, callers, steps)
    decreases |later|
  {
    if |later| == 0 {
      assert steps + later == steps;
    } else {
      OpenAndIdleStays(threshold, callers, steps, later[..|later| - 1]);
      assert (steps + later)[..|steps + later| - 1] == steps + later[..|later| - 1];
    }
  }

  /** Some sequence of steps closes the circuit again. */
  ghost predicate CanClose(threshold: nat, callers: nat, steps: seq<Step>) {
    exists later :: Run(threshold, callers, steps + later).failures < threshold
  }

  /** An open circuit can close again exactly as long as a request is still in progress: its answer resets the counter.
      Once the last one has ended without an answer it stays open for good. */
  lemma ClosesAgainIff(threshold: nat, callers: nat, steps: seq<Step>)
    requires threshold >= 1 && Run(threshold, callers, steps).failures >= threshold
    ensures CanClose(threshold, callers, steps) <==> Run(threshold, callers, steps).calls != map[]
  {
    var s := Run(threshold, callers, steps);
    if s.calls == map[] {
      forall later ensures Run(threshold, callers, steps + later) == s {
        OpenAndIdleStays(threshold, callers, steps, later);
      }
    } else {
      var c :| c in s.calls;
      assert (steps + [Answered(c)])[..|steps|] == steps;
      assert Run(threshold, callers, steps + [Answered(c)]).failures == 0;
    }
  }
}
