/** LLM rate-limit governance: fixed windows, bucket counters and the preflight check. */
module RateLimit {
  import opened Wrappers

  // ---------------------------------------------------------------- windows

  /** Instants and lengths of time, in nanoseconds since the epoch (UTC). */
  type Time = int

  const SECOND: int := 1_000_000_000
  const MINUTE: int := 60 * SECOND
  const HOUR: int := 60 * MINUTE
  const DAY: int := 24 * HOUR

  datatype WindowUnit = PerMinute | PerHour | PerDay

  function Length(unit: WindowUnit): int {
    match unit case PerMinute => MINUTE case PerHour => HOUR case PerDay => DAY
  }

  /** The time of day that an instant shows, field by field. */
  function NanosecondOf(at: Time): nat { at % SECOND }
  function SecondOf(at: Time): nat { at / SECOND % 60 }
  function MinuteOf(at: Time): nat { at / MINUTE % 60 }
  function HourOf(at: Time): nat { at / HOUR % 24 }

  /** The start of the window of an instant: its smaller time fields set to zero. */
  function WindowStart(at: Time, unit: WindowUnit): Time {
    var minute := at - NanosecondOf(at) - SecondOf(at) * SECOND;
    match unit
    case PerMinute => minute
    case PerHour => minute - MinuteOf(at) * MINUTE
    case PerDay => minute - MinuteOf(at) * MINUTE - HourOf(at) * HOUR
  }

  function WindowEnd(start: Time, unit: WindowUnit): Time {
    start + Length(unit)
  }

  /** Zeroing the smaller fields is the same as rounding down to a multiple of the window's length. */
  lemma WindowStartRounds(at: Time, unit: WindowUnit)
    ensures WindowStart(at, unit) == at - at % Length(unit)
  {
    SplitField(at, SECOND, 60);
    SplitField(at, MINUTE, 60);
    SplitField(at, HOUR, 24);
  }

  lemma SplitField(at: Time, small: int, n: int)
    requires small > 0 && n > 0
    ensures at % (small * n) == at % small + at / small % n * small
  {
    var q, r := at / small, at % small;
    var q', r' := q / n, q % n;
    Regroup(at, small, n, q, r, q', r');
    RemainderIs(at, small * n, q', r' * small + r);
  }

  lemma Regroup(at: int, small: int, n: int, q: int, r: int, q': int, r': int)
    requires small > 0 && n > 0 && at == q * small + r && q == q' * n + r' && 0 <= r < small && 0 <= r' < n
    ensures at == q' * (small * n) + (r' * small + r)
    ensures 0 <= r' * small + r < small * n
  {
    assert q * small == (q' * n) * small + r' * small;
    assert (q' * n) * small == q' * (small * n);
    TimesAtMost(r', n - 1, small);
    assert (n - 1) * small == small * n - small;
  }

  lemma TimesAtMost(a: int, b: int, d: int)
    requires 0 <= a <= b && d > 0
    ensures 0 <= a * d <= b * d
  {
  }

  lemma RemainderIs(a: int, d: int, q: int, r: int)
    requires d > 0 && 0 <= r < d && a == q * d + r
    ensures a % d == r && a / d == q
  {
    var q2, r2 := a / d, a % d;
    assert a == q2 * d + r2 && 0 <= r2 < d;
    assert (q - q2) * d == r2 - r by { assert (q - q2) * d == q * d - q2 * d; }
    AtLeastOne(q - q2, d);
    AtLeastOne(q2 - q, d);
    assert (q2 - q) * d == -((q - q2) * d);
  }

  lemma AtLeastOne(k: int, d: int)
    requires d > 0
    ensures k >= 1 ==> k * d >= d
  {
    if k >= 1 { assert (k - 1) * d >= 0; }
  }

  /** Windows tile time: an instant lies in the window that starts at `start`, and in no other. */
  lemma WindowsTile(at: Time, other: Time, unit: WindowUnit)
    ensures WindowStart(at, unit) <= at < WindowEnd(WindowStart(at, unit), unit)
    ensures WindowStart(other, unit) == WindowStart(at, unit)
            <==> WindowStart(at, unit) <= other < WindowEnd(WindowStart(at, unit), unit)
    ensures WindowStart(WindowEnd(WindowStart(at, unit), unit), unit) == WindowEnd(WindowStart(at, unit), unit)
    ensures at <= other ==> WindowStart(at, unit) <= WindowStart(other, unit)
  {
    var d, s := Length(unit), WindowStart(at, unit);
    WindowStartRounds(at, unit);
    WindowStartRounds(other, unit);
    WindowStartRounds(s + d, unit);
    assert s == at / d * d;
    assert s + d == (at / d + 1) * d;
    RemainderIs(s + d, d, at / d + 1, 0);
    if s <= other < s + d { RemainderIs(other, d, at / d, other - s); }
    if at <= other { QuotientMonotone(at, other, d); }
  }

  lemma QuotientMonotone(a: int, b: int, d: int)
    requires d > 0 && a <= b
    ensures a / d <= b / d && a / d * d <= b / d * d
  {
    var k := a / d - b / d;
    AtLeastOne(k, d);
    assert k * d == a / d * d - b / d * d;
    if k <= 0 { assert -k * d >= 0; }
  }

  // ---------------------------------------------------------------- buckets

  datatype Policy = Policy(id: int, unit: WindowUnit, maxRequests: Option<int>, maxCost: Option<int>)

  /** The counters of a bucket, and what one mutation adds to them.  Costs are in 1e-8 US dollars. */
  datatype Usage = Usage(requests: int, inputTokens: int, outputTokens: int, totalTokens: int, cost: int, denials: int)

  const NOTHING := Usage(0, 0, 0, 0, 0, 0)
  const ONE_DENIAL := Usage(0, 0, 0, 0, 0, 1)

  function Plus(a: Usage, b: Usage): Usage {
    Usage(a.requests + b.requests, a.inputTokens + b.inputTokens, a.outputTokens + b.outputTokens,
          a.totalTokens + b.totalTokens, a.cost + b.cost, a.denials + b.denials)
  }

  datatype Bucket = Bucket(endsAt: Time, usage: Usage, lastRequest: Option<string>)

  datatype BucketKey = BucketKey(policyId: int, startedAt: Time)

  type Buckets = map<BucketKey, Bucket>

  function KeyAt(policy: Policy, now: Time): BucketKey {
    BucketKey(policy.id, WindowStart(now, policy.unit))
  }

  /** The counters stored under a key; a missing row counts as zeros. */
  function Counters(rows: Buckets, key: BucketKey): Usage {
    if key in rows then rows[key].usage else NOTHING
  }

  /** The upsert statement: insert the row, or add to its counters. */
  function Upsert(rows: Buckets, policy: Policy, usage: Usage, request: Option<string>, now: Time): Buckets {
    var key := KeyAt(policy, now);
    if key in rows then
      rows[key := rows[key].(usage := Plus(rows[key].usage, usage), lastRequest := request.Or(rows[key].lastRequest))]
    else
      rows[key := Bucket(WindowEnd(key.startedAt, policy.unit), usage, request)]
  }

  /** Two tables that hold the same counters, row for row, where a missing row counts as zeros. */
  ghost predicate SameCounters(rows: Buckets, before: Buckets) {
    forall key :: Counters(rows, key) == Counters(before, key)
  }

  /** The counters of `before` with one denial more under one key. */
  ghost predicate OneMoreDenial(rows: Buckets, before: Buckets, denied: BucketKey) {
    forall key :: Counters(rows, key) ==
      if key == denied then Counters(before, key).(denials := Counters(before, key).denials + 1) else Counters(before, key)
  }

  lemma UpsertCounters(rows: Buckets, policy: Policy, usage: Usage, request: Option<string>, now: Time)
    ensures usage == NOTHING ==> SameCounters(Upsert(rows, policy, usage, request, now), rows)
    ensures usage == ONE_DENIAL ==> OneMoreDenial(Upsert(rows, policy, usage, request, now), rows, KeyAt(policy, now))
  {
  }

  /** One write to the bucket table. */
  datatype Mutation = Mutation(policy: Policy, usage: Usage, request: Option<string>, now: Time)

  function ApplyAll(rows: Buckets, mutations: seq<Mutation>): Buckets
    decreases |mutations|
  {
    if |mutations| == 0 then rows
    else
      var n := |mutations| - 1;
      var m := mutations[n];
      Upsert(ApplyAll(rows, mutations[..n]), m.policy, m.usage, m.request, m.now)
  }

  /** The sum of one counter over the mutations of one policy whose instants lie in [from, to). */
  function SumWithin(mutations: seq<Mutation>, policyId: int, from: Time, to: Time, counter: Usage -> int): int
    decreases |mutations|
  {
    if |mutations| == 0 then 0
    else
      var n := |mutations| - 1;
      var m := mutations[n];
      SumWithin(mutations[..n], policyId, from, to, counter)
        + if m.policy.id == policyId && from <= m.now < to then counter(m.usage) else 0
  }

  /** The request that the latest of those mutations named. */
  function LatestRequest(mutations: seq<Mutation>, policyId: int, from: Time, to: Time): Option<string>
    decreases |mutations|
  {
    if |mutations| == 0 then None
    else
      var n := |mutations| - 1;
      var m := mutations[n];
      if m.policy.id == policyId && from <= m.now < to && m.request.Some? then m.request
      else LatestRequest(mutations[..n], policyId, from, to)
  }

  /** One unit for one policy. */
  ghost predicate OneUnit(mutations: seq<Mutation>, policy: Policy) {
    forall m | m in mutations && m.policy.id == policy.id :: m.policy.unit == policy.unit
  }

  /** Buckets conserve usage: each counter of a window is the sum of what was recorded inside the window, and its last
      request the latest one that was named. */
  lemma BucketsConserveUsage(mutations: seq<Mutation>, policy: Policy, at: Time)
    requires OneUnit(mutations, policy)
    ensures var start := WindowStart(at, policy.unit); var end := WindowEnd(start, policy.unit);
      var u := Counters(ApplyAll(map[], mutations), BucketKey(policy.id, start));
      && u.requests == SumWithin(mutations, policy.id, start, end, (m: Usage) => m.requests)
      && u.inputTokens == SumWithin(mutations, policy.id, start, end, (m: Usage) => m.inputTokens)
      && u.outputTokens == SumWithin(mutations, policy.id, start, end, (m: Usage) => m.outputTokens)
      && u.totalTokens == SumWithin(mutations, policy.id, start, end, (m: Usage) => m.totalTokens)
      && u.cost == SumWithin(mutations, policy.id, start, end, (m: Usage) => m.cost)
      && u.denials == SumWithin(mutations, policy.id, start, end, (m: Usage) => m.denials)
    ensures var start := WindowStart(at, policy.unit);
      var rows := ApplyAll(map[], mutations); var key := BucketKey(policy.id, start);
      (if key in rows then rows[key].lastRequest else None)
      == LatestRequest(mutations, policy.id, start, WindowEnd(start, policy.unit))
  {
    CounterConserved(mutations, policy, at, (m: Usage) => m.requests);
    CounterConserved(mutations, policy, at, (m: Usage) => m.inputTokens);
    CounterConserved(mutations, policy, at, (m: Usage) => m.outputTokens);
    CounterConserved(mutations, policy, at, (m: Usage) => m.totalTokens);
    CounterConserved(mutations, policy, at, (m: Usage) => m.cost);
    CounterConserved(mutations, policy, at, (m: Usage) => m.denials);
    LastRequestIsLatest(mutations, policy, at);
  }

  lemma {:induction false} CounterConserved(mutations: seq<Mutation>, policy: Policy, at: Time, counter: Usage -> int)
    requires OneUnit(mutations, policy)
    requires counter(NOTHING) == 0 && forall a, b :: counter(Plus(a, b)) == counter(a) + counter(b)
    ensures var start := WindowStart(at, policy.unit);
      counter(Counters(ApplyAll(map[], mutations), BucketKey(policy.id, start)))
      == SumWithin(mutations, policy.id, start, WindowEnd(start, policy.unit), counter)
    decreases |mutations|
  {
    if |mutations| > 0 {
      var n := |mutations| - 1;
      CounterConserved(mutations[..n], policy, at, counter);
      var m := mutations[n];
      assert m in mutations;
      UpsertAt(ApplyAll(map[], mutations[..n]), m, policy, at);
      hide WindowStart, WindowEnd, Upsert, Counters, Plus;
      assert counter(Plus(NOTHING, m.usage)) == counter(NOTHING) + counter(m.usage);
    }
  }

  /** What a mutation does to the bucket of one policy and one window. */
  lemma UpsertAt(rows: Buckets, m: Mutation, policy: Policy, at: Time)
    requires m.policy.id == policy.id ==> m.policy.unit == policy.unit
    ensures var start := WindowStart(at, policy.unit); var key := BucketKey(policy.id, start);
      var after := Upsert(rows, m.policy, m.usage, m.request, m.now);
      if m.policy.id == policy.id && start <= m.now < WindowEnd(start, policy.unit) then
        && Counters(after, key) == Plus(Counters(rows, key), m.usage)
        && key in after && after[key].lastRequest == m.request.Or(if key in rows then rows[key].lastRequest else None)
      else
        && Counters(after, key) == Counters(rows, key)
        && (key in after <==> key in rows) && (key in rows ==> after[key] == rows[key])
  {
    if m.policy.id == policy.id { WindowsTile(at, m.now, policy.unit); }
  }

  lemma {:induction false} LastRequestIsLatest(mutations: seq<Mutation>, policy: Policy, at: Time)
    requires OneUnit(mutations, policy)
    ensures var start := WindowStart(at, policy.unit);
      var rows := ApplyAll(map[], mutations); var key := BucketKey(policy.id, start);
      (if key in rows then rows[key].lastRequest else None)
      == LatestRequest(mutations, policy.id, start, WindowEnd(start, policy.unit))
    decreases |mutations|
  {
    if |mutations| > 0 {
      var n := |mutations| - 1;
      LastRequestIsLatest(mutations[..n], policy, at);
      assert mutations[n] in mutations;
      UpsertAt(ApplyAll(map[], mutations[..n]), mutations[n], policy, at);
      hide WindowStart, WindowEnd, Upsert;
    }
  }

  /** Every row of a table that was built by mutations ends where its window ends. */
  lemma {:induction false} BucketsEndTheirWindows(mutations: seq<Mutation>, key: BucketKey)
    requires key in ApplyAll(map[], mutations)
    ensures exists m | m in mutations ::
              && key == KeyAt(m.policy, m.now)
              && ApplyAll(map[], mutations)[key].endsAt == WindowEnd(key.startedAt, m.policy.unit)
    decreases |mutations|
  {
    var n := |mutations| - 1;
    var before := ApplyAll(map[], mutations[..n]);
    if key in before {
      BucketsEndTheirWindows(mutations[..n], key);
      var m :| m in mutations[..n] && key == KeyAt(m.policy, m.now)
               && before[key].endsAt == WindowEnd(key.startedAt, m.policy.unit);
      assert m in mutations;
    } else {
      assert mutations[n] in mutations && key == KeyAt(mutations[n].policy, mutations[n].now);
    }
  }

  // ---------------------------------------------------------------- preflight

  datatype Action = Allow | Deny | Degrade

  datatype Decision = Decision(allowed: bool, action: Action)

  function ExhaustedDecision(route: string): Decision {
    var action := if route == "interpret" then Deny else if route == "respond" then Degrade else Deny;
    Decision(action == Degrade, action)
  }

  /** The projected cost that stands in for a missing one: 0.0001 US dollars. */
  const DEFAULT_COST := 10_000

  predicate Exhausted(policy: Policy, used: Usage, cost: int) {
    || (policy.maxRequests.Some? && used.requests + 1 > policy.maxRequests.value)
    || (policy.maxCost.Some? && used.cost + cost > policy.maxCost.value)
  }

  /** Usage that stays within the limits of a policy. */
  predicate WithinLimits(policy: Policy, used: Usage) {
    && (policy.maxRequests.None? || used.requests <= policy.maxRequests.value)
    && (policy.maxCost.None? || used.cost <= policy.maxCost.value)
  }

  /** A policy is exhausted exactly when one more request at that cost would leave its limits. */
  lemma ExhaustedIff(policy: Policy, used: Usage, more: Usage)
    requires more.requests == 1
    ensures Exhausted(policy, used, more.cost) <==>
      !WithinLimits(policy, used.(requests := used.requests + 1, cost := used.cost + more.cost))
    ensures !Exhausted(policy, used, more.cost) <==> WithinLimits(policy, Plus(used, more))
  {
  }

  /** Whether the bucket of a policy's current window has no room for another request. */
  predicate ExhaustedAt(policy: Policy, rows: Buckets, cost: int, now: Time) {
    Exhausted(policy, Counters(rows, KeyAt(policy, now)), cost)
  }

  /** The first exhausted policy at or after `from`, or the length of the list when there is none. */
  function FirstExhausted(policies: seq<Policy>, rows: Buckets, cost: int, now: Time, from: nat): (k: nat)
    requires from <= |policies|
    ensures from <= k <= |policies|
    ensures k < |policies| ==> ExhaustedAt(policies[k], rows, cost, now)
    ensures forall i | from <= i < k :: !ExhaustedAt(policies[i], rows, cost, now)
    decreases |policies| - from
  {
    if from == |policies| || ExhaustedAt(policies[from], rows, cost, now) then from
    else FirstExhausted(policies, rows, cost, now, from + 1)
  }

  /** Every counter grew by its part of the usage. */
  predicate GrewBy(before: Usage, added: Usage, after: Usage) {
    && after.requests == before.requests + added.requests
    && after.inputTokens == before.inputTokens + added.inputTokens
    && after.outputTokens == before.outputTokens + added.outputTokens
    && after.totalTokens == before.totalTokens + added.totalTokens
    && after.cost == before.cost + added.cost
    && after.denials == before.denials + added.denials
  }

  /** The bucket repository. */
  class RateLimitBuckets {
    var rows: Buckets

    constructor ()
      ensures rows == map[]
    {
      rows := map[];
    }

    method Increment(policy: Policy, usage: Usage, request: Option<string>, now: Time) returns (bucket: Bucket)
      modifies this
      ensures rows == Upsert(old(rows), policy, usage, request, now)
      ensures KeyAt(policy, now) in rows && bucket == rows[KeyAt(policy, now)]
      ensures GrewBy(Counters(old(rows), KeyAt(policy, now)), usage, bucket.usage)
    {
      var start := WindowStart(now, policy.unit);
      var key := BucketKey(policy.id, start);
      if key in rows {
        var row := rows[key];
        var last := if request.Some? then request else row.lastRequest;
        bucket := row.(usage := Plus(row.usage, usage), lastRequest := last);
      } else {
        bucket := Bucket(WindowEnd(start, policy.unit), usage, request);
      }
      rows := rows[key := bucket];
    }

    /** A served request: one more request and its tokens and cost, no denial. */
    method RecordUsage(policy: Policy, inputTokens: int, outputTokens: int, totalTokens: int, cost: int,
                       request: string, now: Time) returns (bucket: Bucket)
      modifies this
      ensures rows == Upsert(old(rows), policy, Usage(1, inputTokens, outputTokens, totalTokens, cost, 0), Some(request), now)
      ensures var before := Counters(old(rows), KeyAt(policy, now));
        bucket.usage == Usage(before.requests + 1, before.inputTokens + inputTokens, before.outputTokens + outputTokens,
                              before.totalTokens + totalTokens, before.cost + cost, before.denials)
    {
      bucket := Increment(policy, Usage(1, inputTokens, outputTokens, totalTokens, cost, 0), Some(request), now);
    }

    /** A denied request: one more denial and nothing else. */
    method RecordDenial(policy: Policy, request: string, now: Time) returns (bucket: Bucket)
      modifies this
      ensures rows == Upsert(old(rows), policy, ONE_DENIAL, Some(request), now)
      ensures bucket.usage == Counters(old(rows), KeyAt(policy, now)).(
                                denials := Counters(old(rows), KeyAt(policy, now)).denials + 1)
    {
      bucket := Increment(policy, ONE_DENIAL, Some(request), now);
    }

    /** Check every applicable policy in order.  The first exhausted one, if any, gets one denial and
        decides; no other counter of any bucket changes. */
    method PreflightCheck(policies: seq<Policy>, route: string, projectedCost: Option<int>, request: string, now: Time)
      returns (decision: Decision)
      modifies this
      ensures var k := FirstExhausted(policies, old(rows), projectedCost.GetOr(DEFAULT_COST), now, 0);
              if k == |policies| then
                decision == Decision(true, Allow) && SameCounters(rows, old(rows))
              else
                decision == ExhaustedDecision(route) && OneMoreDenial(rows, old(rows), KeyAt(policies[k], now))
    {
      var cost := projectedCost.GetOr(DEFAULT_COST);
      ghost var before := rows;
      var i := 0;
      while i < |policies|
        invariant 0 <= i <= |policies|
        invariant SameCounters(rows, before)
        invariant FirstExhausted(policies, before, cost, now, 0) == FirstExhausted(policies, before, cost, now, i)
      {
        var policy := policies[i];
        assert Counters(rows, KeyAt(policy, now)) == Counters(before, KeyAt(policy, now));
        var bucket := ReadBucket(policy, now);
        var over := OverLimit(policy, bucket.usage, cost);
        if over {
          Refuse(policy, request, now, before);
          return ExhaustedDecision(route);
        }
        i := i + 1;
      }
      return Decision(true, Allow);
    }

    /** Read one policy's bucket through a zero increment, which may create it but changes no counter. */
    method ReadBucket(policy: Policy, now: Time) returns (bucket: Bucket)
      modifies this
      ensures SameCounters(rows, old(rows))
      ensures bucket.usage == Counters(old(rows), KeyAt(policy, now))
    {
      UpsertCounters(rows, policy, NOTHING, None, now);
      bucket := Increment(policy, NOTHING, None, now);
    }

    /** The two comparisons against the policy's limits. */
    static method OverLimit(policy: Policy, used: Usage, cost: int) returns (over: bool)
      ensures over == Exhausted(policy, used, cost)
    {
      over := false;
      if policy.maxRequests.Some? && used.requests + 1 > policy.maxRequests.value {
        over := true;
      } else if policy.maxCost.Some? && used.cost + cost > policy.maxCost.value {
        over := true;
      }
    }

    method Refuse(policy: Policy, request: string, now: Time, ghost before: Buckets)
      requires SameCounters(rows, before)
      modifies this
      ensures OneMoreDenial(rows, before, KeyAt(policy, now))
    {
      UpsertCounters(rows, policy, ONE_DENIAL, Some(request), now);
      var _ := RecordDenial(policy, request, now);
    }

    /** Recording one served request in the bucket of every policy, each at the instant it is reached. */
    method RecordAll(policies: seq<Policy>, inputTokens: int, outputTokens: int, totalTokens: int, cost: int,
                     request: string, stamps: seq<Time>)
      requires |stamps| == |policies|
      modifies this
      ensures rows == ApplyAll(old(rows),
                               Records(policies, Usage(1, inputTokens, outputTokens, totalTokens, cost, 0), request, stamps))
    {
      ghost var records := Records(policies, Usage(1, inputTokens, outputTokens, totalTokens, cost, 0), request, stamps);
      for i := 0 to |policies|
        invariant rows == ApplyAll(old(rows), records[..i])
      {
        assert records[..i + 1][..i] == records[..i];
        var _ := RecordUsage(policies[i], inputTokens, outputTokens, totalTokens, cost, request, stamps[i]);
      }
      assert records[..|policies|] == records;
    }

    /** The check of the respond route never denies and counts no request. */
    method PreflightRespond(policies: seq<Policy>, projectedCost: Option<int>, request: string, now: Time)
      returns (decision: Decision)
      modifies this
      ensures decision.action != Deny && SameRequests(old(rows), rows)
    {
      hide SameRequests, SameCounters, OneMoreDenial, FirstExhausted, ExhaustedDecision;
      decision := PreflightCheck(policies, "respond", projectedCost, request, now);
      RespondDegrades();
      ghost var k := FirstExhausted(policies, old(rows), projectedCost.GetOr(DEFAULT_COST), now, 0);
      ChecksKeepRequests(rows, old(rows), if k < |policies| then KeyAt(policies[k], now) else BucketKey(0, 0));
    }

    /** A request of the respond route that reaches the provider: exhaustion degrades it, so it is served all the same and
        counted once in the bucket of every policy, after at most one denial. */
    method ServeRespond(policies: seq<Policy>, projectedCost: Option<int>, request: string, now: Time,
                        inputTokens: int, outputTokens: int, totalTokens: int, cost: int, stamps: seq<Time>)
      returns (decision: Decision)
      requires |stamps| == |policies|
      modifies this
      ensures decision.action != Deny
      ensures RequestsGrew(old(rows), rows, policies, stamps)
    {
      decision := PreflightRespond(policies, projectedCost, request, now);
      ghost var checked := rows;
      hide SameRequests, RequestsGrew, ApplyAll, Records;
      if decision.action != Deny {
        RecordAll(policies, inputTokens, outputTokens, totalTokens, cost, request, stamps);
        RecordsCount(checked, policies, Usage(1, inputTokens, outputTokens, totalTokens, cost, 0), request, stamps);
        GrewFromSame(old(rows), checked, rows, policies, stamps);
      }
    }
  }

  /** The mutations that record one request for a list of policies. */
  function Records(policies: seq<Policy>, usage: Usage, request: string, stamps: seq<Time>): seq<Mutation>
    requires |stamps| == |policies|
  {
    seq(|policies|, i requires 0 <= i < |policies| => Mutation(policies[i], usage, Some(request), stamps[i]))
  }

  /** How many of the policies have a bucket as their current one. */
  function Times(policies: seq<Policy>, stamps: seq<Time>, key: BucketKey): nat
    requires |stamps| == |policies|
    decreases |policies|
  {
    if |policies| == 0 then 0
    else
      var n := |policies| - 1;
      Times(policies[..n], stamps[..n], key) + if KeyAt(policies[n], stamps[n]) == key then 1 else 0
  }

  ghost predicate SameRequests(before: Buckets, rows: Buckets) {
    forall key :: Counters(rows, key).requests == Counters(before, key).requests
  }

  /** Every bucket counts one request more for each of the policies that has it as its current one. */
  ghost predicate RequestsGrew(before: Buckets, rows: Buckets, policies: seq<Policy>, stamps: seq<Time>)
    requires |stamps| == |policies|
  {
    forall key :: Counters(rows, key).requests == Counters(before, key).requests + Times(policies, stamps, key)
  }

  lemma RespondDegrades()
    ensures ExhaustedDecision("respond").action == Degrade
  {
    InterpretNeverDegrades("respond");
  }

  lemma ChecksKeepRequests(rows: Buckets, before: Buckets, key: BucketKey)
    requires SameCounters(rows, before) || OneMoreDenial(rows, before, key)
    ensures SameRequests(before, rows)
  {
  }

  lemma GrewFromSame(before: Buckets, checked: Buckets, rows: Buckets, policies: seq<Policy>, stamps: seq<Time>)
    requires |stamps| == |policies| && SameRequests(before, checked) && RequestsGrew(checked, rows, policies, stamps)
    ensures RequestsGrew(before, rows, policies, stamps)
  {
  }

  lemma {:induction false} RecordsCount(rows: Buckets, policies: seq<Policy>, usage: Usage, request: string, stamps: seq<Time>)
    requires |stamps| == |policies| && usage.requests == 1
    ensures RequestsGrew(rows, ApplyAll(rows, Records(policies, usage, request, stamps)), policies, stamps)
    decreases |policies|
  {
    if |policies| > 0 {
      var n := |policies| - 1;
      RecordsCount(rows, policies[..n], usage, request, stamps[..n]);
      var records := Records(policies, usage, request, stamps);
      assert records[..n] == Records(policies[..n], usage, request, stamps[..n]);
    }
  }

  /** The interpret route is never degraded: its calls are admitted or denied, so none skips the cache. */
  lemma InterpretNeverDegrades(route: string)
    ensures ExhaustedDecision(route).action == Degrade <==> route == "respond"
    ensures ExhaustedDecision(route).allowed <==> route == "respond"
    ensures ExhaustedDecision(route).action != Allow
  {
    assert "respond"[0] == 'r' && "interpret"[0] == 'i';
  }
}
