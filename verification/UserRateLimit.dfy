/** The per-user request limit over Redis: INCR on every request, EXPIRE after the first of a window.

    The two commands are separate, so requests of other callers and any delay may fall between them.
    A trace is the sequence of commands that reach one key, with their instants; the results hold for
    every trace, however the commands of different requests interleave.
 */
module UserRateLimit {
  import opened Wrappers
  import CanonicalJson

  type Time = int

  /** A Redis counter: it is gone from `expiresAt` on, and lives forever while that is not set. */
  datatype Counter = Counter(count: Pos, expiresAt: Option<Time>)

  type Pos = n: nat | n > 0 witness 1

  predicate Live(c: Option<Counter>, now: Time) {
    c.Some? && (c.value.expiresAt.Some? ==> now < c.value.expiresAt.value)
  }

  // ---------------------------------------------------------------- one request

  function RedisKey(userId: int, route: string): string {
    "rate_limit:user:" + (CanonicalJson.Decimal(userId) + (":" + route))
  }

  /** Different users and routes never share a counter. */
  lemma RedisKeyInjective(u: int, r: string, v: int, q: string)
    ensures RedisKey(u, r) == RedisKey(v, q) <==> u == v && r == q
  {
    if RedisKey(u, r) == RedisKey(v, q) { PrefixedUnique("rate_limit:user:", u, r, v, q); }
  }

  lemma PrefixedUnique(p: string, u: int, r: string, v: int, q: string)
    requires p + (CanonicalJson.Decimal(u) + (":" + r)) == p + (CanonicalJson.Decimal(v) + (":" + q))
    ensures u == v && r == q
  {
    CanonicalJson.Cut(p, CanonicalJson.Decimal(u) + (":" + r), p, CanonicalJson.Decimal(v) + (":" + q));
    CanonicalJson.DecimalUnique(u, v, ":" + r, ":" + q);
    CanonicalJson.Peel(':', r, ':', q);
  }

  datatype Command<T> = Answer(value: T) | Unavailable

  class Redis {
    var counters: map<string, Counter>

    constructor ()
      ensures counters == map[]
    {
      counters := map[];
    }

    function Lookup(key: string): Option<Counter>
      reads this
    {
      if key in counters then Some(counters[key]) else None
    }

    method Incr(key: string, now: Time, up: bool) returns (r: Command<nat>)
      modifies this
      ensures !up ==> r.Unavailable? && counters == old(counters)
      ensures up ==> counters == old(counters)[key := AfterIncr(old(Lookup(key)), now)]
      ensures up ==> r == Answer(counters[key].count)
    {
      if !up { return Unavailable; }
      var n: Pos := 1;
      var expiresAt := None;
      if key in counters && Live(Some(counters[key]), now) {
        n := counters[key].count + 1;
        expiresAt := counters[key].expiresAt;
      }
      counters := counters[key := Counter(n, expiresAt)];
      r := Answer(n);
    }

    method Expire(key: string, seconds: nat, now: Time, up: bool)
      modifies this
      ensures up ==> Lookup(key) == AfterExpire(old(Lookup(key)), now, seconds)
      ensures if up && key in old(counters) && Live(Some(old(counters)[key]), now)
              then counters == old(counters)[key := old(counters)[key].(expiresAt := Some(now + seconds))]
              else counters == old(counters)
    {
      if up && key in counters && Live(Some(counters[key]), now) {
        counters := counters[key := counters[key].(expiresAt := Some(now + seconds))];
      }
    }

    /** Whatever other requests and time do to the counters between two commands. */
    method Others()
      modifies this
    {
    }

    /** Whether a request may proceed.  An unavailable Redis lets it through; otherwise it proceeds
        when it is among the first `maxRequests` of its counter.  `counted` are the counters as the INCR
        left them and `between` as the EXPIRE found them; the request itself touches only its own. */
    method CheckUserRateLimit(userId: int, route: string, maxRequests: nat, windowSeconds: nat,
                              incrAt: Time, expireAt: Time, incrUp: bool, expireUp: bool)
      returns (allowed: bool, ghost counted: map<string, Counter>, ghost between: map<string, Counter>)
      requires incrAt <= expireAt
      modifies this
      ensures !incrUp ==> allowed && counters == old(counters)
      ensures incrUp ==>
        var key := RedisKey(userId, route);
        && counted == old(counters)[key := AfterIncr(old(Lookup(key)), incrAt)]
        && (allowed <==> counted[key].count <= maxRequests)
        && (if counted[key].count == 1 && expireUp && key in between && Live(Some(between[key]), expireAt)
            then counters == between[key := between[key].(expiresAt := Some(expireAt + windowSeconds))]
            else counters == between)
    {
      var key := RedisKey(userId, route);
      counted, between := counters, counters;
      var r := Incr(key, incrAt, incrUp);
      if r.Unavailable? { return true, counted, between; }
      counted := counters;
      Others();
      between := counters;
      if r.value == 1 {
        Expire(key, windowSeconds, expireAt, expireUp);
      }
      allowed := r.value <= maxRequests;
    }
  }

  // ---------------------------------------------------------------- traces of one key

  datatype Event = Incr(at: Time) | Expire(at: Time)

  function AfterIncr(c: Option<Counter>, now: Time): Counter {
    if Live(c, now) then Counter(c.value.count + 1, c.value.expiresAt) else Counter(1, None)
  }

  function AfterExpire(c: Option<Counter>, now: Time, window: nat): Option<Counter> {
    if Live(c, now) then Some(c.value.(expiresAt := Some(now + window))) else c
  }

  /** A granted request: its instant, and which life of the counter it was counted in. */
  datatype Grant = Grant(at: Time, life: nat)

  /** The counter, the instants at which its lives began, and the grants so far. */
  datatype State = State(counter: Option<Counter>, births: seq<Time>, grants: seq<Grant>)

  function Apply(s: State, e: Event, max: nat, window: nat): State {
    match e
    case Expire(at) => s.(counter := AfterExpire(s.counter, at, window))
    case Incr(at) =>
      var c := AfterIncr(s.counter, at);
      var births := if Live(s.counter, at) then s.births else s.births + [at];
      State(Some(c), births, if c.count <= max && |births| > 0 then s.grants + [Grant(at, |births| - 1)] else s.grants)
  }

  function Run(trace: seq<Event>, max: nat, window: nat): State
    decreases |trace|
  {
    if |trace| == 0 then State(None, [], [])
    else Apply(Run(trace[..|trace| - 1], max, window), trace[|trace| - 1], max, window)
  }

  /** How many grants a life of the counter gave. */
  function GrantsOf(grants: seq<Grant>, life: nat): nat {
    if |grants| == 0 then 0
    else GrantsOf(grants[..|grants| - 1], life) + if grants[|grants| - 1].life == life then 1 else 0
  }

  /** How many grants fall in [from, to). */
  function GrantsWithin(grants: seq<Grant>, from: Time, to: Time): nat {
    if |grants| == 0 then 0
    else GrantsWithin(grants[..|grants| - 1], from, to) + if from <= grants[|grants| - 1].at < to then 1 else 0
  }

  ghost predicate InOrder(trace: seq<Event>) {
    forall i, j | 0 <= i < j < |trace| :: trace[i].at <= trace[j].at
  }

  /** Lives of the counter follow each other at a distance of at least one window. */
  ghost predicate Spaced(s: State, now: Time, window: nat) {
    && (s.counter.Some? <==> |s.births| > 0)
    && (forall i | 0 <= i < |s.births| :: s.births[i] <= now)
    && (forall i | 0 < i < |s.births| :: s.births[i] >= s.births[i - 1] + window)
    && (s.counter.Some? && s.counter.value.expiresAt.Some? ==>
          s.counter.value.expiresAt.value >= s.births[|s.births| - 1] + window)
  }

  /** A grant falls in the life it was counted in. */
  ghost predicate Placed(s: State, now: Time) {
    && (forall g | g in s.grants :: g.life < |s.births| && s.births[g.life] <= g.at <= now)
    && (forall g | g in s.grants && g.life + 1 < |s.births| :: g.at <= s.births[g.life + 1])
  }

  /** A life of the counter gives as many grants as it counted requests, up to the limit. */
  ghost predicate Limited(s: State, max: nat) {
    && (forall life: nat | life >= |s.births| :: GrantsOf(s.grants, life) == 0)
    && (forall life: nat | life < |s.births| :: GrantsOf(s.grants, life) <= max)
    && (s.counter.Some? && |s.births| > 0 ==>
          GrantsOf(s.grants, |s.births| - 1) == if s.counter.value.count <= max then s.counter.value.count else max)
  }

  /** The request that starts a life is granted, if any request is. */
  ghost predicate FirstsGranted(s: State, max: nat) {
    max >= 1 ==> forall life: nat | life < |s.births| :: Grant(s.births[life], life) in s.grants
  }

  lemma SpacedKept(s: State, e: Event, now: Time, max: nat, window: nat)
    requires Spaced(s, now, window) && now <= e.at
    ensures Spaced(Apply(s, e, max, window), e.at, window)
  {
  }

  lemma PlacedKept(s: State, e: Event, now: Time, max: nat, window: nat)
    requires Spaced(s, now, window) && Placed(s, now) && now <= e.at
    ensures Placed(Apply(s, e, max, window), e.at)
  {
  }

  lemma LimitedKept(s: State, e: Event, now: Time, max: nat, window: nat)
    requires Spaced(s, now, window) && Limited(s, max)
    ensures Limited(Apply(s, e, max, window), max)
  {
    var s' := Apply(s, e, max, window);
    if |s'.grants| > |s.grants| {
      assert s'.grants[..|s.grants|] == s.grants;
      assert forall life: nat :: GrantsOf(s'.grants, life)
               == GrantsOf(s.grants, life) + if life == |s'.births| - 1 then 1 else 0;
    }
  }

  lemma FirstsKept(s: State, e: Event, max: nat, window: nat)
    requires FirstsGranted(s, max)
    ensures FirstsGranted(Apply(s, e, max, window), max)
  {
  }

  lemma OneMoreEvent(s: State, e: Event, now: Time, max: nat, window: nat)
    requires Spaced(s, e.at, window) && Placed(s, e.at) && Limited(s, max) && e.at <= now
    ensures Spaced(Apply(s, e, max, window), now, window)
    ensures Placed(Apply(s, e, max, window), now)
    ensures Limited(Apply(s, e, max, window), max)
  {
    SpacedKept(s, e, e.at, max, window);
    PlacedKept(s, e, e.at, max, window);
    LimitedKept(s, e, e.at, max, window);
  }

  lemma {:induction false} EveryRun(trace: seq<Event>, now: Time, max: nat, window: nat)
    requires InOrder(trace) && forall e | e in trace :: e.at <= now
    ensures Spaced(Run(trace, max, window), now, window)
    ensures Placed(Run(trace, max, window), now)
    ensures Limited(Run(trace, max, window), max)
    ensures FirstsGranted(Run(trace, max, window), max)
    decreases |trace|
  {
    if |trace| > 0 {
      var n := |trace| - 1;
      var e := trace[n];
      EveryRun(trace[..n], e.at, max, window);
      var s := Run(trace[..n], max, window);
      assert e in trace;
      OneMoreEvent(s, e, now, max, window);
      FirstsKept(s, e, max, window);
    }
  }

  // ---------------------------------------------------------------- the two bounds

  /** One life of the counter grants at most `max` requests, whatever else happens to the key. */
  lemma LifeWithinLimit(trace: seq<Event>, max: nat, window: nat, life: nat)
    requires InOrder(trace)
    ensures GrantsOf(Run(trace, max, window).grants, life) <= max
  {
    EveryRun(trace, if |trace| == 0 then 0 else trace[|trace| - 1].at, max, window);
  }

  /** If the grants in [from, to) all belong to two lives, they are no more than those lives gave. */
  lemma {:induction false} TwoLivesCover(grants: seq<Grant>, from: Time, to: Time, life: nat)
    requires forall g | g in grants && from <= g.at < to :: g.life == life || g.life == life + 1
    ensures GrantsWithin(grants, from, to) <= GrantsOf(grants, life) + GrantsOf(grants, life + 1)
  {
    if |grants| > 0 {
      TwoLivesCover(grants[..|grants| - 1], from, to, life);
      assert grants[|grants| - 1] in grants;
    }
  }

  lemma {:induction false} NoneWithin(grants: seq<Grant>, from: Time, to: Time)
    requires forall g | g in grants :: !(from <= g.at < to)
    ensures GrantsWithin(grants, from, to) == 0
  {
    if |grants| > 0 {
      NoneWithin(grants[..|grants| - 1], from, to);
      assert grants[|grants| - 1] in grants;
    }
  }

  /** The earliest life with a grant in [from, to). */
  lemma {:induction false} EarliestLife(grants: seq<Grant>, from: Time, to: Time) returns (first: Option<Grant>)
    ensures first.None? ==> forall g | g in grants :: !(from <= g.at < to)
    ensures first.Some? ==>
              && first.value in grants && from <= first.value.at < to
              && forall g | g in grants && from <= g.at < to :: first.value.life <= g.life
  {
    if |grants| == 0 { return None; }
    var n := |grants| - 1;
    first := EarliestLife(grants[..n], from, to);
    var g := grants[n];
    if from <= g.at < to && (first.None? || g.life < first.value.life) { first := Some(g); }
    assert grants == grants[..n] + [g];
  }

  lemma {:induction false} OneLifeCovers(grants: seq<Grant>, from: Time, to: Time, life: nat)
    requires forall g | g in grants && from <= g.at < to :: g.life == life
    ensures GrantsWithin(grants, from, to) <= GrantsOf(grants, life)
  {
    if |grants| > 0 {
      OneLifeCovers(grants[..|grants| - 1], from, to, life);
      assert grants[|grants| - 1] in grants;
    }
  }

  /** And they are one less when a grant of the first life lies outside. */
  lemma {:induction false} TwoLivesCoverLess(grants: seq<Grant>, from: Time, to: Time, life: nat, outside: Grant)
    requires forall g | g in grants && from <= g.at < to :: g.life == life || g.life == life + 1
    requires outside in grants && outside.life == life && !(from <= outside.at < to)
    ensures GrantsWithin(grants, from, to) + 1 <= GrantsOf(grants, life) + GrantsOf(grants, life + 1)
  {
    var before, last := grants[..|grants| - 1], grants[|grants| - 1];
    assert last in grants && grants == before + [last];
    if last == outside {
      TwoLivesCover(before, from, to, life);
    } else {
      TwoLivesCoverLess(before, from, to, life, outside);
    }
  }

  /** Any stretch of time no longer than the window holds fewer than twice `max` grants. */
  lemma WindowWithinTwiceLimit(trace: seq<Event>, max: nat, window: nat, from: Time)
    requires InOrder(trace)
    ensures GrantsWithin(Run(trace, max, window).grants, from, from + window) <= if max == 0 then 0 else 2 * max - 1
  {
    var now := if |trace| == 0 then 0 else trace[|trace| - 1].at;
    EveryRun(trace, now, max, window);
    StateWithinTwiceLimit(Run(trace, max, window), now, max, window, from);
  }

  lemma StateWithinTwiceLimit(s: State, now: Time, max: nat, window: nat, from: Time)
    requires Spaced(s, now, window) && Placed(s, now) && Limited(s, max) && FirstsGranted(s, max)
    ensures GrantsWithin(s.grants, from, from + window) <= if max == 0 then 0 else 2 * max - 1
  {
    var first := EarliestLife(s.grants, from, from + window);
    if first.None? {
      NoneWithin(s.grants, from, from + window);
    } else {
      var life := first.value.life;
      forall g | g in s.grants && from <= g.at < from + window ensures g.life == life || g.life == life + 1 {
        LaterLifeIsLater(s, now, window, first.value, g);
      }
      LivesWithin(s, now, max, window, from, life);
    }
  }

  lemma LivesWithin(s: State, now: Time, max: nat, window: nat, from: Time, life: nat)
    requires Spaced(s, now, window) && Placed(s, now) && Limited(s, max) && FirstsGranted(s, max)
    requires forall g | g in s.grants && from <= g.at < from + window :: g.life == life || g.life == life + 1
    ensures GrantsWithin(s.grants, from, from + window) <= if max == 0 then 0 else 2 * max - 1
  {
    hide Spaced, Placed, Limited, FirstsGranted, GrantsOf, GrantsWithin;
    LifeLimits(s, max, life);
    LifeLimits(s, max, life + 1);
    if max == 0 {
      TwoLivesCover(s.grants, from, from + window, life);
    } else if forall g | g in s.grants && from <= g.at < from + window :: g.life == life {
      OneLifeCovers(s.grants, from, from + window, life);
    } else {
      var h :| h in s.grants && from <= h.at < from + window && h.life == life + 1;
      FirstIsOutside(s, now, max, window, from, life, h);
      TwoLivesCoverLess(s.grants, from, from + window, life, Grant(s.births[life], life));
    }
  }

  lemma LifeLimits(s: State, max: nat, life: nat)
    requires Limited(s, max)
    ensures GrantsOf(s.grants, life) <= max
  {
  }

  /** When the next life has a grant before the end, this life began before the start. */
  lemma FirstIsOutside(s: State, now: Time, max: nat, window: nat, from: Time, life: nat, h: Grant)
    requires Spaced(s, now, window) && Placed(s, now) && FirstsGranted(s, max) && max >= 1
    requires h in s.grants && h.at < from + window && h.life == life + 1
    ensures life < |s.births| && Grant(s.births[life], life) in s.grants && s.births[life] < from
  {
    assert s.births[life + 1] <= h.at;
    assert s.births[life + 1] >= s.births[life] + window;
  }

  /** That bound is exact: with a window of at least two instants some trace reaches it. */
  lemma WindowBoundIsReached(max: nat, window: nat)
    requires max >= 1 && window >= 2
    ensures exists trace :: InOrder(trace) && GrantsWithin(Run(trace, max, window).grants, 1, 1 + window) == 2 * max - 1
  {
    var trace, s := Start(max, window);
    hide Apply, GrantsWithin, InOrder, Run;
    trace, s := Burst(trace, s, 1, max, window, max - 1);
    Rebirth(s, window, max);
    trace, s := Extend(trace, s, Incr(window), max, window, window);
    trace, s := Burst(trace, s, window, max, window, max - 1);
    assert InOrder(trace) && GrantsWithin(Run(trace, max, window).grants, 1, 1 + window) == 2 * max - 1;
  }

  /** The first request of a key, and its EXPIRE. */
  lemma Start(max: nat, window: nat) returns (trace: seq<Event>, s: State)
    requires max >= 1 && window >= 2
    ensures InOrder(trace) && Run(trace, max, window) == s && forall e | e in trace :: e.at <= 0
    ensures s.counter == Some(Counter(1, Some(window))) && |s.births| > 0
    ensures GrantsWithin(s.grants, 1, 1 + window) == 0
  {
    trace, s := Extend([], State(None, [], []), Incr(0), max, window, window);
    assert s == State(Some(Counter(1, None)), [0], [Grant(0, 0)]);
    trace, s := Extend(trace, s, Expire(0), max, window, window);
  }

  /** The request that finds the counter expired starts a new life and is granted. */
  lemma Rebirth(s: State, window: nat, max: nat)
    requires max >= 1 && s.counter.Some? && s.counter.value.expiresAt == Some(window)
    ensures var s' := Apply(s, Incr(window), max, window);
      s'.counter == Some(Counter(1, None)) && |s'.births| > 0 && |s'.grants| == |s.grants| + 1
  {
  }

  /** One more event at the end of a trace. */
  lemma Extend(trace: seq<Event>, s: State, e: Event, max: nat, window: nat, length: nat)
    returns (longer: seq<Event>, s': State)
    requires InOrder(trace) && Run(trace, max, window) == s && forall f | f in trace :: f.at <= e.at
    ensures InOrder(longer) && Run(longer, max, window) == s' == Apply(s, e, max, window)
    ensures forall f | f in longer :: f.at <= e.at
    ensures GrantsWithin(s'.grants, 1, 1 + length) == GrantsWithin(s.grants, 1, 1 + length)
              + if |s'.grants| > |s.grants| && 1 <= e.at < 1 + length then 1 else 0
  {
    longer := trace + [e];
    assert longer[..|trace|] == trace;
    s' := Run(longer, max, window);
    OneGrantMore(s, e, max, window, length);
  }

  lemma OneGrantMore(s: State, e: Event, max: nat, window: nat, length: nat)
    ensures var s' := Apply(s, e, max, window);
      GrantsWithin(s'.grants, 1, 1 + length) == GrantsWithin(s.grants, 1, 1 + length)
        + if |s'.grants| > |s.grants| && 1 <= e.at < 1 + length then 1 else 0
  {
    var s' := Apply(s, e, max, window);
    assert |s'.grants| > |s.grants| ==> s'.grants[..|s.grants|] == s.grants;
  }

  lemma GrantedIncr(s: State, at: Time, max: nat, window: nat)
    requires Live(s.counter, at) && |s.births| > 0 && s.counter.value.count + 1 <= max
    ensures var s' := Apply(s, Incr(at), max, window);
      && s'.counter == Some(Counter(s.counter.value.count + 1, s.counter.value.expiresAt))
      && s'.births == s.births && |s'.grants| == |s.grants| + 1
  {
  }

  /** Requests at one instant of a live counter, within the limit: all are granted. */
  lemma {:induction false} Burst(trace: seq<Event>, s: State, at: Time, max: nat, window: nat, n: nat)
    returns (longer: seq<Event>, s': State)
    requires InOrder(trace) && Run(trace, max, window) == s && forall f | f in trace :: f.at <= at
    requires Live(s.counter, at) && |s.births| > 0 && s.counter.value.count + n <= max && 1 <= at < 1 + window
    ensures InOrder(longer) && Run(longer, max, window) == s' && forall f | f in longer :: f.at <= at
    ensures s'.counter == Some(Counter(s.counter.value.count + n, s.counter.value.expiresAt)) && s'.births == s.births
    ensures GrantsWithin(s'.grants, 1, 1 + window) == GrantsWithin(s.grants, 1, 1 + window) + n
  {
    hide InOrder, GrantsWithin;
    if n == 0 {
      longer, s' := trace, s;
    } else {
      longer, s' := Burst(trace, s, at, max, window, n - 1);
      GrantedIncr(s', at, max, window);
      longer, s' := Extend(longer, s', Incr(at), max, window, window);
    }
  }

  lemma {:induction false} BirthsSpread(s: State, now: Time, window: nat, i: nat, j: nat)
    requires Spaced(s, now, window) && i < j < |s.births|
    ensures s.births[j] >= s.births[i] + window
    decreases j
  {
    if j - 1 > i { BirthsSpread(s, now, window, i, j - 1); }
  }

  /** A grant two lives after another one is at least a window later. */
  lemma LaterLifeIsLater(s: State, now: Time, window: nat, g: Grant, h: Grant)
    requires Spaced(s, now, window) && Placed(s, now) && g in s.grants && h in s.grants
    ensures h.life >= g.life + 2 ==> h.at >= g.at + window
  {
    if h.life >= g.life + 2 { BirthsSpread(s, now, window, g.life + 1, h.life); }
  }

  /** A counter without an expiry never dies: when the EXPIRE of a life fails, the key stops granting
      for good once the limit is reached, however much time passes. */
  lemma {:induction false} WithoutExpireGrantsStop(trace: seq<Event>, later: seq<Event>, max: nat, window: nat)
    requires var s := Run(trace, max, window);
             s.counter.Some? && s.counter.value.expiresAt.None? && s.counter.value.count >= max
    requires forall e | e in later :: e.Incr?
    ensures Run(trace + later, max, window).grants == Run(trace, max, window).grants
    ensures var s := Run(trace + later, max, window);
            s.counter.Some? && s.counter.value.expiresAt.None? && s.counter.value.count >= max
    decreases |later|
  {
    if |later| == 0 {
      assert trace + later == trace;
    } else {
      var n := |later| - 1;
      assert later[n] in later;
      WithoutExpireGrantsStop(trace, later[..n], max, window);
      assert (trace + later)[..|trace + later| - 1] == trace + later[..n];
    }
  }

  ghost predicate OnlyRequests(events: seq<Event>) {
    forall e | e in events :: e.Incr?
  }

  /** Whenever requests come, and however long they wait, none of them is granted any more. */
  ghost predicate LockedOut(trace: seq<Event>, max: nat, window: nat) {
    forall later | OnlyRequests(later) && InOrder(trace + later) ::
      Run(trace + later, max, window).grants == Run(trace, max, window).grants
  }

  ghost predicate StuckAtLimit(c: Option<Counter>, max: nat) {
    c.Some? && c.value.expiresAt.None? && c.value.count >= max
  }

  /** A key that no EXPIRE is on its way to is locked out for good exactly when its counter is at the limit and has no
      expiry. */
  lemma LockedOutIff(trace: seq<Event>, max: nat, window: nat)
    requires InOrder(trace) && max >= 1
    ensures LockedOut(trace, max, window) <==> StuckAtLimit(Run(trace, max, window).counter, max)
  {
    var s := Run(trace, max, window);
    if StuckAtLimit(s.counter, max) {
      forall later | OnlyRequests(later) && InOrder(trace + later)
        ensures Run(trace + later, max, window).grants == s.grants
      {
        WithoutExpireGrantsStop(trace, later, max, window);
      }
    } else {
      var at := NextGrant(trace, max, window);
      assert OnlyRequests([Incr(at)]);
      assert Run(trace + [Incr(at)], max, window).grants != s.grants;
    }
  }

  function LastInstant(trace: seq<Event>): Time {
    if |trace| == 0 then 0 else trace[|trace| - 1].at
  }

  lemma OneMoreInOrder(trace: seq<Event>, e: Event)
    requires InOrder(trace) && LastInstant(trace) <= e.at
    ensures InOrder(trace + [e]) && forall f | f in trace :: f.at <= LastInstant(trace)
  {
  }

  lemma LivesBegin(trace: seq<Event>, max: nat, window: nat)
    requires InOrder(trace)
    ensures Run(trace, max, window).counter.Some? ==> |Run(trace, max, window).births| > 0
  {
    OneMoreInOrder(trace, Incr(LastInstant(trace)));
    EveryRun(trace, LastInstant(trace), max, window);
  }

  lemma GrantedWhenFree(s: State, at: Time, max: nat, window: nat)
    requires max >= 1 && (s.counter.Some? ==> |s.births| > 0)
    requires Live(s.counter, at) ==> s.counter.value.count < max
    ensures |Apply(s, Incr(at), max, window).grants| == |s.grants| + 1
  {
  }

  /** Otherwise some later request is granted: at once, or when the counter has expired. */
  lemma NextGrant(trace: seq<Event>, max: nat, window: nat) returns (at: Time)
    requires InOrder(trace) && max >= 1 && !StuckAtLimit(Run(trace, max, window).counter, max)
    ensures InOrder(trace + [Incr(at)])
    ensures |Run(trace + [Incr(at)], max, window).grants| == |Run(trace, max, window).grants| + 1
  {
    var s := Run(trace, max, window);
    var now := LastInstant(trace);
    at := if s.counter.Some? && s.counter.value.expiresAt.Some? && s.counter.value.expiresAt.value > now
          then s.counter.value.expiresAt.value else now;
    hide InOrder, Apply;
    LivesBegin(trace, max, window);
    OneMoreInOrder(trace, Incr(at));
    GrantedWhenFree(s, at, max, window);
    assert (trace + [Incr(at)])[..|trace|] == trace;
  }

  /** The lockout is reached: requests up to the limit, and no EXPIRE that works. */
  lemma LockoutIsReached(max: nat, window: nat)
    requires max >= 1
    ensures exists trace :: InOrder(trace) && OnlyRequests(trace) && LockedOut(trace, max, window)
  {
    var trace := Unexpired(max, window, max);
    LockedOutIff(trace, max, window);
    assert InOrder(trace) && OnlyRequests(trace) && LockedOut(trace, max, window);
  }

  lemma {:induction false} Unexpired(max: nat, window: nat, n: nat) returns (trace: seq<Event>)
    requires n >= 1
    ensures InOrder(trace) && OnlyRequests(trace) && forall e | e in trace :: e.at == 0
    ensures Run(trace, max, window).counter == Some(Counter(n, None))
  {
    if n == 1 {
      trace := [Incr(0)];
      assert trace[..0] == [];
    } else {
      var before := Unexpired(max, window, n - 1);
      trace := before + [Incr(0)];
      assert trace[..|before|] == before;
    }
  }
}
