/** The semantic cache over the table `llm_cache_entries`.

    Every SQL statement is one atomic step.  `Run` executes any sequence of statements, which covers
    every interleaving of repository calls, and the main result says that the table answers like a
    plain record of the latest store under each key, whatever was deleted and cleaned up in between.
 */
module LlmCache {
  import opened Wrappers
  import opened CanonicalJson

  /** Instants in milliseconds. */
  type Time = int

  datatype Entry = Entry(
    route: Route, request: Json, response: Json, createdAt: Time, expiresAt: Time,
    hitCount: nat, lastHitAt: Option<Time>)

  type Table = map<string, Entry>

  predicate Fresh(e: Entry, now: Time) {
    now < e.expiresAt
  }

  /** The default time to live: an hour for interpretations, a day for responses. */
  function DefaultTtl(route: Route): int {
    match route case Interpret => 3_600_000 case Respond => 86_400_000
  }

  // ---------------------------------------------------------------- statements

  datatype Statement =
    | Cleanup(route: Route, victims: set<string>)     // the rows that the limited oldest-first delete picked
    | DeleteExpired(key: string)
    | Touch(key: string, route: Route)
    | Peek(key: string, route: Route)
    | Upsert(key: string, route: Route, request: Json, response: Json, expiresAt: Time)

  /** A statement and the instant that NOW() has in it. */
  datatype Timed = At(now: Time, stmt: Statement)

  /** A conflicting insert overwrites every column but the route. */
  function Stored(t: Table, s: Timed): Entry
    requires s.stmt.Upsert?
  {
    var Upsert(key, route, request, response, expiresAt) := s.stmt;
    Entry(if key in t then t[key].route else route, request, response, s.now, expiresAt, 0, None)
  }

  function Execute(t: Table, s: Timed): Table {
    match s.stmt
    case Cleanup(route, victims) => t - (set k | k in victims && k in t && t[k].route == route && !Fresh(t[k], s.now))
    case DeleteExpired(key) => if key in t && !Fresh(t[key], s.now) then t - {key} else t
    case Touch(key, route) =>
      if key in t && t[key].route == route && Fresh(t[key], s.now) then
        t[key := t[key].(hitCount := t[key].hitCount + 1, lastHitAt := Some(s.now))]
      else t
    case Peek(_, _) => t
    case Upsert(key, _, _, _, _) => t[key := Stored(t, s)]
  }

  /** The row that a statement returns. */
  function Answer(t: Table, s: Timed): Option<Entry> {
    match s.stmt
    case Touch(key, route) =>
      if key in t && t[key].route == route && Fresh(t[key], s.now) then Some(Execute(t, s)[key]) else None
    case Peek(key, route) =>
      if key in t && t[key].route == route && Fresh(t[key], s.now) then Some(t[key]) else None
    case Upsert(_, _, _, _, _) => Some(Stored(t, s))
    case _ => None
  }

  function Run(trace: seq<Timed>): Table {
    if |trace| == 0 then map[] else Execute(Run(trace[..|trace| - 1]), trace[|trace| - 1])
  }

  // ---------------------------------------------------------------- the plain record

  /** The latest store under a key in a trace, with the reads that found it since.  Nothing deletes. */
  function Latest(trace: seq<Timed>, key: string): Option<Entry> {
    if |trace| == 0 then None
    else
      var before := Latest(trace[..|trace| - 1], key);
      var s := trace[|trace| - 1];
      match s.stmt
      case Upsert(k, route, request, response, expiresAt) =>
        if k == key then Some(Entry(route, request, response, s.now, expiresAt, 0, None)) else before
      case Touch(k, _) =>
        if k == key && before.Some? && Fresh(before.value, s.now) then
          Some(before.value.(hitCount := before.value.hitCount + 1, lastHitAt := Some(s.now)))
        else before
      case _ => before
  }

  /** How many reads of a key the table has answered since the key was last stored. */
  function HitsSinceStore(trace: seq<Timed>, key: string): nat {
    if |trace| == 0 then 0
    else
      var prior := trace[..|trace| - 1];
      var s := trace[|trace| - 1];
      if s.stmt.Upsert? && s.stmt.key == key then 0
      else if s.stmt.Touch? && s.stmt.key == key && Answer(Run(prior), s).Some? then HitsSinceStore(prior, key) + 1
      else HitsSinceStore(prior, key)
  }

  ghost predicate InOrder(trace: seq<Timed>) {
    forall i, j | 0 <= i < j < |trace| :: trace[i].now <= trace[j].now
  }

  /** Each key is used with one route only, as the keys made from routes are. */
  predicate OwnRoute(s: Timed, home: string -> Route) {
    match s.stmt
    case Touch(key, route) => route == home(key)
    case Peek(key, route) => route == home(key)
    case Upsert(key, route, _, _, _) => route == home(key)
    case _ => true
  }

  /** What the table has in common with the record at instant `now`. */
  ghost predicate Agrees(t: Table, trace: seq<Timed>, home: string -> Route, now: Time) {
    && (forall k | k in t :: Latest(trace, k) == Some(t[k]) && t[k].route == home(k))
    && (forall k :: Latest(trace, k).Some? && Fresh(Latest(trace, k).value, now) ==> k in t)
  }

  lemma {:induction false} TableAgrees(trace: seq<Timed>, home: string -> Route, now: Time)
    requires InOrder(trace) && (forall s | s in trace :: OwnRoute(s, home) && s.now <= now)
    ensures Agrees(Run(trace), trace, home, now)
    decreases |trace|
  {
    if |trace| > 0 {
      var s := trace[|trace| - 1];
      var prior := trace[..|trace| - 1];
      TableAgrees(prior, home, s.now);
      assert s in trace;
      StatementAgrees(Run(prior), prior, s, home, now);
      assert prior + [s] == trace;
    }
  }

  lemma StatementAgrees(t: Table, prior: seq<Timed>, s: Timed, home: string -> Route, now: Time)
    requires Agrees(t, prior, home, s.now) && OwnRoute(s, home) && s.now <= now
    ensures Agrees(Execute(t, s), prior + [s], home, now)
  {
    var trace, t' := prior + [s], Execute(t, s);
    assert trace[..|trace| - 1] == prior;
    forall k ensures k in t' ==> Latest(trace, k) == Some(t'[k]) && t'[k].route == home(k) {}
    forall k ensures Latest(trace, k).Some? && Fresh(Latest(trace, k).value, now) ==> k in t' {}
  }

  lemma AnswersAlike(t: Table, latest: Option<Entry>, home: string -> Route, key: string, now: Time)
    requires key in t ==> latest == Some(t[key]) && t[key].route == home(key)
    requires latest.Some? && Fresh(latest.value, now) ==> key in t
    ensures var live := latest.Some? && Fresh(latest.value, now);
            && Answer(t, At(now, Peek(key, home(key)))) == (if live then latest else None)
            && Answer(t, At(now, Touch(key, home(key))))
               == (if live then Some(latest.value.(hitCount := latest.value.hitCount + 1, lastHitAt := Some(now))) else None)
  {
  }

  /** The cache refines the record of latest stores: `lookup` and `peek` return exactly the latest
      stored value while its time to live lasts, and nothing afterwards; a lookup counts itself. */
  lemma CacheReturnsLatestStore(trace: seq<Timed>, home: string -> Route, key: string, now: Time)
    requires InOrder(trace) && (forall s | s in trace :: OwnRoute(s, home) && s.now <= now)
    ensures var latest := Latest(trace, key);
            var live := latest.Some? && Fresh(latest.value, now);
            && Answer(Run(trace), At(now, Peek(key, home(key)))) == (if live then latest else None)
            && Answer(Run(trace), At(now, Touch(key, home(key))))
               == (if live then Some(latest.value.(hitCount := latest.value.hitCount + 1, lastHitAt := Some(now))) else None)
  {
    TableAgrees(trace, home, now);
    AnswersAlike(Run(trace), Latest(trace, key), home, key, now);
  }

  /** The hit count of a stored entry is the number of lookups that returned it since the store. */
  lemma {:induction false} HitCountCountsLookups(trace: seq<Timed>, home: string -> Route, key: string)
    requires InOrder(trace) && (forall s | s in trace :: OwnRoute(s, home))
    ensures Latest(trace, key).Some? ==> Latest(trace, key).value.hitCount == HitsSinceStore(trace, key)
    decreases |trace|
  {
    if |trace| > 0 {
      var s := trace[|trace| - 1];
      var prior := trace[..|trace| - 1];
      HitCountCountsLookups(prior, home, key);
      assert s in trace;
      if s.stmt.Touch? && s.stmt.key == key { CacheReturnsLatestStore(prior, home, key, s.now); }
    }
  }

  // ---------------------------------------------------------------- a key used with two routes

  /** A store is found again under the route it was stored with exactly when no row of another route
      was in its place: the upsert leaves the route of an existing row alone. */
  lemma StoredIsFoundIffRouteFree(t: Table, key: string, route: Route, response: Json, now: Time, later: Time, ttl: nat)
    requires now <= later < now + ttl
    ensures var stored := Execute(t, At(now, Upsert(key, route, Obj([]), response, now + ttl)));
            Answer(stored, At(later, Peek(key, route))).Some? <==> key !in t || t[key].route == route
  {
  }

  lemma StoreCanBeLost()
    ensures exists t: Table, key, response ::
              Answer(Execute(t, At(0, Upsert(key, Interpret, Obj([]), response, 100))), At(0, Peek(key, Interpret))).None?
  {
    var t: Table := map["k" := Entry(Respond, Null, Null, 0, 50, 0, None)];
    StoredIsFoundIffRouteFree(t, "k", Interpret, Null, 0, 0, 100);
  }

  // ---------------------------------------------------------------- limited cleanup

  function ExpiredKeys(t: Table, route: Route, now: Time): set<string> {
    set k | k in t && t[k].route == route && !Fresh(t[k], now)
  }

  /** At most `limit` expired rows of a route, no row that stays being older than one that goes. */
  ghost predicate OldestExpired(t: Table, route: Route, now: Time, limit: nat, victims: set<string>) {
    var expired := ExpiredKeys(t, route, now);
    && victims <= expired
    && (|victims| == limit || (|victims| < limit && victims == expired))
    && forall v, k | v in victims && k in expired - victims :: t[v].expiresAt <= t[k].expiresAt
  }

  lemma {:induction false} OldestExists(t: Table, keys: set<string>) returns (oldest: string)
    requires keys != {} && keys <= t.Keys
    ensures oldest in keys && forall k | k in keys :: t[oldest].expiresAt <= t[k].expiresAt
    decreases keys
  {
    oldest :| oldest in keys;
    if keys != {oldest} {
      var other := OldestExists(t, keys - {oldest});
      if t[other].expiresAt < t[oldest].expiresAt { oldest := other; }
    }
  }

  method PickOldest(t: Table, keys: set<string>) returns (next: string)
    requires keys != {} && keys <= t.Keys
    ensures next in keys && forall k | k in keys :: t[next].expiresAt <= t[k].expiresAt
  {
    ghost var oldest := OldestExists(t, keys);
    next :| next in keys && forall k | k in keys :: t[next].expiresAt <= t[k].expiresAt;
  }

  // ---------------------------------------------------------------- the repository

  lemma RunAppend(trace: seq<Timed>, s: Timed)
    ensures Run(trace + [s]) == Execute(Run(trace), s)
  {
    assert (trace + [s])[..|trace|] == trace;
  }

  /** The table, and the statements that made it what it is. */
  class LlmCacheRepo {
    var rows: Table
    var lazyCleanupLast: Option<int>            // monotonic clock, in milliseconds
    ghost var trace: seq<Timed>

    ghost predicate Valid()
      reads this
    {
      rows == Run(trace)
    }

    constructor ()
      ensures rows == map[] && lazyCleanupLast == None && trace == [] && Valid()
    {
      rows, lazyCleanupLast, trace := map[], None, [];
    }

    /** A statement has been executed. */
    ghost method Note(s: Timed)
      requires rows == Execute(Run(trace), s)
      modifies this`trace
      ensures trace == old(trace) + [s] && Valid()
    {
      RunAppend(trace, s);
      trace := trace + [s];
    }

    method CleanupExpired(route: Route, limit: nat, now: Time) returns (ghost victims: set<string>)
      requires Valid()
      modifies this`rows, this`trace
      ensures Valid() && trace == old(trace) + [At(now, Cleanup(route, victims))]
      ensures OldestExpired(old(rows), route, now, limit, victims)
      ensures rows == Execute(old(rows), At(now, Cleanup(route, victims)))
    {
      var expired := ExpiredKeys(rows, route, now);
      var picked := {};
      while |picked| < limit && picked != expired
        invariant rows == old(rows) && trace == old(trace)
        invariant picked <= expired && |picked| <= limit
        invariant forall v, k | v in picked && k in expired - picked :: rows[v].expiresAt <= rows[k].expiresAt
        decreases |expired - picked|
      {
        var next := PickOldest(rows, expired - picked);
        assert expired - (picked + {next}) == (expired - picked) - {next};
        picked := picked + {next};
      }
      victims := picked;
      VictimsGo(rows, route, now, victims);
      rows := rows - picked;
      Note(At(now, Cleanup(route, victims)));
    }

    /** At most one cleanup of at most 100 rows in any 60 seconds of the monotonic clock. */
    method MaybeRunLazyCleanup(route: Route, monotonic: int, now: Time) returns (ghost steps: seq<Timed>)
      requires Valid()
      modifies this
      ensures Valid() && trace == old(trace) + steps
      ensures var due := old(lazyCleanupLast).None? || monotonic - old(lazyCleanupLast).value >= 60_000;
              && lazyCleanupLast == (if due then Some(monotonic) else old(lazyCleanupLast))
              && (if !due then steps == [] && rows == old(rows)
                  else exists victims ::
                    && OldestExpired(old(rows), route, now, 100, victims)
                    && steps == [At(now, Cleanup(route, victims))]
                    && rows == Execute(old(rows), At(now, Cleanup(route, victims))))
    {
      steps := [];
      var due := lazyCleanupLast.None? || monotonic - lazyCleanupLast.value >= 60_000;
      if due {
        lazyCleanupLast := Some(monotonic);
        ghost var victims := CleanupExpired(route, 100, now);
        steps := [At(now, Cleanup(route, victims))];
      }
    }

    /** Clean up when due, delete this key if expired, then touch it.  What comes back is the answer to the
        touch, and depends only on the row and the last instant, never on the cleanup; the only rows that
        go are expired. */
    method Lookup(route: Route, key: string, monotonic: int, cleanupAt: Time, deleteAt: Time, touchAt: Time)
      returns (r: Option<Entry>, ghost cleanup: seq<Timed>)
      requires Valid() && cleanupAt <= deleteAt <= touchAt
      modifies this
      ensures Valid() && trace == old(trace) + cleanup + [At(deleteAt, DeleteExpired(key))] + [At(touchAt, Touch(key, route))]
      ensures r == Answer(Run(trace[..|trace| - 1]), At(touchAt, Touch(key, route)))
      ensures r.Some? <==> key in old(rows) && old(rows)[key].route == route && Fresh(old(rows)[key], touchAt)
      ensures r.Some? ==>
                && r.value == old(rows)[key].(hitCount := old(rows)[key].hitCount + 1, lastHitAt := Some(touchAt))
                && key in rows && rows[key] == r.value
      ensures forall k | k in rows && !(k == key && r.Some?) :: k in old(rows) && rows[k] == old(rows)[k]
      ensures forall k | k in old(rows) && k !in rows :: !Fresh(old(rows)[k], deleteAt)
      ensures key in rows ==> Fresh(rows[key], deleteAt)
    {
      cleanup := MaybeRunLazyCleanup(route, monotonic, cleanupAt);
      hide Run;
      DeleteIfExpired(key, deleteAt);
      ghost var before := trace;
      r := TouchRow(key, route, touchAt);
      assert trace[..|trace| - 1] == before;
    }

    method DeleteIfExpired(key: string, now: Time)
      requires Valid()
      modifies this`rows, this`trace
      ensures Valid() && trace == old(trace) + [At(now, DeleteExpired(key))]
      ensures rows == Execute(old(rows), At(now, DeleteExpired(key)))
    {
      hide Run;
      if key in rows && rows[key].expiresAt <= now {
        rows := rows - {key};
      }
      Note(At(now, DeleteExpired(key)));
    }

    method TouchRow(key: string, route: Route, now: Time) returns (r: Option<Entry>)
      requires Valid()
      modifies this`rows, this`trace
      ensures Valid() && trace == old(trace) + [At(now, Touch(key, route))]
      ensures rows == Execute(old(rows), At(now, Touch(key, route)))
      ensures r == Answer(old(rows), At(now, Touch(key, route)))
    {
      hide Run;
      r := None;
      if key in rows && rows[key].route == route && now < rows[key].expiresAt {
        var row := rows[key];
        row := row.(hitCount := row.hitCount + 1, lastHitAt := Some(now));
        rows := rows[key := row];
        r := Some(row);
      }
      Note(At(now, Touch(key, route)));
    }

    method Peek(route: Route, key: string, now: Time) returns (r: Option<Entry>)
      ensures r == Answer(rows, At(now, Statement.Peek(key, route)))
      ensures r.Some? ==> Fresh(r.value, now)
    {
      r := if key in rows && rows[key].route == route && now < rows[key].expiresAt then Some(rows[key]) else None;
    }

    /** The expiry is computed from the caller's clock, the creation instant from the database's. */
    method Store(route: Route, key: string, request: Json, response: Json, ttl: Option<int>,
                 monotonic: int, cleanupAt: Time, clientNow: Time, now: Time)
      returns (e: Entry, ghost cleanup: seq<Timed>)
      requires Valid()
      modifies this
      ensures var expiresAt := clientNow + ttl.GetOr(DefaultTtl(route));
              Valid() && trace == old(trace) + cleanup + [At(now, Upsert(key, route, request, response, expiresAt))]
      ensures key in rows && rows[key] == e
      ensures e.request == request && e.response == response && e.createdAt == now
      ensures e.expiresAt == clientNow + ttl.GetOr(if route.Interpret? then 60 * 60 * 1000 else 24 * 60 * 60 * 1000)
      ensures e.hitCount == 0 && e.lastHitAt == None
      ensures e.route == route || (key in old(rows) && e.route == old(rows)[key].route)
      ensures forall k | k in rows && k != key :: k in old(rows) && rows[k] == old(rows)[k]
      ensures forall k | k in old(rows) && k !in rows :: !Fresh(old(rows)[k], cleanupAt)
    {
      cleanup := MaybeRunLazyCleanup(route, monotonic, cleanupAt);
      hide Run;
      var expiresAt := clientNow + ttl.GetOr(DefaultTtl(route));
      e := Stored(rows, At(now, Upsert(key, route, request, response, expiresAt)));
      rows := rows[key := e];
      Note(At(now, Upsert(key, route, request, response, expiresAt)));
    }
  }

  /** Whatever a cleanup is told to delete, only expired rows of its route go. */
  lemma CleanupTakesExpired(t: Table, route: Route, now: Time, victims: set<string>, key: string)
    requires key in t
    ensures key !in Execute(t, At(now, Cleanup(route, victims))) <==> key in victims && key in ExpiredKeys(t, route, now)
  {
  }

  lemma VictimsGo(t: Table, route: Route, now: Time, victims: set<string>)
    requires victims <= ExpiredKeys(t, route, now)
    ensures t - victims == Execute(t, At(now, Cleanup(route, victims)))
  {
    assert (set k | k in victims && k in t && t[k].route == route && !Fresh(t[k], now)) == victims;
  }

  /** So the class answers like the record of latest stores: a lookup returns what the latest store left, if it is still
      alive, for any statements that made the table, of this process and of others. */
  lemma LookupIsLatestStore(trace: seq<Timed>, home: string -> Route, key: string, touchAt: Time)
    requires InOrder(trace) && (forall s | s in trace :: OwnRoute(s, home) && s.now <= touchAt)
    ensures var latest := Latest(trace, key); var r := Answer(Run(trace), At(touchAt, Touch(key, home(key))));
            && (r.Some? <==> latest.Some? && Fresh(latest.value, touchAt))
            && (r.Some? ==> r.value.response == latest.value.response && r.value.hitCount == HitsSinceStore(trace, key) + 1)
  {
    CacheReturnsLatestStore(trace, home, key, touchAt);
    HitCountCountsLookups(trace, home, key);
  }

  /** Poll until an entry appears or a poll ends at or past the deadline.  `polls` are the answers of
      successive peeks and `clock` the monotonic instants read after them. */
  method WaitForEntry(polls: nat -> Option<Entry>, clock: nat -> int, start: int, timeoutMs: Option<nat>)
    returns (r: Option<Entry>, n: nat)
    requires forall i: nat :: clock(i) < clock(i + 1)
    ensures r == polls(n)
    ensures forall i | 0 <= i < n :: polls(i).None? && clock(i) < start + timeoutMs.GetOr(10_000)
    ensures r.None? ==> clock(n) >= start + timeoutMs.GetOr(10_000)
  {
    var deadline := start + timeoutMs.GetOr(10_000);
    n := 0;
    while true
      invariant forall i | 0 <= i < n :: polls(i).None? && clock(i) < deadline
      decreases deadline - clock(n)
    {
      r := polls(n);
      if r.Some? { return; }
      if clock(n) >= deadline { return; }
      n := n + 1;
    }
  }
}
