/** The audit trail of a media generation: one row with a status and a payload, changed by four service calls that each
    lock the row, by the reset that sends a clarified prompt through the workflow again, and by the statements of others
    that mark the job or clear the error. */
module AuditTrail {
  import opened Wrappers
  import opened Lifecycle

  /** Nanoseconds since the epoch. */
  type Time = int

  const SCHEMA_VERSION := "media_generation_orchestration_audit.v1"
  const HISTORY_LIMIT: nat := 50

  datatype Failure = Failure(code: string, retryable: bool)

  datatype Event =
    | Moved(from: Option<Status>, to: Status, at: Time, error: Option<Failure>)
    | AttemptFailed(status: Status, at: Time, failure: Failure)

  datatype Timing = Timing(
    queuedAt: Time, processingStartedAt: Option<Time>, lastTransitionAt: Time, completedAt: Option<Time>,
    totalDurationMs: Option<int>, statusDurationsMs: map<Status, int>)

  datatype Payload = Payload(
    schemaVersion: string, currentStatus: Status, timing: Timing, latestError: Option<Failure>, history: seq<Event>)

  datatype Row = Row(
    status: Status, generationStatus: Option<string>, errorCode: Option<string>, payload: Option<Payload>)

  datatype Outcome =
    | Saved(payload: Payload)
    | InvalidTransition(from: Status, to: Status)
    | AlreadyTerminal(status: Status)

  // ---------------------------------------------------------------- the helpers

  /** Whole milliseconds, rounded down. */
  function Millis(t: Time): int { t / 1_000_000 }

  /** The milliseconds between two instants, zero when the clock went back. */
  function Elapsed(from: Time, to: Time): nat {
    if Millis(to) < Millis(from) then 0 else Millis(to) - Millis(from)
  }

  function Created(now: Time): Event { Moved(None, Queued, now, None) }

  function BasePayload(now: Time): Payload {
    Payload(SCHEMA_VERSION, Queued, Timing(now, None, now, None, None, map[]), None, [Created(now)])
  }

  function Get(durations: map<Status, int>, s: Status): int {
    if s in durations then durations[s] else 0
  }

  function TransitionTiming(t: Timing, from: Status, to: Status, now: Time): Timing {
    t.(statusDurationsMs := t.statusDurationsMs[from := Get(t.statusDurationsMs, from) + Elapsed(t.lastTransitionAt, now)],
       processingStartedAt := if t.processingStartedAt.None? && !to.Queued? then Some(now) else t.processingStartedAt,
       completedAt := if IsTerminal(to) then Some(now) else t.completedAt,
       lastTransitionAt := now,
       totalDurationMs := Some(Elapsed(t.queuedAt, now)))
  }

  /** The last fifty of a list. */
  function Capped<T>(s: seq<T>): seq<T> {
    if |s| > HISTORY_LIMIT then s[|s| - HISTORY_LIMIT..] else s
  }

  predicate HasPayload(row: Row) {
    row.payload.Some? && row.payload.value.schemaVersion == SCHEMA_VERSION
  }

  function Current(row: Row, now: Time): Payload {
    if row.payload.Some? then row.payload.value else BasePayload(now)
  }

  // ---------------------------------------------------------------- the calls on values

  datatype Call =
    | Initialize
    | Transition(to: Status)
    | RecordAttemptFailure(failure: Failure)
    | MarkFailed(failure: Failure)
    | ResetForReprocessing
    | MarkJob(mark: string)                     // the job column: pending, processing, completed or failed
    | ClearError                                // a decision was stored

  datatype Timed = At(now: Time, call: Call)

  function AfterTransition(row: Row, to: Status, now: Time): Row {
    var p := Current(row, now);
    if row.status == to then
      row.(payload := Some(p.(currentStatus := to, latestError := None)), errorCode := None)
    else if !CanTransition(row.status, to) then
      row
    else
      row.(status := to, errorCode := None, payload := Some(p.(
        timing := TransitionTiming(p.timing, row.status, to, now),
        currentStatus := to,
        latestError := None,
        history := Capped(p.history + [Moved(Some(row.status), to, now, None)]))))
  }

  function AfterAttemptFailure(row: Row, failure: Failure, now: Time): Row {
    var p := Current(row, now);
    row.(payload := Some(p.(
      latestError := Some(failure),
      timing := p.timing.(totalDurationMs := Some(Elapsed(p.timing.queuedAt, now))),
      history := Capped(p.history + [AttemptFailed(p.currentStatus, now, failure)]))))
  }

  function AfterMarkFailed(row: Row, failure: Failure, now: Time): Row {
    if row.status.Completed? || row.status.Cancelled? then
      row
    else
      var p := Current(row, now);
      var q := if row.status.Failed? then p else p.(
        timing := TransitionTiming(p.timing, row.status, Failed, now),
        history := Capped(p.history + [Moved(Some(row.status), Failed, now, Some(failure))]));
      Row(Failed, Some("failed"), Some(failure.code), Some(q.(currentStatus := Failed, latestError := Some(failure))))
  }

  function After(row: Row, t: Timed): Row {
    match t.call
    case Initialize => if HasPayload(row) then row else row.(payload := Some(BasePayload(t.now)))
    case Transition(to) => AfterTransition(row, to, t.now)
    case RecordAttemptFailure(failure) => AfterAttemptFailure(row, failure, t.now)
    case MarkFailed(failure) => AfterMarkFailed(row, failure, t.now)
    case ResetForReprocessing => Row(Queued, None, None, None)
    case MarkJob(mark) => row.(generationStatus := Some(mark))
    case ClearError => row.(errorCode := None)
  }

  function OutcomeOf(row: Row, t: Timed): Outcome {
    if t.call.Transition? && row.status != t.call.to && !CanTransition(row.status, t.call.to) then
      InvalidTransition(row.status, t.call.to)
    else if t.call.MarkFailed? && (row.status.Completed? || row.status.Cancelled?) then
      AlreadyTerminal(row.status)
    else
      Saved(Current(After(row, t), t.now))
  }

  // ---------------------------------------------------------------- the unbounded log

  /** The log that a call leaves when nothing is ever dropped. It starts over with the payload. */
  function NextLog(row: Row, log: seq<Event>, t: Timed): seq<Event> {
    var started := if row.payload.None? then [Created(t.now)] else log;
    match t.call
    case Initialize => if HasPayload(row) then log else [Created(t.now)]
    case Transition(to) =>
      if row.status == to then started
      else if CanTransition(row.status, to) then started + [Moved(Some(row.status), to, t.now, None)]
      else log
    case RecordAttemptFailure(failure) => started + [AttemptFailed(Current(row, t.now).currentStatus, t.now, failure)]
    case MarkFailed(failure) =>
      if row.status.Completed? || row.status.Cancelled? then log
      else if row.status.Failed? then started
      else started + [Moved(Some(row.status), Failed, t.now, Some(failure))]
    case ResetForReprocessing => []
    case _ => log
  }

  /** The row of a generation that has just been submitted. */
  const SUBMITTED := Row(Queued, None, None, None)

  /** The row after some calls, each of them one locked transaction, in the order in which they got the lock. */
  function Run(calls: seq<Timed>): Row {
    if |calls| == 0 then SUBMITTED else After(Run(calls[..|calls| - 1]), calls[|calls| - 1])
  }

  function Log(calls: seq<Timed>): seq<Event> {
    if |calls| == 0 then []
    else NextLog(Run(calls[..|calls| - 1]), Log(calls[..|calls| - 1]), calls[|calls| - 1])
  }

  // ---------------------------------------------------------------- what a log says

  /** The status changes of a log. */
  function Moves(log: seq<Event>): (r: seq<Event>)
    ensures forall e | e in r :: e.Moved?
  {
    if |log| == 0 then []
    else Moves(log[..|log| - 1]) + if log[|log| - 1].Moved? then [log[|log| - 1]] else []
  }

  predicate AllMoves(moves: seq<Event>) { forall e | e in moves :: e.Moved? }

  /** The statuses a generation went through. */
  function Visited(moves: seq<Event>): (p: seq<Status>)
    requires AllMoves(moves)
    ensures |p| == |moves|
    ensures forall i | 0 <= i < |moves| :: p[i] == moves[i].to
  {
    seq(|moves|, i requires 0 <= i < |moves| => moves[i].to)
  }

  /** The moves start with the creation, each one starts where the one before it ended, and each one is allowed. */
  predicate Unbroken(moves: seq<Event>) {
    && AllMoves(moves)
    && |moves| > 0
    && moves[0].from == None && moves[0].to == Queued
    && (forall i | 0 < i < |moves| :: moves[i].from == Some(moves[i - 1].to))
    && IsPath(Visited(moves))
  }

  /** How long the moves say the generation stayed in a status before it left it. */
  function TimeIn(moves: seq<Event>, s: Status): nat
    requires AllMoves(moves)
  {
    if |moves| < 2 then 0
    else
      var e, d := moves[|moves| - 1], moves[|moves| - 2];
      TimeIn(moves[..|moves| - 1], s) + if d.to == s then Elapsed(d.at, e.at) else 0
  }

  /** The payload tells what the log tells. */
  predicate TimingReads(timing: Timing, moves: seq<Event>, log: seq<Event>)
    requires AllMoves(moves) && |moves| > 0 && |log| > 0
  {
    var last := moves[|moves| - 1];
    && timing.queuedAt == moves[0].at
    && timing.processingStartedAt == (if |moves| > 1 then Some(moves[1].at) else None)
    && timing.lastTransitionAt == last.at
    && timing.completedAt == (if IsTerminal(last.to) then Some(last.at) else None)
    && timing.totalDurationMs == (if |log| > 1 then Some(Elapsed(moves[0].at, log[|log| - 1].at)) else None)
    && forall s :: Get(timing.statusDurationsMs, s) == TimeIn(moves, s)
  }

  ghost predicate Reads(row: Row, log: seq<Event>) {
    if row.payload.None? then
      row.status.Queued? && log == []
    else
      var p, moves := row.payload.value, Moves(log);
      && |log| > 0
      && log[0].Moved?
      && p.schemaVersion == SCHEMA_VERSION
      && p.history == Capped(log)
      && Unbroken(moves)
      && p.currentStatus == row.status == moves[|moves| - 1].to
      && TimingReads(p.timing, moves, log)
  }

  lemma CappedAppend<T>(s: seq<T>, x: T)
    ensures Capped(Capped(s) + [x]) == Capped(s + [x])
  {
  }

  lemma MovesAppend(log: seq<Event>, e: Event)
    ensures Moves(log + [e]) == Moves(log) + if e.Moved? then [e] else []
  {
    assert (log + [e])[..|log|] == log;
  }

  lemma UnbrokenAppend(moves: seq<Event>, e: Event)
    requires Unbroken(moves) && e.Moved?
    requires e.from == Some(moves[|moves| - 1].to) && CanTransition(moves[|moves| - 1].to, e.to)
    ensures Unbroken(moves + [e])
  {
    var n := moves + [e];
    assert AllMoves(n);
    forall i | 0 < i < |n| ensures n[i].from == Some(n[i - 1].to) && CanTransition(Visited(n)[i - 1], Visited(n)[i]) {
      if i < |moves| { assert CanTransition(Visited(moves)[i - 1], Visited(moves)[i]); }
    }
  }

  /** The invariant survives the append of a status change. */
  lemma ReadsMove(row: Row, log: seq<Event>, to: Status, now: Time, error: Option<Failure>, row': Row)
    requires Reads(row, log) && row.payload.Some? && CanTransition(row.status, to)
    requires row'.status == to && row'.payload.Some?
    requires var p, p' := row.payload.value, row'.payload.value;
             var e := Moved(Some(row.status), to, now, error);
             && p'.schemaVersion == p.schemaVersion && p'.currentStatus == to
             && p'.history == Capped(p.history + [e])
             && p'.timing == TransitionTiming(p.timing, row.status, to, now)
    ensures Reads(row', log + [Moved(Some(row.status), to, now, error)])
  {
    var e := Moved(Some(row.status), to, now, error);
    var moves := Moves(log);
    MovesAppend(log, e);
    CappedAppend(log, e);
    UnbrokenAppend(moves, e);
    TimingAppend(row.payload.value.timing, moves, log, e);
  }

  lemma TimingAppend(timing: Timing, moves: seq<Event>, log: seq<Event>, e: Event)
    requires Unbroken(moves) && |log| > 0 && TimingReads(timing, moves, log)
    requires e.Moved? && CanTransition(moves[|moves| - 1].to, e.to)
    ensures AllMoves(moves + [e])
    ensures TimingReads(TransitionTiming(timing, moves[|moves| - 1].to, e.to, e.at), moves + [e], log + [e])
  {
    var n := moves + [e];
    assert n[..|moves|] == moves && n[|n| - 2] == moves[|moves| - 1];
    var from := moves[|moves| - 1].to;
    assert !IsTerminal(from);
    var timing' := TransitionTiming(timing, from, e.to, e.at);
    forall s ensures Get(timing'.statusDurationsMs, s) == TimeIn(n, s) {
      assert TimeIn(n, s) == TimeIn(moves, s) + if from == s then Elapsed(moves[|moves| - 1].at, e.at) else 0;
    }
  }

  lemma ReadsCreated(row: Row, now: Time)
    requires row.status.Queued? && row.payload == Some(BasePayload(now))
    ensures Reads(row, [Created(now)])
  {
    var log := [Created(now)];
    assert Moves(log[..0]) == [];
    assert Moves(log) == log;
    assert IsPath(Visited(log));
  }

  lemma ReadsFailedAttempt(row: Row, log: seq<Event>, failure: Failure, now: Time)
    requires Reads(row, log) && row.payload.Some?
    ensures Reads(AfterAttemptFailure(row, failure, now), log + [AttemptFailed(row.status, now, failure)])
  {
    var e := AttemptFailed(row.status, now, failure);
    MovesAppend(log, e);
    CappedAppend(log, e);
    assert Moves(log + [e]) == Moves(log);
  }

  /** A row without a payload behaves like the row that was initialised at the same instant. */
  lemma ReadsStarted(row: Row, log: seq<Event>, now: Time)
    requires Reads(row, log)
    ensures Reads(row.(payload := Some(Current(row, now))), if row.payload.None? then [Created(now)] else log)
  {
    if row.payload.None? { ReadsCreated(row.(payload := Some(Current(row, now))), now); }
  }

  function Started(row: Row, now: Time): Row {
    row.(payload := Some(Current(row, now)))
  }

  /** Only the status and the payload matter. */
  lemma ReadsOtherColumns(row: Row, row': Row, log: seq<Event>)
    requires Reads(row, log) && row'.status == row.status && row'.payload == row.payload
    ensures Reads(row', log)
  {
  }

  /** A transition to the status itself, or one that is refused. */
  lemma ReadsSameStatus(row: Row, log: seq<Event>, to: Status, now: Time)
    requires Reads(row, log) && row.payload.Some? && (row.status == to || !CanTransition(row.status, to))
    ensures Reads(AfterTransition(row, to, now), log)
  {
  }

  lemma TransitionKeepsReads(row: Row, log: seq<Event>, to: Status, now: Time)
    requires Reads(row, log)
    ensures Reads(AfterTransition(row, to, now), NextLog(row, log, At(now, Transition(to))))
  {
    var log' := if row.payload.None? then [Created(now)] else log;
    hide Reads, TransitionTiming, BasePayload, Capped;
    ReadsStarted(row, log, now);
    if row.status != to && CanTransition(row.status, to) {
      ReadsMove(Started(row, now), log', to, now, None, AfterTransition(row, to, now));
    } else if row.status == to {
      ReadsSameStatus(Started(row, now), log', to, now);
    }
  }

  lemma FailureKeepsReads(row: Row, log: seq<Event>, failure: Failure, now: Time)
    requires Reads(row, log)
    ensures Reads(AfterMarkFailed(row, failure, now), NextLog(row, log, At(now, MarkFailed(failure))))
  {
    var log' := if row.payload.None? then [Created(now)] else log;
    ReadsStarted(row, log, now);
    if !IsTerminal(row.status) {
      hide Reads, TransitionTiming, BasePayload, Capped;
      ReadsMove(Started(row, now), log', Failed, now, Some(failure), AfterMarkFailed(row, failure, now));
    }
  }

  lemma InitializeKeepsReads(row: Row, log: seq<Event>, now: Time)
    requires Reads(row, log)
    ensures Reads(After(row, At(now, Initialize)), NextLog(row, log, At(now, Initialize)))
  {
    ReadsStarted(row, log, now);
  }

  lemma AttemptKeepsReads(row: Row, log: seq<Event>, failure: Failure, now: Time)
    requires Reads(row, log)
    ensures Reads(AfterAttemptFailure(row, failure, now), NextLog(row, log, At(now, RecordAttemptFailure(failure))))
  {
    var log' := if row.payload.None? then [Created(now)] else log;
    ReadsStarted(row, log, now);
    StatusOfPayload(Started(row, now), log');
    hide Reads, BasePayload, Capped;
    ReadsFailedAttempt(Started(row, now), log', failure, now);
  }

  lemma StatusOfPayload(row: Row, log: seq<Event>)
    requires Reads(row, log) && row.payload.Some?
    ensures row.payload.value.currentStatus == row.status
  {
  }

  lemma ResetReads()
    ensures Reads(SUBMITTED, [])
  {
  }

  lemma CallKeepsReads(row: Row, log: seq<Event>, t: Timed)
    requires Reads(row, log)
    ensures Reads(After(row, t), NextLog(row, log, t))
  {
    hide Reads, AfterTransition, AfterAttemptFailure, AfterMarkFailed;
    match t.call
    case Initialize => InitializeKeepsReads(row, log, t.now);
    case Transition(to) => TransitionKeepsReads(row, log, to, t.now);
    case RecordAttemptFailure(failure) => AttemptKeepsReads(row, log, failure, t.now);
    case MarkFailed(failure) => FailureKeepsReads(row, log, failure, t.now);
    case ResetForReprocessing => ResetReads();
    case MarkJob(_) => ReadsOtherColumns(row, After(row, t), log);
    case ClearError => ReadsOtherColumns(row, After(row, t), log);
  }

  lemma {:induction false} EveryRunReads(calls: seq<Timed>)
    ensures Reads(Run(calls), Log(calls))
  {
    if |calls| > 0 {
      EveryRunReads(calls[..|calls| - 1]);
      CallKeepsReads(Run(calls[..|calls| - 1]), Log(calls[..|calls| - 1]), calls[|calls| - 1]);
    }
  }

  // ---------------------------------------------------------------- every run

  /** These are the last ones of a list: all of them, or fifty. */
  predicate LastFifty<T(==)>(last: seq<T>, all: seq<T>) {
    && |last| == (if |all| < 50 then |all| else 50)
    && forall k | 0 <= k < |last| :: last[k] == all[|all| - |last| + k]
  }

  /** The stored history is the last fifty events of the unbounded log; the log's status changes are one unbroken
      lifecycle path from queued, at most seven of them, that ends in the status of both payload and row. */
  lemma HistoryRefinesLog(calls: seq<Timed>)
    ensures var row, log := Run(calls), Log(calls);
      if row.payload.None? then log == [] && row.status.Queued?
      else
        && LastFifty(row.payload.value.history, log)
        && Unbroken(Moves(log))
        && |Moves(log)| <= 7
        && Moves(log)[|Moves(log)| - 1].to == row.status == row.payload.value.currentStatus
  {
    EveryRunReads(calls);
    if Run(calls).payload.Some? { PathsAreShort(Visited(Moves(Log(calls)))); }
  }

  /** Every time in the payload can be read off the log: when it was queued, started, last moved and completed, how long
      it stayed in each status, and the total as of the latest event. */
  lemma TimingRefinesLog(calls: seq<Timed>)
    requires Run(calls).payload.Some?
    ensures AllMoves(Moves(Log(calls))) && |Moves(Log(calls))| > 0 && |Log(calls)| > 0
    ensures TimingReads(Run(calls).payload.value.timing, Moves(Log(calls)), Log(calls))
  {
    EveryRunReads(calls);
  }

  /** The durations of all nine statuses together. */
  function Total(durations: map<Status, int>): int {
    Get(durations, Queued) + Get(durations, Interpreting) + Get(durations, Classified) + Get(durations, Generating)
    + Get(durations, Uploading) + Get(durations, Publishing) + Get(durations, Completed) + Get(durations, Failed)
    + Get(durations, Cancelled)
  }

  /** By how many milliseconds the clock went back between one status change and the next. */
  function Rewound(moves: seq<Event>): nat {
    if |moves| < 2 then 0
    else Rewound(moves[..|moves| - 1]) + Elapsed(moves[|moves| - 1].at, moves[|moves| - 2].at)
  }

  predicate ClockNeverBack(moves: seq<Event>) {
    forall i | 0 < i < |moves| :: moves[i - 1].at <= moves[i].at
  }

  function AllTimes(moves: seq<Event>): nat
    requires AllMoves(moves)
  {
    TimeIn(moves, Queued) + TimeIn(moves, Interpreting) + TimeIn(moves, Classified) + TimeIn(moves, Generating)
    + TimeIn(moves, Uploading) + TimeIn(moves, Publishing) + TimeIn(moves, Completed) + TimeIn(moves, Failed)
    + TimeIn(moves, Cancelled)
  }

  lemma {:induction false} TimesTelescope(moves: seq<Event>)
    requires AllMoves(moves) && |moves| > 0
    ensures AllTimes(moves) == Millis(moves[|moves| - 1].at) - Millis(moves[0].at) + Rewound(moves)
    ensures ClockNeverBack(moves) ==> Rewound(moves) == 0
  {
    if |moves| > 1 {
      var rest := moves[..|moves| - 1];
      TimesTelescope(rest);
      AllTimesStep(moves);
    }
  }

  lemma AllTimesStep(moves: seq<Event>)
    requires AllMoves(moves) && |moves| > 1
    ensures AllMoves(moves[..|moves| - 1])
    ensures AllTimes(moves)
         == AllTimes(moves[..|moves| - 1]) + Elapsed(moves[|moves| - 2].at, moves[|moves| - 1].at)
  {
    var s := moves[|moves| - 2].to;
    match s
    case Queued => case Interpreting => case Classified => case Generating => case Uploading =>
    case Publishing => case Completed => case Failed => case Cancelled =>
  }

  /** Conservation of time, whatever the clock does: the durations add up to the time from queueing to the latest
      status change plus every millisecond the clock went back, so never to less, and with a clock that never goes back
      to exactly that: the span in nanoseconds, to within one millisecond. */
  lemma DurationsConserveTime(calls: seq<Timed>)
    requires Run(calls).payload.Some?
    ensures var t, moves := Run(calls).payload.value.timing, Moves(Log(calls));
      && Total(t.statusDurationsMs) == Millis(t.lastTransitionAt) - Millis(t.queuedAt) + Rewound(moves)
      && Total(t.statusDurationsMs) >= Millis(t.lastTransitionAt) - Millis(t.queuedAt)
      && (ClockNeverBack(moves) ==>
            && Total(t.statusDurationsMs) == Elapsed(t.queuedAt, t.lastTransitionAt)
            && WithinOne(Total(t.statusDurationsMs), t.lastTransitionAt - t.queuedAt))
  {
    EveryRunReads(calls);
    var t, moves := Run(calls).payload.value.timing, Moves(Log(calls));
    TimingConserves(t, moves, Log(calls));
  }

  /** So many milliseconds are so many nanoseconds, to within one millisecond. */
  predicate WithinOne(ms: int, ns: int) {
    (ms - 1) * 1_000_000 < ns < (ms + 1) * 1_000_000
  }

  /** Milliseconds between two instants are that many, to within one, and none when the clock went back. */
  lemma ElapsedIsTime(from: Time, to: Time)
    ensures from <= to ==> WithinOne(Elapsed(from, to), to - from)
    ensures to <= from ==> Elapsed(from, to) == 0
  {
  }

  lemma TimingConserves(t: Timing, moves: seq<Event>, log: seq<Event>)
    requires AllMoves(moves) && |moves| > 0 && |log| > 0 && TimingReads(t, moves, log)
    ensures Total(t.statusDurationsMs) == Millis(t.lastTransitionAt) - Millis(t.queuedAt) + Rewound(moves)
    ensures ClockNeverBack(moves) ==>
      && Total(t.statusDurationsMs) == Elapsed(t.queuedAt, t.lastTransitionAt)
      && WithinOne(Total(t.statusDurationsMs), t.lastTransitionAt - t.queuedAt)
  {
    TimesTelescope(moves);
    assert Total(t.statusDurationsMs) == AllTimes(moves);
    assert t.queuedAt == moves[0].at && t.lastTransitionAt == moves[|moves| - 1].at;
    hide Total, AllTimes, TimingReads, TimeIn, WithinOne, Elapsed;
    if ClockNeverBack(moves) {
      assert Rewound(moves) == 0;
      NeverBackOverall(moves);
      SpanIs(t.queuedAt, t.lastTransitionAt, Total(t.statusDurationsMs));
    }
  }

  lemma {:induction false} NeverBackOverall(moves: seq<Event>)
    requires ClockNeverBack(moves) && |moves| > 0
    ensures moves[0].at <= moves[|moves| - 1].at
  {
    if |moves| > 1 { NeverBackOverall(moves[..|moves| - 1]); }
  }

  lemma SpanIs(from: Time, to: Time, ms: int)
    requires from <= to && ms == Millis(to) - Millis(from)
    ensures ms == Elapsed(from, to) && WithinOne(ms, to - from)
  {
    ElapsedIsTime(from, to);
  }

  /** The completion stamp is there exactly in a terminal status and is the latest status change; and when the latest
      event is the one that ended the generation, and the clock never went back, the durations, the span from queueing
      to completion, and the stored total are the same number. */
  lemma CompletionConservesTime(calls: seq<Timed>)
    requires Run(calls).payload.Some?
    ensures var t, log := Run(calls).payload.value.timing, Log(calls);
      && |log| > 0
      && (t.completedAt.Some? <==> IsTerminal(Run(calls).status))
      && (t.completedAt.Some? ==> t.completedAt == Some(t.lastTransitionAt))
      && (IsTerminal(Run(calls).status) && log[|log| - 1].Moved? && ClockNeverBack(Moves(log)) ==>
            Total(t.statusDurationsMs) == Elapsed(t.queuedAt, t.completedAt.value)
            && t.totalDurationMs == Some(Total(t.statusDurationsMs)))
  {
    EveryRunReads(calls);
    DurationsConserveTime(calls);
    var log := Log(calls);
    if log[|log| - 1].Moved? { LastMove(log); }
  }

  lemma LastMove(log: seq<Event>)
    requires |log| > 0 && log[|log| - 1].Moved?
    ensures var moves := Moves(log); |moves| > 0 && moves[|moves| - 1] == log[|log| - 1]
    ensures |log| == 1 ==> Moves(log) == log
  {
    assert log == log[..|log| - 1] + [log[|log| - 1]];
    assert |log| == 1 ==> log[..0] == [];
  }

  // ---------------------------------------------------------------- no regression under races

  /** The rest of a run from any row. */
  function Continue(row: Row, calls: seq<Timed>): Row {
    if |calls| == 0 then row else After(Continue(row, calls[..|calls| - 1]), calls[|calls| - 1])
  }

  predicate NoReset(calls: seq<Timed>) {
    forall t | t in calls :: !t.call.ResetForReprocessing?
  }

  lemma OneCallForward(row: Row, t: Timed)
    requires !t.call.ResetForReprocessing?
    ensures After(row, t).status == row.status || CanTransition(row.status, After(row, t).status)
    ensures IsTerminal(row.status) && HasPayload(row) ==>
      && HasPayload(After(row, t))
      && After(row, t).payload.value.timing.completedAt == row.payload.value.timing.completedAt
  {
  }

  /** Whatever calls get in between an unlocked read of the status and a later locked call, from any row at all: the
      status only moves along the lifecycle, so the order never goes down, a terminal status never changes, and a
      payload that was stamped completed keeps its stamp. */
  lemma {:induction false} NoRegression(row: Row, calls: seq<Timed>)
    requires NoReset(calls)
    ensures Reaches(row.status, Continue(row, calls).status)
    ensures OrderIndex(row.status) <= OrderIndex(Continue(row, calls).status)
    ensures IsTerminal(row.status) ==> Continue(row, calls).status == row.status
    ensures IsTerminal(row.status) && HasPayload(row) ==>
      && HasPayload(Continue(row, calls))
      && Continue(row, calls).payload.value.timing.completedAt == row.payload.value.timing.completedAt
  {
    hide Reaches;
    ReachesExactly(row.status, Continue(row, calls).status);
    if |calls| > 0 {
      var before := calls[..|calls| - 1];
      assert NoReset(before) by {
        forall t | t in before ensures !t.call.ResetForReprocessing? { assert t in calls; }
      }
      NoRegression(row, before);
      ReachesExactly(row.status, Continue(row, before).status);
      assert calls[|calls| - 1] in calls;
      OneCallForward(Continue(row, before), calls[|calls| - 1]);
    }
  }

  /** A check-then-act on the status is harmless: after a read that found the status before a checkpoint, and any calls
      in between, the transition to the checkpoint either makes an allowed move, or finds the checkpoint reached, or is
      refused and changes nothing. */
  lemma StaleCheckIsHarmless(row: Row, between: seq<Timed>, checkpoint: Status, now: Time)
    requires NoReset(between) && StatusBefore(row.status, checkpoint)
    ensures var locked := Continue(row, between); var t := At(now, Transition(checkpoint));
      && OrderIndex(row.status) <= OrderIndex(After(locked, t).status)
      && (if locked.status == checkpoint || CanTransition(locked.status, checkpoint)
          then OutcomeOf(locked, t).Saved? && After(locked, t).status == checkpoint
          else OutcomeOf(locked, t).InvalidTransition? && After(locked, t) == locked)
  {
    NoRegression(row, between);
  }

  // ---------------------------------------------------------------- what nothing reaches

  predicate Asks(calls: seq<Timed>, to: Status) {
    exists t :: t in calls && t.call == Transition(to)
  }

  /** Uploading, publishing and completed can only be reached through a transition call that asks for uploading, and
      cancelled only through one that asks for cancelled. */
  lemma {:induction false} OnlyAskedFor(calls: seq<Timed>)
    ensures Run(calls).status in {Uploading, Publishing, Completed} ==> Asks(calls, Uploading)
    ensures Run(calls).status.Cancelled? ==> Asks(calls, Cancelled)
  {
    if |calls| > 0 {
      var before, t := calls[..|calls| - 1], calls[|calls| - 1];
      OnlyAskedFor(before);
      assert t in calls;
      assert forall u | u in before :: u in calls;
    }
  }

  // ---------------------------------------------------------------- errors

  ghost predicate ErrorAgrees(row: Row) {
    row.errorCode.Some? ==> row.status.Failed? && row.payload.Some? && row.payload.value.latestError.Some?
  }

  /** The row carries an error code only while it is failed, and its payload then carries an error too; a transition that
      is saved clears both. */
  lemma {:induction false} ErrorsOnlyOnFailed(calls: seq<Timed>)
    ensures ErrorAgrees(Run(calls))
    ensures |calls| > 0 && calls[|calls| - 1].call.Transition?
            && OutcomeOf(Run(calls[..|calls| - 1]), calls[|calls| - 1]).Saved?
            ==> Run(calls).errorCode.None? && Run(calls).payload.Some? && Run(calls).payload.value.latestError.None?
  {
    if |calls| > 0 {
      var before := calls[..|calls| - 1];
      ErrorsOnlyOnFailed(before);
      EveryRunReads(before);
      ErrorStep(Run(before), Log(before), calls[|calls| - 1]);
    }
  }

  lemma ErrorStep(row: Row, log: seq<Event>, t: Timed)
    requires Reads(row, log) && ErrorAgrees(row)
    ensures ErrorAgrees(After(row, t))
    ensures t.call.Transition? && OutcomeOf(row, t).Saved? ==> var row' := After(row, t);
      row'.errorCode.None? && row'.payload.Some? && row'.payload.value.latestError.None?
  {
  }

  // ---------------------------------------------------------------- who wrote what

  /** Marking failed is refused on a completed or cancelled generation. */
  predicate Refused(row: Row) {
    row.status.Completed? || row.status.Cancelled?
  }

  /** A transition is saved when it is allowed, or has been made before. */
  predicate Allowed(row: Row, to: Status) {
    row.status == to || CanTransition(row.status, to)
  }

  function LatestError(row: Row): Option<Failure> {
    if row.payload.Some? then row.payload.value.latestError else None
  }

  /** What a call writes to the job column of a row, if it writes it at all. */
  function Mark(row: Row, call: Call): Option<Option<string>> {
    match call
    case MarkFailed(_) => if Refused(row) then None else Some(Some("failed"))
    case MarkJob(mark) => Some(Some(mark))
    case ResetForReprocessing => Some(None)
    case _ => None
  }

  /** What a call writes to the error code of a row, if it writes it at all. */
  function Code(row: Row, call: Call): Option<Option<string>> {
    match call
    case MarkFailed(failure) => if Refused(row) then None else Some(Some(failure.code))
    case Transition(to) => if Allowed(row, to) then Some(None) else None
    case ResetForReprocessing => Some(None)
    case ClearError => Some(None)
    case _ => None
  }

  /** What a call writes to the latest error of the payload, if it writes it at all. */
  function Error(row: Row, call: Call): Option<Option<Failure>> {
    match call
    case MarkFailed(failure) => if Refused(row) then None else Some(Some(failure))
    case RecordAttemptFailure(failure) => Some(Some(failure))
    case Transition(to) => if Allowed(row, to) then Some(None) else None
    case Initialize => if HasPayload(row) then None else Some(None)
    case ResetForReprocessing => Some(None)
    case _ => None
  }

  lemma Written(row: Row, t: Timed)
    ensures After(row, t).generationStatus == Mark(row, t.call).GetOr(row.generationStatus)
    ensures After(row, t).errorCode == Code(row, t.call).GetOr(row.errorCode)
    ensures LatestError(After(row, t)) == Error(row, t.call).GetOr(LatestError(row))
  {
  }

  /** The call at a place of a run is the latest one that wrote a column. */
  ghost predicate LastWrite<T>(write: (Row, Call) -> Option<T>, calls: seq<Timed>, i: nat) {
    && i < |calls|
    && write(Run(calls[..i]), calls[i].call).Some?
    && forall j | i < j < |calls| :: write(Run(calls[..j]), calls[j].call).None?
  }

  ghost predicate Unwritten<T>(write: (Row, Call) -> Option<T>, calls: seq<Timed>) {
    forall j | 0 <= j < |calls| :: write(Run(calls[..j]), calls[j].call).None?
  }

  lemma WritesLater<T>(write: (Row, Call) -> Option<T>, calls: seq<Timed>)
    requires |calls| > 0 && write(Run(calls[..|calls| - 1]), calls[|calls| - 1].call).None?
    ensures Unwritten(write, calls[..|calls| - 1]) ==> Unwritten(write, calls)
    ensures forall i: nat | LastWrite(write, calls[..|calls| - 1], i) ::
              LastWrite(write, calls, i) && calls[..|calls| - 1][..i] == calls[..i]
  {
    hide Run;
    var before := calls[..|calls| - 1];
    assert forall j: nat | j < |before| :: before[..j] == calls[..j] && before[j] == calls[j];
  }

  /** A column holds what the latest call that wrote it wrote, and what a submitted row holds when there was none. */
  lemma {:induction false} LatestWrite<T>(write: (Row, Call) -> Option<T>, read: Row -> T, calls: seq<Timed>)
    returns (i: Option<nat>)
    requires forall row, t :: read(After(row, t)) == write(row, t.call).GetOr(read(row))
    ensures i.Some? ==>
      && LastWrite(write, calls, i.value)
      && write(Run(calls[..i.value]), calls[i.value].call) == Some(read(Run(calls)))
    ensures i.None? ==> Unwritten(write, calls) && read(Run(calls)) == read(SUBMITTED)
  {
    if |calls| == 0 { return None; }
    var before, t := calls[..|calls| - 1], calls[|calls| - 1];
    hide After;
    if write(Run(before), t.call).Some? {
      i := Some(|calls| - 1);
    } else {
      WritesLater(write, calls);
      i := LatestWrite(write, read, before);
    }
  }

  lemma OneLastWrite<T>(write: (Row, Call) -> Option<T>, calls: seq<Timed>, i: nat, j: nat)
    requires LastWrite(write, calls, i) && LastWrite(write, calls, j)
    ensures i == j
  {
  }

  /** So a column holds something exactly when the latest call that wrote it wrote that. */
  lemma WrittenExactly<T>(write: (Row, Call) -> Option<Option<T>>, read: Row -> Option<T>, calls: seq<Timed>, value: T)
    requires forall row, t :: read(After(row, t)) == write(row, t.call).GetOr(read(row))
    requires read(SUBMITTED).None?
    ensures read(Run(calls)) == Some(value) <==>
      exists i: nat :: LastWrite(write, calls, i) && write(Run(calls[..i]), calls[i].call) == Some(Some(value))
  {
    hide After, Run;
    var i := LatestWrite(write, read, calls);
    if j: nat :| LastWrite(write, calls, j) && write(Run(calls[..j]), calls[j].call) == Some(Some(value)) {
      if i.Some? { OneLastWrite(write, calls, i.value, j); } else { WroteSomething(write, calls, j); }
    }
  }

  lemma WroteSomething<T>(write: (Row, Call) -> Option<T>, calls: seq<Timed>, i: nat)
    requires LastWrite(write, calls, i)
    ensures !Unwritten(write, calls)
  {
  }

  /** The error code of the row is there exactly when the latest call that wrote or cleared it marked the generation failed
      with that code: a saved transition, a reset and a stored decision clear it. */
  lemma ErrorCodeExactly(calls: seq<Timed>, code: string)
    ensures Run(calls).errorCode == Some(code) <==>
      exists i: nat :: LastWrite(Code, calls, i) && calls[i].call.MarkFailed? && calls[i].call.failure.code == code
  {
    hide After, Run;
    forall row, t ensures After(row, t).errorCode == Code(row, t.call).GetOr(row.errorCode) { Written(row, t); }
    WrittenExactly(Code, (row: Row) => row.errorCode, calls, code);
    assert forall i: nat | LastWrite(Code, calls, i) ::
      Code(Run(calls[..i]), calls[i].call) == Some(Some(code))
      <==> calls[i].call.MarkFailed? && calls[i].call.failure.code == code;
  }

  /** The payload tells an error exactly when the latest call that wrote or cleared it failed with that error: the marking
      as failed, or an attempt. */
  lemma LatestErrorExactly(calls: seq<Timed>, failure: Failure)
    ensures LatestError(Run(calls)) == Some(failure) <==>
      exists i: nat :: LastWrite(Error, calls, i)
        && (calls[i].call == MarkFailed(failure) || calls[i].call == RecordAttemptFailure(failure))
  {
    hide After, Run, LatestError;
    forall row, t ensures LatestError(After(row, t)) == Error(row, t.call).GetOr(LatestError(row)) { Written(row, t); }
    SubmittedWithoutError();
    WrittenExactly(Error, LatestError, calls, failure);
    assert forall i: nat | LastWrite(Error, calls, i) ::
      Error(Run(calls[..i]), calls[i].call) == Some(Some(failure))
      <==> calls[i].call == MarkFailed(failure) || calls[i].call == RecordAttemptFailure(failure);
  }

  lemma SubmittedWithoutError()
    ensures LatestError(SUBMITTED).None?
  {
  }

  ghost predicate MarkedFailed(calls: seq<Timed>, i: nat) {
    LastWrite(Mark, calls, i) && Mark(Run(calls[..i]), calls[i].call) == Some(Some("failed"))
  }

  /** A row carries the failed mark for the client exactly when the latest write of the job column was the failed one, by
      the service or by the renderer's callback. The service's mark means that the row is failed; with the callback's
      mark the status stays whatever it was. */
  lemma FailedMarkExactly(calls: seq<Timed>)
    ensures Run(calls).generationStatus == Some("failed") <==> exists i: nat :: MarkedFailed(calls, i)
    ensures forall i: nat | MarkedFailed(calls, i) && calls[i].call.MarkFailed? :: Run(calls).status.Failed?
  {
    forall row, t ensures After(row, t).generationStatus == Mark(row, t.call).GetOr(row.generationStatus) { Written(row, t); }
    WrittenExactly(Mark, (row: Row) => row.generationStatus, calls, "failed");
    assert forall i: nat :: MarkedFailed(calls, i) <==>
      LastWrite(Mark, calls, i) && Mark(Run(calls[..i]), calls[i].call) == Some(Some("failed"));
    forall i: nat | MarkedFailed(calls, i) && calls[i].call.MarkFailed? ensures Run(calls).status.Failed? {
      FailedStays(calls, i);
    }
  }

  lemma {:induction false} FailedStays(calls: seq<Timed>, i: nat)
    requires LastWrite(Mark, calls, i) && calls[i].call.MarkFailed?
    ensures Run(calls).status.Failed?
    decreases |calls|
  {
    var before := calls[..|calls| - 1];
    if i < |before| {
      assert forall j: nat | j < |before| :: before[..j] == calls[..j] && before[j] == calls[j];
      assert LastWrite(Mark, before, i);
      FailedStays(before, i);
      assert Mark(Run(before), calls[|calls| - 1].call).None?;
    }
  }

  // ---------------------------------------------------------------- what one call leaves

  /** A call is refused exactly when it asks for a move that is not allowed, or marks failed what has completed or was
      cancelled; a refused call changes nothing, and any other answers with the payload that it stored. */
  lemma OutcomeTells(calls: seq<Timed>, t: Timed)
    ensures var row, o := Run(calls), OutcomeOf(Run(calls), t); var row' := After(row, t);
      && (!o.Saved? <==> (t.call.Transition? && !Allowed(row, t.call.to)) || (t.call.MarkFailed? && Refused(row)))
      && (!o.Saved? ==> row' == row)
      && (o.Saved? && row'.payload.Some? ==> o.payload == row'.payload.value)
      && (o.InvalidTransition? ==> t.call == Transition(o.to) && o.from == row.status)
      && (o.AlreadyTerminal? ==> o.status == row.status)
  {
  }

  /** What a saved call leaves in the row: a transition the status that it asks for and no error; a failure its code and its
      error, with the status failed. The latest event tells a change of the status, and every failed attempt. */
  lemma CallTells(calls: seq<Timed>, t: Timed)
    requires OutcomeOf(Run(calls), t).Saved? && (t.call.Transition? || t.call.RecordAttemptFailure? || t.call.MarkFailed?)
    ensures var row, row' := Run(calls), After(Run(calls), t);
      && row'.payload.Some? && |row'.payload.value.history| > 0
      && var p := row'.payload.value; var last := p.history[|p.history| - 1];
      match t.call
      case Transition(to) =>
        && row'.status == p.currentStatus == to && row'.errorCode.None? && p.latestError.None?
        && (row.status != to ==> last == Moved(Some(row.status), to, t.now, None))
      case MarkFailed(failure) =>
        && row'.status == p.currentStatus == Failed && row'.errorCode == Some(failure.code) && p.latestError == Some(failure)
        && row'.generationStatus == Some("failed")
        && (row.status != Failed ==> last == Moved(Some(row.status), Failed, t.now, Some(failure)))
      case _ =>
        && row'.status == row.status && row'.errorCode == row.errorCode && p.latestError == Some(t.call.failure)
        && last == AttemptFailed(row.status, t.now, t.call.failure)
  {
    EveryRunReads(calls);
    CallKeepsReads(Run(calls), Log(calls), t);
    hide Run, Log, TransitionTiming, Moves;
  }

  /** A generation that the callback marks failed while it is generating: the client sees failed, the lifecycle does not. */
  lemma CallbackMarkLeavesTheStatus(now: Time)
    ensures exists calls ::
      && Run(calls).generationStatus == Some("failed") && Run(calls).status.Generating? && Run(calls).errorCode.None?
  {
    var c1 := RunOneMore([], At(now, Transition(Interpreting)));
    var c2 := RunOneMore(c1, At(now, Transition(Classified)));
    var c3 := RunOneMore(c2, At(now, Transition(Generating)));
    var c4 := RunOneMore(c3, At(now, MarkJob("processing")));
    var c5 := RunOneMore(c4, At(now, MarkJob("failed")));
  }

  lemma RunOneMore(calls: seq<Timed>, t: Timed) returns (longer: seq<Timed>)
    ensures longer == calls + [t] && Run(longer) == After(Run(calls), t)
  {
    longer := calls + [t];
    assert longer[..|calls|] == calls;
  }

  // ---------------------------------------------------------------- when initialising loses touch

  /** Initialising makes payload and row agree exactly when they agreed before, or when there was nothing usable stored
      and the row was still queued: over a row that has moved on it writes a payload that says queued. */
  lemma InitializeAgreesIff(row: Row, now: Time)
    ensures var row' := After(row, At(now, Initialize));
      HasPayload(row') && (row'.payload.value.currentStatus == row'.status
        <==> if HasPayload(row) then row.payload.value.currentStatus == row.status else row.status.Queued?)
  {
  }

  /** From such a row the log is no longer a lifecycle path. */
  lemma InitializeCanBreakTheLog(now: Time)
    ensures var row := Row(Interpreting, None, None, None);
      var row' := After(row, At(now, Initialize));
      var log' := NextLog(row', NextLog(row, [], At(now, Initialize)), At(now, Transition(Classified)));
      !Unbroken(Moves(log'))
  {
    var e := Moved(Some(Interpreting), Classified, now, None);
    MovesAppend([Created(now)], e);
    LastMove([Created(now)]);
    assert ([Created(now)] + [e])[1].from == Some(Interpreting);
    assert Moves([Created(now)] + [e]) == [Created(now)] + [e];
  }

  // ---------------------------------------------------------------- the service

  method Since(from: Time, now: Time) returns (ms: int)
    ensures ms == Elapsed(from, now)
  {
    ms := Millis(now) - Millis(from);
    if ms < 0 { ms := 0; }
  }

  method ApplyTransitionTiming(payload: Payload, from: Status, to: Status, now: Time) returns (r: Payload)
    ensures r == payload.(timing := TransitionTiming(payload.timing, from, to, now))
  {
    var timing := payload.timing;
    var duration := Since(timing.lastTransitionAt, now);
    var sofar := Get(timing.statusDurationsMs, from);
    timing := timing.(statusDurationsMs := timing.statusDurationsMs[from := sofar + duration]);
    if timing.processingStartedAt.None? && to != Queued {
      timing := timing.(processingStartedAt := Some(now));
    }
    var completedAt := timing.completedAt;
    if IsTerminal(to) { completedAt := Some(now); }
    var total := Since(timing.queuedAt, now);
    timing := timing.(lastTransitionAt := now, completedAt := completedAt, totalDurationMs := Some(total));
    return payload.(timing := timing);
  }

  method AppendHistory(payload: Payload, e: Event) returns (r: Payload)
    ensures r == payload.(history := Capped(payload.history + [e]))
  {
    var history := payload.history + [e];
    if |history| > HISTORY_LIMIT {
      history := history[|history| - HISTORY_LIMIT..];
    }
    return payload.(history := history);
  }

  /** The row, with the service calls as methods. Each method is one transaction that locks the row first; `now` is read
      before the lock, so the instants need not come in lock order. The log is what the history would be without a cap. */
  class Generation {
    var status: Status
    var generationStatus: Option<string>
    var errorCode: Option<string>
    var payload: Option<Payload>
    ghost var log: seq<Event>

    function Snapshot(): Row
      reads this
    {
      Row(status, generationStatus, errorCode, payload)
    }

    /** The payload tells what the log tells. */
    ghost predicate Valid()
      reads this
    {
      Reads(Snapshot(), log)
    }

    constructor Submit()
      ensures Snapshot() == SUBMITTED && log == [] && Valid()
    {
      status, generationStatus, errorCode, payload, log := Queued, None, None, None, [];
    }

    method Initialize(now: Time) returns (o: Outcome)
      modifies this
      ensures Snapshot() == After(old(Snapshot()), At(now, Call.Initialize))
      ensures log == NextLog(old(Snapshot()), old(log), At(now, Call.Initialize))
      ensures o == OutcomeOf(old(Snapshot()), At(now, Call.Initialize))
      ensures old(Valid()) ==> Valid()
    {
      hide Reads;
      ghost var row, past := Snapshot(), log;
      if payload.Some? && payload.value.schemaVersion == SCHEMA_VERSION {
        o := Saved(payload.value);
      } else {
        var base := BasePayload(now);
        payload := Some(base);
        o := Saved(base);
      }
      log := NextLog(row, past, At(now, Call.Initialize));
      if Reads(row, past) { CallKeepsReads(row, past, At(now, Call.Initialize)); }
    }

    method Transition(to: Status, now: Time) returns (o: Outcome)
      modifies this
      ensures Snapshot() == After(old(Snapshot()), At(now, Call.Transition(to)))
      ensures log == NextLog(old(Snapshot()), old(log), At(now, Call.Transition(to)))
      ensures o == OutcomeOf(old(Snapshot()), At(now, Call.Transition(to)))
      ensures old(Valid()) ==> Valid()
    {
      hide Reads;
      ghost var row, past := Snapshot(), log;
      var from := status;
      var current := if payload.Some? then payload.value else BasePayload(now);
      if from != to && !CanTransition(from, to) {
        o := InvalidTransition(from, to);
      } else {
        if from != to {
          current := ApplyTransitionTiming(current, from, to, now);
          current := AppendHistory(current, Moved(Some(from), to, now, None));
          status := to;
        }
        current := current.(currentStatus := to, latestError := None);
        payload := Some(current);
        errorCode := None;
        o := Saved(current);
      }
      log := NextLog(row, past, At(now, Call.Transition(to)));
      if Reads(row, past) { CallKeepsReads(row, past, At(now, Call.Transition(to))); }
    }

    method RecordAttemptFailure(failure: Failure, now: Time) returns (o: Outcome)
      modifies this
      ensures Snapshot() == After(old(Snapshot()), At(now, Call.RecordAttemptFailure(failure)))
      ensures log == NextLog(old(Snapshot()), old(log), At(now, Call.RecordAttemptFailure(failure)))
      ensures o == OutcomeOf(old(Snapshot()), At(now, Call.RecordAttemptFailure(failure)))
      ensures old(Valid()) ==> Valid()
    {
      hide Reads;
      ghost var row, past := Snapshot(), log;
      var current := if payload.Some? then payload.value else BasePayload(now);
      var total := Since(current.timing.queuedAt, now);
      current := current.(latestError := Some(failure), timing := current.timing.(totalDurationMs := Some(total)));
      current := AppendHistory(current, AttemptFailed(current.currentStatus, now, failure));
      payload := Some(current);
      o := Saved(current);
      log := NextLog(row, past, At(now, Call.RecordAttemptFailure(failure)));
      if Reads(row, past) { CallKeepsReads(row, past, At(now, Call.RecordAttemptFailure(failure))); }
    }

    method MarkFailed(failure: Failure, now: Time) returns (o: Outcome)
      modifies this
      ensures Snapshot() == After(old(Snapshot()), At(now, Call.MarkFailed(failure)))
      ensures log == NextLog(old(Snapshot()), old(log), At(now, Call.MarkFailed(failure)))
      ensures o == OutcomeOf(old(Snapshot()), At(now, Call.MarkFailed(failure)))
      ensures old(Valid()) ==> Valid()
    {
      hide Reads;
      ghost var row, past := Snapshot(), log;
      if status == Completed || status == Cancelled {
        o := AlreadyTerminal(status);
      } else {
        var current := if payload.Some? then payload.value else BasePayload(now);
        if status != Failed && CanTransition(status, Failed) {
          current := ApplyTransitionTiming(current, status, Failed, now);
          current := AppendHistory(current, Moved(Some(status), Failed, now, Some(failure)));
        }
        current := current.(currentStatus := Failed, latestError := Some(failure));
        status, generationStatus, errorCode, payload := Failed, Some("failed"), Some(failure.code), Some(current);
        o := Saved(current);
      }
      log := NextLog(row, past, At(now, Call.MarkFailed(failure)));
      if Reads(row, past) { CallKeepsReads(row, past, At(now, Call.MarkFailed(failure))); }
    }

    /** The job column, written by the workflow, the renderer's callback and the submission. */
    method MarkJob(mark: string, now: Time)
      modifies this
      ensures Snapshot() == After(old(Snapshot()), At(now, Call.MarkJob(mark)))
      ensures log == old(log)
      ensures old(Valid()) ==> Valid()
    {
      hide Reads;
      if Reads(Snapshot(), log) { CallKeepsReads(Snapshot(), log, At(now, Call.MarkJob(mark))); }
      generationStatus := Some(mark);
    }

    /** A stored decision clears the error of the row. */
    method ClearError(now: Time)
      modifies this
      ensures Snapshot() == After(old(Snapshot()), At(now, Call.ClearError))
      ensures log == old(log)
      ensures old(Valid()) ==> Valid()
    {
      hide Reads;
      if Reads(Snapshot(), log) { CallKeepsReads(Snapshot(), log, At(now, Call.ClearError)); }
      errorCode := None;
    }

    method ResetForReprocessing(now: Time)
      modifies this
      ensures Snapshot() == After(old(Snapshot()), At(now, Call.ResetForReprocessing)) && log == []
      ensures Valid()
    {
      status, generationStatus, errorCode, payload := Queued, None, None, None;
      log := [];
    }
  }
}
