/** The workflow of a generation: four checkpointed steps that read the status in one statement and write it in another,
    any of which may fail, and the worker that retries it. */
module Workflow {
  import opened Wrappers
  import opened Lifecycle
  import opened AuditTrail

  /** What can happen to a statement, a callback or a network call: it works, it fails without an effect, or it fails
      after its effect. A worker that dies shows as a failure of the statement it was about to run and of all after it. */
  datatype Fault = Fine | Lost | AnswerLost

  const MAX_TRIES: nat := 3

  /** The statuses of the main line after `from`, up to and including `to`. */
  function Between(from: Status, to: Status): seq<Status>
    requires Forward(from, to)
  {
    MainLine(from, to)[1..]
  }

  /** Where one uninterrupted run with a job id leaves a generation. */
  function Target(from: Status): Status {
    if StatusBefore(from, Generating) then Generating else from
  }

  /** The statuses that a log says the generation took, in order. */
  function Trail(log: seq<Event>): seq<Status> {
    Visited(Moves(log))
  }

  /** A move makes the way one longer. */
  lemma BetweenStep(from: Status, mid: Status, to: Status)
    requires Forward(from, mid) && CanTransition(mid, to) && OrderIndex(to) <= 6
    ensures Forward(from, to) && Between(from, to) == Between(from, mid) + [to]
  {
    MainLineStep(from, mid, to);
  }

  lemma TrailStep(log: seq<Event>, e: Event)
    requires e.Moved?
    ensures Trail(log + [e]) == Trail(log) + [e.to]
  {
    MovesAppend(log, e);
  }

  // ---------------------------------------------------------------- one run, on values

  /** From the status `from` and the trail `trail`, the generation went on along the main line and nowhere else, and every
      move of it is in the log once. */
  ghost predicate OnTrack(row: Row, log: seq<Event>, from: Status, trail: seq<Status>) {
    && Reads(row, log) && row.payload.Some?
    && Forward(from, row.status)
    && Trail(log) == trail + Between(from, row.status)
  }

  /** The same, or the audit trail was not even started. */
  ghost predicate OnTrackOrNew(row: Row, log: seq<Event>, from: Status, trail: seq<Status>) {
    if row.payload.None? then Reads(row, log) && from.Queued? && trail == [Queued] else OnTrack(row, log, from, trail)
  }

  lemma TrackIsTrackOrNew(row: Row, log: seq<Event>, from: Status, trail: seq<Status>)
    requires OnTrack(row, log, from, trail)
    ensures OnTrackOrNew(row, log, from, trail) && row.payload.Some?
  {
  }

  lemma OnTrackFacts(row: Row, log: seq<Event>, from: Status, trail: seq<Status>)
    requires OnTrackOrNew(row, log, from, trail)
    ensures Reads(row, log) && Forward(from, row.status)
    ensures row.payload.Some? ==> OnTrack(row, log, from, trail)
  {
  }

  /** What a transition call to a later checkpoint does to the trail of a row with a payload. */
  lemma CheckpointTrail(row: Row, log: seq<Event>, to: Status, now: Time, from: Status, trail: seq<Status>)
    requires row.payload.Some? && CanTransition(row.status, to) && OrderIndex(to) <= 6
    requires Forward(from, row.status) && Trail(log) == trail + Between(from, row.status)
    ensures Forward(from, to)
    ensures Trail(NextLog(row, log, At(now, Transition(to)))) == trail + Between(from, to)
  {
    var e := Moved(Some(row.status), to, now, None);
    assert NextLog(row, log, At(now, Transition(to))) == log + [e];
    hide *;
    TrailStep(log, e);
    BetweenStep(from, row.status, to);
    Regroup(trail, Between(from, row.status), to);
  }

  lemma Regroup<T>(a: seq<T>, b: seq<T>, x: T)
    ensures (a + b) + [x] == a + (b + [x])
  {
  }

  /** The call of a checkpoint: the move, if it is allowed, or nothing. */
  lemma CheckpointKeepsTrack(row: Row, log: seq<Event>, to: Status, now: Time, from: Status, trail: seq<Status>)
    requires OnTrack(row, log, from, trail) && StatusBefore(row.status, to) && OrderIndex(to) <= 6
    ensures var t := At(now, Transition(to));
      && OnTrack(After(row, t), NextLog(row, log, t), from, trail)
      && After(row, t).status == (if CanTransition(row.status, to) then to else row.status)
      && After(row, t).generationStatus == row.generationStatus
      && (OutcomeOf(row, t).Saved? <==> CanTransition(row.status, to))
  {
    hide Reads, Trail, Between;
    CallKeepsReads(row, log, At(now, Transition(to)));
    if CanTransition(row.status, to) { CheckpointTrail(row, log, to, now, from, trail); }
  }

  /** Marking the job and clearing the error leave the track alone. */
  lemma ColumnsKeepTrack(row: Row, log: seq<Event>, t: Timed, from: Status, trail: seq<Status>)
    requires OnTrack(row, log, from, trail) && (t.call.MarkJob? || t.call.ClearError?)
    ensures OnTrack(After(row, t), log, from, trail) && After(row, t).status == row.status
    ensures t.call.MarkJob? ==> After(row, t).generationStatus == Some(t.call.mark)
    ensures t.call.ClearError? ==> After(row, t).generationStatus == row.generationStatus
  {
    hide Reads, Trail, Between;
    CallKeepsReads(row, log, t);
  }

  lemma StartKeepsTrack(row: Row, log: seq<Event>, now: Time, from: Status, trail: seq<Status>)
    requires OnTrackOrNew(row, log, from, trail)
    ensures var t := At(now, Initialize);
      && OnTrack(After(row, t), NextLog(row, log, t), from, trail)
      && After(row, t).status == row.status && After(row, t).generationStatus == row.generationStatus
  {
    StartCall(row, log, now);
    if row.payload.None? {
      assert row.status.Queued?;
      assert Between(Queued, Queued) == [];
    }
  }

  lemma StartCall(row: Row, log: seq<Event>, now: Time)
    requires Reads(row, log)
    ensures var t := At(now, Initialize); var row' := After(row, t); var log' := NextLog(row, log, t);
      && Reads(row', log') && row'.payload.Some?
      && row'.status == row.status && row'.generationStatus == row.generationStatus
      && Trail(log') == if row.payload.Some? then Trail(log) else [Queued]
  {
    CallKeepsReads(row, log, At(now, Initialize));
    if row.payload.None? { CreatedTrail(now); }
  }

  lemma CreatedTrail(now: Time)
    ensures Trail([Created(now)]) == MAIN_LINE[..1] == [Queued]
  {
    LastMove([Created(now)]);
  }

  /** What marking failed does to the trail. */
  lemma FailedTrail(row: Row, log: seq<Event>, failure: Failure, now: Time)
    requires !IsTerminal(row.status)
    ensures var log' := NextLog(row, log, At(now, MarkFailed(failure)));
      Trail(log') == (if row.payload.Some? then Trail(log) else [Queued]) + [Failed]
  {
    var started := if row.payload.None? then [Created(now)] else log;
    TrailStep(started, Moved(Some(row.status), Failed, now, Some(failure)));
    CreatedTrail(now);
  }

  /** Marking failed after some of the way. */
  lemma FailureEndsTrack(row: Row, log: seq<Event>, failure: Failure, now: Time, from: Status, trail: seq<Status>)
    requires OnTrackOrNew(row, log, from, trail) && Forward(from, row.status)
    ensures var t := At(now, MarkFailed(failure));
      && Reads(After(row, t), NextLog(row, log, t))
      && (IsTerminal(row.status) ==> After(row, t).status == row.status)
      && (!IsTerminal(row.status) ==>
            && After(row, t).status.Failed? && After(row, t).generationStatus == Some("failed")
            && Trail(NextLog(row, log, t)) == trail + Between(from, row.status) + [Failed])
  {
    hide Reads, Trail, Between, OnTrackOrNew, After, NextLog;
    TrailSoFar(row, log, from, trail);
    OnTrackFacts(row, log, from, trail);
    FailedRow(row, failure, now);
    CallKeepsReads(row, log, At(now, MarkFailed(failure)));
    if !IsTerminal(row.status) { FailedTrail(row, log, failure, now); }
  }

  lemma FailedRow(row: Row, failure: Failure, now: Time)
    ensures var row' := After(row, At(now, MarkFailed(failure)));
      if IsTerminal(row.status) then row'.status == row.status
      else row'.status.Failed? && row'.generationStatus == Some("failed")
  {
  }

  lemma TrailSoFar(row: Row, log: seq<Event>, from: Status, trail: seq<Status>)
    requires OnTrackOrNew(row, log, from, trail) && Forward(from, row.status)
    ensures (if row.payload.Some? then Trail(log) else [Queued]) == trail + Between(from, row.status)
  {
    if row.payload.None? {
      assert row.status.Queued?;
      assert Between(Queued, Queued) == [];
    }
  }

  // ---------------------------------------------------------------- many workers

  /** What runs of the workflow and workers that give up do to a row. */
  predicate WorkflowCall(call: Call) {
    match call
    case Initialize => true
    case Transition(to) => to in {Interpreting, Classified, Generating, Publishing, Completed}
    case MarkFailed(_) => true
    case MarkJob(_) => true
    case ClearError => true
    case _ => false
  }

  predicate WorkflowCalls(calls: seq<Timed>) {
    forall t | t in calls :: WorkflowCall(t.call)
  }

  /** A first part of the main line up to generating, and possibly failed after it. */
  predicate FirstPart(trail: seq<Status>, status: Status) {
    if status.Failed? then
      2 <= |trail| <= 5 && trail == MAIN_LINE[..|trail| - 1] + [Failed]
    else
      OrderIndex(status) <= 3 && trail == MAIN_LINE[..OrderIndex(status) + 1]
  }

  ghost predicate OneTrail(row: Row, log: seq<Event>) {
    if row.payload.Some? then HasPayload(row) && FirstPart(Trail(log), row.status) else row.status.Queued?
  }

  /** However many workers run one fresh generation at once, with whatever stale reads between them, and some of them give
      up: the log holds each move of the main line up to some status once and in order, at most to generating, and
      possibly one move to failed after it, and nothing else. */
  lemma {:induction false} WorkersShareOneTrail(calls: seq<Timed>)
    requires WorkflowCalls(calls)
    ensures OneTrail(Run(calls), Log(calls))
  {
    if |calls| > 0 {
      var before, t := calls[..|calls| - 1], calls[|calls| - 1];
      assert t in calls;
      assert WorkflowCalls(before) by {
        forall u | u in before ensures u in calls { }
      }
      WorkersShareOneTrail(before);
      OneMoreCall(Run(before), Log(before), t);
    }
  }

  lemma OneMoreCall(row: Row, log: seq<Event>, t: Timed)
    requires WorkflowCall(t.call) && OneTrail(row, log)
    ensures OneTrail(After(row, t), NextLog(row, log, t))
  {
    match t.call
    case Initialize => CreatedTrail(t.now);
    case Transition(to) => OneMoreTransition(row, log, to, t.now);
    case MarkFailed(failure) => OneMoreFailure(row, log, failure, t.now);
    case MarkJob(_) =>
    case ClearError =>
  }

  /** The trail that a call starts from. */
  lemma StartedTrail(row: Row, log: seq<Event>, now: Time)
    requires OneTrail(row, log)
    ensures FirstPart(Trail(if row.payload.None? then [Created(now)] else log), row.status)
  {
    CreatedTrail(now);
  }

  lemma NextOfFirstPart(trail: seq<Status>, from: Status, to: Status)
    requires FirstPart(trail, from) && CanTransition(from, to)
    requires to in {Interpreting, Classified, Generating, Publishing, Completed, Failed}
    ensures FirstPart(trail + [to], to)
  {
    if !to.Failed? { OnMainLine(to); }
  }

  lemma OneMoreTransition(row: Row, log: seq<Event>, to: Status, now: Time)
    requires to in {Interpreting, Classified, Generating, Publishing, Completed} && OneTrail(row, log)
    ensures var t := At(now, Transition(to)); OneTrail(After(row, t), NextLog(row, log, t))
  {
    StartedTrail(row, log, now);
    var started := if row.payload.None? then [Created(now)] else log;
    if CanTransition(row.status, to) {
      hide FirstPart;
      TrailStep(started, Moved(Some(row.status), to, now, None));
      NextOfFirstPart(Trail(started), row.status, to);
    }
  }

  lemma OneMoreFailure(row: Row, log: seq<Event>, failure: Failure, now: Time)
    requires OneTrail(row, log)
    ensures var t := At(now, MarkFailed(failure)); OneTrail(After(row, t), NextLog(row, log, t))
  {
    StartedTrail(row, log, now);
    var started := if row.payload.None? then [Created(now)] else log;
    if CanTransition(row.status, Failed) {
      hide FirstPart;
      TrailStep(started, Moved(Some(row.status), Failed, now, Some(failure)));
      NextOfFirstPart(Trail(started), row.status, Failed);
    }
  }

  // ---------------------------------------------------------------- the service

  /** What became of a queued job. */
  datatype Fate =
    | Finished                                  // a run succeeded
    | GivenUp(marked: bool)                     // dead-lettered; `marked`: marking the generation failed worked
    | Forgotten                                 // to be queued again, which did not work

  /** A run of a job: the places of its first and of its last statement. */
  datatype Try = Try(begin: nat, end: nat)

  /** The callbacks and decisions that took effect so far; of every draft the source that it names, if it names one. */
  datatype Work = Work(
    interpretations: nat, decisions: nat, drafts: seq<Option<string>>, submissions: nat, publications: nat, compositions: nat)

  const NO_WORK := Work(0, 0, [], 0, 0, 0)
  const NOT_DRAFTED := "interpretation_only"

  /** One interpretation, one draft, and a decision before and after it; the last one notes where the draft came from. */
  predicate ClassifiedOnce(before: Work, after: Work, source: Option<string>) {
    && |after.drafts| == |before.drafts| + 1 && after.drafts[..|before.drafts|] == before.drafts
    && after == before.(interpretations := before.interpretations + 1, decisions := before.decisions + 2, drafts := after.drafts)
    && source == Some(after.drafts[|before.drafts|].GetOr(NOT_DRAFTED))
  }

  /** A classification, as far as it came. */
  predicate ClassifiedAtMostOnce(before: Work, after: Work) {
    && before.interpretations <= after.interpretations <= before.interpretations + 1
    && before.decisions <= after.decisions <= before.decisions + 2
    && |before.drafts| <= |after.drafts| <= |before.drafts| + 1 && after.drafts[..|before.drafts|] == before.drafts
    && after == before.(interpretations := after.interpretations, decisions := after.decisions, drafts := after.drafts)
  }

  /** The row, and the columns that the checkpoints look at. The environment decides for each statement, in the order of
      execution, whether it works, and whether the error of a failed one counts as retryable; `at` is the number of
      statements so far. A transition, or the reads that prepare its context, are one statement. */
  class Service {
    const generation: Generation
    const faults: nat -> Fault
    const retryable: nat -> bool
    var at: nat
    var interpreted: bool
    var resolved: bool
    var draftSource: Option<string>
    var hasEntities: bool
    var hasDelivery: bool
    var work: Work

    constructor (generation: Generation, faults: nat -> Fault, retryable: nat -> bool)
      ensures this.generation == generation && this.faults == faults && this.retryable == retryable
      ensures at == 0 && work == NO_WORK
    {
      this.generation, this.faults, this.retryable := generation, faults, retryable;
      interpreted, resolved, draftSource, hasEntities, hasDelivery := false, false, None, false, false;
      at, work := 0, NO_WORK;
    }

    /** Every statement from one place up to another works. */
    ghost predicate AllFine(from: nat, to: nat) {
      forall k | from <= k < to :: faults(k).Fine?
    }

    /** The statements from one place up to another are a part of a run that ended well, or in which the last one was the
        first to fail. */
    ghost predicate Ran(from: nat, to: nat, ok: bool) {
      from < to && (if ok then AllFine(from, to) else AllFine(from, to - 1) && !faults(to - 1).Fine?)
    }

    lemma RanLast(from: nat, to: nat, ok: bool)
      requires Ran(from, to, ok)
      ensures ok <==> faults(to - 1).Fine?
    {
    }

    lemma RanFirst(from: nat, to: nat, ok: bool)
      requires Ran(from, to, ok)
      ensures !faults(from).Fine? ==> !ok && to == from + 1
    {
    }

    method Next() returns (fault: Fault)
      modifies this`at
      ensures fault == faults(old(at)) && at == old(at) + 1
    {
      fault := faults(at);
      at := at + 1;
    }

    ghost predicate Along(from: Status, trail: seq<Status>)
      reads generation
    {
      OnTrack(generation.Snapshot(), generation.log, from, trail)
    }

    ghost predicate Follows(from: Status, trail: seq<Status>)
      reads generation
    {
      OnTrackOrNew(generation.Snapshot(), generation.log, from, trail)
    }

    /** Start the audit trail, if it was not. */
    method Start(now: Time, ghost from: Status, ghost trail: seq<Status>) returns (ok: bool)
      requires Follows(from, trail)
      modifies this`at, generation
      ensures at == old(at) + 1 && (ok <==> faults(old(at)).Fine?)
      ensures Follows(from, trail) && (ok ==> Along(from, trail))
      ensures generation.status == old(generation.status)
      ensures generation.generationStatus == old(generation.generationStatus)
    {
      hide OnTrack, OnTrackOrNew, Reads, After, NextLog, OutcomeOf;
      var fault := Next();
      if fault.Lost? { return false; }
      StartKeepsTrack(generation.Snapshot(), generation.log, now, from, trail);
      var outcome := generation.Initialize(now);
      TrackIsTrackOrNew(generation.Snapshot(), generation.log, from, trail);
      ok := fault.Fine?;
    }

    method GetStatus() returns (r: Option<Status>)
      modifies this`at
      ensures at == old(at) + 1 && (r.Some? <==> faults(old(at)).Fine?)
      ensures r.Some? ==> r.value == generation.status
    {
      var fault := Next();
      r := if fault.Fine? then Some(generation.status) else None;
    }

    /** A checkpoint: if the status is before it, move there. It fails exactly when one of its statements does, or the move
        is not allowed. */
    method Advance(to: Status, now: Time, ghost from: Status, ghost trail: seq<Status>) returns (ok: bool)
      requires Along(from, trail) && OrderIndex(to) <= 6
      modifies this`at, generation
      ensures Along(from, trail)
      ensures generation.generationStatus == old(generation.generationStatus)
      ensures generation.status == old(generation.status)
              || (CanTransition(old(generation.status), to) && generation.status == to)
      ensures ok ==> !StatusBefore(generation.status, to)
      ensures at > old(at)
      ensures Ran(old(at), at, ok)
              || (!ok && StatusBefore(old(generation.status), to) && !CanTransition(old(generation.status), to))
    {
      hide OnTrack, Reads, After, NextLog, OutcomeOf;
      var status := GetStatus();
      if status.None? { return false; }
      if !StatusBefore(status.value, to) { return true; }
      var fault := Next();
      if fault.Lost? { return false; }
      CheckpointKeepsTrack(generation.Snapshot(), generation.log, to, now, from, trail);
      var outcome := generation.Transition(to, now);
      return fault.Fine? && outcome.Saved?;
    }

    /** The columns say that a classification was made, with a draft behind it. */
    predicate HasClassification()
      reads this
    {
      interpreted && resolved && draftSource != Some(NOT_DRAFTED)
    }

    /** Settling the output type: writes the decision with the source of the draft, if there is one, and clears the row's
        error. */
    method Resolve(draft: Option<Option<string>>, ghost from: Status, ghost trail: seq<Status>) returns (ok: bool)
      requires Along(from, trail)
      modifies this, generation
      ensures Along(from, trail)
      ensures generation.status == old(generation.status)
      ensures generation.generationStatus == old(generation.generationStatus)
      ensures at == old(at) + 1 && (ok <==> faults(old(at)).Fine?)
      ensures ok ==> resolved && draftSource == Some(draft.GetOr(None).GetOr(NOT_DRAFTED)) && interpreted == old(interpreted)
      ensures work == old(work).(decisions := old(work).decisions + if faults(old(at)).Lost? then 0 else 1)
    {
      hide OnTrack, Reads, After;
      var fault := Next();
      if !fault.Lost? {
        var source := if draft.Some? then draft.value.GetOr(NOT_DRAFTED) else NOT_DRAFTED;
        resolved, draftSource := true, Some(source);
        work := work.(decisions := work.decisions + 1);
        var now: Time := *;
        ColumnsKeepTrack(generation.Snapshot(), generation.log, At(now, ClearError), from, trail);
        generation.ClearError(now);
      }
      return fault.Fine?;
    }

    /** Interpret, decide, draft, decide again with the draft. The draft says where it came from, or not. */
    method Classify(ghost from: Status, ghost trail: seq<Status>) returns (ok: bool)
      requires Along(from, trail)
      modifies this, generation
      ensures Along(from, trail)
      ensures generation.status == old(generation.status)
      ensures generation.generationStatus == old(generation.generationStatus)
      ensures Ran(old(at), at, ok)
      ensures ok ==> interpreted && resolved && ClassifiedOnce(old(work), work, draftSource)
      ensures ClassifiedAtMostOnce(old(work), work)
    {
      hide Reads, Along;
      var interpretFault := Next();
      if !interpretFault.Lost? {
        interpreted := true;
        work := work.(interpretations := work.interpretations + 1);
      }
      if !interpretFault.Fine? { return false; }
      ok := Resolve(None, from, trail);
      if !ok { return; }
      var draft: Option<string> := *;
      var draftFault := Next();
      if !draftFault.Lost? { work := work.(drafts := work.drafts + [draft]); }
      if !draftFault.Fine? { return false; }
      ok := Resolve(Some(draft), from, trail);
    }

    /** Classify, unless the columns say that it was done and drafted. */
    method ClassifyOnce(ghost from: Status, ghost trail: seq<Status>) returns (ok: bool)
      requires Along(from, trail)
      modifies this, generation
      ensures Along(from, trail)
      ensures generation.status == old(generation.status)
      ensures generation.generationStatus == old(generation.generationStatus)
      ensures Ran(old(at), at, ok)
      ensures ok ==> interpreted && resolved
      ensures old(HasClassification()) ==> work == old(work) && draftSource == old(draftSource)
      ensures !old(HasClassification()) && ok ==> ClassifiedOnce(old(work), work, draftSource)
      ensures ClassifiedAtMostOnce(old(work), work)
    {
      hide Reads, Along;
      var fault := Next();
      if !fault.Fine? { return false; }
      ok := true;
      if !HasClassification() {
        ok := Classify(from, trail);
      }
    }

    /** Classified columns are left alone, unless the last decision notes that it came without a draft; otherwise the
        interpretation and the draft are asked for once each. */
    method EnsureClassified(now: Time, now': Time, ghost from: Status, ghost trail: seq<Status>) returns (ok: bool)
      requires Along(from, trail)
      modifies this, generation
      ensures Along(from, trail)
      ensures generation.status == old(generation.status)
              || (old(generation.status).Queued? && (generation.status.Interpreting? || generation.status.Classified?))
              || (old(generation.status).Interpreting? && generation.status.Classified?)
      ensures generation.generationStatus == old(generation.generationStatus)
      ensures Ran(old(at), at, ok)
      ensures ok ==> !StatusBefore(generation.status, Classified)
      ensures ok ==> interpreted && resolved
      ensures old(interpreted) && old(resolved) && old(draftSource) != Some("interpretation_only") ==>
        work == old(work) && draftSource == old(draftSource)
      ensures ok && (!old(interpreted) || !old(resolved) || old(draftSource) == Some("interpretation_only")) ==>
        ClassifiedOnce(old(work), work, draftSource)
      ensures ClassifiedAtMostOnce(old(work), work)
    {
      hide Reads, Along;
      ok := Advance(Interpreting, now, from, trail);
      if !ok { return; }
      ok := ClassifyOnce(from, trail);
      if !ok { return; }
      ok := Advance(Classified, now', from, trail);
    }

    method EnsureGenerated(jobId: Option<string>, now: Time, ghost from: Status, ghost trail: seq<Status>) returns (ok: bool)
      requires Along(from, trail) && !StatusBefore(generation.status, Classified)
      modifies this, generation
      ensures Along(from, trail)
      ensures generation.status == old(generation.status)
              || (old(generation.status).Classified? && generation.status.Generating?)
      ensures ok ==> !StatusBefore(generation.status, Generating)
      ensures Ran(old(at), at, ok)
      ensures jobId.None? ==> work == old(work)
      ensures jobId.None? ==> generation.generationStatus == old(generation.generationStatus)
      ensures ok && jobId.Some? ==> work.submissions == old(work).submissions + 1
      ensures work == old(work).(submissions := work.submissions) && 0 <= work.submissions - old(work).submissions <= 1
      ensures draftSource == old(draftSource)
      ensures ok && jobId.Some? ==> generation.generationStatus == Some("processing")
    {
      hide Reads, Along;
      ok := Advance(Generating, now, from, trail);
      if !ok || jobId.None? { return; }
      var submitFault := Next();
      if !submitFault.Lost? { work := work.(submissions := work.submissions + 1); }
      if !submitFault.Fine? { return false; }
      ok := MarkProcessing(from, trail);
    }

    method MarkProcessing(ghost from: Status, ghost trail: seq<Status>) returns (ok: bool)
      requires Along(from, trail)
      modifies this`at, generation
      ensures Along(from, trail) && generation.status == old(generation.status)
      ensures at == old(at) + 1 && (ok <==> faults(old(at)).Fine?)
      ensures ok ==> generation.generationStatus == Some("processing")
    {
      hide OnTrack, Reads, After;
      var fault := Next();
      var now: Time := *;
      if !fault.Lost? {
        ColumnsKeepTrack(generation.Snapshot(), generation.log, At(now, MarkJob("processing")), from, trail);
        generation.MarkJob("processing", now);
      }
      return fault.Fine?;
    }

    method EnsurePublished(now: Time, ghost from: Status, ghost trail: seq<Status>) returns (ok: bool)
      requires Along(from, trail) && !StatusBefore(generation.status, Generating)
      modifies this, generation
      ensures Along(from, trail)
      ensures generation.status == old(generation.status)
              || (old(generation.status).Uploading? && generation.status.Publishing?)
      ensures old(hasEntities) ==> work == old(work) && hasEntities
      ensures ok && !old(hasEntities) ==> hasEntities && work == old(work).(publications := old(work).publications + 1)
      ensures work == old(work).(publications := work.publications)
      ensures ok && old(hasEntities) ==> !StatusBefore(generation.status, Publishing)
      ensures !old(hasEntities) ==> generation.status == old(generation.status)
      ensures at > old(at)
      ensures Ran(old(at), at, ok)
              || (!ok && StatusBefore(old(generation.status), Publishing) && !CanTransition(old(generation.status), Publishing))
    {
      hide Reads, Along;
      var readFault := Next();
      if !readFault.Fine? { return false; }
      if hasEntities {
        ok := Advance(Publishing, now, from, trail);
        return;
      }
      var publishFault := Next();
      if !publishFault.Lost? {
        hasEntities := true;
        work := work.(publications := work.publications + 1);
      }
      return publishFault.Fine?;
    }

    method EnsureCompleted(now: Time, ghost from: Status, ghost trail: seq<Status>) returns (ok: bool)
      requires Along(from, trail)
      modifies this, generation
      ensures Along(from, trail)
      ensures generation.status == old(generation.status) || (old(generation.status).Publishing? && generation.status.Completed?)
      ensures old(hasDelivery) ==> work == old(work) && hasDelivery
      ensures ok && !old(hasDelivery) ==> hasDelivery && work == old(work).(compositions := old(work).compositions + 1)
      ensures work == old(work).(compositions := work.compositions)
      ensures ok ==> !StatusBefore(generation.status, Completed)
      ensures at > old(at)
      ensures Ran(old(at), at, ok)
              || (!ok && StatusBefore(old(generation.status), Completed) && !CanTransition(old(generation.status), Completed))
    {
      hide Reads, Along;
      var readFault := Next();
      if !readFault.Fine? { return false; }
      if !hasDelivery {
        var composeFault := Next();
        if !composeFault.Lost? {
          hasDelivery := true;
          work := work.(compositions := work.compositions + 1);
        }
        if !composeFault.Fine? { return false; }
      }
      ok := Advance(Completed, now, from, trail);
    }

    /** What a successful run does for a generation that has not ended: it classifies, unless that was done, and submits the
        job, if there is an id. */
    static predicate DoneOnce(submit: bool, classified: bool, before: Work, after: Work, source: Option<string>) {
      && after.submissions == before.submissions + (if submit then 1 else 0)
      && var unsubmitted := after.(submissions := before.submissions);
         if classified then unsubmitted == before else ClassifiedOnce(before, unsubmitted, source)
    }

    /** The first two steps. */
    method Generate(jobId: Option<string>, ghost from: Status, ghost trail: seq<Status>) returns (ok: bool)
      requires Along(from, trail) && !IsTerminal(generation.status)
      modifies this, generation
      ensures Along(from, trail)
      ensures Forward(old(generation.status), generation.status)
      ensures Forward(generation.status, Target(old(generation.status)))
      ensures ok ==> generation.status == Target(old(generation.status))
      ensures Ran(old(at), at, ok)
      ensures ok ==> DoneOnce(jobId.Some?, old(HasClassification()), old(work), work, draftSource)
      ensures ClassifiedAtMostOnce(old(work), work.(submissions := old(work).submissions))
      ensures ok && jobId.Some? ==> generation.generationStatus == Some("processing")
      ensures jobId.None? ==> generation.generationStatus == old(generation.generationStatus)
    {
      hide Reads, Along;
      var times: (Time, Time, Time) := *;
      ok := EnsureClassified(times.0, times.1, from, trail);
      if !ok { return; }
      ok := EnsureGenerated(jobId, times.2, from, trail);
    }

    /** The last two steps. From generating they cannot succeed: no move leads from there to publishing or completed. */
    method Deliver(ghost from: Status, ghost trail: seq<Status>) returns (ok: bool)
      requires Along(from, trail) && !StatusBefore(generation.status, Generating)
      modifies this, generation
      ensures Along(from, trail)
      ensures Forward(old(generation.status), generation.status)
      ensures old(generation.status).Generating? ==> !ok && generation.status.Generating?
      ensures ok ==> IsTerminal(generation.status)
      ensures at > old(at)
    {
      hide Reads, Along;
      var times: (Time, Time) := *;
      ok := EnsurePublished(times.0, from, trail);
      if !ok { return; }
      ok := EnsureCompleted(times.1, from, trail);
    }

    /** What follows the start of a run. */
    method Steps(jobId: Option<string>, ghost from: Status, ghost trail: seq<Status>) returns (ok: bool)
      requires Along(from, trail)
      modifies this, generation
      ensures Along(from, trail)
      ensures Forward(old(generation.status), generation.status)
      ensures jobId.Some? ==> Forward(generation.status, Target(old(generation.status)))
      ensures ok && jobId.Some? ==> generation.status == Target(old(generation.status))
      ensures ok && jobId.Some? && !IsTerminal(generation.status) ==>
        DoneOnce(true, old(HasClassification()), old(work), work, draftSource)
      ensures IsTerminal(old(generation.status)) ==> work == old(work)
      ensures jobId.None? && Forward(old(generation.status), Generating)
              && old(generation.generationStatus) != Some("processing")
              ==> !ok
      ensures jobId.None? && !IsTerminal(old(generation.status)) && old(generation.generationStatus).None? ==> !ok
      ensures at > old(at) && (jobId.Some? || old(generation.generationStatus) == Some("processing") ==> Ran(old(at), at, ok))
    {
      hide Reads, Along;
      var status := GetStatus();
      if status.None? { return false; }
      if IsTerminal(status.value) { return true; }
      ok := Generate(jobId, from, trail);
      if !ok { return; }
      var readFault := Next();
      if !readFault.Fine? || generation.generationStatus.None? { return false; }    // no mark does not read as a boolean
      if generation.generationStatus == Some("processing") { return true; }
      ok := Deliver(from, trail);
    }

    /** One run of the workflow. It only moves along the main line. With a job id it succeeds exactly when every statement
        it gets to works, and then leaves the generation where an uninterrupted run does, with the job submitted once more, and
        interpreted and drafted once more unless that was done.
        Without a job id it cannot succeed from generating or before, unless the job is already under way. */
    method Process(jobId: Option<string>, now: Time, ghost from: Status, ghost trail: seq<Status>) returns (ok: bool)
      requires Follows(from, trail)
      modifies this, generation
      ensures Follows(from, trail)
      ensures Forward(old(generation.status), generation.status)
      ensures jobId.Some? ==> Forward(generation.status, Target(old(generation.status)))
      ensures ok ==> generation.payload.Some?
      ensures ok && jobId.Some? ==> generation.status == Target(old(generation.status))
      ensures ok && jobId.Some? && !IsTerminal(generation.status) ==>
        DoneOnce(true, old(HasClassification()), old(work), work, draftSource)
      ensures IsTerminal(old(generation.status)) ==> work == old(work)
      ensures jobId.None? && Forward(old(generation.status), Generating)
              && old(generation.generationStatus) != Some("processing")
              ==> !ok
      ensures jobId.None? && !IsTerminal(old(generation.status)) && old(generation.generationStatus).None? ==> !ok
      ensures at > old(at) && (jobId.Some? || old(generation.generationStatus) == Some("processing") ==> Ran(old(at), at, ok))
    {
      hide OnTrack, OnTrackOrNew, Reads;
      ok := Start(now, from, trail);
      if !ok { return; }
      ok := Steps(jobId, from, trail);
      TrackIsTrackOrNew(generation.Snapshot(), generation.log, from, trail);
    }

    /** Any number of failing runs with a job id and then one that succeeds, with no other writer: the log holds the moves
        of one uninterrupted run, and the generation ends where that run ends. While they fail the log holds a first part
        of those moves. */
    method ProcessUntilDone(jobId: string, tries: nat) returns (ok: bool)
      requires generation.Valid()
      modifies this, generation
      ensures var from := old(generation.status);
        var trail := if old(generation.payload).Some? then old(Trail(generation.log)) else [Queued];
        && Forward(generation.status, Target(from))
        && Follows(from, trail)
        && (ok ==> generation.status == Target(from)
                   && Trail(generation.log) == trail + Between(from, Target(from)))
    {
      ghost var from := generation.status;
      ghost var trail := if generation.payload.Some? then Trail(generation.log) else [Queued];
      FollowsAtFirst();
      hide Reads;
      ok := false;
      for i := 0 to tries
        invariant !ok
        invariant Follows(from, trail) && Forward(generation.status, Target(from))
      {
        var now: Time := *;
        ok := Process(Some(jobId), now, from, trail);
        if ok { return; }
      }
    }

    lemma FollowsAtFirst()
      requires generation.Valid()
      ensures Follows(generation.status, if generation.payload.Some? then Trail(generation.log) else [Queued])
    {
      if generation.payload.Some? {
        assert Between(generation.status, generation.status) == [];
        assert Trail(generation.log) + [] == Trail(generation.log);
      }
    }

    lemma FollowsIsValid(from: Status, trail: seq<Status>)
      requires Follows(from, trail)
      ensures generation.Valid() && Forward(from, generation.status)
    {
      OnTrackFacts(generation.Snapshot(), generation.log, from, trail);
    }

    /** Marking failed, best effort. */
    method GiveUp(ghost from: Status, ghost trail: seq<Status>) returns (marked: bool)
      requires Follows(from, trail)
      modifies this`at, generation
      ensures at == old(at) + 1 && (marked <==> !faults(old(at)).Lost?)
      ensures generation.Valid()
      ensures IsTerminal(old(generation.status)) || !marked ==> generation.status == old(generation.status)
      ensures marked && !IsTerminal(old(generation.status)) ==>
        && generation.status.Failed? && generation.generationStatus == Some("failed")
        && Trail(generation.log) == trail + Between(from, old(generation.status)) + [Failed]
    {
      FollowsIsValid(from, trail);
      hide OnTrackOrNew, Reads, After, NextLog, OutcomeOf;
      var fault := Next();
      if fault.Lost? { return false; }
      var failure: Failure := *;
      var now: Time := *;
      FailureEndsTrack(generation.Snapshot(), generation.log, failure, now, from, trail);
      var outcome := generation.MarkFailed(failure, now);
      return true;
    }

    /** No run succeeded, no entry was queued for another run, and yet the generation has not ended. The worker reads only
        entries that nobody has read, so an entry that was not acknowledged is not run again. */
    predicate Stranded(fate: Fate)
      reads generation
    {
      !fate.Finished? && !IsTerminal(generation.status)
    }

    /** After a failed run that ended at this place the job is given up. */
    predicate NoMoreTries(tries: nat, end: nat) {
      tries >= MAX_TRIES || !retryable(end)
    }

    /** After a failed run: a connection to Redis, the acknowledgement, whatever becomes of it, and the new entry. */
    predicate QueuedAgain(end: nat) {
      faults(end + 1).Fine? && !faults(end + 3).Lost?
    }

    /** What becomes of a job with so many tries whose last run failed at this place. */
    function FateAfter(tries: nat, end: nat): Fate {
      if NoMoreTries(tries, end) then GivenUp(!faults(end + 1).Lost?) else Forgotten
    }

    lemma FateAfterIs(tries: nat, end: nat)
      ensures FateAfter(tries, end) == if NoMoreTries(tries, end) then GivenUp(!faults(end + 1).Lost?) else Forgotten
    {
    }

    /** The last word of a worker is lost: the mark when it gives up, or else the entry that queues the job again. */
    predicate LastWordLost(tries: nat, end: nat) {
      if NoMoreTries(tries, end) then faults(end + 1).Lost? else !QueuedAgain(end)
    }

    /** The place of the last statement of the last run. */
    function LastEnd(runs: seq<Try>): nat {
      if |runs| == 0 then 0 else runs[|runs| - 1].end
    }

    /** These runs follow each other from a place: each but the last has a retryable error and queues the job again. */
    ghost predicate Chain(from: nat, runs: seq<Try>) {
      && 0 < |runs| <= MAX_TRIES && runs[0].begin == from
      && forall k | 0 <= k < |runs| - 1 ::
           !NoMoreTries(k + 1, runs[k].end) && QueuedAgain(runs[k].end) && runs[k + 1].begin == runs[k].end + 4
    }

    /** Every run ended at its first failing statement, except that the last may have had none. */
    ghost predicate EndedByFaults(runs: seq<Try>) {
      forall k | 0 <= k < |runs| ::
        Ran(runs[k].begin, runs[k].end + 1, k == |runs| - 1 && faults(runs[k].end).Fine?)
    }

    lemma NoRunsYet()
      ensures EndedByFaults([])
    {
    }

    lemma FaultsGrow(runs: seq<Try>, t: Try, ok: bool)
      requires EndedByFaults(runs) && (|runs| > 0 ==> !faults(LastEnd(runs)).Fine?)
      requires Ran(t.begin, t.end + 1, ok)
      ensures EndedByFaults(runs + [t])
    {
      RanLast(t.begin, t.end + 1, ok);
    }

    /** A worker and one job: it runs the workflow until a run succeeds, an error is permanent or the tries are used up,
        and then marks the generation failed, ignoring errors. `runs` are the places of the runs; with a job id each failed
        one ended at the first fault after its begin.

        A generation that has ended stays as it is; a finished job with an id left it where an uninterrupted run does; a
        job that is given up adds one move to failed to a first part of that run. The job is stranded exactly when the last
        run failed short of an end and the worker's last word was lost. */
    method Consume(jobId: Option<string>) returns (fate: Fate, ghost reached: Status, ghost runs: seq<Try>)
      requires generation.Valid()
      modifies this, generation
      ensures generation.Valid()
      ensures IsTerminal(old(generation.status)) ==> generation.status == old(generation.status)
      ensures Forward(old(generation.status), reached)
      ensures jobId.Some? ==> Forward(reached, Target(old(generation.status)))
      ensures jobId.Some? && fate.Finished? ==> reached == Target(old(generation.status))
      ensures fate == GivenUp(true) && !IsTerminal(reached) ==>
        && generation.status.Failed? && generation.generationStatus == Some("failed")
        && Trail(generation.log) ==
             (if old(generation.payload).Some? then old(Trail(generation.log)) else [Queued])
             + Between(old(generation.status), reached) + [Failed]
      ensures fate != GivenUp(true) || IsTerminal(reached) ==> generation.status == reached
      ensures Chain(old(at), runs)
      ensures !fate.Finished? ==> fate == FateAfter(|runs|, LastEnd(runs))
      ensures Stranded(fate) <==>
        !fate.Finished? && !IsTerminal(reached) && LastWordLost(|runs|, LastEnd(runs))
      ensures jobId.Some? ==>
        && EndedByFaults(runs)
        && (fate.Finished? <==> faults(LastEnd(runs)).Fine?)
        && (Stranded(fate) <==>
              && !IsTerminal(old(generation.status))
              && !faults(LastEnd(runs)).Fine?
              && LastWordLost(|runs|, LastEnd(runs)))
    {
      hide Reads, Trail, Between, Chain, EndedByFaults;
      fate, reached, runs := Settle(jobId);
    }

    method Settle(jobId: Option<string>) returns (fate: Fate, ghost reached: Status, ghost runs: seq<Try>)
      requires generation.Valid()
      modifies this, generation
      ensures generation.Valid()
      ensures IsTerminal(old(generation.status)) ==> generation.status == old(generation.status)
      ensures Forward(old(generation.status), reached)
      ensures jobId.Some? ==> Forward(reached, Target(old(generation.status)))
      ensures jobId.Some? && fate.Finished? ==> reached == Target(old(generation.status))
      ensures fate == GivenUp(true) && !IsTerminal(reached) ==>
        && generation.status.Failed? && generation.generationStatus == Some("failed")
        && Trail(generation.log) ==
             (if old(generation.payload).Some? then old(Trail(generation.log)) else [Queued])
             + Between(old(generation.status), reached) + [Failed]
      ensures fate != GivenUp(true) || IsTerminal(reached) ==> generation.status == reached
      ensures Chain(old(at), runs)
      ensures !fate.Finished? ==> fate == FateAfter(|runs|, LastEnd(runs))
      ensures fate.Forgotten? ==> !QueuedAgain(LastEnd(runs))
      ensures jobId.Some? ==> EndedByFaults(runs) && (fate.Finished? <==> faults(LastEnd(runs)).Fine?)
    {
      hide *;
      ghost var from := generation.status;
      ghost var trail := if generation.payload.Some? then Trail(generation.log) else [Queued];
      FollowsAtFirst();
      fate, runs := RunTries(jobId, from, trail);
      reached := generation.status;
      FollowsIsValid(from, trail);
      FateAfterIs(|runs|, LastEnd(runs));
      if fate.GivenUp? {
        var marked := GiveUp(from, trail);
        fate := GivenUp(marked);
        Acknowledge();
      }
    }

    /** Taking the entry of the job off the stream; whether that works is not looked at. */
    method Acknowledge()
      modifies this`at
      ensures old(at) < at <= old(at) + 2
    {
      var connectFault := Next();
      if connectFault.Fine? {
        var _ := Next();
      }
    }

    /** Queueing the job again. */
    method QueueAgain() returns (ok: bool)
      requires at > 0
      modifies this`at
      ensures ok == QueuedAgain(old(at) - 1)
      ensures ok ==> at == old(at) + 3
    {
      var connectFault := Next();
      if !connectFault.Fine? { return false; }
      var _ := Next();
      var queueFault := Next();
      return !queueFault.Lost?;
    }

    /** The runs of one job, up to the decision to give it up. */
    method RunTries(jobId: Option<string>, ghost from: Status, ghost trail: seq<Status>)
      returns (fate: Fate, ghost runs: seq<Try>)
      requires Follows(from, trail)
      modifies this, generation
      ensures Follows(from, trail)
      ensures IsTerminal(old(generation.status)) ==> generation.status == old(generation.status)
      ensures Forward(old(generation.status), generation.status)
      ensures jobId.Some? ==> Forward(generation.status, Target(old(generation.status)))
      ensures jobId.Some? && fate.Finished? ==> generation.status == Target(old(generation.status))
      ensures Chain(old(at), runs)
      ensures fate.GivenUp? ==>
        at == LastEnd(runs) + 1 && NoMoreTries(|runs|, LastEnd(runs))
      ensures fate.Forgotten? ==>
        !NoMoreTries(|runs|, LastEnd(runs)) && !QueuedAgain(LastEnd(runs))
      ensures jobId.Some? ==> EndedByFaults(runs) && (fate.Finished? <==> faults(LastEnd(runs)).Fine?)
    {
      hide Reads, Along, Follows, Ran, AllFine, Chain, EndedByFaults, QueuedAgain;
      hide Forward, Target, StatusBefore, IsTerminal, OrderIndex, CanTransition, Trail, Between;
      ghost var start := generation.status;
      ForwardFromHere(start);
      runs := [];
      var tries := 0;
      NoRunsYet();
      while true
        invariant 0 <= tries == |runs| < MAX_TRIES
        invariant Follows(from, trail) && Forward(start, generation.status)
        invariant jobId.Some? ==> Forward(generation.status, Target(start))
        invariant if tries == 0 then at == old(at) else Chain(old(at), runs) && MayGoOn(runs)
        invariant jobId.Some? ==> EndedByFaults(runs) && (tries > 0 ==> !faults(LastEnd(runs)).Fine?)
        decreases MAX_TRIES - tries
      {
        ghost var begin := at;
        ghost var before := runs;
        ghost var here := generation.status;
        var now: Time := *;
        var ok := Process(jobId, now, from, trail);
        tries := tries + 1;
        ghost var t := Try(begin, at - 1);
        runs := runs + [t];
        ForwardStill(start, here, generation.status);
        OneMoreRun(old(at), before, t);
        if jobId.Some? {
          RanLast(begin, at, ok);
          FaultsGrow(before, t, ok);
        }
        if ok {
          Acknowledge();
          return Finished, runs;
        }
        if !retryable(at - 1) || tries + 1 > MAX_TRIES { return GivenUp(false), runs; }
        var queued := QueueAgain();
        if !queued { return Forgotten, runs; }
      }
    }

    lemma ForwardFromHere(start: Status)
      ensures Forward(start, start) && Forward(start, Target(start))
    {
    }

    lemma ForwardStill(start: Status, here: Status, next: Status)
      requires Forward(start, here) && Forward(here, next)
      ensures Forward(start, next) && (IsTerminal(start) ==> next == start)
      ensures Forward(here, Target(start)) ==> Target(here) == Target(start)
    {
    }

    /** The next run can begin here. */
    ghost predicate MayGoOn(runs: seq<Try>)
      reads this`at
    {
      0 < |runs| < MAX_TRIES && at == LastEnd(runs) + 4
      && !NoMoreTries(|runs|, LastEnd(runs)) && QueuedAgain(LastEnd(runs))
    }

    lemma OneMoreRun(from: nat, runs: seq<Try>, t: Try)
      requires |runs| < MAX_TRIES
      requires if runs == [] then t.begin == from else
        && Chain(from, runs) && t.begin == LastEnd(runs) + 4
        && !NoMoreTries(|runs|, LastEnd(runs)) && QueuedAgain(LastEnd(runs))
      ensures Chain(from, runs + [t])
    {
    }
  }

  /** A job that is stranded: a worker that dies before its first statement, whatever its errors count as. */
  method StrandedJob(retryable: nat -> bool) returns (service: Service, fate: Fate)
    ensures service.Stranded(fate)
  {
    var generation := new Generation.Submit();
    service := new Service(generation, k => Lost, retryable);
    ghost var reached: Status;
    ghost var runs: seq<Try>;
    hide Reads, Trail, Between;
    fate, reached, runs := service.Consume(Some("job"));
  }
}
