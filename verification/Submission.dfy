/** Submitting a generation: look for an active duplicate, insert, and look again when the unique index refuses.

    The index is a parameter.  The comments in the service intend one that terminal rows leave
    (`ActiveRows`); the migration creates one over every row with a key, and nothing ever clears a key
    (`AllRows`).
 */
module Submission {
  import opened Wrappers
  import opened Lifecycle

  datatype Index = ActiveRows | AllRows

  datatype Request = Request(teacher: int, fingerprint: string)

  /** A row of the table; its place in the table is its id and its age. `origin` is the call that inserted it. */
  datatype Row = Row(teacher: int, fingerprint: string, status: Status, origin: Option<nat>)

  predicate Active(row: Row) { !IsTerminal(row.status) }

  predicate Matches(row: Row, request: Request) {
    row.teacher == request.teacher && row.fingerprint == request.fingerprint && Active(row)
  }

  /** The lookup statement: the newest active row of the request. */
  function FindActive(rows: seq<Row>, request: Request): (r: Option<nat>)
    ensures r.Some? ==> r.value < |rows| && Matches(rows[r.value], request)
    ensures r.Some? ==> forall i | r.value < i < |rows| :: !Matches(rows[i], request)
    ensures r.None? ==> forall i | 0 <= i < |rows| :: !Matches(rows[i], request)
  {
    if |rows| == 0 then None
    else if Matches(rows[|rows| - 1], request) then Some(|rows| - 1)
    else FindActive(rows[..|rows| - 1], request)
  }

  predicate Indexed(index: Index, row: Row) { index.AllRows? || Active(row) }

  /** A row that keeps a new row with this fingerprint out of the index. */
  function FindConflict(index: Index, rows: seq<Row>, fingerprint: string): (r: Option<nat>)
    ensures r.Some? ==>
      r.value < |rows| && rows[r.value].fingerprint == fingerprint && Indexed(index, rows[r.value])
    ensures r.None? ==> forall i | 0 <= i < |rows| :: rows[i].fingerprint == fingerprint ==> !Indexed(index, rows[i])
  {
    if |rows| == 0 then None
    else if rows[|rows| - 1].fingerprint == fingerprint && Indexed(index, rows[|rows| - 1]) then Some(|rows| - 1)
    else FindConflict(index, rows[..|rows| - 1], fingerprint)
  }

  predicate Unique(index: Index, rows: seq<Row>) {
    forall i, j | 0 <= i < j < |rows| && Indexed(index, rows[i]) && Indexed(index, rows[j]) ::
      rows[i].fingerprint != rows[j].fingerprint
  }

  function NewRow(request: Request, origin: Option<nat>): Row {
    Row(request.teacher, request.fingerprint, Queued, origin)
  }

  // ---------------------------------------------------------------- concurrent calls

  /** What the database does to a statement: it works, it fails without an effect, or its effect stays and the answer is
      lost. */
  datatype Fault = Fine | Lost | AnswerLost

  datatype Phase =
    | Looking
    | Inserting
    | Retrying(conflict: nat, refusedAt: nat)
    | Returned(id: nat, wasCreated: bool, at: nat)
    | Violated(conflict: nat, refusedAt: nat, retriedAt: nat)   // the unique violation, after a retry found nothing
    | Broken                                                    // any other database error

  datatype Call = Call(request: Request, startedAt: nat, phase: Phase)

  /** `clock` counts the steps taken so far. */
  datatype State = State(rows: seq<Row>, calls: map<nat, Call>, clock: nat)

  datatype Step =
    | Start(c: nat, request: Request)
    | Lookup(c: nat, fault: Fault)
    | Insert(c: nat, fault: Fault)
    | Retry(c: nat, fault: Fault)
    | Regenerate(request: Request)              // another service inserts a row for a refined prompt
    | SetStatus(id: nat, status: Status)        // the workflow moves a row, or a reset queues it again

  const EMPTY := State([], map[], 0)

  function Goto(s: State, c: nat, phase: Phase): State
    requires c in s.calls
  {
    s.(calls := s.calls[c := s.calls[c].(phase := phase)])
  }

  function InsertStep(index: Index, s: State, c: nat, fault: Fault): State
    requires c in s.calls
  {
    var request := s.calls[c].request;
    var conflict := FindConflict(index, s.rows, request.fingerprint);
    if fault.Lost? then Goto(s, c, Broken)
    else if conflict.Some? then Goto(s, c, if fault.Fine? then Retrying(conflict.value, s.clock) else Broken)
    else Goto(s.(rows := s.rows + [NewRow(request, Some(c))]), c,
              if fault.Fine? then Returned(|s.rows|, true, s.clock) else Broken)
  }

  /** One step; `clock` is already the number of this step. */
  function Act(index: Index, owner: string -> int, s: State, step: Step): State {
    match step
    case Start(c, request) =>
      if c in s.calls || request.teacher != owner(request.fingerprint) then s
      else s.(calls := s.calls[c := Call(request, s.clock, Looking)])
    case Lookup(c, fault) =>
      if c !in s.calls || !s.calls[c].phase.Looking? then s
      else if !fault.Fine? then Goto(s, c, Broken)
      else
        var found := FindActive(s.rows, s.calls[c].request);
        Goto(s, c, if found.Some? then Returned(found.value, false, s.clock) else Inserting)
    case Insert(c, fault) => if c in s.calls && s.calls[c].phase.Inserting? then InsertStep(index, s, c, fault) else s
    case Retry(c, fault) =>
      if c !in s.calls || !s.calls[c].phase.Retrying? then s
      else if !fault.Fine? then Goto(s, c, Broken)
      else
        var Retrying(conflict, refusedAt) := s.calls[c].phase;
        var found := FindActive(s.rows, s.calls[c].request);
        Goto(s, c, if found.Some? then Returned(found.value, false, s.clock) else Violated(conflict, refusedAt, s.clock))
    case Regenerate(request) =>
      if request.teacher != owner(request.fingerprint) || FindConflict(index, s.rows, request.fingerprint).Some? then s
      else s.(rows := s.rows + [NewRow(request, None)])
    case SetStatus(id, status) =>
      if id >= |s.rows| || !(CanTransition(s.rows[id].status, status) || status.Queued?) then s
      else
        var rows := s.rows[id := s.rows[id].(status := status)];
        if Unique(index, rows) then s.(rows := rows) else s
  }

  function Reach(index: Index, owner: string -> int, steps: seq<Step>): (s: State)
    ensures s.clock == |steps|
  {
    if |steps| == 0 then EMPTY
    else
      var s := Reach(index, owner, steps[..|steps| - 1]);
      Act(index, owner, s.(clock := |steps|), steps[|steps| - 1])
  }

  // ---------------------------------------------------------------- what every step keeps

  ghost predicate TableInvariant(index: Index, owner: string -> int, s: State) {
    && Unique(index, s.rows)
    && (forall i | 0 <= i < |s.rows| :: s.rows[i].teacher == owner(s.rows[i].fingerprint))
    && (forall c | c in s.calls :: s.calls[c].request.teacher == owner(s.calls[c].request.fingerprint))
  }

  lemma TableKept(index: Index, owner: string -> int, s: State, step: Step)
    requires TableInvariant(index, owner, s)
    ensures TableInvariant(index, owner, Act(index, owner, s, step))
  {
  }

  lemma {:induction false} EveryTable(index: Index, owner: string -> int, steps: seq<Step>)
    ensures TableInvariant(index, owner, Reach(index, owner, steps))
  {
    if |steps| > 0 {
      var before := steps[..|steps| - 1];
      EveryTable(index, owner, before);
      TableKept(index, owner, Reach(index, owner, before).(clock := |steps|), steps[|steps| - 1]);
    }
  }

  /** Rows are never removed and keep everything but their status. */
  predicate Extends(rows: seq<Row>, rows': seq<Row>) {
    && |rows| <= |rows'|
    && forall i | 0 <= i < |rows| :: rows'[i].(status := rows[i].status) == rows[i]
  }

  lemma {:induction false} TablesExtend(index: Index, owner: string -> int, steps: seq<Step>, k: nat)
    requires k <= |steps|
    ensures Extends(Reach(index, owner, steps[..k]).rows, Reach(index, owner, steps).rows)
  {
    if k == |steps| {
      assert steps[..k] == steps;
    } else {
      var before := steps[..|steps| - 1];
      assert before[..k] == steps[..k];
      TablesExtend(index, owner, before, k);
      ActExtends(index, owner, Reach(index, owner, before).(clock := |steps|), steps[|steps| - 1]);
      hide Act;
    }
  }

  /** A step moves at most one row, along the lifecycle or back to queued; and such a move is made when the index allows it. */
  lemma ActExtends(index: Index, owner: string -> int, s: State, step: Step)
    ensures Extends(s.rows, Act(index, owner, s, step).rows)
    ensures forall i | 0 <= i < |s.rows| && Act(index, owner, s, step).rows[i] != s.rows[i] ::
              step.SetStatus? && step.id == i && Act(index, owner, s, step).rows[i].status == step.status
              && (CanTransition(s.rows[i].status, step.status) || step.status.Queued?)
    ensures step.SetStatus? && step.id < |s.rows| ==>
      var moved := s.rows[step.id := s.rows[step.id].(status := step.status)];
      (CanTransition(s.rows[step.id].status, step.status) || step.status.Queued?) && Unique(index, moved)
      ==> Act(index, owner, s, step).rows == moved
  {
  }

  /** The row was active, and matched the request, in the state after the first `k` steps. */
  ghost predicate ServedAt(index: Index, owner: string -> int, steps: seq<Step>, k: nat, id: nat, request: Request) {
    k <= |steps| && var rows := Reach(index, owner, steps[..k]).rows; id < |rows| && Matches(rows[id], request)
  }

  ghost predicate BlockedAt(index: Index, owner: string -> int, steps: seq<Step>, k: nat, id: nat, request: Request) {
    k <= |steps| && var rows := Reach(index, owner, steps[..k]).rows;
    id < |rows| && rows[id].fingerprint == request.fingerprint && Indexed(index, rows[id])
  }

  ghost predicate EndedAt(index: Index, owner: string -> int, steps: seq<Step>, k: nat, id: nat) {
    k <= |steps| && var rows := Reach(index, owner, steps[..k]).rows; id < |rows| && !Active(rows[id])
  }

  /** What a call's phase says about the run so far. */
  ghost predicate Tells(index: Index, owner: string -> int, steps: seq<Step>, call: Call) {
    match call.phase
    case Retrying(conflict, refusedAt) =>
      call.startedAt < refusedAt && BlockedAt(index, owner, steps, refusedAt, conflict, call.request)
    case Returned(id, _, at) => call.startedAt < at && ServedAt(index, owner, steps, at, id, call.request)
    case Violated(conflict, refusedAt, retriedAt) =>
      && call.startedAt < refusedAt < retriedAt
      && BlockedAt(index, owner, steps, refusedAt, conflict, call.request)
      && EndedAt(index, owner, steps, retriedAt, conflict)
    case _ => call.startedAt <= |steps|
  }

  lemma TellsLater(index: Index, owner: string -> int, steps: seq<Step>, call: Call)
    requires |steps| > 0 && Tells(index, owner, steps[..|steps| - 1], call)
    ensures Tells(index, owner, steps, call)
  {
    var before := steps[..|steps| - 1];
    forall k: nat | k < |steps| ensures before[..k] == steps[..k] { }
  }

  ghost predicate AllTell(index: Index, owner: string -> int, steps: seq<Step>) {
    var s := Reach(index, owner, steps);
    forall c | c in s.calls :: s.calls[c].startedAt <= |steps| && Tells(index, owner, steps, s.calls[c])
  }

  /** What a step that moved a call says about the table it left. */
  predicate Reports(index: Index, s: State, s': State, c: nat)
    requires c in s'.calls
  {
    var call := s'.calls[c];
    match call.phase
    case Looking => call.startedAt == s.clock
    case Retrying(conflict, refusedAt) =>
      && c in s.calls && call == s.calls[c].(phase := call.phase) && refusedAt == s.clock
      && conflict < |s'.rows| && s'.rows[conflict].fingerprint == call.request.fingerprint
      && Indexed(index, s'.rows[conflict])
    case Returned(id, _, at) =>
      && c in s.calls && call == s.calls[c].(phase := call.phase) && at == s.clock
      && id < |s'.rows| && Matches(s'.rows[id], call.request)
    case Violated(conflict, refusedAt, retriedAt) =>
      && c in s.calls && call == s.calls[c].(phase := call.phase) && retriedAt == s.clock
      && s.calls[c].phase == Retrying(conflict, refusedAt)
      && forall i | 0 <= i < |s'.rows| :: !Matches(s'.rows[i], call.request)
    case _ => c in s.calls && call == s.calls[c].(phase := call.phase)
  }

  lemma StepReports(index: Index, owner: string -> int, s: State, step: Step, c: nat)
    requires var s' := Act(index, owner, s, step); c in s'.calls && (c in s.calls ==> s'.calls[c] != s.calls[c])
    ensures Reports(index, s, Act(index, owner, s, step), c)
  {
  }

  /** The call that takes a step tells the truth about it. */
  lemma ActorTells(index: Index, owner: string -> int, steps: seq<Step>, c: nat)
    requires |steps| > 0 && AllTell(index, owner, steps[..|steps| - 1])
    requires var s := Reach(index, owner, steps); var before := Reach(index, owner, steps[..|steps| - 1]);
      c in s.calls && (c in before.calls ==> s.calls[c] != before.calls[c])
    ensures var s := Reach(index, owner, steps);
      s.calls[c].startedAt <= |steps| && Tells(index, owner, steps, s.calls[c])
  {
    var before := steps[..|steps| - 1];
    var s, s' := Reach(index, owner, before), Reach(index, owner, steps);
    StepReports(index, owner, s.(clock := |steps|), steps[|steps| - 1], c);
    assert steps[..|steps|] == steps;
    if s'.calls[c].phase.Violated? { RetryTells(index, owner, steps, c); }
  }

  lemma RetryTells(index: Index, owner: string -> int, steps: seq<Step>, c: nat)
    requires |steps| > 0
    requires var s, s' := Reach(index, owner, steps[..|steps| - 1]), Reach(index, owner, steps);
      && c in s'.calls && s'.calls[c].phase.Violated?
      && Reports(index, s.(clock := |steps|), s', c)
      && Tells(index, owner, steps[..|steps| - 1], s.calls[c])
    ensures Tells(index, owner, steps, Reach(index, owner, steps).calls[c])
  {
    var s, s' := Reach(index, owner, steps[..|steps| - 1]), Reach(index, owner, steps);
    TellsLater(index, owner, steps, s.calls[c]);
    EveryTable(index, owner, steps);
    var Violated(conflict, refusedAt, retriedAt) := s'.calls[c].phase;
    TablesExtend(index, owner, steps, refusedAt);
    assert steps[..|steps|] == steps;
    assert !Matches(s'.rows[conflict], s'.calls[c].request);
  }

  lemma {:induction false} EveryCallTells(index: Index, owner: string -> int, steps: seq<Step>)
    ensures AllTell(index, owner, steps)
  {
    if |steps| > 0 {
      var before := steps[..|steps| - 1];
      EveryCallTells(index, owner, before);
      var s, s' := Reach(index, owner, before), Reach(index, owner, steps);
      forall c | c in s'.calls
        ensures s'.calls[c].startedAt <= |steps| && Tells(index, owner, steps, s'.calls[c])
      {
        if c in s.calls && s'.calls[c] == s.calls[c] {
          TellsLater(index, owner, steps, s.calls[c]);
        } else {
          ActorTells(index, owner, steps, c);
        }
      }
    }
  }

  // ---------------------------------------------------------------- get-or-create is atomic

  /** At most one generation of a fingerprint is active, in every state of every run. */
  lemma OneActivePerFingerprint(index: Index, owner: string -> int, steps: seq<Step>, i: nat, j: nat)
    requires var rows := Reach(index, owner, steps).rows;
      i < |rows| && j < |rows| && rows[i].fingerprint == rows[j].fingerprint && Active(rows[i]) && Active(rows[j])
    ensures i == j
  {
    EveryTable(index, owner, steps);
  }

  /** A successful call returns a row with its teacher and fingerprint that was active at a moment of the call. */
  lemma ReturnsAnActiveRow(index: Index, owner: string -> int, steps: seq<Step>, c: nat)
    requires var s := Reach(index, owner, steps); c in s.calls && s.calls[c].phase.Returned?
    ensures var call := Reach(index, owner, steps).calls[c];
      call.startedAt < call.phase.at <= |steps|
      && ServedAt(index, owner, steps, call.phase.at, call.phase.id, call.request)
  {
    EveryCallTells(index, owner, steps);
  }

  /** Two successful calls with one fingerprint got the same row, if the row of the first was still active at the moment
      the second was served. */
  lemma OverlappingCallsAgree(index: Index, owner: string -> int, steps: seq<Step>, c: nat, d: nat)
    requires var s := Reach(index, owner, steps);
      && c in s.calls && s.calls[c].phase.Returned? && d in s.calls && s.calls[d].phase.Returned?
      && s.calls[c].request == s.calls[d].request
    requires var s := Reach(index, owner, steps);
      s.calls[d].phase.at <= |steps|
      && ServedAt(index, owner, steps, s.calls[d].phase.at, s.calls[c].phase.id, s.calls[c].request)
    ensures var s := Reach(index, owner, steps); s.calls[c].phase.id == s.calls[d].phase.id
  {
    var s := Reach(index, owner, steps);
    ReturnsAnActiveRow(index, owner, steps, d);
    OneActivePerFingerprint(index, owner, steps[..s.calls[d].phase.at], s.calls[c].phase.id, s.calls[d].phase.id);
  }

  predicate CallTold(s: State, c: nat)
    requires c in s.calls
  {
    var phase := s.calls[c].phase;
    phase.Returned? ==> phase.id < |s.rows| && (phase.wasCreated <==> s.rows[phase.id].origin == Some(c))
  }

  predicate RowTold(s: State, i: nat)
    requires i < |s.rows|
  {
    s.rows[i].origin.Some? ==>
      var c := s.rows[i].origin.value;
      c in s.calls && (var phase := s.calls[c].phase; phase.Broken? || (phase.Returned? && phase.id == i && phase.wasCreated))
  }

  ghost predicate OriginsTold(s: State) {
    && (forall c | c in s.calls :: CallTold(s, c))
    && (forall i | 0 <= i < |s.rows| :: RowTold(s, i))
  }

  lemma CallToldKept(index: Index, owner: string -> int, s: State, step: Step, c: nat)
    requires OriginsTold(s) && c in Act(index, owner, s, step).calls
    ensures CallTold(Act(index, owner, s, step), c)
  {
    var s' := Act(index, owner, s, step);
    if c in s.calls {
      assert CallTold(s, c);
      if s'.calls[c].phase.Returned? && !s'.calls[c].phase.wasCreated {
        var id := s'.calls[c].phase.id;
        assert id < |s.rows| && RowTold(s, id);
      }
    }
  }

  lemma RowToldKept(index: Index, owner: string -> int, s: State, step: Step, i: nat)
    requires OriginsTold(s) && i < |Act(index, owner, s, step).rows|
    ensures RowTold(Act(index, owner, s, step), i)
  {
    if i < |s.rows| { assert RowTold(s, i); }
  }

  lemma {:induction false} EveryOriginTold(index: Index, owner: string -> int, steps: seq<Step>)
    ensures OriginsTold(Reach(index, owner, steps))
  {
    if |steps| > 0 {
      var before := steps[..|steps| - 1];
      EveryOriginTold(index, owner, before);
      var s := Reach(index, owner, before);
      OriginsTick(s, |steps|);
      var s' := Reach(index, owner, steps);
      forall c | c in s'.calls ensures CallTold(s', c) {
        CallToldKept(index, owner, s.(clock := |steps|), steps[|steps| - 1], c);
      }
      forall i | 0 <= i < |s'.rows| ensures RowTold(s', i) {
        RowToldKept(index, owner, s.(clock := |steps|), steps[|steps| - 1], i);
      }
    }
  }

  lemma OriginsTick(s: State, clock: nat)
    requires OriginsTold(s)
    ensures OriginsTold(s.(clock := clock))
  {
    forall c | c in s.calls ensures CallTold(s.(clock := clock), c) { assert CallTold(s, c); }
    forall i | 0 <= i < |s.rows| ensures RowTold(s.(clock := clock), i) { assert RowTold(s, i); }
  }

  /** A call says that it created a row exactly when it inserted that row; a row that a call inserted is reported as
      created by that call, unless the answer to the insert was lost, and by no other. */
  lemma CreatedOnce(index: Index, owner: string -> int, steps: seq<Step>, c: nat, i: nat)
    requires var s := Reach(index, owner, steps); c in s.calls && i < |s.rows|
    ensures var s := Reach(index, owner, steps); var phase := s.calls[c].phase;
      && (phase.Returned? && phase.id == i ==> (phase.wasCreated <==> s.rows[i].origin == Some(c)))
      && (s.rows[i].origin == Some(c) ==> phase.Broken? || (phase.Returned? && phase.id == i && phase.wasCreated))
  {
    EveryOriginTold(index, owner, steps);
    var s := Reach(index, owner, steps);
    assert CallTold(s, c) && RowTold(s, i);
  }

  // ---------------------------------------------------------------- the unique violation

  /** With the index that the comments intend, a call reports the unique violation only when the row that refused its
      insert was active then and had ended by the time of the retry, both during the call. */
  lemma ViolatedOnlyWhenTheDuplicateEnded(owner: string -> int, steps: seq<Step>, c: nat)
    requires var s := Reach(ActiveRows, owner, steps); c in s.calls && s.calls[c].phase.Violated?
    ensures var call := Reach(ActiveRows, owner, steps).calls[c];
      && call.startedAt < call.phase.refusedAt < call.phase.retriedAt
      && ServedAt(ActiveRows, owner, steps, call.phase.refusedAt, call.phase.conflict, call.request)
      && EndedAt(ActiveRows, owner, steps, call.phase.retriedAt, call.phase.conflict)
  {
    EveryCallTells(ActiveRows, owner, steps);
    var call := Reach(ActiveRows, owner, steps).calls[c];
    EveryTable(ActiveRows, owner, steps);
    EveryTable(ActiveRows, owner, steps[..call.phase.refusedAt]);
  }

  /** The fingerprint's only row has ended. */
  predicate Spent(s: State, fingerprint: string, id: nat) {
    && id < |s.rows| && s.rows[id].fingerprint == fingerprint && !Active(s.rows[id])
    && (forall i | 0 <= i < |s.rows| && s.rows[i].fingerprint == fingerprint :: i == id)
  }

  /** No call for the fingerprint has been served, or has a lookup behind it that found the row. */
  ghost predicate NoneServed(s: State, fingerprint: string, since: nat) {
    forall c | c in s.calls && s.calls[c].request.fingerprint == fingerprint && s.calls[c].startedAt > since ::
      !s.calls[c].phase.Returned?
  }

  predicate KeepsEnded(steps: seq<Step>, id: nat) {
    forall step | step in steps :: !(step.SetStatus? && step.id == id)
  }

  function StepAt(index: Index, owner: string -> int, s: State, clock: nat, step: Step): (r: State)
    ensures r.clock == clock
  {
    Act(index, owner, s.(clock := clock), step)
  }

  function Resume(index: Index, owner: string -> int, s: State, steps: seq<Step>): (r: State)
    ensures r.clock == s.clock + |steps|
  {
    if |steps| == 0 then s
    else
      StepAt(index, owner, Resume(index, owner, s, steps[..|steps| - 1]), s.clock + |steps|, steps[|steps| - 1])
  }

  ghost predicate LockedOut(s: State, fingerprint: string, id: nat, since: nat) {
    Spent(s, fingerprint, id) && NoneServed(s, fingerprint, since)
  }

  lemma LockoutStep(owner: string -> int, s: State, fingerprint: string, id: nat, since: nat, step: Step)
    requires LockedOut(s, fingerprint, id, since)
    requires !(step.SetStatus? && step.id == id)
    ensures LockedOut(Act(AllRows, owner, s, step), fingerprint, id, since)
  {
    if step.Lookup? || step.Retry? {
      LockoutLookup(owner, s, fingerprint, id, since, step);
    }
  }

  lemma LockoutTick(owner: string -> int, s: State, fingerprint: string, id: nat, since: nat, clock: nat)
    requires LockedOut(s, fingerprint, id, since)
    ensures LockedOut(s.(clock := clock), fingerprint, id, since)
  {
  }

  lemma LockoutLookup(owner: string -> int, s: State, fingerprint: string, id: nat, since: nat, step: Step)
    requires LockedOut(s, fingerprint, id, since)
    requires step.Lookup? || step.Retry?
    ensures NoneServed(Act(AllRows, owner, s, step), fingerprint, since)
  {
    var c := step.c;
    if c in s.calls && s.calls[c].request.fingerprint == fingerprint {
      var found := FindActive(s.rows, s.calls[c].request);
      assert found.None?;
    }
  }

  lemma {:induction false} EndedRowLocksOut(owner: string -> int, s: State, fingerprint: string, id: nat, since: nat,
                                            steps: seq<Step>)
    requires LockedOut(s, fingerprint, id, since)
    requires KeepsEnded(steps, id)
    ensures LockedOut(Resume(AllRows, owner, s, steps), fingerprint, id, since)
  {
    hide LockedOut;
    if |steps| > 0 {
      var before, step := steps[..|steps| - 1], steps[|steps| - 1];
      KeepsEndedSplit(steps, id);
      EndedRowLocksOut(owner, s, fingerprint, id, since, before);
      LockoutStepAt(owner, Resume(AllRows, owner, s, before), fingerprint, id, since, s.clock + |steps|, step);
    }
  }

  lemma KeepsEndedSplit(steps: seq<Step>, id: nat)
    requires KeepsEnded(steps, id) && |steps| > 0
    ensures KeepsEnded(steps[..|steps| - 1], id)
    ensures var step := steps[|steps| - 1]; !(step.SetStatus? && step.id == id)
  {
    assert steps[|steps| - 1] in steps;
    forall step | step in steps[..|steps| - 1] ensures !(step.SetStatus? && step.id == id) { assert step in steps; }
  }

  lemma LockoutStepAt(owner: string -> int, s: State, fingerprint: string, id: nat, since: nat, clock: nat, step: Step)
    requires LockedOut(s, fingerprint, id, since)
    requires !(step.SetStatus? && step.id == id)
    ensures LockedOut(StepAt(AllRows, owner, s, clock, step), fingerprint, id, since)
  {
    LockoutTick(owner, s, fingerprint, id, since, clock);
    LockoutStep(owner, s.(clock := clock), fingerprint, id, since, step);
  }

  /** With the index of the migration a generation that has ended locks its fingerprint out: after any run that ended
      with such a row, and as long as nothing queues that very row again, no later call for the fingerprint is ever
      served and no row for it is ever inserted, whatever runs. */
  lemma EndedGenerationLocksOut(owner: string -> int, past: seq<Step>, id: nat, future: seq<Step>)
    requires var rows := Reach(AllRows, owner, past).rows; id < |rows| && !Active(rows[id])
    requires KeepsEnded(future, id)
    ensures var s := Reach(AllRows, owner, past);
      var s' := Resume(AllRows, owner, s, future);
      && Spent(s', s.rows[id].fingerprint, id)
      && NoneServed(s', s.rows[id].fingerprint, |past|)
  {
    EveryTable(AllRows, owner, past);
    EveryCallTells(AllRows, owner, past);
    var s := Reach(AllRows, owner, past);
    EndedRowLocksOut(owner, s, s.rows[id].fingerprint, id, |past|, future);
  }

  // ---------------------------------------------------------------- the service

  datatype Answer = Served(id: nat, wasCreated: bool) | UniqueViolation | DatabaseError

  /** The table, with the service call as a method; between its statements anything may happen to the table. */
  class Table {
    const index: Index
    var rows: seq<Row>

    predicate Valid()
      reads this
    {
      Unique(index, rows)
    }

    constructor (index: Index)
      ensures this.index == index && rows == [] && Valid()
    {
      this.index := index;
      rows := [];
    }

    /** The other users of the table: they insert rows of their own and move rows along, within the index. */
    method Others(origin: nat)
      requires Valid()
      modifies this`rows
      ensures Valid() && Extends(old(rows), rows)
      ensures forall i | |old(rows)| <= i < |rows| :: rows[i].origin != Some(origin)
    {
    }

    /** The call returns a row that matches the request at that moment, says that it created it exactly when it did,
        leaves at most one row of its own, and none but the returned one unless the answer to its insert was lost; it
        reports the unique violation only when it inserted nothing and finds no active row, and a database error exactly
        when a statement it got to failed: the lookup; the insert, when no active row was there; or the second lookup, when
        the insert met another row. `atInsert` is the table that the insert found. */
    method CreateOrReuse(request: Request, origin: nat, lookup: Fault, insert: Fault, retry: Fault)
      returns (answer: Answer, ghost atInsert: seq<Row>)
      requires Valid()
      requires forall i | 0 <= i < |rows| :: rows[i].origin != Some(origin)
      modifies this`rows
      ensures Valid() && Extends(old(rows), atInsert) && Extends(atInsert, rows)
      ensures answer.Served? ==> answer.id < |rows| && Matches(rows[answer.id], request)
      ensures answer.Served? && answer.wasCreated ==>
        rows[answer.id] == Row(request.teacher, request.fingerprint, Queued, Some(origin))
      ensures !answer.DatabaseError? ==>
        forall i | 0 <= i < |rows| :: rows[i].origin == Some(origin) <==> answer == Served(i, true)
      ensures answer.DatabaseError? ==>
        forall i | 0 <= i < |rows| && rows[i].origin == Some(origin) ::
          i == |rows| - 1 && lookup.Fine? && insert.AnswerLost? && Matches(rows[i], request)
      ensures answer.UniqueViolation? ==> forall i | 0 <= i < |rows| :: !Matches(rows[i], request)
      ensures answer.DatabaseError? <==>
        || !lookup.Fine?
        || (FindActive(old(rows), request).None?
            && (!insert.Fine? || (FindConflict(index, atInsert, request.fingerprint).Some? && !retry.Fine?)))
    {
      atInsert := rows;
      if !lookup.Fine? { return DatabaseError, atInsert; }
      var found := FindActive(rows, request);
      if found.Some? {
        return Served(found.value, false), atInsert;
      }
      Others(origin);
      atInsert := rows;
      if insert.Lost? { return DatabaseError, atInsert; }
      var conflict := FindConflict(index, rows, request.fingerprint);
      if conflict.None? {
        rows := rows + [NewRow(request, Some(origin))];
        answer := if insert.Fine? then Served(|rows| - 1, true) else DatabaseError;
        return;
      }
      if !insert.Fine? { return DatabaseError, atInsert; }
      Others(origin);
      if !retry.Fine? { return DatabaseError, atInsert; }
      found := FindActive(rows, request);
      if found.Some? {
        return Served(found.value, false), atInsert;
      }
      return UniqueViolation, atInsert;
    }
  }

  // ---------------------------------------------------------------- one call on its own

  lemma ResumeStep(index: Index, owner: string -> int, s: State, steps: seq<Step>, step: Step)
    ensures Resume(index, owner, s, steps + [step])
         == StepAt(index, owner, Resume(index, owner, s, steps), s.clock + |steps| + 1, step)
  {
    hide StepAt;
    assert (steps + [step])[..|steps|] == steps;
  }

  /** The four statements of a call, as far as it gets, with nothing between them. */
  function Alone(c: nat, request: Request): seq<Step> {
    [Start(c, request)] + [Lookup(c, Fine)] + [Insert(c, Fine)] + [Retry(c, Fine)]
  }

  lemma ResumeOne(index: Index, owner: string -> int, s: State, one: Step)
    ensures Resume(index, owner, s, [one]) == StepAt(index, owner, s, s.clock + 1, one)
  {
    hide StepAt;
    assert [one][..0] == [];
  }

  lemma ResumeFour(index: Index, owner: string -> int, s: State, one: Step, two: Step, three: Step, four: Step)
    ensures var t := s.clock;
      Resume(index, owner, s, [one] + [two] + [three] + [four])
      == StepAt(index, owner, StepAt(index, owner, StepAt(index, owner, StepAt(index, owner, s,
           t + 1, one), t + 2, two), t + 3, three), t + 4, four)
  {
    hide StepAt, Resume;
    ResumeOne(index, owner, s, one);
    ResumeStep(index, owner, s, [one], two);
    ResumeStep(index, owner, s, [one] + [two], three);
    ResumeStep(index, owner, s, [one] + [two] + [three], four);
  }

  /** A row with this fingerprint that keeps a new one out of the index has ended. */
  predicate EndedRowBlocks(index: Index, rows: seq<Row>, fingerprint: string) {
    index.AllRows? && exists i :: 0 <= i < |rows| && rows[i].fingerprint == fingerprint && !Active(rows[i])
  }

  /** A call that runs alone, with no database error, reports the unique violation exactly when a row with its fingerprint
      has ended and is still in the index: never with the intended index, and with the migration's always once the first
      generation has ended. Otherwise it is served, and it adds a row exactly when it says so. */
  lemma UndisturbedCallFails(index: Index, owner: string -> int, s: State, c: nat, request: Request)
    requires TableInvariant(index, owner, s) && c !in s.calls && request.teacher == owner(request.fingerprint)
    ensures var s' := Resume(index, owner, s, Alone(c, request));
      && c in s'.calls
      && (s'.calls[c].phase.Violated? <==> EndedRowBlocks(index, s.rows, request.fingerprint))
      && (s'.calls[c].phase.Returned? <==> !EndedRowBlocks(index, s.rows, request.fingerprint))
      && s'.rows == (if s'.calls[c].phase.Returned? && s'.calls[c].phase.wasCreated
                     then s.rows + [Row(request.teacher, request.fingerprint, Queued, Some(c))] else s.rows)
  {
    ResumeFour(index, owner, s, Start(c, request), Lookup(c, Fine), Insert(c, Fine), Retry(c, Fine));
    hide Resume, StepAt;
    ActiveOrBlocked(index, owner, s.rows, request);
    AloneEnds(index, owner, s, c, request);
  }

  lemma AloneEnds(index: Index, owner: string -> int, s: State, c: nat, request: Request)
    requires c !in s.calls && request.teacher == owner(request.fingerprint)
    ensures var t := s.clock;
      var s' := StepAt(index, owner, StepAt(index, owner, StepAt(index, owner, StepAt(index, owner, s,
           t + 1, Start(c, request)), t + 2, Lookup(c, Fine)), t + 3, Insert(c, Fine)), t + 4, Retry(c, Fine));
      var found, conflict := FindActive(s.rows, request), FindConflict(index, s.rows, request.fingerprint);
      && c in s'.calls
      && (if found.Some? then s'.calls[c].phase.Returned? && !s'.calls[c].phase.wasCreated && s'.rows == s.rows
          else if conflict.None? then
            s'.calls[c].phase.Returned? && s'.calls[c].phase.wasCreated && s'.rows == s.rows + [NewRow(request, Some(c))]
          else s'.calls[c].phase.Violated? && s'.rows == s.rows)
  {
    var s1 := StepAt(index, owner, s, s.clock + 1, Start(c, request));
    assert s1.rows == s.rows && c in s1.calls && s1.calls[c].phase == Looking && s1.calls[c].request == request;
    var s2 := StepAt(index, owner, s1, s.clock + 2, Lookup(c, Fine));
    var found := FindActive(s.rows, request);
    assert s2.rows == s.rows && s2.calls[c].request == request;
    assert s2.calls[c].phase == if found.Some? then Returned(found.value, false, s.clock + 2) else Inserting;
    var s3 := StepAt(index, owner, s2, s.clock + 3, Insert(c, Fine));
    assert s3.calls[c].request == request;
  }

  lemma ActiveOrBlocked(index: Index, owner: string -> int, rows: seq<Row>, request: Request)
    requires Unique(index, rows) && request.teacher == owner(request.fingerprint)
    requires forall i | 0 <= i < |rows| :: rows[i].teacher == owner(rows[i].fingerprint)
    ensures FindActive(rows, request).None? && FindConflict(index, rows, request.fingerprint).Some?
       <==> EndedRowBlocks(index, rows, request.fingerprint)
  {
    var conflict := FindConflict(index, rows, request.fingerprint);
    if conflict.Some? && FindActive(rows, request).None? {
      assert !Matches(rows[conflict.value], request);
    }
  }
}
