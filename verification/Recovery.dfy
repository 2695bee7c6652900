/**
 * Recoverable multi-step operations: one entry point that starts and resumes a flow from
 * the stored checkpoints, under thrown steps, failing storage and a process that may die at any await.
 */
module Recovery {
  import opened Prelude
  import Lifecycle

  // ---------------------------------------------------------------- the operation machine

  datatype OpState = OpPending | OpRunning | OpInterrupted | OpCompleted | OpFailed | OpAbandoned
  datatype OpEvent = Start | Interrupt | Resume | Retry | Complete | Fail | Abandon

  /** `operationMachine`, as declared. */
  const OPERATION: Lifecycle.Definition<OpState, OpEvent> := Lifecycle.Definition(
    OpPending,
    [OpPending, OpRunning, OpInterrupted, OpCompleted, OpFailed, OpAbandoned],
    [OpCompleted, OpAbandoned],
    [ Lifecycle.Rule(OpPending, Start, OpRunning),
      Lifecycle.Rule(OpPending, Abandon, OpAbandoned),
      Lifecycle.Rule(OpRunning, Interrupt, OpInterrupted),
      Lifecycle.Rule(OpRunning, Complete, OpCompleted),
      Lifecycle.Rule(OpRunning, Fail, OpFailed),
      Lifecycle.Rule(OpRunning, Abandon, OpAbandoned),
      Lifecycle.Rule(OpInterrupted, Resume, OpRunning),
      Lifecycle.Rule(OpInterrupted, Complete, OpCompleted),
      Lifecycle.Rule(OpInterrupted, Fail, OpFailed),
      Lifecycle.Rule(OpInterrupted, Abandon, OpAbandoned),
      Lifecycle.Rule(OpFailed, Retry, OpRunning),
      Lifecycle.Rule(OpFailed, Abandon, OpAbandoned) ])

  /** The table read as a function. */
  function Move(from: OpState, event: OpEvent): Option<OpState>
  {
    match (from, event)
    case (OpPending, Start) => Some(OpRunning)
    case (OpRunning, Interrupt) => Some(OpInterrupted)
    case (OpRunning, Complete) => Some(OpCompleted)
    case (OpRunning, Fail) => Some(OpFailed)
    case (OpInterrupted, Resume) => Some(OpRunning)
    case (OpInterrupted, Complete) => Some(OpCompleted)
    case (OpInterrupted, Fail) => Some(OpFailed)
    case (OpFailed, Retry) => Some(OpRunning)
    case (_, Abandon) => if from.OpCompleted? || from.OpAbandoned? then None else Some(OpAbandoned)
    case (_, _) => None
  }

  /** Where the rule for a legal move stands in the table. */
  function RuleIndex(from: OpState, event: OpEvent): nat
  {
    match (from, event)
    case (OpPending, Start) => 0
    case (OpPending, _) => 1
    case (OpRunning, Interrupt) => 2
    case (OpRunning, Complete) => 3
    case (OpRunning, Fail) => 4
    case (OpRunning, _) => 5
    case (OpInterrupted, Resume) => 6
    case (OpInterrupted, Complete) => 7
    case (OpInterrupted, Fail) => 8
    case (OpInterrupted, _) => 9
    case (OpFailed, Retry) => 10
    case (_, _) => 11
  }

  lemma RuleAt(from: OpState, event: OpEvent)
    requires Move(from, event).Some?
    ensures RuleIndex(from, event) < |OPERATION.transitions|
    ensures OPERATION.transitions[RuleIndex(from, event)] == Lifecycle.Rule(from, event, Move(from, event).value)
  {
    match from
    case OpPending =>
    case OpRunning =>
    case OpInterrupted =>
    case OpCompleted =>
    case OpFailed =>
    case OpAbandoned =>
  }

  lemma RuleMoves(i: nat)
    requires i < |OPERATION.transitions|
    ensures var r := OPERATION.transitions[i]; Move(r.from, r.event) == Some(r.to) && RuleIndex(r.from, r.event) == i
  {
    if i < 6 { assert i == 0 || i == 1 || i == 2 || i == 3 || i == 4 || i == 5; }
    else { assert i == 6 || i == 7 || i == 8 || i == 9 || i == 10 || i == 11; }
  }

  lemma TableWellFormed()
    ensures Lifecycle.WellFormed(OPERATION)
  {
    var rules, states := OPERATION.transitions, OPERATION.states;
    assert states[0] == OpPending && states[1] == OpRunning && states[2] == OpInterrupted;
    assert states[3] == OpCompleted && states[4] == OpFailed && states[5] == OpAbandoned;
    forall i | 0 <= i < |rules| ensures Lifecycle.RuleFits(OPERATION, rules[i]) { RuleMoves(i); }
    forall i, j | 0 <= i < j < |rules| ensures !Lifecycle.SameKey(rules[i], rules[j]) { RuleMoves(i); RuleMoves(j); }
  }

  /** The declared table is valid and resolves exactly as `Move` does. */
  lemma OperationMachine(from: OpState, event: OpEvent)
    ensures Lifecycle.WellFormed(OPERATION)
    ensures Lifecycle.Resolve(OPERATION, from, event).Ok? <==> Move(from, event).Some?
    ensures Move(from, event).Some? ==> Lifecycle.Resolve(OPERATION, from, event) == Ok(Move(from, event).value)
  {
    TableWellFormed();
    if Move(from, event).Some? {
      RuleAt(from, event);
      Lifecycle.ResolveExactly(OPERATION, from, event, Move(from, event).value);
    }
    var resolved := Lifecycle.Resolve(OPERATION, from, event);
    if resolved.Ok? {
      Lifecycle.ResolveExactly(OPERATION, from, event, resolved.value);
      var i :| 0 <= i < |OPERATION.transitions|
        && OPERATION.transitions[i] == Lifecycle.Rule(from, event, resolved.value);
      RuleMoves(i);
    }
  }

  // ---------------------------------------------------------------- records and outcomes

  datatype StepStatus = Pending | Running | Succeeded | Failed | Skipped | Interrupted

  datatype StepCheckpoint = StepCheckpoint(
    id: string, status: StepStatus, attempt: nat, key: string, committed: bool,
    output: Option<string>, errorCode: Option<string>)

  datatype Record = Record(kind: string, state: OpState, steps: seq<StepCheckpoint>, lastErrorCode: Option<string>)

  datatype StepDef = StepDef(id: string, ownKey: Option<string>)

  datatype Definition = Definition(operationId: string, kind: string, steps: seq<StepDef>)

  /** What a step reports; an absent `committed` takes the source's default. */
  datatype Outcome =
    | ReportSucceeded(output: Option<string>, committed: Option<bool>)
    | ReportSkipped
    | ReportFailed(code: string, committed: Option<bool>)
    | ReportInterrupted(code: string, committed: Option<bool>)

  datatype ErrorCode = InvalidOperation | UnknownOperation | UnknownStep | TerminalOperation | StorageError

  datatype Decision = Skip | RunIt | Confirm

  function Decide(c: StepCheckpoint): Decision
  {
    if c.status.Succeeded? || c.status.Skipped? then Skip else if c.committed then Confirm else RunIt
  }

  function KeyOf(d: Definition, s: StepDef): string
  {
    if s.ownKey.Some? then s.ownKey.value else "operation:" + d.operationId + ":step:" + s.id
  }

  function Fresh(d: Definition): Record
  {
    Record(d.kind, OpPending,
           seq(|d.steps|, i requires 0 <= i < |d.steps| =>
             StepCheckpoint(d.steps[i].id, Pending, 0, KeyOf(d, d.steps[i]), false, None, None)),
           None)
  }

  /** `validateDefinition`: a kind, at least one step, and distinct non-empty step ids. */
  predicate ValidDefinition(d: Definition)
  {
    && d.kind != "" && d.steps != []
    && (forall i | 0 <= i < |d.steps| :: d.steps[i].id != "")
    && (forall i, j | 0 <= i < j < |d.steps| :: d.steps[i].id != d.steps[j].id)
  }

  function FindStep(steps: seq<StepCheckpoint>, id: string): Option<StepCheckpoint>
  {
    if steps == [] then None else if steps[0].id == id then Some(steps[0]) else FindStep(steps[1..], id)
  }

  /** The output of the most recently successful step before `id`, scanning in order. */
  function PreviousOutput(steps: seq<StepCheckpoint>, id: string): Option<string>
  {
    if steps == [] || steps[0].id == id then None
    else
      var later := PreviousOutput(steps[1..], id);
      if later.Some? then later else if steps[0].status.Succeeded? then steps[0].output else None
  }

  function WithStep(r: Record, c: StepCheckpoint): Record
  {
    r.(steps := seq(|r.steps|, i requires 0 <= i < |r.steps| => if r.steps[i].id == c.id then c else r.steps[i]))
  }

  datatype Stop = Stop(event: OpEvent, code: string)

  /** Folds a step's report into its checkpoint, and says whether the flow stops. */
  function ApplyOutcome(c: StepCheckpoint, o: Outcome): (StepCheckpoint, Option<Stop>)
  {
    match o
    case ReportSucceeded(output, committed) =>
      (c.(status := Succeeded, committed := if committed.Some? then committed.value else true, output := output, errorCode := None), None)
    case ReportSkipped => (c.(status := Skipped, errorCode := None), None)
    case ReportFailed(code, committed) =>
      if committed == Some(true) then
        (c.(status := Interrupted, committed := true, errorCode := Some(code)), Some(Stop(Interrupt, code)))
      else
        (c.(status := Failed, committed := false, errorCode := Some(code)), Some(Stop(Fail, code)))
    case ReportInterrupted(code, committed) =>
      var landed := committed == Some(true);
      (c.(status := Interrupted, committed := landed, errorCode := Some(code)), Some(Stop(Interrupt, code)))
  }

  function Advance(r: Record, event: OpEvent): Option<Record>
  {
    match Move(r.state, event)
    case None => None
    case Some(to) => Some(r.(state := to))
  }

  // ---------------------------------------------------------------- one call, with what the world does to it

  /** A storage write: kept; lost with the call stopped; or kept with the call stopped after it. */
  datatype Put = Kept | Lost | KeptThenStopped

  /** What comes of invoking a step: a report, a throw, or the process dies first. */
  datatype Ran = Reported(o: Outcome) | Threw | Died

  /** The world's choices for one call: write `n`, and the run of step `i`. */
  datatype World = World(puts: nat -> Put, runs: nat -> Ran)

  /** What an observer of storage and of the outside world sees. */
  datatype Event =
    | Wrote(r: Record)
    | Reopened(r: Record, i: nat)
    | Invoked(i: nat, key: string, attempt: nat, previous: Option<string>)

  datatype Ending = Progress(state: OpState) | Refused(code: ErrorCode) | Cut

  /** The history after a write. */
  function Saved(t: seq<Event>, put: Put, r: Record): seq<Event> { if put.Lost? then t else t + [Wrote(r)] }

  function RunningStep(c: StepCheckpoint): StepCheckpoint
  {
    c.(status := Running, attempt := c.attempt + 1, errorCode := None)
  }

  function OutcomeOf(ran: Ran): Outcome
    requires !ran.Died?
  {
    if ran.Threw? then ReportInterrupted("step_threw", None) else ran.o
  }

  /** The step loop of `runOperation` from step `i`; `t` is the history so far. */
  function RunFrom(d: Definition, t: seq<Event>, r: Record, i: nat, w: World): (seq<Event>, Ending)
    requires i <= |d.steps|
    decreases |d.steps| - i
  {
    if i == |d.steps| then Close(t, r, w.puts(2 * i + 1))
    else
      match FindStep(r.steps, d.steps[i].id)
      case None => (t, Refused(InvalidOperation))
      case Some(c) =>
        match Decide(c)
        case Skip => RunFrom(d, t, r, i + 1, w)
        case Confirm => (t, Progress(OpInterrupted))
        case RunIt => RunStep(d, t, r, i, c, w)
  }

  /** Every step is finished: the closing transition. */
  function Close(t: seq<Event>, r: Record, put: Put): (seq<Event>, Ending)
  {
    match Advance(r, Complete)
    case None => (t, Refused(InvalidOperation))
    case Some(done) =>
      (Saved(t, put, done.(lastErrorCode := None)), if put.Kept? then Progress(OpCompleted) else Refused(StorageError))
  }

  /** One step: checkpoint, invoke, fold in the report, and go on or stop. */
  function RunStep(d: Definition, t: seq<Event>, r: Record, i: nat, c: StepCheckpoint, w: World): (seq<Event>, Ending)
    requires i < |d.steps|
    decreases |d.steps| - i, 0
  {
    var running := RunningStep(c);
    var r1 := WithStep(r, running);
    var t1 := Saved(t, w.puts(2 * i + 1), r1);
    if !w.puts(2 * i + 1).Kept? then (t1, Refused(StorageError))
    else
      var t2 := t1 + [Invoked(i, running.key, running.attempt, PreviousOutput(r1.steps, d.steps[i].id))];
      if w.runs(i).Died? then (t2, Cut)
      else
        var (after, stop) := ApplyOutcome(running, OutcomeOf(w.runs(i)));
        var r2 := WithStep(r1, after);
        var put := w.puts(2 * i + 2);
        if stop.Some? then Stall(t2, r2, stop.value, put)
        else if !put.Kept? then (Saved(t2, put, r2), Refused(StorageError))
        else RunFrom(d, Saved(t2, put, r2), r2, i + 1, w)
  }

  /** The step stopped the flow. */
  function Stall(t: seq<Event>, r: Record, stop: Stop, put: Put): (seq<Event>, Ending)
  {
    match Advance(r, stop.event)
    case None => (t, Refused(InvalidOperation))
    case Some(r3) =>
      (Saved(t, put, r3.(lastErrorCode := Some(stop.code))),
       if put.Kept? then Progress(if stop.event.Interrupt? then OpInterrupted else OpFailed) else Refused(StorageError))
  }

  function ReentryEvent(s: OpState): OpEvent
  {
    if s.OpInterrupted? then Resume else if s.OpFailed? then Retry else Start
  }

  /** `runOperation`: starts or resumes from what is stored, which is the last record written. */
  function RunOperation(d: Definition, t: seq<Event>, w: World): (seq<Event>, Ending)
  {
    var stored := Last(t);
    if !ValidDefinition(d) then (t, Refused(InvalidOperation))
    else if stored.Some? && stored.value.kind != d.kind then (t, Refused(InvalidOperation))
    else
      var r := if stored.Some? then stored.value else Fresh(d);
      if r.state.OpCompleted? || r.state.OpAbandoned? then (t, Progress(r.state))
      else if r.state.OpRunning? then RunFrom(d, t, r, 0, w)
      else
        match Advance(r, ReentryEvent(r.state))
        case None => (t, Refused(InvalidOperation))
        case Some(r1) =>
          if !w.puts(0).Kept? then (Saved(t, w.puts(0), r1), Refused(StorageError))
          else RunFrom(d, Saved(t, w.puts(0), r1), r1, 0, w)
  }

  /** The last record written, which is what storage holds. */
  function Last(t: seq<Event>): Option<Record>
  {
    if t == [] then None
    else
      var e := t[|t| - 1];
      if e.Invoked? then Last(t[..|t| - 1]) else Some(e.r)
  }

  function IndexOf(steps: seq<StepCheckpoint>, id: string): nat
  {
    if steps == [] || steps[0].id == id then 0 else 1 + IndexOf(steps[1..], id)
  }

  function Resolved(c: StepCheckpoint, applied: bool): StepCheckpoint
  {
    if applied then c.(status := Succeeded, committed := true, errorCode := None)
    else c.(status := Pending, committed := false, errorCode := None)
  }

  /** `resolveInterruptedStep`: a human says whether one step's effect landed. Any step id is accepted. */
  function ResolveStep(t: seq<Event>, stepId: string, applied: bool, put: Put): (seq<Event>, Ending)
  {
    match Last(t)
    case None => (t, Refused(UnknownOperation))
    case Some(r) =>
      if r.state.OpCompleted? || r.state.OpAbandoned? then (t, Refused(TerminalOperation))
      else
        match FindStep(r.steps, stepId)
        case None => (t, Refused(UnknownStep))
        case Some(c) =>
          var next := WithStep(r, Resolved(c, applied));
          var moved := if next.state.OpInterrupted? || next.state.OpFailed? then Advance(next, ReentryEvent(next.state)) else Some(next);
          match moved
          case None => (t, Refused(InvalidOperation))
          case Some(out) =>
            (if put.Lost? then t else t + [if applied then Wrote(out) else Reopened(out, IndexOf(r.steps, stepId))],
             if put.Kept? then Progress(out.state) else Refused(StorageError))
  }

  /** `abandonOperation`. */
  function AbandonOperation(t: seq<Event>, put: Put): (seq<Event>, Ending)
  {
    match Last(t)
    case None => (t, Refused(UnknownOperation))
    case Some(r) =>
      if r.state.OpCompleted? || r.state.OpAbandoned? then (t, Refused(TerminalOperation))
      else match Advance(r, Abandon)
        case None => (t, Refused(InvalidOperation))
        case Some(out) => (Saved(t, put, out), if put.Kept? then Progress(OpAbandoned) else Refused(StorageError))
  }

  // ---------------------------------------------------------------- the stored record and the loops over it

  method ValidateDefinition(d: Definition) returns (valid: bool)
    ensures valid <==> ValidDefinition(d)
  {
    if d.kind == "" || d.steps == [] { return false; }
    var ids: set<string> := {};
    for i := 0 to |d.steps|
      invariant ids == set k | 0 <= k < i :: d.steps[k].id
      invariant forall k | 0 <= k < i :: d.steps[k].id != ""
      invariant forall k, l | 0 <= k < l < i :: d.steps[k].id != d.steps[l].id
    {
      if d.steps[i].id == "" || d.steps[i].id in ids { return false; }
      ids := ids + {d.steps[i].id};
    }
    valid := true;
  }

  /** One operation's storage slot; `trace` is what an observer has seen so far. */
  class OperationSlot {
    var stored: Option<Record>
    ghost var trace: seq<Event>

    ghost predicate Valid()
      reads this
    {
      stored == Last(trace)
    }

    constructor ()
      ensures Valid() && trace == []
    {
      stored, trace := None, [];
    }

    method Persist(r: Record, put: Put) returns (kept: bool)
      requires Valid()
      modifies this
      ensures Valid() && trace == Saved(old(trace), put, r) && kept == put.Kept?
    {
      if put.Lost? { return false; }
      stored := Some(r);
      trace := trace + [Wrote(r)];
      kept := put.Kept?;
    }

    /** `runOperation`, as the loop over the declared steps. */
    method Run(d: Definition, w: World) returns (ending: Ending)
      requires Valid()
      modifies this
      ensures Valid() && (trace, ending) == RunOperation(d, old(trace), w)
    {
      var valid := ValidateDefinition(d);
      if !valid { return Refused(InvalidOperation); }
      if stored.Some? && stored.value.kind != d.kind { return Refused(InvalidOperation); }
      var record := if stored.Some? then stored.value else Fresh(d);
      if record.state.OpCompleted? || record.state.OpAbandoned? { return Progress(record.state); }
      if !record.state.OpRunning? {
        var advanced := Advance(record, ReentryEvent(record.state));
        if advanced.None? { return Refused(InvalidOperation); }
        record := advanced.value;
        var kept := Persist(record, w.puts(0));
        if !kept { return Refused(StorageError); }
      }
      ending := RunSteps(d, record, w);
    }

    method RunSteps(d: Definition, start: Record, w: World) returns (ending: Ending)
      requires Valid()
      modifies this
      ensures Valid() && (trace, ending) == RunFrom(d, old(trace), start, 0, w)
    {
      var record := start;
      for i := 0 to |d.steps|
        invariant Valid()
        invariant RunFrom(d, trace, record, i, w) == RunFrom(d, old(trace), start, 0, w)
      {
        var found := FindStep(record.steps, d.steps[i].id);
        if found.None? { return Refused(InvalidOperation); }
        var checkpoint := found.value;
        var decision := Decide(checkpoint);
        if decision.Confirm? { return Progress(OpInterrupted); }
        if decision.RunIt? {
          var running := RunningStep(checkpoint);
          record := WithStep(record, running);
          var kept := Persist(record, w.puts(2 * i + 1));
          if !kept { return Refused(StorageError); }
          trace := trace + [Invoked(i, running.key, running.attempt, PreviousOutput(record.steps, d.steps[i].id))];
          LastAfterInvocation(trace);
          if w.runs(i).Died? { return Cut; }
          var (after, stop) := ApplyOutcome(running, OutcomeOf(w.runs(i)));
          record := WithStep(record, after);
          if stop.Some? {
            var stalled := Advance(record, stop.value.event);
            if stalled.None? { return Refused(InvalidOperation); }
            kept := Persist(stalled.value.(lastErrorCode := Some(stop.value.code)), w.puts(2 * i + 2));
            if !kept { return Refused(StorageError); }
            return Progress(if stop.value.event.Interrupt? then OpInterrupted else OpFailed);
          }
          kept := Persist(record, w.puts(2 * i + 2));
          if !kept { return Refused(StorageError); }
        }
      }
      var completed := Advance(record, Complete);
      if completed.None? { return Refused(InvalidOperation); }
      var kept := Persist(completed.value.(lastErrorCode := None), w.puts(2 * |d.steps| + 1));
      if !kept { return Refused(StorageError); }
      ending := Progress(OpCompleted);
    }

    method Resolve(stepId: string, applied: bool, put: Put) returns (ending: Ending)
      requires Valid()
      modifies this
      ensures Valid() && (trace, ending) == ResolveStep(old(trace), stepId, applied, put)
    {
      if stored.None? { return Refused(UnknownOperation); }
      var record := stored.value;
      if record.state.OpCompleted? || record.state.OpAbandoned? { return Refused(TerminalOperation); }
      var found := FindStep(record.steps, stepId);
      if found.None? { return Refused(UnknownStep); }
      var next := WithStep(record, Resolved(found.value, applied));
      if next.state.OpInterrupted? || next.state.OpFailed? {
        var advanced := Advance(next, ReentryEvent(next.state));
        if advanced.None? { return Refused(InvalidOperation); }
        next := advanced.value;
      }
      if !put.Lost? {
        trace := trace + [if applied then Wrote(next) else Reopened(next, IndexOf(record.steps, stepId))];
        stored := Some(next);
      }
      ending := if put.Kept? then Progress(next.state) else Refused(StorageError);
    }

    method AbandonIt(put: Put) returns (ending: Ending)
      requires Valid()
      modifies this
      ensures Valid() && (trace, ending) == AbandonOperation(old(trace), put)
    {
      if stored.None? { return Refused(UnknownOperation); }
      if stored.value.state.OpCompleted? || stored.value.state.OpAbandoned? { return Refused(TerminalOperation); }
      var advanced := Advance(stored.value, Abandon);
      if advanced.None? { return Refused(InvalidOperation); }
      var kept := Persist(advanced.value, put);
      ending := if kept then Progress(OpAbandoned) else Refused(StorageError);
    }
  }

  lemma LastAfterInvocation(t: seq<Event>)
    requires t != [] && t[|t| - 1].Invoked?
    ensures Last(t) == Last(t[..|t| - 1])
  {
  }
}
