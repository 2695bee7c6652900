/** What every history of runs, resumes, resolutions, crashes and storage failures keeps. */
module RecoveryRuns {
  import opened Prelude
  import opened Recovery

  /** The step's effect must not be repeated: it is finished, or it reported that its effect landed. */
  predicate Settled(c: StepCheckpoint) { c.status.Succeeded? || c.status.Skipped? || c.committed }

  predicate Finished(c: StepCheckpoint) { c.status.Succeeded? || c.status.Skipped? }

  /** The record belongs to the definition: same steps in the same order, under their fixed keys. */
  predicate Fits(d: Definition, r: Record)
  {
    && r.kind == d.kind && |r.steps| == |d.steps|
    && forall i | 0 <= i < |d.steps| :: r.steps[i].id == d.steps[i].id && r.steps[i].key == KeyOf(d, d.steps[i])
  }

  predicate Legal(from: OpState, to: OpState)
  {
    from == to || exists e: OpEvent :: Move(from, e) == Some(to)
  }

  function StateOf(before: Option<Record>): OpState { if before.Some? then before.value.state else OpPending }

  function AttemptOf(before: Option<Record>, i: nat): nat
  {
    if before.Some? && i < |before.value.steps| then before.value.steps[i].attempt else 0
  }

  ghost predicate StaysSettled(before: Record, r: Record, but: Option<nat>)
  {
    && |before.steps| == |r.steps|
    && forall j | 0 <= j < |r.steps| && Settled(before.steps[j]) && but != Some(j) :: Settled(r.steps[j])
  }

  /** What every write keeps of the record before it, except that a human may reopen step `but`. */
  ghost predicate WriteLaw(d: Definition, before: Option<Record>, r: Record, but: Option<nat>)
  {
    && Fits(d, r)
    && Legal(StateOf(before), r.state)
    && (before.Some? ==> !before.value.state.OpCompleted? && !before.value.state.OpAbandoned?)
    && (r.state.OpCompleted? ==> forall j | 0 <= j < |r.steps| :: Finished(r.steps[j]))
    && (forall j | 0 <= j < |r.steps| :: AttemptOf(before, j) <= r.steps[j].attempt)
    && (before.Some? ==> Fits(d, before.value) && StaysSettled(before.value, r, but))
  }

  /** A step is invoked right after the write that counts the attempt, with every earlier step finished. */
  ghost predicate InvokeLaw(d: Definition, t: seq<Event>, i: nat, key: string, attempt: nat, previous: Option<string>)
  {
    && t != [] && t[|t| - 1].Wrote?
    && var before, now := Last(t[..|t| - 1]), t[|t| - 1].r;
    && i < |d.steps| == |now.steps|
    && key == KeyOf(d, d.steps[i])
    && attempt == now.steps[i].attempt == AttemptOf(before, i) + 1
    && (before.Some? && i < |before.value.steps| ==> !Settled(before.value.steps[i]))
    && !Settled(now.steps[i]) && now.state.OpRunning?
    && (forall j | 0 <= j < i :: Finished(now.steps[j]))
    && LatestOutput(now.steps, i, previous)
  }

  /** `previous` is the output of the latest succeeded step before `i` that has one. */
  ghost predicate LatestOutput(steps: seq<StepCheckpoint>, i: nat, previous: Option<string>)
    requires i <= |steps|
  {
    match previous
    case None => forall j | 0 <= j < i :: !HasOutput(steps[j])
    case Some(v) =>
      exists k | 0 <= k < i :: HasOutput(steps[k]) && steps[k].output == previous && forall j | k < j < i :: !HasOutput(steps[j])
  }

  predicate HasOutput(c: StepCheckpoint) { c.status.Succeeded? && c.output.Some? }

  ghost predicate Law(d: Definition, t: seq<Event>, e: Event)
  {
    match e
    case Wrote(r) => WriteLaw(d, Last(t), r, None)
    case Reopened(r, i) => WriteLaw(d, Last(t), r, Some(i))
    case Invoked(i, key, attempt, previous) => InvokeLaw(d, t, i, key, attempt, previous)
  }

  ghost predicate LawAt(d: Definition, t: seq<Event>, q: nat)
    requires q < |t|
  {
    Law(d, t[..q], t[q])
  }

  /** Every event obeys the law after the events before it. */
  ghost predicate Lawful(d: Definition, t: seq<Event>)
  {
    forall q | 0 <= q < |t| :: LawAt(d, t, q)
  }

  lemma Extend(d: Definition, t: seq<Event>, e: Event)
    requires Lawful(d, t) && Law(d, t, e)
    ensures Lawful(d, t + [e])
    ensures !e.Invoked? ==> Last(t + [e]) == Some(e.r)
    ensures e.Invoked? ==> Last(t + [e]) == Last(t)
  {
    var more := t + [e];
    assert more[..|t|] == t;
    forall q | 0 <= q < |more| ensures LawAt(d, more, q) {
      if q < |t| { assert LawAt(d, t, q) && more[..q] == t[..q]; }
    }
  }

  // ---------------------------------------------------------------- records under step updates

  lemma {:induction false} FindAt(steps: seq<StepCheckpoint>, i: nat)
    requires i < |steps| && forall j | 0 <= j < i :: steps[j].id != steps[i].id
    ensures FindStep(steps, steps[i].id) == Some(steps[i]) && IndexOf(steps, steps[i].id) == i
    decreases |steps|
  {
    if i > 0 { FindAt(steps[1..], i - 1); }
  }

  lemma {:induction false} FindMeans(steps: seq<StepCheckpoint>, id: string)
    ensures var i := IndexOf(steps, id);
      && (FindStep(steps, id).Some? <==> i < |steps|)
      && (i < |steps| ==> FindStep(steps, id) == Some(steps[i]) && steps[i].id == id)
    decreases |steps|
  {
    if steps != [] && steps[0].id != id { FindMeans(steps[1..], id); }
  }

  lemma {:induction false} PreviousIsLatest(steps: seq<StepCheckpoint>, i: nat)
    requires i < |steps| && forall j | 0 <= j < i :: steps[j].id != steps[i].id
    ensures LatestOutput(steps, i, PreviousOutput(steps, steps[i].id))
    decreases |steps|
  {
    if i > 0 {
      var rest := steps[1..];
      PreviousIsLatest(rest, i - 1);
      var later := PreviousOutput(rest, steps[i].id);
      if later.Some? {
        var k :| 0 <= k < i - 1 && HasOutput(rest[k]) && rest[k].output == later && forall j | k < j < i - 1 :: !HasOutput(rest[j]);
        assert HasOutput(steps[k + 1]) && steps[k + 1].output == later;
        assert forall j | k + 1 < j < i :: steps[j] == rest[j - 1];
      } else {
        assert forall j | 0 < j < i :: steps[j] == rest[j - 1];
        if HasOutput(steps[0]) { assert steps[0].output == PreviousOutput(steps, steps[i].id); }
      }
    }
  }

  /** In a fitting record a step is found at its own place, and replacing it touches no other. */
  lemma StepAt(d: Definition, r: Record, i: nat, c: StepCheckpoint)
    requires ValidDefinition(d) && Fits(d, r) && i < |d.steps| && c.id == r.steps[i].id
    ensures FindStep(r.steps, d.steps[i].id) == Some(r.steps[i]) && IndexOf(r.steps, d.steps[i].id) == i
    ensures WithStep(r, c) == r.(steps := r.steps[i := c])
    ensures LatestOutput(r.steps, i, PreviousOutput(r.steps, d.steps[i].id))
  {
    assert forall j | 0 <= j < |d.steps| && j != i :: d.steps[j].id != d.steps[i].id;
    FindAt(r.steps, i);
    PreviousIsLatest(r.steps, i);
    assert WithStep(r, c).steps == r.steps[i := c];
  }

  // ---------------------------------------------------------------- one call obeys the law

  /** Where the step loop stands: the stored record is running and every step before `i` is finished. */
  ghost predicate At(d: Definition, t: seq<Event>, r: Record, i: nat)
  {
    && ValidDefinition(d) && Lawful(d, t) && Last(t) == Some(r) && Fits(d, r) && r.state.OpRunning?
    && i <= |d.steps| && forall j | 0 <= j < i :: Finished(r.steps[j])
  }

  /** A write that replaces step `i` of the running record, and its new state, obey the law. */
  lemma StepWrite(d: Definition, t: seq<Event>, r: Record, i: nat, c: StepCheckpoint, state: OpState, code: Option<string>)
    requires At(d, t, r, i) && i < |d.steps| && !Settled(r.steps[i])
    requires c.id == r.steps[i].id && c.key == r.steps[i].key && r.steps[i].attempt <= c.attempt
    requires state.OpRunning? || state.OpInterrupted? || state.OpFailed?
    ensures Law(d, t, Wrote(Record(r.kind, state, r.steps[i := c], code)))
  {
    assert Move(OpRunning, Interrupt) == Some(OpInterrupted) && Move(OpRunning, Fail) == Some(OpFailed);
  }

  lemma FinishWrite(d: Definition, t: seq<Event>, r: Record)
    requires At(d, t, r, |d.steps|)
    ensures Law(d, t, Wrote(r.(state := OpCompleted, lastErrorCode := None)))
  {
    assert Move(OpRunning, Complete) == Some(OpCompleted);
  }

  /** The checkpoint written before a step runs. */
  lemma RunningWrite(d: Definition, t: seq<Event>, r: Record, i: nat)
    requires At(d, t, r, i) && i < |d.steps| && !Settled(r.steps[i])
    ensures var running := RunningStep(r.steps[i]);
      var r1 := r.(steps := r.steps[i := running]);
      WithStep(r, running) == r1 && At(d, t + [Wrote(r1)], r1, i) && !Settled(r1.steps[i])
  {
    var running := RunningStep(r.steps[i]);
    var r1 := r.(steps := r.steps[i := running]);
    StepAt(d, r, i, running);
    StepWrite(d, t, r, i, running, OpRunning, r.lastErrorCode);
    Extend(d, t, Wrote(r1));
  }

  lemma InvokeAfterWrite(d: Definition, t: seq<Event>, r: Record, i: nat, running: StepCheckpoint)
    requires At(d, t, r, i) && i < |d.steps| && !Settled(r.steps[i]) && running == RunningStep(r.steps[i])
    ensures var r1 := r.(steps := r.steps[i := running]);
      InvokeLaw(d, t + [Wrote(r1)], i, running.key, running.attempt, PreviousOutput(r1.steps, d.steps[i].id))
  {
    var r1 := r.(steps := r.steps[i := running]);
    assert (t + [Wrote(r1)])[..|t|] == t;
    StepAt(d, r1, i, running);
  }

  /** The checkpoint written before a step runs, and then its invocation. */
  lemma Invocation(d: Definition, t: seq<Event>, r: Record, i: nat)
    requires At(d, t, r, i) && i < |d.steps| && !Settled(r.steps[i])
    ensures var running := RunningStep(r.steps[i]);
      var r1 := r.(steps := r.steps[i := running]);
      && WithStep(r, running) == r1
      && At(d, t + [Wrote(r1)], r1, i) && !Settled(r1.steps[i])
      && At(d, t + [Wrote(r1)] + [Invoked(i, running.key, running.attempt, PreviousOutput(r1.steps, d.steps[i].id))], r1, i)
  {
    var running := RunningStep(r.steps[i]);
    var r1 := r.(steps := r.steps[i := running]);
    RunningWrite(d, t, r, i);
    InvokeAfterWrite(d, t, r, i, running);
    Extend(d, t + [Wrote(r1)], Invoked(i, running.key, running.attempt, PreviousOutput(r1.steps, d.steps[i].id)));
  }

  lemma CloseLawful(d: Definition, t: seq<Event>, r: Record, put: Put)
    requires At(d, t, r, |d.steps|)
    ensures Lawful(d, Close(t, r, put).0)
  {
    var done := r.(state := OpCompleted, lastErrorCode := None);
    assert Advance(r, Complete) == Some(r.(state := OpCompleted));
    if !put.Lost? {
      FinishWrite(d, t, r);
      Extend(d, t, Wrote(done));
      assert Close(t, r, put).0 == t + [Wrote(done)];
    }
  }

  /** The write of a step's report when the flow goes on: the next step may be looked at. */
  lemma ReportWrite(d: Definition, t: seq<Event>, r: Record, i: nat, after: StepCheckpoint)
    requires At(d, t, r, i) && i < |d.steps| && !Settled(r.steps[i])
    requires after.id == r.steps[i].id && after.key == r.steps[i].key && r.steps[i].attempt == after.attempt && Finished(after)
    ensures var r2 := WithStep(r, after); At(d, t + [Wrote(r2)], r2, i + 1)
  {
    StepAt(d, r, i, after);
    StepWrite(d, t, r, i, after, OpRunning, r.lastErrorCode);
    Extend(d, t, Wrote(WithStep(r, after)));
  }

  lemma StallLawful(d: Definition, t: seq<Event>, r: Record, i: nat, after: StepCheckpoint, stop: Stop, put: Put)
    requires At(d, t, r, i) && i < |d.steps| && !Settled(r.steps[i])
    requires after.id == r.steps[i].id && after.key == r.steps[i].key && r.steps[i].attempt == after.attempt
    requires stop.event.Interrupt? || stop.event.Fail?
    ensures Lawful(d, Stall(t, WithStep(r, after), stop, put).0)
  {
    StepAt(d, r, i, after);
    var r3 := Record(r.kind, Move(OpRunning, stop.event).value, r.steps[i := after], Some(stop.code));
    StepWrite(d, t, r, i, after, r3.state, r3.lastErrorCode);
    Extend(d, t, Wrote(r3));
  }

  /** What folding in a report can do to a running checkpoint. */
  lemma OutcomeFolds(c: StepCheckpoint, o: Outcome)
    ensures var (after, stop) := ApplyOutcome(c, o);
      && after.id == c.id && after.key == c.key && after.attempt == c.attempt
      && (stop.None? ==> Finished(after))
      && (stop.Some? ==> stop.value.event.Interrupt? || stop.value.event.Fail?)
  {
  }

  /** What the loop does at step `i`, found there as `c`. */
  lemma RunFromIs(d: Definition, t: seq<Event>, r: Record, i: nat, c: StepCheckpoint, w: World)
    requires i < |d.steps| && FindStep(r.steps, d.steps[i].id) == Some(c)
    ensures Decide(c).Skip? ==> Finished(c) && RunFrom(d, t, r, i, w).0 == RunFrom(d, t, r, i + 1, w).0
    ensures Decide(c).Confirm? ==> RunFrom(d, t, r, i, w).0 == t
    ensures Decide(c).RunIt? ==> !Settled(c) && RunFrom(d, t, r, i, w).0 == RunStep(d, t, r, i, c, w).0
  {
  }

  lemma PassStep(d: Definition, t: seq<Event>, r: Record, i: nat)
    requires At(d, t, r, i) && i < |d.steps| && Finished(r.steps[i])
    ensures At(d, t, r, i + 1)
  {
  }

  lemma FoundAt(d: Definition, t: seq<Event>, r: Record, i: nat)
    requires At(d, t, r, i) && i < |d.steps|
    ensures i < |r.steps| && FindStep(r.steps, d.steps[i].id) == Some(r.steps[i])
  {
    StepAt(d, r, i, r.steps[i]);
  }

  lemma {:induction false} RunFromLawful(d: Definition, t: seq<Event>, r: Record, i: nat, w: World)
    requires At(d, t, r, i)
    ensures Lawful(d, RunFrom(d, t, r, i, w).0)
    decreases |d.steps| - i, 1
  {
    if i == |d.steps| {
      CloseLawful(d, t, r, w.puts(2 * i + 1));
    } else {
      FoundAt(d, t, r, i);
      RunFromIs(d, t, r, i, r.steps[i], w);
      if Decide(r.steps[i]).Skip? {
        PassStep(d, t, r, i);
        RunFromLawful(d, t, r, i + 1, w);
      } else if Decide(r.steps[i]).RunIt? {
        RunStepLawful(d, t, r, i, w);
      }
    }
  }

  lemma {:induction false} RunStepLawful(d: Definition, t: seq<Event>, r: Record, i: nat, w: World)
    requires At(d, t, r, i) && i < |d.steps| && !Settled(r.steps[i])
    ensures Lawful(d, RunStep(d, t, r, i, r.steps[i], w).0)
    decreases |d.steps| - i, 0
  {
    var running := RunningStep(r.steps[i]);
    var r1 := r.(steps := r.steps[i := running]);
    Invocation(d, t, r, i);
    var t2 := t + [Wrote(r1)] + [Invoked(i, running.key, running.attempt, PreviousOutput(r1.steps, d.steps[i].id))];
    if w.puts(2 * i + 1).Kept? && !w.runs(i).Died? {
      var (after, stop) := ApplyOutcome(running, OutcomeOf(w.runs(i)));
      OutcomeFolds(running, OutcomeOf(w.runs(i)));
      var put := w.puts(2 * i + 2);
      if stop.Some? {
        StallLawful(d, t2, r1, i, after, stop.value, put);
      } else {
        ReportWrite(d, t2, r1, i, after);
        if put.Kept? { RunFromLawful(d, t2 + [Wrote(WithStep(r1, after))], WithStep(r1, after), i + 1, w); }
      }
    }
  }

  lemma FreshFits(d: Definition)
    ensures Fits(d, Fresh(d)) && forall j | 0 <= j < |d.steps| :: !Settled(Fresh(d).steps[j]) && Fresh(d).steps[j].attempt == 0
  {
  }

  /** A lawful history stores a record that fits, and finished when completed. */
  lemma {:induction false} LastFits(d: Definition, t: seq<Event>)
    requires Lawful(d, t) && Last(t).Some?
    ensures Fits(d, Last(t).value)
    decreases |t|
  {
    var n := |t| - 1;
    assert LawAt(d, t, n);
    if t[n].Invoked? {
      forall q | 0 <= q < n ensures LawAt(d, t[..n], q) { assert t[..n][..q] == t[..q] && LawAt(d, t, q); }
      LastFits(d, t[..n]);
    }
  }

  /** Re-entering the running state obeys the law. */
  lemma ReentryWrite(d: Definition, t: seq<Event>, r: Record)
    requires ValidDefinition(d) && Lawful(d, t) && r == (if Last(t).Some? then Last(t).value else Fresh(d))
    requires r.state.OpPending? || r.state.OpInterrupted? || r.state.OpFailed?
    ensures Advance(r, ReentryEvent(r.state)) == Some(r.(state := OpRunning))
    ensures At(d, t + [Wrote(r.(state := OpRunning))], r.(state := OpRunning), 0)
  {
    if Last(t).Some? { LastFits(d, t); } else { FreshFits(d); }
    var r1 := r.(state := OpRunning);
    assert Move(r.state, ReentryEvent(r.state)) == Some(OpRunning);
    assert Law(d, t, Wrote(r1));
    Extend(d, t, Wrote(r1));
  }

  lemma RunLawful(d: Definition, t: seq<Event>, w: World)
    requires Lawful(d, t)
    ensures Lawful(d, RunOperation(d, t, w).0)
  {
    if ValidDefinition(d) && (Last(t).Some? ==> Last(t).value.kind == d.kind) {
      var r := if Last(t).Some? then Last(t).value else Fresh(d);
      if r.state.OpRunning? {
        LastFits(d, t);
        RunFromLawful(d, t, r, 0, w);
      } else if !r.state.OpCompleted? && !r.state.OpAbandoned? {
        ReentryWrite(d, t, r);
        if w.puts(0).Kept? { RunFromLawful(d, t + [Wrote(r.(state := OpRunning))], r.(state := OpRunning), 0, w); }
      }
    }
  }

  /** A human resolution obeys the law: only the step it reopens may stop being settled. */
  lemma ResolveWrite(d: Definition, t: seq<Event>, i: nat, applied: bool, state: OpState)
    requires Lawful(d, t) && Last(t).Some? && i < |Last(t).value.steps|
    requires var was := Last(t).value.state;
      && !was.OpCompleted? && !was.OpAbandoned?
      && state == if was.OpInterrupted? || was.OpFailed? then OpRunning else was
    ensures var r := Last(t).value;
      var out := r.(state := state, steps := r.steps[i := Resolved(r.steps[i], applied)]);
      Law(d, t, if applied then Wrote(out) else Reopened(out, i))
  {
    LastFits(d, t);
    assert Move(OpInterrupted, Resume) == Some(OpRunning) && Move(OpFailed, Retry) == Some(OpRunning);
  }

  /** What a resolution that is not refused writes. */
  lemma ResolveShape(d: Definition, t: seq<Event>, stepId: string, applied: bool, put: Put, i: nat)
    requires ValidDefinition(d) && Last(t).Some? && Fits(d, Last(t).value) && i == IndexOf(Last(t).value.steps, stepId)
    requires i < |Last(t).value.steps| && !Last(t).value.state.OpCompleted? && !Last(t).value.state.OpAbandoned? && !put.Lost?
    ensures var r := Last(t).value;
      var state := if r.state.OpInterrupted? || r.state.OpFailed? then OpRunning else r.state;
      var out := r.(state := state, steps := r.steps[i := Resolved(r.steps[i], applied)]);
      ResolveStep(t, stepId, applied, put).0 == t + [if applied then Wrote(out) else Reopened(out, i)]
  {
    var r := Last(t).value;
    FindMeans(r.steps, stepId);
    StepAt(d, r, i, Resolved(r.steps[i], applied));
  }

  lemma ResolveLawful(d: Definition, t: seq<Event>, stepId: string, applied: bool, put: Put)
    requires ValidDefinition(d) && Lawful(d, t)
    ensures Lawful(d, ResolveStep(t, stepId, applied, put).0)
  {
    if Last(t).Some? {
      var r := Last(t).value;
      LastFits(d, t);
      FindMeans(r.steps, stepId);
      var i := IndexOf(r.steps, stepId);
      if i < |r.steps| && !r.state.OpCompleted? && !r.state.OpAbandoned? && !put.Lost? {
        var state := if r.state.OpInterrupted? || r.state.OpFailed? then OpRunning else r.state;
        var out := r.(state := state, steps := r.steps[i := Resolved(r.steps[i], applied)]);
        ResolveWrite(d, t, i, applied, state);
        Extend(d, t, if applied then Wrote(out) else Reopened(out, i));
        ResolveShape(d, t, stepId, applied, put, i);
      } else {
        assert ResolveStep(t, stepId, applied, put).0 == t;
      }
    }
  }

  lemma AbandonLawful(d: Definition, t: seq<Event>, put: Put)
    requires Lawful(d, t)
    ensures Lawful(d, AbandonOperation(t, put).0)
  {
    if Last(t).Some? {
      var r := Last(t).value;
      LastFits(d, t);
      if !r.state.OpCompleted? && !r.state.OpAbandoned? && !put.Lost? {
        var out := r.(state := OpAbandoned);
        assert Move(r.state, Abandon) == Some(OpAbandoned);
        assert Law(d, t, Wrote(out));
        Extend(d, t, Wrote(out));
      }
    }
  }

  // ---------------------------------------------------------------- whole histories

  datatype Act = RunAct(w: World) | ResolveAct(stepId: string, applied: bool, put: Put) | AbandonAct(put: Put)

  function Do(d: Definition, t: seq<Event>, a: Act): seq<Event>
  {
    match a
    case RunAct(w) => RunOperation(d, t, w).0
    case ResolveAct(stepId, applied, put) => ResolveStep(t, stepId, applied, put).0
    case AbandonAct(put) => AbandonOperation(t, put).0
  }

  function History(d: Definition, acts: seq<Act>): seq<Event>
  {
    if acts == [] then [] else Do(d, History(d, acts[..|acts| - 1]), acts[|acts| - 1])
  }

  /** Every history of one operation, however its calls are cut short, is lawful. */
  lemma {:induction false} HistoryLawful(d: Definition, acts: seq<Act>)
    requires ValidDefinition(d)
    ensures Lawful(d, History(d, acts))
  {
    if acts != [] {
      var shorter := acts[..|acts| - 1];
      HistoryLawful(d, shorter);
      match acts[|acts| - 1]
      case RunAct(w) => RunLawful(d, History(d, shorter), w);
      case ResolveAct(stepId, applied, put) => ResolveLawful(d, History(d, shorter), stepId, applied, put);
      case AbandonAct(put) => AbandonLawful(d, History(d, shorter), put);
    }
  }

  // ---------------------------------------------------------------- what the law gives

  /** Some human resolution between `from` and `to` reopened step `i`. */
  ghost predicate ReopenedIn(t: seq<Event>, from: nat, to: nat, i: nat)
    requires to <= |t|
  {
    exists m | from <= m < to :: t[m].Reopened? && t[m].i == i
  }

  /** Once a record with step `i` settled is stored, every later stored record has it settled, unless reopened. */
  lemma {:induction false} StaysSettledUntilReopened(d: Definition, t: seq<Event>, p: nat, q: nat, i: nat)
    requires Lawful(d, t) && p < q <= |t| && !t[p].Invoked? && i < |d.steps|
    requires |t[p].r.steps| == |d.steps| && Settled(t[p].r.steps[i]) && !ReopenedIn(t, p + 1, q, i)
    ensures Last(t[..q]).Some? && |Last(t[..q]).value.steps| == |d.steps| && Settled(Last(t[..q]).value.steps[i])
    decreases q
  {
    assert t[..q][..q - 1] == t[..q - 1];
    if q > p + 1 {
      StaysSettledUntilReopened(d, t, p, q - 1, i);
      assert LawAt(d, t, q - 1);
    }
  }

  /**
   * At most once: after a step is stored as finished, or stored with its effect reported landed, it is not
   * invoked again unless a human reopened that very step in between.
   */
  lemma NeverInvokedAgain(d: Definition, acts: seq<Act>, p: nat, q: nat)
    requires ValidDefinition(d) && p < q < |History(d, acts)|
    requires var t := History(d, acts);
      && !t[p].Invoked? && t[q].Invoked?
      && t[q].i < |t[p].r.steps| && Settled(t[p].r.steps[t[q].i])
    ensures ReopenedIn(History(d, acts), p + 1, q, History(d, acts)[q].i)
  {
    var t := History(d, acts);
    HistoryLawful(d, acts);
    var i := t[q].i;
    assert LawAt(d, t, p) && LawAt(d, t, q);
    assert t[..q][..q - 1] == t[..q - 1];
    if !ReopenedIn(t, p + 1, q, i) {
      StaysSettledUntilReopened(d, t, p, q, i);
      assert false;
    }
  }

  /** What one step that may run adds to the history, when its writes are kept. */
  lemma StepRuns(d: Definition, t: seq<Event>, r: Record, i: nat, w: World)
    requires At(d, t, r, i) && i < |d.steps| && !Settled(r.steps[i]) && w.puts(2 * i + 1).Kept?
    ensures var c := RunningStep(r.steps[i]);
      var r1 := r.(steps := r.steps[i := c]);
      var t1 := t + [Wrote(r1)] + [Invoked(i, c.key, c.attempt, PreviousOutput(r1.steps, d.steps[i].id))];
      && (w.runs(i).Died? ==> RunFrom(d, t, r, i, w).0 == t1 && Last(t1) == Some(r1))
      && (w.runs(i).Reported? && w.runs(i).o.ReportSucceeded? && w.puts(2 * i + 2).Kept? ==>
            var r2 := r1.(steps := r1.steps[i := ApplyOutcome(c, w.runs(i).o).0]);
            RunFrom(d, t, r, i, w).0 == RunFrom(d, t1 + [Wrote(r2)], r2, i + 1, w).0 && At(d, t1 + [Wrote(r2)], r2, i + 1))
  {
    var c := RunningStep(r.steps[i]);
    var r1 := r.(steps := r.steps[i := c]);
    FoundAt(d, t, r, i);
    Invocation(d, t, r, i);
    var t1 := t + [Wrote(r1)] + [Invoked(i, c.key, c.attempt, PreviousOutput(r1.steps, d.steps[i].id))];
    if w.runs(i).Reported? && w.runs(i).o.ReportSucceeded? {
      ReportWrite(d, t1, r1, i, ApplyOutcome(c, w.runs(i).o).0);
      StepAt(d, r1, i, ApplyOutcome(c, w.runs(i).o).0);
    }
  }

  /** Step 0 succeeds and the process dies in step 1. */
  const DIES_IN_SECOND := World((n: nat) => Kept, (i: nat) => if i == 0 then Reported(ReportSucceeded(None, None)) else Died)

  /** The history up to step 0 being stored as succeeded. */
  ghost predicate SucceedsFirst(d: Definition, t: seq<Event>, r: Record)
  {
    && |t| == 4 && At(d, t, r, 1) && t[3] == Wrote(r) && r.steps[0].status.Succeeded?
    && (forall j | 0 < j < |r.steps| :: !Settled(r.steps[j]))
  }

  lemma FirstSucceeds(d: Definition, w: World) returns (t: seq<Event>, r: Record)
    requires ValidDefinition(d) && w.puts(0).Kept? && w.puts(1).Kept? && w.puts(2).Kept?
    requires w.runs(0).Reported? && w.runs(0).o.ReportSucceeded?
    ensures SucceedsFirst(d, t, r) && RunOperation(d, [], w).0 == RunFrom(d, t, r, 1, w).0
  {
    FreshFits(d);
    ReentryWrite(d, [], Fresh(d));
    var r0 := Fresh(d).(state := OpRunning);
    assert [] + [Wrote(r0)] == [Wrote(r0)];
    t, r := SucceedsAfter(d, r0, w);
  }

  lemma SucceedsAfter(d: Definition, r0: Record, w: World) returns (t: seq<Event>, r: Record)
    requires At(d, [Wrote(r0)], r0, 0) && (forall j | 0 <= j < |r0.steps| :: !Settled(r0.steps[j])) && w.puts(1).Kept? && w.puts(2).Kept?
    requires w.runs(0).Reported? && w.runs(0).o.ReportSucceeded?
    ensures SucceedsFirst(d, t, r) && RunFrom(d, [Wrote(r0)], r0, 0, w).0 == RunFrom(d, t, r, 1, w).0
  {
    StepRuns(d, [Wrote(r0)], r0, 0, w);
    var c := RunningStep(r0.steps[0]);
    var r1 := r0.(steps := r0.steps[0 := c]);
    r := r1.(steps := r1.steps[0 := ApplyOutcome(c, w.runs(0).o).0]);
    t := [Wrote(r0)] + [Wrote(r1)] + [Invoked(0, c.key, c.attempt, PreviousOutput(r1.steps, d.steps[0].id))] + [Wrote(r)];
  }

  /** A first run of `DIES_IN_SECOND`: step 0 is stored as succeeded, and the operation is left running. */
  lemma DiesInSecond(d: Definition) returns (r: Record)
    requires ValidDefinition(d) && |d.steps| >= 2
    ensures var t := RunOperation(d, [], DIES_IN_SECOND).0;
      && |t| == 6 && Lawful(d, t) && Last(t) == Some(r) && Fits(d, r) && r.state.OpRunning?
      && t[3].Wrote? && |t[3].r.steps| == |d.steps| && t[3].r.steps[0].status.Succeeded?
  {
    var t, done := FirstSucceeds(d, DIES_IN_SECOND);
    StepRuns(d, t, done, 1, DIES_IN_SECOND);
    RunLawful(d, [], DIES_IN_SECOND);
    r := done.(steps := done.steps[1 := RunningStep(done.steps[1])]);
    LastFits(d, RunOperation(d, [], DIES_IN_SECOND).0);
  }

  /** Resolved as not applied, the first step of a running operation is invoked by the next run. */
  lemma ReopenedRuns(d: Definition, t: seq<Event>, r: Record)
    requires ValidDefinition(d) && Lawful(d, t) && Last(t) == Some(r) && Fits(d, r) && r.state.OpRunning?
    ensures var u := ResolveStep(t, d.steps[0].id, false, Kept).0;
      var v := RunOperation(d, u, DIES_IN_SECOND).0;
      && |u| == |t| + 1 && t <= u <= v && u[|t|].Reopened? && u[|t|].i == 0
      && |v| > |u| + 1 && v[|u| + 1].Invoked? && v[|u| + 1].i == 0
  {
    var w := DIES_IN_SECOND;
    StepAt(d, r, 0, r.steps[0]);
    ResolveShape(d, t, d.steps[0].id, false, Kept, 0);
    ResolveLawful(d, t, d.steps[0].id, false, Kept);
    var r' := r.(steps := r.steps[0 := Resolved(r.steps[0], false)]);
    var u := t + [Reopened(r', 0)];
    assert At(d, u, r', 0);
    FoundAt(d, u, r', 0);
    FirstStepOfRun(d, u, r', 0, w);
  }

  /**
   * The exception is real: any step may be resolved, finished or not. A step stored as succeeded and resolved as
   * not applied is invoked again by the next run.
   */
  lemma ReopenedStepRunsAgain(d: Definition)
    requires ValidDefinition(d) && |d.steps| >= 2
    ensures var t := History(d, [RunAct(DIES_IN_SECOND), ResolveAct(d.steps[0].id, false, Kept), RunAct(DIES_IN_SECOND)]);
      && |t| > 8 && t[3].Wrote? && |t[3].r.steps| == |d.steps| && t[3].r.steps[0].status.Succeeded?
      && t[6].Reopened? && t[6].i == 0 && t[8].Invoked? && t[8].i == 0
  {
    var acts := [RunAct(DIES_IN_SECOND), ResolveAct(d.steps[0].id, false, Kept), RunAct(DIES_IN_SECOND)];
    assert acts[..2][..1] == acts[..1] && acts[..1][..0] == [];
    var t := RunOperation(d, [], DIES_IN_SECOND).0;
    var r := DiesInSecond(d);
    ReopenedRuns(d, t, r);
    assert History(d, acts[..1]) == t;
  }

  /** The stored attempt count of a step never goes down. */
  lemma {:induction false} AttemptsGrow(d: Definition, t: seq<Event>, p: nat, q: nat, i: nat)
    requires Lawful(d, t) && p <= q <= |t| && i < |d.steps|
    ensures AttemptOf(Last(t[..p]), i) <= AttemptOf(Last(t[..q]), i)
    decreases q
  {
    if p < q {
      AttemptsGrow(d, t, p, q - 1, i);
      assert t[..q][..q - 1] == t[..q - 1];
      assert LawAt(d, t, q - 1);
    }
  }

  /** An invocation carries the step's key and the attempt number just stored, one more than before. */
  lemma InvocationCounts(d: Definition, t: seq<Event>, q: nat)
    requires Lawful(d, t) && q < |t| && t[q].Invoked?
    ensures q > 0 && t[q].i < |d.steps| && t[q].key == KeyOf(d, d.steps[t[q].i])
    ensures t[q].attempt == AttemptOf(Last(t[..q]), t[q].i) == AttemptOf(Last(t[..q - 1]), t[q].i) + 1
  {
    assert LawAt(d, t, q);
    assert t[..q][..q - 1] == t[..q - 1] && t[..q][q - 1] == t[q - 1];
  }

  /** Every invocation of a step carries the same key, and each attempt number is larger than the last. */
  lemma KeyedIncreasingAttempts(d: Definition, acts: seq<Act>, p: nat, q: nat)
    requires ValidDefinition(d) && p < q < |History(d, acts)|
    requires var t := History(d, acts); t[p].Invoked? && t[q].Invoked? && t[p].i == t[q].i
    ensures var t := History(d, acts);
      t[p].i < |d.steps| && t[p].key == t[q].key == KeyOf(d, d.steps[t[p].i]) && t[p].attempt < t[q].attempt
  {
    var t := History(d, acts);
    HistoryLawful(d, acts);
    InvocationCounts(d, t, p);
    InvocationCounts(d, t, q);
    AttemptsGrow(d, t, p, q - 1, t[p].i);
  }

  /** Every invocation finds the record running and all earlier steps finished, and gets the latest output before it. */
  lemma OrderedInvocation(d: Definition, acts: seq<Act>, q: nat)
    requires ValidDefinition(d) && q < |History(d, acts)| && History(d, acts)[q].Invoked?
    ensures var t := History(d, acts);
      && Last(t[..q]).Some?
      && var r := Last(t[..q]).value;
      && Fits(d, r) && t[q].i < |r.steps| && r.state.OpRunning?
      && (forall j | 0 <= j < t[q].i :: Finished(r.steps[j]))
      && LatestOutput(r.steps, t[q].i, t[q].previous)
  {
    var t := History(d, acts);
    HistoryLawful(d, acts);
    assert LawAt(d, t, q);
    assert t[..q][..q - 1] == t[..q - 1] && t[..q][q - 1] == t[q - 1];
    assert LawAt(d, t, q - 1);
  }

  /**
   * Stored states move only along the lifecycle table and never leave a terminal one, and a completed record has
   * every declared step finished.
   */
  lemma StatesFollowTable(d: Definition, acts: seq<Act>, q: nat)
    requires ValidDefinition(d) && q < |History(d, acts)| && !History(d, acts)[q].Invoked?
    ensures var t := History(d, acts);
      && Legal(StateOf(Last(t[..q])), t[q].r.state)
      && !StateOf(Last(t[..q])).OpCompleted? && !StateOf(Last(t[..q])).OpAbandoned?
      && |t[q].r.steps| == |d.steps|
      && (t[q].r.state.OpCompleted? ==> forall j | 0 <= j < |d.steps| :: Finished(t[q].r.steps[j]))
  {
    HistoryLawful(d, acts);
    var t := History(d, acts);
    assert LawAt(d, t, q);
  }

  // ---------------------------------------------------------------- why calls must not overlap

  /** The second history extends the first by writes and invocations of a run alone. */
  ghost predicate RunExtends(t: seq<Event>, t': seq<Event>)
  {
    t <= t' && forall k | |t| <= k < |t'| :: !t'[k].Reopened?
  }

  lemma {:induction false} RunGrows(d: Definition, t: seq<Event>, r: Record, i: nat, w: World)
    requires i <= |d.steps|
    ensures RunExtends(t, RunFrom(d, t, r, i, w).0)
    decreases |d.steps| - i
  {
    if i < |d.steps| {
      var found := FindStep(r.steps, d.steps[i].id);
      if found.Some? {
        if Decide(found.value).Skip? { RunGrows(d, t, r, i + 1, w); }
        if Decide(found.value).RunIt? { FirstStepOfRun(d, t, r, i, w); }
      }
    }
  }

  /** A step whose writes are kept and whose run reports success: written, invoked, written as finished. */
  lemma {:induction false} FirstStepOfRun(d: Definition, t: seq<Event>, r: Record, i: nat, w: World)
    requires i < |d.steps| && FindStep(r.steps, d.steps[i].id).Some? && Decide(FindStep(r.steps, d.steps[i].id).value).RunIt?
    ensures var c := RunningStep(FindStep(r.steps, d.steps[i].id).value);
      var r1 := WithStep(r, c);
      var t' := RunFrom(d, t, r, i, w).0;
      && RunExtends(t, t')
      && (w.puts(2 * i + 1).Kept? && w.runs(i).Reported? && w.runs(i).o.ReportSucceeded? && w.puts(2 * i + 2).Kept? ==>
            t + [Wrote(r1)] + [Invoked(i, c.key, c.attempt, PreviousOutput(r1.steps, d.steps[i].id))]
              + [Wrote(WithStep(r1, ApplyOutcome(c, w.runs(i).o).0))] <= t')
    decreases |d.steps| - i, 0
  {
    var c := RunningStep(FindStep(r.steps, d.steps[i].id).value);
    var r1 := WithStep(r, c);
    var t2 := t + [Wrote(r1)] + [Invoked(i, c.key, c.attempt, PreviousOutput(r1.steps, d.steps[i].id))];
    if w.puts(2 * i + 1).Kept? && !w.runs(i).Died? {
      var (after, stop) := ApplyOutcome(c, OutcomeOf(w.runs(i)));
      var r2 := WithStep(r1, after);
      if stop.None? && w.puts(2 * i + 2).Kept? { RunGrows(d, t2 + [Wrote(r2)], r2, i + 1, w); }
    }
  }

  /**
   * The guarantee is for calls one after another. Two overlapping calls that read the same record break it: the
   * second, working from the stale record, invokes a step the first has stored as finished.
   */
  lemma OverlappingRunRepeatsStep(d: Definition, t: seq<Event>, r: Record, w: World)
    requires At(d, t, r, 0) && !Settled(r.steps[0])
    requires w.puts(1).Kept? && w.puts(2).Kept? && w.runs(0).Reported? && w.runs(0).o.ReportSucceeded?
    ensures var first := RunFrom(d, t, r, 0, w).0;
      var both := RunFrom(d, first, r, 0, w).0;
      var p, q := |t| + 2, |first| + 1;
      && p < q < |both| && both[p].Wrote? && |both[p].r.steps| > 0 && Finished(both[p].r.steps[0])
      && both[q].Invoked? && both[q].i == 0 && !ReopenedIn(both, p + 1, q, 0)
  {
    StepAt(d, r, 0, RunningStep(r.steps[0]));
    FirstStepOfRun(d, t, r, 0, w);
    var first := RunFrom(d, t, r, 0, w).0;
    FirstStepOfRun(d, first, r, 0, w);
    var both := RunFrom(d, first, r, 0, w).0;
    var c := RunningStep(r.steps[0]);
    var r1 := WithStep(r, c);
    var after := ApplyOutcome(c, w.runs(0).o).0;
    assert r1.steps[0] == c;
    assert WithStep(r1, after).steps[0] == after;
    assert both[|t|] == first[|t|] == Wrote(r1);
    assert both[|t| + 1] == first[|t| + 1] && first[|t| + 1].Invoked?;
    assert both[|t| + 2] == first[|t| + 2] == Wrote(WithStep(r1, after));
  }
}
