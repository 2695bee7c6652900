/**
 * Overlapping calls on one recoverable operation: every call works on the record it loaded, and any two calls may
 * interleave between their loads, writes and step invocations.
 */
module RecoveryOverlap {
  import opened Prelude
  import opened Recovery
  import opened RecoveryRuns

  datatype Task = RunTask | ResolveTask(stepId: string, applied: bool) | AbandonTask

  /** Where a call stands between two awaits; `Mend` is a resolution or an abandonment about to write. */
  datatype Place = Enter | Look(i: nat) | Invoke(i: nat) | Fold(i: nat, o: Outcome) | Mend

  /** A call under way: the record it works on, and how much had been seen when it loaded it. */
  datatype Caller = Caller(task: Task, record: Record, place: Place, since: nat)

  /** An event, the call it comes from, and how much had been seen when that call loaded its record. */
  datatype Seen = Seen(who: nat, since: nat, event: Event)

  datatype Shared = Shared(stored: Option<Record>, callers: map<nat, Caller>, trace: seq<Seen>)

  datatype Turn = Load(c: nat, task: Task) | Go(c: nat, put: Put, ran: Ran)

  // ---------------------------------------------------------------- one turn

  predicate Closed(r: Record) { r.state.OpCompleted? || r.state.OpAbandoned? }

  /** What a call starts from, given what is stored. */
  function Loaded(d: Definition, stored: Option<Record>, task: Task): Option<(Record, Place)>
  {
    match (stored, task)
    case (None, RunTask) => Some((Fresh(d), Enter))
    case (None, _) => None
    case (Some(r), RunTask) =>
      if r.kind != d.kind || Closed(r) then None else Some((r, if r.state.OpRunning? then Look(0) else Enter))
    case (Some(r), _) => if Closed(r) then None else Some((r, Mend))
  }

  /** What a call does next: an event perhaps, and then where it stands, if it goes on at all. */
  datatype Effect = Effect(event: Option<Event>, next: Option<(Record, Place)>)

  const ENDS := Effect(None, None)

  /** A write, after which the call goes on if it was kept. */
  function Writes(put: Put, event: Event, next: Option<(Record, Place)>): Effect
  {
    Effect(if put.Lost? then None else Some(event), if put.Kept? then next else None)
  }

  function Entering(r: Record, put: Put): Effect
  {
    match Advance(r, ReentryEvent(r.state))
    case None => ENDS
    case Some(r1) => Writes(put, Wrote(r1), Some((r1, Look(0))))
  }

  function Closing(r: Record, put: Put): Effect
  {
    match Advance(r, Complete)
    case None => ENDS
    case Some(r1) => Writes(put, Wrote(r1.(lastErrorCode := None)), None)
  }

  function Looking(d: Definition, r: Record, i: nat, put: Put): Effect
    requires i < |d.steps|
  {
    match FindStep(r.steps, d.steps[i].id)
    case None => ENDS
    case Some(c) =>
      match Decide(c)
      case Skip => Effect(None, Some((r, Look(i + 1))))
      case Confirm => ENDS
      case RunIt => var r1 := WithStep(r, RunningStep(c)); Writes(put, Wrote(r1), Some((r1, Invoke(i))))
  }

  function Invoking(d: Definition, r: Record, i: nat, ran: Ran): Effect
    requires i < |d.steps|
  {
    match FindStep(r.steps, d.steps[i].id)
    case None => ENDS
    case Some(c) =>
      Effect(Some(Invoked(i, c.key, c.attempt, PreviousOutput(r.steps, d.steps[i].id))),
          if ran.Died? then None else Some((r, Fold(i, OutcomeOf(ran)))))
  }

  function Folding(d: Definition, r: Record, i: nat, o: Outcome, put: Put): Effect
    requires i < |d.steps|
  {
    match FindStep(r.steps, d.steps[i].id)
    case None => ENDS
    case Some(c) =>
      var (after, stop) := ApplyOutcome(c, o);
      var r2 := WithStep(r, after);
      match stop
      case None => Writes(put, Wrote(r2), Some((r2, Look(i + 1))))
      case Some(s) =>
        match Advance(r2, s.event)
        case None => ENDS
        case Some(r3) => Writes(put, Wrote(r3.(lastErrorCode := Some(s.code))), None)
  }

  function Resolving(r: Record, stepId: string, applied: bool, put: Put): Effect
  {
    match FindStep(r.steps, stepId)
    case None => ENDS
    case Some(c) =>
      var next := WithStep(r, Resolved(c, applied));
      var moved := if next.state.OpInterrupted? || next.state.OpFailed? then Advance(next, ReentryEvent(next.state)) else Some(next);
      match moved
      case None => ENDS
      case Some(out) => Writes(put, if applied then Wrote(out) else Reopened(out, IndexOf(r.steps, stepId)), None)
  }

  function Abandoning(r: Record, put: Put): Effect
  {
    match Advance(r, Abandon)
    case None => ENDS
    case Some(out) => Writes(put, Wrote(out), None)
  }

  function EffectOf(d: Definition, c: Caller, put: Put, ran: Ran): Effect
  {
    match c.place
    case Enter => Entering(c.record, put)
    case Look(i) => if i < |d.steps| then Looking(d, c.record, i, put) else Closing(c.record, put)
    case Invoke(i) => if i < |d.steps| then Invoking(d, c.record, i, ran) else ENDS
    case Fold(i, o) => if i < |d.steps| then Folding(d, c.record, i, o, put) else ENDS
    case Mend => if c.task.ResolveTask? then Resolving(c.record, c.task.stepId, c.task.applied, put) else Abandoning(c.record, put)
  }

  function Happens(sys: Shared, c: nat, a: Effect): Shared
    requires c in sys.callers
  {
    var caller := sys.callers[c];
    Shared(
      if a.event.Some? && !a.event.value.Invoked? then Some(a.event.value.r) else sys.stored,
      if a.next.Some? then sys.callers[c := caller.(record := a.next.value.0, place := a.next.value.1)] else sys.callers - {c},
      if a.event.Some? then sys.trace + [Seen(c, caller.since, a.event.value)] else sys.trace)
  }

  /** One turn of one call; a turn that is not enabled changes nothing. */
  function Take(d: Definition, sys: Shared, turn: Turn): Shared
  {
    match turn
    case Load(c, task) =>
      var loaded := Loaded(d, sys.stored, task);
      if c in sys.callers || loaded.None? then sys
      else sys.(callers := sys.callers[c := Caller(task, loaded.value.0, loaded.value.1, |sys.trace|)])
    case Go(c, put, ran) => if c in sys.callers then Happens(sys, c, EffectOf(d, sys.callers[c], put, ran)) else sys
  }

  function TakeAll(d: Definition, sys: Shared, turns: seq<Turn>): Shared
    decreases |turns|
  {
    if turns == [] then sys else Take(d, TakeAll(d, sys, turns[..|turns| - 1]), turns[|turns| - 1])
  }

  /** Where any turns of any calls lead from empty storage. */
  function Overlap(d: Definition, turns: seq<Turn>): Shared { TakeAll(d, Shared(None, map[], []), turns) }

  // ---------------------------------------------------------------- what every call works on

  /** A call about to invoke a step, or waiting for it, holds that step unsettled. */
  ghost predicate Standing(d: Definition, r: Record, place: Place)
  {
    && Fits(d, r)
    && (place.Invoke? || place.Fold? ==> place.i < |d.steps| && !Settled(r.steps[place.i]))
  }

  ghost predicate Coherent(d: Definition, sys: Shared)
  {
    && (sys.stored.Some? ==> Fits(d, sys.stored.value))
    && forall c | c in sys.callers :: Standing(d, sys.callers[c].record, sys.callers[c].place) && sys.callers[c].since <= |sys.trace|
  }

  /** The step's settling outlasts the change, unless the change is its own reopening. */
  ghost predicate Keeps(r: Record, event: Event, i: nat)
  {
    event.Invoked? || (event.Reopened? && event.i == i)
    || (i < |r.steps| == |event.r.steps| && (Settled(r.steps[i]) ==> Settled(event.r.steps[i])))
  }

  /** An act writes a fitting record and goes on from it. */
  ghost predicate Sane(d: Definition, r: Record, a: Effect)
  {
    && (a.event.Some? && !a.event.value.Invoked? ==> Fits(d, a.event.value.r))
    && (a.next.Some? ==> Standing(d, a.next.value.0, a.next.value.1))
    && (a.next.Some? ==> a.next.value.0 == if a.event.Some? && !a.event.value.Invoked? then a.event.value.r else r)
  }

  /** Of the steps settled in its record a call invokes none, and unsettles none but the one it reopens. */
  ghost predicate Respects(r: Record, a: Effect, i: nat)
  {
    a.event.Some? ==> Keeps(r, a.event.value, i) && (a.event.value.Invoked? && a.event.value.i == i ==> i < |r.steps| && !Settled(r.steps[i]))
  }

  lemma ReplaceFits(d: Definition, r: Record, i: nat, c: StepCheckpoint)
    requires ValidDefinition(d) && Fits(d, r) && i < |d.steps| && c.id == r.steps[i].id && c.key == r.steps[i].key
    ensures FindStep(r.steps, d.steps[i].id) == Some(r.steps[i]) && IndexOf(r.steps, d.steps[i].id) == i
    ensures WithStep(r, c) == r.(steps := r.steps[i := c]) && Fits(d, WithStep(r, c))
  {
    StepAt(d, r, i, c);
  }

  lemma LookSane(d: Definition, r: Record, i: nat, put: Put, k: nat)
    requires ValidDefinition(d) && Fits(d, r) && i < |d.steps| && k < |d.steps|
    ensures var a := Looking(d, r, i, put); Sane(d, r, a) && Respects(r, a, k)
  {
    ReplaceFits(d, r, i, RunningStep(r.steps[i]));
  }

  lemma InvokeSane(d: Definition, r: Record, i: nat, ran: Ran, k: nat)
    requires ValidDefinition(d) && Standing(d, r, Invoke(i)) && k < |d.steps|
    ensures var a := Invoking(d, r, i, ran); Sane(d, r, a) && Respects(r, a, k)
  {
    ReplaceFits(d, r, i, r.steps[i]);
  }

  lemma FoldSane(d: Definition, r: Record, i: nat, o: Outcome, put: Put, k: nat)
    requires ValidDefinition(d) && Standing(d, r, Fold(i, o)) && k < |d.steps|
    ensures var a := Folding(d, r, i, o, put); Sane(d, r, a) && Respects(r, a, k)
  {
    OutcomeFolds(r.steps[i], o);
    ReplaceFits(d, r, i, ApplyOutcome(r.steps[i], o).0);
  }

  /** What a resolution of step `i` writes, if it writes. */
  lemma ResolvingIs(d: Definition, r: Record, stepId: string, applied: bool, put: Put, i: nat)
    requires ValidDefinition(d) && Fits(d, r) && i == IndexOf(r.steps, stepId) < |r.steps|
    ensures var e := Resolving(r, stepId, applied, put);
      && e.next.None?
      && (e.event.Some? ==> var event := e.event.value;
           && (if applied then event.Wrote? else event.Reopened? && event.i == i)
           && event.r.kind == r.kind && event.r.steps == r.steps[i := Resolved(r.steps[i], applied)])
  {
    FindMeans(r.steps, stepId);
    ReplaceFits(d, r, i, Resolved(r.steps[i], applied));
  }

  lemma ResolveSane(d: Definition, r: Record, stepId: string, applied: bool, put: Put, k: nat)
    requires ValidDefinition(d) && Fits(d, r) && k < |d.steps|
    ensures var a := Resolving(r, stepId, applied, put); Sane(d, r, a) && Respects(r, a, k)
  {
    FindMeans(r.steps, stepId);
    var i := IndexOf(r.steps, stepId);
    if i < |r.steps| { ResolvingIs(d, r, stepId, applied, put, i); }
  }

  lemma EffectSane(d: Definition, c: Caller, put: Put, ran: Ran, k: nat)
    requires ValidDefinition(d) && Standing(d, c.record, c.place) && k < |d.steps|
    ensures var a := EffectOf(d, c, put, ran); Sane(d, c.record, a) && Respects(c.record, a, k)
  {
    match c.place
    case Enter =>
    case Look(i) => if i < |d.steps| { LookSane(d, c.record, i, put, k); }
    case Invoke(i) => InvokeSane(d, c.record, i, ran, k);
    case Fold(i, o) => FoldSane(d, c.record, i, o, put, k);
    case Mend => if c.task.ResolveTask? { ResolveSane(d, c.record, c.task.stepId, c.task.applied, put, k); }
  }

  lemma TakeCoherent(d: Definition, sys: Shared, turn: Turn)
    requires ValidDefinition(d) && Coherent(d, sys)
    ensures Coherent(d, Take(d, sys, turn)) && sys.trace <= Take(d, sys, turn).trace
  {
    match turn
    case Load(c, task) => FreshFits(d);
    case Go(c, put, ran) => if c in sys.callers { EffectSane(d, sys.callers[c], put, ran, 0); }
  }

  lemma {:induction false} AlwaysCoherent(d: Definition, turns: seq<Turn>)
    requires ValidDefinition(d)
    ensures Coherent(d, Overlap(d, turns))
  {
    if turns != [] {
      AlwaysCoherent(d, turns[..|turns| - 1]);
      TakeCoherent(d, Overlap(d, turns[..|turns| - 1]), turns[|turns| - 1]);
    }
  }

  // ---------------------------------------------------------------- a call left alone

  lemma More(d: Definition, sys: Shared, turns: seq<Turn>, turn: Turn)
    ensures TakeAll(d, sys, turns + [turn]) == Take(d, TakeAll(d, sys, turns), turn)
  {
    assert (turns + [turn])[..|turns|] == turns;
  }

  function Events(trace: seq<Seen>): seq<Event> { seq(|trace|, i requires 0 <= i < |trace| => trace[i].event) }

  /** A turn of call `c` does what its effect says. */
  lemma TurnDoes(d: Definition, sys: Shared, c: nat, put: Put, ran: Ran, e: Effect)
    requires c in sys.callers && EffectOf(d, sys.callers[c], put, ran) == e
    ensures var later := Take(d, sys, Go(c, put, ran));
      && Events(later.trace) == Events(sys.trace) + (if e.event.Some? then [e.event.value] else [])
      && (e.next.Some? ==> c in later.callers && later.callers[c] == sys.callers[c].(record := e.next.value.0, place := e.next.value.1))
  {
  }

  /** Where call `c` stands. */
  predicate StandsAt(sys: Shared, c: nat, r: Record, place: Place)
  {
    c in sys.callers && sys.callers[c].record == r && sys.callers[c].place == place
  }

  /** The history a call's step leaves, or the rest of its run from the next step. */
  ghost predicate Agrees(d: Definition, t: seq<Event>, later: Shared, c: nat, i: nat, next: Option<Record>, w: World)
    requires i < |d.steps|
  {
    match next
    case None => t == Events(later.trace)
    case Some(r) => Fits(d, r) && StandsAt(later, c, r, Look(i + 1)) && t == RunFrom(d, Events(later.trace), r, i + 1, w).0
  }

  /** A step's report is folded in by one turn, as the step loop folds it in. */
  lemma FoldAlone(d: Definition, sys: Shared, c: nat, r1: Record, i: nat, o: Outcome, w: World) returns (next: Option<Record>)
    requires ValidDefinition(d) && Fits(d, r1) && i < |d.steps| && StandsAt(sys, c, r1, Fold(i, o))
    ensures var put := w.puts(2 * i + 2);
      var (after, stop) := ApplyOutcome(r1.steps[i], o);
      var r2 := WithStep(r1, after);
      var t := if stop.Some? then Stall(Events(sys.trace), r2, stop.value, put).0
               else if put.Kept? then RunFrom(d, Saved(Events(sys.trace), put, r2), r2, i + 1, w).0
               else Saved(Events(sys.trace), put, r2);
      Agrees(d, t, Take(d, sys, Go(c, put, Died)), c, i, next, w)
  {
    var put := w.puts(2 * i + 2);
    var (after, stop) := ApplyOutcome(r1.steps[i], o);
    OutcomeFolds(r1.steps[i], o);
    ReplaceFits(d, r1, i, after);
    TurnDoes(d, sys, c, put, Died, Folding(d, r1, i, o, put));
    next := if stop.None? && put.Kept? then Some(WithStep(r1, after)) else None;
  }

  /** The turns of one step: checkpoint, invocation and report, as `RunStep` has them. */
  lemma StepAlone(d: Definition, sys: Shared, c: nat, r: Record, i: nat, w: World)
    returns (turns: seq<Turn>, later: Shared, next: Option<Record>)
    requires ValidDefinition(d) && Fits(d, r) && i < |d.steps| && StandsAt(sys, c, r, Look(i)) && !Settled(r.steps[i])
    ensures TakeAll(d, sys, turns) == later
    ensures Agrees(d, RunStep(d, Events(sys.trace), r, i, r.steps[i], w).0, later, c, i, next, w)
  {
    var running := RunningStep(r.steps[i]);
    ReplaceFits(d, r, i, running);
    var r1 := WithStep(r, running);
    var first := Go(c, w.puts(2 * i + 1), Died);
    TurnDoes(d, sys, c, w.puts(2 * i + 1), Died, Looking(d, r, i, w.puts(2 * i + 1)));
    More(d, sys, [], first);
    turns, later, next := [] + [first], Take(d, sys, first), None;
    if w.puts(2 * i + 1).Kept? {
      var second := Go(c, Kept, w.runs(i));
      ReplaceFits(d, r1, i, running);
      TurnDoes(d, later, c, Kept, w.runs(i), Invoking(d, r1, i, w.runs(i)));
      More(d, sys, turns, second);
      turns, later := turns + [second], Take(d, later, second);
      if !w.runs(i).Died? {
        var third := Go(c, w.puts(2 * i + 2), Died);
        next := FoldAlone(d, later, c, r1, i, OutcomeOf(w.runs(i)), w);
        More(d, sys, turns, third);
        turns, later := turns + [third], Take(d, later, third);
      }
    }
  }

  lemma {:induction false} TakeBoth(d: Definition, sys: Shared, a: seq<Turn>, b: seq<Turn>)
    ensures TakeAll(d, sys, a + b) == TakeAll(d, TakeAll(d, sys, a), b)
    decreases |b|
  {
    if b == [] {
      assert a + b == a;
    } else {
      var n := |b| - 1;
      TakeBoth(d, sys, a, b[..n]);
      assert (a + b)[..|a + b| - 1] == a + b[..n];
    }
  }

  /** A run left alone does turn by turn what `runOperation`'s loop does. */
  lemma {:induction false} RunAlone(d: Definition, sys: Shared, c: nat, r: Record, i: nat, w: World) returns (turns: seq<Turn>)
    requires ValidDefinition(d) && Fits(d, r) && i <= |d.steps| && StandsAt(sys, c, r, Look(i))
    ensures Events(TakeAll(d, sys, turns).trace) == RunFrom(d, Events(sys.trace), r, i, w).0
    decreases |d.steps| - i
  {
    if i == |d.steps| {
      TurnDoes(d, sys, c, w.puts(2 * i + 1), Died, Closing(r, w.puts(2 * i + 1)));
      More(d, sys, [], Go(c, w.puts(2 * i + 1), Died));
      turns := [] + [Go(c, w.puts(2 * i + 1), Died)];
    } else {
      ReplaceFits(d, r, i, r.steps[i]);
      RunFromIs(d, Events(sys.trace), r, i, r.steps[i], w);
      match Decide(r.steps[i])
      case Confirm => turns := [];
      case Skip =>
        var turn := Go(c, Kept, Died);
        TurnDoes(d, sys, c, Kept, Died, Looking(d, r, i, Kept));
        var rest := RunAlone(d, Take(d, sys, turn), c, r, i + 1, w);
        More(d, sys, [], turn);
        turns := ([] + [turn]) + rest;
        TakeBoth(d, sys, [] + [turn], rest);
      case RunIt =>
        var first, later, next := StepAlone(d, sys, c, r, i, w);
        turns := first;
        if next.Some? {
          var rest := RunAlone(d, later, c, next.value, i + 1, w);
          turns := first + rest;
          TakeBoth(d, sys, first, rest);
        }
    }
  }

  // ---------------------------------------------------------------- who may repeat a finished step

  /** After event `p` stored step `i` as settled: a reopening of it, or an event of another call that had loaded before. */
  predicate Disturbs(trace: seq<Seen>, p: nat, m: nat, i: nat)
    requires p < |trace| && m < |trace|
  {
    (trace[m].event.Reopened? && trace[m].event.i == i) || (trace[m].since <= p && trace[m].who != trace[p].who)
  }

  ghost predicate Undisturbed(trace: seq<Seen>, p: nat, i: nat)
    requires p < |trace|
  {
    forall m | p < m < |trace| :: !Disturbs(trace, p, m, i)
  }

  ghost predicate HoldsSettled(d: Definition, r: Record, i: nat) { i < |r.steps| && Settled(r.steps[i]) }

  /** Storage, the writing call and every call that loaded after it hold the step settled. */
  ghost predicate Protected(d: Definition, sys: Shared, p: nat, i: nat)
    requires p < |sys.trace|
  {
    && sys.stored.Some? && HoldsSettled(d, sys.stored.value, i)
    && forall c | c in sys.callers && (sys.callers[c].since > p || c == sys.trace[p].who) :: HoldsSettled(d, sys.callers[c].record, i)
  }

  ghost predicate SettledBy(trace: seq<Seen>, p: nat, i: nat)
    requires p < |trace|
  {
    !trace[p].event.Invoked? && i < |trace[p].event.r.steps| && Settled(trace[p].event.r.steps[i])
  }

  /** The write itself protects the step. */
  lemma WriteProtects(d: Definition, sys: Shared, turn: Turn, i: nat)
    requires ValidDefinition(d) && Coherent(d, sys) && i < |d.steps|
    requires var t := Take(d, sys, turn).trace; |t| == |sys.trace| + 1 && SettledBy(t, |sys.trace|, i)
    ensures Protected(d, Take(d, sys, turn), |sys.trace|, i)
  {
    EffectSane(d, sys.callers[turn.c], turn.put, turn.ran, i);
  }

  /** Undisturbed, it stays protected. */
  lemma StaysProtected(d: Definition, sys: Shared, turn: Turn, p: nat, i: nat)
    requires ValidDefinition(d) && Coherent(d, sys) && i < |d.steps| && p < |sys.trace| && Protected(d, sys, p, i)
    requires Undisturbed(Take(d, sys, turn).trace, p, i)
    ensures Protected(d, Take(d, sys, turn), p, i)
  {
    if turn.Go? && turn.c in sys.callers {
      var c := sys.callers[turn.c];
      var a := EffectOf(d, c, turn.put, turn.ran);
      EffectSane(d, c, turn.put, turn.ran, i);
      if a.event.Some? {
        var trace := Take(d, sys, turn).trace;
        assert trace[|sys.trace|] == Seen(turn.c, c.since, a.event.value);
        assert !Disturbs(trace, p, |sys.trace|, i);
      }
    }
  }

  lemma ShorterUndisturbed(trace: seq<Seen>, longer: seq<Seen>, p: nat, i: nat)
    requires p < |trace| && trace <= longer && Undisturbed(longer, p, i)
    ensures Undisturbed(trace, p, i)
  {
    forall m | p < m < |trace| ensures !Disturbs(trace, p, m, i) { assert !Disturbs(longer, p, m, i); }
  }

  lemma TakeGrows(d: Definition, sys: Shared, turn: Turn)
    ensures sys.trace <= Take(d, sys, turn).trace && |Take(d, sys, turn).trace| <= |sys.trace| + 1
  {
  }

  lemma {:induction false} AlwaysProtected(d: Definition, turns: seq<Turn>, p: nat, i: nat)
    requires ValidDefinition(d) && i < |d.steps| && p < |Overlap(d, turns).trace|
    requires SettledBy(Overlap(d, turns).trace, p, i) && Undisturbed(Overlap(d, turns).trace, p, i)
    ensures Protected(d, Overlap(d, turns), p, i)
  {
    var before, turn := Overlap(d, turns[..|turns| - 1]), turns[|turns| - 1];
    AlwaysCoherent(d, turns[..|turns| - 1]);
    TakeGrows(d, before, turn);
    if p < |before.trace| {
      ShorterUndisturbed(before.trace, Overlap(d, turns).trace, p, i);
      AlwaysProtected(d, turns[..|turns| - 1], p, i);
      StaysProtected(d, before, turn, p, i);
    } else {
      WriteProtects(d, before, turn, i);
    }
  }

  /** A protected step is invoked only by a call that loaded before the write. */
  lemma InvokerIsStale(d: Definition, sys: Shared, turn: Turn, p: nat, i: nat)
    requires ValidDefinition(d) && Coherent(d, sys) && i < |d.steps| && p < |sys.trace| && Protected(d, sys, p, i)
    requires var t := Take(d, sys, turn).trace;
      |t| == |sys.trace| + 1 && t[|sys.trace|].event.Invoked? && t[|sys.trace|].event.i == i
    ensures Disturbs(Take(d, sys, turn).trace, p, |sys.trace|, i)
  {
    EffectSane(d, sys.callers[turn.c], turn.put, turn.ran, i);
  }

  /**
   * Under any interleaving of any number of runs, resolutions and abandonments: after a step is stored as finished,
   * or with its effect reported landed, it is invoked again only after a human reopened it or another call that had
   * loaded the record before that write went on to write or invoke.
   */
  lemma {:induction false} RepeatNeedsStaleCall(d: Definition, turns: seq<Turn>, p: nat, q: nat)
    requires ValidDefinition(d) && p < q < |Overlap(d, turns).trace|
    requires var t := Overlap(d, turns).trace; t[q].event.Invoked? && t[q].event.i < |d.steps| && SettledBy(t, p, t[q].event.i)
    ensures var t := Overlap(d, turns).trace; exists m | p < m <= q :: Disturbs(t, p, m, t[q].event.i)
    decreases |turns|
  {
    var t := Overlap(d, turns).trace;
    var i := t[q].event.i;
    var before, turn := Overlap(d, turns[..|turns| - 1]), turns[|turns| - 1];
    AlwaysCoherent(d, turns[..|turns| - 1]);
    TakeGrows(d, before, turn);
    if q < |before.trace| {
      RepeatNeedsStaleCall(d, turns[..|turns| - 1], p, q);
      var m :| p < m <= q && Disturbs(before.trace, p, m, i);
      assert Disturbs(t, p, m, i);
    } else if Undisturbed(before.trace, p, i) {
      AlwaysProtected(d, turns[..|turns| - 1], p, i);
      InvokerIsStale(d, before, turn, p, i);
    } else {
      var m :| p < m < |before.trace| && Disturbs(before.trace, p, m, i);
      assert Disturbs(t, p, m, i);
    }
  }

  // ---------------------------------------------------------------- repeating a finished step, switching only at awaits

  /** The call has ended, or waits for the step it invoked: the one await of a run. */
  predicate Paused(sys: Shared, c: nat) { c in sys.callers ==> sys.callers[c].place.Fold? }

  /** The call may go next without cutting another short. */
  predicate MayGo(d: Definition, turns: seq<Turn>, c: nat)
  {
    turns != [] ==> turns[|turns| - 1].c == c || Paused(Overlap(d, turns), turns[|turns| - 1].c)
  }

  /** Calls change over only where the one before has ended or waits for a step. */
  ghost predicate SwitchesAtAwaits(d: Definition, turns: seq<Turn>)
  {
    forall k | 0 <= k < |turns| :: MayGo(d, turns[..k], turns[k].c)
  }

  lemma OneMoreTurn(d: Definition, turns: seq<Turn>, turn: Turn)
    requires SwitchesAtAwaits(d, turns) && MayGo(d, turns, turn.c)
    ensures SwitchesAtAwaits(d, turns + [turn]) && MayGo(d, turns + [turn], turn.c)
    ensures Overlap(d, turns + [turn]) == Take(d, Overlap(d, turns), turn)
  {
    var more := turns + [turn];
    More(d, Shared(None, map[], []), turns, turn);
    forall k | 0 <= k < |more| ensures MayGo(d, more[..k], more[k].c) {
      if k < |turns| { assert more[..k] == turns[..k]; } else { assert more[..k] == turns; }
    }
  }

  const SUCCEEDS := Reported(ReportSucceeded(None, None))
  const GOES_WELL := SUCCEEDS.o

  function Goes(c: nat): Turn { Go(c, Kept, SUCCEEDS) }

  /** Step `i` checkpointed as running, and as succeeded. */
  function Ran(r: Record, i: nat): Record
    requires i < |r.steps|
  {
    r.(steps := r.steps[i := RunningStep(r.steps[i])])
  }

  function Did(r: Record, i: nat): Record
    requires i < |r.steps|
  {
    r.(steps := r.steps[i := ApplyOutcome(r.steps[i], GOES_WELL).0])
  }

  lemma RanEffect(d: Definition, r: Record, i: nat)
    requires ValidDefinition(d) && Fits(d, r) && i < |d.steps| && !Settled(r.steps[i])
    ensures Fits(d, Ran(r, i)) && !Settled(Ran(r, i).steps[i])
    ensures Looking(d, r, i, Kept) == Effect(Some(Wrote(Ran(r, i))), Some((Ran(r, i), Invoke(i))))
    ensures var e := Invoking(d, Ran(r, i), i, SUCCEEDS);
      && e.event.Some? && e.event.value.Invoked? && e.event.value.i == i && e.next == Some((Ran(r, i), Fold(i, GOES_WELL)))
  {
    ReplaceFits(d, r, i, RunningStep(r.steps[i]));
    ReplaceFits(d, Ran(r, i), i, RunningStep(r.steps[i]));
  }

  lemma DidEffect(d: Definition, r: Record, i: nat)
    requires ValidDefinition(d) && Fits(d, r) && i < |d.steps|
    ensures Fits(d, Did(r, i)) && Settled(Did(r, i).steps[i]) && Finished(Did(r, i).steps[i])
    ensures Folding(d, r, i, GOES_WELL, Kept) == Effect(Some(Wrote(Did(r, i))), Some((Did(r, i), Look(i + 1))))
  {
    OutcomeFolds(r.steps[i], GOES_WELL);
    ReplaceFits(d, r, i, ApplyOutcome(r.steps[i], GOES_WELL).0);
  }

  /** What a turn changed: one event by its call, and nothing of the other calls. */
  ghost predicate Moved(sys: Shared, c: nat, later: Shared, event: Event)
  {
    && c in sys.callers
    && later.trace == sys.trace + [Seen(c, sys.callers[c].since, event)]
    && (event.Invoked? || later.stored == Some(event.r))
    && forall k | k != c :: Same(sys, later, k)
  }

  predicate NoneReopened(trace: seq<Seen>) { forall m | 0 <= m < |trace| :: !trace[m].event.Reopened? }

  predicate Same(sys: Shared, later: Shared, k: nat)
  {
    (k in later.callers <==> k in sys.callers) && (k in sys.callers ==> later.callers[k] == sys.callers[k])
  }

  lemma GoesOn(d: Definition, turns: seq<Turn>, c: nat, e: Effect)
    requires SwitchesAtAwaits(d, turns) && MayGo(d, turns, c)
    requires var sys := Overlap(d, turns); c in sys.callers && EffectOf(d, sys.callers[c], Kept, SUCCEEDS) == e
    requires e.event.Some?
    ensures var more := turns + [Goes(c)];
      && SwitchesAtAwaits(d, more) && MayGo(d, more, c) && Moved(Overlap(d, turns), c, Overlap(d, more), e.event.value)
      && (e.next.Some? ==> StandsAt(Overlap(d, more), c, e.next.value.0, e.next.value.1)
                             && Overlap(d, more).callers[c].since == Overlap(d, turns).callers[c].since)
      && (e.next.None? ==> c !in Overlap(d, more).callers)
  {
    OneMoreTurn(d, turns, Goes(c));
  }

  /** A stretch of a call: it checkpoints step `i`, invokes it, and waits. */
  lemma Invokes(d: Definition, turns: seq<Turn>, c: nat, r: Record, i: nat) returns (more: seq<Turn>, q: nat)
    requires ValidDefinition(d) && Fits(d, r) && i < |d.steps| && !Settled(r.steps[i])
    requires SwitchesAtAwaits(d, turns) && MayGo(d, turns, c) && StandsAt(Overlap(d, turns), c, r, Look(i))
    ensures SwitchesAtAwaits(d, more) && more != [] && more[|more| - 1].c == c && StandsAt(Overlap(d, more), c, Ran(r, i), Fold(i, GOES_WELL))
    ensures var sys, later := Overlap(d, turns), Overlap(d, more);
      && q == |sys.trace| + 1 && |later.trace| == q + 1 && sys.trace <= later.trace && later.stored == Some(Ran(r, i))
      && later.trace[q - 1].event == Wrote(Ran(r, i)) && later.trace[q].event.Invoked? && later.trace[q].event.i == i
      && later.trace[q].since == sys.callers[c].since && later.callers[c].since == sys.callers[c].since
      && (forall k | k != c :: Same(sys, later, k)) && (NoneReopened(sys.trace) ==> NoneReopened(later.trace))
  {
    RanEffect(d, r, i);
    GoesOn(d, turns, c, Looking(d, r, i, Kept));
    var once := turns + [Goes(c)];
    GoesOn(d, once, c, Invoking(d, Ran(r, i), i, SUCCEEDS));
    more, q := once + [Goes(c)], |Overlap(d, turns).trace| + 1;
  }

  /** A call takes up the report it waited for, and stores the step as succeeded. */
  lemma TakesUp(d: Definition, turns: seq<Turn>, c: nat, r: Record, i: nat) returns (more: seq<Turn>)
    requires ValidDefinition(d) && Fits(d, r) && i < |d.steps|
    requires SwitchesAtAwaits(d, turns) && MayGo(d, turns, c) && StandsAt(Overlap(d, turns), c, r, Fold(i, GOES_WELL))
    ensures SwitchesAtAwaits(d, more) && MayGo(d, more, c) && StandsAt(Overlap(d, more), c, Did(r, i), Look(i + 1)) && Fits(d, Did(r, i))
    ensures var sys, later := Overlap(d, turns), Overlap(d, more);
      && Moved(sys, c, later, Wrote(Did(r, i))) && later.callers[c].since == sys.callers[c].since
      && (NoneReopened(sys.trace) ==> NoneReopened(later.trace))
  {
    DidEffect(d, r, i);
    GoesOn(d, turns, c, Folding(d, r, i, GOES_WELL, Kept));
    more := turns + [Goes(c)];
  }

  lemma Closes(d: Definition, turns: seq<Turn>, c: nat, r: Record) returns (more: seq<Turn>)
    requires SwitchesAtAwaits(d, turns) && MayGo(d, turns, c) && StandsAt(Overlap(d, turns), c, r, Look(|d.steps|)) && r.state.OpRunning?
    ensures SwitchesAtAwaits(d, more) && more != [] && more[|more| - 1].c == c && c !in Overlap(d, more).callers
    ensures Moved(Overlap(d, turns), c, Overlap(d, more), Wrote(r.(state := OpCompleted, lastErrorCode := None)))
  {
    assert Advance(r, Complete) == Some(r.(state := OpCompleted));
    GoesOn(d, turns, c, Closing(r, Kept));
    more := turns + [Goes(c)];
  }

  /** With its declared steps done the call closes the operation; with more it goes on to the next. */
  lemma GoesOnOrCloses(d: Definition, turns: seq<Turn>, c: nat, r: Record, i: nat) returns (more: seq<Turn>)
    requires ValidDefinition(d) && Fits(d, r) && i <= |d.steps| && r.state.OpRunning? && (i < |d.steps| ==> !Settled(r.steps[i]))
    requires SwitchesAtAwaits(d, turns) && MayGo(d, turns, c) && StandsAt(Overlap(d, turns), c, r, Look(i))
    ensures SwitchesAtAwaits(d, more) && more != [] && more[|more| - 1].c == c && Paused(Overlap(d, more), c)
    ensures var sys, later := Overlap(d, turns), Overlap(d, more);
      && sys.trace <= later.trace && (NoneReopened(sys.trace) ==> NoneReopened(later.trace))
      && forall k | k != c :: Same(sys, later, k)
  {
    if i < |d.steps| {
      var q;
      more, q := Invokes(d, turns, c, r, i);
    } else {
      more := Closes(d, turns, c, r);
    }
  }

  /** A run finds the stored operation running and loads it. */
  lemma LoadsRunning(d: Definition, turns: seq<Turn>, c: nat, r: Record) returns (more: seq<Turn>)
    requires SwitchesAtAwaits(d, turns) && MayGo(d, turns, c) && c !in Overlap(d, turns).callers
    requires Overlap(d, turns).stored == Some(r) && r.state.OpRunning? && r.kind == d.kind
    ensures SwitchesAtAwaits(d, more) && MayGo(d, more, c) && StandsAt(Overlap(d, more), c, r, Look(0))
    ensures var sys, later := Overlap(d, turns), Overlap(d, more);
      && later.trace == sys.trace && later.stored == sys.stored && later.callers[c].since == |sys.trace|
      && forall k | k != c :: Same(sys, later, k)
  {
    OneMoreTurn(d, turns, Load(c, RunTask));
    more := turns + [Load(c, RunTask)];
  }

  /** The record a first run enters with. */
  function Entered(d: Definition): Record { Fresh(d).(state := OpRunning) }

  /** A first run loads nothing, enters, and invokes step 0. */
  lemma FirstInvokes(d: Definition) returns (turns: seq<Turn>)
    requires ValidDefinition(d)
    ensures SwitchesAtAwaits(d, turns) && turns != [] && turns[|turns| - 1].c == 0
    ensures var sys := Overlap(d, turns);
      && StandsAt(sys, 0, Ran(Entered(d), 0), Fold(0, GOES_WELL)) && 1 !in sys.callers && 2 !in sys.callers
      && |sys.trace| == 3 && NoneReopened(sys.trace) && sys.stored == Some(Ran(Entered(d), 0))
  {
    FreshFits(d);
    OneMoreTurn(d, [], Load(0, RunTask));
    var loaded: seq<Turn> := [] + [Load(0, RunTask)];
    GoesOn(d, loaded, 0, Entering(Fresh(d), Kept));
    var q;
    turns, q := Invokes(d, loaded + [Goes(0)], 0, Entered(d), 0);
    assert Same(Overlap(d, loaded), Overlap(d, loaded + [Goes(0)]), 1) && Same(Overlap(d, loaded), Overlap(d, loaded + [Goes(0)]), 2);
    assert Same(Overlap(d, loaded + [Goes(0)]), Overlap(d, turns), 1) && Same(Overlap(d, loaded + [Goes(0)]), Overlap(d, turns), 2);
  }

  /** A second run overlaps it: it loads the running record and invokes step 0 too. */
  lemma BothInvoke(d: Definition) returns (turns: seq<Turn>)
    requires ValidDefinition(d)
    ensures SwitchesAtAwaits(d, turns) && turns != [] && turns[|turns| - 1].c == 1
    ensures var sys := Overlap(d, turns);
      && StandsAt(sys, 0, Ran(Entered(d), 0), Fold(0, GOES_WELL))
      && StandsAt(sys, 1, Ran(Ran(Entered(d), 0), 0), Fold(0, GOES_WELL)) && sys.callers[1].since == 3
      && 2 !in sys.callers && |sys.trace| == 5 && NoneReopened(sys.trace)
  {
    FreshFits(d);
    RanEffect(d, Entered(d), 0);
    var first := FirstInvokes(d);
    var loaded := LoadsRunning(d, first, 1, Ran(Entered(d), 0));
    var q;
    turns, q := Invokes(d, loaded, 1, Ran(Entered(d), 0), 0);
    assert Same(Overlap(d, first), Overlap(d, loaded), 0) && Same(Overlap(d, first), Overlap(d, loaded), 2);
    assert Same(Overlap(d, loaded), Overlap(d, turns), 0) && Same(Overlap(d, loaded), Overlap(d, turns), 2);
  }

  /** Only step 0 of the record was ever touched. */
  ghost predicate RestFresh(d: Definition, r: Record)
  {
    && Fits(d, r) && r.state.OpRunning?
    && forall j | 0 < j < |d.steps| :: !Settled(r.steps[j])
  }

  lemma TouchFirst(d: Definition, r: Record)
    requires ValidDefinition(d) && RestFresh(d, r) && !Settled(r.steps[0])
    ensures RestFresh(d, Ran(r, 0)) && !Settled(Ran(r, 0).steps[0]) && RestFresh(d, Did(Ran(r, 0), 0))
  {
    RanEffect(d, r, 0);
    DidEffect(d, Ran(r, 0), 0);
  }

  /** The first run goes on: it takes up step 0, invokes step 1 and stores it as finished. */
  lemma FirstFinishesSecond(d: Definition) returns (turns: seq<Turn>)
    requires ValidDefinition(d) && |d.steps| >= 2
    ensures SwitchesAtAwaits(d, turns) && MayGo(d, turns, 1)
    ensures var sys := Overlap(d, turns);
      && StandsAt(sys, 1, Ran(Ran(Entered(d), 0), 0), Fold(0, GOES_WELL)) && sys.callers[1].since == 3 && 2 !in sys.callers
      && |sys.trace| > 8 && SettledBy(sys.trace, 8, 1) && NoneReopened(sys.trace)
  {
    FreshFits(d);
    var a1 := Ran(Entered(d), 0);
    TouchFirst(d, Entered(d));
    var t0 := BothInvoke(d);
    var t1 := TakesUp(d, t0, 0, a1, 0);
    var a2 := Did(a1, 0);
    RanEffect(d, a2, 1);
    var t2, q := Invokes(d, t1, 0, a2, 1);
    var t3 := TakesUp(d, t2, 0, Ran(a2, 1), 1);
    DidEffect(d, Ran(a2, 1), 1);
    turns := GoesOnOrCloses(d, t3, 0, Did(Ran(a2, 1), 1), 2);
    Unchanged(d, t0, t1, t2, t3, turns, 1);
    Unchanged(d, t0, t1, t2, t3, turns, 2);
    assert Overlap(d, turns).trace[8] == Overlap(d, t3).trace[8];
  }

  lemma Unchanged(d: Definition, t0: seq<Turn>, t1: seq<Turn>, t2: seq<Turn>, t3: seq<Turn>, t4: seq<Turn>, k: nat)
    requires Same(Overlap(d, t0), Overlap(d, t1), k) && Same(Overlap(d, t1), Overlap(d, t2), k)
    requires Same(Overlap(d, t2), Overlap(d, t3), k) && Same(Overlap(d, t3), Overlap(d, t4), k)
    ensures Same(Overlap(d, t0), Overlap(d, t4), k)
  {
  }

  /** The second run takes up step 0 from its stale record and invokes step 1 again. */
  lemma SecondRepeats(d: Definition) returns (turns: seq<Turn>, q: nat, r: Record)
    requires ValidDefinition(d) && |d.steps| >= 2
    ensures SwitchesAtAwaits(d, turns) && MayGo(d, turns, 2) && RestFresh(d, r) && Finished(r.steps[0])
    ensures var sys := Overlap(d, turns);
      && 8 < q < |sys.trace| && SettledBy(sys.trace, 8, 1) && NoneReopened(sys.trace) && sys.stored == Some(r) && 2 !in sys.callers
      && sys.trace[q].event.Invoked? && sys.trace[q].event.i == 1 && sys.trace[q].since == 3
  {
    FreshFits(d);
    TouchFirst(d, Entered(d));
    var b1 := Ran(Ran(Entered(d), 0), 0);
    TouchFirst(d, Ran(Entered(d), 0));
    var b2 := Did(b1, 0);
    DidEffect(d, b1, 0);
    var t0 := FirstFinishesSecond(d);
    var t1 := TakesUp(d, t0, 1, b1, 0);
    turns, q := Invokes(d, t1, 1, b2, 1);
    r := Ran(b2, 1);
    RanEffect(d, b2, 1);
    assert Same(Overlap(d, t0), Overlap(d, t1), 2) && Same(Overlap(d, t1), Overlap(d, turns), 2);
    assert Overlap(d, turns).trace[8] == Overlap(d, t0).trace[8];
  }

  /** A finished step is passed over. */
  lemma PassesOver(d: Definition, turns: seq<Turn>, c: nat, r: Record, i: nat) returns (more: seq<Turn>)
    requires ValidDefinition(d) && Fits(d, r) && i < |d.steps| && Finished(r.steps[i])
    requires SwitchesAtAwaits(d, turns) && MayGo(d, turns, c) && StandsAt(Overlap(d, turns), c, r, Look(i))
    ensures SwitchesAtAwaits(d, more) && MayGo(d, more, c) && StandsAt(Overlap(d, more), c, r, Look(i + 1))
    ensures var sys, later := Overlap(d, turns), Overlap(d, more);
      later.trace == sys.trace && later.callers[c].since == sys.callers[c].since
  {
    ReplaceFits(d, r, i, r.steps[i]);
    OneMoreTurn(d, turns, Goes(c));
    more := turns + [Goes(c)];
  }

  /**
   * Overlapping runs that change over only where one has ended or waits for a step repeat a finished step: event 8
   * stores step 1 as finished, a run that had loaded before invokes it again, and so does one that loads afterwards
   * what that run left, with nothing reopened.
   */
  lemma OverlapRepeatsAtAwaits(d: Definition) returns (turns: seq<Turn>, stale: nat, late: nat)
    requires ValidDefinition(d) && |d.steps| >= 2
    ensures SwitchesAtAwaits(d, turns)
    ensures var t := Overlap(d, turns).trace;
      && 8 < stale < late < |t| && SettledBy(t, 8, 1) && NoneReopened(t)
      && t[stale].event.Invoked? && t[stale].event.i == 1 && t[stale].since <= 8
      && t[late].event.Invoked? && t[late].event.i == 1 && t[late].since > 8
  {
    var t0, q, r := SecondRepeats(d);
    var t1 := LoadsRunning(d, t0, 2, r);
    var t2 := PassesOver(d, t1, 2, r, 0);
    stale := q;
    turns, late := Invokes(d, t2, 2, r, 1);
    assert Overlap(d, turns).trace[8] == Overlap(d, t0).trace[8] && Overlap(d, turns).trace[stale] == Overlap(d, t0).trace[stale];
  }
}
