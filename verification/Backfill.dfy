/**
 * The checkpointed backfill: record processing, the checkpoint store, and every
 * interleaving of operators that start, resume, restart, halt, lose races and crash.
 */
module Backfill {
  import opened Prelude

  type Id = string

  /** A record: its id, and the canonical form of everything else in it. */
  datatype Rec = Rec(id: Id, fields: string)

  type Rows = map<Id, Rec>

  datatype Transformed = Value(rec: Rec) | Declined(reason: string) | Threw(error: string)

  type Transform = Rec -> Transformed

  datatype Status = Running | Halted | Completed | RolledBack

  /** How many records were scanned, and what became of them. */
  datatype Tally = Tally(scanned: nat, updated: nat, same: nat, skipped: nat, failed: nat)

  /** `journal` holds the before-image of every applied update, oldest first. */
  datatype Checkpoint = Checkpoint(
    version: string, revision: nat, status: Status, lastId: Option<Id>, tally: Tally, journal: seq<Rec>)

  /** An operator's in-memory state between checkpoints. */
  datatype Progress = Progress(lastId: Option<Id>, tally: Tally, journal: seq<Rec>, runFailures: nat)

  predicate KeyedRows(rows: Rows) { forall id | id in rows :: rows[id].id == id }

  predicate After(id: Id, last: Option<Id>) { last.None? || Less(last.value, id) }

  predicate Balanced(t: Tally) { t.scanned == t.updated + t.same + t.skipped + t.failed }

  // ---------------------------------------------------------------- one record

  function Fail(p: Progress): Progress
  {
    p.(tally := p.tally.(scanned := p.tally.scanned + 1, failed := p.tally.failed + 1), runFailures := p.runFailures + 1)
  }

  /** One turn of the batch loop: transform, compare, write, journal, count. */
  function Process(t: Transform, apply: bool, p: Progress, rows: Rows, rec: Rec, lands: bool): (Progress, Rows)
  {
    match t(rec)
    case Threw(_) => (Fail(p), rows)
    case Declined(_) =>
      (p.(tally := p.tally.(scanned := p.tally.scanned + 1, skipped := p.tally.skipped + 1)), rows)
    case Value(out) =>
      if out.id != rec.id then (Fail(p), rows)
      else if out == rec then
        (p.(tally := p.tally.(scanned := p.tally.scanned + 1, same := p.tally.same + 1)), rows)
      else if apply && !lands then (Fail(p), rows)
      else
        var counted := p.(tally := p.tally.(scanned := p.tally.scanned + 1, updated := p.tally.updated + 1));
        if apply then (counted.(journal := p.journal + [rec]), rows[out.id := out]) else (counted, rows)
  }

  /** The record-by-record transform: declined, throwing and id-changing records stay as they are. */
  function Goal(t: Transform, r: Rec): (out: Rec)
    ensures out.id == r.id
  {
    match t(r)
    case Value(out) => if out.id == r.id then out else r
    case _ => r
  }

  /** "Transforming its own output returns the same record." */
  ghost predicate Idempotent(t: Transform)
  {
    forall r {:trigger Goal(t, r)} :: t(r).Value? && t(r).rec.id == r.id ==> t(t(r).rec) == Value(t(r).rec)
  }

  lemma GoalIdempotent(t: Transform, r: Rec)
    requires Idempotent(t)
    ensures Goal(t, Goal(t, r)) == Goal(t, r)
  {
  }

  /** What one turn does to the target and the tally, whatever the transform. */
  lemma ProcessEffect(t: Transform, p: Progress, rows: Rows, rec: Rec, lands: bool)
    requires Balanced(p.tally)
    ensures var (p', rows') := Process(t, true, p, rows, rec, lands);
      && Balanced(p'.tally) && p'.tally.scanned == p.tally.scanned + 1 && p'.lastId == p.lastId
      && ((rows' == rows && p'.journal == p.journal)
          || (rows' == rows[rec.id := Goal(t, rec)] && p'.journal == p.journal + [rec]))
      && (lands ==> rows' == rows || Goal(t, rec) != rec)
      && (lands && Goal(t, rec) != rec ==> rows' == rows[rec.id := Goal(t, rec)])
  {
  }

  // ---------------------------------------------------------------- reading a batch

  /** What a target promises of a batch: the first `limit` records after `last`, ascending. */
  ghost predicate IsBatch(rows: Rows, last: Option<Id>, limit: nat, batch: seq<Rec>)
  {
    && |batch| <= limit
    && (forall i | 0 <= i < |batch| ::
          batch[i].id in rows && rows[batch[i].id] == batch[i] && After(batch[i].id, last))
    && (forall i, j | 0 <= i < j < |batch| :: Less(batch[i].id, batch[j].id))
    && (forall id | id in rows && After(id, last) && !Listed(batch, id) ::
          |batch| == limit && (batch == [] || Less(batch[|batch| - 1].id, id)))
  }

  ghost predicate Listed(batch: seq<Rec>, id: Id) { exists i | 0 <= i < |batch| :: batch[i].id == id }

  // ---------------------------------------------------------------- operators and steps

  datatype Phase = Reading | Batch(todo: seq<Rec>, last: Option<Id>, full: bool)

  datatype Operator = Operator(
    progress: Progress, revision: Option<nat>, phase: Phase, batchSize: Positive, maxFailures: nat)

  datatype System = System(rows: Rows, stored: Option<Checkpoint>, operators: map<nat, Operator>)

  datatype Event =
    | Start(o: nat, restart: bool, batchSize: Positive, maxFailures: nat)
    | Read(o: nat, batch: seq<Rec>)
    | Next(o: nat)
    | Save(o: nat)
    | SourceFails(o: nat)
    | Crash(o: nat)

  const NOTHING := Progress(None, Tally(0, 0, 0, 0, 0), [], 0)

  /** What a run starts from, given the stored checkpoint, or why it is refused. */
  function Resume(version: string, stored: Option<Checkpoint>, restart: bool): Result<Progress, Refusal>
  {
    match stored
    case None => Ok(NOTHING)
    case Some(c) =>
      if restart then Ok(NOTHING.(journal := c.journal))
      else if c.version != version then Err(VersionMismatch)
      else if c.status.Completed? || c.status.RolledBack? then Err(AlreadyCompleted)
      else Ok(Progress(c.lastId, c.tally, c.journal, 0))
  }

  datatype Refusal =
    InvalidOptions | Unauthorized | VersionMismatch | AlreadyCompleted | CheckpointConflict | SourceUnavailable | NoCheckpoint

  function RevisionOf(stored: Option<Checkpoint>): Option<nat>
  {
    if stored.Some? then Some(stored.value.revision) else None
  }

  function Snapshot(version: string, revision: Option<nat>, p: Progress, status: Status): Checkpoint
  {
    Checkpoint(version, (if revision.Some? then revision.value else 0) + 1, status, p.lastId, p.tally, p.journal)
  }

  /** Compare-and-set on the revision. */
  function SaveTo(stored: Option<Checkpoint>, c: Checkpoint, expected: Option<nat>): Option<Checkpoint>
  {
    if RevisionOf(stored) == expected then Some(c) else stored
  }

  function Advance(p: Progress, last: Option<Id>): Progress { if last.Some? then p.(lastId := last) else p }

  function StatusOf(p: Progress, maxFailures: nat, full: bool): Status
  {
    if p.runFailures > maxFailures then Halted else if full then Running else Completed
  }

  /** One atomic step between two awaits; a step that is not enabled changes nothing. */
  ghost function Step(t: Transform, version: string, sys: System, e: Event): System
  {
    match e
    case Start(o, restart, batchSize, maxFailures) =>
      var from := Resume(version, sys.stored, restart);
      if o in sys.operators || from.Err? then sys
      else sys.(operators := sys.operators[o := Operator(from.value, RevisionOf(sys.stored), Reading, batchSize, maxFailures)])
    case Read(o, batch) =>
      if o !in sys.operators then sys
      else
        var op := sys.operators[o];
        if !op.phase.Reading? || !IsBatch(sys.rows, op.progress.lastId, op.batchSize, batch) then sys
        else
          var last := if batch == [] then None else Some(batch[|batch| - 1].id);
          sys.(operators := sys.operators[o := op.(phase := Batch(batch, last, |batch| == op.batchSize))])
    case Next(o) =>
      if o !in sys.operators || !sys.operators[o].phase.Batch? || sys.operators[o].phase.todo == [] then sys
      else
        var op := sys.operators[o];
        var (p, rows) := Process(t, true, op.progress, sys.rows, op.phase.todo[0], true);
        sys.(rows := rows, operators := sys.operators[o := op.(progress := p, phase := op.phase.(todo := op.phase.todo[1..]))])
    case Save(o) =>
      if o !in sys.operators || !sys.operators[o].phase.Batch? || sys.operators[o].phase.todo != [] then sys
      else
        var op := sys.operators[o];
        var p := Advance(op.progress, op.phase.last);
        var c := Snapshot(version, op.revision, p, StatusOf(p, op.maxFailures, op.phase.full));
        if RevisionOf(sys.stored) == op.revision && c.status.Running? then
          System(sys.rows, Some(c), sys.operators[o := op.(progress := p, revision := Some(c.revision), phase := Reading)])
        else
          System(sys.rows, SaveTo(sys.stored, c, op.revision), sys.operators - {o})
    case SourceFails(o) =>
      if o !in sys.operators then sys
      else
        var op := sys.operators[o];
        System(sys.rows, SaveTo(sys.stored, Snapshot(version, op.revision, op.progress, Halted), op.revision),
               sys.operators - {o})
    case Crash(o) => sys.(operators := sys.operators - {o})
  }

  ghost function Run(t: Transform, version: string, sys: System, events: seq<Event>): System
  {
    if events == [] then sys
    else Step(t, version, Run(t, version, sys, events[..|events| - 1]), events[|events| - 1])
  }

  // ---------------------------------------------------------------- crash convergence

  ghost predicate Done(t: Transform, orig: Rows, rows: Rows, id: Id)
    requires id in orig && id in rows
  {
    rows[id] == Goal(t, orig[id])
  }

  /** A record as some operator may hold it: the original, or the finished one. */
  ghost predicate Old(t: Transform, orig: Rows, r: Rec)
  {
    r.id in orig && (r == orig[r.id] || r == Goal(t, orig[r.id]))
  }

  /** A record in an operator's batch; a finished image was read from a finished row. */
  ghost predicate Held(t: Transform, orig: Rows, rows: Rows, r: Rec)
    requires rows.Keys == orig.Keys
  {
    Old(t, orig, r) && (r == Goal(t, orig[r.id]) ==> Done(t, orig, rows, r.id))
  }

  /** Every row is still the original or already finished. */
  ghost predicate RowsFine(t: Transform, orig: Rows, rows: Rows)
  {
    rows.Keys == orig.Keys && KeyedRows(rows) && forall id | id in rows :: Old(t, orig, rows[id])
  }

  ghost predicate DoneUpTo(t: Transform, orig: Rows, rows: Rows, last: Option<Id>)
    requires rows.Keys == orig.Keys
  {
    forall id | id in rows && !After(id, last) :: Done(t, orig, rows, id)
  }

  ghost predicate PhaseFine(t: Transform, orig: Rows, rows: Rows, lastId: Option<Id>, phase: Phase)
    requires rows.Keys == orig.Keys
  {
    phase.Batch? ==>
      && (forall i | 0 <= i < |phase.todo| :: Held(t, orig, rows, phase.todo[i]))
      && (forall id | id in rows && After(id, lastId) && (!phase.full || (phase.last.Some? && !After(id, phase.last))) ::
            Done(t, orig, rows, id) || Listed(phase.todo, id))
  }

  ghost predicate OperatorFine(t: Transform, orig: Rows, rows: Rows, op: Operator)
    requires rows.Keys == orig.Keys
  {
    && Balanced(op.progress.tally)
    && DoneUpTo(t, orig, rows, op.progress.lastId)
    && PhaseFine(t, orig, rows, op.progress.lastId, op.phase)
  }

  ghost predicate StoredFine(t: Transform, orig: Rows, rows: Rows, stored: Option<Checkpoint>)
    requires rows.Keys == orig.Keys
  {
    stored.Some? ==>
      && Balanced(stored.value.tally)
      && (!stored.value.status.RolledBack? ==> DoneUpTo(t, orig, rows, stored.value.lastId))
      && (stored.value.status.Completed? ==> forall id | id in rows :: Done(t, orig, rows, id))
  }

  /** What every history keeps. */
  ghost predicate Converging(t: Transform, orig: Rows, sys: System)
  {
    && RowsFine(t, orig, sys.rows)
    && StoredFine(t, orig, sys.rows, sys.stored)
    && forall o | o in sys.operators :: OperatorFine(t, orig, sys.rows, sys.operators[o])
  }

  /** Rows only ever move from original to finished. */
  ghost predicate Finishes(t: Transform, orig: Rows, rows: Rows, rows': Rows)
    requires rows.Keys == orig.Keys
  {
    && RowsFine(t, orig, rows')
    && forall id | id in rows && Done(t, orig, rows, id) :: Done(t, orig, rows', id)
  }

  lemma FinishesKeeps(t: Transform, orig: Rows, rows: Rows, rows': Rows, op: Operator)
    requires RowsFine(t, orig, rows) && Finishes(t, orig, rows, rows') && OperatorFine(t, orig, rows, op)
    ensures OperatorFine(t, orig, rows', op)
  {
    forall id | id in rows' && !After(id, op.progress.lastId) ensures Done(t, orig, rows', id) {
      assert Done(t, orig, rows, id);
    }
    if op.phase.Batch? {
      forall i | 0 <= i < |op.phase.todo| ensures Held(t, orig, rows', op.phase.todo[i]) {
        assert Held(t, orig, rows, op.phase.todo[i]);
      }
      forall id | id in rows' && After(id, op.progress.lastId)
                  && (!op.phase.full || (op.phase.last.Some? && !After(id, op.phase.last)))
        ensures Done(t, orig, rows', id) || Listed(op.phase.todo, id)
      {
        assert Done(t, orig, rows, id) || Listed(op.phase.todo, id);
      }
    }
  }

  lemma StoredKeeps(t: Transform, orig: Rows, rows: Rows, rows': Rows, stored: Option<Checkpoint>)
    requires RowsFine(t, orig, rows) && Finishes(t, orig, rows, rows') && StoredFine(t, orig, rows, stored)
    ensures StoredFine(t, orig, rows', stored)
  {
    if stored.Some? {
      if !stored.value.status.RolledBack? {
        forall id | id in rows' && !After(id, stored.value.lastId) ensures Done(t, orig, rows', id) {
          assert Done(t, orig, rows, id);
        }
      }
      if stored.value.status.Completed? {
        forall id | id in rows' ensures Done(t, orig, rows', id) { assert Done(t, orig, rows, id); }
      }
    }
  }

  /** Processing any held image of a record, even a stale one, finishes its row. */
  lemma ProcessFinishes(t: Transform, orig: Rows, p: Progress, rows: Rows, rec: Rec)
    requires Idempotent(t) && KeyedRows(orig) && RowsFine(t, orig, rows) && Held(t, orig, rows, rec) && Balanced(p.tally)
    ensures var rows' := Process(t, true, p, rows, rec, true).1;
      Finishes(t, orig, rows, rows') && Done(t, orig, rows', rec.id)
  {
    GoalIdempotent(t, orig[rec.id]);
    ProcessEffect(t, p, rows, rec, true);
    assert Goal(t, rec) == Goal(t, orig[rec.id]);
  }

  lemma ReadConverges(t: Transform, orig: Rows, rows: Rows, op: Operator, batch: seq<Rec>)
    requires RowsFine(t, orig, rows) && OperatorFine(t, orig, rows, op)
    requires IsBatch(rows, op.progress.lastId, op.batchSize, batch)
    ensures var last := if batch == [] then None else Some(batch[|batch| - 1].id);
      OperatorFine(t, orig, rows, op.(phase := Batch(batch, last, |batch| == op.batchSize)))
  {
    forall i | 0 <= i < |batch| ensures Held(t, orig, rows, batch[i]) {
      assert Old(t, orig, rows[batch[i].id]);
    }
  }

  lemma NextConverges(t: Transform, orig: Rows, rows: Rows, op: Operator)
    requires Idempotent(t) && KeyedRows(orig) && RowsFine(t, orig, rows) && OperatorFine(t, orig, rows, op)
    requires op.phase.Batch? && op.phase.todo != []
    ensures var (p, rows') := Process(t, true, op.progress, rows, op.phase.todo[0], true);
      && Finishes(t, orig, rows, rows')
      && OperatorFine(t, orig, rows', op.(progress := p, phase := op.phase.(todo := op.phase.todo[1..])))
  {
    var rec, rest := op.phase.todo[0], op.phase.todo[1..];
    var (p, rows') := Process(t, true, op.progress, rows, rec, true);
    ProcessFinishes(t, orig, op.progress, rows, rec);
    ProcessEffect(t, op.progress, rows, rec, true);
    FinishesKeeps(t, orig, rows, rows', op);
    forall id | Listed(op.phase.todo, id) && id != rec.id ensures Listed(rest, id) {
      var i :| 0 <= i < |op.phase.todo| && op.phase.todo[i].id == id;
      assert rest[i - 1].id == id;
    }
  }

  /** A finished batch may be checkpointed: everything up to its last id is done. */
  lemma SaveConverges(t: Transform, orig: Rows, rows: Rows, op: Operator, version: string)
    requires RowsFine(t, orig, rows) && OperatorFine(t, orig, rows, op) && op.phase.Batch? && op.phase.todo == []
    ensures var p := Advance(op.progress, op.phase.last);
      && StoredFine(t, orig, rows, Some(Snapshot(version, op.revision, p, StatusOf(p, op.maxFailures, op.phase.full))))
      && OperatorFine(t, orig, rows, op.(progress := p, revision := Some(0), phase := Reading))
  {
    var p := Advance(op.progress, op.phase.last);
    forall id | id in rows && !After(id, p.lastId) ensures Done(t, orig, rows, id) {
      assert !After(id, op.progress.lastId) || !Listed(op.phase.todo, id);
    }
    if !op.phase.full {
      forall id | id in rows ensures Done(t, orig, rows, id) {
        assert !After(id, op.progress.lastId) || !Listed(op.phase.todo, id);
      }
    }
  }

  /** Replacing or dropping one operator, rows and stored checkpoint fixed up, keeps the rest. */
  lemma OneOperator(t: Transform, orig: Rows, sys: System, sys': System, o: nat)
    requires Converging(t, orig, sys) && sys'.rows == sys.rows && StoredFine(t, orig, sys.rows, sys'.stored)
    requires sys'.operators.Keys <= sys.operators.Keys + {o}
    requires forall x | x in sys'.operators && x != o :: sys'.operators[x] == sys.operators[x]
    requires o in sys'.operators ==> OperatorFine(t, orig, sys.rows, sys'.operators[o])
    ensures Converging(t, orig, sys')
  {
  }

  lemma StartConverges(t: Transform, orig: Rows, version: string, sys: System, e: Event)
    requires e.Start? && Converging(t, orig, sys)
    ensures Converging(t, orig, Step(t, version, sys, e))
  {
    if Step(t, version, sys, e) != sys { OneOperator(t, orig, sys, Step(t, version, sys, e), e.o); }
  }

  lemma ReadStepConverges(t: Transform, orig: Rows, version: string, sys: System, e: Event)
    requires e.Read? && Converging(t, orig, sys)
    ensures Converging(t, orig, Step(t, version, sys, e))
  {
    var sys' := Step(t, version, sys, e);
    if e.o in sys.operators && sys.operators[e.o].phase.Reading?
       && IsBatch(sys.rows, sys.operators[e.o].progress.lastId, sys.operators[e.o].batchSize, e.batch) {
      ReadConverges(t, orig, sys.rows, sys.operators[e.o], e.batch);
      OneOperator(t, orig, sys, sys', e.o);
    }
  }

  lemma NextStepConverges(t: Transform, orig: Rows, version: string, sys: System, e: Event)
    requires Idempotent(t) && KeyedRows(orig) && e.Next? && Converging(t, orig, sys)
    ensures Converging(t, orig, Step(t, version, sys, e))
  {
    var o := e.o;
    if o in sys.operators && sys.operators[o].phase.Batch? && sys.operators[o].phase.todo != [] {
      var op := sys.operators[o];
      var (p, rows) := Process(t, true, op.progress, sys.rows, op.phase.todo[0], true);
      NextConverges(t, orig, sys.rows, op);
      StoredKeeps(t, orig, sys.rows, rows, sys.stored);
      forall x | x in sys.operators && x != o ensures OperatorFine(t, orig, rows, sys.operators[x]) {
        FinishesKeeps(t, orig, sys.rows, rows, sys.operators[x]);
      }
    }
  }

  lemma SaveStepConverges(t: Transform, orig: Rows, version: string, sys: System, e: Event)
    requires e.Save? && Converging(t, orig, sys)
    ensures Converging(t, orig, Step(t, version, sys, e))
  {
    var o := e.o;
    if o in sys.operators && sys.operators[o].phase.Batch? && sys.operators[o].phase.todo == [] {
      SaveConverges(t, orig, sys.rows, sys.operators[o], version);
      OneOperator(t, orig, sys, Step(t, version, sys, e), o);
    }
  }

  lemma StopConverges(t: Transform, orig: Rows, version: string, sys: System, e: Event)
    requires (e.SourceFails? || e.Crash?) && Converging(t, orig, sys)
    ensures Converging(t, orig, Step(t, version, sys, e))
  {
    if e.o in sys.operators { OneOperator(t, orig, sys, Step(t, version, sys, e), e.o); }
  }

  lemma StepConverges(t: Transform, orig: Rows, version: string, sys: System, e: Event)
    requires Idempotent(t) && KeyedRows(orig) && Converging(t, orig, sys)
    ensures Converging(t, orig, Step(t, version, sys, e))
  {
    if e.Start? { StartConverges(t, orig, version, sys, e); }
    if e.Read? { ReadStepConverges(t, orig, version, sys, e); }
    if e.Next? { NextStepConverges(t, orig, version, sys, e); }
    if e.Save? { SaveStepConverges(t, orig, version, sys, e); }
    if e.SourceFails? || e.Crash? { StopConverges(t, orig, version, sys, e); }
  }

  lemma {:induction false} RunConverges(t: Transform, orig: Rows, version: string, sys: System, events: seq<Event>)
    requires Idempotent(t) && KeyedRows(orig) && Converging(t, orig, sys)
    ensures Converging(t, orig, Run(t, version, sys, events))
    decreases |events|
  {
    if events != [] {
      RunConverges(t, orig, version, sys, events[..|events| - 1]);
      StepConverges(t, orig, version, Run(t, version, sys, events[..|events| - 1]), events[|events| - 1]);
    }
  }

  lemma StartConverging(t: Transform, orig: Rows)
    requires KeyedRows(orig)
    ensures Converging(t, orig, System(orig, None, map[]))
  {
    forall id | id in orig ensures Old(t, orig, orig[id]) {}
  }

  /**
   * Any history of any number of operators, with crashes between any two awaits, halts, failing sources,
   * lost races, resumes and restarts, keeps every row original or finished and every saved tally balanced.
   */
  lemma HistoryConverges(t: Transform, orig: Rows, version: string, events: seq<Event>)
    requires Idempotent(t) && KeyedRows(orig)
    ensures Converging(t, orig, Run(t, version, System(orig, None, map[]), events))
  {
    StartConverging(t, orig);
    RunConverges(t, orig, version, System(orig, None, map[]), events);
  }

  /** A history that leaves a completed checkpoint leaves the record-by-record transform of the original. */
  lemma CompletedMeansTransformed(t: Transform, orig: Rows, version: string, events: seq<Event>)
    requires Idempotent(t) && KeyedRows(orig)
    ensures var sys := Run(t, version, System(orig, None, map[]), events);
      sys.stored.Some? && sys.stored.value.status.Completed? ==>
        sys.rows == map id | id in orig :: Goal(t, orig[id])
  {
    HistoryConverges(t, orig, version, events);
    var sys := Run(t, version, System(orig, None, map[]), events);
    if sys.stored.Some? && sys.stored.value.status.Completed? {
      assert forall id | id in sys.rows :: Done(t, orig, sys.rows, id);
    }
  }
}
