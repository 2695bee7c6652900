/** Rollbacks among the runs of a backfill: what a completed checkpoint still means afterwards. */
module BackfillRollback {
  import opened Prelude
  import opened Backfill
  import opened BackfillRun

  /** `rollbackBackfill` while no operator is at work; image `k` is restored when `lands(k)`. */
  function RollBack(sys: System, lands: nat -> bool): System
  {
    match sys.stored
    case None => sys
    case Some(c) =>
      System(Restore(c.journal, sys.rows, lands), Some(AfterRollback(c, Remaining(c.journal, lands))), sys.operators)
  }

  /** The record has an image that was restored. */
  ghost predicate Restored(journal: seq<Rec>, lands: nat -> bool, id: Id)
  {
    exists k: nat | k < |journal| :: lands(k) && journal[k].id == id
  }

  lemma {:induction false} OldestRestored(t: Transform, orig: Rows, journal: seq<Rec>, lands: nat -> bool, id: Id)
    requires Originals(t, orig, journal) && id in orig
    ensures Oldest(journal, id, lands) == if Restored(journal, lands, id) then Some(orig[id]) else None
    decreases |journal|
  {
    if journal != [] {
      var n := |journal| - 1;
      var shorter := journal[..n];
      OldestRestored(t, orig, shorter, lands, id);
      RestoredGrows(journal, lands, id);
      assert IsOriginal(t, orig, journal[n]);
    }
  }

  lemma RestoredGrows(journal: seq<Rec>, lands: nat -> bool, id: Id)
    requires journal != []
    ensures var n := |journal| - 1;
      Restored(journal, lands, id) <==> Restored(journal[..n], lands, id) || (lands(n) && journal[n].id == id)
  {
    var n := |journal| - 1;
    if Restored(journal[..n], lands, id) {
      var k: nat :| k < n && lands(k) && journal[..n][k].id == id;
      assert lands(k) && journal[k].id == id;
    }
    if Restored(journal, lands, id) && !(lands(n) && journal[n].id == id) {
      var k: nat :| k < |journal| && lands(k) && journal[k].id == id;
      assert lands(k) && journal[..n][k].id == id;
    }
  }

  /** A rollback puts restored records back to their originals and leaves the others as they are. */
  lemma RowAfter(t: Transform, orig: Rows, journal: seq<Rec>, rows: Rows, lands: nat -> bool, id: Id)
    requires Originals(t, orig, journal) && rows.Keys == orig.Keys && id in orig
    ensures var after := Restore(journal, rows, lands);
      id in after && after[id] == if Restored(journal, lands, id) then orig[id] else rows[id]
  {
    OldestRestored(t, orig, journal, lands, id);
    RestoreValue(journal, rows, lands, id);
  }

  lemma {:induction false} RestoreKeys(t: Transform, orig: Rows, journal: seq<Rec>, rows: Rows, lands: nat -> bool)
    requires Originals(t, orig, journal) && rows.Keys == orig.Keys
    ensures Restore(journal, rows, lands).Keys == orig.Keys
    decreases |journal|
  {
    if journal != [] {
      var n := |journal| - 1;
      assert IsOriginal(t, orig, journal[n]);
      RestoreKeys(t, orig, journal[..n], if lands(n) then rows[journal[n].id := journal[n]] else rows, lands);
    }
  }

  lemma RowsStayFine(t: Transform, orig: Rows, journal: seq<Rec>, rows: Rows, lands: nat -> bool)
    requires KeyedRows(orig) && RowsFine(t, orig, rows) && Originals(t, orig, journal)
    ensures RowsFine(t, orig, Restore(journal, rows, lands))
  {
    var after := Restore(journal, rows, lands);
    RestoreKeys(t, orig, journal, rows, lands);
    forall id | id in after ensures after[id].id == id && Old(t, orig, after[id]) {
      RowAfter(t, orig, journal, rows, lands, id);
      assert Old(t, orig, rows[id]);
    }
  }

  /** A restored record is not finished any more, and it alone. */
  lemma DoneAfter(t: Transform, orig: Rows, journal: seq<Rec>, rows: Rows, lands: nat -> bool, id: Id)
    requires Originals(t, orig, journal) && rows.Keys == orig.Keys && id in orig && id in Restore(journal, rows, lands)
    ensures Done(t, orig, Restore(journal, rows, lands), id) <==> Done(t, orig, rows, id) && !Restored(journal, lands, id)
  {
    RowAfter(t, orig, journal, rows, lands, id);
    if Restored(journal, lands, id) {
      var k: nat :| k < |journal| && lands(k) && journal[k].id == id;
      assert IsOriginal(t, orig, journal[k]);
    }
  }

  /**
   * What can be seen before the next run: every image is back, or none of the restored records lies behind a
   * checkpoint that a resume would go on from or that already counts as completed.
   */
  ghost predicate Survives(c: Checkpoint, lands: nat -> bool)
  {
    || Remaining(c.journal, lands) == []
    || c.status.RolledBack?
    || forall id | Restored(c.journal, lands, id) :: !c.status.Completed? && After(id, c.lastId)
  }

  /** A rollback between runs keeps the promise of the checkpoint exactly when it survives in that sense. */
  lemma RollbackKeepsExactly(t: Transform, orig: Rows, sys: System, lands: nat -> bool)
    requires KeyedRows(orig) && Converging(t, orig, sys) && AllOriginals(t, orig, sys)
    requires sys.stored.Some? && sys.operators == map[]
    ensures Converging(t, orig, RollBack(sys, lands)) <==> Survives(sys.stored.value, lands)
    ensures Originals(t, orig, Remaining(sys.stored.value.journal, lands))
  {
    var c, after := sys.stored.value, RollBack(sys, lands);
    RowsStayFine(t, orig, c.journal, sys.rows, lands);
    RemainingOriginals(t, orig, c.journal, lands);
    forall id | id in orig ensures Done(t, orig, after.rows, id) <==> Done(t, orig, sys.rows, id) && !Restored(c.journal, lands, id) {
      DoneAfter(t, orig, c.journal, sys.rows, lands, id);
    }
    CheckpointAfter(t, orig, sys.rows, after.rows, c, lands);
  }

  lemma CheckpointAfter(t: Transform, orig: Rows, rows: Rows, rows': Rows, c: Checkpoint, lands: nat -> bool)
    requires rows.Keys == orig.Keys == rows'.Keys && StoredFine(t, orig, rows, Some(c)) && Originals(t, orig, c.journal)
    requires forall id | id in orig :: Done(t, orig, rows', id) <==> Done(t, orig, rows, id) && !Restored(c.journal, lands, id)
    ensures StoredFine(t, orig, rows', Some(AfterRollback(c, Remaining(c.journal, lands)))) <==> Survives(c, lands)
  {
    forall id | Restored(c.journal, lands, id) ensures id in orig {
      var k: nat :| k < |c.journal| && lands(k) && c.journal[k].id == id;
      assert IsOriginal(t, orig, c.journal[k]);
    }
  }

  lemma {:induction false} RemainingOriginals(t: Transform, orig: Rows, journal: seq<Rec>, lands: nat -> bool)
    requires Originals(t, orig, journal)
    ensures Originals(t, orig, Remaining(journal, lands))
    decreases |journal|
  {
    if journal != [] { RemainingOriginals(t, orig, journal[..|journal| - 1], lands); }
  }

  // ---------------------------------------------------------------- histories with rollbacks

  datatype Act = Work(e: Event) | Undoing(lands: nat -> bool)

  ghost function RunActs(t: Transform, version: string, sys: System, acts: seq<Act>): System
    decreases |acts|
  {
    if acts == [] then sys
    else
      var before := RunActs(t, version, sys, acts[..|acts| - 1]);
      match acts[|acts| - 1]
      case Work(e) => Step(t, version, before, e)
      case Undoing(lands) => RollBack(before, lands)
  }

  /** Every rollback of the history comes while no operator is at work, and survives. */
  ghost predicate GoodUndoing(t: Transform, version: string, sys: System, acts: seq<Act>)
  {
    forall i | 0 <= i < |acts| && acts[i].Undoing? :: GoodUndoAt(t, version, sys, acts, i)
  }

  ghost predicate GoodUndoAt(t: Transform, version: string, sys: System, acts: seq<Act>, i: nat)
    requires i < |acts| && acts[i].Undoing?
  {
    var before := RunActs(t, version, sys, acts[..i]);
    before.operators == map[] && (before.stored.Some? ==> Survives(before.stored.value, acts[i].lands))
  }

  lemma OneAct(t: Transform, orig: Rows, version: string, sys: System, a: Act)
    requires Idempotent(t) && KeyedRows(orig) && Converging(t, orig, sys) && AllOriginals(t, orig, sys)
    requires a.Undoing? ==> sys.operators == map[] && (sys.stored.Some? ==> Survives(sys.stored.value, a.lands))
    ensures var after := if a.Work? then Step(t, version, sys, a.e) else RollBack(sys, a.lands);
      Converging(t, orig, after) && AllOriginals(t, orig, after)
  {
    if a.Work? {
      StepConverges(t, orig, version, sys, a.e);
      StepOriginals(t, orig, version, sys, a.e);
    } else if sys.stored.Some? {
      RollbackKeepsExactly(t, orig, sys, a.lands);
    }
  }

  lemma {:induction false} ActsConverge(t: Transform, orig: Rows, version: string, acts: seq<Act>)
    requires Idempotent(t) && KeyedRows(orig) && GoodUndoing(t, version, System(orig, None, map[]), acts)
    ensures var sys := RunActs(t, version, System(orig, None, map[]), acts); Converging(t, orig, sys) && AllOriginals(t, orig, sys)
    decreases |acts|
  {
    var start := System(orig, None, map[]);
    if acts == [] {
      StartConverging(t, orig);
    } else {
      var n := |acts| - 1;
      assert forall i | 0 <= i < n :: acts[..n][..i] == acts[..i];
      forall i | 0 <= i < n && acts[..n][i].Undoing? ensures GoodUndoAt(t, version, start, acts[..n], i) {
        assert GoodUndoAt(t, version, start, acts, i);
      }
      ActsConverge(t, orig, version, acts[..n]);
      assert acts[n].Undoing? ==> GoodUndoAt(t, version, start, acts, n);
      OneAct(t, orig, version, RunActs(t, version, start, acts[..n]), acts[n]);
    }
  }

  /** After any history of runs and surviving rollbacks, a completed checkpoint still means the record-by-record transform. */
  lemma CompletedStillMeansTransformed(t: Transform, orig: Rows, version: string, acts: seq<Act>)
    requires Idempotent(t) && KeyedRows(orig) && GoodUndoing(t, version, System(orig, None, map[]), acts)
    ensures var sys := RunActs(t, version, System(orig, None, map[]), acts);
      sys.stored.Some? && sys.stored.value.status.Completed? ==> sys.rows == map id | id in orig :: Goal(t, orig[id])
  {
    ActsConverge(t, orig, version, acts);
    var sys := RunActs(t, version, System(orig, None, map[]), acts);
    if sys.stored.Some? && sys.stored.value.status.Completed? {
      assert forall id | id in sys.rows :: Done(t, orig, sys.rows, id);
    }
  }

  // ---------------------------------------------------------------- a rollback that does not survive

  /** Two records, in order, that the transform changes. */
  ghost predicate Changes(t: Transform, a: Rec, b: Rec)
  {
    Idempotent(t) && Less(a.id, b.id) && Goal(t, a) != a && Goal(t, b) != b
  }

  function Both(a: Rec, b: Rec): Rows { map[a.id := a, b.id := b] }

  /** The checkpoint after a first full batch of the two. */
  function HalfWay(version: string, a: Rec, b: Rec): Checkpoint
  {
    Checkpoint(version, 1, Running, Some(b.id), Tally(2, 2, 0, 0, 0), [a, b])
  }

  lemma DistinctIds(a: Rec, b: Rec)
    requires Less(a.id, b.id)
    ensures a.id != b.id && !Less(b.id, a.id) && !Less(b.id, b.id)
  {
    LessIrreflexive(a.id);
    LessIrreflexive(b.id);
    if Less(b.id, a.id) { LessTransitive(a.id, b.id, a.id); }
  }

  lemma FirstBatch(a: Rec, b: Rec)
    requires Less(a.id, b.id)
    ensures IsBatch(Both(a, b), None, 2, [a, b])
  {
    DistinctIds(a, b);
    assert [a, b][0].id == a.id && [a, b][1].id == b.id;
    assert Listed([a, b], a.id) && Listed([a, b], b.id);
  }

  lemma ProcessChanged(t: Transform, p: Progress, rows: Rows, r: Rec)
    requires Goal(t, r) != r
    ensures var (p', rows') := Process(t, true, p, rows, r, true);
      && rows' == rows[r.id := Goal(t, r)] && p'.journal == p.journal + [r] && p'.lastId == p.lastId && p'.runFailures == p.runFailures
      && p'.tally == p.tally.(scanned := p.tally.scanned + 1, updated := p.tally.updated + 1)
  {
  }

  lemma Unfold(t: Transform, version: string, sys: System, acts: seq<Act>, a: Act)
    ensures RunActs(t, version, sys, acts + [a]) ==
      if a.Work? then Step(t, version, RunActs(t, version, sys, acts), a.e) else RollBack(RunActs(t, version, sys, acts), a.lands)
  {
    assert (acts + [a])[..|acts|] == acts;
  }

  /** An operator starts and reads the two. */
  function Reads(a: Rec, b: Rec): seq<Act> { [] + [Work(Start(0, false, 2, 0))] + [Work(Read(0, [a, b]))] }

  /** It works through them, saves, and crashes. */
  function WorksThrough(a: Rec, b: Rec): seq<Act> { Reads(a, b) + [Work(Next(0))] + [Work(Next(0))] + [Work(Save(0))] + [Work(Crash(0))] }

  function OnlyOldest(k: nat): bool { k == 0 }

  /** The newer image cannot be restored, the older is; then another operator resumes and finds nothing ahead. */
  function UndoesAndResumes(a: Rec, b: Rec): seq<Act>
  {
    WorksThrough(a, b) + [Undoing(OnlyOldest)] + [Work(Start(1, false, 2, 0))] + [Work(Read(1, []))] + [Work(Save(1))]
  }

  lemma AfterReading(t: Transform, version: string, a: Rec, b: Rec)
    requires Less(a.id, b.id)
    ensures RunActs(t, version, System(Both(a, b), None, map[]), Reads(a, b)) ==
      System(Both(a, b), None, map[0 := Operator(NOTHING, None, Batch([a, b], Some(b.id), true), 2, 0)])
  {
    var start := System(Both(a, b), None, map[]);
    FirstBatch(a, b);
    Unfold(t, version, start, [], Work(Start(0, false, 2, 0)));
    Unfold(t, version, start, [] + [Work(Start(0, false, 2, 0))], Work(Read(0, [a, b])));
  }

  lemma WorkingThrough(t: Transform, version: string, a: Rec, b: Rec, sys: System)
    requires Changes(t, a, b)
    requires sys == System(Both(a, b), None, map[0 := Operator(NOTHING, None, Batch([a, b], Some(b.id), true), 2, 0)])
    ensures var s2 := Step(t, version, Step(t, version, sys, Next(0)), Next(0));
      && s2.rows == Both(Goal(t, a), Goal(t, b)) && s2.stored == None && s2.operators.Keys == {0}
      && var op := s2.operators[0];
      && op.progress == Progress(None, Tally(2, 2, 0, 0, 0), [a, b], 0) && op.phase == Batch([], Some(b.id), true) && op.revision == None
      && op.maxFailures == 0
  {
    DistinctIds(a, b);
    var p0 := sys.operators[0].progress;
    ProcessChanged(t, p0, sys.rows, a);
    var (p1, rows1) := Process(t, true, p0, sys.rows, a, true);
    ProcessChanged(t, p1, rows1, b);
    assert [a, b][1..] == [b] && [b][1..] == [] && [] + [a] + [b] == [a, b];
  }

  lemma AfterWorking(t: Transform, version: string, a: Rec, b: Rec)
    requires Changes(t, a, b)
    ensures RunActs(t, version, System(Both(a, b), None, map[]), WorksThrough(a, b)) ==
      System(Both(Goal(t, a), Goal(t, b)), Some(HalfWay(version, a, b)), map[])
  {
    var start := System(Both(a, b), None, map[]);
    AfterReading(t, version, a, b);
    var s0 := RunActs(t, version, start, Reads(a, b));
    WorkingThrough(t, version, a, b, s0);
    Unfold(t, version, start, Reads(a, b), Work(Next(0)));
    Unfold(t, version, start, Reads(a, b) + [Work(Next(0))], Work(Next(0)));
    Unfold(t, version, start, Reads(a, b) + [Work(Next(0))] + [Work(Next(0))], Work(Save(0)));
    Unfold(t, version, start, Reads(a, b) + [Work(Next(0))] + [Work(Next(0))] + [Work(Save(0))], Work(Crash(0)));
  }

  lemma PartlyUndone(t: Transform, version: string, a: Rec, b: Rec)
    requires Changes(t, a, b)
    ensures RollBack(System(Both(Goal(t, a), Goal(t, b)), Some(HalfWay(version, a, b)), map[]), OnlyOldest) ==
      System(Both(a, Goal(t, b)), Some(HalfWay(version, a, b).(revision := 2, journal := [b])), map[])
  {
    DistinctIds(a, b);
    var journal := [a, b];
    assert journal[..2] == journal && journal[..1] == [a] && journal[..0] == [];
    StepBack(journal, 0, Both(Goal(t, a), Goal(t, b)), OnlyOldest);
    StepBack(journal, 1, Both(Goal(t, a), Goal(t, b)), OnlyOldest);
    var rows := Both(Goal(t, a), Goal(t, b));
    assert rows[a.id := a] == Both(a, Goal(t, b));
    assert Restore(journal, rows, OnlyOldest) == Both(a, Goal(t, b));
    assert Remaining(journal, OnlyOldest) == [b];
  }

  /**
   * It happens: the older of two images is restored, the newer is not, and a resume completes the backfill with the
   * restored record left as it was.
   */
  lemma ResumeSkipsRestored(t: Transform, version: string, a: Rec, b: Rec)
    requires Changes(t, a, b)
    ensures var sys := RunActs(t, version, System(Both(a, b), None, map[]), UndoesAndResumes(a, b));
      sys.stored.Some? && sys.stored.value.status.Completed? && sys.rows == Both(a, Goal(t, b)) && a != Goal(t, a)
  {
    var start := System(Both(a, b), None, map[]);
    AfterWorking(t, version, a, b);
    PartlyUndone(t, version, a, b);
    var acts := WorksThrough(a, b) + [Undoing(OnlyOldest)];
    Unfold(t, version, start, WorksThrough(a, b), Undoing(OnlyOldest));
    Unfold(t, version, start, acts, Work(Start(1, false, 2, 0)));
    Unfold(t, version, start, acts + [Work(Start(1, false, 2, 0))], Work(Read(1, [])));
    Unfold(t, version, start, acts + [Work(Start(1, false, 2, 0))] + [Work(Read(1, []))], Work(Save(1)));
    DistinctIds(a, b);
    assert IsBatch(Both(a, Goal(t, b)), Some(b.id), 2, []);
  }
}
