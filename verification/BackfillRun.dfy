/** One operator's run and the rollback, as loops over an in-memory target and store. */
module BackfillRun {
  import opened Prelude
  import opened Backfill

  const DEFAULT_BATCH_SIZE := 100
  const MAX_BATCH_SIZE := 10000
  const DEFAULT_MAX_FAILURES := 10

  // ---------------------------------------------------------------- the journal

  /** Before-images written back newest first; `lands(k)` says whether the write of image `k` succeeds. */
  function Restore(journal: seq<Rec>, rows: Rows, lands: nat -> bool): Rows
  {
    if journal == [] then rows
    else
      var n := |journal| - 1;
      Restore(journal[..n], if lands(n) then rows[journal[n].id := journal[n]] else rows, lands)
  }

  function Always(k: nat): bool { true }

  /** The whole journal written back. */
  function Undo(journal: seq<Rec>, rows: Rows): Rows { Restore(journal, rows, Always) }

  /** The images a rollback could not write, oldest first. */
  function Remaining(journal: seq<Rec>, lands: nat -> bool): seq<Rec>
  {
    if journal == [] then []
    else
      var n := |journal| - 1;
      Remaining(journal[..n], lands) + (if lands(n) then [] else [journal[n]])
  }

  /** What the newest of `index + 1` images contributes. */
  lemma StepBack(journal: seq<Rec>, index: nat, rows: Rows, lands: nat -> bool)
    requires index < |journal|
    ensures Restore(journal[..index + 1], rows, lands) ==
      Restore(journal[..index], if lands(index) then rows[journal[index].id := journal[index]] else rows, lands)
    ensures Remaining(journal[..index + 1], lands) ==
      Remaining(journal[..index], lands) + (if lands(index) then [] else [journal[index]])
  {
    assert journal[..index + 1][..index] == journal[..index];
  }

  /** A rollback down to image `index`: what is done and what is left is what was to be. */
  ghost predicate RolledTo(journal: seq<Rec>, rows0: Rows, lands: nat -> bool, index: nat, rows: Rows, left: seq<Rec>)
  {
    && index <= |journal| && index <= |left| && left[..index] == journal[..index]
    && Restore(journal[..index], rows, lands) == Restore(journal, rows0, lands)
    && Remaining(journal[..index], lands) + left[index..] == Remaining(journal, lands)
  }

  lemma RollsOne(journal: seq<Rec>, rows0: Rows, lands: nat -> bool, index: nat, rows: Rows, left: seq<Rec>)
    requires RolledTo(journal, rows0, lands, index + 1, rows, left)
    ensures if lands(index)
            then RolledTo(journal, rows0, lands, index, rows[journal[index].id := journal[index]], left[..index] + left[index + 1..])
            else RolledTo(journal, rows0, lands, index, rows, left)
  {
    StepBack(journal, index, rows, lands);
    assert left[..index] == left[..index + 1][..index] == journal[..index];
    assert left[index] == left[..index + 1][index] == journal[index];
    var before, after := left[..index], left[index + 1..];
    if lands(index) {
      assert (before + after)[..index] == before && (before + after)[index..] == after;
    } else {
      assert left[index..] == [journal[index]] + after;
      assert Remaining(journal[..index], lands) + [journal[index]] + after == Remaining(journal[..index], lands) + left[index..];
    }
  }

  lemma RollStarts(journal: seq<Rec>, rows: Rows, lands: nat -> bool)
    ensures RolledTo(journal, rows, lands, |journal|, rows, journal)
  {
    assert journal[..|journal|] == journal && journal[|journal|..] == [];
    assert Remaining(journal, lands) + [] == Remaining(journal, lands);
  }

  lemma RollEnds(journal: seq<Rec>, rows0: Rows, lands: nat -> bool, rows: Rows, left: seq<Rec>)
    requires RolledTo(journal, rows0, lands, 0, rows, left)
    ensures rows == Restore(journal, rows0, lands) && left == Remaining(journal, lands)
  {
    assert journal[..0] == [] && left[0..] == left && [] + left == left;
  }

  /** The checkpoint a rollback saves when `left` could not be written. */
  function AfterRollback(c: Checkpoint, left: seq<Rec>): Checkpoint
  {
    c.(revision := c.revision + 1, journal := left, status := if left == [] then RolledBack else c.status)
  }

  /** The oldest image of a record among those whose write succeeds. */
  function Oldest(journal: seq<Rec>, id: Id, lands: nat -> bool): Option<Rec>
  {
    if journal == [] then None
    else
      var n := |journal| - 1;
      match Oldest(journal[..n], id, lands)
      case Some(r) => Some(r)
      case None => if journal[n].id == id && lands(n) then Some(journal[n]) else None
  }

  function Or(image: Option<Rec>, rows: Rows, id: Id): Option<Rec>
  {
    if image.Some? then image else if id in rows then Some(rows[id]) else None
  }

  function At(rows: Rows, id: Id): Option<Rec> { if id in rows then Some(rows[id]) else None }

  /** Journaled once or many times, a record is left at its oldest image written. */
  lemma {:induction false} RestoreValue(journal: seq<Rec>, rows: Rows, lands: nat -> bool, id: Id)
    ensures At(Restore(journal, rows, lands), id) == Or(Oldest(journal, id, lands), rows, id)
    decreases |journal|
  {
    if journal != [] {
      var n := |journal| - 1;
      RestoreValue(journal[..n], if lands(n) then rows[journal[n].id := journal[n]] else rows, lands, id);
    }
  }

  /** Journaling the image it overwrites, a write does not change what a rollback gives. */
  lemma UndoPush(journal: seq<Rec>, rows: Rows, rec: Rec, out: Rec)
    requires rec.id in rows && rows[rec.id] == rec && out.id == rec.id
    ensures Undo(journal + [rec], rows[rec.id := out]) == Undo(journal, rows)
  {
    var longer := journal + [rec];
    assert longer[..|journal|] == journal && longer[|journal|] == rec;
    assert rows[rec.id := out][rec.id := rec] == rows;
  }

  function JournalOf(stored: Option<Checkpoint>): seq<Rec> { if stored.Some? then stored.value.journal else [] }

  /** What a full rollback would restore now. */
  function Origin(stored: Option<Checkpoint>, rows: Rows): Rows { Undo(JournalOf(stored), rows) }

  ghost predicate StoreBalanced(stored: Option<Checkpoint>) { stored.Some? ==> Backfill.Balanced(stored.value.tally) }

  // ---------------------------------------------------------------- one batch

  /** A visited record is finished; unless every write lands it may also be as it was. */
  ghost predicate Visited(t: Transform, land: bool, before: Rec, after: Rec)
  {
    after == Goal(t, before) || (!land && after == before)
  }

  /** Exactly the listed records were visited. */
  ghost predicate VisitedListed(t: Transform, land: bool, rows0: Rows, rows: Rows, listed: seq<Rec>)
  {
    && rows.Keys == rows0.Keys
    && forall id | id in rows0 ::
         if Listed(listed, id) then Visited(t, land, rows0[id], rows[id]) else rows[id] == rows0[id]
  }

  /** The records a transform fails on: it throws, or changes the id. */
  predicate Fails(t: Transform, r: Rec) { t(r).Threw? || (t(r).Value? && t(r).rec.id != r.id) }

  ghost function FailedListed(t: Transform, rows: Rows, listed: seq<Rec>): set<Id>
  {
    set id | id in rows && Listed(listed, id) && Fails(t, rows[id])
  }

  /** The batch loop after `i` records: counted, journaled, and only those records touched. */
  ghost predicate BatchDone(t: Transform, apply: bool, land: bool, rows0: Rows, start: Progress, batch: seq<Rec>, i: nat,
                            p: Progress, rows: Rows)
    requires i <= |batch|
  {
    && Backfill.Balanced(p.tally) && p.lastId == start.lastId && p.tally.scanned == start.tally.scanned + i
    && p.runFailures - start.runFailures == p.tally.failed - start.tally.failed
    && (land || !apply ==> p.tally.failed == start.tally.failed + |FailedListed(t, rows0, batch[..i])|)
    && (!apply ==> rows == rows0 && p.journal == start.journal)
    && Undo(p.journal, rows) == Undo(start.journal, rows0)
    && VisitedListed(t, land, rows0, rows, batch[..i])
  }

  ghost predicate AllLand(lands: nat -> bool) { forall k: nat :: lands(k) }
  ghost predicate Never(fails: nat -> bool) { forall k: nat :: !fails(k) }

  /** Turn `k` is the first to fail. */
  ghost predicate FirstAt(fails: nat -> bool, k: nat) { fails(k) && forall j: nat | j < k :: !fails(j) }

  /** The batch holds current rows, each once. */
  ghost predicate Current(rows: Rows, batch: seq<Rec>)
  {
    && KeyedRows(rows)
    && (forall k | 0 <= k < |batch| :: batch[k].id in rows && rows[batch[k].id] == batch[k])
    && (forall j, k | 0 <= j < k < |batch| :: batch[j].id != batch[k].id)
  }

  lemma TurnVisits(t: Transform, apply: bool, land: bool, rows0: Rows, batch: seq<Rec>, i: nat, p: Progress, rows: Rows, lands: bool)
    requires i < |batch| && Current(rows0, batch) && VisitedListed(t, land, rows0, rows, batch[..i])
    requires land ==> apply && lands
    ensures rows[batch[i].id] == batch[i]
    ensures VisitedListed(t, land, rows0, Process(t, apply, p, rows, batch[i], lands).1, batch[..i + 1])
  {
    assert !Listed(batch[..i], batch[i].id);
    ListedGrows(batch, i);
  }

  lemma TurnFails(t: Transform, apply: bool, land: bool, rows0: Rows, batch: seq<Rec>, i: nat, p: Progress, rows: Rows, lands: bool)
    requires i < |batch| && Current(rows0, batch) && (land || !apply) && (land ==> lands)
    ensures var p' := Process(t, apply, p, rows, batch[i], lands).0;
      p'.tally.failed - p.tally.failed == |FailedListed(t, rows0, batch[..i + 1])| - |FailedListed(t, rows0, batch[..i])|
  {
    FailedGrows(t, rows0, batch, i);
  }

  lemma FailedGrows(t: Transform, rows: Rows, batch: seq<Rec>, i: nat)
    requires i < |batch| && Current(rows, batch)
    ensures var before := |FailedListed(t, rows, batch[..i])|;
      |FailedListed(t, rows, batch[..i + 1])| == if Fails(t, batch[i]) then before + 1 else before
  {
    var id := batch[i].id;
    var before := FailedListed(t, rows, batch[..i]);
    assert !Listed(batch[..i], id);
    ListedGrows(batch, i);
    assert FailedListed(t, rows, batch[..i + 1]) == if Fails(t, batch[i]) then before + {id} else before;
  }

  lemma TurnJournals(t: Transform, apply: bool, p: Progress, rows: Rows, rec: Rec, lands: bool)
    requires rec.id in rows && rows[rec.id] == rec && Backfill.Balanced(p.tally)
    ensures var (p', rows') := Process(t, apply, p, rows, rec, lands);
      && Undo(p'.journal, rows') == Undo(p.journal, rows)
      && Backfill.Balanced(p'.tally) && p'.tally.scanned == p.tally.scanned + 1 && p'.lastId == p.lastId
      && p'.runFailures - p.runFailures == p'.tally.failed - p.tally.failed
      && (!apply ==> rows' == rows && p'.journal == p.journal)
  {
    if t(rec).Value? && t(rec).rec.id == rec.id { UndoPush(p.journal, rows, rec, t(rec).rec); }
  }

  lemma ListedGrows(batch: seq<Rec>, i: nat)
    requires i < |batch|
    ensures forall id :: Listed(batch[..i + 1], id) <==> Listed(batch[..i], id) || id == batch[i].id
  {
    forall id ensures Listed(batch[..i + 1], id) <==> Listed(batch[..i], id) || id == batch[i].id {
      assert batch[..i + 1][i] == batch[i];
      if Listed(batch[..i], id) {
        var k :| 0 <= k < i && batch[..i][k].id == id;
        assert batch[..i + 1][k].id == id;
      }
      if Listed(batch[..i + 1], id) && id != batch[i].id {
        var k :| 0 <= k < i + 1 && batch[..i + 1][k].id == id;
        assert batch[..i][k].id == id;
      }
    }
  }

  // ---------------------------------------------------------------- a whole run

  /** Absent options take the defaults; `permitted` is the `admin:recovery` permission. */
  datatype Options = Options(
    permitted: bool, apply: bool, withStore: bool, restart: bool, batchSize: Option<int>, maxFailures: Option<int>)

  datatype Report = Report(completed: bool, resumedAfter: Option<Id>, lastId: Option<Id>, tally: Tally)

  function BatchSize(o: Options): int { if o.batchSize.Some? then o.batchSize.value else DEFAULT_BATCH_SIZE }
  function MaxFailures(o: Options): int { if o.maxFailures.Some? then o.maxFailures.value else DEFAULT_MAX_FAILURES }

  predicate ValidOptions(o: Options)
  {
    1 <= BatchSize(o) <= MAX_BATCH_SIZE && 0 <= MaxFailures(o) && (o.apply ==> o.withStore)
  }

  /** One call of `runBackfill`, and which of its reads, writes and batches fail or are its last. */
  datatype Job = Job(
    t: Transform, version: string, options: Options, readFails: nat -> bool, lands: nat -> bool, dies: nat -> bool)

  /** Where the run starts: a dry run ignores any checkpoint. */
  function Begin(version: string, o: Options, stored: Option<Checkpoint>): Result<Progress, Refusal>
  {
    if !ValidOptions(o) then Err(InvalidOptions)
    else if !o.permitted then Err(Unauthorized)
    else if o.apply then Resume(version, stored, o.restart)
    else Ok(NOTHING)
  }

  function AfterSet(ids: set<Id>, last: Option<Id>): set<Id> { set id | id in ids && After(id, last) }

  /** Every id up to `last` is past; the ids left shrink as the last id advances. */
  lemma AfterShrinks(ids: set<Id>, last: Option<Id>, next: Id)
    requires next in ids && After(next, last)
    ensures AfterSet(ids, Some(next)) < AfterSet(ids, last)
  {
    LessIrreflexive(next);
    forall id | id in AfterSet(ids, Some(next)) ensures id in AfterSet(ids, last) {
      if last.Some? { LessTransitive(last.value, next, id); }
    }
    assert next in AfterSet(ids, last) && next !in AfterSet(ids, Some(next));
  }

  /** The records after `from` and up to `last` were visited; the others are untouched. */
  ghost predicate VisitedBetween(t: Transform, land: bool, rows0: Rows, rows: Rows, from: Option<Id>, last: Option<Id>)
  {
    && rows.Keys == rows0.Keys
    && forall id | id in rows0 ::
         if After(id, from) && !After(id, last) then Visited(t, land, rows0[id], rows[id]) else rows[id] == rows0[id]
  }

  /** A batch read after `last` holds exactly the ids after `last` and up to its own last id. */
  lemma BatchRange(rows: Rows, last: Option<Id>, limit: Positive, batch: seq<Rec>, id: Id)
    requires IsBatch(rows, last, limit, batch) && batch != [] && id in rows
    ensures Listed(batch, id) <==> After(id, last) && !After(id, Some(batch[|batch| - 1].id))
    ensures !After(id, last) ==> !After(id, Some(batch[|batch| - 1].id))
  {
    var next := batch[|batch| - 1].id;
    assert After(next, last);
    if Listed(batch, id) {
      var i :| 0 <= i < |batch| && batch[i].id == id;
      BatchBounds(rows, last, limit, batch, i);
    }
    if !After(id, last) && Less(next, id) { LessTransitive(last.value, next, id); }
  }

  /** Where a run stands: at its start, or past it. */
  ghost predicate Past(from: Option<Id>, last: Option<Id>) { last == from || (last.Some? && After(last.value, from)) }

  lemma PastId(from: Option<Id>, last: Option<Id>, id: Id)
    requires Past(from, last) && After(id, last)
    ensures After(id, from)
  {
    if last.Some? && from.Some? && last != from { LessTransitive(from.value, last.value, id); }
  }

  lemma BatchVisits(t: Transform, land: bool, rows0: Rows, rows: Rows, rows': Rows, from: Option<Id>, last: Option<Id>,
                    limit: Positive, batch: seq<Rec>)
    requires VisitedBetween(t, land, rows0, rows, from, last) && Past(from, last)
    requires IsBatch(rows, last, limit, batch) && batch != [] && VisitedListed(t, land, rows, rows', batch)
    ensures VisitedBetween(t, land, rows0, rows', from, Some(batch[|batch| - 1].id))
  {
    forall id | id in rows0 ensures
      if After(id, from) && !After(id, Some(batch[|batch| - 1].id)) then Visited(t, land, rows0[id], rows'[id])
      else rows'[id] == rows0[id]
    {
      BatchRange(rows, last, limit, batch, id);
      if After(id, last) { PastId(from, last, id); }
    }
  }

  /** The records after `from` and up to `last` that the transform fails on. */
  ghost function FailedBetween(t: Transform, rows: Rows, from: Option<Id>, last: Option<Id>): set<Id>
  {
    set id | id in rows && After(id, from) && !After(id, last) && Fails(t, rows[id])
  }

  ghost function FailedAfter(t: Transform, rows: Rows, from: Option<Id>): set<Id>
  {
    set id | id in rows && After(id, from) && Fails(t, rows[id])
  }

  lemma BatchFails(t: Transform, land: bool, rows0: Rows, rows: Rows, from: Option<Id>, last: Option<Id>,
                   limit: Positive, batch: seq<Rec>)
    requires VisitedBetween(t, land, rows0, rows, from, last) && Past(from, last)
    requires IsBatch(rows, last, limit, batch) && batch != []
    ensures |FailedBetween(t, rows0, from, Some(batch[|batch| - 1].id))| ==
            |FailedBetween(t, rows0, from, last)| + |FailedListed(t, rows, batch)|
  {
    var next := Some(batch[|batch| - 1].id);
    var before, now := FailedBetween(t, rows0, from, last), FailedListed(t, rows, batch);
    forall id | id in rows0
      ensures id in FailedBetween(t, rows0, from, next) <==> id in before || id in now
      ensures !(id in before && id in now)
    {
      BatchRange(rows, last, limit, batch, id);
      if After(id, last) { PastId(from, last, id); }
    }
    assert FailedBetween(t, rows0, from, next) == before + now;
    assert before !! now;
  }

  ghost function IdsBetween(rows: Rows, from: Option<Id>, last: Option<Id>): set<Id>
  {
    set id | id in rows && After(id, from) && !After(id, last)
  }

  ghost function ListedIds(rows: Rows, listed: seq<Rec>): set<Id> { set id | id in rows && Listed(listed, id) }

  lemma ListedNone(rows: Rows)
    ensures ListedIds(rows, []) == {}
  {
  }

  /** Record `i` is a new one among those listed. */
  ghost predicate NewAt(rows: Rows, batch: seq<Rec>, i: nat)
    requires i < |batch|
  {
    var before := ListedIds(rows, batch[..i]);
    batch[i].id !in before && ListedIds(rows, batch[..i + 1]) == before + {batch[i].id}
  }

  lemma DistinctIsNew(rows: Rows, batch: seq<Rec>, i: nat)
    requires Current(rows, batch) && i < |batch|
    ensures NewAt(rows, batch, i)
  {
    ListedGrows(batch, i);
  }

  lemma {:induction false} ListedCount(rows: Rows, batch: seq<Rec>, i: nat)
    requires i <= |batch| && forall k: nat | k < i :: NewAt(rows, batch, k)
    ensures |ListedIds(rows, batch[..i])| == i
    decreases i
  {
    if i == 0 {
      ListedNone(rows);
    } else {
      ListedCount(rows, batch, i - 1);
      assert NewAt(rows, batch, i - 1);
    }
  }

  /** A batch adds exactly its ids to those passed. */
  lemma BatchSplits(t: Transform, land: bool, rows0: Rows, rows: Rows, from: Option<Id>, last: Option<Id>,
                    limit: Positive, batch: seq<Rec>)
    requires VisitedBetween(t, land, rows0, rows, from, last) && Past(from, last)
    requires IsBatch(rows, last, limit, batch) && batch != []
    ensures IdsBetween(rows0, from, Some(batch[|batch| - 1].id)) == IdsBetween(rows0, from, last) + ListedIds(rows, batch)
    ensures IdsBetween(rows0, from, last) !! ListedIds(rows, batch)
  {
    var next := Some(batch[|batch| - 1].id);
    forall id | id in rows0
      ensures After(id, from) && !After(id, next) <==> (After(id, from) && !After(id, last)) || Listed(batch, id)
      ensures !(After(id, from) && !After(id, last) && Listed(batch, id))
    {
      BatchRange(rows, last, limit, batch, id);
      if After(id, last) { PastId(from, last, id); }
    }
  }

  lemma BatchCounts(t: Transform, land: bool, rows0: Rows, rows: Rows, from: Option<Id>, last: Option<Id>,
                    limit: Positive, batch: seq<Rec>)
    requires VisitedBetween(t, land, rows0, rows, from, last) && Past(from, last) && Current(rows, batch)
    requires IsBatch(rows, last, limit, batch) && batch != []
    ensures |IdsBetween(rows0, from, Some(batch[|batch| - 1].id))| == |IdsBetween(rows0, from, last)| + |batch|
  {
    BatchSplits(t, land, rows0, rows, from, last, limit, batch);
    forall k: nat | k < |batch| ensures NewAt(rows, batch, k) { DistinctIsNew(rows, batch, k); }
    ListedCount(rows, batch, |batch|);
    assert batch[..|batch|] == batch;
  }

  lemma BatchBounds(rows: Rows, last: Option<Id>, limit: nat, batch: seq<Rec>, i: nat)
    requires IsBatch(rows, last, limit, batch) && i < |batch|
    ensures !Less(batch[|batch| - 1].id, batch[i].id)
  {
    var a, b := batch[i].id, batch[|batch| - 1].id;
    LessIrreflexive(a);
    if i < |batch| - 1 && Less(b, a) { LessTransitive(a, b, a); }
  }

  /** Between batches: the store mirrors the progress, and everything up to `p.lastId` was visited. */
  ghost predicate BetweenBatches(t: Transform, apply: bool, land: bool, rows0: Rows, stored0: Option<Checkpoint>,
                                 start: Progress, p: Progress, rows: Rows, stored: Option<Checkpoint>)
  {
    match p
    case Progress(lastId, tally, journal, runFailures) =>
      && Backfill.Balanced(tally) && StoreBalanced(stored)
      && (if apply then JournalOf(stored) == journal else rows == rows0 && stored == stored0)
      && Origin(stored, rows) == Origin(stored0, rows0)
      && Past(start.lastId, lastId) && VisitedBetween(t, land, rows0, rows, start.lastId, lastId)
      && tally.scanned == start.tally.scanned + |IdsBetween(rows0, start.lastId, lastId)|
      && runFailures == tally.failed - start.tally.failed
      && (land || !apply ==> tally.failed == start.tally.failed + |FailedBetween(t, rows0, start.lastId, lastId)|)
  }

  /** Visiting keeps every row under its own id. */
  lemma VisitedKeyed(t: Transform, land: bool, rows0: Rows, rows: Rows, from: Option<Id>, last: Option<Id>)
    requires KeyedRows(rows0) && VisitedBetween(t, land, rows0, rows, from, last)
    ensures KeyedRows(rows)
  {
  }

  lemma BatchKeeps(t: Transform, apply: bool, land: bool, rows0: Rows, stored0: Option<Checkpoint>, start: Progress,
                   p: Progress, rows: Rows, stored: Option<Checkpoint>, limit: Positive, batch: seq<Rec>,
                   p': Progress, rows': Rows, last: Option<Id>, stored': Option<Checkpoint>)
    requires Current(rows, batch) && BetweenBatches(t, apply, land, rows0, stored0, start, p, rows, stored)
    requires IsBatch(rows, p.lastId, limit, batch) && BatchDone(t, apply, land, rows, p, batch, |batch|, p', rows')
    requires last == if batch == [] then p.lastId else Some(batch[|batch| - 1].id)
    requires StoreBalanced(stored') && (if apply then JournalOf(stored') == p'.journal else stored' == stored)
    ensures BetweenBatches(t, apply, land, rows0, stored0, start, p'.(lastId := last), rows', stored')
  {
    assert batch[..|batch|] == batch;
    if batch != [] {
      PastId(start.lastId, p.lastId, batch[|batch| - 1].id);
      BatchVisits(t, land, rows0, rows, rows', start.lastId, p.lastId, limit, batch);
      BatchFails(t, land, rows0, rows, start.lastId, p.lastId, limit, batch);
      BatchCounts(t, land, rows0, rows, start.lastId, p.lastId, limit, batch);
    } else {
      assert forall id | id in rows :: !Listed(batch, id);
      assert FailedListed(t, rows, batch) == {};
    }
  }

  ghost predicate NothingAfter(rows: Rows, last: Option<Id>) { forall id | id in rows :: !After(id, last) }

  /** A completed run whose writes all landed: exactly the records after the one it resumed from are finished. */
  lemma CompletedRun(t: Transform, rows0: Rows, rows: Rows, from: Option<Id>, last: Option<Id>)
    requires VisitedBetween(t, true, rows0, rows, from, last) && NothingAfter(rows, last)
    ensures rows == map id | id in rows0 :: if After(id, from) then Goal(t, rows0[id]) else rows0[id]
  {
    forall id | id in rows0 ensures rows[id] == if After(id, from) then Goal(t, rows0[id]) else rows0[id] {
      assert !After(id, last);
    }
  }

  /** A batch short of its limit is the last: nothing is left after it. */
  lemma ShortBatchIsLast(rows: Rows, last: Option<Id>, limit: Positive, batch: seq<Rec>)
    requires IsBatch(rows, last, limit, batch) && |batch| < limit
    ensures NothingAfter(rows, if batch == [] then last else Some(batch[|batch| - 1].id))
  {
    if batch != [] {
      forall id | id in rows ensures !After(id, Some(batch[|batch| - 1].id)) { BatchRange(rows, last, limit, batch, id); }
    } else {
      assert forall id | id in rows :: !Listed(batch, id);
    }
  }

  /** Before the first batch nothing was visited and the store is as it was loaded. */
  lemma StartsBetween(t: Transform, apply: bool, land: bool, rows: Rows, stored: Option<Checkpoint>, p: Progress)
    requires StoreBalanced(stored) && Backfill.Balanced(p.tally) && p.runFailures == 0
    requires apply ==> p.journal == JournalOf(stored)
    ensures BetweenBatches(t, apply, land, rows, stored, p, p, rows, stored)
  {
    assert FailedBetween(t, rows, p.lastId, p.lastId) == {} && IdsBetween(rows, p.lastId, p.lastId) == {};
  }

  /** What a finished run reports and stores. */
  ghost predicate Reported(t: Transform, apply: bool, maxFailures: int, start: Progress, land: bool,
                           rows0: Rows, rows: Rows, stored: Option<Checkpoint>, r: Report)
  {
    && Backfill.Balanced(r.tally) && r.resumedAfter == start.lastId
    && (apply ==> stored.Some? && stored.value.tally == r.tally && stored.value.lastId == r.lastId
                    && stored.value.status == (if r.completed then Completed else Halted))
    && VisitedBetween(t, land, rows0, rows, r.resumedAfter, r.lastId)
    && (r.completed ==> NothingAfter(rows, r.lastId))
    // Scanned are the records visited; completed means the run's own failures stayed within the limit; they are the records the transform fails on.
    && r.tally.scanned == start.tally.scanned + |IdsBetween(rows0, r.resumedAfter, r.lastId)|
    && (r.completed <==> r.tally.failed - start.tally.failed <= maxFailures)
    && (land || !apply ==>
          && r.tally.failed == start.tally.failed + |FailedBetween(t, rows0, r.resumedAfter, r.lastId)|
          && (r.completed <==> |FailedAfter(t, rows0, start.lastId)| <= maxFailures))
  }

  /** The records of `k` full batches. */
  function FullBatches(k: nat, batchSize: nat): nat { if k == 0 then 0 else FullBatches(k - 1, batchSize) + batchSize }

  /** The checkpoint stored is this progress. */
  ghost predicate Saved(stored: Option<Checkpoint>, p: Progress, status: Status)
  {
    stored.Some? && stored.value.status == status && stored.value.tally == p.tally && stored.value.lastId == p.lastId
  }

  /** The read after `k` full batches failed; an applying run stored those batches and no more. */
  ghost predicate ReadFailedAt(apply: bool, batchSize: nat, start: Progress, readFails: nat -> bool, k: nat, stored: Option<Checkpoint>)
  {
    && FirstAt(readFails, k)
    && (apply ==> stored.Some? && stored.value.tally.scanned == start.tally.scanned + FullBatches(k, batchSize))
  }

  /** The process stopped after batch `k`; an applying run stored at least the full batches before it. */
  ghost predicate DiedAt(apply: bool, batchSize: nat, start: Progress, dies: nat -> bool, k: nat, stored: Option<Checkpoint>)
  {
    && FirstAt(dies, k)
    && (apply ==> stored.Some? && stored.value.tally.scanned >= start.tally.scanned + FullBatches(k, batchSize))
  }

  /** A run answers with a report unless it has a reason not to; one whose process stopped has no answer. */
  ghost predicate Answered(t: Transform, apply: bool, batchSize: nat, maxFailures: int, start: Progress, land: bool,
                           readFails: nat -> bool, dies: nat -> bool, rows0: Rows, rows: Rows,
                           stored: Option<Checkpoint>, r: Option<Result<Report, Refusal>>)
  {
    match r
    case None => exists k :: DiedAt(apply, batchSize, start, dies, k, stored)
    case Some(Err(code)) => code == SourceUnavailable && exists k :: ReadFailedAt(apply, batchSize, start, readFails, k, stored)
    case Some(Ok(report)) => Reported(t, apply, maxFailures, start, land, rows0, rows, stored, report)
  }

  /** What a run leaves behind, whatever failed on the way: the stored rollback still restores what it did. */
  ghost predicate Leaves(t: Transform, apply: bool, start: Progress, land: bool, rows0: Rows, stored0: Option<Checkpoint>,
                         rows: Rows, stored: Option<Checkpoint>)
  {
    && Origin(stored, rows) == Origin(stored0, rows0) && KeyedRows(rows) && StoreBalanced(stored)
    && if apply then stored.Some? && VisitedBetween(t, land, rows0, rows, start.lastId, stored.value.lastId)
       else rows == rows0 && stored == stored0
  }

  lemma RunLeaves(t: Transform, apply: bool, start: Progress, land: bool, rows0: Rows, stored0: Option<Checkpoint>,
                  p: Progress, rows: Rows, stored: Option<Checkpoint>, status: Status)
    requires KeyedRows(rows0) && BetweenBatches(t, apply, land, rows0, stored0, start, p, rows, stored)
    requires apply ==> Saved(stored, p, status)
    ensures Leaves(t, apply, start, land, rows0, stored0, rows, stored)
  {
    VisitedKeyed(t, land, rows0, rows, start.lastId, p.lastId);
  }

  /** When every write lands, a run completes exactly when the transform fails on few enough of the records ahead. */
  lemma CompletesExactly(t: Transform, rows: Rows, from: Option<Id>, last: Option<Id>, completed: bool, maxFailures: int)
    requires completed <==> |FailedBetween(t, rows, from, last)| <= maxFailures
    requires completed ==> NothingAfter(rows, last)
    ensures completed <==> |FailedAfter(t, rows, from)| <= maxFailures
  {
    var seen, all := FailedBetween(t, rows, from, last), FailedAfter(t, rows, from);
    if completed {
      assert seen == all;
    } else {
      assert all == seen + (all - seen);
    }
  }

  lemma RunConcludes(t: Transform, apply: bool, maxFailures: int, start: Progress, land: bool, rows0: Rows,
                     stored0: Option<Checkpoint>, p: Progress, rows: Rows, stored: Option<Checkpoint>, status: Status)
    requires BetweenBatches(t, apply, land, rows0, stored0, start, p, rows, stored)
    requires (status.Completed? || status.Halted?) && (status.Completed? ==> NothingAfter(rows, p.lastId))
    requires status.Halted? <==> p.runFailures > maxFailures
    requires apply ==> Saved(stored, p, status)
    ensures Reported(t, apply, maxFailures, start, land, rows0, rows, stored,
                     Report(status.Completed?, start.lastId, p.lastId, p.tally))
  {
    if land || !apply { CompletesExactly(t, rows0, start.lastId, p.lastId, status.Completed?, maxFailures); }
  }

  lemma BatchDistinct(rows: Rows, last: Option<Id>, limit: nat, batch: seq<Rec>)
    requires IsBatch(rows, last, limit, batch)
    ensures forall i, j | 0 <= i < j < |batch| :: batch[i].id != batch[j].id
  {
    forall i, j | 0 <= i < j < |batch| ensures batch[i].id != batch[j].id { LessIrreflexive(batch[i].id); }
  }

  lemma ListedPush(batch: seq<Rec>, rec: Rec)
    ensures forall id :: Listed(batch + [rec], id) <==> Listed(batch, id) || id == rec.id
  {
    var longer := batch + [rec];
    assert longer[..|batch|] == batch && longer[..|batch| + 1] == longer && longer[|batch|] == rec;
    ListedGrows(longer, |batch|);
  }

  method FirstOf(ids: set<Id>) returns (first: Id)
    requires ids != {}
    ensures first in ids && forall x | x in ids :: x == first || Less(first, x)
  {
    first :| first in ids;
    var todo := ids - {first};
    while todo != {}
      invariant todo <= ids && first in ids
      invariant forall x | x in ids - todo :: x == first || Less(first, x)
    {
      var x :| x in todo;
      if Less(x, first) {
        forall y | y in ids - todo ensures y == x || Less(x, y) {
          if y != first { LessTransitive(x, first, y); }
        }
        first := x;
      } else {
        LessTotal(x, first);
      }
      todo := todo - {x};
    }
  }

  // ---------------------------------------------------------------- the operator's loops

  /** The in-memory target and the checkpoint store of one backfill, and the operator's loops over them. */
  class MemoryBackend {
    var rows: Rows
    var stored: Option<Checkpoint>

    constructor (rows: Rows)
      ensures this.rows == rows && stored == None
    {
      this.rows := rows;
      stored := None;
    }

    method ReadBatch(last: Option<Id>, limit: nat) returns (batch: seq<Rec>)
      requires KeyedRows(rows)
      ensures IsBatch(rows, last, limit, batch)
    {
      batch := [];
      var left := set id | id in rows && After(id, last);
      while |batch| < limit && left != {}
        invariant left <= rows.Keys && forall id | id in left :: After(id, last)
        invariant |batch| <= limit
        invariant forall i | 0 <= i < |batch| ::
          batch[i].id in rows && rows[batch[i].id] == batch[i] && After(batch[i].id, last)
        invariant forall i, j | 0 <= i < j < |batch| :: Less(batch[i].id, batch[j].id)
        invariant forall i, id | 0 <= i < |batch| && id in left :: Less(batch[i].id, id)
        invariant forall id | id in rows && After(id, last) :: id in left || Listed(batch, id)
        decreases left
      {
        var id := FirstOf(left);
        ghost var before := batch;
        batch := batch + [rows[id]];
        left := left - {id};
        ListedPush(before, rows[id]);
      }
    }

    method Write(rec: Rec)
      modifies this`rows
      ensures rows == old(rows)[rec.id := rec]
    {
      rows := rows[rec.id := rec];
    }

    method Save(c: Checkpoint, expected: Option<nat>) returns (saved: bool)
      modifies this`stored
      ensures stored == SaveTo(old(stored), c, expected) && (saved <==> RevisionOf(old(stored)) == expected)
    {
      if RevisionOf(stored) != expected { return false; }
      stored := Some(c);
      saved := true;
    }

    /** One turn of the batch loop, on the target itself. */
    method ProcessRecord(t: Transform, apply: bool, rec: Rec, start: Progress, lands: bool)
      returns (p: Progress)
      modifies this`rows
      ensures (p, rows) == Process(t, apply, start, old(rows), rec, lands)
    {
      p := start.(tally := start.tally.(scanned := start.tally.scanned + 1));
      var outcome := t(rec);
      if outcome.Threw? { return Fail(start); }
      if outcome.Declined? { return p.(tally := p.tally.(skipped := p.tally.skipped + 1)); }
      if outcome.rec.id != rec.id { return Fail(start); }
      if outcome.rec == rec { return p.(tally := p.tally.(same := p.tally.same + 1)); }
      if apply {
        if !lands { return Fail(start); }
        Write(outcome.rec);
        p := p.(journal := p.journal + [rec]);
      }
      p := p.(tally := p.tally.(updated := p.tally.updated + 1));
    }

    /** The inner loop of a run over one batch. */
    method ApplyBatch(t: Transform, apply: bool, batch: seq<Rec>, start: Progress, lands: nat -> bool,
                      ghost land: bool)
      returns (p: Progress)
      requires Current(rows, batch) && Backfill.Balanced(start.tally) && (land ==> apply && AllLand(lands))
      modifies this`rows
      ensures BatchDone(t, apply, land, old(rows), start, batch, |batch|, p, rows)
    {
      p := start;
      ghost var rows0 := rows;
      for i := 0 to |batch|
        invariant BatchDone(t, apply, land, rows0, start, batch, i, p, rows)
      {
        TurnVisits(t, apply, land, rows0, batch, i, p, rows, lands(p.tally.scanned));
        if land || !apply { TurnFails(t, apply, land, rows0, batch, i, p, rows, lands(p.tally.scanned)); }
        TurnJournals(t, apply, p, rows, batch[i], lands(p.tally.scanned));
        p := ProcessRecord(t, apply, batch[i], p, lands(p.tally.scanned));
      }
    }

    /** One turn of the outer loop: read a batch, apply it, save the checkpoint; a failed read saves a halt. */
    method OneBatch(t: Transform, version: string, apply: bool, batchSize: Positive, maxFailures: int,
                    start: Progress, revision: Option<nat>, readFails: bool, lands: nat -> bool,
                    ghost land: bool, ghost rows0: Rows, ghost stored0: Option<Checkpoint>, ghost first: Progress)
      returns (p: Progress, status: Status)
      requires KeyedRows(rows0) && (apply ==> revision == RevisionOf(stored)) && (land ==> apply && AllLand(lands))
      requires BetweenBatches(t, apply, land, rows0, stored0, first, start, rows, stored)
      modifies this
      ensures BetweenBatches(t, apply, land, rows0, stored0, first, p, rows, stored)
      ensures p.tally.scanned >= start.tally.scanned
      ensures status.Running? ==> p.tally.scanned == start.tally.scanned + batchSize
      ensures readFails ==> p == start
      ensures !readFails ==> (status.Halted? <==> p.runFailures > maxFailures)
      ensures readFails ==> status.Halted?
      ensures apply ==> stored == Some(Snapshot(version, revision, p, status))
      ensures status.Completed? ==> NothingAfter(rows, p.lastId)
      ensures status.Running? ==> AfterSet(rows0.Keys, p.lastId) < AfterSet(rows0.Keys, start.lastId)
      ensures !status.RolledBack?
    {
      if readFails {
        if apply { var _ := Save(Snapshot(version, revision, start, Halted), revision); }
        return start, Halted;
      }
      VisitedKeyed(t, land, rows0, rows, first.lastId, start.lastId);
      var batch := ReadBatch(start.lastId, batchSize);
      BatchDistinct(rows, start.lastId, batchSize, batch);
      ghost var rows1, stored1 := rows, stored;
      p := ApplyBatch(t, apply, batch, start, lands, land);
      ghost var applied := p;
      if |batch| > 0 {
        AfterShrinks(rows0.Keys, start.lastId, batch[|batch| - 1].id);
        p := p.(lastId := Some(batch[|batch| - 1].id));
      }
      var halted := p.runFailures > maxFailures;
      var done := |batch| < batchSize;
      status := if halted then Halted else if done then Completed else Running;
      if done { ShortBatchIsLast(rows1, start.lastId, batchSize, batch); }
      if apply { var _ := Save(Snapshot(version, revision, p, status), revision); }
      BatchKeeps(t, apply, land, rows0, stored0, first, start, rows1, stored1, batchSize, batch, applied, rows,
                 p.lastId, stored);
    }

    /**
     * An accepted run: batches until one completes it, halts it, or cannot be read, or the process stops right after
     * a saved batch.
     */
    method RunBatches(t: Transform, version: string, apply: bool, batchSize: Positive, maxFailures: int, start: Progress,
                      readFails: nat -> bool, lands: nat -> bool, dies: nat -> bool, ghost land: bool)
      returns (r: Option<Result<Report, Refusal>>)
      requires KeyedRows(rows) && StoreBalanced(stored) && (land ==> apply && AllLand(lands)) && start.runFailures == 0
      requires Backfill.Balanced(start.tally) && (apply ==> start.journal == JournalOf(stored))
      modifies this
      ensures Leaves(t, apply, start, land, old(rows), old(stored), rows, stored)
      ensures Answered(t, apply, batchSize, maxFailures, start, land, readFails, dies, old(rows), rows, stored, r)
    {
      ghost var rows0, stored0 := rows, stored;
      StartsBetween(t, apply, land, rows0, stored0, start);
      var p, status := start, Running;
      var turn := 0;
      while status.Running?
        invariant BetweenBatches(t, apply, land, rows0, stored0, start, p, rows, stored)
        invariant !status.RolledBack? && (status.Completed? ==> NothingAfter(rows, p.lastId))
        invariant turn == 0 ==> status.Running?
        invariant status.Running? ==> p.tally.scanned == start.tally.scanned + FullBatches(turn, batchSize)
        invariant forall k: nat | k < turn :: !readFails(k) && !dies(k)
        invariant turn > 0 && apply ==> Saved(stored, p, status)
        invariant !status.Running? ==> (status.Halted? <==> p.runFailures > maxFailures)
        decreases status.Running?, AfterSet(rows0.Keys, p.lastId)
      {
        var failed := readFails(turn);
        p, status := OneBatch(t, version, apply, batchSize, maxFailures, p, RevisionOf(stored),
                              failed, lands, land, rows0, stored0, start);
        RunLeaves(t, apply, start, land, rows0, stored0, p, rows, stored, status);
        if dies(turn) {
          assert DiedAt(apply, batchSize, start, dies, turn, stored);
          return None;
        }
        if failed {
          assert ReadFailedAt(apply, batchSize, start, readFails, turn, stored);
          return Some(Err(SourceUnavailable));
        }
        turn := turn + 1;
      }
      RunConcludes(t, apply, maxFailures, start, land, rows0, stored0, p, rows, stored, status);
      RunLeaves(t, apply, start, land, rows0, stored0, p, rows, stored, status);
      r := Some(Ok(Report(status.Completed?, start.lastId, p.lastId, p.tally)));
    }

    /**
     * `runBackfill` by one operator. Whatever reads and writes fail and wherever between batches it stops, the
     * rollback it leaves stored restores what the one before did; a dry run changes nothing; a completed run whose
     * writes all landed has finished exactly the records after the one it resumed from (`CompletedRun`), and with
     * working reads it completes exactly when the transform fails on at most `maxFailures` of them.
     */
    method RunBackfill(t: Transform, version: string, o: Options,
                       readFails: nat -> bool, lands: nat -> bool, dies: nat -> bool, ghost land: bool)
      returns (r: Option<Result<Report, Refusal>>)
      requires KeyedRows(rows) && StoreBalanced(stored) && (land ==> o.apply && AllLand(lands))
      modifies this
      ensures var begun := Begin(version, o, old(stored));
        begun.Err? ==> r == Some(Err(begun.code)) && rows == old(rows) && stored == old(stored)
      ensures var begun := Begin(version, o, old(stored));
        begun.Ok? ==>
          && Leaves(t, o.apply, begun.value, land, old(rows), old(stored), rows, stored)
          && Answered(t, o.apply, BatchSize(o), MaxFailures(o), begun.value, land, readFails, dies, old(rows), rows, stored, r)
          && (Never(readFails) && Never(dies) ==> r.Some? && r.value.Ok?)
    {
      var batchSize, maxFailures := BatchSize(o), MaxFailures(o);
      if !(1 <= batchSize <= MAX_BATCH_SIZE) || maxFailures < 0 || (o.apply && !o.withStore) { return Some(Err(InvalidOptions)); }
      if !o.permitted { return Some(Err(Unauthorized)); }
      var start := NOTHING;
      if o.apply {
        var from := Resume(version, stored, o.restart);
        if from.Err? { return Some(Err(from.code)); }
        start := from.value;
      }
      r := RunBatches(t, version, o.apply, batchSize, maxFailures, start, readFails, lands, dies, land);
    }

    /**
     * `rollbackBackfill`: images written back newest first, each removed from the journal when its write succeeds.
     * When all succeed the target is the origin and the checkpoint is rolled back.
     */
    method RollbackBackfill(permitted: bool, lands: nat -> bool)
      returns (r: Result<nat, Refusal>)
      modifies this
      ensures r.Err? <==> !permitted || old(stored).None?
      ensures r.Err? ==> rows == old(rows) && stored == old(stored)
      ensures r.Ok? ==>
        && rows == Restore(JournalOf(old(stored)), old(rows), lands)
        && stored == Some(AfterRollback(old(stored).value, Remaining(JournalOf(old(stored)), lands)))
        && r.value == |JournalOf(old(stored))| - |Remaining(JournalOf(old(stored)), lands)|
    {
      if !permitted { return Err(Unauthorized); }
      if stored.None? { return Err(NoCheckpoint); }
      var c := stored.value;
      var journal := c.journal;
      var left := journal;
      var restored := 0;
      RollStarts(journal, rows, lands);
      for index := |journal| downto 0
        invariant stored == Some(c)
        invariant RolledTo(journal, old(rows), lands, index, rows, left) && restored == |journal| - |left|
      {
        RollsOne(journal, old(rows), lands, index, rows, left);
        if lands(index) {
          Write(journal[index]);
          left := left[..index] + left[index + 1..];
          restored := restored + 1;
        }
      }
      RollEnds(journal, old(rows), lands, rows, left);
      var _ := Save(AfterRollback(c, left), Some(c.revision));
      r := Ok(restored);
    }

    /**
     * Any runs one after another - dry, applied, resumed or restarted, with any transforms and options, failing
     * reads and writes, stopped after any saved batch - and then a rollback whose writes succeed: the very first
     * rows are back, however often a record was journaled.
     */
    method RunThenRollBack(jobs: seq<Job>, lands: nat -> bool) returns (r: Result<nat, Refusal>)
      requires KeyedRows(rows) && stored.None? && AllLand(lands)
      modifies this
      ensures rows == old(rows)
      ensures r.Ok? ==> stored.Some? && stored.value.journal == [] && stored.value.status.RolledBack?
    {
      for i := 0 to |jobs|
        invariant KeyedRows(rows) && StoreBalanced(stored) && Origin(stored, rows) == old(rows)
      {
        var _ := RunBackfill(jobs[i].t, jobs[i].version, jobs[i].options, jobs[i].readFails, jobs[i].lands, jobs[i].dies, false);
      }
      FullRollback(JournalOf(stored), rows, lands);
      r := RollbackBackfill(true, lands);
    }
  }

  // ---------------------------------------------------------------- what a rollback restores

  /** A rollback whose writes all succeed is the full undo and leaves no image. */
  lemma {:induction false} FullRollback(journal: seq<Rec>, rows: Rows, lands: nat -> bool)
    requires AllLand(lands)
    ensures Restore(journal, rows, lands) == Undo(journal, rows) && Remaining(journal, lands) == []
    decreases |journal|
  {
    if journal != [] {
      var n := |journal| - 1;
      FullRollback(journal[..n], rows[journal[n].id := journal[n]], lands);
    }
  }

  /** A crash between a write and its checkpoint loses the image: nothing stored can restore the record. */
  lemma CrashLosesImage(t: Transform, version: string, rec: Rec)
    requires Goal(t, rec) != rec
    ensures var rows: Rows := map[rec.id := rec];
      var sys := Run(t, version, System(rows, None, map[]), [Start(0, false, 1, 0), Read(0, [rec]), Next(0), Crash(0)]);
      sys.stored == None && sys.rows == map[rec.id := Goal(t, rec)] && Origin(sys.stored, sys.rows) != rows
  {
    var rows: Rows := map[rec.id := rec];
    var events := [Start(0, false, 1, 0), Read(0, [rec]), Next(0), Crash(0)];
    var s0 := System(rows, None, map[]);
    assert events[..3][..2] == events[..2] && events[..2][..1] == events[..1] && events[..1][..0] == [];
    assert IsBatch(rows, None, 1, [rec]) by {
      assert forall id | id in rows :: Listed([rec], id) by { assert [rec][0].id == rec.id; }
    }
    var s1 := Step(t, version, s0, events[0]);
    var s2 := Step(t, version, s1, events[1]);
    var s3 := Step(t, version, s2, events[2]);
    assert Run(t, version, s0, events[..1]) == s1;
    assert Run(t, version, s0, events[..2]) == s2;
    assert Run(t, version, s0, events[..3]) == s3;
  }

  /** Every image journaled is the original of a record the transform changes. */
  ghost predicate Originals(t: Transform, orig: Rows, journal: seq<Rec>)
  {
    forall i | 0 <= i < |journal| :: IsOriginal(t, orig, journal[i])
  }

  ghost predicate IsOriginal(t: Transform, orig: Rows, r: Rec) { r.id in orig && r == orig[r.id] && Goal(t, r) != r }

  ghost predicate AllOriginals(t: Transform, orig: Rows, sys: System)
  {
    && Originals(t, orig, JournalOf(sys.stored))
    && forall o | o in sys.operators :: Originals(t, orig, sys.operators[o].progress.journal)
  }

  /** Finished images are never written again, so only originals are journaled. */
  lemma ProcessOriginals(t: Transform, orig: Rows, p: Progress, rows: Rows, rec: Rec)
    requires Idempotent(t) && Old(t, orig, rec) && Originals(t, orig, p.journal)
    ensures Originals(t, orig, Process(t, true, p, rows, rec, true).0.journal)
  {
    GoalIdempotent(t, orig[rec.id]);
  }

  lemma StepOriginals(t: Transform, orig: Rows, version: string, sys: System, e: Event)
    requires Idempotent(t) && Converging(t, orig, sys) && AllOriginals(t, orig, sys)
    ensures AllOriginals(t, orig, Step(t, version, sys, e))
  {
    if e.Next? && e.o in sys.operators && sys.operators[e.o].phase.Batch? && sys.operators[e.o].phase.todo != [] {
      var op := sys.operators[e.o];
      assert OperatorFine(t, orig, sys.rows, op);
      assert Held(t, orig, sys.rows, op.phase.todo[0]);
      ProcessOriginals(t, orig, op.progress, sys.rows, op.phase.todo[0]);
    }
  }

  lemma {:induction false} HistoryOriginals(t: Transform, orig: Rows, version: string, events: seq<Event>)
    requires Idempotent(t) && KeyedRows(orig)
    ensures AllOriginals(t, orig, Run(t, version, System(orig, None, map[]), events))
  {
    if events != [] {
      var before := events[..|events| - 1];
      HistoryOriginals(t, orig, version, before);
      HistoryConverges(t, orig, version, before);
      StepOriginals(t, orig, version, Run(t, version, System(orig, None, map[]), before), events[|events| - 1]);
    }
  }

  lemma {:induction false} OldestOriginal(t: Transform, orig: Rows, journal: seq<Rec>, id: Id)
    requires Originals(t, orig, journal) && id in orig
    ensures Oldest(journal, id, Always) == if Listed(journal, id) then Some(orig[id]) else None
    decreases |journal|
  {
    if journal != [] {
      var n := |journal| - 1;
      OldestOriginal(t, orig, journal[..n], id);
      ListedGrows(journal, n);
      assert journal[..n + 1] == journal;
    }
  }

  /**
   * After any history of any number of operators, with crashes between any two awaits and lost races, a rollback
   * gives a record back exactly when its row is untouched or some image of it is in the stored journal.
   */
  lemma RollbackRestoresExactly(t: Transform, orig: Rows, version: string, events: seq<Event>, id: Id)
    requires Idempotent(t) && KeyedRows(orig) && id in orig
    ensures var sys := Run(t, version, System(orig, None, map[]), events);
      At(Origin(sys.stored, sys.rows), id) == Some(orig[id]) <==>
      At(sys.rows, id) == Some(orig[id]) || Listed(JournalOf(sys.stored), id)
  {
    var sys := Run(t, version, System(orig, None, map[]), events);
    HistoryConverges(t, orig, version, events);
    HistoryOriginals(t, orig, version, events);
    OldestOriginal(t, orig, JournalOf(sys.stored), id);
    RestoreValue(JournalOf(sys.stored), sys.rows, Always, id);
  }

  // ---------------------------------------------------------------- re-running a partly failed rollback

  function Failing(lands: nat -> bool): nat -> bool { (k: nat) => !lands(k) }

  /** The oldest image left is the oldest that failed. */
  lemma {:induction false} OldestLeft(journal: seq<Rec>, id: Id, lands: nat -> bool)
    ensures Oldest(Remaining(journal, lands), id, Always) == Oldest(journal, id, Failing(lands))
    decreases |journal|
  {
    if journal != [] {
      var n := |journal| - 1;
      OldestLeft(journal[..n], id, lands);
      var before := Remaining(journal[..n], lands);
      if !lands(n) {
        assert (before + [journal[n]])[..|before|] == before;
      } else {
        assert before + [] == before;
      }
    }
  }

  /** The oldest image of all is the oldest written or the oldest left. */
  lemma {:induction false} OldestEither(journal: seq<Rec>, id: Id, lands: nat -> bool)
    ensures var all, done, left := Oldest(journal, id, Always), Oldest(journal, id, lands), Oldest(journal, id, Failing(lands));
      && (all == done || all == left)
      && (left.None? ==> all == done) && (done.None? ==> all == left)
    decreases |journal|
  {
    if journal != [] { OldestEither(journal[..|journal| - 1], id, lands); }
  }

  /** No failed image of the record is newer than its origin: its oldest failed image is its oldest image. */
  predicate RerunSafe(journal: seq<Rec>, lands: nat -> bool, id: Id)
  {
    var left := Oldest(Remaining(journal, lands), id, Always);
    left.None? || left == Oldest(journal, id, Always)
  }

  /**
   * "A partly failed rollback can simply be re-run" is false of the code for a record journaled more than once:
   * the re-run restores a record exactly when its oldest failed image is its oldest image.
   */
  lemma RerunRestoresExactly(journal: seq<Rec>, rows: Rows, lands: nat -> bool, id: Id)
    ensures var again := Undo(Remaining(journal, lands), Restore(journal, rows, lands));
      At(again, id) == At(Undo(journal, rows), id) <==> RerunSafe(journal, lands, id)
  {
    var once := Restore(journal, rows, lands);
    RestoreValue(journal, rows, lands, id);
    RestoreValue(Remaining(journal, lands), once, Always, id);
    RestoreValue(journal, rows, Always, id);
    OldestLeft(journal, id, lands);
    OldestEither(journal, id, lands);
  }

  /** The failing case: the newer image fails first, the older is restored, and the re-run brings the newer back. */
  lemma RerunRevivesNewerImage(rows: Rows)
    ensures var v0, v1 := Rec("a", "0"), Rec("a", "1");
      var lands := (k: nat) => k == 0;
      var again := Undo(Remaining([v0, v1], lands), Restore([v0, v1], rows, lands));
      At(again, "a") == Some(v1) && At(Undo([v0, v1], rows), "a") == Some(v0)
  {
    var v0, v1 := Rec("a", "0"), Rec("a", "1");
    var lands := (k: nat) => k == 0;
    var journal := [v0, v1];
    assert journal[..2] == journal && journal[..1] == [v0] && journal[..0] == [];
    StepBack(journal, 0, rows, lands);
    StepBack(journal, 1, rows, lands);
    assert Remaining(journal, lands) == [v1];
    RestoreValue([v1], Restore([v0, v1], rows, lands), Always, "a");
    RestoreValue([v0, v1], rows, Always, "a");
    assert [v1][..0] == [];
    assert Oldest([v0], "a", Always) == Some(v0);
  }
}
