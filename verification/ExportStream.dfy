/** The streamed export: records pulled one at a time and handed out in bounded chunks. */
module ExportStream {
  import opened Prelude
  import opened FieldAuthorization
  import opened Exports
  import opened ExportForms
  import Pagination

  datatype Status = Running | Completed | Cancelled | Abandoned

  function Flat(chunks: seq<seq<Record>>): seq<Record>
  {
    if chunks == [] then [] else Flat(chunks[..|chunks| - 1]) + chunks[|chunks| - 1]
  }

  predicate Whole(chunks: seq<seq<Record>>, size: nat) { forall i | 0 <= i < |chunks| :: |chunks[i]| == size }

  lemma FlatPush(chunks: seq<seq<Record>>, chunk: seq<Record>)
    ensures Flat(chunks + [chunk]) == Flat(chunks) + chunk
  {
    assert (chunks + [chunk])[..|chunks|] == chunks;
  }

  lemma BufferPush(v: View, flat: seq<Record>, buffer: seq<Record>, done: seq<Record>, record: Record)
    requires flat + buffer == Render(v, done)
    ensures flat + (buffer + [v.redact(Show(v.policy, record))]) == Render(v, done + [record])
    ensures Total(v, done + [record]) == Total(v, done) + Withheld(v.policy, record)
  {
    assert (done + [record])[..|done|] == done;
  }

  /** What was handed out of the records `done`, when `pulled` of them were read. */
  ghost predicate Delivered(v: View, all: seq<Record>, size: Positive, status: Status, chunks: seq<seq<Record>>, filtered: nat, pulled: nat)
  {
    && pulled <= |all| && filtered == Total(v, all[..pulled]) && Flat(chunks) <= Render(v, all[..pulled])
    && |Flat(chunks)| <= pulled < |Flat(chunks)| + size
    && (status == Cancelled ==> Whole(chunks, size))
    && (status == Completed ==> pulled == |all| && Flat(chunks) == Render(v, all) && LastMayBeShort(chunks, size))
    && (status == Abandoned ==> chunks != [] && pulled == |Flat(chunks)| && LastMayBeShort(chunks, size))
  }

  /** Every chunk is full except perhaps the last, which is not empty. */
  ghost predicate LastMayBeShort(chunks: seq<seq<Record>>, size: nat)
  {
    chunks == [] || (Whole(chunks[..|chunks| - 1], size) && 0 < |chunks[|chunks| - 1]| <= size)
  }

  // ---------------------------------------------------------------- why a stream ends

  predicate Quiet(fires: nat -> bool, n: nat) { forall k: nat | k < n :: !fires(k) }

  /** It is cancelled by the first aborted look, abandoned at the first chunk the consumer leaves at. */
  ghost predicate EndedBy(aborted: nat -> bool, abandons: nat -> bool, status: Status, pulled: nat, chunks: nat)
  {
    match status
    case Running => Quiet(aborted, pulled) && Quiet(abandons, chunks)
    case Completed => Quiet(aborted, pulled + 1) && Quiet(abandons, chunks)
    case Cancelled => Quiet(aborted, pulled) && aborted(pulled) && Quiet(abandons, chunks)
    case Abandoned => chunks > 0 && Quiet(aborted, pulled) && Quiet(abandons, chunks - 1) && abandons(chunks - 1)
  }

  /** Never aborted while `total` records are read, and never left at one of their chunks. */
  ghost predicate Undisturbed(aborted: nat -> bool, abandons: nat -> bool, total: nat, size: Positive)
  {
    Quiet(aborted, total + 1) && forall k: nat | k * size < total :: !abandons(k)
  }

  lemma OneMore(n: nat, size: nat)
    ensures (n + 1) * size == n * size + size
  {
  }

  lemma {:induction false} FlatWhole(chunks: seq<seq<Record>>, size: nat)
    requires Whole(chunks, size)
    ensures |Flat(chunks)| == |chunks| * size
  {
    if chunks != [] {
      FlatWhole(chunks[..|chunks| - 1], size);
      OneMore(|chunks| - 1, size);
    }
  }

  lemma FlatBounds(chunks: seq<seq<Record>>, size: nat)
    requires chunks != [] && LastMayBeShort(chunks, size)
    ensures (|chunks| - 1) * size < |Flat(chunks)| <= (|chunks| - 1) * size + size
  {
    FlatWhole(chunks[..|chunks| - 1], size);
  }

  /** The chunks of a whole stream are the ones that start before its end. */
  lemma ChunkStarts(chunks: nat, total: nat, size: Positive, k: nat)
    requires if chunks == 0 then total == 0 else (chunks - 1) * size < total <= (chunks - 1) * size + size
    ensures k * size < total <==> k < chunks
  {
    if k < chunks {
      Grows(k, chunks - 1, size);
    } else if chunks > 0 {
      Grows(chunks, k, size);
    }
  }

  lemma Grows(a: nat, b: nat, size: nat)
    requires a <= b
    ensures a * size <= b * size
  {
  }

  /** A stream completes exactly when nothing disturbs it. */
  lemma CompletesExactly(
    v: View, all: seq<Record>, size: Positive, status: Status, chunks: seq<seq<Record>>, filtered: nat, pulled: nat,
    aborted: nat -> bool, abandons: nat -> bool)
    requires status != Running && Delivered(v, all, size, status, chunks, filtered, pulled)
    requires EndedBy(aborted, abandons, status, pulled, |chunks|)
    ensures status == Completed <==> Undisturbed(aborted, abandons, |all|, size)
  {
    RenderLength(v, all);
    if status == Completed {
      if chunks != [] { FlatBounds(chunks, size); }
      forall k: nat | k * size < |all| ensures !abandons(k) { ChunkStarts(|chunks|, |all|, size, k); }
    }
    if status == Abandoned {
      FlatBounds(chunks, size);
      assert (|chunks| - 1) * size < |all|;
    }
  }

  // ---------------------------------------------------------------- the sources in order

  lemma CollectedPush(req: Request, sources: seq<Source>, i: nat)
    requires i < |sources|
    ensures Collected(req, sources[..i + 1]) ==
            Collected(req, sources[..i]) + if Allowed(req, sources[i]) then TagAll(sources[i].records, sources[i]) else []
  {
    assert sources[..i + 1][..i] == sources[..i];
  }

  lemma {:induction false} CollectedGrows(req: Request, sources: seq<Source>, i: nat)
    requires i <= |sources|
    ensures Collected(req, sources[..i]) <= Collected(req, sources)
    decreases |sources| - i
  {
    if i == |sources| {
      assert sources[..i] == sources;
    } else {
      CollectedGrows(req, sources, i + 1);
      CollectedPush(req, sources, i);
    }
  }

  /** `done` is what came before and a first part of `all`, or all of it. */
  ghost predicate ReadInto(before: seq<Record>, all: seq<Record>, done: seq<Record>, whole: bool)
  {
    before <= done && done[|before|..] <= all && (whole ==> done == before + all)
  }

  lemma ReadOne(before: seq<Record>, all: seq<Record>, i: nat, done: seq<Record>)
    requires i < |all| && done == before + all[..i]
    ensures done + [all[i]] == before + all[..i + 1]
    ensures ReadInto(before, all, done, false) && ReadInto(before, all, done + [all[i]], false)
  {
    assert done[|before|..] == all[..i] && (done + [all[i]])[|before|..] == all[..i + 1];
  }

  /** Reading on into source `i` stays within the whole, and reading all of it completes the source. */
  lemma ReadOn(req: Request, sources: seq<Source>, i: nat, read: seq<Record>)
    requires i < |sources| && Allowed(req, sources[i])
    requires Collected(req, sources[..i]) <= read && read[|Collected(req, sources[..i])|..] <= TagAll(sources[i].records, sources[i])
    ensures read <= Collected(req, sources)
    ensures read == Collected(req, sources[..i]) + TagAll(sources[i].records, sources[i]) ==> read == Collected(req, sources[..i + 1])
  {
    CollectedPush(req, sources, i);
    CollectedGrows(req, sources, i + 1);
  }

  /** Stopped early: what was read is a prefix of the whole, and so is what was delivered. */
  lemma StoppedEarly(v: View, all: seq<Record>, size: Positive, status: Status, chunks: seq<seq<Record>>, buffer: seq<Record>, done: seq<Record>)
    requires done <= all && Flat(chunks) + buffer == Render(v, done) && Whole(chunks, size) && |buffer| < size
    requires status == Cancelled || (status == Abandoned && buffer == [] && chunks != [])
    ensures Delivered(v, all, size, status, chunks, Total(v, done), |done|)
  {
    RenderLength(v, done);
    assert all[..|done|] == done;
  }

  /** Read to the end: what was delivered is all of it. */
  lemma ClosedWell(v: View, size: Positive, status: Status, chunks: seq<seq<Record>>, buffer: seq<Record>, done: seq<Record>)
    requires Flat(chunks) + buffer == Render(v, done) && buffer == [] && LastMayBeShort(chunks, size)
    requires status == Completed || (status == Abandoned && chunks != [])
    ensures Delivered(v, done, size, status, chunks, Total(v, done), |done|)
  {
    RenderLength(v, done);
    assert done[..|done|] == done && Flat(chunks) + [] == Flat(chunks);
  }

  class Stream {
    const view: View
    const chunkSize: Positive
    /** Whether the signal is aborted when it is looked at for the n-th time. */
    const aborted: nat -> bool
    /** Whether the consumer abandons the iterator at its n-th chunk. */
    const abandons: nat -> bool
    var chunks: seq<seq<Record>>
    var buffer: seq<Record>
    var delivered: nat
    var filtered: nat
    var looked: nat
    var status: Status
    ghost var done: seq<Record>

    /** The chunks and the buffer are what was read so far, shown. */
    ghost predicate Told()
      reads this
    {
      Flat(chunks) + buffer == Render(view, done) && filtered == Total(view, done) && delivered == |Flat(chunks)|
    }

    /** The chunks are full, and the buffer is not. */
    ghost predicate Chunked()
      reads this
    {
      Whole(chunks, chunkSize) && |buffer| < chunkSize && (status == Abandoned ==> buffer == [] && chunks != [])
    }

    /** The signal was looked at once for every record, and whatever stopped the stream was the first to do so. */
    ghost predicate Watched()
      reads this
    {
      && status != Completed && looked == |done| + (if status == Cancelled then 1 else 0)
      && EndedBy(aborted, abandons, status, |done|, |chunks|)
    }

    ghost predicate Valid()
      reads this
    {
      Told() && Chunked() && Watched()
    }

    constructor (view: View, chunkSize: int, aborted: nat -> bool, abandons: nat -> bool)
      ensures Valid() && status == Running && done == [] && chunks == [] && this.view == view && this.chunkSize == Max(1, chunkSize)
      ensures this.aborted == aborted && this.abandons == abandons
    {
      this.view, this.chunkSize, this.aborted, this.abandons := view, Max(1, chunkSize), aborted, abandons;
      chunks, buffer, delivered, filtered, looked, status, done := [], [], 0, 0, 0, Running, [];
    }

    /** Looks at the signal: the stream is cancelled exactly when it is aborted. */
    method Look()
      requires status == Running
      modifies this`looked, this`status
      ensures looked == old(looked) + 1 && status == if aborted(old(looked)) then Cancelled else Running
    {
      if aborted(looked) { status := Cancelled; }
      looked := looked + 1;
    }

    /** Filters and redacts one record into the buffer. */
    method Take(record: Record)
      requires Told()
      modifies this`buffer, this`filtered, this`done
      ensures Told() && done == old(done) + [record] && |buffer| == old(|buffer|) + 1
    {
      var shown, withheld := ApplyFieldLevelAuthorization(record, view.policy);
      BufferPush(view, Flat(chunks), buffer, done, record);
      filtered := filtered + withheld;
      buffer := buffer + [view.redact(shown)];
      done := done + [record];
    }

    /** Yields the buffer as a chunk, after which the consumer may have gone. */
    method Yield()
      requires Told() && status == Running && |buffer| > 0
      modifies this`chunks, this`buffer, this`delivered, this`status
      ensures Told() && buffer == [] && chunks == old(chunks) + [old(buffer)]
      ensures status == if abandons(old(|chunks|)) then Abandoned else Running
      ensures |old(buffer)| == chunkSize && old(Whole(chunks, chunkSize)) ==> Whole(chunks, chunkSize)
    {
      FlatPush(chunks, buffer);
      var records := buffer;
      buffer := [];
      delivered := delivered + |records|;
      chunks := chunks + [records];
      if abandons(|chunks| - 1) { status := Abandoned; }
    }

    /** Filters and buffers a record, and yields a full buffer. */
    method Accept(record: Record)
      requires Told() && Chunked() && status == Running
      modifies this`buffer, this`filtered, this`done, this`chunks, this`delivered, this`status
      ensures Told() && Chunked() && done == old(done) + [record] && |old(chunks)| <= |chunks| <= |old(chunks)| + 1
      ensures status == if |chunks| > |old(chunks)| && abandons(|old(chunks)|) then Abandoned else Running
    {
      Take(record);
      if |buffer| >= chunkSize { Yield(); }
    }

    /** One record: checked against the signal, filtered, buffered, and yielded when the buffer is full. */
    method Pull(record: Record)
      requires Valid() && status == Running
      modifies this
      ensures Valid()
      ensures done == if aborted(|old(done)|) then old(done) else old(done) + [record]
      ensures status == Cancelled <==> aborted(|old(done)|)
    {
      Look();
      if status == Running { Accept(record); }
    }

    /** The rest of the buffer, after which the stream is over. */
    method Flush()
      requires Told() && Chunked() && status == Running
      modifies this`chunks, this`buffer, this`delivered, this`status
      ensures delivered == |Flat(chunks)| && Delivered(view, done, chunkSize, status, chunks, filtered, |done|)
      ensures status == Completed || status == Abandoned
      ensures Quiet(abandons, old(|chunks|)) ==>
        if status == Completed then Quiet(abandons, |chunks|)
        else chunks != [] && Quiet(abandons, |chunks| - 1) && abandons(|chunks| - 1)
    {
      if |buffer| > 0 {
        Yield();
        assert chunks[..|chunks| - 1] == old(chunks);
      }
      if status == Running { status := Completed; }
      ClosedWell(view, chunkSize, status, chunks, buffer, done);
    }

    /** The end of the sources: a last look at the signal, then the rest of the buffer. */
    method Close()
      requires Valid() && status == Running
      modifies this
      ensures done == old(done) && status != Running && delivered == |Flat(chunks)|
      ensures Delivered(view, done, chunkSize, status, chunks, filtered, |done|)
      ensures EndedBy(aborted, abandons, status, |done|, |chunks|)
      ensures status == Cancelled <==> aborted(|done|)
    {
      Look();
      if status == Running {
        Flush();
      } else {
        StoppedEarly(view, done, chunkSize, status, chunks, buffer, done);
      }
    }

    /** Reads one source to its end, unless the stream stops first. */
    method PullAll(source: Source)
      requires Valid() && status == Running
      modifies this
      ensures Valid()
      ensures ReadInto(old(done), TagAll(source.records, source), done, status == Running)
    {
      var i := 0;
      ghost var all, before := TagAll(source.records, source), done;
      while i < |source.records| && status == Running
        invariant 0 <= i <= |source.records| && Valid()
        invariant status == Running ==> done == before + all[..i]
        invariant status != Running ==> ReadInto(before, all, done, false)
      {
        ReadOne(before, all, i, done);
        Pull(Tag(source.records[i], source));
        i := i + 1;
      }
      assert all[..|all|] == all;
    }

    /** Reads the sources the request may read, in order, unless the stream stops first. */
    method PullSources(req: Request, sources: seq<Source>)
      requires Valid() && status == Running && done == []
      modifies this
      ensures Valid() && done <= Collected(req, sources)
      ensures status == Running ==> done == Collected(req, sources)
    {
      var i := 0;
      while i < |sources| && status == Running
        invariant 0 <= i <= |sources| && Valid() && done <= Collected(req, sources)
        invariant status == Running ==> done == Collected(req, sources[..i])
      {
        if Allowed(req, sources[i]) {
          PullAll(sources[i]);
          ReadOn(req, sources, i, done);
        } else {
          CollectedPush(req, sources, i);
        }
        i := i + 1;
      }
      assert sources[..|sources|] == sources;
    }

    method Run(req: Request, sources: seq<Source>)
      requires Valid() && status == Running && done == []
      modifies this
      ensures status != Running && delivered == |Flat(chunks)|
      ensures Delivered(view, Collected(req, sources), chunkSize, status, chunks, filtered, |done|)
      ensures EndedBy(aborted, abandons, status, |done|, |chunks|)
    {
      PullSources(req, sources);
      if status == Running {
        Close();
      } else {
        StoppedEarly(view, Collected(req, sources), chunkSize, status, chunks, buffer, done);
      }
    }
  }

  /**
   * A stream completes exactly when the signal is not aborted while it reads and the consumer stays, and is cancelled
   * or abandoned by the first look or chunk that says so. A completed stream delivers exactly the records of the batch export and withholds as many fields; a cancelled
   * one delivers a prefix made of whole chunks, and counts as filtered the fields of every record it read.
   */
  method StreamExportRecords(
    req: Request, sources: seq<Source>, quota: Option<string>, redact: Record -> Record,
    chunkSize: int, aborted: nat -> bool, abandons: nat -> bool)
    returns (refusal: Option<string>, status: Status, chunks: seq<seq<Record>>, delivered: nat, filtered: nat, ghost pulled: nat)
    ensures refusal == Gate(req, sources, quota) && (refusal.Some? ==> chunks == [])
    ensures delivered == |Flat(chunks)|
    ensures refusal.None? ==>
              && status != Running
              && Delivered(ViewOf(req, sources, redact), Collected(req, sources), Max(1, chunkSize), status, chunks, filtered, pulled)
              && EndedBy(aborted, abandons, status, pulled, |chunks|)
              && (status == Completed <==> Undisturbed(aborted, abandons, |Collected(req, sources)|, Max(1, chunkSize)))
  {
    refusal, status, chunks, delivered, filtered, pulled := Gate(req, sources, quota), Running, [], 0, 0, 0;
    if refusal.Some? { return; }
    var stream := new Stream(ViewOf(req, sources, redact), chunkSize, aborted, abandons);
    stream.Run(req, sources);
    status, chunks, delivered, filtered, pulled := stream.status, stream.chunks, stream.delivered, stream.filtered, |stream.done|;
    CompletesExactly(ViewOf(req, sources, redact), Collected(req, sources), Max(1, chunkSize), status, chunks, filtered, pulled,
                     aborted, abandons);
  }

  // ---------------------------------------------------------------- the forms agree

  /** A client's cursor walk: export after export of one request, each with the cursor of the one before, to the end. */
  ghost predicate ExportWalk(
    req: Request, sources: seq<Source>, quota: Option<string>, redact: Record -> Record, base: Digester,
    sizes: seq<Option<int>>, pages: seq<Envelope>)
  {
    && |pages| == |sizes| > 0 && pages[|pages| - 1].nextCursor == None
    && forall i | 0 <= i < |pages| :: ExportTurn(req, sources, quota, redact, base, sizes, pages, i)
  }

  ghost predicate ExportTurn(
    req: Request, sources: seq<Source>, quota: Option<string>, redact: Record -> Record, base: Digester,
    sizes: seq<Option<int>>, pages: seq<Envelope>, i: nat)
    requires i < |pages| == |sizes|
  {
    && (i > 0 ==> pages[i - 1].nextCursor.Some?)
    && ExportRecords(req, sources, quota, redact, base, sizes[i], None, if i == 0 then None else pages[i - 1].nextCursor) ==
       Ok(pages[i])
  }

  /**
   * For one request, a completed stream of any chunk size, a cursor walk with pages of any sizes and the unpaged
   * batch hold the same records and withhold as many fields.
   */
  lemma ThreeFormsAgree(
    req: Request, sources: seq<Source>, quota: Option<string>, redact: Record -> Record, base: Digester,
    sizes: seq<Option<int>>, pages: seq<Envelope>, size: Positive, chunks: seq<seq<Record>>, filtered: nat, pulled: nat)
    requires FixedWidth(base) && Gate(req, sources, quota).None? && ExportWalk(req, sources, quota, redact, base, sizes, pages)
    requires Delivered(ViewOf(req, sources, redact), Collected(req, sources), size, Completed, chunks, filtered, pulled)
    ensures var batch := ExportRecords(req, sources, quota, redact, base, None, None, None);
      && batch.Ok? && batch.value.records == Flat(chunks) == Together(pages)
      && batch.value.filtered == filtered == FilteredTogether(pages)
  {
    var v, records := ViewOf(req, sources, redact), Collected(req, sources);
    var keyed := Keys(records, base);
    var rows := RowPages(keyed, sizes, pages);
    WalkRows(req, sources, quota, redact, base, sizes, pages);
    PagesAreTheWhole(v, records, base, Sizes(|keyed|, sizes), rows);
    CompletedIsAll(v, records, size, chunks, filtered);
  }

  /** The rows behind the pages of a walk. */
  ghost function RowPages(keyed: seq<Keyed>, sizes: seq<Option<int>>, pages: seq<Envelope>): (r: seq<Pagination.Page<Keyed>>)
    requires |pages| == |sizes|
    ensures |r| == |pages|
    ensures forall i | 0 <= i < |r| :: r[i] == Shown(keyed, sizes[i], None, if i == 0 then None else pages[i - 1].nextCursor)
  {
    seq(|pages|, i requires 0 <= i < |pages| =>
      Shown(keyed, sizes[i], None, if i == 0 then None else pages[i - 1].nextCursor))
  }

  lemma TurnRows(
    req: Request, sources: seq<Source>, quota: Option<string>, redact: Record -> Record, base: Digester,
    sizes: seq<Option<int>>, pages: seq<Envelope>, i: nat)
    requires Gate(req, sources, quota).None? && i < |pages| == |sizes|
    requires ExportTurn(req, sources, quota, redact, base, sizes, pages, i)
    ensures var keyed := Keys(Collected(req, sources), base);
      pages[i] == Wrap(ViewOf(req, sources, redact), RowPages(keyed, sizes, pages)[i], 1, |keyed|)
  {
  }

  lemma RowLink(keyed: seq<Keyed>, sizes: seq<Option<int>>, pages: seq<Envelope>, i: nat)
    requires i < |pages| == |sizes|
    requires i > 0 ==> pages[i - 1].nextCursor.Some? && RowPages(keyed, sizes, pages)[i - 1].nextCursor == pages[i - 1].nextCursor
    ensures Pagination.Link(keyed, KeyOf, Sizes(|keyed|, sizes), RowPages(keyed, sizes, pages), i)
  {
  }

  /** A walk over exports is a walk over rows, shown. */
  lemma WalkRows(
    req: Request, sources: seq<Source>, quota: Option<string>, redact: Record -> Record, base: Digester,
    sizes: seq<Option<int>>, pages: seq<Envelope>)
    requires Gate(req, sources, quota).None? && ExportWalk(req, sources, quota, redact, base, sizes, pages)
    ensures var keyed := Keys(Collected(req, sources), base);
      && Pagination.AllPages(keyed, KeyOf, Sizes(|keyed|, sizes), RowPages(keyed, sizes, pages))
      && pages == Deliver(ViewOf(req, sources, redact), RowPages(keyed, sizes, pages), |keyed|)
  {
    var v, keyed := ViewOf(req, sources, redact), Keys(Collected(req, sources), base);
    var rows := RowPages(keyed, sizes, pages);
    forall i: nat | i < |pages| ensures pages[i] == Wrap(v, rows[i], 1, |keyed|) {
      TurnRows(req, sources, quota, redact, base, sizes, pages, i);
    }
    forall i: nat | i < |pages| ensures Pagination.Link(keyed, KeyOf, Sizes(|keyed|, sizes), rows, i) {
      assert ExportTurn(req, sources, quota, redact, base, sizes, pages, i);
      RowLink(keyed, sizes, pages, i);
    }
    forall i: nat | i < |pages| ensures pages[i] == Deliver(v, rows, |keyed|)[i] { DeliverAt(v, rows, |keyed|, i); }
  }

  lemma CompletedIsAll(v: View, records: seq<Record>, size: Positive, chunks: seq<seq<Record>>, filtered: nat)
    requires exists pulled :: Delivered(v, records, size, Completed, chunks, filtered, pulled)
    ensures Flat(chunks) == Render(v, records) && filtered == Total(v, records)
  {
    assert records[..|records|] == records;
  }
}
