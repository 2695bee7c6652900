/** The three forms of an export agree: a batch, its cursor pages together, and its stream of chunks. */
module ExportForms {
  import opened Prelude
  import opened FieldAuthorization
  import opened Exports
  import Pagination

  /** How records are shown: the policy, then redaction. */
  datatype View = View(policy: Policy, redact: Record -> Record)

  function Render(v: View, records: seq<Record>): seq<Record>
  {
    if records == [] then []
    else Render(v, records[..|records| - 1]) + [v.redact(Show(v.policy, records[|records| - 1]))]
  }

  function Total(v: View, records: seq<Record>): nat
  {
    if records == [] then 0 else Total(v, records[..|records| - 1]) + Withheld(v.policy, records[|records| - 1])
  }

  lemma {:induction false} RenderConcat(v: View, a: seq<Record>, b: seq<Record>)
    ensures Render(v, a + b) == Render(v, a) + Render(v, b) && Total(v, a + b) == Total(v, a) + Total(v, b)
  {
    if b == [] {
      assert a + b == a;
    } else {
      var n := |b| - 1;
      RenderConcat(v, a, b[..n]);
      assert (a + b)[..|a + b| - 1] == a + b[..n] && (a + b)[|a + b| - 1] == b[n];
    }
  }

  lemma {:induction false} RenderLength(v: View, records: seq<Record>)
    ensures |Render(v, records)| == |records|
  {
    if records != [] { RenderLength(v, records[..|records| - 1]); }
  }

  // ---------------------------------------------------------------- batch and pages

  datatype Envelope = Envelope(records: seq<Record>, filtered: nat, nextCursor: Option<string>, hasMore: bool, page: nat, total: nat)

  function KeyOf(k: Keyed): string { k.key }

  function Plain(keyed: seq<Keyed>): (r: seq<Record>)
    ensures |r| == |keyed|
  {
    if keyed == [] then [] else Plain(keyed[..|keyed| - 1]) + [keyed[|keyed| - 1].record]
  }

  function Size(total: nat, pageSize: Option<int>): Positive
  {
    Max(1, if pageSize.Some? then pageSize.value else if total > 0 then total else 1)
  }

  function PageNumber(page: Option<int>): Positive { Max(1, if page.Some? then page.value else 1) }

  function StartIndex(page: Option<int>, size: Positive): int { if page.None? then 0 else (PageNumber(page) - 1) * size }

  function Shown(keyed: seq<Keyed>, pageSize: Option<int>, page: Option<int>, cursor: Option<string>): Pagination.Page<Keyed>
  {
    var size := Size(|keyed|, pageSize);
    Pagination.PageOf(keyed, KeyOf, size, StartIndex(page, size), cursor)
  }

  function Wrap(v: View, shown: Pagination.Page<Keyed>, page: nat, total: nat): Envelope
  {
    Envelope(Render(v, Plain(shown.items)), Total(v, Plain(shown.items)), shown.nextCursor, shown.hasMore, page, total)
  }

  function Export(v: View, keyed: seq<Keyed>, pageSize: Option<int>, page: Option<int>, cursor: Option<string>): Envelope
  {
    Wrap(v, Shown(keyed, pageSize, page, cursor), PageNumber(page), |keyed|)
  }

  function ViewOf(req: Request, sources: seq<Source>, redact: Record -> Record): View { View(PolicyOf(req, sources), redact) }

  /** A refusal, or the envelope of the page asked for. */
  function ExportRecords(
    req: Request, sources: seq<Source>, quota: Option<string>, redact: Record -> Record, base: Digester,
    pageSize: Option<int>, page: Option<int>, cursor: Option<string>): Result<Envelope, string>
  {
    var refusal := Gate(req, sources, quota);
    if refusal.Some? then Err(refusal.value)
    else Ok(Export(ViewOf(req, sources, redact), Keys(Collected(req, sources), base), pageSize, page, cursor))
  }

  // ---------------------------------------------------------------- all pages of an export

  /** The envelopes of pages, in order. */
  function Deliver(v: View, pages: seq<Pagination.Page<Keyed>>, total: nat): (es: seq<Envelope>)
    ensures |es| == |pages|
  {
    if pages == [] then [] else Deliver(v, pages[..|pages| - 1], total) + [Wrap(v, pages[|pages| - 1], 1, total)]
  }

  function Sizes(total: nat, sizes: seq<Option<int>>): (r: seq<int>)
    ensures |r| == |sizes| && forall i | 0 <= i < |r| :: r[i] == Size(total, sizes[i])
  {
    seq(|sizes|, i requires 0 <= i < |sizes| => Size(total, sizes[i]))
  }

  lemma {:induction false} DeliverAt(v: View, pages: seq<Pagination.Page<Keyed>>, total: nat, i: nat)
    requires i < |pages|
    ensures Deliver(v, pages, total)[i] == Wrap(v, pages[i], 1, total)
    decreases |pages|
  {
    if i < |pages| - 1 { DeliverAt(v, pages[..|pages| - 1], total, i); }
  }

  lemma ExportIs(v: View, keyed: seq<Keyed>, pageSize: Option<int>, cursor: Option<string>)
    ensures Export(v, keyed, pageSize, None, cursor) ==
            Wrap(v, Pagination.PageOf(keyed, KeyOf, Size(|keyed|, pageSize), 0, cursor), 1, |keyed|)
  {
  }

  /** Walking the rows by cursor is asking for export after export, each with the cursor of the one before. */
  lemma DeliveredByExports(v: View, keyed: seq<Keyed>, sizes: seq<Option<int>>, pages: seq<Pagination.Page<Keyed>>, i: nat)
    requires Pagination.SomePages(keyed, KeyOf, Sizes(|keyed|, sizes), pages) && i < |pages|
    ensures var es := Deliver(v, pages, |keyed|);
      && es[i] == Export(v, keyed, sizes[i], None, if i == 0 then None else es[i - 1].nextCursor)
      && (i > 0 ==> es[i - 1].nextCursor.Some?)
  {
    assert Pagination.Link(keyed, KeyOf, Sizes(|keyed|, sizes), pages, i);
    DeliverAt(v, pages, |keyed|, i);
    if i > 0 { DeliverAt(v, pages, |keyed|, i - 1); }
    ExportIs(v, keyed, sizes[i], if i == 0 then None else pages[i - 1].nextCursor);
  }

  function Together(es: seq<Envelope>): seq<Record>
  {
    if es == [] then [] else Together(es[..|es| - 1]) + es[|es| - 1].records
  }

  function FilteredTogether(es: seq<Envelope>): nat
  {
    if es == [] then 0 else FilteredTogether(es[..|es| - 1]) + es[|es| - 1].filtered
  }

  lemma {:induction false} PlainConcat(a: seq<Keyed>, b: seq<Keyed>)
    ensures Plain(a + b) == Plain(a) + Plain(b)
  {
    if b == [] {
      assert a + b == a;
    } else {
      var n := |b| - 1;
      PlainConcat(a, b[..n]);
      assert (a + b)[..|a + b| - 1] == a + b[..n] && (a + b)[|a + b| - 1] == b[n];
    }
  }

  lemma PushEnvelope(es: seq<Envelope>, e: Envelope)
    ensures Together(es + [e]) == Together(es) + e.records && FilteredTogether(es + [e]) == FilteredTogether(es) + e.filtered
  {
    assert (es + [e])[..|es|] == es;
  }

  /** Rows shown together with a page's rows. */
  lemma ShowPage(v: View, rows: seq<Keyed>, more: seq<Keyed>)
    ensures Render(v, Plain(rows + more)) == Render(v, Plain(rows)) + Render(v, Plain(more))
    ensures Total(v, Plain(rows + more)) == Total(v, Plain(rows)) + Total(v, Plain(more))
  {
    PlainConcat(rows, more);
    RenderConcat(v, Plain(rows), Plain(more));
  }

  /** The envelopes together show the rows behind them together. */
  lemma {:induction false} TogetherShows(v: View, pages: seq<Pagination.Page<Keyed>>, total: nat)
    ensures Together(Deliver(v, pages, total)) == Render(v, Plain(Pagination.Together(pages)))
    ensures FilteredTogether(Deliver(v, pages, total)) == Total(v, Plain(Pagination.Together(pages)))
  {
    if pages != [] {
      var n := |pages| - 1;
      TogetherShows(v, pages[..n], total);
      PushEnvelope(Deliver(v, pages[..n], total), Wrap(v, pages[n], 1, total));
      ShowPage(v, Pagination.Together(pages[..n]), pages[n].items);
    }
  }

  lemma UnpagedIsAll(v: View, keyed: seq<Keyed>)
    requires Pagination.DistinctKeys(keyed, KeyOf)
    ensures Export(v, keyed, None, None, None).records == Render(v, Plain(keyed))
    ensures Export(v, keyed, None, None, None).filtered == Total(v, Plain(keyed))
  {
    ExportIs(v, keyed, None, None);
    Pagination.PageCovers(keyed, KeyOf, Size(|keyed|, None), None, 0);
    assert keyed[0..|keyed|] == keyed;
  }

  lemma DistinctCursorKeys(records: seq<Record>, base: Digester)
    requires FixedWidth(base)
    ensures Pagination.DistinctKeys(Keys(records, base), KeyOf)
  {
    var keyed := Keys(records, base);
    forall i, j | 0 <= i < |keyed| && 0 <= j < |keyed| ensures Pagination.DistinctAt(keyed, KeyOf, i, j) {
      if i < j { KeysDistinct(records, base, i, j); } else if j < i { KeysDistinct(records, base, j, i); }
    }
  }

  lemma {:induction false} PlainKeys(keyed: seq<Keyed>, records: seq<Record>)
    requires |keyed| == |records| && forall i | 0 <= i < |keyed| :: keyed[i].record == records[i]
    ensures Plain(keyed) == records
  {
    if keyed != [] {
      var n := |keyed| - 1;
      PlainKeys(keyed[..n], records[..n]);
      assert records == records[..n] + [records[n]];
    }
  }

  /** The pages' envelopes and the unpaged export both hold these records and withheld this many fields. */
  ghost predicate Holds(v: View, keyed: seq<Keyed>, pages: seq<Pagination.Page<Keyed>>, shown: seq<Record>, withheld: nat)
  {
    && Together(Deliver(v, pages, |keyed|)) == shown && FilteredTogether(Deliver(v, pages, |keyed|)) == withheld
    && Export(v, keyed, None, None, None).records == shown && Export(v, keyed, None, None, None).filtered == withheld
  }

  lemma PagesOfKeyed(v: View, keyed: seq<Keyed>, sizes: seq<int>, pages: seq<Pagination.Page<Keyed>>)
    requires Pagination.DistinctKeys(keyed, KeyOf) && Pagination.AllPages(keyed, KeyOf, sizes, pages)
    ensures Holds(v, keyed, pages, Render(v, Plain(keyed)), Total(v, Plain(keyed)))
  {
    UnpagedIsAll(v, keyed);
    Pagination.PagesAreAll(keyed, KeyOf, sizes, pages);
    TogetherShows(v, pages, |keyed|);
  }

  lemma KeyedRecords(records: seq<Record>, base: Digester)
    ensures |Keys(records, base)| == |records| && Plain(Keys(records, base)) == records
  {
    PlainKeys(Keys(records, base), records);
  }

  /** All cursor pages, of whatever sizes, are together the one unpaged export: every record once, in order. */
  lemma PagesAreTheWhole(v: View, records: seq<Record>, base: Digester, sizes: seq<int>, pages: seq<Pagination.Page<Keyed>>)
    requires FixedWidth(base) && Pagination.AllPages(Keys(records, base), KeyOf, sizes, pages)
    ensures Holds(v, Keys(records, base), pages, Render(v, records), Total(v, records))
  {
    DistinctCursorKeys(records, base);
    PagesOfKeyed(v, Keys(records, base), sizes, pages);
    KeyedRecords(records, base);
  }
}
