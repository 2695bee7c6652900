/** Opaque cursors and cursor pagination: what a cursor resumes at, and walks over data that changes between pages. */
module Pagination {
  import opened Prelude
  import opened Decimal
  import PercentCoding

  // ---------------------------------------------------------------- cursors

  const PREFIX := "utix1:"

  function EncodeCursor(key: string, offset: int): string
  {
    PREFIX + Digits(Max(0, offset)) + ":" + PercentCoding.Encode(key)
  }

  datatype Anchor = Anchor(key: string, offset: nat)

  predicate OneLine(s: string)
  {
    forall i | 0 <= i < |s| :: s[i] != '\n' && s[i] != '\r' && s[i] != '\U{2028}' && s[i] != '\U{2029}'
  }

  /** The numeral and the encoded key of a well-formed cursor. */
  function Parts(cursor: string): Option<(string, string)>
  {
    if !(PREFIX <= cursor) then None else
      var rest := cursor[|PREFIX|..];
      var n := DigitRun(rest);
      if n == 0 || n == |rest| || rest[n] != ':' || n + 1 == |rest| || !OneLine(rest[n + 1..]) then None
      else Some((rest[..n], rest[n + 1..]))
  }

  function DecodeCursor(cursor: Option<string>): Option<Anchor>
  {
    if cursor.None? || Parts(cursor.value).None? then None else
      var (digits, text) := Parts(cursor.value).value;
      var key := PercentCoding.Decode(text);
      if key.None? || key.value == [] || !AllDigits(digits) then None else Some(Anchor(key.value, Value(digits)))
  }

  lemma EncodedOneLine(key: string)
    ensures OneLine(PercentCoding.Encode(key)) && (key != [] ==> PercentCoding.Encode(key) != [])
  {
    var text := PercentCoding.Encode(key);
    PercentCoding.EncodedAlphabet(key);
    assert forall i | 0 <= i < |text| :: text[i] != '\n' && text[i] != '\r' && text[i] < '\U{0080}';
  }

  lemma PartsOfCursor(key: string, offset: int)
    requires key != []
    ensures Parts(EncodeCursor(key, offset)) == Some((Digits(Max(0, offset)), PercentCoding.Encode(key)))
  {
    var digits, text := Digits(Max(0, offset)), PercentCoding.Encode(key);
    var rest := digits + (":" + text);
    assert EncodeCursor(key, offset) == PREFIX + rest;
    DigitRunStops(digits, ":" + text);
    EncodedOneLine(key);
    assert rest[|digits| + 1..] == text && rest[..|digits|] == digits;
  }

  /** A cursor gives back its key and offset exactly when the key is not empty; otherwise it reads as no cursor. */
  lemma CursorRoundTrip(key: string, offset: int)
    ensures DecodeCursor(Some(EncodeCursor(key, offset))) == if key == [] then None else Some(Anchor(key, Max(0, offset)))
  {
    if key == [] {
      var digits := Digits(Max(0, offset));
      assert EncodeCursor(key, offset) == PREFIX + (digits + ":");
      DigitRunStops(digits, ":");
    } else {
      PartsOfCursor(key, offset);
      PercentCoding.RoundTrip(key);
    }
  }

  /** Different rows never share a cursor. */
  lemma CursorInjective(k: string, m: int, l: string, n: int)
    requires k != [] && EncodeCursor(k, m) == EncodeCursor(l, n)
    ensures k == l && Max(0, m) == Max(0, n)
  {
    CursorRoundTrip(k, m);
    CursorRoundTrip(l, n);
  }

  // ---------------------------------------------------------------- one page

  datatype Options<!T> = Options(
    pageSize: int, key: T -> string, cursor: Option<string>, startIndex: int, compare: Option<(string, string) -> int>)

  datatype Page<T> = Page(items: seq<T>, nextCursor: Option<string>, hasMore: bool)

  function Filter<T>(items: seq<T>, keep: T -> bool): seq<T>
  {
    if items == [] then [] else (if keep(items[0]) then [items[0]] else []) + Filter(items[1..], keep)
  }

  /** The first index at which `p` holds, or the length if nowhere. */
  function FindIndex<T>(items: seq<T>, p: T -> bool): (i: nat)
    ensures i <= |items| && (i < |items| ==> p(items[i])) && forall j | 0 <= j < i :: !p(items[j])
  {
    if items == [] || p(items[0]) then 0 else FindIndex(items[1..], p) + 1
  }

  function Min(a: int, b: int): int { if a < b then a else b }

  function BoundedStart(n: nat, start: int): (r: nat)
    ensures r <= n
  {
    Min(n, Max(0, start))
  }

  function Start<T>(items: seq<T>, o: Options<T>): (r: nat)
    ensures r <= |items|
  {
    var anchor := DecodeCursor(o.cursor);
    if anchor.None? then BoundedStart(|items|, o.startIndex)
    else
      var at := FindIndex(items, x => o.key(x) == anchor.value.key);
      if at < |items| then at + 1
      else if o.compare.Some? then FindIndex(items, x => o.compare.value(o.key(x), anchor.value.key) > 0)
      else BoundedStart(|items|, anchor.value.offset)
  }

  function PageFrom<T>(items: seq<T>, start: nat, size: Positive, key: T -> string): Page<T>
    requires start <= |items|
  {
    var end := Min(start + size, |items|);
    var shown := items[start..end];
    Page(shown, if end < |items| && shown != [] then Some(EncodeCursor(key(items[end - 1]), end - 1)) else None, end < |items|)
  }

  function PageSize(n: int): Positive { Max(1, n) }

  function Paginate<T>(all: seq<T>, visible: T -> bool, o: Options<T>): Page<T>
  {
    var items := Filter(all, visible);
    PageFrom(items, Start(items, o), PageSize(o.pageSize), o.key)
  }

  // ---------------------------------------------------------------- what a page is, in terms of keys alone

  predicate Above(cmp: (string, string) -> int, a: string, b: string) { cmp(a, b) > 0 }

  /** The laws of a strict total order, at three keys. */
  predicate OrdersAt(cmp: (string, string) -> int, a: string, b: string, c: string)
  {
    && !Above(cmp, a, a) && (Above(cmp, a, b) && Above(cmp, b, c) ==> Above(cmp, a, c))
    && (a != b ==> Above(cmp, a, b) || Above(cmp, b, a))
  }

  /** `compareKeys` orders all keys strictly. */
  ghost predicate Orders(cmp: (string, string) -> int) { forall a, b, c :: OrdersAt(cmp, a, b, c) }

  predicate Steps<T>(items: seq<T>, key: T -> string, cmp: (string, string) -> int, i: nat, j: nat)
    requires i < j < |items|
  {
    Above(cmp, key(items[j]), key(items[i]))
  }

  /** Rows in ascending key order, no key twice. */
  ghost predicate Ascending<T>(items: seq<T>, key: T -> string, cmp: (string, string) -> int)
  {
    forall i, j | 0 <= i < j < |items| :: Steps(items, key, cmp, i, j)
  }

  /** The rows ordered after the last key seen; all of them before anything was seen. */
  function Later<T>(items: seq<T>, key: T -> string, cmp: (string, string) -> int, last: Option<string>): seq<T>
  {
    if last.None? then items else Filter(items, x => Above(cmp, key(x), last.value))
  }

  lemma {:induction false} FilterSplit<T>(items: seq<T>, p: T -> bool, at: nat)
    requires at <= |items| && (forall i | 0 <= i < at :: !p(items[i])) && forall i | at <= i < |items| :: p(items[i])
    ensures Filter(items, p) == items[at..]
  {
    if items != [] {
      if at == 0 {
        FilterSplit(items[1..], p, 0);
        assert items == [items[0]] + items[1..];
      } else {
        FilterSplit(items[1..], p, at - 1);
      }
    }
  }

  lemma {:induction false} FilterMembers<T(!new)>(items: seq<T>, p: T -> bool)
    ensures forall x :: x in Filter(items, p) <==> x in items && p(x)
  {
    if items != [] {
      FilterMembers(items[1..], p);
      assert items == [items[0]] + items[1..];
    }
  }

  lemma AscendingTail<T>(items: seq<T>, key: T -> string, cmp: (string, string) -> int)
    requires items != [] && Ascending(items, key, cmp)
    ensures Ascending(items[1..], key, cmp)
  {
    forall i, j | 0 <= i < j < |items[1..]| ensures Steps(items[1..], key, cmp, i, j) { assert Steps(items, key, cmp, i + 1, j + 1); }
  }

  lemma AscendingPush<T>(x: T, rest: seq<T>, key: T -> string, cmp: (string, string) -> int)
    requires Ascending(rest, key, cmp) && forall j | 0 <= j < |rest| :: Above(cmp, key(rest[j]), key(x))
    ensures Ascending([x] + rest, key, cmp)
  {
    forall i, j | 0 <= i < j < |[x] + rest| ensures Steps([x] + rest, key, cmp, i, j) {
      if i > 0 { assert Steps(rest, key, cmp, i - 1, j - 1); }
    }
  }

  lemma AscendingPrefix<T>(items: seq<T>, key: T -> string, cmp: (string, string) -> int, n: nat)
    requires n <= |items| && Ascending(items, key, cmp)
    ensures Ascending(items[..n], key, cmp)
  {
    forall i, j | 0 <= i < j < n ensures Steps(items[..n], key, cmp, i, j) { assert Steps(items, key, cmp, i, j); }
  }

  lemma {:induction false} FilterAscending<T(!new)>(items: seq<T>, p: T -> bool, key: T -> string, cmp: (string, string) -> int)
    requires Ascending(items, key, cmp)
    ensures Ascending(Filter(items, p), key, cmp)
  {
    if items != [] {
      var rest := Filter(items[1..], p);
      AscendingTail(items, key, cmp);
      FilterAscending(items[1..], p, key, cmp);
      FilterMembers(items[1..], p);
      forall j | 0 <= j < |rest| ensures Above(cmp, key(rest[j]), key(items[0])) {
        assert rest[j] in rest && rest[j] in items[1..];
        var i :| 0 <= i < |items[1..]| && items[1..][i] == rest[j];
        assert Steps(items, key, cmp, 0, i + 1);
      }
      AscendingPush(items[0], rest, key, cmp);
      assert [] + rest == rest;
    }
  }

  /** Rows past the anchor's own row are after it, rows up to it are not. */
  lemma AnchorStands<T>(items: seq<T>, key: T -> string, cmp: (string, string) -> int, at: nat, i: nat)
    requires Orders(cmp) && Ascending(items, key, cmp) && at < |items| && i < |items|
    ensures Above(cmp, key(items[i]), key(items[at])) <==> i > at
  {
    var a, b := key(items[i]), key(items[at]);
    assert OrdersAt(cmp, a, b, a) && OrdersAt(cmp, b, a, b);
    if i < at { assert Steps(items, key, cmp, i, at); }
    if i > at { assert Steps(items, key, cmp, at, i); }
  }

  /** Rows past the first one after the key are after it too. */
  lemma LaterStays<T>(items: seq<T>, key: T -> string, cmp: (string, string) -> int, last: string, start: nat, i: nat)
    requires Orders(cmp) && Ascending(items, key, cmp) && start <= i < |items| && Above(cmp, key(items[start]), last)
    ensures Above(cmp, key(items[i]), last)
  {
    if start < i { assert Steps(items, key, cmp, start, i); }
    assert OrdersAt(cmp, key(items[i]), key(items[start]), last);
  }

  /** The place a cursor on `last` resumes at divides the rows into those after its key and the rest. */
  lemma StartDivides<T>(items: seq<T>, o: Options<T>, last: string, i: nat)
    requires o.compare.Some? && Orders(o.compare.value) && Ascending(items, o.key, o.compare.value) && i < |items|
    requires DecodeCursor(o.cursor).Some? && DecodeCursor(o.cursor).value.key == last
    ensures Above(o.compare.value, o.key(items[i]), last) <==> Start(items, o) <= i
  {
    var cmp, start := o.compare.value, Start(items, o);
    var at := FindIndex(items, x => o.key(x) == last);
    if at < |items| {
      AnchorStands(items, o.key, cmp, at, i);
    } else if start <= i {
      LaterStays(items, o.key, cmp, last, start, i);
    }
  }

  /** Where a cursor resumes: at the first row after its key, whether or not that row still exists. */
  lemma ResumesAfterKey<T>(items: seq<T>, o: Options<T>, last: string, offset: int)
    requires o.compare.Some? && Orders(o.compare.value) && Ascending(items, o.key, o.compare.value)
    requires last != [] && o.cursor == Some(EncodeCursor(last, offset))
    ensures items[Start(items, o)..] == Later(items, o.key, o.compare.value, Some(last))
  {
    CursorRoundTrip(last, offset);
    forall i | 0 <= i < |items| ensures Above(o.compare.value, o.key(items[i]), last) <==> Start(items, o) <= i {
      StartDivides(items, o, last, i);
    }
    FilterSplit(items, x => Above(o.compare.value, o.key(x), last), Start(items, o));
  }

  /** The first rows of what remains, with a cursor on the last one shown exactly when more follow. */
  ghost predicate IsPage<T>(page: Page<T>, rows: seq<T>, size: Positive, key: T -> string, next: int)
  {
    && page.items == rows[..Min(size, |rows|)] && page.hasMore == (|rows| > size) == page.nextCursor.Some?
    && (page.hasMore ==> page.nextCursor == Some(EncodeCursor(key(rows[size - 1]), next)))
  }

  lemma PageFromIsPage<T>(items: seq<T>, start: nat, size: Positive, key: T -> string)
    requires start <= |items|
    ensures IsPage(PageFrom(items, start, size, key), items[start..], size, key, start + size - 1)
  {
    var end := Min(start + size, |items|);
    assert items[start..end] == items[start..][..end - start];
    if end < |items| { assert items[start..][size - 1] == items[end - 1]; }
  }

  /** The options resume after the last key seen, or start at the first row. */
  ghost predicate Resumes<T>(o: Options<T>, last: Option<string>, offset: int)
  {
    match last
    case None => o.cursor == None && o.startIndex == 0
    case Some(k) => k != [] && o.cursor == Some(EncodeCursor(k, offset))
  }

  lemma StartIsLater<T>(items: seq<T>, o: Options<T>, last: Option<string>, offset: int)
    requires o.compare.Some? && Orders(o.compare.value) && Ascending(items, o.key, o.compare.value) && Resumes(o, last, offset)
    ensures items[Start(items, o)..] == Later(items, o.key, o.compare.value, last)
  {
    if last.Some? { ResumesAfterKey(items, o, last.value, offset); }
  }

  lemma PageAfterKey<T>(items: seq<T>, o: Options<T>, last: Option<string>, offset: int)
    requires o.compare.Some? && Orders(o.compare.value) && Ascending(items, o.key, o.compare.value) && Resumes(o, last, offset)
    ensures IsPage(PageFrom(items, Start(items, o), PageSize(o.pageSize), o.key), Later(items, o.key, o.compare.value, last),
                   PageSize(o.pageSize), o.key, Start(items, o) + PageSize(o.pageSize) - 1)
  {
    StartIsLater(items, o, last, offset);
    PageFromIsPage(items, Start(items, o), PageSize(o.pageSize), o.key);
  }

  /** A page is the first rows after the last key seen, and there is more exactly when rows remain. */
  lemma PageIsNext<T(!new)>(all: seq<T>, visible: T -> bool, o: Options<T>, last: Option<string>, offset: int) returns (next: int)
    requires o.compare.Some? && Orders(o.compare.value) && Ascending(all, o.key, o.compare.value) && Resumes(o, last, offset)
    ensures IsPage(Paginate(all, visible, o), Later(Filter(all, visible), o.key, o.compare.value, last), PageSize(o.pageSize), o.key, next)
    ensures Ascending(Filter(all, visible), o.key, o.compare.value)
  {
    var items := Filter(all, visible);
    FilterAscending(all, visible, o.key, o.compare.value);
    PageAfterKey(items, o, last, offset);
    next := Start(items, o) + PageSize(o.pageSize) - 1;
  }

  // ---------------------------------------------------------------- walks over changing data

  /** What one request sees: the data as it is then, what the caller may see then, and the page size asked for. */
  datatype Request<!T> = Request(all: seq<T>, visible: T -> bool, pageSize: int)

  function Ask<T>(r: Request<T>, key: T -> string, cmp: (string, string) -> int, cursor: Option<string>): Page<T>
  {
    Paginate(r.all, r.visible, Options(r.pageSize, key, cursor, 0, Some(cmp)))
  }

  /** Request `i` follows the cursor of the page before, which has one. */
  ghost predicate Turn<T>(reqs: seq<Request<T>>, pages: seq<Page<T>>, key: T -> string, cmp: (string, string) -> int, i: nat)
    requires i < |reqs| == |pages|
  {
    && (i > 0 ==> pages[i - 1].nextCursor.Some?)
    && pages[i] == Ask(reqs[i], key, cmp, if i == 0 then None else pages[i - 1].nextCursor)
  }

  ghost predicate Walk<T>(reqs: seq<Request<T>>, pages: seq<Page<T>>, key: T -> string, cmp: (string, string) -> int)
  {
    |pages| == |reqs| && forall i | 0 <= i < |reqs| :: Turn(reqs, pages, key, cmp, i)
  }

  /** Sorted by unique, non-empty keys. */
  ghost predicate GoodRows<T>(items: seq<T>, key: T -> string, cmp: (string, string) -> int)
  {
    Ascending(items, key, cmp) && forall x | x in items :: key(x) != []
  }

  /** Every snapshot is sorted by unique, non-empty keys. */
  ghost predicate GoodData<T>(reqs: seq<Request<T>>, key: T -> string, cmp: (string, string) -> int)
  {
    Orders(cmp) && forall r | r in reqs :: GoodRows(r.all, key, cmp)
  }

  function Seen<T>(r: Request<T>): seq<T> { Filter(r.all, r.visible) }

  /** The key of the last row shown. */
  function LastKey<T>(page: Page<T>, key: T -> string): Option<string>
  {
    if page.items == [] then None else Some(key(page.items[|page.items| - 1]))
  }

  /** The key page `i` resumes after. */
  ghost function Last<T>(pages: seq<Page<T>>, key: T -> string, i: nat): Option<string>
    requires i <= |pages|
  {
    if i == 0 then None else LastKey(pages[i - 1], key)
  }

  /** What request `i` sees after the last key of the page before. */
  ghost function Rows<T>(reqs: seq<Request<T>>, pages: seq<Page<T>>, key: T -> string, cmp: (string, string) -> int, i: nat): seq<T>
    requires i < |reqs| == |pages|
  {
    Later(Seen(reqs[i]), key, cmp, Last(pages, key, i))
  }

  lemma RowsHaveKeys<T(!new)>(r: Request<T>, key: T -> string, cmp: (string, string) -> int, last: Option<string>)
    requires forall x | x in r.all :: key(x) != []
    ensures forall x | x in Later(Seen(r), key, cmp, last) :: key(x) != []
  {
    FilterMembers(r.all, r.visible);
    if last.Some? { FilterMembers(Seen(r), x => Above(cmp, key(x), last.value)); }
  }

  /** A page with more to come ends in a row whose key the next cursor carries. */
  lemma CursorOfPage<T>(page: Page<T>, rows: seq<T>, size: Positive, key: T -> string, next: int)
    requires IsPage(page, rows, size, key, next) && page.nextCursor.Some? && forall x | x in rows :: key(x) != []
    ensures LastKey(page, key) == Some(key(rows[size - 1])) && key(rows[size - 1]) != []
    ensures page.nextCursor == Some(EncodeCursor(key(rows[size - 1]), next))
  {
    assert rows[size - 1] in rows;
  }

  /** Page `i` is the first rows its request sees after the last key of the page before. */
  lemma {:induction false} EachFollows<T(!new)>(
    reqs: seq<Request<T>>, pages: seq<Page<T>>, key: T -> string, cmp: (string, string) -> int, i: nat) returns (next: int)
    requires GoodData(reqs, key, cmp) && Walk(reqs, pages, key, cmp) && i < |reqs|
    ensures IsPage(pages[i], Rows(reqs, pages, key, cmp, i), PageSize(reqs[i].pageSize), key, next)
    ensures Ascending(Seen(reqs[i]), key, cmp)
    decreases i
  {
    var r := reqs[i];
    assert Turn(reqs, pages, key, cmp, i) && GoodRows(r.all, key, cmp);
    if i == 0 {
      next := PageIsNext(r.all, r.visible, Options(r.pageSize, key, None, 0, Some(cmp)), None, 0);
    } else {
      var before := EachFollows(reqs, pages, key, cmp, i - 1);
      assert GoodRows(reqs[i - 1].all, key, cmp);
      RowsHaveKeys(reqs[i - 1], key, cmp, Last(pages, key, i - 1));
      CursorOfPage(pages[i - 1], Rows(reqs, pages, key, cmp, i - 1), PageSize(reqs[i - 1].pageSize), key, before);
      next := PageIsNext(r.all, r.visible, Options(r.pageSize, key, pages[i - 1].nextCursor, 0, Some(cmp)), Last(pages, key, i), before);
    }
  }

  lemma LaterRows<T(!new)>(items: seq<T>, key: T -> string, cmp: (string, string) -> int, last: Option<string>)
    requires Ascending(items, key, cmp)
    ensures Ascending(Later(items, key, cmp, last), key, cmp)
    ensures forall x | x in Later(items, key, cmp, last) :: x in items && (last.Some? ==> Above(cmp, key(x), last.value))
  {
    if last.Some? {
      FilterMembers(items, x => Above(cmp, key(x), last.value));
      FilterAscending(items, x => Above(cmp, key(x), last.value), key, cmp);
    }
  }

  lemma PageShows<T(!new)>(page: Page<T>, rows: seq<T>, size: Positive, key: T -> string, cmp: (string, string) -> int, next: int)
    requires IsPage(page, rows, size, key, next) && Ascending(rows, key, cmp)
    ensures Ascending(page.items, key, cmp) && forall x | x in page.items :: x in rows
  {
    AscendingPrefix(rows, key, cmp, |page.items|);
  }

  /** The rows a page shows are ones its request sees, in ascending order, all after the key it resumed at. */
  lemma PageRows<T(!new)>(reqs: seq<Request<T>>, pages: seq<Page<T>>, key: T -> string, cmp: (string, string) -> int, i: nat)
    requires GoodData(reqs, key, cmp) && Walk(reqs, pages, key, cmp) && i < |reqs|
    ensures Ascending(pages[i].items, key, cmp)
    ensures forall x | x in pages[i].items :: x in Seen(reqs[i])
    ensures forall x, last | x in pages[i].items && Last(pages, key, i) == Some(last) :: Above(cmp, key(x), last)
    ensures i > 0 ==> Last(pages, key, i).Some?
  {
    var next := EachFollows(reqs, pages, key, cmp, i);
    LaterRows(Seen(reqs[i]), key, cmp, Last(pages, key, i));
    PageShows(pages[i], Rows(reqs, pages, key, cmp, i), PageSize(reqs[i].pageSize), key, cmp, next);
    if i > 0 {
      assert Turn(reqs, pages, key, cmp, i);
      var _ := EachFollows(reqs, pages, key, cmp, i - 1);
    }
  }

  lemma LastIsHighest<T(!new)>(page: Page<T>, key: T -> string, cmp: (string, string) -> int, y: T)
    requires Ascending(page.items, key, cmp) && y in page.items
    ensures LastKey(page, key).Some? && (LastKey(page, key).value == key(y) || Above(cmp, LastKey(page, key).value, key(y)))
  {
    var j :| 0 <= j < |page.items| && page.items[j] == y;
    if j < |page.items| - 1 { assert Steps(page.items, key, cmp, j, |page.items| - 1); }
  }

  /** No row is returned twice: every row of a later page is ordered after every row of an earlier one. */
  lemma {:induction false} NoRepeats<T(!new)>(
    reqs: seq<Request<T>>, pages: seq<Page<T>>, key: T -> string, cmp: (string, string) -> int, i: nat, j: nat, y: T, x: T)
    requires GoodData(reqs, key, cmp) && Walk(reqs, pages, key, cmp) && i < j < |reqs| && y in pages[i].items && x in pages[j].items
    ensures Above(cmp, key(x), key(y)) && key(x) != key(y)
    decreases j
  {
    PageRows(reqs, pages, key, cmp, j);
    PageRows(reqs, pages, key, cmp, j - 1);
    var last := pages[j - 1].items[|pages[j - 1].items| - 1];
    assert Above(cmp, key(x), key(last));
    assert OrdersAt(cmp, key(x), key(last), key(y)) && OrdersAt(cmp, key(x), key(y), key(y));
    if i == j - 1 {
      LastIsHighest(pages[i], key, cmp, y);
    } else {
      NoRepeats(reqs, pages, key, cmp, i, j - 1, y, last);
    }
  }

  ghost predicate Shown<T>(page: Page<T>, key: T -> string, k: string) { exists x | x in page.items :: key(x) == k }

  /** The request sees a row with the key. */
  ghost predicate Sees<T>(r: Request<T>, key: T -> string, k: string) { exists x | x in Seen(r) :: key(x) == k }

  /** A row that a page could show and did not is ordered after all it shows, and more is to come. */
  lemma NotYet<T(!new)>(page: Page<T>, rows: seq<T>, size: Positive, key: T -> string, cmp: (string, string) -> int, next: int, x: T)
    requires IsPage(page, rows, size, key, next) && Ascending(rows, key, cmp) && x in rows && x !in page.items
    ensures page.hasMore && LastKey(page, key).Some? && Above(cmp, key(x), LastKey(page, key).value)
  {
    var j :| 0 <= j < |rows| && rows[j] == x;
    assert forall n | 0 <= n < Min(size, |rows|) :: rows[n] == page.items[n] && page.items[n] in page.items;
    assert Steps(rows, key, cmp, size - 1, j);
  }

  /** A key every request sees, and no page so far showed, lies ahead of the walk. */
  lemma {:induction false} StillAhead<T(!new)>(
    reqs: seq<Request<T>>, pages: seq<Page<T>>, key: T -> string, cmp: (string, string) -> int, k: string, i: nat)
    requires GoodData(reqs, key, cmp) && Walk(reqs, pages, key, cmp) && i < |reqs|
    requires forall r | r in reqs :: Sees(r, key, k)
    requires forall j | 0 <= j <= i :: !Shown(pages[j], key, k)
    ensures pages[i].hasMore && LastKey(pages[i], key).Some? && Above(cmp, k, LastKey(pages[i], key).value)
    decreases i
  {
    assert Sees(reqs[i], key, k);
    var x :| x in Seen(reqs[i]) && key(x) == k;
    var next := EachFollows(reqs, pages, key, cmp, i);
    var last := Last(pages, key, i);
    if i > 0 { StillAhead(reqs, pages, key, cmp, k, i - 1); }
    LaterRows(Seen(reqs[i]), key, cmp, last);
    if last.Some? { FilterMembers(Seen(reqs[i]), y => Above(cmp, key(y), last.value)); }
    assert !Shown(pages[i], key, k);
    NotYet(pages[i], Rows(reqs, pages, key, cmp, i), PageSize(reqs[i].pageSize), key, cmp, next, x);
  }

  /** When a walk ends, every key that all its requests could see was returned. */
  lemma NothingSkipped<T(!new)>(
    reqs: seq<Request<T>>, pages: seq<Page<T>>, key: T -> string, cmp: (string, string) -> int, k: string) returns (i: nat)
    requires GoodData(reqs, key, cmp) && Walk(reqs, pages, key, cmp) && reqs != [] && !pages[|pages| - 1].hasMore
    requires forall r | r in reqs :: Sees(r, key, k)
    ensures i < |pages| && Shown(pages[i], key, k)
  {
    if forall j | 0 <= j <= |reqs| - 1 :: !Shown(pages[j], key, k) {
      StillAhead(reqs, pages, key, cmp, k, |reqs| - 1);
    }
    i :| 0 <= i < |pages| && Shown(pages[i], key, k);
  }

  /** A cursor on a row with an empty key is no cursor: the walk would start over. */
  lemma EmptyKeyRestarts<T>(r: Request<T>, key: T -> string, cmp: (string, string) -> int, offset: int)
    ensures Ask(r, key, cmp, Some(EncodeCursor([], offset))) == Ask(r, key, cmp, None)
  {
    CursorRoundTrip([], offset);
  }

  // ---------------------------------------------------------------- walks over data that does not change

  predicate DistinctAt<T>(items: seq<T>, key: T -> string, i: nat, j: nat)
    requires i < |items| && j < |items|
  {
    key(items[i]) != [] && (i != j ==> key(items[i]) != key(items[j]))
  }

  /** No key is empty and no two rows share one. */
  ghost predicate DistinctKeys<T>(items: seq<T>, key: T -> string)
  {
    forall i, j | 0 <= i < |items| && 0 <= j < |items| :: DistinctAt(items, key, i, j)
  }

  /** A page of all the rows, without an order on keys. */
  function PageOf<T>(items: seq<T>, key: T -> string, size: int, startIndex: int, cursor: Option<string>): Page<T>
  {
    Paginate(items, x => true, Options(size, key, cursor, startIndex, None))
  }

  /** The cursor that resumes at row `at`; none at the start and none at the end. */
  function CursorAt<T>(items: seq<T>, key: T -> string, at: nat): Option<string>
  {
    if 0 < at < |items| then Some(EncodeCursor(key(items[at - 1]), at - 1)) else None
  }

  /** A cursor on row `at - 1` resumes at row `at`. */
  lemma ResumesAt<T>(items: seq<T>, o: Options<T>, at: nat)
    requires DistinctKeys(items, o.key) && at <= |items| && (at == |items| ==> at == 0)
    requires o.cursor == CursorAt(items, o.key, at) && (at == 0 ==> o.startIndex == 0)
    ensures Start(items, o) == at
  {
    if at > 0 {
      var key := o.key(items[at - 1]);
      assert DistinctAt(items, o.key, at - 1, at - 1);
      CursorRoundTrip(key, at - 1);
      var found := FindIndex(items, x => o.key(x) == key);
      assert found <= at - 1;
      assert DistinctAt(items, o.key, found, at - 1);
    }
  }

  /** The page holds rows `at` to `to`, and its cursor resumes at `to`. */
  ghost predicate Covers<T>(page: Page<T>, items: seq<T>, key: T -> string, at: nat, to: nat)
  {
    at <= to <= |items| && page.items == items[at..to] && page.nextCursor == CursorAt(items, key, to) && page.hasMore == (to < |items|)
  }

  lemma PageFromCovers<T>(items: seq<T>, key: T -> string, size: Positive, at: nat)
    requires at <= |items| && (at == |items| ==> at == 0)
    ensures Covers(PageFrom(items, at, size, key), items, key, at, Min(at + size, |items|))
  {
  }

  lemma PageOfFrom<T>(items: seq<T>, key: T -> string, size: int, startIndex: int, cursor: Option<string>)
    ensures PageOf(items, key, size, startIndex, cursor) ==
            PageFrom(items, Start(items, Options(size, key, cursor, startIndex, None)), PageSize(size), key)
  {
    FilterSplit(items, x => true, 0);
    assert items[0..] == items;
  }

  lemma PageIsFrom<T>(items: seq<T>, key: T -> string, size: int, cursor: Option<string>, at: nat)
    requires DistinctKeys(items, key) && at <= |items| && (at == |items| ==> at == 0) && cursor == CursorAt(items, key, at)
    ensures PageOf(items, key, size, 0, cursor) == PageFrom(items, at, PageSize(size), key)
  {
    ResumesAt(items, Options(size, key, cursor, 0, None), at);
    PageOfFrom(items, key, size, 0, cursor);
  }

  lemma PageCovers<T>(items: seq<T>, key: T -> string, size: int, cursor: Option<string>, at: nat)
    requires DistinctKeys(items, key) && at <= |items| && (at == |items| ==> at == 0) && cursor == CursorAt(items, key, at)
    ensures Covers(PageOf(items, key, size, 0, cursor), items, key, at, Min(at + PageSize(size), |items|))
  {
    PageIsFrom(items, key, size, cursor, at);
    PageFromCovers(items, key, PageSize(size), at);
  }

  /** Where page `i` begins. */
  function Reach(n: nat, sizes: seq<int>, i: nat): (r: nat)
    requires i <= |sizes|
    ensures r <= n
  {
    if i == 0 then 0 else Min(Reach(n, sizes, i - 1) + PageSize(sizes[i - 1]), n)
  }

  /** Page `i` follows the cursor of the page before, which has one. */
  ghost predicate Link<T>(items: seq<T>, key: T -> string, sizes: seq<int>, pages: seq<Page<T>>, i: nat)
    requires i < |sizes| == |pages|
  {
    && (i > 0 ==> pages[i - 1].nextCursor.Some?)
    && pages[i] == PageOf(items, key, sizes[i], 0, if i == 0 then None else pages[i - 1].nextCursor)
  }

  /** Pages of the data, each of its own size, each following the one before. */
  ghost predicate SomePages<T>(items: seq<T>, key: T -> string, sizes: seq<int>, pages: seq<Page<T>>)
  {
    |pages| == |sizes| > 0 && forall i | 0 <= i < |sizes| :: Link(items, key, sizes, pages, i)
  }

  /** The pages followed to the end. */
  ghost predicate AllPages<T>(items: seq<T>, key: T -> string, sizes: seq<int>, pages: seq<Page<T>>)
  {
    SomePages(items, key, sizes, pages) && pages[|pages| - 1].nextCursor == None
  }

  lemma LinkCovers<T>(items: seq<T>, key: T -> string, sizes: seq<int>, pages: seq<Page<T>>, i: nat, at: nat)
    requires DistinctKeys(items, key) && i < |sizes| == |pages| && Link(items, key, sizes, pages, i) && at <= |items|
    requires if i == 0 then at == 0 else at > 0 && pages[i - 1].nextCursor == CursorAt(items, key, at)
    ensures Covers(pages[i], items, key, at, Min(at + PageSize(sizes[i]), |items|))
  {
    PageCovers(items, key, sizes[i], if i == 0 then None else pages[i - 1].nextCursor, at);
  }

  lemma {:induction false} PageAt<T>(items: seq<T>, key: T -> string, sizes: seq<int>, pages: seq<Page<T>>, i: nat)
    requires DistinctKeys(items, key) && SomePages(items, key, sizes, pages) && i < |sizes|
    ensures Covers(pages[i], items, key, Reach(|items|, sizes, i), Reach(|items|, sizes, i + 1))
  {
    assert Link(items, key, sizes, pages, i);
    if i > 0 { PageAt(items, key, sizes, pages, i - 1); }
    LinkCovers(items, key, sizes, pages, i, Reach(|items|, sizes, i));
  }

  function Together<T>(pages: seq<Page<T>>): seq<T>
  {
    if pages == [] then [] else Together(pages[..|pages| - 1]) + pages[|pages| - 1].items
  }

  lemma {:induction false} TogetherUpTo<T>(items: seq<T>, key: T -> string, sizes: seq<int>, pages: seq<Page<T>>, i: nat)
    requires DistinctKeys(items, key) && SomePages(items, key, sizes, pages) && i <= |sizes|
    ensures Together(pages[..i]) == items[..Reach(|items|, sizes, i)]
  {
    if i > 0 {
      var at, to := Reach(|items|, sizes, i - 1), Reach(|items|, sizes, i);
      TogetherUpTo(items, key, sizes, pages, i - 1);
      PageAt(items, key, sizes, pages, i - 1);
      assert pages[..i][..i - 1] == pages[..i - 1] && pages[..i][i - 1] == pages[i - 1];
      assert items[..to] == items[..at] + items[at..to];
    }
  }

  /** Followed to the end, the pages are together exactly the data, in order. */
  lemma PagesAreAll<T>(items: seq<T>, key: T -> string, sizes: seq<int>, pages: seq<Page<T>>)
    requires DistinctKeys(items, key) && AllPages(items, key, sizes, pages)
    ensures Together(pages) == items
  {
    PageAt(items, key, sizes, pages, |sizes| - 1);
    TogetherUpTo(items, key, sizes, pages, |sizes|);
    assert pages[..|sizes|] == pages && items[..|items|] == items;
  }

  lemma {:induction false} ReachPrefix(n: nat, sizes: seq<int>, more: seq<int>, i: nat)
    requires i <= |sizes|
    ensures Reach(n, sizes + more, i) == Reach(n, sizes, i)
  {
    if i > 0 { ReachPrefix(n, sizes, more, i - 1); }
  }

  lemma OneMorePage<T>(items: seq<T>, key: T -> string, sizes: seq<int>, pages: seq<Page<T>>, size: int)
    requires SomePages(items, key, sizes, pages) && pages[|pages| - 1].nextCursor.Some?
    ensures SomePages(items, key, sizes + [size], pages + [PageOf(items, key, size, 0, pages[|pages| - 1].nextCursor)])
  {
    var sizes', pages' := sizes + [size], pages + [PageOf(items, key, size, 0, pages[|pages| - 1].nextCursor)];
    forall i | 0 <= i < |sizes'| ensures Link(items, key, sizes', pages', i) {
      if i < |sizes| { assert Link(items, key, sizes, pages, i); }
    }
  }

  lemma MoreToGo<T>(items: seq<T>, key: T -> string, sizes: seq<int>, pages: seq<Page<T>>)
    requires DistinctKeys(items, key) && SomePages(items, key, sizes, pages) && pages[|pages| - 1].nextCursor.Some?
    ensures Reach(|items|, sizes, |sizes|) < |items|
  {
    PageAt(items, key, sizes, pages, |sizes| - 1);
  }

  lemma ReachNext(n: nat, sizes: seq<int>, size: int)
    ensures Reach(n, sizes + [size], |sizes| + 1) == Min(Reach(n, sizes, |sizes|) + PageSize(size), n)
  {
    ReachPrefix(n, sizes, [size], |sizes|);
  }

  lemma Progress<T>(items: seq<T>, key: T -> string, sizes: seq<int>, pages: seq<Page<T>>, size: int)
    requires DistinctKeys(items, key) && SomePages(items, key, sizes, pages) && pages[|pages| - 1].nextCursor.Some?
    ensures Reach(|items|, sizes, |sizes|) < Reach(|items|, sizes + [size], |sizes| + 1)
  {
    MoreToGo(items, key, sizes, pages);
    ReachNext(|items|, sizes, size);
  }

  /** Following cursors ends: any pages so far extend, with pages of any size, to the last row. */
  lemma {:induction false} WalkEnds<T>(items: seq<T>, key: T -> string, sizes: seq<int>, pages: seq<Page<T>>, size: int)
    returns (sizes': seq<int>, pages': seq<Page<T>>)
    requires DistinctKeys(items, key) && SomePages(items, key, sizes, pages)
    ensures AllPages(items, key, sizes', pages') && sizes <= sizes' && pages <= pages'
    decreases |items| - Reach(|items|, sizes, |sizes|)
  {
    var last := pages[|pages| - 1].nextCursor;
    if last == None {
      sizes', pages' := sizes, pages;
    } else {
      OneMorePage(items, key, sizes, pages, size);
      Progress(items, key, sizes, pages, size);
      sizes', pages' := WalkEnds(items, key, sizes + [size], pages + [PageOf(items, key, size, 0, last)], size);
    }
  }
}
