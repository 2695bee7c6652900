/** Scoped exports in three forms: one batch, cursor pages, and a stream of chunks. */
module Exports {
  import opened Prelude
  import opened Decimal
  import opened FieldAuthorization
  import Pagination

  // ---------------------------------------------------------------- requests and sources

  datatype Source = Source(recordType: string, schemaVersion: string, maintainerScope: bool, rules: seq<Rule>, records: seq<Record>)

  datatype Request = Request(
    schemaVersion: string, maintainerScope: bool, actor: Actor, fields: Option<seq<string>>, rules: seq<Rule>, strict: bool)

  const SCHEMA_VERSION := "1.0"

  function Withhold(field: string, mask: bool): Rule { Rule(field, true, [], mask) }

  const DEFAULT_RULES: seq<Rule> := [
    Withhold("internalLatencyMs", false), Withhold("ipAddress", true), Withhold("userAgent", false), Withhold("sessionToken", false),
    Withhold("nodeId", false), Withhold("adminNotes", true), Withhold("riskScore", false), Withhold("debugTrace", false),
    Withhold("traceId", false), Withhold("rawPayload", false), Withhold("systemSignature", false)
  ]

  function SourceRules(sources: seq<Source>): seq<Rule>
  {
    if sources == [] then [] else sources[0].rules + SourceRules(sources[1..])
  }

  function PolicyOf(req: Request, sources: seq<Source>): Policy
  {
    Policy(req.actor, req.fields, DEFAULT_RULES + req.rules + SourceRules(sources))
  }

  /** The refusals both forms make, in the order they make them; `quota` is the quota's answer. */
  function Gate(req: Request, sources: seq<Source>, quota: Option<string>): Option<string>
  {
    if req.maintainerScope && !req.actor.maintainer then Some("export_denied")
    else if req.schemaVersion != SCHEMA_VERSION then Some("schema_unsupported")
    else if req.strict && !Passes(PolicyOf(req, sources)) then Some("field_authorization_denied")
    else quota
  }

  /** `{ ...record, [name]: value }`: replaced in place, or added at the end. */
  function SetField(record: Record, name: string, value: Value): Record
  {
    if record == [] then [Field(name, value)]
    else if record[0].name == name then [Field(name, value)] + record[1..]
    else [record[0]] + SetField(record[1..], name, value)
  }

  function Tag(record: Record, s: Source): Record
  {
    SetField(SetField(record, "recordType", Text(s.recordType)), "scope", Text(if s.maintainerScope then "maintainer" else "own"))
  }

  function TagAll(records: seq<Record>, s: Source): (r: seq<Record>)
    ensures |r| == |records| && forall i | 0 <= i < |r| :: r[i] == Tag(records[i], s)
  {
    seq(|records|, i requires 0 <= i < |records| => Tag(records[i], s))
  }

  predicate Allowed(req: Request, s: Source)
  {
    s.schemaVersion == req.schemaVersion && (req.maintainerScope || !s.maintainerScope)
  }

  /** Every record of the sources the request may read, in order. */
  function Collected(req: Request, sources: seq<Source>): seq<Record>
  {
    if sources == [] then []
    else
      var last := sources[|sources| - 1];
      Collected(req, sources[..|sources| - 1]) + if Allowed(req, last) then TagAll(last.records, last) else []
  }

  // ---------------------------------------------------------------- cursor keys

  /** UTF-16 code units, as `charCodeAt` reads them. */
  function Units(s: string): seq<nat>
  {
    if s == [] then []
    else
      var n := s[0] as int;
      (if n < 0x10000 then [n] else [0xD800 + (n - 0x10000) / 0x400, 0xDC00 + (n - 0x10000) % 0x400]) + Units(s[1..])
  }

  /** Bitwise exclusive or. */
  function Xor(a: nat, b: nat): nat
  {
    if a == 0 && b == 0 then 0 else 2 * Xor(a / 2, b / 2) + (a + b) % 2
  }

  /** One round of the 32-bit FNV-1a digest. */
  function Mix(hash: nat, unit: nat): nat { Xor(hash, unit) * 16777619 % 0x1_0000_0000 }

  function Fnv(units: seq<nat>): nat
  {
    if units == [] then 2166136261 else Mix(Fnv(units[..|units| - 1]), units[|units| - 1])
  }

  function Hex(n: nat, width: nat): (s: string)
    ensures |s| == width
  {
    if width == 0 then [] else Hex(n / 16, width - 1) + ["0123456789abcdef"[n % 16]]
  }

  function Look(record: Record, name: string): Value
  {
    if record == [] then Null else if record[0].name == name then record[0].value else Look(record[1..], name)
  }

  function FirstSet(a: Value, b: Value): Value { if a == Null then b else a }

  /** The text a record's key digests; `json` is its JSON text, when it has one. */
  function KeyText(record: Record, index: nat, json: Record -> Option<string>): string
  {
    var candidate := FirstSet(FirstSet(FirstSet(Look(record, "id"), Look(record, "pagingToken")), Look(record, "paging_token")), Look(record, "index"));
    match candidate
    case Text(s) => s
    case Number(shown) => shown
    case _ => if json(record).Some? then json(record).value else Digits(index)
  }

  function Base(record: Record, index: nat, json: Record -> Option<string>): (s: string)
    ensures |s| == 15
  {
    "record-" + Hex(Fnv(Units(KeyText(record, index, json))), 8)
  }

  method Digest(units: seq<nat>) returns (hash: nat)
    ensures hash == Fnv(units)
  {
    hash := 2166136261;
    var position := 0;
    while position < |units|
      invariant 0 <= position <= |units| && hash == Fnv(units[..position])
    {
      assert units[..position + 1][..position] == units[..position];
      hash := Mix(hash, units[position]);
      position := position + 1;
    }
    assert units[..position] == units;
  }

  method CursorRecordKey(record: Record, index: nat, json: Record -> Option<string>) returns (key: string)
    ensures key == Base(record, index, json)
  {
    var hash := Digest(Units(KeyText(record, index, json)));
    key := "record-" + Hex(hash, 8);
  }

  function Count(bases: seq<string>, base: string): nat
  {
    if bases == [] then 0 else Count(bases[..|bases| - 1], base) + if bases[|bases| - 1] == base then 1 else 0
  }

  /** A digest of a record, by its content and place. */
  type Digester = (Record, nat) -> string

  function Bases(records: seq<Record>, base: Digester): (b: seq<string>)
    ensures |b| == |records| && forall i | 0 <= i < |b| :: b[i] == base(records[i], i)
  {
    seq(|records|, i requires 0 <= i < |records| => base(records[i], i))
  }

  /** The `i`-th cursor key: its digest and how often that digest came before. */
  function KeyAt(bases: seq<string>, i: nat): string
    requires i < |bases|
  {
    bases[i] + "-" + Digits(Count(bases[..i], bases[i]))
  }

  datatype Keyed = Keyed(key: string, record: Record)

  function KeysUpTo(records: seq<Record>, bases: seq<string>, n: nat): (r: seq<Keyed>)
    requires n <= |records| == |bases|
    ensures |r| == n && forall i | 0 <= i < n :: r[i] == Keyed(KeyAt(bases, i), records[i])
  {
    if n == 0 then [] else KeysUpTo(records, bases, n - 1) + [Keyed(KeyAt(bases, n - 1), records[n - 1])]
  }

  function Keys(records: seq<Record>, base: Digester): (r: seq<Keyed>)
    ensures |r| == |records|
  {
    KeysUpTo(records, Bases(records, base), |records|)
  }

  /** How often each digest has come so far. */
  ghost predicate Counts(occurrences: map<string, nat>, bases: seq<string>)
  {
    forall b :: Count(bases, b) == if b in occurrences then occurrences[b] else 0
  }

  lemma CountsPush(occurrences: map<string, nat>, bases: seq<string>, base: string, n: nat)
    requires Counts(occurrences, bases) && n == if base in occurrences then occurrences[base] else 0
    ensures Count(bases, base) == n && Counts(occurrences[base := n + 1], bases + [base])
  {
    assert (bases + [base])[..|bases|] == bases;
  }

  /** One more keyed record: the next key in order. */
  lemma KeyNext(records: seq<Record>, bases: seq<string>, i: nat, occurrences: map<string, nat>, occurrence: nat)
    requires i < |records| == |bases| && Counts(occurrences, bases[..i])
    requires occurrence == if bases[i] in occurrences then occurrences[bases[i]] else 0
    ensures KeysUpTo(records, bases, i + 1) == KeysUpTo(records, bases, i) + [Keyed(bases[i] + "-" + Digits(occurrence), records[i])]
    ensures Counts(occurrences[bases[i] := occurrence + 1], bases[..i + 1])
  {
    CountsPush(occurrences, bases[..i], bases[i], occurrence);
    assert bases[..i + 1] == bases[..i] + [bases[i]];
  }

  method CollectWithCursorKeys(records: seq<Record>, base: Digester) returns (keyed: seq<Keyed>)
    ensures keyed == Keys(records, base)
  {
    ghost var bases := Bases(records, base);
    var occurrences: map<string, nat> := map[];
    keyed := [];
    var i := 0;
    while i < |records|
      invariant 0 <= i <= |records| && Counts(occurrences, bases[..i]) && keyed == KeysUpTo(records, bases, i)
    {
      var b := base(records[i], i);
      var occurrence := if b in occurrences then occurrences[b] else 0;
      KeyNext(records, bases, i, occurrences, occurrence);
      occurrences := occurrences[b := occurrence + 1];
      keyed := keyed + [Keyed(b + "-" + Digits(occurrence), records[i])];
      i := i + 1;
    }
  }

  lemma {:induction false} CountGrows(bases: seq<string>, i: nat, j: nat)
    requires i < j <= |bases|
    ensures Count(bases[..i], bases[i]) < Count(bases[..j], bases[i])
    decreases j
  {
    assert bases[..j][..j - 1] == bases[..j - 1];
    if j > i + 1 { CountGrows(bases, i, j - 1); }
  }

  ghost predicate FixedWidth(base: Digester) { forall r, i :: |base(r, i)| == 15 }

  /** The source's digest has one width, whatever the record. */
  lemma BaseIsFixedWidth(json: Record -> Option<string>)
    ensures FixedWidth((r: Record, i: nat) => Base(r, i, json))
  {
  }

  /** No two records share a cursor key, even when their digests collide. */
  lemma KeysDistinct(records: seq<Record>, base: Digester, i: nat, j: nat)
    requires i < j < |records| && FixedWidth(base)
    ensures Keys(records, base)[i].key != Keys(records, base)[j].key && Keys(records, base)[i].key != []
  {
    var bases := Bases(records, base);
    var a, b := KeyAt(bases, i), KeyAt(bases, j);
    if a == b {
      assert a[..15] == bases[i] && b[..15] == bases[j];
      assert a[16..] == Digits(Count(bases[..i], bases[i])) && b[16..] == Digits(Count(bases[..j], bases[j]));
      DigitsInjective(Count(bases[..i], bases[i]), Count(bases[..j], bases[j]));
      CountGrows(bases, i, j);
      assert false;
    }
  }
}
