/**
 * The hash-chained ledger: an anchored chain of entries, its verifier, and the
 * operations that rewrite the stored chain.
 */
module Ledger {
  import opened Prelude

  const SCHEMA_VERSION := 1
  const GENESIS_HASH := Repeat('0', 64)
  const GENESIS := Checkpoint(0, GENESIS_HASH, None)
  const RESEALED := "ledger.resealed"
  const QUARANTINE_PREFIX := "utix:ledger:v1:quarantine:"

  datatype Kind = Privileged | Financial
  datatype Outcome = Allowed | Denied

  /** An entry without its `hash`: exactly what is hashed. */
  datatype Body = Body(
    v: int, seqNo: int, at: string, kind: Kind, action: string, actorId: string,
    subjectKind: string, subjectId: string, outcome: Outcome,
    data: Option<map<string, string>>, ref: Option<string>, refDigest: Option<string>,
    prevHash: string)

  datatype Entry = Entry(body: Body, hash: string)

  /** A stored array element: an entry, or a value without an entry's fields. */
  datatype Raw = Junk | Item(entry: Entry)

  datatype Checkpoint = Checkpoint(seqNo: int, hash: string, at: Option<string>)

  datatype Input = Input(
    kind: Kind, action: string, actorId: string, subjectKind: string, subjectId: string,
    outcome: Outcome, data: Option<map<string, string>>,
    ref: Option<string>, refDigest: Option<string>, at: Option<string>)

  datatype IntegrityCode =
    | Corrupt | MalformedEntry | SequenceGap | LinkBroken | HashMismatch | OutOfOrder | HeadMismatch

  datatype ErrorCode = LedgerDenied | InvalidField | OutOfOrderWrite | LedgerBroken | LedgerIntact | Thrown

  datatype Verification =
    | Intact(count: nat, anchor: Checkpoint, head: Checkpoint)
    | Broken(code: IntegrityCode, seqNo: Option<int>, verified: nat, lastGood: Checkpoint)

  /** The bytes under the storage key: absent, unreadable, or a readable chain. */
  datatype Store = Absent | Unreadable | Stored(anchor: Checkpoint, entries: seq<Raw>)

  /** What the ledger takes from outside: the digest, date parsing, redaction, and the declared actions with their kind. */
  datatype Env = Env(
    hash: Body -> string,
    parses: string -> bool,
    redact: string -> string,
    context: Option<map<string, string>> -> Option<map<string, string>>,
    kindOf: map<string, Kind>)

  predicate IsHash(s: string)
  {
    |s| == 64 && forall i | 0 <= i < |s| :: IsDigit(s[i]) || 'a' <= s[i] <= 'f'
  }

  /**
   * A digest is 64 hex characters; nothing else is assumed of it. The empty text is no date,
   * and the ledger declares its own action.
   */
  ghost predicate EnvOk(env: Env)
  {
    (forall b :: IsHash(env.hash(b))) && !env.parses("") && ActionFits(env, RESEALED, Privileged)
  }

  predicate IsLabel(s: string) { !Blank(s) && |s| <= 128 }

  /** The action is declared and `kind` is the one declared for it. */
  predicate ActionFits(env: Env, action: string, kind: Kind)
  {
    action in env.kindOf && env.kindOf[action] == kind
  }

  predicate IsCheckpoint(c: Checkpoint) { c.seqNo >= 0 && IsHash(c.hash) }

  predicate EntryShape(env: Env, raw: Raw)
  {
    && raw.Item?
    && var b := raw.entry.body;
    && b.v == SCHEMA_VERSION
    && env.parses(b.at)
    && ActionFits(env, b.action, b.kind)
    && IsLabel(b.subjectKind) && IsLabel(b.subjectId)
    && IsHash(b.prevHash) && IsHash(raw.entry.hash)
  }

  function PointOf(e: Entry): Checkpoint { Checkpoint(e.body.seqNo, e.hash, Some(e.body.at)) }

  /** `previous.at && at < previous.at`: an absent or empty instant orders nothing. */
  predicate Before(at: string, previous: Checkpoint)
  {
    previous.at.Some? && previous.at.value != "" && Less(at, previous.at.value)
  }

  /** The first of the five checks an entry fails after `previous`, in the source's order. */
  function Check(env: Env, previous: Checkpoint, raw: Raw): Option<IntegrityCode>
  {
    if !EntryShape(env, raw) then Some(MalformedEntry)
    else
      var e := raw.entry;
      if e.body.seqNo != previous.seqNo + 1 then Some(SequenceGap)
      else if e.body.prevHash != previous.hash then Some(LinkBroken)
      else if env.hash(e.body) != e.hash then Some(HashMismatch)
      else if Before(e.body.at, previous) then Some(OutOfOrder)
      else None
  }

  /** The point reached after the first `k` entries. */
  function PointAt(anchor: Checkpoint, entries: seq<Raw>, k: nat): Checkpoint
    requires k <= |entries|
  {
    if k == 0 || entries[k - 1].Junk? then anchor else PointOf(entries[k - 1].entry)
  }

  /** Entry `i` passes every check against the point before it. */
  predicate Linked(env: Env, anchor: Checkpoint, entries: seq<Raw>, i: nat)
    requires i < |entries|
  {
    Check(env, PointAt(anchor, entries, i), entries[i]).None?
  }

  /** The reference meaning of "the first `k` entries verify from `anchor`". */
  predicate GoodPrefix(env: Env, anchor: Checkpoint, entries: seq<Raw>, k: nat)
    requires k <= |entries|
  {
    forall i | 0 <= i < k :: Linked(env, anchor, entries, i)
  }

  predicate SamePoint(a: Checkpoint, b: Checkpoint) { a.seqNo == b.seqNo && a.hash == b.hash }

  /** The checkpoint is the anchor or the point after some entry. */
  predicate OnChain(anchor: Checkpoint, entries: seq<Raw>, cp: Checkpoint)
  {
    exists k | 0 <= k <= |entries| :: SamePoint(PointAt(anchor, entries, k), cp)
  }

  predicate Passes(env: Env, entries: seq<Raw>, anchor: Checkpoint, expected: Option<Checkpoint>)
  {
    GoodPrefix(env, anchor, entries, |entries|) && (expected.Some? ==> OnChain(anchor, entries, expected.value))
  }

  /** How many leading entries verify. */
  function LongestGood(env: Env, anchor: Checkpoint, entries: seq<Raw>, from: nat): (k: nat)
    requires from <= |entries| && GoodPrefix(env, anchor, entries, from)
    ensures from <= k <= |entries| && GoodPrefix(env, anchor, entries, k)
    ensures k < |entries| ==> !Linked(env, anchor, entries, k)
    decreases |entries| - from
  {
    if from == |entries| || !Linked(env, anchor, entries, from) then from
    else LongestGood(env, anchor, entries, from + 1)
  }

  /** What `verify` must answer, stated by the longest verifying prefix. */
  function Verdict(env: Env, entries: seq<Raw>, anchor: Checkpoint, expected: Option<Checkpoint>): Verification
  {
    var k := LongestGood(env, anchor, entries, 0);
    var last := PointAt(anchor, entries, k);
    if k < |entries| then
      Broken(Check(env, last, entries[k]).value, Some(last.seqNo + 1), k, last)
    else if expected.Some? && !OnChain(anchor, entries, expected.value) then
      Broken(HeadMismatch, Some(expected.value.seqNo), k, last)
    else
      Intact(k, anchor, last)
  }

  /** `verifyLedgerChain`: one pass from the anchor, then the checkpoint lookup. */
  method VerifyLedgerChain(env: Env, entries: seq<Raw>, anchor: Checkpoint, expected: Option<Checkpoint>)
    returns (r: Verification)
    ensures r == Verdict(env, entries, anchor, expected)
    ensures r.Intact? <==> Passes(env, entries, anchor, expected)
    ensures r.Broken? && r.code != HeadMismatch ==>
      r.verified < |entries| && r.lastGood.seqNo + 1 == r.seqNo.value
      && !GoodPrefix(env, anchor, entries, r.verified + 1)
  {
    var previous := anchor;
    var verified := 0;
    for index := 0 to |entries|
      invariant verified == index && previous == PointAt(anchor, entries, index)
      invariant GoodPrefix(env, anchor, entries, index)
      invariant LongestGood(env, anchor, entries, 0) == LongestGood(env, anchor, entries, index)
    {
      var raw := entries[index];
      var expectedSeq := previous.seqNo + 1;
      if !EntryShape(env, raw) { return Broken(MalformedEntry, Some(expectedSeq), verified, previous); }
      var e := raw.entry;
      if e.body.seqNo != expectedSeq { return Broken(SequenceGap, Some(expectedSeq), verified, previous); }
      if e.body.prevHash != previous.hash { return Broken(LinkBroken, Some(e.body.seqNo), verified, previous); }
      if env.hash(e.body) != e.hash { return Broken(HashMismatch, Some(e.body.seqNo), verified, previous); }
      if Before(e.body.at, previous) { return Broken(OutOfOrder, Some(e.body.seqNo), verified, previous); }
      previous := PointOf(e);
      verified := verified + 1;
    }
    if expected.Some? {
      var cp := expected.value;
      var atHead := SamePoint(previous, cp);
      var inside := exists raw | raw in entries :: raw.Item? && SamePoint(PointOf(raw.entry), cp);
      var isAnchor := SamePoint(anchor, cp);
      assert forall i | 0 <= i < |entries| :: Linked(env, anchor, entries, i) ==> entries[i].Item?;
      CheckpointLookup(anchor, entries, cp, previous);
      if !atHead && !inside && !isAnchor {
        return Broken(HeadMismatch, Some(cp.seqNo), verified, previous);
      }
    }
    r := Intact(verified, anchor, previous);
  }

  /** The source's three-way lookup finds a checkpoint exactly when it is a point of the chain. */
  lemma CheckpointLookup(anchor: Checkpoint, entries: seq<Raw>, cp: Checkpoint, head: Checkpoint)
    requires head == PointAt(anchor, entries, |entries|)
    requires forall i | 0 <= i < |entries| :: entries[i].Item?
    ensures OnChain(anchor, entries, cp) <==>
      SamePoint(head, cp)
      || (exists raw | raw in entries :: raw.Item? && SamePoint(PointOf(raw.entry), cp))
      || SamePoint(anchor, cp)
  {
    if raw :| raw in entries && raw.Item? && SamePoint(PointOf(raw.entry), cp) {
      var i :| 0 <= i < |entries| && entries[i] == raw;
      assert PointAt(anchor, entries, i + 1) == PointOf(raw.entry);
    }
    if SamePoint(anchor, cp) { assert PointAt(anchor, entries, 0) == anchor; }
    if k :| 0 <= k <= |entries| && SamePoint(PointAt(anchor, entries, k), cp) {
      if 0 < k { assert entries[k - 1] in entries; }
    }
  }

  /** Sequence numbers of a verifying prefix are contiguous from the anchor. */
  lemma {:induction false} Contiguous(env: Env, anchor: Checkpoint, entries: seq<Raw>, k: nat)
    requires k <= |entries| && GoodPrefix(env, anchor, entries, k)
    ensures PointAt(anchor, entries, k).seqNo == anchor.seqNo + k
  {
    if k > 0 {
      Contiguous(env, anchor, entries, k - 1);
      assert Linked(env, anchor, entries, k - 1);
    }
  }

  // ---------------------------------------------------------------- tamper evidence

  ghost predicate CollideAt(env: Env, a: seq<Raw>, b: seq<Raw>, p: nat, q: nat)
    requires p < |a| && q < |b|
  {
    a[p].Item? && b[q].Item? && a[p].entry.body != b[q].entry.body && env.hash(a[p].entry.body) == env.hash(b[q].entry.body)
  }

  /** Two different bodies of the two segments with one digest. */
  ghost predicate Collision(env: Env, a: seq<Raw>, b: seq<Raw>)
  {
    exists p, q | 0 <= p < |a| && 0 <= q < |b| :: CollideAt(env, a, b, p, q)
  }

  /** Two linked entries with one hash are the same entry after the same point, or collide. */
  lemma StepBack(env: Env, anchorA: Checkpoint, a: seq<Raw>, i: nat, anchorB: Checkpoint, b: seq<Raw>, j: nat)
    requires i < |a| && j < |b| && Linked(env, anchorA, a, i) && Linked(env, anchorB, b, j)
    requires a[i].entry.hash == b[j].entry.hash
    requires !Collision(env, a, b)
    ensures a[i] == b[j] && SamePoint(PointAt(anchorA, a, i), PointAt(anchorB, b, j))
  {
    assert !CollideAt(env, a, b, i, j);
  }

  /**
   * Two chains that verify, from any anchors, and reach the same point agree on every
   * entry before it that both retain: here, on the one `back` places before that point.
   */
  lemma {:induction false} SharedPast(
    env: Env, anchorA: Checkpoint, a: seq<Raw>, i: nat, anchorB: Checkpoint, b: seq<Raw>, j: nat, back: nat)
    requires i <= |a| && j <= |b| && back <= i && back <= j
    requires GoodPrefix(env, anchorA, a, i) && GoodPrefix(env, anchorB, b, j)
    requires SamePoint(PointAt(anchorA, a, i), PointAt(anchorB, b, j))
    requires !Collision(env, a, b)
    ensures SamePoint(PointAt(anchorA, a, i - back), PointAt(anchorB, b, j - back))
    ensures back > 0 ==> a[i - back] == b[j - back]
    decreases back
  {
    if back > 0 {
      SharedPast(env, anchorA, a, i, anchorB, b, j, back - 1);
      assert Linked(env, anchorA, a, i - back) && Linked(env, anchorB, b, j - back);
      StepBack(env, anchorA, a, i - back, anchorB, b, j - back);
    }
  }

  /** From one anchor, chains through one checkpoint are the same up to it, at the same place. */
  lemma TamperEvidence(env: Env, anchor: Checkpoint, a: seq<Raw>, i: nat, b: seq<Raw>, j: nat)
    requires i <= |a| && j <= |b|
    requires GoodPrefix(env, anchor, a, i) && GoodPrefix(env, anchor, b, j)
    requires SamePoint(PointAt(anchor, a, i), PointAt(anchor, b, j))
    requires !Collision(env, a, b)
    ensures i == j && a[..i] == b[..j]
  {
    Contiguous(env, anchor, a, i);
    Contiguous(env, anchor, b, j);
    forall k | 0 <= k < i ensures a[k] == b[k] {
      SharedPast(env, anchor, a, i, anchor, b, j, i - k);
    }
  }

  /**
   * A checkpoint taken after `i` entries of `original` is kept elsewhere. Whatever is later
   * stored over the same anchor, unless it still starts with those `i` entries, is reported.
   */
  lemma TamperReported(env: Env, anchor: Checkpoint, original: seq<Raw>, i: nat, found: seq<Raw>)
    requires i <= |original| && GoodPrefix(env, anchor, original, i)
    requires !Collision(env, original, found)
    requires !(original[..i] <= found)
    ensures Verdict(env, found, anchor, Some(PointAt(anchor, original, i))).Broken?
  {
    var cp := PointAt(anchor, original, i);
    if Passes(env, found, anchor, Some(cp)) {
      var j :| 0 <= j <= |found| && SamePoint(PointAt(anchor, found, j), cp);
      assert GoodPrefix(env, anchor, found, j);
      TamperEvidence(env, anchor, original, i, found, j);
      assert false;
    }
  }

  // ---------------------------------------------------------------- stored operations

  function HeadOf(s: Store): Checkpoint
    requires s.Stored?
  {
    PointAt(s.anchor, s.entries, |s.entries|)
  }

  /** `read()`: nothing stored is an empty chain, unreadable bytes are not. */
  function Read(s: Store): Option<Store>
  {
    match s
    case Absent => Some(Stored(GENESIS, []))
    case Unreadable => None
    case Stored(anchor, _) => if IsCheckpoint(anchor) then Some(s) else None
  }

  function VerifyStore(env: Env, s: Store, expected: Option<Checkpoint>): Verification
  {
    match Read(s)
    case None => Broken(Corrupt, None, 0, GENESIS)
    case Some(st) => Verdict(env, st.entries, st.anchor, expected)
  }

  /** `build`: the stored form is redacted first and hashed as stored. */
  function Build(env: Env, previous: Checkpoint, input: Input, at: string): Entry
  {
    var body := Body(SCHEMA_VERSION, previous.seqNo + 1, env.redact(at), input.kind, input.action,
      env.redact(input.actorId), env.redact(input.subjectKind), env.redact(input.subjectId),
      input.outcome, env.context(input.data), Redacted(env, input.ref), Redacted(env, input.refDigest),
      previous.hash);
    Entry(body, env.hash(body))
  }

  function Redacted(env: Env, s: Option<string>): Option<string>
  {
    if s.Some? then Some(env.redact(s.value)) else None
  }

  predicate InputAccepted(env: Env, input: Input)
  {
    && ActionFits(env, input.action, input.kind)
    && IsLabel(input.actorId) && IsLabel(input.subjectKind) && IsLabel(input.subjectId)
    && (input.refDigest.Some? ==> IsHash(input.refDigest.value))
    && (input.at.Some? ==> env.parses(input.at.value))
  }

  /** The head of a readable chain does not match its own hash or shape. */
  predicate HeadEdited(env: Env, s: Store)
    requires s.Stored?
  {
    s.entries != [] &&
    var last := s.entries[|s.entries| - 1];
    !EntryShape(env, last) || env.hash(last.entry.body) != last.entry.hash
  }

  /** The instant an append is stamped with; a clock that stepped back is clamped to the head. */
  function StampOf(previous: Checkpoint, input: Input, now: string): string
  {
    var at := if input.at.Some? then input.at.value else now;
    if input.at.None? && Before(at, previous) then previous.at.value else at
  }

  function Append(env: Env, s: Store, input: Input, now: string): (Store, Result<Entry, ErrorCode>)
  {
    if !InputAccepted(env, input) then (s, Err(InvalidField))
    else if Read(s).None? then (s, Err(LedgerBroken))
    else
      var st := Read(s).value;
      if HeadEdited(env, st) then (s, Err(LedgerBroken))
      else if input.at.Some? && Before(input.at.value, HeadOf(st)) then (s, Err(OutOfOrderWrite))
      else
        var e := Build(env, HeadOf(st), input, StampOf(HeadOf(st), input, now));
        (st.(entries := st.entries + [Item(e)]), Ok(e))
  }

  function Prune(s: Store, limit: Positive): (Store, nat)
  {
    match Read(s)
    case None => (s, 0)
    case Some(st) =>
      if |st.entries| <= limit then (s, 0)
      else
        var dropped: nat := |st.entries| - limit;
        var last := st.entries[dropped - 1];
        (if last.Junk? then Unreadable else Stored(PointOf(last.entry), st.entries[dropped..]), dropped)
  }

  datatype Header = Header(anchor: Checkpoint, head: Checkpoint, count: int)

  /** An export in either text form; `Garbled` is text that parses as neither. */
  datatype Export = Garbled | Document(header: Header, entries: seq<Raw>) | Lines(header: Header, entries: seq<Raw>)

  /** The first entry carrying `seqNo`. */
  function FindSeq(entries: seq<Raw>, seqNo: int, from: nat): (k: nat)
    requires from <= |entries|
    ensures from <= k <= |entries|
    ensures k < |entries| ==> entries[k].Item? && entries[k].entry.body.seqNo == seqNo
    ensures forall i | from <= i < k :: entries[i].Junk? || entries[i].entry.body.seqNo != seqNo
    decreases |entries| - from
  {
    if from == |entries| || (entries[from].Item? && entries[from].entry.body.seqNo == seqNo) then from
    else FindSeq(entries, seqNo, from + 1)
  }

  function ExportChain(s: Store, maintainer: bool, json: bool, fromSeq: Option<int>): Result<Export, ErrorCode>
  {
    if !maintainer then Err(LedgerDenied)
    else if Read(s).None? then Err(LedgerBroken)
    else if fromSeq.Some? && fromSeq.value < 1 then Err(InvalidField)
    else
      var st := Read(s).value;
      if fromSeq.Some? && fromSeq.value > st.anchor.seqNo + 1 then
        var index := FindSeq(st.entries, fromSeq.value, 0);
        if index == |st.entries| then Err(InvalidField)
        else if index == 0 || st.entries[index - 1].Junk? then Err(Thrown)
        else Ok(Packed(PointOf(st.entries[index - 1].entry), st.entries[index..], json))
      else Ok(Packed(st.anchor, st.entries, json))
  }

  function Packed(anchor: Checkpoint, entries: seq<Raw>, json: bool): Export
  {
    var header := Header(anchor, PointAt(anchor, entries, |entries|), |entries|);
    if json then Document(header, entries) else Lines(header, entries)
  }

  /** `verifyLedgerExport`: re-checks an export with no access to the ledger. */
  function VerifyExport(env: Env, x: Export, expected: Option<Checkpoint>): Verification
  {
    if x.Garbled? || !IsCheckpoint(x.header.anchor) || !IsCheckpoint(x.header.head) then
      Broken(Corrupt, None, 0, GENESIS)
    else
      var r := Verdict(env, x.entries, x.header.anchor, expected);
      if r.Intact? && (!SamePoint(r.head, x.header.head) || r.count != x.header.count) then
        Broken(HeadMismatch, Some(x.header.head.seqNo), r.count, r.head)
      else r
  }

  function ResealInput(verification: Verification, dropped: int, actorId: string, reason: string, now: string,
                       report: (Verification, int, string) -> map<string, string>): Input
  {
    Input(Privileged, RESEALED, actorId, "ledger", QUARANTINE_PREFIX + now, Allowed,
          Some(report(verification, dropped, reason)), None, None, None)
  }

  datatype ResealReport = ResealReport(code: IntegrityCode, quarantineKey: string, resumedFrom: Checkpoint,
                                       droppedEntries: int, entry: Entry)

  predicate IsReason(s: string)
  {
    1 <= |s| <= 64 && forall i | 0 <= i < |s| :: 'a' <= s[i] <= 'z' || IsDigit(s[i]) || s[i] in "_.:-"
  }

  /** `resumedFrom.at && resumedFrom.at > at`. */
  function ResealStamp(resumedFrom: Checkpoint, now: string): string
  {
    if resumedFrom.at.Some? && resumedFrom.at.value != "" && Less(now, resumedFrom.at.value)
    then resumedFrom.at.value else now
  }

  function Reseal(env: Env, s: Store, actor: Option<string>, reason: string, now: string,
                  report: (Verification, int, string) -> map<string, string>)
    : (Store, Result<ResealReport, ErrorCode>)
  {
    if actor.None? || actor.value == "" then (s, Err(LedgerDenied))
    else if !IsReason(reason) then (s, Err(InvalidField))
    else
      var verification := VerifyStore(env, s, None);
      if verification.Intact? then (s, Err(LedgerIntact))
      else
        var readable := Read(s);
        var anchor := if readable.Some? then readable.value.anchor else GENESIS;
        var kept := if readable.Some? then readable.value.entries[..verification.verified] else [];
        var total := if readable.Some? then |readable.value.entries| else 0;
        var input := ResealInput(verification, total - |kept|, actor.value, reason, now, report);
        var entry := Build(env, verification.lastGood, input, ResealStamp(verification.lastGood, now));
        (Stored(anchor, kept + [Item(entry)]),
         Ok(ResealReport(verification.code, QUARANTINE_PREFIX + now, verification.lastGood, total - |kept|, entry)))
  }
}
