/** What every run of the stored ledger keeps, and the ledger object itself. */
module LedgerRuns {
  import opened Prelude
  import opened Ledger
  import opened Redaction

  /** The stored chain is readable and every entry verifies from its anchor. */
  ghost predicate Sound(env: Env, s: Store)
  {
    Read(s).Some? && var st := Read(s).value; GoodPrefix(env, st.anchor, st.entries, |st.entries|)
  }

  lemma SoundIsIntact(env: Env, s: Store)
    ensures Sound(env, s) <==> VerifyStore(env, s, None).Intact?
  {
  }

  // ---------------------------------------------------------------- one more entry

  /**
   * The caller-visible condition for an appended entry to verify: redaction leaves the instant
   * a date that is not before the head, and leaves the subject two labels.
   */
  predicate StampSafe(env: Env, previous: Checkpoint, input: Input, at: string)
  {
    && env.parses(env.redact(at)) && !Before(env.redact(at), previous)
    && IsLabel(env.redact(input.subjectKind)) && IsLabel(env.redact(input.subjectId))
  }

  lemma BuiltEntryVerifies(env: Env, previous: Checkpoint, input: Input, at: string)
    requires EnvOk(env) && IsHash(previous.hash) && ActionFits(env, input.action, input.kind)
    ensures Check(env, previous, Item(Build(env, previous, input, at))).None? <==> StampSafe(env, previous, input, at)
  {
  }

  lemma ExtendGood(env: Env, anchor: Checkpoint, entries: seq<Raw>, x: Raw)
    requires GoodPrefix(env, anchor, entries, |entries|)
    ensures GoodPrefix(env, anchor, entries + [x], |entries| + 1) <==>
      Check(env, PointAt(anchor, entries, |entries|), x).None?
  {
    var longer := entries + [x];
    assert forall i | 0 <= i <= |entries| :: PointAt(anchor, longer, i) == PointAt(anchor, entries, i);
    forall i | 0 <= i < |entries| ensures Linked(env, anchor, longer, i) {
      assert Linked(env, anchor, entries, i);
      assert longer[i] == entries[i];
    }
    assert Linked(env, anchor, longer, |entries|) <==> Check(env, PointAt(anchor, entries, |entries|), x).None?;
  }

  /** Every point of a verifying chain is a well-formed checkpoint. */
  lemma PointsAreCheckpoints(env: Env, anchor: Checkpoint, entries: seq<Raw>, k: nat)
    requires k <= |entries| && IsCheckpoint(anchor) && GoodPrefix(env, anchor, entries, k)
    ensures IsCheckpoint(PointAt(anchor, entries, k))
  {
    Contiguous(env, anchor, entries, k);
    if k > 0 { assert Linked(env, anchor, entries, k - 1); }
  }

  /** A verifying chain is never refused as broken. */
  lemma SoundHead(env: Env, s: Store)
    requires Sound(env, s)
    ensures !HeadEdited(env, Read(s).value) && IsCheckpoint(HeadOf(Read(s).value))
  {
    var st := Read(s).value;
    PointsAreCheckpoints(env, st.anchor, st.entries, |st.entries|);
    if st.entries != [] { assert Linked(env, st.anchor, st.entries, |st.entries| - 1); }
  }

  /**
   * From a chain that verifies, `append` refuses only a bad input or a misordered instant and then
   * writes nothing; an accepted entry is added last, and the chain verifies again exactly when
   * the stamp survives redaction.
   */
  lemma AppendExactly(env: Env, s: Store, input: Input, now: string)
    requires EnvOk(env) && Sound(env, s)
    ensures var st := Read(s).value; var (s', r) := Append(env, s, input, now);
      && (r.Err? ==> s' == s && r.code in {InvalidField, OutOfOrderWrite})
      && (r.Err? <==> !InputAccepted(env, input) || (input.at.Some? && Before(input.at.value, HeadOf(st))))
      && (r.Ok? ==>
            && s' == Stored(st.anchor, st.entries + [Item(r.value)])
            && r.value.body.seqNo == HeadOf(st).seqNo + 1
            && (Sound(env, s') <==> StampSafe(env, HeadOf(st), input, StampOf(HeadOf(st), input, now))))
  {
    var st := Read(s).value;
    SoundHead(env, s);
    var (s', r) := Append(env, s, input, now);
    if r.Ok? {
      BuiltEntryVerifies(env, HeadOf(st), input, StampOf(HeadOf(st), input, now));
      ExtendGood(env, st.anchor, st.entries, Item(r.value));
    }
  }

  ghost predicate RedactsSecrets(env: Env)
  {
    !env.parses(REDACTED) && forall s | LooksLikeSecret(s) :: env.redact(s) == REDACTED
  }

  /**
   * "Every append keeps the chain verifiable" is false of the code: any accepted instant that looks like
   * a secret, such as an RFC 7231 date on a Monday, is stored redacted and the chain no longer verifies.
   */
  lemma SecretLookingInstantBreaksChain(env: Env, s: Store, input: Input, now: string)
    requires EnvOk(env) && RedactsSecrets(env) && Sound(env, s)
    requires input.at.Some? && LooksLikeSecret(input.at.value)
    requires Append(env, s, input, now).1.Ok?
    ensures VerifyStore(env, Append(env, s, input, now).0, None).Broken?
  {
    AppendExactly(env, s, input, now);
  }

  lemma MondayInstantBreaksEmptyLedger(env: Env, now: string)
    requires EnvOk(env) && RedactsSecrets(env)
    requires env.parses("Mon, 01 Jan 2024 00:00:00 GMT") && ActionFits(env, "faucet.funded", Financial)
    ensures var input := Input(Financial, "faucet.funded", "friendbot", "account", "G1", Allowed, None, None, None,
                               Some("Mon, 01 Jan 2024 00:00:00 GMT"));
      && Append(env, Absent, input, now).1.Ok?
      && VerifyStore(env, Append(env, Absent, input, now).0, None).Broken?
  {
    var input := Input(Financial, "faucet.funded", "friendbot", "account", "G1", Allowed, None, None, None,
                       Some("Mon, 01 Jan 2024 00:00:00 GMT"));
    assert input.actorId[0] == 'f' && input.subjectKind[0] == 'a' && input.subjectId[0] == 'G';
    assert InputAccepted(env, input);
    assert Read(Absent).value.entries == [];
    SecretLookingInstantBreaksChain(env, Absent, input, now);
  }

  // ---------------------------------------------------------------- pruning

  lemma SuffixGood(env: Env, anchor: Checkpoint, entries: seq<Raw>, d: nat)
    requires d <= |entries| && GoodPrefix(env, anchor, entries, |entries|)
    ensures forall i | 0 <= i <= |entries| - d ::
      PointAt(PointAt(anchor, entries, d), entries[d..], i) == PointAt(anchor, entries, d + i)
    ensures GoodPrefix(env, PointAt(anchor, entries, d), entries[d..], |entries| - d)
  {
    var anchor', suffix := PointAt(anchor, entries, d), entries[d..];
    assert forall i | 0 <= i < |suffix| :: suffix[i] == entries[d + i];
    forall i | 0 <= i <= |suffix| ensures PointAt(anchor', suffix, i) == PointAt(anchor, entries, d + i) {
      if i > 0 {
        assert Linked(env, anchor, entries, d + i - 1);
        assert suffix[i - 1] == entries[d + i - 1];
      }
    }
    forall i | 0 <= i < |suffix| ensures Linked(env, anchor', suffix, i) {
      assert Linked(env, anchor, entries, d + i);
    }
  }

  /** The first `k` entries on their own verify as they did in place. */
  lemma PrefixGood(env: Env, anchor: Checkpoint, entries: seq<Raw>, k: nat)
    requires k <= |entries| && GoodPrefix(env, anchor, entries, k)
    ensures GoodPrefix(env, anchor, entries[..k], k)
    ensures PointAt(anchor, entries[..k], k) == PointAt(anchor, entries, k)
  {
    var prefix := entries[..k];
    assert forall i | 0 <= i <= k :: PointAt(anchor, prefix, i) == PointAt(anchor, entries, i);
    forall i | 0 <= i < k ensures Linked(env, anchor, prefix, i) {
      assert Linked(env, anchor, entries, i);
    }
  }

  /** `prune` keeps the newest `limit` entries, moves the anchor to the last dropped one, and still verifies. */
  lemma PruneExactly(env: Env, s: Store, limit: Positive)
    requires Sound(env, s)
    ensures var st := Read(s).value; var (s', dropped) := Prune(s, limit);
      && Sound(env, s')
      && dropped == Max(0, |st.entries| - limit)
      && Read(s').value == Stored(PointAt(st.anchor, st.entries, dropped), st.entries[dropped..])
      && HeadOf(Read(s').value) == HeadOf(st)
  {
    var st := Read(s).value;
    var (s', dropped) := Prune(s, limit);
    SuffixGood(env, st.anchor, st.entries, dropped);
    PointsAreCheckpoints(env, st.anchor, st.entries, dropped);
    if dropped > 0 { assert Linked(env, st.anchor, st.entries, dropped - 1); }
    assert st.entries[0..] == st.entries;
  }

  // ---------------------------------------------------------------- whole runs

  datatype Op = AppendOp(input: Input, now: string) | PruneOp(limit: Positive)

  function Do(env: Env, s: Store, op: Op): Store
  {
    match op
    case AppendOp(input, now) => Append(env, s, input, now).0
    case PruneOp(limit) => Prune(s, limit).0
  }

  /** An append is either refused or stamped so that redaction does no harm. */
  ghost predicate Harmless(env: Env, s: Store, op: Op)
  {
    op.AppendOp? && Append(env, s, op.input, op.now).1.Ok? && Read(s).Some? ==>
      var head := HeadOf(Read(s).value);
      StampSafe(env, head, op.input, StampOf(head, op.input, op.now))
  }

  ghost predicate HarmlessRun(env: Env, s: Store, ops: seq<Op>)
    decreases |ops|
  {
    ops == [] || (Harmless(env, s, ops[0]) && HarmlessRun(env, Do(env, s, ops[0]), ops[1..]))
  }

  ghost function Run(env: Env, s: Store, ops: seq<Op>): Store
    requires HarmlessRun(env, s, ops)
    decreases |ops|
  {
    if ops == [] then s else Run(env, Do(env, s, ops[0]), ops[1..])
  }

  /** A checkpoint is the point the chain has at that sequence number, unless already pruned away. */
  ghost predicate Remembers(env: Env, s: Store, cp: Checkpoint)
  {
    && Sound(env, s)
    && var st := Read(s).value;
    && cp.seqNo <= HeadOf(st).seqNo == st.anchor.seqNo + |st.entries|
    && (st.anchor.seqNo <= cp.seqNo ==>
          SamePoint(PointAt(st.anchor, st.entries, cp.seqNo - st.anchor.seqNo), cp))
  }

  lemma HeadIsRemembered(env: Env, s: Store)
    requires Sound(env, s)
    ensures Remembers(env, s, HeadOf(Read(s).value))
  {
    var st := Read(s).value;
    Contiguous(env, st.anchor, st.entries, |st.entries|);
  }

  lemma AppendRemembers(env: Env, s: Store, input: Input, now: string, cp: Checkpoint)
    requires EnvOk(env) && Harmless(env, s, AppendOp(input, now)) && Remembers(env, s, cp)
    ensures Remembers(env, Append(env, s, input, now).0, cp)
  {
    var st := Read(s).value;
    AppendExactly(env, s, input, now);
    var (s', r) := Append(env, s, input, now);
    if r.Ok? {
      Contiguous(env, s'.anchor, s'.entries, |s'.entries|);
      if s'.anchor.seqNo <= cp.seqNo {
        var k := cp.seqNo - st.anchor.seqNo;
        assert PointAt(s'.anchor, s'.entries, k) == PointAt(st.anchor, st.entries, k);
      }
    }
  }

  lemma PruneRemembers(env: Env, s: Store, limit: Positive, cp: Checkpoint)
    requires Remembers(env, s, cp)
    ensures Remembers(env, Prune(s, limit).0, cp)
  {
    var st := Read(s).value;
    PruneExactly(env, s, limit);
    var dropped := Prune(s, limit).1;
    SuffixGood(env, st.anchor, st.entries, dropped);
    Contiguous(env, st.anchor, st.entries, dropped);
  }

  /** Every run of appends and prunes remembers every checkpoint its start remembers. */
  lemma {:induction false} RunRemembers(env: Env, s: Store, ops: seq<Op>, cp: Checkpoint)
    requires EnvOk(env) && HarmlessRun(env, s, ops) && Remembers(env, s, cp)
    ensures Remembers(env, Run(env, s, ops), cp)
    decreases |ops|
  {
    if ops != [] {
      match ops[0] {
        case AppendOp(input, now) => AppendRemembers(env, s, input, now, cp);
        case PruneOp(limit) => PruneRemembers(env, s, limit, cp);
      }
      RunRemembers(env, Do(env, s, ops[0]), ops[1..], cp);
    }
  }

  /**
   * From any verifying chain, such as the empty storage, every run stays verifiable; and a head saved at
   * the start verifies after the run exactly until a prune has moved the anchor past it.
   */
  lemma SavedHeadVerifies(env: Env, s: Store, ops: seq<Op>)
    requires EnvOk(env) && Sound(env, s) && HarmlessRun(env, s, ops)
    ensures var s' := Run(env, s, ops); var head := HeadOf(Read(s).value);
      && VerifyStore(env, s', None).Intact?
      && (VerifyStore(env, s', Some(head)).Intact? <==> Read(s').value.anchor.seqNo <= head.seqNo)
  {
    var s', head := Run(env, s, ops), HeadOf(Read(s).value);
    HeadIsRemembered(env, s);
    RunRemembers(env, s, ops, head);
    var st' := Read(s').value;
    if OnChain(st'.anchor, st'.entries, head) {
      var k :| 0 <= k <= |st'.entries| && SamePoint(PointAt(st'.anchor, st'.entries, k), head);
      assert GoodPrefix(env, st'.anchor, st'.entries, k);
      Contiguous(env, st'.anchor, st'.entries, k);
    }
  }

  /** Redaction leaves what the append stamps and labels alone, and the clock reads as a date. */
  ghost predicate LeftAlone(env: Env, op: Op)
  {
    op.AppendOp? ==>
      && env.parses(op.now) && env.redact(op.now) == op.now
      && (op.input.at.Some? ==> env.redact(op.input.at.value) == op.input.at.value)
      && env.redact(op.input.subjectKind) == op.input.subjectKind && env.redact(op.input.subjectId) == op.input.subjectId
  }

  /** The head's instant, if it has one, is a date that redaction leaves alone. */
  ghost predicate HeadLeftAlone(env: Env, s: Store)
  {
    Read(s).Some? && var at := HeadOf(Read(s).value).at; at.Some? ==> env.redact(at.value) == at.value && env.parses(at.value)
  }

  /** The stamp of an append is one of the instants redaction leaves alone. */
  lemma StampLeftAlone(env: Env, head: Checkpoint, op: Op)
    requires op.AppendOp? && LeftAlone(env, op) && (op.input.at.Some? ==> env.parses(op.input.at.value))
    requires head.at.Some? ==> env.redact(head.at.value) == head.at.value && env.parses(head.at.value)
    ensures var at := StampOf(head, op.input, op.now); env.redact(at) == at && env.parses(at)
  {
  }

  lemma HarmlessAppend(env: Env, s: Store, op: Op)
    requires EnvOk(env) && Sound(env, s) && HeadLeftAlone(env, s) && op.AppendOp? && LeftAlone(env, op) && InputAccepted(env, op.input)
    ensures Harmless(env, s, op)
  {
    var head := HeadOf(Read(s).value);
    StampLeftAlone(env, head, op);
    if head.at.Some? { LessIrreflexive(head.at.value); }
  }

  lemma HarmlessStep(env: Env, s: Store, op: Op)
    requires EnvOk(env) && Sound(env, s) && HeadLeftAlone(env, s) && LeftAlone(env, op)
    ensures Harmless(env, s, op) && Sound(env, Do(env, s, op)) && HeadLeftAlone(env, Do(env, s, op))
  {
    match op
    case PruneOp(limit) => PruneExactly(env, s, limit);
    case AppendOp(input, now) =>
      AppendExactly(env, s, input, now);
      if InputAccepted(env, input) {
        HarmlessAppend(env, s, op);
        StampLeftAlone(env, HeadOf(Read(s).value), op);
      }
  }

  /** From inputs alone: when redaction leaves every instant and label alone, every run is harmless, so it stays verifiable. */
  lemma {:induction false} HarmlessInputs(env: Env, s: Store, ops: seq<Op>)
    requires EnvOk(env) && Sound(env, s) && HeadLeftAlone(env, s) && forall i | 0 <= i < |ops| :: LeftAlone(env, ops[i])
    ensures HarmlessRun(env, s, ops) && VerifyStore(env, Run(env, s, ops), None).Intact?
    decreases |ops|
  {
    if ops != [] {
      HarmlessStep(env, s, ops[0]);
      HarmlessInputs(env, Do(env, s, ops[0]), ops[1..]);
    }
  }

  /** Two adjacent non-decreasing steps compose. */
  lemma NotBefore(a: string, b: string, c: string)
    requires !Less(b, a) && !Less(c, b)
    ensures !Less(c, a)
  {
    LessTotal(a, b);
    LessTotal(b, c);
    if Less(c, a) {
      if a != b { LessTransitive(c, a, b); }
    }
  }

  /** In a verifying chain time never goes back between any two entries. */
  lemma {:induction false} Chronological(env: Env, anchor: Checkpoint, entries: seq<Raw>, i: nat, j: nat)
    requires EnvOk(env) && i <= j < |entries| && GoodPrefix(env, anchor, entries, |entries|)
    ensures entries[i].Item? && entries[j].Item? && !Less(entries[j].entry.body.at, entries[i].entry.body.at)
    decreases j - i
  {
    assert Linked(env, anchor, entries, i) && Linked(env, anchor, entries, j);
    if i == j {
      LessIrreflexive(entries[i].entry.body.at);
    } else {
      Chronological(env, anchor, entries, i, j - 1);
      assert entries[j - 1].entry.body.at != "" by { assert Linked(env, anchor, entries, j - 1); }
      NotBefore(entries[i].entry.body.at, entries[j - 1].entry.body.at, entries[j].entry.body.at);
    }
  }

  // ---------------------------------------------------------------- exports

  /** The only reasons to refuse a maintainer the export of a verifying chain. */
  predicate BadStart(st: Store, fromSeq: Option<int>)
    requires st.Stored?
  {
    fromSeq.Some? && (fromSeq.value < 1 || fromSeq.value > Max(st.anchor.seqNo + 1, HeadOf(st).seqNo))
  }

  /** In a verifying chain the entry with a retained sequence number is found at its offset. */
  lemma FoundAt(env: Env, st: Store, seqNo: int)
    requires st.Stored? && GoodPrefix(env, st.anchor, st.entries, |st.entries|) && st.anchor.seqNo < seqNo
    ensures FindSeq(st.entries, seqNo, 0) ==
      if seqNo <= st.anchor.seqNo + |st.entries| then seqNo - st.anchor.seqNo - 1 else |st.entries|
  {
    var index := FindSeq(st.entries, seqNo, 0);
    if index < |st.entries| { SeqAt(env, st, index); }
    if seqNo <= st.anchor.seqNo + |st.entries| { SeqAt(env, st, seqNo - st.anchor.seqNo - 1); }
  }

  /** What an accepted export packs, and when it is refused. */
  lemma ExportContents(env: Env, s: Store, json: bool, fromSeq: Option<int>)
    requires Sound(env, s)
    ensures var st := Read(s).value;
      ExportChain(s, true, json, fromSeq) ==
        if BadStart(st, fromSeq) then Err(InvalidField)
        else var start := ExportStart(st, fromSeq);
             Ok(Packed(PointAt(st.anchor, st.entries, start), st.entries[start..], json))
  {
    var st := Read(s).value;
    Contiguous(env, st.anchor, st.entries, |st.entries|);
    assert st.entries[0..] == st.entries;
    if fromSeq.Some? && st.anchor.seqNo + 1 < fromSeq.value {
      FoundAt(env, st, fromSeq.value);
      if !BadStart(st, fromSeq) { SeqAt(env, st, ExportStart(st, fromSeq) - 1); }
    }
  }

  /** A maintainer is refused a broken ledger exactly when its storage cannot be read, whatever the chain in it. */
  lemma ExportRefusedExactly(s: Store, json: bool, fromSeq: Option<int>)
    ensures ExportChain(s, true, json, fromSeq) == Err(LedgerBroken) <==> Read(s).None?
  {
  }

  /** Where an export from `fromSeq` begins, in any readable chain. */
  function WindowStart(st: Store, fromSeq: Option<int>): (k: nat)
    requires st.Stored?
    ensures k <= |st.entries|
  {
    if fromSeq.Some? && fromSeq.value > st.anchor.seqNo + 1 then FindSeq(st.entries, fromSeq.value, 0) else 0
  }

  /** Every entry from place `d` on passes its checks where it stands. */
  ghost predicate LinkedFrom(env: Env, anchor: Checkpoint, entries: seq<Raw>, d: nat)
  {
    forall i | d <= i < |entries| :: Linked(env, anchor, entries, i)
  }

  lemma WindowPoint(anchor: Checkpoint, entries: seq<Raw>, d: nat, i: nat)
    requires d <= i <= |entries| && (d > 0 ==> entries[d - 1].Item?) && (i > 0 ==> entries[i - 1].Item?)
    ensures PointAt(PointAt(anchor, entries, d), entries[d..], i - d) == PointAt(anchor, entries, i)
  {
    if i > d { assert entries[d..][i - d - 1] == entries[i - 1]; }
  }

  /** A window verifies from the entry before it exactly when its entries pass their checks in place. */
  lemma {:induction false} WindowGood(env: Env, anchor: Checkpoint, entries: seq<Raw>, d: nat, k: nat)
    requires d <= k <= |entries| && (d > 0 ==> entries[d - 1].Item?)
    ensures GoodPrefix(env, PointAt(anchor, entries, d), entries[d..], k - d) <==> forall i | d <= i < k :: Linked(env, anchor, entries, i)
    decreases k
  {
    if k > d {
      var anchor', window := PointAt(anchor, entries, d), entries[d..];
      WindowGood(env, anchor, entries, d, k - 1);
      assert window[k - 1 - d] == entries[k - 1];
      if k - 1 > d && entries[k - 2].Junk? {
        assert window[k - 2 - d] == entries[k - 2];
        assert !Linked(env, anchor', window, k - 2 - d) && !Linked(env, anchor, entries, k - 2);
      } else {
        WindowPoint(anchor, entries, d, k - 1);
        assert Linked(env, anchor', window, k - 1 - d) <==> Linked(env, anchor, entries, k - 1);
      }
    }
  }

  /** An export is reported intact exactly when its anchor is well formed and its entries verify from it. */
  lemma PackedExactly(env: Env, anchor: Checkpoint, entries: seq<Raw>, json: bool)
    requires EnvOk(env)
    ensures VerifyExport(env, Packed(anchor, entries, json), None).Intact? <==>
            IsCheckpoint(anchor) && GoodPrefix(env, anchor, entries, |entries|)
  {
    if IsCheckpoint(anchor) && GoodPrefix(env, anchor, entries, |entries|) { PointsAreCheckpoints(env, anchor, entries, |entries|); }
  }

  /**
   * Any readable chain is exported, verifying or not. What is exported is the chain from `fromSeq` on, and it is
   * reported intact exactly when its own entries pass their checks: a break is reported when it lies in the export,
   * and only then.
   */
  lemma ExportReportsItsOwnBreaks(env: Env, s: Store, json: bool, fromSeq: Option<int>)
    requires EnvOk(env) && Read(s).Some? && ExportChain(s, true, json, fromSeq).Ok?
    ensures var st := Read(s).value; var start := WindowStart(st, fromSeq); var x := ExportChain(s, true, json, fromSeq).value;
      && x.entries == st.entries[start..]
      && (VerifyExport(env, x, None).Intact? <==> IsCheckpoint(PointAt(st.anchor, st.entries, start)) && LinkedFrom(env, st.anchor, st.entries, start))
  {
    var st := Read(s).value;
    var start := WindowStart(st, fromSeq);
    assert st.entries[0..] == st.entries;
    WindowGood(env, st.anchor, st.entries, start, |st.entries|);
    PackedExactly(env, PointAt(st.anchor, st.entries, start), st.entries[start..], json);
  }

  /** So a whole export of a readable chain is always made, and is reported intact exactly when the chain verifies. */
  lemma WholeExportExactly(env: Env, s: Store, json: bool)
    requires EnvOk(env) && Read(s).Some?
    ensures ExportChain(s, true, json, None).Ok? && ExportChain(s, true, json, None).value.entries == Read(s).value.entries
    ensures VerifyExport(env, ExportChain(s, true, json, None).value, None).Intact? <==> Sound(env, s)
  {
    var st := Read(s).value;
    assert st.entries[0..] == st.entries;
    ExportReportsItsOwnBreaks(env, s, json, None);
  }

  /**
   * Every export of a verifying chain re-verifies on its own, holds exactly the retained entries from
   * `fromSeq` on, and is refused exactly when `fromSeq` names no retained or next entry.
   */
  lemma ExportVerifies(env: Env, s: Store, json: bool, fromSeq: Option<int>)
    requires EnvOk(env) && Sound(env, s)
    ensures var st := Read(s).value; var r := ExportChain(s, true, json, fromSeq);
      && (r.Err? <==> BadStart(st, fromSeq))
      && (r.Ok? ==>
            && VerifyExport(env, r.value, None).Intact?
            && r.value.entries == st.entries[ExportStart(st, fromSeq)..])
  {
    var st := Read(s).value;
    var start := ExportStart(st, fromSeq);
    ExportContents(env, s, json, fromSeq);
    SuffixGood(env, st.anchor, st.entries, start);
    PointsAreCheckpoints(env, st.anchor, st.entries, start);
    PackedExactly(env, PointAt(st.anchor, st.entries, start), st.entries[start..], json);
  }

  /** How many retained entries an export from `fromSeq` leaves out. */
  ghost function ExportStart(st: Store, fromSeq: Option<int>): nat
    requires st.Stored?
    ensures ExportStart(st, fromSeq) <= |st.entries|
  {
    if fromSeq.Some? && st.anchor.seqNo + 1 < fromSeq.value <= st.anchor.seqNo + |st.entries|
    then fromSeq.value - st.anchor.seqNo - 1 else 0
  }

  lemma SeqAt(env: Env, st: Store, i: nat)
    requires st.Stored? && i < |st.entries| && GoodPrefix(env, st.anchor, st.entries, |st.entries|)
    ensures st.entries[i].Item? && st.entries[i].entry.body.seqNo == st.anchor.seqNo + i + 1
  {
    Contiguous(env, st.anchor, st.entries, i);
    assert Linked(env, st.anchor, st.entries, i);
  }

  /** An export cut after `k` entries, header untouched, is not mistaken for a complete one. */
  lemma TrimmedExportReported(env: Env, s: Store, json: bool, k: nat)
    requires EnvOk(env) && Sound(env, s) && k < |Read(s).value.entries|
    ensures var x := ExportChain(s, true, json, None).value;
      var cut := x.(entries := x.entries[..k]);
      VerifyExport(env, cut, None).Broken? && VerifyExport(env, cut, None).code == HeadMismatch
  {
    var st := Read(s).value;
    ExportContents(env, s, json, None);
    PrefixGood(env, st.anchor, st.entries, k);
    PointsAreCheckpoints(env, st.anchor, st.entries, |st.entries|);
  }

  // ---------------------------------------------------------------- reseal

  /** One entry built after the first `kept` of a verifying chain extends it exactly when its stamp survives redaction. */
  lemma OneMoreAfter(env: Env, anchor: Checkpoint, entries: seq<Raw>, kept: nat, input: Input, at: string)
    requires EnvOk(env) && IsCheckpoint(anchor) && kept <= |entries| && GoodPrefix(env, anchor, entries, kept)
    requires ActionFits(env, input.action, input.kind)
    ensures var previous := PointAt(anchor, entries, kept);
      GoodPrefix(env, anchor, entries[..kept] + [Item(Build(env, previous, input, at))], kept + 1) <==> StampSafe(env, previous, input, at)
  {
    var previous := PointAt(anchor, entries, kept);
    PrefixGood(env, anchor, entries, kept);
    PointsAreCheckpoints(env, anchor, entries, kept);
    BuiltEntryVerifies(env, previous, input, at);
    ExtendGood(env, anchor, entries[..kept], Item(Build(env, previous, input, at)));
  }

  /**
   * On any storage that fails to verify, `reseal` keeps exactly the longest verifying prefix over the old
   * anchor (genesis when unreadable), adds one entry after it, and verifies again exactly when that
   * entry's stamp survives redaction.
   */
  lemma ResealRestores(env: Env, s: Store, actor: string, reason: string, now: string,
                       report: (Verification, int, string) -> map<string, string>)
    requires EnvOk(env) && actor != "" && IsReason(reason) && !Sound(env, s)
    ensures var (s', r) := Reseal(env, s, Some(actor), reason, now, report);
      && r.Ok? && s'.Stored?
      && var st := if Read(s).Some? then Read(s).value else Stored(GENESIS, []);
      && var kept := |s'.entries| - 1;
      && 0 <= kept <= |st.entries| && s'.anchor == st.anchor && s'.entries[..kept] == st.entries[..kept]
      && GoodPrefix(env, st.anchor, st.entries, kept)
      && (kept < |st.entries| ==> !GoodPrefix(env, st.anchor, st.entries, kept + 1))
      && r.value.droppedEntries == |st.entries| - kept
      && (Sound(env, s') <==>
            var previous := PointAt(st.anchor, st.entries, kept);
            StampSafe(env, previous,
              ResealInput(VerifyStore(env, s, None), |st.entries| - kept, actor, reason, now, report),
              ResealStamp(previous, now)))
  {
    var st := if Read(s).Some? then Read(s).value else Stored(GENESIS, []);
    var verification := VerifyStore(env, s, None);
    var (s', r) := Reseal(env, s, Some(actor), reason, now, report);
    var kept := verification.verified;
    OneMoreAfter(env, st.anchor, st.entries, kept,
      ResealInput(verification, |st.entries| - kept, actor, reason, now, report), ResealStamp(verification.lastGood, now));
  }

  /** The instant is missing, or a date that redaction leaves alone. */
  predicate InstantKept(env: Env, at: Option<string>)
  {
    at.Some? && at.value != "" ==> env.redact(at.value) == at.value && env.parses(at.value)
  }

  /** What a reseal is given survives redaction: the clock, its own labels, and every instant it may resume from. */
  ghost predicate ResealLeftAlone(env: Env, st: Store, now: string)
    requires st.Stored?
  {
    && env.parses(now) && env.redact(now) == now && |QUARANTINE_PREFIX + now| <= 128
    && env.redact("ledger") == "ledger" && env.redact(QUARANTINE_PREFIX + now) == QUARANTINE_PREFIX + now
    && forall k: nat | k <= |st.entries| :: InstantKept(env, PointAt(st.anchor, st.entries, k).at)
  }

  lemma ResealStampSafe(env: Env, st: Store, previous: Checkpoint, input: Input, now: string)
    requires st.Stored? && ResealLeftAlone(env, st, now) && InstantKept(env, previous.at)
    requires input.subjectKind == "ledger" && input.subjectId == QUARANTINE_PREFIX + now
    ensures StampSafe(env, previous, input, ResealStamp(previous, now))
  {
    if previous.at.Some? { LessIrreflexive(previous.at.value); }
    assert (QUARANTINE_PREFIX + now)[0] == 'u' && "ledger"[0] == 'l';
    NotBlank("ledger");
    NotBlank(QUARANTINE_PREFIX + now);
  }

  /** From inputs alone: a reseal of any broken storage whose clock, labels and instants redaction leaves alone verifies again. */
  lemma ResealInputs(env: Env, s: Store, actor: string, reason: string, now: string,
                     report: (Verification, int, string) -> map<string, string>)
    requires EnvOk(env) && actor != "" && IsReason(reason) && !Sound(env, s)
    requires ResealLeftAlone(env, if Read(s).Some? then Read(s).value else Stored(GENESIS, []), now)
    ensures Sound(env, Reseal(env, s, Some(actor), reason, now, report).0)
  {
    ResealRestores(env, s, actor, reason, now, report);
    var st := if Read(s).Some? then Read(s).value else Stored(GENESIS, []);
    var s' := Reseal(env, s, Some(actor), reason, now, report).0;
    var kept: nat := |s'.entries| - 1;
    ResealStampSafe(env, st, PointAt(st.anchor, st.entries, kept),
      ResealInput(VerifyStore(env, s, None), |st.entries| - kept, actor, reason, now, report), now);
  }

  // ---------------------------------------------------------------- the ledger object

  /** `createLedger`: the stored chain, the quarantine, and the operations that rewrite them. */
  class LedgerObject {
    const env: Env
    const limit: Positive
    var store: Store
    var quarantine: map<string, Store>

    constructor (env: Env, limit: int)
      ensures this.env == env && this.limit == Max(1, limit) && store == Absent && quarantine == map[]
    {
      this.env := env;
      this.limit := Max(1, limit);
      store := Absent;
      quarantine := map[];
    }

    method AppendEntry(input: Input, now: string) returns (r: Result<Entry, ErrorCode>)
      modifies this`store
      ensures (store, r) == Append(env, old(store), input, now)
    {
      if !InputAccepted(env, input) { return Err(InvalidField); }
      var current := Read(store);
      if current.None? { return Err(LedgerBroken); }
      var state := current.value;
      if HeadEdited(env, state) { return Err(LedgerBroken); }
      var previous := HeadOf(state);
      var at := if input.at.Some? then input.at.value else now;
      if Before(at, previous) {
        if input.at.Some? { return Err(OutOfOrderWrite); }
        at := previous.at.value;
      }
      var entry := Build(env, previous, input, at);
      store := state.(entries := state.entries + [Item(entry)]);
      r := Ok(entry);
    }

    method Verify(expected: Option<Checkpoint>) returns (r: Verification)
      ensures r == VerifyStore(env, store, expected)
    {
      var current := Read(store);
      if current.None? { return Broken(Corrupt, None, 0, GENESIS); }
      r := VerifyLedgerChain(env, current.value.entries, current.value.anchor, expected);
    }

    method PruneOldest() returns (dropped: nat)
      modifies this`store
      ensures (store, dropped) == Prune(old(store), limit)
    {
      var current := Read(store);
      if current.None? { return 0; }
      var state := current.value;
      if |state.entries| <= limit { return 0; }
      dropped := |state.entries| - limit;
      var lastDropped := state.entries[dropped - 1];
      store := if lastDropped.Junk? then Unreadable else Stored(PointOf(lastDropped.entry), state.entries[dropped..]);
    }

    /** The evidence is set aside unchanged before the chain is rewritten. */
    method ResealChain(actor: Option<string>, reason: string, now: string,
                       report: (Verification, int, string) -> map<string, string>)
      returns (r: Result<ResealReport, ErrorCode>)
      modifies this
      ensures (store, r) == Reseal(env, old(store), actor, reason, now, report)
      ensures quarantine == if r.Ok? then old(quarantine)[QUARANTINE_PREFIX + now := old(store)] else old(quarantine)
    {
      if actor.None? || actor.value == "" { return Err(LedgerDenied); }
      if !IsReason(reason) { return Err(InvalidField); }
      var verification := Verify(None);
      if verification.Intact? { return Err(LedgerIntact); }
      quarantine := quarantine[QUARANTINE_PREFIX + now := store];
      var current := Read(store);
      var anchor := if current.Some? then current.value.anchor else GENESIS;
      var kept := if current.Some? then current.value.entries[..verification.verified] else [];
      var total := if current.Some? then |current.value.entries| else 0;
      var resumedFrom := verification.lastGood;
      var input := ResealInput(verification, total - |kept|, actor.value, reason, now, report);
      var entry := Build(env, resumedFrom, input, ResealStamp(resumedFrom, now));
      store := Stored(anchor, kept + [Item(entry)]);
      r := Ok(ResealReport(verification.code, QUARANTINE_PREFIX + now, resumedFrom, total - |kept|, entry));
    }
  }
}
