/** Exports submitted under an idempotency key: what a retried submission answers. */
module ExportReplay {
  import opened Prelude
  import opened Idempotency
  import Exports
  import ExportForms
  import FieldAuthorization

  /** What generating the export comes to: a refusal, a spent allowance, or an envelope. */
  datatype Body<T> = Refuses(code: string) | OverQuota(code: string) | Mints(envelope: T)

  datatype Answer<T> = Answered(envelope: T) | Denied(code: string) | Unavailable(why: Code)

  /** The body of `exportRecords` for a request. */
  function BodyOf(
    req: Exports.Request, sources: seq<Exports.Source>, quota: Option<string>, redact: FieldAuthorization.Record -> FieldAuthorization.Record,
    base: Exports.Digester, pageSize: Option<int>, page: Option<int>, cursor: Option<string>): Body<ExportForms.Envelope>
  {
    match ExportForms.ExportRecords(req, sources, quota, redact, base, pageSize, page, cursor)
    case Ok(envelope) => Mints(envelope)
    case Err(code) => if Exports.Gate(req, sources, None).Some? then Refuses(code) else OverQuota(code)
  }

  /** A submission under a key; the digest is that of the request's schema, scope, actor, page size, page and cursor. */
  datatype Submission<T> = Submission(key: string, digest: string, now: int, body: Body<T>)

  function RequestOf<T>(sub: Submission<T>): Request { Request(Some(sub.key), OPERATION, sub.digest) }

  /** The export runs and its outcome settles the claim; an allowance spent releases it. */
  function Generate<T>(env: Env<T>, s: Storage<T>, key: string, body: Body<T>): (Storage<T>, Answer<T>)
  {
    match body
    case Refuses(code) => (Settle(env, s, key, Failed(code)).0, Denied(code))
    case OverQuota(code) => (Abandon(s, key).0, Denied(code))
    case Mints(envelope) =>
      match Settle(env, s, key, Completed(envelope))
      case (settled, Ok(_)) => (settled, Answered(envelope))
      case (unsettled, Err(code)) => (Abandon(unsettled, key).0, Unavailable(code))
  }

  /** `exportRecords` with an idempotency key: a stored envelope is replayed, anything else runs the export. */
  function Submit<T>(env: Env<T>, s: Storage<T>, sub: Submission<T>): (Storage<T>, Answer<T>)
  {
    match Begin(env, s, RequestOf(sub), sub.now)
    case (begun, Err(code)) => (begun, Unavailable(code))
    case (begun, Ok(Replay(record))) =>
      if record.status.Completed? then (begun, Answered(record.status.response)) else Generate(env, begun, sub.key, sub.body)
    case (begun, Ok(Claimed(_))) => Generate(env, begun, sub.key, sub.body)
  }

  function SubmitAll<T>(env: Env<T>, s: Storage<T>, subs: seq<Submission<T>>): Storage<T>
  {
    if subs == [] then s else Submit(env, SubmitAll(env, s, subs[..|subs| - 1]), subs[|subs| - 1]).0
  }

  function AnswerTo<T>(env: Env<T>, s: Storage<T>, subs: seq<Submission<T>>, i: nat): Answer<T>
    requires i < |subs|
  {
    Submit(env, SubmitAll(env, s, subs[..i]), subs[i]).1
  }

  // ---------------------------------------------------------------- one submission

  const OPERATION := "export.generate"

  /** The key is settled so under a request digest, its response written once when it was settled and once per replay. */
  ghost predicate Bound<T>(env: Env<T>, s: Storage<T>, key: string, digest: string, settled: Status<T>)
  {
    Holds(env, s, key, settled) && !settled.InFlight? && s[key].record.digest == digest && s[key].record.operation == OPERATION
  }

  /** What a submission of a settled key answers: it stays settled so, unless it has lapsed. */
  lemma OnBound<T>(env: Env<T>, s: Storage<T>, sub: Submission<T>, digest: string, settled: Status<T>)
    requires Bound(env, s, sub.key, digest, settled) && ValidKey(sub.key)
    ensures var (later, answer) := Submit(env, s, sub);
      if Lapsed(s[sub.key].record, sub.now) then answer == Unavailable(KeyExpired)
      else
        && Bound(env, later, sub.key, digest, settled)
        && (sub.digest != digest ==> answer == Unavailable(Conflict))
        && (sub.digest == digest && settled.Completed? ==>
              answer == Answered(Rewritten(env, s[sub.key].record.replays + 1, settled.response)))
        && (settled.Failed? ==> !answer.Answered?)
  {
  }

  /** A submission leaves the records of other keys alone. */
  lemma OtherKeys<T>(env: Env<T>, s: Storage<T>, sub: Submission<T>, key: string)
    requires key != sub.key
    ensures var later := Submit(env, s, sub).0; (key in later <==> key in s) && (key in s ==> later[key] == s[key])
  {
  }

  /** The first submission of a key settles it, unless the allowance was spent. */
  lemma OnFirst<T>(env: Env<T>, s: Storage<T>, sub: Submission<T>)
    requires !Present(s, sub.key) && ValidKey(sub.key)
    ensures var (later, answer) := Submit(env, s, sub);
      match sub.body
      case Refuses(code) => answer == Denied(code) && Bound(env, later, sub.key, sub.digest, Failed(code))
      case OverQuota(code) => answer == Denied(code) && !Present(later, sub.key)
      case Mints(e) =>
        && answer == Answered(e) && Bound(env, later, sub.key, sub.digest, Completed(e))
        && later[sub.key].record.expiresAt == sub.now + env.ttl && later[sub.key].record.replays == 0
  {
    assert forall v :: Rewritten(env, 1, v) == env.persist(Rewritten(env, 0, v));
  }

  // ---------------------------------------------------------------- every history of submissions

  ghost predicate LapsedIn<T>(env: Env<T>, s: Storage<T>, subs: seq<Submission<T>>, from: nat, to: nat, key: string)
    requires to <= |subs|
  {
    exists m | from <= m < to :: subs[m].key == key && AnswerTo(env, s, subs, m) == Unavailable(KeyExpired)
  }

  lemma AfterOne<T>(env: Env<T>, s: Storage<T>, subs: seq<Submission<T>>, i: nat)
    requires i < |subs|
    ensures SubmitAll(env, s, subs[..i + 1]) == Submit(env, SubmitAll(env, s, subs[..i]), subs[i]).0
  {
    assert subs[..i + 1][..i] == subs[..i];
  }

  lemma NotLapsedBefore<T>(env: Env<T>, s: Storage<T>, subs: seq<Submission<T>>, i: nat, j: nat, key: string)
    requires i < j <= |subs| && !LapsedIn(env, s, subs, i, j, key)
    ensures !LapsedIn(env, s, subs, i, j - 1, key)
    ensures subs[j - 1].key == key ==> Submit(env, SubmitAll(env, s, subs[..j - 1]), subs[j - 1]).1 != Unavailable(KeyExpired)
  {
    assert AnswerTo(env, s, subs, j - 1) == Submit(env, SubmitAll(env, s, subs[..j - 1]), subs[j - 1]).1;
  }

  lemma BoundElsewhere<T>(env: Env<T>, a: Storage<T>, b: Storage<T>, key: string, digest: string, settled: Status<T>)
    requires Bound(env, a, key, digest, settled) && key in b && b[key] == a[key]
    ensures Bound(env, b, key, digest, settled)
  {
  }

  /** No submission undoes a settled key, but one that finds it lapsed. */
  lemma BoundStep<T>(env: Env<T>, s: Storage<T>, sub: Submission<T>, key: string, digest: string, settled: Status<T>)
    requires ValidKey(key) && Bound(env, s, key, digest, settled)
    requires sub.key == key ==> Submit(env, s, sub).1 != Unavailable(KeyExpired)
    ensures Bound(env, Submit(env, s, sub).0, key, digest, settled)
  {
    if sub.key == key {
      OnBound(env, s, sub, digest, settled);
    } else {
      OtherKeys(env, s, sub, key);
      BoundElsewhere(env, s, Submit(env, s, sub).0, key, digest, settled);
    }
  }

  /** Until a submission finds it lapsed, a settled key stays settled so. */
  lemma {:induction false} StaysBound<T>(
    env: Env<T>, s: Storage<T>, subs: seq<Submission<T>>, i: nat, j: nat, key: string, digest: string, settled: Status<T>)
    requires i <= j <= |subs| && ValidKey(key) && Bound(env, SubmitAll(env, s, subs[..i]), key, digest, settled)
    requires !LapsedIn(env, s, subs, i, j, key)
    ensures Bound(env, SubmitAll(env, s, subs[..j]), key, digest, settled)
    decreases j
  {
    if i < j {
      NotLapsedBefore(env, s, subs, i, j, key);
      StaysBound(env, s, subs, i, j - 1, key, digest, settled);
      AfterOne(env, s, subs, j - 1);
      BoundStep(env, SubmitAll(env, s, subs[..j - 1]), subs[j - 1], key, digest, settled);
    }
  }

  /** Submission `i` finds no record of its key. */
  predicate IsFirst<T>(env: Env<T>, s: Storage<T>, subs: seq<Submission<T>>, i: nat)
    requires i < |subs|
  {
    ValidKey(subs[i].key) && !Present(SubmitAll(env, s, subs[..i]), subs[i].key)
  }

  /** A first submission that is not over quota binds its key until it lapses. */
  lemma FirstBinds<T>(env: Env<T>, s: Storage<T>, subs: seq<Submission<T>>, i: nat, j: nat)
    requires i < j <= |subs| && IsFirst(env, s, subs, i) && !subs[i].body.OverQuota? && !LapsedIn(env, s, subs, i + 1, j, subs[i].key)
    ensures var body := subs[i].body;
      Bound(env, SubmitAll(env, s, subs[..j]), subs[i].key, subs[i].digest,
            if body.Mints? then Completed(body.envelope) else Failed(body.code))
  {
    var body := subs[i].body;
    OnFirst(env, SubmitAll(env, s, subs[..i]), subs[i]);
    AfterOne(env, s, subs, i);
    StaysBound(env, s, subs, i + 1, j, subs[i].key, subs[i].digest,
               if body.Mints? then Completed(body.envelope) else Failed(body.code));
  }

  /** One key mints one artifact: a second first submission comes only after one found the key lapsed. */
  lemma OneArtifact<T>(env: Env<T>, s: Storage<T>, subs: seq<Submission<T>>, i: nat, j: nat)
    requires i < j < |subs| && subs[i].key == subs[j].key && IsFirst(env, s, subs, i) && IsFirst(env, s, subs, j)
    requires subs[i].body.Mints?
    ensures LapsedIn(env, s, subs, i + 1, j, subs[i].key)
  {
    if !LapsedIn(env, s, subs, i + 1, j, subs[i].key) {
      FirstBinds(env, s, subs, i, j);
      assert false;
    }
  }

  /**
   * Retried before it lapses, a minted export answers its own envelope, scrubbed once more per replay, whatever the
   * sources hold by then; a different digest is a conflict.
   */
  lemma RetryReplays<T>(env: Env<T>, s: Storage<T>, subs: seq<Submission<T>>, i: nat, j: nat)
    requires i < j < |subs| && subs[i].key == subs[j].key && IsFirst(env, s, subs, i) && subs[i].body.Mints?
    requires !LapsedIn(env, s, subs, i + 1, j + 1, subs[i].key)
    ensures AnswerTo(env, s, subs, j) ==
      if subs[j].digest != subs[i].digest then Unavailable(Conflict)
      else Answered(Rewritten(env, ReplaysOf(SubmitAll(env, s, subs[..j]), subs[j].key) + 1, subs[i].body.envelope))
  {
    FirstBinds(env, s, subs, i, j);
    OnBound(env, SubmitAll(env, s, subs[..j]), subs[j], subs[i].digest, Completed(subs[i].body.envelope));
    assert AnswerTo(env, s, subs, j) != Unavailable(KeyExpired);
  }

  function ReplaysOf<T>(s: Storage<T>, key: string): nat { if Present(s, key) then s[key].record.replays else 0 }

  /**
   * A refusal is not replayed, but it bars the key: until it lapses no submission of the key is answered with an
   * envelope, even one the export would accept.
   */
  lemma RefusalBarsKey<T>(env: Env<T>, s: Storage<T>, subs: seq<Submission<T>>, i: nat, j: nat)
    requires i < j < |subs| && subs[i].key == subs[j].key && IsFirst(env, s, subs, i) && subs[i].body.Refuses?
    requires !LapsedIn(env, s, subs, i + 1, j, subs[i].key)
    ensures !AnswerTo(env, s, subs, j).Answered?
  {
    FirstBinds(env, s, subs, i, j);
    OnBound(env, SubmitAll(env, s, subs[..j]), subs[j], subs[i].digest, Failed(subs[i].body.code));
  }

  /** A duplicate export before it lapses: whatever the sources and the quota are by then, the first envelope is answered, scrubbed. */
  lemma DuplicateExportReplays(
    env: Env<ExportForms.Envelope>, s: Storage<ExportForms.Envelope>, key: string, digest: string, now: int, later: int,
    req: Exports.Request, sources: seq<Exports.Source>, sources': seq<Exports.Source>, quota: Option<string>, quota': Option<string>,
    redact: FieldAuthorization.Record -> FieldAuthorization.Record, base: Exports.Digester,
    pageSize: Option<int>, page: Option<int>, cursor: Option<string>)
    requires ValidKey(key) && !Present(s, key) && later < now + env.ttl
    requires ExportForms.ExportRecords(req, sources, quota, redact, base, pageSize, page, cursor).Ok?
    ensures var envelope := ExportForms.ExportRecords(req, sources, quota, redact, base, pageSize, page, cursor).value;
      var (s1, first) := Submit(env, s, Submission(key, digest, now, BodyOf(req, sources, quota, redact, base, pageSize, page, cursor)));
      var second := Submit(env, s1, Submission(key, digest, later, BodyOf(req, sources', quota', redact, base, pageSize, page, cursor))).1;
      first == Answered(envelope) && second == Answered(env.persist(envelope))
  {
    var body := BodyOf(req, sources, quota, redact, base, pageSize, page, cursor);
    var sub := Submission(key, digest, now, body);
    OnFirst(env, s, sub);
    Replayed(env, Submit(env, s, sub).0, Submission(key, digest, later, BodyOf(req, sources', quota', redact, base, pageSize, page, cursor)),
             body.envelope);
  }

  lemma Replayed<T>(env: Env<T>, s: Storage<T>, sub: Submission<T>, e: T)
    requires Bound(env, s, sub.key, sub.digest, Completed(e)) && ValidKey(sub.key)
    requires s[sub.key].record.replays == 0 && sub.now < s[sub.key].record.expiresAt
    ensures Submit(env, s, sub).1 == Answered(env.persist(e))
  {
    OnBound(env, s, sub, sub.digest, Completed(e));
    assert Rewritten(env, 1, e) == env.persist(Rewritten(env, 0, e));
  }
}
