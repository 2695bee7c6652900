/** Idempotency records: claiming a key, settling it, replaying it, and protected calls under any interleaving. */
module Idempotency {
  import opened Prelude
  import Redaction
  import Responses

  datatype Status<T> = InFlight | Completed(response: T) | Failed(code: string)

  datatype Record<T> = Record(operation: string, digest: string, status: Status<T>, createdAt: int, expiresAt: int, replays: nat)

  /** What the storage holds under a key: a record, or text that does not read as one. */
  datatype Stored<T> = Corrupt | Good(record: Record<T>)

  type Storage<T> = map<string, Stored<T>>

  /** `persist` is what writing a response does to it: redaction of objects, then the text form. */
  datatype Env<!T> = Env(ttl: int, persist: T -> T)

  datatype Code = Missing | Invalid | KeyExpired | Conflict | StillInFlight | NotFound

  datatype Request = Request(key: Option<string>, operation: string, digest: string)

  datatype Begun<T> = Claimed(record: Record<T>) | Replay(record: Record<T>)

  predicate KeyChar(c: char)
  {
    'A' <= c <= 'Z' || 'a' <= c <= 'z' || IsDigit(c) || c == '.' || c == '_' || c == ':' || c == '-'
  }

  predicate ValidKey(key: string) { 8 <= |key| <= 128 && forall i | 0 <= i < |key| :: KeyChar(key[i]) }

  predicate Present<T>(s: Storage<T>, key: string) { key in s && s[key].Good? }

  predicate Lapsed<T>(r: Record<T>, now: int) { r.expiresAt <= now }

  function Write<T>(env: Env<T>, s: Storage<T>, key: string, r: Record<T>): Storage<T>
  {
    s[key := Good(if r.status.Completed? then r.(status := Completed(env.persist(r.status.response))) else r)]
  }

  function Begin<T>(env: Env<T>, s: Storage<T>, req: Request, now: int): (Storage<T>, Result<Begun<T>, Code>)
  {
    if req.key.None? || req.key.value == [] then (s, Err(Missing))
    else if !ValidKey(req.key.value) then (s, Err(Invalid))
    else BeginKey(env, s, req.key.value, req.operation, req.digest, now)
  }

  /** `begin` on a well-formed key. */
  function BeginKey<T>(env: Env<T>, s: Storage<T>, key: string, operation: string, digest: string, now: int): (Storage<T>, Result<Begun<T>, Code>)
  {
    if !Present(s, key) then
      var record := Record(operation, digest, InFlight, now, now + env.ttl, 0);
      (Write(env, s, key, record), Ok(Claimed(record)))
    else
      var existing := s[key].record;
      if Lapsed(existing, now) then (s - {key}, Err(KeyExpired))
      else if existing.digest != digest || existing.operation != operation then (s, Err(Conflict))
      else if existing.status.InFlight? then (s, Err(StillInFlight))
      else
        var replayed := existing.(replays := existing.replays + 1);
        (Write(env, s, key, replayed), Ok(Replay(replayed)))
  }

  /** `complete` and `fail`: only a claim in flight is settled. */
  function Settle<T>(env: Env<T>, s: Storage<T>, key: string, status: Status<T>): (Storage<T>, Result<Record<T>, Code>)
  {
    if !Present(s, key) then (s, Err(NotFound))
    else if !s[key].record.status.InFlight? then (s, Err(StillInFlight))
    else (Write(env, s, key, s[key].record.(status := status)), Ok(s[key].record.(status := status)))
  }

  function Abandon<T>(s: Storage<T>, key: string): (Storage<T>, Option<Code>)
  {
    if !Present(s, key) then (s, Some(NotFound))
    else if !s[key].record.status.InFlight? then (s, Some(StillInFlight))
    else (s - {key}, None)
  }

  function Lookup<T>(s: Storage<T>, key: string, now: int): (Storage<T>, Result<Record<T>, Code>)
  {
    if !Present(s, key) then (s, Err(NotFound))
    else if Lapsed(s[key].record, now) then (s - {key}, Err(KeyExpired))
    else (s, Ok(s[key].record))
  }

  function SweepOne<T>(s: Storage<T>, key: string, now: int): Storage<T>
  {
    if Present(s, key) && Lapsed(s[key].record, now) then s - {key} else s
  }

  /** Drops the lapsed records among the keys enumerated. */
  function Sweep<T>(s: Storage<T>, keys: seq<string>, now: int): Storage<T>
  {
    if keys == [] then s else SweepOne(Sweep(s, keys[..|keys| - 1], now), keys[|keys| - 1], now)
  }

  // ---------------------------------------------------------------- protected calls

  /** What the protected work ends with. */
  datatype Work<T> = Succeeds(value: T) | Fails(code: string) | Throws(code: string)

  function Settlement<T>(w: Work<T>): Status<T>
  {
    match w
    case Succeeds(v) => Completed(v)
    case Fails(c) => Failed(c)
    case Throws(c) => Failed(c)
  }

  /** A protected call whose work was started: it runs until it ends or its process dies. */
  datatype Call = Call(key: string, running: bool)

  datatype System<T> = System(storage: Storage<T>, calls: seq<Call>)

  datatype Event<T> =
    | Attempt(req: Request, now: int)
    | Ends(call: nat, work: Work<T>)
    | Crash(call: nat)
    | Release(key: string)
    | Look(key: string, now: int)
    | SweepAll(keys: seq<string>, now: int)
    | Lose(key: string)

  predicate IsRunning<T>(s: System<T>, c: nat) { c < |s.calls| && s.calls[c].running }

  function Stop<T>(s: System<T>, c: nat): System<T>
    requires IsRunning(s, c)
  {
    s.(calls := s.calls[c := s.calls[c].(running := false)])
  }

  /** The attempt claims its key, and its work is started. */
  predicate Claims<T>(env: Env<T>, s: System<T>, e: Event<T>)
  {
    e.Attempt? && var r := Begin(env, s.storage, e.req, e.now).1; r.Ok? && r.value.Claimed?
  }

  function Next<T>(env: Env<T>, s: System<T>, e: Event<T>): System<T>
  {
    match e
    case Attempt(req, now) =>
      System(Begin(env, s.storage, req, now).0, if Claims(env, s, e) then s.calls + [Call(req.key.value, true)] else s.calls)
    case Ends(c, work) =>
      if !IsRunning(s, c) then s else Stop(s, c).(storage := Settle(env, s.storage, s.calls[c].key, Settlement(work)).0)
    case Crash(c) => if IsRunning(s, c) then Stop(s, c) else s
    case Release(key) => s.(storage := Abandon(s.storage, key).0)
    case Look(key, now) => s.(storage := Lookup(s.storage, key, now).0)
    case SweepAll(keys, now) => s.(storage := Sweep(s.storage, keys, now))
    case Lose(key) => s.(storage := s.storage[key := Corrupt])
  }

  function After<T>(env: Env<T>, es: seq<Event<T>>): System<T>
  {
    if es == [] then System(map[], []) else Next(env, After(env, es[..|es| - 1]), es[|es| - 1])
  }

  /** The guards under which a present record is removed: it lapsed when looked at, was released in flight, or was lost. */
  predicate Removes<T>(s: System<T>, e: Event<T>, key: string)
    requires Present(s.storage, key)
  {
    var r := s.storage[key].record;
    match e
    case Attempt(req, now) => req.key == Some(key) && ValidKey(key) && Lapsed(r, now)
    case Release(k) => k == key && r.status.InFlight?
    case Look(k, now) => k == key && Lapsed(r, now)
    case SweepAll(keys, now) => key in keys && Lapsed(r, now)
    case Lose(k) => k == key
    case _ => false
  }

  lemma {:induction false} SweepAt<T>(s: Storage<T>, keys: seq<string>, now: int, key: string)
    ensures Present(Sweep(s, keys, now), key) <==> Present(s, key) && !(key in keys && Lapsed(s[key].record, now))
    ensures Present(Sweep(s, keys, now), key) ==> Sweep(s, keys, now)[key] == s[key]
  {
    if keys != [] {
      var n := |keys| - 1;
      SweepAt(s, keys[..n], now, key);
      assert keys == keys[..n] + [keys[n]];
    }
  }

  /** The same claim: nothing but the settlement and the replay count may differ, and a settled record stays settled. */
  ghost predicate SameClaim<T>(r: Record<T>, q: Record<T>)
  {
    && q.operation == r.operation && q.digest == r.digest && q.createdAt == r.createdAt && q.expiresAt == r.expiresAt && r.replays <= q.replays
    && (r.status.InFlight? || (q.status.Completed? == r.status.Completed? && q.status.Failed? == r.status.Failed?))
    && (r.status.Failed? ==> q.status == r.status)
  }

  /** A present record survives an event exactly when the event does not remove it, and is then the same claim. */
  lemma StepKeeps<T>(env: Env<T>, s: System<T>, e: Event<T>, key: string)
    requires Present(s.storage, key)
    ensures Present(Next(env, s, e).storage, key) <==> !Removes(s, e, key)
    ensures !Removes(s, e, key) ==> SameClaim(s.storage[key].record, Next(env, s, e).storage[key].record)
  {
    if e.SweepAll? { SweepAt(s.storage, e.keys, e.now, key); }
  }

  // ---------------------------------------------------------------- over whole histories

  ghost predicate RemovedAt<T>(env: Env<T>, es: seq<Event<T>>, k: nat, key: string)
    requires k < |es|
  {
    Present(After(env, es[..k]).storage, key) && Removes(After(env, es[..k]), es[k], key)
  }

  /** No event from `i` on, before `j`, removes the key's record. */
  ghost predicate Undisturbed<T>(env: Env<T>, es: seq<Event<T>>, i: nat, j: nat, key: string)
    requires j <= |es|
  {
    forall k | i <= k < j :: !RemovedAt(env, es, k, key)
  }

  lemma Unroll<T>(env: Env<T>, es: seq<Event<T>>, n: nat)
    requires 0 < n <= |es|
    ensures After(env, es[..n]) == Next(env, After(env, es[..n - 1]), es[n - 1])
  {
    assert es[..n][..n - 1] == es[..n - 1];
  }

  lemma {:induction false} StaysPresent<T>(env: Env<T>, es: seq<Event<T>>, i: nat, j: nat, key: string)
    requires i <= j <= |es| && Undisturbed(env, es, i, j, key) && Present(After(env, es[..i]).storage, key)
    ensures Present(After(env, es[..j]).storage, key)
    ensures SameClaim(After(env, es[..i]).storage[key].record, After(env, es[..j]).storage[key].record)
    decreases j
  {
    if i < j {
      StaysPresent(env, es, i, j - 1, key);
      Unroll(env, es, j);
      assert !RemovedAt(env, es, j - 1, key);
      StepKeeps(env, After(env, es[..j - 1]), es[j - 1], key);
    }
  }

  ghost predicate ClaimedAt<T>(env: Env<T>, es: seq<Event<T>>, i: nat, key: string)
    requires i < |es|
  {
    Claims(env, After(env, es[..i]), es[i]) && es[i].req.key == Some(key)
  }

  lemma ClaimedIsPresent<T>(env: Env<T>, es: seq<Event<T>>, i: nat, key: string)
    requires i < |es| && ClaimedAt(env, es, i, key)
    ensures !Present(After(env, es[..i]).storage, key) && Present(After(env, es[..i + 1]).storage, key)
    ensures After(env, es[..i + 1]).storage[key].record.status == InFlight
  {
    Unroll(env, es, i + 1);
  }

  /** Work is started twice for one key only if in between the first claim's record was removed: lapsed, released or lost. */
  lemma AtMostOnce<T>(env: Env<T>, es: seq<Event<T>>, i: nat, j: nat, key: string) returns (k: nat)
    requires i < j < |es| && ClaimedAt(env, es, i, key) && ClaimedAt(env, es, j, key)
    ensures i < k < j && RemovedAt(env, es, k, key)
  {
    ClaimedIsPresent(env, es, i, key);
    ClaimedIsPresent(env, es, j, key);
    if Undisturbed(env, es, i + 1, j, key) {
      StaysPresent(env, es, i + 1, j, key);
    }
    k :| i + 1 <= k < j && RemovedAt(env, es, k, key);
  }

  // ---------------------------------------------------------------- what a later attempt is answered

  /** A running call for the key ends: the claim, if still in flight, is settled. */
  ghost predicate EndsFor<T>(env: Env<T>, es: seq<Event<T>>, f: nat, key: string)
    requires f < |es|
  {
    var s := After(env, es[..f]);
    es[f].Ends? && IsRunning(s, es[f].call) && s.calls[es[f].call].key == key
  }

  lemma FlightStep<T>(env: Env<T>, s: System<T>, e: Event<T>, key: string)
    requires Present(s.storage, key) && !Removes(s, e, key)
    ensures Present(Next(env, s, e).storage, key)
    ensures Next(env, s, e).storage[key].record.status.InFlight? <==>
            s.storage[key].record.status.InFlight? && !(e.Ends? && IsRunning(s, e.call) && s.calls[e.call].key == key)
  {
    StepKeeps(env, s, e, key);
    if e.SweepAll? { SweepAt(s.storage, e.keys, e.now, key); }
  }

  /** No running call for the key ends between the two events. */
  ghost predicate NoneEnds<T>(env: Env<T>, es: seq<Event<T>>, i: nat, j: nat, key: string)
    requires j <= |es|
  {
    forall f | i < f < j :: !EndsFor(env, es, f, key)
  }

  lemma FlightNext<T>(env: Env<T>, es: seq<Event<T>>, j: nat, key: string)
    requires j < |es| && Present(After(env, es[..j]).storage, key) && !RemovedAt(env, es, j, key)
    ensures Present(After(env, es[..j + 1]).storage, key)
    ensures After(env, es[..j + 1]).storage[key].record.status.InFlight? <==>
            After(env, es[..j]).storage[key].record.status.InFlight? && !EndsFor(env, es, j, key)
  {
    Unroll(env, es, j + 1);
    FlightStep(env, After(env, es[..j]), es[j], key);
  }

  /** A claim is in flight exactly until some running call for its key ends. */
  lemma {:induction false} InFlightExactly<T>(env: Env<T>, es: seq<Event<T>>, i: nat, j: nat, key: string)
    requires i < j <= |es| && ClaimedAt(env, es, i, key) && Undisturbed(env, es, i + 1, j, key)
    ensures Present(After(env, es[..j]).storage, key)
    ensures After(env, es[..j]).storage[key].record.status.InFlight? <==> NoneEnds(env, es, i, j, key)
    decreases j
  {
    if i + 1 == j {
      ClaimedIsPresent(env, es, i, key);
    } else {
      InFlightExactly(env, es, i, j - 1, key);
      assert !RemovedAt(env, es, j - 1, key);
      FlightNext(env, es, j - 1, key);
      assert NoneEnds(env, es, i, j, key) <==> NoneEnds(env, es, i, j - 1, key) && !EndsFor(env, es, j - 1, key);
    }
  }

  /** What the store answers to the attempt that is event `j`. */
  ghost function AnswerAt<T>(env: Env<T>, es: seq<Event<T>>, j: nat): Result<Begun<T>, Code>
    requires j < |es| && es[j].Attempt?
  {
    Begin(env, After(env, es[..j]).storage, es[j].req, es[j].now).1
  }

  lemma AnswerPresent<T>(env: Env<T>, s: Storage<T>, req: Request, now: int, key: string)
    requires req.key == Some(key) && ValidKey(key) && Present(s, key) && !Lapsed(s[key].record, now)
    ensures var r, out := s[key].record, Begin(env, s, req, now).1;
      if r.digest != req.digest || r.operation != req.operation then out == Err(Conflict)
      else if r.status.InFlight? then out == Err(StillInFlight)
      else out == Ok(Replay(r.(replays := r.replays + 1)))
  {
  }

  /**
   * From a claim until its record is removed, an attempt on the key is refused as a conflict exactly when it is not
   * the claiming request, refused as in flight exactly until the work has ended, and replayed after that.
   */
  lemma LaterAttempts<T>(env: Env<T>, es: seq<Event<T>>, i: nat, j: nat, key: string)
    requires i < j < |es| && ClaimedAt(env, es, i, key) && Undisturbed(env, es, i + 1, j + 1, key)
    requires es[j].Attempt? && es[j].req.key == Some(key)
    ensures var same := es[j].req.digest == es[i].req.digest && es[j].req.operation == es[i].req.operation;
      var ended := exists f | i < f < j :: EndsFor(env, es, f, key);
      && (AnswerAt(env, es, j) == Err(Conflict) <==> !same)
      && (AnswerAt(env, es, j) == Err(StillInFlight) <==> same && !ended)
      && (AnswerAt(env, es, j).Ok? <==> same && ended)
      && (AnswerAt(env, es, j).Ok? ==> AnswerAt(env, es, j).value.Replay?)
  {
    ClaimedRecord(env, es, i, key);
    InFlightExactly(env, es, i, j, key);
    StaysPresent(env, es, i + 1, j, key);
    assert !RemovedAt(env, es, j, key);
    AnswerPresent(env, After(env, es[..j]).storage, es[j].req, es[j].now, key);
  }

  lemma ClaimedRecord<T>(env: Env<T>, es: seq<Event<T>>, i: nat, key: string)
    requires i < |es| && ClaimedAt(env, es, i, key)
    ensures ValidKey(key) && Present(After(env, es[..i + 1]).storage, key)
    ensures var r := After(env, es[..i + 1]).storage[key].record;
      r.digest == es[i].req.digest && r.operation == es[i].req.operation && r.status == InFlight && r.replays == 0
  {
    Unroll(env, es, i + 1);
  }

  // ---------------------------------------------------------------- what a replay answers

  /** A response written `n` times over: every replay answers with what is stored and writes that again. */
  function Rewritten<T>(env: Env<T>, n: nat, v: T): T { if n == 0 then v else env.persist(Rewritten(env, n - 1, v)) }

  function Written<T>(env: Env<T>, s: Status<T>): Status<T> { if s.Completed? then Completed(env.persist(s.response)) else s }

  /** A settlement after `n` writes. */
  function StatusAfter<T>(env: Env<T>, n: nat, s: Status<T>): Status<T>
  {
    if s.Completed? then Completed(Rewritten(env, n, s.response)) else s
  }

  /** A settled record keeps its settlement, or is replayed: counted once more and written once more. */
  lemma SettledStep<T>(env: Env<T>, s: System<T>, e: Event<T>, key: string)
    requires Present(s.storage, key) && !s.storage[key].record.status.InFlight? && !Removes(s, e, key)
    ensures Present(Next(env, s, e).storage, key)
    ensures var r, q := s.storage[key].record, Next(env, s, e).storage[key].record;
      || (q.replays == r.replays && q.status == r.status)
      || (q.replays == r.replays + 1 && q.status == Written(env, r.status))
  {
    StepKeeps(env, s, e, key);
    if e.SweepAll? { SweepAt(s.storage, e.keys, e.now, key); }
  }

  /** The record of the key holds the settlement, written once when it was settled and once per replay. */
  ghost predicate Holds<T>(env: Env<T>, s: Storage<T>, key: string, settled: Status<T>)
  {
    Present(s, key) && s[key].record.status == StatusAfter(env, s[key].record.replays + 1, settled)
  }

  lemma HoldsStep<T>(env: Env<T>, s: System<T>, e: Event<T>, key: string, settled: Status<T>)
    requires Holds(env, s.storage, key, settled) && !settled.InFlight? && !Removes(s, e, key)
    ensures Holds(env, Next(env, s, e).storage, key, settled)
  {
    SettledStep(env, s, e, key);
  }

  /** In flight nothing is replayed. */
  ghost predicate Unreplayed<T>(s: Storage<T>) { forall key | Present(s, key) && s[key].record.status.InFlight? :: s[key].record.replays == 0 }

  lemma UnreplayedStep<T>(env: Env<T>, s: System<T>, e: Event<T>)
    requires Unreplayed(s.storage)
    ensures Unreplayed(Next(env, s, e).storage)
  {
    var s' := Next(env, s, e).storage;
    forall key | Present(s', key) && s'[key].record.status.InFlight? ensures s'[key].record.replays == 0 {
      if e.SweepAll? { SweepAt(s.storage, e.keys, e.now, key); }
    }
  }

  lemma {:induction false} AlwaysUnreplayed<T>(env: Env<T>, es: seq<Event<T>>)
    ensures Unreplayed(After(env, es).storage)
  {
    if es != [] {
      AlwaysUnreplayed(env, es[..|es| - 1]);
      UnreplayedStep(env, After(env, es[..|es| - 1]), es[|es| - 1]);
    }
  }

  /** Event `f` settles the claim in flight on the key. */
  ghost predicate SettlesAt<T>(env: Env<T>, es: seq<Event<T>>, f: nat, key: string)
    requires f < |es|
  {
    var s := After(env, es[..f]);
    EndsFor(env, es, f, key) && Present(s.storage, key) && s.storage[key].record.status.InFlight?
  }

  lemma SettledHolds<T>(env: Env<T>, es: seq<Event<T>>, f: nat, key: string)
    requires f < |es| && SettlesAt(env, es, f, key)
    ensures Holds(env, After(env, es[..f + 1]).storage, key, Settlement(es[f].work))
  {
    AlwaysUnreplayed(env, es[..f]);
    Unroll(env, es, f + 1);
    var settled := Settlement(es[f].work);
    assert settled.Completed? ==> Rewritten(env, 1, settled.response) == env.persist(Rewritten(env, 0, settled.response));
  }

  /** While its record lives a failure never changes, and a response is what the work returned, written once and once per replay. */
  lemma {:induction false} OutcomeAfterReplays<T>(env: Env<T>, es: seq<Event<T>>, f: nat, j: nat, key: string)
    requires f < j <= |es| && SettlesAt(env, es, f, key) && Undisturbed(env, es, f + 1, j, key)
    ensures Holds(env, After(env, es[..j]).storage, key, Settlement(es[f].work))
    decreases j
  {
    if f + 1 == j {
      SettledHolds(env, es, f, key);
    } else {
      OutcomeAfterReplays(env, es, f, j - 1, key);
      assert !RemovedAt(env, es, j - 1, key);
      HoldsStep(env, After(env, es[..j - 1]), es[j - 1], key, Settlement(es[f].work));
      Unroll(env, es, j);
    }
  }

  /**
   * Every accepted attempt after a settlement, while the record lives, is answered with that settlement: the same
   * failure, or at its r-th replay the response written r times over.
   */
  lemma ReplaysTheOutcome<T>(env: Env<T>, es: seq<Event<T>>, f: nat, j: nat, key: string)
    requires f < j < |es| && SettlesAt(env, es, f, key) && Undisturbed(env, es, f + 1, j + 1, key)
    requires es[j].Attempt? && es[j].req.key == Some(key) && ValidKey(key)
    ensures AnswerAt(env, es, j) == Err(Conflict) || (AnswerAt(env, es, j).Ok? && AnswerAt(env, es, j).value.Replay?)
    ensures AnswerAt(env, es, j).Ok? ==>
              var q := AnswerAt(env, es, j).value.record;
              q.replays >= 1 && q.status == StatusAfter(env, q.replays, Settlement(es[f].work))
  {
    OutcomeAfterReplays(env, es, f, j, key);
    assert !RemovedAt(env, es, j, key);
    AnswerPresent(env, After(env, es[..j]).storage, es[j].req, es[j].now, key);
  }

  /** All replays answer alike exactly when writing the written response again would not change it. */
  lemma RepliesAlikeExactly<T>(env: Env<T>, v: T)
    ensures (forall r: nat | r >= 1 :: Rewritten(env, r, v) == Rewritten(env, 1, v)) <==> env.persist(env.persist(v)) == env.persist(v)
  {
    assert Rewritten(env, 1, v) == env.persist(Rewritten(env, 0, v));
    assert Rewritten(env, 2, v) == env.persist(Rewritten(env, 1, v));
    if env.persist(env.persist(v)) == env.persist(v) {
      forall r: nat | r >= 1 ensures Rewritten(env, r, v) == Rewritten(env, 1, v) { StableRewrites(env, v, r); }
    }
  }

  lemma {:induction false} StableRewrites<T>(env: Env<T>, v: T, r: nat)
    requires r >= 1 && env.persist(env.persist(v)) == env.persist(v)
    ensures Rewritten(env, r, v) == env.persist(v)
  {
    if r > 1 { StableRewrites(env, v, r - 1); } else { assert Rewritten(env, 0, v) == v; }
  }

  /** The store writes JSON responses as the source does: bare values as they are, lists and objects redacted. */
  ghost predicate StoresJson(env: Env<Responses.Json>) { forall v :: env.persist(v) == Responses.Persisted(v) }

  /**
   * All replays of a response answer alike exactly when it is a bare value or every text that redaction keeps in it
   * is one that scrubbing leaves steady.
   */
  lemma JsonRepliesAlikeExactly(env: Env<Responses.Json>, v: Responses.Json)
    requires StoresJson(env)
    ensures (forall r: nat | r >= 1 :: Rewritten(env, r, v) == Rewritten(env, 1, v)) <==> Responses.KeptAsStored(v)
  {
    RepliesAlikeExactly(env, v);
    Responses.PersistTwiceExactly(v);
  }

  function TwoReplays<T>(req: Request, work: Work<T>): seq<Event<T>> { [Attempt(req, 0), Ends(0, work), Attempt(req, 0), Attempt(req, 0)] }

  /**
   * "Every later attempt replays the stored outcome" fails for an object with a long bearer token after an S in a
   * field: the first replay answers one text in it and the second another.
   */
  lemma SecondReplayDiffers(env: Env<Responses.Json>, req: Request, token: string)
    requires StoresJson(env) && env.ttl > 0 && req.key.Some? && ValidKey(req.key.value)
    requires 120 <= |token| <= Redaction.SCANNABLE - 9 && Redaction.Lowercase(token)
    ensures var es := TwoReplays(req, Succeeds(Responses.TokenNote(token)));
      && AnswerAt(env, es, 2).Ok? && AnswerAt(env, es, 3).Ok?
      && AnswerAt(env, es, 2).value.record.status == Completed(Responses.Note(['S', ' '] + Redaction.REDACTED))
      && AnswerAt(env, es, 3).value.record.status == Completed(Responses.Note(Redaction.REDACTED))
  {
    Responses.TokenNotePersisted(token);
    TwoReplaysAnswer(env, req, Responses.TokenNote(token));
  }

  lemma TwoReplaysAnswer<T>(env: Env<T>, req: Request, v: T)
    requires env.ttl > 0 && req.key.Some? && ValidKey(req.key.value)
    ensures var es := TwoReplays(req, Succeeds(v));
      && AnswerAt(env, es, 2).Ok? && AnswerAt(env, es, 2).value.record.status == Completed(env.persist(v))
      && AnswerAt(env, es, 3).Ok? && AnswerAt(env, es, 3).value.record.status == Completed(env.persist(env.persist(v)))
  {
    var es := TwoReplays(req, Succeeds(v));
    assert es[..0] == [];
    Unroll(env, es, 1);
    Unroll(env, es, 2);
    Unroll(env, es, 3);
  }

  // ---------------------------------------------------------------- whose outcome it is

  /** Call `c` holds the claim on the key, and no other running call works for that key. */
  ghost predicate Sole<T>(s: System<T>, c: nat, key: string)
  {
    && Present(s.storage, key) && s.storage[key].record.status == InFlight && IsRunning(s, c) && s.calls[c].key == key
    && forall d | 0 <= d < |s.calls| && d != c && s.calls[d].running :: s.calls[d].key != key
  }

  lemma SoleStep<T>(env: Env<T>, s: System<T>, e: Event<T>, c: nat, key: string)
    requires Sole(s, c, key) && !Removes(s, e, key) && IsRunning(Next(env, s, e), c)
    ensures Sole(Next(env, s, e), c, key)
  {
    StepKeeps(env, s, e, key);
    if e.SweepAll? { SweepAt(s.storage, e.keys, e.now, key); }
  }

  lemma RunningBefore<T>(env: Env<T>, s: System<T>, e: Event<T>, c: nat)
    requires c < |s.calls| && IsRunning(Next(env, s, e), c)
    ensures IsRunning(s, c)
  {
  }

  lemma CallsGrow<T>(env: Env<T>, s: System<T>, e: Event<T>)
    ensures |s.calls| <= |Next(env, s, e).calls|
  {
  }

  lemma {:induction false} StaysSole<T>(env: Env<T>, es: seq<Event<T>>, i: nat, n: nat, c: nat, key: string)
    requires i <= n <= |es| && Sole(After(env, es[..i]), c, key) && Undisturbed(env, es, i, n, key) && IsRunning(After(env, es[..n]), c)
    ensures Sole(After(env, es[..n]), c, key)
    decreases n
  {
    if i < n {
      Unroll(env, es, n);
      CallsKept(env, es, i, n - 1);
      RunningBefore(env, After(env, es[..n - 1]), es[n - 1], c);
      StaysSole(env, es, i, n - 1, c, key);
      assert !RemovedAt(env, es, n - 1, key);
      SoleStep(env, After(env, es[..n - 1]), es[n - 1], c, key);
    }
  }

  lemma {:induction false} CallsKept<T>(env: Env<T>, es: seq<Event<T>>, i: nat, n: nat)
    requires i <= n <= |es|
    ensures |After(env, es[..i]).calls| <= |After(env, es[..n]).calls|
    decreases n
  {
    if i < n {
      CallsKept(env, es, i, n - 1);
      Unroll(env, es, n);
      CallsGrow(env, After(env, es[..n - 1]), es[n - 1]);
    }
  }

  /** A claim made while no other call works for the key is held by its own call alone. */
  lemma ClaimIsSole<T>(env: Env<T>, s: System<T>, e: Event<T>, key: string)
    requires Claims(env, s, e) && e.req.key == Some(key)
    requires forall d | 0 <= d < |s.calls| && s.calls[d].running :: s.calls[d].key != key
    ensures Sole(Next(env, s, e), |s.calls|, key)
  {
  }

  /** When the one call holding the claim ends, its outcome is what is stored. */
  lemma SoleSettles<T>(env: Env<T>, s: System<T>, e: Event<T>, key: string)
    requires e.Ends? && Sole(s, e.call, key)
    ensures Present(Next(env, s, e).storage, key) && Next(env, s, e).storage[key].record.status == Written(env, Settlement(e.work))
  {
  }

  /** A claim made while no other call works for the key is settled with its own outcome, unless its record is removed first. */
  lemma OwnOutcome<T>(env: Env<T>, es: seq<Event<T>>, i: nat, f: nat, key: string)
    requires i < f < |es| && ClaimedAt(env, es, i, key) && Undisturbed(env, es, i + 1, f, key)
    requires var s := After(env, es[..i]);
      && (forall d | 0 <= d < |s.calls| && s.calls[d].running :: s.calls[d].key != key)
      && es[f].Ends? && es[f].call == |s.calls| && IsRunning(After(env, es[..f]), es[f].call)
    ensures Present(After(env, es[..f + 1]).storage, key)
    ensures After(env, es[..f + 1]).storage[key].record.status == Written(env, Settlement(es[f].work))
  {
    Unroll(env, es, i + 1);
    ClaimIsSole(env, After(env, es[..i]), es[i], key);
    StaysSole(env, es, i + 1, f, es[f].call, key);
    Unroll(env, es, f + 1);
    SoleSettles(env, After(env, es[..f]), es[f], key);
  }

  function StaleRun<T>(env: Env<T>, req: Request, first: Work<T>, second: Work<T>): seq<Event<T>>
  {
    [Attempt(req, 0), Attempt(req, env.ttl), Attempt(req, env.ttl), Ends(0, first), Ends(1, second)]
  }

  /** Otherwise not: work that outlives its lapsed claim settles the next claim, whose own outcome is then refused. */
  lemma StaleWorkSettlesNextClaim<T>(env: Env<T>, req: Request, first: T, second: Work<T>)
    requires req.key.Some? && ValidKey(req.key.value)
    ensures var es := StaleRun(env, req, Succeeds(first), second); var key := req.key.value;
      && ClaimedAt(env, es, 0, key) && ClaimedAt(env, es, 2, key)
      && Present(After(env, es).storage, key) && After(env, es).storage[key].record.createdAt == env.ttl
      && After(env, es).storage[key].record.status == Completed(env.persist(first))
  {
    var es := StaleRun(env, req, Succeeds(first), second);
    assert es[..0] == [];
    Unroll(env, es, 1);
    Unroll(env, es, 2);
    Unroll(env, es, 3);
    Unroll(env, es, 4);
    Unroll(env, es, 5);
    assert es[..5] == es;
  }
}
