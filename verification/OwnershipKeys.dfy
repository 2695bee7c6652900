/** Ownership offers and acceptances under an idempotency key: the gate of `Ownership` decided by the records of `Idempotency`. */
module OwnershipKeys {
  import opened Prelude
  import opened Idempotency
  import O = Ownership

  datatype Keeper = Keeper(store: O.Store, records: Storage<O.Proposal>)

  /** What is asked under the key: a new offer, or the acceptance of a proposal. */
  datatype Ask =
    | Propose(o: O.Offer, newId: string, now: int)
    | Accept(id: string, actor: O.Actor, now: int)

  /** A keyed call; `at` is the idempotency store's own clock. */
  datatype KeyedCall = KeyedCall(key: string, digest: string, at: int, ask: Ask)

  function OperationOf(ask: Ask): string { if ask.Propose? then "ownership.propose" else "ownership.accept" }

  function TextOf(code: Code): string
  {
    match code
    case Missing => "idempotency_key_missing"
    case Invalid => "idempotency_key_invalid"
    case KeyExpired => "idempotency_key_expired"
    case Conflict => "idempotency_key_conflict"
    case StillInFlight => "idempotency_in_flight"
    case NotFound => "idempotency_not_found"
  }

  function GateOf(begun: Result<Begun<O.Proposal>, Code>): O.Gate
  {
    match begun
    case Err(code) => O.Refused(TextOf(code))
    case Ok(Replay(record)) => if record.status.Completed? then O.Replayed(record.status.response) else O.Proceed
    case Ok(Claimed(_)) => O.Proceed
  }

  function Perform(s: O.Store, ask: Ask, gate: O.Gate): (O.Store, Result<O.Proposal, string>)
  {
    match ask
    case Propose(o, newId, now) => O.Initiate(s, o, newId, now, gate)
    case Accept(id, actor, now) => O.Decide(s, O.Accept, id, actor, now, None, gate)
  }

  function BeginCall(env: Env<O.Proposal>, sys: Keeper, call: KeyedCall): (Storage<O.Proposal>, Result<Begun<O.Proposal>, Code>)
  {
    Begin(env, sys.records, Request(Some(call.key), OperationOf(call.ask), call.digest), call.at)
  }

  /** `initiate` and `accept` with a key: a success completes the claim; a refusal leaves it as it is. */
  function Submit(env: Env<O.Proposal>, sys: Keeper, call: KeyedCall): (Keeper, Result<O.Proposal, string>)
  {
    var (records, begun) := BeginCall(env, sys, call);
    var gate := GateOf(begun);
    var (store, answer) := Perform(sys.store, call.ask, gate);
    (Keeper(store, Conclude(env, records, call.key, gate, answer)), answer)
  }

  function Conclude(
    env: Env<O.Proposal>, records: Storage<O.Proposal>, key: string, gate: O.Gate, answer: Result<O.Proposal, string>): Storage<O.Proposal>
  {
    if gate.Proceed? && answer.Ok? then Settle(env, records, key, Completed(answer.value)).0 else records
  }

  function SubmitAll(env: Env<O.Proposal>, sys: Keeper, calls: seq<KeyedCall>): Keeper
  {
    if calls == [] then sys else Submit(env, SubmitAll(env, sys, calls[..|calls| - 1]), calls[|calls| - 1]).0
  }

  // ---------------------------------------------------------------- one call

  /** The key's record: still in flight when its call was refused, else settled with the proposal it made or accepted. */
  ghost predicate Kept(env: Env<O.Proposal>, s: Storage<O.Proposal>, first: KeyedCall, outcome: Option<O.Proposal>)
  {
    && Present(s, first.key) && s[first.key].record.digest == first.digest && s[first.key].record.operation == OperationOf(first.ask)
    && s[first.key].record.expiresAt == first.at + env.ttl
    && (outcome.None? ==> s[first.key].record.status.InFlight?)
    && (outcome.Some? ==> Holds(env, s, first.key, Completed(outcome.value)))
  }

  /** The first call of a key runs the operation, and its record is settled only when that succeeds. */
  lemma OnFirst(env: Env<O.Proposal>, sys: Keeper, call: KeyedCall)
    requires ValidKey(call.key) && !Present(sys.records, call.key)
    ensures var (later, answer) := Submit(env, sys, call);
      && (later.store, answer) == Perform(sys.store, call.ask, O.Proceed)
      && Kept(env, later.records, call, if answer.Ok? then Some(answer.value) else None)
  {
    if Perform(sys.store, call.ask, O.Proceed).1.Ok? {
      var v := Perform(sys.store, call.ask, O.Proceed).1.value;
      assert Rewritten(env, 1, v) == env.persist(Rewritten(env, 0, v));
    }
  }

  /** A later call of the key does not touch the store: it conflicts, finds the claim in flight, or is answered what was recorded. */
  lemma OnKept(env: Env<O.Proposal>, sys: Keeper, first: KeyedCall, outcome: Option<O.Proposal>, call: KeyedCall)
    requires ValidKey(call.key) && call.key == first.key && Kept(env, sys.records, first, outcome)
    ensures var (later, answer) := Submit(env, sys, call);
      && later.store == sys.store
      && (call.at >= first.at + env.ttl ==> answer == Err(TextOf(KeyExpired)) && !Present(later.records, call.key))
      && (call.at < first.at + env.ttl ==>
            && Kept(env, later.records, first, outcome)
            && (if call.digest != first.digest || OperationOf(call.ask) != OperationOf(first.ask) then answer == Err(TextOf(Conflict))
                else if outcome.None? then answer == Err(TextOf(StillInFlight))
                else answer == Ok(Rewritten(env, sys.records[call.key].record.replays + 1, outcome.value))))
  {
    var (records, begun) := BeginCall(env, sys, call);
    var record := sys.records[call.key].record;
    assert Lapsed(record, call.at) <==> call.at >= first.at + env.ttl;
    if begun.Ok? {
      assert begun.value.Replay? && outcome.Some?;
      assert begun.value.record.status == Completed(Rewritten(env, record.replays + 1, outcome.value));
    }
  }

  /** The two storages agree on the key. */
  ghost predicate SameAt(a: Storage<O.Proposal>, b: Storage<O.Proposal>, key: string)
  {
    (key in a <==> key in b) && (key in a ==> a[key] == b[key])
  }

  lemma ConcludeOther(
    env: Env<O.Proposal>, records: Storage<O.Proposal>, key: string, gate: O.Gate, answer: Result<O.Proposal, string>, other: string)
    requires other != key
    ensures SameAt(records, Conclude(env, records, key, gate, answer), other)
  {
  }

  lemma BeginOther(env: Env<O.Proposal>, sys: Keeper, call: KeyedCall, other: string)
    requires other != call.key
    ensures SameAt(sys.records, BeginCall(env, sys, call).0, other)
  {
  }

  lemma OtherKeys(env: Env<O.Proposal>, sys: Keeper, call: KeyedCall, key: string)
    requires key != call.key
    ensures SameAt(sys.records, Submit(env, sys, call).0.records, key)
  {
    var (records, begun) := BeginCall(env, sys, call);
    var answer := Perform(sys.store, call.ask, GateOf(begun)).1;
    BeginOther(env, sys, call, key);
    ConcludeOther(env, records, call.key, GateOf(begun), answer, key);
    assert Submit(env, sys, call).0.records == Conclude(env, records, call.key, GateOf(begun), answer);
  }

  lemma KeptAt(env: Env<O.Proposal>, a: Storage<O.Proposal>, b: Storage<O.Proposal>, first: KeyedCall, outcome: Option<O.Proposal>)
    requires Kept(env, a, first, outcome) && SameAt(a, b, first.key)
    ensures Kept(env, b, first, outcome)
  {
  }

  /** No call, of this key in time or of another, disturbs the key's record. */
  lemma KeptStep(env: Env<O.Proposal>, sys: Keeper, first: KeyedCall, outcome: Option<O.Proposal>, call: KeyedCall)
    requires ValidKey(first.key) && Kept(env, sys.records, first, outcome)
    requires call.key == first.key ==> call.at < first.at + env.ttl
    ensures Kept(env, Submit(env, sys, call).0.records, first, outcome)
  {
    if call.key == first.key {
      OnKept(env, sys, first, outcome, call);
    } else {
      OtherKeys(env, sys, call, first.key);
      KeptAt(env, sys.records, Submit(env, sys, call).0.records, first, outcome);
    }
  }

  // ---------------------------------------------------------------- every history of calls

  /** Every call of the key in between came before the first one's claim lapses. */
  ghost predicate InTime(env: Env<O.Proposal>, calls: seq<KeyedCall>, i: nat, j: nat)
    requires i < j <= |calls|
  {
    forall m | i < m < j && calls[m].key == calls[i].key :: calls[m].at < calls[i].at + env.ttl
  }

  function AnswerTo(env: Env<O.Proposal>, sys: Keeper, calls: seq<KeyedCall>, i: nat): Result<O.Proposal, string>
    requires i < |calls|
  {
    Submit(env, SubmitAll(env, sys, calls[..i]), calls[i]).1
  }

  function OutcomeAt(env: Env<O.Proposal>, sys: Keeper, calls: seq<KeyedCall>, i: nat): Option<O.Proposal>
    requires i < |calls|
  {
    if AnswerTo(env, sys, calls, i).Ok? then Some(AnswerTo(env, sys, calls, i).value) else None
  }

  predicate IsFirst(env: Env<O.Proposal>, sys: Keeper, calls: seq<KeyedCall>, i: nat)
    requires i < |calls|
  {
    ValidKey(calls[i].key) && !Present(SubmitAll(env, sys, calls[..i]).records, calls[i].key)
  }

  lemma AfterOne(env: Env<O.Proposal>, sys: Keeper, calls: seq<KeyedCall>, i: nat)
    requires i < |calls|
    ensures SubmitAll(env, sys, calls[..i + 1]) == Submit(env, SubmitAll(env, sys, calls[..i]), calls[i]).0
  {
    assert calls[..i + 1][..i] == calls[..i];
  }

  lemma {:induction false} KeptOnward(
    env: Env<O.Proposal>, sys: Keeper, calls: seq<KeyedCall>, i: nat, j: nat, first: KeyedCall, outcome: Option<O.Proposal>)
    requires i < j <= |calls| && calls[i] == first && ValidKey(first.key) && InTime(env, calls, i, j)
    requires Kept(env, SubmitAll(env, sys, calls[..i + 1]).records, first, outcome)
    ensures Kept(env, SubmitAll(env, sys, calls[..j]).records, first, outcome)
    decreases j
  {
    if j > i + 1 {
      KeptOnward(env, sys, calls, i, j - 1, first, outcome);
      AfterOne(env, sys, calls, j - 1);
      KeptStep(env, SubmitAll(env, sys, calls[..j - 1]), first, outcome, calls[j - 1]);
    }
  }

  lemma StaysKept(env: Env<O.Proposal>, sys: Keeper, calls: seq<KeyedCall>, i: nat, j: nat)
    requires i < j <= |calls| && IsFirst(env, sys, calls, i) && InTime(env, calls, i, j)
    ensures Kept(env, SubmitAll(env, sys, calls[..j]).records, calls[i], OutcomeAt(env, sys, calls, i))
  {
    AfterOne(env, sys, calls, i);
    OnFirst(env, SubmitAll(env, sys, calls[..i]), calls[i]);
    KeptOnward(env, sys, calls, i, j, calls[i], OutcomeAt(env, sys, calls, i));
  }

  /**
   * A refused offer or acceptance leaves its key in flight: until the claim lapses every retry of it is refused as in
   * flight, whatever the store would answer by then, and changes nothing.
   */
  lemma RefusedKeyStaysInFlight(env: Env<O.Proposal>, sys: Keeper, calls: seq<KeyedCall>, i: nat, j: nat)
    requires i < j < |calls| && IsFirst(env, sys, calls, i) && AnswerTo(env, sys, calls, i).Err?
    requires calls[j].key == calls[i].key && InTime(env, calls, i, j + 1)
    ensures SubmitAll(env, sys, calls[..j + 1]).store == SubmitAll(env, sys, calls[..j]).store
    ensures AnswerTo(env, sys, calls, j) ==
      Err(TextOf(if calls[j].digest == calls[i].digest && OperationOf(calls[j].ask) == OperationOf(calls[i].ask) then StillInFlight else Conflict))
  {
    StaysKept(env, sys, calls, i, j);
    AfterOne(env, sys, calls, j);
    OnKept(env, SubmitAll(env, sys, calls[..j]), calls[i], None, calls[j]);
  }

  /** The first call of the key after the claim lapsed is refused as expired, and frees the key. */
  lemma LapsedKeyIsFreed(env: Env<O.Proposal>, sys: Keeper, calls: seq<KeyedCall>, i: nat, j: nat)
    requires i < j < |calls| && IsFirst(env, sys, calls, i) && InTime(env, calls, i, j)
    requires calls[j].key == calls[i].key && calls[j].at >= calls[i].at + env.ttl
    ensures AnswerTo(env, sys, calls, j) == Err(TextOf(KeyExpired))
    ensures SubmitAll(env, sys, calls[..j + 1]).store == SubmitAll(env, sys, calls[..j]).store
    ensures !Present(SubmitAll(env, sys, calls[..j + 1]).records, calls[j].key)
  {
    StaysKept(env, sys, calls, i, j);
    AfterOne(env, sys, calls, j);
    OnKept(env, SubmitAll(env, sys, calls[..j]), calls[i], OutcomeAt(env, sys, calls, i), calls[j]);
  }

  /** A successful one is done once: until the claim lapses every retry is answered its proposal, redacted, or conflicts, and changes nothing. */
  lemma SuccessfulKeyReplays(env: Env<O.Proposal>, sys: Keeper, calls: seq<KeyedCall>, i: nat, j: nat)
    requires i < j < |calls| && IsFirst(env, sys, calls, i) && AnswerTo(env, sys, calls, i).Ok?
    requires calls[j].key == calls[i].key && InTime(env, calls, i, j + 1)
    ensures SubmitAll(env, sys, calls[..j + 1]).store == SubmitAll(env, sys, calls[..j]).store
    ensures
      if calls[j].digest == calls[i].digest && OperationOf(calls[j].ask) == OperationOf(calls[i].ask)
      then exists r: nat | r >= 1 :: AnswerTo(env, sys, calls, j) == Ok(Rewritten(env, r, AnswerTo(env, sys, calls, i).value))
      else AnswerTo(env, sys, calls, j) == Err(TextOf(Conflict))
  {
    StaysKept(env, sys, calls, i, j);
    AfterOne(env, sys, calls, j);
    OnKept(env, SubmitAll(env, sys, calls[..j]), calls[i], OutcomeAt(env, sys, calls, i), calls[j]);
  }
}
