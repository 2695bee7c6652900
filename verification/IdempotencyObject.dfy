/** The idempotency store as an object, and the one-call wrapper around protected work. */
module IdempotencyObject {
  import opened Prelude
  import opened Idempotency

  function CountLapsed<T>(s: Storage<T>, keys: seq<string>, now: int): nat
  {
    if keys == [] then 0
    else
      var key := keys[|keys| - 1];
      CountLapsed(s, keys[..|keys| - 1], now) + if Present(s, key) && Lapsed(s[key].record, now) then 1 else 0
  }

  /** The keys still known once the lapsed records are gone. */
  function Remaining<T>(s: Storage<T>, keys: seq<string>, now: int): seq<string>
  {
    if keys == [] then []
    else
      var key := keys[|keys| - 1];
      Remaining(s, keys[..|keys| - 1], now) + if Present(s, key) && Lapsed(s[key].record, now) then [] else [key]
  }

  predicate Distinct(keys: seq<string>) { forall i, j | 0 <= i < j < |keys| :: keys[i] != keys[j] }

  lemma {:induction false} RemainingMembers<T>(s: Storage<T>, keys: seq<string>, now: int)
    requires Distinct(keys)
    ensures Distinct(Remaining(s, keys, now))
    ensures forall k :: k in Remaining(s, keys, now) <==> k in keys && !(Present(s, k) && Lapsed(s[k].record, now))
  {
    if keys != [] {
      var n := |keys| - 1;
      RemainingMembers(s, keys[..n], now);
      assert keys == keys[..n] + [keys[n]];
    }
  }

  /** What a caller of protected work gets. */
  datatype Outcome<T> = Value(value: T, replayed: bool) | FailedWith(code: string) | Rejected(refusal: Code)

  class IdempotencyStore<T> {
    const env: Env<T>
    var storage: Storage<T>
    /** The keys this store claimed, each once, in order. */
    var known: seq<string>

    ghost predicate Valid()
      reads this
    {
      Distinct(known)
    }

    constructor (env: Env<T>, storage: Storage<T>)
      ensures Valid() && this.env == env && this.storage == storage && known == []
    {
      this.env, this.storage, known := env, storage, [];
    }

    method Read(key: string) returns (r: Option<Record<T>>)
      ensures r == if Present(storage, key) then Some(storage[key].record) else None
    {
      r := None;
      if key in storage {
        match storage[key]
        case Corrupt =>
        case Good(record) => r := Some(record);
      }
    }

    method Begin(req: Request, now: int) returns (r: Result<Begun<T>, Code>)
      requires Valid()
      modifies this
      ensures Valid() && (storage, r) == Idempotency.Begin(env, old(storage), req, now)
      ensures known == if r.Ok? && r.value.Claimed? && req.key.value !in old(known) then old(known) + [req.key.value] else old(known)
    {
      if req.key.None? || req.key.value == [] { return Err(Missing); }
      var key := req.key.value;
      if !ValidKey(key) { return Err(Invalid); }
      var existing := Read(key);
      if existing.None? {
        var record := Record(req.operation, req.digest, InFlight, now, now + env.ttl, 0);
        if key !in known { known := known + [key]; }
        storage := Write(env, storage, key, record);
        return Ok(Claimed(record));
      }
      var found := existing.value;
      if found.expiresAt <= now {
        storage := storage - {key};
        return Err(KeyExpired);
      }
      if found.digest != req.digest || found.operation != req.operation { return Err(Conflict); }
      if found.status.InFlight? { return Err(StillInFlight); }
      var replayed := found.(replays := found.replays + 1);
      storage := Write(env, storage, key, replayed);
      r := Ok(Replay(replayed));
    }

    /** `complete` with a response, `fail` with a code. */
    method Settle(key: string, status: Status<T>) returns (r: Result<Record<T>, Code>)
      modifies this`storage
      ensures (storage, r) == Idempotency.Settle(env, old(storage), key, status)
    {
      var existing := Read(key);
      if existing.None? { return Err(NotFound); }
      if !existing.value.status.InFlight? { return Err(StillInFlight); }
      var record := existing.value.(status := status);
      storage := Write(env, storage, key, record);
      r := Ok(record);
    }

    method Abandon(key: string) returns (refusal: Option<Code>)
      modifies this`storage
      ensures (storage, refusal) == Idempotency.Abandon(old(storage), key)
    {
      var existing := Read(key);
      if existing.None? { return Some(NotFound); }
      if !existing.value.status.InFlight? { return Some(StillInFlight); }
      storage := storage - {key};
      refusal := None;
    }

    method Lookup(key: string, now: int) returns (r: Result<Record<T>, Code>)
      modifies this`storage
      ensures (storage, r) == Idempotency.Lookup(old(storage), key, now)
    {
      var existing := Read(key);
      if existing.None? { return Err(NotFound); }
      if existing.value.expiresAt <= now {
        storage := storage - {key};
        return Err(KeyExpired);
      }
      r := Ok(existing.value);
    }

    /** Drops every lapsed record this store claimed, forgets its key, and counts them. */
    method Sweep(now: int) returns (dropped: nat)
      requires Valid()
      modifies this
      ensures Valid() && storage == Idempotency.Sweep(old(storage), old(known), now)
      ensures known == Remaining(old(storage), old(known), now) && dropped == CountLapsed(old(storage), old(known), now)
    {
      ghost var before := storage;
      var keys, left, i := known, [], 0;
      dropped := 0;
      while i < |keys|
        invariant 0 <= i <= |keys| && storage == Idempotency.Sweep(before, keys[..i], now)
        invariant left == Remaining(before, keys[..i], now) && dropped == CountLapsed(before, keys[..i], now)
        modifies this`storage
      {
        var key := keys[i];
        assert keys[..i + 1][..i] == keys[..i] && key !in keys[..i];
        SweepAt(before, keys[..i], now, key);
        var record := Read(key);
        if record.Some? && record.value.expiresAt <= now {
          storage := storage - {key};
          dropped := dropped + 1;
        } else {
          left := left + [key];
        }
        i := i + 1;
      }
      assert keys[..i] == keys;
      RemainingMembers(before, keys, now);
      known := left;
    }

    /** A protected call that nothing interleaves with: `work` is what running it would end with. */
    method WithIdempotency(req: Request, now: int, work: Work<T>) returns (out: Outcome<T>, started: bool)
      requires Valid()
      modifies this
      ensures Valid()
      ensures var begun := Idempotency.Begin(env, old(storage), req, now);
        && started == (begun.1.Ok? && begun.1.value.Claimed?)
        && (started ==> storage == Idempotency.Settle(env, begun.0, req.key.value, Settlement(work)).0)
        && (started ==> out == match work case Succeeds(v) => Value(v, false) case Fails(c) => FailedWith(c) case Throws(c) => FailedWith(c))
        && (!started ==> storage == begun.0)
        && (begun.1.Err? ==> out == Rejected(begun.1.code))
        && (begun.1.Ok? && begun.1.value.Replay? && begun.1.value.record.status.Completed? ==>
              out == Value(begun.1.value.record.status.response, true))
        && (begun.1.Ok? && begun.1.value.Replay? && begun.1.value.record.status.Failed? ==>
              out == FailedWith(begun.1.value.record.status.code))
    {
      started := false;
      var begun := Begin(req, now);
      if begun.Err? { return Rejected(begun.code), false; }
      if begun.value.Replay? {
        match begun.value.record.status
        case Failed(code) => return FailedWith(code), false;
        case Completed(response) => return Value(response, true), false;
        case InFlight => assert false;
      }
      started := true;
      var settled := Settle(req.key.value, Settlement(work));
      if settled.Err? { assert false; }
      match work
      case Succeeds(v) => out := Value(v, false);
      case Fails(code) => out := FailedWith(code);
      case Throws(code) => out := FailedWith(code);
    }
  }

  /** Called again with the same request before the record lapses, a protected call replays: nothing runs a second time. */
  lemma SecondCallReplays<T>(env: Env<T>, s: Storage<T>, req: Request, now: int, later: int, work: Work<T>)
    requires req.key.Some? && Begin(env, s, req, now).1.Ok? && Begin(env, s, req, now).1.value.Claimed? && later < now + env.ttl
    ensures var settled := Settle(env, Begin(env, s, req, now).0, req.key.value, Settlement(work)).0;
      var again := Begin(env, settled, req, later).1;
      && again.Ok? && again.value.Replay?
      && again.value.record.status == (match work
         case Succeeds(v) => Completed(env.persist(v)) case Fails(c) => Failed(c) case Throws(c) => Failed(c))
  {
  }
}
