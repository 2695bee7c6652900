/**
 * The bounded cache: an insertion-ordered map used as a recency list, with time-to-live,
 * ordered writes and eviction, refined to a cache that stamps every touch.
 */
module Cache {
  import opened Prelude

  datatype Entry<V> = Entry(value: V, cachedAt: int, ttl: int, version: int, ledger: Option<int>, source: Option<string>)

  datatype Config = Config(maxEntries: Positive, ttl: Positive, schemaVersion: Positive)

  datatype Write = Write(ttl: Option<int>, ledger: Option<int>, source: Option<string>)

  const MAX_SAFE_INTEGER := 9007199254740991

  /** `keys` is the map's insertion order; `entries` what it holds. */
  datatype State<V> = State(
    keys: seq<string>, entries: map<string, Entry<V>>, hits: nat, misses: nat, evictions: nat, invalidations: nat)

  function Empty<V>(): State<V> { State([], map[], 0, 0, 0, 0) }

  datatype Out<V> = Hit(v: V) | Miss | Expired | Stored | StaleWrite | BadTtl | Removed(n: nat) | Unauthorized

  predicate IsExpired<V>(e: Entry<V>, at: int) { at - e.cachedAt > e.ttl }

  // ---------------------------------------------------------------- the insertion-ordered map

  function Filter(keys: seq<string>, keep: string -> bool): seq<string>
  {
    if keys == [] then [] else (if keep(keys[0]) then [keys[0]] else []) + Filter(keys[1..], keep)
  }

  function Without(keys: seq<string>, k: string): seq<string> { Filter(keys, x => x != k) }

  function Delete<V>(s: State<V>, k: string): State<V> { s.(keys := Without(s.keys, k), entries := s.entries - {k}) }

  /** `delete` then `set`: the key becomes the newest. */
  function Put<V>(s: State<V>, k: string, e: Entry<V>): State<V>
  {
    s.(keys := Without(s.keys, k) + [k], entries := s.entries[k := e])
  }

  // ---------------------------------------------------------------- the operations

  function Get<V>(s: State<V>, k: string, now: int): (State<V>, Out<V>)
  {
    if k !in s.entries then (s.(misses := s.misses + 1), Miss)
    else if IsExpired(s.entries[k], now) then (Delete(s, k).(misses := s.misses + 1), Expired)
    else (Put(s, k, s.entries[k]).(hits := s.hits + 1), Hit(s.entries[k].value))
  }

  predicate GoodTtl(w: Write) { w.ttl.Some? ==> 1 <= w.ttl.value <= MAX_SAFE_INTEGER }

  /** A live entry was read at a later ledger than this write. */
  predicate Stale<V>(s: State<V>, k: string, w: Write, now: int)
  {
    && k in s.entries && !IsExpired(s.entries[k], now)
    && s.entries[k].ledger.Some? && w.ledger.Some? && w.ledger.value < s.entries[k].ledger.value
  }

  function NewEntry<V>(c: Config, v: V, w: Write, now: int): Entry<V>
  {
    Entry(v, now, if w.ttl.Some? then w.ttl.value else c.ttl, c.schemaVersion, w.ledger, w.source)
  }

  function Set<V>(c: Config, s: State<V>, k: string, v: V, w: Write, now: int): (State<V>, Out<V>)
  {
    if !GoodTtl(w) then (s, BadTtl)
    else if Stale(s, k, w, now) then (s, StaleWrite)
    else
      var put := Put(s, k, NewEntry(c, v, w, now));
      (if |put.keys| > c.maxEntries then Delete(put, put.keys[0]).(evictions := put.evictions + 1) else put, Stored)
  }

  function Invalidate<V>(s: State<V>, k: string): (State<V>, Out<V>)
  {
    if k in s.entries then (Delete(s, k).(invalidations := s.invalidations + 1), Removed(1)) else (s, Removed(0))
  }

  /** The keys that are still in the map, in their order. */
  function Kept<V>(keys: seq<string>, left: map<string, Entry<V>>): seq<string> { Filter(keys, k => k in left) }

  function Unchosen<V>(entries: map<string, Entry<V>>, drop: (string, Entry<V>) -> bool): map<string, Entry<V>>
  {
    map k | k in entries && !drop(k, entries[k]) :: entries[k]
  }

  function InvalidateWhere<V>(s: State<V>, drop: (string, Entry<V>) -> bool): (State<V>, Out<V>)
  {
    var left := Unchosen(s.entries, drop);
    var removed: nat := if |left| <= |s.entries| then |s.entries| - |left| else 0;
    (s.(keys := Kept(s.keys, left), entries := left, invalidations := s.invalidations + removed), Removed(removed))
  }

  function Clear<V>(s: State<V>, permitted: bool): (State<V>, Out<V>)
  {
    if !permitted then (s, Unauthorized)
    else (s.(keys := [], entries := map[], invalidations := s.invalidations + |s.keys|), Removed(|s.keys|))
  }

  datatype Op<!V> =
    | GetOp(k: string, now: int)
    | SetOp(k: string, v: V, w: Write, now: int)
    | InvalidateOp(k: string)
    | WhereOp(drop: (string, Entry<V>) -> bool)
    | ClearOp(permitted: bool)

  function Do<V>(c: Config, s: State<V>, op: Op<V>): (State<V>, Out<V>)
  {
    match op
    case GetOp(k, now) => Get(s, k, now)
    case SetOp(k, v, w, now) => Set(c, s, k, v, w, now)
    case InvalidateOp(k) => Invalidate(s, k)
    case WhereOp(drop) => InvalidateWhere(s, drop)
    case ClearOp(permitted) => Clear(s, permitted)
  }

  function Run<V>(c: Config, ops: seq<Op<V>>): State<V>
  {
    if ops == [] then Empty() else Do(c, Run(c, ops[..|ops| - 1]), ops[|ops| - 1]).0
  }

  // ---------------------------------------------------------------- the reference: every touch is stamped

  datatype Stamped<V> = Stamped(entry: Entry<V>, tick: nat)

  /** The reference cache: no order, only when each key was last touched. */
  datatype Reference<V> = Reference(live: map<string, Stamped<V>>, clock: nat)

  function Touch<V>(r: Reference<V>, k: string, e: Entry<V>): Reference<V>
  {
    Reference(r.live[k := Stamped(e, r.clock)], r.clock + 1)
  }

  /** No live key was touched longer ago. */
  ghost predicate LeastRecent<V>(r: Reference<V>, k: string)
  {
    k in r.live && forall x | x in r.live :: r.live[k].tick <= r.live[x].tick
  }

  /** One reference step: what each operation may do to the stamped cache, and what it answers. */
  ghost predicate ReferenceStep<V(!new)>(c: Config, r: Reference<V>, op: Op<V>, r': Reference<V>, out: Out<V>)
  {
    match op
    case GetOp(k, now) =>
      if k !in r.live then r' == r && out == Miss
      else if IsExpired(r.live[k].entry, now) then r' == r.(live := r.live - {k}) && out == Expired
      else r' == Touch(r, k, r.live[k].entry) && out == Hit(r.live[k].entry.value)
    case SetOp(k, v, w, now) =>
      if !GoodTtl(w) then r' == r && out == BadTtl
      else if k in r.live && !IsExpired(r.live[k].entry, now) && r.live[k].entry.ledger.Some? && w.ledger.Some?
              && w.ledger.value < r.live[k].entry.ledger.value then r' == r && out == StaleWrite
      else
        var full := Touch(r, k, NewEntry(c, v, w, now));
        out == Stored &&
        if |full.live| <= c.maxEntries then r' == full
        else exists victim | LeastRecent(full, victim) :: r' == full.(live := full.live - {victim})
    case InvalidateOp(k) => r' == r.(live := r.live - {k}) && out == Removed(if k in r.live then 1 else 0)
    case WhereOp(drop) =>
      && r'.clock == r.clock && out.Removed? && out.n == |r.live| - |r'.live|
      && r'.live == map k | k in r.live && !drop(k, r.live[k].entry) :: r.live[k]
    case ClearOp(permitted) =>
      if permitted then r' == r.(live := map[]) && out == Removed(|r.live|) else r' == r && out == Unauthorized
  }

  /** The map's order is the order of the stamps, and both hold the same entries. */
  ghost predicate Agrees<V>(s: State<V>, r: Reference<V>)
  {
    && s.entries.Keys == r.live.Keys
    && (forall k | k in s.entries :: s.entries[k] == r.live[k].entry && r.live[k].tick < r.clock)
    && InOrder(s.keys, r.live)
  }

  /** The keys are the live ones, each once, oldest touch first. */
  ghost predicate InOrder<V>(keys: seq<string>, live: map<string, Stamped<V>>)
  {
    Ordered(keys, live) && forall k | k in live :: k in keys
  }

  ghost predicate Ordered<V>(keys: seq<string>, live: map<string, Stamped<V>>)
  {
    && (forall i | 0 <= i < |keys| :: keys[i] in live)
    && (forall i, j | 0 <= i < j < |keys| :: live[keys[i]].tick < live[keys[j]].tick)
  }

  lemma {:induction false} FilterMembers(keys: seq<string>, keep: string -> bool)
    ensures forall x :: x in Filter(keys, keep) <==> x in keys && keep(x)
  {
    if keys != [] {
      FilterMembers(keys[1..], keep);
      assert keys == [keys[0]] + keys[1..];
    }
  }

  /** Dropping keys keeps the order of the others. */
  lemma {:induction false} FilterOrdered<V>(keys: seq<string>, live: map<string, Stamped<V>>, keep: string -> bool)
    requires Ordered(keys, live)
    ensures Ordered(Filter(keys, keep), live)
  {
    if keys != [] {
      var rest := Filter(keys[1..], keep);
      FilterOrdered(keys[1..], live, keep);
      FilterMembers(keys[1..], keep);
      forall j | 0 <= j < |rest| ensures rest[j] in live && live[keys[0]].tick < live[rest[j]].tick {
        assert rest[j] in rest;
        var i :| 0 <= i < |keys[1..]| && keys[1..][i] == rest[j];
        assert keys[i + 1] == rest[j];
      }
    }
  }

  /** Only the entries of the keys matter for their order. */
  lemma OrderedSame<V>(keys: seq<string>, live: map<string, Stamped<V>>, live': map<string, Stamped<V>>)
    requires Ordered(keys, live) && forall i | 0 <= i < |keys| :: keys[i] in live' && live'[keys[i]] == live[keys[i]]
    ensures Ordered(keys, live')
  {
  }

  // ---------------------------------------------------------------- refinement

  lemma DeleteAgrees<V>(s: State<V>, r: Reference<V>, k: string)
    requires Agrees(s, r)
    ensures Agrees(Delete(s, k), r.(live := r.live - {k}))
  {
    var left := Without(s.keys, k);
    FilterMembers(s.keys, x => x != k);
    FilterOrdered(s.keys, r.live, x => x != k);
    forall i | 0 <= i < |left| ensures left[i] in r.live - {k} { assert left[i] in left; }
    OrderedSame(left, r.live, r.live - {k});
    forall x | x in r.live - {k} ensures x in left { assert x in s.keys; }
  }

  lemma OrderedPush<V>(keys: seq<string>, live: map<string, Stamped<V>>, k: string)
    requires Ordered(keys, live) && k in live && forall i | 0 <= i < |keys| :: live[keys[i]].tick < live[k].tick
    ensures Ordered(keys + [k], live)
  {
  }

  lemma PutAgrees<V>(s: State<V>, r: Reference<V>, k: string, e: Entry<V>)
    requires Agrees(s, r)
    ensures Agrees(Put(s, k, e), Touch(r, k, e))
  {
    var live' := Touch(r, k, e).live;
    var left := Without(s.keys, k);
    FilterMembers(s.keys, x => x != k);
    FilterOrdered(s.keys, r.live, x => x != k);
    forall i | 0 <= i < |left| ensures left[i] in live' && left[i] != k && left[i] in r.live && live'[left[i]] == r.live[left[i]] {
      assert left[i] in left;
    }
    OrderedSame(left, r.live, live');
    OrderedPush(left, live', k);
    forall x | x in live' ensures x in left + [k] {
      if x != k { assert x in s.keys; }
    }
  }

  /** The list has as many keys as the map has entries. */
  lemma {:induction false} KeysCount(keys: seq<string>, all: set<string>)
    requires forall i, j | 0 <= i < j < |keys| :: keys[i] != keys[j]
    requires forall k :: k in all <==> k in keys
    ensures |keys| == |all|
    decreases |keys|
  {
    if keys != [] {
      var n := |keys| - 1;
      assert keys == keys[..n] + [keys[n]];
      KeysCount(keys[..n], all - {keys[n]});
    } else {
      assert all == {};
    }
  }

  lemma AgreeingSizes<V>(s: State<V>, r: Reference<V>)
    requires Agrees(s, r)
    ensures |s.keys| == |s.entries| == |r.live|
  {
    forall i, j | 0 <= i < j < |s.keys| ensures s.keys[i] != s.keys[j] { assert r.live[s.keys[i]].tick < r.live[s.keys[j]].tick; }
    KeysCount(s.keys, s.entries.Keys);
    assert |s.entries| == |s.entries.Keys| && |r.live| == |r.live.Keys|;
  }

  /** The first key of the map is the least recently touched one. */
  lemma FirstIsLeastRecent<V>(s: State<V>, r: Reference<V>)
    requires Agrees(s, r) && s.keys != []
    ensures LeastRecent(r, s.keys[0])
  {
    forall x | x in r.live ensures r.live[s.keys[0]].tick <= r.live[x].tick {
      assert x in s.keys;
      var i :| 0 <= i < |s.keys| && s.keys[i] == x;
    }
  }

  lemma SmallerSet(a: set<string>, b: set<string>)
    requires a <= b
    ensures |a| <= |b|
  {
    assert b == a + (b - a);
  }

  function Survivors<V>(r: Reference<V>, drop: (string, Entry<V>) -> bool): Reference<V>
  {
    r.(live := map k | k in r.live && !drop(k, r.live[k].entry) :: r.live[k])
  }

  lemma KeptInOrder<V>(keys: seq<string>, live: map<string, Stamped<V>>, left: map<string, Entry<V>>, live': map<string, Stamped<V>>)
    requires InOrder(keys, live) && left.Keys == live'.Keys && forall k | k in live' :: k in live && live'[k] == live[k]
    ensures InOrder(Kept(keys, left), live')
  {
    var kept := Kept(keys, left);
    FilterMembers(keys, k => k in left);
    FilterOrdered(keys, live, k => k in left);
    forall i | 0 <= i < |kept| ensures kept[i] in live' { assert kept[i] in kept; }
    OrderedSame(kept, live, live');
  }

  lemma WhereAgrees<V>(s: State<V>, r: Reference<V>, drop: (string, Entry<V>) -> bool)
    requires Agrees(s, r)
    ensures Agrees(InvalidateWhere(s, drop).0, Survivors(r, drop))
  {
    KeptInOrder(s.keys, r.live, InvalidateWhere(s, drop).0.entries, Survivors(r, drop).live);
  }

  lemma WhereCounts<V>(s: State<V>, r: Reference<V>, drop: (string, Entry<V>) -> bool)
    requires Agrees(s, r)
    ensures InvalidateWhere(s, drop).1.n == |r.live| - |Survivors(r, drop).live|
  {
    WhereAgrees(s, r, drop);
    AgreeingSizes(s, r);
    AgreeingSizes(InvalidateWhere(s, drop).0, Survivors(r, drop));
    SmallerSet(InvalidateWhere(s, drop).0.entries.Keys, s.entries.Keys);
    assert |s.entries| == |s.entries.Keys|;
    assert |InvalidateWhere(s, drop).0.entries| == |InvalidateWhere(s, drop).0.entries.Keys|;
  }

  lemma SetRefines<V(!new)>(c: Config, s: State<V>, r: Reference<V>, op: Op<V>) returns (r': Reference<V>)
    requires Agrees(s, r) && op.SetOp?
    ensures Agrees(Do(c, s, op).0, r') && ReferenceStep(c, r, op, r', Do(c, s, op).1)
  {
    r' := r;
    if GoodTtl(op.w) && !Stale(s, op.k, op.w, op.now) {
      var e := NewEntry(c, op.v, op.w, op.now);
      var put := Put(s, op.k, e);
      r' := Touch(r, op.k, e);
      PutAgrees(s, r, op.k, e);
      AgreeingSizes(put, r');
      if |put.keys| > c.maxEntries {
        FirstIsLeastRecent(put, r');
        DeleteAgrees(put, r', put.keys[0]);
        r' := r'.(live := r'.live - {put.keys[0]});
      }
    }
  }

  lemma GetRefines<V(!new)>(c: Config, s: State<V>, r: Reference<V>, op: Op<V>) returns (r': Reference<V>)
    requires Agrees(s, r) && op.GetOp?
    ensures Agrees(Do(c, s, op).0, r') && ReferenceStep(c, r, op, r', Do(c, s, op).1)
  {
    r' := r;
    if op.k in s.entries {
      if IsExpired(s.entries[op.k], op.now) {
        DeleteAgrees(s, r, op.k);
        r' := r.(live := r.live - {op.k});
      } else {
        PutAgrees(s, r, op.k, s.entries[op.k]);
        r' := Touch(r, op.k, s.entries[op.k]);
      }
    }
  }

  lemma ClearRefines<V(!new)>(c: Config, s: State<V>, r: Reference<V>, op: Op<V>) returns (r': Reference<V>)
    requires Agrees(s, r) && op.ClearOp?
    ensures Agrees(Do(c, s, op).0, r') && ReferenceStep(c, r, op, r', Do(c, s, op).1)
  {
    AgreeingSizes(s, r);
    r' := if op.permitted then r.(live := map[]) else r;
  }

  lemma DropAgrees<V>(s: State<V>, r: Reference<V>, k: string)
    requires Agrees(s, r)
    ensures Agrees(Invalidate(s, k).0, r.(live := r.live - {k}))
  {
    if k in s.entries {
      DeleteAgrees(s, r, k);
    } else {
      assert r.live - {k} == r.live;
    }
  }

  lemma DropRefines<V(!new)>(c: Config, s: State<V>, r: Reference<V>, op: Op<V>) returns (r': Reference<V>)
    requires Agrees(s, r) && op.InvalidateOp?
    ensures Agrees(Do(c, s, op).0, r') && ReferenceStep(c, r, op, r', Do(c, s, op).1)
  {
    DropAgrees(s, r, op.k);
    r' := r.(live := r.live - {op.k});
  }

  lemma WhereRefines<V(!new)>(c: Config, s: State<V>, r: Reference<V>, op: Op<V>) returns (r': Reference<V>)
    requires Agrees(s, r) && op.WhereOp?
    ensures Agrees(Do(c, s, op).0, r') && ReferenceStep(c, r, op, r', Do(c, s, op).1)
  {
    WhereAgrees(s, r, op.drop);
    WhereCounts(s, r, op.drop);
    r' := Survivors(r, op.drop);
  }

  /** Every operation of the map agrees with a step of the stamped reference, answer included. */
  lemma StepRefines<V(!new)>(c: Config, s: State<V>, r: Reference<V>, op: Op<V>) returns (r': Reference<V>)
    requires Agrees(s, r)
    ensures Agrees(Do(c, s, op).0, r') && ReferenceStep(c, r, op, r', Do(c, s, op).1)
  {
    if op.GetOp? { r' := GetRefines(c, s, r, op); }
    else if op.SetOp? { r' := SetRefines(c, s, r, op); }
    else if op.WhereOp? { r' := WhereRefines(c, s, r, op); }
    else if op.ClearOp? { r' := ClearRefines(c, s, r, op); }
    else { r' := DropRefines(c, s, r, op); }
  }

  /** What operation `i` of a run answers. */
  function Answer<V>(c: Config, ops: seq<Op<V>>, i: nat): Out<V>
    requires i < |ops|
  {
    Do(c, Run(c, ops[..i]), ops[i]).1
  }

  /** A run of the reference, step by step, with the answers given. */
  ghost predicate ReferenceRun<V(!new)>(c: Config, ops: seq<Op<V>>, refs: seq<Reference<V>>)
  {
    && |refs| == |ops| + 1 && refs[0] == Reference(map[], 0)
    && forall i | 0 <= i < |ops| :: ReferenceStep(c, refs[i], ops[i], refs[i + 1], Answer(c, ops, i))
  }

  lemma ReferencePush<V(!new)>(c: Config, ops: seq<Op<V>>, op: Op<V>, refs: seq<Reference<V>>, r': Reference<V>)
    requires ReferenceRun(c, ops, refs) && ReferenceStep(c, refs[|ops|], op, r', Do(c, Run(c, ops), op).1)
    ensures ReferenceRun(c, ops + [op], refs + [r'])
  {
    var more, refs' := ops + [op], refs + [r'];
    forall i | 0 <= i < |more| ensures ReferenceStep(c, refs'[i], more[i], refs'[i + 1], Answer(c, more, i)) {
      assert more[..i] == ops[..i];
      if i < |ops| { assert Answer(c, more, i) == Answer(c, ops, i); } else { assert ops[..i] == ops; }
    }
  }

  /**
   * Over every sequence of operations the map answers exactly as a cache that stamps every touch and evicts the
   * least recently touched key, and holds the same entries.
   */
  lemma {:induction false} RunRefines<V(!new)>(c: Config, ops: seq<Op<V>>) returns (refs: seq<Reference<V>>)
    ensures ReferenceRun(c, ops, refs) && Agrees(Run(c, ops), refs[|ops|])
  {
    if ops == [] {
      refs := [Reference(map[], 0)];
    } else {
      var n := |ops| - 1;
      var before := RunRefines(c, ops[..n]);
      var r' := StepRefines(c, Run(c, ops[..n]), before[n], ops[n]);
      ReferencePush(c, ops[..n], ops[n], before, r');
      assert ops[..n] + [ops[n]] == ops;
      refs := before + [r'];
    }
  }

  lemma {:induction false} ReferenceBounded<V(!new)>(c: Config, ops: seq<Op<V>>, refs: seq<Reference<V>>, n: nat)
    requires ReferenceRun(c, ops, refs) && n <= |ops|
    ensures |refs[n].live| <= c.maxEntries
  {
    if n > 0 {
      ReferenceBounded(c, ops, refs, n - 1);
      StepBounded(c, refs[n - 1], ops[n - 1], refs[n], Answer(c, ops, n - 1));
    }
  }

  /** No run leaves more than `maxEntries` entries. */
  lemma SizeBounded<V(!new)>(c: Config, ops: seq<Op<V>>)
    ensures |Run(c, ops).keys| == |Run(c, ops).entries| <= c.maxEntries
  {
    var refs := RunRefines(c, ops);
    ReferenceBounded(c, ops, refs, |ops|);
    AgreeingSizes(Run(c, ops), refs[|ops|]);
  }

  lemma SetBounded<V(!new)>(c: Config, r: Reference<V>, op: Op<V>, r': Reference<V>, out: Out<V>)
    requires op.SetOp? && |r.live| <= c.maxEntries && ReferenceStep(c, r, op, r', out)
    ensures |r'.live| <= c.maxEntries
  {
    var full := Touch(r, op.k, NewEntry(c, op.v, op.w, op.now));
    assert full.live.Keys == r.live.Keys + {op.k};
    assert |full.live| == |full.live.Keys| <= |r.live| + 1;
    if r' != r && |full.live| > c.maxEntries {
      var victim :| LeastRecent(full, victim) && r' == full.(live := full.live - {victim});
      assert r'.live.Keys == full.live.Keys - {victim} && |r'.live| == |r'.live.Keys|;
    }
  }

  /** No reference step leaves more than `maxEntries` live keys. */
  lemma StepBounded<V(!new)>(c: Config, r: Reference<V>, op: Op<V>, r': Reference<V>, out: Out<V>)
    requires |r.live| <= c.maxEntries && ReferenceStep(c, r, op, r', out)
    ensures |r'.live| <= c.maxEntries
  {
    if op.SetOp? {
      SetBounded(c, r, op, r', out);
    } else {
      assert |r.live| == |r.live.Keys| && |r'.live| == |r'.live.Keys|;
      SmallerSet(r'.live.Keys, r.live.Keys);
    }
  }

  // ---------------------------------------------------------------- what a hit is

  /** The operation stored a new entry for the key. */
  predicate Stores<V>(c: Config, s: State<V>, op: Op<V>, k: string)
  {
    op.SetOp? && op.k == k && GoodTtl(op.w) && !Stale(s, k, op.w, op.now)
  }

  ghost predicate Held<V>(c: Config, ops: seq<Op<V>>, j: nat, k: string, e: Entry<V>)
    requires j <= |ops|
  {
    k in Run(c, ops[..j]).entries && Run(c, ops[..j]).entries[k] == e
  }

  ghost predicate StoredBy<V>(c: Config, ops: seq<Op<V>>, j: nat, k: string)
    requires j < |ops|
  {
    Stores(c, Run(c, ops[..j]), ops[j], k)
  }

  /** Operation `m` is the last of the first `n` that stored `k`, its entry is `e`, and it was never removed since. */
  ghost predicate WrittenAt<V>(c: Config, ops: seq<Op<V>>, m: nat, n: nat, k: string, e: Entry<V>)
    requires m < n <= |ops|
  {
    && StoredBy(c, ops, m, k) && e == NewEntry(c, ops[m].v, ops[m].w, ops[m].now)
    && (forall j | m < j < n :: !StoredBy(c, ops, j, k))
    && (forall j | m < j <= n :: Held(c, ops, j, k, e))
  }

  /** An entry held after a step is what the step stored or, if it stored nothing for the key, was held before it. */
  lemma WhereFrom<V>(c: Config, s: State<V>, op: Op<V>, k: string)
    requires k in Do(c, s, op).0.entries
    ensures var e := Do(c, s, op).0.entries[k];
      if Stores(c, s, op, k) then e == NewEntry(c, op.v, op.w, op.now) else k in s.entries && s.entries[k] == e
  {
  }

  lemma {:induction false} EntryIsLastWrite<V>(c: Config, ops: seq<Op<V>>, n: nat, k: string) returns (m: nat)
    requires n <= |ops| && k in Run(c, ops[..n]).entries
    ensures m < n && WrittenAt(c, ops, m, n, k, Run(c, ops[..n]).entries[k])
    decreases n
  {
    assert n > 0;
    assert ops[..n][..n - 1] == ops[..n - 1] && ops[..n][n - 1] == ops[n - 1];
    WhereFrom(c, Run(c, ops[..n - 1]), ops[n - 1], k);
    if Stores(c, Run(c, ops[..n - 1]), ops[n - 1], k) {
      m := n - 1;
    } else {
      m := EntryIsLastWrite(c, ops, n - 1, k);
    }
  }

  /**
   * A hit is the value of the last accepted write for the key, still within that write's time to live, and the
   * key was neither evicted, invalidated nor overwritten in between.
   */
  lemma HitIsLastWrite<V>(c: Config, ops: seq<Op<V>>, k: string, now: int, v: V) returns (m: nat)
    requires Get(Run(c, ops), k, now).1 == Hit(v)
    ensures m < |ops| && ops[m].SetOp? && ops[m].v == v
    ensures WrittenAt(c, ops, m, |ops|, k, NewEntry(c, v, ops[m].w, ops[m].now))
    ensures now - ops[m].now <= if ops[m].w.ttl.Some? then ops[m].w.ttl.value else c.ttl
  {
    assert ops[..|ops|] == ops;
    m := EntryIsLastWrite(c, ops, |ops|, k);
  }

  function Gets<V>(ops: seq<Op<V>>): nat
  {
    if ops == [] then 0 else Gets(ops[..|ops| - 1]) + (if ops[|ops| - 1].GetOp? then 1 else 0)
  }

  /** Every read is counted exactly once, as a hit or as a miss. */
  lemma {:induction false} ReadsAreCounted<V>(c: Config, ops: seq<Op<V>>)
    ensures Run(c, ops).hits + Run(c, ops).misses == Gets(ops)
  {
    if ops != [] { ReadsAreCounted(c, ops[..|ops| - 1]); }
  }
}
