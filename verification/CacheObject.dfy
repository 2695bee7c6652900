/** The cache as the object callers hold: fields updated in place, each method tied to the operation it performs. */
module CacheObject {
  import opened Prelude
  import opened Cache
  import opened CacheLoads

  lemma {:induction false} FilterAgain(keys: seq<string>, p: string -> bool, q: string -> bool, r: string -> bool)
    requires forall x | x in keys :: r(x) == (p(x) && q(x))
    ensures Filter(Filter(keys, p), q) == Filter(keys, r)
  {
    if keys != [] {
      var rest := Filter(keys[1..], p);
      FilterAgain(keys[1..], p, q, r);
      assert keys[0] in keys;
      assert ([keys[0]] + rest)[1..] == rest;
      assert [] + rest == rest;
    }
  }

  lemma KeptWithout<V>(keys: seq<string>, left: map<string, Entry<V>>, k: string)
    ensures Without(Kept(keys, left), k) == Kept(keys, left - {k})
  {
    FilterAgain(keys, x => x in left, x => x != k, x => x in left - {k});
  }

  lemma {:induction false} KeptAll<V>(keys: seq<string>, left: map<string, Entry<V>>)
    requires forall x | x in keys :: x in left
    ensures Kept(keys, left) == keys
  {
    if keys != [] {
      KeptAll(keys[1..], left);
      assert keys[0] in keys;
    }
  }

  function Names(keys: seq<string>): set<string> { set k | k in keys }

  /** The key list names exactly the entries. */
  ghost predicate Listed<V>(s: State<V>) { Kept(s.keys, s.entries) == s.keys && Names(s.keys) == s.entries.Keys }

  lemma ListedFrom<V>(s: State<V>, r: Reference<V>)
    requires Agrees(s, r)
    ensures Listed(s)
  {
    forall k | k in s.keys ensures k in s.entries {
      var i :| 0 <= i < |s.keys| && s.keys[i] == k;
      assert s.keys[i] in r.live;
    }
    forall k | k in s.entries ensures k in s.keys { assert k in r.live; }
    KeptAll(s.keys, s.entries);
  }

  lemma AlwaysListed<V(!new)>(c: Config, es: seq<Event<V>>)
    ensures Listed(After(c, es).cache)
  {
    LoadsAreOperations(c, es);
    var refs := RunRefines(c, Effects(c, es));
    ListedFrom(After(c, es).cache, refs[|Effects(c, es)|]);
  }

  /** What is left once the chosen keys among `visited` are gone. */
  function Left<V>(entries: map<string, Entry<V>>, visited: set<string>, drop: (string, Entry<V>) -> bool): map<string, Entry<V>>
  {
    map k | k in entries && !(k in visited && drop(k, entries[k])) :: entries[k]
  }

  function LeftLoads<V>(
    inflight: map<string, nat>, entries: map<string, Entry<V>>, visited: set<string>, drop: (string, Entry<V>) -> bool): map<string, nat>
  {
    map k | k in inflight && !(k in visited && k in entries && drop(k, entries[k])) :: inflight[k]
  }

  lemma VisitOne<V>(inflight: map<string, nat>, entries: map<string, Entry<V>>, visited: set<string>, drop: (string, Entry<V>) -> bool, k: string)
    requires k in entries && k !in visited
    ensures Left(entries, visited + {k}, drop) ==
              if drop(k, entries[k]) then Left(entries, visited, drop) - {k} else Left(entries, visited, drop)
    ensures LeftLoads(inflight, entries, visited + {k}, drop) ==
              if drop(k, entries[k]) then LeftLoads(inflight, entries, visited, drop) - {k} else LeftLoads(inflight, entries, visited, drop)
    ensures k in Left(entries, visited, drop)
    ensures |Left(entries, visited, drop) - {k}| == |Left(entries, visited, drop)| - 1
  {
    var left := Left(entries, visited, drop);
    assert (left - {k}).Keys == left.Keys - {k};
    assert |left - {k}| == |(left - {k}).Keys| && |left| == |left.Keys|;
  }

  /** What a pass over the keys has done so far. */
  datatype Sweep<V> = Sweep(keys: seq<string>, entries: map<string, Entry<V>>, inflight: map<string, nat>, removed: nat)

  function Visit<V>(w: Sweep<V>, k: string, drop: (string, Entry<V>) -> bool): Sweep<V>
  {
    if k in w.entries && drop(k, w.entries[k]) then Sweep(Without(w.keys, k), w.entries - {k}, w.inflight - {k}, w.removed + 1) else w
  }

  function VisitAll<V>(w: Sweep<V>, all: seq<string>, drop: (string, Entry<V>) -> bool): Sweep<V>
  {
    if all == [] then w else Visit(VisitAll(w, all[..|all| - 1], drop), all[|all| - 1], drop)
  }

  function Start<V>(s: System<V>): Sweep<V> { Sweep(s.cache.keys, s.cache.entries, s.inflight, 0) }

  /** What is left, and how many went, once the chosen keys among `visited` are gone. */
  function Remaining<V>(s: System<V>, visited: set<string>, drop: (string, Entry<V>) -> bool): Sweep<V>
  {
    var left := Left(s.cache.entries, visited, drop);
    Sweep(Kept(s.cache.keys, left), left, LeftLoads(s.inflight, s.cache.entries, visited, drop),
          if |left| <= |s.cache.entries| then |s.cache.entries| - |left| else 0)
  }

  lemma VisitNew<V>(s: System<V>, visited: set<string>, drop: (string, Entry<V>) -> bool, k: string)
    requires k in s.cache.entries && k !in visited
    ensures Visit(Remaining(s, visited, drop), k, drop) == Remaining(s, visited + {k}, drop)
  {
    var left := Left(s.cache.entries, visited, drop);
    VisitOne(s.inflight, s.cache.entries, visited, drop, k);
    KeptWithout(s.cache.keys, left, k);
    SmallerSet(left.Keys, s.cache.entries.Keys);
    assert |left| == |left.Keys| && |s.cache.entries| == |s.cache.entries.Keys|;
  }

  lemma VisitAbsent<V>(s: System<V>, visited: set<string>, drop: (string, Entry<V>) -> bool, k: string)
    requires k !in s.cache.entries
    ensures Visit(Remaining(s, visited, drop), k, drop) == Remaining(s, visited + {k}, drop)
  {
    assert Left(s.cache.entries, visited + {k}, drop) == Left(s.cache.entries, visited, drop);
    assert LeftLoads(s.inflight, s.cache.entries, visited + {k}, drop) == LeftLoads(s.inflight, s.cache.entries, visited, drop);
  }

  lemma VisitRemaining<V>(s: System<V>, visited: set<string>, drop: (string, Entry<V>) -> bool, k: string)
    ensures Visit(Remaining(s, visited, drop), k, drop) == Remaining(s, visited + {k}, drop)
  {
    if k in visited {
      assert visited + {k} == visited;
    } else if k in s.cache.entries {
      VisitNew(s, visited, drop, k);
    } else {
      VisitAbsent(s, visited, drop, k);
    }
  }

  lemma NoneVisited<V>(s: System<V>, drop: (string, Entry<V>) -> bool)
    requires Listed(s.cache)
    ensures Remaining(s, {}, drop) == Start(s)
  {
    assert Left(s.cache.entries, {}, drop) == s.cache.entries;
    assert LeftLoads(s.inflight, s.cache.entries, {}, drop) == s.inflight;
  }

  /** Visiting keys one by one leaves what the chosen keys' absence leaves. */
  lemma {:induction false} VisitAllLeaves<V>(s: System<V>, all: seq<string>, drop: (string, Entry<V>) -> bool)
    requires Remaining(s, {}, drop) == Start(s)
    ensures VisitAll(Start(s), all, drop) == Remaining(s, Names(all), drop)
  {
    if all == [] {
      assert Names(all) == {};
    } else {
      var n := |all| - 1;
      VisitAllLeaves(s, all[..n], drop);
      VisitRemaining(s, Names(all[..n]), drop, all[n]);
      assert all == all[..n] + [all[n]];
      assert Names(all) == Names(all[..n]) + {all[n]};
    }
  }

  lemma AllVisited<V>(entries: map<string, Entry<V>>, visited: set<string>, drop: (string, Entry<V>) -> bool)
    requires forall k | k in entries :: k in visited
    ensures Left(entries, visited, drop) == Unchosen(entries, drop)
  {
  }

  lemma WhereCache<V>(s: System<V>, visited: set<string>, drop: (string, Entry<V>) -> bool)
    requires forall k | k in s.cache.entries :: k in visited
    ensures var w := Remaining(s, visited, drop);
      Cache.InvalidateWhere(s.cache, drop) ==
        (s.cache.(keys := w.keys, entries := w.entries, invalidations := s.cache.invalidations + w.removed), Removed(w.removed))
  {
    AllVisited(s.cache.entries, visited, drop);
  }

  lemma WhereLoads<V>(c: Config, s: System<V>, visited: set<string>, drop: (string, Entry<V>) -> bool)
    requires forall k | k in s.cache.entries :: k in visited
    ensures Operate(c, s, WhereOp(drop)).inflight == LeftLoads(s.inflight, s.cache.entries, visited, drop)
  {
  }

  /** `invalidateWhere` in terms of what a pass leaves. */
  function Swept<V>(s: System<V>, w: Sweep<V>): System<V>
  {
    System(s.cache.(keys := w.keys, entries := w.entries, invalidations := s.cache.invalidations + w.removed), w.inflight, s.loads)
  }

  lemma WhereIsRemaining<V>(c: Config, s: System<V>, visited: set<string>, drop: (string, Entry<V>) -> bool)
    requires forall k | k in s.cache.entries :: k in visited
    ensures Operate(c, s, WhereOp(drop)) == Swept(s, Remaining(s, visited, drop))
    ensures Cache.InvalidateWhere(s.cache, drop).1 == Removed(Remaining(s, visited, drop).removed)
  {
    WhereCache(s, visited, drop);
    WhereLoads(c, s, visited, drop);
  }

  /** A pass over all keys is exactly `invalidateWhere`. */
  lemma PassIsWhere<V>(c: Config, s: System<V>, drop: (string, Entry<V>) -> bool)
    requires Listed(s.cache)
    ensures Operate(c, s, WhereOp(drop)) == Swept(s, VisitAll(Start(s), s.cache.keys, drop))
    ensures Cache.InvalidateWhere(s.cache, drop).1 == Removed(VisitAll(Start(s), s.cache.keys, drop).removed)
  {
    assert VisitAll(Start(s), s.cache.keys, drop) == Remaining(s, Names(s.cache.keys), drop) by {
      NoneVisited(s, drop);
      VisitAllLeaves(s, s.cache.keys, drop);
    }
    WhereIsRemaining(c, s, Names(s.cache.keys), drop);
  }

  lemma WhereHappens<V(!new)>(c: Config, events: seq<Event<V>>, s: System<V>, drop: (string, Entry<V>) -> bool)
    requires s == After(c, events)
    ensures var w := VisitAll(Start(s), s.cache.keys, drop);
      && Swept(s, w) == Operate(c, s, WhereOp(drop)) == Next(c, s, Plain(WhereOp(drop)))
      && Removed(w.removed) == Cache.InvalidateWhere(s.cache, drop).1
  {
    AlwaysListed(c, events);
    PassIsWhere(c, s, drop);
  }

  class BoundedCache<V(!new)> {
    const config: Config
    var keys: seq<string>
    var entries: map<string, Entry<V>>
    var hits: nat
    var misses: nat
    var evictions: nat
    var invalidations: nat
    var inflight: map<string, nat>
    var loads: seq<Load>
    /** Everything that has happened to the object. */
    ghost var events: seq<Event<V>>

    ghost function Stored(): State<V>
      reads this
    {
      State(keys, entries, hits, misses, evictions, invalidations)
    }

    ghost function View(): System<V>
      reads this
    {
      System(Stored(), inflight, loads)
    }

    ghost predicate Valid()
      reads this
    {
      View() == After(config, events)
    }

    constructor (c: Config)
      ensures Valid() && config == c && View() == System(Empty(), map[], [])
    {
      config := c;
      keys, entries, hits, misses, evictions, invalidations := [], map[], 0, 0, 0, 0;
      inflight, loads := map[], [];
      events := [];
    }

    ghost method Record(before: System<V>, e: Event<V>)
      requires before == After(config, events) && View() == Next(config, before, e)
      modifies this`events
      ensures Valid() && events == old(events) + [e]
    {
      assert (events + [e])[..|events|] == events;
      events := events + [e];
    }

    /** `delete` then `set` of a key: it becomes the newest. */
    method PutEntry(k: string, e: Entry<V>)
      modifies this`keys, this`entries
      ensures Stored() == Put(old(Stored()), k, e)
    {
      keys, entries := Without(keys, k), entries - {k};
      keys, entries := keys + [k], entries[k := e];
      assert entries == old(entries)[k := e];
    }

    method DeleteEntry(k: string)
      modifies this`keys, this`entries
      ensures Stored() == Delete(old(Stored()), k)
    {
      keys, entries := Without(keys, k), entries - {k};
    }

    method Get(k: string, now: int) returns (out: Out<V>)
      requires Valid()
      modifies this
      ensures Valid() && events == old(events) + [Plain(GetOp(k, now))]
      ensures (Stored(), out) == Cache.Get(old(Stored()), k, now) && inflight == old(inflight) && loads == old(loads)
    {
      if k !in entries {
        misses := misses + 1;
        out := Miss;
      } else if IsExpired(entries[k], now) {
        DeleteEntry(k);
        misses := misses + 1;
        out := Expired;
      } else {
        var entry := entries[k];
        PutEntry(k, entry);
        hits := hits + 1;
        out := Hit(entry.value);
      }
      Record(old(View()), Plain(GetOp(k, now)));
    }

    method Set(k: string, v: V, w: Write, now: int) returns (out: Out<V>)
      requires Valid()
      modifies this
      ensures Valid() && events == old(events) + [Plain(SetOp(k, v, w, now))]
      ensures (Stored(), out) == Cache.Set(config, old(Stored()), k, v, w, now) && inflight == old(inflight) && loads == old(loads)
    {
      if w.ttl.Some? && !(1 <= w.ttl.value <= MAX_SAFE_INTEGER) {
        out := BadTtl;
      } else if k in entries && !IsExpired(entries[k], now) && entries[k].ledger.Some? && w.ledger.Some?
                && w.ledger.value < entries[k].ledger.value {
        out := StaleWrite;
      } else {
        PutEntry(k, NewEntry(config, v, w, now));
        if |keys| > config.maxEntries {
          DeleteEntry(keys[0]);
          evictions := evictions + 1;
        }
        out := Out.Stored;
      }
      Record(old(View()), Plain(SetOp(k, v, w, now)));
    }

    /** The synchronous part of `getOrLoad`: a hit, a load to join, or a load begun. */
    method GetOrLoad(k: string, w: Write, now: int) returns (out: Out<V>, token: Option<nat>)
      requires Valid()
      modifies this
      ensures Valid() && events == old(events) + [Event.GetOrLoad(k, w, now)] && View() == Call(old(View()), k, w, now)
      ensures out == Cache.Get(old(Stored()), k, now).1 && token.Some? == !out.Hit?
      ensures token.Some? ==> k in inflight && inflight[k] == token.value
      ensures token.Some? && k !in old(inflight) ==> token.value == |old(loads)|
    {
      out := Get(k, now);
      token := None;
      if !out.Hit? {
        if k !in inflight {
          inflight, loads := inflight[k := |loads|], loads + [Load(k, w, Loading)];
        }
        token := Some(inflight[k]);
      }
      events := old(events);
      Record(old(View()), Event.GetOrLoad(k, w, now));
    }

    /** A load's result arrives. */
    method Settle(t: nat, result: Option<V>, now: int)
      requires Valid() && Waiting(View(), t, Loading)
      modifies this
      ensures Valid() && events == old(events) + [Event.Settle(t, result, now)] && View() == SettleLoad(config, old(View()), t, result, now)
    {
      var load := loads[t];
      if result.Some? && load.key in inflight && inflight[load.key] == t {
        var _ := Set(load.key, result.value, load.w, now);
      }
      loads := loads[t := load.(stage := Settled)];
      events := old(events);
      Record(old(View()), Event.Settle(t, result, now));
    }

    /** A load's cleanup: it unregisters itself and no one else. */
    method Finish(t: nat)
      requires Valid() && Waiting(View(), t, Settled)
      modifies this`inflight, this`loads, this`events
      ensures Valid() && events == old(events) + [Event.Finish(t)] && View() == FinishLoad(old(View()), t)
    {
      var key := loads[t].key;
      loads := loads[t := loads[t].(stage := Done)];
      if key in inflight && inflight[key] == t {
        inflight := inflight - {key};
      }
      Record(old(View()), Event.Finish(t));
    }

    method Invalidate(k: string) returns (out: Out<V>)
      requires Valid()
      modifies this
      ensures Valid() && events == old(events) + [Plain(InvalidateOp(k))]
      ensures View() == Operate(config, old(View()), InvalidateOp(k)) && out == Cache.Invalidate(old(Stored()), k).1
    {
      inflight := inflight - {k};
      if k in entries {
        DeleteEntry(k);
        invalidations := invalidations + 1;
        out := Removed(1);
      } else {
        out := Removed(0);
      }
      Record(old(View()), Plain(InvalidateOp(k)));
    }

    method Clear(permitted: bool) returns (out: Out<V>)
      requires Valid()
      modifies this
      ensures Valid() && events == old(events) + [Plain(ClearOp(permitted))]
      ensures View() == Operate(config, old(View()), ClearOp(permitted)) && out == Cache.Clear(old(Stored()), permitted).1
    {
      if !permitted {
        out := Unauthorized;
      } else {
        out := Removed(|keys|);
        invalidations := invalidations + |keys|;
        keys, entries, inflight := [], map[], map[];
      }
      Record(old(View()), Plain(ClearOp(permitted)));
    }

    /** Visits the keys in order and drops the chosen ones, with their loads. */
    method Pass(drop: (string, Entry<V>) -> bool) returns (removed: nat)
      modifies this`keys, this`entries, this`inflight
      ensures Sweep(keys, entries, inflight, removed) == VisitAll(old(Start(View())), old(keys), drop)
    {
      ghost var start := Start(View());
      var all, i := keys, 0;
      removed := 0;
      while i < |all|
        invariant 0 <= i <= |all| && Sweep(keys, entries, inflight, removed) == VisitAll(start, all[..i], drop)
      {
        assert all[..i + 1][..i] == all[..i];
        var k := all[i];
        if k in entries && drop(k, entries[k]) {
          keys, entries, inflight := Without(keys, k), entries - {k}, inflight - {k};
          removed := removed + 1;
        }
        i := i + 1;
      }
      assert all[..i] == all;
    }

    method DropChosen(drop: (string, Entry<V>) -> bool) returns (removed: nat)
      modifies this`keys, this`entries, this`inflight, this`invalidations
      ensures var w := VisitAll(old(Start(View())), old(keys), drop); View() == Swept(old(View()), w) && removed == w.removed
    {
      removed := Pass(drop);
      invalidations := invalidations + removed;
    }

    method InvalidateWhere(drop: (string, Entry<V>) -> bool) returns (removed: nat)
      requires Valid()
      modifies this
      ensures Valid() && events == old(events) + [Plain(WhereOp(drop))]
      ensures View() == Operate(config, old(View()), WhereOp(drop)) && Removed(removed) == Cache.InvalidateWhere(old(Stored()), drop).1
    {
      ghost var before := View();
      removed := DropChosen(drop);
      WhereHappens(config, events, before, drop);
      Record(before, Plain(WhereOp(drop)));
    }
  }
}
