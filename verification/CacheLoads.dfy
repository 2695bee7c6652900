/**
 * Single-flight loading on top of the bounded cache: any number of callers, loads that settle late, and
 * invalidations in between.
 */
module CacheLoads {
  import opened Prelude
  import opened Cache

  /** A load runs, then its result is stored or not, then it is unregistered. */
  datatype Stage = Loading | Settled | Done

  datatype Load = Load(key: string, w: Write, stage: Stage)

  /** A load's token is its index in `loads`; `inflight` is the load registered for each key. */
  datatype System<V> = System(cache: State<V>, inflight: map<string, nat>, loads: seq<Load>)

  datatype Event<!V> =
    | Plain(op: Op<V>)
    | GetOrLoad(k: string, w: Write, now: int)
    | Settle(t: nat, result: Option<V>, now: int)
    | Finish(t: nat)

  predicate Registered<V>(s: System<V>, t: nat) { t < |s.loads| && s.loads[t].key in s.inflight && s.inflight[s.loads[t].key] == t }

  /** The operation drops the load registered for `k`. */
  predicate Drops<V>(s: State<V>, op: Op<V>, k: string)
  {
    match op
    case InvalidateOp(x) => x == k
    case WhereOp(drop) => k in s.entries && drop(k, s.entries[k])
    case ClearOp(permitted) => permitted
    case _ => false
  }

  function Operate<V>(c: Config, s: System<V>, op: Op<V>): System<V>
  {
    s.(cache := Do(c, s.cache, op).0, inflight := map k | k in s.inflight && !Drops(s.cache, op, k) :: s.inflight[k])
  }

  /** A new load begins: nothing usable is cached and no load is registered. */
  predicate Begins<V>(s: System<V>, k: string, now: int) { !Get(s.cache, k, now).1.Hit? && k !in s.inflight }

  function Call<V>(s: System<V>, k: string, w: Write, now: int): System<V>
  {
    var read := s.(cache := Get(s.cache, k, now).0);
    if Begins(s, k, now) then read.(inflight := s.inflight[k := |s.loads|], loads := s.loads + [Load(k, w, Loading)])
    else read
  }

  predicate Waiting<V>(s: System<V>, t: nat, stage: Stage) { t < |s.loads| && s.loads[t].stage == stage }

  /** The load has its result; it is stored when the load is still the registered one. */
  function SettleLoad<V>(c: Config, s: System<V>, t: nat, result: Option<V>, now: int): System<V>
    requires Waiting(s, t, Loading)
  {
    var load := s.loads[t];
    s.(loads := s.loads[t := load.(stage := Settled)],
       cache := if result.Some? && Registered(s, t) then Set(c, s.cache, load.key, result.value, load.w, now).0 else s.cache)
  }

  function FinishLoad<V>(s: System<V>, t: nat): System<V>
    requires Waiting(s, t, Settled)
  {
    var load := s.loads[t];
    s.(loads := s.loads[t := load.(stage := Done)], inflight := if Registered(s, t) then s.inflight - {load.key} else s.inflight)
  }

  function Next<V>(c: Config, s: System<V>, e: Event<V>): System<V>
  {
    match e
    case Plain(op) => Operate(c, s, op)
    case GetOrLoad(k, w, now) => Call(s, k, w, now)
    case Settle(t, result, now) => if Waiting(s, t, Loading) then SettleLoad(c, s, t, result, now) else s
    case Finish(t) => if Waiting(s, t, Settled) then FinishLoad(s, t) else s
  }

  function After<V>(c: Config, es: seq<Event<V>>): System<V>
  {
    if es == [] then System(Empty(), map[], []) else Next(c, After(c, es[..|es| - 1]), es[|es| - 1])
  }

  // ---------------------------------------------------------------- registration

  /** Every registered token is a load of that key which has not finished. */
  ghost predicate Tidy<V>(s: System<V>)
  {
    forall k | k in s.inflight :: s.inflight[k] < |s.loads| && s.loads[s.inflight[k]].key == k && s.loads[s.inflight[k]].stage != Done
  }

  lemma TidyStep<V>(c: Config, s: System<V>, e: Event<V>)
    requires Tidy(s)
    ensures Tidy(Next(c, s, e))
  {
  }

  lemma {:induction false} AlwaysTidy<V>(c: Config, es: seq<Event<V>>)
    ensures Tidy(After(c, es))
  {
    if es != [] {
      AlwaysTidy(c, es[..|es| - 1]);
      TidyStep(c, After(c, es[..|es| - 1]), es[|es| - 1]);
    }
  }

  /** No event takes back a load, and none changes what it loads. */
  lemma LoadsGrow<V>(c: Config, s: System<V>, e: Event<V>, t: nat)
    requires t < |s.loads|
    ensures t < |Next(c, s, e).loads| && Next(c, s, e).loads[t].key == s.loads[t].key && Next(c, s, e).loads[t].w == s.loads[t].w
  {
  }

  /** Event `a` began load `t`. */
  ghost predicate BeganAt<V>(c: Config, es: seq<Event<V>>, a: nat, t: nat)
    requires a < |es|
  {
    && es[a].GetOrLoad? && Begins(After(c, es[..a]), es[a].k, es[a].now) && t == |After(c, es[..a]).loads|
  }

  /** Event `j` drops the load registered for the key. */
  ghost predicate DropsAt<V>(c: Config, es: seq<Event<V>>, j: nat, k: string)
    requires j < |es|
  {
    es[j].Plain? && Drops(After(c, es[..j]).cache, es[j].op, k)
  }

  /** Between its beginning and event `n`, some operation dropped the load of that key. */
  ghost predicate DroppedBetween<V>(c: Config, es: seq<Event<V>>, a: nat, n: nat, k: string)
    requires n <= |es|
  {
    exists j | a < j < n :: DropsAt(c, es, j, k)
  }

  lemma DroppedGrows<V>(c: Config, es: seq<Event<V>>, a: nat, n: nat, k: string)
    requires a < n < |es|
    ensures DroppedBetween(c, es, a, n + 1, k) <==> DroppedBetween(c, es, a, n, k) || DropsAt(c, es, n, k)
  {
  }

  lemma Unroll<V>(c: Config, es: seq<Event<V>>, n: nat)
    requires 0 < n <= |es|
    ensures After(c, es[..n]) == Next(c, After(c, es[..n - 1]), es[n - 1])
  {
    assert es[..n][..n - 1] == es[..n - 1];
  }

  /** What one event does to a registration. */
  lemma RegistrationStep<V>(c: Config, s: System<V>, e: Event<V>, t: nat)
    requires Tidy(s) && t < |s.loads|
    ensures Next(c, s, e).loads[t].stage != Done ==>
              (Registered(Next(c, s, e), t) <==> Registered(s, t) && !(e.Plain? && Drops(s.cache, e.op, s.loads[t].key)))
    ensures s.loads[t].stage == Done ==> Next(c, s, e).loads[t].stage == Done
  {
    LoadsGrow(c, s, e, t);
  }

  /** Load `t` of `k` is there and, until it has finished, is registered exactly when it was not dropped. */
  ghost predicate Tracks<V>(s: System<V>, t: nat, k: string, w: Write, dropped: bool)
  {
    && t < |s.loads| && s.loads[t].key == k && s.loads[t].w == w
    && (s.loads[t].stage != Done ==> (Registered(s, t) <==> !dropped))
  }

  lemma TracksStep<V>(c: Config, s: System<V>, e: Event<V>, t: nat, k: string, w: Write, dropped: bool)
    requires Tidy(s) && Tracks(s, t, k, w, dropped)
    ensures Tracks(Next(c, s, e), t, k, w, dropped || (e.Plain? && Drops(s.cache, e.op, k)))
  {
    LoadsGrow(c, s, e, t);
    RegistrationStep(c, s, e, t);
  }

  lemma TracksBegin<V>(c: Config, es: seq<Event<V>>, a: nat, t: nat)
    requires a < |es| && BeganAt(c, es, a, t)
    ensures Tracks(After(c, es[..a + 1]), t, es[a].k, es[a].w, false)
  {
    Unroll(c, es, a + 1);
  }

  lemma TracksOn<V>(c: Config, es: seq<Event<V>>, n: nat, t: nat, k: string, w: Write, dropped: bool)
    requires n < |es| && Tracks(After(c, es[..n]), t, k, w, dropped)
    ensures Tracks(After(c, es[..n + 1]), t, k, w, dropped || DropsAt(c, es, n, k))
  {
    AlwaysTidy(c, es[..n]);
    TracksStep(c, After(c, es[..n]), es[n], t, k, w, dropped);
    Unroll(c, es, n + 1);
  }

  /**
   * While a load has not finished it is the registered one exactly when no operation invalidated its key since it
   * began: neither another load nor another load's completion can take its place or its registration.
   */
  lemma {:induction false} RegisteredExactly<V>(c: Config, es: seq<Event<V>>, a: nat, n: nat, t: nat)
    requires a < n <= |es| && BeganAt(c, es, a, t)
    ensures Tracks(After(c, es[..n]), t, es[a].k, es[a].w, DroppedBetween(c, es, a, n, es[a].k))
    decreases n
  {
    if n == a + 1 {
      TracksBegin(c, es, a, t);
    } else {
      RegisteredExactly(c, es, a, n - 1, t);
      TracksOn(c, es, n - 1, t, es[a].k, es[a].w, DroppedBetween(c, es, a, n - 1, es[a].k));
      DroppedGrows(c, es, a, n - 1, es[a].k);
    }
  }

  /** The cache once a load settles: a value that may be stored is written like any other. */
  function CacheAfter<V>(c: Config, s: State<V>, stores: bool, k: string, w: Write, e: Event<V>): State<V>
    requires e.Settle?
  {
    if e.result.Some? && stores then Set(c, s, k, e.result.value, w, e.now).0 else s
  }

  lemma SettleStep<V>(c: Config, es: seq<Event<V>>, n: nat, k: string, w: Write)
    requires n < |es| && es[n].Settle? && Waiting(After(c, es[..n]), es[n].t, Loading)
    requires After(c, es[..n]).loads[es[n].t].key == k && After(c, es[..n]).loads[es[n].t].w == w
    ensures After(c, es[..n + 1]).cache == CacheAfter(c, After(c, es[..n]).cache, Registered(After(c, es[..n]), es[n].t), k, w, es[n])
  {
    Unroll(c, es, n + 1);
  }

  /**
   * A load's value reaches the cache exactly when the load succeeded and no operation invalidated its key while it
   * was in flight; otherwise settling leaves the cache as it was.
   */
  lemma LoadStoresExactly<V>(c: Config, es: seq<Event<V>>, a: nat, n: nat, t: nat)
    requires a < n < |es| && BeganAt(c, es, a, t) && es[n].Settle? && es[n].t == t && Waiting(After(c, es[..n]), t, Loading)
    ensures After(c, es[..n + 1]).cache ==
              CacheAfter(c, After(c, es[..n]).cache, !DroppedBetween(c, es, a, n, es[a].k), es[a].k, es[a].w, es[n])
  {
    RegisteredExactly(c, es, a, n, t);
    SettleStep(c, es, n, es[a].k, es[a].w);
  }

  /** When a second load of a key begins, the first has finished or was dropped by an invalidation. */
  lemma SingleFlight<V>(c: Config, es: seq<Event<V>>, a: nat, b: nat, t: nat, u: nat)
    requires a < b < |es| && BeganAt(c, es, a, t) && BeganAt(c, es, b, u) && es[a].k == es[b].k
    ensures t < u && (Waiting(After(c, es[..b]), t, Done) || DroppedBetween(c, es, a, b, es[a].k))
  {
    RegisteredExactly(c, es, a, b, t);
  }

  // ---------------------------------------------------------------- loads are ordinary cache operations

  /** What an event does to the cache, as cache operations. */
  function Effect<V>(s: System<V>, e: Event<V>): seq<Op<V>>
  {
    match e
    case Plain(op) => [op]
    case GetOrLoad(k, w, now) => [GetOp(k, now)]
    case Settle(t, result, now) =>
      if Waiting(s, t, Loading) && result.Some? && Registered(s, t) then [SetOp(s.loads[t].key, result.value, s.loads[t].w, now)] else []
    case Finish(_) => []
  }

  function Effects<V>(c: Config, es: seq<Event<V>>): seq<Op<V>>
  {
    if es == [] then [] else Effects(c, es[..|es| - 1]) + Effect(After(c, es[..|es| - 1]), es[|es| - 1])
  }

  lemma EffectStep<V>(c: Config, s: System<V>, e: Event<V>)
    ensures |Effect(s, e)| <= 1
    ensures Next(c, s, e).cache == if Effect(s, e) == [] then s.cache else Do(c, s.cache, Effect(s, e)[0]).0
  {
  }

  lemma RunOneMore<V>(c: Config, ops: seq<Op<V>>, more: seq<Op<V>>)
    requires |more| <= 1
    ensures Run(c, ops + more) == if more == [] then Run(c, ops) else Do(c, Run(c, ops), more[0]).0
  {
    if more == [] {
      assert ops + more == ops;
    } else {
      assert (ops + more)[..|ops|] == ops;
    }
  }

  /**
   * Every interleaving of calls, loads and invalidations leaves the cache of some plain sequence of operations, so
   * all that holds of every plain run holds of every interleaving.
   */
  lemma {:induction false} LoadsAreOperations<V>(c: Config, es: seq<Event<V>>)
    ensures After(c, es).cache == Run(c, Effects(c, es))
  {
    if es != [] {
      var n := |es| - 1;
      LoadsAreOperations(c, es[..n]);
      EffectStep(c, After(c, es[..n]), es[n]);
      RunOneMore(c, Effects(c, es[..n]), Effect(After(c, es[..n]), es[n]));
    }
  }

  lemma LoadsKeepTheBound<V(!new)>(c: Config, es: seq<Event<V>>)
    ensures |After(c, es).cache.keys| == |After(c, es).cache.entries| <= c.maxEntries
  {
    LoadsAreOperations(c, es);
    SizeBounded(c, Effects(c, es));
  }
}
