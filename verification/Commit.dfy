/**
 * Optimistic commit: any number of callers read a versioned cell, run a mutation on
 * the snapshot, and install the result by compare-and-set, in any interleaving.
 */
module Commit {
  import opened Prelude
  import opened Tickets

  const DEFAULT_COMMIT_ATTEMPTS := 10

  function MaxAttempts(option: Option<int>): Positive
  {
    Max(1, if option.Some? then option.value else DEFAULT_COMMIT_ATTEMPTS)
  }

  type CallId = nat

  datatype Outcome =
    | Committed(value: State, attempts: nat)
    | Rejected(code: Violation, attempts: nat)
    | Conflict(attempts: nat)

  /** One `commitMutation` call, between its two awaits or settled; `since` and `until` are the wins when it began and settled. */
  datatype Call =
    | Calling(m: Mutation, attempt: nat, max: nat, since: nat)
    | Holding(m: Mutation, attempt: nat, max: nat, since: nat, version: nat, next: State)
    | Settled(m: Mutation, max: nat, since: nat, until: nat, outcome: Outcome)

  /** A successful compare-and-set. */
  datatype Win = Win(call: CallId, m: Mutation)

  /** The cell, the calls, and the history of wins in the order they happened. */
  datatype System = System(version: nat, state: State, calls: map<CallId, Call>, wins: seq<Win>)

  datatype Event = Begin(c: CallId, m: Mutation, maxAttempts: int) | ReadCell(c: CallId) | CompareAndSet(c: CallId)

  function Initial(s: State): System { System(0, s, map[], []) }

  /** One atomic step of one call; a step that is not enabled changes nothing. */
  function Step(policy: RiskPolicy, sys: System, e: Event): System
  {
    match e
    case Begin(c, m, maxAttempts) =>
      if c in sys.calls then sys else sys.(calls := sys.calls[c := Calling(m, 1, Max(1, maxAttempts), |sys.wins|)])
    case ReadCell(c) =>
      if c !in sys.calls || !sys.calls[c].Calling? then sys
      else
        var call := sys.calls[c];
        var after := match Apply(policy, call.m, sys.state)
          case Err(code) => Settled(call.m, call.max, call.since, |sys.wins|, Rejected(code, call.attempt))
          case Ok(next) => Holding(call.m, call.attempt, call.max, call.since, sys.version, next);
        sys.(calls := sys.calls[c := after])
    case CompareAndSet(c) =>
      if c !in sys.calls || !sys.calls[c].Holding? then sys
      else
        var call := sys.calls[c];
        if call.version == sys.version then
          System(sys.version + 1, call.next,
                 sys.calls[c := Settled(call.m, call.max, call.since, |sys.wins| + 1, Committed(call.next, call.attempt))],
                 sys.wins + [Win(c, call.m)])
        else if call.attempt < call.max then sys.(calls := sys.calls[c := Calling(call.m, call.attempt + 1, call.max, call.since)])
        else sys.(calls := sys.calls[c := Settled(call.m, call.max, call.since, |sys.wins|, Conflict(call.max))])
  }

  function Run(policy: RiskPolicy, sys: System, events: seq<Event>): System
  {
    if events == [] then sys else Step(policy, Run(policy, sys, events[..|events| - 1]), events[|events| - 1])
  }

  /** The sequential reference: the winning mutations applied one after another. */
  function Replay(policy: RiskPolicy, s: State, wins: seq<Win>): Result<State, Violation>
  {
    if wins == [] then Ok(s)
    else match Replay(policy, s, wins[..|wins| - 1])
      case Err(v) => Err(v)
      case Ok(before) => Apply(policy, wins[|wins| - 1].m, before)
  }

  lemma ReplayExtend(policy: RiskPolicy, s: State, wins: seq<Win>, w: Win)
    ensures Replay(policy, s, wins + [w]) ==
      match Replay(policy, s, wins) case Err(v) => Err(v) case Ok(before) => Apply(policy, w.m, before)
  {
    assert (wins + [w])[..|wins|] == wins;
  }

  /** Every version of a successful history exists. */
  lemma {:induction false} VersionExists(policy: RiskPolicy, s: State, wins: seq<Win>, n: nat)
    requires n <= |wins| && Replay(policy, s, wins).Ok?
    ensures Replay(policy, s, wins[..n]).Ok?
    decreases |wins|
  {
    if n == |wins| {
      assert wins[..n] == wins;
    } else {
      assert wins[..|wins| - 1][..n] == wins[..n];
      VersionExists(policy, s, wins[..|wins| - 1], n);
    }
  }

  /** Version `n + 1` is win `n` applied to version `n`. */
  lemma VersionStep(policy: RiskPolicy, s: State, wins: seq<Win>, n: nat)
    requires n < |wins| && Replay(policy, s, wins).Ok?
    ensures Replay(policy, s, wins[..n]).Ok? && Replay(policy, s, wins[..n + 1]).Ok?
    ensures Replay(policy, s, wins[..n + 1]) == Apply(policy, wins[n].m, Replay(policy, s, wins[..n]).value)
  {
    VersionExists(policy, s, wins, n);
    VersionExists(policy, s, wins, n + 1);
    assert wins[..n + 1][..n] == wins[..n];
  }

  // ---------------------------------------------------------------- linearizability

  ghost predicate NeverWon(wins: seq<Win>, c: CallId) { forall i | 0 <= i < |wins| :: wins[i].call != c }

  /** What one call's position says about the history of wins: what it saw, won or lost lies within its own time. */
  ghost predicate CallExplained(policy: RiskPolicy, s: State, wins: seq<Win>, c: CallId, call: Call)
  {
    match call
    case Calling(_, attempt, max, since) => NeverWon(wins, c) && 1 <= attempt <= max && since + attempt - 1 <= |wins|
    case Holding(m, attempt, max, since, version, next) =>
      && NeverWon(wins, c) && 1 <= attempt <= max && since + attempt - 1 <= version <= |wins|
      && var seen := Replay(policy, s, wins[..version]);
      && seen.Ok? && Apply(policy, m, seen.value) == Ok(next)
    case Settled(m, max, since, until, Committed(value, attempts)) =>
      && 1 <= attempts <= max && since < until <= |wins|
      && WonAt(policy, s, wins, c, m, value, until - 1)
    case Settled(m, max, since, until, Rejected(code, attempts)) =>
      && NeverWon(wins, c) && 1 <= attempts <= max && since <= until <= |wins|
      && RefusedAt(policy, s, wins, m, code, until)
    // Every lost attempt was lost to a win of another call since this one began.
    case Settled(m, max, since, until, Conflict(attempts)) =>
      NeverWon(wins, c) && attempts == max && since + max <= until <= |wins|
  }

  /** The call's mutation is win `i`, its only win, and its value is version `i + 1`. */
  ghost predicate WonAt(policy: RiskPolicy, s: State, wins: seq<Win>, c: CallId, m: Mutation, value: State, i: nat)
    requires i < |wins|
  {
    && wins[i] == Win(c, m)
    && (forall j | 0 <= j < |wins| && j != i :: wins[j].call != c)
    && Replay(policy, s, wins[..i + 1]) == Ok(value)
  }

  /** Version `n` is one the mutation refuses with `code`. */
  ghost predicate RefusedAt(policy: RiskPolicy, s: State, wins: seq<Win>, m: Mutation, code: Violation, n: nat)
    requires n <= |wins|
  {
    var seen := Replay(policy, s, wins[..n]);
    seen.Ok? && Apply(policy, m, seen.value) == Err(code)
  }

  ghost predicate Linear(policy: RiskPolicy, s: State, sys: System)
  {
    && sys.version == |sys.wins|
    && Replay(policy, s, sys.wins) == Ok(sys.state)
    && (forall c | c in sys.calls :: CallExplained(policy, s, sys.wins, c, sys.calls[c]))
    && (forall i | 0 <= i < |sys.wins| :: Winner(sys, i))
  }

  /** Every win belongs to a call that reported it. */
  ghost predicate Winner(sys: System, i: nat)
    requires i < |sys.wins|
  {
    && sys.wins[i].call in sys.calls
    && var call := sys.calls[sys.wins[i].call];
    && call.Settled? && call.m == sys.wins[i].m && call.outcome.Committed?
  }

  /** A call other than the winner keeps its explanation when a win is added. */
  lemma ExplainedAfterWin(policy: RiskPolicy, s: State, wins: seq<Win>, c: CallId, call: Call, w: Win)
    requires CallExplained(policy, s, wins, c, call) && w.call != c
    ensures CallExplained(policy, s, wins + [w], c, call)
  {
    var more := wins + [w];
    assert forall n | 0 <= n <= |wins| :: more[..n] == wins[..n];
    if call.Settled? && call.outcome.Committed? {
      assert WonAt(policy, s, more, c, call.m, call.outcome.value, call.until - 1);
    }
    if call.Settled? && call.outcome.Rejected? {
      assert RefusedAt(policy, s, more, call.m, call.outcome.code, call.until);
    }
  }

  lemma CasKeepsLinear(policy: RiskPolicy, s: State, sys: System, c: CallId)
    requires Linear(policy, s, sys) && c in sys.calls && sys.calls[c].Holding? && sys.calls[c].version == sys.version
    ensures Linear(policy, s, Step(policy, sys, CompareAndSet(c)))
  {
    var sys', call := Step(policy, sys, CompareAndSet(c)), sys.calls[c];
    var w := Win(c, call.m);
    assert sys.wins[..sys.version] == sys.wins;
    ReplayExtend(policy, s, sys.wins, w);
    forall d | d in sys'.calls ensures CallExplained(policy, s, sys'.wins, d, sys'.calls[d]) {
      if d == c {
        assert sys'.wins[..|sys.wins| + 1] == sys'.wins;
        assert WonAt(policy, s, sys'.wins, c, call.m, call.next, |sys.wins|);
      } else {
        ExplainedAfterWin(policy, s, sys.wins, d, sys.calls[d], w);
      }
    }
    forall i | 0 <= i < |sys'.wins| ensures Winner(sys', i) {
      if i < |sys.wins| { assert Winner(sys, i) && sys.wins[i].call != c; }
    }
  }

  lemma ReadKeepsLinear(policy: RiskPolicy, s: State, sys: System, c: CallId)
    requires Linear(policy, s, sys) && c in sys.calls && sys.calls[c].Calling?
    ensures Linear(policy, s, Step(policy, sys, ReadCell(c)))
  {
    var sys', call := Step(policy, sys, ReadCell(c)), sys.calls[c];
    assert sys.wins[..sys.version] == sys.wins;
    if Apply(policy, call.m, sys.state).Err? {
      assert RefusedAt(policy, s, sys.wins, call.m, Apply(policy, call.m, sys.state).code, sys.version);
    }
    assert CallExplained(policy, s, sys.wins, c, sys'.calls[c]);
    forall i | 0 <= i < |sys.wins| ensures Winner(sys', i) { assert Winner(sys, i) && sys.wins[i].call != c; }
  }

  lemma StepKeepsLinear(policy: RiskPolicy, s: State, sys: System, e: Event)
    requires Linear(policy, s, sys)
    ensures Linear(policy, s, Step(policy, sys, e))
  {
    var sys' := Step(policy, sys, e);
    match e {
      case Begin(c, m, max) =>
        if c !in sys.calls {
          forall i | 0 <= i < |sys.wins| ensures Winner(sys', i) && sys.wins[i].call != c { assert Winner(sys, i); }
        }
      case ReadCell(c) =>
        if c in sys.calls && sys.calls[c].Calling? { ReadKeepsLinear(policy, s, sys, c); }
      case CompareAndSet(c) =>
        if c in sys.calls && sys.calls[c].Holding? {
          if sys.calls[c].version == sys.version {
            CasKeepsLinear(policy, s, sys, c);
          } else {
            forall i | 0 <= i < |sys.wins| ensures Winner(sys', i) { assert Winner(sys, i) && sys.wins[i].call != c; }
          }
        }
    }
  }

  /**
   * Under every interleaving, version `n` is exactly the first `n` winning mutations in compare-and-set
   * order; a committed call is one win, made while it ran, and returned that version; a rejected call is no win, and
   * the version current when it settled refuses its mutation; a conflicting call is no win and lost every attempt to
   * a win made while it ran.
   */
  lemma {:induction false} Linearizable(policy: RiskPolicy, s: State, events: seq<Event>)
    ensures Linear(policy, s, Run(policy, Initial(s), events))
  {
    if events != [] {
      var shorter := events[..|events| - 1];
      Linearizable(policy, s, shorter);
      StepKeepsLinear(policy, s, Run(policy, Initial(s), shorter), events[|events| - 1]);
    }
  }

  /** A settled call stays as it is, and a call not yet begun can only begin after the wins so far. */
  lemma {:induction false} LaterOn(policy: RiskPolicy, sys: System, events: seq<Event>, a: CallId, b: CallId)
    ensures var later := Run(policy, sys, events);
      && |sys.wins| <= |later.wins|
      && (a in sys.calls && sys.calls[a].Settled? ==> a in later.calls && later.calls[a] == sys.calls[a])
      && (b !in sys.calls && b in later.calls ==> |sys.wins| <= later.calls[b].since)
    decreases |events|
  {
    if events != [] { LaterOn(policy, sys, events[..|events| - 1], a, b); }
  }

  lemma {:induction false} RunBoth(policy: RiskPolicy, sys: System, first: seq<Event>, more: seq<Event>)
    ensures Run(policy, sys, first + more) == Run(policy, Run(policy, sys, first), more)
    decreases |more|
  {
    if more == [] {
      assert first + more == first;
    } else {
      var n := |more| - 1;
      RunBoth(policy, sys, first, more[..n]);
      assert (first + more)[..|first + more| - 1] == first + more[..n];
    }
  }

  /** Real time is respected: a call that settled before another began has its place in the order no later. */
  lemma RealTimeOrder(policy: RiskPolicy, s: State, first: seq<Event>, more: seq<Event>, a: CallId, b: CallId)
    requires var sys := Run(policy, Initial(s), first);
      a in sys.calls && sys.calls[a].Settled? && b !in sys.calls && b in Run(policy, Initial(s), first + more).calls
    ensures var sys := Run(policy, Initial(s), first + more);
      a in sys.calls && sys.calls[a].Settled? && sys.calls[a].until <= sys.calls[b].since
  {
    Linearizable(policy, s, first);
    RunBoth(policy, Initial(s), first, more);
    LaterOn(policy, Run(policy, Initial(s), first), more, a, b);
  }

  // ---------------------------------------------------------------- safety of every version

  lemma {:induction false} ReplayConsistent(policy: RiskPolicy, s: State, wins: seq<Win>)
    requires Consistent(s) && Replay(policy, s, wins).Ok?
    ensures Consistent(Replay(policy, s, wins).value)
  {
    if wins != [] {
      var shorter := wins[..|wins| - 1];
      ReplayConsistent(policy, s, shorter);
      ApplyKeeps(policy, wins[|wins| - 1].m, Replay(policy, s, shorter).value);
    }
  }

  /** Every version any interleaving installs, up to the current one, satisfies the ticket invariants. */
  lemma EveryVersionConsistent(policy: RiskPolicy, s: State, events: seq<Event>, n: nat)
    requires Consistent(s) && n <= |Run(policy, Initial(s), events).wins|
    ensures var sys := Run(policy, Initial(s), events); var version := Replay(policy, s, sys.wins[..n]);
      version.Ok? && Consistent(version.value) && (n == sys.version ==> version.value == sys.state)
  {
    var sys := Run(policy, Initial(s), events);
    Linearizable(policy, s, events);
    VersionExists(policy, s, sys.wins, n);
    ReplayConsistent(policy, s, sys.wins[..n]);
    assert sys.wins[..|sys.wins|] == sys.wins;
  }

  // ---------------------------------------------------------------- counting bounds

  function IssuesOf(wins: seq<Win>, eventId: string): nat
  {
    if wins == [] then 0
    else
      var m := wins[|wins| - 1].m;
      IssuesOf(wins[..|wins| - 1], eventId) + (if m.IssueOf? && m.i.eventId == eventId then 1 else 0)
  }

  /** The issued count of an event moves by exactly the committed issues, so they fit the free capacity. */
  lemma {:induction false} IssuesBounded(policy: RiskPolicy, s: State, wins: seq<Win>, eventId: string)
    requires Consistent(s) && Replay(policy, s, wins).Ok? && eventId in s.events
    ensures var s' := Replay(policy, s, wins).value;
      && eventId in s'.events && s'.events[eventId].totalCapacity == s.events[eventId].totalCapacity
      && s'.events[eventId].issuedCount == s.events[eventId].issuedCount + IssuesOf(wins, eventId)
    ensures IssuesOf(wins, eventId) <= s.events[eventId].totalCapacity - s.events[eventId].issuedCount
  {
    ReplayConsistent(policy, s, wins);
    if wins != [] {
      var shorter := wins[..|wins| - 1];
      IssuesBounded(policy, s, shorter, eventId);
      ReplayConsistent(policy, s, shorter);
      IssueCountStep(policy, wins[|wins| - 1].m, Replay(policy, s, shorter).value, eventId);
    }
  }

  lemma IssueCountStep(policy: RiskPolicy, m: Mutation, s: State, eventId: string)
    requires Keyed(s) && eventId in s.events && Apply(policy, m, s).Ok?
    ensures var s' := Apply(policy, m, s).value;
      && eventId in s'.events && s'.events[eventId].totalCapacity == s.events[eventId].totalCapacity
      && s'.events[eventId].issuedCount ==
           s.events[eventId].issuedCount + (if m.IssueOf? && m.i.eventId == eventId then 1 else 0)
  {
  }

  /** After a committed transfer its nonce and its id stay recorded. */
  ghost predicate Recorded(s: State, p: TransferParams)
  {
    p.nonce in s.processedNonces && exists t | t in s.transfers :: t.id == p.id
  }

  lemma RecordedStep(policy: RiskPolicy, m: Mutation, s: State, p: TransferParams)
    requires Apply(policy, m, s).Ok? && (Recorded(s, p) || m == TransferOf(p))
    ensures Recorded(Apply(policy, m, s).value, p)
  {
    var s' := Apply(policy, m, s).value;
    if Recorded(s, p) {
      var t :| t in s.transfers && t.id == p.id;
      assert t in s'.transfers;
    } else {
      assert s'.transfers[|s.transfers|] in s'.transfers;
    }
  }

  lemma {:induction false} StaysRecorded(policy: RiskPolicy, s: State, wins: seq<Win>, i: nat)
    requires i < |wins| && wins[i].m.TransferOf? && Replay(policy, s, wins).Ok?
    ensures Recorded(Replay(policy, s, wins).value, wins[i].m.t)
    decreases |wins|
  {
    var shorter := wins[..|wins| - 1];
    if i < |wins| - 1 {
      StaysRecorded(policy, s, shorter, i);
      assert shorter[i] == wins[i];
    }
    RecordedStep(policy, wins[|wins| - 1].m, Replay(policy, s, shorter).value, wins[i].m.t);
  }

  /** At most one transfer commits per nonce and per transfer id. */
  lemma TransfersDistinct(policy: RiskPolicy, s: State, wins: seq<Win>, i: nat, j: nat)
    requires i < j < |wins| && wins[i].m.TransferOf? && wins[j].m.TransferOf? && Replay(policy, s, wins).Ok?
    ensures wins[i].m.t.nonce != wins[j].m.t.nonce && wins[i].m.t.id != wins[j].m.t.id
  {
    VersionStep(policy, s, wins, j);
    StaysRecorded(policy, s, wins[..j], i);
    assert wins[..j][i] == wins[i];
  }

  /** A redeemed ticket changes only when an issue reuses its id. */
  lemma RedeemedStep(policy: RiskPolicy, m: Mutation, s: State, id: string)
    requires Keyed(s) && id in s.tickets && s.tickets[id].status.Redeemed? && Apply(policy, m, s).Ok?
    requires !(m.IssueOf? && m.i.id == id)
    ensures id in Apply(policy, m, s).value.tickets && Apply(policy, m, s).value.tickets[id] == s.tickets[id]
  {
  }

  lemma RedeemMarks(p: RedeemParams, s: State)
    requires Keyed(s) && Redeem(s, p).Ok?
    ensures p.ticketId in s.tickets && !s.tickets[p.ticketId].status.Redeemed?
    ensures p.ticketId in Redeem(s, p).value.tickets && Redeem(s, p).value.tickets[p.ticketId].status.Redeemed?
  {
  }

  ghost predicate Reissued(wins: seq<Win>, from: nat, to: nat, id: string)
    requires to <= |wins|
  {
    exists k | from <= k < to :: wins[k].m.IssueOf? && wins[k].m.i.id == id
  }

  /** From its redemption on, and until its id is issued again, a ticket never changes. */
  lemma {:induction false} RedeemedForever(policy: RiskPolicy, s: State, wins: seq<Win>, i: nat, n: nat, id: string)
    requires Consistent(s) && i < n <= |wins| && Replay(policy, s, wins).Ok?
    requires wins[i].m.RedeemOf? && wins[i].m.r.ticketId == id && !Reissued(wins, i + 1, n, id)
    ensures var at, now := Replay(policy, s, wins[..i + 1]), Replay(policy, s, wins[..n]);
      && at.Ok? && now.Ok? && id in at.value.tickets && id in now.value.tickets
      && now.value.tickets[id] == at.value.tickets[id] && now.value.tickets[id].status.Redeemed?
    decreases n
  {
    VersionStep(policy, s, wins, n - 1);
    ReplayConsistent(policy, s, wins[..n - 1]);
    if n > i + 1 {
      RedeemedForever(policy, s, wins, i, n - 1, id);
      RedeemedStep(policy, wins[n - 1].m, Replay(policy, s, wins[..n - 1]).value, id);
    } else {
      RedeemMarks(wins[i].m.r, Replay(policy, s, wins[..i]).value);
    }
  }

  /** Between two committed redemptions of one ticket some committed issue reused its id. */
  lemma SecondRedemptionNeedsReissue(policy: RiskPolicy, s: State, wins: seq<Win>, i: nat, j: nat, id: string)
    requires Consistent(s) && i < j < |wins| && Replay(policy, s, wins).Ok?
    requires wins[i].m.RedeemOf? && wins[i].m.r.ticketId == id
    requires wins[j].m.RedeemOf? && wins[j].m.r.ticketId == id
    ensures Reissued(wins, i + 1, j, id)
  {
    if !Reissued(wins, i + 1, j, id) {
      VersionStep(policy, s, wins, j);
      ReplayConsistent(policy, s, wins[..j]);
      RedeemMarks(wins[j].m.r, Replay(policy, s, wins[..j]).value);
      RedeemedForever(policy, s, wins, i, j, id);
      assert false;
    }
  }

  /** The reuse is possible: issuing does not refuse an id in use, so a reissued ticket is redeemed twice. */
  lemma ReissueAllowsSecondRedemption(policy: RiskPolicy)
    ensures var s := State(map["e" := Event("e", "o", 2, 0, 0)], map[], [], {}, {}, []);
      var issue, redeem := IssueOf(IssueParams("t", "e", "g", "a", Whole(1), 0, 9, "", 0)), RedeemOf(RedeemParams("t", "a", 5));
      Consistent(s) && Replay(policy, s, [Win(0, issue), Win(1, redeem), Win(2, issue), Win(3, redeem)]).Ok?
  {
    var s := State(map["e" := Event("e", "o", 2, 0, 0)], map[], [], {}, {}, []);
    var issue, redeem := IssueOf(IssueParams("t", "e", "g", "a", Whole(1), 0, 9, "", 0)), RedeemOf(RedeemParams("t", "a", 5));
    assert TicketsOf(s.tickets, "e") == {};
    var w0, w1, w2, w3 := Win(0, issue), Win(1, redeem), Win(2, issue), Win(3, redeem);
    ReplayExtend(policy, s, [], w0);
    ReplayExtend(policy, s, [] + [w0], w1);
    ReplayExtend(policy, s, [] + [w0] + [w1], w2);
    ReplayExtend(policy, s, [] + [w0] + [w1] + [w2], w3);
    assert [] + [w0] + [w1] + [w2] + [w3] == [w0, w1, w2, w3];
  }

  // ---------------------------------------------------------------- the cell and the retry loop

  /** `createMemoryStateCell`. */
  class MemoryStateCell {
    var version: nat
    var state: State

    constructor (initial: State)
      ensures version == 0 && state == initial
    {
      version := 0;
      state := initial;
    }

    method CompareAndSet(expectedVersion: nat, next: State) returns (won: bool)
      modifies this
      ensures won <==> old(version) == expectedVersion
      ensures version == old(version) + (if won then 1 else 0)
      ensures state == if won then next else old(state)
    {
      if version != expectedVersion { return false; }
      version, state := expectedVersion + 1, next;
      won := true;
    }

    /** Other callers' mutations, each committed at once when the current state accepts it. */
    method Rivals(policy: RiskPolicy, ms: seq<Mutation>, ghost c: CallId) returns (ghost wins: seq<Win>)
      modifies this
      ensures Replay(policy, old(state), wins) == Ok(state) && version == old(version) + |wins|
      ensures forall i | 0 <= i < |wins| :: wins[i].call == c
      ensures |wins| <= |ms|
    {
      wins := [];
      for k := 0 to |ms|
        invariant Replay(policy, old(state), wins) == Ok(state) && version == old(version) + |wins|
        invariant forall i | 0 <= i < |wins| :: wins[i].call == c
        invariant |wins| <= k
      {
        var result := Apply(policy, ms[k], state);
        if result.Ok? {
          ReplayExtend(policy, old(state), wins, Win(c, ms[k]));
          var _ := CompareAndSet(version, result.value);
          wins := wins + [Win(c, ms[k])];
        }
      }
    }
  }

  lemma {:induction false} ReplayConcat(policy: RiskPolicy, s: State, a: seq<Win>, b: seq<Win>)
    requires Replay(policy, s, a).Ok?
    ensures Replay(policy, s, a + b) == Replay(policy, Replay(policy, s, a).value, b)
    decreases |b|
  {
    if b == [] {
      assert a + b == a;
    } else {
      var shorter := b[..|b| - 1];
      ReplayConcat(policy, s, a, shorter);
      assert (a + b)[..|a + b| - 1] == a + shorter;
    }
  }

  /**
   * `commitMutation`, with `rivals[k]` the mutations other callers commit between the read and the
   * compare-and-set of attempt `k + 1`. Whatever they do, the cell moves by the wins in order, this call's
   * mutation among them exactly when it reports success, and a refusal is judged on the latest state.
   */
  method CommitMutation(cell: MemoryStateCell, policy: RiskPolicy, m: Mutation, attempts: Option<int>,
                        rivals: nat -> seq<Mutation>, ghost me: CallId, ghost others: CallId)
    returns (r: Outcome, ghost wins: seq<Win>)
    requires me != others
    modifies cell
    ensures Replay(policy, old(cell.state), wins) == Ok(cell.state) && cell.version == old(cell.version) + |wins|
    ensures 1 <= r.attempts <= MaxAttempts(attempts)
    ensures r.Committed? ==>
      wins != [] && wins[|wins| - 1] == Win(me, m) && NeverWon(wins[..|wins| - 1], me) && r.value == cell.state
    ensures r.Rejected? ==> NeverWon(wins, me) && Apply(policy, m, cell.state) == Err(r.code)
    ensures r.Conflict? ==> NeverWon(wins, me) && |wins| >= r.attempts == MaxAttempts(attempts)
  {
    var max := MaxAttempts(attempts);
    wins := [];
    for attempt := 1 to max + 1
      invariant Replay(policy, old(cell.state), wins) == Ok(cell.state) && cell.version == old(cell.version) + |wins|
      invariant NeverWon(wins, me)
      invariant |wins| >= attempt - 1
    {
      var version, state := cell.version, cell.state;
      var result := Apply(policy, m, state);
      if result.Err? { return Rejected(result.code, attempt), wins; }
      ghost var others' := cell.Rivals(policy, rivals(attempt - 1), others);
      ReplayConcat(policy, old(cell.state), wins, others');
      var won := cell.CompareAndSet(version, result.value);
      if won {
        assert others' == [] && wins + others' == wins;
        ReplayExtend(policy, old(cell.state), wins, Win(me, m));
        return Committed(result.value, attempt), wins + [Win(me, m)];
      }
      wins := wins + others';
    }
    r := Conflict(max);
  }
}
