/** Two-step ownership handover: proposals, their lazy expiry, and the index of the one pending proposal per resource. */
module Ownership {
  import opened Prelude

  const DEFAULT_EXPIRY := 86400000
  const MIN_EXPIRY := 60000
  const MAX_EXPIRY := 2592000000

  datatype Status = Pending | Accepted | Cancelled | Rejected | Expired

  datatype Proposal = Proposal(
    id: string, resourceType: string, resourceId: string, currentOwner: string, proposedOwner: string,
    status: Status, createdAt: int, expiresAt: int, settledAt: Option<int>, reason: Option<string>)

  datatype Actor = Actor(id: string, maintainer: bool)

  /** `ids` is the insertion order of `proposals`. */
  datatype Store = Store(ids: seq<string>, proposals: map<string, Proposal>, active: map<string, string>)

  const EMPTY := Store([], map[], map[])

  // ---------------------------------------------------------------- principals and resources

  const ACCOUNT := "account:"

  function Normalize(id: string): string
  {
    var trimmed := Trim(id);
    if ACCOUNT <= trimmed then trimmed[|ACCOUNT|..] else trimmed
  }

  predicate PrincipalChar(c: char)
  {
    'A' <= c <= 'Z' || 'a' <= c <= 'z' || IsDigit(c) || c == '_' || c == '.' || c == '-'
  }

  predicate ValidPrincipal(id: string)
  {
    var norm := Normalize(id);
    4 <= |norm| <= 70 && forall i | 0 <= i < |norm| :: PrincipalChar(norm[i])
  }

  function ResourceKey(resourceType: string, resourceId: string): string { resourceType + ":" + resourceId }

  function KeyOf(p: Proposal): string { ResourceKey(p.resourceType, p.resourceId) }

  /** With a colon in the type, two resources can share a key. */
  lemma ResourceKeysCollide(a: string, b: string, c: string)
    ensures ResourceKey(a + ":" + b, c) == ResourceKey(a, b + ":" + c)
  {
    assert (a + ":" + b) + ":" + c == a + ":" + (b + ":" + c);
  }

  /** One type with its colon begins the other. */
  predicate Extends(t: string, u: string) { t + ":" <= u }

  /** When a longer type begins with a shorter one and its colon, the rest of it can move into the id. */
  lemma ExtendsCollide(t: string, u: string, j: string)
    requires Extends(t, u)
    ensures ResourceKey(t, u[|t| + 1..] + ":" + j) == ResourceKey(u, j)
  {
    var rest := u[|t| + 1..];
    assert u == t + ":" + rest;
    ResourceKeysCollide(t, rest, j);
  }

  lemma ShorterExtends(t: string, i: string, u: string, j: string)
    requires ResourceKey(t, i) == ResourceKey(u, j) && |t| < |u|
    ensures Extends(t, u) && i == u[|t| + 1..] + ":" + j
  {
    var k := ResourceKey(t, i);
    assert k[..|t| + 1] == t + ":" && k[..|t| + 1] == u[..|t| + 1];
    assert i == k[|t| + 1..] == u[|t| + 1..] + ":" + j;
  }

  /** Two resources share a key exactly when they are one, or the end of one's type stands at the start of the other's id. */
  lemma SameKeyExactly(t: string, i: string, u: string, j: string)
    ensures ResourceKey(t, i) == ResourceKey(u, j) <==>
      || (t == u && i == j)
      || (Extends(t, u) && i == u[|t| + 1..] + ":" + j)
      || (Extends(u, t) && j == t[|u| + 1..] + ":" + i)
  {
    if ResourceKey(t, i) == ResourceKey(u, j) {
      if |t| < |u| {
        ShorterExtends(t, i, u, j);
      } else if |u| < |t| {
        ShorterExtends(u, j, t, i);
      } else {
        var k := ResourceKey(t, i);
        assert k[..|t|] == t && k[..|u|] == u && k[|t| + 1..] == i && k[|u| + 1..] == j;
      }
    }
    if Extends(t, u) { ExtendsCollide(t, u, j); }
    if Extends(u, t) { ExtendsCollide(u, t, i); }
  }

  lemma ExtendsHasColon(t: string, u: string)
    requires Extends(t, u)
    ensures ':' in u
  {
    assert u[|t|] == ':';
  }

  /** So keys tell resources apart when their types hold no colon. */
  lemma ResourceKeyInjective(t: string, i: string, u: string, j: string)
    requires ':' !in t && ':' !in u && ResourceKey(t, i) == ResourceKey(u, j)
    ensures t == u && i == j
  {
    SameKeyExactly(t, i, u, j);
    if Extends(t, u) {
      ExtendsHasColon(t, u);
      assert false;
    }
    if Extends(u, t) {
      ExtendsHasColon(u, t);
      assert false;
    }
  }

  /** Two types share some key exactly when they are equal or one, followed by a colon, begins the other. */
  lemma TypesMeetExactly(t: string, u: string)
    ensures (exists i, j :: ResourceKey(t, i) == ResourceKey(u, j)) <==> t == u || Extends(t, u) || Extends(u, t)
  {
    if i, j :| ResourceKey(t, i) == ResourceKey(u, j) { SameKeyExactly(t, i, u, j); }
    if t == u { assert ResourceKey(t, "") == ResourceKey(u, ""); }
    if Extends(t, u) { ExtendsCollide(t, u, ""); }
    if Extends(u, t) { ExtendsCollide(u, t, ""); }
  }

  // ---------------------------------------------------------------- settling

  predicate Due(p: Proposal, now: int) { p.status == Pending && now >= p.expiresAt }

  /** Stores a settled proposal and clears its resource's pointer if it is the one pointed to. */
  function Settle(s: Store, p: Proposal): Store
  {
    var key := KeyOf(p);
    Store(if p.id in s.proposals then s.ids else s.ids + [p.id], s.proposals[p.id := p],
       if key in s.active && s.active[key] == p.id then s.active - {key} else s.active)
  }

  function AsExpired(p: Proposal, now: int): Proposal { p.(status := Expired, settledAt := Some(now)) }

  function ExpireOne(s: Store, id: string, now: int): Store
  {
    if id in s.proposals && Due(s.proposals[id], now) then Settle(s, AsExpired(s.proposals[id], now)) else s
  }

  // ---------------------------------------------------------------- the operations

  /** What the idempotency layer decided before the operation: go on, refuse, or replay an earlier answer. */
  datatype Gate = Proceed | Refused(code: string) | Replayed(p: Proposal)

  datatype Offer = Offer(
    actor: Actor, resourceType: Option<string>, resourceId: string, currentOwner: string, proposedOwner: string, expiresIn: Option<int>)

  function TypeOf(o: Offer): string { if o.resourceType.Some? then o.resourceType.value else "resource" }

  function Window(o: Offer): int { if o.expiresIn.Some? then o.expiresIn.value else DEFAULT_EXPIRY }

  function OfferRefusal(o: Offer): Option<string>
  {
    var current, proposed := Normalize(o.currentOwner), Normalize(o.proposedOwner);
    if !ValidPrincipal(current) then Some("invalid_owner")
    else if !ValidPrincipal(proposed) then Some("invalid_recipient")
    else if Normalize(o.actor.id) != current && !o.actor.maintainer then Some("unauthorized_not_owner")
    else if current == proposed then Some("cannot_transfer_to_self")
    else if Window(o) < MIN_EXPIRY || Window(o) > MAX_EXPIRY then Some("invalid_expiry_window")
    else None
  }

  function NewProposal(o: Offer, id: string, now: int): Proposal
  {
    Proposal(id, TypeOf(o), o.resourceId, o.currentOwner, o.proposedOwner, Pending, now, now + Window(o), None, None)
  }

  function Add(s: Store, p: Proposal): Store
  {
    Store(if p.id in s.proposals then s.ids else s.ids + [p.id], s.proposals[p.id := p], s.active[KeyOf(p) := p.id])
  }

  /** The store once a lapsed proposal in the way of this resource is expired. */
  function ClearWay(s: Store, key: string, now: int): Store
  {
    if key in s.active then ExpireOne(s, s.active[key], now) else s
  }

  predicate Blocked(s: Store, key: string)
  {
    key in s.active && s.active[key] in s.proposals && s.proposals[s.active[key]].status == Pending
  }

  /** Places a sound offer unless a live proposal for the resource is in the way. */
  function Place(s: Store, p: Proposal, now: int): (Store, Result<Proposal, string>)
  {
    var cleared := ClearWay(s, KeyOf(p), now);
    if Blocked(cleared, KeyOf(p)) then (cleared, Err("transfer_active_conflict")) else (Add(cleared, p), Ok(p))
  }

  function Initiate(s: Store, o: Offer, id: string, now: int, gate: Gate): (Store, Result<Proposal, string>)
  {
    if gate.Refused? then (s, Err(gate.code))
    else if gate.Replayed? then (s, Ok(gate.p))
    else if OfferRefusal(o).Some? then (s, Err(OfferRefusal(o).value))
    else Place(s, NewProposal(o, id, now), now)
  }

  datatype Decision = Accept | Cancel | Reject

  /** The party whose decision it is. */
  function Decider(d: Decision, p: Proposal): string { if d == Cancel then p.currentOwner else p.proposedOwner }

  predicate MayDecide(d: Decision, p: Proposal, actor: Actor) { Normalize(actor.id) == Normalize(Decider(d, p)) || actor.maintainer }

  function Outcome(d: Decision): Status { match d case Accept => Accepted case Cancel => Cancelled case Reject => Rejected }

  function Decided(d: Decision, p: Proposal, now: int, reason: Option<string>): Proposal
  {
    p.(status := Outcome(d), settledAt := Some(now), reason := if d == Accept then p.reason else reason)
  }

  function Refusal(d: Decision): string { if d == Cancel then "unauthorized_not_owner" else "unauthorized_not_recipient" }

  /** The decision once the caller's right to it is known. */
  function Rule(s: Store, d: Decision, id: string, may: bool, now: int, reason: Option<string>): (Store, Result<Proposal, string>)
  {
    if id !in s.proposals then (s, Err("transfer_not_found"))
    else
      var checked := ExpireOne(s, id, now);
      var p := checked.proposals[id];
      if p.status == Expired then (checked, Err("transfer_expired"))
      else if p.status != Pending then (checked, Err("transfer_already_settled"))
      else if !may then (checked, Err(Refusal(d)))
      else (Settle(checked, Decided(d, p, now, reason)), Ok(Decided(d, p, now, reason)))
  }

  function Decide(s: Store, d: Decision, id: string, actor: Actor, now: int, reason: Option<string>, gate: Gate): (Store, Result<Proposal, string>)
  {
    if d == Accept && gate.Refused? then (s, Err(gate.code))
    else if d == Accept && gate.Replayed? then (s, Ok(gate.p))
    else Rule(s, d, id, id in s.proposals && MayDecide(d, s.proposals[id], actor), now, reason)
  }

  function GetTransfer(s: Store, id: string, now: int): (Store, Option<Proposal>)
  {
    var checked := ExpireOne(s, id, now);
    (checked, if id in checked.proposals then Some(checked.proposals[id]) else None)
  }

  function GetActive(s: Store, key: string, now: int): (Store, Option<Proposal>)
  {
    if key !in s.active then (s, None)
    else
      var id := s.active[key];
      var checked := ExpireOne(s, id, now);
      if id !in checked.proposals || checked.proposals[id].status != Pending then (checked.(active := checked.active - {key}), None)
      else (checked, Some(checked.proposals[id]))
  }

  /** Every listed proposal checked for expiry, in order. */
  function ExpireAll(s: Store, ids: seq<string>, now: int): Store
  {
    if ids == [] then s else ExpireOne(ExpireAll(s, ids[..|ids| - 1], now), ids[|ids| - 1], now)
  }

  function CountDue(s: Store, ids: seq<string>, now: int): nat
  {
    if ids == [] then 0
    else
      var id := ids[|ids| - 1];
      CountDue(s, ids[..|ids| - 1], now) + if id in s.proposals && Due(s.proposals[id], now) then 1 else 0
  }

  function Matching(s: Store, ids: seq<string>, filter: Proposal -> bool): seq<Proposal>
  {
    if ids == [] then []
    else
      var id := ids[|ids| - 1];
      Matching(s, ids[..|ids| - 1], filter) + if id in s.proposals && filter(s.proposals[id]) then [s.proposals[id]] else []
  }

  datatype Op =
    | InitiateOp(o: Offer, newId: string, now: int, gate: Gate)
    | DecideOp(d: Decision, id: string, actor: Actor, now: int, reason: Option<string>, gate: Gate)
    | GetOp(id: string, now: int)
    | ActiveOp(key: string, now: int)
    | ExpireOp(now: int)
    | ClearOp

  /** Sweeping and querying both check every proposal. */
  function Do(s: Store, op: Op): Store
  {
    match op
    case InitiateOp(o, id, now, gate) => Initiate(s, o, id, now, gate).0
    case DecideOp(d, id, actor, now, reason, gate) => Decide(s, d, id, actor, now, reason, gate).0
    case GetOp(id, now) => GetTransfer(s, id, now).0
    case ActiveOp(key, now) => GetActive(s, key, now).0
    case ExpireOp(now) => ExpireAll(s, s.ids, now)
    case ClearOp => EMPTY
  }

  function Run(ops: seq<Op>): Store
  {
    if ops == [] then EMPTY else Do(Run(ops[..|ops| - 1]), ops[|ops| - 1])
  }

  ghost predicate FreshAt(ops: seq<Op>, i: nat)
    requires i < |ops|
  {
    ops[i].InitiateOp? ==> ops[i].newId !in Run(ops[..i]).proposals
  }

  /** Every new proposal gets an id no stored proposal has. */
  ghost predicate FreshIds(ops: seq<Op>) { forall i | 0 <= i < |ops| :: FreshAt(ops, i) }

  // ---------------------------------------------------------------- the invariant

  /** A settled proposal was accepted before it lapsed, or expired after. */
  predicate Timely(p: Proposal)
  {
    && MIN_EXPIRY <= p.expiresAt - p.createdAt <= MAX_EXPIRY && (p.status == Pending <==> p.settledAt.None?)
    && (p.settledAt.Some? ==> (p.status == Expired <==> p.settledAt.value >= p.expiresAt))
  }

  /** The index points at a proposal exactly when that proposal is pending for that resource. */
  ghost predicate Indexed(s: Store)
  {
    && (forall id | id in s.proposals :: s.proposals[id].id == id && Timely(s.proposals[id]))
    && (forall key | key in s.active :: s.active[key] in s.proposals && s.proposals[s.active[key]].status == Pending
                                        && KeyOf(s.proposals[s.active[key]]) == key)
    && (forall id | id in s.proposals && s.proposals[id].status == Pending ::
          KeyOf(s.proposals[id]) in s.active && s.active[KeyOf(s.proposals[id])] == id)
  }

  lemma SettleKeeps(s: Store, p: Proposal)
    requires Indexed(s) && p.id in s.proposals && s.proposals[p.id].status == Pending && p.status != Pending
    requires Timely(p) && KeyOf(p) == KeyOf(s.proposals[p.id])
    ensures Indexed(Settle(s, p))
  {
  }

  lemma ExpireKeeps(s: Store, id: string, now: int)
    requires Indexed(s)
    ensures Indexed(ExpireOne(s, id, now)) && ExpireOne(s, id, now).proposals.Keys == s.proposals.Keys && ExpireOne(s, id, now).ids == s.ids
  {
    if id in s.proposals && Due(s.proposals[id], now) { SettleKeeps(s, AsExpired(s.proposals[id], now)); }
  }

  lemma {:induction false} ExpireAllKeeps(s: Store, ids: seq<string>, now: int)
    requires Indexed(s)
    ensures Indexed(ExpireAll(s, ids, now)) && ExpireAll(s, ids, now).proposals.Keys == s.proposals.Keys && ExpireAll(s, ids, now).ids == s.ids
  {
    if ids != [] {
      ExpireAllKeeps(s, ids[..|ids| - 1], now);
      ExpireKeeps(ExpireAll(s, ids[..|ids| - 1], now), ids[|ids| - 1], now);
    }
  }

  lemma AddKeeps(s: Store, p: Proposal)
    requires Indexed(s) && p.id !in s.proposals && p.status == Pending && Timely(p) && KeyOf(p) !in s.active
    ensures Indexed(Add(s, p))
  {
  }

  lemma PlaceKeeps(s: Store, p: Proposal, now: int)
    requires Indexed(s) && p.id !in s.proposals && p.status == Pending && Timely(p)
    ensures Indexed(Place(s, p, now).0)
  {
    var key := KeyOf(p);
    if key in s.active { ExpireKeeps(s, s.active[key], now); }
    var cleared := ClearWay(s, key, now);
    if !Blocked(cleared, key) { AddKeeps(cleared, p); }
  }

  /** The checks on an offer, whatever they say, decide only whether it is placed. */
  lemma InitiateIs(s: Store, o: Offer, id: string, now: int, gate: Gate)
    ensures Initiate(s, o, id, now, gate).0 == s ||
            (MIN_EXPIRY <= Window(o) <= MAX_EXPIRY && Initiate(s, o, id, now, gate).0 == Place(s, NewProposal(o, id, now), now).0)
  {
  }

  lemma InitiateKeeps(s: Store, o: Offer, id: string, now: int, gate: Gate)
    requires Indexed(s) && id !in s.proposals
    ensures Indexed(Initiate(s, o, id, now, gate).0)
  {
    InitiateIs(s, o, id, now, gate);
    if MIN_EXPIRY <= Window(o) <= MAX_EXPIRY { PlaceKeeps(s, NewProposal(o, id, now), now); }
  }

  lemma DecidedTimely(d: Decision, p: Proposal, now: int, reason: Option<string>)
    requires Timely(p) && p.status == Pending && now < p.expiresAt
    ensures var q := Decided(d, p, now, reason); Timely(q) && q.status != Pending && KeyOf(q) == KeyOf(p) && q.id == p.id
  {
  }

  lemma RuleKeeps(s: Store, d: Decision, id: string, may: bool, now: int, reason: Option<string>)
    requires Indexed(s)
    ensures Indexed(Rule(s, d, id, may, now, reason).0)
  {
    ExpireKeeps(s, id, now);
    var checked := ExpireOne(s, id, now);
    if id in s.proposals && checked.proposals[id].status == Pending {
      DecidedTimely(d, checked.proposals[id], now, reason);
      SettleKeeps(checked, Decided(d, checked.proposals[id], now, reason));
    }
  }

  lemma StepKeeps(s: Store, op: Op)
    requires Indexed(s) && (op.InitiateOp? ==> op.newId !in s.proposals)
    ensures Indexed(Do(s, op))
  {
    match op
    case InitiateOp(o, id, now, gate) => InitiateKeeps(s, o, id, now, gate);
    case DecideOp(d, id, actor, now, reason, gate) =>
      RuleKeeps(s, d, id, id in s.proposals && MayDecide(d, s.proposals[id], actor), now, reason);
    case GetOp(id, now) => ExpireKeeps(s, id, now);
    case ActiveOp(key, now) => if key in s.active { ExpireKeeps(s, s.active[key], now); ActiveKeeps(s, key, now); }
    case ExpireOp(now) => ExpireAllKeeps(s, s.ids, now);
    case ClearOp =>
  }

  /** Looking up the active proposal finds the pointer already cleared whenever it would clear it. */
  lemma ActiveKeeps(s: Store, key: string, now: int)
    requires Indexed(s) && key in s.active
    ensures Indexed(GetActive(s, key, now).0) && GetActive(s, key, now).0 == ExpireOne(s, s.active[key], now)
  {
    ExpireKeeps(s, s.active[key], now);
    var checked := ExpireOne(s, s.active[key], now);
    if checked.proposals[s.active[key]].status != Pending { assert checked.active - {key} == checked.active; }
  }

  lemma FreshPrefix(ops: seq<Op>, n: nat)
    requires FreshIds(ops) && n <= |ops|
    ensures FreshIds(ops[..n])
  {
    forall i | 0 <= i < n ensures FreshAt(ops[..n], i) {
      assert FreshAt(ops, i) && ops[..n][..i] == ops[..i];
    }
  }

  /** In every reachable state the index and the proposals agree. */
  lemma {:induction false} AlwaysIndexed(ops: seq<Op>)
    requires FreshIds(ops)
    ensures Indexed(Run(ops))
  {
    if ops != [] {
      var n := |ops| - 1;
      FreshPrefix(ops, n);
      AlwaysIndexed(ops[..n]);
      assert FreshAt(ops, n);
      StepKeeps(Run(ops[..n]), ops[n]);
    }
  }

  /** The insertion order names every proposal once. */
  ghost predicate Listed(s: Store)
  {
    (forall id :: id in s.proposals <==> id in s.ids) && (forall i, j | 0 <= i < j < |s.ids| :: s.ids[i] != s.ids[j])
  }

  lemma ListedPlace(s: Store, p: Proposal, now: int)
    requires Indexed(s) && Listed(s)
    ensures Listed(Place(s, p, now).0)
  {
    if KeyOf(p) in s.active { ExpireKeeps(s, s.active[KeyOf(p)], now); }
  }

  lemma ListedRule(s: Store, d: Decision, id: string, may: bool, now: int, reason: Option<string>)
    requires Indexed(s) && Listed(s)
    ensures Listed(Rule(s, d, id, may, now, reason).0)
  {
    ExpireKeeps(s, id, now);
  }

  lemma ListedInitiate(s: Store, o: Offer, newId: string, now: int, gate: Gate)
    requires Indexed(s) && Listed(s)
    ensures Listed(Initiate(s, o, newId, now, gate).0)
  {
    InitiateIs(s, o, newId, now, gate);
    ListedPlace(s, NewProposal(o, newId, now), now);
  }

  lemma ListedActive(s: Store, key: string, now: int)
    requires Indexed(s) && Listed(s)
    ensures Listed(GetActive(s, key, now).0)
  {
    if key in s.active { ExpireKeeps(s, s.active[key], now); }
  }

  lemma ListedStep(s: Store, op: Op)
    requires Indexed(s) && Listed(s)
    ensures Listed(Do(s, op))
  {
    match op
    case InitiateOp(o, newId, now, gate) => ListedInitiate(s, o, newId, now, gate);
    case DecideOp(d, id, actor, now, reason, gate) =>
      ListedRule(s, d, id, id in s.proposals && MayDecide(d, s.proposals[id], actor), now, reason);
    case GetOp(id, now) => ExpireKeeps(s, id, now);
    case ActiveOp(key, now) => ListedActive(s, key, now);
    case ExpireOp(now) => ExpireAllKeeps(s, s.ids, now);
    case ClearOp =>
  }

  lemma {:induction false} AlwaysListed(ops: seq<Op>)
    requires FreshIds(ops)
    ensures Listed(Run(ops))
  {
    if ops != [] {
      var n := |ops| - 1;
      FreshPrefix(ops, n);
      AlwaysListed(ops[..n]);
      AlwaysIndexed(ops[..n]);
      ListedStep(Run(ops[..n]), ops[n]);
    }
  }

  /** At most one proposal is pending per resource key, and the index names it. */
  lemma OnePendingPerResource(ops: seq<Op>, a: string, b: string)
    requires FreshIds(ops)
    requires var s := Run(ops).proposals; a in s && b in s && s[a].status == Pending && s[b].status == Pending && KeyOf(s[a]) == KeyOf(s[b])
    ensures a == b && KeyOf(Run(ops).proposals[a]) in Run(ops).active && Run(ops).active[KeyOf(Run(ops).proposals[a])] == a
  {
    AlwaysIndexed(ops);
  }

  // ---------------------------------------------------------------- a proposal's life

  /** What checking a list of proposals does to one of them. */
  lemma {:induction false} ExpireAllAt(s: Store, ids: seq<string>, now: int, id: string)
    requires Indexed(s) && id in s.proposals
    ensures var after := ExpireAll(s, ids, now);
      && id in after.proposals
      && after.proposals[id] == if id in ids && Due(s.proposals[id], now) then AsExpired(s.proposals[id], now) else s.proposals[id]
  {
    if ids != [] {
      var n := |ids| - 1;
      ExpireAllAt(s, ids[..n], now, id);
      ExpireAllKeeps(s, ids[..n], now);
      assert ids == ids[..n] + [ids[n]];
    }
  }

  /** All a step can do to a pending proposal: nothing, expire it when it is due, or settle it as its party decides in time. */
  ghost predicate Moves(p: Proposal, op: Op, q: Proposal)
    requires !op.ClearOp?
  {
    || q == p
    || (Due(p, op.now) && q == AsExpired(p, op.now))
    || (&& op.DecideOp? && op.id == p.id && p.status == Pending && op.now < p.expiresAt && MayDecide(op.d, p, op.actor)
        && q == Decided(op.d, p, op.now, op.reason))
  }

  lemma RuleMoves(s: Store, op: Op, may: bool, id: string)
    requires Indexed(s) && id in s.proposals && op.DecideOp? && (op.id in s.proposals && may ==> MayDecide(op.d, s.proposals[op.id], op.actor))
    ensures var after := Rule(s, op.d, op.id, may, op.now, op.reason).0; id in after.proposals && Moves(s.proposals[id], op, after.proposals[id])
  {
  }

  lemma PlaceMoves(s: Store, p: Proposal, now: int, id: string)
    requires Indexed(s) && id in s.proposals && p.id !in s.proposals
    ensures var after := Place(s, p, now).0;
      id in after.proposals && (after.proposals[id] == s.proposals[id] || (Due(s.proposals[id], now) && after.proposals[id] == AsExpired(s.proposals[id], now)))
  {
  }

  lemma InitiateMoves(s: Store, op: Op, id: string)
    requires Indexed(s) && id in s.proposals && op.InitiateOp? && op.newId !in s.proposals
    ensures id in Do(s, op).proposals && Moves(s.proposals[id], op, Do(s, op).proposals[id])
  {
    InitiateIs(s, op.o, op.newId, op.now, op.gate);
    PlaceMoves(s, NewProposal(op.o, op.newId, op.now), op.now, id);
  }

  lemma DecideMoves(s: Store, op: Op, id: string)
    requires Indexed(s) && id in s.proposals && op.DecideOp?
    ensures id in Do(s, op).proposals && Moves(s.proposals[id], op, Do(s, op).proposals[id])
  {
    RuleMoves(s, op, op.id in s.proposals && MayDecide(op.d, s.proposals[op.id], op.actor), id);
  }

  lemma LookMoves(s: Store, op: Op, id: string)
    requires Indexed(s) && id in s.proposals && (op.GetOp? || op.ActiveOp? || op.ExpireOp?)
    ensures id in Do(s, op).proposals && Moves(s.proposals[id], op, Do(s, op).proposals[id])
  {
    if op.ActiveOp? && op.key in s.active { ActiveKeeps(s, op.key, op.now); }
    if op.ExpireOp? { ExpireAllAt(s, s.ids, op.now, id); }
  }

  /** Every change an operation can make to a proposal. */
  lemma StepMoves(s: Store, op: Op, id: string)
    requires Indexed(s) && id in s.proposals && !op.ClearOp? && (op.InitiateOp? ==> op.newId !in s.proposals)
    ensures id in Do(s, op).proposals && Moves(s.proposals[id], op, Do(s, op).proposals[id])
  {
    if op.InitiateOp? { InitiateMoves(s, op, id); }
    else if op.DecideOp? { DecideMoves(s, op, id); }
    else { LookMoves(s, op, id); }
  }

  ghost predicate NoClear(ops: seq<Op>, i: nat, j: nat)
    requires j <= |ops|
  {
    forall k | i <= k < j :: !ops[k].ClearOp?
  }

  lemma RunStep(ops: seq<Op>, n: nat)
    requires 0 < n <= |ops|
    ensures Run(ops[..n]) == Do(Run(ops[..n - 1]), ops[n - 1])
  {
    assert ops[..n][..n - 1] == ops[..n - 1];
  }

  lemma SettledStep(s: Store, op: Op, id: string)
    requires Indexed(s) && !op.ClearOp? && (op.InitiateOp? ==> op.newId !in s.proposals)
    requires id in s.proposals && s.proposals[id].status != Pending
    ensures id in Do(s, op).proposals && Do(s, op).proposals[id] == s.proposals[id]
  {
    StepMoves(s, op, id);
  }

  /** Once settled, a proposal stays and never changes again. */
  lemma {:induction false} SettledForever(ops: seq<Op>, i: nat, j: nat, id: string)
    requires FreshIds(ops) && i <= j <= |ops| && NoClear(ops, i, j)
    requires id in Run(ops[..i]).proposals && Run(ops[..i]).proposals[id].status != Pending
    ensures id in Run(ops[..j]).proposals && Run(ops[..j]).proposals[id] == Run(ops[..i]).proposals[id]
    decreases j
  {
    if i < j {
      SettledForever(ops, i, j - 1, id);
      FreshPrefix(ops, j - 1);
      AlwaysIndexed(ops[..j - 1]);
      RunStep(ops, j);
      assert FreshAt(ops, j - 1);
      SettledStep(Run(ops[..j - 1]), ops[j - 1], id);
    }
  }

  /** In every reachable state an accepted proposal was accepted before its deadline and an expired one was not. */
  lemma AcceptedInTime(ops: seq<Op>, id: string)
    requires FreshIds(ops) && id in Run(ops).proposals
    ensures var p := Run(ops).proposals[id];
      (p.status == Accepted ==> p.settledAt.Some? && p.settledAt.value < p.expiresAt) && MIN_EXPIRY <= p.expiresAt - p.createdAt <= MAX_EXPIRY
  {
    AlwaysIndexed(ops);
  }

  // ---------------------------------------------------------------- what each operation answers

  /** A proposal for the resource is pending and has not lapsed. */
  ghost predicate Open(s: Store, key: string, now: int)
  {
    exists id | id in s.proposals :: s.proposals[id].status == Pending && KeyOf(s.proposals[id]) == key && now < s.proposals[id].expiresAt
  }

  /** A sound offer is taken exactly when no live proposal for the resource stands in the way. */
  lemma InitiateExactly(s: Store, o: Offer, id: string, now: int)
    requires Indexed(s) && OfferRefusal(o).None?
    ensures Initiate(s, o, id, now, Proceed).1.Ok? <==> !Open(s, ResourceKey(TypeOf(o), o.resourceId), now)
  {
    var key := ResourceKey(TypeOf(o), o.resourceId);
    if key in s.active { ExpireKeeps(s, s.active[key], now); }
  }

  /** The active proposal of a resource is the one live proposal, if there is one. */
  lemma ActiveExactly(s: Store, key: string, now: int)
    requires Indexed(s)
    ensures GetActive(s, key, now).1.Some? <==> Open(s, key, now)
    ensures GetActive(s, key, now).1.Some? ==>
              var p := GetActive(s, key, now).1.value; p.id in s.proposals && s.proposals[p.id] == p && KeyOf(p) == key && now < p.expiresAt
  {
    if key in s.active { ActiveKeeps(s, key, now); }
  }

  /** A decision stands exactly when the proposal is pending, in time, and the decider's to make. */
  lemma DecideExactly(s: Store, d: Decision, id: string, actor: Actor, now: int, reason: Option<string>)
    requires Indexed(s)
    ensures Decide(s, d, id, actor, now, reason, Proceed).1.Ok? <==>
            id in s.proposals && s.proposals[id].status == Pending && now < s.proposals[id].expiresAt && MayDecide(d, s.proposals[id], actor)
    ensures Decide(s, d, id, actor, now, reason, Proceed).1.Ok? ==>
            Decide(s, d, id, actor, now, reason, Proceed).0.proposals[id] == Decided(d, s.proposals[id], now, reason)
  {
    ExpireKeeps(s, id, now);
  }

  /** After a sweep nothing is due, everything that was due is expired, and nothing else changed. */
  lemma SweepExactly(s: Store, now: int, id: string)
    requires Indexed(s) && Listed(s) && id in s.proposals
    ensures var after := ExpireAll(s, s.ids, now);
      id in after.proposals && after.proposals[id] == if Due(s.proposals[id], now) then AsExpired(s.proposals[id], now) else s.proposals[id]
  {
    ExpireAllAt(s, s.ids, now, id);
  }

  lemma RunPush(ops: seq<Op>, op: Op)
    requires FreshIds(ops) && (op.InitiateOp? ==> op.newId !in Run(ops).proposals)
    ensures FreshIds(ops + [op]) && Run(ops + [op]) == Do(Run(ops), op)
  {
    var more := ops + [op];
    assert more[..|ops|] == ops;
    forall i | 0 <= i < |more| ensures FreshAt(more, i) {
      if i < |ops| { assert FreshAt(ops, i) && more[..i] == ops[..i]; }
    }
  }

  function Checked(p: Proposal, now: int): Proposal { if Due(p, now) then AsExpired(p, now) else p }

  /** What a pass over the proposals finds at place `i`: the proposal as it was before the pass. */
  lemma PassFinds(ops: seq<Op>, now: int, i: nat)
    requires FreshIds(ops) && i < |Run(ops).ids|
    ensures var s := Run(ops); var id := s.ids[i]; var cur := ExpireAll(s, s.ids[..i], now);
      && id in s.proposals && id in cur.proposals && cur.proposals[id] == s.proposals[id]
      && ExpireAll(s, s.ids[..i + 1], now) == ExpireOne(cur, id, now)
      && id in ExpireAll(s, s.ids, now).proposals && ExpireAll(s, s.ids, now).proposals[id] == Checked(s.proposals[id], now)
  {
    var s := Run(ops);
    var id := s.ids[i];
    AlwaysIndexed(ops);
    AlwaysListed(ops);
    assert id in s.ids && id !in s.ids[..i];
    ExpireAllAt(s, s.ids[..i], now, id);
    ExpireAllAt(s, s.ids, now, id);
    assert s.ids[..i + 1][..i] == s.ids[..i];
  }

  lemma PassCounts(ops: seq<Op>, now: int, i: nat, filter: Proposal -> bool)
    requires FreshIds(ops) && i < |Run(ops).ids|
    ensures var s := Run(ops); var id := s.ids[i]; var after := ExpireAll(s, s.ids, now);
      && id in s.proposals && CountDue(s, s.ids[..i + 1], now) == CountDue(s, s.ids[..i], now) + (if Due(s.proposals[id], now) then 1 else 0)
      && Matching(after, s.ids[..i + 1], filter) ==
           Matching(after, s.ids[..i], filter) + (if filter(Checked(s.proposals[id], now)) then [Checked(s.proposals[id], now)] else [])
  {
    PassFinds(ops, now, i);
    var s := Run(ops);
    assert s.ids[..i + 1][..i] == s.ids[..i];
  }
}
