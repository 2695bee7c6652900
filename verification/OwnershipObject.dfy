/** The ownership store as an object: fields updated in place, each method tied to the operation it performs. */
module OwnershipObject {
  import opened Prelude
  import opened Ownership

  class OwnershipTransferStore {
    var ids: seq<string>
    var proposals: map<string, Proposal>
    var active: map<string, string>
    /** Everything that was done to the store. */
    ghost var history: seq<Op>

    ghost function View(): Store
      reads this
    {
      Store(ids, proposals, active)
    }

    ghost predicate Valid()
      reads this
    {
      View() == Run(history) && FreshIds(history)
    }

    constructor ()
      ensures Valid() && View() == EMPTY
    {
      ids, proposals, active, history := [], map[], map[], [];
    }

    ghost method Record(before: Store, op: Op)
      requires FreshIds(history) && before == Run(history) && View() == Do(before, op) && (op.InitiateOp? ==> op.newId !in before.proposals)
      modifies this`history
      ensures Valid() && history == old(history) + [op]
    {
      RunPush(history, op);
      history := history + [op];
    }

    /** `Map.set`: a new key goes last. */
    method Put(p: Proposal)
      modifies this`ids, this`proposals
      ensures ids == (if p.id in old(proposals) then old(ids) else old(ids) + [p.id]) && proposals == old(proposals)[p.id := p]
    {
      if p.id !in proposals { ids := ids + [p.id]; }
      proposals := proposals[p.id := p];
    }

    /** Stores a settled proposal and clears its resource's pointer. */
    method Close(p: Proposal)
      modifies this`ids, this`proposals, this`active
      ensures View() == Settle(old(View()), p)
    {
      Put(p);
      var key := ResourceKey(p.resourceType, p.resourceId);
      if key in active && active[key] == p.id { active := active - {key}; }
    }

    /** Expires a lapsed proposal where it is looked at. */
    method CheckExpiration(raw: Proposal, now: int) returns (p: Proposal)
      modifies this`ids, this`proposals, this`active
      ensures p == Checked(raw, now) && View() == if Due(raw, now) then Settle(old(View()), p) else old(View())
    {
      p := raw;
      if raw.status == Pending && now >= raw.expiresAt {
        p := raw.(status := Expired, settledAt := Some(now));
        Close(p);
      }
    }

    method Initiate(o: Offer, newId: string, now: int, gate: Gate) returns (r: Result<Proposal, string>)
      requires Valid()
      modifies this
      ensures (View(), r) == Ownership.Initiate(old(View()), o, newId, now, gate)
      ensures newId !in old(proposals) ==> Valid() && history == old(history) + [InitiateOp(o, newId, now, gate)]
    {
      r := Propose(o, newId, now, gate);
      if newId !in old(proposals) { Record(old(View()), InitiateOp(o, newId, now, gate)); }
    }

    method Propose(o: Offer, newId: string, now: int, gate: Gate) returns (r: Result<Proposal, string>)
      requires Valid()
      modifies this`ids, this`proposals, this`active
      ensures (View(), r) == Ownership.Initiate(old(View()), o, newId, now, gate)
    {
      if gate.Refused? { return Err(gate.code); }
      if gate.Replayed? { return Ok(gate.p); }
      var refusal := OfferRefusal(o);
      if refusal.Some? { return Err(refusal.value); }
      r := PlaceOffer(NewProposal(o, newId, now), now);
    }

    /** The conflict check, then the new proposal. */
    method PlaceOffer(p: Proposal, now: int) returns (r: Result<Proposal, string>)
      requires Valid()
      modifies this`ids, this`proposals, this`active
      ensures (View(), r) == Place(old(View()), p, now)
    {
      var key := ResourceKey(p.resourceType, p.resourceId);
      if key in active && active[key] in proposals {
        OwnId(history, active[key]);
        var existing := CheckExpiration(proposals[active[key]], now);
        if existing.status == Pending { return Err("transfer_active_conflict"); }
      }
      Put(p);
      active := active[key := p.id];
      r := Ok(p);
    }

    /** `accept`, `cancel` and `reject`. */
    method Decide(d: Decision, id: string, actor: Actor, now: int, reason: Option<string>, gate: Gate) returns (r: Result<Proposal, string>)
      requires Valid()
      modifies this
      ensures (View(), r) == Ownership.Decide(old(View()), d, id, actor, now, reason, gate)
      ensures Valid() && history == old(history) + [DecideOp(d, id, actor, now, reason, gate)]
    {
      if d == Accept && gate.Refused? {
        r := Err(gate.code);
      } else if d == Accept && gate.Replayed? {
        r := Ok(gate.p);
      } else {
        r := RuleOn(d, id, id in proposals && MayDecide(d, proposals[id], actor), now, reason);
      }
      Record(old(View()), DecideOp(d, id, actor, now, reason, gate));
    }

    method RuleOn(d: Decision, id: string, may: bool, now: int, reason: Option<string>) returns (r: Result<Proposal, string>)
      requires Valid()
      modifies this`ids, this`proposals, this`active
      ensures (View(), r) == Rule(old(View()), d, id, may, now, reason)
    {
      if id !in proposals { return Err("transfer_not_found"); }
      OwnId(history, id);
      var p := CheckExpiration(proposals[id], now);
      if p.status == Accepted || p.status == Cancelled || p.status == Rejected { return Err("transfer_already_settled"); }
      if p.status == Expired { return Err("transfer_expired"); }
      if !may { return Err(Refusal(d)); }
      var q := Decided(d, p, now, reason);
      Close(q);
      r := Ok(q);
    }

    method GetTransfer(id: string, now: int) returns (p: Option<Proposal>)
      requires Valid()
      modifies this
      ensures (View(), p) == Ownership.GetTransfer(old(View()), id, now) && Valid() && history == old(history) + [GetOp(id, now)]
    {
      if id !in proposals {
        p := None;
      } else {
        OwnId(history, id);
        var q := CheckExpiration(proposals[id], now);
        p := Some(q);
      }
      Record(old(View()), GetOp(id, now));
    }

    method GetActiveTransferForResource(resourceType: string, resourceId: string, now: int) returns (p: Option<Proposal>)
      requires Valid()
      modifies this
      ensures (View(), p) == GetActive(old(View()), ResourceKey(resourceType, resourceId), now)
      ensures Valid() && history == old(history) + [ActiveOp(ResourceKey(resourceType, resourceId), now)]
    {
      var key := ResourceKey(resourceType, resourceId);
      p := None;
      if key in active {
        var id := active[key];
        if id !in proposals {
          active := active - {key};
        } else {
          OwnId(history, id);
          var q := CheckExpiration(proposals[id], now);
          if q.status != Pending { active := active - {key}; } else { p := Some(q); }
        }
      }
      Record(old(View()), ActiveOp(key, now));
    }

    /** Checks every proposal and lists those the filter selects, in insertion order. */
    method QueryTransfers(filter: Proposal -> bool, now: int) returns (results: seq<Proposal>)
      requires Valid()
      modifies this
      ensures Valid() && history == old(history) + [ExpireOp(now)] && results == Matching(View(), old(ids), filter)
    {
      var count;
      results, count := Pass(filter, now);
      Record(old(View()), ExpireOp(now));
    }

    /** Expires every lapsed proposal and counts them. */
    method SweepExpired(now: int) returns (count: nat)
      requires Valid()
      modifies this
      ensures Valid() && history == old(history) + [ExpireOp(now)] && count == CountDue(old(View()), old(ids), now)
    {
      var results;
      results, count := Pass(_ => false, now);
      Record(old(View()), ExpireOp(now));
    }

    /** One pass over all proposals, checking each for expiry. */
    method Pass(filter: Proposal -> bool, now: int) returns (results: seq<Proposal>, count: nat)
      requires Valid()
      modifies this`ids, this`proposals, this`active
      ensures View() == ExpireAll(old(View()), old(ids), now)
      ensures results == Matching(View(), old(ids), filter) && count == CountDue(old(View()), old(ids), now)
    {
      ghost var before := View();
      ghost var after := ExpireAll(before, ids, now);
      var all, i := ids, 0;
      results, count := [], 0;
      while i < |all|
        invariant 0 <= i <= |all| && View() == ExpireAll(before, all[..i], now)
        invariant results == Matching(after, all[..i], filter) && count == CountDue(before, all[..i], now)
      {
        PassFinds(history, now, i);
        PassCounts(history, now, i, filter);
        var raw := proposals[all[i]];
        var p := CheckExpiration(raw, now);
        if p.status != raw.status { count := count + 1; }
        if filter(p) { results := results + [p]; }
        i := i + 1;
      }
      assert all[..i] == all;
    }

    method Clear()
      requires Valid()
      modifies this
      ensures Valid() && View() == EMPTY && history == old(history) + [ClearOp]
    {
      ids, proposals, active := [], map[], map[];
      Record(old(View()), ClearOp);
    }
  }

  lemma OwnId(ops: seq<Op>, id: string)
    requires FreshIds(ops) && id in Run(ops).proposals
    ensures Run(ops).proposals[id].id == id
  {
    AlwaysIndexed(ops);
  }
}
