/** `DomainInvariantChecker.verifyAll`: what it reports, and what that says of a committed state. */
module Checker {
  import opened Prelude
  import opened Tickets

  /** The literal 9223372036854775807 as the nearest double. */
  const PRICE_CEILING := 9223372036854775808

  datatype Flag =
    | TicketFlag(inv: Violation, ticketId: string)
    | SupplyFlag(eventId: string)
    | CapacityFlag(eventId: string)
    | TransferFlag(inv: Violation, index: nat)

  /** Which violations a state has, stated one by one. */
  predicate Flagged(s: State, f: Flag)
  {
    match f
    case TicketFlag(inv, k) =>
      k in s.tickets && inv in TicketViolations(s, s.tickets[k])
    case SupplyFlag(k) =>
      k in s.events && (s.events[k].issuedCount < 0 || s.events[k].totalCapacity < 0)
    case CapacityFlag(k) =>
      && k in s.events
      && (s.events[k].issuedCount > s.events[k].totalCapacity || |TicketsOf(s.tickets, k)| > s.events[k].totalCapacity)
    case TransferFlag(inv, i) =>
      && i < |s.transfers|
      && ((inv == INV06 && !Balanced(s.transfers[i])) || (inv == INV09 && Replayed(s, i)))
  }

  function TicketViolations(s: State, t: Ticket): set<Violation>
  {
    (if t.price < 0 || t.price > PRICE_CEILING then {INV07} else {})
    + (if t.validFrom > t.validUntil then {INV08} else {})
    + (if t.fraudFlag && !Quarantined(t) then {INV05} else {})
    + (if t.owner in s.blacklist && !Quarantined(t) then {INV11} else {})
  }

  /** The nonce is on record, or an earlier transfer carries it. */
  predicate Replayed(s: State, i: nat)
    requires i < |s.transfers|
  {
    s.transfers[i].nonce in s.processedNonces || exists j | 0 <= j < i :: s.transfers[j].nonce == s.transfers[i].nonce
  }

  method CheckTicket(s: State, k: string) returns (flags: seq<Flag>)
    requires k in s.tickets
    ensures forall f :: f in flags <==> f.TicketFlag? && f.ticketId == k && Flagged(s, f)
  {
    flags := [];
    var t := s.tickets[k];
    if t.price < 0 || t.price > PRICE_CEILING { flags := flags + [TicketFlag(INV07, k)]; }
    if t.validFrom > t.validUntil { flags := flags + [TicketFlag(INV08, k)]; }
    if t.fraudFlag && !t.status.Locked? && !t.status.Burned? { flags := flags + [TicketFlag(INV05, k)]; }
    if t.owner in s.blacklist && !t.status.Locked? && !t.status.Burned? { flags := flags + [TicketFlag(INV11, k)]; }
  }

  function CountIn(counts: map<string, nat>, e: string): nat { if e in counts then counts[e] else 0 }

  /** The aggregate holds each event's number of tickets. */
  ghost predicate Counts(counts: map<string, nat>, tickets: map<string, Ticket>)
  {
    forall e :: CountIn(counts, e) == |TicketsOf(tickets, e)|
  }

  lemma OneMoreTicket(done: map<string, Ticket>, k: string, t: Ticket, e: string)
    requires k !in done
    ensures |TicketsOf(done[k := t], e)| == |TicketsOf(done, e)| + (if e == t.eventId then 1 else 0)
  {
    var before, after := TicketsOf(done, e), TicketsOf(done[k := t], e);
    if e == t.eventId {
      assert after == before + {k};
    } else {
      assert after == before;
    }
  }

  lemma CountOneMore(counts: map<string, nat>, done: map<string, Ticket>, k: string, t: Ticket)
    requires k !in done && Counts(counts, done)
    ensures Counts(counts[t.eventId := CountIn(counts, t.eventId) + 1], done[k := t])
  {
    var counts', done' := counts[t.eventId := CountIn(counts, t.eventId) + 1], done[k := t];
    forall e ensures CountIn(counts', e) == |TicketsOf(done', e)| {
      OneMoreTicket(done, k, t, e);
    }
  }

  /** One pass over the tickets: their own violations, and how many each event has. */
  method CheckTickets(s: State) returns (flags: seq<Flag>, counts: map<string, nat>)
    ensures forall f :: f in flags <==> f.TicketFlag? && Flagged(s, f)
    ensures Counts(counts, s.tickets)
  {
    flags, counts := [], map[];
    var todo := s.tickets.Keys;
    ghost var done: map<string, Ticket> := map[];
    assert forall e :: TicketsOf(done, e) == {};
    while todo != {}
      invariant done.Keys == s.tickets.Keys - todo && todo <= s.tickets.Keys
      invariant forall k | k in done :: done[k] == s.tickets[k]
      invariant forall f :: f in flags <==> f.TicketFlag? && f.ticketId in done && Flagged(s, f)
      invariant Counts(counts, done)
    {
      var k :| k in todo;
      var eventId := s.tickets[k].eventId;
      CountOneMore(counts, done, k, s.tickets[k]);
      counts := counts[eventId := CountIn(counts, eventId) + 1];
      var more := CheckTicket(s, k);
      flags := flags + more;
      todo, done := todo - {k}, done[k := s.tickets[k]];
    }
    assert done == s.tickets;
  }

  method CheckEvents(s: State, counts: map<string, nat>) returns (flags: seq<Flag>)
    requires Counts(counts, s.tickets)
    ensures forall f :: f in flags <==> (f.SupplyFlag? || f.CapacityFlag?) && Flagged(s, f)
  {
    flags := [];
    var todo := s.events.Keys;
    while todo != {}
      invariant todo <= s.events.Keys
      invariant forall f :: f in flags <==> (f.SupplyFlag? || f.CapacityFlag?) && Flagged(s, f) && f.eventId !in todo
    {
      var k :| k in todo;
      var event := s.events[k];
      var actual := CountIn(counts, k);
      if event.issuedCount < 0 || event.totalCapacity < 0 { flags := flags + [SupplyFlag(k)]; }
      if event.issuedCount > event.totalCapacity || actual > event.totalCapacity { flags := flags + [CapacityFlag(k)]; }
      todo := todo - {k};
    }
  }

  /** The transfers in order, with the nonces seen so far. */
  method CheckTransfers(s: State) returns (flags: seq<Flag>)
    ensures forall f :: f in flags <==> f.TransferFlag? && Flagged(s, f)
  {
    flags := [];
    var seen: set<string> := {};
    for i := 0 to |s.transfers|
      invariant forall n :: n in seen <==>
        n !in s.processedNonces && exists j | 0 <= j < i :: s.transfers[j].nonce == n
      invariant forall f :: f in flags <==> f.TransferFlag? && f.index < i && Flagged(s, f)
    {
      var t := s.transfers[i];
      if t.organizerFee + t.protocolFee + t.sellerProceeds != t.price { flags := flags + [TransferFlag(INV06, i)]; }
      if t.nonce in seen || t.nonce in s.processedNonces {
        flags := flags + [TransferFlag(INV09, i)];
      } else {
        seen := seen + {t.nonce};
      }
    }
  }

  method VerifyAll(s: State) returns (flags: seq<Flag>)
    ensures forall f :: f in flags <==> Flagged(s, f)
  {
    var tickets, counts := CheckTickets(s);
    var events := CheckEvents(s, counts);
    var transfers := CheckTransfers(s);
    flags := tickets + events + transfers;
  }

  predicate PricesUnderCeiling(s: State) { forall k | k in s.tickets :: s.tickets[k].price <= PRICE_CEILING }

  /**
   * "A consistent state has no violations" is false of the checker: of a consistent state with prices under
   * the ceiling it reports a replay for every committed transfer and nothing else, so it is clean exactly
   * when no transfer was ever committed.
   */
  lemma CleanExactlyWithoutTransfers(s: State, f: Flag)
    requires Consistent(s) && PricesUnderCeiling(s)
    ensures Flagged(s, f) <==> f.TransferFlag? && f.inv == INV09 && f.index < |s.transfers|
  {
    match f
    case TicketFlag(_, k) => if k in s.tickets { assert TicketFits(s, s.tickets[k]); }
    case SupplyFlag(k) =>
    case CapacityFlag(k) =>
    case TransferFlag(_, _) =>
  }

  /** A committed transfer is flagged at once, whatever the risk policy. */
  lemma CommittedTransferIsFlagged(policy: RiskPolicy, s: State, p: TransferParams)
    requires TransferTicket(policy, s, p).Ok?
    ensures var next := TransferTicket(policy, s, p).value;
      |next.transfers| == |s.transfers| + 1 && Flagged(next, TransferFlag(INV09, |s.transfers|))
  {
  }

  const ONE_TICKET := State(
    map["e" := Event("e", "o", 1, 1, 0)], map["t" := Ticket("t", "e", "g", "a", 1, Issued, 0, 0, 9, false, 0, "")], [], {}, {}, [])

  const HAND_OVER := TransferParams("x", "t", "a", "b", Whole(1), Whole(0), Whole(0), Whole(1), "n", 0)

  /** It happens: a consistent state with nothing flagged accepts a transfer, and the state it commits is flagged. */
  lemma FirstTransferIsFlagged(policy: RiskPolicy)
    requires policy.assess(ONE_TICKET, HAND_OVER) == Allow
    ensures Consistent(ONE_TICKET) && forall f :: !Flagged(ONE_TICKET, f)
    ensures var next := TransferTicket(policy, ONE_TICKET, HAND_OVER);
      next.Ok? && Consistent(next.value) && Flagged(next.value, TransferFlag(INV09, 0))
  {
    OneTicketConsistent();
    forall f ensures !Flagged(ONE_TICKET, f) { CleanExactlyWithoutTransfers(ONE_TICKET, f); }
    HandOverAccepted();
    TransferKeeps(policy, ONE_TICKET, HAND_OVER);
    CommittedTransferIsFlagged(policy, ONE_TICKET, HAND_OVER);
  }

  lemma OneTicketConsistent()
    ensures Consistent(ONE_TICKET) && PricesUnderCeiling(ONE_TICKET)
  {
    assert TicketsOf(ONE_TICKET.tickets, "e") == {"t"};
  }

  lemma HandOverAccepted()
    ensures ValidateTransfer(ONE_TICKET, HAND_OVER).Ok?
  {
    NotBlank("x");
    NotBlank("n");
    NotBlank("a");
    NotBlank("b");
  }
}
