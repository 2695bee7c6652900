/**
 * Ticket issuance, transfer and redemption: pure mutations that validate a
 * snapshot and return the next one, and the invariants every one of them keeps.
 */
module Tickets {
  import opened Prelude

  const MAX_SAFE_INTEGER := 9007199254740991

  datatype Status = Issued | Transferred | Locked | Redeemed | Expired | Burned

  /** A JavaScript number: a whole one, or anything `Number.isInteger` refuses. */
  datatype Number = Whole(n: int) | NotWhole

  datatype Ticket = Ticket(
    id: string, eventId: string, tierId: string, owner: string, price: int, status: Status,
    issuedAt: int, validFrom: int, validUntil: int, fraudFlag: bool, nonce: int, metadataHash: string)

  datatype Event = Event(id: string, organizer: string, totalCapacity: int, issuedCount: int, feeBasisPoints: int)

  datatype Transfer = Transfer(
    id: string, ticketId: string, from: string, to: string,
    price: int, organizerFee: int, protocolFee: int, sellerProceeds: int, nonce: string, timestamp: int)

  datatype State = State(
    events: map<string, Event>, tickets: map<string, Ticket>, transfers: seq<Transfer>,
    processedNonces: set<string>, blacklist: set<string>, risk: seq<string>)

  datatype IssueParams = IssueParams(
    id: string, eventId: string, tierId: string, owner: string, price: Number,
    validFrom: int, validUntil: int, metadataHash: string, now: int)

  datatype TransferParams = TransferParams(
    id: string, ticketId: string, from: string, to: string, price: Number, organizerFee: Number,
    protocolFee: Number, sellerProceeds: Number, nonce: string, now: int)

  datatype RedeemParams = RedeemParams(ticketId: string, claimer: string, timestamp: int)

  datatype Disposition = Allow | Review | Block

  /** The transfer-risk module: any assessment, and a log of its own that touches nothing else. */
  datatype RiskPolicy = RiskPolicy(
    assess: (State, TransferParams) -> Disposition,
    record: (State, TransferParams) -> seq<string>)

  datatype Violation =
    | INV02 | INV03 | INV04 | INV05 | INV06 | INV07 | INV08 | INV09 | INV10 | INV11 | RiskRefused(d: Disposition)

  function ValidTransitions(from: Status): set<Status>
  {
    match from
    case Issued => {Transferred, Locked, Redeemed, Expired, Burned}
    case Transferred => {Transferred, Locked, Redeemed, Expired, Burned}
    case Locked => {Issued, Transferred, Burned}
    case Redeemed => {}
    case Expired => {}
    case Burned => {}
  }

  function CanTransitionStatus(from: Status, to: Status): Option<Violation>
  {
    if from.Redeemed? || from.Expired? || from.Burned? then Some(INV03)
    else if to !in ValidTransitions(from) then Some(INV04)
    else None
  }

  // ---------------------------------------------------------------- the mutations

  function Issue(s: State, p: IssueParams): Result<State, Violation>
  {
    if p.eventId !in s.events then Err(INV10)
    else
      var event := s.events[p.eventId];
      if event.issuedCount + 1 > event.totalCapacity then Err(INV10)
      else if p.owner in s.blacklist then Err(INV11)
      else if p.price.NotWhole? || p.price.n < 0 then Err(INV07)
      else if p.validFrom > p.validUntil then Err(INV08)
      else
        var ticket := Ticket(p.id, p.eventId, p.tierId, p.owner, p.price.n, Issued, p.now,
                             p.validFrom, p.validUntil, false, 0, p.metadataHash);
        Ok(s.(tickets := s.tickets[ticket.id := ticket],
              events := s.events[event.id := event.(issuedCount := event.issuedCount + 1)]))
  }

  predicate SafeAmount(x: Number) { x.Whole? && 0 <= x.n <= MAX_SAFE_INTEGER }

  predicate WellFormedTransfer(p: TransferParams)
  {
    && !Blank(p.id) && |p.id| <= 128 && !Blank(p.nonce) && |p.nonce| <= 128
    && !Blank(p.from) && !Blank(p.to) && p.from != p.to
    && SafeAmount(p.price) && SafeAmount(p.organizerFee) && SafeAmount(p.protocolFee) && SafeAmount(p.sellerProceeds)
  }

  function ValidateTransfer(s: State, p: TransferParams): Result<Ticket, Violation>
  {
    if !WellFormedTransfer(p) then Err(INV07)
    else if p.ticketId !in s.tickets then Err(INV02)
    else
      var ticket := s.tickets[p.ticketId];
      if ticket.owner != p.from then Err(INV02)
      else if CanTransitionStatus(ticket.status, Transferred).Some? then
        Err(CanTransitionStatus(ticket.status, Transferred).value)
      else if ticket.status.Locked? || ticket.fraudFlag then Err(INV05)
      else if p.from in s.blacklist || p.to in s.blacklist then Err(INV11)
      else if p.organizerFee.n + p.protocolFee.n + p.sellerProceeds.n != p.price.n then Err(INV06)
      else if p.nonce in s.processedNonces || (exists t | t in s.transfers :: t.id == p.id) then Err(INV09)
      else Ok(ticket)
  }

  function TransferTicket(policy: RiskPolicy, s: State, p: TransferParams): Result<State, Violation>
  {
    match ValidateTransfer(s, p)
    case Err(v) => Err(v)
    case Ok(ticket) =>
      var disposition := policy.assess(s, p);
      if disposition != Allow then Err(RiskRefused(disposition))
      else
        var updated := ticket.(owner := p.to, status := Transferred, nonce := ticket.nonce + 1);
        var record := Transfer(p.id, p.ticketId, p.from, p.to, p.price.n, p.organizerFee.n, p.protocolFee.n,
                               p.sellerProceeds.n, p.nonce, p.now);
        var next := s.(tickets := s.tickets[updated.id := updated], transfers := s.transfers + [record],
                       processedNonces := s.processedNonces + {p.nonce});
        Ok(next.(risk := policy.record(next, p)))
  }

  function Redeem(s: State, p: RedeemParams): Result<State, Violation>
  {
    if p.ticketId !in s.tickets then Err(INV02)
    else
      var ticket := s.tickets[p.ticketId];
      if ticket.owner != p.claimer then Err(INV02)
      else if CanTransitionStatus(ticket.status, Redeemed).Some? then
        Err(CanTransitionStatus(ticket.status, Redeemed).value)
      else if ticket.status.Locked? || ticket.fraudFlag then Err(INV05)
      else if p.timestamp < ticket.validFrom || p.timestamp > ticket.validUntil then Err(INV08)
      else Ok(s.(tickets := s.tickets[ticket.id := ticket.(status := Redeemed)]))
  }

  datatype Mutation = IssueOf(i: IssueParams) | TransferOf(t: TransferParams) | RedeemOf(r: RedeemParams)

  function Apply(policy: RiskPolicy, m: Mutation, s: State): Result<State, Violation>
  {
    match m
    case IssueOf(p) => Issue(s, p)
    case TransferOf(p) => TransferTicket(policy, s, p)
    case RedeemOf(p) => Redeem(s, p)
  }

  // ---------------------------------------------------------------- the invariants

  predicate Quarantined(t: Ticket) { t.status.Locked? || t.status.Burned? }

  function TicketsOf(tickets: map<string, Ticket>, eventId: string): set<string>
  {
    set k | k in tickets && tickets[k].eventId == eventId
  }

  predicate Keyed(s: State)
  {
    && (forall k | k in s.tickets :: s.tickets[k].id == k)
    && (forall k | k in s.events :: s.events[k].id == k)
  }

  predicate SupplyBounded(s: State)
  {
    forall k | k in s.events ::
      |TicketsOf(s.tickets, k)| <= s.events[k].issuedCount <= s.events[k].totalCapacity
  }

  predicate TicketFits(s: State, t: Ticket)
  {
    && 0 <= t.price && t.validFrom <= t.validUntil
    && (t.fraudFlag ==> Quarantined(t))
    && (t.owner in s.blacklist ==> Quarantined(t))
  }

  predicate TicketsFit(s: State) { forall k | k in s.tickets :: TicketFits(s, s.tickets[k]) }

  predicate Balanced(t: Transfer) { t.organizerFee + t.protocolFee + t.sellerProceeds == t.price }

  predicate TransfersFit(s: State)
  {
    && (forall i | 0 <= i < |s.transfers| :: Balanced(s.transfers[i]) && s.transfers[i].nonce in s.processedNonces)
    && (forall i, j | 0 <= i < j < |s.transfers| ::
          s.transfers[i].nonce != s.transfers[j].nonce && s.transfers[i].id != s.transfers[j].id)
  }

  /** The state invariant: what no sequence of committed mutations can break. */
  predicate Consistent(s: State) { Keyed(s) && SupplyBounded(s) && TicketsFit(s) && TransfersFit(s) }

  lemma SubsetSize<T>(a: set<T>, b: set<T>)
    requires a <= b
    ensures |a| <= |b|
  {
    assert b == a + (b - a);
  }

  lemma IssueCounts(tickets: map<string, Ticket>, t: Ticket, eventId: string)
    ensures |TicketsOf(tickets[t.id := t], eventId)|
         <= |TicketsOf(tickets, eventId)| + (if t.eventId == eventId then 1 else 0)
  {
    var before, after := TicketsOf(tickets, eventId), TicketsOf(tickets[t.id := t], eventId);
    if t.eventId == eventId {
      SubsetSize(after, before + {t.id});
    } else {
      SubsetSize(after, before);
    }
  }

  lemma IssueKeeps(s: State, p: IssueParams)
    requires Consistent(s) && Issue(s, p).Ok?
    ensures Consistent(Issue(s, p).value)
  {
    var s' := Issue(s, p).value;
    var ticket := s'.tickets[p.id];
    forall k | k in s'.events
      ensures |TicketsOf(s'.tickets, k)| <= s'.events[k].issuedCount <= s'.events[k].totalCapacity
    {
      IssueCounts(s.tickets, ticket, k);
    }
    assert forall k | k in s'.tickets :: k == p.id || s'.tickets[k] == s.tickets[k];
  }

  /** Replacing a ticket by one of the same event changes no count. */
  lemma SameCounts(tickets: map<string, Ticket>, id: string, t: Ticket, eventId: string)
    requires id in tickets && t.eventId == tickets[id].eventId
    ensures TicketsOf(tickets[id := t], eventId) == TicketsOf(tickets, eventId)
  {
  }

  lemma TransferKeeps(policy: RiskPolicy, s: State, p: TransferParams)
    requires Consistent(s) && TransferTicket(policy, s, p).Ok?
    ensures Consistent(TransferTicket(policy, s, p).value)
  {
    var s' := TransferTicket(policy, s, p).value;
    var updated := s'.tickets[p.ticketId];
    assert s'.tickets == s.tickets[p.ticketId := updated];
    forall k | k in s'.events
      ensures |TicketsOf(s'.tickets, k)| <= s'.events[k].issuedCount <= s'.events[k].totalCapacity
    {
      SameCounts(s.tickets, p.ticketId, updated, k);
    }
    assert TicketFits(s, s.tickets[p.ticketId]);
    assert forall k | k in s'.tickets :: k == p.ticketId || s'.tickets[k] == s.tickets[k];
  }

  lemma RedeemKeeps(s: State, p: RedeemParams)
    requires Consistent(s) && Redeem(s, p).Ok?
    ensures Consistent(Redeem(s, p).value)
  {
    var s' := Redeem(s, p).value;
    var updated := s'.tickets[p.ticketId];
    assert s'.tickets == s.tickets[p.ticketId := updated];
    forall k | k in s'.events
      ensures |TicketsOf(s'.tickets, k)| <= s'.events[k].issuedCount <= s'.events[k].totalCapacity
    {
      SameCounts(s.tickets, p.ticketId, updated, k);
    }
    assert TicketFits(s, s.tickets[p.ticketId]);
    assert forall k | k in s'.tickets :: k == p.ticketId || s'.tickets[k] == s.tickets[k];
  }

  /** No accepted mutation leaves the invariant. */
  lemma ApplyKeeps(policy: RiskPolicy, m: Mutation, s: State)
    requires Consistent(s) && Apply(policy, m, s).Ok?
    ensures Consistent(Apply(policy, m, s).value)
  {
    match m
    case IssueOf(p) => IssueKeeps(s, p);
    case TransferOf(p) => TransferKeeps(policy, s, p);
    case RedeemOf(p) => RedeemKeeps(s, p);
  }
}
