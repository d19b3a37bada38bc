/** Registrations, tickets and the check-in log (apps/registrations/services.py) as a state
    machine on database values. Every operation is one committed transaction; one that raises
    leaves the database as it was. */
module Registrations {
  import opened Text
  import QrToken

  type RegId = nat

  datatype RegStatus = Pending | Registered | Waitlisted | CancelPending | Cancelled | Rejected | CheckedIn
  datatype TicketStatus = Valid | Used | Expired | Void
  datatype ScanResult = Success | InvalidFormat | InvalidTicket | AlreadyCheckedIn | EventUnavailable

  datatype Registration = Registration(
    event: nat, user: nat, status: RegStatus, answers: string,
    registeredAt: int, cancelledAt: Option<int>, cancelReason: Option<string>)

  datatype Ticket = Ticket(
    id: string, code: string, payload: string, signature: string,
    status: TicketStatus, usedAt: Option<int>, expiresAt: int)

  datatype Log = Log(event: nat, ticket: Option<RegId>, result: ScanResult, at: int)

  /** The three tables. A ticket is keyed by its registration, to which it is one-to-one. */
  datatype Db = Db(regs: map<RegId, Registration>, tickets: map<RegId, Ticket>, logs: seq<Log>)

  /** The event row a transaction reads. It may differ from one transaction to the next. */
  datatype Event = Event(
    id: nat, open: bool, startAt: Option<int>, endAt: int,
    opensAt: Option<int>, closesAt: Option<int>, maxCapacity: Option<nat>)

  type HexDraw = s: string | |s| == 10 && forall i | 0 <= i < 10 :: QrToken.UpperHex(s[i])
    witness "0000000000"

  /** The random choices of one transaction: primary keys, and the ticket codes drawn in turn. */
  datatype Randomness = Randomness(regId: RegId, ticketId: string, draws: seq<HexDraw>)

  datatype Reply = Done(id: RegId) | NotAllowed | Conflict | Crashed

  predicate ReRegisterable(s: RegStatus) {
    s == Cancelled || s == Rejected
  }

  predicate Active(s: RegStatus) {
    s == Registered || s == CheckedIn
  }

  // ----- lookups -----

  datatype Got = Missing | Found(id: RegId) | Several

  /** A queryset's `get()`: exactly one row, or an exception. */
  function Get(ids: set<RegId>): (g: Got)
    ensures g.Found? ==> ids == {g.id}
    ensures g.Missing? <==> ids == {}
    ensures forall i :: ids == {i} ==> g == Found(i)
  {
    if ids == {} then Missing
    else if |ids| == 1 then
      SingletonIds(ids);
      var i :| i in ids;
      Found(i)
    else Several
  }

  lemma {:induction false} SingletonIds(ids: set<RegId>)
    requires |ids| == 1
    ensures forall i, j | i in ids && j in ids :: i == j
  {
    var k :| k in ids;
    assert |ids - {k}| == 0;
    assert forall i | i in ids :: i == k || i in ids - {k};
  }

  function RowsOf(db: Db, event: nat, user: nat): set<RegId> {
    set r | r in db.regs && db.regs[r].event == event && db.regs[r].user == user
  }

  function ByCode(db: Db, code: string): set<RegId> {
    set r | r in db.tickets && db.tickets[r].code == code
  }

  function ById(db: Db, id: string): set<RegId> {
    set r | r in db.tickets && db.tickets[r].id == id
  }

  /** Tickets for this event whose user is one of those with the scanned e-mail address. */
  function ByUsers(db: Db, event: nat, users: set<nat>): set<RegId> {
    set r | r in db.tickets && r in db.regs && db.regs[r].event == event && db.regs[r].user in users
  }

  function ActiveRows(db: Db, event: nat): set<RegId> {
    set r | r in db.regs && db.regs[r].event == event && Active(db.regs[r].status)
  }

  // ----- issuing tickets -----

  /** The first drawn code that no ticket has; None while the generator is still drawing. */
  function GenerateCode(db: Db, draws: seq<HexDraw>): (r: Option<string>)
    ensures r.Some? ==> QrToken.GeneratedCode(r.value) && ByCode(db, r.value) == {}
    ensures r.Some? ==> exists i :: 0 <= i < |draws| && r.value == "TK-" + draws[i]
                                    && forall j | 0 <= j < i :: ByCode(db, "TK-" + draws[j]) != {}
    ensures r.None? ==> forall j | 0 <= j < |draws| :: ByCode(db, "TK-" + draws[j]) != {}
  {
    if draws == [] then None
    else if ByCode(db, "TK-" + draws[0]) == {} then Some("TK-" + draws[0])
    else GenerateCode(db, draws[1..])
  }

  function IssueTicket(db: Db, sign: string -> string, r: RegId, endAt: int, rnd: Randomness): Option<Db> {
    match GenerateCode(db, rnd.draws)
    case None => None
    case Some(code) =>
      if ById(db, rnd.ticketId) != {} then None
      else
        var payload := QrToken.BuildPayload(code);
        Some(db.(tickets := db.tickets[r := Ticket(rnd.ticketId, code, payload, sign(payload), Valid, None, endAt)]))
  }

  function RestoreTicket(db: Db, sign: string -> string, r: RegId, endAt: int, rnd: Randomness): Option<Db> {
    if r in db.tickets then
      Some(db.(tickets := db.tickets[r := db.tickets[r].(status := Valid, usedAt := None, expiresAt := endAt)]))
    else IssueTicket(db, sign, r, endAt, rnd)
  }

  // ----- the operations -----

  predicate WindowOpen(ev: Event, now: int) {
    && ev.open
    && (ev.opensAt.Some? ==> ev.opensAt.value <= now)
    && (ev.closesAt.Some? ==> now <= ev.closesAt.value)
    && now < ev.endAt
  }

  /** What the count taken under the event lock decides; capacity 0 and no capacity both mean no limit. */
  function NextStatus(ev: Event, activeCount: nat): RegStatus {
    if ev.maxCapacity.Some? && ev.maxCapacity.value > 0 && activeCount >= ev.maxCapacity.value
    then Waitlisted else Registered
  }

  /** The writes of a registration once its own row and its next status are known. */
  function Admit(db: Db, sign: string -> string, ev: Event, user: nat, now: int, answers: string,
                 existing: Option<RegId>, next: RegStatus, rnd: Randomness): Option<(Db, RegId)>
  {
    if existing.None? && rnd.regId in db.regs then None
    else
      var r := if existing.Some? then existing.value else rnd.regId;
      var db1 := db.(regs := db.regs[r := Registration(ev.id, user, next, answers, now, None, None)]);
      if next != Registered then Some((db1, r))
      else match RestoreTicket(db1, sign, r, ev.endAt, rnd)
        case None => None
        case Some(db2) => Some((db2, r))
  }

  function Register(db: Db, sign: string -> string, ev: Event, user: nat, now: int, answers: string,
                    rnd: Randomness): (Db, Reply) {
    if !WindowOpen(ev, now) then (db, NotAllowed)
    else
      var own := Get(RowsOf(db, ev.id, user));
      if own.Several? then (db, Crashed)
      else if own.Found? && !ReRegisterable(db.regs[own.id].status) then (db, Conflict)
      else
        var existing := if own.Found? then Some(own.id) else None;
        var next := NextStatus(ev, |ActiveRows(db, ev.id)|);
        match Admit(db, sign, ev, user, now, answers, existing, next, rnd)
        case None => (db, Crashed)
        case Some(dr) => (dr.0, Done(dr.1))
  }

  function CreateTicket(db: Db, sign: string -> string, r: RegId, endAt: int, rnd: Randomness): (Db, Reply) {
    if r !in db.regs then (db, Crashed)
    else if r in db.tickets then (db, Conflict)
    else if db.regs[r].status != Registered then (db, NotAllowed)
    else match IssueTicket(db, sign, r, endAt, rnd)
      case None => (db, Crashed)
      case Some(db1) => (db1, Done(r))
  }

  function Cancel(db: Db, r: RegId, now: int, reason: Option<string>): (Db, Reply) {
    if r !in db.regs then (db, Crashed)
    else if db.regs[r].status in {Cancelled, Rejected, CheckedIn} then (db, NotAllowed)
    else
      var reg := db.regs[r].(status := Cancelled, cancelledAt := Some(now),
                             cancelReason := if reason == Some("") then None else reason);
      var db1 := db.(regs := db.regs[r := reg]);
      if r in db.tickets
      then (db1.(tickets := db.tickets[r := db.tickets[r].(status := Void)]), Done(r))
      else (db1, Done(r))
  }

  /** What the administrator's restore of a cancelled ticket asks of the locked rows
      (apps/system_admin/services/ticket_services.py). */
  predicate Restorable(db: Db, r: RegId, ev: Event, now: int) {
    && r in db.regs && r in db.tickets && db.regs[r].event == ev.id
    && db.tickets[r].status == Void && db.regs[r].status == Cancelled && db.tickets[r].usedAt.None?
    && now < db.tickets[r].expiresAt && now < ev.endAt && ev.open
  }

  function RestoreWrite(db: Db, r: RegId): Db
    requires r in db.regs && r in db.tickets
  {
    db.(regs := db.regs[r := db.regs[r].(status := Registered, cancelledAt := None, cancelReason := None)],
        tickets := db.tickets[r := db.tickets[r].(status := Valid, usedAt := None)])
  }

  function AdminRestore(db: Db, r: RegId, ev: Event, now: int): (Db, Reply) {
    if r !in db.regs || r !in db.tickets || db.regs[r].event != ev.id then (db, Crashed)
    else if !Restorable(db, r, ev, now) || NextStatus(ev, |ActiveRows(db, ev.id)|) == Waitlisted then (db, NotAllowed)
    else (RestoreWrite(db, r), Done(r))
  }

  /** The organizer's direct edit of a ticket (apps/registrations/views.py): the save writes back every
      column of a copy read before. The columns that nothing ever changes are left out. */
  function Patch(db: Db, r: RegId, status: TicketStatus, usedAt: Option<int>, expiresAt: int): Db {
    if r !in db.tickets then db
    else db.(tickets := db.tickets[r := db.tickets[r].(status := status, usedAt := usedAt, expiresAt := expiresAt)])
  }

  /** What a scanner submits; an empty text stands for an absent field. `emailUsers` are the users
      whose address equals the scanned one, ignoring case. */
  datatype ScanRequest = ScanRequest(payload: string, signature: string, code: string, email: string, emailUsers: set<nat>)

  datatype Target = BadFormat | Lookup(got: Got)

  function FindTarget(db: Db, sign: string -> string, ev: Event, now: int, q: ScanRequest): Target {
    if q.payload != "" then
      if q.signature == "" || sign(q.payload) != q.signature then BadFormat
      else match QrToken.Resolve(q.payload, now)
        case ById(id) => Lookup(Get(ById(db, id)))
        case ByCode(code) => Lookup(Get(ByCode(db, code)))
        case Refused => Lookup(Missing)
    else if q.code != "" then
      if Strip(q.code) == "" then Lookup(Missing) else Lookup(Get(ByCode(db, Strip(q.code))))
    else if q.email != "" then Lookup(Get(ByUsers(db, ev.id, q.emailUsers)))
    else Lookup(Missing)
  }

  /** The verdict on a ticket that was found, in the order the checks are made. */
  function Judge(ev: Event, now: int, reg: Registration, t: Ticket): ScanResult {
    if reg.event != ev.id then InvalidTicket
    else if !ev.open || (ev.startAt.Some? && ev.startAt.value > now) || ev.endAt < now then EventUnavailable
    else if t.status == Used || reg.status == CheckedIn then AlreadyCheckedIn
    else if t.status in {Void, Expired} then InvalidTicket
    else if reg.status in {Cancelled, Rejected} then InvalidTicket
    else if t.expiresAt <= now then InvalidTicket
    else Success
  }

  predicate FoundExpired(ev: Event, now: int, reg: Registration, t: Ticket) {
    && reg.event == ev.id && Judge(ev, now, reg, t) == InvalidTicket
    && t.status == Valid && reg.status !in {Cancelled, Rejected}
  }

  /** The writes a verdict brings with it. */
  function Admission(db: Db, ev: Event, now: int, r: RegId): Db
    requires r in db.regs && r in db.tickets
  {
    var reg, t := db.regs[r], db.tickets[r];
    if Judge(ev, now, reg, t) == Success then
      db.(tickets := db.tickets[r := t.(status := Used, usedAt := Some(now))],
          regs := db.regs[r := reg.(status := CheckedIn)])
    else if FoundExpired(ev, now, reg, t) then
      db.(tickets := db.tickets[r := t.(status := Expired)])
    else db
  }

  datatype ScanReply = Scanned(result: ScanResult, ticket: Option<RegId>) | ScanCrashed

  function Scan(db: Db, sign: string -> string, ev: Event, now: int, q: ScanRequest): (Db, ScanReply) {
    match FindTarget(db, sign, ev, now, q)
    case BadFormat => (Logged(db, ev, None, InvalidFormat, now), Scanned(InvalidFormat, None))
    case Lookup(Several) => (db, ScanCrashed)
    case Lookup(Missing) => (Logged(db, ev, None, InvalidTicket, now), Scanned(InvalidTicket, None))
    case Lookup(Found(r)) =>
      if r !in db.regs || r !in db.tickets then (db, ScanCrashed)
      else
        var result := Judge(ev, now, db.regs[r], db.tickets[r]);
        (Logged(Admission(db, ev, now, r), ev, Some(r), result, now), Scanned(result, Some(r)))
  }

  function Logged(db: Db, ev: Event, ticket: Option<RegId>, result: ScanResult, now: int): Db {
    db.(logs := db.logs + [Log(ev.id, ticket, result, now)])
  }

  /** The short-lived QR payload for a registration's ticket. */
  function IssueQr(db: Db, r: RegId, nonce: string, now: int): Option<string> {
    if r !in db.tickets || db.tickets[r].status != Valid then None
    else Some(QrToken.IssuePayload(db.tickets[r].id, nonce, now))
  }

  // ----- runs -----

  datatype Op =
    | DoRegister(ev: Event, user: nat, now: int, answers: string, rnd: Randomness)
    | DoCreateTicket(r: RegId, endAt: int, rnd: Randomness)
    | DoCancel(r: RegId, now: int, reason: Option<string>)
    | DoRestore(r: RegId, ev: Event, now: int)
    | DoScan(ev: Event, now: int, q: ScanRequest)
    | DoPatch(r: RegId, status: TicketStatus, usedAt: Option<int>, expiresAt: int)

  function Step(db: Db, sign: string -> string, op: Op): Db {
    match op
    case DoRegister(ev, user, now, answers, rnd) => Register(db, sign, ev, user, now, answers, rnd).0
    case DoCreateTicket(r, endAt, rnd) => CreateTicket(db, sign, r, endAt, rnd).0
    case DoCancel(r, now, reason) => Cancel(db, r, now, reason).0
    case DoRestore(r, ev, now) => AdminRestore(db, r, ev, now).0
    case DoScan(ev, now, q) => Scan(db, sign, ev, now, q).0
    case DoPatch(r, status, usedAt, expiresAt) => Patch(db, r, status, usedAt, expiresAt)
  }

  function Run(db: Db, sign: string -> string, ops: seq<Op>): Db {
    if ops == [] then db else Step(Run(db, sign, ops[..|ops| - 1]), sign, ops[|ops| - 1])
  }

  const EMPTY := Db(map[], map[], [])

  // ----- coherence of the three tables -----

  ghost predicate RowCoherent(db: Db, r: RegId) {
    && (r in db.tickets ==> r in db.regs)
    && (r in db.regs ==>
      var reg := db.regs[r];
      match reg.status
      case Registered =>
        r in db.tickets && db.tickets[r].status in {Valid, Expired} && db.tickets[r].usedAt.None? && reg.cancelledAt.None?
      case CheckedIn =>
        r in db.tickets && db.tickets[r].status == Used && db.tickets[r].usedAt.Some? && reg.cancelledAt.None?
      case Waitlisted =>
        reg.cancelledAt.None? && (r in db.tickets ==> db.tickets[r].status == Void && db.tickets[r].usedAt.None?)
      case Cancelled =>
        reg.cancelledAt.Some? && (r in db.tickets ==> db.tickets[r].status == Void && db.tickets[r].usedAt.None?)
      case _ => false)
  }

  /** Tickets carry a generated code of their own, its payload, and the payload's signature. */
  ghost predicate TicketsGenuine(db: Db, sign: string -> string) {
    && (forall r | r in db.tickets :: QrToken.GeneratedCode(db.tickets[r].code)
          && db.tickets[r].payload == QrToken.BuildPayload(db.tickets[r].code)
          && db.tickets[r].signature == sign(db.tickets[r].payload))
    && (forall r, s | r in db.tickets && s in db.tickets && r != s ::
          db.tickets[r].code != db.tickets[s].code && db.tickets[r].id != db.tickets[s].id)
  }

  ghost predicate OneRowEach(db: Db) {
    forall r, s | r in db.regs && s in db.regs && r != s ::
      db.regs[r].event != db.regs[s].event || db.regs[r].user != db.regs[s].user
  }

  ghost predicate Coherent(db: Db, sign: string -> string) {
    (forall r: RegId :: RowCoherent(db, r)) && TicketsGenuine(db, sign) && OneRowEach(db)
  }

  lemma {:induction false} GetIsUnique(ids: set<RegId>, r: RegId)
    requires r in ids && forall s | s in ids :: s == r
    ensures Get(ids) == Found(r)
  {
    assert ids == {r};
  }

  lemma {:induction false} IssueKeepsGenuine(db: Db, sign: string -> string, r: RegId, endAt: int, rnd: Randomness)
    requires TicketsGenuine(db, sign) && r !in db.tickets
    requires IssueTicket(db, sign, r, endAt, rnd).Some?
    ensures TicketsGenuine(IssueTicket(db, sign, r, endAt, rnd).value, sign)
  {
    var code := GenerateCode(db, rnd.draws).value;
    forall s | s in db.tickets ensures db.tickets[s].code != code && db.tickets[s].id != rnd.ticketId {
      assert s !in ByCode(db, code);
      assert s !in ById(db, rnd.ticketId);
    }
  }

  lemma {:induction false} RestoreKeepsGenuine(db: Db, sign: string -> string, r: RegId, endAt: int, rnd: Randomness)
    requires TicketsGenuine(db, sign) && RestoreTicket(db, sign, r, endAt, rnd).Some?
    ensures TicketsGenuine(RestoreTicket(db, sign, r, endAt, rnd).value, sign)
  {
    if r !in db.tickets {
      IssueKeepsGenuine(db, sign, r, endAt, rnd);
    }
  }

  /** Both states have the same rows and tickets, with the same owners, codes and signatures. */
  ghost predicate SameIdentity(db: Db, db': Db) {
    && db'.regs.Keys == db.regs.Keys && db'.tickets.Keys == db.tickets.Keys
    && (forall r | r in db.regs :: db'.regs[r].event == db.regs[r].event && db'.regs[r].user == db.regs[r].user)
    && (forall r | r in db.tickets ::
          db'.tickets[r].(status := db.tickets[r].status, usedAt := db.tickets[r].usedAt, expiresAt := db.tickets[r].expiresAt)
          == db.tickets[r])
  }

  lemma {:induction false} IdentityKept(db: Db, db': Db, sign: string -> string)
    requires SameIdentity(db, db') && TicketsGenuine(db, sign) && OneRowEach(db)
    ensures TicketsGenuine(db', sign) && OneRowEach(db')
  {
  }

  /** Both states agree on every row and ticket but one. */
  ghost predicate SameElsewhere(db: Db, db': Db, r: RegId) {
    && (forall s: RegId | s != r :: (s in db'.regs <==> s in db.regs) && (s in db.regs ==> db'.regs[s] == db.regs[s]))
    && (forall s: RegId | s != r :: (s in db'.tickets <==> s in db.tickets) && (s in db.tickets ==> db'.tickets[s] == db.tickets[s]))
  }

  lemma {:induction false} OthersCoherent(db: Db, db': Db, r: RegId)
    requires SameElsewhere(db, db', r) && RowCoherent(db', r) && forall s: RegId :: RowCoherent(db, s)
    ensures forall s: RegId :: RowCoherent(db', s)
  {
    forall s: RegId ensures RowCoherent(db', s) {
      assert RowCoherent(db, s);
    }
  }

  /** What an admission writes: its own row, and that row's ticket if it is registered. */
  lemma {:induction false} AdmitWrites(db: Db, sign: string -> string, ev: Event, user: nat, now: int, answers: string,
                                       existing: Option<RegId>, next: RegStatus, rnd: Randomness)
    requires Admit(db, sign, ev, user, now, answers, existing, next, rnd).Some?
    ensures var (db', r) := Admit(db, sign, ev, user, now, answers, existing, next, rnd).value;
      && SameElsewhere(db, db', r)
      && (existing.Some? ==> r == existing.value) && (existing.None? ==> r !in db.regs)
      && db'.regs == db.regs[r := Registration(ev.id, user, next, answers, now, None, None)]
      && (next != Registered ==> db'.tickets == db.tickets)
      && (next == Registered ==> r in db'.tickets && db'.tickets[r].status == Valid && db'.tickets[r].usedAt.None?)
  {
    hide ById, ByCode, GenerateCode;
  }

  lemma {:induction false} AdmitKeepsGenuine(db: Db, sign: string -> string, ev: Event, user: nat, now: int, answers: string,
                                             existing: Option<RegId>, next: RegStatus, rnd: Randomness)
    requires TicketsGenuine(db, sign) && Admit(db, sign, ev, user, now, answers, existing, next, rnd).Some?
    ensures TicketsGenuine(Admit(db, sign, ev, user, now, answers, existing, next, rnd).value.0, sign)
  {
    hide RestoreTicket, TicketsGenuine;
    var r := Admit(db, sign, ev, user, now, answers, existing, next, rnd).value.1;
    var db1 := db.(regs := db.regs[r := Registration(ev.id, user, next, answers, now, None, None)]);
    SameTicketsGenuine(db, db1, sign);
    if next == Registered {
      RestoreKeepsGenuine(db1, sign, r, ev.endAt, rnd);
    }
  }

  lemma {:induction false} SameTicketsGenuine(db: Db, db': Db, sign: string -> string)
    requires TicketsGenuine(db, sign) && db'.tickets == db.tickets
    ensures TicketsGenuine(db', sign)
  {
  }

  lemma {:induction false} WriteKeepsOneRow(db: Db, db': Db, r: RegId, reg: Registration)
    requires OneRowEach(db) && db'.regs == db.regs[r := reg]
    requires forall s | s in db.regs && s != r :: db.regs[s].event != reg.event || db.regs[s].user != reg.user
    ensures OneRowEach(db')
  {
  }

  /** No other row belongs to the user for whom a row was looked up. */
  lemma {:induction false} OwnRowIsTheOnly(db: Db, event: nat, user: nat, existing: Option<RegId>)
    requires OneRowEach(db)
    requires existing.Some? ==> existing.value in RowsOf(db, event, user)
    requires existing.None? ==> RowsOf(db, event, user) == {}
    ensures forall s | s in db.regs && Some(s) != existing :: db.regs[s].event != event || db.regs[s].user != user
  {
    forall s | s in db.regs && Some(s) != existing ensures db.regs[s].event != event || db.regs[s].user != user {
      assert s !in RowsOf(db, event, user) || existing.Some?;
    }
  }

  /** The heart of re-registration: an own row that is re-registerable, or none, plus either next
      status, always leaves the tables coherent. */
  lemma {:induction false} AdmitKeepsCoherent(db: Db, sign: string -> string, ev: Event, user: nat, now: int, answers: string,
                                              existing: Option<RegId>, next: RegStatus, rnd: Randomness)
    requires Coherent(db, sign) && next in {Registered, Waitlisted}
    requires existing.Some? ==> existing.value in RowsOf(db, ev.id, user)
                                && ReRegisterable(db.regs[existing.value].status)
    requires existing.None? ==> RowsOf(db, ev.id, user) == {}
    ensures var a := Admit(db, sign, ev, user, now, answers, existing, next, rnd);
            a.Some? ==> Coherent(a.value.0, sign)
  {
    hide Admit, TicketsGenuine, OneRowEach;
    var a := Admit(db, sign, ev, user, now, answers, existing, next, rnd);
    if a.Some? {
      var (db', r) := a.value;
      AdmitWrites(db, sign, ev, user, now, answers, existing, next, rnd);
      AdmitKeepsGenuine(db, sign, ev, user, now, answers, existing, next, rnd);
      OwnRowIsTheOnly(db, ev.id, user, existing);
      WriteKeepsOneRow(db, db', r, Registration(ev.id, user, next, answers, now, None, None));
      assert RowCoherent(db, r);
      OthersCoherent(db, db', r);
    }
  }

  lemma {:induction false} RegisterKeepsCoherent(db: Db, sign: string -> string, ev: Event, user: nat, now: int,
                                                 answers: string, rnd: Randomness)
    requires Coherent(db, sign)
    ensures Coherent(Register(db, sign, ev, user, now, answers, rnd).0, sign)
  {
    var own := Get(RowsOf(db, ev.id, user));
    if WindowOpen(ev, now) && !own.Several? && (own.Found? ==> ReRegisterable(db.regs[own.id].status)) {
      AdmitKeepsCoherent(db, sign, ev, user, now, answers, if own.Found? then Some(own.id) else None,
                         NextStatus(ev, |ActiveRows(db, ev.id)|), rnd);
    }
  }

  /** What a registration that succeeds leaves behind: the user's one row, registered if the event has
      no limit or a free seat and waitlisted otherwise; a registered row has a valid, unused ticket until
      the event's end, its old one if it had one; a waitlisted row keeps whatever cancelled ticket it
      had; nobody else's row or ticket changes. */
  lemma {:induction false} RegisterResult(db: Db, sign: string -> string, ev: Event, user: nat, now: int,
                                          answers: string, rnd: Randomness)
    requires Coherent(db, sign)
    ensures var (db', reply) := Register(db, sign, ev, user, now, answers, rnd);
      && (!reply.Done? ==> db' == db)
      && (reply.Done? ==>
            var r, full := reply.id, ev.maxCapacity.Some? && 0 < ev.maxCapacity.value <= |ActiveRows(db, ev.id)|;
            && RowsOf(db', ev.id, user) == {r}
            && db'.regs[r].status == (if full then Waitlisted else Registered)
            && (full ==> db'.tickets == db.tickets && (r in db.tickets ==> db.tickets[r].status == Void))
            && (!full ==> r in db'.tickets && db'.tickets[r].status == Valid && db'.tickets[r].usedAt.None?
                          && db'.tickets[r].expiresAt == ev.endAt
                          && (r in db.tickets ==> db'.tickets[r].code == db.tickets[r].code))
            && (forall s | s in db.regs && s != r :: s in db'.regs && db'.regs[s] == db.regs[s])
            && (forall s | s in db.tickets && s != r :: s in db'.tickets && db'.tickets[s] == db.tickets[s]))
  {
    hide ByCode, ById, TicketsGenuine, OneRowEach, WindowOpen;
    RegisterKeepsCoherent(db, sign, ev, user, now, answers, rnd);
    var (db', reply) := Register(db, sign, ev, user, now, answers, rnd);
    if reply.Done? {
      var r := reply.id;
      assert RowCoherent(db, r) && RowCoherent(db', r);
      OwnRowOnly(db', sign, ev.id, user, r);
    }
  }

  lemma {:induction false} OwnRowOnly(db: Db, sign: string -> string, event: nat, user: nat, r: RegId)
    requires Coherent(db, sign) && r in db.regs && db.regs[r].event == event && db.regs[r].user == user
    ensures RowsOf(db, event, user) == {r}
  {
    hide TicketsGenuine, RowCoherent;
  }

  /** Verdicts, cancellations and restores change one row and its ticket, and neither's identity. */
  lemma {:induction false} AdmissionIsIdentity(db: Db, ev: Event, now: int, r: RegId)
    requires r in db.regs && r in db.tickets
    ensures SameIdentity(db, Admission(db, ev, now, r)) && SameElsewhere(db, Admission(db, ev, now, r), r)
  {
    hide Judge;
  }

  lemma {:induction false} CancelIsIdentity(db: Db, r: RegId, now: int, reason: Option<string>)
    ensures SameIdentity(db, Cancel(db, r, now, reason).0) && SameElsewhere(db, Cancel(db, r, now, reason).0, r)
  {
  }

  lemma {:induction false} RestoreIsIdentity(db: Db, r: RegId)
    requires r in db.regs && r in db.tickets
    ensures SameIdentity(db, RestoreWrite(db, r)) && SameElsewhere(db, RestoreWrite(db, r), r)
  {
  }

  lemma {:induction false} AdmissionKeepsCoherent(db: Db, sign: string -> string, ev: Event, now: int, r: RegId)
    requires Coherent(db, sign) && r in db.regs && r in db.tickets
    ensures Coherent(Admission(db, ev, now, r), sign)
  {
    hide TicketsGenuine, OneRowEach;
    var db' := Admission(db, ev, now, r);
    AdmissionIsIdentity(db, ev, now, r);
    IdentityKept(db, db', sign);
    assert RowCoherent(db, r);
    OthersCoherent(db, db', r);
  }

  lemma {:induction false} ScanKeepsCoherent(db: Db, sign: string -> string, ev: Event, now: int, q: ScanRequest)
    requires Coherent(db, sign)
    ensures Coherent(Scan(db, sign, ev, now, q).0, sign)
  {
    hide FindTarget, Admission, TicketsGenuine, OneRowEach, RowCoherent;
    var t := FindTarget(db, sign, ev, now, q);
    if t.Lookup? && t.got.Found? && t.got.id in db.regs && t.got.id in db.tickets {
      AdmissionKeepsCoherent(db, sign, ev, now, t.got.id);
      LogsDoNotMatter(Admission(db, ev, now, t.got.id), Scan(db, sign, ev, now, q).0, sign);
    } else {
      LogsDoNotMatter(db, Scan(db, sign, ev, now, q).0, sign);
    }
  }

  lemma {:induction false} LogsDoNotMatter(db: Db, db': Db, sign: string -> string)
    requires Coherent(db, sign) && db' == db.(logs := db'.logs)
    ensures Coherent(db', sign)
  {
    forall s: RegId ensures RowCoherent(db', s) {
      assert RowCoherent(db, s);
    }
  }

  lemma {:induction false} CancelKeepsCoherent(db: Db, sign: string -> string, r: RegId, now: int,
                                               reason: Option<string>)
    requires Coherent(db, sign)
    ensures Coherent(Cancel(db, r, now, reason).0, sign)
  {
    hide TicketsGenuine, OneRowEach;
    var db' := Cancel(db, r, now, reason).0;
    CancelIsIdentity(db, r, now, reason);
    IdentityKept(db, db', sign);
    assert RowCoherent(db, r);
    OthersCoherent(db, db', r);
  }

  /** A restore's writes on a cancelled row. */
  lemma {:induction false} RestoreWriteKeepsCoherent(db: Db, sign: string -> string, r: RegId)
    requires Coherent(db, sign) && r in db.regs && r in db.tickets && ReRegisterable(db.regs[r].status)
    ensures Coherent(RestoreWrite(db, r), sign)
  {
    hide TicketsGenuine, OneRowEach;
    var db' := RestoreWrite(db, r);
    RestoreIsIdentity(db, r);
    IdentityKept(db, db', sign);
    assert RowCoherent(db, r);
    OthersCoherent(db, db', r);
  }

  lemma {:induction false} AdminRestoreKeepsCoherent(db: Db, sign: string -> string, r: RegId, ev: Event, now: int)
    requires Coherent(db, sign)
    ensures Coherent(AdminRestore(db, r, ev, now).0, sign)
  {
    hide NextStatus, ActiveRows, Coherent, RestoreWrite;
    if AdminRestore(db, r, ev, now).1.Done? {
      RestoreWriteKeepsCoherent(db, sign, r);
    }
  }

  lemma {:induction false} StepKeepsCoherent(db: Db, sign: string -> string, op: Op)
    requires Coherent(db, sign) && !op.DoPatch?
    ensures Coherent(Step(db, sign, op), sign)
  {
    hide Register, Scan, IssueTicket, Cancel, AdminRestore, TicketsGenuine, OneRowEach;
    match op
    case DoRegister(ev, user, now, answers, rnd) => RegisterKeepsCoherent(db, sign, ev, user, now, answers, rnd);
    case DoScan(ev, now, q) => ScanKeepsCoherent(db, sign, ev, now, q);
    case DoCreateTicket(r, endAt, rnd) => assert RowCoherent(db, r);
    case DoCancel(r, now, reason) => CancelKeepsCoherent(db, sign, r, now, reason);
    case DoRestore(r, ev, now) => AdminRestoreKeepsCoherent(db, sign, r, ev, now);
  }

  lemma {:induction false} RunKeepsCoherent(db: Db, sign: string -> string, ops: seq<Op>)
    requires Coherent(db, sign) && forall i | 0 <= i < |ops| :: !ops[i].DoPatch?
    ensures Coherent(Run(db, sign, ops), sign)
  {
    if ops != [] {
      RunKeepsCoherent(db, sign, ops[..|ops| - 1]);
      StepKeepsCoherent(Run(db, sign, ops[..|ops| - 1]), sign, ops[|ops| - 1]);
    }
  }

  /** In every run from empty tables (no direct ticket edits), registration and ticket agree. */
  lemma {:induction false} EveryRunIsCoherent(sign: string -> string, ops: seq<Op>, r: RegId)
    requires forall i | 0 <= i < |ops| :: !ops[i].DoPatch?
    ensures var db := Run(EMPTY, sign, ops);
      && (r in db.tickets ==>
           && r in db.regs
           && (db.tickets[r].status in {Valid, Expired} ==> db.regs[r].status == Registered)
           && (db.tickets[r].status == Used <==> db.regs[r].status == CheckedIn)
           && (db.tickets[r].status == Used <==> db.tickets[r].usedAt.Some?))
      && (r in db.regs ==>
           && db.regs[r].status in {Registered, Waitlisted, Cancelled, CheckedIn}
           && (Active(db.regs[r].status) ==> r in db.tickets)
           && (db.regs[r].status in {Waitlisted, Cancelled} ==> r !in db.tickets || db.tickets[r].status == Void)
           && (db.regs[r].cancelledAt.Some? <==> db.regs[r].status == Cancelled))
  {
    RunKeepsCoherent(EMPTY, sign, ops);
    assert RowCoherent(Run(EMPTY, sign, ops), r);
  }

  /** A registered attendee always holds a ticket, so the separate ticket-issuing operation never
      succeeds in any such run. */
  lemma {:induction false} CreateTicketNeverIssues(sign: string -> string, ops: seq<Op>, r: RegId, endAt: int,
                                                   rnd: Randomness)
    requires forall i | 0 <= i < |ops| :: !ops[i].DoPatch?
    ensures !CreateTicket(Run(EMPTY, sign, ops), sign, r, endAt, rnd).1.Done?
  {
    RunKeepsCoherent(EMPTY, sign, ops);
    assert RowCoherent(Run(EMPTY, sign, ops), r);
  }

  /** In coherent tables a scan that succeeds admits a registered attendee with a valid, unexpired ticket. */
  lemma {:induction false} ScanAdmitsOnlyRegistered(db: Db, sign: string -> string, ev: Event, now: int, q: ScanRequest)
    requires Coherent(db, sign)
    ensures match Scan(db, sign, ev, now, q).1
            case Scanned(Success, Some(r)) =>
              && r in db.regs && r in db.tickets && db.regs[r].event == ev.id
              && db.regs[r].status == Registered && db.tickets[r].status == Valid && now < db.tickets[r].expiresAt
            case Scanned(Success, None) => false
            case _ => true
  {
    hide FindTarget;
    var t := FindTarget(db, sign, ev, now, q);
    if t.Lookup? && t.got.Found? {
      assert RowCoherent(db, t.got.id);
    }
  }

  /** The request carries, properly signed, the payload stored with `r`'s ticket or a token issued for it
      that is still within its seconds. */
  predicate SignedFor(db: Db, sign: string -> string, r: RegId, nonce: string, issued: int, now: int, q: ScanRequest)
    requires r in db.tickets
  {
    && sign(q.payload) == q.signature && q.signature != ""
    && (q.payload == db.tickets[r].payload
        || (0 <= issued <= now && QrToken.Seconds(now) < QrToken.Seconds(issued) + QrToken.TOKEN_TTL_SECONDS
            && q.payload == QrToken.IssuePayload(db.tickets[r].id, nonce, issued)))
  }

  /** Scanning such a request finds that very ticket. */
  lemma {:induction false} OwnPayloadFindsTicket(db: Db, sign: string -> string, ev: Event, r: RegId, nonce: string,
                                                 issued: int, now: int, q: ScanRequest)
    requires Coherent(db, sign) && r in db.tickets
    ensures SignedFor(db, sign, r, nonce, issued, now, q) ==> FindTarget(db, sign, ev, now, q) == Lookup(Found(r))
  {
    hide QrToken.Resolve, QrToken.IssuePayload, QrToken.Seconds;
    var t := db.tickets[r];
    if SignedFor(db, sign, r, nonce, issued, now, q) {
      assert q.payload != "" by {
        if q.payload != t.payload { IssuedPayloadNonEmpty(t.id, nonce, issued); }
      }
      if q.payload == t.payload {
        QrToken.StoredPayloadResolves(t.code, now);
        GetIsUnique(ByCode(db, t.code), r);
      } else {
        QrToken.IssuedTokenWindow(t.id, nonce, issued, now);
        GetIsUnique(ById(db, t.id), r);
      }
    }
  }

  lemma {:induction false} IssuedPayloadNonEmpty(id: string, nonce: string, issued: int)
    ensures QrToken.IssuePayload(id, nonce, issued) != ""
  {
  }

  /** The whole way in: the QR code issued for a registration and scanned within its seconds, at a
      running event and before the ticket expires, checks in that registration; scanned a second time
      it only says so. */
  lemma {:induction false} FreshQrAdmits(db: Db, sign: string -> string, ev: Event, r: RegId, nonce: string,
                                         issued: int, now: int, later: int)
    requires Coherent(db, sign) && r in db.regs && db.regs[r].event == ev.id && IssueQr(db, r, nonce, issued).Some?
    requires sign(IssueQr(db, r, nonce, issued).value) != ""
    requires 0 <= issued <= now <= later && QrToken.Seconds(later) < QrToken.Seconds(issued) + QrToken.TOKEN_TTL_SECONDS
    requires ev.open && (ev.startAt.Some? ==> ev.startAt.value <= now) && later <= ev.endAt && now < db.tickets[r].expiresAt
    ensures var payload := IssueQr(db, r, nonce, issued).value;
      var q := ScanRequest(payload, sign(payload), "", "", {});
      var (db', reply) := Scan(db, sign, ev, now, q);
      && r in db'.regs && r in db'.tickets
      && reply == Scanned(Success, Some(r)) && db'.regs[r].status == CheckedIn && db'.tickets[r].usedAt == Some(now)
      && Scan(db', sign, ev, later, q).1 == Scanned(AlreadyCheckedIn, Some(r))
  {
    hide FindTarget, QrToken.IssuePayload, QrToken.Seconds, Coherent, Scan, Judge, Admission;
    var payload := IssueQr(db, r, nonce, issued).value;
    var q := ScanRequest(payload, sign(payload), "", "", {});
    ValidIsRegistered(db, sign, r);
    JudgeFresh(db, ev, now, later, r);
    SecondsOrder(now, later);
    OwnPayloadFindsTicket(db, sign, ev, r, nonce, issued, now, q);
    ScanOfFound(db, sign, ev, now, q, r);
    var db' := Scan(db, sign, ev, now, q).0;
    ScanKeepsCoherent(db, sign, ev, now, q);
    OwnPayloadFindsTicket(db', sign, ev, r, nonce, issued, later, q);
    ScanOfFound(db', sign, ev, later, q, r);
  }

  lemma {:induction false} ValidIsRegistered(db: Db, sign: string -> string, r: RegId)
    requires Coherent(db, sign) && r in db.tickets && db.tickets[r].status == Valid
    ensures r in db.regs && db.regs[r].status == Registered
  {
    hide TicketsGenuine, OneRowEach;
    assert RowCoherent(db, r);
  }

  lemma {:induction false} ScanOfFound(db: Db, sign: string -> string, ev: Event, now: int, q: ScanRequest, r: RegId)
    requires r in db.regs && r in db.tickets && FindTarget(db, sign, ev, now, q) == Lookup(Found(r))
    ensures var s := Scan(db, sign, ev, now, q);
      && s.1 == Scanned(Judge(ev, now, db.regs[r], db.tickets[r]), Some(r))
      && s.0.regs == Admission(db, ev, now, r).regs && s.0.tickets == Admission(db, ev, now, r).tickets
  {
    hide FindTarget, Judge, Admission;
  }

  lemma {:induction false} JudgeFresh(db: Db, ev: Event, now: int, later: int, r: RegId)
    requires r in db.regs && r in db.tickets && db.regs[r].status == Registered && db.tickets[r].status == Valid
    requires db.regs[r].event == ev.id && ev.open && (ev.startAt.Some? ==> ev.startAt.value <= now)
    requires now <= later <= ev.endAt && now < db.tickets[r].expiresAt
    ensures Judge(ev, now, db.regs[r], db.tickets[r]) == Success
    ensures var db' := Admission(db, ev, now, r);
      && r in db'.regs && r in db'.tickets
      && db'.tickets[r] == db.tickets[r].(status := Used, usedAt := Some(now)) && db'.regs[r] == db.regs[r].(status := CheckedIn)
      && Judge(ev, later, db'.regs[r], db'.tickets[r]) == AlreadyCheckedIn
  {
  }

  lemma {:induction false} SecondsOrder(a: int, b: int)
    requires 0 <= a <= b
    ensures QrToken.Seconds(a) <= QrToken.Seconds(b)
  {
  }
}
