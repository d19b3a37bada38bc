/** What the registration service answers and writes, case by case, in terms of the stored fields alone
    (apps/registrations/services.py; apps/system_admin/services/ticket_services.py). */
module RegistrationReplies {
  import opened Text
  import opened Registrations
  import QrToken
  import TokenJson

  // ----- registration -----

  /** Registration is not possible now. */
  predicate Closed(ev: Event, now: int) {
    !ev.open || (ev.opensAt.Some? && now < ev.opensAt.value) || (ev.closesAt.Some? && ev.closesAt.value < now) || ev.endAt <= now
  }

  function Own(db: Db, ev: Event, user: nat): set<RegId> {
    set r | r in db.regs && db.regs[r].event == ev.id && db.regs[r].user == user
  }

  function Seated(db: Db, ev: Event): set<RegId> {
    set r | r in db.regs && db.regs[r].event == ev.id && db.regs[r].status in {Registered, CheckedIn}
  }

  predicate NoSeat(db: Db, ev: Event) {
    ev.maxCapacity.Some? && ev.maxCapacity.value > 0 && |Seated(db, ev)| >= ev.maxCapacity.value
  }

  predicate Bars(s: RegStatus) {
    s != Cancelled && s != Rejected
  }

  predicate HasCode(db: Db, code: string) {
    exists s :: s in db.tickets && db.tickets[s].code == code
  }

  predicate HasId(db: Db, id: string) {
    exists s :: s in db.tickets && db.tickets[s].id == id
  }

  /** No ticket can be made from these random choices. */
  predicate CannotIssue(db: Db, rnd: Randomness) {
    HasId(db, rnd.ticketId) || forall i | 0 <= i < |rnd.draws| :: HasCode(db, "TK-" + rnd.draws[i])
  }

  /** The random choices of a registration collide with what is stored. */
  predicate Clash(db: Db, ev: Event, user: nat, rnd: Randomness) {
    var own := Own(db, ev, user);
    (own == {} && rnd.regId in db.regs)
    || (!NoSeat(db, ev) && (forall r | r in own :: r !in db.tickets) && CannotIssue(db, rnd))
  }

  lemma {:induction false} IssueFailsIff(db: Db, sign: string -> string, r: RegId, endAt: int, rnd: Randomness)
    ensures IssueTicket(db, sign, r, endAt, rnd) == None <==> CannotIssue(db, rnd)
  {
    assert forall code :: ByCode(db, code) != {} ==> HasCode(db, code) by {
      forall code | ByCode(db, code) != {} ensures HasCode(db, code) {
        var s :| s in ByCode(db, code);
      }
    }
    assert forall code, s :: s in db.tickets && db.tickets[s].code == code ==> s in ByCode(db, code);
    if ById(db, rnd.ticketId) != {} {
      var s :| s in ById(db, rnd.ticketId);
    }
    assert forall s :: s in db.tickets && db.tickets[s].id == rnd.ticketId ==> s in ById(db, rnd.ticketId);
  }

  lemma {:induction false} SameRows(db: Db, ev: Event, user: nat)
    ensures RowsOf(db, ev.id, user) == Own(db, ev, user) && ActiveRows(db, ev.id) == Seated(db, ev)
  {
  }

  /** In coherent tables a user has no row of an event, or just one. */
  lemma {:induction false} OwnRow(db: Db, sign: string -> string, ev: Event, user: nat)
    requires Coherent(db, sign)
    ensures var own := Get(Own(db, ev, user));
      && !own.Several?
      && (own.Found? ==> own.id in db.regs && db.regs[own.id].event == ev.id && db.regs[own.id].user == user)
  {
    hide RowCoherent, TicketsGenuine;
    var own := Own(db, ev, user);
    if own != {} {
      var r :| r in own;
      GetIsUnique(own, r);
    }
  }

  lemma {:induction false} AdmitFailsIff(db: Db, sign: string -> string, ev: Event, user: nat, now: int, answers: string,
                                         existing: Option<RegId>, next: RegStatus, rnd: Randomness)
    ensures var r := if existing.Some? then existing.value else rnd.regId;
      Admit(db, sign, ev, user, now, answers, existing, next, rnd) == None
      <==> (existing.None? && rnd.regId in db.regs) || (next == Registered && r !in db.tickets && CannotIssue(db, rnd))
  {
    hide IssueTicket;
    var r := if existing.Some? then existing.value else rnd.regId;
    var db1 := db.(regs := db.regs[r := Registration(ev.id, user, next, answers, now, None, None)]);
    assert CannotIssue(db1, rnd) == CannotIssue(db, rnd);
    IssueFailsIff(db1, sign, r, ev.endAt, rnd);
  }

  lemma {:induction false} TicketHasRow(db: Db, sign: string -> string, r: RegId)
    requires Coherent(db, sign) && r in db.tickets
    ensures r in db.regs
  {
    assert RowCoherent(db, r);
  }

  /** When a registration is refused, and when it fails because its random values are taken. */
  lemma {:induction false} RegisterReply(db: Db, sign: string -> string, ev: Event, user: nat, now: int, answers: string,
                                         rnd: Randomness)
    requires Coherent(db, sign)
    ensures var reply := Register(db, sign, ev, user, now, answers, rnd).1;
      var taken := exists r :: r in db.regs && db.regs[r].event == ev.id && db.regs[r].user == user && Bars(db.regs[r].status);
      && (reply == NotAllowed <==> Closed(ev, now))
      && (reply == Conflict <==> !Closed(ev, now) && taken)
      && (reply == Crashed <==> !Closed(ev, now) && !taken && Clash(db, ev, user, rnd))
      && (reply.Done? <==> !Closed(ev, now) && !taken && !Clash(db, ev, user, rnd))
  {
    hide Coherent, Admit, RowsOf, ActiveRows, Own, Seated, CannotIssue;
    SameRows(db, ev, user);
    OwnRow(db, sign, ev, user);
    var rows := Own(db, ev, user);
    var own := Get(rows);
    OwnMeans(db, ev, user);
    var existing := if own.Found? then Some(own.id) else None;
    var next := NextStatus(ev, |Seated(db, ev)|);
    AdmitFailsIff(db, sign, ev, user, now, answers, existing, next, rnd);
    if rnd.regId in db.tickets {
      TicketHasRow(db, sign, rnd.regId);
    }
  }

  lemma {:induction false} OwnMeans(db: Db, ev: Event, user: nat)
    ensures forall r :: r in Own(db, ev, user) <==> r in db.regs && db.regs[r].event == ev.id && db.regs[r].user == user
  {
  }

  /** What one that succeeds writes: the user's row, the one there was or else the drawn one, with the
      answers given and the time of the call, and a ticket only if there is a seat: the old ticket made
      valid again, or else a signed one with the first free code. */
  lemma {:induction false} RegisterWrites(db: Db, sign: string -> string, ev: Event, user: nat, now: int, answers: string,
                                          rnd: Randomness)
    requires Coherent(db, sign) && Register(db, sign, ev, user, now, answers, rnd).1.Done?
    ensures var (db', reply) := Register(db, sign, ev, user, now, answers, rnd);
      var r, own := reply.id, Own(db, ev, user);
      && own == (if own == {} then {} else {r}) && (own == {} ==> r == rnd.regId && r !in db.regs)
      && db'.regs == db.regs[r := Registration(ev.id, user, if NoSeat(db, ev) then Waitlisted else Registered, answers, now, None, None)]
      && (NoSeat(db, ev) ==> db'.tickets == db.tickets)
      && (!NoSeat(db, ev) && r in db.tickets ==>
            db'.tickets == db.tickets[r := db.tickets[r].(status := Valid, usedAt := None, expiresAt := ev.endAt)])
      && (!NoSeat(db, ev) && r !in db.tickets ==> IssuesFresh(db, db', sign, r, ev.endAt, rnd))
      && db'.logs == db.logs
  {
    hide Coherent, RowsOf, ActiveRows, Own, Seated, Admit, IssuesFresh;
    SameRows(db, ev, user);
    OwnRow(db, sign, ev, user);
    OwnMeans(db, ev, user);
    var own := Get(Own(db, ev, user));
    var existing := if own.Found? then Some(own.id) else None;
    var next := if NoSeat(db, ev) then Waitlisted else Registered;
    AdmitEffect(db, sign, ev, user, now, answers, existing, next, rnd);
  }

  lemma {:induction false} AdmitEffect(db: Db, sign: string -> string, ev: Event, user: nat, now: int, answers: string,
                                       existing: Option<RegId>, next: RegStatus, rnd: Randomness)
    requires Admit(db, sign, ev, user, now, answers, existing, next, rnd).Some?
    ensures var (db', r) := Admit(db, sign, ev, user, now, answers, existing, next, rnd).value;
      && r == (if existing.Some? then existing.value else rnd.regId) && (existing.None? ==> r !in db.regs)
      && db'.regs == db.regs[r := Registration(ev.id, user, next, answers, now, None, None)] && db'.logs == db.logs
      && (next != Registered ==> db'.tickets == db.tickets)
      && (next == Registered && r in db.tickets ==>
            db'.tickets == db.tickets[r := db.tickets[r].(status := Valid, usedAt := None, expiresAt := ev.endAt)])
      && (next == Registered && r !in db.tickets ==> IssuesFresh(db, db', sign, r, ev.endAt, rnd))
  {
    hide RestoreTicket, IssuesFresh;
    var (db', r) := Admit(db, sign, ev, user, now, answers, existing, next, rnd).value;
    var db1 := db.(regs := db.regs[r := Registration(ev.id, user, next, answers, now, None, None)]);
    if next == Registered {
      RestoreWrites(db1, sign, r, ev.endAt, rnd);
      if r !in db.tickets {
        SameTickets(db1, db, db', sign, r, ev.endAt, rnd);
      }
    }
  }

  lemma {:induction false} SameTickets(db1: Db, db2: Db, db': Db, sign: string -> string, r: RegId, endAt: int, rnd: Randomness)
    requires db1.tickets == db2.tickets && IssuesFresh(db1, db', sign, r, endAt, rnd)
    ensures IssuesFresh(db2, db', sign, r, endAt, rnd)
  {
    var i :| 0 <= i < |rnd.draws| && (forall j | 0 <= j < i :: HasCode(db1, "TK-" + rnd.draws[j]))
             && Issues(db1, db', sign, r, endAt, rnd.ticketId, "TK-" + rnd.draws[i]);
    assert Issues(db2, db', sign, r, endAt, rnd.ticketId, "TK-" + rnd.draws[i]);
  }

  /** A ticket with this code is added. */
  predicate Issues(db: Db, db': Db, sign: string -> string, r: RegId, endAt: int, id: string, code: string) {
    && !HasCode(db, code) && !HasId(db, id)
    && db'.tickets == db.tickets[r := Ticket(id, code, "TICKET:" + code, sign("TICKET:" + code), Valid, None, endAt)]
  }

  /** With the first drawn code that is free. */
  ghost predicate IssuesFresh(db: Db, db': Db, sign: string -> string, r: RegId, endAt: int, rnd: Randomness) {
    exists i :: 0 <= i < |rnd.draws| && (forall j | 0 <= j < i :: HasCode(db, "TK-" + rnd.draws[j]))
                && Issues(db, db', sign, r, endAt, rnd.ticketId, "TK-" + rnd.draws[i])
  }

  lemma {:induction false} RestoreWrites(db: Db, sign: string -> string, r: RegId, endAt: int, rnd: Randomness)
    requires RestoreTicket(db, sign, r, endAt, rnd).Some?
    ensures var db' := RestoreTicket(db, sign, r, endAt, rnd).value;
      && db'.regs == db.regs && db'.logs == db.logs
      && (r in db.tickets ==> db'.tickets == db.tickets[r := db.tickets[r].(status := Valid, usedAt := None, expiresAt := endAt)])
      && (r !in db.tickets ==> IssuesFresh(db, db', sign, r, endAt, rnd))
  {
    hide GenerateCode, ByCode, ById;
    if r !in db.tickets {
      var code := GenerateCode(db, rnd.draws).value;
      var i :| 0 <= i < |rnd.draws| && code == "TK-" + rnd.draws[i] && forall j | 0 <= j < i :: ByCode(db, "TK-" + rnd.draws[j]) != {};
      forall j | 0 <= j < i ensures HasCode(db, "TK-" + rnd.draws[j]) {
        CodeTaken(db, "TK-" + rnd.draws[j]);
      }
      CodeTaken(db, code);
      IdTaken(db, rnd.ticketId);
      var db' := RestoreTicket(db, sign, r, endAt, rnd).value;
      assert Issues(db, db', sign, r, endAt, rnd.ticketId, "TK-" + rnd.draws[i]);
    }
  }

  lemma {:induction false} CodeTaken(db: Db, code: string)
    ensures ByCode(db, code) != {} <==> HasCode(db, code)
  {
    if HasCode(db, code) {
      var s :| s in db.tickets && db.tickets[s].code == code;
      assert s in ByCode(db, code);
    }
  }

  lemma {:induction false} IdTaken(db: Db, id: string)
    ensures ById(db, id) != {} <==> HasId(db, id)
  {
    if HasId(db, id) {
      var s :| s in db.tickets && db.tickets[s].id == id;
      assert s in ById(db, id);
    }
  }

  // ----- check-in -----

  predicate IsRunning(ev: Event, now: int) {
    ev.open && (ev.startAt.Some? ==> ev.startAt.value <= now) && now <= ev.endAt
  }

  /** The ticket may still be used by its registration, its expiry aside. */
  predicate Admissible(reg: Registration, t: Ticket) {
    t.status == Valid && reg.status !in {CheckedIn, Cancelled, Rejected}
  }

  /** The verdict on a ticket that was found, and everything that a scan of it writes. */
  lemma {:induction false} ScanReplies(db: Db, sign: string -> string, ev: Event, now: int, q: ScanRequest, r: RegId)
    requires r in db.regs && r in db.tickets && FindTarget(db, sign, ev, now, q) == Lookup(Found(r))
    ensures var (db', reply) := Scan(db, sign, ev, now, q); var reg, t := db.regs[r], db.tickets[r];
      var here := reg.event == ev.id;
      && reply.Scanned? && reply.ticket == Some(r) && reply.result != InvalidFormat
      && (reply.result == EventUnavailable <==> here && !IsRunning(ev, now))
      && (reply.result == AlreadyCheckedIn <==> here && IsRunning(ev, now) && (t.status == Used || reg.status == CheckedIn))
      && (reply.result == Success <==> here && IsRunning(ev, now) && Admissible(reg, t) && now < t.expiresAt)
      && db'.regs == (if reply.result == Success then db.regs[r := reg.(status := CheckedIn)] else db.regs)
      && db'.tickets == (if reply.result == Success then db.tickets[r := t.(status := Used, usedAt := Some(now))]
                         else if here && IsRunning(ev, now) && Admissible(reg, t) then db.tickets[r := t.(status := Expired)]
                         else db.tickets)
      && db'.logs == db.logs + [Log(ev.id, Some(r), reply.result, now)]
  {
    hide FindTarget;
  }

  /** A scan that finds no ticket is refused and logged as such; one that finds several fails. */
  lemma {:induction false} ScanOfNothing(db: Db, sign: string -> string, ev: Event, now: int, q: ScanRequest)
    requires forall r :: FindTarget(db, sign, ev, now, q) != Lookup(Found(r))
    ensures var (db', reply) := Scan(db, sign, ev, now, q);
      && db'.regs == db.regs && db'.tickets == db.tickets
      && (reply == ScanCrashed <==> FindTarget(db, sign, ev, now, q) == Lookup(Several))
      && (reply != ScanCrashed ==>
            && reply == Scanned(if q.payload != "" && (q.signature == "" || q.signature != sign(q.payload)) then InvalidFormat
                                else InvalidTicket, None)
            && db'.logs == db.logs + [Log(ev.id, None, reply.result, now)])
      && (reply == ScanCrashed ==> db'.logs == db.logs)
  {
    hide ById, ByCode, ByUsers, QrToken.Resolve;
    assert FindTarget(db, sign, ev, now, q).BadFormat? || FindTarget(db, sign, ev, now, q).Lookup?;
  }

  /** Which ticket a scan by code or by address finds, and that a payload needs its signature. */
  lemma {:induction false} ScanFinds(db: Db, sign: string -> string, ev: Event, now: int, q: ScanRequest, r: RegId)
    requires Coherent(db, sign)
    ensures var found := FindTarget(db, sign, ev, now, q) == Lookup(Found(r));
      && (q.payload != "" && (q.signature == "" || q.signature != sign(q.payload)) ==> !found)
      && (q.payload == "" && q.code != "" ==> (found <==> r in db.tickets && db.tickets[r].code == Strip(q.code)))
      && (q.payload == "" && q.code == "" && q.email != "" ==>
            (found <==> ByAddress(db, ev, q.emailUsers, r) && forall s :: ByAddress(db, ev, q.emailUsers, s) ==> s == r))
      && (q.payload == "" && q.code == "" && q.email == "" ==> !found)
  {
    hide ByCode, ById, ByUsers, QrToken.Resolve, Coherent;
    if q.payload == "" && q.code != "" {
      CodeFinds(db, sign, Strip(q.code), r);
    }
    AddressFinds(db, ev, q.emailUsers, r);
  }

  lemma {:induction false} CodeFinds(db: Db, sign: string -> string, code: string, r: RegId)
    requires Coherent(db, sign)
    ensures Get(ByCode(db, code)) == Found(r) <==> r in db.tickets && db.tickets[r].code == code
    ensures Get(ByCode(db, code)) == Found(r) ==> code != ""
  {
    hide RowCoherent, OneRowEach;
    var found := ByCode(db, code);
    assert r in found <==> r in db.tickets && db.tickets[r].code == code;
    if r in found {
      assert QrToken.GeneratedCode(db.tickets[r].code);
      GetIsUnique(found, r);
    }
  }

  lemma {:induction false} AddressFinds(db: Db, ev: Event, users: set<nat>, r: RegId)
    ensures Get(ByUsers(db, ev.id, users)) == Found(r)
            <==> ByAddress(db, ev, users, r) && forall s :: ByAddress(db, ev, users, s) ==> s == r
  {
    var found := ByUsers(db, ev.id, users);
    assert forall s :: s in found <==> ByAddress(db, ev, users, s);
    if ByAddress(db, ev, users, r) && forall s :: ByAddress(db, ev, users, s) ==> s == r {
      GetIsUnique(found, r);
    }
  }

  predicate Signed(sign: string -> string, q: ScanRequest) {
    q.payload != "" && q.signature != "" && q.signature == sign(q.payload)
  }

  /** Which ticket a signed payload finds: a ticket code, with or without the prefix, its own ticket, and a
      token the ticket it names, as long as the token's last second has not come. */
  lemma {:induction false} PayloadFinds(db: Db, sign: string -> string, ev: Event, now: int, q: ScanRequest, r: RegId,
                                        code: string, token: QrToken.Record)
    requires Coherent(db, sign) && Signed(sign, q)
    ensures var found := FindTarget(db, sign, ev, now, q) == Lookup(Found(r));
      && (QrToken.GeneratedCode(code) && (q.payload == "TICKET:" + code || q.payload == code) ==>
            (found <==> r in db.tickets && db.tickets[r].code == code))
      && (q.payload == "TICKET:" + QrToken.EncodeToken(token) ==>
            (found <==> r in db.tickets && db.tickets[r].id == token.ticketId && QrToken.Seconds(now) < token.exp))
  {
    hide ByCode, ById, QrToken.DecodeToken, QrToken.EncodeToken, Coherent;
    CodeFinds(db, sign, code, r);
    IdFinds(db, sign, token.ticketId, r);
    if QrToken.GeneratedCode(code) {
      QrToken.CodeIsNoToken(code);
      assert code[0] == "TK-"[0] && code[1] == "TK-"[1];
      assert "TICKET:"[1] == 'I';
      assert ("TICKET:" + code)[7..] == code;
    }
    TokenResolves(token, now);
  }

  lemma {:induction false} TokenResolves(token: QrToken.Record, now: int)
    ensures QrToken.Resolve("TICKET:" + QrToken.EncodeToken(token), now)
            == if QrToken.Seconds(now) < token.exp then QrToken.ById(token.ticketId) else QrToken.Refused
  {
    hide QrToken.DecodeToken, QrToken.EncodeToken;
    QrToken.TokenRoundTrip(token);
    assert ("TICKET:" + QrToken.EncodeToken(token))[7..] == QrToken.EncodeToken(token);
    assert "exp" in QrToken.DecodeToken(QrToken.EncodeToken(token)).value;
  }

  lemma {:induction false} IdFinds(db: Db, sign: string -> string, id: string, r: RegId)
    requires Coherent(db, sign)
    ensures Get(ById(db, id)) == Found(r) <==> r in db.tickets && db.tickets[r].id == id
  {
    hide RowCoherent, OneRowEach;
    var found := ById(db, id);
    assert r in found <==> r in db.tickets && db.tickets[r].id == id;
    if r in found {
      GetIsUnique(found, r);
    }
  }

  predicate ByAddress(db: Db, ev: Event, users: set<nat>, r: RegId) {
    r in db.tickets && r in db.regs && db.regs[r].event == ev.id && db.regs[r].user in users
  }

  // ----- cancelling, restoring, issuing -----

  /** A cancellation is refused exactly for rows already cancelled, rejected or checked in; it keeps the
      reason unless that is blank, and takes the ticket's validity with it. */
  lemma {:induction false} CancelReply(db: Db, r: RegId, now: int, reason: Option<string>)
    ensures var (db', reply) := Cancel(db, r, now, reason);
      && (reply == Crashed <==> r !in db.regs)
      && (reply == NotAllowed <==> r in db.regs && db.regs[r].status in {Cancelled, Rejected, CheckedIn})
      && (reply == Done(r) || reply == Crashed || reply == NotAllowed)
      && (!reply.Done? ==> db' == db)
      && (reply.Done? ==>
            && r in db'.regs && db'.regs[r].status == Cancelled && db'.regs[r].cancelledAt == Some(now)
            && (reason.Some? && reason.value != "" ==> db'.regs[r].cancelReason == reason)
            && (reason == None || reason == Some("") ==> db'.regs[r].cancelReason == None)
            && db'.regs == db.regs[r := db.regs[r].(status := Cancelled, cancelledAt := Some(now),
                                                    cancelReason := db'.regs[r].cancelReason)]
            && db'.tickets == (if r in db.tickets then db.tickets[r := db.tickets[r].(status := Void)] else db.tickets)
            && db'.logs == db.logs)
  {
  }

  /** An administrator's restore: when it is refused, and what it writes. */
  lemma {:induction false} RestoreReply(db: Db, r: RegId, ev: Event, now: int)
    ensures var (db', reply) := AdminRestore(db, r, ev, now);
      && (reply == Crashed <==> r !in db.regs || r !in db.tickets || db.regs[r].event != ev.id)
      && (reply == Done(r) <==> reply != Crashed && RestorableNow(db.regs[r], db.tickets[r], ev, now) && !NoSeat(db, ev))
      && reply in {Crashed, NotAllowed, Done(r)}
      && (reply != Done(r) ==> db' == db)
      && (reply == Done(r) ==>
            && db'.regs == db.regs[r := db.regs[r].(status := Registered, cancelledAt := None, cancelReason := None)]
            && db'.tickets == db.tickets[r := db.tickets[r].(status := Valid)] && db'.logs == db.logs)
  {
    SameRows(db, ev, 0);
  }

  predicate RestorableNow(reg: Registration, t: Ticket, ev: Event, now: int) {
    t.status == Void && t.usedAt == None && now < t.expiresAt && reg.status == Cancelled && ev.open && now < ev.endAt
  }

  /** Issuing a ticket separately, on any tables. */
  lemma {:induction false} CreateTicketReply(db: Db, sign: string -> string, r: RegId, endAt: int, rnd: Randomness)
    ensures var (db', reply) := CreateTicket(db, sign, r, endAt, rnd);
      && (reply == Conflict <==> r in db.regs && r in db.tickets)
      && (reply == NotAllowed <==> r in db.regs && r !in db.tickets && db.regs[r].status != Registered)
      && (reply == Done(r) <==> r in db.regs && r !in db.tickets && db.regs[r].status == Registered && !CannotIssue(db, rnd))
      && (reply in {Conflict, NotAllowed, Crashed, Done(r)} && db'.regs == db.regs && db'.logs == db.logs)
      && (!reply.Done? ==> db' == db)
      && (reply.Done? ==> IssuesFresh(db, db', sign, r, endAt, rnd))
  {
    hide IssueTicket, CannotIssue, IssuesFresh;
    IssueFailsIff(db, sign, r, endAt, rnd);
    if r !in db.tickets && IssueTicket(db, sign, r, endAt, rnd).Some? {
      RestoreIsIssue(db, sign, r, endAt, rnd);
      RestoreWrites(db, sign, r, endAt, rnd);
    }
  }

  lemma {:induction false} RestoreIsIssue(db: Db, sign: string -> string, r: RegId, endAt: int, rnd: Randomness)
    requires r !in db.tickets
    ensures RestoreTicket(db, sign, r, endAt, rnd) == IssueTicket(db, sign, r, endAt, rnd)
  {
  }

  /** A QR code is issued for exactly the VALID tickets, and decodes to that ticket, the seconds of now and
      of fifteen seconds later, and the nonce. */
  lemma {:induction false} QrReply(db: Db, r: RegId, nonce: string, now: int)
    ensures var payload := IssueQr(db, r, nonce, now);
      && (payload.Some? <==> r in db.tickets && db.tickets[r].status == Valid)
      && (payload.Some? && now >= 0 ==>
            && "TICKET:" <= payload.value
            && QrToken.DecodeToken(payload.value[7..])
               == Some(map["exp" := TokenJson.JInt(now / 1_000_000 + 15), "iat" := TokenJson.JInt(now / 1_000_000),
                           "nonce" := TokenJson.JStr(nonce), "ticket_id" := TokenJson.JStr(db.tickets[r].id)]))
  {
    hide QrToken.DecodeToken, QrToken.EncodeToken;
    if IssueQr(db, r, nonce, now).Some? && now >= 0 {
      var token := QrToken.Record(db.tickets[r].id, QrToken.Seconds(now), QrToken.Seconds(now + 15 * 1_000_000), nonce);
      QrToken.TokenRoundTrip(token);
      assert IssueQr(db, r, nonce, now).value == "TICKET:" + QrToken.EncodeToken(token);
      assert ("TICKET:" + QrToken.EncodeToken(token))[7..] == QrToken.EncodeToken(token);
    }
  }

  // ----- a seat given back -----

  /** A registered attendee who cancels and registers again while the event takes registrations gets back the
      same row and the same ticket, code and id. */
  lemma {:induction false} CancelThenRegister(db: Db, sign: string -> string, ev: Event, r: RegId, now: int,
                                              reason: Option<string>, later: int, answers: string, rnd: Randomness)
    requires Coherent(db, sign) && r in db.regs && r in db.tickets && db.regs[r].event == ev.id && db.regs[r].status == Registered
    requires !Closed(ev, later) && (ev.maxCapacity.Some? && ev.maxCapacity.value > 0 ==> |Seated(db, ev)| <= ev.maxCapacity.value)
    ensures var db1 := Cancel(db, r, now, reason).0; var (db2, reply) := Register(db1, sign, ev, db.regs[r].user, later, answers, rnd);
      && reply == Done(r)
      && db2.regs == db.regs[r := Registration(ev.id, db.regs[r].user, Registered, answers, later, None, None)]
      && db2.tickets == db.tickets[r := db.tickets[r].(status := Valid, usedAt := None, expiresAt := ev.endAt)]
  {
    hide Coherent, Register, Cancel, Clash;
    var user := db.regs[r].user;
    CancelKeepsCoherent(db, sign, r, now, reason);
    CancelReply(db, r, now, reason);
    var db1 := Cancel(db, r, now, reason).0;
    assert Seated(db1, ev) == Seated(db, ev) - {r};
    OwnRow(db1, sign, ev, user);
    OwnMeans(db1, ev, user);
    assert Own(db1, ev, user) == {r};
    RegisterNotRefused(db1, sign, ev, user, later, r, rnd);
    RegisterReply(db1, sign, ev, user, later, answers, rnd);
    RegisterWrites(db1, sign, ev, user, later, answers, rnd);
  }

  lemma {:induction false} RegisterNotRefused(db: Db, sign: string -> string, ev: Event, user: nat, now: int, r: RegId,
                                              rnd: Randomness)
    requires Own(db, ev, user) == {r} && r in db.tickets && db.regs[r].status == Cancelled
    ensures !Clash(db, ev, user, rnd)
    ensures !exists s :: s in db.regs && db.regs[s].event == ev.id && db.regs[s].user == user && Bars(db.regs[s].status)
  {
    OwnMeans(db, ev, user);
    assert forall s :: s in Own(db, ev, user) <==> s == r;
  }
}
