/** The service of apps/registrations/services.py as code that updates its tables in place. Each
    method is one transaction: an exception puts the tables back. Its contract is the matching
    operation of `Registrations`. */
module RegistrationService {
  import opened Text
  import opened Registrations
  import QrToken

  class Service {
    const sign: string -> string
    var regs: map<RegId, Registration>
    var tickets: map<RegId, Ticket>
    var logs: seq<Log>

    constructor (sign: string -> string)
      ensures Tables() == EMPTY && this.sign == sign && Coherent(Tables(), sign)
    {
      this.sign := sign;
      regs, tickets, logs := map[], map[], [];
    }

    function Tables(): Db
      reads this
    {
      Db(regs, tickets, logs)
    }

    /** Some ticket has this code. */
    predicate Taken(code: string)
      reads this
    {
      exists r | r in tickets :: tickets[r].code == code
    }

    /** Draws codes until one is free. The program draws for ever; here the draws may run out. */
    method GenerateTicketCode(draws: seq<HexDraw>) returns (code: Option<string>)
      ensures code == GenerateCode(Tables(), draws)
      ensures code.Some? ==> (exists i :: 0 <= i < |draws| && code.value == "TK-" + draws[i]
                                         && forall j | 0 <= j < i :: Taken("TK-" + draws[j]))
                             && !Taken(code.value)
      ensures code.None? ==> forall j | 0 <= j < |draws| :: Taken("TK-" + draws[j])
    {
      var i := 0;
      while i < |draws|
        invariant 0 <= i <= |draws|
        invariant GenerateCode(Tables(), draws) == GenerateCode(Tables(), draws[i..])
        invariant forall j | 0 <= j < i :: Taken("TK-" + draws[j])
      {
        var candidate := "TK-" + draws[i];
        assert draws[i..][1..] == draws[i + 1..];
        if ByCode(Tables(), candidate) == {} {
          assert forall r | r in tickets :: r !in ByCode(Tables(), candidate);
          return Some(candidate);
        }
        assert Taken(candidate);
        i := i + 1;
      }
      code := None;
    }

    method IssueDefaultTicket(r: RegId, endAt: int, rnd: Randomness) returns (ok: bool)
      modifies this`tickets
      ensures match IssueTicket(old(Tables()), sign, r, endAt, rnd)
              case Some(db) => ok && Tables() == db
              case None => !ok && Tables() == old(Tables())
    {
      var code := GenerateTicketCode(rnd.draws);
      if code.None? || ById(Tables(), rnd.ticketId) != {} {
        return false;
      }
      var payload := QrToken.BuildPayload(code.value);
      tickets := tickets[r := Ticket(rnd.ticketId, code.value, payload, sign(payload), Valid, None, endAt)];
      ok := true;
    }

    method RestoreTicketForRegistration(r: RegId, endAt: int, rnd: Randomness) returns (ok: bool)
      modifies this`tickets
      ensures match RestoreTicket(old(Tables()), sign, r, endAt, rnd)
              case Some(db) => ok && Tables() == db
              case None => !ok && Tables() == old(Tables())
    {
      if r !in tickets {
        ok := IssueDefaultTicket(r, endAt, rnd);
        return;
      }
      var ticket := tickets[r];
      ticket := ticket.(status := Valid);
      ticket := ticket.(usedAt := None);
      ticket := ticket.(expiresAt := endAt);
      tickets := tickets[r := ticket];
      ok := true;
    }

    method CreateTicketForRegistration(r: RegId, endAt: int, rnd: Randomness) returns (reply: Reply)
      modifies this`tickets
      ensures (Tables(), reply) == CreateTicket(old(Tables()), sign, r, endAt, rnd)
      ensures old(Coherent(Tables(), sign)) ==> Coherent(Tables(), sign)
    {
      if Coherent(Tables(), sign) {
        StepKeepsCoherent(Tables(), sign, DoCreateTicket(r, endAt, rnd));
      }
      if r !in regs { return Crashed; }
      if r in tickets { return Conflict; }
      if regs[r].status != Registered { return NotAllowed; }
      var ok := IssueDefaultTicket(r, endAt, rnd);
      reply := if ok then Done(r) else Crashed;
    }

    method CreateEventRegistration(ev: Event, user: nat, now: int, answers: string,
                                   rnd: Randomness) returns (reply: Reply)
      modifies this`regs, this`tickets
      ensures (Tables(), reply) == Register(old(Tables()), sign, ev, user, now, answers, rnd)
      ensures old(Coherent(Tables(), sign)) ==> Coherent(Tables(), sign)
    {
      if Coherent(Tables(), sign) {
        RegisterKeepsCoherent(Tables(), sign, ev, user, now, answers, rnd);
      }
      if !WindowOpen(ev, now) { return NotAllowed; }
      var existing := Get(RowsOf(Tables(), ev.id, user));
      if existing.Several? { return Crashed; }
      if existing.Found? && !ReRegisterable(regs[existing.id].status) { return Conflict; }
      var activeCount := |ActiveRows(Tables(), ev.id)|;
      var next := NextStatus(ev, activeCount);
      var savedRegs := regs;
      var r;
      if existing.Found? {
        r := existing.id;
        var registration := regs[r];
        registration := registration.(status := next);
        registration := registration.(answers := answers);
        registration := registration.(cancelledAt := None);
        registration := registration.(cancelReason := None);
        registration := registration.(registeredAt := now);
        regs := regs[r := registration];
      } else {
        if rnd.regId in regs { return Crashed; }
        r := rnd.regId;
        regs := regs[r := Registration(ev.id, user, next, answers, now, None, None)];
      }
      if regs[r].status == Registered {
        var ok := RestoreTicketForRegistration(r, ev.endAt, rnd);
        if !ok {
          regs := savedRegs;
          return Crashed;
        }
      }
      reply := Done(r);
    }

    method CancelEventRegistration(r: RegId, now: int, reason: Option<string>) returns (reply: Reply)
      modifies this`regs, this`tickets
      ensures (Tables(), reply) == Cancel(old(Tables()), r, now, reason)
      ensures old(Coherent(Tables(), sign)) ==> Coherent(Tables(), sign)
    {
      if Coherent(Tables(), sign) {
        CancelKeepsCoherent(Tables(), sign, r, now, reason);
      }
      if r !in regs { return Crashed; }
      var registration := regs[r];
      if registration.status in {Cancelled, Rejected} { return NotAllowed; }
      if registration.status == CheckedIn { return NotAllowed; }
      registration := registration.(status := Cancelled);
      registration := registration.(cancelledAt := Some(now));
      registration := registration.(cancelReason := if reason == Some("") then None else reason);
      regs := regs[r := registration];
      if r in tickets && tickets[r].status != Void {
        tickets := tickets[r := tickets[r].(status := Void)];
      }
      assert r in tickets ==> tickets == old(tickets)[r := old(tickets)[r].(status := Void)];
      reply := Done(r);
    }

    method IssueRegistrationQr(r: RegId, nonce: string, now: int) returns (payload: Option<string>, signature: string)
      ensures payload == IssueQr(Tables(), r, nonce, now)
      ensures payload.Some? ==> signature == sign(payload.value)
    {
      signature := "";
      if r !in tickets {
        return None, signature;
      }
      if tickets[r].status != Valid {
        return None, signature;
      }
      payload := Some(QrToken.IssuePayload(tickets[r].id, nonce, now));
      signature := sign(payload.value);
    }

    method ProcessCheckinScan(ev: Event, now: int, q: ScanRequest) returns (reply: ScanReply)
      modifies this
      ensures (Tables(), reply) == Scan(old(Tables()), sign, ev, now, q)
      ensures old(Coherent(Tables(), sign)) ==> Coherent(Tables(), sign)
    {
      if Coherent(Tables(), sign) {
        ScanKeepsCoherent(Tables(), sign, ev, now, q);
      }
      var target := FindTarget(Tables(), sign, ev, now, q);
      var ticket: Option<RegId> := None;
      var result;
      if target.BadFormat? {
        result := InvalidFormat;
      } else if target.got.Several? {
        return ScanCrashed;
      } else if target.got.Missing? {
        result := InvalidTicket;
      } else {
        var r := target.got.id;
        if r !in regs || r !in tickets { return ScanCrashed; }
        ticket := Some(r);
        result := JudgeAndMark(ev, now, r);
      }
      logs := logs + [Log(ev.id, ticket, result, now)];
      reply := Scanned(result, ticket);
    }

    /** The chain of checks on a ticket that was found, with the writes made on the way. */
    method JudgeAndMark(ev: Event, now: int, r: RegId) returns (result: ScanResult)
      requires r in regs && r in tickets
      modifies this`regs, this`tickets
      ensures Tables() == Admission(old(Tables()), ev, now, r)
      ensures result == Judge(ev, now, old(regs[r]), old(tickets[r]))
    {
      var registration, ticket := regs[r], tickets[r];
      if registration.event != ev.id {
        result := InvalidTicket;
      } else if !ev.open || (ev.startAt.Some? && ev.startAt.value > now) || ev.endAt < now {
        result := EventUnavailable;
      } else if ticket.status == Used || registration.status == CheckedIn {
        result := AlreadyCheckedIn;
      } else if ticket.status in {Void, Expired} {
        result := InvalidTicket;
      } else if registration.status in {Cancelled, Rejected} {
        result := InvalidTicket;
      } else if ticket.expiresAt <= now {
        if ticket.status == Valid {
          tickets := tickets[r := ticket.(status := Expired)];
        }
        result := InvalidTicket;
      } else {
        ticket := ticket.(status := Used);
        ticket := ticket.(usedAt := Some(now));
        tickets := tickets[r := ticket];
        if registration.status != CheckedIn {
          regs := regs[r := registration.(status := CheckedIn)];
        }
        result := Success;
      }
    }
  }
}
