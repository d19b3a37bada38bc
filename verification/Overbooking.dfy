/** How direct ticket edits (apps/registrations/views.py, lines 568-576) give an event more attendees than its
    limit: when exactly, and reached from empty tables. An edit enters here with its save, which writes back
    a copy of the ticket that may have been read long before. */
module Overbooking {
  import opened Text
  import opened Registrations
  import opened Capacity
  import QrToken

  // ----- a direct edit, then a scan -----

  predicate Running(ev: Event, now: int) {
    ev.open && (ev.startAt.Some? ==> ev.startAt.value <= now) && now <= ev.endAt
  }

  /** The limit is positive and reached. */
  predicate Full(db: Db, ev: Event) {
    Limit(ev) > 0 && |ActiveRows(db, ev.id)| == Limit(ev)
  }

  function ByCodeOnly(code: string): ScanRequest {
    ScanRequest("", "", code, "", {})
  }

  lemma {:induction false} CodesHaveNoSpace(code: string)
    requires QrToken.GeneratedCode(code)
    ensures Strip(code) == code && code != ""
  {
    assert code[0] == "TK-"[0] && QrToken.UpperHex(code[12]);
  }

  /** The ticket code finds its ticket, whatever has been edited. */
  lemma {:induction false} CodeFindsTicket(db: Db, sign: string -> string, ev: Event, now: int, r: RegId)
    requires TicketsGenuine(db, sign) && r in db.tickets
    ensures FindTarget(db, sign, ev, now, ByCodeOnly(db.tickets[r].code)) == Lookup(Found(r))
  {
    var code := db.tickets[r].code;
    CodesHaveNoSpace(code);
    GetIsUnique(ByCode(db, code), r);
  }

  /** A scan adds an active row exactly when it admits a row that was not active. */
  lemma {:induction false} ScanCounts(db: Db, sign: string -> string, ev: Event, now: int, r: RegId)
    requires TicketsGenuine(db, sign) && r in db.tickets && r in db.regs && db.regs[r].event == ev.id
    ensures var db' := Scan(db, sign, ev, now, ByCodeOnly(db.tickets[r].code)).0;
      |ActiveRows(db', ev.id)| == |ActiveRows(db, ev.id)|
        + if Judge(ev, now, db.regs[r], db.tickets[r]) == Success && !Active(db.regs[r].status) then 1 else 0
  {
    hide FindTarget, TicketsGenuine, Judge, ActiveRows, Scan, Admission;
    var q := ByCodeOnly(db.tickets[r].code);
    CodeFindsTicket(db, sign, ev, now, r);
    ScanOfFound(db, sign, ev, now, q, r);
    var db' := Scan(db, sign, ev, now, q).0;
    AdmissionRegs(db, ev, now, r);
    if Judge(ev, now, db.regs[r], db.tickets[r]) == Success {
      RowCounts(db, db', r, db.regs[r].(status := CheckedIn));
    } else {
      ActiveSame(db, db', ev.id);
    }
  }

  lemma {:induction false} AdmissionRegs(db: Db, ev: Event, now: int, r: RegId)
    requires r in db.regs && r in db.tickets
    ensures Admission(db, ev, now, r).regs
            == if Judge(ev, now, db.regs[r], db.tickets[r]) == Success then db.regs[r := db.regs[r].(status := CheckedIn)]
               else db.regs
  {
    hide Judge;
  }

  lemma {:induction false} ActiveSame(db: Db, db': Db, event: nat)
    requires db'.regs == db.regs
    ensures ActiveRows(db', event) == ActiveRows(db, event)
  {
  }

  lemma {:induction false} EditKeepsRest(db: Db, sign: string -> string, r: RegId, status: TicketStatus,
                                         usedAt: Option<int>, until: int)
    requires Coherent(db, sign) && r in db.tickets
    ensures var db' := Patch(db, r, status, usedAt, until);
      && TicketsGenuine(db', sign) && OneRowEach(db') && db'.regs == db.regs && r in db'.tickets
      && db'.tickets[r] == db.tickets[r].(status := status, usedAt := usedAt, expiresAt := until)
  {
    hide RowCoherent;
  }

  lemma {:induction false} TwoSteps(db: Db, sign: string -> string, a: Op, b: Op)
    ensures Run(db, sign, [a, b]) == Step(Step(db, sign, a), sign, b)
  {
    hide Step;
    assert [a, b][..1] == [a] && [a][..0] == [];
    assert Run(db, sign, [a]) == Step(db, sign, a);
  }

  /** At a full, running event: the save of a direct edit followed by a scan of that ticket goes past the
      limit if and only if the registration is waitlisted at the save and the save makes its ticket VALID
      beyond now. */
  lemma {:induction false} EditThenScanExceedsIff(db: Db, sign: string -> string, ev: Event, r: RegId,
                                                  status: TicketStatus, usedAt: Option<int>, until: int, now: int)
    requires Coherent(db, sign) && r in db.tickets && r in db.regs && db.regs[r].event == ev.id
    requires Running(ev, now) && Full(db, ev)
    ensures var db' := Run(db, sign, [DoPatch(r, status, usedAt, until), DoScan(ev, now, ByCodeOnly(db.tickets[r].code))]);
      |ActiveRows(db', ev.id)| > Limit(ev)
      <==> db.regs[r].status == Waitlisted && status == Valid && now < until
  {
    hide Coherent, TicketsGenuine, ActiveRows, Scan, Patch, RowCoherent;
    var scan := DoScan(ev, now, ByCodeOnly(db.tickets[r].code));
    TwoSteps(db, sign, DoPatch(r, status, usedAt, until), scan);
    EditKeepsRest(db, sign, r, status, usedAt, until);
    var db1 := Patch(db, r, status, usedAt, until);
    ActiveSame(db, db1, ev.id);
    ScanCounts(db1, sign, ev, now, r);
    StatusesInRuns(db, sign, r);
  }

  lemma {:induction false} StatusesInRuns(db: Db, sign: string -> string, r: RegId)
    requires Coherent(db, sign) && r in db.regs
    ensures db.regs[r].status in {Registered, CheckedIn, Waitlisted, Cancelled}
  {
    hide TicketsGenuine, OneRowEach;
    assert RowCoherent(db, r);
  }

  // ----- a direct edit, then the owner's registration, then a scan -----

  /** At a full event another registration of the row's owner makes a cancelled row waitlisted and is
      refused otherwise; no ticket changes. */
  lemma {:induction false} RegisterAgain(db: Db, sign: string -> string, ev: Event, r: RegId, now: int, answers: string,
                                         rnd: Randomness)
    requires OneRowEach(db) && r in db.regs && db.regs[r].event == ev.id && WindowOpen(ev, now)
    requires |ActiveRows(db, ev.id)| >= Limit(ev) > 0
    ensures var user := db.regs[r].user; var db' := Register(db, sign, ev, user, now, answers, rnd).0;
      && db'.tickets == db.tickets
      && db'.regs == if !ReRegisterable(db.regs[r].status) then db.regs
                     else db.regs[r := Registration(ev.id, user, Waitlisted, answers, now, None, None)]
  {
    hide ActiveRows, WindowOpen;
    GetIsUnique(RowsOf(db, ev.id, db.regs[r].user), r);
  }

  lemma {:induction false} ThreeSteps(db: Db, sign: string -> string, a: Op, b: Op, c: Op)
    ensures Run(db, sign, [a, b, c]) == Step(Step(Step(db, sign, a), sign, b), sign, c)
  {
    hide Step;
    TwoSteps(db, sign, a, b);
    assert [a, b, c][..2] == [a, b];
  }

  /** The guard, exactly. At a full, running event that still takes registrations: the save of an edit, the
      owner's registration and a scan go past the limit if and only if the save makes VALID, beyond now, the
      ticket of a registration that is not active by then. */
  lemma {:induction false} EditExceedsIff(db: Db, sign: string -> string, ev: Event, r: RegId, status: TicketStatus,
                                          usedAt: Option<int>, until: int, now: int, answers: string, rnd: Randomness)
    requires Coherent(db, sign) && r in db.tickets && r in db.regs && db.regs[r].event == ev.id
    requires Running(ev, now) && WindowOpen(ev, now) && Full(db, ev)
    ensures var db' := Run(db, sign, [DoPatch(r, status, usedAt, until), DoRegister(ev, db.regs[r].user, now, answers, rnd),
                                      DoScan(ev, now, ByCodeOnly(db.tickets[r].code))]);
      |ActiveRows(db', ev.id)| > Limit(ev)
      <==> !Active(db.regs[r].status) && status == Valid && now < until
  {
    hide Coherent, TicketsGenuine, OneRowEach, ActiveRows, Scan, Patch, Register, WindowOpen;
    var register := DoRegister(ev, db.regs[r].user, now, answers, rnd);
    ThreeSteps(db, sign, DoPatch(r, status, usedAt, until), register, DoScan(ev, now, ByCodeOnly(db.tickets[r].code)));
    EditKeepsRest(db, sign, r, status, usedAt, until);
    var db1 := Patch(db, r, status, usedAt, until);
    ActiveSame(db, db1, ev.id);
    RegisterAgain(db1, sign, ev, r, now, answers, rnd);
    var db2 := Register(db1, sign, ev, db.regs[r].user, now, answers, rnd).0;
    SameTicketsGenuine(db1, db2, sign);
    WaitlistedAdds(db1, db2, r, ev.id);
    ScanCounts(db2, sign, ev, now, r);
    StatusesInRuns(db, sign, r);
  }

  lemma {:induction false} WaitlistedAdds(db: Db, db': Db, r: RegId, event: nat)
    requires r in db.regs && r in db'.regs && db'.regs == db.regs[r := db'.regs[r]]
    requires Active(db'.regs[r].status) == Active(db.regs[r].status) && db'.regs[r].event == db.regs[r].event
    ensures ActiveRows(db', event) == ActiveRows(db, event)
  {
  }

  // ----- reached from empty tables -----

  const FIRST: nat := 10
  const SECOND: nat := 20
  const ONE_SEAT := Event(7, true, None, 1000, None, None, Some(1))
  const DRAW0: HexDraw := "0000000000"
  const DRAW1: HexDraw := "0000000001"
  const RANDOM0 := Randomness(0, "ticket-0", [DRAW0])
  const RANDOM1 := Randomness(1, "ticket-1", [DRAW1])
  const FIRST_IN := DoRegister(ONE_SEAT, FIRST, 1, "", RANDOM0)
  const FIRST_OUT := DoCancel(0, 2, None)
  const SECOND_IN := DoRegister(ONE_SEAT, SECOND, 3, "", RANDOM1)
  const FIRST_AGAIN := DoRegister(ONE_SEAT, FIRST, 4, "", RANDOM0)

  function TicketOf(sign: string -> string, id: string, draw: HexDraw, status: TicketStatus): Ticket {
    var payload := QrToken.BuildPayload("TK-" + draw);
    Ticket(id, "TK-" + draw, payload, sign(payload), status, None, 1000)
  }

  function Row(user: nat, status: RegStatus, at: int, cancelled: Option<int>): Registration {
    Registration(7, user, status, "", at, cancelled, None)
  }

  /** The first user has registered and cancelled. */
  function Left(sign: string -> string): Db {
    Db(map[0 := Row(FIRST, Cancelled, 1, Some(2))], map[0 := TicketOf(sign, "ticket-0", DRAW0, Void)], [])
  }

  lemma {:induction false} NoRows(db: Db, event: nat)
    requires forall r | r in db.regs :: db.regs[r].event != event || !Active(db.regs[r].status)
    ensures ActiveRows(db, event) == {}
  {
  }

  lemma {:induction false} FirstLeaves(sign: string -> string)
    ensures Step(Step(EMPTY, sign, FIRST_IN), sign, FIRST_OUT) == Left(sign)
  {
    assert RowsOf(EMPTY, 7, FIRST) == {};
    NoRows(EMPTY, 7);
    assert ByCode(EMPTY, "TK-" + DRAW0) == {} && ById(EMPTY, "ticket-0") == {};
    var db1 := Step(EMPTY, sign, FIRST_IN);
    assert db1 == Db(map[0 := Row(FIRST, Registered, 1, None)], map[0 := TicketOf(sign, "ticket-0", DRAW0, Valid)], []);
  }

  /** The second user takes the seat in the meantime. */
  function Taken(sign: string -> string): Db {
    Db(map[0 := Row(FIRST, Cancelled, 1, Some(2)), 1 := Row(SECOND, Registered, 3, None)],
       map[0 := TicketOf(sign, "ticket-0", DRAW0, Void), 1 := TicketOf(sign, "ticket-1", DRAW1, Valid)], [])
  }

  lemma {:induction false} SecondEnters(sign: string -> string)
    ensures Step(Left(sign), sign, SECOND_IN) == Taken(sign)
  {
    var db := Left(sign);
    assert RowsOf(db, 7, SECOND) == {};
    NoRows(db, 7);
    assert DRAW0[9] != DRAW1[9];
    assert ("TK-" + DRAW0)[12] != ("TK-" + DRAW1)[12];
    assert ByCode(db, "TK-" + DRAW1) == {};
    assert "ticket-0"[7] != "ticket-1"[7];
    assert ById(db, "ticket-1") == {};
  }

  /** The first user comes back and is waitlisted, with the cancelled ticket. */
  lemma {:induction false} FirstWaits(sign: string -> string)
    ensures var db := Step(Taken(sign), sign, FIRST_AGAIN);
      && db == Taken(sign).(regs := Taken(sign).regs[0 := Row(FIRST, Waitlisted, 4, None)])
      && ActiveRows(db, 7) == {1}
  {
    var db := Taken(sign);
    assert ActiveRows(db, 7) == {1};
    RegisterAgain(db, sign, ONE_SEAT, 0, 4, "", RANDOM0);
  }

  lemma {:induction false} RunAppend(db: Db, sign: string -> string, a: seq<Op>, b: seq<Op>)
    ensures Run(db, sign, a + b) == Run(Run(db, sign, a), sign, b)
    decreases |b|
  {
    hide Step;
    if b == [] {
      assert a + b == a;
    } else {
      RunAppend(db, sign, a, b[..|b| - 1]);
      assert (a + b)[..|a + b| - 1] == a + b[..|b| - 1];
    }
  }

  const UP_TO_WAITING: seq<Op> := [FIRST_IN, FIRST_OUT, SECOND_IN, FIRST_AGAIN]

  lemma {:induction false} RunToWaiting(sign: string -> string)
    ensures Run(EMPTY, sign, UP_TO_WAITING)
            == Step(Taken(sign), sign, FIRST_AGAIN)
  {
    hide Step, Run, Left, Taken;
    RunAppend(EMPTY, sign, [FIRST_IN, FIRST_OUT], [UP_TO_WAITING[2], UP_TO_WAITING[3]]);
    assert [FIRST_IN, FIRST_OUT] + [UP_TO_WAITING[2], UP_TO_WAITING[3]] == UP_TO_WAITING;
    TwoSteps(EMPTY, sign, FIRST_IN, FIRST_OUT);
    TwoSteps(Left(sign), sign, UP_TO_WAITING[2], UP_TO_WAITING[3]);
    FirstLeaves(sign);
    SecondEnters(sign);
  }

  lemma {:induction false} EmptyIsCoherent(sign: string -> string)
    ensures Coherent(EMPTY, sign)
  {
  }

  /** From empty tables: with one edit, a second attendee at an event with one seat. */
  lemma {:induction false} EditOverbooksFromEmpty(sign: string -> string)
    ensures var ops := UP_TO_WAITING + [DoPatch(0, Valid, None, 900), DoScan(ONE_SEAT, 5, ByCodeOnly("TK-" + DRAW0))];
      |ActiveRows(Run(EMPTY, sign, ops), 7)| > Limit(ONE_SEAT) == 1
  {
    hide Step, Coherent, Run, ActiveRows;
    var db := Run(EMPTY, sign, UP_TO_WAITING);
    RunToWaiting(sign);
    FirstWaits(sign);
    EmptyIsCoherent(sign);
    RunKeepsCoherent(EMPTY, sign, UP_TO_WAITING);
    EditThenScanExceedsIff(db, sign, ONE_SEAT, 0, Valid, None, 900, 5);
    RunAppend(EMPTY, sign, UP_TO_WAITING, [DoPatch(0, Valid, None, 900), DoScan(ONE_SEAT, 5, ByCodeOnly("TK-" + DRAW0))]);
  }

  // ----- an edit of the expiry alone -----

  /** While the first user's ticket is still VALID an organizer's edit reads it; the user cancels and the
      second user takes the seat; then the edit saves a new expiry, and with it the status it has read. */
  const STALE_EDIT: seq<Action> :=
    [Atomic(FIRST_IN), ReadTicket(9, 0), Atomic(FIRST_OUT), Atomic(SECOND_IN), SaveTicket(9, None, Some(900))]

  lemma {:induction false} FirstEnters(sign: string -> string)
    ensures var db := Step(EMPTY, sign, FIRST_IN);
      0 in db.tickets && db.tickets[0] == TicketOf(sign, "ticket-0", DRAW0, Valid)
  {
    assert RowsOf(EMPTY, 7, FIRST) == {};
    NoRows(EMPTY, 7);
    assert ByCode(EMPTY, "TK-" + DRAW0) == {} && ById(EMPTY, "ticket-0") == {};
  }

  lemma {:induction false} NextAtomic(s: Sys, sign: string -> string, op: Op)
    ensures Next(s, sign, Atomic(op)) == s.(db := Step(s.db, sign, op))
  {
  }

  lemma {:induction false} NextRead(s: Sys, sign: string -> string, p: Proc, r: RegId)
    requires r in s.db.tickets
    ensures Next(s, sign, ReadTicket(p, r)) == s.(edits := s.edits[p := Copy(r, s.db.tickets[r])])
  {
  }

  lemma {:induction false} NextSave(s: Sys, sign: string -> string, p: Proc, status: Option<TicketStatus>, expiresAt: Option<int>)
    requires p in s.edits
    ensures Next(s, sign, SaveTicket(p, status, expiresAt)).db == Step(s.db, sign, SaveOp(s.edits[p], status, expiresAt))
  {
  }

  /** A save writes the status and expiry asked for and whatever else the edit has read; one that asks for
      nothing, with nothing in between, changes nothing. */
  lemma {:induction false} SaveWrites(s: Sys, sign: string -> string, p: Proc, status: Option<TicketStatus>,
                                      expiresAt: Option<int>, r: RegId)
    ensures p in s.edits && s.edits[p].r in s.db.tickets ==>
              var copy := s.edits[p]; var now := s.db.tickets[copy.r];
              Next(s, sign, SaveTicket(p, status, expiresAt)).db
              == s.db.(tickets := s.db.tickets[copy.r := Ticket(now.id, now.code, now.payload, now.signature,
                                                                if status == None then copy.ticket.status else status.value,
                                                                copy.ticket.usedAt,
                                                                if expiresAt == None then copy.ticket.expiresAt else expiresAt.value)])
    ensures r in s.db.tickets ==> Next(Next(s, sign, ReadTicket(p, r)), sign, SaveTicket(p, None, None)).db == s.db
  {
    if r in s.db.tickets {
      assert s.db.tickets[r := s.db.tickets[r]] == s.db.tickets;
    }
  }

  lemma {:induction false} RunToStaleSave(sign: string -> string)
    ensures RunAll(START, sign, STALE_EDIT).db == Step(Taken(sign), sign, DoPatch(0, Valid, None, 900))
  {
    hide Step, Next, RunAll, Left, Taken;
    var s1 := START.(db := Step(EMPTY, sign, FIRST_IN));
    RunFive(START, sign, Atomic(FIRST_IN), ReadTicket(9, 0), Atomic(FIRST_OUT), Atomic(SECOND_IN), SaveTicket(9, None, Some(900)));
    NextAtomic(START, sign, FIRST_IN);
    FirstEnters(sign);
    NextRead(s1, sign, 9, 0);
    var s2 := Next(s1, sign, ReadTicket(9, 0));
    NextAtomic(s2, sign, FIRST_OUT);
    FirstLeaves(sign);
    NextAtomic(s2.(db := Left(sign)), sign, SECOND_IN);
    SecondEnters(sign);
    NextSave(s2.(db := Taken(sign)), sign, 9, None, Some(900));
  }

  lemma {:induction false} TakenIsCoherent(sign: string -> string)
    ensures Coherent(Taken(sign), sign) && ActiveRows(Taken(sign), 7) == {1}
  {
    hide Coherent, Step, Run, Left, Taken;
    var ops := [FIRST_IN, FIRST_OUT, SECOND_IN];
    ThreeSteps(EMPTY, sign, FIRST_IN, FIRST_OUT, SECOND_IN);
    FirstLeaves(sign);
    SecondEnters(sign);
    EmptyIsCoherent(sign);
    RunKeepsCoherent(EMPTY, sign, ops);
    SecondIsActive(sign);
  }

  lemma {:induction false} SecondIsActive(sign: string -> string)
    ensures ActiveRows(Taken(sign), 7) == {1}
  {
  }

  /** From empty tables: an edit that only extends an expiry revives a cancelled ticket, and its owner, now on
      the waiting list, becomes a second attendee for one seat. */
  lemma {:induction false} StaleEditOverbooksFromEmpty(sign: string -> string)
    ensures var db := RunAll(START, sign, STALE_EDIT).db;
      |ActiveRows(Run(db, sign, [FIRST_AGAIN, DoScan(ONE_SEAT, 4, ByCodeOnly("TK-" + DRAW0))]), 7)| > Limit(ONE_SEAT) == 1
  {
    hide Step, Coherent, Run, RunAll, ActiveRows;
    var scan := DoScan(ONE_SEAT, 4, ByCodeOnly("TK-" + DRAW0));
    var patch := DoPatch(0, Valid, None, 900);
    RunToStaleSave(sign);
    TakenIsCoherent(sign);
    EditExceedsIff(Taken(sign), sign, ONE_SEAT, 0, Valid, None, 900, 4, "", RANDOM0);
    ThreeSteps(Taken(sign), sign, patch, FIRST_AGAIN, scan);
    TwoSteps(Step(Taken(sign), sign, patch), sign, FIRST_AGAIN, scan);
  }
}
