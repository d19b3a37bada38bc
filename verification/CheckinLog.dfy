/** The check-in log against the registrations (apps/registrations/services.py, lines 350-451):
    one success per registration, even when organizers edit tickets directly. */
module CheckinLog {
  import opened Text
  import opened Registrations

  predicate IsCheckedIn(db: Db, r: RegId) {
    r in db.regs && db.regs[r].status == CheckedIn
  }

  function SuccessesOf(logs: seq<Log>, r: RegId): nat {
    if logs == [] then 0
    else SuccessesOf(logs[..|logs| - 1], r)
         + (if logs[|logs| - 1].result == Success && logs[|logs| - 1].ticket == Some(r) then 1 else 0)
  }

  function SuccessesAt(logs: seq<Log>, event: nat): nat {
    if logs == [] then 0
    else SuccessesAt(logs[..|logs| - 1], event)
         + (if logs[|logs| - 1].result == Success && logs[|logs| - 1].event == event then 1 else 0)
  }

  function CheckedInRows(db: Db, event: nat): set<RegId> {
    set r | r in db.regs && db.regs[r].event == event && db.regs[r].status == CheckedIn
  }

  ghost predicate LogMatches(db: Db) {
    && (forall r: RegId :: SuccessesOf(db.logs, r) == if IsCheckedIn(db, r) then 1 else 0)
    && (forall e: nat :: SuccessesAt(db.logs, e) == |CheckedInRows(db, e)|)
  }

  lemma {:induction false} RegisterKeepsCheckedIn(db: Db, sign: string -> string, ev: Event, user: nat, now: int,
                                                  answers: string, rnd: Randomness, r: RegId)
    ensures var db' := Register(db, sign, ev, user, now, answers, rnd).0;
      && db'.logs == db.logs
      && (IsCheckedIn(db', r) <==> IsCheckedIn(db, r))
      && (IsCheckedIn(db, r) ==> db'.regs[r] == db.regs[r])
  {
    hide Admit, ActiveRows, WindowOpen;
    var own := Get(RowsOf(db, ev.id, user));
    if WindowOpen(ev, now) && !own.Several? && (own.Found? ==> ReRegisterable(db.regs[own.id].status)) {
      var existing := if own.Found? then Some(own.id) else None;
      var next := NextStatus(ev, |ActiveRows(db, ev.id)|);
      var a := Admit(db, sign, ev, user, now, answers, existing, next, rnd);
      if a.Some? {
        AdmitWrites(db, sign, ev, user, now, answers, existing, next, rnd);
        AdmitKeepsLogs(db, sign, ev, user, now, answers, existing, next, rnd);
      }
    }
  }

  lemma {:induction false} AdmitKeepsLogs(db: Db, sign: string -> string, ev: Event, user: nat, now: int, answers: string,
                                          existing: Option<RegId>, next: RegStatus, rnd: Randomness)
    requires Admit(db, sign, ev, user, now, answers, existing, next, rnd).Some?
    ensures Admit(db, sign, ev, user, now, answers, existing, next, rnd).value.0.logs == db.logs
  {
    hide GenerateCode, ById;
  }

  /** Only a scan touches the log or makes a row CHECKED_IN, and nothing takes a row back out of it. */
  lemma {:induction false} OtherStepsKeepCheckedIn(db: Db, sign: string -> string, op: Op, r: RegId)
    requires !op.DoScan?
    ensures var db' := Step(db, sign, op);
      && db'.logs == db.logs
      && (IsCheckedIn(db', r) <==> IsCheckedIn(db, r))
      && (IsCheckedIn(db, r) ==> db'.regs[r].event == db.regs[r].event)
  {
    hide Register, ActiveRows, ById, GenerateCode;
    if op.DoRegister? {
      RegisterKeepsCheckedIn(db, sign, op.ev, op.user, op.now, op.answers, op.rnd, r);
    }
  }

  /** A scan checks a row in exactly when its verdict is a success, and then a row of that event
      which was not checked in before. */
  lemma {:induction false} ScanChecksIn(db: Db, sign: string -> string, ev: Event, now: int, q: ScanRequest, r: RegId)
    ensures var s := Scan(db, sign, ev, now, q);
      var hit := s.1.Scanned? && s.1.result == Success && s.1.ticket == Some(r);
      && (hit ==> r in db.regs && db.regs[r].event == ev.id && !IsCheckedIn(db, r))
      && (IsCheckedIn(s.0, r) <==> IsCheckedIn(db, r) || hit)
      && (r in db.regs <==> r in s.0.regs)
      && (r in db.regs ==> s.0.regs[r].event == db.regs[r].event)
      && s.0.logs == db.logs + (if s.1.Scanned? then [Log(ev.id, s.1.ticket, s.1.result, now)] else [])
      && (s.1.Scanned? && s.1.result == Success ==> s.1.ticket.Some?)
  {
    hide FindTarget;
  }

  lemma {:induction false} AppendSuccess(logs: seq<Log>, l: Log, r: RegId, e: nat)
    ensures SuccessesOf(logs + [l], r) == SuccessesOf(logs, r) + if l.result == Success && l.ticket == Some(r) then 1 else 0
    ensures SuccessesAt(logs + [l], e) == SuccessesAt(logs, e) + if l.result == Success && l.event == e then 1 else 0
  {
    assert (logs + [l])[..|logs|] == logs;
  }

  lemma {:induction false} ScanKeepsMatch(db: Db, sign: string -> string, ev: Event, now: int, q: ScanRequest)
    requires LogMatches(db)
    ensures LogMatches(Scan(db, sign, ev, now, q).0)
  {
    hide Scan;
    var s := Scan(db, sign, ev, now, q);
    var db' := s.0;
    ScanChecksIn(db, sign, ev, now, q, 0);
    if s.1.Scanned? {
      var l := Log(ev.id, s.1.ticket, s.1.result, now);
      forall r: RegId ensures SuccessesOf(db'.logs, r) == if IsCheckedIn(db', r) then 1 else 0 {
        ScanChecksIn(db, sign, ev, now, q, r);
        AppendSuccess(db.logs, l, r, 0);
        assert SuccessesOf(db.logs, r) == if IsCheckedIn(db, r) then 1 else 0;
      }
      forall e: nat ensures SuccessesAt(db'.logs, e) == |CheckedInRows(db', e)| {
        AppendSuccess(db.logs, l, 0, e);
        assert SuccessesAt(db.logs, e) == |CheckedInRows(db, e)|;
        ScanAddsRow(db, sign, ev, now, q, e);
      }
    } else {
      forall r: RegId ensures IsCheckedIn(db', r) <==> IsCheckedIn(db, r) {
        ScanChecksIn(db, sign, ev, now, q, r);
      }
      forall e: nat ensures |CheckedInRows(db', e)| == |CheckedInRows(db, e)| {
        ScanAddsRow(db, sign, ev, now, q, e);
      }
      assert db'.logs == db.logs;
    }
  }

  lemma {:induction false} ScanAddsRow(db: Db, sign: string -> string, ev: Event, now: int, q: ScanRequest, e: nat)
    ensures var s := Scan(db, sign, ev, now, q);
      |CheckedInRows(s.0, e)| == |CheckedInRows(db, e)| + if s.1.Scanned? && s.1.result == Success && e == ev.id then 1 else 0
  {
    hide Scan;
    var s := Scan(db, sign, ev, now, q);
    ScanChecksIn(db, sign, ev, now, q, 0);
    forall r: RegId
      ensures r in CheckedInRows(s.0, e) <==>
              r in CheckedInRows(db, e) || (s.1.Scanned? && s.1.result == Success && s.1.ticket == Some(r) && e == ev.id)
    {
      ScanChecksIn(db, sign, ev, now, q, r);
    }
    if s.1.Scanned? && s.1.result == Success && e == ev.id {
      var r := s.1.ticket.value;
      ScanChecksIn(db, sign, ev, now, q, r);
      assert CheckedInRows(s.0, e) == CheckedInRows(db, e) + {r};
    } else {
      assert CheckedInRows(s.0, e) == CheckedInRows(db, e);
    }
  }

  lemma {:induction false} StepKeepsMatch(db: Db, sign: string -> string, op: Op)
    requires LogMatches(db)
    ensures LogMatches(Step(db, sign, op))
  {
    hide Step, Scan, SuccessesAt, SuccessesOf;
    var db' := Step(db, sign, op);
    if op.DoScan? {
      ScanKeepsMatch(db, sign, op.ev, op.now, op.q);
      StepScan(db, sign, op);
    } else {
      forall r: RegId ensures IsCheckedIn(db', r) <==> IsCheckedIn(db, r)
                      ensures IsCheckedIn(db, r) ==> db'.regs[r].event == db.regs[r].event {
        OtherStepsKeepCheckedIn(db, sign, op, r);
      }
      OtherStepsKeepCheckedIn(db, sign, op, 0);
      forall e: nat ensures CheckedInRows(db', e) == CheckedInRows(db, e) {
        assert forall r: RegId :: r in CheckedInRows(db', e) <==> IsCheckedIn(db', r) && db'.regs[r].event == e;
        assert forall r: RegId :: r in CheckedInRows(db, e) <==> IsCheckedIn(db, r) && db.regs[r].event == e;
      }
    }
  }

  lemma {:induction false} StepScan(db: Db, sign: string -> string, op: Op)
    requires op.DoScan?
    ensures Step(db, sign, op) == Scan(db, sign, op.ev, op.now, op.q).0
  {
  }

  lemma {:induction false} RunKeepsMatch(db: Db, sign: string -> string, ops: seq<Op>)
    requires LogMatches(db)
    ensures LogMatches(Run(db, sign, ops))
  {
    if ops != [] {
      RunKeepsMatch(db, sign, ops[..|ops| - 1]);
      StepKeepsMatch(Run(db, sign, ops[..|ops| - 1]), sign, ops[|ops| - 1]);
    }
  }

  /** In every run, direct ticket edits included: a registration has at most one success in the log,
      exactly when it is CHECKED_IN, and each event's successes and CHECKED_IN rows are equal in number. */
  lemma {:induction false} EveryRunLogsOneSuccess(sign: string -> string, ops: seq<Op>, r: RegId, event: nat)
    ensures var db := Run(EMPTY, sign, ops);
      && SuccessesOf(db.logs, r) == (if IsCheckedIn(db, r) then 1 else 0)
      && SuccessesAt(db.logs, event) == |CheckedInRows(db, event)|
  {
    assert LogMatches(EMPTY) by {
      assert forall e: nat :: CheckedInRows(EMPTY, e) == {};
    }
    RunKeepsMatch(EMPTY, sign, ops);
  }

  /** A checked-in registration stays so whatever happens next. */
  lemma {:induction false} CheckedInForever(db: Db, sign: string -> string, ops: seq<Op>, r: RegId)
    requires IsCheckedIn(db, r)
    ensures IsCheckedIn(Run(db, sign, ops), r)
  {
    hide Step, Scan;
    if ops != [] {
      var before := Run(db, sign, ops[..|ops| - 1]);
      var op := ops[|ops| - 1];
      CheckedInForever(db, sign, ops[..|ops| - 1], r);
      if op.DoScan? {
        StepScan(before, sign, op);
        ScanChecksIn(before, sign, op.ev, op.now, op.q, r);
      } else {
        OtherStepsKeepCheckedIn(before, sign, op, r);
      }
    }
  }
}
