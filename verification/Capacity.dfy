/** Registrants interleaved at the steps of `create_event_registration` (apps/registrations/services.py,
    lines 127-193): lock the event row, read the own row, count the active rows, choose the status,
    commit. Administrators' restores (apps/system_admin/services/ticket_services.py, lines 161-217) are
    transactions among them: their first query locks ticket, registration and event row together. Cancels,
    scans and ticket issues commit whole in between; a direct ticket edit (apps/registrations/views.py,
    lines 568-576) reads the ticket at one moment and saves it at another, without a lock. */
module Capacity {
  import opened Text
  import opened Registrations

  type Proc = nat

  datatype Phase =
    | Locked
    | OwnRead(existing: Option<RegId>)
    | Counted(existing: Option<RegId>, count: nat)
    | Written(existing: Option<RegId>, next: RegStatus)
    | Restoring(r: RegId)
    | RestoreCounted(r: RegId)

  /** An open transaction that holds the lock of its event's row, for the user whose registration it is
      about, and what it has learnt so far. */
  datatype Txn = Txn(ev: Event, user: nat, now: int, phase: Phase)

  /** The copy of a ticket that an edit has read. */
  datatype Copy = Copy(r: RegId, ticket: Ticket)

  /** Committed tables, event-row locks with their holders, the open transactions, and the edits under way. */
  datatype Sys = Sys(db: Db, locks: map<nat, Proc>, txns: map<Proc, Txn>, edits: map<Proc, Copy>)

  datatype Action =
    | Begin(p: Proc, ev: Event, user: nat, now: int)
    | ReadOwn(p: Proc)
    | Count(p: Proc)
    | Write(p: Proc)
    | Commit(p: Proc, answers: string, rnd: Randomness)
    | BeginRestore(p: Proc, r: RegId, ev: Event, now: int)
    | CountRestore(p: Proc)
    | CommitRestore(p: Proc)
    | Abort(p: Proc)
    | ReadTicket(p: Proc, r: RegId)
    | SaveTicket(p: Proc, status: Option<TicketStatus>, expiresAt: Option<int>)
    | Atomic(op: Op)

  function Open(s: Sys, p: Proc, t: Txn): Sys {
    s.(locks := s.locks[t.ev.id := p], txns := s.txns[p := t])
  }

  function Close(s: Sys, p: Proc): Sys
    requires p in s.txns
  {
    s.(locks := s.locks - {s.txns[p].ev.id}, txns := s.txns - {p})
  }

  function Move(s: Sys, p: Proc, phase: Phase): Sys
    requires p in s.txns
  {
    s.(txns := s.txns[p := s.txns[p].(phase := phase)])
  }

  /** What a save writes as the status: the one asked for, or the one it read. */
  function SavedStatus(c: Copy, status: Option<TicketStatus>): TicketStatus {
    if status.Some? then status.value else c.ticket.status
  }

  function SaveOp(c: Copy, status: Option<TicketStatus>, expiresAt: Option<int>): Op {
    DoPatch(c.r, SavedStatus(c, status), c.ticket.usedAt, if expiresAt.Some? then expiresAt.value else c.ticket.expiresAt)
  }

  /** One step; a step that is not possible now (a taken lock, another phase) changes nothing. */
  function Next(s: Sys, sign: string -> string, a: Action): Sys {
    match a
    case Begin(p, ev, user, now) =>
      if p in s.txns || ev.id in s.locks || !WindowOpen(ev, now) then s
      else Open(s, p, Txn(ev, user, now, Locked))
    case ReadOwn(p) =>
      if p !in s.txns || !s.txns[p].phase.Locked? then s
      else
        var own := Get(RowsOf(s.db, s.txns[p].ev.id, s.txns[p].user));
        if own.Several? || (own.Found? && !ReRegisterable(s.db.regs[own.id].status)) then Close(s, p)
        else Move(s, p, OwnRead(if own.Found? then Some(own.id) else None))
    case Count(p) =>
      if p !in s.txns || !s.txns[p].phase.OwnRead? then s
      else Move(s, p, Counted(s.txns[p].phase.existing, |ActiveRows(s.db, s.txns[p].ev.id)|))
    case Write(p) =>
      if p !in s.txns || !s.txns[p].phase.Counted? then s
      else Move(s, p, Written(s.txns[p].phase.existing, NextStatus(s.txns[p].ev, s.txns[p].phase.count)))
    case Commit(p, answers, rnd) =>
      if p !in s.txns || !s.txns[p].phase.Written? then s
      else
        var t := s.txns[p];
        (match Admit(s.db, sign, t.ev, t.user, t.now, answers, t.phase.existing, t.phase.next, rnd)
         case None => Close(s, p)
         case Some(dr) => Close(s.(db := dr.0), p))
    case BeginRestore(p, r, ev, now) =>
      if p in s.txns || ev.id in s.locks || !Restorable(s.db, r, ev, now) then s
      else Open(s, p, Txn(ev, s.db.regs[r].user, now, Restoring(r)))
    case CountRestore(p) =>
      if p !in s.txns || !s.txns[p].phase.Restoring? then s
      else if NextStatus(s.txns[p].ev, |ActiveRows(s.db, s.txns[p].ev.id)|) == Waitlisted then Close(s, p)
      else Move(s, p, RestoreCounted(s.txns[p].phase.r))
    case CommitRestore(p) =>
      if p !in s.txns || !s.txns[p].phase.RestoreCounted? then s
      else
        var r := s.txns[p].phase.r;
        if r in s.db.regs && r in s.db.tickets then Close(s.(db := RestoreWrite(s.db, r)), p) else Close(s, p)
    case Abort(p) => if p in s.txns then Close(s, p) else s
    case ReadTicket(p, r) =>
      if r !in s.db.tickets then s else s.(edits := s.edits[p := Copy(r, s.db.tickets[r])])
    case SaveTicket(p, status, expiresAt) =>
      if p !in s.edits then s
      else s.(db := Step(s.db, sign, SaveOp(s.edits[p], status, expiresAt)), edits := s.edits - {p})
    case Atomic(op) => s.(db := Step(s.db, sign, op))
  }

  function RunAll(s: Sys, sign: string -> string, actions: seq<Action>): Sys {
    if actions == [] then s
    else Next(RunAll(s, sign, actions[..|actions| - 1]), sign, actions[|actions| - 1])
  }

  const START := Sys(EMPTY, map[], map[], map[])

  /** An event's limit as the code reads it: 0 for none. */
  function Limit(ev: Event): nat {
    if ev.maxCapacity.Some? then ev.maxCapacity.value else 0
  }

  /** The steps considered. An event keeps one limit throughout. Cancels, scans and ticket issues commit at
      any time (scans and issues wait for the event row, too; letting them commit sooner only adds runs). A
      direct edit may read at any time, and may make a ticket VALID if its registration is active at the
      save. */
  predicate Allowed(s: Sys, limits: nat -> nat, a: Action) {
    match a
    case Begin(_, ev, _, _) => Limit(ev) == limits(ev.id)
    case BeginRestore(_, _, ev, _) => Limit(ev) == limits(ev.id)
    case SaveTicket(p, status, _) =>
      p in s.edits && SavedStatus(s.edits[p], status) == Valid ==>
        s.edits[p].r in s.db.regs && Active(s.db.regs[s.edits[p].r].status)
    case Atomic(op) => op.DoCancel? || op.DoScan? || op.DoCreateTicket?
    case _ => true
  }

  predicate IsEdit(a: Action) {
    a.SaveTicket?
  }

  ghost predicate AllowedRun(s: Sys, sign: string -> string, limits: nat -> nat, actions: seq<Action>) {
    forall k | 0 <= k < |actions| :: Allowed(RunAll(s, sign, actions[..k]), limits, actions[k])
  }

  // ----- the invariant -----

  /** The own-row read stays true until the transaction ends. */
  ghost predicate OwnHolds(db: Db, event: nat, user: nat, existing: Option<RegId>) {
    match existing
    case Some(r) => r in RowsOf(db, event, user) && ReRegisterable(db.regs[r].status)
    case None => RowsOf(db, event, user) == {}
  }

  /** The row to be restored stays inactive, with its ticket. */
  ghost predicate RestoreHolds(db: Db, event: nat, r: RegId) {
    r in db.regs && r in db.tickets && db.regs[r].event == event && ReRegisterable(db.regs[r].status)
  }

  /** The key fact: the lock holder's count stays an upper bound until it commits. */
  ghost predicate TxnHolds(db: Db, t: Txn) {
    match t.phase
    case Locked => true
    case OwnRead(ex) => OwnHolds(db, t.ev.id, t.user, ex)
    case Counted(ex, n) => OwnHolds(db, t.ev.id, t.user, ex) && |ActiveRows(db, t.ev.id)| <= n
    case Written(ex, next) =>
      && OwnHolds(db, t.ev.id, t.user, ex) && next in {Registered, Waitlisted}
      && (next == Registered && Limit(t.ev) > 0 ==> |ActiveRows(db, t.ev.id)| < Limit(t.ev))
    case Restoring(r) => RestoreHolds(db, t.ev.id, r)
    case RestoreCounted(r) =>
      RestoreHolds(db, t.ev.id, r) && (Limit(t.ev) > 0 ==> |ActiveRows(db, t.ev.id)| < Limit(t.ev))
  }

  ghost predicate WithinLimits(db: Db, limits: nat -> nat) {
    forall e: nat :: limits(e) > 0 ==> |ActiveRows(db, e)| <= limits(e)
  }

  ghost predicate LocksMatch(s: Sys, limits: nat -> nat) {
    && (forall p | p in s.txns :: s.txns[p].ev.id in s.locks && s.locks[s.txns[p].ev.id] == p
          && Limit(s.txns[p].ev) == limits(s.txns[p].ev.id))
    && (forall e | e in s.locks :: s.locks[e] in s.txns && s.txns[s.locks[e]].ev.id == e)
  }

  ghost predicate TxnsHold(db: Db, txns: map<Proc, Txn>) {
    forall p | p in txns :: TxnHolds(db, txns[p])
  }

  /** A VALID ticket belongs to an active registration, so a scan never adds one. */
  ghost predicate ValidIsActive(db: Db) {
    forall r | r in db.tickets && db.tickets[r].status == Valid :: r in db.regs && Active(db.regs[r].status)
  }

  ghost predicate Inv(s: Sys, limits: nat -> nat) {
    && ValidIsActive(s.db) && OneRowEach(s.db)
    && LocksMatch(s, limits)
    && TxnsHold(s.db, s.txns)
    && WithinLimits(s.db, limits)
  }

  // ----- what a committed transaction in between may change -----

  /** No new rows, no new active rows, and cancelled rows left alone. */
  ghost predicate Shrinks(db: Db, db': Db) {
    && db'.regs.Keys == db.regs.Keys && db.tickets.Keys <= db'.tickets.Keys
    && (forall r | r in db.regs ::
          && db'.regs[r].event == db.regs[r].event && db'.regs[r].user == db.regs[r].user
          && (Active(db'.regs[r].status) ==> Active(db.regs[r].status))
          && (ReRegisterable(db.regs[r].status) ==> ReRegisterable(db'.regs[r].status)))
  }

  predicate Quick(op: Op) {
    op.DoCancel? || op.DoScan? || op.DoCreateTicket? || op.DoPatch?
  }

  lemma {:induction false} AtomicShrinks(db: Db, sign: string -> string, op: Op)
    requires ValidIsActive(db) && Quick(op)
    ensures Shrinks(db, Step(db, sign, op))
  {
    hide FindTarget, GenerateCode;
  }

  lemma {:induction false} AtomicKeepsValid(db: Db, sign: string -> string, op: Op)
    requires ValidIsActive(db) && Quick(op)
    requires op.DoPatch? && op.status == Valid ==> op.r in db.regs && Active(db.regs[op.r].status)
    ensures ValidIsActive(Step(db, sign, op))
  {
    hide FindTarget, GenerateCode;
  }

  lemma {:induction false} ShrinkKeepsTxn(db: Db, db': Db, t: Txn)
    requires Shrinks(db, db') && TxnHolds(db, t)
    ensures TxnHolds(db', t)
  {
    ShrinkActive(db, db', t.ev.id);
    assert RowsOf(db', t.ev.id, t.user) == RowsOf(db, t.ev.id, t.user);
  }

  lemma {:induction false} SubsetSize(a: set<RegId>, b: set<RegId>)
    requires a <= b
    ensures |a| <= |b|
  {
    assert b == a + (b - a);
  }

  lemma {:induction false} ShrinkActive(db: Db, db': Db, e: nat)
    requires Shrinks(db, db')
    ensures |ActiveRows(db', e)| <= |ActiveRows(db, e)|
  {
    SubsetSize(ActiveRows(db', e), ActiveRows(db, e));
  }

  // ----- what a commit changes -----

  lemma {:induction false} AdmitRegs(db: Db, sign: string -> string, t: Txn, answers: string, next: RegStatus,
                                     existing: Option<RegId>, rnd: Randomness)
    requires Admit(db, sign, t.ev, t.user, t.now, answers, existing, next, rnd).Some?
    ensures var dr := Admit(db, sign, t.ev, t.user, t.now, answers, existing, next, rnd).value;
      && (existing.Some? ==> dr.1 == existing.value) && (existing.None? ==> dr.1 !in db.regs)
      && dr.0.regs == db.regs[dr.1 := Registration(t.ev.id, t.user, next, answers, t.now, None, None)]
      && db.tickets.Keys <= dr.0.tickets.Keys
  {
    hide GenerateCode, ById, ByCode;
  }

  /** Other events' transactions do not notice a commit. */
  lemma {:induction false} CommitFramesOthers(db: Db, db': Db, r: RegId, e: nat, user: nat, reg: Registration, t: Txn)
    requires db'.regs == db.regs[r := reg] && reg.event == e && db.tickets.Keys <= db'.tickets.Keys
    requires r in db.regs ==> db.regs[r].event == e
    requires t.ev.id != e && TxnHolds(db, t)
    ensures TxnHolds(db', t)
  {
    assert RowsOf(db', t.ev.id, t.user) == RowsOf(db, t.ev.id, t.user);
    assert ActiveRows(db', t.ev.id) == ActiveRows(db, t.ev.id);
  }

  lemma {:induction false} RowSets(db: Db, db': Db, r: RegId, reg: Registration)
    requires db'.regs == db.regs[r := reg] && (r in db.regs ==> db.regs[r].event == reg.event)
    ensures var before, after := ActiveRows(db, reg.event), ActiveRows(db', reg.event);
      && after == (if Active(reg.status) then before + {r} else before - {r})
      && (r in before <==> r in db.regs && Active(db.regs[r].status))
  {
    hide Active;
    var before, after := ActiveRows(db, reg.event), ActiveRows(db', reg.event);
    forall s: RegId ensures s in after <==> if s == r then Active(reg.status) else s in before {
    }
  }

  /** Any write of one row of an event. */
  lemma {:induction false} RowCounts(db: Db, db': Db, r: RegId, reg: Registration)
    requires db'.regs == db.regs[r := reg] && (r in db.regs ==> db.regs[r].event == reg.event)
    ensures var n, n' := |ActiveRows(db, reg.event)|, |ActiveRows(db', reg.event)|;
      && (!Active(reg.status) ==> n' <= n)
      && (Active(reg.status) ==> n' == n + if r in db.regs && Active(db.regs[r].status) then 0 else 1)
  {
    hide ActiveRows, Active;
    RowSets(db, db', r, reg);
    var before := ActiveRows(db, reg.event);
    assert r in before ==> before + {r} == before;
    SubsetSize(before - {r}, before);
  }

  lemma {:induction false} OtherEventSame(db: Db, db': Db, r: RegId, reg: Registration, event: nat)
    requires db'.regs == db.regs[r := reg] && (r in db.regs ==> db.regs[r].event == reg.event) && event != reg.event
    ensures ActiveRows(db', event) == ActiveRows(db, event)
  {
    hide Active;
  }

  lemma {:induction false} CommitWithinLimits(db: Db, db': Db, r: RegId, reg: Registration, limits: nat -> nat)
    requires db'.regs == db.regs[r := reg]
    requires r in db.regs ==> db.regs[r].event == reg.event && !Active(db.regs[r].status)
    requires WithinLimits(db, limits)
    requires Active(reg.status) && limits(reg.event) > 0 ==> |ActiveRows(db, reg.event)| < limits(reg.event)
    ensures WithinLimits(db', limits)
  {
    hide ActiveRows, Active;
    RowCounts(db, db', r, reg);
    forall e: nat | limits(e) > 0 ensures |ActiveRows(db', e)| <= limits(e) {
      assert |ActiveRows(db, e)| <= limits(e);
      if e != reg.event {
        OtherEventSame(db, db', r, reg, e);
      }
    }
  }

  lemma {:induction false} AdmitKeepsValid(db: Db, sign: string -> string, t: Txn, answers: string,
                                           next: RegStatus, existing: Option<RegId>, rnd: Randomness)
    requires ValidIsActive(db) && OneRowEach(db) && OwnHolds(db, t.ev.id, t.user, existing)
    requires next in {Registered, Waitlisted}
    requires Admit(db, sign, t.ev, t.user, t.now, answers, existing, next, rnd).Some?
    ensures var db' := Admit(db, sign, t.ev, t.user, t.now, answers, existing, next, rnd).value.0;
      ValidIsActive(db') && OneRowEach(db')
  {
    hide GenerateCode, ById, ByCode;
    var dr := Admit(db, sign, t.ev, t.user, t.now, answers, existing, next, rnd).value;
    AdmitRegs(db, sign, t, answers, next, existing, rnd);
    forall s | s in db.regs && s != dr.1 ensures db.regs[s].event != t.ev.id || db.regs[s].user != t.user {
      assert existing == None ==> s !in RowsOf(db, t.ev.id, t.user);
    }
  }

  lemma {:induction false} CommitKeepsInv(s: Sys, sign: string -> string, limits: nat -> nat, p: Proc, answers: string,
                                          rnd: Randomness)
    requires Inv(s, limits)
    ensures Inv(Next(s, sign, Commit(p, answers, rnd)), limits)
  {
    hide Inv, Admit;
    if p in s.txns && s.txns[p].phase.Written? {
      var t := s.txns[p];
      var a := Admit(s.db, sign, t.ev, t.user, t.now, answers, t.phase.existing, t.phase.next, rnd);
      if a.Some? {
        CommitSucceeds(s, sign, limits, p, answers, rnd);
      }
      CloseKeepsInv(s, limits, p);
    }
  }

  lemma {:induction false} CommitSucceeds(s: Sys, sign: string -> string, limits: nat -> nat, p: Proc, answers: string,
                                          rnd: Randomness)
    requires Inv(s, limits) && p in s.txns && s.txns[p].phase.Written?
    requires var t := s.txns[p];
      Admit(s.db, sign, t.ev, t.user, t.now, answers, t.phase.existing, t.phase.next, rnd).Some?
    ensures Inv(Next(s, sign, Commit(p, answers, rnd)), limits)
  {
    hide Admit, Inv, OwnHolds, ValidIsActive, OneRowEach, ActiveRows, Close;
    InvHolds(s, limits, p);
    var t := s.txns[p];
    var next, ex := t.phase.next, t.phase.existing;
    var dr := Admit(s.db, sign, t.ev, t.user, t.now, answers, ex, next, rnd).value;
    AdmitKeepsValid(s.db, sign, t, answers, next, ex, rnd);
    AdmitRegs(s.db, sign, t, answers, next, ex, rnd);
    OwnIsInactive(s.db, t.ev.id, t.user, ex);
    WriteAndClose(s, limits, p, dr.0, dr.1, Registration(t.ev.id, t.user, next, answers, t.now, None, None));
  }

  /** The lock holder writes one inactive row of its event and ends its transaction. */
  lemma {:induction false} WriteAndClose(s: Sys, limits: nat -> nat, p: Proc, db': Db, r: RegId, reg: Registration)
    requires Inv(s, limits) && p in s.txns && reg.event == s.txns[p].ev.id
    requires db'.regs == s.db.regs[r := reg] && s.db.tickets.Keys <= db'.tickets.Keys
    requires ValidIsActive(db') && OneRowEach(db')
    requires r in s.db.regs ==> s.db.regs[r].event == reg.event && !Active(s.db.regs[r].status)
    requires Active(reg.status) && Limit(s.txns[p].ev) > 0 ==> |ActiveRows(s.db, reg.event)| < Limit(s.txns[p].ev)
    ensures Inv(Close(s.(db := db'), p), limits)
  {
    hide ActiveRows, Active, Limit, WithinLimits, ValidIsActive, OneRowEach, TxnsHold;
    CommitWithinLimits(s.db, db', r, reg, limits);
    OthersKept(s, limits, db', r, reg, s.txns - {p});
  }

  lemma {:induction false} InvHolds(s: Sys, limits: nat -> nat, p: Proc)
    requires Inv(s, limits) && p in s.txns
    ensures TxnHolds(s.db, s.txns[p]) && ValidIsActive(s.db) && OneRowEach(s.db)
  {
    hide TxnHolds, ValidIsActive, OneRowEach, WithinLimits;
  }

  lemma {:induction false} OwnIsInactive(db: Db, event: nat, user: nat, existing: Option<RegId>)
    requires OwnHolds(db, event, user, existing)
    ensures existing.Some? ==>
              existing.value in db.regs && db.regs[existing.value].event == event && !Active(db.regs[existing.value].status)
  {
  }

  /** A row written on one event leaves the open transactions of other events as they were. */
  lemma {:induction false} OthersKept(s: Sys, limits: nat -> nat, db': Db, r: RegId, reg: Registration, txns: map<Proc, Txn>)
    requires TxnsHold(s.db, s.txns) && db'.regs == s.db.regs[r := reg] && s.db.tickets.Keys <= db'.tickets.Keys
    requires r in s.db.regs ==> s.db.regs[r].event == reg.event
    requires forall q | q in txns :: q in s.txns && txns[q] == s.txns[q] && txns[q].ev.id != reg.event
    ensures TxnsHold(db', txns)
  {
    hide TxnHolds;
    forall q | q in txns ensures TxnHolds(db', txns[q]) {
      assert TxnHolds(s.db, s.txns[q]);
      CommitFramesOthers(s.db, db', r, reg.event, reg.user, reg, s.txns[q]);
    }
  }

  lemma {:induction false} RestoreWrites(db: Db, event: nat, r: RegId)
    requires RestoreHolds(db, event, r)
    ensures var db' := RestoreWrite(db, r);
      && db'.regs == db.regs[r := db.regs[r].(status := Registered, cancelledAt := None, cancelReason := None)]
      && db'.tickets.Keys == db.tickets.Keys
      && (ValidIsActive(db) ==> ValidIsActive(db')) && (OneRowEach(db) ==> OneRowEach(db'))
  {
  }

  /** A restore holds the event's lock, so the seat its count found is still there when it commits. */
  lemma {:induction false} CommitRestoreKeepsInv(s: Sys, sign: string -> string, limits: nat -> nat, p: Proc)
    requires Inv(s, limits)
    ensures Inv(Next(s, sign, CommitRestore(p)), limits)
  {
    hide Inv, ActiveRows, RestoreWrite, ValidIsActive, OneRowEach, Close;
    if p in s.txns && s.txns[p].phase.RestoreCounted? {
      InvHolds(s, limits, p);
      var r := s.txns[p].phase.r;
      RestoreWrites(s.db, s.txns[p].ev.id, r);
      WriteAndClose(s, limits, p, RestoreWrite(s.db, r), r, RestoreWrite(s.db, r).regs[r]);
    }
  }

  lemma {:induction false} QuickKeepsInv(s: Sys, sign: string -> string, limits: nat -> nat, op: Op)
    requires Inv(s, limits) && Quick(op)
    requires op.DoPatch? && op.status == Valid ==> op.r in s.db.regs && Active(s.db.regs[op.r].status)
    ensures Inv(s.(db := Step(s.db, sign, op)), limits)
  {
    hide Step, Shrinks, TxnHolds, ActiveRows, ValidIsActive, OneRowEach;
    var db' := Step(s.db, sign, op);
    AtomicShrinks(s.db, sign, op);
    AtomicKeepsValid(s.db, sign, op);
    ShrinkKeepsRows(s.db, db');
    forall p | p in s.txns ensures TxnHolds(db', s.txns[p]) {
      ShrinkKeepsTxn(s.db, db', s.txns[p]);
    }
    forall e: nat | limits(e) > 0 ensures |ActiveRows(db', e)| <= limits(e) {
      ShrinkActive(s.db, db', e);
    }
  }

  lemma {:induction false} ShrinkKeepsRows(db: Db, db': Db)
    requires Shrinks(db, db') && OneRowEach(db)
    ensures OneRowEach(db')
  {
  }

  lemma {:induction false} CloseKeepsInv(s: Sys, limits: nat -> nat, p: Proc)
    requires Inv(s, limits) && p in s.txns
    ensures Inv(Close(s, p), limits)
  {
    hide ValidIsActive, OneRowEach, TxnHolds, WithinLimits;
  }

  lemma {:induction false} MoveKeepsInv(s: Sys, limits: nat -> nat, p: Proc, phase: Phase)
    requires Inv(s, limits) && p in s.txns
    requires TxnHolds(s.db, s.txns[p].(phase := phase))
    ensures Inv(Move(s, p, phase), limits)
  {
    hide ValidIsActive, OneRowEach, TxnHolds, WithinLimits;
  }

  lemma {:induction false} OpenKeepsInv(s: Sys, limits: nat -> nat, p: Proc, t: Txn)
    requires Inv(s, limits) && p !in s.txns && t.ev.id !in s.locks && Limit(t.ev) == limits(t.ev.id) && TxnHolds(s.db, t)
    ensures Inv(Open(s, p, t), limits)
  {
    hide ValidIsActive, OneRowEach, WithinLimits, TxnHolds;
  }

  lemma {:induction false} EditsDoNotMatter(s: Sys, limits: nat -> nat, edits: map<Proc, Copy>)
    requires Inv(s, limits)
    ensures Inv(s.(edits := edits), limits)
  {
    hide ValidIsActive, OneRowEach, WithinLimits, TxnsHold;
  }

  lemma {:induction false} NextKeepsInv(s: Sys, sign: string -> string, limits: nat -> nat, a: Action)
    requires Inv(s, limits) && Allowed(s, limits, a)
    ensures Inv(Next(s, sign, a), limits)
  {
    hide Inv, Step, Admit, ActiveRows, WindowOpen, Open, RestoreWrite;
    match a
    case Begin(p, ev, user, now) =>
      if !(p in s.txns || ev.id in s.locks || !WindowOpen(ev, now)) {
        OpenKeepsInv(s, limits, p, Txn(ev, user, now, Locked));
      }
    case Commit(p, answers, rnd) => CommitKeepsInv(s, sign, limits, p, answers, rnd);
    case BeginRestore(p, r, ev, now) =>
      if !(p in s.txns || ev.id in s.locks || !Restorable(s.db, r, ev, now)) {
        OpenKeepsInv(s, limits, p, Txn(ev, s.db.regs[r].user, now, Restoring(r)));
      }
    case CountRestore(p) =>
      if p in s.txns && s.txns[p].phase.Restoring? {
        InvHolds(s, limits, p);
        if NextStatus(s.txns[p].ev, |ActiveRows(s.db, s.txns[p].ev.id)|) == Waitlisted {
          CloseKeepsInv(s, limits, p);
        } else {
          MoveKeepsInv(s, limits, p, RestoreCounted(s.txns[p].phase.r));
        }
      }
    case CommitRestore(p) => CommitRestoreKeepsInv(s, sign, limits, p);
    case ReadTicket(p, r) =>
      if r in s.db.tickets {
        EditsDoNotMatter(s, limits, s.edits[p := Copy(r, s.db.tickets[r])]);
      }
    case SaveTicket(p, status, expiresAt) =>
      if p in s.edits {
        QuickKeepsInv(s, sign, limits, SaveOp(s.edits[p], status, expiresAt));
        EditsDoNotMatter(s.(db := Step(s.db, sign, SaveOp(s.edits[p], status, expiresAt))), limits, s.edits - {p});
      }
    case Atomic(op) => QuickKeepsInv(s, sign, limits, op);
    case Abort(p) => if p in s.txns { CloseKeepsInv(s, limits, p); }
    case ReadOwn(p) =>
      if p in s.txns && s.txns[p].phase.Locked? {
        var own := Get(RowsOf(s.db, s.txns[p].ev.id, s.txns[p].user));
        if own.Several? || (own.Found? && !ReRegisterable(s.db.regs[own.id].status)) {
          CloseKeepsInv(s, limits, p);
        } else {
          MoveKeepsInv(s, limits, p, OwnRead(if own.Found? then Some(own.id) else None));
        }
      }
    case Count(p) =>
      if p in s.txns && s.txns[p].phase.OwnRead? {
        InvHolds(s, limits, p);
        MoveKeepsInv(s, limits, p, Counted(s.txns[p].phase.existing, |ActiveRows(s.db, s.txns[p].ev.id)|));
      }
    case Write(p) =>
      if p in s.txns && s.txns[p].phase.Counted? {
        InvHolds(s, limits, p);
        MoveKeepsInv(s, limits, p, Written(s.txns[p].phase.existing, NextStatus(s.txns[p].ev, s.txns[p].phase.count)));
      }
  }

  /** Without direct edits registration and ticket stay coherent, too. */
  lemma {:induction false} NextKeepsCoherent(s: Sys, sign: string -> string, limits: nat -> nat, a: Action)
    requires Inv(s, limits) && Coherent(s.db, sign) && Allowed(s, limits, a) && !IsEdit(a)
    ensures Coherent(Next(s, sign, a).db, sign)
  {
    hide Inv, Coherent, Step, Admit, RowsOf, WindowOpen, RestoreWrite;
    match a
    case CommitRestore(p) =>
      if p in s.txns && s.txns[p].phase.RestoreCounted? {
        InvHolds(s, limits, p);
        RestoreWriteKeepsCoherent(s.db, sign, s.txns[p].phase.r);
      }
    case Commit(p, answers, rnd) =>
      if p in s.txns && s.txns[p].phase.Written? {
        var t := s.txns[p];
        InvHolds(s, limits, p);
        AdmitKeepsCoherent(s.db, sign, t.ev, t.user, t.now, answers, t.phase.existing, t.phase.next, rnd);
      }
    case Atomic(op) => StepKeepsCoherent(s.db, sign, op);
    case _ =>
  }

  lemma {:induction false} RunKeepsInv(s: Sys, sign: string -> string, limits: nat -> nat, actions: seq<Action>)
    requires Inv(s, limits) && AllowedRun(s, sign, limits, actions)
    ensures Inv(RunAll(s, sign, actions), limits)
    ensures Coherent(s.db, sign) && (forall i | 0 <= i < |actions| :: !IsEdit(actions[i]))
            ==> Coherent(RunAll(s, sign, actions).db, sign)
  {
    hide Inv, Next, Coherent, Allowed;
    if actions != [] {
      var n := |actions| - 1;
      assert forall k | 0 <= k < n :: actions[..n][..k] == actions[..k];
      RunKeepsInv(s, sign, limits, actions[..n]);
      var before := RunAll(s, sign, actions[..n]);
      NextKeepsInv(before, sign, limits, actions[n]);
      if Coherent(before.db, sign) && !IsEdit(actions[n]) {
        NextKeepsCoherent(before, sign, limits, actions[n]);
      }
    }
  }

  lemma {:induction false} StartHolds(sign: string -> string, limits: nat -> nat)
    ensures Inv(START, limits) && Coherent(START.db, sign)
  {
    assert forall e: nat :: ActiveRows(EMPTY, e) == {};
  }

  /** However registrants interleave, an event with a limit never has more active rows than it allows
      and no user has two rows for one event; without direct edits registration and ticket stay
      coherent. */
  lemma {:induction false} CapacityHolds(sign: string -> string, limits: nat -> nat, actions: seq<Action>, event: nat)
    requires AllowedRun(START, sign, limits, actions)
    ensures var db := RunAll(START, sign, actions).db;
      && (limits(event) > 0 ==> |ActiveRows(db, event)| <= limits(event))
      && (forall user :: |RowsOf(db, event, user)| <= 1)
      && ((forall i | 0 <= i < |actions| :: !IsEdit(actions[i])) ==> Coherent(db, sign))
  {
    hide Coherent, AllowedRun;
    StartHolds(sign, limits);
    RunKeepsInv(START, sign, limits, actions);
    var db := RunAll(START, sign, actions).db;
    forall user ensures |RowsOf(db, event, user)| <= 1 {
      OneRowAtMost(db, event, user);
    }
  }

  lemma {:induction false} OneRowAtMost(db: Db, event: nat, user: nat)
    requires OneRowEach(db)
    ensures |RowsOf(db, event, user)| <= 1
  {
    var rows := RowsOf(db, event, user);
    if rows != {} {
      var r :| r in rows;
      assert rows == {r};
    }
  }

  // ----- a registration without interruption -----

  lemma {:induction false} RunFive(s: Sys, sign: string -> string, a: Action, b: Action, c: Action, d: Action, e: Action)
    ensures RunAll(s, sign, [a, b, c, d, e]) == Next(Next(Next(Next(Next(s, sign, a), sign, b), sign, c), sign, d), sign, e)
  {
    hide Next;
    var all := [a, b, c, d, e];
    assert all[..4][..3] == all[..3] && all[..3][..2] == all[..2] && all[..2][..1] == all[..1] && all[..1][..0] == [];
    assert RunAll(s, sign, all[..1]) == Next(s, sign, a);
    assert RunAll(s, sign, all[..2]) == Next(Next(s, sign, a), sign, b);
    assert RunAll(s, sign, all[..3]) == Next(Next(Next(s, sign, a), sign, b), sign, c);
  }

  /** What is left of a registration, whatever its phase: steps already taken change nothing. */
  function Rest(p: Proc, answers: string, rnd: Randomness): seq<Action> {
    [ReadOwn(p), Count(p), Write(p), Commit(p, answers, rnd)]
  }

  lemma {:induction false} RestRuns(s: Sys, sign: string -> string, p: Proc, answers: string, rnd: Randomness, first: Action)
    ensures var s1 := Next(s, sign, first);
      RunAll(s, sign, [first] + Rest(p, answers, rnd))
      == Next(Next(Next(Next(s1, sign, ReadOwn(p)), sign, Count(p)), sign, Write(p)), sign, Commit(p, answers, rnd))
  {
    hide Next, RunAll;
    RunFive(s, sign, first, ReadOwn(p), Count(p), Write(p), Commit(p, answers, rnd));
    assert [first] + Rest(p, answers, rnd) == [first, ReadOwn(p), Count(p), Write(p), Commit(p, answers, rnd)];
  }

  /** From the lock to the commit: the tables are those of the atomic registration, and no transaction and
      no lock is left. */
  lemma {:induction false} RestIsRegister(s: Sys, sign: string -> string, p: Proc, answers: string, rnd: Randomness)
    requires p in s.txns && s.txns.Keys == {p} && s.locks.Keys == {s.txns[p].ev.id}
    requires s.txns[p].phase == Locked && WindowOpen(s.txns[p].ev, s.txns[p].now)
    ensures var t := s.txns[p];
      Next(Next(Next(Next(s, sign, ReadOwn(p)), sign, Count(p)), sign, Write(p)), sign, Commit(p, answers, rnd))
      == Sys(Register(s.db, sign, t.ev, t.user, t.now, answers, rnd).0, map[], map[], s.edits)
  {
    hide Admit, ActiveRows, NextStatus, WindowOpen, ReRegisterable;
    var t := s.txns[p];
    var own := Get(RowsOf(s.db, t.ev.id, t.user));
    if own.Several? || (own.Found? && !ReRegisterable(s.db.regs[own.id].status)) {
      assert Next(s, sign, ReadOwn(p)) == Close(s, p) == Sys(s.db, map[], map[], s.edits);
    } else {
      RestCommits(s, sign, p, answers, rnd, if own.Found? then Some(own.id) else None);
    }
  }

  lemma {:induction false} RestCommits(s: Sys, sign: string -> string, p: Proc, answers: string, rnd: Randomness,
                                       existing: Option<RegId>)
    requires p in s.txns && s.txns.Keys == {p} && s.locks.Keys == {s.txns[p].ev.id}
    ensures var t := s.txns[p]; var next := NextStatus(t.ev, |ActiveRows(s.db, t.ev.id)|);
      var a := Admit(s.db, sign, t.ev, t.user, t.now, answers, existing, next, rnd);
      Next(Next(Next(Move(s, p, OwnRead(existing)), sign, Count(p)), sign, Write(p)), sign, Commit(p, answers, rnd))
      == Sys(if a.Some? then a.value.0 else s.db, map[], map[], s.edits)
  {
    hide Admit, ActiveRows, NextStatus;
    var t := s.txns[p];
    var s2 := Next(Move(s, p, OwnRead(existing)), sign, Count(p));
    assert s2 == Move(s, p, Counted(existing, |ActiveRows(s.db, t.ev.id)|));
    assert Next(s2, sign, Write(p)) == Move(s, p, Written(existing, NextStatus(t.ev, |ActiveRows(s.db, t.ev.id)|)));
  }

  /** Uninterrupted, the five steps are the atomic registration. */
  lemma {:induction false} UninterruptedIsRegister(db: Db, sign: string -> string, p: Proc, ev: Event, user: nat, now: int,
                                                   answers: string, rnd: Randomness)
    ensures RunAll(Sys(db, map[], map[], map[]), sign, [Begin(p, ev, user, now)] + Rest(p, answers, rnd))
            == Sys(Register(db, sign, ev, user, now, answers, rnd).0, map[], map[], map[])
  {
    hide Admit, ActiveRows, WindowOpen, RunAll, RowsOf, Get, NextStatus, Close;
    var s := Sys(db, map[], map[], map[]);
    RestRuns(s, sign, p, answers, rnd, Begin(p, ev, user, now));
    if WindowOpen(ev, now) {
      var s1 := Next(s, sign, Begin(p, ev, user, now));
      assert s1 == Sys(db, map[ev.id := p], map[p := Txn(ev, user, now, Locked)], map[]);
      RestIsRegister(s1, sign, p, answers, rnd);
    }
  }

  lemma {:induction false} RunThree(s: Sys, sign: string -> string, a: Action, b: Action, c: Action)
    ensures RunAll(s, sign, [a, b, c]) == Next(Next(Next(s, sign, a), sign, b), sign, c)
  {
    hide Next;
    var all := [a, b, c];
    assert all[..2][..1] == all[..1] && all[..1][..0] == [];
    assert RunAll(s, sign, all[..1]) == Next(s, sign, a);
    assert RunAll(s, sign, all[..2]) == Next(Next(s, sign, a), sign, b);
  }

  /** And the three steps of a restore are the atomic restore. */
  lemma {:induction false} UninterruptedIsRestore(db: Db, sign: string -> string, p: Proc, r: RegId, ev: Event, now: int)
    ensures RunAll(Sys(db, map[], map[], map[]), sign, [BeginRestore(p, r, ev, now), CountRestore(p), CommitRestore(p)])
            == Sys(AdminRestore(db, r, ev, now).0, map[], map[], map[])
  {
    hide ActiveRows, RunAll, RestoreWrite, NextStatus;
    RunThree(Sys(db, map[], map[], map[]), sign, BeginRestore(p, r, ev, now), CountRestore(p), CommitRestore(p));
  }
}
