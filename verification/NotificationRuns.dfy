/** What every run of dispatch, delivery, reading, opening and device steps keeps, and what one or
    many delivery calls achieve. */
module NotificationRuns {
  import opened Text
  import opened Notifications

  datatype Op =
    | DoDispatch(at: int, users: seq<Option<nat>>, sendPush: bool, allows: nat -> bool)
    | DoMarkRead(at: int, user: nat, id: nat)
    | DoMarkOpened(at: int, user: nat, id: nat)
    | DoRegister(at: int, user: nat, raw: string, ttl: int)
    | DoUnregister(at: int, user: nat, raw: string)
    | DoDeliver(at: int, n: nat, size: nat, replies: seq<Reply>)

  function Step(s: Store, op: Op): Store {
    match op
    case DoDispatch(at, users, sendPush, allows) => Dispatch(s, users, sendPush, allows, at).0
    case DoMarkRead(at, user, id) => MarkRead(s, user, id, at)
    case DoMarkOpened(at, user, id) => MarkOpened(s, user, id, at)
    case DoRegister(at, user, raw, ttl) => RegisterDevice(s, user, raw, at, ttl)
    case DoUnregister(at, user, raw) => UnregisterDevice(s, user, raw, at)
    case DoDeliver(at, n, size, replies) => Deliver(s, n, size, at, replies).0
  }

  function Run(s: Store, ops: seq<Op>): Store {
    if ops == [] then s else Step(Run(s, ops[..|ops| - 1]), ops[|ops| - 1])
  }

  predicate Timed(ops: seq<Op>) {
    forall i, j | 0 <= i < j < |ops| :: ops[i].at <= ops[j].at
  }

  // ----- the invariant -----

  predicate Past(t: Option<int>, clock: int) {
    t.Some? ==> t.value <= clock
  }

  predicate RowOk(r: Recipient, clock: int) {
    && (r.status == Read <==> r.readAt.Some?)
    && (r.status in {Queued, Failed} ==> r.deliveredAt.None?)
    && (r.status == Sent ==> r.deliveredAt.Some?)
    && (r.openedAt.Some? ==> r.readAt.Some? && r.readAt.value <= r.openedAt.value)
    && Past(r.deliveredAt, clock) && Past(r.readAt, clock) && Past(r.openedAt, clock)
  }

  ghost predicate Inv(s: Store, clock: int) {
    && (forall i | 0 <= i < |s.rows| :: RowOk(s.rows[i], clock) && s.rows[i].notification < s.notifications)
    && OneRowPerUser(s.rows)
    && SessionsOk(s.sessions)
  }

  lemma {:induction false} DistinctIs(users: seq<Option<nat>>)
    ensures forall i, j | 0 <= i < j < |Distinct(users)| :: Distinct(users)[i] != Distinct(users)[j]
    ensures forall u :: u in Distinct(users) <==> Some(u) in users
  {
    if users != [] {
      DistinctIs(users[..|users| - 1]);
      assert users == users[..|users| - 1] + [users[|users| - 1]];
    }
  }

  lemma {:induction false} DispatchKeepsInv(s: Store, users: seq<Option<nat>>, sendPush: bool, allows: nat -> bool,
                                            now: int, clock: int)
    requires Inv(s, clock) && clock <= now
    ensures Inv(Dispatch(s, users, sendPush, allows, now).0, now)
  {
    hide SessionsOk, Distinct;
    DistinctIs(users);
    var rows := NewRows(s.notifications, Distinct(users), sendPush, allows, now);
    var after := s.rows + rows;
    forall i | 0 <= i < |after| ensures RowOk(after[i], now) && after[i].notification <= s.notifications {
      if i >= |s.rows| { assert after[i] == rows[i - |s.rows|]; }
    }
    forall i, j | 0 <= i < j < |after|
      ensures after[i].notification != after[j].notification || after[i].user != after[j].user
    {
      if i >= |s.rows| {
        assert after[i] == rows[i - |s.rows|] && after[j] == rows[j - |s.rows|];
      } else if j >= |s.rows| {
        assert after[j] == rows[j - |s.rows|];
      }
    }
  }

  lemma {:induction false} DeliverRow(s: Store, n: nat, size: nat, now: int, replies: seq<Reply>, r: nat)
    requires r < |s.rows|
    ensures var plan := MakePlan(s, n, size, now); var s' := Deliver(s, n, size, now, replies).0;
      && |s'.rows| == |s.rows| && s'.rows[r] == Settle(s.rows[r], VerdictOf(plan, replies, r), now)
      && (VerdictOf(plan, replies, r) != Untouched ==> IsQueued(s.rows[r], n))
  {
    hide Judge, Pairs;
    BatchIsOk(s, n, size);
  }

  lemma {:induction false} SettleKeepsRow(row: Recipient, v: Verdict, now: int, clock: int)
    requires RowOk(row, clock) && clock <= now && (v != Untouched ==> row.status == Queued)
    ensures RowOk(Settle(row, v, now), now)
  {
  }

  lemma {:induction false} DeliverKeepsInv(s: Store, n: nat, size: nat, now: int, replies: seq<Reply>, clock: int)
    requires Inv(s, clock) && clock <= now
    ensures Inv(Deliver(s, n, size, now, replies).0, now)
  {
    hide VerdictOf, MakePlan, RowOk, SessionsOk;
    var s' := Deliver(s, n, size, now, replies).0;
    var plan := MakePlan(s, n, size, now);
    DetachKeepsSessions(s.sessions, HeldAtAll(BadTokens(plan.pairs, replies)), now);
    forall r | 0 <= r < |s'.rows| ensures RowOk(s'.rows[r], now) {
      DeliverRow(s, n, size, now, replies, r);
      SettleKeepsRow(s.rows[r], VerdictOf(plan, replies, r), now, clock);
    }
  }

  lemma {:induction false} ReplaceRowKeepsInv(s: Store, id: nat, row: Recipient, clock: int, now: int)
    requires Inv(s, clock) && clock <= now && id < |s.rows| && RowOk(row, now)
    requires row.notification == s.rows[id].notification && row.user == s.rows[id].user
    ensures Inv(s.(rows := s.rows[id := row]), now)
  {
    hide SessionsOk;
  }

  lemma {:induction false} LaterKeepsInv(s: Store, clock: int, now: int)
    requires Inv(s, clock) && clock <= now
    ensures Inv(s, now)
  {
    hide SessionsOk, OneRowPerUser;
  }

  lemma {:induction false} ReadRowOk(r: Recipient, clock: int, now: int)
    requires RowOk(r, clock) && clock <= now
    ensures r.readAt.None? ==> RowOk(r.(readAt := Some(now), status := Read), now)
    ensures RowOk(Opened(r, now), now) && Opened(r, now).notification == r.notification && Opened(r, now).user == r.user
  {
  }

  /** Reading and opening change one row of its owner, and keep it consistent. */
  lemma {:induction false} InboxKeepsInv(s: Store, user: nat, id: nat, now: int, clock: int)
    requires Inv(s, clock) && clock <= now
    ensures Inv(MarkRead(s, user, id, now), now) && Inv(MarkOpened(s, user, id, now), now)
  {
    hide SessionsOk, OneRowPerUser, RowOk, Opened;
    LaterKeepsInv(s, clock, now);
    if Owns(s, user, id) {
      var r := s.rows[id];
      ReadRowOk(r, clock, now);
      if r.readAt.None? {
        ReplaceRowKeepsInv(s, id, r.(readAt := Some(now), status := Read), clock, now);
      }
      ReplaceRowKeepsInv(s, id, Opened(r, now), clock, now);
    }
  }

  lemma {:induction false} DeviceKeepsInv(s: Store, s': Store, clock: int, now: int)
    requires Inv(s, clock) && clock <= now && s'.rows == s.rows && s'.notifications == s.notifications && SessionsOk(s'.sessions)
    ensures Inv(s', now)
  {
    hide SessionsOk;
  }

  lemma {:induction false} StepKeepsInv(s: Store, op: Op, clock: int)
    requires Inv(s, clock) && clock <= op.at
    ensures Inv(Step(s, op), op.at)
  {
    hide Dispatch, Deliver, RowOk, OneRowPerUser, SessionsOk, RegisterDevice, UnregisterDevice, MarkRead, MarkOpened;
    match op
    case DoDispatch(at, users, sendPush, allows) => DispatchKeepsInv(s, users, sendPush, allows, at, clock);
    case DoDeliver(at, n, size, replies) => DeliverKeepsInv(s, n, size, at, replies, clock);
    case DoRegister(at, user, raw, ttl) =>
      DeviceStepKeepsRows(s, op);
      RegisterKeepsSessions(s, user, raw, at, ttl);
      DeviceKeepsInv(s, Step(s, op), clock, at);
    case DoUnregister(at, user, raw) =>
      DeviceStepKeepsRows(s, op);
      DeviceKeepsInv(s, Step(s, op), clock, at);
    case DoMarkRead(at, user, id) => InboxKeepsInv(s, user, id, at, clock);
    case DoMarkOpened(at, user, id) => InboxKeepsInv(s, user, id, at, clock);
  }

  lemma {:induction false} DeviceStepKeepsRows(s: Store, op: Op)
    requires op.DoRegister? || op.DoUnregister?
    ensures Step(s, op).rows == s.rows && Step(s, op).notifications == s.notifications
    ensures op.DoUnregister? && SessionsOk(s.sessions) ==> SessionsOk(Step(s, op).sessions)
  {
    if op.DoUnregister? && SessionsOk(s.sessions) {
      DetachKeepsSessions(s.sessions, HeldBy(Strip(op.raw), op.user), op.at);
    }
  }

  function LastTime(ops: seq<Op>, start: int): int {
    if ops == [] then start else ops[|ops| - 1].at
  }

  lemma {:induction false} RunKeepsInv(s: Store, ops: seq<Op>, start: int)
    requires Inv(s, start) && Timed(ops) && (forall i | 0 <= i < |ops| :: start <= ops[i].at)
    ensures Inv(Run(s, ops), LastTime(ops, start))
  {
    hide Step, Inv;
    if ops != [] {
      RunKeepsInv(s, ops[..|ops| - 1], start);
      StepKeepsInv(Run(s, ops[..|ops| - 1]), ops[|ops| - 1], LastTime(ops[..|ops| - 1], start));
    }
  }

  /** In every timed run from nothing: READ is having a read time, QUEUED and FAILED have no delivery
      time, SENT has one, opened implies read no later; one row for each user of a notification; and
      each token on at most one session. */
  lemma {:induction false} EveryRunIsConsistent(ops: seq<Op>, i: nat, j: nat, a: nat, b: nat)
    requires Timed(ops)
    ensures var s := Run(EMPTY, ops);
      && (i < |s.rows| ==> RowOk(s.rows[i], LastTime(ops, 0)))
      && (i < j < |s.rows| && s.rows[i].notification == s.rows[j].notification ==> s.rows[i].user != s.rows[j].user)
      && (a < b < |s.sessions| && s.sessions[a].token.Some? ==> s.sessions[a].token != s.sessions[b].token)
  {
    if ops != [] {
      RunKeepsInv(EMPTY, ops, ops[0].at);
    }
  }

  /** Reading is final: a read row keeps its status and its read time for ever. */
  lemma {:induction false} ReadIsFinal(s: Store, ops: seq<Op>, r: nat)
    requires r < |s.rows| && s.rows[r].readAt.Some? && s.rows[r].status == Read
    ensures var s' := Run(s, ops);
      r < |s'.rows| && s'.rows[r].readAt == s.rows[r].readAt && s'.rows[r].status == Read && s'.rows[r].user == s.rows[r].user
  {
    if ops != [] {
      hide Deliver, RegisterDevice, UnregisterDevice, Distinct;
      var before, op := Run(s, ops[..|ops| - 1]), ops[|ops| - 1];
      ReadIsFinal(s, ops[..|ops| - 1], r);
      match op
      case DoDeliver(at, n, size, replies) => DeliverRow(before, n, size, at, replies, r);
      case DoRegister(_, _, _, _) => DeviceStepKeepsRows(before, op);
      case DoUnregister(_, _, _) => DeviceStepKeepsRows(before, op);
      case _ =>
    }
  }

  /** Dispatch makes one row for each distinct user, and reports how many of them are queued. */
  lemma {:induction false} DispatchRows(s: Store, users: seq<Option<nat>>, sendPush: bool, allows: nat -> bool,
                                        now: int)
    ensures var d := Dispatch(s, users, sendPush, allows, now); var made := d.0.rows[|s.rows|..];
      && d.0.rows == s.rows + made
      && (forall u :: Some(u) in users <==> exists i :: 0 <= i < |made| && made[i].user == u)
      && (forall i, j | 0 <= i < j < |made| :: made[i].user != made[j].user)
      && (forall i | 0 <= i < |made| :: made[i].notification == s.notifications
            && (made[i].status == Queued <==> sendPush && allows(made[i].user)))
      && d.1 == CountQueued(made)
  {
    DistinctIs(users);
    var us := Distinct(users);
    var rows := NewRows(s.notifications, us, sendPush, allows, now);
    assert (s.rows + rows)[|s.rows|..] == rows;
    forall u ensures Some(u) in users <==> exists i :: 0 <= i < |rows| && rows[i].user == u {
      if Some(u) in users {
        var i :| 0 <= i < |us| && us[i] == u;
        assert rows[i].user == u;
      }
    }
  }
}
