/** Everything a delivery call does, from the stored rows and sessions, the messages and the replies alone
    (apps/notifications/services/push_delivery_service.py): whom it takes, to which tokens it sends, how each
    row and each session ends, and what its report counts. */
module DeliveryEffects {
  import opened Text
  import opened Notifications
  import opened NotificationRuns
  import opened Delivery

  // ----- whom a call takes, and the messages it sends -----

  /** The queued rows of the notification that were created before `r`. */
  function Ahead(rows: seq<Recipient>, n: nat, r: nat): set<nat> {
    set q | 0 <= q < r && q < |rows| && rows[q].notification == n && rows[q].status == Queued
  }

  lemma {:induction false} QueuedSplit(rows: seq<Recipient>, n: nat, r: nat)
    requires r <= |rows|
    ensures QueuedOf(rows[..r], n) <= QueuedOf(rows, n) && |QueuedOf(rows[..r], n)| == |Ahead(rows, n, r)|
    decreases |rows|
  {
    if r < |rows| {
      var m := |rows| - 1;
      QueuedSplit(rows[..m], n, r);
      assert rows[..m][..r] == rows[..r];
      assert Ahead(rows[..m], n, r) == Ahead(rows, n, r);
    } else {
      assert rows[..r] == rows;
      QueuedOfIs(rows, n);
      IncreasingSet(QueuedOf(rows, n));
      assert Elements(QueuedOf(rows, n)) == Ahead(rows, n, r);
    }
  }

  /** A call takes the first queued rows of its notification, as many as fit. */
  lemma {:induction false} BatchIs(s: Store, n: nat, size: nat, now: int, r: nat)
    ensures r in MakePlan(s, n, size, now).batch
            <==> r < |s.rows| && s.rows[r].notification == n && s.rows[r].status == Queued && |Ahead(s.rows, n, r)| < size
  {
    hide Pairs;
    var queued := QueuedOf(s.rows, n);
    QueuedOfIs(s.rows, n);
    if r < |s.rows| && IsQueued(s.rows[r], n) {
      QueuedSplit(s.rows, n, r);
      QueuedSplit(s.rows, n, r + 1);
      assert Ahead(s.rows, n, r + 1) == Ahead(s.rows, n, r) + {r};
      var k := |Ahead(s.rows, n, r)|;
      assert s.rows[..r + 1][..r] == s.rows[..r];
      assert queued[k] == QueuedOf(s.rows[..r + 1], n)[k] == r;
    }
  }

  /** A token the user may be reached by. */
  ghost predicate Reaches(sessions: seq<Session>, i: nat, user: nat, t: string, now: int) {
    && i < |sessions| && sessions[i].user == user && sessions[i].token == Some(t) && t != ""
    && sessions[i].revokedAt == None && now < sessions[i].expiresAt
  }

  lemma {:induction false} TokensAre(sessions: seq<Session>, user: nat, now: int, t: string)
    ensures t in ActiveTokens(sessions, user, now) <==> exists i: nat :: Reaches(sessions, i, user, t, now)
  {
    if sessions != [] {
      var m := |sessions| - 1;
      TokensAre(sessions[..m], user, now, t);
      if i: nat :| Reaches(sessions, i, user, t, now) {
        assert i < m ==> Reaches(sessions[..m], i, user, t, now);
      }
      if i: nat :| Reaches(sessions[..m], i, user, t, now) {
        assert Reaches(sessions, i, user, t, now);
      }
      assert Usable(sessions[m], user, now) && sessions[m].token == Some(t) ==> Reaches(sessions, m, user, t, now);
    }
  }

  /** Each recipient taken is sent one message for each of its user's tokens that is held by a session
      neither revoked nor expired, and no others. */
  lemma {:induction false} MessagesAre(s: Store, n: nat, size: nat, now: int, t: string, r: nat)
    ensures var plan := MakePlan(s, n, size, now);
      (t, r) in plan.pairs <==> r in plan.batch && r < |s.rows| && exists i: nat :: Reaches(s.sessions, i, s.rows[r].user, t, now)
  {
    hide Pairs, ActiveTokens;
    BatchIsOk(s, n, size);
    PairsOfRecipient(s, Batch(s.rows, n, size), now, r, t);
    if r < |s.rows| {
      TokensAre(s.sessions, s.rows[r].user, now, t);
    }
  }

  // ----- how each row ends -----

  ghost predicate AnyMessage(pairs: seq<(string, nat)>, r: nat) {
    exists k :: 0 <= k < |pairs| && pairs[k].1 == r
  }

  ghost predicate AnySuccess(pairs: seq<(string, nat)>, replies: seq<Reply>, r: nat) {
    exists k :: 0 <= k < |pairs| && k < |replies| && pairs[k].1 == r && replies[k].success
  }

  ghost predicate AnyRetry(pairs: seq<(string, nat)>, replies: seq<Reply>, r: nat) {
    exists k :: 0 <= k < |pairs| && k < |replies| && pairs[k].1 == r && !replies[k].success && replies[k].retryable
  }

  lemma {:induction false} JudgeMeans(pairs: seq<(string, nat)>, replies: seq<Reply>, r: nat)
    ensures Judge(pairs, replies, r) == if !AnyMessage(pairs, r) then NoToken else if AnySuccess(pairs, replies, r) then Delivered
                                        else if AnyRetry(pairs, replies, r) then Retry else GaveUp
  {
    assert HasPair(pairs, r) == AnyMessage(pairs, r);
    if i :| 0 <= i < |pairs| && pairs[i].1 == r && Ok(replies, i) {
      assert AnySuccess(pairs, replies, r);
    }
    if i :| 0 <= i < |pairs| && pairs[i].1 == r && Again(replies, i) {
      assert AnyRetry(pairs, replies, r);
    }
    if AnySuccess(pairs, replies, r) {
      var k :| 0 <= k < |pairs| && k < |replies| && pairs[k].1 == r && replies[k].success;
      assert Ok(replies, k);
    }
    if AnyRetry(pairs, replies, r) {
      var k :| 0 <= k < |pairs| && k < |replies| && pairs[k].1 == r && !replies[k].success && replies[k].retryable;
      assert Again(replies, k);
    }
  }

  /** The row of a recipient taken: no message, a success, something to retry, or none of these. Every other
      row stays as it was. */
  lemma {:induction false} RowAfter(s: Store, n: nat, size: nat, now: int, replies: seq<Reply>, r: nat)
    requires r < |s.rows|
    ensures var s' := Deliver(s, n, size, now, replies).0; var plan := MakePlan(s, n, size, now);
      && |s'.rows| == |s.rows| && s'.notifications == s.notifications
      && s'.rows[r] == if r !in plan.batch then s.rows[r]
                       else if !AnyMessage(plan.pairs, r)
                       then s.rows[r].(status := Failed, deliveredAt := None, failure := "No active FCM token.")
                       else if AnySuccess(plan.pairs, replies, r) then s.rows[r].(status := Sent, deliveredAt := Some(now))
                       else if AnyRetry(plan.pairs, replies, r) then s.rows[r]
                       else s.rows[r].(status := Failed, failure := "FCM delivery failed.")
  {
    hide MakePlan, Judge, AnyMessage, AnySuccess, AnyRetry;
    DeliverRow(s, n, size, now, replies, r);
    JudgeMeans(MakePlan(s, n, size, now).pairs, replies, r);
  }

  // ----- how each session ends -----

  /** Message `k` was answered: this token is no longer valid. */
  ghost predicate ReportedInvalid(pairs: seq<(string, nat)>, replies: seq<Reply>, k: nat, t: string) {
    && k < |pairs| && k < |replies| && pairs[k].0 == t
    && !replies[k].success && !replies[k].retryable && replies[k].invalid
  }

  /** A session loses its token exactly when a message to that token was answered so; every other session
      stays as it was. */
  lemma {:induction false} SessionAfter(s: Store, n: nat, size: nat, now: int, replies: seq<Reply>, i: nat)
    requires i < |s.sessions|
    ensures var s' := Deliver(s, n, size, now, replies).0; var pairs := MakePlan(s, n, size, now).pairs;
      var x := s.sessions[i];
      && |s'.sessions| == |s.sessions|
      && s'.sessions[i] == if x.token.Some? && exists k: nat :: ReportedInvalid(pairs, replies, k, x.token.value)
                           then x.(token := None, revokedAt := Some(now)) else x
  {
    hide MakePlan;
    var pairs := MakePlan(s, n, size, now).pairs;
    var x := s.sessions[i];
    if x.token.Some? {
      BadTokenMeans(pairs, replies, x.token.value);
    }
  }

  lemma {:induction false} BadTokenMeans(pairs: seq<(string, nat)>, replies: seq<Reply>, t: string)
    ensures t in BadTokens(pairs, replies) <==> exists k: nat :: ReportedInvalid(pairs, replies, k, t)
  {
    if t in BadTokens(pairs, replies) {
      var k :| 0 <= k < |pairs| && BadToken(replies, k) && pairs[k].0 == t;
      assert ReportedInvalid(pairs, replies, k, t);
    }
    if k: nat :| ReportedInvalid(pairs, replies, k, t) {
      assert BadToken(replies, k);
    }
  }

  // ----- what the report counts -----

  /** As many sessions as tokens: each token is on one session. */
  lemma {:induction false} OneSessionEach(sessions: seq<Session>, held: set<nat>, tokens: set<string>)
    requires SessionsOk(sessions) && forall i | i in held :: i < |sessions| && sessions[i].token.Some?
    requires tokens == set i | i in held :: sessions[i].token.value
    ensures |held| == |tokens|
    decreases held
  {
    if held != {} {
      var i :| i in held;
      var t := sessions[i].token.value;
      forall j | j in held - {i} ensures sessions[j].token.value != t {
        TokensSeparate(sessions, i, j);
      }
      assert tokens - {t} == set j | j in held - {i} :: sessions[j].token.value;
      OneSessionEach(sessions, held - {i}, tokens - {t});
    }
  }

  lemma {:induction false} TokensSeparate(sessions: seq<Session>, a: nat, b: nat)
    requires SessionsOk(sessions) && a < |sessions| && b < |sessions| && a != b && sessions[a].token.Some?
    ensures sessions[a].token != sessions[b].token
  {
  }

  /** A message's token is on some session. */
  lemma {:induction false} BadTokenHasSession(s: Store, n: nat, size: nat, now: int, replies: seq<Reply>, t: string)
    returns (i: nat)
    requires t in BadTokens(MakePlan(s, n, size, now).pairs, replies)
    ensures i < |s.sessions| && s.sessions[i].token == Some(t)
  {
    hide Pairs;
    BatchIsOk(s, n, size);
    var pairs := MakePlan(s, n, size, now).pairs;
    var k :| 0 <= k < |pairs| && BadToken(replies, k) && pairs[k].0 == t;
    i := PairOrigin(s, Batch(s.rows, n, size), now, k);
  }

  function TakenWith(s': Store, batch: seq<nat>, status: Status): set<nat> {
    set r | r in batch && r < |s'.rows| && s'.rows[r].status == status
  }

  predicate Shows(s': Store, plan: Plan, replies: seq<Reply>, r: nat) {
    var v := VerdictOf(plan, replies, r);
    && r < |s'.rows|
    && (s'.rows[r].status == Queued <==> v == Retry) && (s'.rows[r].status == Sent <==> v == Delivered)
    && (s'.rows[r].status == Failed <==> v == GaveUp || v == NoToken)
  }

  lemma {:induction false} VerdictsShow(s: Store, n: nat, size: nat, now: int, replies: seq<Reply>)
    ensures var s' := Deliver(s, n, size, now, replies).0; var plan := MakePlan(s, n, size, now);
      && WithVerdict(plan, replies, Retry) == TakenWith(s', plan.batch, Queued)
      && WithVerdict(plan, replies, Delivered) == TakenWith(s', plan.batch, Sent)
      && |WithVerdict(plan, replies, GaveUp)| + |WithVerdict(plan, replies, NoToken)| == |TakenWith(s', plan.batch, Failed)|
      && |plan.batch| == |set r | r in plan.batch|
  {
    hide Pairs, Judge, QueuedOf, Deliver;
    var plan := MakePlan(s, n, size, now);
    var s' := Deliver(s, n, size, now, replies).0;
    BatchIsOk(s, n, size);
    IncreasingSet(plan.batch);
    assert Elements(plan.batch) == set r | r in plan.batch;
    forall r | r in plan.batch ensures Shows(s', plan, replies, r) {
      DeliverRow(s, n, size, now, replies, r);
      JudgeIs(plan.pairs, replies, r);
    }
    var gaveUp, none := WithVerdict(plan, replies, GaveUp), WithVerdict(plan, replies, NoToken);
    assert TakenWith(s', plan.batch, Failed) == gaveUp + none && gaveUp !! none;
  }

  lemma {:induction false} RevokedSessions(s: Store, n: nat, size: nat, now: int, replies: seq<Reply>)
    requires SessionsOk(s.sessions)
    ensures var s' := Deliver(s, n, size, now, replies).0;
      && |s'.sessions| == |s.sessions|
      && |BadTokens(MakePlan(s, n, size, now).pairs, replies)| == |set i | 0 <= i < |s.sessions| && s'.sessions[i] != s.sessions[i]|
  {
    hide MakePlan, SessionsOk, BadTokens;
    var s' := Deliver(s, n, size, now, replies).0;
    var bad := BadTokens(MakePlan(s, n, size, now).pairs, replies);
    var held := set i | 0 <= i < |s.sessions| && s'.sessions[i] != s.sessions[i];
    assert forall i | 0 <= i < |s.sessions| :: i in held <==> s.sessions[i].token.Some? && s.sessions[i].token.value in bad;
    forall t | t in bad ensures t in set i | i in held :: s.sessions[i].token.value {
      var i := BadTokenHasSession(s, n, size, now, replies, t);
      assert i in held;
    }
    OneSessionEach(s.sessions, held, bad);
  }

  /** The report's numbers: rows taken, rows that became SENT and FAILED, and sessions that lost their token;
      or, if any, the rows taken that are still QUEUED. */
  lemma {:induction false} ReportCounts(s: Store, n: nat, size: nat, now: int, replies: seq<Reply>)
    requires SessionsOk(s.sessions)
    ensures var (s', report) := Deliver(s, n, size, now, replies); var batch := MakePlan(s, n, size, now).batch;
      var left := TakenWith(s', batch, Queued);
      && |s'.sessions| == |s.sessions|
      && (report.Raised? <==> left != {})
      && (report.Raised? ==> report.retryable == |left|)
      && (report.Summary? ==>
            && report.queued == |set r | r in batch|
            && report.sent == |TakenWith(s', batch, Sent)| && report.failed == |TakenWith(s', batch, Failed)|
            && report.invalid == |set i | 0 <= i < |s.sessions| && s'.sessions[i] != s.sessions[i]|)
  {
    hide MakePlan, WithVerdict, BadTokens, Persist, TakenWith;
    VerdictsShow(s, n, size, now, replies);
    RevokedSessions(s, n, size, now, replies);
  }
}
