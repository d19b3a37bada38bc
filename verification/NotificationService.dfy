/** The notification services as code that updates its tables in place. Each method's contract is
    the matching step of `Notifications`, and the tables stay consistent throughout. */
module NotificationService {
  import opened Text
  import opened Notifications
  import opened NotificationRuns
  import opened Delivery

  function TokensFor(tokensByUser: map<nat, seq<string>>, user: nat): seq<string> {
    if user in tokensByUser then tokensByUser[user] else []
  }

  /** The session query: usable sessions of the given users. */
  function ActiveSessions(sessions: seq<Session>, users: set<nat>, now: int): seq<Session> {
    if sessions == [] then []
    else
      var last := sessions[|sessions| - 1];
      ActiveSessions(sessions[..|sessions| - 1], users, now)
      + if last.user in users && Usable(last, last.user, now) then [last] else []
  }

  lemma {:induction false} QueryKeepsTokens(sessions: seq<Session>, users: set<nat>, now: int, user: nat)
    requires user in users
    ensures ActiveTokens(ActiveSessions(sessions, users, now), user, now) == ActiveTokens(sessions, user, now)
  {
    if sessions != [] {
      var n := |sessions| - 1;
      QueryKeepsTokens(sessions[..n], users, now, user);
      var before, after := ActiveSessions(sessions[..n], users, now), ActiveSessions(sessions, users, now);
      if sessions[n].user in users && Usable(sessions[n], sessions[n].user, now) {
        assert after == before + [sessions[n]];
        assert after[..|after| - 1] == before;
      } else {
        assert after == before;
      }
    }
  }

  lemma {:induction false} QueryUsable(sessions: seq<Session>, users: set<nat>, now: int)
    ensures forall i | 0 <= i < |ActiveSessions(sessions, users, now)| ::
              Usable(ActiveSessions(sessions, users, now)[i], ActiveSessions(sessions, users, now)[i].user, now)
  {
    if sessions != [] {
      QueryUsable(sessions[..|sessions| - 1], users, now);
    }
  }

  /** The recipients whose users have no usable token, in batch order. */
  function Tokenless(s: Store, batch: seq<nat>, now: int): seq<nat>
    requires forall i | 0 <= i < |batch| :: batch[i] < |s.rows|
  {
    if batch == [] then []
    else
      var r := batch[|batch| - 1];
      Tokenless(s, batch[..|batch| - 1], now) + if ActiveTokens(s.sessions, s.rows[r].user, now) == [] then [r] else []
  }

  lemma {:induction false} TokenlessIs(s: Store, batch: seq<nat>, now: int)
    requires forall i | 0 <= i < |batch| :: batch[i] < |s.rows|
    requires forall i, j | 0 <= i < j < |batch| :: batch[i] < batch[j]
    ensures var none := Tokenless(s, batch, now);
      && (forall i, j | 0 <= i < j < |none| :: none[i] < none[j])
      && (forall r: nat :: r in none <==> r in batch && ActiveTokens(s.sessions, s.rows[r].user, now) == [])
  {
    hide ActiveTokens;
    if batch != [] {
      var before, last := batch[..|batch| - 1], batch[|batch| - 1];
      TokenlessIs(s, before, now);
      assert forall i | 0 <= i < |before| :: before[i] < last;
      var none := Tokenless(s, before, now);
      assert forall i | 0 <= i < |none| :: none[i] in none;
      assert forall r: nat | r in none :: r < last;
      LastIn(batch);
    }
  }

  lemma {:induction false} LastIn(xs: seq<nat>)
    requires xs != []
    ensures forall x :: x in xs <==> x in xs[..|xs| - 1] || x == xs[|xs| - 1]
  {
    assert xs == xs[..|xs| - 1] + [xs[|xs| - 1]];
  }

  // ----- the three sets of a delivery call -----

  function OkIds(pairs: seq<(string, nat)>, replies: seq<Reply>): set<nat> {
    set i | 0 <= i < |pairs| && Ok(replies, i) :: pairs[i].1
  }

  function AgainIds(pairs: seq<(string, nat)>, replies: seq<Reply>): set<nat> {
    set i | 0 <= i < |pairs| && Again(replies, i) :: pairs[i].1
  }

  function FailedIds(pairs: seq<(string, nat)>, replies: seq<Reply>): set<nat> {
    set i | 0 <= i < |pairs| && !Ok(replies, i) && !Again(replies, i) :: pairs[i].1
  }

  /** After the subtractions the three sets hold exactly the recipients with each verdict. */
  lemma {:induction false} SetsAreVerdicts(pairs: seq<(string, nat)>, replies: seq<Reply>, r: nat)
    ensures var sent := OkIds(pairs, replies); var retry := AgainIds(pairs, replies) - sent;
      && (r in sent <==> Judge(pairs, replies, r) == Delivered)
      && (r in retry <==> Judge(pairs, replies, r) == Retry)
      && (r in FailedIds(pairs, replies) - sent - retry <==> Judge(pairs, replies, r) == GaveUp)
  {
    hide Ok, Again;
    if i :| 0 <= i < |pairs| && pairs[i].1 == r && Ok(replies, i) {
      assert pairs[i].1 in OkIds(pairs, replies);
    } else if i :| 0 <= i < |pairs| && pairs[i].1 == r && Again(replies, i) {
      assert pairs[i].1 in AgainIds(pairs, replies);
    } else if HasPair(pairs, r) {
      var i :| 0 <= i < |pairs| && pairs[i].1 == r;
      assert pairs[i].1 in FailedIds(pairs, replies);
    }
  }

  lemma {:induction false} NoIds(pairs: seq<(string, nat)>, replies: seq<Reply>)
    ensures OkIds(pairs[..0], replies) == AgainIds(pairs[..0], replies) == FailedIds(pairs[..0], replies) == {}
    ensures BadTokens(pairs[..0], replies) == {}
  {
  }

  lemma {:induction false} NextIds(pairs: seq<(string, nat)>, replies: seq<Reply>, i: nat)
    requires i < |pairs|
    ensures OkIds(pairs[..i + 1], replies) == OkIds(pairs[..i], replies) + (if Ok(replies, i) then {pairs[i].1} else {})
    ensures AgainIds(pairs[..i + 1], replies) == AgainIds(pairs[..i], replies) + (if Again(replies, i) then {pairs[i].1} else {})
    ensures FailedIds(pairs[..i + 1], replies)
            == FailedIds(pairs[..i], replies) + (if !Ok(replies, i) && !Again(replies, i) then {pairs[i].1} else {})
    ensures BadTokens(pairs[..i + 1], replies) == BadTokens(pairs[..i], replies) + (if BadToken(replies, i) then {pairs[i].0} else {})
  {
    hide Ok, Again, BadToken;
    assert forall j | 0 <= j < i :: pairs[..i + 1][j] == pairs[..i][j];
    assert pairs[..i + 1][i] == pairs[i];
  }

  lemma {:induction false} CountNone()
    ensures CountQueued([]) == 0
  {
  }

  lemma {:induction false} CountNext(made: seq<Recipient>, row: Recipient)
    ensures CountQueued(made + [row]) == CountQueued(made) + if row.status == Queued then 1 else 0
  {
    assert (made + [row])[..|made|] == made;
  }

  lemma {:induction false} NewRowIs(n: nat, user: nat, sendPush: bool, allows: nat -> bool, now: int)
    ensures var push := sendPush && allows(user);
      NewRow(n, user, sendPush, allows, now)
      == Recipient(n, user, if push then Queued else Sent, if push then None else Some(now), None, None,
                   if sendPush && !push then "Push disabled by notification preferences." else "")
  {
  }

  class Service {
    var rows: seq<Recipient>
    var sessions: seq<Session>
    var notifications: nat
    ghost var clock: int

    constructor (start: int)
      ensures Tables() == EMPTY && clock == start && Valid()
    {
      rows, sessions, notifications, clock := [], [], 0, start;
    }

    function Tables(): Store
      reads this`rows, this`sessions, this`notifications
    {
      Store(rows, sessions, notifications)
    }

    ghost predicate Valid()
      reads this
    {
      Inv(Tables(), clock)
    }

    /** The distinct users, in order of first appearance. */
    method UniqueUsers(users: seq<Option<nat>>) returns (unique: seq<nat>)
      ensures unique == Distinct(users)
    {
      unique := [];
      for i := 0 to |users|
        invariant unique == Distinct(users[..i])
      {
        assert users[..i + 1][..i] == users[..i];
        if users[i].Some? && users[i].value !in unique {
          unique := unique + [users[i].value];
        }
      }
      assert users[..|users|] == users;
    }

    method BuildRows(unique: seq<nat>, sendPush: bool, allows: nat -> bool, now: int)
      returns (toCreate: seq<Recipient>, queuedCount: nat)
      ensures toCreate == NewRows(notifications, unique, sendPush, allows, now) && queuedCount == CountQueued(toCreate)
    {
      hide CountQueued, NewRow;
      CountNone();
      toCreate, queuedCount := [], 0;
      for i := 0 to |unique|
        invariant |toCreate| == i && queuedCount == CountQueued(toCreate)
        invariant forall k | 0 <= k < i :: toCreate[k] == NewRow(notifications, unique[k], sendPush, allows, now)
      {
        var user := unique[i];
        var allowsPush := sendPush && allows(user);
        if allowsPush {
          queuedCount := queuedCount + 1;
        }
        var row := Recipient(notifications, user, if allowsPush then Queued else Sent,
                             if allowsPush then None else Some(now), None, None,
                             if sendPush && !allowsPush then "Push disabled by notification preferences." else "");
        CountNext(toCreate, row);
        NewRowIs(notifications, user, sendPush, allows, now);
        toCreate := toCreate + [row];
      }
      assert toCreate == NewRows(notifications, unique, sendPush, allows, now);
    }

    method CreateAndDispatch(users: seq<Option<nat>>, sendPush: bool, allows: nat -> bool, now: int)
      returns (recipientCount: nat, queuedCount: nat)
      requires Valid() && clock <= now
      modifies this
      ensures Valid() && clock == now
      ensures (Tables(), queuedCount) == Dispatch(old(Tables()), users, sendPush, allows, now)
      ensures recipientCount == |Distinct(users)|
    {
      hide Inv, Distinct, NewRow, CountQueued;
      DispatchKeepsInv(Tables(), users, sendPush, allows, now, clock);
      var unique := UniqueUsers(users);
      var toCreate;
      toCreate, queuedCount := BuildRows(unique, sendPush, allows, now);
      recipientCount := |toCreate|;
      rows := rows + toCreate;
      notifications := notifications + 1;
      clock := now;
    }

    method MarkRead(user: nat, id: nat, now: int) returns (found: bool)
      requires Valid() && clock <= now
      modifies this
      ensures Valid() && clock == now
      ensures Tables() == Notifications.MarkRead(old(Tables()), user, id, now) && found == Owns(old(Tables()), user, id)
    {
      StepKeepsInv(Tables(), DoMarkRead(now, user, id), clock);
      clock := now;
      if !(id < |rows| && rows[id].user == user) {
        return false;
      }
      var recipient := rows[id];
      if recipient.readAt.None? {
        recipient := recipient.(readAt := Some(now));
        recipient := recipient.(status := Read);
        rows := rows[id := recipient];
      }
      found := true;
    }

    method MarkOpened(user: nat, id: nat, now: int) returns (found: bool)
      requires Valid() && clock <= now
      modifies this
      ensures Valid() && clock == now
      ensures Tables() == Notifications.MarkOpened(old(Tables()), user, id, now) && found == Owns(old(Tables()), user, id)
    {
      StepKeepsInv(Tables(), DoMarkOpened(now, user, id), clock);
      clock := now;
      if !(id < |rows| && rows[id].user == user) {
        return false;
      }
      var recipient := rows[id];
      if recipient.openedAt.None? {
        recipient := recipient.(openedAt := Some(now));
      }
      if recipient.readAt.None? {
        recipient := recipient.(readAt := recipient.openedAt);
        recipient := recipient.(status := Read);
      }
      rows := rows[id := recipient];
      found := true;
    }

    method RegisterDevice(user: nat, raw: string, now: int, ttl: int) returns (created: bool)
      requires Valid() && clock <= now
      modifies this
      ensures Valid() && clock == now
      ensures Tables() == Notifications.RegisterDevice(old(Tables()), user, raw, now, ttl)
      ensures created <==> forall i | 0 <= i < |old(sessions)| :: old(sessions)[i].key != (user, Strip(raw))
    {
      StepKeepsInv(Tables(), DoRegister(now, user, raw, ttl), clock);
      clock := now;
      var token := Strip(raw);
      sessions := DetachWhere(sessions, HeldByOthers(token, user), now);
      assert forall i | 0 <= i < |sessions| :: sessions[i].key == old(sessions)[i].key;
      var session := Session((user, token), user, Some(token), now + ttl, None);
      ghost var detached := sessions;
      for i := 0 to |sessions|
        invariant sessions == detached
        invariant forall k | 0 <= k < i :: sessions[k].key != session.key
      {
        if sessions[i].key == session.key {
          assert old(sessions)[i].key == session.key;
          sessions := sessions[i := session];
          KeyIsUnique(old(Tables()).sessions, detached, i, session);
          return false;
        }
      }
      sessions := [session] + sessions;
      created := true;
    }

    method UnregisterDevice(user: nat, raw: string, now: int) returns (updated: nat)
      requires Valid() && clock <= now
      modifies this
      ensures Valid() && clock == now
      ensures Tables() == Notifications.UnregisterDevice(old(Tables()), user, raw, now)
      ensures updated == |set i | 0 <= i < |old(sessions)| && HeldBy(Strip(raw), user).Matches(old(sessions)[i])|
    {
      StepKeepsInv(Tables(), DoUnregister(now, user, raw), clock);
      clock := now;
      var mine := HeldBy(Strip(raw), user);
      updated := |set i | 0 <= i < |sessions| && mine.Matches(sessions[i])|;
      sessions := DetachWhere(sessions, mine, now);
    }

    /** The dictionary from each user to its tokens, filled session by session. */
    method GroupTokens(active: seq<Session>, now: int) returns (tokensByUser: map<nat, seq<string>>)
      requires forall i | 0 <= i < |active| :: Usable(active[i], active[i].user, now)
      ensures forall user: nat :: TokensFor(tokensByUser, user) == ActiveTokens(active, user, now)
    {
      tokensByUser := map[];
      for i := 0 to |active|
        invariant forall user: nat :: TokensFor(tokensByUser, user) == ActiveTokens(active[..i], user, now)
      {
        assert active[..i + 1][..i] == active[..i];
        var session := active[i];
        tokensByUser := tokensByUser[session.user := TokensFor(tokensByUser, session.user) + [session.token.value]];
      }
      assert active[..|active|] == active;
    }

    /** The messages to send, and the recipients without any token. */
    method CollectPairs(recipients: seq<nat>, tokensByUser: map<nat, seq<string>>, now: int)
      returns (pairs: seq<(string, nat)>, withoutToken: seq<nat>)
      requires forall i | 0 <= i < |recipients| :: recipients[i] < |rows|
      requires forall i | 0 <= i < |recipients| ::
                 TokensFor(tokensByUser, rows[recipients[i]].user) == ActiveTokens(sessions, rows[recipients[i]].user, now)
      ensures pairs == Pairs(Tables(), recipients, now) && withoutToken == Tokenless(Tables(), recipients, now)
    {
      hide ActiveTokens, TokensFor;
      pairs, withoutToken := [], [];
      for i := 0 to |recipients|
        invariant pairs == Pairs(Tables(), recipients[..i], now)
        invariant withoutToken == Tokenless(Tables(), recipients[..i], now)
      {
        assert recipients[..i + 1][..i] == recipients[..i];
        var tokens := TokensFor(tokensByUser, rows[recipients[i]].user);
        if tokens == [] {
          withoutToken := withoutToken + [recipients[i]];
        }
        pairs := pairs + seq(|tokens|, k requires 0 <= k < |tokens| => (tokens[k], recipients[i]));
      }
      assert recipients[..|recipients|] == recipients;
    }

    /** `{result.token: result for result in results}` */
    method IndexResults(pairs: seq<(string, nat)>, replies: seq<Reply>) returns (resultByToken: map<string, Reply>)
      ensures resultByToken == ResultByToken(pairs, replies)
    {
      resultByToken := map[];
      for i := 0 to |pairs|
        invariant resultByToken == ResultByToken(pairs[..i], replies)
      {
        assert pairs[..i + 1][..i] == pairs[..i];
        if i < |replies| {
          resultByToken := resultByToken[pairs[i].0 := replies[i]];
        }
      }
      assert pairs[..|pairs|] == pairs;
    }

    /** The classification loop: three sets of recipients, by the reply the dictionary has for each
        token, and the tokens reported invalid. */
    method Classify(pairs: seq<(string, nat)>, replies: seq<Reply>)
      returns (sent: set<nat>, failed: set<nat>, retryable: set<nat>, invalid: seq<string>)
      requires TokensDistinct(pairs)
      ensures sent == OkIds(pairs, replies) && retryable == AgainIds(pairs, replies) && failed == FailedIds(pairs, replies)
      ensures (set t | t in invalid) == BadTokens(pairs, replies)
    {
      hide ResultByToken, OkIds, AgainIds, FailedIds, BadTokens, TokensDistinct;
      var resultByToken := IndexResults(pairs, replies);
      sent, failed, retryable, invalid := {}, {}, {}, [];
      NoIds(pairs, replies);
      for i := 0 to |pairs|
        invariant sent == OkIds(pairs[..i], replies) && retryable == AgainIds(pairs[..i], replies)
        invariant failed == FailedIds(pairs[..i], replies) && (set t | t in invalid) == BadTokens(pairs[..i], replies)
      {
        var (token, recipient) := pairs[i];
        DictionaryKeepsReplies(pairs, replies, i);
        NextIds(pairs, replies, i);
        if token in resultByToken && resultByToken[token].success {
          sent := sent + {recipient};
        } else if token in resultByToken && resultByToken[token].retryable {
          retryable := retryable + {recipient};
        } else {
          failed := failed + {recipient};
          if token in resultByToken && resultByToken[token].invalid {
            invalid := invalid + [token];
          }
        }
      }
      assert pairs[..|pairs|] == pairs;
    }

    /** The query and the dictionary: each recipient of the batch finds its user's tokens. */
    method QueryTokens(recipients: seq<nat>, now: int) returns (tokensByUser: map<nat, seq<string>>)
      requires forall i | 0 <= i < |recipients| :: recipients[i] < |rows|
      ensures forall i | 0 <= i < |recipients| ::
                TokensFor(tokensByUser, rows[recipients[i]].user) == ActiveTokens(sessions, rows[recipients[i]].user, now)
    {
      var users := set r | r in recipients :: rows[r].user;
      var active := ActiveSessions(sessions, users, now);
      QueryUsable(sessions, users, now);
      tokensByUser := GroupTokens(active, now);
      forall i | 0 <= i < |recipients|
        ensures TokensFor(tokensByUser, rows[recipients[i]].user) == ActiveTokens(sessions, rows[recipients[i]].user, now)
      {
        assert rows[recipients[i]].user in users;
        QueryKeepsTokens(sessions, users, now, rows[recipients[i]].user);
      }
    }

    method PersistDeliveryResults(sent: set<nat>, failed: set<nat>, invalid: seq<string>, now: int)
      requires sent !! failed
      modifies this`rows, this`sessions
      ensures rows == MarkSettled(old(rows), sent, failed, now)
      ensures sessions == DetachWhere(old(sessions), HeldAtAll(set t | t in invalid), now)
    {
      if sent != {} {
        rows := MarkSettled(rows, sent, {}, now);
      }
      if failed != {} {
        rows := MarkSettled(rows, {}, failed, now);
      }
      if invalid != [] {
        sessions := DetachWhere(sessions, HeldAtAll(set t | t in invalid), now);
      }
    }

    method DeliverNotification(n: nat, setting: int, send: seq<(string, nat)> -> seq<Reply>,
                               now: int) returns (report: Report)
      requires Valid() && clock <= now
      modifies this
      ensures Valid() && clock == now
      ensures var size := BatchSize(setting); var pairs := MakePlan(old(Tables()), n, size, now).pairs;
        (Tables(), report) == Deliver(old(Tables()), n, size, now, if pairs == [] then [] else send(pairs))
    {
      hide Inv, Deliver, Batch, Judge, QueuedOf, Pairs, ActiveTokens, BadTokens, OkIds, AgainIds, FailedIds,
        MarkWithoutToken, MarkSettled, DetachWhere, TokensDistinct, TokensFor, Tokenless;
      var size := BatchSize(setting);
      ghost var before := Tables();
      var recipients := Batch(rows, n, size);
      BatchIsOk(before, n, size);
      var tokensByUser := QueryTokens(recipients, now);
      var pairs, withoutToken := CollectPairs(recipients, tokensByUser, now);
      var replies := if pairs == [] then [] else send(pairs);
      PlanTokensDistinct(before, n, size, now, clock);
      DeliverKeepsInv(before, n, size, now, replies, clock);
      clock := now;
      if recipients == [] {
        NothingQueued(before, n, size, now, replies);
        return Summary(0, 0, 0, 0);
      }
      rows := MarkWithoutToken(rows, withoutToken);
      var sent, failed, retryable, invalid := Classify(pairs, replies);
      failed := failed - sent;
      retryable := retryable - sent;
      failed := failed - retryable;
      PersistDeliveryResults(sent, failed, invalid, now);
      report := if |retryable| > 0 then Raised(|retryable|)
                else Summary(|recipients|, |sent|, |failed| + |withoutToken|, |set t | t in invalid|);
      CallIsDeliver(before, n, size, now, replies, withoutToken);
    }
  }

  lemma {:induction false} KeyIsUnique(old_: seq<Session>, sessions: seq<Session>, i: nat, x: Session)
    requires SessionsOk(old_) && |sessions| == |old_|
    requires forall k | 0 <= k < |sessions| :: sessions[k].key == old_[k].key
    requires i < |sessions| && sessions[i].key == x.key
    ensures Upsert(sessions, x) == sessions[i := x]
  {
    var k := i;
    assert sessions[k].key == x.key;
    assert forall j | 0 <= j < |sessions| && j != i :: sessions[j].key != x.key;
  }

  /** The two bulk updates of recipient rows. */
  function MarkWithoutToken(rows: seq<Recipient>, ids: seq<nat>): seq<Recipient> {
    seq(|rows|, r requires 0 <= r < |rows| =>
      if r in ids then rows[r].(status := Failed, deliveredAt := None, failure := "No active FCM token.") else rows[r])
  }

  function MarkSettled(rows: seq<Recipient>, sent: set<nat>, failed: set<nat>, now: int): seq<Recipient> {
    seq(|rows|, r requires 0 <= r < |rows| =>
      if r in sent then rows[r].(status := Sent, deliveredAt := Some(now))
      else if r in failed then rows[r].(status := Failed, failure := "FCM delivery failed.")
      else rows[r])
  }

  /** The sets the call computes are the recipients of its batch with each verdict. */
  lemma {:induction false} VerdictSets(s: Store, n: nat, size: nat, now: int, replies: seq<Reply>,
                                       withoutToken: seq<nat>)
    requires BatchOk(s, MakePlan(s, n, size, now).batch, n)
    requires withoutToken == Tokenless(s, MakePlan(s, n, size, now).batch, now)
    ensures var plan := MakePlan(s, n, size, now);
      var sent := OkIds(plan.pairs, replies); var retry := AgainIds(plan.pairs, replies) - sent;
      && sent == WithVerdict(plan, replies, Delivered)
      && retry == WithVerdict(plan, replies, Retry)
      && FailedIds(plan.pairs, replies) - sent - retry == WithVerdict(plan, replies, GaveUp)
      && Elements(withoutToken) == WithVerdict(plan, replies, NoToken)
      && |withoutToken| == |WithVerdict(plan, replies, NoToken)|
  {
    hide QueuedOf, Pairs, ActiveTokens, Judge, OkIds, AgainIds, FailedIds, Tokenless;
    var plan := MakePlan(s, n, size, now);
    TokenlessIs(s, plan.batch, now);
    IncreasingSet(withoutToken);
    var sent := OkIds(plan.pairs, replies);
    var retry := AgainIds(plan.pairs, replies) - sent;
    var failed := FailedIds(plan.pairs, replies) - sent - retry;
    forall r: nat
      ensures r in sent <==> VerdictOf(plan, replies, r) == Delivered
      ensures r in retry <==> VerdictOf(plan, replies, r) == Retry
      ensures r in failed <==> VerdictOf(plan, replies, r) == GaveUp
      ensures r in withoutToken <==> VerdictOf(plan, replies, r) == NoToken
    {
      SetsAreVerdicts(plan.pairs, replies, r);
      PairsCover(s, plan.batch, now, r);
      NoPairVerdict(plan.pairs, replies, r);
    }
    assert sent == WithVerdict(plan, replies, Delivered);
    assert retry == WithVerdict(plan, replies, Retry);
    assert failed == WithVerdict(plan, replies, GaveUp);
    assert Elements(withoutToken) == WithVerdict(plan, replies, NoToken);
  }

  lemma {:induction false} NoPairVerdict(pairs: seq<(string, nat)>, replies: seq<Reply>, r: nat)
    ensures Judge(pairs, replies, r) == NoToken <==> !HasPair(pairs, r)
    ensures Judge(pairs, replies, r) != Untouched
  {
  }

  lemma {:induction false} MarkedIsPersisted(s: Store, plan: Plan, replies: seq<Reply>, now: int,
                                             withoutToken: seq<nat>)
    requires Elements(withoutToken) == WithVerdict(plan, replies, NoToken)
    ensures var sent := WithVerdict(plan, replies, Delivered); var failed := WithVerdict(plan, replies, GaveUp);
      Persist(s, plan, replies, now) == Store(MarkSettled(MarkWithoutToken(s.rows, withoutToken), sent, failed, now),
        DetachWhere(s.sessions, HeldAtAll(BadTokens(plan.pairs, replies)), now), s.notifications)
  {
    hide Judge, BadTokens, DetachWhere;
    var sent, failed := WithVerdict(plan, replies, Delivered), WithVerdict(plan, replies, GaveUp);
    var marked := MarkSettled(MarkWithoutToken(s.rows, withoutToken), sent, failed, now);
    var settled := Persist(s, plan, replies, now).rows;
    forall r | 0 <= r < |s.rows| ensures marked[r] == settled[r] {
      assert r in withoutToken <==> r in Elements(withoutToken);
      assert r in plan.batch ==> r in WithVerdict(plan, replies, VerdictOf(plan, replies, r));
    }
    assert marked == settled;
  }

  /** Set subtraction and bulk updates by id give every recipient its verdict. */
  lemma {:induction false} CallIsDeliver(s: Store, n: nat, size: nat, now: int, replies: seq<Reply>,
                                         withoutToken: seq<nat>)
    requires BatchOk(s, MakePlan(s, n, size, now).batch, n)
    requires withoutToken == Tokenless(s, MakePlan(s, n, size, now).batch, now)
    ensures var plan := MakePlan(s, n, size, now);
      var sent := OkIds(plan.pairs, replies); var retry := AgainIds(plan.pairs, replies) - sent;
      var failed := FailedIds(plan.pairs, replies) - sent - retry; var bad := BadTokens(plan.pairs, replies);
      Deliver(s, n, size, now, replies) ==
        (Store(MarkSettled(MarkWithoutToken(s.rows, withoutToken), sent, failed, now),
               DetachWhere(s.sessions, HeldAtAll(bad), now), s.notifications),
         if |retry| > 0 then Raised(|retry|) else Summary(|plan.batch|, |sent|, |failed| + |withoutToken|, |bad|))
  {
    hide MakePlan, WithVerdict, OkIds, AgainIds, FailedIds, MarkSettled, MarkWithoutToken, DetachWhere, BadTokens,
      Persist, Tokenless, BatchOk;
    VerdictSets(s, n, size, now, replies, withoutToken);
    MarkedIsPersisted(s, MakePlan(s, n, size, now), replies, now, withoutToken);
  }

  lemma {:induction false} NothingQueued(s: Store, n: nat, size: nat, now: int, replies: seq<Reply>)
    requires MakePlan(s, n, size, now).batch == []
    ensures Deliver(s, n, size, now, replies) == (s, Summary(0, 0, 0, 0))
  {
    hide QueuedOf;
    var plan := MakePlan(s, n, size, now);
    forall r | 0 <= r < |s.rows| ensures Settle(s.rows[r], VerdictOf(plan, replies, r), now) == s.rows[r] {
    }
    assert Deliver(s, n, size, now, replies).0.rows == s.rows;
    assert DetachWhere(s.sessions, HeldAtAll({}), now) == s.sessions;
    assert plan.pairs == [];
    assert BadTokens(plan.pairs, replies) == {};
    forall v ensures WithVerdict(plan, replies, v) == {} {
    }
  }
}
