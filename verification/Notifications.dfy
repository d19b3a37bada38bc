/** Notification rows, device tokens and push delivery (apps/notifications/services): dispatch makes
    rows, users read and open them, devices register and leave, and delivery classifies each queued
    recipient from the replies for all its tokens. */
module Notifications {
  import opened Text

  datatype Status = Queued | Sent | Failed | Read

  datatype Recipient = Recipient(notification: nat, user: nat, status: Status, deliveredAt: Option<int>,
                                 readAt: Option<int>, openedAt: Option<int>, failure: string)

  /** A session made by device registration. Its unique key hashes user and token; the hash is taken
      to be injective, so the key is the pair itself. */
  datatype Session = Session(key: (nat, string), user: nat, token: Option<string>, expiresAt: int, revokedAt: Option<int>)

  /** Recipient rows in order of creation, identified by position, and sessions, newest first. */
  datatype Store = Store(rows: seq<Recipient>, sessions: seq<Session>, notifications: nat)

  const EMPTY := Store([], [], 0)

  // ----- dispatch -----

  /** The distinct users of a list with gaps, in order of first appearance. */
  function Distinct(users: seq<Option<nat>>): seq<nat> {
    if users == [] then []
    else
      var before := Distinct(users[..|users| - 1]);
      var last := users[|users| - 1];
      if last.None? || last.value in before then before else before + [last.value]
  }

  function NewRow(n: nat, user: nat, sendPush: bool, allows: nat -> bool, now: int): Recipient {
    var push := sendPush && allows(user);
    Recipient(n, user, if push then Queued else Sent, if push then None else Some(now), None, None,
              if sendPush && !push then "Push disabled by notification preferences." else "")
  }

  function NewRows(n: nat, users: seq<nat>, sendPush: bool, allows: nat -> bool, now: int): seq<Recipient> {
    seq(|users|, i requires 0 <= i < |users| => NewRow(n, users[i], sendPush, allows, now))
  }

  function CountQueued(rows: seq<Recipient>): nat {
    if rows == [] then 0
    else CountQueued(rows[..|rows| - 1]) + if rows[|rows| - 1].status == Queued then 1 else 0
  }

  /** The new store and the reported `queued_count`. */
  function Dispatch(s: Store, users: seq<Option<nat>>, sendPush: bool, allows: nat -> bool, now: int): (Store, nat) {
    var rows := NewRows(s.notifications, Distinct(users), sendPush, allows, now);
    (Store(s.rows + rows, s.sessions, s.notifications + 1), CountQueued(rows))
  }

  // ----- inbox -----

  predicate Owns(s: Store, user: nat, id: nat) {
    id < |s.rows| && s.rows[id].user == user
  }

  function MarkRead(s: Store, user: nat, id: nat, now: int): Store {
    if Owns(s, user, id) && s.rows[id].readAt.None?
    then s.(rows := s.rows[id := s.rows[id].(readAt := Some(now), status := Read)])
    else s
  }

  function Opened(r: Recipient, now: int): Recipient {
    var seen := if r.openedAt.None? then r.(openedAt := Some(now)) else r;
    if seen.readAt.None? then seen.(readAt := seen.openedAt, status := Read) else seen
  }

  function MarkOpened(s: Store, user: nat, id: nat, now: int): Store {
    if Owns(s, user, id) then s.(rows := s.rows[id := Opened(s.rows[id], now)]) else s
  }

  // ----- devices -----

  function Detached(x: Session, now: int): Session {
    x.(token := None, revokedAt := Some(now))
  }

  /** The filters of the three updates that take tokens away. */
  datatype Filter = HeldByOthers(token: string, user: nat) | HeldBy(token: string, user: nat) | HeldAtAll(tokens: set<string>) {
    predicate Matches(x: Session) {
      x.token.Some? && match this
                       case HeldByOthers(t, u) => x.token.value == t && x.user != u
                       case HeldBy(t, u) => x.token.value == t && x.user == u
                       case HeldAtAll(ts) => x.token.value in ts
    }
  }

  function DetachWhere(sessions: seq<Session>, gone: Filter, now: int): (r: seq<Session>)
    ensures |r| == |sessions|
    ensures forall i | 0 <= i < |sessions| :: r[i] == if gone.Matches(sessions[i]) then Detached(sessions[i], now) else sessions[i]
  {
    seq(|sessions|, i requires 0 <= i < |sessions| => if gone.Matches(sessions[i]) then Detached(sessions[i], now) else sessions[i])
  }

  function Upsert(sessions: seq<Session>, x: Session): seq<Session> {
    if exists i | 0 <= i < |sessions| :: sessions[i].key == x.key
    then seq(|sessions|, i requires 0 <= i < |sessions| => if sessions[i].key == x.key then x else sessions[i])
    else [x] + sessions
  }

  function RegisterDevice(s: Store, user: nat, raw: string, now: int, ttl: int): Store {
    var token := Strip(raw);
    var others := DetachWhere(s.sessions, HeldByOthers(token, user), now);
    s.(sessions := Upsert(others, Session((user, token), user, Some(token), now + ttl, None)))
  }

  function UnregisterDevice(s: Store, user: nat, raw: string, now: int): Store {
    s.(sessions := DetachWhere(s.sessions, HeldBy(Strip(raw), user), now))
  }

  /** One session for each user and token, and each token on at most one session. */
  ghost predicate SessionsOk(sessions: seq<Session>) {
    && (forall i | 0 <= i < |sessions| :: sessions[i].key.0 == sessions[i].user
          && (sessions[i].token.Some? ==> sessions[i].token.value == sessions[i].key.1))
    && (forall i, j | 0 <= i < j < |sessions| :: sessions[i].key != sessions[j].key)
    && (forall i, j | 0 <= i < j < |sessions| :: sessions[i].token.Some? ==> sessions[i].token != sessions[j].token)
  }

  lemma {:induction false} DetachKeepsSessions(sessions: seq<Session>, gone: Filter, now: int)
    requires SessionsOk(sessions)
    ensures SessionsOk(DetachWhere(sessions, gone, now))
  {
  }

  lemma {:induction false} UpsertKeepsSessions(sessions: seq<Session>, x: Session)
    requires SessionsOk(sessions)
    requires x.key.0 == x.user && x.token == Some(x.key.1)
    requires forall i | 0 <= i < |sessions| :: sessions[i].token == x.token ==> sessions[i].key == x.key
    ensures SessionsOk(Upsert(sessions, x)) && x in Upsert(sessions, x)
    ensures forall y | y in Upsert(sessions, x) :: y.token == x.token ==> y == x
  {
    var after := Upsert(sessions, x);
    if exists i | 0 <= i < |sessions| :: sessions[i].key == x.key {
      var i :| 0 <= i < |sessions| && sessions[i].key == x.key;
      assert after[i] == x;
      assert forall j | 0 <= j < |after| && j != i :: after[j] == sessions[j];
    } else {
      assert after[0] == x;
      assert forall j | 0 < j < |after| :: after[j] == sessions[j - 1];
    }
  }

  /** Registering a token makes it the caller's alone. */
  lemma {:induction false} RegisterKeepsSessions(s: Store, user: nat, raw: string, now: int, ttl: int)
    requires SessionsOk(s.sessions)
    ensures var sessions := RegisterDevice(s, user, raw, now, ttl).sessions;
      && SessionsOk(sessions)
      && Session((user, Strip(raw)), user, Some(Strip(raw)), now + ttl, None) in sessions
      && (forall y | y in sessions :: y.token == Some(Strip(raw)) ==> y.user == user)
  {
    hide Upsert;
    var token := Strip(raw);
    DetachKeepsSessions(s.sessions, HeldByOthers(token, user), now);
    UpsertKeepsSessions(DetachWhere(s.sessions, HeldByOthers(token, user), now),
                        Session((user, token), user, Some(token), now + ttl, None));
  }

  // ----- delivery: who is in a batch, with which tokens -----

  predicate IsQueued(r: Recipient, n: nat) {
    r.notification == n && r.status == Queued
  }

  /** Positions of the queued recipients of notification `n`, in order of creation. */
  function QueuedOf(rows: seq<Recipient>, n: nat): seq<nat> {
    if rows == [] then []
    else QueuedOf(rows[..|rows| - 1], n) + if IsQueued(rows[|rows| - 1], n) then [|rows| - 1] else []
  }

  /** `max(1, min(500, setting))` */
  function BatchSize(setting: int): (size: nat)
    ensures 1 <= size <= 500 && (size > 1 ==> size <= setting) && (size < 500 ==> setting <= size)
  {
    if setting > 500 then 500 else if setting < 1 then 1 else setting
  }

  function Batch(rows: seq<Recipient>, n: nat, size: nat): seq<nat> {
    var queued := QueuedOf(rows, n);
    if |queued| <= size then queued else queued[..size]
  }

  predicate Usable(x: Session, user: nat, now: int) {
    x.user == user && x.token.Some? && x.token.value != "" && x.revokedAt.None? && x.expiresAt > now
  }

  function ActiveTokens(sessions: seq<Session>, user: nat, now: int): seq<string> {
    if sessions == [] then []
    else ActiveTokens(sessions[..|sessions| - 1], user, now)
         + if Usable(sessions[|sessions| - 1], user, now) then [sessions[|sessions| - 1].token.value] else []
  }

  /** The batch's messages: each recipient with each of its tokens. */
  function Pairs(s: Store, batch: seq<nat>, now: int): seq<(string, nat)>
    requires forall i | 0 <= i < |batch| :: batch[i] < |s.rows|
  {
    if batch == [] then []
    else
      var r := batch[|batch| - 1];
      var tokens := ActiveTokens(s.sessions, s.rows[r].user, now);
      Pairs(s, batch[..|batch| - 1], now) + seq(|tokens|, i requires 0 <= i < |tokens| => (tokens[i], r))
  }

  // ----- delivery: the verdict on a recipient -----

  /** A reply for one message. The client may return fewer replies than messages. */
  datatype Reply = Reply(success: bool, retryable: bool, invalid: bool)

  predicate Ok(replies: seq<Reply>, i: nat) {
    i < |replies| && replies[i].success
  }

  predicate Again(replies: seq<Reply>, i: nat) {
    i < |replies| && !replies[i].success && replies[i].retryable
  }

  predicate BadToken(replies: seq<Reply>, i: nat) {
    i < |replies| && !replies[i].success && !replies[i].retryable && replies[i].invalid
  }

  datatype Verdict = Untouched | NoToken | Delivered | Retry | GaveUp

  predicate HasPair(pairs: seq<(string, nat)>, r: nat) {
    exists i :: 0 <= i < |pairs| && pairs[i].1 == r
  }

  /** Position by position: each message has its own reply. */
  function Judge(pairs: seq<(string, nat)>, replies: seq<Reply>, r: nat): Verdict {
    if !HasPair(pairs, r) then NoToken
    else if exists i :: 0 <= i < |pairs| && pairs[i].1 == r && Ok(replies, i) then Delivered
    else if exists i :: 0 <= i < |pairs| && pairs[i].1 == r && Again(replies, i) then Retry
    else GaveUp
  }

  /** What a delivery call has read before it sends. */
  datatype Plan = Plan(batch: seq<nat>, pairs: seq<(string, nat)>)

  lemma {:induction false} QueuedOfIs(rows: seq<Recipient>, n: nat)
    ensures forall i | 0 <= i < |QueuedOf(rows, n)| :: QueuedOf(rows, n)[i] < |rows| && IsQueued(rows[QueuedOf(rows, n)[i]], n)
    ensures forall i, j | 0 <= i < j < |QueuedOf(rows, n)| :: QueuedOf(rows, n)[i] < QueuedOf(rows, n)[j]
    ensures forall r | 0 <= r < |rows| :: IsQueued(rows[r], n) ==> r in QueuedOf(rows, n)
  {
    if rows != [] {
      QueuedOfIs(rows[..|rows| - 1], n);
    }
  }

  function MakePlan(s: Store, n: nat, size: nat, now: int): Plan {
    QueuedOfIs(s.rows, n);
    var batch := Batch(s.rows, n, size);
    Plan(batch, Pairs(s, batch, now))
  }

  function VerdictOf(plan: Plan, replies: seq<Reply>, r: nat): Verdict {
    if r !in plan.batch then Untouched else Judge(plan.pairs, replies, r)
  }

  /** The writes are by id, whatever the row has become in the meantime. */
  function Settle(row: Recipient, v: Verdict, now: int): Recipient {
    match v
    case NoToken => row.(status := Failed, deliveredAt := None, failure := "No active FCM token.")
    case Delivered => row.(status := Sent, deliveredAt := Some(now))
    case GaveUp => row.(status := Failed, failure := "FCM delivery failed.")
    case _ => row
  }

  function BadTokens(pairs: seq<(string, nat)>, replies: seq<Reply>): set<string> {
    set i | 0 <= i < |pairs| && BadToken(replies, i) :: pairs[i].0
  }

  function Persist(s: Store, plan: Plan, replies: seq<Reply>, now: int): Store {
    s.(rows := seq(|s.rows|, r requires 0 <= r < |s.rows| => Settle(s.rows[r], VerdictOf(plan, replies, r), now)),
       sessions := DetachWhere(s.sessions, HeldAtAll(BadTokens(plan.pairs, replies)), now))
  }

  function WithVerdict(plan: Plan, replies: seq<Reply>, v: Verdict): set<nat> {
    set r | r in plan.batch && VerdictOf(plan, replies, r) == v
  }

  datatype Report = Summary(queued: nat, sent: nat, failed: nat, invalid: nat) | Raised(retryable: nat)

  /** One delivery call as an atomic step. */
  function Deliver(s: Store, n: nat, size: nat, now: int, replies: seq<Reply>): (Store, Report) {
    var plan := MakePlan(s, n, size, now);
    var retry := |WithVerdict(plan, replies, Retry)|;
    (Persist(s, plan, replies, now),
     if retry > 0 then Raised(retry)
     else Summary(|plan.batch|, |WithVerdict(plan, replies, Delivered)|,
                  |WithVerdict(plan, replies, GaveUp)| + |WithVerdict(plan, replies, NoToken)|,
                  |BadTokens(plan.pairs, replies)|))
  }

  // ----- the tokens of a batch are all different -----

  lemma {:induction false} TokenHasSession(sessions: seq<Session>, user: nat, now: int, k: nat) returns (i: nat)
    requires k < |ActiveTokens(sessions, user, now)|
    ensures i < |sessions| && Usable(sessions[i], user, now) && sessions[i].token == Some(ActiveTokens(sessions, user, now)[k])
  {
    var before := ActiveTokens(sessions[..|sessions| - 1], user, now);
    if k < |before| {
      i := TokenHasSession(sessions[..|sessions| - 1], user, now, k);
    } else {
      i := |sessions| - 1;
    }
  }

  lemma {:induction false} TokensDiffer(sessions: seq<Session>, user: nat, now: int)
    requires SessionsOk(sessions)
    ensures forall i, j | 0 <= i < j < |ActiveTokens(sessions, user, now)| ::
              ActiveTokens(sessions, user, now)[i] != ActiveTokens(sessions, user, now)[j]
  {
    if sessions != [] {
      var n := |sessions| - 1;
      TokensDiffer(sessions[..n], user, now);
      var before := ActiveTokens(sessions[..n], user, now);
      forall i | 0 <= i < |before| ensures sessions[n].token != Some(before[i]) {
        var k := TokenHasSession(sessions[..n], user, now, i);
      }
    }
  }

  ghost predicate OneRowPerUser(rows: seq<Recipient>) {
    forall i, j | 0 <= i < j < |rows| :: rows[i].notification != rows[j].notification || rows[i].user != rows[j].user
  }

  ghost predicate BatchOk(s: Store, batch: seq<nat>, n: nat) {
    && (forall i | 0 <= i < |batch| :: batch[i] < |s.rows| && IsQueued(s.rows[batch[i]], n))
    && (forall i, j | 0 <= i < j < |batch| :: batch[i] < batch[j])
  }

  /** Where a message comes from. */
  lemma {:induction false} PairOrigin(s: Store, batch: seq<nat>, now: int, i: nat) returns (k: nat)
    requires forall i | 0 <= i < |batch| :: batch[i] < |s.rows|
    requires i < |Pairs(s, batch, now)|
    ensures Pairs(s, batch, now)[i].1 in batch
    ensures k < |s.sessions| && s.sessions[k].token == Some(Pairs(s, batch, now)[i].0)
    ensures s.sessions[k].user == s.rows[Pairs(s, batch, now)[i].1].user
  {
    var before := Pairs(s, batch[..|batch| - 1], now);
    if i < |before| {
      k := PairOrigin(s, batch[..|batch| - 1], now, i);
    } else {
      k := TokenHasSession(s.sessions, s.rows[batch[|batch| - 1]].user, now, i - |before|);
    }
  }

  lemma {:induction false} SessionsSeparate(sessions: seq<Session>, a: nat, b: nat)
    requires SessionsOk(sessions) && a < |sessions| && b < |sessions|
    requires sessions[a].token.Some? && sessions[a].token == sessions[b].token
    ensures a == b
  {
  }

  /** No token occurs twice among the messages of a batch, so the dictionary from tokens to replies
      keeps every reply. */
  lemma {:induction false} PairTokensDiffer(s: Store, batch: seq<nat>, n: nat, now: int)
    requires SessionsOk(s.sessions) && OneRowPerUser(s.rows) && BatchOk(s, batch, n)
    ensures forall i, j | 0 <= i < j < |Pairs(s, batch, now)| :: Pairs(s, batch, now)[i].0 != Pairs(s, batch, now)[j].0
  {
    if batch != [] {
      var m := |batch| - 1;
      var before, r := Pairs(s, batch[..m], now), batch[m];
      var tokens := ActiveTokens(s.sessions, s.rows[r].user, now);
      PairTokensDiffer(s, batch[..m], n, now);
      TokensDiffer(s.sessions, s.rows[r].user, now);
      forall i, j | 0 <= i < |before| && 0 <= j < |tokens| ensures before[i].0 != tokens[j] {
        var a := PairOrigin(s, batch[..m], now, i);
        var b := TokenHasSession(s.sessions, s.rows[r].user, now, j);
        if before[i].0 == tokens[j] {
          SessionsSeparate(s.sessions, a, b);
        }
      }
    }
  }

  /** A recipient has a message exactly when its user has a usable token. */
  lemma {:induction false} PairsCover(s: Store, batch: seq<nat>, now: int, r: nat)
    requires forall i | 0 <= i < |batch| :: batch[i] < |s.rows|
    ensures HasPair(Pairs(s, batch, now), r) <==> r in batch && ActiveTokens(s.sessions, s.rows[r].user, now) != []
  {
    if batch != [] {
      var m := |batch| - 1;
      var before, after := Pairs(s, batch[..m], now), Pairs(s, batch, now);
      PairsCover(s, batch[..m], now, r);
      assert forall i | 0 <= i < |before| :: after[i] == before[i];
      assert forall i | |before| <= i < |after| :: after[i].1 == batch[m];
      assert r in batch <==> r in batch[..m] || r == batch[m];
      if HasPair(before, r) {
        var i :| 0 <= i < |before| && before[i].1 == r;
        assert after[i].1 == r;
      } else if r == batch[m] && |before| < |after| {
        assert after[|before|].1 == r;
      }
    }
  }

  lemma {:induction false} BatchIsOk(s: Store, n: nat, size: nat)
    ensures BatchOk(s, Batch(s.rows, n, size), n)
  {
    QueuedOfIs(s.rows, n);
  }
}
