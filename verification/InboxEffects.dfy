/** Everything that dispatch, reading, opening and device registration write, field by field, and everything
    they leave alone (apps/notifications/services). */
module InboxEffects {
  import opened Text
  import opened Notifications
  import opened NotificationRuns

  // ----- dispatch -----

  /** Each new row, and the number of queued ones. */
  lemma {:induction false} DispatchWrites(s: Store, users: seq<Option<nat>>, sendPush: bool, allows: nat -> bool, now: int)
    ensures var (s', queued) := Dispatch(s, users, sendPush, allows, now); var made := s'.rows[|s.rows|..];
      && s'.rows == s.rows + made && s'.sessions == s.sessions && s'.notifications == s.notifications + 1
      && (forall i | 0 <= i < |made| ::
            var push := sendPush && allows(made[i].user);
            && made[i].notification == s.notifications && made[i].readAt == made[i].openedAt == None
            && (push ==> made[i].status == Queued && made[i].deliveredAt == None && made[i].failure == "")
            && (!push ==> made[i].status == Sent && made[i].deliveredAt == Some(now))
            && (!push ==> made[i].failure == if sendPush then "Push disabled by notification preferences." else ""))
      && queued == |set i | 0 <= i < |made| && sendPush && allows(made[i].user)|
  {
    hide Distinct, CountQueued;
    var made := NewRows(s.notifications, Distinct(users), sendPush, allows, now);
    var s' := Dispatch(s, users, sendPush, allows, now).0;
    assert s'.rows[|s.rows|..] == made;
    CountIsSize(made);
    assert QueuedRows(made) == set i | 0 <= i < |made| && sendPush && allows(made[i].user);
  }

  /** At position `p` user `u` appears for the first time. */
  predicate FirstSeen(users: seq<Option<nat>>, u: nat, p: nat) {
    p < |users| && users[p] == Some(u) && forall q | 0 <= q < p :: users[q] != Some(u)
  }

  /** Recipients come in the order in which they first appear. */
  lemma {:induction false} OrderOfAppearance(users: seq<Option<nat>>, i: nat, j: nat) returns (p: nat, q: nat)
    requires i < j < |Distinct(users)|
    ensures p < q && FirstSeen(users, Distinct(users)[i], p) && FirstSeen(users, Distinct(users)[j], q)
  {
    var n := |users| - 1;
    var before := Distinct(users[..n]);
    if j < |before| {
      p, q := OrderOfAppearance(users[..n], i, j);
    } else {
      DistinctIs(users[..n]);
      q := n;
      assert before[i] in before;
      p := FirstPlace(users[..n], before[i]);
      assert forall k | 0 <= k < n :: users[k] == users[..n][k];
    }
  }

  lemma {:induction false} FirstPlace(users: seq<Option<nat>>, u: nat) returns (p: nat)
    requires Some(u) in users
    ensures FirstSeen(users, u, p)
  {
    if users[0] == Some(u) {
      p := 0;
    } else {
      p := FirstPlace(users[1..], u);
      p := p + 1;
      assert forall q | 0 < q < p :: users[q] == users[1..][q - 1];
    }
  }

  function QueuedRows(rows: seq<Recipient>): set<nat> {
    set i | 0 <= i < |rows| && rows[i].status == Queued
  }

  lemma {:induction false} QueuedRowsStep(rows: seq<Recipient>)
    requires rows != []
    ensures var n := |rows| - 1;
      QueuedRows(rows) == QueuedRows(rows[..n]) + (if rows[n].status == Queued then {n} else {}) && n !in QueuedRows(rows[..n])
  {
  }

  lemma {:induction false} CountIsSize(rows: seq<Recipient>)
    ensures CountQueued(rows) == |QueuedRows(rows)|
  {
    if rows != [] {
      CountIsSize(rows[..|rows| - 1]);
      QueuedRowsStep(rows);
    } else {
      assert QueuedRows(rows) == {};
    }
  }

  // ----- the inbox -----

  predicate RowOf(s: Store, user: nat, id: nat) {
    id < |s.rows| && s.rows[id].user == user
  }

  /** Only the caller's own row is touched, and only its first reading counts. */
  lemma {:induction false} ReadWrites(s: Store, user: nat, id: nat, now: int)
    ensures var s' := MarkRead(s, user, id, now);
      && s'.sessions == s.sessions && s'.notifications == s.notifications && |s'.rows| == |s.rows|
      && (forall i | 0 <= i < |s.rows| && (i != id || s.rows[i].user != user || s.rows[i].readAt.Some?) :: s'.rows[i] == s.rows[i])
      && (RowOf(s, user, id) && s.rows[id].readAt.None? ==>
            && s'.rows[id].readAt == Some(now) && s'.rows[id].status == Read
            && s'.rows[id] == s.rows[id].(readAt := s'.rows[id].readAt, status := s'.rows[id].status))
  {
  }

  /** The first opening gives the open time; a row not read before is read at that time, even if it was
      opened earlier. */
  lemma {:induction false} OpenWrites(s: Store, user: nat, id: nat, now: int)
    ensures var s' := MarkOpened(s, user, id, now);
      && s'.sessions == s.sessions && s'.notifications == s.notifications && |s'.rows| == |s.rows|
      && (forall i | 0 <= i < |s.rows| && (i != id || s.rows[i].user != user) :: s'.rows[i] == s.rows[i])
      && (RowOf(s, user, id) ==>
            var old_, new_ := s.rows[id], s'.rows[id];
            && new_ == old_.(openedAt := new_.openedAt, readAt := new_.readAt, status := new_.status)
            && new_.openedAt == Some(if old_.openedAt.Some? then old_.openedAt.value else now)
            && new_.readAt == (if old_.readAt.Some? then old_.readAt else new_.openedAt)
            && new_.status == if old_.readAt.Some? then old_.status else Read)
  {
  }

  // ----- devices -----

  /** The session has lost its token. */
  predicate Gone(x: Session, x': Session, now: int) {
    x'.token == None && x'.revokedAt == Some(now) && x' == x.(token := x'.token, revokedAt := x'.revokedAt)
  }

  /** Registering a device takes its token from every other user's session, writes the caller's session for
      this token, in place or as the newest, and leaves every other session alone. */
  lemma {:induction false} RegisterWrites(s: Store, user: nat, raw: string, now: int, ttl: int)
    ensures var s' := RegisterDevice(s, user, raw, now, ttl); var token := Strip(raw);
      var known := KnownKey(s.sessions, (user, token));
      var offset := if known then 0 else 1;
      && s'.rows == s.rows && s'.notifications == s.notifications && |s'.sessions| == |s.sessions| + offset
      && (!known ==> s'.sessions[0] == Session((user, token), user, Some(token), now + ttl, None))
      && (forall i | 0 <= i < |s.sessions| ::
            var x, x' := s.sessions[i], s'.sessions[offset + i];
            if x.key == (user, token) then x' == Session((user, token), user, Some(token), now + ttl, None)
            else if x.token == Some(token) && x.user != user then Gone(x, x', now)
            else x' == x)
  {
    hide Strip, Upsert;
    var token := Strip(raw);
    var others := DetachWhere(s.sessions, HeldByOthers(token, user), now);
    UpsertWrites(others, Session((user, token), user, Some(token), now + ttl, None));
    assert KnownKey(others, (user, token)) <==> KnownKey(s.sessions, (user, token)) by {
      assert forall i | 0 <= i < |s.sessions| :: others[i].key == s.sessions[i].key;
    }
  }

  predicate KnownKey(sessions: seq<Session>, key: (nat, string)) {
    exists i :: 0 <= i < |sessions| && sessions[i].key == key
  }

  lemma {:induction false} UpsertWrites(sessions: seq<Session>, x: Session)
    ensures var after := Upsert(sessions, x); var offset := if KnownKey(sessions, x.key) then 0 else 1;
      && |after| == |sessions| + offset && (offset == 1 ==> after[0] == x)
      && forall i | 0 <= i < |sessions| :: after[offset + i] == if sessions[i].key == x.key then x else sessions[i]
  {
    if !KnownKey(sessions, x.key) {
      assert Upsert(sessions, x) == [x] + sessions;
    }
  }

  /** Unregistering takes the token from exactly the caller's sessions that have it. */
  lemma {:induction false} UnregisterWrites(s: Store, user: nat, raw: string, now: int)
    ensures var s' := UnregisterDevice(s, user, raw, now);
      && s'.rows == s.rows && s'.notifications == s.notifications && |s'.sessions| == |s.sessions|
      && forall i | 0 <= i < |s.sessions| ::
           var x, x' := s.sessions[i], s'.sessions[i];
           if x.user == user && x.token == Some(Strip(raw)) then Gone(x, x', now) else x' == x
  {
    hide Strip;
  }
}
