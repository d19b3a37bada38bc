/** What delivery calls achieve (apps/notifications/services/push_delivery_service.py): one call seen
    token by token, its report, repeated calls, and a read that slips into the middle of a call. */
module Delivery {
  import opened Text
  import opened Notifications
  import opened NotificationRuns

  // ----- one call, token by token -----

  /** `{result.token: result for result in results}` */
  function ResultByToken(pairs: seq<(string, nat)>, replies: seq<Reply>): map<string, Reply> {
    if pairs == [] then map[]
    else
      var last := |pairs| - 1;
      var before := ResultByToken(pairs[..last], replies);
      if last < |replies| then before[pairs[last].0 := replies[last]] else before
  }

  ghost predicate TokensDistinct(pairs: seq<(string, nat)>) {
    forall i, j | 0 <= i < j < |pairs| :: pairs[i].0 != pairs[j].0
  }

  lemma {:induction false} ResultKeys(pairs: seq<(string, nat)>, replies: seq<Reply>)
    ensures forall t | t in ResultByToken(pairs, replies) :: exists i :: 0 <= i < |pairs| && pairs[i].0 == t
  {
    if pairs != [] {
      var last := |pairs| - 1;
      ResultKeys(pairs[..last], replies);
      forall t | t in ResultByToken(pairs, replies) ensures exists i :: 0 <= i < |pairs| && pairs[i].0 == t {
        if t in ResultByToken(pairs[..last], replies) {
          var i :| 0 <= i < last && pairs[..last][i].0 == t;
          assert pairs[i].0 == t;
        } else {
          assert pairs[last].0 == t;
        }
      }
    }
  }

  /** With distinct tokens the dictionary keeps every reply in its place. */
  lemma {:induction false} DictionaryKeepsReplies(pairs: seq<(string, nat)>, replies: seq<Reply>, i: nat)
    requires TokensDistinct(pairs) && i < |pairs|
    ensures var d := ResultByToken(pairs, replies);
      if i < |replies| then pairs[i].0 in d && d[pairs[i].0] == replies[i] else pairs[i].0 !in d
  {
    var last := |pairs| - 1;
    if i < last {
      DictionaryKeepsReplies(pairs[..last], replies, i);
    } else {
      ResultKeys(pairs[..last], replies);
      assert forall j | 0 <= j < last :: pairs[..last][j] == pairs[j];
    }
  }

  /** The messages to a recipient carry exactly its user's usable tokens. */
  lemma {:induction false} PairsOfRecipient(s: Store, batch: seq<nat>, now: int, r: nat, t: string)
    requires forall i | 0 <= i < |batch| :: batch[i] < |s.rows|
    ensures (t, r) in Pairs(s, batch, now) <==> r in batch && t in ActiveTokens(s.sessions, s.rows[r].user, now)
  {
    if batch != [] {
      var m := |batch| - 1;
      var tokens := ActiveTokens(s.sessions, s.rows[batch[m]].user, now);
      var added := seq(|tokens|, i requires 0 <= i < |tokens| => (tokens[i], batch[m]));
      PairsOfRecipient(s, batch[..m], now, r, t);
      assert Pairs(s, batch, now) == Pairs(s, batch[..m], now) + added;
      assert r in batch <==> r in batch[..m] || r == batch[m];
      if r == batch[m] && t in tokens {
        var i :| 0 <= i < |tokens| && tokens[i] == t;
        assert added[i] == (t, r);
      }
      if (t, r) in added {
        var i :| 0 <= i < |added| && added[i] == (t, r);
        assert tokens[i] == t;
      }
    }
  }

  /** The reply the dictionary has for a token: succeeded, or to be retried. */
  predicate TokenOk(d: map<string, Reply>, t: string) {
    t in d && d[t].success
  }

  predicate TokenAgain(d: map<string, Reply>, t: string) {
    t in d && !d[t].success && d[t].retryable
  }

  lemma {:induction false} PlanTokensDistinct(s: Store, n: nat, size: nat, now: int, clock: int)
    requires Inv(s, clock)
    ensures TokensDistinct(MakePlan(s, n, size, now).pairs)
  {
    hide Pairs, QueuedOf;
    BatchIsOk(s, n, size);
    PairTokensDiffer(s, Batch(s.rows, n, size), n, now);
  }

  ghost predicate HasMessage(pairs: seq<(string, nat)>, r: nat, t: string) {
    exists i :: 0 <= i < |pairs| && pairs[i].1 == r && pairs[i].0 == t
  }

  lemma {:induction false} RecipientTokens(s: Store, n: nat, size: nat, now: int, r: nat)
    requires r < |s.rows| && r in MakePlan(s, n, size, now).batch
    ensures var pairs := MakePlan(s, n, size, now).pairs; var tokens := ActiveTokens(s.sessions, s.rows[r].user, now);
      && (forall i | 0 <= i < |pairs| && pairs[i].1 == r :: pairs[i].0 in tokens)
      && (forall t | t in tokens :: HasMessage(pairs, r, t))
  {
    hide Pairs, QueuedOf, ActiveTokens;
    var plan := MakePlan(s, n, size, now);
    BatchIsOk(s, n, size);
    var tokens := ActiveTokens(s.sessions, s.rows[r].user, now);
    forall i | 0 <= i < |plan.pairs| && plan.pairs[i].1 == r ensures plan.pairs[i].0 in tokens {
      PairsOfRecipient(s, plan.batch, now, r, plan.pairs[i].0);
      assert plan.pairs[i] in plan.pairs;
    }
    forall t | t in tokens ensures HasMessage(plan.pairs, r, t) {
      PairsOfRecipient(s, plan.batch, now, r, t);
      var i :| 0 <= i < |plan.pairs| && plan.pairs[i] == (t, r);
      assert plan.pairs[i].1 == r;
    }
  }

  /** For each recipient of the batch the call marks it SENT if some token of its user succeeded,
      leaves it QUEUED if none did and some is to be retried, and marks it FAILED otherwise. */
  lemma {:induction false} CallByTokens(s: Store, n: nat, size: nat, now: int, replies: seq<Reply>, clock: int, r: nat)
    requires Inv(s, clock) && r < |s.rows| && r in MakePlan(s, n, size, now).batch
    ensures var row := Deliver(s, n, size, now, replies).0.rows[r];
      var tokens := ActiveTokens(s.sessions, s.rows[r].user, now);
      var d := ResultByToken(MakePlan(s, n, size, now).pairs, replies);
      && (row.status == Sent <==> exists t :: t in tokens && TokenOk(d, t))
      && (row.status == Queued <==> (forall t | t in tokens :: !TokenOk(d, t)) && exists t :: t in tokens && TokenAgain(d, t))
      && row.status in {Sent, Queued, Failed}
  {
    hide MakePlan, Deliver, ActiveTokens, ResultByToken, Inv, TokensDistinct, Ok, Again, TokenOk, TokenAgain, Judge, Settle;
    var plan := MakePlan(s, n, size, now);
    assert VerdictOf(plan, replies, r) == Judge(plan.pairs, replies, r);
    JudgeIs(plan.pairs, replies, r);
    DeliverRow(s, n, size, now, replies, r);
    PlanTokensDistinct(s, n, size, now, clock);
    RecipientTokens(s, n, size, now, r);
    var tokens := ActiveTokens(s.sessions, s.rows[r].user, now);
    var d := ResultByToken(plan.pairs, replies);
    forall i | 0 <= i < |plan.pairs|
      ensures Ok(replies, i) <==> TokenOk(d, plan.pairs[i].0)
      ensures Again(replies, i) <==> TokenAgain(d, plan.pairs[i].0)
    {
      ReplyOf(plan.pairs, replies, i);
    }
    MessagesMirrorTokens(plan.pairs, replies, r, tokens, d);
    VerdictStatus(s.rows[r], plan.pairs, replies, r, now);
  }

  lemma {:induction false} MessagesMirrorTokens(pairs: seq<(string, nat)>, replies: seq<Reply>, r: nat,
                                                tokens: seq<string>, d: map<string, Reply>)
    requires forall i | 0 <= i < |pairs| ::
               && (Ok(replies, i) <==> TokenOk(d, pairs[i].0)) && (Again(replies, i) <==> TokenAgain(d, pairs[i].0))
               && (pairs[i].1 == r ==> pairs[i].0 in tokens)
    requires forall t | t in tokens :: HasMessage(pairs, r, t)
    ensures (exists i :: 0 <= i < |pairs| && pairs[i].1 == r && Ok(replies, i)) <==> exists t :: t in tokens && TokenOk(d, t)
    ensures (exists i :: 0 <= i < |pairs| && pairs[i].1 == r && Again(replies, i)) <==> exists t :: t in tokens && TokenAgain(d, t)
    ensures (forall i | 0 <= i < |pairs| && pairs[i].1 == r :: !Ok(replies, i)) <==> forall t | t in tokens :: !TokenOk(d, t)
  {
    hide Ok, Again, TokenOk, TokenAgain;
  }

  lemma {:induction false} ReplyOf(pairs: seq<(string, nat)>, replies: seq<Reply>, i: nat)
    requires TokensDistinct(pairs) && i < |pairs|
    ensures Ok(replies, i) <==> TokenOk(ResultByToken(pairs, replies), pairs[i].0)
    ensures Again(replies, i) <==> TokenAgain(ResultByToken(pairs, replies), pairs[i].0)
  {
    DictionaryKeepsReplies(pairs, replies, i);
  }

  lemma {:induction false} VerdictStatus(row: Recipient, pairs: seq<(string, nat)>, replies: seq<Reply>, r: nat,
                                         now: int)
    requires row.status == Queued
    ensures var after := Settle(row, Judge(pairs, replies, r), now).status;
      && (after == Sent <==> exists i :: 0 <= i < |pairs| && pairs[i].1 == r && Ok(replies, i))
      && (after == Queued <==> (forall i | 0 <= i < |pairs| && pairs[i].1 == r :: !Ok(replies, i))
                               && exists i :: 0 <= i < |pairs| && pairs[i].1 == r && Again(replies, i))
      && after in {Sent, Queued, Failed}
  {
  }

  // ----- the report -----

  function Elements(xs: seq<nat>): set<nat> {
    set x | x in xs
  }

  lemma {:induction false} IncreasingSet(xs: seq<nat>)
    requires forall i, j | 0 <= i < j < |xs| :: xs[i] < xs[j]
    ensures |Elements(xs)| == |xs|
  {
    if xs != [] {
      var n := |xs| - 1;
      IncreasingSet(xs[..n]);
      assert xs == xs[..n] + [xs[n]];
      assert Elements(xs) == Elements(xs[..n]) + {xs[n]};
      assert xs[n] !in xs[..n];
    }
  }

  /** A call raises exactly when some recipient is to be retried; otherwise every recipient taken is
      counted once, as sent or as failed. */
  lemma {:induction false} ReportAddsUp(s: Store, n: nat, size: nat, now: int, replies: seq<Reply>)
    ensures var report := Deliver(s, n, size, now, replies).1; var plan := MakePlan(s, n, size, now);
      && (report.Raised? <==> exists r :: r in plan.batch && Judge(plan.pairs, replies, r) == Retry)
      && (report.Summary? ==> report.queued == |plan.batch| == report.sent + report.failed)
  {
    hide Pairs, Judge, QueuedOf;
    var plan := MakePlan(s, n, size, now);
    BatchIsOk(s, n, size);
    IncreasingSet(plan.batch);
    var retry := WithVerdict(plan, replies, Retry);
    if |retry| > 0 {
      var r :| r in retry;
      assert Judge(plan.pairs, replies, r) == Retry;
    } else {
      assert retry == {};
      assert forall r | r in plan.batch :: r !in retry;
      var sent, gaveUp, none := WithVerdict(plan, replies, Delivered), WithVerdict(plan, replies, GaveUp), WithVerdict(plan, replies, NoToken);
      forall r | r in plan.batch ensures r in sent + gaveUp + none {
        JudgeIs(plan.pairs, replies, r);
      }
      assert Elements(plan.batch) == sent + gaveUp + none;
      assert sent !! gaveUp && (sent + gaveUp) !! none;
    }
  }

  lemma {:induction false} JudgeIs(pairs: seq<(string, nat)>, replies: seq<Reply>, r: nat)
    ensures Judge(pairs, replies, r) in {NoToken, Delivered, Retry, GaveUp}
  {
  }

  // ----- repeated calls -----

  /** A call never changes a recipient that is not queued, or belongs to another notification. */
  lemma {:induction false} OthersUntouched(s: Store, n: nat, size: nat, now: int, replies: seq<Reply>, r: nat)
    requires r < |s.rows| && !IsQueued(s.rows[r], n)
    ensures Deliver(s, n, size, now, replies).0.rows[r] == s.rows[r]
  {
    DeliverRow(s, n, size, now, replies, r);
  }

  /** What is still queued after a call: the recipients beyond the batch, and those to be retried. */
  lemma {:induction false} StillQueued(s: Store, n: nat, size: nat, now: int, replies: seq<Reply>, r: nat)
    requires r < |s.rows|
    ensures var plan := MakePlan(s, n, size, now);
      IsQueued(Deliver(s, n, size, now, replies).0.rows[r], n) <==>
        IsQueued(s.rows[r], n) && (r !in plan.batch || Judge(plan.pairs, replies, r) == Retry)
  {
    hide Pairs, Judge, QueuedOf;
    DeliverRow(s, n, size, now, replies, r);
    JudgeIs(MakePlan(s, n, size, now).pairs, replies, r);
  }

  lemma {:induction false} QueuedOfSame(a: seq<Recipient>, b: seq<Recipient>, n: nat)
    requires |a| == |b| && forall r | 0 <= r < |a| :: IsQueued(a[r], n) <==> IsQueued(b[r], n)
    ensures QueuedOf(a, n) == QueuedOf(b, n)
  {
    if a != [] {
      QueuedOfSame(a[..|a| - 1], b[..|b| - 1], n);
    }
  }

  /** Two increasing sequences with the same elements are equal. */
  lemma {:induction false} IncreasingUnique(xs: seq<nat>, ys: seq<nat>)
    requires forall i, j | 0 <= i < j < |xs| :: xs[i] < xs[j]
    requires forall i, j | 0 <= i < j < |ys| :: ys[i] < ys[j]
    requires forall x :: x in xs <==> x in ys
    ensures xs == ys
  {
    assert ys != [] ==> ys[0] in ys;
    if xs != [] {
      assert xs[0] in ys && ys[0] in xs;
      forall x ensures x in xs[1..] <==> x in ys[1..] {
        assert x in xs <==> x == xs[0] || x in xs[1..];
        assert x in ys <==> x == ys[0] || x in ys[1..];
      }
      IncreasingUnique(xs[1..], ys[1..]);
    }
  }

  /** A call that does not raise takes exactly its batch off the queue. */
  lemma {:induction false} CallTakesBatch(s: Store, n: nat, size: nat, now: int, replies: seq<Reply>)
    requires Deliver(s, n, size, now, replies).1.Summary?
    ensures var before := QueuedOf(s.rows, n);
      QueuedOf(Deliver(s, n, size, now, replies).0.rows, n) == if |before| <= size then [] else before[size..]
  {
    hide Pairs, Judge, QueuedOf;
    var before, plan := QueuedOf(s.rows, n), MakePlan(s, n, size, now);
    var rows := Deliver(s, n, size, now, replies).0.rows;
    var after := QueuedOf(rows, n);
    var left := if |before| <= size then [] else before[size..];
    QueuedOfIs(s.rows, n);
    QueuedOfIs(rows, n);
    ReportAddsUp(s, n, size, now, replies);
    forall r ensures r in after <==> r in left {
      if 0 <= r < |s.rows| {
        StillQueued(s, n, size, now, replies, r);
      }
      assert r in before <==> r in plan.batch || r in left;
      assert r in plan.batch ==> r !in left;
    }
    IncreasingUnique(after, left);
  }

  /** The arguments of one delivery call for a given notification. */
  datatype Call = Call(now: int, replies: seq<Reply>)

  function Calls(s: Store, n: nat, size: nat, calls: seq<Call>): Store
    decreases |calls|
  {
    if calls == [] then s
    else Calls(Deliver(s, n, size, calls[0].now, calls[0].replies).0, n, size, calls[1..])
  }

  predicate NoneRaises(s: Store, n: nat, size: nat, calls: seq<Call>)
    decreases |calls|
  {
    calls == [] ||
    (var d := Deliver(s, n, size, calls[0].now, calls[0].replies);
     d.1.Summary? && NoneRaises(d.0, n, size, calls[1..]))
  }

  /** `k * size`, call by call. */
  function Taken(k: nat, size: nat): nat {
    if k == 0 then 0 else Taken(k - 1, size) + size
  }

  lemma {:induction false} TakenIsProduct(k: nat, size: nat)
    ensures Taken(k, size) == k * size
  {
    if k > 0 {
      TakenIsProduct(k - 1, size);
      assert k * size == (k - 1) * size + size;
    }
  }

  lemma {:induction false} CallTakesCount(s: Store, n: nat, size: nat, now: int, replies: seq<Reply>)
    requires Deliver(s, n, size, now, replies).1.Summary?
    ensures var before := |QueuedOf(s.rows, n)|;
      |QueuedOf(Deliver(s, n, size, now, replies).0.rows, n)| == if before <= size then 0 else before - size
  {
    hide Deliver, QueuedOf;
    CallTakesBatch(s, n, size, now, replies);
  }

  lemma {:induction false} CallsTake(s: Store, n: nat, size: nat, calls: seq<Call>)
    requires NoneRaises(s, n, size, calls)
    ensures var before, taken := |QueuedOf(s.rows, n)|, Taken(|calls|, size);
      |QueuedOf(Calls(s, n, size, calls).rows, n)| == if before <= taken then 0 else before - taken
    decreases |calls|
  {
    if calls != [] {
      hide Deliver, QueuedOf;
      var d := Deliver(s, n, size, calls[0].now, calls[0].replies);
      CallTakesCount(s, n, size, calls[0].now, calls[0].replies);
      CallsTake(d.0, n, size, calls[1..]);
    }
  }

  /** `k` calls that do not raise leave max(0, queued - k * size) recipients queued, so the queue is
      drained exactly when k * size reaches it: by ceil(queued / size) calls and no fewer. */
  lemma {:induction false} CallsDrain(s: Store, n: nat, size: nat, calls: seq<Call>)
    requires NoneRaises(s, n, size, calls)
    ensures var before := |QueuedOf(s.rows, n)|; var after := |QueuedOf(Calls(s, n, size, calls).rows, n)|;
      && after == (if before <= |calls| * size then 0 else before - |calls| * size)
      && (size > 0 ==> (after == 0 <==> |calls| >= (before + size - 1) / size))
  {
    hide QueuedOf, Calls, NoneRaises, Taken;
    CallsTake(s, n, size, calls);
    TakenIsProduct(|calls|, size);
    if size > 0 {
      CeilingReached(|QueuedOf(s.rows, n)|, size, |calls|);
    }
  }

  lemma {:induction false} CeilingReached(n: nat, size: nat, k: nat)
    requires size > 0
    ensures n <= k * size <==> k >= (n + size - 1) / size
  {
    var q, r := (n + size - 1) / size, (n + size - 1) % size;
    assert n + size - 1 == q * size + r;
    if k >= q {
      ProductMonotone(q, k, size);
    } else {
      ProductMonotone(k, q - 1, size);
      assert q * size == (q - 1) * size + size;
    }
  }

  lemma {:induction false} ProductMonotone(a: nat, b: nat, size: nat)
    requires a <= b
    ensures a * size <= b * size
    decreases b
  {
    if a < b {
      ProductMonotone(a, b - 1, size);
      assert b * size == (b - 1) * size + size;
    }
  }

  // ----- a read in the middle of a call -----

  /** A settled row that has been read already never becomes READ again, whatever happens to it. */
  lemma {:induction false} NeverReadAgain(s: Store, ops: seq<Op>, r: nat)
    requires r < |s.rows| && s.rows[r].readAt.Some? && s.rows[r].status in {Sent, Failed}
    ensures var s' := Run(s, ops);
      r < |s'.rows| && s'.rows[r].readAt == s.rows[r].readAt && s'.rows[r].status == s.rows[r].status
  {
    if ops != [] {
      hide Deliver, RegisterDevice, UnregisterDevice, Distinct;
      var before, op := Run(s, ops[..|ops| - 1]), ops[|ops| - 1];
      NeverReadAgain(s, ops[..|ops| - 1], r);
      match op
      case DoDeliver(at, n, size, replies) => OthersUntouched(before, n, size, at, replies, r);
        DeliverRow(before, n, size, at, replies, r);
      case DoRegister(_, _, _, _) => DeviceStepKeepsRows(before, op);
      case DoUnregister(_, _, _) => DeviceStepKeepsRows(before, op);
      case _ =>
    }
  }

  /** Delivery is not atomic: it reads the queue, sends, then writes by id. A recipient that reads its
      row in between keeps a consistent row exactly when the call does not write to it; otherwise the
      row has a read time but is not READ, and no run makes it READ again. */
  lemma {:induction false} ReadDuringCall(s: Store, n: nat, size: nat, now: int, replies: seq<Reply>, r: nat, readAt: int,
                                          clock: int)
    requires Inv(s, clock) && clock <= now <= readAt && r < |s.rows| && s.rows[r].readAt.None?
    ensures var plan := MakePlan(s, n, size, now);
      var s' := Persist(MarkRead(s, s.rows[r].user, r, readAt), plan, replies, now);
      && (RowOk(s'.rows[r], readAt) <==> r !in plan.batch || Judge(plan.pairs, replies, r) == Retry)
      && (!RowOk(s'.rows[r], readAt) ==>
            forall ops :: r < |Run(s', ops).rows| && Run(s', ops).rows[r].status != Read)
  {
    hide Pairs, Judge, QueuedOf, Run;
    var plan := MakePlan(s, n, size, now);
    BatchIsOk(s, n, size);
    JudgeIs(plan.pairs, replies, r);
    var s' := Persist(MarkRead(s, s.rows[r].user, r, readAt), plan, replies, now);
    if !RowOk(s'.rows[r], readAt) {
      forall ops ensures r < |Run(s', ops).rows| && Run(s', ops).rows[r].status != Read {
        NeverReadAgain(s', ops, r);
      }
    }
  }

  // ----- two calls at once -----

  /** Two calls of one notification that both read the queue before either writes. The later writes decide:
      a delivery already recorded is lost exactly when the second call gives the recipient up, and the row is
      inconsistent afterwards, FAILED with a delivery time, exactly when it does so for failed replies; for
      want of a token it also clears the time. */
  lemma {:induction false} OverlappingCalls(s: Store, s2: Store, n: nat, size: nat, now1: int, replies1: seq<Reply>, now2: int,
                                            replies2: seq<Reply>, r: nat, clock: int)
    requires Inv(s, clock) && clock <= now1 <= now2 && s2.rows == s.rows && r < |s.rows|
    ensures var plan1, plan2 := MakePlan(s, n, size, now1), MakePlan(s2, n, size, now2);
      var v1, v2 := VerdictOf(plan1, replies1, r), VerdictOf(plan2, replies2, r);
      var after1 := Persist(s, plan1, replies1, now1);
      var after2 := Persist(s2.(rows := after1.rows), plan2, replies2, now2);
      && (RowOk(after2.rows[r], now2) <==> !(v1 == Delivered && v2 == GaveUp))
      && (v1 == Delivered ==> (after2.rows[r].status == Sent <==> v2 !in {GaveUp, NoToken}))
  {
    hide Judge, Pairs, QueuedOf, SessionsOk, OneRowPerUser;
    BatchIsOk(s, n, size);
    BatchIsOk(s2, n, size);
    var plan1, plan2 := MakePlan(s, n, size, now1), MakePlan(s2, n, size, now2);
    JudgeIs(plan1.pairs, replies1, r);
    JudgeIs(plan2.pairs, replies2, r);
    assert RowOk(s.rows[r], clock);
  }
}
