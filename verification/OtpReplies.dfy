/** What every one-time-code call of a timed run is answered, from the earlier calls and answers alone
    (common/otp.py): when a code is sent and how long the wait is otherwise, and which verify succeeds,
    misses, or finds the code locked or gone. */
module OtpReplies {
  import opened Text
  import opened Otp

  /** Of `n` answered calls, the send at `i` is followed by nothing consumed. */
  ghost predicate Unspent(rs: seq<Reply>, i: nat, n: nat)
    requires n <= |rs|
  {
    i < n && rs[i] == Sent && forall m | i < m < n :: !Consumes(rs[m])
  }

  /** And by no other send. */
  ghost predicate Newest(rs: seq<Reply>, i: nat, n: nat)
    requires n <= |rs|
  {
    Unspent(rs, i, n) && forall m | i < m < n :: rs[m] != Sent
  }

  function Misses(rs: seq<Reply>, i: nat): nat
    requires i < |rs|
  {
    Mismatches(rs[i + 1..])
  }

  /** The keys as the calls so far have left them: all gone if no send is unspent, and otherwise those of the
      newest send, with the misses since; sends unspent before it are a cooldown earlier. */
  ghost predicate KeysAre(k: Keys, cfg: Settings, calls: seq<Call>, rs: seq<Reply>, newest: Option<nat>)
    requires |rs| == |calls|
  {
    match newest
    case None => k == EMPTY && forall i: nat :: !Unspent(rs, i, |rs|)
    case Some(i) =>
      && Newest(rs, i, |rs|) && calls[i].DoSend?
      && k.code == Some(Entry(calls[i].code, calls[i].at + cfg.ttl))
      && k.cooldown == Some(Entry((), calls[i].at + cfg.cooldown))
      && k.attempts.Some? && k.attempts.value.value == Misses(rs, i)
      && forall e: nat | Unspent(rs, e, |rs|) && e != i :: e < i && calls[e].at + cfg.cooldown <= calls[i].at
  }

  lemma {:induction false} MismatchesAppend(rs: seq<Reply>, r: Reply)
    ensures Mismatches(rs + [r]) == Mismatches(rs) + if r.Mismatch? then 1 else 0
  {
    if rs != [] {
      assert (rs + [r])[1..] == rs[1..] + [r];
      MismatchesAppend(rs[1..], r);
    }
  }

  lemma {:induction false} UnspentAppend(rs: seq<Reply>, r: Reply, all: seq<Reply>, i: nat)
    requires all == rs + [r]
    ensures Unspent(all, i, |all|) <==> (i == |rs| && r == Sent) || (Unspent(rs, i, |rs|) && !Consumes(r))
    ensures Newest(rs, i, |rs|) && !Consumes(r) && r != Sent ==> Newest(all, i, |all|)
    ensures r == Sent ==> Newest(all, |rs|, |all|)
    ensures i < |rs| ==> Misses(all, i) == Misses(rs, i) + if r.Mismatch? then 1 else 0
  {
    if i < |rs| {
      assert all[i + 1..] == rs[i + 1..] + [r];
      MismatchesAppend(rs[i + 1..], r);
    }
    if Unspent(all, i, |all|) && i < |rs| {
      assert forall m | i < m < |rs| :: all[m] == rs[m];
      assert all[|rs|] == r;
    }
  }

  lemma {:induction false} NewestIs(k: Keys, cfg: Settings, calls: seq<Call>, rs: seq<Reply>, newest: Option<nat>)
    requires |rs| == |calls| && KeysAre(k, cfg, calls, rs, newest) && newest.Some?
    ensures newest.value < |rs| && Unspent(rs, newest.value, |rs|)
  {
  }

  /** A code is sent, the last cooldown being over. */
  lemma {:induction false} StepSent(k: Keys, cfg: Settings, calls: seq<Call>, rs: seq<Reply>, newest: Option<nat>, c: Call,
                                    all: seq<Reply>)
    requires |rs| == |calls| && KeysAre(k, cfg, calls, rs, newest) && Apply(k, cfg, c).1 == Sent && all == rs + [Sent]
    requires forall i | 0 <= i < |calls| :: calls[i].at <= c.at
    ensures KeysAre(Apply(k, cfg, c).0, cfg, calls + [c], all, Some(|rs|))
  {
    hide Newest, Unspent;
    UnspentAppend(rs, Sent, all, |rs|);
    assert all[|rs| + 1..] == [];
    if newest.Some? {
      NewestIs(k, cfg, calls, rs, newest);
    }
    forall e: nat | Unspent(all, e, |all|) && e != |rs| ensures e < |rs| && calls[e].at + cfg.cooldown <= c.at {
      UnspentAppend(rs, Sent, all, e);
      UnspentBefore(rs, e);
    }
  }

  lemma {:induction false} UnspentBefore(rs: seq<Reply>, i: nat)
    ensures Unspent(rs, i, |rs|) ==> i < |rs|
  {
  }

  /** Everything is consumed. */
  lemma {:induction false} StepConsumed(k: Keys, cfg: Settings, calls: seq<Call>, rs: seq<Reply>, c: Call, all: seq<Reply>)
    requires |rs| == |calls| && Consumes(Apply(k, cfg, c).1) && all == rs + [Apply(k, cfg, c).1]
    ensures KeysAre(Apply(k, cfg, c).0, cfg, calls + [c], all, None)
  {
    hide Unspent;
    forall i: nat ensures !Unspent(all, i, |all|) {
      UnspentAppend(rs, Apply(k, cfg, c).1, all, i);
    }
  }

  /** Any other answer leaves the keys, but for one more miss. */
  lemma {:induction false} StepOther(k: Keys, cfg: Settings, calls: seq<Call>, rs: seq<Reply>, newest: Option<nat>, c: Call,
                                     now: int, all: seq<Reply>)
    requires |rs| == |calls| && KeysAre(k, cfg, calls, rs, newest) && Ordered(k, cfg, now) && now <= c.at
    requires Apply(k, cfg, c).1 != Sent && !Consumes(Apply(k, cfg, c).1) && all == rs + [Apply(k, cfg, c).1]
    ensures KeysAre(Apply(k, cfg, c).0, cfg, calls + [c], all, newest)
  {
    hide Newest, Unspent, Misses;
    var r := Apply(k, cfg, c).1;
    if newest.Some? {
      NewestIs(k, cfg, calls, rs, newest);
      UnspentAppend(rs, r, all, newest.value);
    }
    forall e: nat ensures Unspent(all, e, |all|) <==> Unspent(rs, e, |rs|)
      ensures Unspent(rs, e, |rs|) ==> e < |rs|
    {
      UnspentAppend(rs, r, all, e);
      UnspentBefore(rs, e);
    }
  }

  /** One call more, at the end. */
  lemma {:induction false} LastCall(cfg: Settings, calls: seq<Call>)
    requires calls != []
    ensures var n := |calls| - 1; var a := Apply(After(EMPTY, cfg, calls[..n]), cfg, calls[n]);
      && After(EMPTY, cfg, calls) == a.0
      && Replies(EMPTY, cfg, calls) == Replies(EMPTY, cfg, calls[..n]) + [a.1]
  {
    var n := |calls| - 1;
    var k := After(EMPTY, cfg, calls[..n]);
    var a := Apply(k, cfg, calls[n]);
    Split(EMPTY, cfg, calls, n);
    assert calls[n..] == [calls[n]];
    assert After(k, cfg, [calls[n]]) == a.0 && Replies(k, cfg, [calls[n]]) == [a.1];
  }

  lemma {:induction false} OneNewest(k: Keys, cfg: Settings, calls: seq<Call>, rs: seq<Reply>, newest: Option<nat>)
    requires |rs| == |calls| && KeysAre(k, cfg, calls, rs, newest)
    ensures forall i: nat :: Newest(rs, i, |rs|) <==> newest == Some(i)
  {
  }

  lemma {:induction false} KeysInRun(cfg: Settings, now: int, calls: seq<Call>) returns (newest: Option<nat>)
    requires Timed(now, calls)
    ensures KeysAre(After(EMPTY, cfg, calls), cfg, calls, Replies(EMPTY, cfg, calls), newest)
    decreases |calls|
  {
    if calls == [] {
      newest := None;
    } else {
      hide KeysAre, Apply, Replies, After, Ordered;
      var n := |calls| - 1;
      newest := KeysInRun(cfg, now, calls[..n]);
      LastCall(cfg, calls);
      var k, rs := After(EMPTY, cfg, calls[..n]), Replies(EMPTY, cfg, calls[..n]);
      EmptyOrdered(cfg, now);
      RunOrdered(EMPTY, cfg, calls[..n], now);
      var r := Apply(k, cfg, calls[n]).1;
      assert calls == calls[..n] + [calls[n]];
      if r == Sent {
        StepSent(k, cfg, calls[..n], rs, newest, calls[n], rs + [r]);
        newest := Some(n);
      } else if Consumes(r) {
        StepConsumed(k, cfg, calls[..n], rs, calls[n], rs + [r]);
        newest := None;
      } else {
        StepOther(k, cfg, calls[..n], rs, newest, calls[n], LastTime(now, calls[..n]), rs + [r]);
      }
    }
  }

  // ----- the answers -----

  /** At the call `j`, the code sent at `i` makes senders wait. */
  ghost predicate Cools(cfg: Settings, calls: seq<Call>, i: nat, j: nat)
    requires j < |calls|
  {
    Unspent(Replies(EMPTY, cfg, calls), i, j) && calls[j].at < calls[i].at + cfg.cooldown
  }

  /** At the call `j`, the code sent at `i` is the one in force. */
  ghost predicate Guards(cfg: Settings, calls: seq<Call>, i: nat, j: nat)
    requires j < |calls|
  {
    Newest(Replies(EMPTY, cfg, calls), i, j) && calls[i].DoSend? && calls[j].at < calls[i].at + cfg.ttl
  }

  lemma {:induction false} UnspentPrefix(rs: seq<Reply>, i: nat, j: nat)
    requires j <= |rs|
    ensures Unspent(rs, i, j) <==> Unspent(rs[..j], i, |rs[..j]|)
    ensures Newest(rs, i, j) <==> Newest(rs[..j], i, |rs[..j]|)
  {
    assert forall m | 0 <= m < j :: rs[..j][m] == rs[m];
  }

  /** The keys before the call at `j`, and its answer. */
  lemma {:induction false} AnswerAt(cfg: Settings, now: int, calls: seq<Call>, j: nat) returns (k: Keys, newest: Option<nat>)
    requires Timed(now, calls) && j < |calls|
    ensures KeysAre(k, cfg, calls[..j], Replies(EMPTY, cfg, calls)[..j], newest)
    ensures Replies(EMPTY, cfg, calls)[j] == Apply(k, cfg, calls[j]).1
    ensures exists at :: at <= calls[j].at && Ordered(k, cfg, at)
  {
    hide KeysAre, Apply, After, Ordered;
    newest := KeysInRun(cfg, now, calls[..j]);
    var at, k';
    k, at, k' := StepOf(cfg, now, calls, j);
    Split(EMPTY, cfg, calls, j);
  }

  /** A code is sent unless one sent less than a cooldown ago is unspent; then the answer is the time left
      until that cooldown is over. */
  lemma {:induction false} SendReplies(cfg: Settings, now: int, calls: seq<Call>, j: nat)
    requires Timed(now, calls) && j < |calls| && calls[j].DoSend?
    ensures var r := Replies(EMPTY, cfg, calls)[j];
      && (r == Sent <==> !exists i: nat :: Cools(cfg, calls, i, j))
      && (forall i: nat | Cools(cfg, calls, i, j) :: r == CoolingDown(calls[i].at + cfg.cooldown - calls[j].at))
  {
    hide Replies, Ordered, Unspent, Newest, Misses;
    var k, newest := AnswerAt(cfg, now, calls, j);
    var rs := Replies(EMPTY, cfg, calls);
    forall i: nat ensures Unspent(rs, i, j) <==> Unspent(rs[..j], i, |rs[..j]|) {
      UnspentPrefix(rs, i, j);
    }
    if newest.Some? {
      NewestIs(k, cfg, calls[..j], rs[..j], newest);
      assert k.cooldown == Some(Entry((), calls[newest.value].at + cfg.cooldown));
      assert Unspent(rs, newest.value, j);
      assert Live(k.cooldown, calls[j].at) ==> Cools(cfg, calls, newest.value, j);
    }
  }

  /** A verify finds the code gone unless one was sent, less than its lifetime ago, that is unspent and the
      newest; then it is locked after `maxAttempts` misses since that send, verified for exactly that code,
      and one more miss for any other. */
  lemma {:induction false} VerifyReplies(cfg: Settings, now: int, calls: seq<Call>, j: nat)
    requires Timed(now, calls) && j < |calls| && calls[j].DoVerify?
    ensures var rs := Replies(EMPTY, cfg, calls);
      && (rs[j] == Gone <==> !exists i: nat :: Guards(cfg, calls, i, j))
      && (forall i: nat | Guards(cfg, calls, i, j) ::
            var misses := Mismatches(rs[i + 1..j]);
            rs[j] == if misses >= cfg.maxAttempts then Locked
                     else if Strip(calls[j].input) == calls[i].code then Verified(calls[j].consume)
                     else Mismatch(cfg.maxAttempts - misses - 1))
  {
    hide Replies, Unspent, Newest, Mismatches;
    var k, newest := AnswerAt(cfg, now, calls, j);
    var rs := Replies(EMPTY, cfg, calls);
    forall i: nat ensures Newest(rs, i, j) <==> Newest(rs[..j], i, |rs[..j]|) {
      UnspentPrefix(rs, i, j);
    }
    OneNewest(k, cfg, calls[..j], rs[..j], newest);
    if newest.Some? {
      var i := newest.value;
      NewestIs(k, cfg, calls[..j], rs[..j], newest);
      assert rs[..j][i + 1..] == rs[i + 1..j];
      assert Live(k.code, calls[j].at) ==> Guards(cfg, calls, i, j);
      assert forall e: nat :: Guards(cfg, calls, e, j) ==> Newest(rs, e, j) && e == i;
    }
  }
}
