/** One-time codes over expiring cache keys (common/otp.py): the three keys of one e-mail address,
    with whole-second time and each call atomic. */
module Otp {
  import opened Text

  datatype Entry<T> = Entry(value: T, expires: int)

  /** `otp:{email}:code`, `:attempts` and `:cooldown`; a key past its expiry reads as absent. */
  datatype Keys = Keys(code: Option<Entry<string>>, attempts: Option<Entry<int>>, cooldown: Option<Entry<()>>)

  datatype Settings = Settings(ttl: int, maxAttempts: int, cooldown: int)

  datatype Reply = Sent | CoolingDown(remaining: int) | Gone | Locked | Mismatch(remaining: int) | Verified(consumed: bool) | Consumed

  const EMPTY := Keys(None, None, None)

  predicate Live<T>(e: Option<Entry<T>>, now: int) {
    e.Some? && now < e.value.expires
  }

  function Send(k: Keys, cfg: Settings, now: int, code: string): (Keys, Reply) {
    if Live(k.cooldown, now) then (k, CoolingDown(k.cooldown.value.expires - now))
    else (Keys(Some(Entry(code, now + cfg.ttl)), Some(Entry(0, now + cfg.ttl)), Some(Entry((), now + cfg.cooldown))), Sent)
  }

  function Attempts(k: Keys, now: int): int {
    if Live(k.attempts, now) then k.attempts.value.value else 0
  }

  function Verify(k: Keys, cfg: Settings, now: int, input: string, consume: bool): (Keys, Reply) {
    if !Live(k.code, now) then (k, Gone)
    else if Attempts(k, now) >= cfg.maxAttempts then (k, Locked)
    else if Strip(input) != k.code.value.value then
      (k.(attempts := Some(Entry(Attempts(k, now) + 1, now + cfg.ttl))), Mismatch(cfg.maxAttempts - Attempts(k, now) - 1))
    else if consume then (EMPTY, Verified(true))
    else (k, Verified(false))
  }

  // ----- timed runs -----

  datatype Call = DoSend(at: int, code: string) | DoVerify(at: int, input: string, consume: bool) | DoConsume(at: int)

  function Apply(k: Keys, cfg: Settings, c: Call): (Keys, Reply) {
    match c
    case DoSend(at, code) => Send(k, cfg, at, code)
    case DoVerify(at, input, consume) => Verify(k, cfg, at, input, consume)
    case DoConsume(at) => (EMPTY, Consumed)
  }

  function After(k: Keys, cfg: Settings, calls: seq<Call>): Keys
    decreases |calls|
  {
    if calls == [] then k else After(Apply(k, cfg, calls[0]).0, cfg, calls[1..])
  }

  function Replies(k: Keys, cfg: Settings, calls: seq<Call>): (rs: seq<Reply>)
    ensures |rs| == |calls|
    decreases |calls|
  {
    if calls == [] then []
    else [Apply(k, cfg, calls[0]).1] + Replies(Apply(k, cfg, calls[0]).0, cfg, calls[1..])
  }

  /** The clock does not run backwards, and has reached `now` before the first call. */
  predicate Timed(now: int, calls: seq<Call>) {
    && (forall i | 0 <= i < |calls| :: now <= calls[i].at)
    && (forall i, j | 0 <= i < j < |calls| :: calls[i].at <= calls[j].at)
  }

  predicate Consumes(r: Reply) {
    r == Consumed || r == Verified(true)
  }

  function Mismatches(rs: seq<Reply>): nat {
    if rs == [] then 0 else (if rs[0].Mismatch? then 1 else 0) + Mismatches(rs[1..])
  }

  function Sends(rs: seq<Reply>): nat {
    if rs == [] then 0 else (if rs[0] == Sent then 1 else 0) + Sends(rs[1..])
  }

  lemma {:induction false} Split(k: Keys, cfg: Settings, calls: seq<Call>, i: nat)
    requires i <= |calls|
    ensures Replies(k, cfg, calls) == Replies(k, cfg, calls[..i]) + Replies(After(k, cfg, calls[..i]), cfg, calls[i..])
    ensures After(k, cfg, calls) == After(After(k, cfg, calls[..i]), cfg, calls[i..])
    decreases i
  {
    if i > 0 {
      Split(Apply(k, cfg, calls[0]).0, cfg, calls[1..], i - 1);
      assert calls[..i][1..] == calls[1..][..i - 1] && calls[1..][i - 1..] == calls[i..];
    } else {
      assert calls[0..] == calls;
    }
  }

  // ----- the ordering of the two expiry times -----

  /** The attempts key never expires before the code it guards. */
  ghost predicate Ordered(k: Keys, cfg: Settings, now: int) {
    k.code.Some? ==>
      && k.code.value.expires <= now + cfg.ttl
      && k.attempts.Some? && k.attempts.value.value >= 0
      && k.code.value.expires <= k.attempts.value.expires
  }

  lemma {:induction false} ApplyKeepsOrdered(k: Keys, cfg: Settings, c: Call, now: int)
    requires Ordered(k, cfg, now) && now <= c.at
    ensures Ordered(Apply(k, cfg, c).0, cfg, c.at)
  {
  }

  /** How many more wrong guesses the stored code can take. */
  function Budget(k: Keys, cfg: Settings, now: int): nat {
    if Live(k.code, now) && Attempts(k, now) < cfg.maxAttempts then cfg.maxAttempts - Attempts(k, now) else 0
  }

  lemma {:induction false} BudgetStep(k: Keys, cfg: Settings, c: Call, now: int)
    requires Ordered(k, cfg, now) && now <= c.at
    requires Apply(k, cfg, c).1 != Sent
    ensures var a := Apply(k, cfg, c);
      && Budget(a.0, cfg, c.at) + (if a.1.Mismatch? then 1 else 0) <= Budget(k, cfg, now)
      && (a.1.Verified? ==> Budget(k, cfg, now) > 0)
      && (a.1 in {Gone, Locked} || Consumes(a.1) ==> Budget(a.0, cfg, c.at) == 0)
  {
  }

  function LastTime(now: int, calls: seq<Call>): int {
    if calls == [] then now else calls[|calls| - 1].at
  }

  /** Until the next code is sent, every wrong guess is paid for out of the budget. */
  lemma {:induction false} GuessRun(k: Keys, cfg: Settings, calls: seq<Call>, now: int, j: nat)
    requires Ordered(k, cfg, now) && Timed(now, calls) && j <= |calls|
    requires forall m | 0 <= m < j :: Replies(k, cfg, calls)[m] != Sent
    ensures Mismatches(Replies(k, cfg, calls)[..j]) <= Budget(k, cfg, now)
    decreases j
  {
    if j > 0 {
      hide Apply, Budget, Ordered;
      var k', rest := FirstStep(k, cfg, calls, now, j);
      GuessRun(k', cfg, calls[1..], calls[0].at, j - 1);
    }
  }

  /** Once the budget is spent, no guess succeeds. */
  lemma {:induction false} SpentRun(k: Keys, cfg: Settings, calls: seq<Call>, now: int, j: nat)
    requires Ordered(k, cfg, now) && Timed(now, calls) && j < |calls|
    requires forall m | 0 <= m <= j :: Replies(k, cfg, calls)[m] != Sent
    requires Budget(k, cfg, now) == 0
    ensures !Replies(k, cfg, calls)[j].Verified?
    decreases j
  {
    hide Apply, Budget, Ordered;
    var k', rest := FirstStep(k, cfg, calls, now, j);
    if j > 0 {
      SpentRun(k', cfg, calls[1..], calls[0].at, j - 1);
    }
  }

  lemma {:induction false} LockedRun(k: Keys, cfg: Settings, calls: seq<Call>, now: int, m: nat, j: nat)
    requires Ordered(k, cfg, now) && Timed(now, calls) && m <= j < |calls|
    requires forall i | 0 <= i <= j :: Replies(k, cfg, calls)[i] != Sent
    requires Mismatches(Replies(k, cfg, calls)[..m]) >= Budget(k, cfg, now)
    ensures !Replies(k, cfg, calls)[j].Verified?
    decreases m
  {
    if m == 0 {
      SpentRun(k, cfg, calls, now, j);
    } else {
      hide Apply, Budget, Ordered;
      var k', rest := FirstStep(k, cfg, calls, now, m);
      LockedRun(k', cfg, calls[1..], calls[0].at, m - 1, j - 1);
    }
  }

  /** What the first call of a run that sends nothing does to the budget and to the replies. */
  lemma {:induction false} FirstStep(k: Keys, cfg: Settings, calls: seq<Call>, now: int, j: nat)
    returns (k': Keys, rest: seq<Reply>)
    requires Ordered(k, cfg, now) && Timed(now, calls) && calls != [] && j <= |calls|
    requires Replies(k, cfg, calls)[0] != Sent
    ensures rest == Replies(k', cfg, calls[1..]) && Ordered(k', cfg, calls[0].at) && Timed(calls[0].at, calls[1..])
    ensures forall i | 0 <= i < |rest| :: Replies(k, cfg, calls)[i + 1] == rest[i]
    ensures Budget(k', cfg, calls[0].at) + (if Replies(k, cfg, calls)[0].Mismatch? then 1 else 0) <= Budget(k, cfg, now)
    ensures Replies(k, cfg, calls)[0].Verified? ==> Budget(k, cfg, now) > 0
    ensures j > 0 ==>
              Mismatches(Replies(k, cfg, calls)[..j])
              == (if Replies(k, cfg, calls)[0].Mismatch? then 1 else 0) + Mismatches(rest[..j - 1])
  {
    hide Apply, Budget, Ordered;
    var a := Apply(k, cfg, calls[0]);
    k', rest := a.0, Replies(a.0, cfg, calls[1..]);
    var rs := Replies(k, cfg, calls);
    assert rs == [a.1] + rest;
    BudgetStep(k, cfg, calls[0], now);
    ApplyKeepsOrdered(k, cfg, calls[0], now);
    if j > 0 {
      assert rs[..j][0] == a.1 && rs[..j][1..] == rest[..j - 1];
    }
  }

  lemma {:induction false} RunOrdered(k: Keys, cfg: Settings, calls: seq<Call>, now: int)
    requires Ordered(k, cfg, now) && Timed(now, calls)
    ensures Ordered(After(k, cfg, calls), cfg, LastTime(now, calls))
    decreases |calls|
  {
    hide Apply, Ordered;
    if calls != [] {
      ApplyKeepsOrdered(k, cfg, calls[0], now);
      RunOrdered(Apply(k, cfg, calls[0]).0, cfg, calls[1..], calls[0].at);
      assert LastTime(now, calls) == LastTime(calls[0].at, calls[1..]);
    }
  }

  lemma {:induction false} EmptyOrdered(cfg: Settings, now: int)
    ensures Ordered(EMPTY, cfg, now)
  {
  }

  lemma {:induction false} BudgetBound(k: Keys, cfg: Settings, now: int)
    requires Ordered(k, cfg, now)
    ensures Budget(k, cfg, now) <= if cfg.maxAttempts > 0 then cfg.maxAttempts else 0
  {
  }

  /** The state before the call at `i`, and the replies from there on as those of a run of its own. */
  lemma {:induction false} StateAt(cfg: Settings, now: int, calls: seq<Call>, i: nat) returns (k: Keys, at: int)
    requires Timed(now, calls) && i <= |calls|
    ensures k == After(EMPTY, cfg, calls[..i])
    ensures Ordered(k, cfg, at) && Timed(at, calls[i..])
    ensures Replies(k, cfg, calls[i..]) == Replies(EMPTY, cfg, calls)[i..]
  {
    hide Apply, Replies, After, Ordered;
    k, at := After(EMPTY, cfg, calls[..i]), LastTime(now, calls[..i]);
    EmptyOrdered(cfg, now);
    RunOrdered(EMPTY, cfg, calls[..i], now);
    Split(EMPTY, cfg, calls, i);
  }

  // ----- what every timed run keeps -----

  /** In every timed run the attempts key outlives the live code. */
  lemma {:induction false} AttemptsOutliveCode(cfg: Settings, now: int, calls: seq<Call>, t: int)
    requires Timed(now, calls)
    ensures var k := After(EMPTY, cfg, calls); Live(k.code, t) ==> Live(k.attempts, t)
  {
    RunOrdered(EMPTY, cfg, calls, now);
  }

  /** Between two sends a code sees at most `maxAttempts` wrong guesses. */
  lemma {:induction false} GuessLimit(cfg: Settings, now: int, calls: seq<Call>, i: nat, j: nat)
    requires Timed(now, calls) && i <= j <= |calls|
    requires forall m | i <= m < j :: Replies(EMPTY, cfg, calls)[m] != Sent
    ensures Mismatches(Replies(EMPTY, cfg, calls)[i..j]) <= if cfg.maxAttempts > 0 then cfg.maxAttempts else 0
  {
    hide Replies, Ordered, Budget;
    var k, at := StateAt(cfg, now, calls, i);
    var rs := Replies(EMPTY, cfg, calls);
    assert forall m | 0 <= m < j - i :: rs[i..][m] == rs[i + m];
    GuessRun(k, cfg, calls[i..], at, j - i);
    BudgetBound(k, cfg, at);
    assert rs[i..][..j - i] == rs[i..j];
  }

  /** After that many wrong guesses no guess succeeds until the next send. */
  lemma {:induction false} LockedOut(cfg: Settings, now: int, calls: seq<Call>, i: nat, m: nat, j: nat)
    requires Timed(now, calls) && i <= m <= j < |calls|
    requires forall n | i <= n <= j :: Replies(EMPTY, cfg, calls)[n] != Sent
    requires Mismatches(Replies(EMPTY, cfg, calls)[i..m]) >= cfg.maxAttempts
    ensures !Replies(EMPTY, cfg, calls)[j].Verified?
  {
    hide Replies, Ordered, Budget;
    var k, at := StateAt(cfg, now, calls, i);
    var rs := Replies(EMPTY, cfg, calls);
    assert forall n | 0 <= n <= j - i :: rs[i..][n] == rs[i + n];
    assert rs[i..][..m - i] == rs[i..m];
    BudgetBound(k, cfg, at);
    LockedRun(k, cfg, calls[i..], at, m - i, j - i);
  }

  /** A code that was found locked or gone, or was consumed, verifies nothing more until the next
      send; so each code completes at most one consuming verify. */
  lemma {:induction false} SpentCodeNeverVerifies(cfg: Settings, now: int, calls: seq<Call>, i: nat, j: nat)
    requires Timed(now, calls) && i < j < |calls|
    requires forall m | i <= m <= j :: Replies(EMPTY, cfg, calls)[m] != Sent
    requires var r := Replies(EMPTY, cfg, calls)[i]; r in {Gone, Locked} || Consumes(r)
    ensures !Replies(EMPTY, cfg, calls)[j].Verified?
  {
    hide Replies, Apply, Ordered, Budget;
    var k, at, k' := StepOf(cfg, now, calls, i);
    BudgetStep(k, cfg, calls[i], at);
    ApplyKeepsOrdered(k, cfg, calls[i], at);
    var rs := Replies(EMPTY, cfg, calls);
    var tail := rs[i + 1..];
    assert forall m | 0 <= m < |tail| :: tail[m] == rs[i + 1 + m];
    SpentRun(k', cfg, calls[i + 1..], calls[i].at, j - i - 1);
  }

  /** The call at `i`: the state before it, the state after it, and the replies that follow. */
  lemma {:induction false} StepOf(cfg: Settings, now: int, calls: seq<Call>, i: nat)
    returns (k: Keys, at: int, k': Keys)
    requires Timed(now, calls) && i < |calls|
    ensures Ordered(k, cfg, at) && at <= calls[i].at
    ensures Apply(k, cfg, calls[i]) == (k', Replies(EMPTY, cfg, calls)[i])
    ensures Replies(k', cfg, calls[i + 1..]) == Replies(EMPTY, cfg, calls)[i + 1..]
    ensures k == After(EMPTY, cfg, calls[..i])
  {
    hide Apply, Ordered, After;
    k, at := StateAt(cfg, now, calls, i);
    k' := Apply(k, cfg, calls[i]).0;
    assert calls[i..][1..] == calls[i + 1..];
    var rs := Replies(EMPTY, cfg, calls);
    assert rs[i..] == [Apply(k, cfg, calls[i]).1] + Replies(k', cfg, calls[i + 1..]);
    assert rs[i] == rs[i..][0] && rs[i + 1..] == rs[i..][1..];
  }

  /** Where a stored code came from. */
  ghost predicate ComesFrom(k: Keys, cfg: Settings, calls: seq<Call>, rs: seq<Reply>, i: nat)
    requires |rs| == |calls|
  {
    && i < |calls| && rs[i] == Sent && calls[i].DoSend?
    && k.code == Some(Entry(calls[i].code, calls[i].at + cfg.ttl))
    && forall m | i < m < |calls| :: rs[m] != Sent && !Consumes(rs[m])
  }

  lemma {:induction false} StoredCodeWasSent(cfg: Settings, calls: seq<Call>) returns (i: nat)
    requires After(EMPTY, cfg, calls).code.Some?
    ensures ComesFrom(After(EMPTY, cfg, calls), cfg, calls, Replies(EMPTY, cfg, calls), i)
    decreases |calls|
  {
    var n := |calls| - 1;
    Split(EMPTY, cfg, calls, n);
    var k, rs := After(EMPTY, cfg, calls[..n]), Replies(EMPTY, cfg, calls[..n]);
    var a := Apply(k, cfg, calls[n]);
    assert calls[n..] == [calls[n]];
    assert After(k, cfg, [calls[n]]) == a.0 && Replies(k, cfg, [calls[n]]) == [a.1];
    if a.1 == Sent {
      i := n;
    } else {
      i := StoredCodeWasSent(cfg, calls[..n]);
    }
  }

  /** The verify at `j` was given the code of the send at `i`, within its lifetime, with no other send
      and nothing consumed in between. */
  ghost predicate Answers(cfg: Settings, calls: seq<Call>, i: nat, j: nat)
    requires j < |calls|
  {
    && i < j && Replies(EMPTY, cfg, calls)[i] == Sent && calls[i].DoSend? && calls[j].DoVerify?
    && Strip(calls[j].input) == calls[i].code
    && calls[i].at <= calls[j].at < calls[i].at + cfg.ttl
    && forall m | i < m < j :: Replies(EMPTY, cfg, calls)[m] != Sent && !Consumes(Replies(EMPTY, cfg, calls)[m])
  }

  /** A verify succeeds only with the last code sent, unconsumed, within its lifetime. */
  lemma {:induction false} VerifiedMatchesLastSend(cfg: Settings, now: int, calls: seq<Call>, j: nat)
    requires Timed(now, calls) && j < |calls| && Replies(EMPTY, cfg, calls)[j].Verified?
    ensures exists i: nat :: Answers(cfg, calls, i, j)
  {
    Split(EMPTY, cfg, calls, j);
    var k := After(EMPTY, cfg, calls[..j]);
    assert Replies(k, cfg, calls[j..])[0] == Apply(k, cfg, calls[j]).1;
    var i := StoredCodeWasSent(cfg, calls[..j]);
    assert Answers(cfg, calls, i, j);
  }

  // ----- the cooldown -----

  lemma {:induction false} OneMoreTimes(n: int, x: int)
    ensures (1 + n) * x == x + n * x
    ensures 0 * x == 0
  {
  }

  /** A running cooldown is renewed by a send, which comes no earlier than its end, and otherwise kept. */
  lemma {:induction false} CooldownStep(k: Keys, cfg: Settings, c: Call, from: int)
    requires k.cooldown == Some(Entry((), from)) && !Consumes(Apply(k, cfg, c).1)
    ensures var a := Apply(k, cfg, c);
      && a.0.cooldown == Some(Entry((), if a.1 == Sent then c.at + cfg.cooldown else from))
      && (a.1 == Sent ==> c.at >= from)
  {
  }

  lemma {:induction false} CooldownRun(k: Keys, cfg: Settings, calls: seq<Call>, from: int, j: nat)
    requires k.cooldown == Some(Entry((), from))
    requires j < |calls| && Replies(k, cfg, calls)[j] == Sent
    requires forall m | 0 <= m < j :: !Consumes(Replies(k, cfg, calls)[m])
    ensures calls[j].at >= from + Sends(Replies(k, cfg, calls)[..j]) * cfg.cooldown
    decreases j
  {
    hide Apply;
    var a := Apply(k, cfg, calls[0]);
    var rs := Replies(k, cfg, calls);
    assert rs[0] == a.1;
    OneMoreTimes(0, cfg.cooldown);
    if j > 0 {
      var rest := Replies(a.0, cfg, calls[1..]);
      assert forall m | 0 <= m < |rest| :: rs[m + 1] == rest[m];
      CooldownStep(k, cfg, calls[0], from);
      CooldownRun(a.0, cfg, calls[1..], if a.1 == Sent then calls[0].at + cfg.cooldown else from, j - 1);
      assert rs[..j] == [a.1] + rest[..j - 1];
      OneMoreTimes(Sends(rest[..j - 1]), cfg.cooldown);
    } else {
      CooldownStep(k, cfg, calls[0], from);
    }
  }

  /** `n` sends with nothing consumed in between span at least (n - 1) cooldowns: from the send at
      `i` to the one at `j`, one cooldown for the last send and one for each in between. */
  lemma {:induction false} SendsAreSpaced(cfg: Settings, now: int, calls: seq<Call>, i: nat, j: nat)
    requires Timed(now, calls) && i < j < |calls|
    requires Replies(EMPTY, cfg, calls)[i] == Sent && Replies(EMPTY, cfg, calls)[j] == Sent
    requires forall m | i < m < j :: !Consumes(Replies(EMPTY, cfg, calls)[m])
    ensures calls[j].at - calls[i].at >= cfg.cooldown + Sends(Replies(EMPTY, cfg, calls)[i + 1..j]) * cfg.cooldown
  {
    hide Replies;
    var rs := Replies(EMPTY, cfg, calls);
    var k, at, k' := StepOf(cfg, now, calls, i);
    var from := calls[i].at + cfg.cooldown;
    assert k'.cooldown == Some(Entry((), from));
    var rest := calls[i + 1..];
    assert Replies(k', cfg, rest) == rs[i + 1..];
    CooldownRun(k', cfg, rest, from, j - i - 1);
    assert rs[i + 1..][..j - i - 1] == rs[i + 1..j];
  }

  // ----- guesses in a window of time -----

  /** `n * x` for `n` whole units of `x`. */
  function Times(n: nat, x: nat): nat {
    if n == 0 then 0 else Times(n - 1, x) + x
  }

  lemma {:induction false} TimesIsProduct(n: nat, x: nat)
    ensures Times(n, x) == n * x
  {
    if n > 0 {
      TimesIsProduct(n - 1, x);
      assert n * x == (n - 1) * x + x;
    }
  }

  /** Every wrong guess is paid for out of the budget or by a send. */
  lemma {:induction false} GuessesPaid(k: Keys, cfg: Settings, calls: seq<Call>, now: int, j: nat)
    requires Ordered(k, cfg, now) && Timed(now, calls) && j <= |calls| && cfg.maxAttempts >= 0
    ensures var rs := Replies(k, cfg, calls)[..j];
      Mismatches(rs) <= Budget(k, cfg, now) + Times(Sends(rs), cfg.maxAttempts)
    decreases j
  {
    if j > 0 {
      hide Ordered, Budget, Apply;
      var a := Apply(k, cfg, calls[0]);
      var rest := Replies(a.0, cfg, calls[1..]);
      assert Replies(k, cfg, calls)[..j] == [a.1] + rest[..j - 1];
      ApplyKeepsOrdered(k, cfg, calls[0], now);
      GuessesPaid(a.0, cfg, calls[1..], calls[0].at, j - 1);
      BudgetBound(a.0, cfg, calls[0].at);
      if a.1 != Sent {
        BudgetStep(k, cfg, calls[0], now);
      }
    }
  }

  /** With a cooldown running until `from`, the last of some sends is at least that late, and one more
      cooldown later for each send before it. */
  lemma {:induction false} SpacedFrom(k: Keys, cfg: Settings, calls: seq<Call>, now: int, from: int, j: nat)
    requires k.cooldown == Some(Entry((), from)) && cfg.cooldown >= 0 && Timed(now, calls) && 0 < j <= |calls|
    requires forall m | 0 <= m < j :: !Consumes(Replies(k, cfg, calls)[m])
    ensures var sends := Sends(Replies(k, cfg, calls)[..j]);
      sends > 0 ==> calls[j - 1].at >= from + Times(sends - 1, cfg.cooldown)
    decreases j
  {
    hide Apply;
    var a := Apply(k, cfg, calls[0]);
    var rest := Replies(a.0, cfg, calls[1..]);
    var rs := Replies(k, cfg, calls);
    assert rs[..j] == [a.1] + rest[..j - 1];
    assert rs[0] == a.1;
    CooldownStep(k, cfg, calls[0], from);
    if j > 1 {
      assert forall m | 0 <= m < |rest| :: rs[m + 1] == rest[m];
      SpacedFrom(a.0, cfg, calls[1..], now, if a.1 == Sent then calls[0].at + cfg.cooldown else from, j - 1);
    }
  }

  lemma {:induction false} SentStartsCooldown(k: Keys, cfg: Settings, c: Call)
    ensures Apply(k, cfg, c).1 == Sent ==> Apply(k, cfg, c).0.cooldown == Some(Entry((), c.at + cfg.cooldown))
  {
  }

  lemma {:induction false} SendsSpan(k: Keys, cfg: Settings, calls: seq<Call>, now: int, j: nat)
    requires cfg.cooldown >= 0 && Timed(now, calls) && 0 < j <= |calls|
    requires forall m | 0 <= m < j :: !Consumes(Replies(k, cfg, calls)[m])
    ensures var sends := Sends(Replies(k, cfg, calls)[..j]);
      sends > 0 ==> calls[j - 1].at - calls[0].at >= Times(sends - 1, cfg.cooldown)
    decreases j
  {
    hide Times, Apply;
    var a := Apply(k, cfg, calls[0]);
    var rest := Replies(a.0, cfg, calls[1..]);
    var rs := Replies(k, cfg, calls);
    assert rs[..j] == [a.1] + rest[..j - 1];
    assert rs[0] == a.1;
    if j > 1 {
      assert forall m | 0 <= m < |rest| :: rs[m + 1] == rest[m];
      if a.1 == Sent {
        SentStartsCooldown(k, cfg, calls[0]);
        SpacedFrom(a.0, cfg, calls[1..], now, calls[0].at + cfg.cooldown, j - 1);
        TimesStep(Sends(rest[..j - 1]), cfg.cooldown);
      } else {
        SendsSpan(a.0, cfg, calls[1..], now, j - 1);
      }
    } else {
      TimesStep(0, cfg.cooldown);
    }
  }

  lemma {:induction false} TimesStep(n: nat, x: nat)
    ensures Times(0, x) == 0
    ensures n > 0 ==> Times(n, x) == Times(n - 1, x) + x
  {
  }

  lemma {:induction false} FitsTimes(n: nat, x: nat, total: nat)
    requires x > 0 && Times(n, x) <= total
    ensures n <= total / x
  {
    var q := total / x;
    assert total < q * x + x;
    TimesIsProduct(q, x);
    if n > q {
      TimesMonotone(q + 1, n, x);
    }
  }

  lemma {:induction false} TimesMonotone(a: nat, b: nat, x: nat)
    requires a <= b
    ensures Times(a, x) <= Times(b, x)
    decreases b
  {
    if a < b {
      TimesMonotone(a, b - 1, x);
    }
  }

  /** The bound on guessing: while nothing is consumed, a window of `span` seconds sees at most
      maxAttempts wrong guesses for each whole cooldown in it, and for two more codes. */
  lemma {:induction false} GuessesInWindow(cfg: Settings, now: int, calls: seq<Call>, i: nat, j: nat, span: nat)
    requires Timed(now, calls) && i < j <= |calls| && calls[j - 1].at - calls[i].at <= span
    requires cfg.maxAttempts >= 0 && cfg.cooldown > 0
    requires forall m | i <= m < j :: !Consumes(Replies(EMPTY, cfg, calls)[m])
    ensures Mismatches(Replies(EMPTY, cfg, calls)[i..j]) <= cfg.maxAttempts * (span / cfg.cooldown + 2)
  {
    hide Replies, Ordered, Budget, Times, Sends, Mismatches;
    var k, at := StateAt(cfg, now, calls, i);
    var rs := Replies(EMPTY, cfg, calls);
    assert forall m | 0 <= m < j - i :: rs[i..][m] == rs[i + m];
    assert rs[i..][..j - i] == rs[i..j];
    GuessesPaid(k, cfg, calls[i..], at, j - i);
    SendsSpan(k, cfg, calls[i..], at, j - i);
    BudgetBound(k, cfg, at);
    var sends := Sends(rs[i..j]);
    if sends > 0 {
      FitsTimes(sends - 1, cfg.cooldown, span);
    }
    TimesMonotone(sends, span / cfg.cooldown + 1, cfg.maxAttempts);
    TimesOneMore(span / cfg.cooldown + 1, cfg.maxAttempts);
  }

  lemma {:induction false} TimesOneMore(n: nat, x: nat)
    ensures Times(n, x) + x == x * (n + 1)
  {
    TimesIsProduct(n, x);
  }

  // ----- the service -----

  class OtpCache {
    const cfg: Settings
    var code: Option<Entry<string>>
    var attempts: Option<Entry<int>>
    var cooldown: Option<Entry<()>>

    constructor (cfg: Settings)
      ensures this.cfg == cfg && Stored() == EMPTY
    {
      this.cfg := cfg;
      code, attempts, cooldown := None, None, None;
    }

    function Stored(): Keys
      reads this
    {
      Keys(code, attempts, cooldown)
    }

    method SendOtp(now: int, drawn: string) returns (reply: Reply)
      modifies this
      ensures (Stored(), reply) == Apply(old(Stored()), cfg, DoSend(now, drawn))
      ensures old(Ordered(Stored(), cfg, now)) ==> Ordered(Stored(), cfg, now)
    {
      var left := if Live(cooldown, now) then cooldown.value.expires - now else 0;
      if left > 0 {
        return CoolingDown(left);
      }
      code := Some(Entry(drawn, now + cfg.ttl));
      attempts := Some(Entry(0, now + cfg.ttl));
      cooldown := Some(Entry((), now + cfg.cooldown));
      reply := Sent;
    }

    method VerifyOtp(now: int, input: string, consume: bool) returns (reply: Reply)
      modifies this
      ensures (Stored(), reply) == Apply(old(Stored()), cfg, DoVerify(now, input, consume))
      ensures old(Ordered(Stored(), cfg, now)) ==> Ordered(Stored(), cfg, now)
    {
      if !Live(code, now) {
        return Gone;
      }
      var used := if Live(attempts, now) then attempts.value.value else 0;
      if used >= cfg.maxAttempts {
        return Locked;
      }
      if Strip(input) != code.value.value {
        attempts := Some(Entry(used + 1, now + cfg.ttl));
        return Mismatch(cfg.maxAttempts - used - 1);
      }
      if consume {
        ConsumeOtp();
      }
      reply := Verified(consume);
    }

    method ConsumeOtp()
      modifies this
      ensures Stored() == EMPTY
    {
      code := None;
      attempts := None;
      cooldown := None;
    }
  }
}
