/** The broadcast rate limiter (apps/notifications/services/event_notification_service.py, lines
    480-518): callers of one organizer and event share a cache counter through `get`, `add` and
    `incr`, each atomic, and may interleave between them. */
module RateLimiter {
  import opened Text

  datatype Phase = Start | Admitted | AddLost | IncrLost | Passed | Refused

  /** The counter key (absent or a count) and where each caller is. */
  datatype State = State(counter: Option<nat>, callers: seq<Phase>)

  /** A caller takes its next step, or the key expires. */
  datatype Action = Turn(i: nat) | Expire

  /** `max(1, setting)` */
  function LimitOf(setting: int): (limit: nat)
    ensures limit >= 1 && limit >= setting && (limit > 1 ==> limit == setting)
  {
    if setting < 1 then 1 else setting
  }

  function Next(s: State, limit: nat, a: Action): State {
    match a
    case Expire => s.(counter := None)
    case Turn(i) =>
      if i >= |s.callers| then s
      else match s.callers[i]
        case Start =>            // get
          var seen := if s.counter.Some? then s.counter.value else 0;
          s.(callers := s.callers[i := if seen >= limit then Refused else Admitted])
        case Admitted =>         // add
          if s.counter.None? then State(Some(1), s.callers[i := Passed])
          else s.(callers := s.callers[i := AddLost])
        case AddLost =>          // incr
          if s.counter.None? then s.(callers := s.callers[i := IncrLost])
          else State(Some(s.counter.value + 1), s.callers[i := if s.counter.value + 1 > limit then Refused else Passed])
        case IncrLost =>         // the key went away: add again, whoever wins it
          State(if s.counter.None? then Some(1) else s.counter, s.callers[i := Passed])
        case _ => s
  }

  function Run(s: State, limit: nat, actions: seq<Action>): State {
    if actions == [] then s
    else Next(Run(s, limit, actions[..|actions| - 1]), limit, actions[|actions| - 1])
  }

  function Begin(n: nat): State {
    State(None, seq(n, _ => Start))
  }

  function CountOf(callers: seq<Phase>, phase: Phase): nat {
    if callers == [] then 0
    else (if callers[0] == phase then 1 else 0) + CountOf(callers[1..], phase)
  }

  lemma {:induction false} CountUpdate(callers: seq<Phase>, i: nat, to: Phase, phase: Phase)
    requires i < |callers|
    ensures CountOf(callers[i := to], phase) + (if callers[i] == phase then 1 else 0)
            == CountOf(callers, phase) + (if to == phase then 1 else 0)
  {
    if i == 0 {
      assert callers[i := to][1..] == callers[1..];
    } else {
      CountUpdate(callers[1..], i - 1, to, phase);
      assert callers[i := to][1..] == callers[1..][i - 1 := to];
    }
  }

  lemma {:induction false} CountBounds(callers: seq<Phase>)
    ensures CountOf(callers, Passed) + CountOf(callers, Refused) <= |callers|
    ensures (forall i | 0 <= i < |callers| :: callers[i] in {Passed, Refused})
            ==> CountOf(callers, Passed) + CountOf(callers, Refused) == |callers|
  {
    if callers != [] {
      CountBounds(callers[1..]);
    }
  }

  function Value(s: State): nat {
    if s.counter.Some? then s.counter.value else 0
  }

  /** While the key lives: the passed callers are the first `limit` counted ones, and a refusal
      happens only once the counter has reached the limit. */
  ghost predicate Inv(s: State, limit: nat) {
    && CountOf(s.callers, Passed) == (if Value(s) < limit then Value(s) else limit)
    && (CountOf(s.callers, Refused) > 0 ==> Value(s) >= limit)
    && (s.counter.Some? ==> s.counter.value > 0)
    && (forall i | 0 <= i < |s.callers| :: s.callers[i] == AddLost ==> s.counter.Some?)
    && IncrLost !in s.callers
  }

  lemma {:induction false} NextKeepsInv(s: State, limit: nat, a: Action)
    requires limit >= 1 && Inv(s, limit) && a.Turn?
    ensures Inv(Next(s, limit, a), limit)
  {
    var s' := Next(s, limit, a);
    if a.i < |s.callers| {
      var to := s'.callers[a.i];
      CountUpdate(s.callers, a.i, to, Passed);
      CountUpdate(s.callers, a.i, to, Refused);
      assert s'.callers == s.callers[a.i := to];
    }
  }

  lemma {:induction false} RunKeepsInv(s: State, limit: nat, actions: seq<Action>)
    requires limit >= 1 && Inv(s, limit) && Expire !in actions
    ensures Inv(Run(s, limit, actions), limit) && |Run(s, limit, actions).callers| == |s.callers|
  {
    if actions != [] {
      RunKeepsInv(s, limit, actions[..|actions| - 1]);
      assert actions[|actions| - 1] in actions;
      NextKeepsInv(Run(s, limit, actions[..|actions| - 1]), limit, actions[|actions| - 1]);
    }
  }

  lemma {:induction false} BeginCounts(n: nat, phase: Phase)
    requires phase != Start
    ensures CountOf(Begin(n).callers, phase) == 0
  {
    if n > 0 {
      BeginCounts(n - 1, phase);
      assert Begin(n).callers[1..] == Begin(n - 1).callers;
    }
  }

  /** Within one lifetime of the key, never more than `limit` callers pass, and once all `n` have
      finished exactly min(n, limit) have passed, whatever the interleaving. */
  lemma {:induction false} ExactlyLimitPass(n: nat, limit: nat, actions: seq<Action>)
    requires limit >= 1 && Expire !in actions
    ensures var callers := Run(Begin(n), limit, actions).callers;
      && CountOf(callers, Passed) <= limit
      && ((forall i | 0 <= i < |callers| :: callers[i] in {Passed, Refused})
          ==> CountOf(callers, Passed) == if n < limit then n else limit)
  {
    BeginCounts(n, Passed);
    BeginCounts(n, Refused);
    RunKeepsInv(Begin(n), limit, actions);
    CountBounds(Run(Begin(n), limit, actions).callers);
  }

  function Expiries(actions: seq<Action>): nat {
    if actions == [] then 0
    else Expiries(actions[..|actions| - 1]) + if actions[|actions| - 1] == Expire then 1 else 0
  }

  /** The key never expires while some caller is between its add and its incr. */
  ghost predicate Quiet(s: State, limit: nat, actions: seq<Action>) {
    forall k | 0 <= k < |actions| && actions[k] == Expire :: AddLost !in Run(s, limit, actions[..k]).callers
  }

  ghost predicate LooseInv(s: State, limit: nat, expiries: nat) {
    && CountOf(s.callers, Passed) <= limit * expiries + (if Value(s) < limit then Value(s) else limit)
    && (s.counter.Some? ==> s.counter.value > 0)
    && (forall i | 0 <= i < |s.callers| :: s.callers[i] == AddLost ==> s.counter.Some?)
    && IncrLost !in s.callers
  }

  lemma {:induction false} NextKeepsLooseInv(s: State, limit: nat, a: Action, expiries: nat)
    requires limit >= 1 && LooseInv(s, limit, expiries)
    requires a == Expire ==> AddLost !in s.callers
    ensures LooseInv(Next(s, limit, a), limit, expiries + if a == Expire then 1 else 0)
  {
    var s' := Next(s, limit, a);
    if a == Expire {
      assert limit * (expiries + 1) == limit * expiries + limit;
    } else if a.i < |s.callers| {
      CountUpdate(s.callers, a.i, s'.callers[a.i], Passed);
      assert s'.callers == s.callers[a.i := s'.callers[a.i]];
    }
  }

  lemma {:induction false} RunKeepsLooseInv(s: State, limit: nat, actions: seq<Action>)
    requires limit >= 1 && LooseInv(s, limit, 0) && Quiet(s, limit, actions)
    ensures LooseInv(Run(s, limit, actions), limit, Expiries(actions))
  {
    hide Next, LooseInv;
    if actions != [] {
      var k := |actions| - 1;
      assert forall j | 0 <= j < k :: actions[..k][..j] == actions[..j];
      RunKeepsLooseInv(s, limit, actions[..k]);
      NextKeepsLooseInv(Run(s, limit, actions[..k]), limit, actions[k], Expiries(actions[..k]));
    }
  }

  /** Over several lifetimes, at most `limit` callers pass for each of them. */
  lemma {:induction false} LimitPerLifetime(n: nat, limit: nat, actions: seq<Action>)
    requires limit >= 1 && Quiet(Begin(n), limit, actions)
    ensures CountOf(Run(Begin(n), limit, actions).callers, Passed) <= limit * (Expiries(actions) + 1)
  {
    BeginCounts(n, Passed);
    RunKeepsLooseInv(Begin(n), limit, actions);
    assert limit * (Expiries(actions) + 1) == limit * Expiries(actions) + limit;
  }

  // ----- when an expiry does harm -----

  lemma {:induction false} RunAppend(s: State, limit: nat, a: seq<Action>, b: seq<Action>)
    ensures Run(s, limit, a + b) == Run(Run(s, limit, a), limit, b)
    decreases |b|
  {
    if b == [] {
      assert a + b == a;
    } else {
      RunAppend(s, limit, a, b[..|b| - 1]);
      assert (a + b)[..|a + b| - 1] == a + b[..|b| - 1];
    }
  }

  lemma {:induction false} RunOne(s: State, limit: nat, a: Action)
    ensures Run(s, limit, [a]) == Next(s, limit, a)
  {
    assert [a][..0] == [];
  }

  predicate Finished(p: Phase) {
    p == Passed || p == Refused
  }

  /** How many callers have not finished. */
  function Unfinished(callers: seq<Phase>): nat {
    CountBounds(callers);
    |callers| - CountOf(callers, Passed) - CountOf(callers, Refused)
  }

  /** Any unfinished caller passes when left alone below the limit, and is counted at most once. */
  lemma {:induction false} PassAlone(s: State, limit: nat, i: nat)
    requires i < |s.callers| && !Finished(s.callers[i]) && Value(s) < limit && (s.counter.Some? ==> s.counter.value > 0)
    ensures var after := Run(s, limit, [Turn(i), Turn(i), Turn(i)]);
      && after.callers == s.callers[i := Passed] && after.counter.Some? && 0 < after.counter.value <= Value(s) + 1
  {
    var t := Turn(i);
    RunAppend(s, limit, [t, t], [t]);
    RunAppend(s, limit, [t], [t]);
    assert [t, t] + [t] == [t, t, t] && [t] + [t] == [t, t];
    var s1 := Next(s, limit, t);
    var s2 := Next(s1, limit, t);
    RunOne(s, limit, t);
    RunOne(s1, limit, t);
    RunOne(s2, limit, t);
    assert s.callers[i := Admitted][i := Passed] == s.callers[i := AddLost][i := Passed]
           == s.callers[i := IncrLost][i := Passed] == s.callers[i := Passed];
    assert s.callers[i := Admitted][i := AddLost][i := Passed] == s.callers[i := Passed];
  }

  /** Among at least two unfinished callers there is another one. */
  lemma {:induction false} AnotherUnfinished(callers: seq<Phase>, other: nat) returns (i: nat)
    requires other < |callers| && !Finished(callers[other]) && Unfinished(callers) >= 2
    ensures i < |callers| && i != other && !Finished(callers[i])
  {
    var rest := callers[other := Passed];
    CountUpdate(callers, other, Passed, Passed);
    CountUpdate(callers, other, Passed, Refused);
    CountBounds(rest);
    i :| i < |rest| && rest[i] !in {Passed, Refused};
  }

  /** `k` unfinished callers pass one after the other, as far as the limit allows, while a given
      unfinished caller does not move. */
  lemma {:induction false} PassMany(s: State, limit: nat, k: nat, other: nat) returns (actions: seq<Action>)
    requires Unfinished(s.callers) > k && Value(s) + k <= limit && (s.counter.Some? ==> s.counter.value > 0)
    requires other < |s.callers| && !Finished(s.callers[other])
    ensures Expire !in actions
    ensures var after := Run(s, limit, actions);
      && |after.callers| == |s.callers| && after.callers[other] == s.callers[other]
      && CountOf(after.callers, Passed) == CountOf(s.callers, Passed) + k
    decreases k
  {
    if k == 0 {
      return [];
    }
    var i := AnotherUnfinished(s.callers, other);
    var first := [Turn(i), Turn(i), Turn(i)];
    PassAlone(s, limit, i);
    var s1 := Run(s, limit, first);
    CountUpdate(s.callers, i, Passed, Refused);
    CountUpdate(s.callers, i, Passed, Passed);
    var rest := PassMany(s1, limit, k - 1, other);
    RunAppend(s, limit, first, rest);
    actions := first + rest;
  }

  /** A caller caught by the expiry between its add and its incr. */
  predicate Caught(p: Phase) {
    p == AddLost || p == IncrLost
  }

  /** With one caller caught and at least as many others unfinished as the limit, one more than the limit
      pass: the caught one passes last, uncounted. */
  lemma {:induction false} CaughtExceeds(s: State, limit: nat, i: nat) returns (actions: seq<Action>)
    requires limit >= 1 && i < |s.callers| && Caught(s.callers[i]) && Unfinished(s.callers) > limit
    ensures Expire !in actions
    ensures CountOf(Run(Next(s, limit, Expire), limit, actions).callers, Passed) == CountOf(s.callers, Passed) + limit + 1
  {
    var s0 := Next(s, limit, Expire);
    var lost := if s.callers[i] == AddLost then [Turn(i)] else [];
    var s1 := Run(s0, limit, lost);
    if s.callers[i] == AddLost {
      RunOne(s0, limit, Turn(i));
    }
    assert s1 == State(None, s.callers[i := IncrLost]);
    CountUpdate(s.callers, i, IncrLost, Refused);
    CountUpdate(s.callers, i, IncrLost, Passed);
    var rush := PassMany(s1, limit, limit, i);
    var s2 := Run(s1, limit, rush);
    RunOne(s2, limit, Turn(i));
    CountUpdate(s2.callers, i, Passed, Passed);
    RunAppend(s0, limit, lost, rush);
    RunAppend(s0, limit, lost + rush, [Turn(i)]);
    actions := lost + rush + [Turn(i)];
  }

  /** A refused caller stays refused. */
  lemma {:induction false} RefusedStay(s: State, limit: nat, actions: seq<Action>)
    ensures var after := Run(s, limit, actions).callers;
      |after| == |s.callers| && CountOf(after, Refused) >= CountOf(s.callers, Refused)
  {
    if actions != [] {
      var n := |actions| - 1;
      var s1 := Run(s, limit, actions[..n]);
      RefusedStay(s, limit, actions[..n]);
      if actions[n].Turn? && actions[n].i < |s1.callers| {
        var s2 := Next(s1, limit, actions[n]);
        CountUpdate(s1.callers, actions[n].i, s2.callers[actions[n].i], Refused);
        assert s2.callers == s1.callers[actions[n].i := s2.callers[actions[n].i]];
      }
    }
  }

  /** However the new lifetime goes on, at most `limit` callers pass in it. */
  ghost predicate BoundedAfterExpiry(s: State, limit: nat) {
    forall actions: seq<Action> | Expire !in actions ::
      CountOf(Run(Next(s, limit, Expire), limit, actions).callers, Passed) <= CountOf(s.callers, Passed) + limit
  }

  ghost predicate NewLifetime(s: State, limit: nat, before: nat) {
    && CountOf(s.callers, Passed) == before + (if Value(s) < limit then Value(s) else limit)
    && (s.counter.Some? ==> s.counter.value > 0)
    && (forall i | 0 <= i < |s.callers| :: s.callers[i] == AddLost ==> s.counter.Some?)
    && IncrLost !in s.callers
  }

  lemma {:induction false} TurnKeepsLifetime(s: State, limit: nat, before: nat, i: nat)
    requires limit >= 1 && NewLifetime(s, limit, before)
    ensures NewLifetime(Next(s, limit, Turn(i)), limit, before)
  {
    if i < |s.callers| {
      var s' := Next(s, limit, Turn(i));
      CountUpdate(s.callers, i, s'.callers[i], Passed);
      assert s'.callers == s.callers[i := s'.callers[i]];
    }
  }

  lemma {:induction false} NewLifetimeKept(s: State, limit: nat, before: nat, actions: seq<Action>)
    requires limit >= 1 && NewLifetime(s, limit, before) && Expire !in actions
    ensures NewLifetime(Run(s, limit, actions), limit, before)
  {
    hide Next, NewLifetime;
    if actions != [] {
      var n := |actions| - 1;
      NewLifetimeKept(s, limit, before, actions[..n]);
      assert actions[n] in actions;
      TurnKeepsLifetime(Run(s, limit, actions[..n]), limit, before, actions[n].i);
    }
  }

  /** The exact condition, for every state: an expiry leaves every continuation within the limit if and
      only if it catches no caller between add and incr, or at most `limit` callers are unfinished. */
  lemma {:induction false} ExpiryHarmlessIff(s: State, limit: nat)
    requires limit >= 1
    ensures BoundedAfterExpiry(s, limit)
            <==> (forall i | 0 <= i < |s.callers| :: !Caught(s.callers[i])) || Unfinished(s.callers) <= limit
  {
    if Unfinished(s.callers) <= limit {
      forall actions: seq<Action> | Expire !in actions
        ensures CountOf(Run(Next(s, limit, Expire), limit, actions).callers, Passed) <= CountOf(s.callers, Passed) + limit
      {
        RefusedStay(Next(s, limit, Expire), limit, actions);
        CountBounds(Run(Next(s, limit, Expire), limit, actions).callers);
      }
    } else if i :| 0 <= i < |s.callers| && Caught(s.callers[i]) {
      var actions := CaughtExceeds(s, limit, i);
    } else {
      assert forall i | 0 <= i < |s.callers| :: !Caught(s.callers[i]);
      forall actions: seq<Action> | Expire !in actions
        ensures CountOf(Run(Next(s, limit, Expire), limit, actions).callers, Passed) <= CountOf(s.callers, Passed) + limit
      {
        NewLifetimeKept(Next(s, limit, Expire), limit, CountOf(s.callers, Passed), actions);
      }
    }
  }

  /** Two callers read an empty counter, one adds it, the other's add fails. */
  const CATCH_ONE: seq<Action> := [Turn(0), Turn(1), Turn(0), Turn(1)]

  lemma {:induction false} CatchOne(s: State, limit: nat)
    requires limit >= 1 && |s.callers| >= 2 && s.counter == None && s.callers[0] == s.callers[1] == Start
    ensures Run(s, limit, CATCH_ONE) == State(Some(1), s.callers[0 := Passed][1 := AddLost])
  {
    var a := CATCH_ONE;
    assert a[..4] == a && a[..4][..3] == a[..3] && a[..3][..2] == a[..2] && a[..2][..1] == a[..1] && a[..1][..0] == [];
    assert Run(s, limit, a[..1]) == s.(callers := s.callers[0 := Admitted]);
    assert Run(s, limit, a[..2]) == s.(callers := s.callers[0 := Admitted][1 := Admitted]);
    assert Run(s, limit, a[..3]) == State(Some(1), s.callers[0 := Admitted][1 := Admitted][0 := Passed]);
    assert Run(s, limit, a) == State(Some(1), s.callers[0 := Admitted][1 := Admitted][0 := Passed][1 := AddLost]);
  }

  /** Such an expiry is reached from the start with two callers more than the limit, whatever the
      limit: one passes, one is caught, and then all the others and the caught one pass. */
  lemma {:induction false} ExpiryExceedsLimit(limit: nat)
    requires limit >= 1
    ensures exists rush: seq<Action> :: Expire !in rush &&
              var s := Run(Begin(limit + 2), limit, CATCH_ONE);
              CountOf(Run(Begin(limit + 2), limit, CATCH_ONE + [Expire] + rush).callers, Passed)
              == CountOf(s.callers, Passed) + limit + 1
  {
    var s0 := Begin(limit + 2);
    var s := Run(s0, limit, CATCH_ONE);
    CatchOne(s0, limit);
    BeginCounts(limit + 2, Passed);
    BeginCounts(limit + 2, Refused);
    CountUpdate(s0.callers, 0, Passed, Passed);
    CountUpdate(s0.callers, 0, Passed, Refused);
    CountUpdate(s0.callers[0 := Passed], 1, AddLost, Passed);
    CountUpdate(s0.callers[0 := Passed], 1, AddLost, Refused);
    var rush := CaughtExceeds(s, limit, 1);
    RunAppend(s0, limit, CATCH_ONE, [Expire]);
    RunOne(s, limit, Expire);
    RunAppend(s0, limit, CATCH_ONE + [Expire], rush);
  }

  /** One caller on its own, over the cache counter it updates in place. */
  class Counter {
    var counter: Option<nat>

    constructor ()
      ensures counter == None
    {
      counter := None;
    }

    method EnforceBroadcastRateLimit(setting: int) returns (passed: bool)
      modifies this
      ensures Run(State(old(counter), [Start]), LimitOf(setting), [Turn(0), Turn(0), Turn(0)])
              == State(counter, [if passed then Passed else Refused])
      ensures passed <==> old(counter).None? || old(counter).value < LimitOf(setting)
      ensures counter == if !passed then old(counter) else if old(counter).None? then Some(1) else Some(old(counter).value + 1)
    {
      var limit := LimitOf(setting);
      AloneRun(State(counter, [Start]), limit);
      var currentCount := if counter.Some? then counter.value else 0;
      if currentCount >= limit {
        return false;
      }
      if counter.None? {
        counter := Some(1);
        return true;
      }
      var newCount := counter.value + 1;
      counter := Some(newCount);
      passed := newCount <= limit;
    }
  }

  lemma {:induction false} AloneRun(s: State, limit: nat)
    requires |s.callers| == 1
    ensures Run(s, limit, [Turn(0), Turn(0), Turn(0)])
            == Next(Next(Next(s, limit, Turn(0)), limit, Turn(0)), limit, Turn(0))
  {
    var a := [Turn(0), Turn(0), Turn(0)];
    assert a[..2][..1] == a[..1] && a[..1][..0] == [];
    assert Run(s, limit, a[..1]) == Next(s, limit, Turn(0));
    assert Run(s, limit, a[..2]) == Next(Next(s, limit, Turn(0)), limit, Turn(0));
  }
}
