/** An email change with its two one-time codes (apps/users/services.py, lines 146-214): the account
    tables and the code cache together. The cache takes no part in the transaction, so what a code check
    writes there stays when the change is refused. */
module EmailChange {
  import opened Text
  import opened Accounts
  import opened Logins
  import Otp

  /** The account tables, and the code keys by address. */
  datatype State = State(db: Db, cache: map<string, Otp.Keys>)

  datatype Request = Request(user: nat, newEmail: string, currentCode: string, newCode: string, subject: string)

  function KeysOf(cache: map<string, Otp.Keys>, address: string): Otp.Keys {
    if address in cache then cache[address] else Otp.EMPTY
  }

  /** The cache address of an email. */
  function Address(env: Env, email: string): string {
    env.lower(Normalize(env, email))
  }

  function Check(cache: map<string, Otp.Keys>, cfg: Otp.Settings, address: string, now: int, code: string)
    : (map<string, Otp.Keys>, bool)
  {
    var (keys, reply) := Otp.Verify(KeysOf(cache, address), cfg, now, code, false);
    (cache[address := keys], reply.Verified?)
  }

  function Spend(cache: map<string, Otp.Keys>, address: string): map<string, Otp.Keys> {
    cache[address := Otp.EMPTY]
  }

  /** `synced`: the Keycloak update goes through. The result says whether the email was changed. */
  function Change(env: Env, cfg: Otp.Settings, s: State, q: Request, synced: bool, now: int): (State, bool) {
    if !Acceptable(env, s.db.users, q.user, q.newEmail) then (s, false)
    else
      var current, new' := Address(env, s.db.users[q.user].email), Address(env, q.newEmail);
      var first := Check(s.cache, cfg, current, now, q.currentCode);
      if !first.1 then (State(s.db, first.0), false)
      else
        var second := Check(first.0, cfg, new', now, q.newCode);
        if !second.1 then (State(s.db, second.0), false)
        else match ChangeEmail(env, s.db, q.user, q.newEmail, q.subject, synced)
             case None => (State(s.db, second.0), false)
             case Some(db) => (State(db, Spend(Spend(second.0, current), new')), true)
  }

  // ----- what a change needs and does -----

  /** The address holds this code, not expired and with fewer misses than it may have. */
  predicate Matches(cache: map<string, Otp.Keys>, cfg: Otp.Settings, address: string, now: int, code: string) {
    address in cache &&
    (var k := cache[address];
     && k.code.Some? && now < k.code.value.expires && k.code.value.value == Strip(code)
     && if k.attempts.Some? && now < k.attempts.value.expires then k.attempts.value.value < cfg.maxAttempts else cfg.maxAttempts > 0)
  }

  lemma {:induction false} CheckIs(cache: map<string, Otp.Keys>, cfg: Otp.Settings, address: string, now: int, code: string)
    ensures Check(cache, cfg, address, now, code).1 <==> Matches(cache, cfg, address, now, code)
    ensures var after := Check(cache, cfg, address, now, code).0;
      && (forall a | a != address :: KeysOf(after, a) == KeysOf(cache, a))
      && (Check(cache, cfg, address, now, code).1 ==> KeysOf(after, address) == KeysOf(cache, address))
  {
  }

  /** The email changes if and only if the user is live and has one, the new one differs and is nobody
      else's email or name, both addresses hold a live, unlocked code that is the one given, the user has a
      live identity, the given one if one is given, and Keycloak takes the new address. Otherwise no table
      changes. */
  lemma {:induction false} ChangesIff(env: Env, cfg: Otp.Settings, s: State, q: Request, synced: bool, now: int)
    ensures var (s', ok) := Change(env, cfg, s, q, synced, now); var email := env.lower(Strip(q.newEmail));
      && (ok <==> q.user < |s.db.users| && CanChange(env, s.db, q.user, email)
                  && Matches(s.cache, cfg, env.lower(env.lower(Strip(s.db.users[q.user].email))), now, q.currentCode)
                  && Matches(s.cache, cfg, env.lower(email), now, q.newCode)
                  && synced && Linked(s.db, q.user, q.subject))
      && (ok ==> s'.db == s.db.(users := s.db.users[q.user := s.db.users[q.user].(email := email, username := email)]))
      && (!ok ==> s'.db == s.db)
  {
    hide Acceptable, ChangeEmail, Check, Matches, CanChange, Linked, Strip;
    EmailChangesIff(env, s.db, q.user, q.newEmail, q.subject, synced);
    CanChangeIs(env, s.db, q.user, q.newEmail);
    if Acceptable(env, s.db.users, q.user, q.newEmail) {
      AcceptableUser(env, s.db.users, q.user, q.newEmail);
      var current, new' := Address(env, s.db.users[q.user].email), Address(env, q.newEmail);
      CheckIs(s.cache, cfg, current, now, q.currentCode);
      var cache1 := Check(s.cache, cfg, current, now, q.currentCode).0;
      CheckIs(cache1, cfg, new', now, q.newCode);
      if Check(s.cache, cfg, current, now, q.currentCode).1 {
        SameKeysMatch(s.cache, cache1, cfg, new', now, q.newCode);
      }
    }
  }

  lemma {:induction false} CanChangeIs(env: Env, db: Db, u: nat, newEmail: string)
    ensures u < |db.users| && CanChange(env, db, u, env.lower(Strip(newEmail))) ==> Acceptable(env, db.users, u, newEmail)
  {
    hide NameTaken, ExactTaken, NameFree, Strip;
    NameFreeIs(env, db, env.lower(Strip(newEmail)), u);
  }

  lemma {:induction false} AcceptableUser(env: Env, users: seq<User>, u: nat, newEmail: string)
    requires Acceptable(env, users, u, newEmail)
    ensures u < |users|
  {
  }

  lemma {:induction false} SameKeysMatch(a: map<string, Otp.Keys>, b: map<string, Otp.Keys>, cfg: Otp.Settings,
                                         address: string, now: int, code: string)
    requires KeysOf(a, address) == KeysOf(b, address)
    ensures Matches(a, cfg, address, now, code) == Matches(b, cfg, address, now, code)
  {
  }

  // ----- the cache only sees code calls -----

  /** The calls on one address's keys that a change makes. */
  function CallsOn(env: Env, cfg: Otp.Settings, s: State, q: Request, synced: bool, now: int, address: string): seq<Otp.Call> {
    if !Acceptable(env, s.db.users, q.user, q.newEmail) then []
    else
      var current, new' := Address(env, s.db.users[q.user].email), Address(env, q.newEmail);
      var ok := Change(env, cfg, s, q, synced, now).1;
      (if address == current then [Otp.DoVerify(now, q.currentCode, false)] else [])
      + (if address == new' && Check(s.cache, cfg, current, now, q.currentCode).1
         then [Otp.DoVerify(now, q.newCode, false)] else [])
      + (if ok && (address == current || address == new') then [Otp.DoConsume(now)] else [])
  }

  lemma {:induction false} AfterNone(k: Otp.Keys, cfg: Otp.Settings)
    ensures Otp.After(k, cfg, []) == k
  {
  }

  lemma {:induction false} AfterOne(k: Otp.Keys, cfg: Otp.Settings, c: Otp.Call)
    ensures Otp.After(k, cfg, [c]) == Otp.Apply(k, cfg, c).0
  {
    assert [c][1..] == [];
  }

  lemma {:induction false} AfterMore(k: Otp.Keys, cfg: Otp.Settings, a: seq<Otp.Call>, b: seq<Otp.Call>)
    ensures Otp.After(k, cfg, a + b) == Otp.After(Otp.After(k, cfg, a), cfg, b)
  {
    Otp.Split(k, cfg, a + b, |a|);
    assert (a + b)[..|a|] == a && (a + b)[|a|..] == b;
  }

  /** A check, or nothing, on one address. */
  lemma {:induction false} CheckSeesVerify(cache: map<string, Otp.Keys>, cfg: Otp.Settings, checked: string, now: int,
                                           code: string, address: string)
    ensures KeysOf(Check(cache, cfg, checked, now, code).0, address)
            == Otp.After(KeysOf(cache, address), cfg, if address == checked then [Otp.DoVerify(now, code, false)] else [])
  {
    hide Otp.Verify;
    AfterOne(KeysOf(cache, address), cfg, Otp.DoVerify(now, code, false));
  }

  lemma {:induction false} SpendSeesConsume(cache: map<string, Otp.Keys>, cfg: Otp.Settings, a: string, b: string, now: int,
                                            address: string)
    ensures KeysOf(Spend(Spend(cache, a), b), address)
            == Otp.After(KeysOf(cache, address), cfg, if address == a || address == b then [Otp.DoConsume(now)] else [])
  {
    AfterOne(KeysOf(cache, address), cfg, Otp.DoConsume(now));
  }

  /** Whether it succeeds or not, a change does to each address's keys exactly what at most two verifies
      and a consume do, so every bound on guesses of `Otp` holds here, too. */
  lemma {:induction false} KeysSeeOtpCalls(env: Env, cfg: Otp.Settings, s: State, q: Request, synced: bool, now: int,
                                           address: string)
    ensures var calls := CallsOn(env, cfg, s, q, synced, now, address);
      && |calls| <= 3 && (forall i | 0 <= i < |calls| :: calls[i].at == now && !calls[i].DoSend?)
      && KeysOf(Change(env, cfg, s, q, synced, now).0.cache, address)
         == Otp.After(KeysOf(s.cache, address), cfg, calls)
  {
    hide Acceptable, ChangeEmail, Check, Spend, Otp.After, Otp.Verify, KeysOf;
    var k := KeysOf(s.cache, address);
    AfterNone(k, cfg);
    if Acceptable(env, s.db.users, q.user, q.newEmail) {
      AcceptableUser(env, s.db.users, q.user, q.newEmail);
      var current, new' := Address(env, s.db.users[q.user].email), Address(env, q.newEmail);
      var first := Check(s.cache, cfg, current, now, q.currentCode);
      var a := if address == current then [Otp.DoVerify(now, q.currentCode, false)] else [];
      var b := if address == new' && first.1 then [Otp.DoVerify(now, q.newCode, false)] else [];
      var ok := Change(env, cfg, s, q, synced, now).1;
      var c := if ok && (address == current || address == new') then [Otp.DoConsume(now)] else [];
      AfterMore(k, cfg, a + b, c);
      AfterMore(k, cfg, a, b);
      CheckSeesVerify(s.cache, cfg, current, now, q.currentCode, address);
      CheckSeesVerify(first.0, cfg, new', now, q.newCode, address);
      SpendSeesConsume(Check(first.0, cfg, new', now, q.newCode).0, cfg, current, new', now, address);
      AfterNone(Otp.After(k, cfg, a), cfg);
      AfterNone(Otp.After(k, cfg, a + b), cfg);
    }
  }

  // ----- runs -----

  /** Changes, calls on one address's keys, and whatever else happens to the account tables. */
  datatype Op = DoChange(q: Request, synced: bool, now: int) | DoCode(address: string, call: Otp.Call) | DoTables(db: Db)

  function Step(env: Env, cfg: Otp.Settings, s: State, op: Op): State {
    match op
    case DoChange(q, synced, now) => Change(env, cfg, s, q, synced, now).0
    case DoCode(address, call) => s.(cache := s.cache[address := Otp.Apply(KeysOf(s.cache, address), cfg, call).0])
    case DoTables(db) => s.(db := db)
  }

  function Run(env: Env, cfg: Otp.Settings, s: State, ops: seq<Op>): State {
    if ops == [] then s else Step(env, cfg, Run(env, cfg, s, ops[..|ops| - 1]), ops[|ops| - 1])
  }

  predicate SendsTo(op: Op, addresses: set<string>) {
    op.DoCode? && op.call.DoSend? && op.address in addresses
  }

  predicate NoCodes(cache: map<string, Otp.Keys>, addresses: set<string>) {
    forall a | a in addresses :: KeysOf(cache, a).code == None
  }

  lemma {:induction false} CheckKeepsNoCodes(cache: map<string, Otp.Keys>, cfg: Otp.Settings, address: string, now: int,
                                             code: string, spent: set<string>)
    requires NoCodes(cache, spent)
    ensures NoCodes(Check(cache, cfg, address, now, code).0, spent)
  {
  }

  lemma {:induction false} StepKeepsNoCodes(env: Env, cfg: Otp.Settings, s: State, op: Op, spent: set<string>)
    requires NoCodes(s.cache, spent) && !SendsTo(op, spent)
    ensures NoCodes(Step(env, cfg, s, op).cache, spent)
  {
    hide Acceptable, ChangeEmail, Check;
    if op.DoChange? && Acceptable(env, s.db.users, op.q.user, op.q.newEmail) {
      AcceptableUser(env, s.db.users, op.q.user, op.q.newEmail);
      var current, new' := Address(env, s.db.users[op.q.user].email), Address(env, op.q.newEmail);
      CheckKeepsNoCodes(s.cache, cfg, current, op.now, op.q.currentCode, spent);
      CheckKeepsNoCodes(Check(s.cache, cfg, current, op.now, op.q.currentCode).0, cfg, new', op.now, op.q.newCode, spent);
    }
  }

  lemma {:induction false} RunKeepsNoCodes(env: Env, cfg: Otp.Settings, s: State, ops: seq<Op>, spent: set<string>)
    requires NoCodes(s.cache, spent) && forall i | 0 <= i < |ops| :: !SendsTo(ops[i], spent)
    ensures NoCodes(Run(env, cfg, s, ops).cache, spent)
  {
    hide Step, NoCodes, SendsTo;
    if ops != [] {
      RunKeepsNoCodes(env, cfg, s, ops[..|ops| - 1], spent);
      StepKeepsNoCodes(env, cfg, Run(env, cfg, s, ops[..|ops| - 1]), ops[|ops| - 1], spent);
    }
  }

  lemma {:induction false} NoCodeNoMatch(cache: map<string, Otp.Keys>, cfg: Otp.Settings, address: string, now: int,
                                         code: string, spent: set<string>)
    requires NoCodes(cache, spent) && address in spent
    ensures !Matches(cache, cfg, address, now, code)
  {
  }

  lemma {:induction false} ChangeSpends(env: Env, cfg: Otp.Settings, s: State, q: Request, synced: bool, now: int)
    requires Change(env, cfg, s, q, synced, now).1
    ensures q.user < |s.db.users|
    ensures NoCodes(Change(env, cfg, s, q, synced, now).0.cache, {Address(env, s.db.users[q.user].email), Address(env, q.newEmail)})
  {
    hide ChangeEmail, Check;
  }

  /** The codes of one change serve no other. Whatever happens after it, other changes and code calls
      included: until a new code is sent to one of its two addresses, every request that needs a code of
      one of them fails. */
  lemma {:induction false} CodesServeOneChange(env: Env, cfg: Otp.Settings, s: State, q: Request, synced: bool, now: int,
                                               ops: seq<Op>, later: Request, syncedLater: bool, at: int)
    requires Change(env, cfg, s, q, synced, now).1
    ensures q.user < |s.db.users|
    ensures var spent := {Address(env, s.db.users[q.user].email), Address(env, q.newEmail)};
      var s' := Run(env, cfg, Change(env, cfg, s, q, synced, now).0, ops);
      (forall i | 0 <= i < |ops| :: !SendsTo(ops[i], spent))
      && later.user < |s'.db.users|
      && (Address(env, s'.db.users[later.user].email) in spent || Address(env, later.newEmail) in spent)
      ==> !Change(env, cfg, s', later, syncedLater, at).1
  {
    hide Change, Acceptable, Matches, ChangeEmail, NoCodes, Strip, SendsTo, CanChange, Linked;
    ChangeSpends(env, cfg, s, q, synced, now);
    var spent := {Address(env, s.db.users[q.user].email), Address(env, q.newEmail)};
    var s' := Run(env, cfg, Change(env, cfg, s, q, synced, now).0, ops);
    if (forall i | 0 <= i < |ops| :: !SendsTo(ops[i], spent)) && later.user < |s'.db.users| {
      RunKeepsNoCodes(env, cfg, Change(env, cfg, s, q, synced, now).0, ops, spent);
      ChangesIff(env, cfg, s', later, syncedLater, at);
      if Address(env, s'.db.users[later.user].email) in spent {
        NoCodeNoMatch(s'.cache, cfg, Address(env, s'.db.users[later.user].email), at, later.currentCode, spent);
      }
      if Address(env, later.newEmail) in spent {
        NoCodeNoMatch(s'.cache, cfg, Address(env, later.newEmail), at, later.newCode, spent);
      }
    }
  }

  /** A change that succeeds gives that user alone the new email and username and keeps all names unique. */
  lemma {:induction false} ChangeKeepsNames(env: Env, cfg: Otp.Settings, s: State, q: Request, synced: bool, now: int)
    requires Inv(env, s.db)
    ensures var (s', ok) := Change(env, cfg, s, q, synced, now); var email := Normalize(env, q.newEmail);
      && Inv(env, s'.db)
      && (ok ==> q.user < |s.db.users|)
      && (ok ==> s'.db.users == s.db.users[q.user := s.db.users[q.user].(email := email, username := email)])
  {
    hide Inv, ChangeEmail, Check, Acceptable;
    ChangesIff(env, cfg, s, q, synced, now);
    if Change(env, cfg, s, q, synced, now).1 {
      ChangeEmailKeeps(env, s.db, q.user, q.newEmail, q.subject, synced);
    }
  }
}
