/** Provisioning and email change as code that updates the tables in place. A method that raises leaves
    the tables as they were, as its transaction does; the cache of one-time codes is not rolled back. */
module AccountService {
  import opened Text
  import opened Roles
  import opened Accounts
  import EmailChange
  import Otp

  lemma {:induction false} NamedKeepsAvatar(x: User, email: string, fullName: string)
    ensures Named(x, email, fullName).avatar == x.avatar
  {
  }

  class Service {
    const env: Env
    const cfg: Otp.Settings
    var users: seq<User>
    var identities: map<string, Identity>
    var roles: map<nat, Rows>
    var cache: map<string, Otp.Keys>

    constructor (env: Env, cfg: Otp.Settings)
      ensures this.env == env && this.cfg == cfg && Tables() == EMPTY && cache == map[] && Valid()
    {
      this.env, this.cfg := env, cfg;
      users, identities, roles, cache := [], map[], map[], map[];
    }

    function Tables(): Db
      reads this`users, this`identities, this`roles
    {
      Db(users, identities, roles)
    }

    ghost predicate Valid()
      reads this`users, this`identities, this`roles
    {
      Inv(env, Tables())
    }

    /** The first two users of an email are enough to know whether there is one. */
    method UsersOfEmail(email: string) returns (found: seq<nat>)
      ensures |found| <= 2 && forall i | 0 <= i < |found| :: found[i] < |users|
      ensures FindByEmail(env, users, email) == if |found| == 0 then Nobody else if |found| == 1 then One(found[0]) else Several
    {
      hide HasEmail;
      found := [];
      for i := 0 to |users|
        invariant |found| <= 2 && forall k | 0 <= k < |found| :: found[k] < i
        invariant FindByEmail(env, users[..i], email)
                  == if |found| == 0 then Nobody else if |found| == 1 then One(found[0]) else Several
      {
        assert users[..i + 1][..i] == users[..i];
        if |found| < 2 && HasEmail(env, users[i], email) {
          found := found + [i];
        }
      }
      assert users[..|users|] == users;
    }

    /** `_get_or_create_user_for_email` */
    method GetOrCreateUserForEmail(email: string, fullName: string) returns (user: Option<nat>)
      modifies this`users
      ensures var r := GetOrCreateUser(env, old(Tables()), email, fullName);
        user == (if r.Some? then Some(r.value.1) else None) && Tables() == if r.Some? then r.value.0 else old(Tables())
    {
      var found := UsersOfEmail(email);
      if |found| > 1 {
        return None;
      }
      if |found| == 1 {
        var u := found[0];
        if !CanLogin(users[u]) || NameTaken(env, users, email, Some(u)) {
          return None;
        }
        return Some(u);
      }
      if NameTaken(env, users, email, None) || ExactTaken(users, email, |users|) {
        return None;
      }
      user := Some(|users|);
      users := users + [NewUser(email, fullName)];
    }

    method UpdateNames(x: User, email: string, fullName: string) returns (user: User, dirty: bool)
      ensures user == Named(x, email, fullName)
      ensures dirty <==> user != x
    {
      user, dirty := x, false;
      if user.username != email {
        user, dirty := user.(username := email), true;
      }
      if user.email != email {
        user, dirty := user.(email := email), true;
      }
      if fullName != "" && user.fullName != fullName {
        user, dirty := user.(fullName := fullName), true;
      }
    }

    /** The changed fields of a profile, one by one, and whether there are any. */
    method UpdateFields(x: User, email: string, fullName: string, picture: string) returns (user: User, dirty: bool)
      ensures user == Profile(env, x, email, fullName, picture)
      ensures dirty <==> user != x
    {
      hide Strip, GeneratedAvatar, Named;
      user, dirty := UpdateNames(x, email, fullName);
      NamedKeepsAvatar(x, email, fullName);
      if picture != "" && user.avatar != picture {
        user, dirty := user.(avatar := picture), true;
      } else if Strip(user.avatar) == "" {
        GeneratedIsVisible(env.query(user));
        user, dirty := user.(avatar := GeneratedAvatar(env.query(user))), true;
      }
    }

    /** `_sync_user_profile` */
    method SyncUserProfile(u: nat, email: string, fullName: string, picture: string) returns (ok: bool)
      requires u < |users|
      modifies this`users
      ensures var after := SyncProfile(env, old(Tables()), u, email, fullName, picture);
        ok == after.Some? && Tables() == if ok then after.value else old(Tables())
      ensures |users| == old(|users|)
    {
      hide Profile, NameTaken, ExactTaken;
      if NameTaken(env, users, email, Some(u)) {
        return false;
      }
      var user, dirty := UpdateFields(users[u], email, fullName, picture);
      if dirty {
        if ExactTaken(users, user.username, u) {
          return false;
        }
        users := users[u := user];
      }
      ok := true;
    }

    method ProvisionFromPayload(p: Payload) returns (user: Option<nat>)
      requires Valid()
      modifies this`users, this`identities, this`roles
      ensures Valid()
      ensures var r := Provision(env, old(Tables()), p);
        user == (if r.Some? then Some(r.value.1) else None) && Tables() == if r.Some? then r.value.0 else old(Tables())
    {
      hide Inv, SyncProfile, GetOrCreateUser, SyncFromRealm, Strip, FullName, CanLogin;
      var subject, email := Strip(p.subject), Normalize(env, p.email);
      if subject == "" || Strip(p.email) == "" || !p.verified {
        return None;
      }
      ghost var before := Tables();
      var savepoint := (users, identities, roles);
      if Provision(env, Tables(), p).Some? {
        ProvisionResult(env, before, p);
      }
      if subject in identities {
        var u := identities[subject].user;
        if u >= |users| || !CanLogin(users[u]) {
          return None;
        }
        user := Some(u);
      } else {
        user := GetOrCreateUserForEmail(email, FullName(p));
        if user.None? {
          return None;
        }
      }
      assert FindUser(env, before, subject, email, FullName(p)) == Some((Tables(), user.value));
      var u := user.value;
      ghost var found := Tables();
      var ok := SyncUserProfile(u, email, FullName(p), Strip(p.picture));
      if ok {
        var rows := SyncFromRealm(RowsOf(Tables(), u), p.realm, env.active);
        if rows.Some? {
          ghost var synced := Tables();
          roles := roles[u := rows.value];
          if "super_admin" in p.realm {
            users := users[u := users[u].(superuser := true, staff := true)];
          }
          assert synced.users[u := synced.users[u]] == synced.users;
          assert SyncRoles(env, synced, u, p.realm) == Some(Tables());
          identities := identities[subject := Identity(u, true, true)];
          assert Finish(env, found, u, subject, email, p) == Some((Tables(), u));
          return user;
        }
      }
      users, identities, roles := savepoint.0, savepoint.1, savepoint.2;
      user := None;
    }

    /** `verify_otp` without consuming, on one address's keys. */
    method VerifyEmailOtp(address: string, code: string, now: int) returns (ok: bool)
      modifies this`cache
      ensures (cache, ok) == EmailChange.Check(old(cache), cfg, address, now, code)
    {
      var (keys, reply) := Otp.Verify(EmailChange.KeysOf(cache, address), cfg, now, code, false);
      cache := cache[address := keys];
      ok := reply.Verified?;
    }

    method ChangeEmailWithOtp(q: EmailChange.Request, synced: bool, now: int) returns (ok: bool)
      requires Valid()
      modifies this`users, this`cache
      ensures Valid()
      ensures (EmailChange.State(Tables(), cache), ok)
              == EmailChange.Change(env, cfg, EmailChange.State(old(Tables()), old(cache)), q, synced, now)
    {
      hide Inv, Strip, EmailTaken, NameTaken, ExactTaken, EmailChange.Check;
      EmailChange.ChangeKeepsNames(env, cfg, EmailChange.State(Tables(), cache), q, synced, now);
      if q.user >= |users| || !users[q.user].live {
        return false;
      }
      var locked := users[q.user];
      var current, email := Normalize(env, locked.email), Normalize(env, q.newEmail);
      if current == "" || email == current {
        return false;
      }
      if EmailTaken(env, users, email, q.user) || NameTaken(env, users, email, Some(q.user)) {
        return false;
      }
      var currentAddress, newAddress := env.lower(current), env.lower(email);
      ok := VerifyEmailOtp(currentAddress, q.currentCode, now);
      if !ok {
        return;
      }
      ok := VerifyEmailOtp(newAddress, q.newCode, now);
      if !ok {
        return;
      }
      if !HasIdentity(Tables(), q.user, q.subject) || !synced {
        return false;
      }
      locked := locked.(email := email);
      locked := locked.(username := email);
      if ExactTaken(users, email, q.user) {
        return false;
      }
      users := users[q.user := locked];
      cache := EmailChange.Spend(cache, currentAddress);
      cache := EmailChange.Spend(cache, newAddress);
      ok := true;
    }
  }
}
