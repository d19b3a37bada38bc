/** Which logins and email changes succeed, and everything they write, in terms of the stored fields and the
    login's claims alone (apps/users/services.py). */
module Logins {
  import opened Text
  import opened Roles
  import opened Accounts

  /** The user a login is for: that of its known subject, or else the live user of its email, or else a new
      one. */
  predicate LoginOf(env: Env, db: Db, p: Payload, u: nat) {
    var email := env.fold(env.lower(Strip(p.email)));
    if Strip(p.subject) in db.identities then u == db.identities[Strip(p.subject)].user
    else if u < |db.users| then db.users[u].live && env.fold(db.users[u].email) == email
    else u == |db.users| && forall v | 0 <= v < |db.users| && db.users[v].live :: env.fold(db.users[v].email) != email
  }

  /** The claims every login needs. */
  predicate Claims(p: Payload) {
    Strip(p.subject) != "" && Strip(p.email) != "" && p.verified
  }

  /** No other user is in the way of this name: no live one ignoring case, and not even a deleted one
      exactly. */
  predicate NameFree(env: Env, db: Db, name: string, u: nat) {
    forall v | 0 <= v < |db.users| && v != u ::
      db.users[v].username != name && (db.users[v].live ==> env.fold(db.users[v].username) != env.fold(name))
  }

  predicate GetsRole(db: Db, u: nat, realm: set<string>, active: set<string>) {
    || RealmCodes(realm, active) != [] || "student" in active
    || (u in db.roles && exists c :: c in db.roles[u] && db.roles[u][c].live)
  }

  lemma {:induction false} NameFreeIs(env: Env, db: Db, name: string, u: nat)
    ensures NameFree(env, db, name, u) <==> !NameTaken(env, db.users, name, Some(u)) && !ExactTaken(db.users, name, u)
  {
    if NameTaken(env, db.users, name, Some(u)) {
      var v :| 0 <= v < |db.users| && v != u && HasName(env, db.users[v], name);
    }
    if NameFree(env, db, name, u) {
      assert forall v | 0 <= v < |db.users| && v != u :: !HasName(env, db.users[v], name);
    } else {
      var v :| 0 <= v < |db.users| && v != u &&
               !(db.users[v].username != name && (db.users[v].live ==> env.fold(db.users[v].username) != env.fold(name)));
      assert db.users[v].username != name ==> HasName(env, db.users[v], name);
    }
  }

  predicate MayLogin(x: User) {
    x.live && x.enabled && !x.banned
  }

  /** The tables a login works on: with its user, created if need be. */
  function Prepared(db: Db, u: nat, email: string, fullName: string): Db {
    if u < |db.users| then db else db.(users := db.users + [User(email, email, fullName, "", true, true, false, false, false)])
  }

  lemma {:induction false} NameFreePrepared(env: Env, db: Db, u: nat, name: string, fullName: string)
    requires u <= |db.users|
    ensures NameFree(env, Prepared(db, u, name, fullName), name, u) <==> NameFree(env, db, name, u)
  {
    var db1 := Prepared(db, u, name, fullName);
    assert forall v | 0 <= v < |db.users| :: db1.users[v] == db.users[v];
  }

  lemma {:induction false} TargetExists(env: Env, db: Db, p: Payload, u: nat)
    requires Inv(env, db) && LoginOf(env, db, p, u)
    ensures u <= |db.users| && (Strip(p.subject) in db.identities ==> u < |db.users|)
  {
  }

  lemma {:induction false} EmailFinds(env: Env, db: Db, email: string, u: nat)
    requires Inv(env, db)
    requires if u < |db.users| then HasEmail(env, db.users[u], email)
             else forall v | 0 <= v < |db.users| :: !HasEmail(env, db.users[v], email)
    ensures FindByEmail(env, db.users, email) == if u < |db.users| then One(u) else Nobody
  {
    hide Inv, HasEmail;
    FindByEmailIs(env, db.users, email);
    OneOfEmail(env, db, email);
    var found := FindByEmail(env, db.users, email);
    assert found.One? ==> HasEmail(env, db.users[found.user], email);
  }

  /** Finding the user, or creating it. */
  lemma {:induction false} FindsUser(env: Env, db: Db, p: Payload, u: nat, fullName: string)
    requires Inv(env, db) && LoginOf(env, db, p, u) && u <= |db.users| && (Strip(p.subject) in db.identities ==> u < |db.users|)
    ensures var subject, email := Strip(p.subject), env.lower(Strip(p.email));
      var found := FindUser(env, db, subject, email, fullName);
      && (found.Some? ==> found.value == (Prepared(db, u, email, fullName), u))
      && (found.Some? ==> if u < |db.users| then MayLogin(db.users[u]) else NameFree(env, db, email, u))
      && ((u < |db.users| ==> MayLogin(db.users[u])) && NameFree(env, db, email, u) ==> found.Some?)
  {
    hide Inv, NameFree, NameTaken, ExactTaken, FindByEmail;
    var subject, email := Strip(p.subject), env.lower(Strip(p.email));
    NameFreeIs(env, db, email, u);
    if subject !in db.identities {
      EmailFinds(env, db, email, u);
      NoExcept(env, db.users, email);
    }
  }

  lemma {:induction false} NoExcept(env: Env, users: seq<User>, name: string)
    ensures NameTaken(env, users, name, Some(|users|)) == NameTaken(env, users, name, None)
  {
    if NameTaken(env, users, name, None) {
      var v :| 0 <= v < |users| && HasName(env, users[v], name);
      assert Some(v) != Some(|users|);
    }
  }

  /** As every user's name is its email, no two live users have one email. */
  lemma {:induction false} OneOfEmail(env: Env, db: Db, email: string)
    requires Inv(env, db)
    ensures forall v, w | 0 <= v < w < |db.users| :: !(HasEmail(env, db.users[v], email) && HasEmail(env, db.users[w], email))
  {
    hide LinksOk;
  }

  /** The rest of a login. */
  lemma {:induction false} FinishSucceedsIff(env: Env, db: Db, u: nat, subject: string, email: string, p: Payload)
    requires ExactUnique(db.users) && WellFormed(Accounts.RowsOf(db, u)) && u < |db.users|
    ensures Finish(env, db, u, subject, email, p).Some?
            <==> NameFree(env, db, email, u) && GetsRole(db, u, p.realm, env.active)
    ensures Finish(env, db, u, subject, email, p).Some? ==> Finish(env, db, u, subject, email, p).value.1 == u
  {
    hide NameFree, NameTaken, ExactTaken, Profile, SyncFromRealm, WellFormed, RealmCodes;
    NameFreeIs(env, db, email, u);
    ProfileIs(env, db.users[u], email, FullName(p), Strip(p.picture));
    if db.users[u].username == email {
      NobodyElse(db.users, u);
    }
    LoginRoles(Accounts.RowsOf(db, u), p.realm, env.active);
  }

  lemma {:induction false} NobodyElse(users: seq<User>, u: nat)
    requires ExactUnique(users) && u < |users|
    ensures !ExactTaken(users, users[u].username, u)
  {
  }

  lemma {:induction false} PreparedUnique(env: Env, db: Db, u: nat, email: string, fullName: string)
    requires Inv(env, db) && u <= |db.users| && (u == |db.users| ==> NameFree(env, db, email, u))
    ensures ExactUnique(Prepared(db, u, email, fullName).users) && WellFormed(Accounts.RowsOf(db, u))
  {
    hide WellFormed;
  }

  /** A login succeeds if and only if its claims are complete and verified, its user, if there is one, is
      live, enabled and not banned, no other user has its email for a name, and it leaves the user a role. */
  lemma {:induction false} LoginSucceedsIff(env: Env, db: Db, p: Payload, u: nat)
    requires Inv(env, db) && LoginOf(env, db, p, u)
    ensures u <= |db.users|
    ensures var r := Provision(env, db, p);
      && (r.Some? <==>
            && Claims(p) && (u < |db.users| ==> MayLogin(db.users[u]))
            && NameFree(env, db, env.lower(Strip(p.email)), u) && GetsRole(db, u, p.realm, env.active))
      && (r.Some? ==> r.value.1 == u)
  {
    hide FindUser, Finish, Inv, NameFree, LoginOf, RealmCodes, MayLogin, Strip, FullName;
    var subject, email, fullName := Strip(p.subject), env.lower(Strip(p.email)), FullName(p);
    TargetExists(env, db, p, u);
    FindsUser(env, db, p, u, fullName);
    NameFreePrepared(env, db, u, email, fullName);
    var db1 := Prepared(db, u, email, fullName);
    if NameFree(env, db, email, u) || u < |db.users| {
      PreparedUnique(env, db, u, email, fullName);
      FinishSucceedsIff(env, db1, u, subject, email, p);
    }
  }

  // ----- what a login writes -----

  /** The name a login claims: its name, or else its given and family names, in this order. */
  function ClaimedName(p: Payload): string {
    var given, family := Strip(p.given), Strip(p.family);
    if p.name != "" then Strip(p.name)
    else if given != "" && family != "" then given + " " + family
    else if given != "" then given
    else family
  }

  function GeneratedUrl(env: Env, x: User): string {
    "https://ui-avatars.com/api/?" + env.query(x)
  }

  function Old(email: string, p: Payload, was: Option<User>): User {
    if was.Some? then was.value else User(email, email, ClaimedName(p), "", true, true, false, false, false)
  }

  /** The user row of a login, from the claims and the row there was (None for a new user). The address of a
      generated avatar is built before avatar and flags are written. */
  predicate LoginRow(env: Env, p: Payload, was: Option<User>, x: User) {
    var email, picture := env.lower(Strip(p.email)), Strip(p.picture);
    var avatar := if was.Some? then was.value.avatar else "";
    var superuser, staff := was.Some? && was.value.superuser, was.Some? && was.value.staff;
    && x.username == x.email == email
    && x.fullName == (if ClaimedName(p) != "" then ClaimedName(p) else if was.Some? then was.value.fullName else "")
    && x.avatar == (if picture != "" then picture else if Strip(avatar) != "" then avatar
                    else GeneratedUrl(env, x.(avatar := avatar, superuser := superuser, staff := staff)))
    && (x.superuser <==> superuser || "super_admin" in p.realm)
    && (x.staff <==> staff || "super_admin" in p.realm)
    && x.live && x.enabled && !x.banned
  }

  lemma {:induction false} NamesAgree(p: Payload)
    ensures FullName(p) == ClaimedName(p)
  {
    hide Strip;
  }

  lemma {:induction false} RowOfLogin(env: Env, p: Payload, was: Option<User>)
    requires was.Some? ==> MayLogin(was.value)
    ensures var email := env.lower(Strip(p.email));
      LoginRow(env, p, was, SuperFlags(Profile(env, Old(email, p, was), email, FullName(p), Strip(p.picture)), p.realm))
  {
    hide Strip, FullName, ClaimedName;
    NamesAgree(p);
    StripKeepsVisible(p.picture);
    StripBlank();
  }

  lemma {:induction false} StripBlank()
    ensures Strip("") == ""
  {
  }

  lemma {:induction false} FinishWrites(env: Env, db: Db, u: nat, subject: string, email: string, p: Payload)
    requires u < |db.users| && Finish(env, db, u, subject, email, p).Some?
    ensures var db' := Finish(env, db, u, subject, email, p).value.0;
      && SyncFromRealm(Accounts.RowsOf(db, u), p.realm, env.active).Some?
      && db'.users == db.users[u := SuperFlags(Profile(env, db.users[u], email, FullName(p), Strip(p.picture)), p.realm)]
      && db'.roles == db.roles[u := SyncFromRealm(Accounts.RowsOf(db, u), p.realm, env.active).value]
      && db'.identities == db.identities[subject := Identity(u, true, true)]
  {
    hide NameTaken, ExactTaken, SyncFromRealm, Strip, SuperFlags, Profile, FullName;
  }

  /** Everything a login writes: its user's whole row, that user's role rows, and its subject's identity. */
  lemma {:induction false} LoginWrites(env: Env, db: Db, p: Payload, u: nat)
    requires Inv(env, db) && LoginOf(env, db, p, u) && Provision(env, db, p).Some?
    ensures u <= |db.users|
    ensures var db' := Provision(env, db, p).value.0; var was := if u < |db.users| then Some(db.users[u]) else None;
      var rows, rows' := Accounts.RowsOf(db, u), Accounts.RowsOf(db', u);
      var codes := RealmCodes(p.realm, env.active);
      var none := codes == [] && forall c | c in rows :: !rows[c].live;
      && |db'.users| == (if u < |db.users| then |db.users| else u + 1)
      && LoginRow(env, p, was, db'.users[u]) && (forall v | 0 <= v < |db.users| && v != u :: db'.users[v] == db.users[v])
      && db'.identities == db.identities[Strip(p.subject) := Identity(u, true, true)]
      && db'.roles == db.roles[u := rows']
      && (forall c :: IsLive(rows', c) <==> IsLive(rows, c) || c in codes || (none && c == "student"))
      && (forall c :: IsPrimary(rows, c) ==> OnlyPrimary(rows', c))
  {
    hide FindUser, Finish, Inv, NameFree, LoginOf, RealmCodes, MayLogin, Strip, FullName, ClaimedName, Profile, SuperFlags,
      SyncFromRealm, LoginRow, IsLive, IsPrimary, OnlyPrimary;
    var subject, email, fullName := Strip(p.subject), env.lower(Strip(p.email)), FullName(p);
    TargetExists(env, db, p, u);
    FindsUser(env, db, p, u, fullName);
    LoginSucceedsIff(env, db, p, u);
    NamesAgree(p);
    var was := if u < |db.users| then Some(db.users[u]) else None;
    RowOfLogin(env, p, was);
    FinishWrites(env, Prepared(db, u, email, fullName), u, subject, email, p);
    PreparedUnique(env, db, u, email, fullName);
    LoginRoles(Accounts.RowsOf(db, u), p.realm, env.active);
  }

  // ----- email changes -----

  /** An email change succeeds if and only if the user is live and has an email, the new one differs and is
      nobody else's email or name, both codes are right and Keycloak takes the new address (`confirmed`), and
      the user has a live identity, of the given subject if there is one. */
  lemma {:induction false} EmailChangesIff(env: Env, db: Db, u: nat, newEmail: string, subject: string, confirmed: bool)
    ensures ChangeEmail(env, db, u, newEmail, subject, confirmed).Some?
            <==> u < |db.users| && CanChange(env, db, u, env.lower(Strip(newEmail))) && confirmed && Linked(db, u, subject)
    ensures ChangeEmail(env, db, u, newEmail, subject, confirmed).Some? ==>
              var email := env.lower(Strip(newEmail));
              ChangeEmail(env, db, u, newEmail, subject, confirmed).value
              == db.(users := db.users[u := db.users[u].(email := email, username := email)])
  {
    hide NameTaken, ExactTaken, NameFree, Strip;
    var email := env.lower(Strip(newEmail));
    NameFreeIs(env, db, email, u);
  }

  predicate Linked(db: Db, u: nat, subject: string) {
    exists s :: s in db.identities && db.identities[s].user == u && db.identities[s].live && (subject == "" || s == subject)
  }

  predicate CanChange(env: Env, db: Db, u: nat, email: string)
    requires u < |db.users|
  {
    && db.users[u].live && env.lower(Strip(db.users[u].email)) != "" && env.lower(Strip(db.users[u].email)) != email
    && NameFree(env, db, email, u)
    && forall v | 0 <= v < |db.users| && v != u && db.users[v].live :: env.fold(db.users[v].email) != env.fold(email)
  }
}
