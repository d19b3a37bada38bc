/** Local accounts (apps/users/services.py): provisioning from a Keycloak login and email change. Keys
    are exact usernames and Keycloak subjects; lookups ignore case. Lower-casing, the case folding of
    lookups and the query part of a generated avatar address are arbitrary functions. */
module Accounts {
  import opened Text
  import opened Roles

  datatype User = User(username: string, email: string, fullName: string, avatar: string,
                       live: bool, enabled: bool, banned: bool, superuser: bool, staff: bool)

  datatype Identity = Identity(user: nat, live: bool, verified: bool)

  /** Users in order of creation, Keycloak identities by subject, role rows by user. */
  datatype Db = Db(users: seq<User>, identities: map<string, Identity>, roles: map<nat, Rows>)

  const EMPTY := Db([], map[], map[])

  datatype Env = Env(lower: string -> string, fold: string -> string, query: User -> string, active: set<string>)

  datatype Payload = Payload(subject: string, email: string, verified: bool, name: string, given: string,
                             family: string, picture: string, realm: set<string>)

  function RowsOf(db: Db, user: nat): Rows {
    if user in db.roles then db.roles[user] else map[]
  }

  function Normalize(env: Env, email: string): string {
    env.lower(Strip(email))
  }

  function FullName(p: Payload): string {
    if p.name != "" then Strip(p.name)
    else
      var given, family := Strip(p.given), Strip(p.family);
      if given == "" then family else if family == "" then given else given + " " + family
  }

  // ----- lookups among users that are not deleted -----

  predicate HasName(env: Env, user: User, name: string) {
    user.live && env.fold(user.username) == env.fold(name)
  }

  predicate HasEmail(env: Env, user: User, email: string) {
    user.live && env.fold(user.email) == env.fold(email)
  }

  predicate NameTaken(env: Env, users: seq<User>, name: string, except: Option<nat>) {
    exists v :: 0 <= v < |users| && Some(v) != except && HasName(env, users[v], name)
  }

  predicate EmailTaken(env: Env, users: seq<User>, email: string, except: nat) {
    exists v :: 0 <= v < |users| && v != except && HasEmail(env, users[v], email)
  }

  /** The first user of an email, unless there are two. */
  datatype Found = Nobody | One(user: nat) | Several

  function FindByEmail(env: Env, users: seq<User>, email: string): (found: Found)
    ensures found.One? ==> found.user < |users|
  {
    if users == [] then Nobody
    else
      var n := |users| - 1;
      var before := FindByEmail(env, users[..n], email);
      if !HasEmail(env, users[n], email) then before
      else if before == Nobody then One(n)
      else Several
  }

  // ----- writes under the exact unique key, deleted users included -----

  predicate ExactTaken(users: seq<User>, name: string, except: nat) {
    exists v :: 0 <= v < |users| && v != except && users[v].username == name
  }

  function SaveUser(db: Db, u: nat, x: User): Option<Db>
    requires u <= |db.users|
  {
    if ExactTaken(db.users, x.username, u) then None
    else if u == |db.users| then Some(db.(users := db.users + [x]))
    else Some(db.(users := db.users[u := x]))
  }

  // ----- provisioning -----

  predicate CanLogin(x: User) {
    x.live && x.enabled && !x.banned
  }

  function NewUser(email: string, fullName: string): User {
    User(email, email, fullName, "", true, true, false, false, false)
  }

  function GetOrCreateUser(env: Env, db: Db, email: string, fullName: string): (r: Option<(Db, nat)>)
    ensures r.Some? ==> r.value.1 < |r.value.0.users|
  {
    match FindByEmail(env, db.users, email)
    case Several => None
    case One(u) =>
      if CanLogin(db.users[u]) && !NameTaken(env, db.users, email, Some(u)) then Some((db, u)) else None
    case Nobody =>
      if NameTaken(env, db.users, email, None) then None
      else match SaveUser(db, |db.users|, NewUser(email, fullName))
           case None => None
           case Some(db') => Some((db', |db.users|))
  }

  function GeneratedAvatar(query: string): string {
    "https://ui-avatars.com/api/?" + query
  }

  function Named(x: User, email: string, fullName: string): User {
    x.(username := email, email := email, fullName := if fullName != "" then fullName else x.fullName)
  }

  /** A new picture replaces the avatar; without one, a blank avatar is replaced by a generated one. */
  function ChooseAvatar(avatar: string, picture: string, generated: string): string {
    if picture != "" && avatar != picture then picture
    else if Strip(avatar) == "" then generated
    else avatar
  }

  function Profile(env: Env, x: User, email: string, fullName: string, picture: string): User {
    var y := Named(x, email, fullName);
    y.(avatar := ChooseAvatar(y.avatar, picture, GeneratedAvatar(env.query(y))))
  }

  function SyncProfile(env: Env, db: Db, u: nat, email: string, fullName: string, avatar: string): Option<Db>
    requires u < |db.users|
  {
    if NameTaken(env, db.users, email, Some(u)) then None
    else
      var x := Profile(env, db.users[u], email, fullName, avatar);
      if x == db.users[u] then Some(db) else SaveUser(db, u, x)
  }

  function SuperFlags(x: User, realm: set<string>): User {
    if "super_admin" in realm then x.(superuser := true, staff := true) else x
  }

  function SyncRoles(env: Env, db: Db, u: nat, realm: set<string>): Option<Db>
    requires u < |db.users|
  {
    match SyncFromRealm(RowsOf(db, u), realm, env.active)
    case None => None
    case Some(rows) => Some(db.(roles := db.roles[u := rows], users := db.users[u := SuperFlags(db.users[u], realm)]))
  }

  /** The user of a login: that of its identity, or else found or created by email. */
  function FindUser(env: Env, db: Db, subject: string, email: string, fullName: string): (r: Option<(Db, nat)>)
    ensures r.Some? ==> r.value.1 < |r.value.0.users|
  {
    if subject in db.identities then
      var u := db.identities[subject].user;
      if u < |db.users| && CanLogin(db.users[u]) then Some((db, u)) else None
    else GetOrCreateUser(env, db, email, fullName)
  }

  /** One login, as a transaction: None where it raises. */
  function Provision(env: Env, db: Db, p: Payload): Option<(Db, nat)> {
    var subject, email := Strip(p.subject), Normalize(env, p.email);
    if subject == "" || Strip(p.email) == "" || !p.verified then None
    else match FindUser(env, db, subject, email, FullName(p))
         case None => None
         case Some(found) => Finish(env, found.0, found.1, subject, email, p)
  }

  function Finish(env: Env, db: Db, u: nat, subject: string, email: string, p: Payload): Option<(Db, nat)>
    requires u < |db.users|
  {
    match SyncProfile(env, db, u, email, FullName(p), Strip(p.picture))
    case None => None
    case Some(db1) =>
      match SyncRoles(env, db1, u, p.realm)
      case None => None
      case Some(db2) => Some((db2.(identities := db2.identities[subject := Identity(u, true, true)]), u))
  }

  // ----- email change -----

  predicate HasIdentity(db: Db, u: nat, subject: string) {
    exists s :: s in db.identities && db.identities[s].user == u && db.identities[s].live && (subject != "" ==> s == subject)
  }

  /** What is checked before any code: a live user with an email, and a new one that nobody else uses. */
  predicate Acceptable(env: Env, users: seq<User>, u: nat, newEmail: string) {
    && u < |users| && users[u].live && Normalize(env, users[u].email) != ""
    && Normalize(env, newEmail) != Normalize(env, users[u].email)
    && !EmailTaken(env, users, Normalize(env, newEmail), u)
    && !NameTaken(env, users, Normalize(env, newEmail), Some(u))
  }

  /** `confirmed`: both one-time codes were right and Keycloak took the new address. */
  function ChangeEmail(env: Env, db: Db, u: nat, newEmail: string, subject: string, confirmed: bool): Option<Db> {
    if !Acceptable(env, db.users, u, newEmail) || !confirmed || !HasIdentity(db, u, subject) then None
    else
      var email := Normalize(env, newEmail);
      SaveUser(db, u, db.users[u].(email := email, username := email))
  }

  // ----- runs -----

  datatype Op =
    | DoProvision(p: Payload)
    | DoChangeEmail(user: nat, newEmail: string, subject: string, confirmed: bool)
    | DoAdjust(user: nat, x: User)
    | DoUnlink(subject: string)

  /** Besides logins and email changes: administrators ban, disable, soft-delete and edit a user, names
      and restoring aside, and identities are soft-deleted. */
  function Step(env: Env, db: Db, op: Op): Db {
    match op
    case DoProvision(p) => (match Provision(env, db, p) case None => db case Some(r) => r.0)
    case DoChangeEmail(u, newEmail, subject, confirmed) =>
      (match ChangeEmail(env, db, u, newEmail, subject, confirmed) case None => db case Some(db') => db')
    case DoAdjust(u, x) =>
      if u < |db.users| && x.username == db.users[u].username && x.email == db.users[u].email && (x.live ==> db.users[u].live)
      then db.(users := db.users[u := x]) else db
    case DoUnlink(subject) =>
      if subject in db.identities
      then db.(identities := db.identities[subject := db.identities[subject].(live := false)]) else db
  }

  function Run(env: Env, db: Db, ops: seq<Op>): Db {
    if ops == [] then db else Step(env, Run(env, db, ops[..|ops| - 1]), ops[|ops| - 1])
  }

  // ----- the invariant -----

  ghost predicate NamesUnique(env: Env, users: seq<User>) {
    forall u, v | 0 <= u < |users| && 0 <= v < |users| && u != v && users[u].live && users[v].live ::
      env.fold(users[u].username) != env.fold(users[v].username)
  }

  ghost predicate ExactUnique(users: seq<User>) {
    forall u, v | 0 <= u < |users| && 0 <= v < |users| && u != v :: users[u].username != users[v].username
  }

  ghost predicate Mirrored(users: seq<User>) {
    forall u | 0 <= u < |users| :: users[u].email == users[u].username
  }

  ghost predicate UsersOk(env: Env, users: seq<User>) {
    NamesUnique(env, users) && ExactUnique(users) && Mirrored(users)
  }

  ghost predicate LinksOk(db: Db) {
    && (forall s | s in db.identities :: db.identities[s].user < |db.users|)
    && (forall u: nat :: WellFormed(RowsOf(db, u)))
  }

  ghost predicate Inv(env: Env, db: Db) {
    UsersOk(env, db.users) && LinksOk(db)
  }

  lemma {:induction false} SaveUserKeeps(env: Env, db: Db, u: nat, x: User)
    requires u <= |db.users| && UsersOk(env, db.users) && x.email == x.username
    requires x.live ==> !NameTaken(env, db.users, x.username, Some(u))
    requires SaveUser(db, u, x).Some?
    ensures var db' := SaveUser(db, u, x).value;
      && UsersOk(env, db'.users)
      && |db'.users| == (if u == |db.users| then u + 1 else |db.users|) && db'.users[u] == x
      && (forall v | 0 <= v < |db.users| && v != u :: db'.users[v] == db.users[v])
      && db'.identities == db.identities && db'.roles == db.roles
  {
    var users := SaveUser(db, u, x).value.users;
    assert forall v | 0 <= v < |users| && v != u :: users[v] == db.users[v];
    forall v | 0 <= v < |users| && v != u
      ensures users[v].username != x.username
      ensures x.live && users[v].live ==> env.fold(users[v].username) != env.fold(x.username)
    {
      assert HasName(env, db.users[v], x.username) ==> !x.live;
    }
  }

  lemma {:induction false} FindByEmailIs(env: Env, users: seq<User>, email: string)
    ensures match FindByEmail(env, users, email)
            case Nobody => forall v | 0 <= v < |users| :: !HasEmail(env, users[v], email)
            case One(u) => u < |users| && forall v | 0 <= v < |users| :: HasEmail(env, users[v], email) <==> v == u
            case Several => exists v, w :: 0 <= v < w < |users| && HasEmail(env, users[v], email) && HasEmail(env, users[w], email)
  {
    hide HasEmail;
    if users != [] {
      var n := |users| - 1;
      FindByEmailIs(env, users[..n], email);
      match FindByEmail(env, users[..n], email)
      case Nobody =>
      case One(u) => assert HasEmail(env, users[..n][u], email);
      case Several =>
        var v, w :| 0 <= v < w < n && HasEmail(env, users[..n][v], email) && HasEmail(env, users[..n][w], email);
        assert HasEmail(env, users[v], email) && HasEmail(env, users[w], email);
    }
  }

  /** What finding a user leaves alone, and what it finds. */
  lemma {:induction false} FindUserKeeps(env: Env, db: Db, subject: string, email: string, fullName: string)
    requires Inv(env, db) && FindUser(env, db, subject, email, fullName).Some?
    ensures var (db', u) := FindUser(env, db, subject, email, fullName).value;
      && UsersOk(env, db'.users) && CanLogin(db'.users[u])
      && db'.identities == db.identities && db'.roles == db.roles
      && |db.users| <= |db'.users| && (forall v | 0 <= v < |db.users| :: db'.users[v] == db.users[v])
      && |db'.users| <= |db.users| + 1 && (|db'.users| == |db.users| + 1 ==> u == |db.users|)
      && (subject in db.identities ==> u == db.identities[subject].user)
      && (subject !in db.identities ==> forall w | 0 <= w < |db.users| && HasEmail(env, db.users[w], email) :: u == w)
  {
    hide UsersOk, HasEmail, HasName;
    FindByEmailIs(env, db.users, email);
    if subject !in db.identities && FindByEmail(env, db.users, email) == Nobody {
      assert NameTaken(env, db.users, email, Some(|db.users|)) ==> NameTaken(env, db.users, email, None);
      SaveUserKeeps(env, db, |db.users|, NewUser(email, fullName));
    }
  }

  lemma {:induction false} ProfileIs(env: Env, x: User, email: string, fullName: string, avatar: string)
    ensures var y := Profile(env, x, email, fullName, avatar);
      && y.username == email && y.email == email && (CanLogin(y) <==> CanLogin(x)) && y.live == x.live
      && y.superuser == x.superuser && y.staff == x.staff
  {
  }

  lemma {:induction false} FinishKeeps(env: Env, db: Db, u: nat, subject: string, email: string, p: Payload)
    requires UsersOk(env, db.users) && LinksOk(db) && u < |db.users| && CanLogin(db.users[u])
    requires Finish(env, db, u, subject, email, p).Some?
    ensures var (db', u') := Finish(env, db, u, subject, email, p).value;
      && u' == u && Inv(env, db') && |db'.users| == |db.users|
      && db'.users[u].username == email && CanLogin(db'.users[u])
      && (forall v | 0 <= v < |db.users| && v != u :: db'.users[v] == db.users[v])
      && db'.identities == db.identities[subject := Identity(u, true, true)]
      && db'.roles == db.roles[u := SyncFromRealm(RowsOf(db, u), p.realm, env.active).value]
      && SyncFromRealm(RowsOf(db, u), p.realm, env.active).Some?
  {
    hide Profile, SyncFromRealm, WellFormed, UsersOk, NameTaken, CanLogin;
    var x := Profile(env, db.users[u], email, FullName(p), Strip(p.picture));
    ProfileIs(env, db.users[u], email, FullName(p), Strip(p.picture));
    var db1 := SyncProfile(env, db, u, email, FullName(p), Strip(p.picture)).value;
    if x != db.users[u] {
      SaveUserKeeps(env, db, u, x);
    }
    assert db1.users[u] == x;
    SyncFromRealmKeeps(RowsOf(db, u), p.realm, env.active);
    FlagsKeep(env, db1.users, u, p.realm);
    var db' := Finish(env, db, u, subject, email, p).value.0;
    assert forall v: nat :: RowsOf(db', v) == if v == u then SyncFromRealm(RowsOf(db, u), p.realm, env.active).value else RowsOf(db, v);
  }

  lemma {:induction false} FlagsKeep(env: Env, users: seq<User>, u: nat, realm: set<string>)
    requires UsersOk(env, users) && u < |users|
    ensures UsersOk(env, users[u := SuperFlags(users[u], realm)])
    ensures CanLogin(SuperFlags(users[u], realm)) <==> CanLogin(users[u])
    ensures SuperFlags(users[u], realm).username == users[u].username
  {
    var after := users[u := SuperFlags(users[u], realm)];
    assert forall v | 0 <= v < |users| :: after[v].username == users[v].username && after[v].email == users[v].email
                                          && after[v].live == users[v].live;
  }

  /** A login that succeeds: its subject now stands for one user, who may log in, is named by the
      login's email and holds a live role. A known subject keeps its user, a new one is linked to the
      user of its email if there is one, and no other user changes. */
  lemma {:induction false} ProvisionResult(env: Env, db: Db, p: Payload)
    requires Inv(env, db) && Provision(env, db, p).Some?
    ensures var (db', u) := Provision(env, db, p).value; var subject := Strip(p.subject);
      && Inv(env, db') && u < |db'.users|
      && db'.users[u].username == db'.users[u].email == Normalize(env, p.email) && CanLogin(db'.users[u])
      && HasRole(RowsOf(db', u))
      && db'.identities == db.identities[subject := Identity(u, true, true)]
      && (subject in db.identities ==> u == db.identities[subject].user && |db'.users| == |db.users|)
      && (subject !in db.identities ==>
            forall w | 0 <= w < |db.users| && HasEmail(env, db.users[w], Normalize(env, p.email)) :: u == w)
      && |db.users| <= |db'.users| && (forall v | 0 <= v < |db.users| && v != u :: db'.users[v] == db.users[v])
  {
    hide FindUser, Finish, SyncFromRealm, UsersOk, WellFormed, CanLogin, HasEmail;
    var subject, email := Strip(p.subject), Normalize(env, p.email);
    FindUserKeeps(env, db, subject, email, FullName(p));
    var (db1, u) := FindUser(env, db, subject, email, FullName(p)).value;
    assert forall v: nat :: RowsOf(db1, v) == RowsOf(db, v);
    FinishKeeps(env, db1, u, subject, email, p);
    SyncFromRealmKeeps(RowsOf(db, u), p.realm, env.active);
    var db' := Provision(env, db, p).value.0;
    assert RowsOf(db', u) == SyncFromRealm(RowsOf(db, u), p.realm, env.active).value;
    MirroredAt(env, db'.users, u);
    if subject in db.identities {
      assert |db1.users| == |db.users|;
    }
  }

  lemma {:induction false} MirroredAt(env: Env, users: seq<User>, u: nat)
    requires UsersOk(env, users) && u < |users|
    ensures users[u].email == users[u].username
  {
  }

  lemma {:induction false} ChangeEmailKeeps(env: Env, db: Db, u: nat, newEmail: string, subject: string,
                                            confirmed: bool)
    requires Inv(env, db) && ChangeEmail(env, db, u, newEmail, subject, confirmed).Some?
    ensures var db' := ChangeEmail(env, db, u, newEmail, subject, confirmed).value; var email := Normalize(env, newEmail);
      && Inv(env, db') && u < |db.users| && db'.identities == db.identities && db'.roles == db.roles
      && db'.users == db.users[u := db.users[u].(email := email, username := email)]
  {
    hide UsersOk, WellFormed, NameTaken, EmailTaken;
    var email := Normalize(env, newEmail);
    SaveUserKeeps(env, db, u, db.users[u].(email := email, username := email));
    var db' := ChangeEmail(env, db, u, newEmail, subject, confirmed).value;
    assert forall v: nat :: RowsOf(db', v) == RowsOf(db, v);
  }

  lemma {:induction false} AdjustKeepsInv(env: Env, db: Db, u: nat, x: User)
    requires Inv(env, db)
    ensures var db' := Step(env, db, DoAdjust(u, x)); Inv(env, db') && db'.identities == db.identities
  {
    hide WellFormed;
    var db' := Step(env, db, DoAdjust(u, x));
    assert forall v | 0 <= v < |db.users| ::
        db'.users[v].username == db.users[v].username && db'.users[v].email == db.users[v].email
        && (db'.users[v].live ==> db.users[v].live);
    assert forall v: nat :: RowsOf(db', v) == RowsOf(db, v);
  }

  lemma {:induction false} UnlinkKeepsInv(env: Env, db: Db, subject: string)
    requires Inv(env, db)
    ensures var db' := Step(env, db, DoUnlink(subject));
      Inv(env, db') && forall s | s in db.identities :: s in db'.identities && db'.identities[s].user == db.identities[s].user
  {
    hide UsersOk, WellFormed;
    var db' := Step(env, db, DoUnlink(subject));
    assert forall v: nat :: RowsOf(db', v) == RowsOf(db, v);
  }

  lemma {:induction false} StepKeepsInv(env: Env, db: Db, op: Op)
    requires Inv(env, db)
    ensures Inv(env, Step(env, db, op))
    ensures forall s | s in db.identities ::
              s in Step(env, db, op).identities && Step(env, db, op).identities[s].user == db.identities[s].user
  {
    hide Provision, ChangeEmail, UsersOk, LinksOk;
    match op
    case DoProvision(p) =>
      if Provision(env, db, p).Some? {
        ProvisionResult(env, db, p);
      }
    case DoChangeEmail(u, newEmail, subject, confirmed) =>
      if ChangeEmail(env, db, u, newEmail, subject, confirmed).Some? {
        ChangeEmailKeeps(env, db, u, newEmail, subject, confirmed);
      }
    case DoAdjust(u, x) => AdjustKeepsInv(env, db, u, x);
    case DoUnlink(subject) => UnlinkKeepsInv(env, db, subject);
  }

  lemma {:induction false} RunKeepsInv(env: Env, db: Db, ops: seq<Op>)
    requires Inv(env, db)
    ensures Inv(env, Run(env, db, ops))
    ensures forall s | s in db.identities ::
              s in Run(env, db, ops).identities && Run(env, db, ops).identities[s].user == db.identities[s].user
  {
    hide Step, Inv;
    if ops != [] {
      RunKeepsInv(env, db, ops[..|ops| - 1]);
      StepKeepsInv(env, Run(env, db, ops[..|ops| - 1]), ops[|ops| - 1]);
    }
  }

  /** In every run from no accounts, two users that are not deleted never share a username or an email,
      ignoring case, so no login ever finds several users for its email. */
  lemma {:induction false} EveryRunNamesUnique(env: Env, ops: seq<Op>, u: nat, v: nat, email: string)
    ensures var users := Run(env, EMPTY, ops).users;
      && (u < v < |users| && users[u].live && users[v].live ==>
            env.fold(users[u].username) != env.fold(users[v].username) && env.fold(users[u].email) != env.fold(users[v].email))
      && FindByEmail(env, users, email) != Several
  {
    RunKeepsInv(env, EMPTY, ops);
    FindByEmailIs(env, Run(env, EMPTY, ops).users, email);
  }

  /** A Keycloak subject is never moved to another user, in any run. */
  lemma {:induction false} SubjectNeverMoves(env: Env, before: seq<Op>, ops: seq<Op>, subject: string)
    requires subject in Run(env, EMPTY, before).identities
    ensures var then' := Run(env, Run(env, EMPTY, before), ops);
      subject in then'.identities && then'.identities[subject].user == Run(env, EMPTY, before).identities[subject].user
  {
    RunKeepsInv(env, EMPTY, before);
    RunKeepsInv(env, Run(env, EMPTY, before), ops);
  }

  // ----- the same login twice -----

  lemma {:induction false} StripLeftHead(s: string)
    ensures StripLeft(s) != "" ==> !IsSpace(StripLeft(s)[0])
    ensures s != "" && !IsSpace(s[0]) ==> StripLeft(s) == s
  {
    if s != "" && IsSpace(s[0]) {
      StripLeftHead(s[1..]);
    }
  }

  lemma {:induction false} StripRightHead(s: string)
    ensures StripRight(s) != "" ==> s != "" && StripRight(s)[0] == s[0]
    ensures s != "" && !IsSpace(s[0]) ==> StripRight(s) != ""
  {
    if s != "" && IsSpace(s[|s| - 1]) {
      StripRightHead(s[..|s| - 1]);
    }
  }

  /** Stripping never empties text that starts with a visible character, such as stripped text. */
  lemma {:induction false} StripKeepsVisible(s: string)
    ensures s != "" && !IsSpace(s[0]) ==> Strip(s) != ""
    ensures Strip(s) != "" ==> Strip(Strip(s)) != ""
  {
    StripLeftHead(s);
    StripRightHead(StripLeft(s));
    StripLeftHead(Strip(s));
    StripRightHead(Strip(s));
  }

  lemma {:induction false} GeneratedIsVisible(query: string)
    ensures Strip(GeneratedAvatar(query)) != ""
  {
    assert GeneratedAvatar(query)[0] == 'h';
    StripKeepsVisible(GeneratedAvatar(query));
  }

  lemma {:induction false} AvatarSettles(avatar: string, picture: string, generated: string, later: string)
    requires Strip(generated) != "" && (picture != "" ==> Strip(picture) != "")
    ensures var chosen := ChooseAvatar(avatar, picture, generated); ChooseAvatar(chosen, picture, later) == chosen
  {
  }

  lemma {:induction false} ProfileTwice(env: Env, x: User, email: string, fullName: string, picture: string,
                                        realm: set<string>)
    ensures var y := SuperFlags(Profile(env, x, email, fullName, Strip(picture)), realm);
      && Profile(env, y, email, fullName, Strip(picture)) == y && SuperFlags(y, realm) == y
  {
    hide Strip, ChooseAvatar, GeneratedAvatar;
    var named := Named(x, email, fullName);
    var y := SuperFlags(Profile(env, x, email, fullName, Strip(picture)), realm);
    StripKeepsVisible(picture);
    GeneratedIsVisible(env.query(named));
    AvatarSettles(named.avatar, Strip(picture), GeneratedAvatar(env.query(named)), GeneratedAvatar(env.query(Named(y, email, fullName))));
  }

  /** Logging in again with the same claims changes nothing: users, identities and roles are as after
      the first time. */
  lemma {:induction false} ProvisionTwice(env: Env, db: Db, p: Payload)
    requires Inv(env, db) && Provision(env, db, p).Some?
    ensures var first := Provision(env, db, p).value; Provision(env, first.0, p) == Some(first)
  {
    hide FindUser, UsersOk, WellFormed, Profile, SuperFlags, SyncFromRealm, NameTaken, CanLogin;
    var subject, email := Strip(p.subject), Normalize(env, p.email);
    FindUserKeeps(env, db, subject, email, FullName(p));
    var (db1, u) := FindUser(env, db, subject, email, FullName(p)).value;
    assert forall v: nat :: RowsOf(db1, v) == RowsOf(db, v);
    var (db', _) := Provision(env, db, p).value;
    FinishKeeps(env, db1, u, subject, email, p);
    FindAgain(env, db', subject, email, FullName(p));
    FinishTwice(env, db1, u, subject, email, p);
  }

  lemma {:induction false} FindAgain(env: Env, db: Db, subject: string, email: string, fullName: string)
    requires subject in db.identities && db.identities[subject].user < |db.users| && CanLogin(db.users[db.identities[subject].user])
    ensures FindUser(env, db, subject, email, fullName) == Some((db, db.identities[subject].user))
  {
  }

  lemma {:induction false} FinishTwice(env: Env, db: Db, u: nat, subject: string, email: string, p: Payload)
    requires UsersOk(env, db.users) && LinksOk(db) && u < |db.users| && CanLogin(db.users[u])
    requires Finish(env, db, u, subject, email, p).Some?
    ensures var db' := Finish(env, db, u, subject, email, p).value.0;
      u < |db'.users| && Finish(env, db', u, subject, email, p) == Some((db', u))
  {
    hide UsersOk, WellFormed, Profile, SuperFlags, SyncFromRealm, HasName;
    FinishKeeps(env, db, u, subject, email, p);
    var db' := Finish(env, db, u, subject, email, p).value.0;
    var x := Profile(env, db.users[u], email, FullName(p), Strip(p.picture));
    ProfileTwice(env, db.users[u], email, FullName(p), p.picture, p.realm);
    SyncFromRealmAgain(RowsOf(db, u), p.realm, env.active);
    assert RowsOf(db', u) == SyncFromRealm(RowsOf(db, u), p.realm, env.active).value;
    assert db'.users[u] == SuperFlags(x, p.realm);
    assert NameTaken(env, db'.users, email, Some(u)) ==> NameTaken(env, db.users, email, Some(u));
    assert SyncProfile(env, db', u, email, FullName(p), Strip(p.picture)) == Some(db');
    assert db'.roles[u := RowsOf(db', u)] == db'.roles;
    assert db'.users[u := db'.users[u]] == db'.users;
    assert SyncRoles(env, db', u, p.realm) == Some(db');
    assert db'.identities[subject := Identity(u, true, true)] == db'.identities;
  }

  lemma {:induction false} SyncFromRealmAgain(rows: Rows, realm: set<string>, active: set<string>)
    requires WellFormed(rows) && SyncFromRealm(rows, realm, active).Some?
    ensures var after := SyncFromRealm(rows, realm, active).value; SyncFromRealm(after, realm, active) == Some(after)
  {
    SyncFromRealmTwice(rows, realm, active);
  }
}
