/** Role rows of one user, with soft deletion and a single primary flag (apps/users/services.py,
    apps/organizer_requests/services.py, apps/system_admin/services/user_services.py). The table has
    at most one primary row for each user, deleted rows included (apps/users/models/user_role.py);
    a write that would make a second one fails, and the transaction with it. */
module Roles {
  import opened Text

  datatype UserRole = UserRole(live: bool, primary: bool)

  /** The rows of one user by role code, deleted ones included. */
  type Rows = map<string, UserRole>

  const STUDENT := "student"
  const ORGANIZER := "organizer"

  predicate OtherPrimary(rows: Rows, code: string) {
    exists d :: d in rows && d != code && rows[d].primary
  }

  /** Writing one row under the table's constraint. */
  function Save(rows: Rows, code: string, row: UserRole): Option<Rows> {
    if row.primary && OtherPrimary(rows, code) then None else Some(rows[code := row])
  }

  predicate IsLive(rows: Rows, code: string) {
    code in rows && rows[code].live
  }

  predicate IsPrimary(rows: Rows, code: string) {
    code in rows && rows[code].live && rows[code].primary
  }

  predicate HasPrimary(rows: Rows) {
    exists code :: code in rows && IsPrimary(rows, code)
  }

  predicate HasRole(rows: Rows) {
    exists code :: code in rows && IsLive(rows, code)
  }

  /** What the table's constraint says. */
  ghost predicate Constrained(rows: Rows) {
    forall c, d | c in rows && d in rows && rows[c].primary && rows[d].primary :: c == d
  }

  predicate DeadPrimary(rows: Rows, code: string) {
    code in rows && rows[code] == UserRole(false, true)
  }

  ghost predicate WellFormed(rows: Rows) {
    Constrained(rows) && forall c | c in rows :: !DeadPrimary(rows, c)
  }

  // ----- role sync -----

  /** One pass of the loop over role codes, and the flag it leaves. */
  function SyncOne(rows: Rows, hasPrimary: bool, code: string): Option<(Rows, bool)> {
    var promote := !hasPrimary && (code in rows ==> !rows[code].primary);
    var row := UserRole(true, promote || (code in rows && rows[code].primary));
    match Save(rows, code, row)
    case None => None
    case Some(saved) => Some((saved, hasPrimary || promote))
  }

  function SyncUpto(rows: Rows, hasPrimary: bool, codes: seq<string>): Option<(Rows, bool)> {
    if codes == [] then Some((rows, hasPrimary))
    else match SyncUpto(rows, hasPrimary, codes[..|codes| - 1])
         case None => None
         case Some(p) => SyncOne(p.0, p.1, codes[|codes| - 1])
  }

  function Sync(rows: Rows, codes: seq<string>): Option<Rows> {
    match SyncUpto(rows, HasPrimary(rows), codes)
    case None => None
    case Some(p) => Some(p.0)
  }

  function EnsureDefault(rows: Rows, active: set<string>): Option<Rows> {
    if HasRole(rows) then Some(rows)
    else if STUDENT !in active then None
    else Save(rows, STUDENT, UserRole(true, true))
  }

  // ----- from realm roles to role codes -----

  function FirstActive(candidates: seq<string>, active: set<string>): Option<string> {
    if candidates == [] then None
    else if candidates[0] in active then Some(candidates[0])
    else FirstActive(candidates[1..], active)
  }

  const REALM_ROLE_CODES: seq<(string, seq<string>)> := [
    ("student", ["student", "ATTENDEE"]),
    ("organizer", ["organizer", "ORGANIZER"]),
    ("super_admin", ["system_admin", "SYS_ADMIN", "admin"])]

  function MapUpto(table: seq<(string, seq<string>)>, realm: set<string>, active: set<string>): seq<string> {
    if table == [] then []
    else
      var before := MapUpto(table[..|table| - 1], realm, active);
      var (name, candidates) := table[|table| - 1];
      var code := FirstActive(candidates, active);
      if name in realm && code.Some? && code.value !in before then before + [code.value] else before
  }

  function MapRoles(realm: set<string>, active: set<string>): seq<string> {
    MapUpto(REALM_ROLE_CODES, realm, active)
  }

  function SyncFromRealm(rows: Rows, realm: set<string>, active: set<string>): Option<Rows> {
    var codes := MapRoles(realm, active);
    if codes != [] then Sync(rows, codes) else EnsureDefault(rows, active)
  }

  // ----- approval, assignment and removal -----

  function WithoutOtherPrimaries(rows: Rows, code: string): Rows {
    map c | c in rows :: if c != code then rows[c].(primary := false) else rows[c]
  }

  function MakeOrganizer(rows: Rows): Rows {
    WithoutOtherPrimaries(rows, ORGANIZER)[ORGANIZER := UserRole(true, true)]
  }

  /** Creates a row of a known role; a deleted row of the same role is in its way. */
  function Assign(rows: Rows, code: string, known: set<string>): Option<Rows> {
    if code !in known || code in rows then None else Save(rows, code, UserRole(true, !HasRole(rows)))
  }

  function Remove(rows: Rows, code: string, known: set<string>): Option<Rows> {
    if code !in known || !IsLive(rows, code) || rows[code].primary then None else Some(rows[code := UserRole(false, false)])
  }

  // ----- replacing all roles -----

  /** The codes in order of first appearance. */
  function Unique(codes: seq<string>): seq<string> {
    if codes == [] then []
    else
      var before := Unique(codes[..|codes| - 1]);
      if codes[|codes| - 1] in before then before else before + [codes[|codes| - 1]]
  }

  predicate PrimaryAmong(rows: Rows, codes: seq<string>) {
    exists c :: c in codes && IsPrimary(rows, c)
  }

  /** The primary role stays if it is asked for; otherwise the first code becomes primary. */
  predicate IsTarget(rows: Rows, codes: seq<string>, code: string) {
    if PrimaryAmong(rows, codes) then IsPrimary(rows, code) else codes != [] && code == codes[0]
  }

  /** Rows of other codes are deleted for good, then each code's row is written in turn. */
  function ReplaceUpto(rows: Rows, codes: seq<string>, k: nat): Option<Rows>
    requires k <= |codes|
  {
    if k == 0 then Some(map c | c in rows && c in codes :: rows[c])
    else match ReplaceUpto(rows, codes, k - 1)
         case None => None
         case Some(p) => Save(p, codes[k - 1], UserRole(true, IsTarget(rows, codes, codes[k - 1])))
  }

  function Replace(rows: Rows, codes: seq<string>, known: set<string>): Option<Rows> {
    var unique := Unique(codes);
    if exists c :: c in unique && c !in known then None else ReplaceUpto(rows, unique, |unique|)
  }

  // ----- what a sync does -----

  ghost predicate AllDifferent(codes: seq<string>) {
    forall i, j | 0 <= i < j < |codes| :: codes[i] != codes[j]
  }

  /** What the loop keeps, having started without a deleted primary row and passed `codes`. */
  ghost predicate LoopInv(rows: Rows, hasPrimary: bool, was: Rows, codes: seq<string>) {
    && WellFormed(rows)
    && (hasPrimary <==> HasPrimary(rows))
    && (codes != [] ==> hasPrimary)
    && (forall c | c in codes :: IsLive(rows, c))
    && (forall c | c !in codes :: (c in rows <==> c in was) && (c in was ==> rows[c] == was[c]))
    && (forall c | c in was :: c in rows && (was[c].primary ==> rows[c].primary))
    && (hasPrimary ==> HasPrimary(was) || (codes != [] && IsPrimary(rows, codes[0])))
  }

  lemma {:induction false} LoopStart(rows: Rows)
    requires WellFormed(rows)
    ensures LoopInv(rows, HasPrimary(rows), rows, [])
  {
    hide WellFormed, HasPrimary;
  }

  lemma {:induction false} SyncLoop(was: Rows, codes: seq<string>)
    requires WellFormed(was)
    ensures var p := SyncUpto(was, HasPrimary(was), codes); p.Some? && LoopInv(p.value.0, p.value.1, was, codes)
  {
    hide WellFormed, HasPrimary, LoopInv, SyncOne;
    LoopStart(was);
    if codes != [] {
      var before, code := codes[..|codes| - 1], codes[|codes| - 1];
      SyncLoop(was, before);
      var p := SyncUpto(was, HasPrimary(was), before).value;
      SyncOneKeeps(p.0, p.1, was, before, code);
      assert codes == before + [code];
    }
  }

  /** Without a deleted primary row the flag tells whether any row is primary. */
  lemma {:induction false} PrimaryRows(rows: Rows, code: string)
    requires WellFormed(rows)
    ensures OtherPrimary(rows, code) ==> HasPrimary(rows)
    ensures code in rows && rows[code].primary ==> IsPrimary(rows, code) && HasPrimary(rows)
  {
    assert forall d | d in rows && rows[d].primary :: !DeadPrimary(rows, d);
    assert forall d | d in rows && rows[d].primary :: IsPrimary(rows, d);
  }

  /** One pass writes one live row, primary if no row was. */
  lemma {:induction false} SyncOneWrites(rows: Rows, hasPrimary: bool, code: string)
    requires WellFormed(rows) && (hasPrimary <==> HasPrimary(rows))
    ensures var p := SyncOne(rows, hasPrimary, code);
      && p.Some? && p.value.1
      && p.value.0 == rows[code := UserRole(true, !hasPrimary || (code in rows && rows[code].primary))]
  {
    hide HasPrimary, WellFormed, IsPrimary;
    PrimaryRows(rows, code);
    ConstrainedAt(rows, code);
  }

  lemma {:induction false} ConstrainedAt(rows: Rows, code: string)
    requires WellFormed(rows)
    ensures code in rows && rows[code].primary ==> !OtherPrimary(rows, code)
  {
  }

  /** Writing that row keeps the rows well formed, and makes some row primary. */
  lemma {:induction false} SyncOneWellFormed(rows: Rows, code: string)
    requires WellFormed(rows)
    ensures var after := rows[code := UserRole(true, !HasPrimary(rows) || (code in rows && rows[code].primary))];
      WellFormed(after) && IsLive(after, code) && HasPrimary(after) && (!HasPrimary(rows) ==> IsPrimary(after, code))
  {
    PrimaryRows(rows, code);
    var after := rows[code := UserRole(true, !HasPrimary(rows) || (code in rows && rows[code].primary))];
    assert forall d | d in rows && rows[d].primary :: !DeadPrimary(rows, d) && IsPrimary(rows, d);
    if d :| d in rows && IsPrimary(rows, d) {
      assert IsPrimary(after, d);
    } else {
      assert IsPrimary(after, code);
    }
  }

  lemma {:induction false} SyncOneKeeps(rows: Rows, hasPrimary: bool, was: Rows, codes: seq<string>, code: string)
    requires LoopInv(rows, hasPrimary, was, codes)
    ensures var p := SyncOne(rows, hasPrimary, code); p.Some? && LoopInv(p.value.0, p.value.1, was, codes + [code])
  {
    hide SyncOne, WellFormed, HasPrimary;
    SyncOneWrites(rows, hasPrimary, code);
    SyncOneWellFormed(rows, code);
    assert (codes + [code])[0] == if codes == [] then code else codes[0];
  }

  ghost predicate OnlyPrimary(rows: Rows, code: string) {
    IsPrimary(rows, code) && forall c :: IsPrimary(rows, c) ==> c == code
  }

  /** A sync with role codes ends with exactly one live primary role and every code live: the primary
      role the user had, or else the first code. Other rows stay as they were. */
  lemma {:induction false} SyncResult(rows: Rows, codes: seq<string>)
    requires WellFormed(rows) && codes != []
    ensures var after := Sync(rows, codes);
      && after.Some? && WellFormed(after.value)
      && (forall c | c in codes :: IsLive(after.value, c))
      && (forall c :: IsPrimary(rows, c) ==> OnlyPrimary(after.value, c))
      && (!HasPrimary(rows) ==> OnlyPrimary(after.value, codes[0]))
      && (forall c | c !in codes :: (c in after.value <==> c in rows) && (c in rows ==> after.value[c] == rows[c]))
  {
    SyncLoop(rows, codes);
    var after := Sync(rows, codes).value;
    forall c | IsPrimary(rows, c) ensures OnlyPrimary(after, c) {
      assert after[c].primary && !DeadPrimary(after, c);
    }
  }

  lemma {:induction false} FailureStays(rows: Rows, hasPrimary: bool, codes: seq<string>, k: nat)
    requires k <= |codes| && SyncUpto(rows, hasPrimary, codes[..k]) == None
    ensures SyncUpto(rows, hasPrimary, codes) == None
    decreases |codes|
  {
    if k < |codes| {
      assert codes[..|codes| - 1][..k] == codes[..k];
      FailureStays(rows, hasPrimary, codes[..|codes| - 1], k);
    } else {
      assert codes[..k] == codes;
    }
  }

  lemma {:induction false} SyncUptoOne(rows: Rows, hasPrimary: bool, codes: seq<string>)
    requires codes != []
    ensures SyncUpto(rows, hasPrimary, codes[..1]) == SyncOne(rows, hasPrimary, codes[0])
  {
    assert codes[..1][..0] == [];
    assert SyncUpto(rows, hasPrimary, codes[..1][..0]) == Some((rows, hasPrimary));
  }

  /** A deleted primary row makes the sync fail, unless its own role is the only one asked for: the
      loop does not see the row, promotes another, and the table refuses. */
  lemma {:induction false} DeadPrimaryFails(rows: Rows, codes: seq<string>, dead: string)
    requires Constrained(rows) && codes != [] && AllDifferent(codes) && DeadPrimary(rows, dead)
    ensures Sync(rows, codes) == if codes == [dead] then Some(rows[dead := UserRole(true, true)]) else None
  {
    assert !HasPrimary(rows);
    SyncUptoOne(rows, false, codes);
    if codes[0] != dead {
      assert OtherPrimary(rows, codes[0]);
      FailureStays(rows, false, codes, 1);
    } else {
      var restored := rows[dead := UserRole(true, true)];
      assert SyncOne(rows, false, dead) == Some((restored, false));
      if |codes| == 1 {
        assert codes[..1] == codes;
      } else {
        assert codes[..2][..1] == codes[..1];
        assert codes[1] != dead && dead in restored && restored[dead].primary;
        assert OtherPrimary(restored, codes[1]);
        FailureStays(rows, false, codes, 2);
      }
    }
  }

  /** When a sync fails, exactly. */
  lemma {:induction false} SyncFailsIff(rows: Rows, codes: seq<string>)
    requires Constrained(rows) && codes != [] && AllDifferent(codes)
    ensures Sync(rows, codes) == None <==> exists dead :: DeadPrimary(rows, dead) && codes != [dead]
  {
    if dead :| DeadPrimary(rows, dead) {
      DeadPrimaryFails(rows, codes, dead);
      assert forall d :: DeadPrimary(rows, d) ==> d == dead;
    } else {
      assert WellFormed(rows);
      SyncResult(rows, codes);
    }
  }

  /** The default role: nothing for a user with a live role; otherwise student becomes the one live and
      primary role, unless it is inactive or a deleted primary row of another role is in the way. */
  lemma {:induction false} EnsureDefaultResult(rows: Rows, active: set<string>)
    requires Constrained(rows)
    ensures var after := EnsureDefault(rows, active);
      && (after == None <==> !HasRole(rows) && (STUDENT !in active || exists d :: DeadPrimary(rows, d) && d != STUDENT))
      && (after.Some? ==> HasRole(after.value) && Constrained(after.value))
      && (after.Some? && WellFormed(rows) ==> WellFormed(after.value))
      && (after.Some? && !HasRole(rows) ==> OnlyPrimary(after.value, STUDENT) && forall c :: IsLive(after.value, c) ==> c == STUDENT)
  {
    if !HasRole(rows) {
      forall d | d in rows && rows[d].primary ensures DeadPrimary(rows, d) {
        assert !IsLive(rows, d);
      }
      if STUDENT in active && !OtherPrimary(rows, STUDENT) {
        var after := rows[STUDENT := UserRole(true, true)];
        assert IsLive(after, STUDENT);
        assert forall c :: c != STUDENT ==> (IsLive(after, c) <==> IsLive(rows, c));
      }
    }
  }

  /** Approval makes organizer the only primary role whatever the rows were, and takes no role away. */
  lemma {:induction false} MakeOrganizerResult(rows: Rows)
    ensures var after := MakeOrganizer(rows);
      && WellFormed(after) && OnlyPrimary(after, ORGANIZER)
      && (forall c | c != ORGANIZER :: IsLive(after, c) <==> IsLive(rows, c))
  {
  }

  lemma {:induction false} AssignKeeps(rows: Rows, code: string, known: set<string>)
    requires WellFormed(rows) && Assign(rows, code, known).Some?
    ensures WellFormed(Assign(rows, code, known).value) && IsLive(Assign(rows, code, known).value, code)
    ensures forall c :: IsLive(rows, c) ==> IsLive(Assign(rows, code, known).value, c)
  {
    var after := Assign(rows, code, known).value;
    assert forall c | c in rows :: DeadPrimary(after, c) ==> DeadPrimary(rows, c);
  }

  /** The admin's refusal to remove a primary role is what keeps deleted rows from being primary. */
  lemma {:induction false} RemoveKeeps(rows: Rows, code: string, known: set<string>)
    requires WellFormed(rows) && Remove(rows, code, known).Some?
    ensures WellFormed(Remove(rows, code, known).value) && (HasPrimary(rows) ==> HasPrimary(Remove(rows, code, known).value))
    ensures forall c | c != code :: IsLive(rows, c) ==> IsLive(Remove(rows, code, known).value, c)
  {
    var after := Remove(rows, code, known).value;
    assert forall c | c in rows && c != code :: after[c] == rows[c];
    if HasPrimary(rows) {
      var p :| p in rows && IsPrimary(rows, p);
      assert IsPrimary(after, p);
    }
  }

  /** An assignment is refused for an unknown role and for one that has a row already, deleted or not;
      otherwise that row alone is new, live, and primary exactly for a user without any live role. */
  lemma {:induction false} AssignResult(rows: Rows, code: string, known: set<string>)
    requires WellFormed(rows)
    ensures var after := Assign(rows, code, known);
      && (after == None <==> code !in known || code in rows)
      && (after.Some? ==> after.value == rows[code := UserRole(true, forall c | c in rows :: !rows[c].live)])
  {
    assert HasRole(rows) <==> exists c :: c in rows && rows[c].live by {
      assert forall c :: c in rows && rows[c].live ==> IsLive(rows, c);
    }
    assert forall d | d in rows :: !DeadPrimary(rows, d);
  }

  /** A removal is refused for an unknown role, one the user does not have, and the primary one; otherwise
      that role alone is no longer live. */
  lemma {:induction false} RemoveResult(rows: Rows, code: string, known: set<string>)
    ensures var after := Remove(rows, code, known);
      && (after == None <==> code !in known || code !in rows || !rows[code].live || rows[code].primary)
      && (after.Some? ==>
            && !IsLive(after.value, code) && !IsPrimary(after.value, code) && after.value.Keys == rows.Keys
            && (forall c | c in rows && c != code :: after.value[c] == rows[c]))
  {
    var after := Remove(rows, code, known);
    assert after.Some? ==> after.value.Keys == rows.Keys + {code};
  }

  lemma {:induction false} UniqueIs(codes: seq<string>)
    ensures AllDifferent(Unique(codes))
    ensures forall c :: c in Unique(codes) <==> c in codes
    ensures codes != [] ==> Unique(codes) != [] && Unique(codes)[0] == codes[0]
  {
    if codes != [] {
      UniqueIs(codes[..|codes| - 1]);
      assert codes == codes[..|codes| - 1] + [codes[|codes| - 1]];
    }
  }

  lemma {:induction false} OneTarget(rows: Rows, codes: seq<string>, code: string, d: string)
    requires WellFormed(rows) && IsTarget(rows, codes, code) && d in codes && d != code
    ensures !IsTarget(rows, codes, d) && (d in rows ==> !rows[d].primary)
  {
    assert d in rows ==> !DeadPrimary(rows, d);
    assert d in rows && rows[d].primary ==> IsPrimary(rows, d);
  }

  lemma {:induction false} DifferentAt(codes: seq<string>, k: nat)
    requires AllDifferent(codes) && k <= |codes|
    ensures k > 0 ==> forall i | 0 <= i < |codes| && i != k - 1 :: codes[i] != codes[k - 1]
  {
  }

  lemma {:induction false} ReplaceLoop(rows: Rows, codes: seq<string>, k: nat)
    requires WellFormed(rows) && AllDifferent(codes) && k <= |codes|
    ensures var p := ReplaceUpto(rows, codes, k);
      && p.Some?
      && (forall i | 0 <= i < k :: codes[i] in p.value && p.value[codes[i]] == UserRole(true, IsTarget(rows, codes, codes[i])))
      && (forall i | k <= i < |codes| && codes[i] in rows :: codes[i] in p.value && p.value[codes[i]] == rows[codes[i]])
      && (forall i | k <= i < |codes| && codes[i] !in rows :: codes[i] !in p.value)
      && (forall c | c in p.value :: c in codes)
  {
    hide IsTarget, WellFormed, AllDifferent;
    DifferentAt(codes, k);
    if k > 0 {
      ReplaceLoop(rows, codes, k - 1);
      var p, code := ReplaceUpto(rows, codes, k - 1).value, codes[k - 1];
      if IsTarget(rows, codes, code) {
        forall d | d in p && d != code ensures !p[d].primary {
          var i :| 0 <= i < |codes| && codes[i] == d;
          OneTarget(rows, codes, code, d);
        }
      }
    }
  }

  /** Replacing a user's roles fails only for an unknown code; otherwise the user has exactly the roles
      asked for, all live, with one primary: the one there was if it stays, or else the first. */
  lemma {:induction false} ReplaceResult(rows: Rows, codes: seq<string>, known: set<string>)
    requires WellFormed(rows)
    ensures var after := Replace(rows, codes, known);
      && (after == None <==> exists c :: c in codes && c !in known)
      && (after.Some? ==> WellFormed(after.value) && forall c :: (c in codes <==> c in after.value) && (c in codes <==> IsLive(after.value, c)))
      && (after.Some? ==> forall c | c in codes :: IsPrimary(rows, c) ==> OnlyPrimary(after.value, c))
      && (after.Some? && codes != [] && !PrimaryAmong(rows, codes) ==> OnlyPrimary(after.value, codes[0]))
  {
    var unique := Unique(codes);
    UniqueIs(codes);
    ReplaceLoop(rows, unique, |unique|);
    assert PrimaryAmong(rows, unique) <==> PrimaryAmong(rows, codes);
    if !exists c :: c in codes && c !in known {
      var after := Replace(rows, codes, known).value;
      forall c ensures c in codes <==> c in after
        ensures c in codes ==> after[c] == UserRole(true, IsTarget(rows, unique, c))
      {
        if c in unique {
          var i :| 0 <= i < |unique| && unique[i] == c;
        }
      }
    }
  }

  // ----- syncing twice -----

  lemma {:induction false} SyncSettled(rows: Rows, codes: seq<string>)
    requires Constrained(rows) && forall c | c in codes :: IsLive(rows, c)
    ensures SyncUpto(rows, true, codes) == Some((rows, true))
  {
    if codes != [] {
      var code := codes[|codes| - 1];
      assert forall c | c in codes[..|codes| - 1] :: c in codes;
      SyncSettled(rows, codes[..|codes| - 1]);
      assert code in codes;
      assert rows[code := rows[code]] == rows;
    }
  }

  lemma {:induction false} SyncTwice(rows: Rows, codes: seq<string>)
    requires Constrained(rows) && codes != [] && AllDifferent(codes) && Sync(rows, codes).Some?
    ensures var after := Sync(rows, codes).value; Constrained(after) && Sync(after, codes) == Some(after)
  {
    var after := Sync(rows, codes).value;
    if dead :| DeadPrimary(rows, dead) {
      DeadPrimaryFails(rows, codes, dead);
      assert IsPrimary(after, dead);
    } else {
      assert WellFormed(rows);
      SyncResult(rows, codes);
      assert exists c :: OnlyPrimary(after, c);
      assert HasPrimary(after);
    }
    SyncSettled(after, codes);
  }

  /** Syncing the same realm roles again changes nothing. */
  lemma {:induction false} SyncFromRealmTwice(rows: Rows, realm: set<string>, active: set<string>)
    requires Constrained(rows) && SyncFromRealm(rows, realm, active).Some?
    ensures var after := SyncFromRealm(rows, realm, active).value;
      Constrained(after) && SyncFromRealm(after, realm, active) == Some(after)
  {
    MapRolesIs(realm, active);
    if MapRoles(realm, active) != [] {
      SyncTwice(rows, MapRoles(realm, active));
    } else {
      EnsureDefaultResult(rows, active);
    }
  }

  /** After a login's sync every mapped role is live, and a user has a role. */
  lemma {:induction false} SyncFromRealmKeeps(rows: Rows, realm: set<string>, active: set<string>)
    requires WellFormed(rows)
    ensures var after := SyncFromRealm(rows, realm, active);
      && (after == None <==> MapRoles(realm, active) == [] && !HasRole(rows) && STUDENT !in active)
      && (after.Some? ==> WellFormed(after.value) && HasRole(after.value))
      && (after.Some? ==> forall c :: c in MapRoles(realm, active) || IsLive(rows, c) ==> IsLive(after.value, c))
  {
    var codes := MapRoles(realm, active);
    if codes != [] {
      SyncResult(rows, codes);
      assert codes[0] in codes;
    } else {
      EnsureDefaultResult(rows, active);
    }
  }

  // ----- the mapping -----

  predicate Hit(table: seq<(string, seq<string>)>, realm: set<string>, active: set<string>, i: nat)
    requires i < |table|
  {
    table[i].0 in realm && FirstActive(table[i].1, active).Some?
  }

  function CodeAt(table: seq<(string, seq<string>)>, active: set<string>, i: nat): Option<string>
    requires i < |table|
  {
    FirstActive(table[i].1, active)
  }

  lemma {:induction false} MapUptoIs(table: seq<(string, seq<string>)>, realm: set<string>, active: set<string>)
    ensures var codes := MapUpto(table, realm, active);
      && AllDifferent(codes)
      && (forall code :: code in codes <==>
            exists i :: 0 <= i < |table| && Hit(table, realm, active, i) && CodeAt(table, active, i) == Some(code))
      && (forall i | 0 <= i < |table| && Hit(table, realm, active, i) && (forall j | 0 <= j < i :: !Hit(table, realm, active, j)) ::
            codes != [] && CodeAt(table, active, i) == Some(codes[0]))
  {
    hide FirstActive;
    if table != [] {
      var n := |table| - 1;
      var before, codes := MapUpto(table[..n], realm, active), MapUpto(table, realm, active);
      MapUptoIs(table[..n], realm, active);
      assert forall i | 0 <= i < n :: table[..n][i] == table[i];
      assert forall i | 0 <= i < n :: Hit(table[..n], realm, active, i) == Hit(table, realm, active, i)
                                      && CodeAt(table[..n], active, i) == CodeAt(table, active, i);
      forall code ensures code in codes <==>
        exists i :: 0 <= i < |table| && Hit(table, realm, active, i) && CodeAt(table, active, i) == Some(code)
      {
        if code in before {
          var i :| 0 <= i < n && Hit(table[..n], realm, active, i) && CodeAt(table[..n], active, i) == Some(code);
          assert Hit(table, realm, active, i);
        } else if code in codes {
          assert Hit(table, realm, active, n) && CodeAt(table, active, n) == Some(code);
        }
        if i :| 0 <= i < |table| && Hit(table, realm, active, i) && CodeAt(table, active, i) == Some(code) {
          assert i < n ==> Hit(table[..n], realm, active, i);
        }
      }
      if before != [] {
        assert codes[0] == before[0];
        assert before[0] in before;
      }
    }
  }

  /** The role codes of a login: for each of its realm roles that has an active candidate the first such
      candidate, each once; the first code, which may become primary, is that of the first such role. */
  lemma {:induction false} MapRolesIs(realm: set<string>, active: set<string>)
    ensures var codes := MapRoles(realm, active); var table := REALM_ROLE_CODES;
      && AllDifferent(codes)
      && (forall code :: code in codes <==>
            exists i :: 0 <= i < |table| && Hit(table, realm, active, i) && CodeAt(table, active, i) == Some(code))
      && (forall i | 0 <= i < |table| && Hit(table, realm, active, i) && (forall j | 0 <= j < i :: !Hit(table, realm, active, j)) ::
            codes != [] && CodeAt(table, active, i) == Some(codes[0]))
  {
    MapUptoIs(REALM_ROLE_CODES, realm, active);
  }

  /** The first active one of at most three codes. */
  function Pick(active: set<string>, first: string, second: string, third: string): seq<string> {
    if first in active then [first] else if second in active then [second] else if third in active then [third] else []
  }

  /** Which realm role gives which code, spelled out. */
  function RealmCodes(realm: set<string>, active: set<string>): seq<string> {
    (if "student" in realm then Pick(active, "student", "ATTENDEE", "ATTENDEE") else [])
    + (if "organizer" in realm then Pick(active, "organizer", "ORGANIZER", "ORGANIZER") else [])
    + (if "super_admin" in realm then Pick(active, "system_admin", "SYS_ADMIN", "admin") else [])
  }

  lemma {:induction false} FirstOfTwo(a: string, b: string, active: set<string>)
    ensures FirstActive([a, b], active) == if a in active then Some(a) else if b in active then Some(b) else None
  {
    assert [a, b][1..] == [b] && [b][1..] == [];
    assert FirstActive([b], active) == if b in active then Some(b) else None;
  }

  lemma {:induction false} FirstOfThree(a: string, b: string, c: string, active: set<string>)
    ensures FirstActive([a, b, c], active)
            == if a in active then Some(a) else if b in active then Some(b) else if c in active then Some(c) else None
  {
    assert [a, b, c][1..] == [b, c];
    FirstOfTwo(b, c, active);
  }

  /** The mapping's three entries. */
  lemma {:induction false} MapRolesAre(realm: set<string>, active: set<string>)
    ensures MapRoles(realm, active) == RealmCodes(realm, active)
  {
    hide FirstActive;
    var table := REALM_ROLE_CODES;
    FirstOfTwo("student", "ATTENDEE", active);
    FirstOfTwo("organizer", "ORGANIZER", active);
    FirstOfThree("system_admin", "SYS_ADMIN", "admin", active);
    assert table[..2][..1] == table[..1] && table[..1][..0] == [] && table[..3] == table;
    assert MapUpto(table[..1], realm, active) == if "student" in realm then Pick(active, "student", "ATTENDEE", "ATTENDEE") else [];
    assert MapUpto(table[..2], realm, active)
        == (if "student" in realm then Pick(active, "student", "ATTENDEE", "ATTENDEE") else [])
           + (if "organizer" in realm then Pick(active, "organizer", "ORGANIZER", "ORGANIZER") else []);
  }

  /** The role rows a login leaves: the roles that were live and those its realm roles give, or student for a
      user who would have none; the primary role there was, or else the first of these. */
  lemma {:induction false} LoginRoles(rows: Rows, realm: set<string>, active: set<string>)
    requires WellFormed(rows)
    ensures var after := SyncFromRealm(rows, realm, active); var codes := RealmCodes(realm, active);
      var none := codes == [] && forall c | c in rows :: !rows[c].live;
      && (after == None <==> none && "student" !in active)
      && (after.Some? ==> forall c :: IsLive(after.value, c) <==> IsLive(rows, c) || c in codes || (none && c == "student"))
      && (after.Some? ==> forall c :: IsPrimary(rows, c) ==> OnlyPrimary(after.value, c))
      && (after.Some? && none ==> OnlyPrimary(after.value, "student"))
      && (after.Some? && codes != [] && (forall c | c in rows :: !IsPrimary(rows, c)) ==> OnlyPrimary(after.value, codes[0]))
      && (after.Some? && codes == [] && !none ==> after.value == rows)
  {
    hide RealmCodes, MapRoles, Sync, EnsureDefault, WellFormed;
    MapRolesAre(realm, active);
    var codes := RealmCodes(realm, active);
    assert (forall c | c in rows :: !rows[c].live) <==> !HasRole(rows) by {
      assert forall c :: c in rows && rows[c].live ==> IsLive(rows, c);
    }
    if codes != [] {
      SyncResult(rows, codes);
    } else {
      DefaultRoles(rows, active);
    }
  }

  lemma {:induction false} DefaultRoles(rows: Rows, active: set<string>)
    requires WellFormed(rows)
    ensures var after := EnsureDefault(rows, active);
      && (after == None <==> !HasRole(rows) && STUDENT !in active)
      && (HasRole(rows) ==> after == Some(rows))
      && (after.Some? && !HasRole(rows) ==> OnlyPrimary(after.value, STUDENT) && forall c :: IsLive(after.value, c) <==> c == STUDENT)
      && (!HasRole(rows) ==> forall c :: !IsLive(rows, c) && !IsPrimary(rows, c))
      && (forall c, d :: IsPrimary(rows, c) && IsPrimary(rows, d) ==> c == d)
  {
    EnsureDefaultResult(rows, active);
  }

  /** The candidate at `i` is the code, active, and all before it are not. */
  predicate FirstAt(candidates: seq<string>, active: set<string>, code: string, i: nat) {
    i < |candidates| && candidates[i] == code && code in active && forall j | 0 <= j < i :: candidates[j] !in active
  }

  ghost predicate IsFirst(candidates: seq<string>, active: set<string>, code: string) {
    exists i: nat :: FirstAt(candidates, active, code, i)
  }

  lemma {:induction false} FirstLater(candidates: seq<string>, active: set<string>, code: string)
    requires candidates != [] && candidates[0] !in active && IsFirst(candidates[1..], active, code)
    ensures IsFirst(candidates, active, code)
  {
    var i: nat :| FirstAt(candidates[1..], active, code, i);
    forall j | 0 <= j < i + 1 ensures candidates[j] !in active {
      if j > 0 { assert candidates[1..][j - 1] == candidates[j]; }
    }
    assert FirstAt(candidates, active, code, i + 1);
  }

  lemma {:induction false} FirstNow(candidates: seq<string>, active: set<string>)
    requires candidates != [] && candidates[0] in active
    ensures IsFirst(candidates, active, candidates[0])
  {
    assert FirstAt(candidates, active, candidates[0], 0);
  }

  lemma {:induction false} FirstActiveIs(candidates: seq<string>, active: set<string>)
    ensures match FirstActive(candidates, active)
            case None => forall c | c in candidates :: c !in active
            case Some(code) => IsFirst(candidates, active, code)
  {
    hide IsFirst;
    if candidates != [] && candidates[0] !in active {
      FirstActiveIs(candidates[1..], active);
      assert candidates == [candidates[0]] + candidates[1..];
      if FirstActive(candidates[1..], active).Some? {
        FirstLater(candidates, active, FirstActive(candidates[1..], active).value);
      }
    } else if candidates != [] {
      FirstNow(candidates, active);
    }
  }
}
