/** The role and organizer request services as code that updates its tables in place. A method that
    raises leaves the tables as they were, as its transaction does. */
module RoleService {
  import opened Text
  import opened Roles
  import opened OrganizerRequests

  /** The first active candidate of each realm role the login has, found by two loops. */
  method MapRealmRolesToLocalCodes(realm: set<string>, active: set<string>) returns (codes: seq<string>)
    ensures codes == MapRoles(realm, active)
  {
    codes := [];
    var seen: set<string> := {};
    for i := 0 to |REALM_ROLE_CODES|
      invariant codes == MapUpto(REALM_ROLE_CODES[..i], realm, active)
      invariant forall c :: c in seen <==> c in codes
    {
      assert REALM_ROLE_CODES[..i + 1][..i] == REALM_ROLE_CODES[..i];
      var (name, candidates) := REALM_ROLE_CODES[i];
      if name !in realm {
        continue;
      }
      var role := FindActive(candidates, active);
      if role.Some? && role.value !in seen {
        codes := codes + [role.value];
        seen := seen + {role.value};
      }
    }
    assert REALM_ROLE_CODES[..|REALM_ROLE_CODES|] == REALM_ROLE_CODES;
  }

  method FindActive(candidates: seq<string>, active: set<string>) returns (role: Option<string>)
    ensures role == FirstActive(candidates, active)
  {
    role := None;
    for i := 0 to |candidates|
      invariant FirstActive(candidates, active) == FirstActive(candidates[i..], active)
    {
      if candidates[i] in active {
        return Some(candidates[i]);
      }
    }
  }

  method Dedupe(codes: seq<string>) returns (unique: seq<string>)
    ensures unique == Unique(codes)
  {
    unique := [];
    for i := 0 to |codes|
      invariant unique == Unique(codes[..i])
    {
      assert codes[..i + 1][..i] == codes[..i];
      if codes[i] !in unique {
        unique := unique + [codes[i]];
      }
    }
    assert codes[..|codes|] == codes;
  }

  lemma {:induction false} SaveKeepsConstraint(rows: Rows, code: string, row: UserRole)
    requires Constrained(rows)
    ensures Save(rows, code, row).Some? ==> Constrained(Save(rows, code, row).value)
    ensures code in rows && (row.primary ==> rows[code].primary) ==> Save(rows, code, row).Some?
    ensures code in rows && row == rows[code] ==> Save(rows, code, row) == Some(rows)
  {
    assert code in rows ==> rows[code := rows[code]] == rows;
  }

  /** The constraint of the role table. */
  ghost predicate TableOk(s: Store) {
    forall u: nat :: Constrained(RowsOf(s, u))
  }

  /** Writing one user's constrained rows keeps it. */
  lemma {:induction false} StoreKept(s: Store, user: nat, rows: Rows)
    requires Constrained(rows) && TableOk(s)
    ensures TableOk(s.(roles := s.roles[user := rows]))
  {
    hide Constrained;
    var s' := s.(roles := s.roles[user := rows]);
    assert forall u: nat :: RowsOf(s', u) == if u == user then rows else RowsOf(s, u);
  }

  lemma {:induction false} SameRoles(s: Store, s': Store)
    requires TableOk(s) && s'.roles == s.roles
    ensures TableOk(s')
  {
    hide Constrained;
    assert forall u: nat :: RowsOf(s', u) == RowsOf(s, u);
  }

  class Service {
    var requests: seq<Request>
    var roles: map<nat, Rows>

    constructor ()
      ensures Tables() == EMPTY && Valid()
    {
      requests, roles := [], map[];
    }

    function Tables(): Store
      reads this
    {
      Store(requests, roles)
    }

    ghost predicate Valid()
      reads this
    {
      TableOk(Tables())
    }

    /** The loop over role codes with its `has_primary_role` flag. The rows of these codes are read once,
        before the loop. */
    method EnsureUserRoles(user: nat, codes: seq<string>) returns (ok: bool)
      requires Valid() && AllDifferent(codes)
      modifies this`roles
      ensures var after := Sync(RowsOf(old(Tables()), user), codes);
        ok == after.Some? && roles == if ok then old(roles)[user := after.value] else old(roles)
      ensures Valid()
    {
      hide Save, SyncUpto;
      var rows := RowsOf(Tables(), user);
      ghost var was, started := rows, HasPrimary(rows);
      var existing := map c | c in rows && c in codes :: rows[c];
      var hasPrimary := HasPrimary(rows);
      SyncNone(was, started);
      for i := 0 to |codes|
        invariant roles == old(roles)
        invariant SyncUpto(was, started, codes[..i]) == Some((rows, hasPrimary)) && Constrained(rows)
        invariant forall k | i <= k < |codes| :: (codes[k] in rows <==> codes[k] in existing)
        invariant forall k | i <= k < |codes| && codes[k] in existing :: rows[codes[k]] == existing[codes[k]]
      {
        var code, isPrimary := codes[i], !hasPrimary;
        SyncNext(was, started, codes, i);
        var dirty, row := true, UserRole(true, isPrimary);
        if code !in existing {
          hasPrimary := true;
        } else {
          dirty, row := false, existing[code];
          if !row.live {
            dirty, row := true, row.(live := true);
          }
          if isPrimary && !row.primary {
            dirty, row := true, row.(primary := true);
            hasPrimary := true;
          }
        }
        SaveKeepsConstraint(rows, code, row);
        if dirty {
          var saved := Save(rows, code, row);
          if saved.None? {
            FailureStays(was, started, codes, i + 1);
            return false;
          }
          SavedRow(rows, code, row);
          rows := saved.value;
        }
      }
      assert codes[..|codes|] == codes;
      StoreKept(Tables(), user, rows);
      roles := roles[user := rows];
      ok := true;
    }

    method EnsureDefaultStudentRole(user: nat, active: set<string>) returns (ok: bool)
      requires Valid()
      modifies this`roles
      ensures var after := EnsureDefault(RowsOf(old(Tables()), user), active);
        ok == after.Some? && RowsOf(Tables(), user) == if ok then after.value else RowsOf(old(Tables()), user)
      ensures forall u: nat | u != user :: RowsOf(Tables(), u) == RowsOf(old(Tables()), u)
      ensures Valid()
    {
      var rows := RowsOf(Tables(), user);
      if HasRole(rows) {
        return true;
      }
      if STUDENT !in active {
        return false;
      }
      var row := if STUDENT in rows then rows[STUDENT].(live := true, primary := true) else UserRole(true, true);
      var saved := Save(rows, STUDENT, row);
      if saved.None? {
        return false;
      }
      roles := roles[user := saved.value];
      ok := true;
    }

    method SyncRolesFromPayload(user: nat, realm: set<string>, active: set<string>) returns (ok: bool)
      requires Valid()
      modifies this`roles
      ensures var after := SyncFromRealm(RowsOf(old(Tables()), user), realm, active);
        ok == after.Some? && RowsOf(Tables(), user) == if ok then after.value else RowsOf(old(Tables()), user)
      ensures forall u: nat | u != user :: RowsOf(Tables(), u) == RowsOf(old(Tables()), u)
      ensures Valid()
    {
      var codes := MapRealmRolesToLocalCodes(realm, active);
      MapRolesIs(realm, active);
      FromRealmKeepsConstraint(RowsOf(Tables(), user), realm, active);
      if codes != [] {
        ok := EnsureUserRoles(user, codes);
      } else {
        ok := EnsureDefaultStudentRole(user, active);
      }
    }

    /** An administrator's new list of roles for a user. */
    method ReplaceUserRoles(user: nat, roleCodes: seq<string>, known: set<string>) returns (ok: bool)
      requires Valid()
      modifies this`roles
      ensures var after := Replace(RowsOf(old(Tables()), user), roleCodes, known);
        ok == after.Some? && roles == if ok then old(roles)[user := after.value] else old(roles)
      ensures Valid()
    {
      hide Save, ReplaceUpto;
      ghost var was := RowsOf(Tables(), user);
      var codes := Dedupe(roleCodes);
      UniqueIs(roleCodes);
      if exists c :: c in codes && c !in known {
        return false;
      }
      var rows := RowsOf(Tables(), user);
      var target := if codes == [] then None else Some(codes[0]);
      if PrimaryAmong(rows, codes) {
        var primary :| primary in codes && IsPrimary(rows, primary);
        target := Some(primary);
      }
      rows := map c | c in rows && c in codes :: rows[c];
      ReplaceNone(was, codes);
      for i := 0 to |codes|
        invariant roles == old(roles)
        invariant ReplaceUpto(was, codes, i) == Some(rows) && Constrained(rows)
      {
        var code := codes[i];
        ReplaceNext(was, codes, i);
        assert IsTarget(was, codes, code) <==> target == Some(code);
        var row := UserRole(true, target == Some(code));
        SaveKeepsConstraint(rows, code, row);
        if code !in rows || rows[code] != row {
          var saved := Save(rows, code, row);
          if saved.None? {
            ReplaceFailureStays(was, codes, i + 1, |codes|);
            return false;
          }
          rows := saved.value;
        }
      }
      StoreKept(Tables(), user, rows);
      roles := roles[user := rows];
      ok := true;
    }

    method AssignUserRole(user: nat, code: string, known: set<string>) returns (ok: bool)
      requires Valid()
      modifies this`roles
      ensures var after := Assign(RowsOf(old(Tables()), user), code, known);
        ok == after.Some? && roles == if ok then old(roles)[user := after.value] else old(roles)
      ensures Valid()
    {
      var rows := RowsOf(Tables(), user);
      if code !in known || IsLive(rows, code) || code in rows {
        return false;
      }
      var saved := Save(rows, code, UserRole(true, !HasRole(rows)));
      if saved.None? {
        return false;
      }
      SaveKeepsConstraint(rows, code, UserRole(true, !HasRole(rows)));
      StoreKept(Tables(), user, saved.value);
      roles := roles[user := saved.value];
      ok := true;
    }

    method RemoveUserRole(user: nat, code: string, known: set<string>) returns (ok: bool)
      requires Valid()
      modifies this`roles
      ensures var after := Remove(RowsOf(old(Tables()), user), code, known);
        ok == after.Some? && roles == if ok then old(roles)[user := after.value] else old(roles)
      ensures Valid()
    {
      var rows := RowsOf(Tables(), user);
      if code !in known || !IsLive(rows, code) || rows[code].primary {
        return false;
      }
      rows := rows[code := rows[code].(live := false)];
      StoreKept(Tables(), user, rows);
      roles := roles[user := rows];
      ok := true;
    }

    method CreateRequest(actor: nat, banned: bool) returns (ok: bool)
      requires Valid()
      modifies this`requests
      ensures var after := Create(old(Tables()), actor, banned);
        ok == after.Some? && Tables() == if ok then after.value else old(Tables())
      ensures Valid()
    {
      if banned || IsLive(RowsOf(Tables(), actor), ORGANIZER) {
        return false;
      }
      for i := 0 to |requests|
        invariant requests == old(requests)
        invariant forall k | 0 <= k < i :: !(requests[k].user == actor && requests[k].status == Pending)
      {
        if requests[i].user == actor && requests[i].status == Pending {
          return false;
        }
      }
      requests := requests + [Request(actor, Pending, None, "")];
      SameRoles(old(Tables()), Tables());
      ok := true;
    }

    method CancelRequest(actor: nat, id: nat) returns (ok: bool)
      requires Valid()
      modifies this`requests
      ensures var after := Cancel(old(Tables()), actor, id);
        ok == after.Some? && Tables() == if ok then after.value else old(Tables())
      ensures Valid()
    {
      if id >= |requests| || requests[id].user != actor || requests[id].status != Pending {
        return false;
      }
      requests := requests[id := requests[id].(status := Cancelled)];
      SameRoles(old(Tables()), Tables());
      ok := true;
    }

    method ApproveRequest(actor: nat, id: nat, note: string, active: set<string>) returns (ok: bool)
      requires Valid()
      modifies this
      ensures var after := Approve(old(Tables()), actor, id, note, active);
        ok == after.Some? && Tables() == if ok then after.value else old(Tables())
      ensures Valid()
    {
      if id >= |requests| || requests[id].status != Pending || ORGANIZER !in active {
        return false;
      }
      var request := requests[id];
      var rows := RowsOf(Tables(), request.user);
      ghost var was := rows;
      MakeOrganizerResult(was);
      rows := WithoutOtherPrimaries(rows, ORGANIZER);
      if ORGANIZER !in rows {
        rows := rows[ORGANIZER := UserRole(true, true)];
      } else {
        var row := rows[ORGANIZER];
        if !row.live {
          row := row.(live := true);
        }
        if !row.primary {
          row := row.(primary := true);
        }
        rows := rows[ORGANIZER := row];
      }
      assert rows == MakeOrganizer(was);
      roles := roles[request.user := rows];
      request := request.(status := Approved);
      request := request.(reviewer := Some(actor));
      request := request.(note := note);
      requests := requests[id := request];
      ok := true;
      forall u: nat ensures Constrained(RowsOf(Tables(), u)) {
        assert u != request.user ==> RowsOf(Tables(), u) == RowsOf(old(Tables()), u);
      }
    }

    method RejectRequest(actor: nat, id: nat, note: string) returns (ok: bool)
      requires Valid()
      modifies this`requests
      ensures var after := Reject(old(Tables()), actor, id, note);
        ok == after.Some? && Tables() == if ok then after.value else old(Tables())
      ensures Valid()
    {
      if id >= |requests| || requests[id].status != Pending {
        return false;
      }
      var request := requests[id];
      request := request.(status := Rejected);
      request := request.(reviewer := Some(actor));
      request := request.(note := note);
      requests := requests[id := request];
      SameRoles(old(Tables()), Tables());
      ok := true;
    }
  }

  lemma {:induction false} SyncNone(rows: Rows, hasPrimary: bool)
    ensures forall codes: seq<string> :: SyncUpto(rows, hasPrimary, codes[..0]) == Some((rows, hasPrimary))
  {
  }

  lemma {:induction false} SyncNext(rows: Rows, hasPrimary: bool, codes: seq<string>, i: nat)
    requires i < |codes|
    ensures SyncUpto(rows, hasPrimary, codes[..i + 1])
            == match SyncUpto(rows, hasPrimary, codes[..i])
               case None => None
               case Some(p) => SyncOne(p.0, p.1, codes[i])
  {
    assert codes[..i + 1][..i] == codes[..i];
  }

  lemma {:induction false} SavedRow(rows: Rows, code: string, row: UserRole)
    requires Save(rows, code, row).Some?
    ensures var saved := Save(rows, code, row).value;
      forall c | c != code :: (c in saved <==> c in rows) && (c in rows ==> saved[c] == rows[c])
  {
  }

  lemma {:induction false} ReplaceNone(rows: Rows, codes: seq<string>)
    ensures ReplaceUpto(rows, codes, 0) == Some(map c | c in rows && c in codes :: rows[c])
  {
  }

  lemma {:induction false} ReplaceNext(rows: Rows, codes: seq<string>, i: nat)
    requires i < |codes|
    ensures ReplaceUpto(rows, codes, i + 1)
            == match ReplaceUpto(rows, codes, i)
               case None => None
               case Some(p) => Save(p, codes[i], UserRole(true, IsTarget(rows, codes, codes[i])))
  {
  }

  lemma {:induction false} ReplaceFailureStays(rows: Rows, codes: seq<string>, i: nat, k: nat)
    requires i <= k <= |codes| && ReplaceUpto(rows, codes, i) == None
    ensures ReplaceUpto(rows, codes, k) == None
    decreases k
  {
    if i < k {
      ReplaceFailureStays(rows, codes, i, k - 1);
    }
  }

  lemma {:induction false} FromRealmKeepsConstraint(rows: Rows, realm: set<string>, active: set<string>)
    requires Constrained(rows)
    ensures SyncFromRealm(rows, realm, active).Some? ==> Constrained(SyncFromRealm(rows, realm, active).value)
  {
    if SyncFromRealm(rows, realm, active).Some? {
      SyncFromRealmTwice(rows, realm, active);
    }
  }
}
