/** Organizer requests (apps/organizer_requests/services.py) together with every step that changes role
    rows: logins, approval, and the administrators' assigning, removing and replacing of roles. */
module OrganizerRequests {
  import opened Text
  import opened Roles

  datatype Status = Pending | Approved | Rejected | Cancelled

  datatype Request = Request(user: nat, status: Status, reviewer: Option<nat>, note: string)

  /** Requests in order of creation, identified by position, and role rows by user. */
  datatype Store = Store(requests: seq<Request>, roles: map<nat, Rows>)

  const EMPTY := Store([], map[])

  function RowsOf(s: Store, user: nat): Rows {
    if user in s.roles then s.roles[user] else map[]
  }

  predicate IsPending(s: Store, user: nat) {
    exists i :: 0 <= i < |s.requests| && s.requests[i].user == user && s.requests[i].status == Pending
  }

  // ----- the operations; None where the service raises -----

  function Create(s: Store, user: nat, banned: bool): Option<Store> {
    if banned || IsLive(RowsOf(s, user), ORGANIZER) || IsPending(s, user) then None
    else Some(s.(requests := s.requests + [Request(user, Pending, None, "")]))
  }

  function Cancel(s: Store, user: nat, id: nat): Option<Store> {
    if !(id < |s.requests| && s.requests[id].user == user && s.requests[id].status == Pending) then None
    else Some(s.(requests := s.requests[id := s.requests[id].(status := Cancelled)]))
  }

  function Review(s: Store, id: nat, status: Status, actor: nat, note: string): Store
    requires id < |s.requests|
  {
    s.(requests := s.requests[id := s.requests[id].(status := status, reviewer := Some(actor), note := note)])
  }

  function Approve(s: Store, actor: nat, id: nat, note: string, active: set<string>): Option<Store> {
    if !(id < |s.requests| && s.requests[id].status == Pending && ORGANIZER in active) then None
    else
      var user := s.requests[id].user;
      Some(Review(s, id, Approved, actor, note).(roles := s.roles[user := MakeOrganizer(RowsOf(s, user))]))
  }

  function Reject(s: Store, actor: nat, id: nat, note: string): Option<Store> {
    if !(id < |s.requests| && s.requests[id].status == Pending) then None
    else Some(Review(s, id, Rejected, actor, note))
  }

  /** The steps that change one user's role rows. */
  datatype RoleOp =
    | Login(realm: set<string>, active: set<string>)
    | AssignRole(code: string, known: set<string>)
    | RemoveRole(code: string, known: set<string>)
    | ReplaceRoles(codes: seq<string>, known: set<string>)

  function RoleStep(rows: Rows, op: RoleOp): Option<Rows> {
    match op
    case Login(realm, active) => SyncFromRealm(rows, realm, active)
    case AssignRole(code, known) => Assign(rows, code, known)
    case RemoveRole(code, known) => Remove(rows, code, known)
    case ReplaceRoles(codes, known) => Replace(rows, codes, known)
  }

  datatype Op =
    | DoCreate(user: nat, banned: bool)
    | DoCancel(user: nat, id: nat)
    | DoApprove(actor: nat, id: nat, note: string, active: set<string>)
    | DoReject(actor: nat, id: nat, note: string)
    | DoRoles(user: nat, op: RoleOp)

  function TryStep(s: Store, op: Op): Option<Store> {
    match op
    case DoCreate(user, banned) => Create(s, user, banned)
    case DoCancel(user, id) => Cancel(s, user, id)
    case DoApprove(actor, id, note, active) => Approve(s, actor, id, note, active)
    case DoReject(actor, id, note) => Reject(s, actor, id, note)
    case DoRoles(user, roleOp) =>
      match RoleStep(RowsOf(s, user), roleOp)
      case None => None
      case Some(rows) => Some(s.(roles := s.roles[user := rows]))
  }

  /** A refused step changes nothing. */
  function Step(s: Store, op: Op): Store {
    match TryStep(s, op)
    case None => s
    case Some(s') => s'
  }

  function Run(s: Store, ops: seq<Op>): Store {
    if ops == [] then s else Step(Run(s, ops[..|ops| - 1]), ops[|ops| - 1])
  }

  // ----- the invariant -----

  ghost predicate RolesOk(s: Store) {
    forall u: nat :: WellFormed(RowsOf(s, u))
  }

  predicate Clash(a: Request, b: Request) {
    a.user == b.user && a.status == Pending && b.status == Pending
  }

  ghost predicate Inv(s: Store) {
    RolesOk(s) && forall i, j | 0 <= i < j < |s.requests| :: !Clash(s.requests[i], s.requests[j])
  }

  predicate Standing(r: Request) {
    r.status == Pending || r.status == Approved
  }

  /** At most one request of a user is pending or approved, and an approved user has organizer as the
      primary role. */
  ghost predicate ApprovalHolds(s: Store) {
    && (forall i, j | 0 <= i < j < |s.requests| && s.requests[i].user == s.requests[j].user ::
          !(Standing(s.requests[i]) && Standing(s.requests[j])))
    && (forall i | 0 <= i < |s.requests| && s.requests[i].status == Approved ::
          IsPrimary(RowsOf(s, s.requests[i].user), ORGANIZER))
  }

  lemma {:induction false} RoleStepKeeps(rows: Rows, op: RoleOp)
    requires WellFormed(rows) && RoleStep(rows, op).Some?
    ensures WellFormed(RoleStep(rows, op).value)
    ensures (op.ReplaceRoles? ==> ORGANIZER in op.codes) && IsPrimary(rows, ORGANIZER)
            ==> IsPrimary(RoleStep(rows, op).value, ORGANIZER)
  {
    match op
    case Login(realm, active) => LoginKeepsPrimary(rows, realm, active);
    case AssignRole(code, known) => AssignKeeps(rows, code, known);
    case RemoveRole(code, known) => RemoveKeeps(rows, code, known);
    case ReplaceRoles(codes, known) => ReplaceResult(rows, codes, known);
  }

  lemma {:induction false} LoginKeepsPrimary(rows: Rows, realm: set<string>, active: set<string>)
    requires WellFormed(rows) && SyncFromRealm(rows, realm, active).Some?
    ensures WellFormed(SyncFromRealm(rows, realm, active).value)
    ensures forall c :: IsPrimary(rows, c) ==> IsPrimary(SyncFromRealm(rows, realm, active).value, c)
  {
    SyncFromRealmKeeps(rows, realm, active);
    var codes := MapRoles(realm, active);
    if codes != [] {
      SyncResult(rows, codes);
    } else {
      assert forall c :: IsPrimary(rows, c) ==> IsLive(rows, c) && c in rows;
    }
  }

  /** A step is a threat to approved organizers only if it replaces roles and leaves organizer out. */
  predicate KeepsOrganizer(op: Op) {
    op.DoRoles? && op.op.ReplaceRoles? ==> ORGANIZER in op.op.codes
  }

  /** A step on one user's rows that keeps them well formed keeps all rows, and approvals if it keeps
      that user's primary organizer role. */
  lemma {:induction false} RowsStepKeeps(s: Store, s': Store, user: nat)
    requires Inv(s) && s'.requests == s.requests && WellFormed(RowsOf(s', user))
    requires forall u: nat | u != user :: RowsOf(s', u) == RowsOf(s, u)
    ensures Inv(s')
    ensures ApprovalHolds(s) && (IsPrimary(RowsOf(s, user), ORGANIZER) ==> IsPrimary(RowsOf(s', user), ORGANIZER))
            ==> ApprovalHolds(s')
  {
    hide WellFormed, IsPrimary, RowsOf;
  }

  ghost predicate OrganizerOnly(s: Store, u: nat, user: nat) {
    u == user && WellFormed(RowsOf(s, u)) && IsPrimary(RowsOf(s, u), ORGANIZER)
  }

  /** A decision on one pending request. */
  lemma {:induction false} DecisionKeeps(s: Store, s': Store, id: nat)
    requires Inv(s) && id < |s.requests| && s.requests[id].status == Pending && |s'.requests| == |s.requests|
    requires forall i | 0 <= i < |s.requests| && i != id :: s'.requests[i] == s.requests[i]
    requires s'.requests[id].user == s.requests[id].user && s'.requests[id].status != Pending
    requires forall u: nat :: RowsOf(s', u) == RowsOf(s, u) || OrganizerOnly(s', u, s.requests[id].user)
    requires s'.requests[id].status == Approved ==> IsPrimary(RowsOf(s', s.requests[id].user), ORGANIZER)
    ensures Inv(s') && (ApprovalHolds(s) ==> ApprovalHolds(s'))
  {
    hide WellFormed, IsPrimary, RowsOf;
  }

  lemma {:induction false} CreateKeeps(s: Store, user: nat, banned: bool)
    requires Inv(s) && Create(s, user, banned).Some?
    ensures var s' := Create(s, user, banned).value; Inv(s') && (ApprovalHolds(s) ==> ApprovalHolds(s'))
  {
    hide WellFormed, IsPrimary, IsLive;
    PrimaryIsLive(RowsOf(s, user));
    var s' := Create(s, user, banned).value;
    assert forall u: nat :: RowsOf(s', u) == RowsOf(s, u);
  }

  lemma {:induction false} StepKeepsInv(s: Store, op: Op)
    requires Inv(s)
    ensures Inv(Step(s, op))
    ensures ApprovalHolds(s) && KeepsOrganizer(op) ==> ApprovalHolds(Step(s, op))
  {
    hide Inv, ApprovalHolds, RoleStep, MakeOrganizer, IsPrimary, WellFormed, Create;
    var s' := Step(s, op);
    if TryStep(s, op).Some? {
      match op
      case DoRoles(user, roleOp) =>
        InvRows(s, user);
        RoleStepKeeps(RowsOf(s, user), roleOp);
        RowsStepKeeps(s, s', user);
      case DoApprove(actor, id, note, active) =>
        MakeOrganizerResult(RowsOf(s, s.requests[id].user));
        DecisionKeeps(s, s', id);
      case DoCreate(user, banned) => CreateKeeps(s, user, banned);
      case DoCancel(user, id) => DecisionKeeps(s, s', id);
      case DoReject(actor, id, note) => DecisionKeeps(s, s', id);
    }
  }

  lemma {:induction false} InvRows(s: Store, user: nat)
    requires Inv(s)
    ensures WellFormed(RowsOf(s, user))
  {
  }

  lemma {:induction false} PrimaryIsLive(rows: Rows)
    ensures IsPrimary(rows, ORGANIZER) ==> IsLive(rows, ORGANIZER)
  {
  }

  lemma {:induction false} RunKeepsInv(s: Store, ops: seq<Op>)
    requires Inv(s)
    ensures Inv(Run(s, ops))
    ensures ApprovalHolds(s) && (forall i | 0 <= i < |ops| :: KeepsOrganizer(ops[i])) ==> ApprovalHolds(Run(s, ops))
  {
    hide Inv, ApprovalHolds, Step, KeepsOrganizer;
    if ops != [] {
      RunKeepsInv(s, ops[..|ops| - 1]);
      StepKeepsInv(Run(s, ops[..|ops| - 1]), ops[|ops| - 1]);
    }
  }

  /** In every run, removals and replacements of roles included: no deleted row is primary, each user
      has at most one primary role, and at most one pending request. */
  lemma {:induction false} EveryRunIsConsistent(ops: seq<Op>, user: nat, i: nat, j: nat)
    ensures var s := Run(EMPTY, ops);
      && WellFormed(RowsOf(s, user))
      && (i < j < |s.requests| ==> !Clash(s.requests[i], s.requests[j]))
  {
    RunKeepsInv(EMPTY, ops);
  }

  /** In every run whose replacements keep organizer, each user has at most one pending and at most one
      approved request, never both, and holds a live organizer role while one is approved. */
  lemma {:induction false} ApprovedAreOrganizers(ops: seq<Op>, i: nat, j: nat)
    requires forall k | 0 <= k < |ops| :: KeepsOrganizer(ops[k])
    ensures var s := Run(EMPTY, ops);
      && (i < j < |s.requests| && s.requests[i].user == s.requests[j].user ==>
            !(Standing(s.requests[i]) && Standing(s.requests[j])))
      && (i < |s.requests| && s.requests[i].status == Approved ==>
            IsLive(RowsOf(s, s.requests[i].user), ORGANIZER))
  {
    RunKeepsInv(EMPTY, ops);
    var s := Run(EMPTY, ops);
    if i < |s.requests| {
      PrimaryIsLive(RowsOf(s, s.requests[i].user));
    }
  }

  /** The one step that can take organizer from an approved user, exactly when it does. */
  lemma {:induction false} ReplacementBreaksApprovalIff(s: Store, user: nat, i: nat, codes: seq<string>,
                                                        known: set<string>)
    requires Inv(s) && ApprovalHolds(s) && i < |s.requests|
    requires s.requests[i].user == user && s.requests[i].status == Approved
    requires forall c | c in codes :: c in known
    ensures var s' := Step(s, DoRoles(user, ReplaceRoles(codes, known)));
      && (ApprovalHolds(s') <==> ORGANIZER in codes)
      && (ORGANIZER !in codes ==> Create(s', user, false).Some?)
  {
    var op := DoRoles(user, ReplaceRoles(codes, known));
    StepKeepsInv(s, op);
    var s' := Step(s, op);
    var rows := RowsOf(s, user);
    ReplaceResult(rows, codes, known);
    assert RowsOf(s', user) == Replace(rows, codes, known).value;
    assert s'.requests == s.requests;
    if ORGANIZER !in codes {
      assert !IsLive(RowsOf(s', user), ORGANIZER);
      forall j | 0 <= j < |s.requests| && s.requests[j].user == user ensures s.requests[j].status != Pending {
        assert Standing(s.requests[i]);
        assert j != i ==> !Standing(s.requests[j]);
      }
    }
  }

  /** A decision is final: once a request has left PENDING no run changes it again. */
  lemma {:induction false} DecisionIsFinal(s: Store, ops: seq<Op>, i: nat)
    requires i < |s.requests| && s.requests[i].status != Pending
    ensures i < |Run(s, ops).requests| && Run(s, ops).requests[i] == s.requests[i]
  {
    if ops != [] {
      DecisionIsFinal(s, ops[..|ops| - 1], i);
    }
  }

  /** What one approval does: the request is decided, its user's only primary role is organizer, and
      nothing else changes. */
  lemma {:induction false} ApproveResult(s: Store, actor: nat, id: nat, note: string, active: set<string>)
    ensures var after := Approve(s, actor, id, note, active);
      && (after == None <==> id >= |s.requests| || s.requests[id].status != Pending || ORGANIZER !in active)
      && (after.Some? ==> after.value.requests[id] == Request(s.requests[id].user, Approved, Some(actor), note))
      && (after.Some? ==> OnlyPrimary(RowsOf(after.value, s.requests[id].user), ORGANIZER))
      && (after.Some? ==> forall c :: IsLive(RowsOf(s, s.requests[id].user), c) ==> IsLive(RowsOf(after.value, s.requests[id].user), c))
      && (after.Some? ==> forall u: nat | u != s.requests[id].user :: RowsOf(after.value, u) == RowsOf(s, u))
      && (after.Some? ==> |after.value.requests| == |s.requests|)
      && (after.Some? ==> forall i | 0 <= i < |s.requests| && i != id :: after.value.requests[i] == s.requests[i])
  {
    if id < |s.requests| {
      MakeOrganizerResult(RowsOf(s, s.requests[id].user));
    }
  }

  /** A request is refused for the banned, for those who hold a live organizer role and while one of the
      user's is pending; otherwise a pending one is added at the end. */
  lemma {:induction false} CreateResult(s: Store, user: nat, banned: bool)
    ensures var after := Create(s, user, banned);
      && (after == None <==> banned || (user in s.roles && "organizer" in s.roles[user] && s.roles[user]["organizer"].live)
                             || exists i :: 0 <= i < |s.requests| && s.requests[i].user == user && s.requests[i].status == Pending)
      && (after.Some? ==> after.value == Store(s.requests + [Request(user, Pending, None, "")], s.roles))
  {
  }

  /** Only the requester can cancel a request and only while it is pending; nothing but its status changes. */
  lemma {:induction false} CancelResult(s: Store, user: nat, id: nat)
    ensures var after := Cancel(s, user, id);
      && (after == None <==> id >= |s.requests| || s.requests[id].user != user || s.requests[id].status != Pending)
      && (after.Some? ==> DecidedOnly(s, after.value, id))
      && (after.Some? ==> after.value.requests[id] == Request(user, Cancelled, s.requests[id].reviewer, s.requests[id].note))
  {
  }

  /** Anyone's request can be rejected, only while it is pending, with reviewer and note; no role changes. */
  lemma {:induction false} RejectResult(s: Store, actor: nat, id: nat, note: string)
    ensures var after := Reject(s, actor, id, note);
      && (after == None <==> id >= |s.requests| || s.requests[id].status != Pending)
      && (after.Some? ==> DecidedOnly(s, after.value, id))
      && (after.Some? ==> after.value.requests[id] == Request(s.requests[id].user, Rejected, Some(actor), note))
  {
  }

  /** The one request at `id` may differ, nothing else does. */
  predicate DecidedOnly(s: Store, s': Store, id: nat) {
    && id < |s.requests| == |s'.requests| && s'.roles == s.roles
    && forall i | 0 <= i < |s.requests| && i != id :: s'.requests[i] == s.requests[i]
  }
}
