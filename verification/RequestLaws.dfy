/** Who may do what, why the rest is refused, and what exactly an accepted request changes: field by field of the three
    tables, over all requests. */
module RequestLaws {
  import opened Text
  import opened Tenancy
  import opened MembershipLaws
  import opened ManagerLaws

  // ---------------------------------------------------------------- who may do what

  /** An active seat in this role. */
  predicate SitsAs(s: State, u: nat, w: nat, role: Role) {
    (u, w) in s.seats && s.seats[(u, w)].status == Active && s.seats[(u, w)].role == role
  }

  predicate SitsActive(s: State, u: nat, w: nat) {
    (u, w) in s.seats && s.seats[(u, w)].status == Active
  }

  predicate Controls(s: State, u: nat, w: nat) {
    SitsAs(s, u, w, Owner) || SitsAs(s, u, w, Admin)
  }

  predicate RoleIs(s: State, u: nat, w: nat, role: Role) {
    (u, w) in s.seats && s.seats[(u, w)].role == role
  }

  predicate KindIs(s: State, w: nat, kind: Kind) {
    w in s.workspaces && s.workspaces[w].kind == kind
  }

  /** Two different users control the workspace. */
  ghost predicate TwoControl(s: State, w: nat) {
    exists u, v :: u != v && Controls(s, u, w) && Controls(s, v, w)
  }

  /** What the code demands of each request. */
  ghost predicate Allowed(s: State, op: Op) {
    match op
    case OpRegister(u, ulid, personal) =>
      && u !in s.users
      && (forall v :: v in s.users ==> s.users[v].billing != "bill_" + ulid)
      && (personal.Some? ==> personal.value !in s.workspaces)
    case OpCreate(u, w, _) => u in s.users && w !in s.workspaces
    case OpDelete(u, w) => SitsAs(s, u, w, Owner) && KindIs(s, w, Shared)
    case OpInvites(u, w, _) => Controls(s, u, w)
    case OpProjectInvite(u, w, invite, ownerKey, v) =>
      && Controls(s, u, w)
      && invite.invitee in s.users
      && (if KindIs(s, w, Personal) then ownerKey != "" && v !in s.workspaces && invite.invitee != u
          else (invite.invitee, w) !in s.seats)
    case OpUpdateRole(u, w, target, role) =>
      Controls(s, u, w) && (target, w) in s.seats && !RoleIs(s, target, w, Owner) && role != Owner
    case OpRemove(u, w, target) =>
      && (target, w) in s.seats
      && !RoleIs(s, target, w, Owner)
      && (SitsAs(s, u, w, Owner) || (SitsAs(s, u, w, Admin) && !RoleIs(s, target, w, Admin)))
    case OpChangeRole(u, w, target, action) =>
      && Controls(s, u, w)
      && (target, w) in s.seats
      && (action == Demote && (RoleIs(s, target, w, Owner) || RoleIs(s, target, w, Admin)) ==> TwoControl(s, w))
    case OpInitBilling(u, w, ulid) =>
      && Controls(s, u, w)
      && (w in s.workspaces && s.workspaces[w].billing == None
          ==> forall v :: v in s.workspaces ==> s.workspaces[v].billing != Some("ws_bill_" + ulid))
    case OpReconcile(u, w, _) => Controls(s, u, w)
  }

  lemma ManagesIsControls(s: State, u: nat, w: nat)
    ensures Manages(s, u, w) <==> Controls(s, u, w)
    ensures Refusal(s, u, w)
            == if Controls(s, u, w) then None else if SitsActive(s, u, w) then Some(Authorization) else Some(NotFound)
  {
  }

  ghost predicate TwoIn(m: set<nat>) {
    exists u, v :: u in m && v in m && u != v
  }

  lemma TwoInExactly(m: set<nat>)
    ensures |m| > 1 <==> TwoIn(m)
  {
    if |m| > 1 {
      var u :| u in m;
      assert |m - {u}| > 0;
      var v :| v in m - {u};
    }
    if u, v :| u in m && v in m && u != v {
      assert |m - {u} - {v}| + 2 == |m|;
    }
  }

  lemma TwoManagers(s: State, w: nat)
    ensures |Managers(s, w)| > 1 <==> TwoControl(s, w)
  {
    var m := Managers(s, w);
    TwoInExactly(m);
    forall u: nat ensures u in m <==> Controls(s, u, w) {
      InManagers(s, u, w);
      ManagesIsControls(s, u, w);
    }
    if TwoControl(s, w) {
      var u: nat, v: nat :| u != v && Controls(s, u, w) && Controls(s, v, w);
      assert u in m && v in m;
    }
    if u, v :| u in m && v in m && u != v {
      assert Controls(s, u, w) && Controls(s, v, w);
    }
  }

  /** A request is accepted exactly when the code's demands are met. */
  lemma AcceptedExactly(s: State, op: Op)
    requires SeatsSound(s)
    ensures Perform(s, op).Ok? <==> Allowed(s, op)
  {
    if !op.OpRegister? {
      ManagesIsControls(s, op.u, op.w);
      if (op.u, op.w) in s.seats { assert SeatSound(s, (op.u, op.w)); }
      TwoManagers(s, op.w);
    }
  }

  // ---------------------------------------------------------------- why a request is refused

  /** The error of each refusal. */
  ghost predicate Refuses(s: State, op: Op, e: Error) {
    match e
    case Conflict => op.OpRegister? && op.u in s.users
    case Integrity => !Allowed(s, op) && Collides(s, op)
    case BodyValidation => !Allowed(s, op) && !Collides(s, op) && Unfit(s, op)
    case NotFound => !Allowed(s, op) && Unseen(s, op)
    case Authorization =>
      !Allowed(s, op) && !Collides(s, op) && !Unfit(s, op) && !Unseen(s, op) && !(op.OpRegister? && op.u in s.users)
  }

  /** A number or id that has to be new is taken. */
  ghost predicate Collides(s: State, op: Op) {
    match op
    case OpRegister(u, _, _) => u !in s.users
    case OpCreate(u, _, _) => u in s.users
    case OpProjectInvite(u, w, invite, ownerKey, _) =>
      Controls(s, u, w) && invite.invitee in s.users && KindIs(s, w, Personal) && ownerKey != ""
    case OpInitBilling(u, w, _) => Controls(s, u, w)
    case _ => false
  }

  /** A manager asks for what the request or the workspace does not allow. */
  ghost predicate Unfit(s: State, op: Op) {
    match op
    case OpProjectInvite(u, w, invite, _, _) => Controls(s, u, w) && invite.invitee in s.users
    case OpChangeRole(u, w, target, _) => Controls(s, u, w) && (target, w) in s.seats
    case _ => false
  }

  /** The caller has no active seat, or whom the request is about is not there. */
  predicate Unseen(s: State, op: Op) {
    match op
    case OpRegister(_, _, _) => false
    case OpCreate(_, _, _) => false
    case OpProjectInvite(u, w, invite, _, _) => Controls(s, u, w) && invite.invitee !in s.users
    case OpUpdateRole(u, w, target, _) => !SitsActive(s, u, w) || (Controls(s, u, w) && (target, w) !in s.seats)
    case OpRemove(u, w, target) => !SitsActive(s, u, w) || (target, w) !in s.seats
    case OpChangeRole(u, w, target, _) => !SitsActive(s, u, w) || (Controls(s, u, w) && (target, w) !in s.seats)
    case _ => !SitsActive(s, op.u, op.w)
  }

  /** Every refusal carries the error that the demand it misses has. */
  lemma RefusedExactly(s: State, op: Op, e: Error)
    requires SeatsSound(s)
    ensures Perform(s, op) == Err(e) <==> Refuses(s, op, e)
  {
    AcceptedExactly(s, op);
    if !op.OpRegister? {
      ManagesIsControls(s, op.u, op.w);
      if (op.u, op.w) in s.seats { assert SeatSound(s, (op.u, op.w)); }
      TwoManagers(s, op.w);
    }
  }

  // ---------------------------------------------------------------- seats

  /** The request takes the seat away. */
  predicate Removes(op: Op, u: nat, w: nat) {
    (op.OpDelete? && op.w == w) || (op.OpRemove? && op.w == w && op.target == u)
  }

  /** The seat that a request other than a batch gives a user, when it is accepted. */
  function Given(s: State, op: Op, u: nat, w: nat): Option<Membership> {
    match op
    case OpRegister(v, _, personal) =>
      if personal == Some(w) && v == u then Some(Membership(Owner, Active, "sealed")) else None
    case OpCreate(v, x, key) => if x == w && v == u then Some(Membership(Owner, Active, key)) else None
    case OpProjectInvite(v, x, invite, ownerKey, fresh') =>
      var place := if KindIs(s, x, Personal) then fresh' else x;
      if place != w then None
      else if invite.invitee == u then Some(Membership(invite.role, Active, invite.key))
      else if KindIs(s, x, Personal) && v == u then Some(Membership(Owner, Active, ownerKey))
      else None
    case OpUpdateRole(_, x, target, role) =>
      if x == w && target == u && (u, w) in s.seats then Some(s.seats[(u, w)].(role := role)) else None
    case OpChangeRole(_, x, target, action) =>
      if x == w && target == u && (u, w) in s.seats
      then Some(s.seats[(u, w)].(role := if action == Promote then Admin else Member)) else None
    case _ => None
  }

  predicate SameSeat(s: State, t: State, u: nat, w: nat) {
    if (u, w) in s.seats then (u, w) in t.seats && t.seats[(u, w)] == s.seats[(u, w)] else (u, w) !in t.seats
  }

  /** Every seat after every request: gone, given, settled by a batch, or as it was. */
  ghost predicate SeatAfter(s: State, op: Op, t: State, u: nat, w: nat) {
    if !Allowed(s, op) then SameSeat(s, t, u, w)
    else if Removes(op, u, w) then (u, w) !in t.seats
    else if Given(s, op, u, w).Some? then
      (u, w) in t.seats && t.seats[(u, w)] == Given(s, op, u, w).value
    else if op.OpInvites? && op.w == w then BatchedSeat(s, w, op.invites, t, u)
    else SameSeat(s, t, u, w)
  }

  lemma SeatsExactly(s: State, op: Op, u: nat, w: nat)
    requires SeatsSound(s)
    ensures SeatAfter(s, op, Step(s, op), u, w)
  {
    AcceptedExactly(s, op);
    if op.OpInvites? {
      if op.w == w { BatchSeats(s, w, op.invites, u); } else { InvitesElsewhere(s, op.w, op.invites, w); }
    }
  }

  // ---------------------------------------------------------------- workspaces and users

  /** The workspace that a request founds under the number `w`, when it is accepted. */
  function FoundedAs(s: State, op: Op, w: nat): Option<Workspace> {
    match op
    case OpRegister(u, _, personal) => if personal == Some(w) then Some(Workspace(u, Personal, Free, None)) else None
    case OpCreate(u, x, _) => if x == w then Some(Workspace(u, Shared, Free, None)) else None
    case OpProjectInvite(u, x, _, _, fresh') =>
      if KindIs(s, x, Personal) && fresh' == w then Some(Workspace(u, Shared, Free, None)) else None
    case _ => None
  }

  /** Plan and status are `pro` and `active`, letter case aside. */
  predicate PaysNow(r: Reply) {
    r.Answered? && AnyCase(r.plan, "pro") && AnyCase(r.status, "active")
  }

  /** What a request makes of an existing workspace: the resolver's answer sets the tier of a reserved one, and the
      first reservation its id. */
  function Rewritten(op: Op, ws: Workspace, w: nat): Workspace {
    match op
    case OpInitBilling(_, x, ulid) =>
      if x == w && ws.billing == None then ws.(billing := Some("ws_bill_" + ulid)) else ws
    case OpReconcile(_, x, reply) =>
      if x == w && ws.billing != None && reply.Answered? then ws.(tier := if PaysNow(reply) then Pro else Free) else ws
    case _ => ws
  }

  ghost predicate WorkspaceAfter(s: State, op: Op, t: State, w: nat) {
    if w in s.workspaces then
      if Allowed(s, op) && op.OpDelete? && op.w == w then w !in t.workspaces
      else
        && w in t.workspaces
        && t.workspaces[w] == if Allowed(s, op) then Rewritten(op, s.workspaces[w], w) else s.workspaces[w]
    else if Allowed(s, op) && FoundedAs(s, op, w).Some? then
      w in t.workspaces && t.workspaces[w] == FoundedAs(s, op, w).value
    else w !in t.workspaces
  }

  lemma PaysExactly(r: Reply)
    ensures ActivePro(r) <==> PaysNow(r)
  {
    if r.Answered? {
      AnyCaseExactly(r.plan, "pro");
      AnyCaseExactly(r.status, "active");
    }
  }

  lemma WorkspacesExactly(s: State, op: Op, w: nat)
    requires SeatsSound(s)
    ensures WorkspaceAfter(s, op, Step(s, op), w)
  {
    AcceptedExactly(s, op);
    if op.OpInvites? { InvitesOnlySeat(s, op.w, op.invites); }
    if op.OpReconcile? { PaysExactly(op.reply); }
  }

  /** Users are only ever added, each with the pool named after its registration. */
  lemma UsersExactly(s: State, op: Op)
    requires SeatsSound(s)
    ensures Step(s, op).users
            == if op.OpRegister? && Allowed(s, op) then s.users[op.u := User("bill_" + op.ulid)] else s.users
  {
    AcceptedExactly(s, op);
    if op.OpInvites? { InvitesOnlySeat(s, op.w, op.invites); }
  }

  // ---------------------------------------------------------------- the move out of a personal workspace

  /** After an accepted invitation to a project of a personal workspace the new one is shared and free and belongs to
      the caller, it has two seats, each with the key sent for its user, and the old one is as it was. */
  lemma MigrationExactly(s: State, u: nat, w: nat, i: Invite, ownerKey: string, v: nat)
    requires SeatsSound(s) && KindIs(s, w, Personal)
    requires InviteToProject(s, u, w, i, ownerKey, v).Ok?
    ensures var t := InviteToProject(s, u, w, i, ownerKey, v).value;
            && v !in s.workspaces && i.invitee != u
            && t.workspaces == s.workspaces[v := Workspace(u, Shared, Free, None)]
            && (forall x: nat :: (x, v) in t.seats <==> x == u || x == i.invitee)
            && t.seats[(u, v)] == Membership(Owner, Active, ownerKey)
            && t.seats[(i.invitee, v)] == Membership(i.role, Active, i.key)
            && SameSeats(s, t, w)
  {
    var op := OpProjectInvite(u, w, i, ownerKey, v);
    assert Step(s, op) == InviteToProject(s, u, w, i, ownerKey, v).value;
    AcceptedExactly(s, op);
    forall x: nat ensures SeatAfter(s, op, Step(s, op), x, v) && SeatAfter(s, op, Step(s, op), x, w) {
      SeatsExactly(s, op, x, v);
      SeatsExactly(s, op, x, w);
    }
  }

  // ---------------------------------------------------------------- keys over runs

  /** The request brings this key for this very user. */
  predicate SentFor(op: Op, u: nat, w: nat, key: string) {
    match op
    case OpRegister(v, _, personal) => personal == Some(w) && v == u && key == "sealed"
    case OpCreate(v, x, k) => x == w && v == u && key == k
    case OpInvites(_, x, invites) => x == w && exists i :: 0 <= i < |invites| && Brings(invites[i], u, key)
    case OpProjectInvite(v, x, invite, ownerKey, fresh') =>
      (fresh' == w && v == u && key == ownerKey) || ((x == w || fresh' == w) && Brings(invite, u, key))
    case _ => false
  }

  predicate Brings(i: Invite, u: nat, key: string) {
    i.invitee == u && i.key == key
  }

  /** A request that changes the key of a seat, or makes a seat, brings the key for it. */
  lemma KeyChangesAreSent(s: State, op: Op, u: nat, w: nat)
    requires SeatsSound(s) && (u, w) in Step(s, op).seats
    requires (u, w) in s.seats ==> s.seats[(u, w)].key != Step(s, op).seats[(u, w)].key
    ensures SentFor(op, u, w, Step(s, op).seats[(u, w)].key)
  {
    SeatsExactly(s, op, u, w);
    if op.OpInvites? && op.w == w {
      var i := if Reseats(s, w, op.invites, u) then FirstKeyed(op.invites, u) else NamedUnkeyed(s, w, op.invites, u);
      var n :| 0 <= n < |op.invites| && op.invites[n] == i.value;
      assert Brings(op.invites[n], u, Step(s, op).seats[(u, w)].key);
    }
  }

  /** The first entry for a user for whom no entry brings a key. */
  ghost function NamedUnkeyed(s: State, w: nat, invites: seq<Invite>, u: nat): (i: Option<Invite>)
    requires !Reseats(s, w, invites, u) && (u, w) !in s.seats && u in s.users && FirstNamed(invites, u).Some?
    ensures i.Some? && i.value in invites && i.value.invitee == u && i.value.key == ""
  {
    NobodyKeyed(invites, u);
    FirstNamed(invites, u)
  }

  lemma {:induction false} NobodyKeyed(invites: seq<Invite>, u: nat)
    requires FirstKeyed(invites, u).None?
    ensures FirstNamed(invites, u).Some? ==> FirstNamed(invites, u).value.key == ""
  {
    if invites != [] { NobodyKeyed(invites[..|invites| - 1], u); }
  }

  /** In every reachable state the key in every seat is one that some request sent for that user and workspace. */
  lemma {:induction false} KeysWereSent(ops: seq<Op>, n: nat, u: nat, w: nat) returns (j: nat)
    requires n <= |ops| && AllWellFormed(ops) && (u, w) in After(ops, n).seats
    ensures j < n && SentFor(ops[j], u, w, After(ops, n).seats[(u, w)].key)
  {
    var s, op := After(ops, n - 1), ops[n - 1];
    AlwaysSound(ops, n - 1);
    if (u, w) in s.seats && s.seats[(u, w)].key == Step(s, op).seats[(u, w)].key {
      j := KeysWereSent(ops, n - 1, u, w);
    } else {
      KeyChangesAreSent(s, op, u, w);
      j := n - 1;
    }
  }

  // ---------------------------------------------------------------- personal workspaces

  /** A personal workspace is never deleted and never changes owner or kind. */
  lemma {:induction false} PersonalForever(ops: seq<Op>, m: nat, n: nat, w: nat)
    requires m <= n <= |ops| && AllWellFormed(ops) && KindIs(After(ops, m), w, Personal)
    ensures KindIs(After(ops, n), w, Personal)
    ensures After(ops, n).workspaces[w].owner == After(ops, m).workspaces[w].owner
    decreases n
  {
    if m < n {
      PersonalForever(ops, m, n - 1, w);
      AlwaysSound(ops, n - 1);
      WorkspacesExactly(After(ops, n - 1), ops[n - 1], w);
    }
  }
}
