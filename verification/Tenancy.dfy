/** Users, workspaces and memberships, and every route that changes them: registration, workspaces, invitations, roles,
    billing. Tables are maps by primary key; a route that fails leaves them as they were. */
module Tenancy {
  import opened Text

  datatype Role = Owner | Admin | Member | ReadOnly

  datatype Status = Active | Invited

  datatype Kind = Personal | Shared

  datatype Tier = Free | Pro

  datatype User = User(billing: string)

  datatype Workspace = Workspace(owner: nat, kind: Kind, tier: Tier, billing: Option<string>)

  datatype Membership = Membership(role: Role, status: Status, key: string)

  /** (user, workspace): unique in the membership table. */
  type Seat = (nat, nat)

  datatype State = State(users: map<nat, User>, workspaces: map<nat, Workspace>, seats: map<Seat, Membership>)

  datatype Error = NotFound | Authorization | BodyValidation | Conflict | Integrity

  type Outcome = Result<State, Error>

  /** The key sealed at registration; never empty. */
  const SEALED := "sealed"

  predicate Manager(role: Role) {
    role.Owner? || role.Admin?
  }

  /** `get_membership`: an active seat. */
  predicate ActiveIn(s: State, u: nat, w: nat) {
    (u, w) in s.seats && s.seats[(u, w)].status.Active?
  }

  predicate Manages(s: State, u: nat, w: nat) {
    ActiveIn(s, u, w) && Manager(s.seats[(u, w)].role)
  }

  /** The guard of every management route. */
  function Refusal(s: State, u: nat, w: nat): Option<Error> {
    if !ActiveIn(s, u, w) then Some(NotFound)
    else if !Manager(s.seats[(u, w)].role) then Some(Authorization)
    else None
  }

  // ---------------------------------------------------------------- primitive updates

  function Seated(s: State, u: nat, w: nat, m: Membership): State {
    s.(seats := s.seats[(u, w) := m])
  }

  function Unseated(s: State, u: nat, w: nat): State {
    s.(seats := s.seats - {(u, w)})
  }

  function Founded(s: State, w: nat, owner: nat, kind: Kind, key: string): State {
    Seated(s.(workspaces := s.workspaces[w := Workspace(owner, kind, Free, None)]), owner, w,
           Membership(Owner, Active, key))
  }

  function Rebilled(s: State, w: nat, tier: Tier, billing: Option<string>): State
    requires w in s.workspaces
  {
    s.(workspaces := s.workspaces[w := s.workspaces[w].(tier := tier, billing := billing)])
  }

  // ---------------------------------------------------------------- accounts and workspaces

  predicate UserHas(s: State, billing: string) {
    exists u :: u in s.users && s.users[u].billing == billing
  }

  /** Registration; with a public key it also founds a personal workspace `w`. */
  function Register(s: State, u: nat, ulid: string, w: Option<nat>): Outcome {
    if u in s.users then Err(Conflict)
    else if UserHas(s, "bill_" + ulid) || (w.Some? && w.value in s.workspaces) then Err(Integrity)
    else
      var s' := s.(users := s.users[u := User("bill_" + ulid)]);
      Ok(if w.Some? then Founded(s', w.value, u, Personal, SEALED) else s')
  }

  function CreateWorkspace(s: State, u: nat, w: nat, key: string): Outcome {
    if u !in s.users then Err(Authorization)
    else if w in s.workspaces then Err(Integrity)
    else Ok(Founded(s, w, u, Shared, key))
  }

  function DeleteWorkspace(s: State, u: nat, w: nat): Outcome {
    if !ActiveIn(s, u, w) || w !in s.workspaces then Err(NotFound)
    else if !s.seats[(u, w)].role.Owner? || s.workspaces[w].kind.Personal? then Err(Authorization)
    else
      Ok(s.(workspaces := s.workspaces - {w}, seats := map k | k in s.seats && k.1 != w :: s.seats[k]))
  }

  // ---------------------------------------------------------------- invitations

  datatype Invite = Invite(invitee: nat, role: Role, key: string)

  /** One entry of a batch: unknown users and settled members are skipped; a pending or keyless seat is completed. */
  function InviteOne(s: State, w: nat, i: Invite): State {
    if i.invitee !in s.users then s
    else if (i.invitee, w) in s.seats then
      var m := s.seats[(i.invitee, w)];
      if i.key != "" && (m.key == "" || m.status.Invited?) then
        Seated(s, i.invitee, w, Membership(i.role, Active, i.key))
      else s
    else Seated(s, i.invitee, w, Membership(i.role, if i.key != "" then Active else Invited, i.key))
  }

  function InviteAll(s: State, w: nat, invites: seq<Invite>): State {
    if invites == [] then s
    else InviteOne(InviteAll(s, w, invites[..|invites| - 1]), w, invites[|invites| - 1])
  }

  /** Roles are normalised by the request schema and never `owner`. */
  predicate Invitable(role: Role) {
    !role.Owner?
  }

  function ProcessInvites(s: State, u: nat, w: nat, invites: seq<Invite>): Outcome {
    if Refusal(s, u, w).Some? then Err(Refusal(s, u, w).value)
    else Ok(InviteAll(s, w, invites))
  }

  /** Inviting to a project of workspace `w`; from a personal workspace the project moves to a new shared one. */
  function InviteToProject(s: State, u: nat, w: nat, i: Invite, ownerKey: string, fresh': nat): Outcome {
    if !ActiveIn(s, u, w) || w !in s.workspaces then Err(Authorization)
    else if !Manager(s.seats[(u, w)].role) then Err(Authorization)
    else if i.invitee !in s.users then Err(NotFound)
    else if s.workspaces[w].kind.Personal? then
      if ownerKey == "" then Err(BodyValidation)
      else if fresh' in s.workspaces || i.invitee == u then Err(Integrity)
      else Ok(Seated(Founded(s, fresh', u, Shared, ownerKey), i.invitee, fresh', Membership(i.role, Active, i.key)))
    else if (i.invitee, w) in s.seats then Err(BodyValidation)
    else Ok(Seated(s, i.invitee, w, Membership(i.role, Active, i.key)))
  }

  // ---------------------------------------------------------------- roles

  function UpdateMemberRole(s: State, u: nat, w: nat, target: nat, role: Role): Outcome {
    if Refusal(s, u, w).Some? then Err(Refusal(s, u, w).value)
    else if (target, w) !in s.seats then Err(NotFound)
    else if s.seats[(target, w)].role.Owner? || role.Owner? then Err(Authorization)
    else Ok(Seated(s, target, w, s.seats[(target, w)].(role := role)))
  }

  function RemoveMember(s: State, u: nat, w: nat, target: nat): Outcome {
    if !ActiveIn(s, u, w) || (target, w) !in s.seats then Err(NotFound)
    else
      var mine, theirs := s.seats[(u, w)].role, s.seats[(target, w)].role;
      if theirs.Owner? || (mine.Admin? && theirs.Admin?) || !Manager(mine) then Err(Authorization)
      else Ok(Unseated(s, target, w))
  }

  /** The active owners and admins of a workspace. */
  function Managers(s: State, w: nat): set<nat> {
    set k | k in s.seats && k.1 == w && Manages(s, k.0, w) :: k.0
  }

  datatype RoleAction = Promote | Demote

  function ChangeMemberRole(s: State, u: nat, w: nat, target: nat, action: RoleAction): Outcome {
    if Refusal(s, u, w).Some? then Err(Refusal(s, u, w).value)
    else if (target, w) !in s.seats then Err(NotFound)
    else
      var m := s.seats[(target, w)];
      if action.Demote? && Manager(m.role) && |Managers(s, w)| <= 1 then Err(BodyValidation)
      else Ok(Seated(s, target, w, m.(role := if action.Promote? then Admin else Member)))
  }

  // ---------------------------------------------------------------- billing

  predicate WorkspaceHas(s: State, billing: string) {
    exists w :: w in s.workspaces && s.workspaces[w].billing == Some(billing)
  }

  /** Reserves an id once; a reserved one is returned as it is. */
  function InitializeBilling(s: State, u: nat, w: nat, ulid: string): Outcome {
    if Refusal(s, u, w).Some? then Err(Refusal(s, u, w).value)
    else if w !in s.workspaces then Err(NotFound)
    else if s.workspaces[w].billing.Some? then Ok(s)
    else if WorkspaceHas(s, "ws_bill_" + ulid) then Err(Integrity)
    else Ok(Rebilled(s, w, s.workspaces[w].tier, Some("ws_bill_" + ulid)))
  }

  /** What the resolver said, or that it did not answer. */
  datatype Reply = Answered(plan: string, status: string) | Refused | Unreachable

  predicate ActivePro(r: Reply) {
    r.Answered? && Lower(r.plan) == "pro" && Lower(r.status) == "active"
  }

  function Reconcile(s: State, u: nat, w: nat, reply: Reply): Outcome {
    if Refusal(s, u, w).Some? then Err(Refusal(s, u, w).value)
    else if w !in s.workspaces then Err(NotFound)
    else if s.workspaces[w].billing.None? || !reply.Answered? then Ok(s)
    else Ok(Rebilled(s, w, if ActivePro(reply) then Pro else Free, s.workspaces[w].billing))
  }

  /** The account a workspace draws on. */
  function EffectiveBilling(s: State, w: nat): string
    requires w in s.workspaces
  {
    var ws := s.workspaces[w];
    if ws.tier.Pro? && ws.billing.Some? then ws.billing.value
    else if ws.owner in s.users && s.users[ws.owner].billing != "" then s.users[ws.owner].billing
    else "free_ws_" + Decimal(w)
  }

  /** The id a workspace holds of its own, reserved or paid for; empty when it has none. */
  function OwnBilling(s: State, w: nat): string
    requires w in s.workspaces
  {
    if s.workspaces[w].billing.Some? then s.workspaces[w].billing.value else ""
  }

  /** One seat is enough: any manager for the workspace's own id, its owner for the effective one. */
  predicate Accepts(s: State, u: nat, w: nat, id: string)
    requires w in s.workspaces
  {
    && Manages(s, u, w)
    && (OwnBilling(s, w) == id || (EffectiveBilling(s, w) == id && s.seats[(u, w)].role.Owner?))
  }

  /** Some seat of `u` lets them act on the account `id`. */
  ghost predicate Qualifies(s: State, u: nat, id: string) {
    exists w :: w in s.workspaces && Accepts(s, u, w, id)
  }

  // ---------------------------------------------------------------- runs

  datatype Op =
    | OpRegister(u: nat, ulid: string, personal: Option<nat>)
    | OpCreate(u: nat, w: nat, key: string)
    | OpDelete(u: nat, w: nat)
    | OpInvites(u: nat, w: nat, invites: seq<Invite>)
    | OpProjectInvite(u: nat, w: nat, invite: Invite, ownerKey: string, newWorkspace: nat)
    | OpUpdateRole(u: nat, w: nat, target: nat, role: Role)
    | OpRemove(u: nat, w: nat, target: nat)
    | OpChangeRole(u: nat, w: nat, target: nat, action: RoleAction)
    | OpInitBilling(u: nat, w: nat, ulid: string)
    | OpReconcile(u: nat, w: nat, reply: Reply)

  function Perform(s: State, op: Op): Outcome {
    match op
    case OpRegister(u, ulid, personal) => Register(s, u, ulid, personal)
    case OpCreate(u, w, key) => CreateWorkspace(s, u, w, key)
    case OpDelete(u, w) => DeleteWorkspace(s, u, w)
    case OpInvites(u, w, invites) => ProcessInvites(s, u, w, invites)
    case OpProjectInvite(u, w, invite, ownerKey, newWorkspace) =>
      InviteToProject(s, u, w, invite, ownerKey, newWorkspace)
    case OpUpdateRole(u, w, target, role) => UpdateMemberRole(s, u, w, target, role)
    case OpRemove(u, w, target) => RemoveMember(s, u, w, target)
    case OpChangeRole(u, w, target, action) => ChangeMemberRole(s, u, w, target, action)
    case OpInitBilling(u, w, ulid) => InitializeBilling(s, u, w, ulid)
    case OpReconcile(u, w, reply) => Reconcile(s, u, w, reply)
  }

  function Step(s: State, op: Op): State {
    var r := Perform(s, op);
    if r.Ok? then r.value else s
  }

  /** What the request schemas let through: nobody is invited as owner. */
  predicate WellFormed(op: Op) {
    match op
    case OpInvites(_, _, invites) => forall i :: 0 <= i < |invites| ==> Invitable(invites[i].role)
    case OpProjectInvite(_, _, invite, _, _) => Invitable(invite.role)
    case _ => true
  }

  /** The state after the first `n` requests. */
  function After(ops: seq<Op>, n: nat): State
    requires n <= |ops|
  {
    if n == 0 then State(map[], map[], map[]) else Step(After(ops, n - 1), ops[n - 1])
  }
}
