/** What every sequence of requests keeps of the membership table. */
module MembershipLaws {
  import opened Text
  import opened Tenancy

  // ---------------------------------------------------------------- ownership

  predicate SeatSound(s: State, k: Seat)
    requires k in s.seats
  {
    && k.0 in s.users
    && k.1 in s.workspaces
    && (s.seats[k].role.Owner? ==> s.workspaces[k.1].owner == k.0)
  }

  /** An owner's seat belongs to the owner the workspace names, so a workspace has at most one. */
  ghost predicate SeatsSound(s: State) {
    forall k: Seat :: k in s.seats ==> SeatSound(s, k)
  }

  lemma FoundedSound(s: State, w: nat, owner: nat, kind: Kind, key: string)
    requires SeatsSound(s) && owner in s.users && w !in s.workspaces
    ensures SeatsSound(Founded(s, w, owner, kind, key))
  {
  }

  lemma RegisterSound(s: State, u: nat, ulid: string, w: Option<nat>)
    requires SeatsSound(s) && Register(s, u, ulid, w).Ok?
    ensures SeatsSound(Register(s, u, ulid, w).value)
  {
  }

  lemma DeleteSound(s: State, u: nat, w: nat)
    requires SeatsSound(s) && DeleteWorkspace(s, u, w).Ok?
    ensures SeatsSound(DeleteWorkspace(s, u, w).value)
  {
  }

  lemma RebilledSound(s: State, w: nat, tier: Tier, billing: Option<string>)
    requires SeatsSound(s) && w in s.workspaces
    ensures SeatsSound(Rebilled(s, w, tier, billing))
  {
  }

  lemma InvitesSound(s: State, w: nat, invites: seq<Invite>)
    requires SeatsSound(s) && w in s.workspaces
    requires forall i :: 0 <= i < |invites| ==> Invitable(invites[i].role)
    ensures SeatsSound(InviteAll(s, w, invites))
    ensures InviteAll(s, w, invites).workspaces == s.workspaces
  {
  }

  lemma ProjectInviteSound(s: State, u: nat, w: nat, i: Invite, ownerKey: string, v: nat)
    requires SeatsSound(s) && InviteToProject(s, u, w, i, ownerKey, v).Ok? && Invitable(i.role)
    ensures SeatsSound(InviteToProject(s, u, w, i, ownerKey, v).value)
  {
  }

  lemma RolesSound(s: State, target: nat, w: nat, role: Role)
    requires SeatsSound(s) && (target, w) in s.seats && !role.Owner?
    ensures SeatsSound(Seated(s, target, w, s.seats[(target, w)].(role := role)))
    ensures SeatsSound(Unseated(s, target, w))
  {
  }

  /** Every request keeps owners' seats with the workspace's owner. */
  lemma StepSound(s: State, op: Op)
    requires SeatsSound(s) && WellFormed(op)
    ensures SeatsSound(Step(s, op))
  {
    if Perform(s, op).Ok? {
      match op
      case OpRegister(u, ulid, personal) => RegisterSound(s, u, ulid, personal);
      case OpCreate(u, w, key) => FoundedSound(s, w, u, Shared, key);
      case OpDelete(u, w) => DeleteSound(s, u, w);
      case OpInvites(u, w, invites) => assert SeatSound(s, (u, w)); InvitesSound(s, w, invites);
      case OpProjectInvite(u, w, invite, ownerKey, v) => ProjectInviteSound(s, u, w, invite, ownerKey, v);
      case OpUpdateRole(u, w, target, role) => RolesSound(s, target, w, role);
      case OpRemove(u, w, target) => RolesSound(s, target, w, Member);
      case OpChangeRole(u, w, target, action) => RolesSound(s, target, w, if action.Promote? then Admin else Member);
      case OpInitBilling(u, w, ulid) => RebilledSound(s, w, s.workspaces[w].tier, Some("ws_bill_" + ulid));
      case OpReconcile(u, w, reply) =>
        RebilledSound(s, w, if ActivePro(reply) then Pro else Free, s.workspaces[w].billing);
    }
  }

  ghost predicate AllWellFormed(ops: seq<Op>) {
    forall i :: 0 <= i < |ops| ==> WellFormed(ops[i])
  }

  lemma {:induction false} AlwaysSound(ops: seq<Op>, n: nat)
    requires n <= |ops| && AllWellFormed(ops)
    ensures SeatsSound(After(ops, n))
  {
    if n > 0 {
      AlwaysSound(ops, n - 1);
      StepSound(After(ops, n - 1), ops[n - 1]);
    }
  }

  predicate Owns(s: State, u: nat, w: nat) {
    (u, w) in s.seats && s.seats[(u, w)].role.Owner?
  }

  /** In every reachable state an owner's seat, active or not, is held by the workspace's owner alone. */
  lemma OneOwnerAtMost(ops: seq<Op>, n: nat, u: nat, v: nat, w: nat)
    requires n <= |ops| && AllWellFormed(ops)
    requires Owns(After(ops, n), u, w)
    ensures w in After(ops, n).workspaces && After(ops, n).workspaces[w].owner == u
    ensures Owns(After(ops, n), v, w) ==> v == u
  {
    AlwaysSound(ops, n);
    assert SeatSound(After(ops, n), (u, w));
    if Owns(After(ops, n), v, w) { assert SeatSound(After(ops, n), (v, w)); }
  }

  // ---------------------------------------------------------------- frames

  /** The seats of workspace `w` are the same in both states. */
  ghost predicate SameSeats(s: State, t: State, w: nat) {
    forall u: nat ::
      && ((u, w) in s.seats <==> (u, w) in t.seats)
      && ((u, w) in s.seats ==> s.seats[(u, w)] == t.seats[(u, w)])
  }

  /** Requests that may edit seats of workspace `w`. */
  predicate Targets(op: Op, w: nat) {
    match op
    case OpDelete(_, v) => v == w
    case OpInvites(_, v, _) => v == w
    case OpProjectInvite(_, v, _, _, _) => v == w
    case OpUpdateRole(_, v, _, _) => v == w
    case OpRemove(_, v, _) => v == w
    case OpChangeRole(_, v, _, _) => v == w
    case _ => false
  }

  /** Invitations only touch seats. */
  lemma InvitesOnlySeat(s: State, w: nat, invites: seq<Invite>)
    ensures InviteAll(s, w, invites).workspaces == s.workspaces
    ensures InviteAll(s, w, invites).users == s.users
  {
  }

  lemma InvitesElsewhere(s: State, v: nat, invites: seq<Invite>, w: nat)
    requires v != w
    ensures SameSeats(s, InviteAll(s, v, invites), w)
  {
  }

  /** A request leaves the seats of every existing workspace it does not target alone. */
  lemma StepFrames(s: State, op: Op, w: nat)
    requires w in s.workspaces && !Targets(op, w)
    ensures SameSeats(s, Step(s, op), w) && w in Step(s, op).workspaces
    ensures Step(s, op).workspaces[w].owner == s.workspaces[w].owner
  {
    if op.OpInvites? {
      InvitesElsewhere(s, op.w, op.invites, w);
      InvitesOnlySeat(s, op.w, op.invites);
    }
  }

  // ---------------------------------------------------------------- keys

  predicate Keyed(m: Membership) {
    m.status.Active? ==> m.key != ""
  }

  /** Nobody is active without a workspace key. */
  ghost predicate KeysHeld(s: State) {
    forall k: Seat :: k in s.seats ==> Keyed(s.seats[k])
  }

  /** The two routes that take a key without checking it are given one. */
  predicate SendsKeys(op: Op) {
    match op
    case OpCreate(_, _, key) => key != ""
    case OpProjectInvite(_, _, invite, _, _) => invite.key != ""
    case _ => true
  }

  lemma InvitesKeepKeys(s: State, w: nat, invites: seq<Invite>)
    requires KeysHeld(s)
    ensures KeysHeld(InviteAll(s, w, invites))
  {
  }

  lemma StepKeepsKeys(s: State, op: Op)
    requires KeysHeld(s) && SendsKeys(op)
    ensures KeysHeld(Step(s, op))
  {
    if op.OpInvites? { InvitesKeepKeys(s, op.w, op.invites); }
  }

  ghost predicate AllSendKeys(ops: seq<Op>) {
    forall i :: 0 <= i < |ops| ==> SendsKeys(ops[i])
  }

  lemma {:induction false} AlwaysKeyed(ops: seq<Op>, n: nat)
    requires n <= |ops| && AllSendKeys(ops)
    ensures KeysHeld(After(ops, n))
  {
    if n > 0 {
      AlwaysKeyed(ops, n - 1);
      StepKeepsKeys(After(ops, n - 1), ops[n - 1]);
    }
  }
}
