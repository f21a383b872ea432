/** Which workspaces keep an owner and which keep anybody who can manage them. */
module ManagerLaws {
  import opened Text
  import opened Tenancy
  import opened MembershipLaws

  // ---------------------------------------------------------------- what a batch of invitations does to one seat

  /** An invitation with a key would settle this user's seat: there is none, it is pending, or it has no key. */
  predicate Pending(s: State, u: nat, w: nat) {
    && u in s.users
    && ((u, w) in s.seats ==> s.seats[(u, w)].key == "" || s.seats[(u, w)].status.Invited?)
  }

  /** The first entry for the user. */
  function FirstNamed(invites: seq<Invite>, u: nat): (i: Option<Invite>)
    ensures i.Some? ==> i.value in invites && i.value.invitee == u
  {
    if invites == [] then None
    else
      var before, last := FirstNamed(invites[..|invites| - 1], u), invites[|invites| - 1];
      if before.Some? then before else if last.invitee == u then Some(last) else None
  }

  /** The first entry that brings a key for the user. */
  function FirstKeyed(invites: seq<Invite>, u: nat): (i: Option<Invite>)
    ensures i.Some? ==> i.value in invites && i.value.invitee == u && i.value.key != ""
  {
    if invites == [] then None
    else
      var before, last := FirstKeyed(invites[..|invites| - 1], u), invites[|invites| - 1];
      if before.Some? then before
      else if last.invitee == u && last.key != "" then Some(last)
      else None
  }

  /** The batch gives the user's seat this role. */
  predicate Reseats(s: State, w: nat, invites: seq<Invite>, u: nat) {
    Pending(s, u, w) && FirstKeyed(invites, u).Some?
  }

  /** What became of the seat of `u` after the batch: settled with role and key of the first entry that brings a key,
      left alone, or, if nobody brought a key for a user without one, pending in the role of the first entry. */
  ghost predicate BatchedSeat(s: State, w: nat, invites: seq<Invite>, t: State, u: nat) {
    var keyed, named := FirstKeyed(invites, u), FirstNamed(invites, u);
    if Reseats(s, w, invites, u) then
      (u, w) in t.seats && t.seats[(u, w)] == Membership(keyed.value.role, Active, keyed.value.key)
    else if (u, w) in s.seats then
      (u, w) in t.seats && t.seats[(u, w)] == s.seats[(u, w)]
    else if u in s.users && named.Some? then
      (u, w) in t.seats && t.seats[(u, w)] == Membership(named.value.role, Invited, "")
    else
      (u, w) !in t.seats
  }

  lemma {:induction false} BatchSeats(s: State, w: nat, invites: seq<Invite>, u: nat)
    ensures BatchedSeat(s, w, invites, InviteAll(s, w, invites), u)
  {
    if invites != [] {
      var before, last := invites[..|invites| - 1], invites[|invites| - 1];
      BatchSeats(s, w, before, u);
      InvitesOnlySeat(s, w, before);
      if last.invitee == u { InvitedSeat(s, w, before, InviteAll(s, w, before), last); }
      assert before + [last] == invites;
    }
  }

  lemma InvitedSeat(s: State, w: nat, before: seq<Invite>, t: State, last: Invite)
    requires t.users == s.users && BatchedSeat(s, w, before, t, last.invitee)
    ensures BatchedSeat(s, w, before + [last], InviteOne(t, w, last), last.invitee)
  {
    assert (before + [last])[..|before|] == before;
  }

  /** Who manages after a batch: those it gives a managing role, and those it does not touch who did before. */
  lemma BatchManagers(s: State, w: nat, invites: seq<Invite>, u: nat)
    ensures Manages(InviteAll(s, w, invites), u, w)
            <==> if Reseats(s, w, invites, u) then Manager(FirstKeyed(invites, u).value.role) else Manages(s, u, w)
  {
    BatchSeats(s, w, invites, u);
  }

  // ---------------------------------------------------------------- owners

  /** The workspace's owner sits in it as an active owner. */
  predicate Owned(s: State, w: nat)
    requires w in s.workspaces
  {
    var o := s.workspaces[w].owner;
    ActiveIn(s, o, w) && Owns(s, o, w)
  }

  /** A manager promotes the owner, demotes them beside another manager, or, if they hold no key, invites them anew. */
  predicate DeposesOwner(s: State, op: Op, w: nat)
    requires w in s.workspaces
  {
    var o := s.workspaces[w].owner;
    match op
    case OpChangeRole(u, v, target, action) =>
      v == w && target == o && Manages(s, u, w) && (action.Promote? || |Managers(s, w)| > 1)
    case OpInvites(u, v, invites) =>
      v == w && Manages(s, u, w) && Reseats(s, w, invites, o)
    case _ => false
  }

  lemma {:induction false} RolesInvited(invites: seq<Invite>, u: nat)
    requires forall i :: 0 <= i < |invites| ==> Invitable(invites[i].role)
    ensures FirstKeyed(invites, u).Some? ==> !FirstKeyed(invites, u).value.role.Owner?
  {
    if invites != [] { RolesInvited(invites[..|invites| - 1], u); }
  }

  lemma BatchedOwner(s: State, w: nat, invites: seq<Invite>)
    requires w in s.workspaces && forall i :: 0 <= i < |invites| ==> Invitable(invites[i].role)
    ensures w in InviteAll(s, w, invites).workspaces
    ensures Owned(InviteAll(s, w, invites), w) <==> Owned(s, w) && !Reseats(s, w, invites, s.workspaces[w].owner)
  {
    var o := s.workspaces[w].owner;
    InvitesOnlySeat(s, w, invites);
    RolesInvited(invites, o);
    BatchSeats(s, w, invites, o);
  }

  lemma TargetedOwner(s: State, op: Op, w: nat)
    requires w in s.workspaces && Targets(op, w) && WellFormed(op) && w in Step(s, op).workspaces
    ensures Owned(Step(s, op), w) <==> Owned(s, w) && !DeposesOwner(s, op, w)
  {
    if op.OpInvites? { BatchedOwner(s, w, op.invites); }
  }

  /** Exactly the requests named depose an owner, and none ever puts one back. */
  lemma OwnerKept(s: State, op: Op, w: nat)
    requires w in s.workspaces && WellFormed(op) && w in Step(s, op).workspaces
    ensures Owned(Step(s, op), w) <==> Owned(s, w) && !DeposesOwner(s, op, w)
  {
    if Targets(op, w) { TargetedOwner(s, op, w); } else { StepFrames(s, op, w); }
  }

  predicate NewWorkspace(s: State, op: Op, w: nat) {
    w !in s.workspaces && w in Step(s, op).workspaces
  }

  lemma NewIsOwned(s: State, op: Op, w: nat)
    requires NewWorkspace(s, op, w)
    ensures Owned(Step(s, op), w)
  {
    if op.OpInvites? { InvitesOnlySeat(s, op.w, op.invites); }
  }

  /** No request among the first `n` deposed the owner of `w` since it was last founded. */
  predicate NeverDeposed(ops: seq<Op>, n: nat, w: nat)
    requires n <= |ops|
  {
    n == 0 || w !in After(ops, n - 1).workspaces
    || (!DeposesOwner(After(ops, n - 1), ops[n - 1], w) && NeverDeposed(ops, n - 1, w))
  }

  /** On every run a workspace has exactly one active owner, the one it names, until a request deposes them; then it has
      none. */
  lemma {:induction false} OwnersOnRuns(ops: seq<Op>, n: nat, w: nat)
    requires n <= |ops| && AllWellFormed(ops) && w in After(ops, n).workspaces
    ensures Owned(After(ops, n), w) <==> NeverDeposed(ops, n, w)
  {
    if n > 0 {
      var s, op := After(ops, n - 1), ops[n - 1];
      if w in s.workspaces {
        OwnersOnRuns(ops, n - 1, w);
        OwnerKept(s, op, w);
      } else {
        NewIsOwned(s, op, w);
      }
    }
  }

  lemma ExactlyOneOwner(ops: seq<Op>, n: nat, w: nat, u: nat)
    requires n <= |ops| && AllWellFormed(ops) && w in After(ops, n).workspaces
    ensures (ActiveIn(After(ops, n), u, w) && Owns(After(ops, n), u, w))
            <==> NeverDeposed(ops, n, w) && u == After(ops, n).workspaces[w].owner
  {
    OwnersOnRuns(ops, n, w);
    if Owns(After(ops, n), u, w) { OneOwnerAtMost(ops, n, u, u, w); }
  }

  /** In particular where keys are always sent and nobody is promoted or demoted. */
  lemma {:induction false} KeyedOwnersStay(ops: seq<Op>, n: nat, w: nat)
    requires n <= |ops| && AllSendKeys(ops) && AllWellFormed(ops)
    requires forall i :: 0 <= i < |ops| ==> !ops[i].OpChangeRole?
    ensures NeverDeposed(ops, n, w)
  {
    if n > 0 && w in After(ops, n - 1).workspaces {
      KeyedOwnersStay(ops, n - 1, w);
      OwnersOnRuns(ops, n - 1, w);
      AlwaysKeyed(ops, n - 1);
      var s := After(ops, n - 1);
      assert Keyed(s.seats[(s.workspaces[w].owner, w)]);
    }
  }

  // ---------------------------------------------------------------- managers

  /** Somebody active can manage `w`. */
  ghost predicate Managed(s: State, w: nat) {
    exists u :: Manages(s, u, w)
  }

  lemma InManagers(s: State, u: nat, w: nat)
    ensures u in Managers(s, w) <==> Manages(s, u, w)
  {
    if Manages(s, u, w) {
      var k: Seat := (u, w);
      assert k in s.seats && k.1 == w && Manages(s, k.0, w);
    }
  }

  /** The last manager, an admin, gives up the role through the role route, which counts nobody. */
  predicate LastManagerStepsDown(s: State, op: Op, w: nat) {
    && op.OpUpdateRole? && op.w == w && op.u == op.target && !Manager(op.role)
    && Managers(s, w) == {op.u}
    && (op.u, w) in s.seats && s.seats[(op.u, w)].role.Admin?
  }

  /** A batch of invitations settles every manager's seat, none of them having a key, and gives nobody a managing
      role. */
  predicate BatchReplacesManagers(s: State, op: Op, w: nat) {
    && op.OpInvites? && op.w == w && Manages(s, op.u, w)
    && (forall u :: u in Managers(s, w) ==> Reseats(s, w, op.invites, u))
    && (forall i :: 0 <= i < |op.invites| && Reseats(s, w, op.invites, op.invites[i].invitee)
          ==> !Manager(FirstKeyed(op.invites, op.invites[i].invitee).value.role))
  }

  predicate LosesManagement(s: State, op: Op, w: nat) {
    LastManagerStepsDown(s, op, w) || BatchReplacesManagers(s, op, w)
  }

  lemma FramedManager(s: State, op: Op, w: nat, u: nat)
    requires w in s.workspaces && !Targets(op, w)
    ensures Manages(Step(s, op), u, w) <==> Manages(s, u, w)
  {
    StepFrames(s, op, w);
  }

  /** Only the seat written can change who manages. */
  lemma SeatedManager(s: State, u: nat, w: nat, m: Membership, v: nat)
    requires v != u
    ensures Manages(Seated(s, u, w, m), v, w) <==> Manages(s, v, w)
    ensures Manages(Unseated(s, u, w), v, w) <==> Manages(s, v, w)
  {
  }

  lemma TwoManagers(s: State, w: nat, u: nat) returns (v: nat)
    requires |Managers(s, w)| > 1
    ensures v != u && Manages(s, v, w)
  {
    var rest := Managers(s, w) - {u};
    if rest == {} {
      assert Managers(s, w) <= {u};
      Smaller(Managers(s, w), u);
    }
    v :| v in rest;
    InManagers(s, v, w);
  }

  lemma Smaller(xs: set<nat>, u: nat)
    requires xs <= {u}
    ensures |xs| <= 1
  {
    if u in xs { assert xs == {u}; } else { assert xs == {}; }
  }

  lemma AnotherManager(s: State, w: nat, u: nat) returns (v: nat)
    requires Managed(s, w) && Managers(s, w) != {u}
    ensures v != u && Manages(s, v, w)
  {
    var x :| Manages(s, x, w);
    InManagers(s, x, w);
    if x != u { return x; }
    var y :| y in Managers(s, w) && y != u;
    InManagers(s, y, w);
    return y;
  }

  lemma UpdateRoleKeeps(s: State, u: nat, w: nat, target: nat, role: Role)
    requires UpdateMemberRole(s, u, w, target, role).Ok?
    ensures Managed(UpdateMemberRole(s, u, w, target, role).value, w)
            <==> !LastManagerStepsDown(s, OpUpdateRole(u, w, target, role), w)
  {
    var t := UpdateMemberRole(s, u, w, target, role).value;
    assert Manages(s, u, w);
    InManagers(s, u, w);
    if !Manager(role) && Managers(s, w) == {target} {
      forall v ensures !Manages(t, v, w) { InManagers(s, v, w); }
    } else if Managers(s, w) == {target} {
      assert Manages(t, target, w);
    } else {
      var v := AnotherManager(s, w, target);
      assert Manages(t, v, w);
    }
  }

  lemma RemoveKeeps(s: State, u: nat, w: nat, target: nat)
    requires RemoveMember(s, u, w, target).Ok?
    ensures Managed(RemoveMember(s, u, w, target).value, w)
  {
    assert u != target;
    assert Manages(RemoveMember(s, u, w, target).value, u, w);
  }

  lemma ChangeRoleKeeps(s: State, u: nat, w: nat, target: nat, action: RoleAction)
    requires ChangeMemberRole(s, u, w, target, action).Ok?
    ensures Managed(ChangeMemberRole(s, u, w, target, action).value, w)
  {
    var t := ChangeMemberRole(s, u, w, target, action).value;
    if action.Promote? || u != target {
      assert Manages(t, u, w);
    } else {
      var v := TwoManagers(s, w, target);
      SeatedManager(s, target, w, s.seats[(target, w)].(role := Member), v);
      assert Manages(t, v, w);
    }
  }

  lemma ProjectInviteKeeps(s: State, op: Op, w: nat)
    requires op.OpProjectInvite? && op.w == w && Perform(s, op).Ok?
    ensures Managed(Step(s, op), w)
  {
    assert Manages(s, op.u, w);
    assert Manages(Step(s, op), op.u, w);
  }

  lemma {:induction false} KeyedInvitee(invites: seq<Invite>, u: nat) returns (i: nat)
    requires FirstKeyed(invites, u).Some?
    ensures i < |invites| && invites[i].invitee == u
  {
    if FirstKeyed(invites[..|invites| - 1], u).Some? {
      i := KeyedInvitee(invites[..|invites| - 1], u);
    } else {
      i := |invites| - 1;
    }
  }

  lemma InvitesKeep(s: State, u: nat, w: nat, invites: seq<Invite>)
    requires Manages(s, u, w)
    ensures Managed(InviteAll(s, w, invites), w) <==> !BatchReplacesManagers(s, OpInvites(u, w, invites), w)
  {
    var t := InviteAll(s, w, invites);
    if BatchReplacesManagers(s, OpInvites(u, w, invites), w) {
      forall v ensures !Manages(t, v, w) { BatchLeavesOut(s, u, w, invites, v); }
    } else if v :| v in Managers(s, w) && !Reseats(s, w, invites, v) {
      InManagers(s, v, w);
      BatchManagers(s, w, invites, v);
      assert Manages(t, v, w);
    } else {
      var i :| 0 <= i < |invites| && Reseats(s, w, invites, invites[i].invitee)
               && Manager(FirstKeyed(invites, invites[i].invitee).value.role);
      BatchManagers(s, w, invites, invites[i].invitee);
      assert Manages(t, invites[i].invitee, w);
    }
  }

  lemma BatchLeavesOut(s: State, u: nat, w: nat, invites: seq<Invite>, v: nat)
    requires BatchReplacesManagers(s, OpInvites(u, w, invites), w)
    ensures !Manages(InviteAll(s, w, invites), v, w)
  {
    BatchManagers(s, w, invites, v);
    InManagers(s, v, w);
    if Reseats(s, w, invites, v) {
      var i := KeyedInvitee(invites, v);
      assert Reseats(s, w, invites, invites[i].invitee);
    }
  }

  lemma TargetedManager(s: State, op: Op, w: nat)
    requires w in s.workspaces && Managed(s, w) && Targets(op, w) && Perform(s, op).Ok?
    requires w in Step(s, op).workspaces
    ensures Managed(Step(s, op), w) <==> !LosesManagement(s, op, w)
  {
    match op
    case OpDelete(_, _) =>
    case OpInvites(u, _, invites) => InvitesKeep(s, u, w, invites);
    case OpProjectInvite(_, _, _, _, _) => ProjectInviteKeeps(s, op, w);
    case OpUpdateRole(u, _, target, role) => UpdateRoleKeeps(s, u, w, target, role);
    case OpRemove(u, _, target) => RemoveKeeps(s, u, w, target);
    case OpChangeRole(u, _, target, action) => ChangeRoleKeeps(s, u, w, target, action);
    case _ =>
  }

  /** What loses management is accepted. */
  lemma LossAccepted(s: State, op: Op, w: nat)
    requires LosesManagement(s, op, w)
    ensures Perform(s, op).Ok?
  {
    if op.OpUpdateRole? { InManagers(s, op.u, w); }
  }

  /** The exact ways in which a workspace loses its last manager. */
  lemma ManagementKept(s: State, op: Op, w: nat)
    requires w in s.workspaces && Managed(s, w) && w in Step(s, op).workspaces
    ensures Managed(Step(s, op), w) <==> !LosesManagement(s, op, w)
  {
    if Perform(s, op).Err? {
      if LosesManagement(s, op, w) { LossAccepted(s, op, w); }
    } else if Targets(op, w) {
      TargetedManager(s, op, w);
    } else {
      var u :| Manages(s, u, w);
      FramedManager(s, op, w, u);
    }
  }

  lemma NewIsManaged(s: State, op: Op, w: nat)
    requires NewWorkspace(s, op, w)
    ensures Managed(Step(s, op), w)
  {
    NewIsOwned(s, op, w);
    assert Manages(Step(s, op), Step(s, op).workspaces[w].owner, w);
  }

  /** No request among the first `n` took the last manager from `w` since it was last founded. */
  predicate NeverAbandoned(ops: seq<Op>, n: nat, w: nat)
    requires n <= |ops|
  {
    n == 0 || w !in After(ops, n - 1).workspaces
    || (!LosesManagement(After(ops, n - 1), ops[n - 1], w) && NeverAbandoned(ops, n - 1, w))
  }

  lemma LossNeedsManager(s: State, op: Op, w: nat)
    ensures LosesManagement(s, op, w) ==> Manages(s, op.u, w)
  {
    InManagers(s, op.u, w);
  }

  /** On every run a workspace has a manager until one of those requests, and none from then on. */
  lemma {:induction false} ManagersOnRuns(ops: seq<Op>, n: nat, w: nat)
    requires n <= |ops| && w in After(ops, n).workspaces
    ensures Managed(After(ops, n), w) <==> NeverAbandoned(ops, n, w)
  {
    if n > 0 {
      var s, op := After(ops, n - 1), ops[n - 1];
      if w !in s.workspaces {
        NewIsManaged(s, op, w);
      } else {
        ManagersOnRuns(ops, n - 1, w);
        LossNeedsManager(s, op, w);
        if Managed(s, w) { ManagementKept(s, op, w); } else { UnmanagedStep(s, op, w); }
      }
    }
  }

  lemma KeyedNotReplaced(s: State, op: Op, w: nat)
    requires KeysHeld(s)
    ensures !BatchReplacesManagers(s, op, w)
  {
    InManagers(s, op.u, w);
    if Manages(s, op.u, w) { assert Keyed(s.seats[(op.u, w)]); }
  }

  /** In particular where keys are always sent and the role route is not used. */
  lemma {:induction false} KeyedManagersStay(ops: seq<Op>, n: nat, w: nat)
    requires n <= |ops| && AllSendKeys(ops)
    requires forall i :: 0 <= i < |ops| ==> !ops[i].OpUpdateRole?
    ensures NeverAbandoned(ops, n, w)
  {
    if n > 0 && w in After(ops, n - 1).workspaces {
      KeyedManagersStay(ops, n - 1, w);
      AlwaysKeyed(ops, n - 1);
      KeyedNotReplaced(After(ops, n - 1), ops[n - 1], w);
    }
  }

  /** Four requests by one user, each accepted, that leave a workspace to nobody. */
  const ABANDONING: seq<Op> := [
    OpRegister(0, "0", None), OpCreate(0, 1, "key"), OpChangeRole(0, 1, 0, Promote), OpUpdateRole(0, 1, 0, Member)]

  function Abandoned(role: Role): State {
    State(map[0 := User("bill_" + "0")], map[1 := Workspace(0, Shared, Free, None)],
          map[(0, 1) := Membership(role, Active, "key")])
  }

  lemma CreatedThere()
    ensures After(ABANDONING, 2) == Abandoned(Owner)
  {
  }

  /** With the role route the claim is false: after self-promotion an owner is an ordinary admin. */
  lemma ManagersCanRunOut()
    ensures AllWellFormed(ABANDONING) && AllSendKeys(ABANDONING)
    ensures After(ABANDONING, 4) == Abandoned(Member)
    ensures 1 in After(ABANDONING, 4).workspaces && !Managed(After(ABANDONING, 4), 1)
  {
    CreatedThere();
    assert After(ABANDONING, 3) == Abandoned(Admin);
    assert Abandoned(Admin).seats[(0, 1)].role == Admin;
    assert After(ABANDONING, 4) == Abandoned(Member);
  }

  /** Three requests that do the same through an empty key: the owner is invited again, as a member. */
  const REINVITING: seq<Op> := [
    OpRegister(0, "0", None), OpCreate(0, 1, ""), OpInvites(0, 1, [Invite(0, Member, "key")])]

  function Keyless(): State {
    State(map[0 := User("bill_" + "0")], map[1 := Workspace(0, Shared, Free, None)],
          map[(0, 1) := Membership(Owner, Active, "")])
  }

  lemma KeylessThere()
    ensures After(REINVITING, 2) == Keyless()
  {
    assert After(REINVITING, 0) == State(map[], map[], map[]);
    assert After(REINVITING, 1) == State(map[0 := User("bill_" + "0")], map[], map[]);
  }

  /** Without keys it is false even for runs that never touch a role. */
  lemma KeylessOwnersCanBeReplaced()
    ensures AllWellFormed(REINVITING) && After(REINVITING, 3) == Abandoned(Member)
    ensures 1 in After(REINVITING, 3).workspaces && !Managed(After(REINVITING, 3), 1)
  {
    KeylessThere();
    var invites := [Invite(0, Member, "key")];
    assert invites[..0] == [] && InviteAll(Keyless(), 1, []) == Keyless();
    assert InviteAll(Keyless(), 1, invites) == InviteOne(Keyless(), 1, invites[0]);
    assert After(REINVITING, 3) == Abandoned(Member);
  }

  /** Without a manager nothing in the workspace's seats ever changes again, and it cannot be deleted. */
  lemma UnmanagedStep(s: State, op: Op, w: nat)
    requires w in s.workspaces && !Managed(s, w)
    ensures w in Step(s, op).workspaces && SameSeats(s, Step(s, op), w) && !Managed(Step(s, op), w)
  {
    if Targets(op, w) {
      assert !Manages(s, op.u, w);
      assert Step(s, op) == s;
    } else {
      StepFrames(s, op, w);
      forall u ensures !Manages(Step(s, op), u, w) { assert !Manages(s, u, w); }
    }
  }

  lemma {:induction false} UnmanagedForever(ops: seq<Op>, m: nat, n: nat, w: nat)
    requires m <= n <= |ops|
    requires w in After(ops, m).workspaces && !Managed(After(ops, m), w)
    ensures w in After(ops, n).workspaces && SameSeats(After(ops, m), After(ops, n), w) && !Managed(After(ops, n), w)
  {
    if m < n {
      UnmanagedForever(ops, m, n - 1, w);
      UnmanagedStep(After(ops, n - 1), ops[n - 1], w);
    }
  }
}
