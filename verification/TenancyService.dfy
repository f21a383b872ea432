/** The routes as they run: tables updated row by row, each call answering with an error or nothing. */
module TenancyService {
  import opened Text
  import opened Tenancy
  import opened MembershipLaws
  import opened BillingLaws
  import opened RequestLaws

  /** What a batch reports for one entry. */
  function InviteReply(s: State, w: nat, i: Invite): string {
    if i.invitee !in s.users then "User not found"
    else if (i.invitee, w) in s.seats && (i.key == "" || (s.seats[(i.invitee, w)].key != ""
                                                          && s.seats[(i.invitee, w)].status.Active?))
    then "Already a member"
    else ""
  }

  /** An entry is reported without error exactly when it changed the tables, as unknown exactly when its user is, and
      otherwise as a member. */
  lemma ReplyTellsChange(s: State, w: nat, i: Invite)
    ensures InviteReply(s, w, i) == "" <==> InviteOne(s, w, i) != s
    ensures InviteReply(s, w, i) == "User not found" <==> i.invitee !in s.users
    ensures InviteReply(s, w, i) in ["", "User not found", "Already a member"]
  {
  }

  /** The status line of a reconciliation. */
  function ReconcileStatus(billing: Option<string>, reply: Reply): string {
    if billing.None? then "no_account"
    else match reply
         case Refused => "resolver_refused"
         case Unreachable => "resolver_unreachable"
         case Answered(_, status) => if Lower(status) == "" then "inactive" else Lower(status)
  }

  /** The status line: `active` for a paying account, otherwise what the resolver said in small letters, never empty. */
  lemma StatusExactly(id: string, reply: Reply)
    ensures PaysNow(reply) ==> ReconcileStatus(Some(id), reply) == "active"
    ensures reply.Answered? ==>
              var status := ReconcileStatus(Some(id), reply);
              && status != "" && Lower(status) == status
              && (if reply.status == "" then status == "inactive" else AnyCase(reply.status, status))
  {
    if reply.Answered? { AnyCaseExactly(reply.status, "active"); }
  }

  /** The state and answer a request must leave. */
  predicate Served(before: State, op: Op, after: State, error: Option<Error>) {
    match Perform(before, op)
    case Ok(t) => after == t && error.None?
    case Err(e) => after == before && error == Some(e)
  }

  class Database {
    var users: map<nat, User>
    var workspaces: map<nat, Workspace>
    var seats: map<Seat, Membership>

    ghost function Abstract(): State
      reads this
    {
      State(users, workspaces, seats)
    }

    /** Kept by every route, whatever the order of calls. */
    ghost predicate Valid()
      reads this
    {
      SeatsSound(Abstract()) && AccountsSound(Abstract())
    }

    constructor ()
      ensures Valid() && Abstract() == State(map[], map[], map[])
    {
      users, workspaces, seats := map[], map[], map[];
    }

    ghost method Keep(before: State, op: Op)
      requires SeatsSound(before) && AccountsSound(before) && WellFormed(op)
      requires Abstract() == Step(before, op)
      ensures Valid()
    {
      StepSound(before, op);
      StepAccounts(before, op);
    }

    /** `get_membership` and the role check of every management route. */
    method CheckManager(user: nat, workspace: nat) returns (error: Option<Error>)
      ensures error == Refusal(Abstract(), user, workspace)
    {
      if (user, workspace) !in seats || seats[(user, workspace)].status != Active { return Some(NotFound); }
      if !Manager(seats[(user, workspace)].role) { return Some(Authorization); }
      return None;
    }

    method RegisterUser(user: nat, ulid: string, personal: Option<nat>) returns (error: Option<Error>)
      requires Valid()
      modifies this
      ensures Valid() && Served(old(Abstract()), OpRegister(user, ulid, personal), Abstract(), error)
    {
      ghost var before := Abstract();
      if user in users { return Some(Conflict); }
      if exists u :: u in users && users[u].billing == "bill_" + ulid { return Some(Integrity); }
      var savepoint := users;
      users := users[user := User("bill_" + ulid)];
      if personal.Some? {
        if personal.value in workspaces {
          users := savepoint;
          return Some(Integrity);
        }
        workspaces := workspaces[personal.value := Workspace(user, Personal, Free, None)];
        seats := seats[(user, personal.value) := Membership(Owner, Active, SEALED)];
      }
      Keep(before, OpRegister(user, ulid, personal));
      return None;
    }

    method CreateWorkspace(user: nat, workspace: nat, key: string) returns (error: Option<Error>)
      requires Valid()
      modifies this
      ensures Valid() && Served(old(Abstract()), OpCreate(user, workspace, key), Abstract(), error)
    {
      ghost var before := Abstract();
      if user !in users { return Some(Authorization); }
      if workspace in workspaces { return Some(Integrity); }
      workspaces := workspaces[workspace := Workspace(user, Shared, Free, None)];
      seats := seats[(user, workspace) := Membership(Owner, Active, key)];
      Keep(before, OpCreate(user, workspace, key));
      return None;
    }

    method DeleteWorkspace(user: nat, workspace: nat) returns (error: Option<Error>)
      requires Valid()
      modifies this
      ensures Valid() && Served(old(Abstract()), OpDelete(user, workspace), Abstract(), error)
    {
      ghost var before := Abstract();
      if (user, workspace) !in seats || seats[(user, workspace)].status != Active { return Some(NotFound); }
      assert SeatSound(before, (user, workspace));
      if seats[(user, workspace)].role != Owner { return Some(Authorization); }
      if workspaces[workspace].kind == Personal { return Some(Authorization); }
      workspaces := workspaces - {workspace};
      seats := map k | k in seats && k.1 != workspace :: seats[k];
      Keep(before, OpDelete(user, workspace));
      return None;
    }

    method ProcessMemberInvites(user: nat, workspace: nat, invites: seq<Invite>)
      returns (error: Option<Error>, results: seq<string>, anyCreated: bool)
      requires Valid() && forall i :: 0 <= i < |invites| ==> Invitable(invites[i].role)
      modifies this
      ensures Valid() && Served(old(Abstract()), OpInvites(user, workspace, invites), Abstract(), error)
      ensures error.None? ==> |results| == |invites|
      ensures error.None? ==> forall i :: 0 <= i < |invites| ==>
        results[i] == InviteReply(InviteAll(old(Abstract()), workspace, invites[..i]), workspace, invites[i])
      ensures error.None? ==> (anyCreated <==> "" in results)
    {
      ghost var before := Abstract();
      results, anyCreated := [], false;
      error := CheckManager(user, workspace);
      if error.Some? { return; }
      var n := 0;
      while n < |invites|
        invariant n <= |invites| && |results| == n
        invariant Abstract() == InviteAll(before, workspace, invites[..n])
        invariant forall i :: 0 <= i < n ==>
          results[i] == InviteReply(InviteAll(before, workspace, invites[..i]), workspace, invites[i])
        invariant anyCreated <==> "" in results
      {
        assert invites[..n + 1][..n] == invites[..n];
        var reply := Invite(workspace, invites[n]);
        results, anyCreated := results + [reply], anyCreated || reply == "";
        n := n + 1;
      }
      assert invites[..n] == invites;
      Keep(before, OpInvites(user, workspace, invites));
    }

    /** One entry of a batch. */
    method Invite(workspace: nat, invite: Invite) returns (reply: string)
      modifies this
      ensures Abstract() == InviteOne(old(Abstract()), workspace, invite)
      ensures reply == InviteReply(old(Abstract()), workspace, invite)
    {
      var seat := (invite.invitee, workspace);
      if invite.invitee !in users { return "User not found"; }
      if seat in seats {
        var m := seats[seat];
        if invite.key != "" && (m.key == "" || m.status == Invited) {
          m := m.(key := invite.key);
          m := m.(status := Active);
          m := m.(role := invite.role);
          seats := seats[seat := m];
          return "";
        }
        return "Already a member";
      }
      seats := seats[seat := Membership(invite.role, if invite.key != "" then Active else Invited, invite.key)];
      return "";
    }

    /** The transaction of a move out of a personal workspace: the new workspace with both seats, or nothing. */
    method FoundFor(user: nat, invite: Invite, ownerKey: string, newWorkspace: nat) returns (ok: bool)
      requires SeatsSound(Abstract())
      modifies this
      ensures ok <==> newWorkspace !in old(workspaces) && invite.invitee != user
      ensures ok ==> Abstract() == Seated(Founded(old(Abstract()), newWorkspace, user, Shared, ownerKey),
                                          invite.invitee, newWorkspace, Membership(invite.role, Active, invite.key))
      ensures !ok ==> Abstract() == old(Abstract())
    {
      ghost var before := Abstract();
      var savedWorkspaces, savedSeats := workspaces, seats;
      if newWorkspace in workspaces { return false; }
      workspaces := workspaces[newWorkspace := Workspace(user, Shared, Free, None)];
      seats := seats[(user, newWorkspace) := Membership(Owner, Active, ownerKey)];
      NewHasNoSeats(before, newWorkspace, invite.invitee);
      if (invite.invitee, newWorkspace) in seats {
        workspaces, seats := savedWorkspaces, savedSeats;
        return false;
      }
      seats := seats[(invite.invitee, newWorkspace) := Membership(invite.role, Active, invite.key)];
      return true;
    }

    method InviteToProject(user: nat, workspace: nat, invite: Invite, ownerKey: string, newWorkspace: nat)
      returns (error: Option<Error>)
      requires Valid() && Invitable(invite.role)
      modifies this
      ensures Valid()
      ensures var op := OpProjectInvite(user, workspace, invite, ownerKey, newWorkspace);
              Served(old(Abstract()), op, Abstract(), error)
    {
      ghost var before := Abstract();
      var refusal := CheckManager(user, workspace);
      if refusal.Some? { return Some(Authorization); }
      assert SeatSound(before, (user, workspace));
      if invite.invitee !in users { return Some(NotFound); }
      if workspaces[workspace].kind == Personal {
        if ownerKey == "" { return Some(BodyValidation); }
        var moved := FoundFor(user, invite, ownerKey, newWorkspace);
        if !moved { return Some(Integrity); }
      } else {
        if (invite.invitee, workspace) in seats { return Some(BodyValidation); }
        seats := seats[(invite.invitee, workspace) := Membership(invite.role, Active, invite.key)];
      }
      Keep(before, OpProjectInvite(user, workspace, invite, ownerKey, newWorkspace));
      return None;
    }

    method UpdateMemberRole(user: nat, workspace: nat, target: nat, role: Role) returns (error: Option<Error>)
      requires Valid()
      modifies this
      ensures Valid() && Served(old(Abstract()), OpUpdateRole(user, workspace, target, role), Abstract(), error)
    {
      ghost var before := Abstract();
      error := CheckManager(user, workspace);
      if error.Some? { return; }
      if (target, workspace) !in seats { return Some(NotFound); }
      if seats[(target, workspace)].role == Owner { return Some(Authorization); }
      if role == Owner { return Some(Authorization); }
      seats := seats[(target, workspace) := seats[(target, workspace)].(role := role)];
      Keep(before, OpUpdateRole(user, workspace, target, role));
    }

    method RemoveMember(user: nat, workspace: nat, target: nat) returns (error: Option<Error>)
      requires Valid()
      modifies this
      ensures Valid() && Served(old(Abstract()), OpRemove(user, workspace, target), Abstract(), error)
    {
      ghost var before := Abstract();
      if (user, workspace) !in seats || seats[(user, workspace)].status != Active { return Some(NotFound); }
      if (target, workspace) !in seats { return Some(NotFound); }
      if seats[(target, workspace)].role == Owner { return Some(Authorization); }
      if seats[(user, workspace)].role == Admin && seats[(target, workspace)].role == Admin {
        return Some(Authorization);
      }
      if !Manager(seats[(user, workspace)].role) { return Some(Authorization); }
      seats := seats - {(target, workspace)};
      Keep(before, OpRemove(user, workspace, target));
      return None;
    }

    method ChangeMemberRole(user: nat, workspace: nat, target: nat, action: RoleAction) returns (error: Option<Error>)
      requires Valid()
      modifies this
      ensures Valid() && Served(old(Abstract()), OpChangeRole(user, workspace, target, action), Abstract(), error)
    {
      ghost var before := Abstract();
      error := CheckManager(user, workspace);
      if error.Some? { return; }
      if (target, workspace) !in seats { return Some(NotFound); }
      var m := seats[(target, workspace)];
      if action == Demote {
        if Manager(m.role) {
          var count := |Managers(State(users, workspaces, seats), workspace)|;
          if count <= 1 { return Some(BodyValidation); }
        }
        m := m.(role := Member);
      } else {
        m := m.(role := Admin);
      }
      seats := seats[(target, workspace) := m];
      Keep(before, OpChangeRole(user, workspace, target, action));
    }

    /** Answers the workspace's own billing id, reserving one on the first call. */
    method InitializeWorkspaceBilling(user: nat, workspace: nat, ulid: string)
      returns (error: Option<Error>, id: string)
      requires Valid()
      modifies this
      ensures Valid() && Served(old(Abstract()), OpInitBilling(user, workspace, ulid), Abstract(), error)
      ensures error.None? ==> workspace in workspaces && workspaces[workspace].billing == Some(id)
    {
      ghost var before := Abstract();
      id := "";
      error := CheckManager(user, workspace);
      if error.Some? { return; }
      assert SeatSound(before, (user, workspace));
      var ws := workspaces[workspace];
      if ws.tier == Pro && ws.billing.Some? { return None, ws.billing.value; }
      if ws.billing.None? {
        id := "ws_bill_" + ulid;
        if exists w :: w in workspaces && workspaces[w].billing == Some(id) { return Some(Integrity), ""; }
        ws := ws.(billing := Some(id));
        workspaces := workspaces[workspace := ws];
      }
      Keep(before, OpInitBilling(user, workspace, ulid));
      return None, ws.billing.value;
    }

    /** Mirrors the resolver's reply about the reserved id onto the workspace's tier. */
    method ReconcileWorkspaceBilling(user: nat, workspace: nat, reply: Reply)
      returns (error: Option<Error>, tier: Tier, status: string)
      requires Valid()
      modifies this
      ensures Valid() && Served(old(Abstract()), OpReconcile(user, workspace, reply), Abstract(), error)
      ensures error.None? ==> workspace in workspaces && tier == workspaces[workspace].tier
      ensures error.None? ==> status == ReconcileStatus(workspaces[workspace].billing, reply)
    {
      ghost var before := Abstract();
      tier, status := Free, "";
      error := CheckManager(user, workspace);
      if error.Some? { return; }
      assert SeatSound(before, (user, workspace)) && AccountSound(before, workspace);
      var ws := workspaces[workspace];
      if ws.billing.None? { return None, Free, "no_account"; }
      match reply
      case Refused => return None, ws.tier, "resolver_refused";
      case Unreachable => return None, ws.tier, "resolver_unreachable";
      case Answered(plan, reported) =>
        if Lower(plan) == "pro" && Lower(reported) == "active" {
          if ws.tier != Pro { workspaces := workspaces[workspace := ws.(tier := Pro)]; }
          tier, status := Pro, "active";
        } else {
          if ws.tier != Free { workspaces := workspaces[workspace := ws.(tier := Free)]; }
          tier, status := Free, if Lower(reported) == "" then "inactive" else Lower(reported);
        }
        assert workspaces == Rebilled(before, workspace, tier, ws.billing).workspaces;
        Keep(before, OpReconcile(user, workspace, reply));
    }

    /** The user path: `listed` is the user's active owner and admin seats, in whatever order the database gives
        them. */
    method AuthorizeBilling(user: nat, id: string, listed: seq<nat>) returns (granted: Option<(nat, Role)>)
      requires Valid() && forall w :: w in listed <==> Manages(Abstract(), user, w)
      ensures granted.Some? <==> Qualifies(Abstract(), user, id)
      ensures granted.Some? ==> ListedFirst(Abstract(), user, id, listed, granted.value.0)
      ensures granted.Some? ==> Manages(Abstract(), user, granted.value.0)
                                && granted.value.1 == seats[(user, granted.value.0)].role
    {
      var n := 0;
      while n < |listed|
        invariant 0 <= n <= |listed|
        invariant NoneAccepted(Abstract(), user, id, listed[..n])
      {
        var w := listed[n];
        assert Manages(Abstract(), user, w) && SeatSound(Abstract(), (user, w));
        var m := seats[(user, w)];
        var s := State(users, workspaces, seats);
        if OwnBilling(s, w) == id || (EffectiveBilling(s, w) == id && m.role == Owner) {
          assert AcceptedAt(s, user, id, listed, n);
          return Some((w, m.role));
        }
        assert listed[..n + 1] == listed[..n] + [w];
        n := n + 1;
      }
      assert listed[..n] == listed;
      return None;
    }
  }

  lemma NewHasNoSeats(s: State, w: nat, u: nat)
    requires SeatsSound(s) && w !in s.workspaces
    ensures (u, w) !in s.seats
  {
  }

  ghost predicate NoneAccepted(s: State, u: nat, id: string, ws: seq<nat>) {
    forall w :: w in ws && w in s.workspaces ==> !Accepts(s, u, w, id)
  }

  ghost predicate AcceptedAt(s: State, u: nat, id: string, ws: seq<nat>, i: nat) {
    i < |ws| && ws[i] in s.workspaces && Accepts(s, u, ws[i], id) && NoneAccepted(s, u, id, ws[..i])
  }

  /** `w` is the first listed workspace that accepts the id. */
  ghost predicate ListedFirst(s: State, u: nat, id: string, ws: seq<nat>, w: nat) {
    exists i: nat :: AcceptedAt(s, u, id, ws, i) && ws[i] == w
  }
}
