/** What single membership requests may change, what undoes them, and what sending them again does. */
module SeatLaws {
  import opened Text
  import opened Tenancy
  import opened MembershipLaws
  import opened TenancyService

  /** Only an active owner or admin of an existing workspace changes its seats, by any route. */
  lemma OnlyManagersChangeSeats(s: State, op: Op, w: nat)
    requires w in s.workspaces && !SameSeats(s, Step(s, op), w)
    ensures Manages(s, op.u, w) && Perform(s, op).Ok?
  {
    if !Targets(op, w) { StepFrames(s, op, w); }
  }

  /** A user manages an existing workspace after a request only if they did before or a manager made it so. */
  lemma NoSelfPromotion(s: State, op: Op, u: nat, w: nat)
    requires w in s.workspaces && !Manages(s, u, w) && Manages(Step(s, op), u, w)
    ensures Manages(s, op.u, w) && op.u != u
  {
    OnlyManagersChangeSeats(s, op, w);
  }

  // ---------------------------------------------------------------- undoing

  /** Giving back the former role restores everything, provided the caller still manages the workspace. */
  lemma RoleUpdateUndone(s: State, u: nat, w: nat, target: nat, role: Role)
    requires UpdateMemberRole(s, u, w, target, role).Ok?
    ensures var t := UpdateMemberRole(s, u, w, target, role).value;
            var back := UpdateMemberRole(t, u, w, target, s.seats[(target, w)].role);
            (back == Ok(s)) <==> (u != target || Manager(role))
  {
    var t := UpdateMemberRole(s, u, w, target, role).value;
    assert t.seats[(target, w) := s.seats[(target, w)]] == s.seats;
  }

  /** Demoting a member who was just promoted restores the workspace; the count check never stands in the way. */
  lemma PromotionUndone(s: State, u: nat, w: nat, target: nat)
    requires ChangeMemberRole(s, u, w, target, Promote).Ok?
    requires ActiveIn(s, target, w) && s.seats[(target, w)].role == Member
    ensures ChangeMemberRole(ChangeMemberRole(s, u, w, target, Promote).value, u, w, target, Demote) == Ok(s)
  {
    var t := ChangeMemberRole(s, u, w, target, Promote).value;
    assert u != target;
    TwoInSet(t, w, u, target);
    assert t.seats[(target, w) := s.seats[(target, w)]] == s.seats;
  }

  lemma TwoInSet(s: State, w: nat, u: nat, v: nat)
    requires u != v && Manages(s, u, w) && Manages(s, v, w)
    ensures |Managers(s, w)| > 1
  {
    var a: Seat, b: Seat := (u, w), (v, w);
    assert a in s.seats && b in s.seats;
    assert u in Managers(s, w) && v in Managers(s, w);
    assert {u, v} <= Managers(s, w);
    CardinalityMonotone({u, v}, Managers(s, w));
  }

  lemma CardinalityMonotone(a: set<nat>, b: set<nat>)
    requires a <= b
    ensures |a| <= |b|
  {
    assert b == a + (b - a);
  }

  /** A removed member is gone and can be invited again; everybody else keeps their seat. */
  lemma RemovedCanReturn(s: State, u: nat, w: nat, target: nat, role: Role, key: string)
    requires SeatsSound(s) && RemoveMember(s, u, w, target).Ok? && s.workspaces[w].kind.Shared?
    ensures var t := RemoveMember(s, u, w, target).value;
            var invited := InviteToProject(t, u, w, Invite(target, role, key), "", 0);
            && !ActiveIn(t, target, w)
            && (forall v :: v != target ==> (ActiveIn(t, v, w) <==> ActiveIn(s, v, w)))
            && invited == Ok(Seated(s, target, w, Membership(role, Active, key)))
  {
    assert SeatSound(s, (u, w)) && SeatSound(s, (target, w));
    var t := RemoveMember(s, u, w, target).value;
    var m := Membership(role, Active, key);
    assert t.seats[(target, w) := m] == s.seats[(target, w) := m];
  }

  // ---------------------------------------------------------------- batches of invitations

  /** The entry has nothing left to do. */
  predicate Settled(s: State, w: nat, i: Invite) {
    i.invitee in s.users ==>
      && (i.invitee, w) in s.seats
      && (i.key != "" ==> s.seats[(i.invitee, w)].key != "" && s.seats[(i.invitee, w)].status.Active?)
  }

  lemma SettledIgnored(s: State, w: nat, i: Invite)
    requires Settled(s, w, i)
    ensures InviteOne(s, w, i) == s && InviteReply(s, w, i) != ""
  {
  }

  lemma StaysSettled(s: State, w: nat, i: Invite, j: Invite)
    ensures Settled(InviteOne(s, w, i), w, i)
    ensures Settled(s, w, j) ==> Settled(InviteOne(s, w, i), w, j)
  {
  }

  /** After a batch every entry is settled: invited users with a key are active, those without one are seated. */
  lemma {:induction false} BatchSettles(s: State, w: nat, invites: seq<Invite>, j: nat)
    requires j < |invites|
    ensures Settled(InviteAll(s, w, invites), w, invites[j])
  {
    var before, last := invites[..|invites| - 1], invites[|invites| - 1];
    var t := InviteAll(s, w, before);
    StaysSettled(t, w, last, invites[j]);
    if j < |before| { BatchSettles(s, w, before, j); }
  }

  lemma {:induction false} SettledBatchIgnored(s: State, w: nat, invites: seq<Invite>)
    requires forall j :: 0 <= j < |invites| ==> Settled(s, w, invites[j])
    ensures InviteAll(s, w, invites) == s
  {
    if invites != [] {
      SettledBatchIgnored(s, w, invites[..|invites| - 1]);
      SettledIgnored(s, w, invites[|invites| - 1]);
    }
  }

  /** Sending a batch again changes nothing and reports every entry as an error. */
  lemma ResentBatchIgnored(s: State, w: nat, invites: seq<Invite>, j: nat)
    requires j < |invites|
    ensures var t := InviteAll(s, w, invites);
            InviteAll(t, w, invites) == t && InviteReply(t, w, invites[j]) != ""
  {
    var t := InviteAll(s, w, invites);
    forall k | 0 <= k < |invites| ensures Settled(t, w, invites[k]) { BatchSettles(s, w, invites, k); }
    SettledBatchIgnored(t, w, invites);
    SettledIgnored(t, w, invites[j]);
  }
}
