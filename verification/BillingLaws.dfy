/** Billing accounts over whole runs: who owns which id, when it changes, and who may act on it. */
module BillingLaws {
  import opened Text
  import opened Tenancy
  import opened MembershipLaws
  import opened RequestLaws

  // ---------------------------------------------------------------- ids

  predicate PoolId(id: string) {
    |id| >= 5 && id[..5] == "bill_"
  }

  predicate ReservedId(id: string) {
    |id| >= 8 && id[..8] == "ws_bill_"
  }

  lemma PrefixesDiffer(id: string)
    ensures PoolId(id) ==> !ReservedId(id) && id != ""
    ensures ReservedId(id) ==> id != ""
  {
    if PoolId(id) { assert id[..5][0] == 'b'; }
    if |id| >= 8 { assert id[..8][0] == id[0]; }
  }

  lemma Prefixed(ulid: string)
    ensures PoolId("bill_" + ulid) && ReservedId("ws_bill_" + ulid)
  {
  }

  predicate AccountSound(s: State, w: nat)
    requires w in s.workspaces
  {
    var ws := s.workspaces[w];
    && ws.owner in s.users
    && (ws.tier.Pro? ==> ws.billing.Some?)
    && (ws.billing.Some? ==> ReservedId(ws.billing.value))
  }

  ghost predicate PoolsDistinct(s: State) {
    forall u, v :: u in s.users && v in s.users && u != v ==> s.users[u].billing != s.users[v].billing
  }

  ghost predicate ReservedDistinct(s: State) {
    forall v, w :: v in s.workspaces && w in s.workspaces && v != w && s.workspaces[v].billing.Some?
                   ==> s.workspaces[v].billing != s.workspaces[w].billing
  }

  /** Pools belong to users, reserved ids to workspaces, no two alike; pro needs a reserved id. */
  ghost predicate AccountsSound(s: State) {
    && (forall w :: w in s.workspaces ==> AccountSound(s, w))
    && (forall u :: u in s.users ==> PoolId(s.users[u].billing))
    && PoolsDistinct(s)
    && ReservedDistinct(s)
  }

  lemma RegisteredAccounts(s: State, u: nat, ulid: string)
    requires AccountsSound(s) && u !in s.users && !UserHas(s, "bill_" + ulid)
    ensures AccountsSound(s.(users := s.users[u := User("bill_" + ulid)]))
  {
  }

  lemma FoundedAccounts(s: State, w: nat, owner: nat, kind: Kind, key: string)
    requires AccountsSound(s) && owner in s.users && w !in s.workspaces
    ensures AccountsSound(Founded(s, w, owner, kind, key))
  {
  }

  lemma RebilledAccounts(s: State, w: nat, tier: Tier, billing: Option<string>)
    requires AccountsSound(s) && w in s.workspaces
    requires tier.Pro? ==> billing.Some?
    requires billing.Some? ==> ReservedId(billing.value)
    requires billing == s.workspaces[w].billing || (billing.Some? && !WorkspaceHas(s, billing.value))
    ensures AccountsSound(Rebilled(s, w, tier, billing))
  {
  }

  lemma DeletedAccounts(s: State, u: nat, w: nat)
    requires AccountsSound(s) && DeleteWorkspace(s, u, w).Ok?
    ensures AccountsSound(DeleteWorkspace(s, u, w).value)
  {
  }

  lemma BillingStep(s: State, op: Op)
    requires AccountsSound(s) && SeatsSound(s) && Perform(s, op).Ok?
    requires op.OpInitBilling? || op.OpReconcile?
    ensures AccountsSound(Step(s, op))
  {
    assert AccountSound(s, op.w);
    match op
    case OpInitBilling(u, w, ulid) =>
      Prefixed(ulid);
      if s.workspaces[w].billing.None? { RebilledAccounts(s, w, s.workspaces[w].tier, Some("ws_bill_" + ulid)); }
    case OpReconcile(u, w, reply) =>
      if s.workspaces[w].billing.Some? {
        RebilledAccounts(s, w, if ActivePro(reply) then Pro else Free, s.workspaces[w].billing);
      }
    case _ =>
  }

  lemma SeatsDoNotMatter(s: State, t: State)
    requires AccountsSound(s) && t.users == s.users && t.workspaces == s.workspaces
    ensures AccountsSound(t)
  {
  }

  lemma FoundingStep(s: State, op: Op)
    requires AccountsSound(s) && SeatsSound(s) && Perform(s, op).Ok?
    requires op.OpRegister? || op.OpCreate? || op.OpProjectInvite?
    ensures AccountsSound(Step(s, op))
  {
    match op
    case OpRegister(u, ulid, personal) =>
      RegisteredAccounts(s, u, ulid);
      if personal.Some? {
        FoundedAccounts(s.(users := s.users[u := User("bill_" + ulid)]), personal.value, u, Personal, SEALED);
      }
    case OpCreate(u, w, key) => FoundedAccounts(s, w, u, Shared, key);
    case OpProjectInvite(u, w, invite, ownerKey, v) =>
      assert SeatSound(s, (u, w));
      if s.workspaces[w].kind.Personal? {
        FoundedAccounts(s, v, u, Shared, ownerKey);
        SeatsDoNotMatter(Founded(s, v, u, Shared, ownerKey), Step(s, op));
      } else {
        SeatsDoNotMatter(s, Step(s, op));
      }
    case _ =>
  }

  lemma SeatingStep(s: State, op: Op)
    requires op.OpInvites? || op.OpUpdateRole? || op.OpRemove? || op.OpChangeRole?
    ensures Step(s, op).users == s.users && Step(s, op).workspaces == s.workspaces
  {
    if op.OpInvites? { InvitesOnlySeat(s, op.w, op.invites); }
  }

  /** Every request keeps billing ids apart and pro workspaces reserved. */
  lemma {:induction false} StepAccounts(s: State, op: Op)
    requires AccountsSound(s) && SeatsSound(s)
    ensures AccountsSound(Step(s, op))
  {
    if Perform(s, op).Ok? {
      if op.OpRegister? || op.OpCreate? || op.OpProjectInvite? {
        FoundingStep(s, op);
      } else if op.OpDelete? {
        DeletedAccounts(s, op.u, op.w);
      } else if op.OpInitBilling? || op.OpReconcile? {
        BillingStep(s, op);
      } else {
        SeatingStep(s, op);
        SeatsDoNotMatter(s, Step(s, op));
      }
    }
  }

  lemma {:induction false} AlwaysAccounts(ops: seq<Op>, n: nat)
    requires n <= |ops| && AllWellFormed(ops)
    ensures AccountsSound(After(ops, n)) && SeatsSound(After(ops, n))
  {
    AlwaysSound(ops, n);
    if n > 0 {
      AlwaysAccounts(ops, n - 1);
      StepAccounts(After(ops, n - 1), ops[n - 1]);
    }
  }

  // ---------------------------------------------------------------- reservation and tier

  lemma StepKeepsReserved(s: State, op: Op, w: nat)
    requires w in s.workspaces && w in Step(s, op).workspaces
    ensures Step(s, op).workspaces[w].owner == s.workspaces[w].owner
    ensures s.workspaces[w].billing.Some? ==> Step(s, op).workspaces[w].billing == s.workspaces[w].billing
  {
    if op.OpInvites? { InvitesOnlySeat(s, op.w, op.invites); }
  }

  /** Workspace `w` exists from the `m`-th state to the `n`-th. */
  ghost predicate Lives(ops: seq<Op>, m: nat, n: nat, w: nat)
    requires m <= n <= |ops|
  {
    forall k: nat :: m <= k <= n ==> w in After(ops, k).workspaces
  }

  /** A reserved id outlives every later request; so does the workspace's owner. */
  lemma {:induction false} ReservedForever(ops: seq<Op>, m: nat, n: nat, w: nat)
    requires m <= n <= |ops| && Lives(ops, m, n, w)
    requires After(ops, m).workspaces[w].billing.Some?
    ensures After(ops, n).workspaces[w].billing == After(ops, m).workspaces[w].billing
    ensures After(ops, n).workspaces[w].owner == After(ops, m).workspaces[w].owner
  {
    if m < n {
      assert w in After(ops, n).workspaces && w in After(ops, n - 1).workspaces;
      ReservedForever(ops, m, n - 1, w);
      StepKeepsReserved(After(ops, n - 1), ops[n - 1], w);
    }
  }

  /** The request brings the resolver's answer about workspace `w`'s reserved id. */
  predicate Answers(s: State, op: Op, w: nat) {
    && op.OpReconcile? && op.w == w && op.reply.Answered?
    && Controls(s, op.u, w)
    && w in s.workspaces && s.workspaces[w].billing != None
  }

  /** The resolver's last answer about `w` since it was created. */
  function LastAnswer(ops: seq<Op>, n: nat, w: nat): Option<Reply>
    requires n <= |ops|
  {
    if n == 0 || w !in After(ops, n - 1).workspaces then None
    else if Answers(After(ops, n - 1), ops[n - 1], w) then Some(ops[n - 1].reply)
    else LastAnswer(ops, n - 1, w)
  }

  lemma StepKeepsTier(s: State, op: Op, w: nat)
    requires w in Step(s, op).workspaces
    ensures w !in s.workspaces ==> Step(s, op).workspaces[w].tier == Free
    ensures w in s.workspaces && !Answers(s, op, w) ==> Step(s, op).workspaces[w].tier == s.workspaces[w].tier
    ensures w in s.workspaces && Answers(s, op, w)
            ==> Step(s, op).workspaces[w].tier == (if PaysNow(op.reply) then Pro else Free)
  {
    if op.OpReconcile? {
      PaysExactly(op.reply);
      ManagesIsControls(s, op.u, w);
    }
    if op.OpInvites? { InvitesOnlySeat(s, op.w, op.invites); }
  }

  /** The tier is what the last answer said and nothing else, pro exactly for plan "pro" and status "active": a silent
      or refusing resolver changes nothing. */
  lemma {:induction false} TierFollowsResolver(ops: seq<Op>, n: nat, w: nat)
    requires n <= |ops| && w in After(ops, n).workspaces
    ensures After(ops, n).workspaces[w].tier.Pro?
            <==> LastAnswer(ops, n, w).Some? && PaysNow(LastAnswer(ops, n, w).value)
  {
    if n > 0 {
      StepKeepsTier(After(ops, n - 1), ops[n - 1], w);
      if w in After(ops, n - 1).workspaces { TierFollowsResolver(ops, n - 1, w); }
    }
  }

  // ---------------------------------------------------------------- effective accounts

  lemma Effective(s: State, w: nat)
    requires AccountsSound(s) && w in s.workspaces
    ensures s.workspaces[w].tier.Pro? ==> Some(EffectiveBilling(s, w)) == s.workspaces[w].billing
    ensures s.workspaces[w].tier.Pro? ==> ReservedId(EffectiveBilling(s, w))
    ensures s.workspaces[w].tier.Free? ==> s.workspaces[w].owner in s.users
    ensures s.workspaces[w].tier.Free? ==> EffectiveBilling(s, w) == s.users[s.workspaces[w].owner].billing
    ensures s.workspaces[w].tier.Free? ==> PoolId(EffectiveBilling(s, w))
  {
  }

  lemma EffectivePartition(s: State, v: nat, w: nat)
    requires AccountsSound(s) && v in s.workspaces && w in s.workspaces
    ensures EffectiveBilling(s, v) == EffectiveBilling(s, w)
            <==> v == w || (s.workspaces[v].tier.Free? && s.workspaces[w].tier.Free?
                            && s.workspaces[v].owner == s.workspaces[w].owner)
  {
    Effective(s, v);
    Effective(s, w);
    PrefixesDiffer(EffectiveBilling(s, v));
    PrefixesDiffer(EffectiveBilling(s, w));
  }

  /** In every reachable state two workspaces draw on one account exactly when they share an owner's free pool. */
  lemma AccountsPartition(ops: seq<Op>, n: nat, v: nat, w: nat)
    requires n <= |ops| && AllWellFormed(ops)
    requires v in After(ops, n).workspaces && w in After(ops, n).workspaces
    ensures var s := After(ops, n);
            EffectiveBilling(s, v) == EffectiveBilling(s, w)
            <==> v == w || (s.workspaces[v].tier.Free? && s.workspaces[w].tier.Free?
                            && s.workspaces[v].owner == s.workspaces[w].owner)
  {
    AlwaysAccounts(ops, n);
    EffectivePartition(After(ops, n), v, w);
  }

  /** In every reachable state a workspace draws on its reserved id if the last answer about it was pro and active, and
      on its owner's pool otherwise: after a cancelled, past-due or free answer, or when none ever came. */
  lemma EffectiveFollowsResolver(ops: seq<Op>, n: nat, w: nat)
    requires n <= |ops| && AllWellFormed(ops) && w in After(ops, n).workspaces
    ensures var s, last := After(ops, n), LastAnswer(ops, n, w);
            if last.Some? && PaysNow(last.value) then Some(EffectiveBilling(s, w)) == s.workspaces[w].billing
            else s.workspaces[w].owner in s.users && EffectiveBilling(s, w) == s.users[s.workspaces[w].owner].billing
  {
    AlwaysAccounts(ops, n);
    TierFollowsResolver(ops, n, w);
    Effective(After(ops, n), w);
  }

  // ---------------------------------------------------------------- authorization

  /** User `p` sits as active owner in a workspace that still draws on the pool. */
  ghost predicate OwnsFree(s: State, p: nat) {
    exists w :: w in s.workspaces && s.workspaces[w].tier.Free? && Manages(s, p, w) && Owns(s, p, w)
  }

  lemma PoolAccepted(s: State, u: nat, p: nat, w: nat)
    requires AccountsSound(s) && SeatsSound(s) && p in s.users && w in s.workspaces
    ensures Accepts(s, u, w, s.users[p].billing)
            <==> u == p && s.workspaces[w].tier.Free? && Manages(s, p, w) && Owns(s, p, w)
  {
    Effective(s, w);
    assert AccountSound(s, w);
    PrefixesDiffer(s.users[p].billing);
    if Owns(s, u, w) { assert SeatSound(s, (u, w)); }
  }

  /** A personal pool is accepted for its own user alone, who must own a workspace drawing on it. */
  lemma PoolIsPrivate(ops: seq<Op>, n: nat, u: nat, p: nat)
    requires n <= |ops| && AllWellFormed(ops) && p in After(ops, n).users
    ensures Qualifies(After(ops, n), u, After(ops, n).users[p].billing) <==> u == p && OwnsFree(After(ops, n), p)
  {
    AlwaysAccounts(ops, n);
    var s := After(ops, n);
    if Qualifies(s, u, s.users[p].billing) {
      var w :| w in s.workspaces && Accepts(s, u, w, s.users[p].billing);
      PoolAccepted(s, u, p, w);
    }
    if u == p && OwnsFree(s, p) {
      var w :| w in s.workspaces && s.workspaces[w].tier.Free? && Manages(s, p, w) && Owns(s, p, w);
      PoolAccepted(s, u, p, w);
    }
  }

  lemma ReservedAccepted(s: State, u: nat, v: nat, w: nat)
    requires AccountsSound(s) && SeatsSound(s) && v in s.workspaces && w in s.workspaces
    requires s.workspaces[w].billing.Some?
    ensures Accepts(s, u, v, s.workspaces[w].billing.value) <==> v == w && Manages(s, u, w)
  {
    Effective(s, v);
    assert AccountSound(s, w);
    PrefixesDiffer(s.workspaces[w].billing.value);
    PrefixesDiffer(EffectiveBilling(s, v));
  }

  /** A reserved id is accepted exactly for the active owners and admins of its workspace, before and after it pays. */
  lemma ReservedIsManaged(ops: seq<Op>, n: nat, u: nat, w: nat)
    requires n <= |ops| && AllWellFormed(ops) && w in After(ops, n).workspaces
    requires After(ops, n).workspaces[w].billing.Some?
    ensures Qualifies(After(ops, n), u, After(ops, n).workspaces[w].billing.value) <==> Manages(After(ops, n), u, w)
  {
    AlwaysAccounts(ops, n);
    var s := After(ops, n);
    ReservedAccepted(s, u, w, w);
    if Qualifies(s, u, s.workspaces[w].billing.value) {
      var v :| v in s.workspaces && Accepts(s, u, v, s.workspaces[w].billing.value);
      ReservedAccepted(s, u, v, w);
    }
  }

  /** Ids that belong to nobody are accepted for nobody. */
  lemma UnknownRefused(ops: seq<Op>, n: nat, u: nat, id: string)
    requires n <= |ops| && AllWellFormed(ops)
    requires id != "" && !UserHas(After(ops, n), id) && !WorkspaceHas(After(ops, n), id)
    ensures !Qualifies(After(ops, n), u, id)
  {
    AlwaysAccounts(ops, n);
    var s := After(ops, n);
    if Qualifies(s, u, id) {
      var w :| w in s.workspaces && Accepts(s, u, w, id);
      Effective(s, w);
    }
  }

  /** The empty id is accepted for whoever manages a workspace without a reserved id. */
  lemma EmptyIdAccepted(ops: seq<Op>, n: nat, u: nat)
    requires n <= |ops| && AllWellFormed(ops)
    ensures Qualifies(After(ops, n), u, "")
            <==> exists w :: w in After(ops, n).workspaces && Manages(After(ops, n), u, w)
                             && After(ops, n).workspaces[w].billing.None?
  {
    AlwaysAccounts(ops, n);
    var s := After(ops, n);
    forall w | w in s.workspaces
      ensures Accepts(s, u, w, "") <==> Manages(s, u, w) && s.workspaces[w].billing.None?
    {
      EmptyAccepted(s, u, w);
    }
  }

  lemma EmptyAccepted(s: State, u: nat, w: nat)
    requires AccountsSound(s) && w in s.workspaces
    ensures Accepts(s, u, w, "") <==> Manages(s, u, w) && s.workspaces[w].billing.None?
  {
  }
}
