/** Bulk upsert as it runs: rows fetched into memory, edited there, then saved in one transaction. */
module SecretService {
  import opened Text
  import opened Secrets
  import Tenancy
  import RequestLaws

  datatype Error = NotFound | Authorization | Integrity

  /** What stands in the caller's way on a project, by membership of its workspace. */
  function Standing(tenancy: Tenancy.State, projects: map<nat, Project>, user: nat, project: nat): Option<Error> {
    if project !in projects then Some(NotFound)
    else if !Tenancy.ActiveIn(tenancy, user, projects[project].workspace) then Some(Authorization)
    else if tenancy.seats[(user, projects[project].workspace)].role.ReadOnly? then Some(Authorization)
    else None
  }

  /** A request: `up` is `str.upper`, `seal(i, v)` the i-th encryption, `ids(i)` the id the i-th secret would get. */
  datatype Request = Request(
    project: nat, environment: string, secrets: seq<(string, string)>,
    up: string -> string, seal: (nat, string) -> string, ids: nat -> nat)

  function WriteAt(r: Request, i: nat): Write
    requires i < |r.secrets|
  {
    Write(Slot(r.project, r.environment, r.up(r.secrets[i].0)), r.seal(i, r.secrets[i].1), r.ids(i))
  }

  function Writes(r: Request): (w: seq<Write>)
    ensures |w| == |r.secrets|
    ensures forall i :: 0 <= i < |w| ==> w[i] == WriteAt(r, i)
  {
    seq(|r.secrets|, i requires 0 <= i < |r.secrets| => WriteAt(r, i))
  }

  // ---------------------------------------------------------------- rows in memory

  /** A fetched row: its id, and the value it will be saved with. */
  datatype Held = Held(id: nat, value: string)

  ghost predicate HeldRow(t: Table, r: Request, k: string, h: Held, change: map<nat, string>) {
    && h.id in t
    && SlotOf(t[h.id]) == Slot(r.project, r.environment, k)
    && h.value == if h.id in change then change[h.id] else t[h.id].value
  }

  /** The rows held in memory carry exactly the changes so far. */
  ghost predicate Holds(t: Table, r: Request, existing: map<string, Held>, change: map<nat, string>) {
    forall k :: k in existing ==> HeldRow(t, r, k, existing[k], change)
  }

  /** The keys listed for update are exactly those of the changed rows. */
  ghost predicate Lists(t: Table, existing: map<string, Held>, toUpdate: seq<string>, change: map<nat, string>) {
    && (forall k :: k in toUpdate ==> k in existing && existing[k].id in change)
    && (forall a :: a in change
          ==> a in t && t[a].key in toUpdate && t[a].key in existing && existing[t[a].key].id == a)
  }

  lemma OverlayOne(t: Table, change: map<nat, string>, w: Write, e: nat)
    requires Unique(t) && e in t && SlotOf(t[e]) == w.slot && change.Keys <= t.Keys
    ensures Overlay(t, change, w) == change[e := w.value]
  {
  }

  lemma HoldNext(t: Table, r: Request, existing: map<string, Held>, change: map<nat, string>, k: string, v: string)
    requires Holds(t, r, existing, change) && k in existing
    ensures Holds(t, r, existing[k := existing[k].(value := v)], change[existing[k].id := v])
  {
  }

  lemma ListNext(t: Table, existing: map<string, Held>, toUpdate: seq<string>, change: map<nat, string>, k: string,
                 v: string)
    requires Lists(t, existing, toUpdate, change) && k in existing
    requires existing[k].id in t && t[existing[k].id].key == k
    ensures Lists(t, existing[k := existing[k].(value := v)], toUpdate + [k], change[existing[k].id := v])
  {
  }

  /** The query found the rows of the request's keys, all of them. */
  ghost predicate Found(t: Table, r: Request, existing: map<string, Held>) {
    forall i :: 0 <= i < |r.secrets| ==> FoundAt(t, r, existing, i)
  }

  ghost predicate FoundAt(t: Table, r: Request, existing: map<string, Held>, i: nat)
    requires i < |r.secrets|
  {
    r.up(r.secrets[i].0) in existing <==> Taken(t, WriteAt(r, i).slot)
  }

  /** How far a request has been sorted. */
  ghost predicate Sorted(t: Table, r: Request, writes: seq<Write>, existing: map<string, Held>, toCreate: seq<Write>,
                         toUpdate: seq<string>) {
    && toCreate == NewOnes(t, writes)
    && Holds(t, r, existing, Changes(t, writes))
    && Lists(t, existing, toUpdate, Changes(t, writes))
  }

  lemma SortOld(t: Table, r: Request, writes: seq<Write>, existing: map<string, Held>, toCreate: seq<Write>,
                toUpdate: seq<string>, w: Write, k: string)
    requires Unique(t) && Sorted(t, r, writes, existing, toCreate, toUpdate)
    requires w.slot == Slot(r.project, r.environment, k) && k in existing
    ensures Sorted(t, r, writes + [w], existing[k := existing[k].(value := w.value)], toCreate, toUpdate + [k])
  {
    var change := Changes(t, writes);
    Snoc(t, writes, w);
    ChangesInside(t, writes);
    assert HeldRow(t, r, k, existing[k], change);
    OverlayOne(t, change, w, existing[k].id);
    HoldNext(t, r, existing, change, k, w.value);
    ListNext(t, existing, toUpdate, change, k, w.value);
  }

  lemma SortNew(t: Table, r: Request, writes: seq<Write>, existing: map<string, Held>, toCreate: seq<Write>,
                toUpdate: seq<string>, w: Write)
    requires Sorted(t, r, writes, existing, toCreate, toUpdate) && !Taken(t, w.slot)
    ensures Sorted(t, r, writes + [w], existing, toCreate + [w], toUpdate)
  {
  }

  // ---------------------------------------------------------------- the service

  /** The rows of a project and environment under the given keys, by key. */
  ghost predicate Selects(t: Table, r: Request, incoming: set<string>, existing: map<string, Held>) {
    && (forall a :: a in t && t[a].project == r.project && t[a].environment == r.environment && t[a].key in incoming
          ==> t[a].key in existing)
    && (forall k :: k in existing ==> existing[k].id in t
                                      && existing[k] == Held(existing[k].id, t[existing[k].id].value)
                                      && SlotOf(t[existing[k].id]) == Slot(r.project, r.environment, k))
  }

  lemma SelectionHolds(t: Table, r: Request, incoming: set<string>, existing: map<string, Held>)
    requires Selects(t, r, incoming, existing)
    ensures Holds(t, r, existing, map[])
  {
  }

  lemma SelectionFinds(t: Table, r: Request, incoming: set<string>, existing: map<string, Held>)
    requires Selects(t, r, incoming, existing)
    requires forall i :: 0 <= i < |r.secrets| ==> r.up(r.secrets[i].0) in incoming
    ensures Found(t, r, existing)
  {
    forall i | 0 <= i < |r.secrets| ensures FoundAt(t, r, existing, i) {
      var k := r.up(r.secrets[i].0);
      if k in existing { assert SlotOf(t[existing[k].id]) == WriteAt(r, i).slot; }
    }
  }

  class Vault {
    var secrets: Table

    /** The query for the request's keys in its project and environment. */
    method Fetch(r: Request) returns (existing: map<string, Held>)
      requires Unique(secrets)
      ensures Holds(secrets, r, existing, map[]) && Found(secrets, r, existing)
    {
      var incoming := set i | 0 <= i < |r.secrets| :: r.up(r.secrets[i].0);
      existing := map a | a in secrets && secrets[a].project == r.project && secrets[a].environment == r.environment
                          && secrets[a].key in incoming :: secrets[a].key := Held(a, secrets[a].value);
      SelectionHolds(secrets, r, incoming, existing);
      SelectionFinds(secrets, r, incoming, existing);
    }

    /** Sorts the request into rows to create and rows to update, sealing each value. */
    method Sort(r: Request, fetched: map<string, Held>)
      returns (existing: map<string, Held>, toCreate: seq<Write>, toUpdate: seq<string>)
      requires Unique(secrets) && Holds(secrets, r, fetched, map[]) && Found(secrets, r, fetched)
      ensures Sorted(secrets, r, Writes(r), existing, toCreate, toUpdate)
      ensures |toCreate| + |toUpdate| == |r.secrets|
    {
      existing, toCreate, toUpdate := fetched, [], [];
      ghost var all := Writes(r);
      assert Sorted(secrets, r, [], existing, toCreate, toUpdate);
      for i := 0 to |r.secrets|
        invariant existing.Keys == fetched.Keys && |toCreate| + |toUpdate| == i
        invariant Sorted(secrets, r, all[..i], existing, toCreate, toUpdate)
      {
        assert FoundAt(secrets, r, fetched, i);
        existing, toCreate, toUpdate := SortOne(r, i, existing, toCreate, toUpdate);
      }
      assert all[..|all|] == all;
    }

    method SortOne(r: Request, i: nat, existing: map<string, Held>, toCreate: seq<Write>, toUpdate: seq<string>)
      returns (existing': map<string, Held>, toCreate': seq<Write>, toUpdate': seq<string>)
      requires i < |r.secrets| && Unique(secrets) && FoundAt(secrets, r, existing, i)
      requires Sorted(secrets, r, Writes(r)[..i], existing, toCreate, toUpdate)
      ensures Sorted(secrets, r, Writes(r)[..i + 1], existing', toCreate', toUpdate')
      ensures existing'.Keys == existing.Keys && |toCreate'| + |toUpdate'| == |toCreate| + |toUpdate| + 1
    {
      existing', toCreate', toUpdate' := existing, toCreate, toUpdate;
      var k, sealed := r.up(r.secrets[i].0), r.seal(i, r.secrets[i].1);
      ghost var before, w := Writes(r)[..i], WriteAt(r, i);
      assert Writes(r)[..i + 1] == before + [w];
      if k in existing {
        SortOld(secrets, r, before, existing, toCreate, toUpdate, w, k);
        existing' := existing[k := existing[k].(value := sealed)];
        toUpdate' := toUpdate + [k];
      } else {
        SortNew(secrets, r, before, existing, toCreate, toUpdate, w);
        toCreate' := toCreate + [Write(Slot(r.project, r.environment, k), sealed, r.ids(i))];
      }
    }

    /** `bulk_create`, inside the transaction: the first violation fails it. */
    method BulkCreate(toCreate: seq<Write>) returns (ok: bool)
      modifies this
      ensures ok <==> InsertAll(old(secrets), toCreate).Some?
      ensures ok ==> InsertAll(old(secrets), toCreate) == Some(secrets)
    {
      for i := 0 to |toCreate|
        invariant InsertAll(old(secrets), toCreate[..i]) == Some(secrets)
      {
        assert toCreate[..i + 1] == toCreate[..i] + [toCreate[i]];
        InsertSnoc(old(secrets), toCreate[..i], toCreate[i]);
        var w := toCreate[i];
        if w.id in secrets || Taken(secrets, w.slot) {
          StaysFailed(old(secrets), toCreate, i + 1);
          return false;
        }
        secrets := secrets[w.id := NewSecret(w.slot, w.value)];
      }
      assert toCreate[..|toCreate|] == toCreate;
      return true;
    }

    /** `bulk_update` of the value column. */
    method BulkUpdate(existing: map<string, Held>, toUpdate: seq<string>, ghost t: Table, ghost r: Request,
                      ghost change: map<nat, string>)
      requires Extends(t, secrets) && Holds(t, r, existing, change) && Lists(t, existing, toUpdate, change)
      modifies this
      ensures secrets == WithChanges(old(secrets), change)
    {
      for i := 0 to |toUpdate|
        invariant secrets.Keys == old(secrets).Keys
        invariant forall a :: a in secrets ==>
          secrets[a] == if Saved(existing, toUpdate[..i], a) then Changed(old(secrets)[a], change, a)
                        else old(secrets)[a]
      {
        var h := existing[toUpdate[i]];
        assert HeldRow(t, r, toUpdate[i], h, change);
        secrets := secrets[h.id := secrets[h.id].(value := h.value)];
        SavedNext(existing, toUpdate, i);
      }
      assert toUpdate[..|toUpdate|] == toUpdate;
      AllSaved(t, existing, toUpdate, change);
    }

    method BulkUpsertSecrets(tenancy: Tenancy.State, projects: map<nat, Project>, user: nat, r: Request)
      returns (error: Option<Error>, created: nat, updated: nat)
      requires Unique(secrets) && NewIds(secrets, Writes(r))
      modifies this
      ensures Unique(secrets)
      ensures var refused := Standing(tenancy, projects, user, r.project);
              error == if refused.Some? then refused
                       else if Clash(old(secrets), Writes(r)) then Some(Integrity) else None
      ensures error.Some? ==> secrets == old(secrets)
      ensures error.None? ==> secrets == PutAll(old(secrets), Writes(r))
      ensures error.None? ==> created == |secrets| - |old(secrets)| && created + updated == |r.secrets|
    {
      created, updated := 0, 0;
      error := CheckStanding(tenancy, projects, user, r.project);
      if error.Some? { return; }
      BatchIsSequential(secrets, Writes(r));
      var before := secrets;
      var existing := Fetch(r);
      var toCreate, toUpdate;
      existing, toCreate, toUpdate := Sort(r, existing);
      var ok := BulkCreate(toCreate);
      if !ok {
        secrets := before;
        return Some(Integrity), 0, 0;
      }
      InsertGrows(before, toCreate);
      AlwaysInStep(before, Writes(r));
      ghost var grown := secrets;
      BulkUpdate(existing, toUpdate, before, r, Changes(before, Writes(r)));
      assert secrets.Keys == grown.Keys;
      return None, |toCreate|, |toUpdate|;
    }

    method CheckStanding(tenancy: Tenancy.State, projects: map<nat, Project>, user: nat, project: nat)
      returns (error: Option<Error>)
      ensures error == Standing(tenancy, projects, user, project)
    {
      if project !in projects { return Some(NotFound); }
      var seat := (user, projects[project].workspace);
      if seat !in tenancy.seats || tenancy.seats[seat].status != Tenancy.Active { return Some(Authorization); }
      if tenancy.seats[seat].role == Tenancy.ReadOnly { return Some(Authorization); }
      return None;
    }
  }

  /** Secrets are written by active owners, admins and members of the project's workspace; members who may only read are
      refused like strangers, and only a project that does not exist is not found. */
  lemma StandingExactly(tenancy: Tenancy.State, projects: map<nat, Project>, user: nat, project: nat)
    ensures Standing(tenancy, projects, user, project) == Some(NotFound) <==> project !in projects
    ensures Standing(tenancy, projects, user, project) == None
            <==> project in projects
                 && var w := projects[project].workspace;
                    RequestLaws.Controls(tenancy, user, w) || RequestLaws.SitsAs(tenancy, user, w, Tenancy.Member)
    ensures Standing(tenancy, projects, user, project) != Some(Integrity)
  {
  }

  /** After a successful request each of its keys, upper-cased, reads back in its project and environment as the last
      value sent under it. */
  lemma RequestReadBack(t: Table, r: Request, i: nat, open: string -> Option<string>) returns (a: nat)
    requires Unique(t) && NewIds(t, Writes(r)) && Batch(t, Writes(r)).Some?
    requires i < |r.secrets| && open(r.seal(i, r.secrets[i].1)) == Some(r.secrets[i].1)
    requires forall j :: i < j < |r.secrets| ==> r.up(r.secrets[j].0) != r.up(r.secrets[i].0)
    ensures var u := Batch(t, Writes(r)).value;
            && a in u && u[a].project == r.project && u[a].environment == r.environment
            && u[a].key == r.up(r.secrets[i].0) && open(u[a].value) == Some(r.secrets[i].1)
  {
    a := ReadBack(t, Writes(r), i, r.secrets[i].1, open);
  }

  /** Two new keys of one request that differ only in case collide, whatever else it holds: it fails as a whole. */
  lemma CaseTwinsClash(t: Table, r: Request, i: nat, j: nat)
    requires i < j < |r.secrets| && r.up(r.secrets[i].0) == r.up(r.secrets[j].0)
    requires !Taken(t, Slot(r.project, r.environment, r.up(r.secrets[i].0)))
    requires Unique(t) && NewIds(t, Writes(r))
    ensures Clash(t, Writes(r)) && Batch(t, Writes(r)).None?
  {
    var writes := Writes(r);
    assert writes[i].slot == writes[j].slot;
    BatchIsSequential(t, writes);
  }

  /** In particular "a" and "A": keys a JSON object can hold side by side. */
  lemma LowerAndUpperClash(t: Table, r: Request, v: string, w: string)
    requires r.secrets == [("a", v), ("A", w)] && r.up("a") == r.up("A") == "A"
    requires !Taken(t, Slot(r.project, r.environment, "A"))
    requires Unique(t) && NewIds(t, Writes(r))
    ensures r.secrets[0].0 != r.secrets[1].0 && Batch(t, Writes(r)).None?
  {
    CaseTwinsClash(t, r, 0, 1);
  }

  lemma {:induction false} StaysFailed(t: Table, writes: seq<Write>, n: nat)
    requires n <= |writes| && InsertAll(t, writes[..n]).None?
    ensures InsertAll(t, writes).None?
    decreases |writes| - n
  {
    if n < |writes| {
      assert writes[..n + 1] == writes[..n] + [writes[n]];
      InsertSnoc(t, writes[..n], writes[n]);
      StaysFailed(t, writes, n + 1);
    } else {
      assert writes[..n] == writes;
    }
  }

  /** Row `a` is among those saved. */
  ghost predicate Saved(existing: map<string, Held>, keys: seq<string>, a: nat) {
    exists i :: 0 <= i < |keys| && keys[i] in existing && existing[keys[i]].id == a
  }

  ghost function Changed(s: Secret, change: map<nat, string>, a: nat): Secret {
    if a in change then s.(value := change[a]) else s
  }

  lemma SavedNext(existing: map<string, Held>, keys: seq<string>, n: nat)
    requires n < |keys| && keys[n] in existing
    ensures forall a ::
              Saved(existing, keys[..n + 1], a) <==> Saved(existing, keys[..n], a) || existing[keys[n]].id == a
  {
    forall a { SavedNextAt(existing, keys, n, a); }
  }

  lemma SavedNextAt(existing: map<string, Held>, keys: seq<string>, n: nat, a: nat)
    requires n < |keys| && keys[n] in existing
    ensures Saved(existing, keys[..n + 1], a) <==> Saved(existing, keys[..n], a) || existing[keys[n]].id == a
  {
    var before, after := keys[..n], keys[..n + 1];
    assert after[n] == keys[n];
    if Saved(existing, before, a) {
      var i :| 0 <= i < |before| && before[i] in existing && existing[before[i]].id == a;
      assert after[i] == before[i];
    }
    if Saved(existing, after, a) {
      var i :| 0 <= i < |after| && after[i] in existing && existing[after[i]].id == a;
      if i < n { assert before[i] == after[i]; }
    }
  }

  lemma AllSaved(t: Table, existing: map<string, Held>, toUpdate: seq<string>, change: map<nat, string>)
    requires Lists(t, existing, toUpdate, change)
    ensures forall a :: Saved(existing, toUpdate, a) <==> a in change
  {
    forall a | a in change ensures Saved(existing, toUpdate, a) {
      var i :| 0 <= i < |toUpdate| && toUpdate[i] == t[a].key;
      assert existing[toUpdate[i]].id == a;
    }
  }
}
