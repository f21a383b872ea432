/** The secrets table and its bulk upsert: a batch of creations and updates saved in one transaction, against putting
    the secrets one at a time. */
module Secrets {
  import opened Text

  datatype Project = Project(workspace: nat, name: string)

  datatype Secret = Secret(project: nat, environment: string, key: string, value: string, policy: string)

  /** Rows by primary key. */
  type Table = map<nat, Secret>

  datatype Slot = Slot(project: nat, environment: string, key: string)

  function SlotOf(s: Secret): Slot {
    Slot(s.project, s.environment, s.key)
  }

  predicate Taken(t: Table, slot: Slot) {
    exists a :: a in t && SlotOf(t[a]) == slot
  }

  /** The unique constraint on (project, environment, key). */
  ghost predicate Unique(t: Table) {
    forall a, b :: a in t && b in t && SlotOf(t[a]) == SlotOf(t[b]) ==> a == b
  }

  const NO_POLICY := "{}"

  function NewSecret(slot: Slot, value: string): Secret {
    Secret(slot.project, slot.environment, slot.key, value, NO_POLICY)
  }

  // ---------------------------------------------------------------- one at a time

  /** Writes one secret: the row that holds the slot takes the value, or row `id` is added. */
  function Put(t: Table, slot: Slot, value: string, id: nat): Table {
    if Taken(t, slot) then map a | a in t :: if SlotOf(t[a]) == slot then t[a].(value := value) else t[a]
    else t[id := NewSecret(slot, value)]
  }

  /** One secret of a request: its slot (key already upper-cased), its ciphertext, and the id a new row would get. */
  datatype Write = Write(slot: Slot, value: string, id: nat)

  function PutAll(t: Table, writes: seq<Write>): Table {
    if writes == [] then t
    else
      var last := writes[|writes| - 1];
      Put(PutAll(t, writes[..|writes| - 1]), last.slot, last.value, last.id)
  }

  /** Generated ids are new and differ. */
  ghost predicate NewIds(t: Table, writes: seq<Write>) {
    && (forall i :: 0 <= i < |writes| ==> writes[i].id !in t)
    && (forall i, j :: 0 <= i < j < |writes| ==> writes[i].id != writes[j].id)
  }

  /** Two secrets of the request want the same slot and no row holds it yet. */
  predicate Clash(t: Table, writes: seq<Write>) {
    exists i, j :: 0 <= i < j < |writes| && writes[i].slot == writes[j].slot && !Taken(t, writes[i].slot)
  }

  // ---------------------------------------------------------------- all at once

  /** The writes that become new rows. */
  function NewOnes(t: Table, writes: seq<Write>): seq<Write> {
    if writes == [] then []
    else
      var before, last := NewOnes(t, writes[..|writes| - 1]), writes[|writes| - 1];
      if Taken(t, last.slot) then before else before + [last]
  }

  /** The values existing rows are saved with, by id. */
  function Changes(t: Table, writes: seq<Write>): map<nat, string> {
    if writes == [] then map[]
    else Overlay(t, Changes(t, writes[..|writes| - 1]), writes[|writes| - 1])
  }

  function Overlay(t: Table, change: map<nat, string>, w: Write): map<nat, string> {
    map a | a in t && (a in change || SlotOf(t[a]) == w.slot) :: if SlotOf(t[a]) == w.slot then w.value else change[a]
  }

  function InsertOne(t: Table, w: Write): Option<Table> {
    if w.id in t || Taken(t, w.slot) then None else Some(t[w.id := NewSecret(w.slot, w.value)])
  }

  /** Inserts row by row; a taken slot or id fails the whole. */
  function InsertAll(t: Table, writes: seq<Write>): Option<Table> {
    if writes == [] then Some(t)
    else
      var before, last := InsertAll(t, writes[..|writes| - 1]), writes[|writes| - 1];
      if before.None? then None else InsertOne(before.value, last)
  }

  function WithChanges(t: Table, change: map<nat, string>): Table {
    map a | a in t :: if a in change then t[a].(value := change[a]) else t[a]
  }

  /** One transaction: creations, then updates. */
  function Batch(t: Table, writes: seq<Write>): Option<Table> {
    var created := InsertAll(t, NewOnes(t, writes));
    if created.None? then None else Some(WithChanges(created.value, Changes(t, writes)))
  }

  // ---------------------------------------------------------------- the two agree

  ghost predicate Wants(writes: seq<Write>, slot: Slot) {
    exists i :: 0 <= i < |writes| && writes[i].slot == slot
  }

  ghost predicate Issues(writes: seq<Write>, id: nat) {
    exists i :: 0 <= i < |writes| && writes[i].id == id
  }

  ghost predicate Extends(t: Table, u: Table) {
    forall a :: a in t ==> a in u && u[a] == t[a]
  }

  /** Where the transaction stands after inserting the new rows among `writes`. */
  ghost predicate Grown(t: Table, writes: seq<Write>, u: Table) {
    && Extends(t, u)
    && Unique(u)
    && (forall a :: a in u ==> a in t || Issues(writes, a))
    && (forall slot :: Taken(u, slot) <==> Taken(t, slot) || Wants(writes, slot))
  }

  lemma WantsNext(writes: seq<Write>, last: Write, slot: Slot)
    ensures Wants(writes + [last], slot) <==> Wants(writes, slot) || last.slot == slot
  {
    if Wants(writes, slot) {
      var i :| 0 <= i < |writes| && writes[i].slot == slot;
      assert (writes + [last])[i].slot == slot;
    }
    assert (writes + [last])[|writes|] == last;
  }

  lemma IssuesNext(writes: seq<Write>, last: Write, id: nat)
    ensures Issues(writes + [last], id) <==> Issues(writes, id) || last.id == id
  {
    if Issues(writes, id) {
      var i :| 0 <= i < |writes| && writes[i].id == id;
      assert (writes + [last])[i].id == id;
    }
    assert (writes + [last])[|writes|] == last;
  }

  lemma ClashNext(t: Table, writes: seq<Write>, last: Write)
    ensures Clash(t, writes + [last]) <==> Clash(t, writes) || (Wants(writes, last.slot) && !Taken(t, last.slot))
  {
    var all := writes + [last];
    if Clash(t, writes) {
      var i, j :| 0 <= i < j < |writes| && writes[i].slot == writes[j].slot && !Taken(t, writes[i].slot);
      assert all[i] == writes[i] && all[j] == writes[j];
    }
    if Wants(writes, last.slot) && !Taken(t, last.slot) {
      var i :| 0 <= i < |writes| && writes[i].slot == last.slot;
      assert all[i] == writes[i] && all[|writes|] == last;
    }
    if Clash(t, all) {
      var i, j :| 0 <= i < j < |all| && all[i].slot == all[j].slot && !Taken(t, all[i].slot);
      assert all[i] == writes[i];
    }
  }

  lemma TakenAfterInsert(u: Table, id: nat, slot: Slot, value: string, other: Slot)
    requires id !in u
    ensures Taken(u[id := NewSecret(slot, value)], other) <==> Taken(u, other) || other == slot
  {
    var v := u[id := NewSecret(slot, value)];
    if Taken(u, other) {
      var a :| a in u && SlotOf(u[a]) == other;
      assert a in v && SlotOf(v[a]) == other;
    }
    assert id in v && SlotOf(v[id]) == slot;
  }

  lemma UniqueAfterInsert(u: Table, id: nat, slot: Slot, value: string)
    requires Unique(u) && id !in u && !Taken(u, slot)
    ensures Unique(u[id := NewSecret(slot, value)])
  {
  }

  lemma GrowNew(t: Table, writes: seq<Write>, u: Table, last: Write)
    requires Grown(t, writes, u) && !Taken(u, last.slot) && last.id !in u
    ensures Grown(t, writes + [last], u[last.id := NewSecret(last.slot, last.value)])
  {
    var v := u[last.id := NewSecret(last.slot, last.value)];
    UniqueAfterInsert(u, last.id, last.slot, last.value);
    forall slot ensures Taken(v, slot) <==> Taken(t, slot) || Wants(writes + [last], slot) {
      TakenAfterInsert(u, last.id, last.slot, last.value, slot);
      WantsNext(writes, last, slot);
    }
    forall a | a in v ensures a in t || Issues(writes + [last], a) { IssuesNext(writes, last, a); }
  }

  lemma GrowOld(t: Table, writes: seq<Write>, u: Table, last: Write)
    requires Grown(t, writes, u) && Taken(t, last.slot)
    ensures Grown(t, writes + [last], u)
  {
    forall slot ensures Taken(u, slot) <==> Taken(t, slot) || Wants(writes + [last], slot) {
      WantsNext(writes, last, slot);
    }
    forall a | a in u ensures a in t || Issues(writes + [last], a) { IssuesNext(writes, last, a); }
  }

  lemma TakenWithChanges(u: Table, change: map<nat, string>, slot: Slot)
    ensures Taken(WithChanges(u, change), slot) <==> Taken(u, slot)
  {
    var v := WithChanges(u, change);
    if Taken(u, slot) {
      var a :| a in u && SlotOf(u[a]) == slot;
      assert a in v && SlotOf(v[a]) == slot;
    }
    if Taken(v, slot) {
      var a :| a in v && SlotOf(v[a]) == slot;
      assert a in u && SlotOf(u[a]) == slot;
    }
  }

  lemma PutNew(u: Table, change: map<nat, string>, w: Write)
    requires !Taken(u, w.slot) && w.id !in u && w.id !in change
    ensures Put(WithChanges(u, change), w.slot, w.value, w.id)
            == WithChanges(u[w.id := NewSecret(w.slot, w.value)], change)
  {
  }

  lemma PutOld(t: Table, u: Table, change: map<nat, string>, w: Write)
    requires Extends(t, u) && Unique(u) && Taken(t, w.slot) && change.Keys <= t.Keys
    ensures Put(WithChanges(u, change), w.slot, w.value, w.id) == WithChanges(u, Overlay(t, change, w))
  {
    var e :| e in t && SlotOf(t[e]) == w.slot;
    assert e in u && SlotOf(u[e]) == w.slot;
    TakenWithChanges(u, change, w.slot);
    forall a | a in u ensures SlotOf(u[a]) == w.slot ==> a in t {}
  }

  lemma ChangesInside(t: Table, writes: seq<Write>)
    ensures Changes(t, writes).Keys <= t.Keys
  {
  }

  lemma Snoc(t: Table, writes: seq<Write>, last: Write)
    ensures PutAll(t, writes + [last]) == Put(PutAll(t, writes), last.slot, last.value, last.id)
    ensures Changes(t, writes + [last]) == Overlay(t, Changes(t, writes), last)
    ensures NewOnes(t, writes + [last])
            == if Taken(t, last.slot) then NewOnes(t, writes) else NewOnes(t, writes) + [last]
  {
  }

  lemma InsertSnoc(t: Table, news: seq<Write>, last: Write)
    ensures InsertAll(t, news).None? ==> InsertAll(t, news + [last]).None?
    ensures InsertAll(t, news).Some? ==> InsertAll(t, news + [last]) == InsertOne(InsertAll(t, news).value, last)
  {
  }

  /** The state of the proof after a prefix of the writes: either a clash has happened or both ways agree so far. */
  ghost predicate InStep(t: Table, writes: seq<Write>) {
    var created := InsertAll(t, NewOnes(t, writes));
    && (created.None? <==> Clash(t, writes))
    && (created.Some? ==> Grown(t, writes, created.value)
                          && PutAll(t, writes) == WithChanges(created.value, Changes(t, writes)))
  }

  lemma StepTaken(t: Table, writes: seq<Write>, last: Write)
    requires InStep(t, writes) && Taken(t, last.slot)
    ensures InStep(t, writes + [last])
  {
    Snoc(t, writes, last);
    ClashNext(t, writes, last);
    var created := InsertAll(t, NewOnes(t, writes));
    if created.Some? {
      ChangesInside(t, writes);
      GrowOld(t, writes, created.value, last);
      PutOld(t, created.value, Changes(t, writes), last);
    }
  }

  lemma OverlayNothing(t: Table, change: map<nat, string>, w: Write)
    requires !Taken(t, w.slot) && change.Keys <= t.Keys
    ensures Overlay(t, change, w) == change
  {
  }

  lemma AgreeNew(t: Table, writes: seq<Write>, u: Table, last: Write)
    requires PutAll(t, writes) == WithChanges(u, Changes(t, writes))
    requires Grown(t, writes, u) && !Taken(t, last.slot) && !Wants(writes, last.slot)
    requires last.id !in t && !Issues(writes, last.id)
    ensures last.id !in u && !Taken(u, last.slot)
    ensures PutAll(t, writes + [last])
            == WithChanges(u[last.id := NewSecret(last.slot, last.value)], Changes(t, writes + [last]))
  {
    Snoc(t, writes, last);
    ChangesInside(t, writes);
    OverlayNothing(t, Changes(t, writes), last);
    PutNew(u, Changes(t, writes), last);
  }

  lemma StepNew(t: Table, writes: seq<Write>, last: Write)
    requires InStep(t, writes) && !Taken(t, last.slot) && last.id !in t && !Issues(writes, last.id)
    ensures InStep(t, writes + [last])
  {
    var news := NewOnes(t, writes);
    assert NewOnes(t, writes + [last]) == news + [last] by { Snoc(t, writes, last); }
    ClashNext(t, writes, last);
    InsertSnoc(t, news, last);
    if InsertAll(t, news).Some? && !Wants(writes, last.slot) {
      AgreeNew(t, writes, InsertAll(t, news).value, last);
      GrowNew(t, writes, InsertAll(t, news).value, last);
    }
  }

  lemma NewIdsNext(t: Table, writes: seq<Write>, last: Write)
    requires NewIds(t, writes + [last])
    ensures NewIds(t, writes) && last.id !in t && !Issues(writes, last.id)
  {
    var all := writes + [last];
    assert all[|writes|] == last;
    forall i | 0 <= i < |writes| ensures writes[i].id !in t && writes[i].id != last.id { assert all[i] == writes[i]; }
    forall i, j | 0 <= i < j < |writes| ensures writes[i].id != writes[j].id {
      assert all[i] == writes[i] && all[j] == writes[j];
    }
  }

  lemma {:induction false} AlwaysInStep(t: Table, writes: seq<Write>)
    requires Unique(t) && NewIds(t, writes)
    ensures InStep(t, writes)
  {
    if writes == [] {
      assert WithChanges(t, map[]) == t;
    } else {
      var before, last := writes[..|writes| - 1], writes[|writes| - 1];
      assert writes == before + [last];
      NewIdsNext(t, before, last);
      AlwaysInStep(t, before);
      if Taken(t, last.slot) { StepTaken(t, before, last); } else { StepNew(t, before, last); }
    }
  }

  /** The transaction leaves what putting the secrets one by one leaves, unless two of them would create the same row:
      then, and only then, it fails. */
  lemma BatchIsSequential(t: Table, writes: seq<Write>)
    requires Unique(t) && NewIds(t, writes)
    ensures Batch(t, writes) == if Clash(t, writes) then None else Some(PutAll(t, writes))
    ensures Batch(t, writes).Some? ==> Unique(Batch(t, writes).value)
  {
    AlwaysInStep(t, writes);
    var created := InsertAll(t, NewOnes(t, writes));
    if created.Some? { UniqueWithChanges(created.value, Changes(t, writes)); }
  }

  lemma UniqueWithChanges(t: Table, change: map<nat, string>)
    requires Unique(t)
    ensures Unique(WithChanges(t, change))
  {
  }

  lemma {:induction false} InsertGrows(t: Table, writes: seq<Write>)
    ensures InsertAll(t, writes).Some? ==> |InsertAll(t, writes).value| == |t| + |writes|
  {
    if writes != [] { InsertGrows(t, writes[..|writes| - 1]); }
  }

  // ---------------------------------------------------------------- what is stored afterwards

  /** The last value the request has for a slot. */
  function LastValue(writes: seq<Write>, slot: Slot): Option<string> {
    if writes == [] then None
    else if writes[|writes| - 1].slot == slot then Some(writes[|writes| - 1].value)
    else LastValue(writes[..|writes| - 1], slot)
  }

  /** An old row keeps id, slot and policy and changes value only if the request names its slot; a new row holds a
      requested slot, without policy. Either way the last value named for the slot is the one stored. */
  ghost predicate RowAfter(t: Table, writes: seq<Write>, r: Table, a: nat) {
    && (a in t ==> a in r && SlotOf(r[a]) == SlotOf(t[a]) && r[a].policy == t[a].policy
                   && Some(r[a].value) == (if LastValue(writes, SlotOf(t[a])).Some? then LastValue(writes, SlotOf(t[a]))
                                           else Some(t[a].value)))
    && (a !in t && a in r ==> Issues(writes, a) && r[a].policy == "{}"
                              && LastValue(writes, SlotOf(r[a])) == Some(r[a].value))
  }

  lemma {:induction false} RowsAfter(t: Table, writes: seq<Write>, a: nat)
    requires NewIds(t, writes)
    ensures RowAfter(t, writes, PutAll(t, writes), a)
  {
    if writes != [] {
      var before, last := writes[..|writes| - 1], writes[|writes| - 1];
      assert writes == before + [last];
      NewIdsNext(t, before, last);
      RowsAfter(t, before, a);
      RowsAfter(t, before, last.id);
      RowStep(t, before, PutAll(t, before), last, a);
    }
  }

  lemma LastValueSnoc(writes: seq<Write>, last: Write, slot: Slot)
    ensures LastValue(writes + [last], slot) == if last.slot == slot then Some(last.value) else LastValue(writes, slot)
  {
  }

  lemma RowStep(t: Table, writes: seq<Write>, r: Table, last: Write, a: nat)
    requires RowAfter(t, writes, r, a) && last.id !in r && last.id !in t
    ensures RowAfter(t, writes + [last], Put(r, last.slot, last.value, last.id), a)
  {
    IssuesNext(writes, last, a);
    if a in t { LastValueSnoc(writes, last, SlotOf(t[a])); }
    if a in r { LastValueSnoc(writes, last, SlotOf(r[a])); }
    LastValueSnoc(writes, last, last.slot);
  }

  lemma {:induction false} SlotsAfter(t: Table, writes: seq<Write>, slot: Slot)
    requires NewIds(t, writes)
    ensures Taken(PutAll(t, writes), slot) <==> Taken(t, slot) || Wants(writes, slot)
  {
    if writes != [] {
      var before, last := writes[..|writes| - 1], writes[|writes| - 1];
      assert writes == before + [last];
      NewIdsNext(t, before, last);
      SlotsAfter(t, before, slot);
      WantsNext(before, last, slot);
      RowsAfter(t, before, last.id);
      SlotStep(PutAll(t, before), last, slot);
    }
  }

  lemma SlotStep(r: Table, w: Write, slot: Slot)
    requires w.id !in r
    ensures Taken(Put(r, w.slot, w.value, w.id), slot) <==> Taken(r, slot) || w.slot == slot
  {
    var u := Put(r, w.slot, w.value, w.id);
    if Taken(r, w.slot) {
      if Taken(r, slot) {
        var a :| a in r && SlotOf(r[a]) == slot;
        assert a in u && SlotOf(u[a]) == slot;
      }
    } else {
      TakenAfterInsert(r, w.id, w.slot, w.value, slot);
    }
  }

  lemma {:induction false} LastValueIs(writes: seq<Write>, i: nat)
    requires i < |writes| && forall j :: i < j < |writes| ==> writes[j].slot != writes[i].slot
    ensures LastValue(writes, writes[i].slot) == Some(writes[i].value)
  {
    if i < |writes| - 1 { LastValueIs(writes[..|writes| - 1], i); }
  }

  lemma {:induction false} LastValueWanted(writes: seq<Write>, slot: Slot)
    ensures LastValue(writes, slot).Some? <==> Wants(writes, slot)
  {
    if writes != [] {
      var before, last := writes[..|writes| - 1], writes[|writes| - 1];
      assert writes == before + [last];
      LastValueWanted(before, slot);
      WantsNext(before, last, slot);
    }
  }

  /** Rows of other projects and environments, and keys the request does not name, are left exactly as they were. */
  lemma OthersUntouched(t: Table, writes: seq<Write>, a: nat)
    requires Unique(t) && NewIds(t, writes) && Batch(t, writes).Some?
    requires a in t && !Wants(writes, SlotOf(t[a]))
    ensures a in Batch(t, writes).value && Batch(t, writes).value[a] == t[a]
  {
    BatchIsSequential(t, writes);
    RowsAfter(t, writes, a);
    LastValueWanted(writes, SlotOf(t[a]));
  }

  /** After a successful upsert each key reads back, decrypted, as the last value sent under that upper-cased key. */
  lemma ReadBack(t: Table, writes: seq<Write>, i: nat, plain: string, open: string -> Option<string>) returns (a: nat)
    requires Unique(t) && NewIds(t, writes) && Batch(t, writes).Some?
    requires i < |writes| && open(writes[i].value) == Some(plain)
    requires forall j :: i < j < |writes| ==> writes[j].slot != writes[i].slot
    ensures var r := Batch(t, writes).value;
            a in r && SlotOf(r[a]) == writes[i].slot && open(r[a].value) == Some(plain)
  {
    var r := Batch(t, writes).value;
    BatchIsSequential(t, writes);
    SlotsAfter(t, writes, writes[i].slot);
    a :| a in r && SlotOf(r[a]) == writes[i].slot;
    RowsAfter(t, writes, a);
    LastValueIs(writes, i);
  }
}
