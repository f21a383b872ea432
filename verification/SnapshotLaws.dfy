/** What a telemetry snapshot takes from its item, its batch and the server, and when two snapshots share a row. */
module SnapshotLaws {
  import opened Text
  import opened Sums
  import opened Commands
  import opened CommandLaws
  import opened CommandNames
  import opened TelemetrySync

  // ---------------------------------------------------------------- gaps

  predicate Filled(o: Option<string>) {
    o.Some? && o.value != ""
  }

  predicate FirstFilled(batch: seq<Option<string>>, j: nat) {
    j < |batch| && Filled(batch[j]) && forall k :: 0 <= k < j ==> !Filled(batch[k])
  }

  /** The item's own value if it has one, otherwise the first that any item of the batch has, otherwise none. */
  ghost predicate FilledFrom(r: Option<string>, own: Option<string>, batch: seq<Option<string>>) {
    && (Filled(own) ==> r == own)
    && (!Filled(own) ==> forall j: nat :: FirstFilled(batch, j) ==> r == batch[j])
    && (!Filled(own) && (forall j :: 0 <= j < |batch| ==> !Filled(batch[j])) ==> r == None)
  }

  lemma {:induction false} FirstGivenExactly(batch: seq<Option<string>>)
    ensures forall j: nat :: FirstFilled(batch, j) ==> FirstGiven(batch) == batch[j]
    ensures (forall j :: 0 <= j < |batch| ==> !Filled(batch[j])) ==> FirstGiven(batch) == None
  {
    if batch != [] && !Given(batch[0]) {
      FirstGivenExactly(batch[1..]);
      forall j: nat | FirstFilled(batch, j) ensures FirstGiven(batch) == batch[j] {
        assert FirstFilled(batch[1..], j - 1);
      }
    }
  }

  lemma OrExactly(own: Option<string>, batch: seq<Option<string>>)
    ensures FilledFrom(Or(own, FirstGiven(batch)), own, batch)
  {
    FirstGivenExactly(batch);
  }

  ghost function Emails(items: seq<Item>): (r: seq<Option<string>>)
    ensures |r| == |items| && forall i :: 0 <= i < |items| ==> r[i] == items[i].email
  {
    seq(|items|, i requires 0 <= i < |items| => items[i].email)
  }

  ghost function Versions(items: seq<Item>): (r: seq<Option<string>>)
    ensures |r| == |items| && forall i :: 0 <= i < |items| ==> r[i] == items[i].version
  {
    seq(|items|, i requires 0 <= i < |items| => items[i].version)
  }

  ghost function Systems(items: seq<Item>): (r: seq<Option<string>>)
    ensures |r| == |items| && forall i :: 0 <= i < |items| ==> r[i] == items[i].os
  {
    seq(|items|, i requires 0 <= i < |items| => items[i].os)
  }

  ghost function Processors(items: seq<Item>): (r: seq<Option<string>>)
    ensures |r| == |items| && forall i :: 0 <= i < |items| ==> r[i] == items[i].arch
  {
    seq(|items|, i requires 0 <= i < |items| => items[i].arch)
  }

  lemma GapsAre(items: seq<Item>)
    ensures Gaps(items) == Defaults(FirstGiven(Emails(items)), FirstGiven(Versions(items)), FirstGiven(Systems(items)),
                                    FirstGiven(Processors(items)))
  {
    assert Emails(items) == seq(|items|, i requires 0 <= i < |items| => items[i].email);
    assert Versions(items) == seq(|items|, i requires 0 <= i < |items| => items[i].version);
    assert Systems(items) == seq(|items|, i requires 0 <= i < |items| => items[i].os);
    assert Processors(items) == seq(|items|, i requires 0 <= i < |items| => items[i].arch);
  }

  // ---------------------------------------------------------------- one snapshot

  /** The signed-in user, whatever address the item carries; without one the account of the address, if there is one. */
  ghost predicate UserOf(r: Row, item: Item, items: seq<Item>, c: Context) {
    if c.user.Some? then r.user == c.user
    else
      forall email :: FilledFrom(email, item.email, Emails(items)) ==>
        r.user == if email.Some? && email.value in c.accounts then Some(c.accounts[email.value]) else None
  }

  /** Midnight of the item's day, otherwise its own time, otherwise the server's. */
  predicate TimeOf(r: Row, item: Item, now: int) {
    if item.date.Some? then r.stamp == item.date.value * 86_400_000_000
    else if item.timestamp.Some? then r.stamp == item.timestamp.value
    else r.stamp == now
  }

  /** The server's count where it has one, otherwise the reported one, otherwise zero. */
  predicate CountOf(r: int, counts: map<nat, int>, id: Option<nat>, reported: Option<int>) {
    if id.Some? && id.value in counts then r == counts[id.value]
    else r == if reported.Some? then reported.value else 0
  }

  /** The mistyped names found among the commands, over those the item reports itself. */
  ghost predicate TyposOf(r: map<string, int>, item: Item) {
    forall t: string ::
      var found := Owed(item.commands, OfTypo(t));
      if found > 0 then t in r && r[t] == found
      else if t in item.typos then t in r && r[t] == item.typos[t]
      else t !in r
  }

  ghost predicate SnapshotOf(r: Row, items: seq<Item>, i: nat, c: Context, now: int)
    requires i < |items|
  {
    var item, f := items[i], r.fields;
    && UserOf(r, item, items, c)
    && TimeOf(r, item, now)
    && FilledFrom(f.version, item.version, Versions(items))
    && FilledFrom(f.os, item.os, Systems(items))
    && FilledFrom(f.arch, item.arch, Processors(items))
    && f.environment == item.environment && f.workspaceType == item.workspaceType
    && CountOf(f.members, c.memberCounts, item.workspace, item.members)
    && CountOf(f.secrets, c.secretCounts, item.project, item.secrets)
    && f.commands == item.commands && f.metrics == item.metrics
    && TyposOf(f.typos, item)
  }

  lemma FilledOnce(a: Option<string>, b: Option<string>, own: Option<string>, batch: seq<Option<string>>)
    requires FilledFrom(a, own, batch) && FilledFrom(b, own, batch)
    ensures a == b
  {
    if !Filled(own) && !(forall j :: 0 <= j < |batch| ==> !Filled(batch[j])) {
      var j := SomeFirst(batch);
      assert FirstFilled(batch, j);
    }
  }

  lemma {:induction false} SomeFirst(batch: seq<Option<string>>) returns (j: nat)
    requires exists k :: 0 <= k < |batch| && Filled(batch[k])
    ensures FirstFilled(batch, j)
  {
    j := 0;
    while !Filled(batch[j])
      invariant j < |batch| && forall k :: 0 <= k < j ==> !Filled(batch[k])
      decreases |batch| - j
    {
      j := j + 1;
    }
  }

  lemma UserExactly(item: Item, items: seq<Item>, c: Context, r: Row)
    requires r.user == UserFor(c, Or(item.email, FirstGiven(Emails(items))))
    ensures UserOf(r, item, items, c)
  {
    OrExactly(item.email, Emails(items));
    forall email | FilledFrom(email, item.email, Emails(items)) && c.user.None?
      ensures r.user == if email.Some? && email.value in c.accounts then Some(c.accounts[email.value]) else None
    {
      FilledOnce(email, Or(item.email, FirstGiven(Emails(items))), item.email, Emails(items));
    }
  }

  lemma TyposExactly(item: Item)
    ensures TyposOf(item.typos + Process(item.commands).typos, item)
  {
    OnlyPositiveShown(item.commands);
    forall t: string ensures t in Process(item.commands).typos <==> Owed(item.commands, OfTypo(t)) > 0 {
      FiguresByVocabulary(item.commands, OfTypo(t));
    }
    forall t: string | t in Process(item.commands).typos
      ensures Process(item.commands).typos[t] == Owed(item.commands, OfTypo(t))
    {
      FiguresByVocabulary(item.commands, OfTypo(t));
    }
  }

  /** Every snapshot of a batch, field by field. */
  lemma SnapshotExactly(items: seq<Item>, c: Context, clock: nat -> int, i: nat)
    requires i < |items|
    ensures SnapshotOf(Snapshots(items, c, clock)[i], items, i, c, clock(i))
  {
    var item, r := items[i], Snapshots(items, c, clock)[i];
    GapsAre(items);
    assert r == Snapshot(item, Gaps(items), c, clock(i));
    UserExactly(item, items, c, r);
    OrExactly(item.version, Versions(items));
    OrExactly(item.os, Systems(items));
    OrExactly(item.arch, Processors(items));
    TyposExactly(item);
  }

  // ---------------------------------------------------------------- which row

  ghost predicate OnDay(stamp: int, d: int) {
    d * 86_400_000_000 <= stamp < (d + 1) * 86_400_000_000
  }

  ghost predicate SameDay(a: int, b: int) {
    exists d :: OnDay(a, d) && OnDay(b, d)
  }

  lemma DayExactly(a: int, b: int)
    ensures Day(a) == Day(b) <==> SameDay(a, b)
  {
    assert OnDay(a, Day(a)) && OnDay(b, Day(b));
    if d :| OnDay(a, d) && OnDay(b, d) {
      DayIs(a, d);
      DayIs(b, d);
    }
  }

  lemma DayIs(a: int, d: int)
    requires OnDay(a, d)
    ensures Day(a) == d
  {
  }

  /** Two snapshots share a row exactly if they are of one day and one user or, both without a user, of one operating
      system, processor, version and environment. */
  lemma KeyExactly(r: Row, s: Row)
    ensures KeyOf(r) == KeyOf(s)
            <==> SameDay(r.stamp, s.stamp) && r.user == s.user
                 && (r.user.None? ==> && r.fields.os == s.fields.os && r.fields.arch == s.fields.arch
                                      && r.fields.version == s.fields.version
                                      && r.fields.environment == s.fields.environment)
  {
    DayExactly(r.stamp, s.stamp);
  }
}
