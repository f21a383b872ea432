/** The telemetry sync: a batch of items becomes snapshots, each updating the row of its user and day, or of its day and
    environment when nobody is known, or adding one. Times are microseconds since the epoch, in UTC. */
module TelemetrySync {
  import opened Text
  import opened Sums
  import opened Commands

  const DAY: int := 86_400_000_000

  /** What an item and a row both carry unchanged: every counter, flag and list the CLI reports. */
  datatype Metrics = Metrics(counters: seq<int>, flags: seq<bool>, styles: seq<string>, integrations: seq<string>)

  datatype Item = Item(
    date: Option<int>, timestamp: Option<int>, version: Option<string>, os: Option<string>, arch: Option<string>,
    environment: Option<string>, workspaceType: Option<string>, workspace: Option<nat>, project: Option<nat>,
    members: Option<int>, secrets: Option<int>, email: Option<string>, commands: Counts, typos: map<string, int>,
    metrics: Metrics)

  /** The columns an update overwrites. */
  datatype Fields = Fields(
    version: Option<string>, os: Option<string>, arch: Option<string>, environment: Option<string>,
    workspaceType: Option<string>, members: int, secrets: int, commands: Counts, typos: map<string, int>,
    metrics: Metrics)

  datatype Row = Row(user: Option<nat>, stamp: int, fields: Fields)

  // ---------------------------------------------------------------- snapshots

  predicate Given(o: Option<string>) {
    o.Some? && o.value != ""
  }

  /** Python's `a or b`. */
  function Or(a: Option<string>, b: Option<string>): Option<string> {
    if Given(a) then a else b
  }

  /** The first non-empty value in the batch. */
  function FirstGiven(values: seq<Option<string>>): Option<string> {
    if values == [] then None
    else if Given(values[0]) then values[0]
    else FirstGiven(values[1..])
  }

  /** Values of the whole batch that fill gaps in its items. */
  datatype Defaults = Defaults(email: Option<string>, version: Option<string>, os: Option<string>, arch: Option<string>)

  function Gaps(items: seq<Item>): Defaults {
    Defaults(FirstGiven(seq(|items|, i requires 0 <= i < |items| => items[i].email)),
             FirstGiven(seq(|items|, i requires 0 <= i < |items| => items[i].version)),
             FirstGiven(seq(|items|, i requires 0 <= i < |items| => items[i].os)),
             FirstGiven(seq(|items|, i requires 0 <= i < |items| => items[i].arch)))
  }

  /** What the sync reads besides the batch: the signed-in user, accounts by email, and two counts by id. */
  datatype Context = Context(
    user: Option<nat>, accounts: map<string, nat>, memberCounts: map<nat, int>, secretCounts: map<nat, int>)

  function Stamp(item: Item, now: int): int {
    if item.date.Some? then item.date.value * DAY
    else if item.timestamp.Some? then item.timestamp.value
    else now
  }

  function CountFor(counts: map<nat, int>, id: Option<nat>, reported: Option<int>): int {
    if id.Some? && id.value in counts then counts[id.value] else if reported.Some? then reported.value else 0
  }

  function UserFor(c: Context, email: Option<string>): Option<nat> {
    if c.user.Some? then c.user
    else if email.Some? && email.value in c.accounts then Some(c.accounts[email.value])
    else None
  }

  function Snapshot(item: Item, gaps: Defaults, c: Context, now: int): Row {
    Row(UserFor(c, Or(item.email, gaps.email)), Stamp(item, now),
        Fields(Or(item.version, gaps.version), Or(item.os, gaps.os), Or(item.arch, gaps.arch), item.environment,
               item.workspaceType, CountFor(c.memberCounts, item.workspace, item.members),
               CountFor(c.secretCounts, item.project, item.secrets), item.commands,
               item.typos + Process(item.commands).typos, item.metrics))
  }

  /** `clock(i)` is the server's time when the `i`-th item is reached. */
  function Snapshots(items: seq<Item>, c: Context, clock: nat -> int): (r: seq<Row>)
    ensures |r| == |items|
  {
    seq(|items|, i requires 0 <= i < |items| => Snapshot(items[i], Gaps(items), c, clock(i)))
  }

  // ---------------------------------------------------------------- the table

  datatype Key =
    | Of(user: nat, day: int)
    | Anonymous(day: int, os: Option<string>, arch: Option<string>, version: Option<string>,
                environment: Option<string>)

  function Day(stamp: int): int {
    stamp / DAY
  }

  function KeyOf(r: Row): Key {
    if r.user.Some? then Of(r.user.value, Day(r.stamp))
    else Anonymous(Day(r.stamp), r.fields.os, r.fields.arch, r.fields.version, r.fields.environment)
  }

  /** The newest row with key `k`; rows are kept in the order they were created. */
  function Find(rows: seq<Row>, k: Key): (i: Option<nat>)
    ensures i.Some? ==> i.value < |rows| && KeyOf(rows[i.value]) == k
    ensures i.None? ==> forall j :: 0 <= j < |rows| ==> KeyOf(rows[j]) != k
  {
    if rows == [] then None
    else if KeyOf(rows[|rows| - 1]) == k then Some(|rows| - 1)
    else
      var before := rows[..|rows| - 1];
      var i := Find(before, k);
      assert i.None? ==> forall j :: 0 <= j < |before| ==> before[j] == rows[j] && KeyOf(rows[j]) != k;
      i
  }

  function Upsert(rows: seq<Row>, snap: Row): seq<Row> {
    var i := Find(rows, KeyOf(snap));
    if i.Some? then rows[i.value := rows[i.value].(fields := snap.fields)] else rows + [snap]
  }

  function UpsertAll(rows: seq<Row>, snaps: seq<Row>): seq<Row> {
    if snaps == [] then rows
    else Upsert(UpsertAll(rows, snaps[..|snaps| - 1]), snaps[|snaps| - 1])
  }

  lemma UpsertNext(rows: seq<Row>, snaps: seq<Row>, n: nat)
    requires n < |snaps|
    ensures UpsertAll(rows, snaps[..n + 1]) == Upsert(UpsertAll(rows, snaps[..n]), snaps[n])
  {
    assert snaps[..n + 1][..n] == snaps[..n];
  }

  lemma UpsertSnoc(rows: seq<Row>, snaps: seq<Row>, last: Row)
    ensures UpsertAll(rows, snaps + [last]) == Upsert(UpsertAll(rows, snaps), last)
  {
  }

  /** The row holds user `u` on day `d`, or the same anonymous environment: the two queries of the sync. */
  predicate Selected(r: Row, snap: Row) {
    if snap.user.Some? then r.user == snap.user && Day(r.stamp) == Day(snap.stamp)
    else
      && r.user.None?
      && Day(r.stamp) == Day(snap.stamp)
      && r.fields.os == snap.fields.os
      && r.fields.arch == snap.fields.arch
      && r.fields.version == snap.fields.version
      && r.fields.environment == snap.fields.environment
  }

  lemma SelectedByKey(r: Row, snap: Row)
    ensures Selected(r, snap) <==> KeyOf(r) == KeyOf(snap)
  {
  }

  class TelemetryTable {
    var rows: seq<Row>

    constructor ()
      ensures rows == []
    {
      rows := [];
    }

    /** `filter(...).afirst()`, newest first. */
    method First(snap: Row) returns (found: Option<nat>)
      ensures found == Find(rows, KeyOf(snap))
    {
      var n := |rows|;
      assert rows[..n] == rows;
      while n > 0
        invariant n <= |rows|
        invariant Find(rows, KeyOf(snap)) == Find(rows[..n], KeyOf(snap))
      {
        n := n - 1;
        assert rows[..n + 1][..n] == rows[..n];
        SelectedByKey(rows[n], snap);
        if Selected(rows[n], snap) { return Some(n); }
      }
      return None;
    }

    method Save(snap: Row) returns (created: bool)
      modifies this
      ensures rows == Upsert(old(rows), snap)
      ensures created <==> |rows| == |old(rows)| + 1
      ensures !created <==> |rows| == |old(rows)|
    {
      var found := First(snap);
      if found.Some? {
        var existing := rows[found.value];
        existing := existing.(fields := snap.fields);
        rows := rows[found.value := existing];
        return false;
      }
      rows := rows + [snap];
      return true;
    }

    method ProcessSyncPayload(items: seq<Item>, c: Context, clock: nat -> int) returns (created: nat, updated: nat)
      modifies this
      ensures rows == UpsertAll(old(rows), Snapshots(items, c, clock))
      ensures created == |rows| - |old(rows)|
      ensures created + updated == |items|
    {
      var snapshots := Build(items, c, clock);
      created, updated := 0, 0;
      for n := 0 to |snapshots|
        invariant rows == UpsertAll(old(rows), snapshots[..n])
        invariant created == |rows| - |old(rows)| && created + updated == n
      {
        UpsertNext(old(rows), snapshots, n);
        var isNew := Save(snapshots[n]);
        if isNew { created := created + 1; } else { updated := updated + 1; }
      }
      assert snapshots[..|snapshots|] == snapshots;
    }
  }

  /** The first loop of the sync. */
  method Build(items: seq<Item>, c: Context, clock: nat -> int) returns (snapshots: seq<Row>)
    ensures snapshots == Snapshots(items, c, clock)
  {
    var gaps := Gaps(items);
    snapshots := [];
    for n := 0 to |items|
      invariant |snapshots| == n
      invariant forall i :: 0 <= i < n ==> snapshots[i] == Snapshot(items[i], gaps, c, clock(i))
    {
      var item := items[n];
      var stamp := clock(n);
      if item.date.Some? {
        stamp := item.date.value * DAY;
      } else if item.timestamp.Some? {
        stamp := item.timestamp.value;
      }
      var user := UserFor(c, Or(item.email, gaps.email));
      var _, _, itemTypos, _ := ProcessCommandExecutions(item.commands);
      var typos := item.typos + itemTypos;
      snapshots := snapshots + [
        Row(user, stamp,
            Fields(Or(item.version, gaps.version), Or(item.os, gaps.os), Or(item.arch, gaps.arch), item.environment,
                   item.workspaceType, CountFor(c.memberCounts, item.workspace, item.members),
                   CountFor(c.secretCounts, item.project, item.secrets), item.commands, typos, item.metrics))];
    }
  }

  // ---------------------------------------------------------------- one row for each key

  ghost predicate Distinct(rows: seq<Row>) {
    forall i, j :: 0 <= i < j < |rows| ==> KeyOf(rows[i]) != KeyOf(rows[j])
  }

  lemma SameKey(r: Row, snap: Row)
    requires KeyOf(r) == KeyOf(snap)
    ensures KeyOf(r.(fields := snap.fields)) == KeyOf(r)
  {
  }

  lemma UpsertDistinct(rows: seq<Row>, snap: Row)
    requires Distinct(rows)
    ensures Distinct(Upsert(rows, snap))
  {
  }

  lemma {:induction false} AlwaysDistinct(rows: seq<Row>, snaps: seq<Row>)
    requires Distinct(rows)
    ensures Distinct(UpsertAll(rows, snaps))
  {
    if snaps != [] {
      AlwaysDistinct(rows, snaps[..|snaps| - 1]);
      UpsertDistinct(UpsertAll(rows, snaps[..|snaps| - 1]), snaps[|snaps| - 1]);
    }
  }

  // ---------------------------------------------------------------- the table as a keyed map

  ghost predicate Has(rows: seq<Row>, k: Key) {
    exists i :: 0 <= i < |rows| && KeyOf(rows[i]) == k
  }

  /** The row of key `k`. */
  ghost function The(rows: seq<Row>, k: Key): (r: Row)
    requires Has(rows, k)
    ensures KeyOf(r) == k
  {
    rows[Find(rows, k).value]
  }

  lemma TheIs(rows: seq<Row>, i: nat)
    requires Distinct(rows) && i < |rows|
    ensures Has(rows, KeyOf(rows[i])) && The(rows, KeyOf(rows[i])) == rows[i]
  {
  }

  /** One snapshot as a write to a keyed map: a new key takes the whole snapshot, an old one only its fields. */
  lemma UpsertAt(rows: seq<Row>, snap: Row, k: Key)
    requires Distinct(rows)
    ensures Has(Upsert(rows, snap), k) <==> Has(rows, k) || k == KeyOf(snap)
    ensures Has(rows, k) && k != KeyOf(snap) ==> The(Upsert(rows, snap), k) == The(rows, k)
    ensures Has(rows, k) && k == KeyOf(snap)
            ==> The(Upsert(rows, snap), k) == The(rows, k).(fields := snap.fields)
    ensures !Has(rows, k) && k == KeyOf(snap) ==> The(Upsert(rows, snap), k) == snap
  {
    var t := Upsert(rows, snap);
    UpsertDistinct(rows, snap);
    var i := Find(rows, KeyOf(snap));
    if i.Some? { SameKey(rows[i.value], snap); TheIs(t, i.value); } else { TheIs(t, |rows|); }
    if Has(rows, k) { KeptAt(rows, snap, Find(rows, k).value); }
    if Has(t, k) { FromWhere(rows, snap, Find(t, k).value); }
  }

  lemma KeptAt(rows: seq<Row>, snap: Row, j: nat)
    requires Distinct(rows) && j < |rows|
    ensures j < |Upsert(rows, snap)| && KeyOf(Upsert(rows, snap)[j]) == KeyOf(rows[j])
    ensures The(Upsert(rows, snap), KeyOf(rows[j])) == Upsert(rows, snap)[j]
  {
  }

  lemma FromWhere(rows: seq<Row>, snap: Row, j: nat)
    requires j < |Upsert(rows, snap)|
    ensures Has(rows, KeyOf(Upsert(rows, snap)[j])) || KeyOf(Upsert(rows, snap)[j]) == KeyOf(snap)
  {
  }

  /** The first snapshot with key `k`. */
  function First(snaps: seq<Row>, k: Key): (i: Option<nat>)
    ensures i.Some? ==> i.value < |snaps| && KeyOf(snaps[i.value]) == k
  {
    if snaps == [] then None
    else
      var i := First(snaps[..|snaps| - 1], k);
      if i.Some? then i
      else if KeyOf(snaps[|snaps| - 1]) == k then Some(|snaps| - 1)
      else None
  }

  lemma HasNext(snaps: seq<Row>, k: Key)
    requires snaps != []
    ensures var before, last := snaps[..|snaps| - 1], snaps[|snaps| - 1];
            && (Has(snaps, k) <==> Has(before, k) || KeyOf(last) == k)
            && (KeyOf(last) == k ==> The(snaps, k) == last)
            && (KeyOf(last) != k && Has(before, k) ==> The(snaps, k) == The(before, k))
  {
  }

  lemma {:induction false} HasFirst(snaps: seq<Row>, k: Key)
    ensures First(snaps, k).Some? <==> Has(snaps, k)
  {
    if snaps != [] {
      HasFirst(snaps[..|snaps| - 1], k);
      HasNext(snaps, k);
    }
  }

  /** What a batch does to key `k`: the last snapshot's fields win; a row that exists keeps its user and time, a new one
      takes them from the first snapshot; keys the batch does not name are left alone. */
  ghost predicate BatchAt(rows: seq<Row>, snaps: seq<Row>, after: seq<Row>, k: Key) {
    && (Has(after, k) <==> Has(rows, k) || Has(snaps, k))
    && (Has(snaps, k) && Has(after, k) ==> The(after, k).fields == The(snaps, k).fields)
    && (Has(rows, k) && Has(after, k) ==> The(after, k).user == The(rows, k).user
                                          && The(after, k).stamp == The(rows, k).stamp)
    && (Has(rows, k) && Has(after, k) && !Has(snaps, k) ==> The(after, k) == The(rows, k))
    && (!Has(rows, k) && First(snaps, k).Some? && Has(after, k)
        ==> The(after, k).stamp == snaps[First(snaps, k).value].stamp)
  }

  lemma {:induction false} BatchIsKeyedWrites(rows: seq<Row>, snaps: seq<Row>, k: Key)
    requires Distinct(rows)
    ensures BatchAt(rows, snaps, UpsertAll(rows, snaps), k)
  {
    if snaps == [] {
      HasFirst(snaps, k);
    } else {
      var before := snaps[..|snaps| - 1];
      BatchIsKeyedWrites(rows, before, k);
      AlwaysDistinct(rows, before);
      BatchStep(rows, snaps, UpsertAll(rows, before), UpsertAll(rows, snaps), k);
    }
  }

  lemma BatchStep(rows: seq<Row>, snaps: seq<Row>, middle: seq<Row>, after: seq<Row>, k: Key)
    requires snaps != [] && after == Upsert(middle, snaps[|snaps| - 1])
    requires Distinct(middle) && BatchAt(rows, snaps[..|snaps| - 1], middle, k)
    ensures BatchAt(rows, snaps, after, k)
  {
    UpsertAt(middle, snaps[|snaps| - 1], k);
    HasNext(snaps, k);
    HasFirst(snaps[..|snaps| - 1], k);
    HasFirst(snaps, k);
  }

  // ---------------------------------------------------------------- whole runs

  lemma {:induction false} BatchesConcatenate(rows: seq<Row>, a: seq<Row>, b: seq<Row>)
    ensures UpsertAll(UpsertAll(rows, a), b) == UpsertAll(rows, a + b)
  {
    if b == [] {
      assert a + b == a;
    } else {
      var before, last := b[..|b| - 1], b[|b| - 1];
      BatchesConcatenate(rows, a, before);
      UpsertSnoc(rows, a + before, last);
      Associate(a, before, [last]);
      assert before + [last] == b;
      assert UpsertAll(UpsertAll(rows, a), b) == Upsert(UpsertAll(UpsertAll(rows, a), before), last);
    }
  }

  /** The table after any number of batches. */
  function After(batches: seq<seq<Row>>, n: nat): seq<Row>
    requires n <= |batches|
  {
    if n == 0 then [] else UpsertAll(After(batches, n - 1), batches[n - 1])
  }

  /** Every snapshot ever sent, in order. */
  function Sent(batches: seq<seq<Row>>, n: nat): seq<Row>
    requires n <= |batches|
  {
    if n == 0 then [] else Sent(batches, n - 1) + batches[n - 1]
  }

  lemma {:induction false} BatchesDoNotMatter(batches: seq<seq<Row>>, n: nat)
    requires n <= |batches|
    ensures After(batches, n) == UpsertAll([], Sent(batches, n))
  {
    if n > 0 {
      BatchesDoNotMatter(batches, n - 1);
      BatchesConcatenate([], Sent(batches, n - 1), batches[n - 1]);
    }
  }

  /** In every reachable state each key ever sent has one row: first time, last fields. */
  lemma FirstTimeLastFields(batches: seq<seq<Row>>, n: nat, k: Key)
    requires n <= |batches|
    ensures Distinct(After(batches, n))
    ensures var sent, rows := Sent(batches, n), After(batches, n);
            && (Has(rows, k) <==> Has(sent, k))
            && (Has(rows, k) ==> First(sent, k).Some?
                                 && The(rows, k).stamp == sent[First(sent, k).value].stamp
                                 && The(rows, k).fields == The(sent, k).fields)
  {
    BatchesDoNotMatter(batches, n);
    AlwaysDistinct([], Sent(batches, n));
    BatchIsKeyedWrites([], Sent(batches, n), k);
    HasFirst(Sent(batches, n), k);
  }

  // ---------------------------------------------------------------- sending a batch again

  /** The same keys and fields, position by position; only times within the day may differ. */
  ghost predicate SameContent(a: seq<Row>, b: seq<Row>) {
    |a| == |b| && forall i :: 0 <= i < |a| ==> KeyOf(a[i]) == KeyOf(b[i]) && a[i].fields == b[i].fields
  }

  lemma {:induction false} SameContentFinds(a: seq<Row>, b: seq<Row>, k: Key)
    requires SameContent(a, b)
    ensures Find(a, k) == Find(b, k)
  {
    if a != [] { SameContentFinds(a[..|a| - 1], b[..|b| - 1], k); }
  }

  ghost predicate Covers(rows: seq<Row>, snaps: seq<Row>) {
    forall i :: 0 <= i < |snaps| ==> Has(rows, KeyOf(snaps[i]))
  }

  lemma FindsIfHas(rows: seq<Row>, k: Key)
    ensures Find(rows, k).Some? <==> Has(rows, k)
  {
  }

  /** If every key is there already, nothing is created and rows keep their place, user and time. */
  ghost predicate InPlace(rows: seq<Row>, after: seq<Row>) {
    |after| == |rows|
    && forall i :: 0 <= i < |rows| ==>
      after[i].user == rows[i].user && after[i].stamp == rows[i].stamp && KeyOf(after[i]) == KeyOf(rows[i])
  }

  lemma InPlaceHas(rows: seq<Row>, after: seq<Row>, k: Key)
    requires InPlace(rows, after) && Has(rows, k)
    ensures Has(after, k)
  {
  }

  lemma UpsertInPlace(rows: seq<Row>, snap: Row)
    requires Has(rows, KeyOf(snap))
    ensures InPlace(rows, Upsert(rows, snap))
  {
  }

  lemma InPlaceTransitive(a: seq<Row>, b: seq<Row>, c: seq<Row>)
    requires InPlace(a, b) && InPlace(b, c)
    ensures InPlace(a, c)
  {
  }

  lemma {:induction false} CoveredInPlace(rows: seq<Row>, snaps: seq<Row>)
    requires Covers(rows, snaps)
    ensures InPlace(rows, UpsertAll(rows, snaps))
  {
    if snaps != [] {
      var before, last := snaps[..|snaps| - 1], snaps[|snaps| - 1];
      CoveredInPlace(rows, before);
      InPlaceHas(rows, UpsertAll(rows, before), KeyOf(last));
      UpsertInPlace(UpsertAll(rows, before), last);
      InPlaceTransitive(rows, UpsertAll(rows, before), UpsertAll(rows, snaps));
    }
  }

  lemma BatchCovers(rows: seq<Row>, snaps: seq<Row>, again: seq<Row>)
    requires Distinct(rows) && SameContent(snaps, again)
    ensures Covers(UpsertAll(rows, snaps), again)
  {
    forall i | 0 <= i < |again| ensures Has(UpsertAll(rows, snaps), KeyOf(again[i])) {
      BatchIsKeyedWrites(rows, snaps, KeyOf(again[i]));
      assert KeyOf(snaps[i]) == KeyOf(again[i]);
    }
  }

  /** Sending the same content again changes no row at all. */
  lemma ResendChangesNothing(rows: seq<Row>, snaps: seq<Row>, again: seq<Row>)
    requires Distinct(rows) && SameContent(snaps, again)
    ensures UpsertAll(UpsertAll(rows, snaps), again) == UpsertAll(rows, snaps)
  {
    var once, twice := UpsertAll(rows, snaps), UpsertAll(UpsertAll(rows, snaps), again);
    BatchCovers(rows, snaps, again);
    CoveredInPlace(once, again);
    forall i | 0 <= i < |once| ensures twice[i] == once[i] { RowSettled(rows, snaps, again, i); }
  }

  lemma RowSettled(rows: seq<Row>, snaps: seq<Row>, again: seq<Row>, i: nat)
    requires Distinct(rows) && SameContent(snaps, again) && i < |UpsertAll(rows, snaps)|
    requires InPlace(UpsertAll(rows, snaps), UpsertAll(UpsertAll(rows, snaps), again))
    ensures UpsertAll(UpsertAll(rows, snaps), again)[i] == UpsertAll(rows, snaps)[i]
  {
    var once, twice := UpsertAll(rows, snaps), UpsertAll(UpsertAll(rows, snaps), again);
    var k := KeyOf(once[i]);
    AlwaysDistinct(rows, snaps);
    AlwaysDistinct(once, again);
    TheIs(once, i);
    TheIs(twice, i);
    BatchIsKeyedWrites(rows, snaps, k);
    BatchIsKeyedWrites(once, again, k);
    SameContentFinds(snaps, again, k);
    FindsIfHas(snaps, k);
    FindsIfHas(again, k);
  }

  /** A batch whose items all carry a date or a time creates nothing and changes nothing when it is sent again. */
  lemma DatedBatchIsIdempotent(rows: seq<Row>, items: seq<Item>, c: Context, clock: nat -> int, later: nat -> int)
    requires Distinct(rows)
    requires forall i :: 0 <= i < |items| ==> items[i].date.Some? || items[i].timestamp.Some?
    ensures var once := UpsertAll(rows, Snapshots(items, c, clock));
            UpsertAll(once, Snapshots(items, c, later)) == once
  {
    var a, b := Snapshots(items, c, clock), Snapshots(items, c, later);
    forall i | 0 <= i < |items| ensures a[i] == b[i] {
      assert Stamp(items[i], clock(i)) == Stamp(items[i], later(i));
    }
    ResendChangesNothing(rows, a, b);
  }
}
