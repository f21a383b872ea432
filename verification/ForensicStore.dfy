/** The forensic table: ingestion computes both hashes over what it is about to store, replay recomputes them. */
module ForensicStore {
  import opened Text
  import opened Json
  import opened Digests
  import opened EntryBlocks
  import opened Instants
  import opened ForensicChain

  /** One client entry. An absent JSON field is `Null`; `created` is the parsed client timestamp, when there was one;
      `seqNo` is the number `int` makes of the client's, when it makes one. */
  datatype Entry = Entry(
    workspace: Option<string>, project: Option<string>, id: string, stream: string, session: string, seqNo: Option<int>,
    prev: string, created: Option<Instant>,
    eventJson: Json, event: Json, snapshotJson: Json, snapshot: Json,
    enforcementJson: Json, enforcement: Json, resolutionJson: Json, resolution: Json)

  datatype Row = Row(
    workspace: string, project: Option<string>, stream: string, seqNo: int, prev: string,
    chainHash: string, entryHash: string, event: Json, snapshot: Json, enforcement: Json, resolution: Json,
    createdAt: Instant)
  {
    function Blocks(): seq<Json> {
      [event, snapshot, enforcement, resolution]
    }
  }

  type Rows = map<string, Row>
  type Batch = seq<(string, Row)>

  /** What the server contributes while it reads entry `k`: a fresh id and the time of day. */
  datatype Server = Server(workspaces: set<string>, projects: set<string>, freshId: nat -> string, now: nat -> Instant)

  /** `text[:64]`, the width of the columns. */
  function Clip(s: string): string {
    if |s| <= 64 then s else s[..64]
  }

  /** `a or b or {}`. */
  function FirstOf(a: Json, b: Json): Json {
    if Truthy(a) then a else OrEmpty(b)
  }

  function EntryId(e: Entry, generated: string): string {
    if e.id != "" then Clip(e.id) else generated
  }

  predicate Accepts(server: Server, e: Entry) {
    e.workspace.Some? && e.workspace.value in server.workspaces
  }

  function StreamOf(e: Entry): string {
    if e.stream != "" then e.stream else if e.session != "" then e.session else "default"
  }

  function BuildRow(p: Platform, server: Server, e: Entry, k: nat): (string, Row)
    requires Accepts(server, e)
  {
    var event := FirstOf(e.eventJson, e.event);
    var snapshot := FirstOf(e.snapshotJson, e.snapshot);
    var enforcement := FirstOf(e.enforcementJson, e.enforcement);
    var resolution := FirstOf(e.resolutionJson, e.resolution);
    var id := EntryId(e, server.freshId(k));
    var at := if e.created.Some? then e.created.value else server.now(k);
    var project := if e.project.Some? && e.project.value in server.projects then e.project else None;
    (id, Row(e.workspace.value, project, Clip(StreamOf(e)), if e.seqNo.Some? then e.seqNo.value else 0, Clip(e.prev),
             Clip(ChainHash(p, e.prev, id, at)), Clip(EntryHash(p.H, event, snapshot, enforcement, resolution)),
             event, snapshot, enforcement, resolution, at))
  }

  /** The rows built from the first `n` entries. */
  function Build(p: Platform, server: Server, entries: seq<Entry>, n: nat): Batch
    requires n <= |entries|
  {
    if n == 0 then []
    else
      var before := Build(p, server, entries, n - 1);
      if Accepts(server, entries[n - 1]) then before + [BuildRow(p, server, entries[n - 1], n - 1)] else before
  }

  function Insert(rows: Rows, item: (string, Row)): Rows {
    if item.0 in rows then rows else rows[item.0 := item.1]
  }

  /** `bulk_create(ignore_conflicts=True)`. */
  function InsertAll(rows: Rows, batch: Batch): Rows
    decreases |batch|
  {
    if batch == [] then rows else InsertAll(Insert(rows, batch[0]), batch[1..])
  }

  predicate Countable(server: Server, e: Entry) {
    Accepts(server, e) ==> e.seqNo.Some?
  }

  /** Every sequence number the call reads is one. */
  predicate Numbered(server: Server, entries: seq<Entry>) {
    forall i :: 0 <= i < |entries| ==> Countable(server, entries[i])
  }

  /** The table after one call. */
  function Ingested(p: Platform, rows: Rows, server: Server, entries: seq<Entry>): Rows {
    if Numbered(server, entries) then InsertAll(rows, Build(p, server, entries, |entries|)) else rows
  }

  /** What one entry adds to the batch. */
  function Item(p: Platform, server: Server, e: Entry, k: nat): Batch {
    if Accepts(server, e) then [BuildRow(p, server, e, k)] else []
  }

  lemma BuildNext(p: Platform, server: Server, entries: seq<Entry>, k: nat)
    requires k < |entries|
    ensures Build(p, server, entries, k + 1) == Build(p, server, entries, k) + Item(p, server, entries[k], k)
  {
  }

  method ReadEntry(p: Platform, server: Server, e: Entry, k: nat) returns (item: Option<Batch>)
    ensures item == if Countable(server, e) then Some(Item(p, server, e, k)) else None
  {
    if !Accepts(server, e) {
      return Some([]);
    }
    if e.seqNo.None? {
      return None;
    }
    return Some([BuildRow(p, server, e, k)]);
  }

  /** The loop over the client's entries. */
  method ReadEntries(p: Platform, server: Server, entries: seq<Entry>) returns (batch: Option<Batch>)
    ensures batch == if Numbered(server, entries) then Some(Build(p, server, entries, |entries|)) else None
  {
    var rows: Batch := [];
    for k := 0 to |entries|
      invariant rows == Build(p, server, entries, k)
      invariant forall i :: 0 <= i < k ==> Countable(server, entries[i])
    {
      var item := ReadEntry(p, server, entries[k], k);
      if item.None? {
        assert !Countable(server, entries[k]);
        return None;
      }
      BuildNext(p, server, entries, k);
      rows := rows + item.value;
    }
    return Some(rows);
  }

  class ForensicTable {
    var rows: Rows

    constructor ()
      ensures rows == map[]
    {
      rows := map[];
    }

    method BulkCreate(batch: Batch)
      modifies this
      ensures rows == InsertAll(old(rows), batch)
    {
      for i := 0 to |batch|
        invariant InsertAll(rows, batch[i..]) == InsertAll(old(rows), batch)
      {
        assert batch[i..][1..] == batch[i + 1..];
        if batch[i].0 !in rows {
          rows := rows[batch[i].0 := batch[i].1];
        }
      }
    }

    /** The count and ids returned are those of the rows offered, whether or not they were new. A sequence number that
        is none fails the whole call. */
    method IngestForensicLogs(p: Platform, server: Server, entries: seq<Entry>)
      returns (failed: bool, count: nat, ids: seq<string>)
      modifies this
      ensures failed <==> !Numbered(server, entries)
      ensures rows == Ingested(p, old(rows), server, entries)
      ensures var batch := Build(p, server, entries, |entries|);
              !failed ==> count == |batch| == |ids| && forall i :: 0 <= i < count ==> ids[i] == batch[i].0
    {
      var read := ReadEntries(p, server, entries);
      if read.None? {
        return true, 0, [];
      }
      var batch := read.value;
      if batch != [] {
        BulkCreate(batch);
      }
      failed, count, ids := false, |batch|, seq(|batch|, i requires 0 <= i < |batch| => batch[i].0);
    }

    /** The `verified` field of a replay; nothing when there is no such record or its workspace is not among those the
        caller is an active member of. */
    method GetReplay(p: Platform, id: string, memberOf: set<string>) returns (verified: Option<bool>)
      ensures verified == if id in rows && rows[id].workspace in memberOf then Some(Verified(p, id, rows[id])) else None
    {
      if id !in rows {
        return None;
      }
      if rows[id].workspace !in memberOf {
        return None;
      }
      var row := rows[id];
      var chain := ChainHash(p, row.prev, id, row.createdAt);
      var entry := ComputeEntryHash(p.H, OrEmpty(row.event), OrEmpty(row.snapshot), OrEmpty(row.enforcement),
                                    OrEmpty(row.resolution));
      var ok := row.chainHash != "" && row.chainHash == chain;
      ok := ok && row.entryHash != "" && row.entryHash == entry;
      return Some(ok);
    }
  }

  // ---------------------------------------------------------------- replay

  predicate Verified(p: Platform, id: string, row: Row) {
    && row.chainHash != "" && row.chainHash == ChainHash(p, row.prev, id, row.createdAt)
    && row.entryHash != ""
    && row.entryHash
       == EntryHash(p.H, OrEmpty(row.event), OrEmpty(row.snapshot), OrEmpty(row.enforcement), OrEmpty(row.resolution))
  }

  // ---------------------------------------------------------------- append-only, first write wins

  predicate FirstAt(batch: Batch, id: string, i: nat) {
    i < |batch| && batch[i].0 == id && forall j :: 0 <= j < i ==> batch[j].0 != id
  }

  lemma FirstAtTail(batch: Batch, id: string, i: nat)
    requires i > 0 && FirstAt(batch, id, i)
    ensures FirstAt(batch[1..], id, i - 1)
  {
  }

  /** A batch adds its ids and nothing else; what was stored stays as it was. */
  lemma {:induction false} AppendOnly(rows: Rows, batch: Batch)
    ensures rows.Keys <= InsertAll(rows, batch).Keys
    ensures forall id :: id in rows ==> InsertAll(rows, batch)[id] == rows[id]
    ensures InsertAll(rows, batch).Keys == rows.Keys + set i | 0 <= i < |batch| :: batch[i].0
    decreases |batch|
  {
    if batch != [] {
      AppendOnly(Insert(rows, batch[0]), batch[1..]);
      var ids, rest := set i | 0 <= i < |batch| :: batch[i].0, set i | 0 <= i < |batch[1..]| :: batch[1..][i].0;
      forall id | id in ids ensures id == batch[0].0 || id in rest {
        var i :| 0 <= i < |batch| && batch[i].0 == id;
        assert i == 0 || batch[1..][i - 1].0 == id;
      }
      forall id | id in rest ensures id in ids {
        var i :| 0 <= i < |batch[1..]| && batch[1..][i].0 == id;
        assert batch[i + 1].0 == id;
      }
    }
  }

  /** A new id gets the first row offered under it. */
  lemma {:induction false} FirstWriteWins(rows: Rows, batch: Batch, i: nat)
    requires i < |batch| && batch[i].0 !in rows && FirstAt(batch, batch[i].0, i)
    ensures batch[i].0 in InsertAll(rows, batch) && InsertAll(rows, batch)[batch[i].0] == batch[i].1
    decreases |batch|
  {
    if i == 0 {
      AppendOnly(Insert(rows, batch[0]), batch[1..]);
    } else {
      FirstAtTail(batch, batch[i].0, i);
      FirstWriteWins(Insert(rows, batch[0]), batch[1..], i - 1);
    }
  }

  /** Offering ids that are all stored already changes nothing. */
  lemma {:induction false} KnownIdsIgnored(rows: Rows, batch: Batch)
    requires forall i :: 0 <= i < |batch| ==> batch[i].0 in rows
    ensures InsertAll(rows, batch) == rows
    decreases |batch|
  {
    if batch != [] {
      KnownIdsIgnored(rows, batch[1..]);
    }
  }

  /** The returned count is the number of rows added exactly when all ids are new and different. */
  lemma {:induction false} CountExact(rows: Rows, batch: Batch)
    ensures |InsertAll(rows, batch)| <= |rows| + |batch|
    ensures |InsertAll(rows, batch)| == |rows| + |batch| <==>
            forall i :: 0 <= i < |batch| ==> batch[i].0 !in rows && FirstAt(batch, batch[i].0, i)
    decreases |batch|
  {
    if batch != [] {
      var tail := batch[1..];
      var rows' := Insert(rows, batch[0]);
      CountExact(rows', tail);
      if batch[0].0 in rows {
        assert rows' == rows;
      } else {
        assert |rows'| == |rows| + 1;
        if forall i :: 0 <= i < |tail| ==> tail[i].0 !in rows' && FirstAt(tail, tail[i].0, i) {
          forall i | 0 <= i < |batch| ensures batch[i].0 !in rows && FirstAt(batch, batch[i].0, i) {
            assert i > 0 ==> tail[i - 1] == batch[i];
          }
        } else {
          var i :| 0 <= i < |tail| && !(tail[i].0 !in rows' && FirstAt(tail, tail[i].0, i));
          assert batch[i + 1] == tail[i];
          if batch[i + 1].0 !in rows && FirstAt(batch, batch[i + 1].0, i + 1) {
            FirstAtTail(batch, batch[i + 1].0, i + 1);
            assert batch[0].0 != batch[i + 1].0;
          }
        }
      }
    }
  }

  // ---------------------------------------------------------------- stored rows verify

  lemma OrEmptyTwice(v: Json)
    ensures OrEmpty(OrEmpty(v)) == OrEmpty(v)
  {
  }

  lemma EntryHashIgnoresEmpty(H: Digest, a: Json, b: Json, c: Json, d: Json)
    ensures EntryHash(H, OrEmpty(a), OrEmpty(b), OrEmpty(c), OrEmpty(d)) == EntryHash(H, a, b, c, d)
  {
    PreimageIgnoresEmpty([OrEmpty(a), OrEmpty(b), OrEmpty(c), OrEmpty(d)], [a, b, c, d]);
  }

  lemma {:induction false} PreimageIgnoresEmpty(a: seq<Json>, b: seq<Json>)
    requires |a| == |b| && forall i :: 0 <= i < |a| ==> a[i] == OrEmpty(b[i])
    ensures Preimage(a) == Preimage(b)
  {
    if a != [] {
      OrEmptyTwice(b[0]);
      PreimageIgnoresEmpty(a[1..], b[1..]);
    }
  }

  /** A stored row verifies exactly when its client's previous hash fitted the column, or clipping it collides. */
  lemma BuiltRowVerifies(p: Platform, server: Server, e: Entry, k: nat)
    requires IsDigest(p.H) && Accepts(server, e)
    ensures var (id, row) := BuildRow(p, server, e, k);
            Verified(p, id, row) <==>
            |e.prev| <= 64
            || Collide(p.H, ChainPreimage(p.years, e.prev, id, row.createdAt),
                       ChainPreimage(p.years, Clip(e.prev), id, row.createdAt))
  {
  }

  /** One call of the ingestion endpoint. */
  datatype Job = Job(server: Server, entries: seq<Entry>)

  /** The table after the first `n` calls. */
  function Run(p: Platform, jobs: seq<Job>, n: nat): Rows
    requires n <= |jobs|
  {
    if n == 0 then map[]
    else Ingested(p, Run(p, jobs, n - 1), jobs[n - 1].server, jobs[n - 1].entries)
  }

  /** `item` was built from entry `k` of the call. */
  predicate BuiltFrom(p: Platform, job: Job, k: nat, item: (string, Row)) {
    k < |job.entries| && Accepts(job.server, job.entries[k]) && BuildRow(p, job.server, job.entries[k], k) == item
  }

  lemma {:induction false} BuildSource(p: Platform, job: Job, n: nat, i: nat) returns (k: nat)
    requires n <= |job.entries| && i < |Build(p, job.server, job.entries, n)|
    ensures BuiltFrom(p, job, k, Build(p, job.server, job.entries, n)[i])
  {
    if i < |Build(p, job.server, job.entries, n - 1)| {
      k := BuildSource(p, job, n - 1, i);
    } else {
      k := n - 1;
    }
  }

  lemma {:induction false} InsertAllSources(rows: Rows, batch: Batch, id: string)
    requires id in InsertAll(rows, batch)
    ensures (id in rows && InsertAll(rows, batch)[id] == rows[id])
            || exists i: nat :: i < |batch| && batch[i] == (id, InsertAll(rows, batch)[id])
    decreases |batch|
  {
    if batch != [] {
      InsertAllSources(Insert(rows, batch[0]), batch[1..], id);
      var row := InsertAll(rows, batch)[id];
      if id in Insert(rows, batch[0]) && Insert(rows, batch[0])[id] == row {
        assert (id in rows && rows[id] == row) || batch[0] == (id, row);
      } else {
        var i: nat :| i < |batch[1..]| && batch[1..][i] == (id, row);
        assert batch[i + 1] == (id, row);
      }
    }
  }

  /** The row is faithful to the entry it stems from: it verifies exactly when the entry's previous hash had at most 64
      characters, hash collisions aside. */
  ghost predicate VerifiesAsSent(p: Platform, job: Job, k: nat, id: string, row: Row) {
    && BuiltFrom(p, job, k, (id, row))
    && var prev := job.entries[k].prev;
       Verified(p, id, row) <==>
       |prev| <= 64
       || Collide(p.H, ChainPreimage(p.years, prev, id, row.createdAt),
                  ChainPreimage(p.years, Clip(prev), id, row.createdAt))
  }

  /** Over any run of the endpoint, every stored row stems from one entry and verifies as that entry was sent. */
  lemma {:induction false} StoredRowsVerify(p: Platform, jobs: seq<Job>, n: nat, id: string)
    requires IsDigest(p.H) && n <= |jobs| && id in Run(p, jobs, n)
    ensures exists j: nat, k: nat :: j < n && VerifiesAsSent(p, jobs[j], k, id, Run(p, jobs, n)[id])
  {
    var job := jobs[n - 1];
    var batch := Build(p, job.server, job.entries, |job.entries|);
    var row := Run(p, jobs, n)[id];
    if Numbered(job.server, job.entries) { InsertAllSources(Run(p, jobs, n - 1), batch, id); }
    if id in Run(p, jobs, n - 1) && Run(p, jobs, n - 1)[id] == row {
      StoredRowsVerify(p, jobs, n - 1, id);
      var j: nat, k: nat :| j < n - 1 && VerifiesAsSent(p, jobs[j], k, id, row);
    } else {
      var i: nat :| i < |batch| && batch[i] == (id, row);
      var k := BuildSource(p, job, |job.entries|, i);
      BuiltRowVerifies(p, job.server, job.entries[k], k);
      assert VerifiesAsSent(p, jobs[n - 1], k, id, row);
    }
  }

  /** Later calls leave every stored row as it was. */
  lemma {:induction false} RunAppendOnly(p: Platform, jobs: seq<Job>, m: nat, n: nat, id: string)
    requires m <= n <= |jobs| && id in Run(p, jobs, m)
    ensures id in Run(p, jobs, n) && Run(p, jobs, n)[id] == Run(p, jobs, m)[id]
    decreases n
  {
    if m < n {
      RunAppendOnly(p, jobs, m, n - 1, id);
      var job := jobs[n - 1];
      AppendOnly(Run(p, jobs, n - 1), Build(p, job.server, job.entries, |job.entries|));
    }
  }

  // ---------------------------------------------------------------- sending again

  ghost predicate Explicit(entries: seq<Entry>) {
    forall k :: 0 <= k < |entries| ==> entries[k].id != ""
  }

  /** The clipped ids of the entries accepted, in order. */
  function AcceptedIds(server: Server, entries: seq<Entry>, n: nat): seq<string>
    requires n <= |entries|
  {
    if n == 0 then []
    else
      var before := AcceptedIds(server, entries, n - 1);
      if Accepts(server, entries[n - 1]) then before + [Clip(entries[n - 1].id)] else before
  }

  lemma ItemKeys(p: Platform, server: Server, e: Entry, k: nat)
    requires e.id != "" && Accepts(server, e)
    ensures BuildRow(p, server, e, k).0 == Clip(e.id) && BuildRow(p, server, e, k).1.workspace == e.workspace.value
  {
  }

  lemma {:induction false} BuildIds(p: Platform, server: Server, entries: seq<Entry>, n: nat)
    requires Explicit(entries) && n <= |entries|
    ensures |Build(p, server, entries, n)| == |AcceptedIds(server, entries, n)|
    ensures forall i :: 0 <= i < |Build(p, server, entries, n)| ==>
              Build(p, server, entries, n)[i].0 == AcceptedIds(server, entries, n)[i]
  {
    if n > 0 {
      BuildIds(p, server, entries, n - 1);
      if Accepts(server, entries[n - 1]) { ItemKeys(p, server, entries[n - 1], n - 1); }
    }
  }

  lemma {:induction false} AcceptedFrom(server: Server, entries: seq<Entry>, n: nat, id: string)
    requires n <= |entries|
    ensures id in AcceptedIds(server, entries, n)
            <==> exists k :: 0 <= k < n && Accepts(server, entries[k]) && Clip(entries[k].id) == id
  {
    if n > 0 { AcceptedFrom(server, entries, n - 1, id); }
  }

  /** Every entry the server accepts has its id in the table. */
  predicate AllStored(rows: Rows, server: Server, entries: seq<Entry>) {
    forall k :: 0 <= k < |entries| && Accepts(server, entries[k]) ==> Clip(entries[k].id) in rows
  }

  /** Entries with explicit ids leave a table as it is exactly when the ids of those accepted are in it, or the call
      fails. */
  lemma OfferIgnoredExactly(p: Platform, rows: Rows, server: Server, entries: seq<Entry>)
    requires Explicit(entries)
    ensures Ingested(p, rows, server, entries) == rows
            <==> AllStored(rows, server, entries) || !Numbered(server, entries)
  {
    var batch, ids := Build(p, server, entries, |entries|), AcceptedIds(server, entries, |entries|);
    BuildIds(p, server, entries, |entries|);
    if AllStored(rows, server, entries) {
      forall i | 0 <= i < |batch| ensures batch[i].0 in rows {
        AcceptedFrom(server, entries, |entries|, ids[i]);
      }
      KnownIdsIgnored(rows, batch);
    } else {
      var k :| 0 <= k < |entries| && Accepts(server, entries[k]) && Clip(entries[k].id) !in rows;
      AllOffered(p, rows, server, entries, k);
    }
  }

  lemma AllOffered(p: Platform, rows: Rows, server: Server, entries: seq<Entry>, k: nat)
    requires Explicit(entries) && k < |entries| && Accepts(server, entries[k])
    ensures Clip(entries[k].id) in InsertAll(rows, Build(p, server, entries, |entries|))
  {
    var batch, ids := Build(p, server, entries, |entries|), AcceptedIds(server, entries, |entries|);
    BuildIds(p, server, entries, |entries|);
    AcceptedFrom(server, entries, |entries|, Clip(entries[k].id));
    var i :| 0 <= i < |ids| && ids[i] == Clip(entries[k].id);
    AppendOnly(rows, batch);
    assert batch[i].0 in InsertAll(rows, batch);
  }

  /** What deletion of all workspaces but `live` leaves: a record goes with its workspace. */
  function Cascade(rows: Rows, live: set<string>): Rows {
    map id | id in rows && rows[id].workspace in live :: rows[id]
  }

  /** Sending entries again after workspaces were deleted changes nothing exactly when the id of every entry still
      accepted survived. */
  lemma ResendAfterDeletion(p: Platform, rows: Rows, server: Server, server': Server, entries: seq<Entry>)
    requires Explicit(entries)
    ensures var left := Cascade(Ingested(p, rows, server, entries), server'.workspaces);
            Ingested(p, left, server', entries) == left
            <==> AllStored(left, server', entries) || !Numbered(server', entries)
  {
    OfferIgnoredExactly(p, Cascade(Ingested(p, rows, server, entries), server'.workspaces), server', entries);
  }

  /** While no workspace is deleted it changes nothing, at whatever time. */
  lemma ResendIgnored(p: Platform, rows: Rows, server: Server, server': Server, entries: seq<Entry>)
    requires Explicit(entries) && server.workspaces == server'.workspaces
    ensures var first := Ingested(p, rows, server, entries);
            Ingested(p, first, server', entries) == first
  {
    var first := Ingested(p, rows, server, entries);
    if Numbered(server, entries) {
      forall k | 0 <= k < |entries| && Accepts(server', entries[k]) ensures Clip(entries[k].id) in first {
        AllOffered(p, rows, server, entries, k);
      }
    }
    OfferIgnoredExactly(p, first, server', entries);
  }

  /** After a deletion it can: one id sent for two workspaces is stored for the first; once that is gone, sending again
      stores it for the second. */
  lemma FreedIdIsReused(p: Platform, server: Server, server': Server, a: Entry, b: Entry)
    requires a.id == b.id != "" && a.seqNo.Some? && b.seqNo.Some?
    requires Accepts(server, a) && Accepts(server, b) && !Accepts(server', a) && Accepts(server', b)
    ensures var left := Cascade(Ingested(p, map[], server, [a, b]), server'.workspaces);
            left == map[] && Ingested(p, left, server', [a, b]).Keys == {Clip(b.id)}
  {
    var batch := BothBuilt(p, server, a, b);
    var batch' := SecondBuilt(p, server', a, b);
    InsertTwo(batch);
    AppendOnly(map[], batch');
    AllNumbered(server, a, b);
    AllNumbered(server', a, b);
    assert Ingested(p, map[], server, [a, b]) == map[Clip(a.id) := batch[0].1];
  }

  lemma AllNumbered(server: Server, a: Entry, b: Entry)
    requires a.seqNo.Some? && b.seqNo.Some?
    ensures Numbered(server, [a, b])
  {
  }

  lemma TwoItems(p: Platform, server: Server, a: Entry, b: Entry)
    ensures Build(p, server, [a, b], 2) == Item(p, server, a, 0) + Item(p, server, b, 1)
  {
    BuildNext(p, server, [a, b], 0);
    BuildNext(p, server, [a, b], 1);
  }

  lemma BothBuilt(p: Platform, server: Server, a: Entry, b: Entry) returns (batch: Batch)
    requires a.id == b.id != "" && Accepts(server, a) && Accepts(server, b)
    ensures batch == Build(p, server, [a, b], 2) && |batch| == 2
    ensures batch[0].0 == batch[1].0 == Clip(a.id) && batch[0].1.workspace == a.workspace.value
  {
    TwoItems(p, server, a, b);
    ItemKeys(p, server, a, 0);
    ItemKeys(p, server, b, 1);
    batch := [BuildRow(p, server, a, 0), BuildRow(p, server, b, 1)];
  }

  lemma SecondBuilt(p: Platform, server: Server, a: Entry, b: Entry) returns (batch: Batch)
    requires a.id == b.id != "" && !Accepts(server, a) && Accepts(server, b)
    ensures batch == Build(p, server, [a, b], 2) && |batch| == 1 && batch[0].0 == Clip(b.id)
  {
    TwoItems(p, server, a, b);
    ItemKeys(p, server, b, 1);
    batch := [BuildRow(p, server, b, 1)];
  }

  lemma InsertTwo(batch: Batch)
    requires |batch| == 2 && batch[0].0 == batch[1].0
    ensures InsertAll(map[], batch) == map[batch[0].0 := batch[0].1]
  {
    assert batch[1..][1..] == [];
    assert InsertAll(Insert(Insert(map[], batch[0]), batch[1]), []) == map[batch[0].0 := batch[0].1];
  }

  /** The row as a database gives it back: the keys of its JSON objects may come in another order. */
  ghost predicate Reloaded(row: Row, row': Row) {
    && row' == row.(event := row'.event, snapshot := row'.snapshot, enforcement := row'.enforcement,
                    resolution := row'.resolution)
    && AllWellFormed(row.Blocks()) && AllWellFormed(row'.Blocks()) && Meaning(row.Blocks()) == Meaning(row'.Blocks())
  }

  /** Reordering keys does not change the verdict of a replay. */
  lemma ReloadKeepsVerdict(p: Platform, id: string, row: Row, row': Row)
    requires Reloaded(row, row')
    ensures Verified(p, id, row) <==> Verified(p, id, row')
  {
    EntryHashIgnoresEmpty(p.H, row.event, row.snapshot, row.enforcement, row.resolution);
    EntryHashIgnoresEmpty(p.H, row'.event, row'.snapshot, row'.enforcement, row'.resolution);
    MeaningFixesPreimage(row.Blocks(), row'.Blocks());
  }
}
