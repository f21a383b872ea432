/** What a stored record takes from the entry it was sent as, column by column, and which entries are stored. */
module IngestLaws {
  import opened Text
  import opened Json
  import opened Digests
  import opened EntryBlocks
  import opened Instants
  import opened ForensicChain
  import opened ForensicStore

  // ---------------------------------------------------------------- what a row owes to its entry

  /** A column of 64 characters holds as much of a text as fits. */
  predicate Column(stored: string, sent: string) {
    stored <= sent && (if |sent| <= 64 then |stored| == |sent| else |stored| == 64)
  }

  /** The block sent under the `_json` name counts before the one under the plain name, and either only if it holds
      something. */
  predicate BlockOf(stored: Json, json: Json, plain: Json) {
    if !Missing(json) then stored == json
    else if !Missing(plain) then stored == plain
    else stored == Obj([])
  }

  predicate BlocksOf(row: Row, e: Entry) {
    && BlockOf(row.event, e.eventJson, e.event)
    && BlockOf(row.snapshot, e.snapshotJson, e.snapshot)
    && BlockOf(row.enforcement, e.enforcementJson, e.enforcement)
    && BlockOf(row.resolution, e.resolutionJson, e.resolution)
  }

  /** Client and workspace, project, stream and sequence number; a project the server does not know is dropped. */
  predicate PlacedAs(row: Row, e: Entry, server: Server) {
    && e.workspace == Some(row.workspace) && row.workspace in server.workspaces
    && row.project == (if e.project.Some? && e.project.value in server.projects then e.project else None)
    && Column(row.stream, if e.stream != "" then e.stream else if e.session != "" then e.session else "default")
    && e.seqNo == Some(row.seqNo)
  }

  /** The id and the instant are the client's where it gave them. */
  predicate NamedAs(id: string, row: Row, e: Entry, server: Server, k: nat) {
    && (if e.id != "" then Column(id, e.id) else id == server.freshId(k))
    && row.createdAt == (if e.created.Some? then e.created.value else server.now(k))
  }

  /** The linkage text of the emitters: previous hash or genesis marker, id, instant. */
  function EmitterText(y: Years, prev: string, id: string, at: Instant): string {
    (if prev == "" then "genesis_block" else prev) + id + FormatUtc(y, at)
  }

  /** The previous hash is kept as far as it fits; the chain hash is taken over all of it. */
  predicate LinkedAs(p: Platform, id: string, row: Row, e: Entry) {
    && Column(row.prev, e.prev)
    && row.chainHash == p.H(EmitterText(p.years, e.prev, id, row.createdAt))
  }

  function BlockText(v: Json): string {
    if Missing(v) then "{}" else CanonicalDumps(v)
  }

  /** The entry hash is taken over the stored blocks, one behind the other in this order. */
  predicate Hashed(p: Platform, row: Row) {
    row.entryHash
    == p.H(BlockText(row.event) + BlockText(row.snapshot) + BlockText(row.enforcement) + BlockText(row.resolution))
  }

  /** The row stored under `id` is entry `k` of the call. */
  predicate StoredAs(p: Platform, job: Job, k: nat, id: string, row: Row) {
    && k < |job.entries|
    && PlacedAs(row, job.entries[k], job.server)
    && NamedAs(id, row, job.entries[k], job.server, k)
    && LinkedAs(p, id, row, job.entries[k])
    && BlocksOf(row, job.entries[k])
    && Hashed(p, row)
  }

  // ---------------------------------------------------------------- what is built

  lemma BlockText2(v: Json)
    ensures BlockText(v) == CanonicalDumps(OrEmpty(v))
  {
    MissingExactly(v);
  }

  lemma PreimageOfFour(a: Json, b: Json, c: Json, d: Json)
    ensures Preimage([a, b, c, d]) == BlockText(a) + BlockText(b) + BlockText(c) + BlockText(d)
  {
    BlockText2(a);
    BlockText2(b);
    BlockText2(c);
    BlockText2(d);
    PreimageStep([a, b, c, d]);
    PreimageStep([b, c, d]);
    PreimageStep([c, d]);
    PreimageStep([d]);
    Regroup4(BlockText(a), BlockText(b), BlockText(c), BlockText(d));
  }

  lemma PreimageStep(blocks: seq<Json>)
    requires blocks != []
    ensures Preimage(blocks) == BlockText(blocks[0]) + Preimage(blocks[1..])
  {
    BlockText2(blocks[0]);
  }

  lemma Regroup4(a: string, b: string, c: string, d: string)
    ensures a + (b + (c + (d + ""))) == a + b + c + d
  {
  }

  lemma FirstOfIs(json: Json, plain: Json)
    ensures BlockOf(FirstOf(json, plain), json, plain)
  {
    MissingExactly(json);
    MissingExactly(plain);
  }

  lemma DigestFits(H: Digest, text: string)
    requires IsDigest(H)
    ensures Clip(H(text)) == H(text)
  {
  }

  lemma BuiltAs(p: Platform, job: Job, k: nat)
    requires IsDigest(p.H) && k < |job.entries| && Accepts(job.server, job.entries[k]) && job.entries[k].seqNo.Some?
    ensures var (id, row) := BuildRow(p, job.server, job.entries[k], k);
            StoredAs(p, job, k, id, row)
  {
    var e := job.entries[k];
    var (id, row) := BuildRow(p, job.server, e, k);
    FirstOfIs(e.eventJson, e.event);
    FirstOfIs(e.snapshotJson, e.snapshot);
    FirstOfIs(e.enforcementJson, e.enforcement);
    FirstOfIs(e.resolutionJson, e.resolution);
    PreimageOfFour(row.event, row.snapshot, row.enforcement, row.resolution);
    DigestFits(p.H, Preimage(row.Blocks()));
    DigestFits(p.H, ChainPreimage(p.years, e.prev, id, row.createdAt));
  }

  // ---------------------------------------------------------------- over runs

  /** In every reachable table, every row is one entry of one call, in each of its columns. */
  lemma {:induction false} RowsAreEntries(p: Platform, jobs: seq<Job>, n: nat, id: string)
    requires IsDigest(p.H) && n <= |jobs| && id in Run(p, jobs, n)
    ensures exists j: nat, k: nat :: j < n && StoredAs(p, jobs[j], k, id, Run(p, jobs, n)[id])
  {
    var job, row := jobs[n - 1], Run(p, jobs, n)[id];
    var batch := Build(p, job.server, job.entries, |job.entries|);
    if Numbered(job.server, job.entries) { InsertAllSources(Run(p, jobs, n - 1), batch, id); }
    if id in Run(p, jobs, n - 1) && Run(p, jobs, n - 1)[id] == row {
      RowsAreEntries(p, jobs, n - 1, id);
      var j: nat, k: nat :| j < n - 1 && StoredAs(p, jobs[j], k, id, row);
    } else {
      var i: nat :| i < |batch| && batch[i] == (id, row);
      var k := BuildSource(p, job, |job.entries|, i);
      assert Countable(job.server, job.entries[k]);
      BuiltAs(p, job, k);
      assert StoredAs(p, jobs[n - 1], k, id, row);
    }
  }

  /** An emitter that sends its own id, within the column, and its own instant finds its own linkage digest stored. */
  lemma ClientLinkKept(p: Platform, job: Job, k: nat, id: string, row: Row)
    requires StoredAs(p, job, k, id, row) && job.entries[k].created.Some?
    requires 0 < |job.entries[k].id| <= 64
    ensures var e := job.entries[k];
            id == e.id && row.createdAt == e.created.value
            && row.chainHash == p.H(EmitterText(p.years, e.prev, e.id, e.created.value))
  {
    var e := job.entries[k];
    assert id == e.id[..|id|];
  }

  /** Entries whose workspace the server knows. */
  function Known(server: Server, entries: seq<Entry>, n: nat): set<nat>
    requires n <= |entries|
  {
    set k: nat | k < n && entries[k].workspace.Some? && entries[k].workspace.value in server.workspaces
  }

  lemma KnownNext(server: Server, entries: seq<Entry>, n: nat)
    requires n < |entries|
    ensures Known(server, entries, n + 1)
            == Known(server, entries, n) + if Accepts(server, entries[n]) then {n} else {}
  {
  }

  lemma ItemSize(p: Platform, server: Server, e: Entry, k: nat)
    ensures |Item(p, server, e, k)| == if Accepts(server, e) then 1 else 0
  {
  }

  /** The batch, and so the count answered, has one row for each of them. */
  lemma {:induction false} BuildsKnown(p: Platform, server: Server, entries: seq<Entry>, n: nat)
    requires n <= |entries|
    ensures |Build(p, server, entries, n)| == |Known(server, entries, n)|
  {
    if n > 0 {
      BuildsKnown(p, server, entries, n - 1);
      KnownNext(server, entries, n - 1);
      BuildNext(p, server, entries, n - 1);
      ItemSize(p, server, entries[n - 1], n - 1);
    }
  }

  /** The first entry offered under a new id: accepted, and no accepted one before it clips to the same id. */
  predicate Leads(server: Server, entries: seq<Entry>, k: nat) {
    && k < |entries| && k in Known(server, entries, |entries|)
    && forall j :: 0 <= j < k && j in Known(server, entries, |entries|) ==> !Column(Clip(entries[k].id), entries[j].id)
  }

  lemma NotBefore(p: Platform, server: Server, entries: seq<Entry>, k: nat, j: nat)
    requires Explicit(entries) && Leads(server, entries, k) && j < |Build(p, server, entries, k)|
    ensures Build(p, server, entries, k)[j].0 != Clip(entries[k].id)
  {
    BuildIds(p, server, entries, k);
    AcceptedFrom(server, entries, k, AcceptedIds(server, entries, k)[j]);
  }

  lemma FirstAtGrows(a: Batch, b: Batch, id: string, i: nat)
    requires FirstAt(a, id, i)
    ensures FirstAt(a + b, id, i) && (a + b)[i] == a[i]
  {
  }

  lemma FirstAtEnd(a: Batch, item: (string, Row), id: string)
    requires item.0 == id && forall j :: 0 <= j < |a| ==> a[j].0 != id
    ensures FirstAt(a + [item], id, |a|) && (a + [item])[|a|] == item
  {
  }

  lemma ItemOf(p: Platform, server: Server, e: Entry, k: nat)
    requires e.id != "" && Accepts(server, e)
    ensures Item(p, server, e, k) == [BuildRow(p, server, e, k)] && BuildRow(p, server, e, k).0 == Clip(e.id)
  {
    ItemKeys(p, server, e, k);
  }

  /** The row of entry `k` is the first in the batch under its id, at place `i`. */
  predicate FoundAt(batch: Batch, item: (string, Row), i: nat) {
    FirstAt(batch, item.0, i) && batch[i] == item
  }

  lemma BuiltLast(p: Platform, server: Server, entries: seq<Entry>, k: nat) returns (i: nat)
    requires Explicit(entries) && Leads(server, entries, k)
    ensures FoundAt(Build(p, server, entries, k + 1), BuildRow(p, server, entries[k], k), i)
  {
    var before := Build(p, server, entries, k);
    i := |before|;
    BuildNext(p, server, entries, k);
    ItemOf(p, server, entries[k], k);
    forall j | 0 <= j < i ensures before[j].0 != Clip(entries[k].id) { NotBefore(p, server, entries, k, j); }
    FirstAtEnd(before, BuildRow(p, server, entries[k], k), Clip(entries[k].id));
  }

  lemma {:induction false} StaysFound(p: Platform, server: Server, entries: seq<Entry>, m: nat, n: nat,
                                      item: (string, Row), i: nat)
    requires m <= n <= |entries| && FoundAt(Build(p, server, entries, m), item, i)
    ensures FoundAt(Build(p, server, entries, n), item, i)
  {
    if m < n {
      StaysFound(p, server, entries, m, n - 1, item, i);
      BuildNext(p, server, entries, n - 1);
      FirstAtGrows(Build(p, server, entries, n - 1), Item(p, server, entries[n - 1], n - 1), item.0, i);
    }
  }

  /** Of the entries offered under a new id the first is stored. */
  lemma FirstEntryStored(p: Platform, rows: Rows, job: Job, k: nat)
    requires IsDigest(p.H) && Explicit(job.entries) && Leads(job.server, job.entries, k)
    requires Clip(job.entries[k].id) !in rows && forall i :: 0 <= i < |job.entries| ==> job.entries[i].seqNo.Some?
    ensures var after := Ingested(p, rows, job.server, job.entries);
            var id := Clip(job.entries[k].id);
            id in after && StoredAs(p, job, k, id, after[id])
  {
    var entries := job.entries;
    assert Numbered(job.server, entries);
    var i := BuiltLast(p, job.server, entries, k);
    StaysFound(p, job.server, entries, k + 1, |entries|, BuildRow(p, job.server, entries[k], k), i);
    ItemOf(p, job.server, entries[k], k);
    BuiltAs(p, job, k);
    FirstWriteWins(rows, Build(p, job.server, entries, |entries|), i);
  }

  // ---------------------------------------------------------------- replay

  /** A replay answers "verified" exactly when both hashes are those of the stored columns. */
  lemma ReplayExactly(p: Platform, id: string, row: Row)
    requires IsDigest(p.H)
    ensures Verified(p, id, row)
            <==> row.chainHash == p.H(EmitterText(p.years, row.prev, id, row.createdAt)) && Hashed(p, row)
  {
    EntryHashIgnoresEmpty(p.H, row.event, row.snapshot, row.enforcement, row.resolution);
    PreimageOfFour(row.event, row.snapshot, row.enforcement, row.resolution);
  }
}
